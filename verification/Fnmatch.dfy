/**
 * Matching path names against shell patterns. A pattern is a list of tokens,
 * each of which matches one character, or a run of characters for a star; the
 * matcher works on the text of the pattern, with shortcuts for stars and a
 * limit on how deep it recurses.
 */
module Fnmatch {

  /** A C character; a string holds no terminator, which is read as 0 past its end. */
  type char8 = x: int | -128 <= x < 128

  type text = seq<char8>

  const EOS: char8 := 0
  const BANG: char8 := 33
  const STAR: char8 := 42
  const DASH: char8 := 45
  const DOT: char8 := 46
  const SLASH: char8 := 47
  const QUESTION: char8 := 63
  const LEFT: char8 := 91
  const BACKSLASH: char8 := 92
  const RIGHT: char8 := 93
  const CARET: char8 := 94

  function At(s: text, i: nat): char8 { if i < |s| then s[i] else EOS }

  function Lower(c: char8): char8 { if 65 <= c <= 90 then c + 32 else c }

  datatype Flags = Flags(noEscape: bool, pathName: bool, period: bool, leadingDir: bool, caseFold: bool)

  function Fold(f: Flags, c: char8): char8 { if f.caseFold then Lower(c) else c }

  // ----- patterns -----

  /** A character of a bracket expression, or a range of them. */
  datatype Item = Item(low: char8, high: char8)

  /** `Never` is a bracket expression with a slash in it where slashes are special. */
  datatype Token = Any | Star | Bracket(negate: bool, items: seq<Item>) | Literal(c: char8) | Never

  datatype ItemRead = NoItem | SlashItem | ItemRead(item: Item, length: nat)

  predicate Escapes(f: Flags, c: char8) { c == BACKSLASH && !f.noEscape }

  /** One element of a bracket expression; a backslash quotes either end of a range. */
  function ReadItem(p: text, f: Flags): (r: ItemRead)
    ensures r.ItemRead? ==> 1 <= r.length <= |p|
  {
    var n := if Escapes(f, At(p, 0)) then 1 else 0;
    var c := At(p, n);
    if n >= |p| || c == EOS then NoItem
    else if c == SLASH && f.pathName then SlashItem
    else if At(p, n + 1) == DASH && At(p, n + 2) != EOS && At(p, n + 2) != RIGHT then
      var m := if Escapes(f, At(p, n + 2)) then n + 3 else n + 2;
      if m >= |p| || At(p, m) == EOS then NoItem
      else ItemRead(Item(Fold(f, c), Fold(f, At(p, m))), m + 1)
    else ItemRead(Item(Fold(f, c), Fold(f, c)), n + 1)
  }

  datatype BracketRead = Unterminated | SlashInside | BracketRead(items: seq<Item>, rest: text)

  /** The elements up to the closing bracket; a closing bracket that comes first is an element. */
  function ReadItems(p: text, f: Flags): (r: BracketRead)
    ensures r.BracketRead? ==> |r.rest| < |p|
    decreases |p|
  {
    match ReadItem(p, f)
    case NoItem => Unterminated
    case SlashItem => SlashInside
    case ItemRead(item, n) =>
      if |p| > n && p[n] == RIGHT then BracketRead([item], p[n + 1..])
      else
        match ReadItems(p[n..], f)
        case Unterminated => Unterminated
        case SlashInside => SlashInside
        case BracketRead(items, rest) => BracketRead([item] + items, rest)
  }

  predicate Negated(p: text) { At(p, 0) == BANG || At(p, 0) == CARET }

  /** What follows an opening bracket. */
  function ReadBracket(p: text, f: Flags): (r: BracketRead)
    ensures r.BracketRead? ==> |r.rest| < |p|
  {
    if Negated(p) then ReadItems(p[1..], f) else ReadItems(p, f)
  }

  datatype Head = Head(token: Token, rest: text)

  /** The first token. An opening bracket without its closing one stands for itself. */
  function First(p: text, f: Flags): (r: Head)
    requires p != []
    ensures |r.rest| < |p| && (r.token == Star <==> p[0] == STAR)
  {
    if p[0] == QUESTION then Head(Any, p[1..])
    else if p[0] == STAR then Head(Star, p[1..])
    else if p[0] == LEFT then
      match ReadBracket(p[1..], f)
      case Unterminated => Head(Literal(LEFT), p[1..])
      case SlashInside => Head(Never, p[1..])
      case BracketRead(items, rest) => Head(Bracket(Negated(p[1..]), items), rest)
    else if Escapes(f, p[0]) && |p| > 1 then Head(Literal(p[1]), p[2..])
    else Head(Literal(p[0]), p[1..])
  }

  function Parse(p: text, f: Flags): seq<Token>
    decreases |p|
  {
    if p == [] then [] else [First(p, f).token] + Parse(First(p, f).rest, f)
  }

  // ----- what a pattern matches -----

  /** A period that only a period in the pattern may match. */
  predicate LeadingPeriod(s: text, i: nat, f: Flags) {
    f.period && At(s, i) == DOT && (i == 0 || (f.pathName && i <= |s| && s[i - 1] == SLASH))
  }

  predicate InItems(items: seq<Item>, c: char8) {
    exists k :: 0 <= k < |items| && items[k].low <= c <= items[k].high
  }

  /** Whether a token other than a star matches the character at `i`. */
  predicate OneMatches(t: Token, s: text, i: nat, f: Flags) {
    i < |s| &&
    match t
    case Any => !(f.pathName && s[i] == SLASH) && !LeadingPeriod(s, i, f)
    case Bracket(negate, items) =>
      !(f.pathName && s[i] == SLASH) && !LeadingPeriod(s, i, f) && InItems(items, Fold(f, s[i])) != negate
    case Literal(c) => s[i] == c || (f.caseFold && Lower(s[i]) == Lower(c))
    case _ => false
  }

  predicate NoSlash(s: text, i: nat, k: nat) {
    forall j :: i <= j < k && j < |s| ==> s[j] != SLASH
  }

  /** A star may stand for the characters from `i` to `k`. */
  predicate StarSpans(s: text, i: nat, k: nat, f: Flags) {
    i <= k <= |s| && (f.pathName ==> NoSlash(s, i, k))
  }

  /** The tokens match the rest of `s` from `i` on, or, if so asked, up to a slash. */
  ghost predicate Matches(ts: seq<Token>, s: text, i: nat, f: Flags)
    decreases |ts|
  {
    if ts == [] then i == |s| || (f.leadingDir && At(s, i) == SLASH)
    else if ts[0] == Star then
      !LeadingPeriod(s, i, f) && exists k: nat :: StarSpans(s, i, k, f) && Matches(ts[1..], s, k, f)
    else OneMatches(ts[0], s, i, f) && Matches(ts[1..], s, i + 1, f)
  }

  function SkipStars(p: text): (r: text)
    ensures |r| <= |p| && (r != [] ==> r[0] != STAR)
  {
    if p != [] && p[0] == STAR then SkipStars(p[1..]) else p
  }

  /** How many separate runs of stars a pattern has. */
  function Runs(p: text, f: Flags): nat
    decreases |p|
  {
    if p == [] then 0
    else if p[0] == STAR then 1 + Runs(SkipStars(p[1..]), f)
    else Runs(First(p, f).rest, f)
  }

  /** Leading periods cease to be special after a star, unless a slash comes next. */
  function AfterStar(q: text, f: Flags): Flags {
    if f.pathName && At(q, 0) == SLASH then f else f.(period := false)
  }

  /** What the matcher accepts. */
  ghost predicate Accepts(p: text, s: text, i: nat, f: Flags)
    decreases |p|
  {
    if p == [] then i == |s| || (f.leadingDir && At(s, i) == SLASH)
    else if p[0] == STAR then
      var q := SkipStars(p[1..]);
      !LeadingPeriod(s, i, f) && exists k: nat :: StarSpans(s, i, k, f) && Accepts(q, s, k, AfterStar(q, f))
    else OneMatches(First(p, f).token, s, i, f) && Accepts(First(p, f).rest, s, i + 1, f)
  }

  // ----- bracket expressions -----

  datatype Range = RangeMatch | RangeNoMatch | RangeError

  /** Tests one character against a bracket expression, element by element. */
  method MatchRange(p: text, test: char8, f: Flags) returns (r: Range, rest: text)
    ensures
      match ReadBracket(p, f)
      case Unterminated => r == RangeError
      case SlashInside => r == RangeNoMatch
      case BracketRead(items, after) =>
        rest == after && r == if InItems(items, Fold(f, test)) != Negated(p) then RangeMatch else RangeNoMatch
  {
    var negate := Negated(p);
    var q := if negate then p[1..] else p;
    var t := Fold(f, test);
    var ok := false;
    rest := [];
    ghost var whole, done := ReadItems(q, f), [];
    while true
      invariant whole == Prepend(done, ReadItems(q, f)) && ok == InItems(done, t)
      decreases |q|
    {
      var item := ReadItem(q, f);
      if item.NoItem? {
        return RangeError, rest;
      }
      if item.SlashItem? {
        return RangeNoMatch, rest;
      }
      InItemsExtend(done, item.item, t);
      if item.item.low <= t <= item.item.high {
        ok := true;
      }
      ghost var before := done;
      done := done + [item.item];
      if |q| > item.length && q[item.length] == RIGHT {
        rest := q[item.length + 1..];
        break;
      }
      PrependExtend(before, item.item, ReadItems(q[item.length..], f));
      q := q[item.length..];
    }
    r := if ok == negate then RangeNoMatch else RangeMatch;
  }

  function Prepend(items: seq<Item>, r: BracketRead): BracketRead {
    if r.BracketRead? then r.(items := items + r.items) else r
  }

  lemma PrependExtend(before: seq<Item>, item: Item, r: BracketRead)
    ensures Prepend(before, Prepend([item], r)) == Prepend(before + [item], r)
  {
    if r.BracketRead? {
      assert before + ([item] + r.items) == before + [item] + r.items;
    }
  }

  lemma InItemsExtend(items: seq<Item>, item: Item, c: char8)
    ensures InItems(items + [item], c) <==> InItems(items, c) || item.low <= c <= item.high
  {
    var all := items + [item];
    if InItems(items, c) {
      var k :| 0 <= k < |items| && items[k].low <= c <= items[k].high;
      assert all[k] == items[k];
    }
    if item.low <= c <= item.high {
      assert all[|items|] == item;
    }
    if InItems(all, c) {
      var k :| 0 <= k < |all| && all[k].low <= c <= all[k].high;
      assert k < |items| ==> items[k] == all[k];
    }
  }

  // ----- the matcher -----

  datatype Result = Matched | NoMatch | NoRes

  /** Matches one token other than a star against the character at `i`. */
  method MatchOne(p: text, s: text, i: nat, f: Flags) returns (ok: bool, rest: text)
    requires p != [] && p[0] != STAR && i <= |s|
    ensures ok <==> OneMatches(First(p, f).token, s, i, f)
    ensures ok ==> rest == First(p, f).rest
  {
    rest := p[1..];
    var c := p[0];
    if c == QUESTION {
      ok := i < |s| && !(s[i] == SLASH && f.pathName) && !LeadingPeriod(s, i, f);
      return;
    }
    if c == LEFT {
      if i == |s| || (s[i] == SLASH && f.pathName) || LeadingPeriod(s, i, f) {
        return false, rest;
      }
      var r, after := MatchRange(rest, s[i], f);
      if r.RangeMatch? {
        return true, after;
      }
      if r.RangeNoMatch? {
        return false, rest;
      }
    } else if Escapes(f, c) && |p| > 1 {
      c := p[1];
      rest := p[2..];
    }
    ok := i < |s| && (c == s[i] || (f.caseFold && Lower(c) == Lower(s[i])));
  }

  method FindSlash(s: text, i: nat) returns (k: nat)
    requires i <= |s|
    ensures i <= k <= |s| && NoSlash(s, i, k) && (k < |s| ==> s[k] == SLASH)
  {
    k := i;
    while k < |s| && s[k] != SLASH
      invariant i <= k <= |s| && NoSlash(s, i, k)
    {
      k := k + 1;
    }
  }

  lemma SlashStops(s: text, i: nat, j: nat, k: nat)
    requires NoSlash(s, i, j) && i <= k < |s| && s[k] == SLASH
    ensures j <= k
  {}

  /** A star that ends the pattern. */
  lemma StarAtEnd(p: text, s: text, i: nat, f: Flags, k: nat)
    requires p != [] && p[0] == STAR && SkipStars(p[1..]) == []
    requires i <= k <= |s| && NoSlash(s, i, k) && (k < |s| ==> s[k] == SLASH)
    ensures Accepts(p, s, i, f) <==> !LeadingPeriod(s, i, f) && (f.pathName ==> f.leadingDir || k == |s|)
  {
    var g := AfterStar([], f);
    var l := if f.pathName then k else |s|;
    assert StarSpans(s, i, l, f);
    if f.leadingDir || l == |s| {
      assert Accepts([], s, l, g);
    }
    forall j: nat | StarSpans(s, i, j, f) && f.pathName ensures j <= k {
      if k < |s| {
        SlashStops(s, i, j, k);
      }
    }
  }

  /** Where slashes are special, a star before a slash runs to the next slash. */
  lemma StarBeforeSlash(p: text, s: text, i: nat, f: Flags, k: nat)
    requires f.pathName && p != [] && p[0] == STAR && At(SkipStars(p[1..]), 0) == SLASH
    requires i <= k <= |s| && NoSlash(s, i, k) && (k < |s| ==> s[k] == SLASH)
    ensures Accepts(p, s, i, f) <==>
              !LeadingPeriod(s, i, f) && k < |s| && Accepts(SkipStars(p[1..]), s, k, f)
  {
    var q := SkipStars(p[1..]);
    assert First(q, f).token == Literal(SLASH);
    assert StarSpans(s, i, k, f);
    forall l: nat | StarSpans(s, i, l, f) && Accepts(q, s, l, f) ensures l == k {
      assert s[l] == SLASH;
      assert k < l ==> NoSlash(s, i, l);
    }
  }

  /** The matcher, with the depth it may still recurse to. */
  method MatchFrom(pat: text, s: text, start: nat, f: Flags, depth: nat) returns (r: Result)
    requires start <= |s| && (f.period ==> start == 0)
    ensures r == NoRes ==> Runs(pat, f) >= depth
    ensures r != NoRes ==> (r == Matched <==> Accepts(pat, s, start, f))
    decreases depth, 0
  {
    if depth == 0 {
      return NoRes;
    }
    var p := pat;
    var i: nat := start;
    while p != []
      invariant i <= |s| && Runs(p, f) <= Runs(pat, f)
      invariant Accepts(pat, s, start, f) <==> Accepts(p, s, i, f)
      decreases |p|
    {
      if p[0] != STAR {
        var ok, rest := MatchOne(p, s, i, f);
        if !ok {
          return NoMatch;
        }
        p, i := rest, i + 1;
      } else {
        var q := Collapse(p[1..]);
        if LeadingPeriod(s, i, f) {
          return NoMatch;
        }
        var k := FindSlash(s, i);
        if q == [] {
          StarAtEnd(p, s, i, f, k);
          return if f.pathName && !f.leadingDir && k < |s| then NoMatch else Matched;
        }
        if q[0] == SLASH && f.pathName {
          StarBeforeSlash(p, s, i, f, k);
          if k == |s| {
            return NoMatch;
          }
          p, i := q, k;
        } else {
          r := MatchSomewhere(q, s, i, f, depth - 1);
          return;
        }
      }
    }
    r := if (f.leadingDir && At(s, i) == SLASH) || i == |s| then Matched else NoMatch;
  }

  method Collapse(p: text) returns (q: text)
    ensures q == SkipStars(p)
  {
    q := p;
    while q != [] && q[0] == STAR
      invariant SkipStars(p) == SkipStars(q)
    {
      q := q[1..];
    }
  }

  /** Tries what follows a star at each place the star may end. */
  method MatchSomewhere(q: text, s: text, start: nat, f: Flags, depth: nat) returns (r: Result)
    requires q != [] && q[0] != STAR && start <= |s|
    ensures r == NoRes ==> Runs(q, f) >= depth
    ensures r == Matched ==> exists k: nat :: StarSpans(s, start, k, f) && Accepts(q, s, k, f.(period := false))
    ensures r == NoMatch ==> forall k: nat :: StarSpans(s, start, k, f) ==> !Accepts(q, s, k, f.(period := false))
    decreases depth, 1
  {
    var g := f.(period := false);
    RunsIgnorePeriod(q, f);
    var i := start;
    while i < |s|
      invariant start <= i <= |s| && (f.pathName ==> NoSlash(s, start, i))
      invariant Nowhere(q, s, start, i, g)
    {
      r := MatchFrom(q, s, i, g, depth);
      if r != NoMatch {
        assert StarSpans(s, start, i, f);
        return;
      }
      if s[i] == SLASH && f.pathName {
        NowhereSpans(q, s, start, i, f);
        return;
      }
      i := i + 1;
    }
    NowhereSpans(q, s, start, i, f);
    r := NoMatch;
  }

  /** What follows a star is accepted at no place before `k`. */
  ghost predicate Nowhere(q: text, s: text, start: nat, k: nat, g: Flags) {
    forall i: nat :: start <= i < k ==> !Accepts(q, s, i, g)
  }

  lemma NowhereSpans(q: text, s: text, start: nat, k: nat, f: Flags)
    requires q != [] && q[0] != STAR && start <= k <= |s| && Nowhere(q, s, start, k, f.(period := false))
    requires k < |s| ==> f.pathName && s[k] == SLASH && !Accepts(q, s, k, f.(period := false))
    ensures forall i: nat :: StarSpans(s, start, i, f) ==> !Accepts(q, s, i, f.(period := false))
  {
    var g := f.(period := false);
    forall i: nat | StarSpans(s, start, i, f) ensures !Accepts(q, s, i, g) {
      if k < |s| {
        SlashStops(s, start, i, k);
      }
    }
  }

  /** The reading of a pattern does not depend on how periods are treated. */
  lemma {:induction false} ItemsIgnorePeriod(p: text, f: Flags)
    ensures ReadItems(p, f) == ReadItems(p, f.(period := false))
    decreases |p|
  {
    var r := ReadItem(p, f);
    assert r == ReadItem(p, f.(period := false));
    if r.ItemRead? {
      ItemsIgnorePeriod(p[r.length..], f);
    }
  }

  lemma FirstIgnoresPeriod(p: text, f: Flags)
    requires p != []
    ensures First(p, f) == First(p, f.(period := false))
  {
    if p[0] == LEFT {
      var q := p[1..];
      ItemsIgnorePeriod(if Negated(q) then q[1..] else q, f);
    }
  }

  lemma {:induction false} RunsIgnorePeriod(p: text, f: Flags)
    ensures Runs(p, f) == Runs(p, f.(period := false))
    ensures Parse(p, f) == Parse(p, f.(period := false))
    decreases |p|
  {
    if p != [] {
      FirstIgnoresPeriod(p, f);
      RunsIgnorePeriod(First(p, f).rest, f);
      if p[0] == STAR {
        RunsIgnorePeriod(SkipStars(p[1..]), f);
      }
    }
  }

  // ----- the matcher and the meaning of patterns -----

  lemma SpansCompose(s: text, i: nat, k: nat, l: nat, f: Flags)
    requires StarSpans(s, i, k, f) && StarSpans(s, k, l, f)
    ensures StarSpans(s, i, l, f)
  {}

  /** Two stars in a row are one. */
  lemma StarStar(ts: seq<Token>, s: text, i: nat, f: Flags)
    requires i <= |s|
    ensures Matches([Star] + ([Star] + ts), s, i, f) <==> Matches([Star] + ts, s, i, f)
  {
    var one, two := [Star] + ts, [Star] + ([Star] + ts);
    assert one[1..] == ts && two[1..] == one;
    if Matches(two, s, i, f) {
      var k: nat :| StarSpans(s, i, k, f) && Matches(one, s, k, f);
      var l: nat :| StarSpans(s, k, l, f) && Matches(ts, s, l, f);
      SpansCompose(s, i, k, l, f);
    }
    if Matches(one, s, i, f) {
      assert StarSpans(s, i, i, f) && Matches(one, s, i, f);
    }
  }

  lemma {:induction false} SkippedStars(p: text, s: text, i: nat, f: Flags)
    requires i <= |s|
    ensures Matches([Star] + Parse(p, f), s, i, f) <==> Matches([Star] + Parse(SkipStars(p), f), s, i, f)
  {
    if p != [] && p[0] == STAR {
      StarStar(Parse(p[1..], f), s, i, f);
      SkippedStars(p[1..], s, i, f);
    }
  }

  /** No period from `i` on is a leading one. */
  ghost predicate NoLeading(s: text, i: nat, f: Flags) {
    forall k: nat :: i <= k <= |s| ==> !LeadingPeriod(s, k, f)
  }

  lemma {:induction false} PeriodOff(ts: seq<Token>, s: text, i: nat, f: Flags)
    requires NoLeading(s, i, f)
    ensures Matches(ts, s, i, f) <==> Matches(ts, s, i, f.(period := false))
    decreases |ts|
  {
    var g := f.(period := false);
    if ts != [] {
      if ts[0] == Star {
        forall k: nat | StarSpans(s, i, k, f) ensures Matches(ts[1..], s, k, f) <==> Matches(ts[1..], s, k, g) {
          PeriodOff(ts[1..], s, k, f);
        }
        forall k: nat ensures StarSpans(s, i, k, f) <==> StarSpans(s, i, k, g) {}
      } else {
        PeriodOff(ts[1..], s, i + 1, f);
      }
    }
  }

  /** Some period comes right after a slash. */
  ghost predicate PeriodAfterSlash(s: text) {
    exists j :: 0 < j < |s| && s[j] == DOT && s[j - 1] == SLASH
  }

  /** The period at `j` comes right after a slash, and well before it a star may stand. */
  predicate HiddenAt(s: text, i: nat, j: nat, f: Flags) {
    j < |s| && s[j] == DOT && i + 1 < j && s[j - 1] == SLASH && s[i] != SLASH && !LeadingPeriod(s, i, f)
  }

  ghost predicate PeriodHidden(s: text, f: Flags) {
    exists i: nat, j: nat :: HiddenAt(s, i, j, f)
  }

  /**
   * Whether the matcher may be relied on for every pattern. Without escapes a
   * slash after a star is always seen as one, so what follows the star has to
   * match something else first.
   */
  ghost predicate Reliable(s: text, f: Flags) {
    f.period && f.pathName ==> if f.noEscape then !PeriodHidden(s, f) else !PeriodAfterSlash(s)
  }

  /** The matcher accepts exactly what the pattern means, if periods after slashes are not in play. */
  lemma {:induction false} AcceptsMeaning(p: text, s: text, i: nat, f: Flags)
    requires i <= |s| && Reliable(s, f)
    ensures Accepts(p, s, i, f) <==> Matches(Parse(p, f), s, i, f)
    decreases |p|, 0
  {
    if p == [] {
    } else if p[0] == STAR {
      var q := SkipStars(p[1..]);
      SkippedStars(p[1..], s, i, f);
      if !LeadingPeriod(s, i, f) {
        StarMeaning(q, s, i, f);
      }
    } else if i < |s| {
      AcceptsMeaning(First(p, f).rest, s, i + 1, f);
    }
  }

  /** Where a star ends, either no leading period comes any more, or what follows the star does not go on. */
  lemma AfterSpan(q: text, s: text, i: nat, k: nat, f: Flags)
    requires i <= |s| && Reliable(s, f) && !LeadingPeriod(s, i, f) && StarSpans(s, i, k, f)
    requires AfterStar(q, f) != f && (q != [] ==> q[0] != STAR)
    ensures
      || NoLeading(s, k, f)
      || (!Accepts(q, s, k, AfterStar(q, f)) && !Matches(Parse(q, f), s, k, f))
      || q == []
  {
    if f.pathName && q != [] {
      assert k > i ==> s[k - 1] != SLASH;
      if k < |s| && s[k] != SLASH {
        forall l: nat | k <= l <= |s| ensures !LeadingPeriod(s, l, f) {
          if f.noEscape && k < l < |s| {
            assert !HiddenAt(s, k, l, f);
          }
        }
      } else if f.noEscape {
        assert !OneMatches(First(q, f).token, s, k, f) && !OneMatches(First(q, AfterStar(q, f)).token, s, k, AfterStar(q, f));
      }
    }
  }

  lemma {:induction false} StarMeaning(q: text, s: text, i: nat, f: Flags)
    requires i <= |s| && Reliable(s, f) && !LeadingPeriod(s, i, f) && (q != [] ==> q[0] != STAR)
    ensures (exists k: nat :: StarSpans(s, i, k, f) && Accepts(q, s, k, AfterStar(q, f))) <==>
            Matches([Star] + Parse(q, f), s, i, f)
    decreases |q|, 1
  {
    var g := AfterStar(q, f);
    var ts := Parse(q, f);
    assert ([Star] + ts)[1..] == ts;
    forall k: nat | StarSpans(s, i, k, f) ensures Accepts(q, s, k, g) <==> Matches(ts, s, k, f) {
      AcceptsMeaning(q, s, k, g);
      if g != f {
        RunsIgnorePeriod(q, f);
        AfterSpan(q, s, i, k, f);
        if NoLeading(s, k, f) {
          PeriodOff(ts, s, k, f);
        }
      }
    }
  }

  const DEPTH := 64

  /** The entry point. It gives up only on patterns with at least 64 runs of stars. */
  method Match(pat: text, s: text, f: Flags) returns (r: Result)
    ensures Runs(pat, f) < DEPTH ==> r != NoRes
    ensures r != NoRes ==> (r == Matched <==> Accepts(pat, s, 0, f))
    ensures r != NoRes && Reliable(s, f) ==> (r == Matched <==> Matches(Parse(pat, f), s, 0, f))
  {
    r := MatchFrom(pat, s, 0, f, DEPTH);
    if Reliable(s, f) {
      AcceptsMeaning(pat, s, 0, f);
    }
  }

  // ----- where the two differ -----

  /** A pattern for exactly this text. */
  function Quote(x: text): text {
    if x == [] then [] else [BACKSLASH, x[0]] + Quote(x[1..])
  }

  lemma FirstOfQuote(x: text, p: text, f: Flags)
    requires x != [] && !f.noEscape
    ensures Quote(x) + p != [] && (Quote(x) + p)[0] == BACKSLASH
    ensures First(Quote(x) + p, f) == Head(Literal(x[0]), Quote(x[1..]) + p)
  {
    assert (Quote(x) + p)[2..] == Quote(x[1..]) + p;
  }

  lemma {:induction false} QuoteAccepted(x: text, p: text, s: text, i: nat, f: Flags)
    requires !f.noEscape && i + |x| <= |s| && s[i..i + |x|] == x && Accepts(p, s, i + |x|, f)
    ensures Accepts(Quote(x) + p, s, i, f)
    decreases |x|
  {
    if x == [] {
      assert Quote(x) + p == p;
    } else {
      FirstOfQuote(x, p, f);
      assert s[i] == s[i..i + |x|][0];
      assert s[i + 1..i + 1 + |x[1..]|] == s[i..i + |x|][1..];
      QuoteAccepted(x[1..], p, s, i + 1, f);
    }
  }

  lemma {:induction false} QuoteMeans(x: text, p: text, s: text, i: nat, f: Flags)
    requires !f.noEscape && Matches(Parse(Quote(x) + p, f), s, i, f)
    ensures Matches(Parse(p, f), s, i + |x|, f)
    decreases |x|
  {
    if x == [] {
      assert Quote(x) + p == p;
    } else {
      FirstOfQuote(x, p, f);
      QuoteMeans(x[1..], p, s, i + 1, f);
    }
  }

  /** A pattern of slashes, periods and question marks for a text. */
  function Wild(x: text): (p: text)
    ensures |p| == |x|
    ensures forall k :: 0 <= k < |x| ==> p[k] == if x[k] == SLASH || x[k] == DOT then x[k] else QUESTION
  {
    seq(|x|, k requires 0 <= k < |x| => if x[k] == SLASH || x[k] == DOT then x[k] else QUESTION)
  }

  lemma FirstOfWild(x: text, p: text, f: Flags)
    requires x != []
    ensures var q := Wild(x) + p;
            && q != [] && q[0] != STAR
            && First(q, f) == Head(if x[0] == SLASH || x[0] == DOT then Literal(x[0]) else Any, Wild(x[1..]) + p)
  {
    var q := Wild(x) + p;
    assert q[1..] == Wild(x[1..]) + p && q[0] == Wild(x)[0];
  }

  lemma {:induction false} WildAccepted(x: text, p: text, s: text, i: nat, f: Flags)
    requires i + |x| <= |s| && s[i..i + |x|] == x && Accepts(p, s, i + |x|, f)
    ensures Accepts(Wild(x) + p, s, i, f)
    decreases |x|
  {
    var q := Wild(x) + p;
    if x == [] {
      assert q == p;
    } else {
      FirstOfWild(x, p, f);
      assert s[i] == s[i..i + |x|][0];
      assert s[i + 1..i + 1 + |x[1..]|] == s[i..i + |x|][1..];
      WildAccepted(x[1..], p, s, i + 1, f);
    }
  }

  lemma {:induction false} WildMeans(x: text, p: text, s: text, i: nat, f: Flags)
    requires Matches(Parse(Wild(x) + p, f), s, i, f)
    ensures i + |x| <= |s| || x == []
    ensures Matches(Parse(p, f), s, i + |x|, f)
    decreases |x|
  {
    var q := Wild(x) + p;
    if x == [] {
      assert q == p;
    } else {
      FirstOfWild(x, p, f);
      WildMeans(x[1..], p, s, i + 1, f);
    }
  }

  /** A star before a character that is no slash hides the period that comes later. */
  lemma HiddenPeriod(s: text, i: nat, j: nat, f: Flags) returns (p: text)
    requires HiddenAt(s, i, j, f) && f.period && f.pathName
    ensures Accepts(p, s, 0, f) && !Matches(Parse(p, f), s, 0, f)
  {
    var tail := [QUESTION] + Wild(s[j + 1..]);
    var mid := Wild(s[i..j]) + tail;
    var starred := [STAR] + mid;
    p := Wild(s[..i]) + starred;
    HiddenAccepted(s, i, j, f);
    WildAccepted(s[..i], starred, s, 0, f);
    if Matches(Parse(p, f), s, 0, f) {
      WildMeans(s[..i], starred, s, 0, f);
      assert starred[1..] == mid;
      var k: nat :| StarSpans(s, i, k, f) && Matches(Parse(mid, f), s, k, f);
      HiddenUnmatched(s, i, j, f, k);
    }
  }

  /** As many tokens as characters leave the star nothing, and the question mark stands for the period. */
  lemma HiddenUnmatched(s: text, i: nat, j: nat, f: Flags, k: nat)
    requires HiddenAt(s, i, j, f) && f.period && f.pathName && i <= k
    ensures !Matches(Parse(Wild(s[i..j]) + ([QUESTION] + Wild(s[j + 1..])), f), s, k, f)
  {
    var tail := [QUESTION] + Wild(s[j + 1..]);
    if Matches(Parse(Wild(s[i..j]) + tail, f), s, k, f) {
      WildMeans(s[i..j], tail, s, k, f);
      assert tail[1..] == Wild(s[j + 1..]) == Wild(s[j + 1..]) + [];
      WildMeans(s[j + 1..], [], s, k + (j - i) + 1, f);
      assert LeadingPeriod(s, j, f);
    }
  }

  lemma HiddenAccepted(s: text, i: nat, j: nat, f: Flags)
    requires HiddenAt(s, i, j, f)
    ensures Accepts([STAR] + (Wild(s[i..j]) + ([QUESTION] + Wild(s[j + 1..]))), s, i, f)
  {
    var g := f.(period := false);
    var tail := [QUESTION] + Wild(s[j + 1..]);
    var mid := Wild(s[i..j]) + tail;
    assert Wild(s[j + 1..]) + [] == tail[1..];
    WildAccepted(s[j + 1..], [], s, j + 1, g);
    assert Accepts(tail, s, j, g);
    WildAccepted(s[i..j], tail, s, i, g);
    assert mid[0] == Wild(s[i..j])[0];
    assert ([STAR] + mid)[1..] == mid == SkipStars(mid) && AfterStar(mid, f) == g;
    assert StarSpans(s, i, i, f) && Accepts(mid, s, i, AfterStar(mid, f));
  }

  /** Whenever the matcher cannot be relied on, it accepts some pattern that does not match. */
  lemma Unreliable(s: text, f: Flags) returns (p: text)
    requires !Reliable(s, f)
    ensures Accepts(p, s, 0, f) && !Matches(Parse(p, f), s, 0, f)
  {
    if f.noEscape {
      var i: nat, j: nat :| HiddenAt(s, i, j, f);
      p := HiddenPeriod(s, i, j, f);
    } else {
      p := QuotedPeriod(s, f);
    }
  }

  /**
   * Whenever a period comes after a slash, some pattern is accepted though its
   * question mark stands for that period.
   */
  lemma QuotedPeriod(s: text, f: Flags) returns (p: text)
    requires PeriodAfterSlash(s) && f.period && f.pathName && !f.noEscape
    ensures Accepts(p, s, 0, f) && !Matches(Parse(p, f), s, 0, f)
  {
    var j: nat :| 0 < j < |s| && s[j] == DOT && s[j - 1] == SLASH;
    var tail := [QUESTION] + Quote(s[j + 1..]);
    var mid := Quote([SLASH]) + tail;
    var starred := [STAR] + mid;
    p := Quote(s[..j - 1]) + starred;
    TailAccepted(s, j, f.(period := false));
    StarHides(s, j, f, tail);
    QuoteAccepted(s[..j - 1], starred, s, 0, f);
    if Matches(Parse(p, f), s, 0, f) {
      QuoteMeans(s[..j - 1], starred, s, 0, f);
      StarShows(s, j, f, tail);
    }
  }

  lemma TailAccepted(s: text, j: nat, g: Flags)
    requires j < |s| && s[j] == DOT && !g.noEscape && !g.period
    ensures Accepts([QUESTION] + Quote(s[j + 1..]), s, j, g)
  {
    var x := s[j + 1..];
    assert s[j + 1..j + 1 + |x|] == x;
    QuoteAccepted(x, [], s, j + 1, g);
    assert ([QUESTION] + Quote(x))[1..] == Quote(x) == Quote(x) + [];
  }

  lemma StarHides(s: text, j: nat, f: Flags, tail: text)
    requires 0 < j < |s| && s[j] == DOT && s[j - 1] == SLASH && !f.noEscape
    requires Accepts(tail, s, j, f.(period := false))
    ensures Accepts([STAR] + (Quote([SLASH]) + tail), s, j - 1, f)
  {
    var mid := Quote([SLASH]) + tail;
    QuoteAccepted([SLASH], tail, s, j - 1, f.(period := false));
    FirstOfQuote([SLASH], tail, f);
    assert ([STAR] + mid)[1..] == mid == SkipStars(mid);
    assert StarSpans(s, j - 1, j - 1, f) && Accepts(mid, s, j - 1, AfterStar(mid, f));
  }

  lemma StarShows(s: text, j: nat, f: Flags, tail: text)
    requires 0 < j < |s| && s[j] == DOT && s[j - 1] == SLASH && !f.noEscape && f.period && f.pathName
    requires tail != [] && tail[0] == QUESTION
    ensures !Matches(Parse([STAR] + (Quote([SLASH]) + tail), f), s, j - 1, f)
  {
    var mid := Quote([SLASH]) + tail;
    assert ([STAR] + mid)[1..] == mid;
    forall k: nat | StarSpans(s, j - 1, k, f) ensures !Matches(Parse(mid, f), s, k, f) {
      SlashStops(s, j - 1, k, j - 1);
      if Matches(Parse(mid, f), s, k, f) {
        QuoteMeans([SLASH], tail, s, k, f);
        assert LeadingPeriod(s, j, f);
      }
    }
  }
}
