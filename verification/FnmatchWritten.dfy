/**
 * Patterns as they are written, told apart from how they are read: each piece
 * of a pattern is printed, and what is printed is read as that piece. From
 * this follows what the matcher does with the usual patterns.
 */
module FnmatchWritten {
  import opened Fnmatch
  import opened Sequences

  /** A character of a bracket expression, with a backslash before it or not. */
  datatype End = End(quoted: bool, c: char8)

  datatype Element = Single(e: End) | Range(low: End, high: End)

  /** How a bracket expression begins. */
  datatype Sense = Plainly | WithBang | WithCaret

  datatype Piece = OneChar | AnyRun | Plain(c: char8) | Quoted(c: char8) | Set(sense: Sense, elements: seq<Element>)

  // ----- writing -----

  function ShowEnd(e: End): (r: text)
    ensures r != []
  {
    if e.quoted then [92, e.c] else [e.c]
  }

  function ShowElement(e: Element): (r: text)
    ensures r != []
  {
    match e
    case Single(c) => ShowEnd(c)
    case Range(low, high) => ShowEnd(low) + [45] + ShowEnd(high)
  }

  function ShowElements(es: seq<Element>): text { if es == [] then [] else ShowElement(es[0]) + ShowElements(es[1..]) }

  function ShowSense(s: Sense): text {
    match s
    case Plainly => []
    case WithBang => [33]
    case WithCaret => [94]
  }

  function ShowPiece(p: Piece): text {
    match p
    case OneChar => [63]
    case AnyRun => [42]
    case Plain(c) => [c]
    case Quoted(c) => [92, c]
    case Set(sense, es) => [91] + (ShowSense(sense) + (ShowElements(es) + [93]))
  }

  function Show(ps: seq<Piece>): text { if ps == [] then [] else ShowPiece(ps[0]) + Show(ps[1..]) }

  // ----- what can be written -----

  /** Backslashes quote. */
  predicate Quotes(f: Flags) { !f.noEscape }

  predicate LowOk(e: End, f: Flags) {
    e.c != 0 && !(f.pathName && e.c == 47) && if e.quoted then Quotes(f) else !(Quotes(f) && e.c == 92)
  }

  predicate HighOk(e: End, f: Flags) {
    e.c != 0 && if e.quoted then Quotes(f) else e.c != 93 && !(Quotes(f) && e.c == 92)
  }

  predicate ElementOk(e: Element, f: Flags) {
    match e
    case Single(c) => LowOk(c, f)
    case Range(low, high) => LowOk(low, f) && HighOk(high, f)
  }

  function Start(e: Element): End { if e.Single? then e.e else e.low }

  predicate Bare(e: Element, c: char8) { !Start(e).quoted && Start(e).c == c }

  /**
   * The elements are read as they are: a closing bracket without a backslash
   * may only come first, and a dash without one not where it would make a range.
   */
  predicate Apart(es: seq<Element>) {
    && (forall k :: 0 < k < |es| ==> !Bare(es[k], 93))
    && (forall k :: 0 < k < |es| && Bare(es[k], 45) && es[k - 1].Single? ==> k == |es| - 1 && es[k].Single?)
  }

  predicate PieceOk(p: Piece, f: Flags) {
    match p
    case OneChar => true
    case AnyRun => true
    case Plain(c) => c != 0 && c != 63 && c != 42 && c != 91 && !(Quotes(f) && c == 92)
    case Quoted(c) => c != 0 && Quotes(f)
    case Set(sense, es) =>
      && es != [] && Apart(es) && (forall k :: 0 <= k < |es| ==> ElementOk(es[k], f))
      && (sense == Plainly ==> !Bare(es[0], 33) && !Bare(es[0], 94))
  }

  predicate Writable(ps: seq<Piece>, f: Flags) { forall k :: 0 <= k < |ps| ==> PieceOk(ps[k], f) }

  // ----- what it stands for -----

  function ItemOf(e: Element, f: Flags): Item {
    match e
    case Single(c) => Item(Fold(f, c.c), Fold(f, c.c))
    case Range(low, high) => Item(Fold(f, low.c), Fold(f, high.c))
  }

  function ItemsOf(es: seq<Element>, f: Flags): seq<Item> {
    if es == [] then [] else [ItemOf(es[0], f)] + ItemsOf(es[1..], f)
  }

  function TokenOf(p: Piece, f: Flags): Token {
    match p
    case OneChar => Any
    case AnyRun => Star
    case Plain(c) => Literal(c)
    case Quoted(c) => Literal(c)
    case Set(sense, es) => Bracket(sense != Plainly, ItemsOf(es, f))
  }

  function TokensOf(ps: seq<Piece>, f: Flags): seq<Token> {
    if ps == [] then [] else [TokenOf(ps[0], f)] + TokensOf(ps[1..], f)
  }

  // ----- one element -----

  /** What follows an element does not make a range of it. */
  predicate NoRange(rest: text) { !(At(rest, 0) == 45 && At(rest, 1) != 0 && At(rest, 1) != 93) }

  lemma SingleRead(e: End, f: Flags, rest: text)
    requires LowOk(e, f) && NoRange(rest)
    ensures ReadItem(ShowEnd(e) + rest, f) == ItemRead(Item(Fold(f, e.c), Fold(f, e.c)), |ShowEnd(e)|)
  {
    var p := ShowEnd(e) + rest;
    var n := |ShowEnd(e)| - 1;
    assert At(p, n) == e.c && At(p, n + 1) == At(rest, 0) && At(p, n + 2) == At(rest, 1);
  }

  lemma RangeRead(low: End, high: End, f: Flags, rest: text)
    requires LowOk(low, f) && HighOk(high, f)
    ensures ReadItem(ShowEnd(low) + [45] + ShowEnd(high) + rest, f) ==
            ItemRead(Item(Fold(f, low.c), Fold(f, high.c)), |ShowEnd(low) + [45] + ShowEnd(high)|)
  {
    var p := ShowEnd(low) + [45] + ShowEnd(high) + rest;
    var n := |ShowEnd(low)| - 1;
    assert At(p, n) == low.c && At(p, n + 1) == 45 && At(p, n + 2) == ShowEnd(high)[0];
    if high.quoted {
      assert At(p, n + 3) == high.c;
    }
  }

  lemma ElementRead(e: Element, f: Flags, rest: text)
    requires ElementOk(e, f) && (e.Single? ==> NoRange(rest))
    ensures ReadItem(ShowElement(e) + rest, f) == ItemRead(ItemOf(e, f), |ShowElement(e)|)
  {
    match e
    case Single(c) => SingleRead(c, f, rest);
    case Range(low, high) => RangeRead(low, high, f, rest);
  }

  // ----- all elements -----

  lemma ShowStarts(e: Element, rest: text)
    ensures At(ShowElement(e) + rest, 0) == if Start(e).quoted then 92 else Start(e).c
  {}

  /** The next element does not make a range of a single one before it, nor does the end. */
  lemma NextApart(es: seq<Element>, f: Flags, rest: text)
    requires es != [] && Apart(es) && (forall k :: 0 <= k < |es| ==> ElementOk(es[k], f)) && es[0].Single?
    ensures NoRange(ShowElements(es[1..]) + ([93] + rest))
  {
    var more := ShowElements(es[1..]) + ([93] + rest);
    if |es| == 1 {
      assert es[1..] == [] && more == [93] + rest;
    } else {
      var tail := ShowElements(es[2..]) + ([93] + rest);
      assert es[1..][0] == es[1] && es[1..][1..] == es[2..];
      assert more == ShowElement(es[1]) + tail;
      ShowStarts(es[1], tail);
      if Bare(es[1], 45) {
        assert |es| == 2 && es[2..] == [] && tail == [93] + rest;
        assert ShowElement(es[1]) == [45];
      }
    }
  }

  lemma ApartRest(es: seq<Element>)
    requires Apart(es) && es != []
    ensures Apart(es[1..])
  {}

  lemma ReadLast(e: Element, f: Flags, rest: text)
    requires ElementOk(e, f)
    ensures ReadItems(ShowElement(e) + ([93] + rest), f) == BracketRead([ItemOf(e, f)], rest)
  {
    var p, n := ShowElement(e) + ([93] + rest), |ShowElement(e)|;
    ElementRead(e, f, [93] + rest);
    assert p[n] == 93 && p[n + 1..] == rest;
  }

  lemma ReadOn(e: Element, f: Flags, more: text)
    requires ElementOk(e, f) && (e.Single? ==> NoRange(more)) && more != [] && more[0] != 93
    ensures ReadItems(ShowElement(e) + more, f) == Prepend([ItemOf(e, f)], ReadItems(more, f))
  {
    var p, n := ShowElement(e) + more, |ShowElement(e)|;
    ElementRead(e, f, more);
    assert p[n] == more[0] && p[n..] == more;
  }

  /** What comes after the first of several elements. */
  lemma MoreStarts(es: seq<Element>, rest: text)
    requires |es| > 1 && Apart(es)
    ensures var more := ShowElements(es[1..]) + ([93] + rest); more != [] && more[0] != 93
  {
    var tail := ShowElements(es[2..]) + ([93] + rest);
    assert es[1..][0] == es[1] && es[1..][1..] == es[2..];
    assert ShowElements(es[1..]) + ([93] + rest) == ShowElement(es[1]) + tail;
    ShowStarts(es[1], tail);
  }

  lemma ElementsSplit(es: seq<Element>, rest: text)
    requires es != []
    ensures ShowElements(es) + rest == ShowElement(es[0]) + (ShowElements(es[1..]) + rest)
  {}

  lemma {:induction false} ElementsRead(es: seq<Element>, f: Flags, rest: text)
    requires es != [] && Apart(es) && (forall k :: 0 <= k < |es| ==> ElementOk(es[k], f))
    ensures ReadItems(ShowElements(es) + ([93] + rest), f) == BracketRead(ItemsOf(es, f), rest)
    decreases |es|
  {
    ElementsSplit(es, [93] + rest);
    if |es| == 1 {
      assert es[1..] == [] && [] + ([93] + rest) == [93] + rest;
      ReadLast(es[0], f, rest);
    } else {
      if es[0].Single? {
        NextApart(es, f, rest);
      }
      MoreStarts(es, rest);
      ReadOn(es[0], f, ShowElements(es[1..]) + ([93] + rest));
      ApartRest(es);
      ElementsRead(es[1..], f, rest);
    }
  }

  // ----- pieces -----

  lemma BracketFrom(sense: Sense, inner: text, f: Flags, items: seq<Item>, rest: text)
    requires ReadItems(inner, f) == BracketRead(items, rest)
    requires sense == Plainly ==> At(inner, 0) != 33 && At(inner, 0) != 94
    ensures First([91] + (ShowSense(sense) + inner), f) == Head(Bracket(sense != Plainly, items), rest)
  {
    var p := ShowSense(sense) + inner;
    assert ([91] + p)[1..] == p;
    if sense == Plainly {
      assert p == inner;
    } else {
      assert p[1..] == inner;
    }
  }

  lemma SetSplit(sense: Sense, es: seq<Element>, rest: text)
    ensures ShowPiece(Set(sense, es)) + rest == [91] + (ShowSense(sense) + (ShowElements(es) + ([93] + rest)))
  {
    var x, e := ShowSense(sense), ShowElements(es);
    Associative(e, [93], rest);
    Associative(x, e + [93], rest);
    Associative([91], x + (e + [93]), rest);
  }

  lemma SetRead(sense: Sense, es: seq<Element>, f: Flags, rest: text)
    requires PieceOk(Set(sense, es), f)
    ensures First(ShowPiece(Set(sense, es)) + rest, f) == Head(Bracket(sense != Plainly, ItemsOf(es, f)), rest)
  {
    var inner := ShowElements(es) + ([93] + rest);
    SetSplit(sense, es, rest);
    ElementsRead(es, f, rest);
    ElementsSplit(es, [93] + rest);
    ShowStarts(es[0], ShowElements(es[1..]) + ([93] + rest));
    BracketFrom(sense, inner, f, ItemsOf(es, f), rest);
  }

  lemma PieceRead(p: Piece, f: Flags, rest: text)
    requires PieceOk(p, f)
    ensures ShowPiece(p) + rest != [] && First(ShowPiece(p) + rest, f) == Head(TokenOf(p, f), rest)
  {
    var q := ShowPiece(p) + rest;
    match p
    case Set(sense, es) => SetRead(sense, es, f, rest);
    case Quoted(c) => assert q[2..] == rest;
    case _ => assert q[1..] == rest;
  }

  /** Every pattern that can be written is read as what it stands for. */
  lemma {:induction false} ParseShown(ps: seq<Piece>, f: Flags)
    requires Writable(ps, f)
    ensures Parse(Show(ps), f) == TokensOf(ps, f)
    decreases |ps|
  {
    if ps != [] {
      PieceRead(ps[0], f, Show(ps[1..]));
      ParseShown(ps[1..], f);
    }
  }

  // ----- brackets that do not close -----

  lemma ItemWithin(p: text, f: Flags)
    requires 93 !in p && (f.pathName ==> 47 !in p)
    ensures !ReadItem(p, f).SlashItem?
  {}

  lemma {:induction false} NoClose(p: text, f: Flags)
    requires 93 !in p && (f.pathName ==> 47 !in p)
    ensures ReadItems(p, f) == Unterminated
    decreases |p|
  {
    ItemWithin(p, f);
    var r := ReadItem(p, f);
    if r.ItemRead? {
      NoClose(p[r.length..], f);
    }
  }

  /** An opening bracket that is never closed stands for itself, and what follows is read on its own. */
  lemma OpenBracket(p: text, f: Flags)
    requires 93 !in p && (f.pathName ==> 47 !in p)
    ensures First([91] + p, f) == Head(Literal(91), p)
  {
    assert ([91] + p)[1..] == p;
    NoClose(p, f);
    if p != [] {
      NoClose(p[1..], f);
    }
  }

  /** Where slashes are special, a bracket with a slash among its elements matches nothing. */
  lemma {:induction false} SlashInSet(es: seq<Element>, f: Flags, rest: text)
    requires Apart(es + [Single(End(false, 47))]) && (forall k :: 0 <= k < |es| ==> ElementOk(es[k], f)) && f.pathName
    ensures ReadItems(ShowElements(es) + ([47] + rest), f) == SlashInside
    decreases |es|
  {
    var p := ShowElements(es) + ([47] + rest);
    if es == [] {
      assert p == [47] + rest;
    } else {
      var more := ShowElements(es[1..]) + ([47] + rest);
      assert p == ShowElement(es[0]) + more;
      SlashApart(es, f, rest);
      ElementRead(es[0], f, more);
      assert p[|ShowElement(es[0])|..] == more;
      var all := es + [Single(End(false, 47))];
      assert all[1..] == es[1..] + [Single(End(false, 47))];
      ApartRest(all);
      SlashInSet(es[1..], f, rest);
    }
  }

  lemma SlashApart(es: seq<Element>, f: Flags, rest: text)
    requires es != [] && Apart(es + [Single(End(false, 47))]) && (forall k :: 0 <= k < |es| ==> ElementOk(es[k], f))
    ensures var more := ShowElements(es[1..]) + ([47] + rest); more[0] != 93 && (es[0].Single? ==> NoRange(more))
  {
    var all := es + [Single(End(false, 47))];
    var more := ShowElements(es[1..]) + ([47] + rest);
    if |es| == 1 {
      assert es[1..] == [] && more == [47] + rest;
    } else {
      var tail := ShowElements(es[2..]) + ([47] + rest);
      assert es[1..][0] == es[1] && es[1..][1..] == es[2..];
      assert more == ShowElement(es[1]) + tail;
      ShowStarts(es[1], tail);
      assert all[1] == es[1] && all[0] == es[0];
    }
  }

  // ----- what the matcher does with them -----

  lemma {:induction false} RunsOfShown(ps: seq<Piece>, f: Flags)
    requires Writable(ps, f) && AnyRun !in ps
    ensures Runs(Show(ps), f) == 0
    decreases |ps|
  {
    if ps != [] {
      PieceRead(ps[0], f, Show(ps[1..]));
      assert ps[0] in ps;
      RunsOfShown(ps[1..], f);
    }
  }

  /** Without stars a pattern is accepted exactly where it matches. */
  lemma {:induction false} StarlessAccepted(ps: seq<Piece>, s: text, i: nat, f: Flags)
    requires Writable(ps, f) && AnyRun !in ps
    ensures Accepts(Show(ps), s, i, f) <==> Matches(TokensOf(ps, f), s, i, f)
    decreases |ps|
  {
    if ps != [] {
      PieceRead(ps[0], f, Show(ps[1..]));
      assert ps[0] in ps;
      assert TokensOf(ps, f)[1..] == TokensOf(ps[1..], f);
      StarlessAccepted(ps[1..], s, i + 1, f);
    }
  }

  /** A character that may be matched by something else than itself at the start of a text. */
  predicate Free(c: char8, f: Flags) { !(f.pathName && c == 47) && !(f.period && c == 46) }

  /** The characters agree, or are a letter and its capital where case does not matter. */
  predicate Alike(c: char8, d: char8, f: Flags) {
    c == d || (f.caseFold && ((65 <= c <= 90 && d == c + 32) || (65 <= d <= 90 && c == d + 32)))
  }

  /** Matches a text against a pattern of one piece that stands for one character. */
  method MatchPiece(p: Piece, s: text, f: Flags) returns (r: Result)
    requires PieceOk(p, f) && p != AnyRun && !f.leadingDir
    ensures r == Matched <==> |s| == 1 && OneMatches(TokenOf(p, f), s, 0, f)
  {
    r := Match(ShowPiece(p), s, f);
    assert Show([p]) == ShowPiece(p);
    assert p in [p] && AnyRun !in [p];
    RunsOfShown([p], f);
    StarlessAccepted([p], s, 0, f);
    assert TokensOf([p], f) == [TokenOf(p, f)] && [TokenOf(p, f)][1..] == [];
  }

  /** Matches a text against any pattern that can be written. */
  method MatchShown(ps: seq<Piece>, s: text, f: Flags) returns (r: Result)
    requires Writable(ps, f)
    ensures r != NoRes && Reliable(s, f) ==> (r == Matched <==> Matches(TokensOf(ps, f), s, 0, f))
  {
    ParseShown(ps, f);
    r := Match(Show(ps), s, f);
  }

  /** `?` */
  method MatchQuestion(s: text, f: Flags) returns (r: Result)
    requires !f.leadingDir
    ensures r == Matched <==> |s| == 1 && Free(s[0], f)
  {
    r := MatchPiece(OneChar, s, f);
  }

  /** `[!c]` and `[^c]` */
  method MatchAllBut(bang: bool, c: char8, s: text, f: Flags) returns (r: Result)
    requires !f.leadingDir && c != 0 && !(f.pathName && c == 47) && (c == 92 ==> f.noEscape)
    ensures r == Matched <==> |s| == 1 && Free(s[0], f) && !Alike(s[0], c, f)
  {
    var e := Single(End(false, c));
    r := MatchPiece(Set(if bang then WithBang else WithCaret, [e]), s, f);
    assert ItemsOf([e], f) == [ItemOf(e, f)];
    if |s| == 1 {
      OneItem(ItemOf(e, f), Fold(f, s[0]));
    }
  }

  /** `[c-d]` */
  method MatchBetween(c: char8, d: char8, s: text, f: Flags) returns (r: Result)
    requires !f.leadingDir && c != 0 && c != 33 && c != 94 && !(f.pathName && c == 47) && (c == 92 ==> f.noEscape)
    requires d != 0 && d != 93 && (d == 92 ==> f.noEscape)
    ensures r == Matched <==> |s| == 1 && Free(s[0], f) && Fold(f, c) <= Fold(f, s[0]) <= Fold(f, d)
  {
    var e := Range(End(false, c), End(false, d));
    r := MatchPiece(Set(Plainly, [e]), s, f);
    assert ItemsOf([e], f) == [ItemOf(e, f)];
    if |s| == 1 {
      OneItem(ItemOf(e, f), Fold(f, s[0]));
    }
  }

  lemma OneItem(item: Item, c: char8)
    ensures InItems([item], c) <==> item.low <= c <= item.high
  {
    assert [item][0] == item;
  }

  function Letters(x: text): (ps: seq<Piece>)
    ensures |ps| == |x| && forall k :: 0 <= k < |x| ==> ps[k] == Plain(x[k])
  {
    seq(|x|, k requires 0 <= k < |x| => Plain(x[k]))
  }

  lemma {:induction false} PlainShown(x: text)
    ensures Show(Letters(x)) == x
  {
    if x != [] {
      assert Letters(x)[1..] == Letters(x[1..]);
      PlainShown(x[1..]);
      assert x == [x[0]] + x[1..];
    }
  }

  lemma {:induction false} PlainMatches(x: text, s: text, i: nat, f: Flags)
    requires !f.leadingDir && i <= |s|
    ensures Matches(TokensOf(Letters(x), f), s, i, f) <==>
            |s| - i == |x| && forall k :: 0 <= k < |x| ==> Alike(x[k], s[i + k], f)
    decreases |x|
  {
    var ps := Letters(x);
    if x != [] {
      assert ps[1..] == Letters(x[1..]);
      assert TokensOf(ps, f)[1..] == TokensOf(ps[1..], f);
      if i < |s| {
        PlainMatches(x[1..], s, i + 1, f);
        if |s| - i == |x| && forall k :: 0 <= k < |x[1..]| ==> Alike(x[1..][k], s[i + 1 + k], f) {
          forall k | 0 < k < |x| ensures Alike(x[k], s[i + k], f) {
            assert Alike(x[1..][k - 1], s[i + 1 + (k - 1)], f);
          }
        }
      }
    }
  }

  /** The text is spelled like the pattern. */
  ghost predicate Spelled(x: text, s: text, f: Flags) { |s| == |x| && forall k :: 0 <= k < |x| ==> Alike(x[k], s[k], f) }

  ghost predicate AllPlain(x: text, f: Flags) { forall k :: 0 <= k < |x| ==> PieceOk(Plain(x[k]), f) }

  lemma PlainAccepted(x: text, s: text, f: Flags)
    requires !f.leadingDir && AllPlain(x, f)
    ensures Runs(x, f) == 0 && (Accepts(x, s, 0, f) <==> Spelled(x, s, f))
  {
    PlainShown(x);
    RunsOfShown(Letters(x), f);
    StarlessAccepted(Letters(x), s, 0, f);
    PlainMatches(x, s, 0, f);
  }

  /** A pattern without special characters */
  method MatchPlain(x: text, s: text, f: Flags) returns (r: Result)
    requires !f.leadingDir && AllPlain(x, f)
    ensures r == Matched <==> Spelled(x, s, f)
  {
    PlainAccepted(x, s, f);
    r := Match(x, s, f);
  }

  /** `*` */
  method MatchStar(s: text, f: Flags) returns (r: Result)
    requires !f.leadingDir
    ensures r == Matched <==> (f.pathName ==> 47 !in s) && !(f.period && s != [] && s[0] == 46)
  {
    r := Match([42], s, f);
    assert [42][1..] == [];
    assert Runs([42], f) == 1;
    assert Accepts([42], s, 0, f) <==> !LeadingPeriod(s, 0, f) && exists k: nat :: StarSpans(s, 0, k, f) && Accepts([], s, k, AfterStar([], f));
    if f.pathName ==> 47 !in s {
      assert StarSpans(s, 0, |s|, f) && Accepts([], s, |s|, AfterStar([], f));
    }
    forall k: nat | StarSpans(s, 0, k, f) && Accepts([], s, k, AfterStar([], f)) ensures f.pathName ==> 47 !in s {
      assert k == |s|;
    }
  }

  // ----- matching only a leading directory -----

  lemma {:induction false} ItemsIgnoreDir(p: text, f: Flags)
    ensures ReadItems(p, f) == ReadItems(p, f.(leadingDir := false))
    decreases |p|
  {
    var r := ReadItem(p, f);
    assert r == ReadItem(p, f.(leadingDir := false));
    if r.ItemRead? {
      ItemsIgnoreDir(p[r.length..], f);
    }
  }

  lemma FirstIgnoresDir(p: text, f: Flags)
    requires p != []
    ensures First(p, f) == First(p, f.(leadingDir := false))
  {
    if p[0] == LEFT {
      var q := p[1..];
      ItemsIgnoreDir(if Negated(q) then q[1..] else q, f);
    }
  }

  /** The text may be cut off at `j`: it ends there or a slash follows. */
  predicate CutsAt(s: text, j: nat) { j <= |s| && (j < |s| ==> s[j] == 47) }

  lemma PrefixPeriod(s: text, j: nat, i: nat, f: Flags)
    requires i <= j <= |s| && CutsAt(s, j)
    ensures LeadingPeriod(s[..j], i, f) <==> LeadingPeriod(s, i, f.(leadingDir := true))
  {}

  lemma PrefixSpans(s: text, j: nat, i: nat, k: nat, f: Flags)
    requires k <= j <= |s|
    ensures StarSpans(s[..j], i, k, f) <==> StarSpans(s, i, k, f)
  {}

  lemma PrefixOne(t: Token, s: text, j: nat, i: nat, f: Flags)
    requires i < j <= |s| && CutsAt(s, j)
    ensures OneMatches(t, s[..j], i, f.(leadingDir := false)) <==> OneMatches(t, s, i, f)
  {
    PrefixPeriod(s, j, i, f);
  }

  /** What is accepted up to a slash is accepted as a leading directory. */
  lemma {:induction false} DirAccepted(p: text, s: text, i: nat, j: nat, f: Flags)
    requires f.leadingDir && i <= j && CutsAt(s, j) && Accepts(p, s[..j], i, f.(leadingDir := false))
    ensures Accepts(p, s, i, f)
    decreases |p|
  {
    var g := f.(leadingDir := false);
    if p != [] {
      if p[0] == STAR {
        var q := SkipStars(p[1..]);
        PrefixPeriod(s, j, i, f);
        var k: nat :| StarSpans(s[..j], i, k, g) && Accepts(q, s[..j], k, AfterStar(q, g));
        PrefixSpans(s, j, i, k, f);
        DirAccepted(q, s, k, j, AfterStar(q, f));
      } else {
        FirstIgnoresDir(p, f);
        PrefixOne(First(p, f).token, s, j, i, f);
        DirAccepted(First(p, f).rest, s, i + 1, j, f);
      }
    }
  }

  lemma {:induction false} DirNeeded(p: text, s: text, i: nat, f: Flags) returns (j: nat)
    requires f.leadingDir && i <= |s| && Accepts(p, s, i, f)
    ensures i <= j && CutsAt(s, j) && Accepts(p, s[..j], i, f.(leadingDir := false))
    decreases |p|
  {
    var g := f.(leadingDir := false);
    if p == [] {
      j := i;
    } else if p[0] == STAR {
      var q := SkipStars(p[1..]);
      var k: nat :| StarSpans(s, i, k, f) && Accepts(q, s, k, AfterStar(q, f));
      j := DirNeeded(q, s, k, AfterStar(q, f));
      PrefixPeriod(s, j, i, f);
      PrefixSpans(s, j, i, k, f);
      assert StarSpans(s[..j], i, k, g) && Accepts(q, s[..j], k, AfterStar(q, g));
    } else {
      FirstIgnoresDir(p, f);
      j := DirNeeded(First(p, f).rest, s, i + 1, f);
      PrefixOne(First(p, f).token, s, j, i, f);
    }
  }

  /** With `FNM_LEADING_DIR` a pattern is accepted exactly if it is without for the text or for some leading directory of it. */
  lemma LeadingDirMeans(p: text, s: text, f: Flags)
    requires f.leadingDir
    ensures Accepts(p, s, 0, f) <==> exists j: nat :: CutsAt(s, j) && Accepts(p, s[..j], 0, f.(leadingDir := false))
  {
    if Accepts(p, s, 0, f) {
      var j := DirNeeded(p, s, 0, f);
    }
    if j: nat :| CutsAt(s, j) && Accepts(p, s[..j], 0, f.(leadingDir := false)) {
      DirAccepted(p, s, 0, j, f);
    }
  }
}
