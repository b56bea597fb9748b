/** Line endings of a text, and the guess whether it is a text at all. */
module BufText {
  import opened Sequences

  type byte = x: int | 0 <= x < 256

  type bytes = seq<byte>

  const CR: byte := 13
  const LF: byte := 10
  const EOF: byte := 26

  // ----- line endings -----

  /** Carriage returns before newlines are dropped. */
  function ToLf(s: bytes): bytes {
    if s == [] then []
    else if s[0] == CR && |s| > 1 && s[1] == LF then ToLf(s[1..])
    else [s[0]] + ToLf(s[1..])
  }

  /** Newlines without a carriage return get one; `after` says whether one comes right before. */
  function ToCrlf(s: bytes, after: bool): bytes {
    if s == [] then []
    else if s[0] == LF && !after then [CR, LF] + ToCrlf(s[1..], false)
    else [s[0]] + ToCrlf(s[1..], s[0] == CR)
  }

  function Index(s: bytes, c: byte): (r: nat)
    ensures r <= |s| && (r < |s| ==> s[r] == c) && forall i :: 0 <= i < r ==> s[i] != c
  {
    if s == [] || s[0] == c then 0 else 1 + Index(s[1..], c)
  }

  method Find(s: bytes, c: byte) returns (r: nat)
    ensures r == Index(s, c)
  {
    r := 0;
    while r < |s| && s[r] != c
      invariant r <= |s| && Index(s, c) == r + Index(s[r..], c)
    {
      assert s[r..][1..] == s[r + 1..];
      r := r + 1;
    }
  }

  lemma {:induction false} ToLfRun(s: bytes, n: nat)
    requires n <= |s| && forall i :: 0 <= i < n ==> s[i] != CR
    ensures ToLf(s) == s[..n] + ToLf(s[n..])
    decreases n
  {
    if n == 0 {
      assert s[..0] == [] && s[0..] == s;
    } else {
      ToLfRun(s[1..], n - 1);
      Associative([s[0]], s[1..][..n - 1], ToLf(s[n..]));
      assert s[..n] == [s[0]] + s[1..][..n - 1];
      assert s[1..][n - 1..] == s[n..];
    }
  }

  lemma {:induction false} ToCrlfRun(s: bytes, n: nat, after: bool)
    requires n <= |s| && forall i :: 0 <= i < n ==> s[i] != LF
    ensures ToCrlf(s, after) == s[..n] + ToCrlf(s[n..], if n == 0 then after else s[n - 1] == CR)
    decreases n
  {
    if n == 0 {
      assert s[..0] == [] && s[0..] == s;
    } else {
      ToCrlfRun(s[1..], n - 1, s[0] == CR);
      Associative([s[0]], s[1..][..n - 1], ToCrlf(s[n..], s[n - 1] == CR));
      assert s[..n] == [s[0]] + s[1..][..n - 1];
      assert s[1..][n - 1..] == s[n..];
    }
  }

  /** Copies up to each carriage return, and the return itself unless a newline follows. */
  method CrlfToLf(src: bytes) returns (tgt: bytes)
    ensures tgt == ToLf(src)
  {
    tgt := [];
    var scan := src;
    var next := Find(scan, CR);
    while next < |scan|
      invariant next == Index(scan, CR) && ToLf(src) == tgt + ToLf(scan)
      decreases |scan|
    {
      ToLfRun(scan, next);
      Associative(tgt, scan[..next], ToLf(scan[next..]));
      tgt := tgt + scan[..next];
      assert scan[next..][1..] == scan[next + 1..];
      if next + 1 == |scan| || scan[next + 1] != LF {
        Associative(tgt, [CR], ToLf(scan[next + 1..]));
        tgt := tgt + [CR];
      }
      scan := scan[next + 1..];
      next := Find(scan, CR);
    }
    ToLfRun(scan, |scan|);
    assert scan[..|scan|] == scan && scan[|scan|..] == [];
    tgt := tgt + scan;
  }

  /** Copies up to each newline, and a carriage return with it unless one is there. */
  method LfToCrlf(src: bytes) returns (tgt: bytes)
    ensures tgt == ToCrlf(src, false)
  {
    tgt := [];
    var scan := src;
    var after := false;
    var next := Find(scan, LF);
    while next < |scan|
      invariant next == Index(scan, LF) && ToCrlf(src, false) == tgt + ToCrlf(scan, after)
      decreases |scan|
    {
      ToCrlfRun(scan, next, after);
      Associative(tgt, scan[..next], ToCrlf(scan[next..], if next == 0 then after else scan[next - 1] == CR));
      tgt := tgt + scan[..next];
      var extra: bytes := if (if next == 0 then after else scan[next - 1] == CR) then [LF] else [CR, LF];
      assert scan[next..][1..] == scan[next + 1..];
      Associative(tgt, extra, ToCrlf(scan[next + 1..], false));
      tgt := tgt + extra;
      scan, after := scan[next + 1..], false;
      next := Find(scan, LF);
    }
    ToCrlfRun(scan, |scan|, after);
    assert scan[..|scan|] == scan && scan[|scan|..] == [];
    tgt := tgt + scan;
  }

  // ----- the way there and back -----

  ghost predicate NoCr(s: bytes) { CR !in s }

  /** Somewhere a carriage return comes right before a newline. */
  predicate HasPair(s: bytes) {
    |s| > 1 && ((s[0] == CR && s[1] == LF) || HasPair(s[1..]))
  }

  /** Every newline comes right after a carriage return. */
  predicate AllPaired(s: bytes, after: bool) {
    s == [] || ((s[0] == LF ==> after) && AllPaired(s[1..], s[0] == CR))
  }

  /** Contracting changes exactly the texts with a pair, and shortens them. */
  lemma {:induction false} ContractShortens(s: bytes)
    ensures if HasPair(s) then |ToLf(s)| < |s| else ToLf(s) == s
  {
    if s != [] {
      ContractShortens(s[1..]);
      assert s == [s[0]] + s[1..];
    }
  }

  /** Expanding changes exactly the texts with a newline of its own, and lengthens them. */
  lemma {:induction false} ExpandLengthens(s: bytes, after: bool)
    ensures if AllPaired(s, after) then ToCrlf(s, after) == s else |ToCrlf(s, after)| > |s|
    ensures |ToCrlf(s, after)| >= |s|
  {
    if s != [] {
      ExpandLengthens(s[1..], false);
      ExpandLengthens(s[1..], s[0] == CR);
      assert s == [s[0]] + s[1..];
    }
  }

  /** Contracting an expanded text is contracting the text itself. */
  lemma {:induction false} ExpandContract(s: bytes, after: bool)
    ensures ToLf(ToCrlf(s, after)) == ToLf(s)
  {
    if s != [] {
      var t := ToCrlf(s[1..], s[0] == CR);
      ExpandContract(s[1..], s[0] == CR);
      if s[0] == LF && !after {
        assert ([CR, LF] + t)[1..] == [LF] + t;
      }
      assert ([s[0]] + t)[1..] == t;
    }
  }

  /** Newlines expanded and contracted again. */
  lemma ThereAndBack(s: bytes)
    requires NoCr(s)
    ensures ToLf(ToCrlf(s, false)) == s
  {
    ExpandContract(s, false);
    ToLfNoCr(s);
  }

  lemma {:induction false} ToLfNoCr(s: bytes)
    requires NoCr(s)
    ensures ToLf(s) == s
  {
    if s != [] {
      assert s[0] in s;
      ToLfNoCr(s[1..]);
      assert s == [s[0]] + s[1..];
    }
  }

  // ----- whole lines -----

  /** Lines written out with one ending. */
  function WithEnding(lines: seq<bytes>, ending: bytes): bytes {
    if lines == [] then [] else lines[0] + ending + WithEnding(lines[1..], ending)
  }

  predicate Bare(line: bytes) { CR !in line && LF !in line }

  lemma LineExpanded(x: bytes, y: bytes)
    requires Bare(x)
    ensures ToCrlf(x + [LF] + y, false) == x + [CR, LF] + ToCrlf(y, false)
  {
    var s := x + [LF] + y;
    forall i | 0 <= i < |x| ensures s[i] != LF { assert s[i] == x[i] && x[i] in x; }
    ToCrlfRun(s, |x|, false);
    assert s[..|x|] == x && s[|x|..] == [LF] + y && ([LF] + y)[1..] == y;
    assert |x| > 0 ==> s[|x| - 1] == x[|x| - 1] && x[|x| - 1] in x;
    Associative(x, [CR, LF], ToCrlf(y, false));
  }

  lemma LineContracted(x: bytes, y: bytes)
    requires Bare(x)
    ensures ToLf(x + [CR, LF] + y) == x + [LF] + ToLf(y)
  {
    var s := x + [CR, LF] + y;
    forall i | 0 <= i < |x| ensures s[i] != CR { assert s[i] == x[i] && x[i] in x; }
    ToLfRun(s, |x|);
    assert s[..|x|] == x && s[|x|..] == [CR, LF] + y && ([CR, LF] + y)[1..] == [LF] + y && ([LF] + y)[1..] == y;
    Associative(x, [LF], ToLf(y));
  }

  /** Lines that end in a newline get a carriage return before it, and back. */
  lemma {:induction false} LinesConverted(lines: seq<bytes>)
    requires forall i :: 0 <= i < |lines| ==> Bare(lines[i])
    ensures ToCrlf(WithEnding(lines, [LF]), false) == WithEnding(lines, [CR, LF])
    ensures ToLf(WithEnding(lines, [CR, LF])) == WithEnding(lines, [LF])
    decreases |lines|
  {
    if lines != [] {
      LineExpanded(lines[0], WithEnding(lines[1..], [LF]));
      LineContracted(lines[0], WithEnding(lines[1..], [CR, LF]));
      LinesConverted(lines[1..]);
    }
  }

  // ----- text or not -----

  datatype Bom = NoBom | Utf8 | Wide

  /** The byte order mark at the start; all but that of UTF-8 are those of wide characters. */
  function DetectBom(s: bytes): (r: (Bom, nat))
    ensures r.1 <= |s| && (r.0 == NoBom ==> r.1 == 0)
    ensures r.0 == Utf8 ==> r.1 == 3 && s[..3] == [0xEF, 0xBB, 0xBF]
  {
    if |s| < 2 then (NoBom, 0)
    else if s[0] == 0 then
      if |s| >= 4 && s[1] == 0 && s[2] == 0xFE && s[3] == 0xFF then (Wide, 4) else (NoBom, 0)
    else if s[0] == 0xEF then
      if |s| >= 3 && s[1] == 0xBB && s[2] == 0xBF then (Utf8, 3) else (NoBom, 0)
    else if s[0] == 0xFE then
      if s[1] == 0xFF then (Wide, 2) else (NoBom, 0)
    else if s[0] == 0xFF && s[1] == 0xFE then
      if |s| >= 4 && s[2] == 0 && s[3] == 0 then (Wide, 4) else (Wide, 2)
    else (NoBom, 0)
  }

  function Count(p: byte -> bool, s: bytes): (n: nat) {
    if s == [] then 0 else Count(p, s[..|s| - 1]) + if p(s[|s| - 1]) then 1 else 0
  }

  predicate IsSpace(c: byte) { c == 32 || 9 <= c <= 13 || c == 0x85 }

  /** What the quick guess takes for text, and what speaks against it. */
  function Quick(): byte -> bool { (c: byte) => 0x1F < c < 0x7F }

  function QuickOdd(): byte -> bool { (c: byte) => c != 0 && !(0x1F < c < 0x7F) && !IsSpace(c) }

  /** The same for the closer look. */
  function Printable(): byte -> bool { (c: byte) => (c > 0x1F && c != 0x7F) || c == 8 || c == 9 || c == 11 || c == 12 || c == 27 }

  function Odd(): byte -> bool {
    (c: byte) => !((c > 0x1F && c != 0x7F) || c == 8 || c == 9 || c == 11 || c == 12 || c == 27) && c != CR && c != LF
  }

  function Nul(): byte -> bool { (c: byte) => c == 0 }

  function IsCr(): byte -> bool { (c: byte) => c == CR }

  predicate LooksBinary(s: bytes) {
    var (bom, n) := DetectBom(s);
    bom == Wide || Count(Nul(), s[n..]) > 0 || Count(Quick(), s[n..]) / 128 < Count(QuickOdd(), s[n..])
  }

  method IsBinary(s: bytes) returns (r: bool)
    ensures r == LooksBinary(s)
  {
    var (bom, n) := DetectBom(s);
    if bom == Wide {
      return true;
    }
    var t := s[n..];
    var printable, nonprintable := 0, 0;
    for i := 0 to |t|
      invariant printable == Count(Quick(), t[..i]) && nonprintable == Count(QuickOdd(), t[..i])
      invariant Count(Nul(), t[..i]) == 0
    {
      assert t[..i + 1][..i] == t[..i];
      if t[i] > 0x1F && t[i] < 0x7F {
        printable := printable + 1;
      } else if t[i] == 0 {
        CountPrefix(Nul(), t, i + 1);
        return true;
      } else if !IsSpace(t[i]) {
        nonprintable := nonprintable + 1;
      }
    }
    assert t[..|t|] == t;
    r := printable / 128 < nonprintable;
  }

  lemma {:induction false} CountPrefix(p: byte -> bool, s: bytes, n: nat)
    requires n <= |s|
    ensures Count(p, s[..n]) <= Count(p, s)
    decreases |s|
  {
    if n < |s| {
      CountPrefix(p, s[..|s| - 1], n);
      assert s[..|s| - 1][..n] == s[..n];
    } else {
      assert s[..n] == s;
    }
  }

  /** Carriage returns with a newline right after. */
  function Pairs(s: bytes): nat {
    if |s| < 2 then 0
    else Pairs(s[..|s| - 1]) + if s[|s| - 2] == CR && s[|s| - 1] == LF then 1 else 0
  }

  datatype Stats = Stats(nul: nat, cr: nat, crlf: nat, printable: nat, nonprintable: nat)

  /** All but an end-of-file character at the end. */
  function Proper(s: bytes): bytes { if s != [] && s[|s| - 1] == EOF then s[..|s| - 1] else s }

  function StatsOf(t: bytes): Stats {
    Stats(Count(Nul(), t), Count(IsCr(), t), Pairs(t), Count(Printable(), t), Count(Odd(), t))
  }

  predicate StatsBinary(st: Stats) { st.nul > 0 || st.printable / 128 < st.nonprintable }

  method GatherStats(s: bytes) returns (st: Stats, binary: bool)
    ensures st == StatsOf(Proper(s)) && binary == StatsBinary(st)
  {
    var t := Proper(s);
    st := Stats(0, 0, 0, 0, 0);
    for i := 0 to |t|
      invariant st.nul == Count(Nul(), t[..i]) && st.cr == Count(IsCr(), t[..i])
      invariant st.printable == Count(Printable(), t[..i]) && st.nonprintable == Count(Odd(), t[..i])
      invariant st.crlf == Pairs(t[..i]) + if 0 < i < |t| && t[i - 1] == CR && t[i] == LF then 1 else 0
    {
      var c := t[i];
      assert t[..i + 1][..i] == t[..i];
      if c > 0x1F && c != 0x7F {
        st := st.(printable := st.printable + 1);
      } else if c == 0 {
        st := st.(nul := st.nul + 1, nonprintable := st.nonprintable + 1);
      } else if c == LF {
      } else if c == CR {
        st := st.(cr := st.cr + 1);
        if i + 1 < |t| && t[i + 1] == LF {
          st := st.(crlf := st.crlf + 1);
        }
      } else if c == 9 || c == 12 || c == 11 || c == 8 || c == 27 {
        st := st.(printable := st.printable + 1);
      } else {
        st := st.(nonprintable := st.nonprintable + 1);
      }
    }
    assert t[..|t|] == t;
    binary := st.nul > 0 || st.printable / 128 < st.nonprintable;
  }

  // ----- what both guesses have to do with each other -----

  lemma {:induction false} CountConcat(p: byte -> bool, a: bytes, b: bytes)
    ensures Count(p, a + b) == Count(p, a) + Count(p, b)
    decreases |b|
  {
    if b == [] {
      assert a + b == a;
    } else {
      assert (a + b)[..|a + b| - 1] == a + b[..|b| - 1];
      CountConcat(p, a, b[..|b| - 1]);
    }
  }

  lemma {:induction false} CountLe(p: byte -> bool, q: byte -> bool, s: bytes)
    requires forall i :: 0 <= i < |s| && p(s[i]) ==> q(s[i])
    ensures Count(p, s) <= Count(q, s)
  {
    if s != [] {
      CountLe(p, q, s[..|s| - 1]);
    }
  }

  lemma {:induction false} CountNone(p: byte -> bool, s: bytes)
    requires forall i :: 0 <= i < |s| ==> !p(s[i])
    ensures Count(p, s) == 0
  {
    if s != [] {
      CountNone(p, s[..|s| - 1]);
    }
  }

  lemma {:induction false} CountZero(p: byte -> bool, s: bytes)
    requires Count(p, s) == 0
    ensures forall i :: 0 <= i < |s| ==> !p(s[i])
  {
    if s != [] {
      CountZero(p, s[..|s| - 1]);
      assert forall i :: 0 <= i < |s| - 1 ==> s[i] == s[..|s| - 1][i];
    }
  }

  /** Expansion adds nothing but carriage returns. */
  lemma {:induction false} CountExpanded(p: byte -> bool, s: bytes, after: bool)
    requires !p(CR)
    ensures Count(p, ToCrlf(s, after)) == Count(p, s)
  {
    if s != [] {
      var add := s[0] == LF && !after;
      var one: bytes := if add then [CR, LF] else [s[0]];
      CountExpanded(p, s[1..], !add && s[0] == CR);
      assert s == [s[0]] + s[1..];
      CountConcat(p, [s[0]], s[1..]);
      CountConcat(p, one, ToCrlf(s[1..], !add && s[0] == CR));
      CountShort(p, s[0]);
    }
  }

  lemma CountShort(p: byte -> bool, c: byte)
    requires !p(CR)
    ensures Count(p, [c]) == (if p(c) then 1 else 0) && Count(p, [CR, LF]) == (if p(LF) then 1 else 0)
  {
    assert [c][..0] == [] && [CR, LF][..1] == [CR] && [CR][..0] == [];
  }

  /** Expanding a text is expanding all but its last byte, and then that one. */
  lemma {:induction false} ExpandLast(s: bytes, after: bool)
    requires s != []
    ensures var n := |s| - 1; var paired := if n == 0 then after else s[n - 1] == CR;
            ToCrlf(s, after) == ToCrlf(s[..n], after) + if s[n] == LF && !paired then [CR, LF] else [s[n]]
    decreases |s|
  {
    if |s| > 1 {
      ExpandLast(s[1..], s[0] == CR);
      assert s[..|s| - 1][1..] == s[1..][..|s| - 2];
    }
  }

  lemma EndsAlike(s: bytes)
    requires s != []
    ensures var t := ToCrlf(s, false); t != [] && t[|t| - 1] == s[|s| - 1]
  {
    ExpandLast(s, false);
  }

  /** One more byte, and what it adds to the two counts. */
  lemma OneMore(t: bytes, c: byte)
    ensures Count(IsCr(), t + [c]) == Count(IsCr(), t) + if c == CR then 1 else 0
    ensures Pairs(t + [c]) == Pairs(t) + if t != [] && t[|t| - 1] == CR && c == LF then 1 else 0
  {
    assert (t + [c])[..|t|] == t;
  }

  /** Carriage returns that have no newline right after. */
  function Alone(s: bytes): int { Count(IsCr(), s) - Pairs(s) }

  lemma AloneNext(t: bytes, c: byte)
    ensures Alone(t + [c]) == Alone(t) + (if c == CR then 1 else 0) - if t != [] && t[|t| - 1] == CR && c == LF then 1 else 0
  {
    OneMore(t, c);
  }

  lemma AlonePair(t: bytes)
    ensures Alone(t + [CR, LF]) == Alone(t)
  {
    AloneNext(t, CR);
    AloneNext(t + [CR], LF);
    assert t + [CR] + [LF] == t + [CR, LF];
  }

  /** Expansion leaves as many of them as there were. */
  lemma {:induction false} AloneExpanded(s: bytes)
    ensures Alone(ToCrlf(s, false)) == Alone(s)
    decreases |s|
  {
    if s != [] {
      var n := |s| - 1;
      AloneExpanded(s[..n]);
      ExpandLast(s, false);
      if n > 0 {
        EndsAlike(s[..n]);
      }
      assert s == s[..n] + [s[n]];
      AloneNext(s[..n], s[n]);
      AloneNext(ToCrlf(s[..n], false), s[n]);
      AlonePair(ToCrlf(s[..n], false));
    }
  }

  lemma ProperExpanded(s: bytes)
    ensures Proper(ToCrlf(s, false)) == ToCrlf(Proper(s), false)
  {
    if s != [] {
      ExpandLast(s, false);
    }
  }

  /** Carriage returns are counted, with or without an end-of-file character. */
  lemma CrCounted(s: bytes)
    ensures CR in s <==> Count(IsCr(), Proper(s)) > 0
  {
    CountProper(IsCr(), s);
    if CR !in s {
      CountNone(IsCr(), s);
    } else if Count(IsCr(), s) == 0 {
      CountZero(IsCr(), s);
    }
  }

  /** The closer look finds binary content, or carriage returns that stand alone. */
  predicate Mixed(s: bytes) {
    var st := StatsOf(Proper(s)); StatsBinary(st) || st.cr != st.crlf
  }

  /** It finds the same after expansion. */
  lemma MixedExpanded(s: bytes)
    ensures Mixed(ToCrlf(s, false)) <==> Mixed(s)
  {
    ProperExpanded(s);
    AloneExpanded(Proper(s));
    CountExpanded(Nul(), Proper(s), false);
    CountExpanded(Odd(), Proper(s), false);
    CountExpanded(Printable(), Proper(s), false);
  }

  lemma CountProper(p: byte -> bool, s: bytes)
    ensures Count(p, Proper(s)) <= Count(p, s)
    ensures !p(EOF) ==> Count(p, Proper(s)) == Count(p, s)
  {
    if Proper(s) != s {
      assert s == Proper(s) + [EOF];
    }
  }

  /** The rest after a byte order mark. */
  lemma CountRest(p: byte -> bool, s: bytes)
    requires DetectBom(s).0 != Wide
    ensures Count(p, s[DetectBom(s).1..]) <= Count(p, s)
    ensures !p(0xEF) && !p(0xBB) && !p(0xBF) ==> Count(p, s[DetectBom(s).1..]) == Count(p, s)
  {
    var n := DetectBom(s).1;
    assert s == s[..n] + s[n..];
    CountConcat(p, s[..n], s[n..]);
    if !p(0xEF) && !p(0xBB) && !p(0xBF) {
      CountNone(p, s[..n]);
    }
  }

  lemma {:induction false} NoPairs(s: bytes)
    requires NoCr(s)
    ensures Pairs(s) == 0
  {
    if |s| > 1 {
      assert s[|s| - 2] in s;
      NoPairs(s[..|s| - 1]);
    }
  }

  /** What the quick guess takes for text, the closer look takes for text when it comes back with expanded newlines. */
  lemma TextStaysText(s: bytes)
    requires NoCr(s) && !LooksBinary(s)
    ensures !Mixed(ToCrlf(s, false))
  {
    var n := DetectBom(s).1;
    var t := s[n..];
    MixedExpanded(s);
    NoPairs(Proper(s));
    CountNone(IsCr(), Proper(s));
    CountProper(Nul(), s);
    CountRest(Nul(), s);
    CountProper(Odd(), s);
    CountRest(Odd(), s);
    CountZero(Nul(), t);
    CountLe(Odd(), QuickOdd(), t);
    CountProper(Quick(), s);
    CountRest(Quick(), s);
    CountLe(Quick(), Printable(), Proper(s));
  }

  // ----- what is text for both -----

  /** Letters, digits and the like, and the usual blanks. */
  predicate Ordinary(c: byte) { 32 <= c <= 126 || 9 <= c <= 13 }

  /** Ordinary text is text for the quick guess, and so is it for the closer look. */
  lemma OrdinaryText(s: bytes)
    requires forall i :: 0 <= i < |s| ==> Ordinary(s[i])
    ensures !LooksBinary(s) && !StatsBinary(StatsOf(Proper(s)))
  {
    assert DetectBom(s) == (NoBom, 0) && s[0..] == s;
    CountNone(Nul(), s);
    CountNone(QuickOdd(), s);
    CountNone(Nul(), Proper(s));
    CountNone(Odd(), Proper(s));
  }

  /** A byte of zero makes it binary for both. */
  lemma NulBinary(s: bytes)
    requires 0 in s
    ensures LooksBinary(s) && StatsBinary(StatsOf(Proper(s)))
  {
    var i :| 0 <= i < |s| && s[i] == 0;
    var n := DetectBom(s).1;
    if Count(Nul(), s) == 0 {
      CountZero(Nul(), s);
    }
    if DetectBom(s).0 != Wide {
      CountRest(Nul(), s);
    }
    CountProper(Nul(), s);
  }

  function Repeat(c: byte, n: nat): (r: bytes)
    ensures |r| == n && forall i :: 0 <= i < n ==> r[i] == c
  {
    seq(n, _ => c)
  }

  lemma {:induction false} CountRepeat(p: byte -> bool, c: byte, n: nat)
    ensures Count(p, Repeat(c, n)) == if p(c) then n else 0
  {
    if n > 0 {
      CountRepeat(p, c, n - 1);
      assert Repeat(c, n)[..n - 1] == Repeat(c, n - 1);
    }
  }

  /** Of control characters one for every 128 letters is still text, and one more is not. */
  lemma OneIn128(n: nat, k: nat)
    requires n > 0
    ensures var s := Repeat(97, n) + Repeat(1, k); (LooksBinary(s) <==> n / 128 < k) && (StatsBinary(StatsOf(s)) <==> n / 128 < k)
  {
    var a, b := Repeat(97, n), Repeat(1, k);
    var s := a + b;
    assert DetectBom(s) == (NoBom, 0) && s[0..] == s;
    CountConcat(Nul(), a, b);
    CountConcat(Quick(), a, b);
    CountConcat(QuickOdd(), a, b);
    CountConcat(Printable(), a, b);
    CountConcat(Odd(), a, b);
    CountRepeat(Nul(), 97, n);
    CountRepeat(Nul(), 1, k);
    CountRepeat(Quick(), 97, n);
    CountRepeat(Quick(), 1, k);
    CountRepeat(QuickOdd(), 97, n);
    CountRepeat(QuickOdd(), 1, k);
    CountRepeat(Printable(), 97, n);
    CountRepeat(Printable(), 1, k);
    CountRepeat(Odd(), 97, n);
    CountRepeat(Odd(), 1, k);
  }

  /** Without carriage returns there is no pair. */
  lemma {:induction false} NoCrNoPair(s: bytes)
    requires NoCr(s)
    ensures !HasPair(s)
  {
    if |s| > 1 {
      assert s[0] in s;
      NoCrNoPair(s[1..]);
    }
  }
}
