/**
 * Lines of two versions of a file, the edit script between them, and the
 * common tail that is cut off before the script is computed.
 */
module LineDiff {
  import opened Common

  type byte = x: int | 0 <= x < 256

  type bytes = seq<byte>

  const NEWLINE: byte := 10

  // ----- lines -----

  /** The length of the first line with its newline, if it has one. */
  function LineEnd(s: bytes): (n: nat)
    ensures n <= |s| && (s != [] ==> n > 0)
  {
    if s == [] then 0 else if s[0] == NEWLINE then 1 else 1 + LineEnd(s[1..])
  }

  lemma {:induction false} LineEndsInNewline(s: bytes)
    ensures LineEnd(s) < |s| ==> s[LineEnd(s) - 1] == NEWLINE
    ensures forall i :: 0 <= i < LineEnd(s) - 1 ==> s[i] != NEWLINE
  {
    if s != [] && s[0] != NEWLINE {
      LineEndsInNewline(s[1..]);
    }
  }

  function Lines(s: bytes): seq<bytes> {
    if s == [] then [] else [s[..LineEnd(s)]] + Lines(s[LineEnd(s)..])
  }

  function Joined(ls: seq<bytes>): bytes { if ls == [] then [] else ls[0] + Joined(ls[1..]) }

  /** A newline ends the line, and is nowhere else in it. */
  predicate Terminated(l: bytes) { l != [] && l[|l| - 1] == NEWLINE && NEWLINE !in l[..|l| - 1] }

  predicate Unfinished(l: bytes) { l != [] && NEWLINE !in l }

  lemma FirstWhole(s: bytes)
    requires s != []
    ensures Terminated(s[..LineEnd(s)]) || (LineEnd(s) == |s| && Unfinished(s))
  {
    LineEndsInNewline(s);
    var l := s[..LineEnd(s)];
    assert l[|l| - 1] == s[LineEnd(s) - 1];
    if l[|l| - 1] != NEWLINE {
      assert s[..|s|] == s;
    }
  }

  /** Each line but the last ends in its only newline, and the last may lack it. */
  ghost predicate WellLined(ls: seq<bytes>) {
    forall i :: 0 <= i < |ls| ==> Terminated(ls[i]) || (i == |ls| - 1 && Unfinished(ls[i]))
  }

  lemma WellLinedFront(l: bytes, ls: seq<bytes>)
    requires WellLined(ls) && (Terminated(l) || (ls == [] && Unfinished(l)))
    ensures WellLined([l] + ls)
  {}

  /** The lines put together are the text. */
  lemma {:induction false} LinesWhole(s: bytes)
    ensures Joined(Lines(s)) == s && WellLined(Lines(s))
    decreases |s|
  {
    if s != [] {
      LinesWhole(s[LineEnd(s)..]);
      FirstWhole(s);
      assert s[..LineEnd(s)] == s || LineEnd(s) < |s|;
      WellLinedFront(s[..LineEnd(s)], Lines(s[LineEnd(s)..]));
      assert s == s[..LineEnd(s)] + s[LineEnd(s)..];
    }
  }

  lemma {:induction false} LineEndConcat(x: bytes, y: bytes)
    requires x != [] && x[|x| - 1] == NEWLINE
    ensures LineEnd(x + y) == LineEnd(x)
    decreases |x|
  {
    if x[0] != NEWLINE {
      assert (x + y)[1..] == x[1..] + y;
      LineEndConcat(x[1..], y);
    }
  }

  lemma Associates<T>(t: T, u: seq<T>, v: seq<T>)
    ensures [t] + (u + v) == [t] + u + v
  {}

  /** A file cut after a newline has the lines of the two pieces. */
  lemma {:induction false} LinesConcat(x: bytes, y: bytes)
    requires x == [] || x[|x| - 1] == NEWLINE
    ensures Lines(x + y) == Lines(x) + Lines(y)
    decreases |x|
  {
    if x == [] {
      assert x + y == y;
    } else {
      var n := LineEnd(x);
      var rest := x[n..];
      assert rest == [] || rest[|rest| - 1] == NEWLINE;
      LinesConcat(rest, y);
      FirstLine(x, y);
      Associates(x[..n], Lines(rest), Lines(y));
    }
  }

  lemma FirstLine(x: bytes, y: bytes)
    requires x != [] && x[|x| - 1] == NEWLINE
    ensures Lines(x + y) == [x[..LineEnd(x)]] + Lines(x[LineEnd(x)..] + y)
  {
    var n := LineEnd(x);
    LineEndConcat(x, y);
    assert (x + y)[..n] == x[..n];
    assert (x + y)[n..] == x[n..] + y;
  }

  /** Counts lines as newlines, and one more if the last line lacks its own. */
  method CountLines(buf: bytes) returns (num: nat)
    ensures num == |Lines(buf)|
  {
    num := 0;
    var i := 0;
    while i < |buf|
      invariant i <= |buf| && Newlines(buf) == num + Newlines(buf[i..])
    {
      assert buf[i..][1..] == buf[i + 1..];
      if buf[i] == NEWLINE {
        num := num + 1;
      }
      i := i + 1;
    }
    NewlinesAreLines(buf);
    if buf != [] && buf[|buf| - 1] != NEWLINE {
      num := num + 1;
    }
  }

  function Newlines(s: bytes): nat {
    if s == [] then 0 else (if s[0] == NEWLINE then 1 else 0) + Newlines(s[1..])
  }

  lemma {:induction false} NewlinesInLine(s: bytes)
    requires s != []
    ensures Newlines(s) == (if s[LineEnd(s) - 1] == NEWLINE then 1 else 0) + Newlines(s[LineEnd(s)..])
  {
    if s[0] != NEWLINE && |s| > 1 {
      NewlinesInLine(s[1..]);
      assert s[1..][LineEnd(s[1..])..] == s[LineEnd(s)..];
    }
  }

  lemma {:induction false} NewlinesAreLines(s: bytes)
    ensures |Lines(s)| == Newlines(s) + if s != [] && s[|s| - 1] != NEWLINE then 1 else 0
    decreases |s|
  {
    if s != [] {
      NewlinesInLine(s);
      NewlinesAreLines(s[LineEnd(s)..]);
      LineEndsInNewline(s);
    }
  }

  // ----- cutting off the common tail -----

  const BLOCK := 1024

  /** The blocks before the last `t` bytes are there and equal. */
  predicate SameBlock(a: bytes, b: bytes, t: nat) {
    && BLOCK + t <= |a| && BLOCK + t <= |b|
    && a[|a| - t - BLOCK..|a| - t] == b[|b| - t - BLOCK..|b| - t]
  }

  /** How much is equal at the end, in whole blocks, beyond the `t` bytes known to be. */
  function EqualTail(a: bytes, b: bytes, t: nat): (r: nat)
    requires t <= |a| && t <= |b|
    ensures t <= r <= |a| && r <= |b|
    decreases |a| - t
  {
    if SameBlock(a, b, t) then EqualTail(a, b, t + BLOCK) else t
  }

  lemma {:induction false} EqualTailEqual(a: bytes, b: bytes, t: nat)
    requires t <= |a| && t <= |b| && a[|a| - t..] == b[|b| - t..]
    ensures var r := EqualTail(a, b, t); a[|a| - r..] == b[|b| - r..]
    decreases |a| - t
  {
    if SameBlock(a, b, t) {
      assert a[|a| - t - BLOCK..] == a[|a| - t - BLOCK..|a| - t] + a[|a| - t..];
      assert b[|b| - t - BLOCK..] == b[|b| - t - BLOCK..|b| - t] + b[|b| - t..];
      EqualTailEqual(a, b, t + BLOCK);
    }
  }

  /** How much is cut off: the equal tail but for its first line. */
  function Cut(a: bytes, b: bytes): (n: nat)
    ensures n <= |a| && n <= |b|
  {
    var t := EqualTail(a, b, 0);
    t - LineEnd(a[|a| - t..])
  }

  method TrimCommonTail(a: bytes, b: bytes) returns (n: nat)
    ensures n == Cut(a, b)
  {
    var trimmed: nat := 0;
    while SameBlock(a, b, trimmed)
      invariant trimmed <= |a| && trimmed <= |b| && EqualTail(a, b, 0) == EqualTail(a, b, trimmed)
      decreases |a| - trimmed
    {
      trimmed := trimmed + BLOCK;
    }
    var recovered := Recover(a[|a| - trimmed..]);
    n := trimmed - recovered;
  }

  method Recover(tail: bytes) returns (recovered: nat)
    ensures recovered == LineEnd(tail)
  {
    recovered := 0;
    while recovered < |tail|
      invariant recovered <= |tail| && LineEnd(tail) == recovered + LineEnd(tail[recovered..])
    {
      assert tail[recovered..][1..] == tail[recovered + 1..];
      recovered := recovered + 1;
      if tail[recovered - 1] == NEWLINE {
        break;
      }
    }
  }

  /** The last `n` bytes are equal in both files and begin a line in both. */
  predicate CommonTail(a: bytes, b: bytes, n: nat) {
    && n <= |a| && n <= |b| && a[|a| - n..] == b[|b| - n..]
    && (n > 0 ==> n < |a| && n < |b| && a[|a| - n - 1] == b[|b| - n - 1] == NEWLINE)
  }

  /** What is cut off is equal in both files and begins a line in both. */
  lemma CutIsCommon(a: bytes, b: bytes)
    ensures CommonTail(a, b, Cut(a, b))
  {
    var t := EqualTail(a, b, 0);
    EqualTailEqual(a, b, 0);
    var tail := a[|a| - t..];
    var n := LineEnd(tail);
    LineEndsInNewline(tail);
    TailOfTail(a, t, n);
    TailOfTail(b, t, n);
  }

  lemma {:induction false} EqualTailMost(a: bytes, b: bytes, t: nat)
    requires t <= |a| && t <= |b| && t % 1024 == 0
    ensures EqualTail(a, b, t) % 1024 == 0 && !SameBlock(a, b, EqualTail(a, b, t))
    decreases |a| - t
  {
    if SameBlock(a, b, t) {
      EqualTailMost(a, b, t + BLOCK);
    }
  }

  /** What is cut off, told from the files: as many whole blocks of 1024 bytes as are equal at the end, but for the first line of them. */
  lemma CutWhole(a: bytes, b: bytes)
    ensures exists t: nat :: t % 1024 == 0 && t <= |a| && t <= |b| && a[|a| - t..] == b[|b| - t..]
              && !(t + 1024 <= |a| && t + 1024 <= |b| && a[|a| - t - 1024..|a| - t] == b[|b| - t - 1024..|b| - t])
              && (if t == 0 then Cut(a, b) == 0
                  else Lines(a[|a| - t..]) != [] && Cut(a, b) == t - |Lines(a[|a| - t..])[0]|)
  {
    var t := EqualTail(a, b, 0);
    EqualTailEqual(a, b, 0);
    EqualTailMost(a, b, 0);
    assert |Lines(a[|a| - t..])| > 0 || t == 0;
  }

  lemma TailOfTail<T>(s: seq<T>, t: nat, n: nat)
    requires n <= t <= |s|
    ensures s[|s| - (t - n)..] == s[|s| - t..][n..]
    ensures 0 < n < t ==> s[|s| - (t - n) - 1] == s[|s| - t..][n - 1]
  {}

  lemma CutLines(s: bytes, x: bytes, y: bytes)
    requires s == x + y && (y == [] || x == [] || x[|x| - 1] == NEWLINE)
    ensures Lines(s) == Lines(x) + Lines(y)
  {
    if y == [] {
      assert s == x;
    } else {
      LinesConcat(x, y);
    }
  }

  // ----- edit scripts -----

  /** Lines `i1` up to `i1 + chg1` of the old file gave way to `i2` up to `i2 + chg2` of the new one. */
  datatype Change = Change(i1: nat, chg1: nat, i2: nat, chg2: nat)

  /** From `pa` and `pb` on, the files agree but for the changes. */
  ghost predicate Correct(a: seq<bytes>, b: seq<bytes>, script: seq<Change>, pa: nat, pb: nat) {
    if script == [] then pa <= |a| && pb <= |b| && a[pa..] == b[pb..]
    else
      var c := script[0];
      && pa <= c.i1 && pb <= c.i2 && c.i1 + c.chg1 <= |a| && c.i2 + c.chg2 <= |b|
      && a[pa..c.i1] == b[pb..c.i2]
      && Correct(a, b, script[1..], c.i1 + c.chg1, c.i2 + c.chg2)
  }

  /** The old line that a new line is, if it is one. */
  function OldLine(script: seq<Change>, pa: nat, pb: nat, x: int): Option<int> {
    if script == [] || x < script[0].i2 then Some(pa + (x - pb))
    else if x < script[0].i2 + script[0].chg2 then None
    else OldLine(script[1..], script[0].i1 + script[0].chg1, script[0].i2 + script[0].chg2, x)
  }

  /** A line and the old line it is have the same text, in the script's files and in their common tail. */
  lemma {:induction false} OldLineText(a: seq<bytes>, b: seq<bytes>, tail: seq<bytes>, script: seq<Change>, pa: nat, pb: nat, x: int)
    requires Correct(a, b, script, pa, pb) && pb <= x < |b + tail|
    ensures match OldLine(script, pa, pb, x)
            case None => true
            case Some(y) => 0 <= y < |a + tail| && (a + tail)[y] == (b + tail)[x]
    decreases |script|
  {
    if script == [] {
      assert |a| - pa == |b| - pb;
      assert x < |b| ==> b[pb..][x - pb] == a[pa..][x - pb];
    } else {
      var c := script[0];
      if x < c.i2 {
        assert b[pb..c.i2][x - pb] == a[pa..c.i1][x - pb];
      } else if x >= c.i2 + c.chg2 {
        OldLineText(a, b, tail, script[1..], c.i1 + c.chg1, c.i2 + c.chg2, x);
      }
    }
  }

  /** Changes come one after the other. */
  ghost predicate Ascending(script: seq<Change>) {
    forall j, k :: 0 <= j < k < |script| ==> script[j].i2 + script[j].chg2 <= script[k].i2
  }

  lemma {:induction false} CorrectAscends(a: seq<bytes>, b: seq<bytes>, script: seq<Change>, pa: nat, pb: nat)
    requires Correct(a, b, script, pa, pb)
    ensures Ascending(script) && forall k :: 0 <= k < |script| ==> pb <= script[k].i2
    decreases |script|
  {
    if script != [] {
      var c := script[0];
      CorrectAscends(a, b, script[1..], c.i1 + c.chg1, c.i2 + c.chg2);
      assert forall k :: 0 < k < |script| ==> script[k] == script[1..][k - 1];
    }
  }

  /** A changed line is no old line. */
  lemma {:induction false} ChangedLine(script: seq<Change>, pa: nat, pb: nat, x: int, k: nat)
    requires Ascending(script) && k < |script| && script[k].i2 <= x < script[k].i2 + script[k].chg2
    ensures OldLine(script, pa, pb, x) == None
    decreases k
  {
    if k > 0 {
      assert script[0].i2 + script[0].chg2 <= script[k].i2;
      AscendingRest(script);
      ChangedLine(script[1..], script[0].i1 + script[0].chg1, script[0].i2 + script[0].chg2, x, k - 1);
    }
  }

  lemma AscendingRest(script: seq<Change>)
    requires Ascending(script) && script != []
    ensures Ascending(script[1..])
  {}

  /** A line between two changes is the old line as far behind the first of them. */
  lemma {:induction false} KeptLine(script: seq<Change>, pa: nat, pb: nat, x: int, k: nat)
    requires Ascending(script) && k <= |script| && (k < |script| ==> x < script[k].i2)
    requires k > 0 ==> script[k - 1].i2 + script[k - 1].chg2 <= x
    ensures OldLine(script, pa, pb, x) ==
            if k == 0 then Some(pa + (x - pb))
            else Some(script[k - 1].i1 + script[k - 1].chg1 + (x - script[k - 1].i2 - script[k - 1].chg2))
    decreases k
  {
    if k > 0 {
      assert script[0].i2 + script[0].chg2 <= x;
      AscendingRest(script);
      KeptLine(script[1..], script[0].i1 + script[0].chg1, script[0].i2 + script[0].chg2, x, k - 1);
    }
  }

  lemma {:induction false} OldLineNatural(a: seq<bytes>, b: seq<bytes>, script: seq<Change>, pa: nat, pb: nat, x: int)
    requires Correct(a, b, script, pa, pb) && pb <= x
    ensures OldLine(script, pa, pb, x).Some? ==> OldLine(script, pa, pb, x).value >= 0
    decreases |script|
  {
    if script != [] && x >= script[0].i2 + script[0].chg2 {
      var c := script[0];
      OldLineNatural(a, b, script[1..], c.i1 + c.chg1, c.i2 + c.chg2, x);
    }
  }

  /** The script is that of the files without their common tail. */
  function Traced(script: (bytes, bytes) -> seq<Change>, a: bytes, b: bytes, x: int): Option<int> {
    OldLine(script(a[..|a| - Cut(a, b)], b[..|b| - Cut(a, b)]), 0, 0, x)
  }

  ghost predicate CorrectFor(script: (bytes, bytes) -> seq<Change>, a: bytes, b: bytes) {
    Correct(Lines(a), Lines(b), script(a, b), 0, 0)
  }

  /** Every script is a correct one. */
  ghost predicate Faithful(script: (bytes, bytes) -> seq<Change>) {
    forall a, b :: CorrectFor(script, a, b)
  }

  /** Line `x` is one of those that change `k` brings in. */
  predicate BroughtIn(script: seq<Change>, k: nat, x: int) { k < |script| && script[k].i2 <= x < script[k].i2 + script[k].chg2 }

  /** Line `x` comes after the first `k` changes and before all others. */
  predicate Between(script: seq<Change>, k: nat, x: int) {
    && k <= |script| && (k < |script| ==> x < script[k].i2)
    && (k > 0 ==> script[k - 1].i2 + script[k - 1].chg2 <= x)
  }

  lemma {:induction false} OldLineBehind(a: seq<bytes>, b: seq<bytes>, script: seq<Change>, pa: nat, pb: nat, x: int)
    requires Correct(a, b, script, pa, pb) && x >= |b|
    ensures OldLine(script, pa, pb, x) == Some(|a| + (x - |b|))
    decreases |script|
  {
    if script == [] {
      assert |a[pa..]| == |b[pb..]|;
    } else {
      OldLineBehind(a, b, script[1..], script[0].i1 + script[0].chg1, script[0].i2 + script[0].chg2, x);
    }
  }

  /**
   * Which line of the old file a line of the new one is traced to: none if a
   * change of the script brings it in, otherwise the one as far behind the
   * change before it; in the common tail, the one at the same place there.
   */
  lemma TracedMeans(script: (bytes, bytes) -> seq<Change>, a: bytes, b: bytes, x: nat)
    requires Faithful(script)
    ensures var c, d := a[..|a| - Cut(a, b)], b[..|b| - Cut(a, b)];
            && (forall k: nat :: BroughtIn(script(c, d), k, x) ==> Traced(script, a, b, x) == None)
            && (forall k: nat :: Between(script(c, d), k, x) ==>
                  Traced(script, a, b, x) ==
                  if k == 0 then Some(x) else var e := script(c, d)[k - 1]; Some(e.i1 + e.chg1 + (x - e.i2 - e.chg2)))
            && (x >= |Lines(d)| ==> Traced(script, a, b, x) == Some(|Lines(c)| + (x - |Lines(d)|)))
  {
    var c, d := a[..|a| - Cut(a, b)], b[..|b| - Cut(a, b)];
    assert CorrectFor(script, c, d);
    CorrectAscends(Lines(c), Lines(d), script(c, d), 0, 0);
    forall k: nat | BroughtIn(script(c, d), k, x) ensures Traced(script, a, b, x) == None {
      ChangedLine(script(c, d), 0, 0, x, k);
    }
    forall k: nat | Between(script(c, d), k, x)
      ensures Traced(script, a, b, x) ==
              if k == 0 then Some(x) else var e := script(c, d)[k - 1]; Some(e.i1 + e.chg1 + (x - e.i2 - e.chg2))
    {
      KeptLine(script(c, d), 0, 0, x, k);
    }
    if x >= |Lines(d)| {
      OldLineBehind(Lines(c), Lines(d), script(c, d), 0, 0, x);
    }
  }

  /** If line `x` of the one file is traced to line `y` of the other, both are there and read the same. */
  predicate ReadsAlike(la: seq<bytes>, lb: seq<bytes>, y: Option<int>, x: nat) {
    y.Some? ==> y.value >= 0 && (x < |lb| ==> y.value < |la| && la[y.value] == lb[x])
  }

  /** The line of the new file and the line of the old one it is traced to read the same. */
  lemma OriginText(script: (bytes, bytes) -> seq<Change>, a: bytes, b: bytes, x: nat)
    requires Faithful(script)
    ensures ReadsAlike(Lines(a), Lines(b), Traced(script, a, b, x), x)
  {
    CutIsCommon(a, b);
    TextAtCut(script, a, b, Cut(a, b), x);
  }

  lemma TextAtCut(script: (bytes, bytes) -> seq<Change>, a: bytes, b: bytes, n: nat, x: nat)
    requires Faithful(script) && CommonTail(a, b, n)
    ensures ReadsAlike(Lines(a), Lines(b), OldLine(script(a[..|a| - n], b[..|b| - n]), 0, 0, x), x)
  {
    SplitTail(a, n);
    SplitTail(b, n);
    TextInPieces(script, a, b, a[..|a| - n], b[..|b| - n], a[|a| - n..], x);
  }

  lemma SplitTail<T>(s: seq<T>, n: nat)
    requires n <= |s|
    ensures s == s[..|s| - n] + s[|s| - n..] && (n < |s| ==> s[..|s| - n][|s| - n - 1] == s[|s| - n - 1])
  {}

  lemma TextInPieces(script: (bytes, bytes) -> seq<Change>, a: bytes, b: bytes, a': bytes, b': bytes, t: bytes, x: nat)
    requires Faithful(script) && a == a' + t && b == b' + t
    requires t == [] || (a' != [] && b' != [] && a'[|a'| - 1] == b'[|b'| - 1] == NEWLINE)
    ensures ReadsAlike(Lines(a), Lines(b), OldLine(script(a', b'), 0, 0, x), x)
  {
    CutLines(a, a', t);
    CutLines(b, b', t);
    assert CorrectFor(script, a', b');
    OldLineNatural(Lines(a'), Lines(b'), script(a', b'), 0, 0, x);
    if x < |Lines(b)| {
      OldLineText(Lines(a'), Lines(b'), Lines(t), script(a', b'), 0, 0, x);
    }
  }
}
