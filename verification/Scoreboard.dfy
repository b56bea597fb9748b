/**
 * The blame scoreboard: a list of groups of lines of the final file, each with
 * the file version suspected of having brought them in. Operations split
 * groups and change suspects; what they do is stated line by line.
 */
module Scoreboard {

  /** `num` lines from `lno` on, which the suspect has from its own line `sLno` on. */
  datatype Entry<O> = Entry(lno: int, num: int, suspect: O, guilty: bool, sLno: int, boundary: bool)

  /** What the scoreboard says of one line of the final file. */
  datatype Line<O> = Line(suspect: O, lno: int, guilty: bool, boundary: bool)

  // ----- the scoreboard line by line -----

  function Count<O>(e: Entry<O>): nat { if e.num > 0 then e.num else 0 }

  function EntryLines<O>(e: Entry<O>): (r: seq<Line<O>>)
    ensures |r| == Count(e)
    ensures forall k :: 0 <= k < |r| ==> r[k] == Line(e.suspect, e.sLno + k, e.guilty, e.boundary)
  {
    seq(Count(e), k => Line(e.suspect, e.sLno + k, e.guilty, e.boundary))
  }

  function View<O>(es: seq<Entry<O>>): seq<Line<O>> {
    if es == [] then [] else EntryLines(es[0]) + View(es[1..])
  }

  /** The groups follow each other from line `lo` on. */
  predicate Chain<O>(es: seq<Entry<O>>, lo: int) {
    es == [] || (es[0].lno == lo && Chain(es[1..], lo + Count(es[0])))
  }

  /** The groups partition a range of lines; only a group that is alone may be empty. */
  ghost predicate Partition<O>(es: seq<Entry<O>>, lo: int) {
    Chain(es, lo) && (|es| == 1 || NoneEmpty(es))
  }

  function Map<S, T>(f: S -> T, v: seq<S>): (r: seq<T>)
    ensures |r| == |v| && forall i :: 0 <= i < |v| ==> r[i] == f(v[i])
  {
    seq(|v|, i requires 0 <= i < |v| => f(v[i]))
  }

  lemma MapConcat<S, T>(f: S -> T, v: seq<S>, w: seq<S>)
    ensures Map(f, v + w) == Map(f, v) + Map(f, w)
  {}

  lemma {:induction false} ViewConcat<O>(a: seq<Entry<O>>, b: seq<Entry<O>>)
    ensures View(a + b) == View(a) + View(b)
  {
    if a == [] {
      assert a + b == b;
    } else {
      assert (a + b)[1..] == a[1..] + b;
      ViewConcat(a[1..], b);
    }
  }

  lemma ViewSingle<O>(e: Entry<O>)
    ensures View([e]) == EntryLines(e)
  {
    assert [e][1..] == [];
  }

  lemma {:induction false} ChainConcat<O>(a: seq<Entry<O>>, b: seq<Entry<O>>, lo: int)
    ensures Chain(a + b, lo) <==> Chain(a, lo) && Chain(b, lo + |View(a)|)
  {
    if a == [] {
      assert a + b == b;
    } else {
      assert (a + b)[1..] == a[1..] + b;
      ChainConcat(a[1..], b, lo + Count(a[0]));
    }
  }

  // ----- how much is still open -----

  function Weight<O>(e: Entry<O>): nat { if e.num > 1 then e.num else 1 }

  /** Each line not settled yet counts one more than its suspect's rank. */
  function Price<O>(rank: O -> nat, e: Entry<O>): nat {
    if e.guilty then 0 else Weight(e) * (1 + rank(e.suspect))
  }

  function Cost<O>(rank: O -> nat, es: seq<Entry<O>>): nat {
    if es == [] then 0 else Price(rank, es[0]) + Cost(rank, es[1..])
  }

  lemma {:induction false} CostConcat<O>(rank: O -> nat, a: seq<Entry<O>>, b: seq<Entry<O>>)
    ensures Cost(rank, a + b) == Cost(rank, a) + Cost(rank, b)
  {
    if a == [] {
      assert a + b == b;
    } else {
      assert (a + b)[1..] == a[1..] + b;
      CostConcat(rank, a[1..], b);
    }
  }

  // ----- one group in the midst of others -----

  lemma ReplaceKeepsChain<O>(a: seq<Entry<O>>, e: Entry<O>, ps: seq<Entry<O>>, c: seq<Entry<O>>, lo: int)
    requires Chain(a + [e] + c, lo) && Chain(ps, e.lno) && |View(ps)| == Count(e)
    ensures Chain(a + ps + c, lo)
  {
    ChainOfThree(a, [e], c, lo);
    ChainOfThree(a, ps, c, lo);
    ViewSingle(e);
  }

  lemma ChainOfThree<O>(a: seq<Entry<O>>, b: seq<Entry<O>>, c: seq<Entry<O>>, lo: int)
    ensures Chain(a + b + c, lo) <==>
            Chain(a, lo) && Chain(b, lo + |View(a)|) && Chain(c, lo + |View(a)| + |View(b)|)
  {
    ChainConcat(a + b, c, lo);
    ChainConcat(a, b, lo);
    ViewConcat(a, b);
  }

  ghost predicate NoneEmpty<O>(es: seq<Entry<O>>) {
    forall i :: 0 <= i < |es| ==> es[i].num >= 1
  }

  lemma NoneEmptyParts<O>(a: seq<Entry<O>>, ps: seq<Entry<O>>, c: seq<Entry<O>>)
    ensures NoneEmpty(a + ps + c) <==> NoneEmpty(a) && NoneEmpty(ps) && NoneEmpty(c)
  {
    var rs := a + ps + c;
    if NoneEmpty(rs) {
      forall i | 0 <= i < |a| ensures a[i].num >= 1 { assert rs[i] == a[i]; }
      forall i | 0 <= i < |ps| ensures ps[i].num >= 1 { assert rs[|a| + i] == ps[i]; }
      forall i | 0 <= i < |c| ensures c[i].num >= 1 { assert rs[|a| + |ps| + i] == c[i]; }
    }
  }

  /** Replacing a group by parts that cover the same lines. */
  lemma ReplaceKeepsPartition<O>(a: seq<Entry<O>>, e: Entry<O>, ps: seq<Entry<O>>, c: seq<Entry<O>>, lo: int)
    requires Partition(a + [e] + c, lo)
    requires Chain(ps, e.lno) && |View(ps)| == e.num && NoneEmpty(ps)
    ensures Partition(a + ps + c, lo)
  {
    ReplaceKeepsChain(a, e, ps, c, lo);
    NoneEmptyParts(a, [e], c);
    NoneEmptyParts(a, ps, c);
  }

  lemma ReplaceView<O>(a: seq<Entry<O>>, ps: seq<Entry<O>>, c: seq<Entry<O>>)
    ensures View(a + ps + c) == View(a) + View(ps) + View(c)
  {
    ViewConcat(a + ps, c);
    ViewConcat(a, ps);
  }

  lemma ReplaceCost<O>(rank: O -> nat, a: seq<Entry<O>>, ps: seq<Entry<O>>, c: seq<Entry<O>>)
    ensures Cost(rank, a + ps + c) == Cost(rank, a) + Cost(rank, ps) + Cost(rank, c)
  {
    CostConcat(rank, a + ps, c);
    CostConcat(rank, a, ps);
  }

  /** Every group before `i` starts below `low`, and every one after it at `high` or above. */
  ghost predicate Apart<O>(es: seq<Entry<O>>, i: nat, low: int, high: int) {
    && i < |es|
    && (forall j :: 0 <= j < i ==> es[j].lno < low)
    && (forall j :: i < j < |es| ==> es[j].lno >= high)
  }

  lemma {:induction false} AllAbove<O>(es: seq<Entry<O>>, lo: int, j: nat)
    requires Chain(es, lo) && j < |es|
    ensures es[j].lno >= lo
    decreases j
  {
    if j > 0 {
      AllAbove(es[1..], lo + Count(es[0]), j - 1);
    }
  }

  lemma {:induction false} PartitionApart<O>(es: seq<Entry<O>>, lo: int, i: nat)
    requires Chain(es, lo) && i < |es| && NoneEmpty(es)
    ensures Apart(es, i, es[i].lno, es[i].lno + es[i].num)
    decreases i
  {
    var rest := es[1..];
    if i == 0 {
      forall j | 0 < j < |es| ensures es[j].lno >= es[0].lno + es[0].num {
        AllAbove(rest, lo + es[0].num, j - 1);
      }
    } else {
      AllAbove(rest, lo + es[0].num, i - 1);
      PartitionApart(rest, lo + es[0].num, i - 1);
      forall j | 0 < j < i ensures es[j].lno < es[i].lno {
        assert es[j] == rest[j - 1];
      }
      forall j | i < j < |es| ensures es[j].lno >= es[i].lno + es[i].num {
        assert es[j] == rest[j - 1];
      }
    }
  }

  // ----- blaming one chunk on the parent -----

  /** Lines `tlno` up to `same` of the target are lines `plno` and on of the parent. */
  datatype Chunk<O> = Chunk(tlno: int, plno: int, same: int, target: O, parent: O)

  /** The lines of a group that the chunk covers, and what precedes and follows them. */
  datatype Split<O> = NoSplit | Split(pre: seq<Entry<O>>, mid: Entry<O>, post: seq<Entry<O>>)

  function Parts<O>(s: Split<O>): seq<Entry<O>>
    requires s.Split?
  {
    s.pre + [s.mid] + s.post
  }

  function SplitOverlap<O>(e: Entry<O>, c: Chunk<O>): Split<O> {
    var before := e.sLno < c.tlno;
    var after := c.same < e.sLno + e.num;
    var pre := if before then [Entry(e.lno, c.tlno - e.sLno, e.suspect, false, e.sLno, false)] else [];
    var start := if before then e.lno + c.tlno - e.sLno else e.lno;
    var sLno := if before then c.plno else c.plno + (e.sLno - c.tlno);
    var post :=
      if after then
        [Entry(e.lno + (c.same - e.sLno), e.sLno + e.num - c.same, e.suspect, false, e.sLno + (c.same - e.sLno), false)]
      else [];
    var end := if after then e.lno + (c.same - e.sLno) else e.lno + e.num;
    if end - start < 1 then NoSplit
    else Split(pre, Entry(start, end - start, c.parent, false, sLno, false), post)
  }

  /** What a chunk does to a line. */
  function MoveLine<O(==)>(c: Chunk<O>, l: Line<O>): Line<O> {
    if !l.guilty && l.suspect == c.target && c.tlno <= l.lno < c.same
    then Line(c.parent, c.plno + (l.lno - c.tlno), false, false)
    else l
  }

  function Move<O(==)>(c: Chunk<O>): Line<O> -> Line<O> { l => MoveLine(c, l) }

  lemma SplitCovers<O>(e: Entry<O>, c: Chunk<O>)
    requires SplitOverlap(e, c).Split?
    ensures var ps := Parts(SplitOverlap(e, c)); Chain(ps, e.lno) && NoneEmpty(ps) && |View(ps)| == e.num
  {
    var s := SplitOverlap(e, c);
    ChainConcat(s.pre + [s.mid], s.post, e.lno);
    ChainConcat(s.pre, [s.mid], e.lno);
    PartsView(s);
  }

  lemma PartsView<O>(s: Split<O>)
    requires s.Split? && |s.pre| <= 1 && |s.post| <= 1
    ensures View(Parts(s)) == View(s.pre) + EntryLines(s.mid) + View(s.post)
    ensures View(s.pre) == if s.pre == [] then [] else EntryLines(s.pre[0])
    ensures View(s.post) == if s.post == [] then [] else EntryLines(s.post[0])
  {
    ReplaceView(s.pre, [s.mid], s.post);
    ViewSingle(s.mid);
  }

  /** Some lines of a group. */
  function Segment<O>(e: Entry<O>, from: nat, len: nat): (r: seq<Line<O>>)
    ensures |r| == len && forall k :: 0 <= k < len ==> r[k] == Line(e.suspect, e.sLno + from + k, e.guilty, e.boundary)
  {
    seq(len, k => Line(e.suspect, e.sLno + from + k, e.guilty, e.boundary))
  }

  lemma Segments<O>(e: Entry<O>, n: nat, m: nat)
    requires n + m <= Count(e)
    ensures EntryLines(e) == Segment(e, 0, n) + Segment(e, n, m) + Segment(e, n + m, Count(e) - n - m)
  {}

  lemma SegmentMoves<O>(c: Chunk<O>, e: Entry<O>, n: nat, m: nat, mid: Entry<O>)
    requires !e.guilty && !e.boundary && e.suspect == c.target && n + m <= Count(e)
    requires n == 0 || e.sLno + n <= c.tlno
    requires c.tlno <= e.sLno + n && e.sLno + n + m <= c.same
    requires n + m == Count(e) || c.same <= e.sLno + n + m
    requires mid == Entry(mid.lno, m, c.parent, false, c.plno + (e.sLno + n - c.tlno), false)
    ensures Map(Move(c), EntryLines(e)) ==
            Segment(e, 0, n) + EntryLines(mid) + Segment(e, n + m, Count(e) - n - m)
  {
    var x, y, z := Segment(e, 0, n), Segment(e, n, m), Segment(e, n + m, Count(e) - n - m);
    Segments(e, n, m);
    MapConcat(Move(c), x + y, z);
    MapConcat(Move(c), x, y);
    SegmentStays(c, e, 0, n);
    SegmentMoved(c, e, n, m, mid);
    SegmentStays(c, e, n + m, Count(e) - n - m);
  }

  lemma SegmentStays<O>(c: Chunk<O>, e: Entry<O>, from: nat, len: nat)
    requires len == 0 || e.sLno + from + len <= c.tlno || c.same <= e.sLno + from
    ensures Map(Move(c), Segment(e, from, len)) == Segment(e, from, len)
  {}

  lemma SegmentMoved<O>(c: Chunk<O>, e: Entry<O>, from: nat, len: nat, mid: Entry<O>)
    requires !e.guilty && e.suspect == c.target && c.tlno <= e.sLno + from && e.sLno + from + len <= c.same
    requires mid == Entry(mid.lno, len, c.parent, false, c.plno + (e.sLno + from - c.tlno), false)
    ensures Map(Move(c), Segment(e, from, len)) == EntryLines(mid)
  {}

  /** How many lines come before the chunk. */
  function LinesBefore<O>(e: Entry<O>, c: Chunk<O>): nat { if e.sLno < c.tlno then c.tlno - e.sLno else 0 }

  lemma SplitSizes<O>(e: Entry<O>, c: Chunk<O>)
    requires SplitOverlap(e, c).Split?
    ensures var m := SplitOverlap(e, c).mid.num; 0 <= m && LinesBefore(e, c) + m <= Count(e)
  {}

  lemma SplitBefore<O>(e: Entry<O>, c: Chunk<O>)
    requires !e.guilty && !e.boundary && SplitOverlap(e, c).Split?
    ensures var pre := SplitOverlap(e, c).pre; (if pre == [] then [] else EntryLines(pre[0])) == Segment(e, 0, LinesBefore(e, c))
  {}

  lemma SplitAfter<O>(e: Entry<O>, c: Chunk<O>)
    requires !e.guilty && !e.boundary && SplitOverlap(e, c).Split? && 0 <= SplitOverlap(e, c).mid.num
    requires LinesBefore(e, c) + SplitOverlap(e, c).mid.num <= Count(e)
    ensures var s := SplitOverlap(e, c); var k := LinesBefore(e, c) + s.mid.num;
            (if s.post == [] then [] else EntryLines(s.post[0])) == Segment(e, k, Count(e) - k)
  {}

  lemma SplitSegments<O>(e: Entry<O>, c: Chunk<O>)
    requires !e.guilty && !e.boundary && SplitOverlap(e, c).Split?
    ensures var s := SplitOverlap(e, c);
            var n, m := LinesBefore(e, c), s.mid.num;
            && 0 <= m && n + m <= Count(e)
            && View(Parts(s)) == Segment(e, 0, n) + EntryLines(s.mid) + Segment(e, n + m, Count(e) - n - m)
  {
    PartsView(SplitOverlap(e, c));
    SplitSizes(e, c);
    SplitBefore(e, c);
    SplitAfter(e, c);
  }

  /** The parts say of each line what the chunk makes of it. */
  lemma SplitMoves<O>(e: Entry<O>, c: Chunk<O>)
    requires !e.guilty && !e.boundary && e.suspect == c.target
    ensures match SplitOverlap(e, c)
            case NoSplit => Map(Move(c), EntryLines(e)) == EntryLines(e)
            case Split(_, _, _) => View(Parts(SplitOverlap(e, c))) == Map(Move(c), EntryLines(e))
  {
    var s := SplitOverlap(e, c);
    if s.Split? {
      SplitSegments(e, c);
      SegmentMoves(c, e, LinesBefore(e, c), s.mid.num, s.mid);
    }
  }

  lemma Spread(n: nat, pre: nat, mid: nat, post: nat, p: nat, r: nat)
    requires n == pre + mid + post && mid >= 1 && p < r
    ensures pre * (1 + r) + mid * (1 + p) + post * (1 + r) < n * (1 + r)
  {
    assert n * (1 + r) == pre * (1 + r) + mid * (1 + r) + post * (1 + r);
    assert mid * (1 + r) == mid * (1 + p) + mid * (r - p);
    assert mid * (r - p) >= 1 * (r - p);
  }

  /** Handing lines to a suspect of lower rank leaves less open. */
  lemma SplitCost<O>(rank: O -> nat, e: Entry<O>, c: Chunk<O>)
    requires !e.guilty && e.suspect == c.target && rank(c.parent) < rank(c.target)
    requires SplitOverlap(e, c).Split?
    ensures Cost(rank, Parts(SplitOverlap(e, c))) < Cost(rank, [e])
  {
    var s := SplitOverlap(e, c);
    ReplaceCost(rank, s.pre, [s.mid], s.post);
    var pre: nat := if s.pre == [] then 0 else s.pre[0].num;
    var post: nat := if s.post == [] then 0 else s.post[0].num;
    Spread(e.num, pre, s.mid.num, post, rank(c.parent), rank(c.target));
  }

  // ----- going through the list -----

  ghost predicate Settled<O>(c: Chunk<O>, v: seq<Line<O>>) {
    forall i :: 0 <= i < |v| ==> MoveLine(c, v[i]) == v[i]
  }

  lemma SettledConcat<O>(c: Chunk<O>, v: seq<Line<O>>, w: seq<Line<O>>)
    ensures Settled(c, v + w) <==> Settled(c, v) && Settled(c, w)
  {
    if Settled(c, v + w) {
      forall i | 0 <= i < |v| ensures MoveLine(c, v[i]) == v[i] { assert (v + w)[i] == v[i]; }
      forall i | 0 <= i < |w| ensures MoveLine(c, w[i]) == w[i] { assert (v + w)[|v| + i] == w[i]; }
    }
  }

  lemma SettledMap<O>(c: Chunk<O>, v: seq<Line<O>>)
    ensures c.parent != c.target ==> Settled(c, Map(Move(c), v))
    ensures Settled(c, v) ==> Map(Move(c), v) == v
  {}

  /** The groups that the loop passes over. */
  predicate Passed<O(==)>(c: Chunk<O>, e: Entry<O>) {
    e.guilty || e.suspect != c.target || c.same <= e.sLno || e.sLno + e.num <= c.tlno
  }

  lemma PassedSettled<O>(c: Chunk<O>, e: Entry<O>)
    requires Passed(c, e)
    ensures Settled(c, EntryLines(e))
  {}

  /** No group that is still open carries the boundary mark. */
  ghost predicate Clean<O>(es: seq<Entry<O>>) {
    forall i :: 0 <= i < |es| && !es[i].guilty ==> !es[i].boundary
  }

  ghost predicate Orderly<O>(es: seq<Entry<O>>, lo: int) { Partition(es, lo) && Clean(es) }

  /** If anything was changed at all, less is open. */
  ghost predicate NoDearer<O>(rank: O -> nat, before: seq<Entry<O>>, after: seq<Entry<O>>) {
    after == before || Cost(rank, after) < Cost(rank, before)
  }

  /** The first `i` groups of `es` are done with; the rest, of `left` lines, will come to what it should. */
  ghost predicate Underway<O>(c: Chunk<O>, v0: seq<Line<O>>, es: seq<Entry<O>>, i: nat, lo: int, left: nat) {
    && i <= |es|
    && Orderly(es, lo)
    && Map(Move(c), View(es)) == Map(Move(c), v0)
    && Settled(c, View(es[..i]))
    && |View(es[..i])| + left == |v0|
  }

  lemma UnderwayNext<O>(c: Chunk<O>, v0: seq<Line<O>>, es: seq<Entry<O>>, i: nat, lo: int, left: nat)
    requires Underway(c, v0, es, i, lo, left) && i < |es| && Settled(c, EntryLines(es[i]))
    ensures Count(es[i]) <= left && Underway(c, v0, es, i + 1, lo, left - Count(es[i]))
  {
    assert es[..i + 1] == es[..i] + [es[i]];
    ViewConcat(es[..i], [es[i]]);
    ViewSingle(es[i]);
    SettledConcat(c, View(es[..i]), EntryLines(es[i]));
    assert es == es[..i + 1] + es[i + 1..];
    ViewConcat(es[..i + 1], es[i + 1..]);
    assert |Map(Move(c), View(es))| == |View(es)|;
  }

  lemma UnderwayEnd<O>(c: Chunk<O>, v0: seq<Line<O>>, es: seq<Entry<O>>, lo: int, left: nat)
    requires Underway(c, v0, es, |es|, lo, left)
    ensures View(es) == Map(Move(c), v0)
  {
    assert es[..|es|] == es;
    SettledMap(c, View(es));
  }

  lemma ReplaceMoves<O>(c: Chunk<O>, a: seq<Entry<O>>, e: Entry<O>, ps: seq<Entry<O>>, b: seq<Entry<O>>)
    requires c.parent != c.target && View(ps) == Map(Move(c), EntryLines(e))
    ensures Map(Move(c), View(a + ps + b)) == Map(Move(c), View(a + [e] + b))
    ensures ps != [] ==> Settled(c, EntryLines(ps[0]))
  {
    ReplaceView(a, ps, b);
    ReplaceView(a, [e], b);
    ViewSingle(e);
    SettledMap(c, EntryLines(e));
    SettledMap(c, View(ps));
    MapConcat(Move(c), View(a) + View(ps), View(b));
    MapConcat(Move(c), View(a), View(ps));
    MapConcat(Move(c), View(a) + EntryLines(e), View(b));
    MapConcat(Move(c), View(a), EntryLines(e));
    if ps != [] {
      SettledConcat(c, EntryLines(ps[0]), View(ps[1..]));
    }
  }

  /** One split keeps the loop on its way. */
  lemma UnderwaySplit<O>(c: Chunk<O>, v0: seq<Line<O>>, es: seq<Entry<O>>, i: nat, lo: int, left: nat)
    requires Underway(c, v0, es, i, lo, left) && i < |es| && !Passed(c, es[i]) && c.parent != c.target
    requires SplitOverlap(es[i], c).Split?
    ensures var ps := Parts(SplitOverlap(es[i], c));
            0 < Count(ps[0]) <= left && Underway(c, v0, Replaced(es, i, ps), i + 1, lo, left - Count(ps[0]))
  {
    var e := es[i];
    var ps := Parts(SplitOverlap(e, c));
    var a, b := es[..i], es[i + 1..];
    var rs := Replaced(es, i, ps);
    assert es == a + [e] + b;
    SplitCovers(e, c);
    SplitMoves(e, c);
    ReplaceKeepsPartition(a, e, ps, b, lo);
    ReplaceMoves(c, a, e, ps, b);
    CleanParts(a, e, ps, b);
    assert rs[..i] == a && rs[i] == ps[0];
    UnderwayNext(c, v0, rs, i, lo, left);
  }

  lemma CleanParts<O>(a: seq<Entry<O>>, e: Entry<O>, ps: seq<Entry<O>>, b: seq<Entry<O>>)
    requires Clean(a + [e] + b) && Clean(ps)
    ensures Clean(a + ps + b)
  {
    var es, rs := a + [e] + b, a + ps + b;
    forall i | 0 <= i < |rs| && !rs[i].guilty ensures !rs[i].boundary {
      if i < |a| {
        assert rs[i] == es[i];
      } else if i < |a| + |ps| {
        assert rs[i] == ps[i - |a|];
      } else {
        assert rs[i] == es[i - |ps| + 1];
      }
    }
  }

  function Replaced<O>(es: seq<Entry<O>>, i: nat, ps: seq<Entry<O>>): seq<Entry<O>>
    requires i < |es|
  {
    es[..i] + ps + es[i + 1..]
  }

  // ----- changing every group of a suspect -----

  /** All lines of one suspect go to another, settled ones too. */
  function PassLine<O(==)>(o: O, q: O, l: Line<O>): Line<O> { if l.suspect == o then l.(suspect := q) else l }

  function Pass<O(==)>(o: O, q: O): Line<O> -> Line<O> { l => PassLine(o, q, l) }

  function PassEntry<O(==)>(o: O, q: O): Entry<O> -> Entry<O> {
    (e: Entry<O>) => if e.suspect == o then e.(suspect := q) else e
  }

  /** A suspect owns up to the lines that are left to it. */
  function OwnLine<O(==)>(o: O, boundary: bool, l: Line<O>): Line<O> {
    if l.suspect == o then l.(guilty := true, boundary := boundary) else l
  }

  function Own<O(==)>(o: O, boundary: bool): Line<O> -> Line<O> { l => OwnLine(o, boundary, l) }

  function OwnEntry<O(==)>(o: O, boundary: bool): Entry<O> -> Entry<O> {
    (e: Entry<O>) => if e.suspect == o then e.(guilty := true, boundary := boundary) else e
  }

  /** The first `i` groups have been changed. */
  ghost predicate EachUpTo<O>(g: Entry<O> -> Entry<O>, es: seq<Entry<O>>, rs: seq<Entry<O>>, i: nat) {
    && |rs| == |es|
    && (forall j :: 0 <= j < i && j < |es| ==> rs[j] == g(es[j]))
    && (forall j :: i <= j < |es| ==> rs[j] == es[j])
  }

  lemma EachAll<O>(g: Entry<O> -> Entry<O>, es: seq<Entry<O>>, rs: seq<Entry<O>>)
    requires EachUpTo(g, es, rs, |es|)
    ensures rs == Map(g, es)
  {}

  /** `g` changes groups the way `f` changes lines. */
  ghost predicate Lifts<O>(f: Line<O> -> Line<O>, g: Entry<O> -> Entry<O>, es: seq<Entry<O>>) {
    forall i :: 0 <= i < |es| ==>
      EntryLines(g(es[i])) == Map(f, EntryLines(es[i])) && g(es[i]).lno == es[i].lno && g(es[i]).num == es[i].num
  }

  lemma {:induction false} EachView<O>(f: Line<O> -> Line<O>, g: Entry<O> -> Entry<O>, es: seq<Entry<O>>, lo: int)
    requires Lifts(f, g, es)
    ensures View(Map(g, es)) == Map(f, View(es)) && (Chain(es, lo) ==> Chain(Map(g, es), lo))
    decreases |es|
  {
    if es != [] {
      EachView(f, g, es[1..], lo + Count(es[0]));
      assert Map(g, es)[1..] == Map(g, es[1..]);
      MapConcat(f, EntryLines(es[0]), View(es[1..]));
    }
  }

  lemma EachPartition<O>(f: Line<O> -> Line<O>, g: Entry<O> -> Entry<O>, es: seq<Entry<O>>, lo: int)
    requires Lifts(f, g, es) && Partition(es, lo)
    ensures View(Map(g, es)) == Map(f, View(es)) && Partition(Map(g, es), lo)
  {
    EachView(f, g, es, lo);
  }

  predicate Accuses<O(==)>(e: Entry<O>, o: O) { !e.guilty && e.suspect == o }

  /** The suspect has lines that are not settled. */
  ghost predicate Suspected<O>(es: seq<Entry<O>>, o: O) {
    exists i :: 0 <= i < |es| && Accuses(es[i], o)
  }

  lemma {:induction false} EachCost<O>(rank: O -> nat, g: Entry<O> -> Entry<O>, es: seq<Entry<O>>, o: O)
    requires forall i :: 0 <= i < |es| ==> Price(rank, g(es[i])) <= Price(rank, es[i])
    requires forall i :: 0 <= i < |es| && Accuses(es[i], o) ==>
               Price(rank, g(es[i])) < Price(rank, es[i])
    ensures Cost(rank, Map(g, es)) <= Cost(rank, es)
    ensures Suspected(es, o) ==> Cost(rank, Map(g, es)) < Cost(rank, es)
    decreases |es|
  {
    if es != [] {
      assert Map(g, es)[1..] == Map(g, es[1..]);
      EachCost(rank, g, es[1..], o);
      if Suspected(es, o) {
        var i :| 0 <= i < |es| && Accuses(es[i], o);
        assert i > 0 ==> es[1..][i - 1] == es[i];
      }
    }
  }

  lemma Lower(w: nat, p: nat, r: nat)
    requires w >= 1 && p < r
    ensures w * (1 + p) < w * (1 + r)
  {
    assert w * (1 + r) == w * (1 + p) + w * (r - p);
    assert w * (r - p) >= 1 * (r - p);
  }

  lemma PassLifts<O>(o: O, q: O, es: seq<Entry<O>>)
    ensures Lifts(Pass(o, q), PassEntry(o, q), es) && (Clean(es) ==> Clean(Map(PassEntry(o, q), es)))
  {}

  lemma OwnLifts<O>(o: O, boundary: bool, es: seq<Entry<O>>)
    ensures Lifts(Own(o, boundary), OwnEntry(o, boundary), es) && (Clean(es) ==> Clean(Map(OwnEntry(o, boundary), es)))
  {}

  lemma PassPrice<O>(o: O, q: O, e: Entry<O>, rank: O -> nat)
    requires rank(q) < rank(o)
    ensures Price(rank, PassEntry(o, q)(e)) <= Price(rank, e)
    ensures Accuses(e, o) ==> Price(rank, PassEntry(o, q)(e)) < Price(rank, e)
  {
    if Accuses(e, o) {
      Lower(Weight(e), rank(q), rank(o));
    }
  }

  lemma OwnPrice<O>(o: O, boundary: bool, e: Entry<O>, rank: O -> nat)
    ensures Price(rank, OwnEntry(o, boundary)(e)) <= Price(rank, e)
    ensures Accuses(e, o) ==> Price(rank, OwnEntry(o, boundary)(e)) < Price(rank, e)
  {
    if Accuses(e, o) {
      assert Weight(e) * (1 + rank(e.suspect)) >= 1;
    }
  }

  lemma PassKeeps<O>(o: O, q: O, es: seq<Entry<O>>, lo: int, rank: O -> nat)
    requires Partition(es, lo) && rank(q) < rank(o)
    ensures View(Map(PassEntry(o, q), es)) == Map(Pass(o, q), View(es))
    ensures Partition(Map(PassEntry(o, q), es), lo) && (Clean(es) ==> Clean(Map(PassEntry(o, q), es)))
    ensures Cost(rank, Map(PassEntry(o, q), es)) <= Cost(rank, es)
    ensures Suspected(es, o) ==> Cost(rank, Map(PassEntry(o, q), es)) < Cost(rank, es)
  {
    var g := PassEntry(o, q);
    PassLifts(o, q, es);
    EachPartition(Pass(o, q), g, es, lo);
    forall i | 0 <= i < |es|
      ensures Price(rank, g(es[i])) <= Price(rank, es[i])
      ensures Accuses(es[i], o) ==> Price(rank, g(es[i])) < Price(rank, es[i])
    {
      PassPrice(o, q, es[i], rank);
    }
    EachCost(rank, g, es, o);
  }

  lemma OwnKeeps<O>(o: O, boundary: bool, es: seq<Entry<O>>, lo: int, rank: O -> nat)
    requires Partition(es, lo)
    ensures View(Map(OwnEntry(o, boundary), es)) == Map(Own(o, boundary), View(es))
    ensures Partition(Map(OwnEntry(o, boundary), es), lo) && (Clean(es) ==> Clean(Map(OwnEntry(o, boundary), es)))
    ensures Cost(rank, Map(OwnEntry(o, boundary), es)) <= Cost(rank, es)
    ensures Suspected(es, o) ==> Cost(rank, Map(OwnEntry(o, boundary), es)) < Cost(rank, es)
  {
    var g := OwnEntry(o, boundary);
    OwnLifts(o, boundary, es);
    EachPartition(Own(o, boundary), g, es, lo);
    forall i | 0 <= i < |es|
      ensures Price(rank, g(es[i])) <= Price(rank, es[i])
      ensures Accuses(es[i], o) ==> Price(rank, g(es[i])) < Price(rank, es[i])
    {
      OwnPrice(o, boundary, es[i], rank);
    }
    EachCost(rank, g, es, o);
  }
}
