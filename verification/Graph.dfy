/**
 * Ahead and behind: two marks spread from two commits towards the roots,
 * newest commits first, and a second walk counts the commits that carry only
 * one of them.
 */
module Graph {
  import opened PQueue

  /** Commits are numbered; each has a list of parents and a time. */
  datatype Graph = Graph(parents: seq<seq<nat>>, time: seq<nat>)

  predicate Valid(g: Graph) {
    |g.time| == |g.parents|
    && forall c, i :: 0 <= c < |g.parents| && 0 <= i < |g.parents[c]| ==> g.parents[c][i] < |g.parents|
  }

  /** Every commit is newer than each of its parents. */
  predicate Ordered(g: Graph)
    requires Valid(g)
  {
    forall c, i :: 0 <= c < |g.parents| && 0 <= i < |g.parents[c]| ==> g.time[g.parents[c][i]] < g.time[c]
  }

  function KeyOf(g: Graph): Key {
    (c: nat) => if c < |g.time| then g.time[c] else 0
  }

  // ----- reachability -----

  predicate Path(g: Graph, p: seq<nat>) {
    && p != []
    && (forall i :: 0 <= i < |p| ==> p[i] < |g.parents|)
    && (forall i :: 0 <= i < |p| - 1 ==> p[i + 1] in g.parents[p[i]])
  }

  ghost predicate Reaches(g: Graph, a: nat, x: nat) {
    exists p :: Path(g, p) && p[0] == a && p[|p| - 1] == x
  }

  lemma ReachesSelf(g: Graph, a: nat)
    requires a < |g.parents|
    ensures Reaches(g, a, a)
  {
    assert Path(g, [a]);
  }

  lemma ReachesParent(g: Graph, a: nat, c: nat, x: nat)
    requires Valid(g) && Reaches(g, a, c) && x in g.parents[c]
    ensures Reaches(g, a, x)
  {
    var p :| Path(g, p) && p[0] == a && p[|p| - 1] == c;
    var q := p + [x];
    assert forall i :: 0 <= i < |q| - 1 ==> q[i] == p[i];
    assert Path(g, q);
  }

  /** The commits reachable from `a` and not from `b`. */
  ghost function Only(g: Graph, a: nat, b: nat): set<nat> {
    set x | 0 <= x < |g.parents| && Reaches(g, a, x) && !Reaches(g, b, x)
  }

  // ----- marks -----

  datatype Flags = Flags(p1: bool, p2: bool, result: bool, stale: bool)

  const CLEAR: Flags := Flags(false, false, false, false)

  function Join(f: Flags, e: Flags): Flags {
    Flags(f.p1 || e.p1, f.p2 || e.p2, f.result || e.result, f.stale || e.stale)
  }

  /** Marks that a commit passes to its parents: those of a merge of both sides are also stale. */
  function Passed(f: Flags): Flags {
    Flags(f.p1, f.p2, false, f.stale || (f.p1 && f.p2))
  }

  predicate Covers(f: Flags, e: Flags) {
    (e.p1 ==> f.p1) && (e.p2 ==> f.p2) && (e.stale ==> f.stale)
  }

  /** What a commit carries has reached its parents. */
  predicate Done(g: Graph, f: seq<Flags>, c: nat)
    requires Valid(g) && |f| == |g.parents| && c < |f|
  {
    forall i :: 0 <= i < |g.parents[c]| ==> Covers(f[g.parents[c][i]], Passed(f[c]))
  }

  ghost predicate SoundAt(g: Graph, f: seq<Flags>, one: nat, two: nat, c: nat)
    requires c < |f|
  {
    && (f[c].p1 ==> Reaches(g, one, c)) && (f[c].p2 ==> Reaches(g, two, c))
    && (f[c].stale || f[c].result ==> f[c].p1 && f[c].p2)
  }

  /** No mark is wrong, and the two starting commits carry theirs. */
  ghost predicate Sound(g: Graph, f: seq<Flags>, one: nat, two: nat) {
    && |f| == |g.parents| && one < |f| && two < |f| && f[one].p1 && f[two].p2
    && forall c :: 0 <= c < |f| ==> SoundAt(g, f, one, two, c)
  }

  /**
   * Between rounds: what is marked waits in the queue or has been passed on,
   * and in an ordered graph nothing in the queue is newer than what was taken
   * from it.
   */
  ghost predicate Marking(g: Graph, f: seq<Flags>, q: seq<nat>, popped: set<nat>, one: nat, two: nat) {
    && Valid(g) && Sound(g, f, one, two) && Heap(KeyOf(g), q)
    && (forall x :: x in q ==> x < |f|) && (forall x :: x in popped ==> x < |f|)
    && (forall c :: 0 <= c < |f| && (f[c].p1 || f[c].p2) ==> c in q || (c in popped && Done(g, f, c)))
    && (Ordered(g) ==> forall y, x :: y in q && x in popped ==> g.time[y] <= g.time[x])
  }

  /** All that is left in the queue is stale. */
  predicate Settled(f: seq<Flags>, q: seq<nat>) {
    forall x :: x in q ==> x < |f| && f[x].stale
  }

  // ----- what the marks mean when marking stops -----

  /** On a path that avoids the other side, the mark of this side reaches every commit. */
  lemma {:induction false} MarkedAlong(g: Graph, f: seq<Flags>, q: seq<nat>, popped: set<nat>, one: nat, two: nat,
                                       p: seq<nat>, k: nat)
    requires Marking(g, f, q, popped, one, two) && Settled(f, q)
    requires Path(g, p) && p[0] == one && k < |p|
    requires !Reaches(g, two, p[k])
    ensures f[p[k]].p1
    decreases k
  {
    if k > 0 {
      var y := p[k - 1];
      if Reaches(g, two, y) {
        ReachesParent(g, two, y, p[k]);
      }
      MarkedAlong(g, f, q, popped, one, two, p, k - 1);
      assert SoundAt(g, f, one, two, y);
      assert Done(g, f, y);
      assert p[(k - 1) + 1] in g.parents[y];
      var i :| 0 <= i < |g.parents[y]| && g.parents[y][i] == p[k];
    }
  }

  /** In an ordered graph, times fall along a path. */
  lemma {:induction false} TimeFalls(g: Graph, p: seq<nat>, j: nat, k: nat)
    requires Valid(g) && Ordered(g) && Path(g, p) && j < k < |p|
    ensures g.time[p[k]] < g.time[p[j]]
    decreases k
  {
    var y := p[k - 1];
    assert p[(k - 1) + 1] in g.parents[y];
    var i :| 0 <= i < |g.parents[y]| && g.parents[y][i] == p[k];
    if j < k - 1 {
      TimeFalls(g, p, j, k - 1);
    }
  }

  /** Somewhere along a path a mark that is there at the start and not at the end is lost. */
  lemma {:induction false} Gap(f: seq<Flags>, p: seq<nat>) returns (k: nat)
    requires |p| > 0 && (forall i :: 0 <= i < |p| ==> p[i] < |f|)
    requires f[p[0]].p2 && !f[p[|p| - 1]].p2
    ensures k + 1 < |p| && f[p[k]].p2 && !f[p[k + 1]].p2
    decreases |p|
  {
    if f[p[|p| - 2]].p2 {
      k := |p| - 2;
    } else {
      k := Gap(f, p[..|p| - 1]);
    }
  }

  /** A mark that has not been passed on waits in the queue. */
  lemma Waiting(g: Graph, f: seq<Flags>, q: seq<nat>, popped: set<nat>, one: nat, two: nat, y: nat, z: nat)
    requires Marking(g, f, q, popped, one, two) && y < |f| && z in g.parents[y]
    requires f[y].p2 && !f[z].p2
    ensures y in q
  {
    var i :| 0 <= i < |g.parents[y]| && g.parents[y][i] == z;
    assert !Covers(f[g.parents[y][i]], Passed(f[y]));
  }

  /**
   * In an ordered graph, a commit of both sides that carries one mark carries
   * the other: had the other mark stopped short, it would wait in the queue at
   * a newer commit than one already taken.
   */
  lemma OtherMarkArrives(g: Graph, f: seq<Flags>, q: seq<nat>, popped: set<nat>, one: nat, two: nat, x: nat)
    requires Marking(g, f, q, popped, one, two) && Settled(f, q) && Ordered(g)
    requires x < |f| && f[x].p1 && Reaches(g, two, x)
    ensures f[x].p2
  {
    var p :| Path(g, p) && p[0] == two && p[|p| - 1] == x;
    if !f[x].p2 {
      assert SoundAt(g, f, one, two, x);
      assert x in popped;
      var k := Gap(f, p);
      TimeFalls(g, p, k, |p| - 1);
      Waiting(g, f, q, popped, one, two, p[k], p[k + 1]);
    }
  }

  // ----- the two sides are alike -----

  function Mirror(f: seq<Flags>): seq<Flags> {
    seq(|f|, i requires 0 <= i < |f| => Flags(f[i].p2, f[i].p1, f[i].result, f[i].stale))
  }

  lemma MirrorMarking(g: Graph, f: seq<Flags>, q: seq<nat>, popped: set<nat>, one: nat, two: nat)
    requires Marking(g, f, q, popped, one, two)
    ensures Marking(g, Mirror(f), q, popped, two, one)
  {
    forall c | 0 <= c < |f| ensures SoundAt(g, Mirror(f), two, one, c) { assert SoundAt(g, f, one, two, c); }
    forall c | 0 <= c < |f| && Done(g, f, c) ensures Done(g, Mirror(f), c) {
      forall i | 0 <= i < |g.parents[c]| ensures Covers(Mirror(f)[g.parents[c][i]], Passed(Mirror(f)[c])) {
        assert Covers(f[g.parents[c][i]], Passed(f[c]));
      }
    }
  }

  /** A commit of the first side alone carries that side's mark, and so do its parents. */
  predicate MarkedAt(g: Graph, f: seq<Flags>, x: nat)
    requires Valid(g) && |f| == |g.parents| && x < |f|
  {
    f[x].p1 && forall i :: 0 <= i < |g.parents[x]| ==> f[g.parents[x][i]].p1
  }

  /** Commits of one side alone carry exactly that side's mark and pass it on. */
  ghost predicate Marked(g: Graph, f: seq<Flags>, one: nat, two: nat) {
    && Valid(g) && Sound(g, f, one, two)
    && (forall x :: x in Only(g, one, two) ==> MarkedAt(g, f, x))
    && (forall x :: x in Only(g, two, one) ==> MarkedAt(g, Mirror(f), x))
  }

  /** Commits of both sides carry both marks or none. */
  ghost predicate Agree(g: Graph, f: seq<Flags>, one: nat, two: nat)
    requires |f| == |g.parents|
  {
    forall x :: 0 <= x < |f| && Reaches(g, one, x) && Reaches(g, two, x) ==> (f[x].p1 <==> f[x].p2)
  }

  lemma MarkedOnly(g: Graph, f: seq<Flags>, q: seq<nat>, popped: set<nat>, one: nat, two: nat, x: nat)
    requires Marking(g, f, q, popped, one, two) && Settled(f, q) && x in Only(g, one, two)
    ensures MarkedAt(g, f, x)
  {
    var p :| Path(g, p) && p[0] == one && p[|p| - 1] == x;
    MarkedAlong(g, f, q, popped, one, two, p, |p| - 1);
    assert SoundAt(g, f, one, two, x);
    assert Done(g, f, x);
    forall i | 0 <= i < |g.parents[x]| ensures f[g.parents[x][i]].p1 {
      assert Covers(f[g.parents[x][i]], Passed(f[x]));
    }
  }

  lemma MarkingEnds(g: Graph, f: seq<Flags>, q: seq<nat>, popped: set<nat>, one: nat, two: nat)
    requires Marking(g, f, q, popped, one, two) && Settled(f, q)
    ensures Marked(g, f, one, two)
    ensures Ordered(g) ==> Agree(g, f, one, two)
  {
    MirrorMarking(g, f, q, popped, one, two);
    forall x | x in Only(g, one, two) ensures MarkedAt(g, f, x) {
      MarkedOnly(g, f, q, popped, one, two, x);
    }
    forall x | x in Only(g, two, one) ensures MarkedAt(g, Mirror(f), x) {
      MarkedOnly(g, Mirror(f), q, popped, two, one, x);
    }
    if Ordered(g) {
      forall x | 0 <= x < |f| && Reaches(g, one, x) && Reaches(g, two, x) ensures f[x].p1 <==> f[x].p2 {
        if f[x].p1 { OtherMarkArrives(g, f, q, popped, one, two, x); }
        if f[x].p2 { OtherMarkArrives(g, Mirror(f), q, popped, two, one, x); }
      }
    }
  }

  // ----- counting marks, for termination -----

  function Bits(f: Flags): nat {
    (if f.p1 then 1 else 0) + (if f.p2 then 1 else 0) + (if f.stale then 1 else 0)
  }

  function Sum(f: seq<Flags>): (n: nat)
    ensures n <= 3 * |f|
  {
    if f == [] then 0 else Sum(f[..|f| - 1]) + Bits(f[|f| - 1])
  }

  lemma {:induction false} SumUpdate(f: seq<Flags>, i: nat, v: Flags)
    requires i < |f|
    ensures Sum(f[i := v]) + Bits(f[i]) == Sum(f) + Bits(v)
    decreases |f|
  {
    if i < |f| - 1 {
      SumUpdate(f[..|f| - 1], i, v);
      assert f[i := v][..|f| - 1] == f[..|f| - 1][i := v];
    } else {
      assert f[i := v][..|f| - 1] == f[..|f| - 1];
    }
  }

  lemma JoinCounts(f: seq<Flags>, i: nat, e: Flags)
    requires i < |f| && !Covers(f[i], e)
    ensures Sum(f[i := Join(f[i], e)]) > Sum(f)
  {
    SumUpdate(f, i, Join(f[i], e));
  }

  // ----- one round of marking -----

  /** While commit `c` passes `e` to its parents, `i` of which have been seen to. */
  ghost predicate Passing(g: Graph, f: seq<Flags>, q: seq<nat>, popped: set<nat>, one: nat, two: nat,
                          c: nat, e: Flags, i: nat)
  {
    && Valid(g) && Sound(g, f, one, two) && Heap(KeyOf(g), q)
    && (forall x :: x in q ==> x < |f|) && (forall x :: x in popped ==> x < |f|)
    && c in popped && i <= |g.parents[c]|
    && (e.p1 ==> Reaches(g, one, c)) && (e.p2 ==> Reaches(g, two, c)) && (e.stale ==> e.p1 && e.p2) && !e.result
    && (forall x :: 0 <= x < |f| && x != c && (f[x].p1 || f[x].p2) ==> x in q || (x in popped && Done(g, f, x)))
    && (c in q || (Passed(f[c]) == e && forall j :: 0 <= j < i ==> Covers(f[g.parents[c][j]], e)))
    && (Ordered(g) ==> forall y, x :: y in q && x in popped ==> g.time[y] <= g.time[x])
    && (Ordered(g) ==> forall x :: x in popped ==> g.time[c] <= g.time[x])
  }

  lemma {:induction false} HeapSame(q: seq<nat>, h: seq<nat>, x: nat)
    requires multiset(h) == multiset(q) + multiset{x}
    ensures forall y :: y in h <==> y in q || y == x
  {
    forall y ensures y in h <==> y in q || y == x {
      assert y in h <==> y in multiset(h);
      assert y in q <==> y in multiset(q);
    }
  }

  /** A commit is taken from the queue; if it carries both marks for the first time it is a result. */
  lemma PassBegin(g: Graph, f: seq<Flags>, q: seq<nat>, popped: set<nat>, one: nat, two: nat, c: nat, rest: seq<nat>)
    requires Marking(g, f, q, popped, one, two) && c in q
    requires multiset(q) == multiset(rest) + multiset{c} && Heap(KeyOf(g), rest)
    requires forall y :: y in q ==> KeyOf(g)(y) <= KeyOf(g)(c)
    ensures Passing(g, f, rest, popped + {c}, one, two, c, Passed(f[c]), 0)
  {
    HeapSame(rest, q, c);
    assert SoundAt(g, f, one, two, c);
    forall y | y in q ensures g.time[y] <= g.time[c] {
      assert KeyOf(g)(y) == g.time[y] && KeyOf(g)(c) == g.time[c];
    }
  }

  lemma PassResult(g: Graph, f: seq<Flags>, q: seq<nat>, popped: set<nat>, one: nat, two: nat, c: nat)
    requires Marking(g, f, q, popped, one, two) && c < |f| && f[c].p1 && f[c].p2
    ensures Marking(g, f[c := f[c].(result := true)], q, popped, one, two)
  {
    var n := f[c := f[c].(result := true)];
    forall x | 0 <= x < |f| ensures SoundAt(g, n, one, two, x) { assert SoundAt(g, f, one, two, x); }
    forall x | 0 <= x < |f| && Done(g, f, x) ensures Done(g, n, x) { DoneGrows(g, f, n, x); }
  }

  lemma DoneGrows(g: Graph, f: seq<Flags>, n: seq<Flags>, x: nat)
    requires Valid(g) && |f| == |n| == |g.parents| && x < |f| && Done(g, f, x) && Passed(n[x]) == Passed(f[x])
    requires forall y :: 0 <= y < |f| ==> Covers(n[y], f[y])
    ensures Done(g, n, x)
  {
    forall i | 0 <= i < |g.parents[x]| ensures Covers(n[g.parents[x][i]], Passed(n[x])) {
      assert Covers(f[g.parents[x][i]], Passed(f[x]));
    }
  }

  lemma PassSkip(g: Graph, f: seq<Flags>, q: seq<nat>, popped: set<nat>, one: nat, two: nat, c: nat, e: Flags, i: nat)
    requires Passing(g, f, q, popped, one, two, c, e, i) && i < |g.parents[c]| && Covers(f[g.parents[c][i]], e)
    ensures Passing(g, f, q, popped, one, two, c, e, i + 1)
  {}

  lemma PassJoin(g: Graph, f: seq<Flags>, q: seq<nat>, popped: set<nat>, one: nat, two: nat, c: nat, e: Flags, i: nat,
                 more: seq<nat>)
    requires Passing(g, f, q, popped, one, two, c, e, i) && i < |g.parents[c]|
    requires Heap(KeyOf(g), more) && multiset(more) == multiset(q) + multiset{g.parents[c][i]}
    ensures
      var p := g.parents[c][i];
      Passing(g, f[p := Join(f[p], e)], more, popped, one, two, c, e, i + 1)
  {
    var p := g.parents[c][i];
    var n := f[p := Join(f[p], e)];
    HeapSame(q, more, p);
    forall x | 0 <= x < |f| ensures SoundAt(g, n, one, two, x) {
      assert SoundAt(g, f, one, two, x);
      if x == p {
        if e.p1 { ReachesParent(g, one, c, p); }
        if e.p2 { ReachesParent(g, two, c, p); }
      }
    }
    forall x | 0 <= x < |f| && x != p && Done(g, f, x) ensures Done(g, n, x) { DoneGrows(g, f, n, x); }
  }

  lemma PassEnd(g: Graph, f: seq<Flags>, q: seq<nat>, popped: set<nat>, one: nat, two: nat, c: nat, e: Flags)
    requires c < |g.parents| && Passing(g, f, q, popped, one, two, c, e, |g.parents[c]|)
    ensures Marking(g, f, q, popped, one, two)
  {}

  /** The marks after the first `i` parents of `c` have been handed `e`. */
  function Spread(g: Graph, f: seq<Flags>, c: nat, e: Flags, i: nat): (r: seq<Flags>)
    requires Valid(g) && |f| == |g.parents| && c < |f| && i <= |g.parents[c]|
    ensures |r| == |f|
  {
    if i == 0 then f
    else
      var n, p := Spread(g, f, c, e, i - 1), g.parents[c][i - 1];
      if Covers(n[p], e) then n else n[p := Join(n[p], e)]
  }

  /** The parents that join the queue for it. */
  function Joining(g: Graph, f: seq<Flags>, c: nat, e: Flags, i: nat): multiset<nat>
    requires Valid(g) && |f| == |g.parents| && c < |f| && i <= |g.parents[c]|
  {
    if i == 0 then multiset{}
    else
      var p := g.parents[c][i - 1];
      Joining(g, f, c, e, i - 1) + if Covers(Spread(g, f, c, e, i - 1)[p], e) then multiset{} else multiset{p}
  }

  /** A commit that carries both marks and is not stale is a result. */
  function Resulting(f: seq<Flags>, c: nat): (r: seq<Flags>)
    requires c < |f|
    ensures |r| == |f|
  {
    if f[c].p1 && f[c].p2 && !f[c].stale then f[c := f[c].(result := true)] else f
  }

  /** One round: a newest commit of the queue passes its marks on. */
  predicate RoundFrom(g: Graph, f: seq<Flags>, q: multiset<nat>, c: nat, n: seq<Flags>, q': multiset<nat>)
    requires Valid(g) && |f| == |g.parents|
  {
    && c in q && c < |f| && (forall x :: x in q ==> KeyOf(g)(x) <= KeyOf(g)(c))
    && var r := Resulting(f, c);
       var e, k := Passed(r[c]), |g.parents[c]|;
       n == Spread(g, r, c, e, k) && q' == q - multiset{c} + Joining(g, r, c, e, k)
  }

  /** A moment of the marking; `sent` is what each commit has passed to its parents so far. */
  datatype Moment = Moment(f: seq<Flags>, q: multiset<nat>, roots: set<nat>, sent: seq<Flags>)

  /** Only the two commits are marked, and both wait. */
  function Seeded(n: nat, one: nat, two: nat): (m: Moment)
    requires one < n && two < n && one != two
    ensures |m.f| == n
  {
    var none := seq(n, _ => CLEAR);
    Moment(none[one := CLEAR.(p1 := true)][two := CLEAR.(p2 := true)], multiset{one, two}, {}, none)
  }

  /** Something that waits, or some root that was taken, is not stale. */
  ghost predicate Awake(m: Moment) {
    exists x :: (x in m.q || x in m.roots) && x < |m.f| && !m.f[x].stale
  }

  ghost predicate Step(g: Graph, m: Moment, c: nat, n: Moment) {
    && Valid(g) && |m.f| == |m.sent| == |g.parents| && Awake(m)
    && RoundFrom(g, m.f, m.q, c, n.f, n.q)
    && n.roots == (if g.parents[c] == [] then m.roots + {c} else m.roots)
    && n.sent == m.sent[c := Join(m.sent[c], Passed(m.f[c]))]
  }

  ghost predicate StepOf(g: Graph, ms: seq<Moment>, cs: seq<nat>, i: nat)
    requires i < |cs| < |ms|
  {
    Step(g, ms[i], cs[i], ms[i + 1])
  }

  /** The marking as a whole: rounds of the commits `cs` until nothing is awake or nothing waits. */
  ghost predicate Ran(g: Graph, one: nat, two: nat, ms: seq<Moment>, cs: seq<nat>) {
    && one < |g.parents| && two < |g.parents| && one != two && |ms| == |cs| + 1
    && ms[0] == Seeded(|g.parents|, one, two)
    && (forall i :: 0 <= i < |cs| ==> StepOf(g, ms, cs, i))
  }

  ghost predicate Halts(m: Moment) { !Awake(m) || m.q == multiset{} }

  lemma RanNext(g: Graph, one: nat, two: nat, ms: seq<Moment>, cs: seq<nat>, c: nat, n: Moment)
    requires Ran(g, one, two, ms, cs) && Step(g, ms[|cs|], c, n)
    ensures Ran(g, one, two, ms + [n], cs + [c])
  {
    var ns, ds := ms + [n], cs + [c];
    forall i | 0 <= i < |ds| ensures StepOf(g, ns, ds, i) {
      if i < |cs| {
        assert StepOf(g, ms, cs, i);
      }
    }
  }

  /** From `f` and `q` the first `i` parents have been handed `e`; marks are added, or the queue is as long as it was. */
  ghost predicate Handed(g: Graph, f0: seq<Flags>, q0: seq<nat>, c: nat, e: Flags, i: nat, f: seq<Flags>, q: seq<nat>)
    requires Valid(g) && |f0| == |g.parents| && c < |f0| && i <= |g.parents[c]|
  {
    && f == Spread(g, f0, c, e, i) && multiset(q) == multiset(q0) + Joining(g, f0, c, e, i)
    && (Sum(f) > Sum(f0) || (f == f0 && q == q0))
  }

  lemma HandedNext(g: Graph, f0: seq<Flags>, q0: seq<nat>, c: nat, e: Flags, i: nat, f: seq<Flags>, q: seq<nat>, more: seq<nat>)
    requires Valid(g) && |f0| == |g.parents| && c < |f0| && i < |g.parents[c]| && Handed(g, f0, q0, c, e, i, f, q)
    requires multiset(more) == multiset(q) + multiset{g.parents[c][i]} && !Covers(f[g.parents[c][i]], e)
    ensures var p := g.parents[c][i]; Handed(g, f0, q0, c, e, i + 1, f[p := Join(f[p], e)], more)
  {
    JoinCounts(f, g.parents[c][i], e);
  }

  /** Hands `e` to one parent if it lacks part of it, and puts that parent in the queue. */
  method PassOne(g: Graph, flags: array<Flags>, q0: seq<nat>, ghost popped: set<nat>, ghost one: nat, ghost two: nat,
                 c: nat, e: Flags, i: nat, ghost f0: seq<Flags>, ghost start: seq<nat>) returns (q: seq<nat>)
    requires c < flags.Length && Passing(g, flags[..], q0, popped, one, two, c, e, i) && i < |g.parents[c]|
    requires |f0| == |g.parents| && Handed(g, f0, start, c, e, i, flags[..], q0)
    modifies flags
    ensures Passing(g, flags[..], q, popped, one, two, c, e, i + 1)
    ensures Handed(g, f0, start, c, e, i + 1, flags[..], q)
  {
    var p := g.parents[c][i];
    ghost var f := flags[..];
    if Covers(flags[p], e) {
      PassSkip(g, f, q0, popped, one, two, c, e, i);
      q := q0;
    } else {
      q := Insert(KeyOf(g), q0, p);
      PassJoin(g, f, q0, popped, one, two, c, e, i, q);
      HandedNext(g, f0, start, c, e, i, f, q0, q);
      flags[p] := Join(flags[p], e);
      assert flags[..] == f[p := Join(f[p], e)];
    }
  }

  /** Hands `e` to each parent that lacks part of it, and puts those parents in the queue. */
  method PassOn(g: Graph, flags: array<Flags>, q0: seq<nat>, ghost popped: set<nat>, ghost one: nat, ghost two: nat,
                c: nat, e: Flags) returns (q: seq<nat>)
    requires c < flags.Length && c in popped && Passing(g, flags[..], q0, popped, one, two, c, e, 0)
    modifies flags
    ensures Marking(g, flags[..], q, popped, one, two)
    ensures Handed(g, old(flags[..]), q0, c, e, |g.parents[c]|, flags[..], q)
  {
    q := q0;
    var i := 0;
    while i < |g.parents[c]|
      invariant 0 <= i <= |g.parents[c]| && Passing(g, flags[..], q, popped, one, two, c, e, i)
      invariant Handed(g, old(flags[..]), q0, c, e, i, flags[..], q)
    {
      q := PassOne(g, flags, q, popped, one, two, c, e, i, old(flags[..]), q0);
      i := i + 1;
    }
    PassEnd(g, flags[..], q, popped, one, two, c, e);
  }

  predicate Within(q: seq<nat>, n: nat) {
    forall k :: 0 <= k < |q| ==> q[k] < n
  }

  /** Finds a commit of the list that is not stale. */
  method AnyFresh(flags: array<Flags>, q: seq<nat>) returns (b: bool)
    requires Within(q, flags.Length)
    ensures b <==> exists k :: 0 <= k < |q| && !flags[q[k]].stale
  {
    var i := 0;
    while i < |q|
      invariant 0 <= i <= |q| && forall k :: 0 <= k < i ==> flags[q[k]].stale
    {
      if !flags[q[i]].stale {
        return true;
      }
      i := i + 1;
    }
    return false;
  }

  /** Something in the queue, or some root already taken from it, is not stale. */
  method Interesting(flags: array<Flags>, q: seq<nat>, roots: seq<nat>) returns (b: bool)
    requires Within(q, flags.Length) && Within(roots, flags.Length)
    ensures !b ==> Settled(flags[..], q)
    ensures b <==> (exists k :: 0 <= k < |q| && !flags[q[k]].stale) || (exists k :: 0 <= k < |roots| && !flags[roots[k]].stale)
  {
    b := AnyFresh(flags, q);
    if !b {
      b := AnyFresh(flags, roots);
    }
  }

  /** A commit that carries both marks for the first time is a result. */
  method NoteResult(g: Graph, flags: array<Flags>, ghost q: seq<nat>, ghost popped: set<nat>, ghost one: nat, ghost two: nat, c: nat)
    requires c < flags.Length && Marking(g, flags[..], q, popped, one, two)
    modifies flags
    ensures flags[..] == Resulting(old(flags[..]), c) && Marking(g, flags[..], q, popped, one, two)
    ensures Sum(flags[..]) == old(Sum(flags[..]))
  {
    if flags[c].p1 && flags[c].p2 && !flags[c].stale {
      ghost var f := flags[..];
      PassResult(g, f, q, popped, one, two, c);
      SumUpdate(f, c, f[c].(result := true));
      flags[c] := flags[c].(result := true);
      assert flags[..] == f[c := f[c].(result := true)];
    }
  }

  /** One round: the newest commit passes its marks on. Marks are added, or the queue shrinks. */
  method Round(g: Graph, flags: array<Flags>, q0: seq<nat>, ghost popped: set<nat>, ghost one: nat, ghost two: nat)
    returns (q: seq<nat>, c: nat)
    requires q0 != [] && flags.Length == |g.parents| && Marking(g, flags[..], q0, popped, one, two)
    modifies flags
    ensures c < flags.Length && Marking(g, flags[..], q, popped + {c}, one, two)
    ensures Sum(flags[..]) >= old(Sum(flags[..]))
    ensures Sum(flags[..]) == old(Sum(flags[..])) ==> |q| < |q0|
    ensures RoundFrom(g, old(flags[..]), multiset(q0), c, flags[..], multiset(q))
  {
    var rest;
    c, rest := Pop(KeyOf(g), q0);
    NoteResult(g, flags, q0, popped, one, two, c);
    PassBegin(g, flags[..], q0, popped, one, two, c, rest);
    q := PassOn(g, flags, rest, popped + {c}, one, two, c, Passed(flags[c]));
  }

  /** Marks the two commits and puts them in the queue. */
  method Seed(g: Graph, flags: array<Flags>, one: nat, two: nat) returns (q: seq<nat>)
    requires Valid(g) && flags.Length == |g.parents| && one < flags.Length && two < flags.Length && one != two
    requires forall x :: 0 <= x < flags.Length ==> flags[x] == CLEAR
    modifies flags
    ensures Marking(g, flags[..], q, {}, one, two)
    ensures flags[..] == Seeded(flags.Length, one, two).f && multiset(q) == multiset{one, two}
  {
    ReachesSelf(g, one);
    ReachesSelf(g, two);
    flags[one] := flags[one].(p1 := true);
    flags[two] := flags[two].(p2 := true);
    var first := Insert(KeyOf(g), [], one);
    HeapSame([], first, one);
    q := Insert(KeyOf(g), first, two);
    HeapSame(first, q, two);
    assert forall x :: 0 <= x < flags.Length ==> SoundAt(g, flags[..], one, two, x);
  }

  /** The moment is that of these flags, this queue and this list of roots. */
  ghost predicate Pictures(m: Moment, f: seq<Flags>, q: seq<nat>, roots: seq<nat>) {
    m.f == f && |m.sent| == |f| && m.q == multiset(q) && forall x :: x in m.roots <==> x in roots
  }

  function After(g: Graph, m: Moment, c: nat, f: seq<Flags>, q: multiset<nat>): Moment
    requires c < |g.parents| && c < |m.sent| && c < |m.f|
  {
    Moment(f, q, if g.parents[c] == [] then m.roots + {c} else m.roots, m.sent[c := Join(m.sent[c], Passed(m.f[c]))])
  }

  lemma WhetherAwake(m: Moment, f: seq<Flags>, q: seq<nat>, roots: seq<nat>, more: bool)
    requires Pictures(m, f, q, roots) && Within(q, |f|) && Within(roots, |f|)
    requires more <==> (exists k :: 0 <= k < |q| && !f[q[k]].stale) || (exists k :: 0 <= k < |roots| && !f[roots[k]].stale)
    ensures more <==> Awake(m)
    ensures q == [] <==> m.q == multiset{}
  {
    if k :| 0 <= k < |q| && !f[q[k]].stale {
      assert q[k] in m.q;
    }
    if k :| 0 <= k < |roots| && !f[roots[k]].stale {
      assert roots[k] in m.roots;
    }
    if x :| (x in m.q || x in m.roots) && x < |f| && !f[x].stale {
      assert x in q || x in roots;
    }
    if q != [] {
      assert q[0] in m.q;
    }
  }

  /** A round, and its commit is kept if it is a root. */
  method MarkRound(g: Graph, flags: array<Flags>, q0: seq<nat>, roots0: seq<nat>, ghost popped: set<nat>, ghost one: nat, ghost two: nat,
                   ghost ms0: seq<Moment>, ghost cs0: seq<nat>)
    returns (q: seq<nat>, roots: seq<nat>, ghost taken: set<nat>, ghost ms: seq<Moment>, ghost cs: seq<nat>)
    requires q0 != [] && flags.Length == |g.parents| && Marking(g, flags[..], q0, popped, one, two) && Within(roots0, flags.Length)
    requires Ran(g, one, two, ms0, cs0) && Pictures(ms0[|cs0|], flags[..], q0, roots0) && Awake(ms0[|cs0|])
    modifies flags
    ensures Marking(g, flags[..], q, taken, one, two) && Within(roots, flags.Length)
    ensures Ran(g, one, two, ms, cs) && Pictures(ms[|cs|], flags[..], q, roots)
    ensures Sum(flags[..]) >= old(Sum(flags[..]))
    ensures Sum(flags[..]) == old(Sum(flags[..])) ==> |q| < |q0|
  {
    var c;
    q, c := Round(g, flags, q0, popped, one, two);
    taken := popped + {c};
    ghost var n := After(g, ms0[|cs0|], c, flags[..], multiset(q));
    RanNext(g, one, two, ms0, cs0, c, n);
    ms, cs := ms0 + [n], cs0 + [c];
    roots := roots0;
    if g.parents[c] == [] {
      roots := [c] + roots;
    }
  }

  /** Rounds until nothing is awake any more. */
  method MarkApart(g: Graph, flags: array<Flags>, one: nat, two: nat) returns (ghost ms: seq<Moment>, ghost cs: seq<nat>)
    requires Valid(g) && flags.Length == |g.parents| && one < flags.Length && two < flags.Length && one != two
    requires forall x :: 0 <= x < flags.Length ==> flags[x] == CLEAR
    modifies flags
    ensures Marked(g, flags[..], one, two)
    ensures Ordered(g) ==> Agree(g, flags[..], one, two)
    ensures Ran(g, one, two, ms, cs) && Halts(ms[|cs|]) && ms[|cs|].f == flags[..]
  {
    var q: seq<nat> := Seed(g, flags, one, two);
    var roots: seq<nat> := [];
    ghost var popped: set<nat> := {};
    ms, cs := [Seeded(flags.Length, one, two)], [];
    while true
      invariant Marking(g, flags[..], q, popped, one, two) && Within(roots, flags.Length)
      invariant Ran(g, one, two, ms, cs) && Pictures(ms[|cs|], flags[..], q, roots)
      decreases 3 * flags.Length - Sum(flags[..]), |q|
    {
      QueueWithin(g, flags[..], q, popped, one, two);
      var more := Interesting(flags, q, roots);
      WhetherAwake(ms[|cs|], flags[..], q, roots, more);
      if !more || q == [] {
        break;
      }
      q, roots, popped, ms, cs := MarkRound(g, flags, q, roots, popped, one, two, ms, cs);
    }
    MarkingEnds(g, flags[..], q, popped, one, two);
  }

  lemma QueueWithin(g: Graph, f: seq<Flags>, q: seq<nat>, popped: set<nat>, one: nat, two: nat)
    requires Marking(g, f, q, popped, one, two)
    ensures Within(q, |f|)
  {
    forall k | 0 <= k < |q| ensures q[k] < |f| { assert q[k] in q; }
  }

  /**
   * Spreads the two marks. It ends for any times; it stops early, as soon as
   * everything that waits is stale, and yet every commit of one side alone is
   * then marked for that side only, and in an ordered graph no commit of both
   * sides is marked for just one. The rounds are returned as they went.
   */
  method MarkParents(g: Graph, flags: array<Flags>, one: nat, two: nat) returns (ghost ms: seq<Moment>, ghost cs: seq<nat>)
    requires Valid(g) && flags.Length == |g.parents| && one < flags.Length && two < flags.Length
    requires forall x :: 0 <= x < flags.Length ==> flags[x] == CLEAR
    modifies flags
    ensures Marked(g, flags[..], one, two)
    ensures Ordered(g) || one == two ==> Agree(g, flags[..], one, two)
    ensures one != two ==> Ran(g, one, two, ms, cs) && Halts(ms[|cs|]) && ms[|cs|].f == flags[..]
  {
    if one == two {
      ms, cs := [], [];
      flags[one] := Flags(true, true, true, false);
      MarkedSame(g, flags[..], one);
      return;
    }
    ms, cs := MarkApart(g, flags, one, two);
  }

  lemma MarkedSame(g: Graph, f: seq<Flags>, one: nat)
    requires Valid(g) && |f| == |g.parents| && one < |f| && f[one] == Flags(true, true, true, false)
    requires forall x :: 0 <= x < |f| && x != one ==> f[x] == CLEAR
    ensures Marked(g, f, one, one) && Agree(g, f, one, one)
  {
    ReachesSelf(g, one);
    forall x | 0 <= x < |f| ensures SoundAt(g, f, one, one, x) {}
  }

  // ----- counting -----

  /** The commit carries both marks, or has been counted; the walk goes no further there. */
  predicate Met(f: seq<Flags>, x: nat) { x < |f| && (f[x].result || (f[x].p1 && f[x].p2)) }

  /** A path on which no commit stops the walk. */
  predicate OpenPath(g: Graph, m: seq<Flags>, p: seq<nat>) {
    Path(g, p) && forall i :: 0 <= i < |p| ==> !Met(m, p[i])
  }

  /** The walk comes to `x`. */
  ghost predicate Walks(g: Graph, m: seq<Flags>, one: nat, two: nat, x: nat) {
    exists p :: OpenPath(g, m, p) && (p[0] == one || p[0] == two) && p[|p| - 1] == x
  }

  ghost function Walked(g: Graph, m: seq<Flags>, one: nat, two: nat): set<nat> {
    set x | 0 <= x < |g.parents| && Walks(g, m, one, two, x)
  }

  /** Those of the commits that are counted for the first side. */
  ghost function Firsts(m: seq<Flags>, v: set<nat>): set<nat> { set x | x in v && x < |m| && m[x].p1 }

  /** Those that are counted for the second. */
  ghost function Seconds(m: seq<Flags>, v: set<nat>): set<nat> { set x | x in v && x < |m| && !m[x].p1 && m[x].p2 }

  lemma WalksSelf(g: Graph, m: seq<Flags>, one: nat, two: nat, x: nat)
    requires x < |g.parents| && !Met(m, x) && (x == one || x == two)
    ensures Walks(g, m, one, two, x)
  {
    assert OpenPath(g, m, [x]);
  }

  lemma WalksParent(g: Graph, m: seq<Flags>, one: nat, two: nat, c: nat, x: nat)
    requires Valid(g) && Walks(g, m, one, two, c) && x in g.parents[c] && !Met(m, x)
    ensures Walks(g, m, one, two, x)
  {
    var p :| OpenPath(g, m, p) && (p[0] == one || p[0] == two) && p[|p| - 1] == c;
    var q := p + [x];
    assert forall i :: 0 <= i < |q| - 1 ==> q[i] == p[i];
    assert OpenPath(g, m, q);
  }

  predicate Known(f: seq<Flags>, q: seq<nat>, x: nat) { x in q || Met(f, x) }

  /** The walk so far has been to `v`, with marks `m` as they were left by marking. */
  ghost predicate Counting(g: Graph, m: seq<Flags>, f: seq<Flags>, q: seq<nat>, one: nat, two: nat, v: set<nat>) {
    && Valid(g) && |f| == |m| == |g.parents| && one < |f| && two < |f|
    && (forall x :: 0 <= x < |f| ==> f[x] == m[x].(result := m[x].result || x in v))
    && v <= Walked(g, m, one, two)
    && (forall x :: x in q ==> x < |f| && (!Met(m, x) ==> Walks(g, m, one, two, x)))
    && Known(f, q, one) && Known(f, q, two)
    && (forall x, i :: x in v && 0 <= i < |g.parents[x]| ==> Known(f, q, g.parents[x][i]))
  }

  /** When the queue is empty, the walk has been everywhere it comes to. */
  lemma {:induction false} CountedAlong(g: Graph, m: seq<Flags>, f: seq<Flags>, one: nat, two: nat, v: set<nat>, p: seq<nat>, k: nat)
    requires Counting(g, m, f, [], one, two, v)
    requires OpenPath(g, m, p) && (p[0] == one || p[0] == two) && k < |p|
    ensures p[k] in v
    decreases k
  {
    if k > 0 {
      var y := p[k - 1];
      CountedAlong(g, m, f, one, two, v, p, k - 1);
      assert p[(k - 1) + 1] in g.parents[y];
      var i :| 0 <= i < |g.parents[y]| && g.parents[y][i] == p[k];
      assert Known(f, [], g.parents[y][i]);
    }
  }

  lemma CountingEnds(g: Graph, m: seq<Flags>, f: seq<Flags>, one: nat, two: nat, v: set<nat>)
    requires Counting(g, m, f, [], one, two, v)
    ensures v == Walked(g, m, one, two)
  {
    forall x | x in Walked(g, m, one, two) ensures x in v {
      var p :| OpenPath(g, m, p) && (p[0] == one || p[0] == two) && p[|p| - 1] == x;
      CountedAlong(g, m, f, one, two, v, p, |p| - 1);
    }
  }

  lemma CountingSkip(g: Graph, m: seq<Flags>, f: seq<Flags>, q: seq<nat>, one: nat, two: nat, v: set<nat>, c: nat, rest: seq<nat>)
    requires Counting(g, m, f, q, one, two, v) && multiset(q) == multiset(rest) + multiset{c} && Met(f, c)
    ensures Counting(g, m, f, rest, one, two, v)
  {
    HeapSame(rest, q, c);
  }

  /** A commit is counted and its parents join the queue. */
  lemma CountingTake(g: Graph, m: seq<Flags>, f: seq<Flags>, q: seq<nat>, one: nat, two: nat, v: set<nat>, c: nat, more: seq<nat>)
    requires Counting(g, m, f, q, one, two, v) && c in q && !Met(f, c)
    requires forall x :: x in more ==> x in q || x in g.parents[c]
    requires forall x :: (x in q && x != c) || x in g.parents[c] ==> x in more
    ensures c !in v && Counting(g, m, f[c := f[c].(result := true)], more, one, two, v + {c})
  {
    var n := f[c := f[c].(result := true)];
    forall x | x in more && !Met(m, x) ensures Walks(g, m, one, two, x) {
      if x in g.parents[c] {
        WalksParent(g, m, one, two, c, x);
      }
    }
    forall x | Known(f, q, x) ensures Known(n, more, x) {}
  }

  /** Counting a commit adds it to the right side. */
  lemma TakeCounts(m: seq<Flags>, v: set<nat>, c: nat)
    requires c !in v && c < |m|
    ensures |Firsts(m, v + {c})| == |Firsts(m, v)| + if m[c].p1 then 1 else 0
    ensures |Seconds(m, v + {c})| == |Seconds(m, v)| + if !m[c].p1 && m[c].p2 then 1 else 0
  {
    assert Firsts(m, v + {c}) == if m[c].p1 then Firsts(m, v) + {c} else Firsts(m, v);
    assert Seconds(m, v + {c}) == if !m[c].p1 && m[c].p2 then Seconds(m, v) + {c} else Seconds(m, v);
  }

  // ----- what the counts come to -----

  /** The walk comes to every commit of one side alone. */
  lemma {:induction false} OnlyWalked(g: Graph, m: seq<Flags>, one: nat, two: nat, x: nat)
    requires Marked(g, m, one, two)
    ensures x in Only(g, one, two) ==> x in Firsts(m, Walked(g, m, one, two))
    ensures x in Only(g, two, one) ==> x in Seconds(m, Walked(g, m, one, two))
  {
    if x in Only(g, one, two) {
      var p :| Path(g, p) && p[0] == one && p[|p| - 1] == x;
      forall i | 0 <= i < |p| ensures !Met(m, p[i]) {
        assert SoundAt(g, m, one, two, p[i]);
        if Reaches(g, two, p[i]) { ReachesAlong(g, two, p, i); }
      }
      assert OpenPath(g, m, p) && MarkedAt(g, m, x);
    }
    if x in Only(g, two, one) {
      var p :| Path(g, p) && p[0] == two && p[|p| - 1] == x;
      forall i | 0 <= i < |p| ensures !Met(m, p[i]) {
        assert SoundAt(g, m, one, two, p[i]);
        if Reaches(g, one, p[i]) { ReachesAlong(g, one, p, i); }
      }
      assert OpenPath(g, m, p) && MarkedAt(g, Mirror(m), x) && SoundAt(g, m, one, two, x);
    }
  }

  lemma {:induction false} ReachesAlong(g: Graph, a: nat, p: seq<nat>, i: nat)
    requires Valid(g) && Path(g, p) && i < |p| && Reaches(g, a, p[i])
    ensures Reaches(g, a, p[|p| - 1])
    decreases |p| - i
  {
    if i < |p| - 1 {
      assert p[i + 1] in g.parents[p[i]];
      ReachesParent(g, a, p[i], p[i + 1]);
      ReachesAlong(g, a, p, i + 1);
    }
  }

  /** Commits of both sides that the walk comes to carry no mark. */
  ghost predicate AgreeWalked(g: Graph, m: seq<Flags>, one: nat, two: nat)
    requires |m| == |g.parents|
  {
    forall x :: x in Walked(g, m, one, two) && Reaches(g, one, x) && Reaches(g, two, x) ==> (m[x].p1 <==> m[x].p2)
  }

  lemma SameSize(a: set<nat>, b: set<nat>)
    requires a <= b
    ensures |a| <= |b| && (|a| == |b| <==> a == b)
  {
    assert b == a + (b - a);
  }

  /** The counts are never too small, and they are right exactly if no commit of both sides is counted. */
  lemma CountsRight(g: Graph, m: seq<Flags>, one: nat, two: nat)
    requires Marked(g, m, one, two)
    ensures var v := Walked(g, m, one, two); var a, b := |Firsts(m, v)|, |Seconds(m, v)|;
            && |Only(g, one, two)| <= a && |Only(g, two, one)| <= b
            && (a == |Only(g, one, two)| && b == |Only(g, two, one)| <==> AgreeWalked(g, m, one, two))
  {
    var v := Walked(g, m, one, two);
    forall x ensures x in Only(g, one, two) ==> x in Firsts(m, v)
             ensures x in Only(g, two, one) ==> x in Seconds(m, v) {
      OnlyWalked(g, m, one, two, x);
    }
    SameSize(Only(g, one, two), Firsts(m, v));
    SameSize(Only(g, two, one), Seconds(m, v));
    forall x | x in v ensures SoundAt(g, m, one, two, x) && !(m[x].p1 && m[x].p2) {
      assert SoundAt(g, m, one, two, x);
      var p :| OpenPath(g, m, p) && (p[0] == one || p[0] == two) && p[|p| - 1] == x;
    }
    if AgreeWalked(g, m, one, two) {
      assert Firsts(m, v) <= Only(g, one, two) && Seconds(m, v) <= Only(g, two, one);
    }
    if Firsts(m, v) == Only(g, one, two) && Seconds(m, v) == Only(g, two, one) {
      forall x | x in v && Reaches(g, one, x) && Reaches(g, two, x) ensures m[x].p1 <==> m[x].p2 {
        assert x !in Firsts(m, v) && x !in Seconds(m, v);
      }
    }
  }

  function ResultCount(f: seq<Flags>): (n: nat)
    ensures n <= |f|
  {
    if f == [] then 0 else ResultCount(f[..|f| - 1]) + if f[|f| - 1].result then 1 else 0
  }

  lemma {:induction false} ResultCounts(f: seq<Flags>, i: nat)
    requires i < |f| && !f[i].result
    ensures ResultCount(f[i := f[i].(result := true)]) == ResultCount(f) + 1
    decreases |f|
  {
    var n := f[i := f[i].(result := true)];
    if i < |f| - 1 {
      ResultCounts(f[..|f| - 1], i);
      assert n[..|f| - 1] == f[..|f| - 1][i := f[..|f| - 1][i].(result := true)];
    } else {
      assert n[..|f| - 1] == f[..|f| - 1];
    }
  }

  /** Puts all parents of a commit in the queue. */
  method PushParents(g: Graph, q0: seq<nat>, c: nat) returns (q: seq<nat>)
    requires c < |g.parents| && Heap(KeyOf(g), q0)
    ensures Heap(KeyOf(g), q)
    ensures forall x :: x in q <==> x in q0 || x in g.parents[c]
  {
    q := q0;
    var i := 0;
    while i < |g.parents[c]|
      invariant 0 <= i <= |g.parents[c]| && Heap(KeyOf(g), q)
      invariant forall x :: x in q <==> x in q0 || x in g.parents[c][..i]
    {
      var more := Insert(KeyOf(g), q, g.parents[c][i]);
      HeapSame(q, more, g.parents[c][i]);
      assert g.parents[c][..i + 1] == g.parents[c][..i] + [g.parents[c][i]];
      q := more;
      i := i + 1;
    }
    assert g.parents[c][..i] == g.parents[c];
  }

  /** The counts are those of the commits the walk has been to. */
  ghost predicate Tally(g: Graph, m: seq<Flags>, f: seq<Flags>, q: seq<nat>, one: nat, two: nat, v: set<nat>, ahead: nat, behind: nat) {
    Counting(g, m, f, q, one, two, v) && behind == |Firsts(m, v)| && ahead == |Seconds(m, v)|
  }

  /** One commit of the counting walk. More commits are results, or the queue shrinks. */
  method CountStep(g: Graph, flags: array<Flags>, q0: seq<nat>, ahead0: nat, behind0: nat, ghost m: seq<Flags>,
                   ghost one: nat, ghost two: nat, ghost v: set<nat>)
    returns (q: seq<nat>, ahead: nat, behind: nat, ghost w: set<nat>)
    requires q0 != [] && Heap(KeyOf(g), q0) && flags.Length == |g.parents|
    requires Tally(g, m, flags[..], q0, one, two, v, ahead0, behind0)
    modifies flags
    ensures Heap(KeyOf(g), q)
    ensures Tally(g, m, flags[..], q, one, two, w, ahead, behind)
    ensures ResultCount(flags[..]) > old(ResultCount(flags[..]))
         || (ResultCount(flags[..]) == old(ResultCount(flags[..])) && |q| < |q0|)
  {
    ahead, behind, w := ahead0, behind0, v;
    ghost var f := flags[..];
    var c, rest := Pop(KeyOf(g), q0);
    HeapSame(rest, q0, c);
    if flags[c].result || (flags[c].p1 && flags[c].p2) {
      CountingSkip(g, m, f, q0, one, two, v, c, rest);
      q := rest;
      return;
    }
    q := PushParents(g, rest, c);
    CountingTake(g, m, f, q0, one, two, v, c, q);
    TakeCounts(m, v, c);
    if flags[c].p1 {
      behind := behind + 1;
    } else if flags[c].p2 {
      ahead := ahead + 1;
    }
    w := v + {c};
    ResultCounts(f, c);
    flags[c] := flags[c].(result := true);
    assert flags[..] == f[c := f[c].(result := true)];
  }

  /**
   * Walks from both commits and counts those that carry one mark. It ends
   * whatever the marks are. The counts are never too small, and they are right
   * exactly if the walk comes to no marked commit of both sides.
   */
  method AheadBehind(g: Graph, flags: array<Flags>, one: nat, two: nat) returns (ahead: nat, behind: nat)
    requires flags.Length == |g.parents| && Marked(g, flags[..], one, two)
    modifies flags
    ensures behind == |Firsts(old(flags[..]), Walked(g, old(flags[..]), one, two))|
    ensures ahead == |Seconds(old(flags[..]), Walked(g, old(flags[..]), one, two))|
    ensures behind >= |Only(g, one, two)| && ahead >= |Only(g, two, one)|
    ensures behind == |Only(g, one, two)| && ahead == |Only(g, two, one)| <==> old(AgreeWalked(g, flags[..], one, two))
  {
    ahead, behind := 0, 0;
    ghost var m := flags[..];
    ghost var v: set<nat> := {};
    var first := Insert(KeyOf(g), [], one);
    HeapSame([], first, one);
    var q: seq<nat> := Insert(KeyOf(g), first, two);
    HeapSame(first, q, two);
    WalkBegins(g, m, q, one, two);
    while q != []
      invariant Heap(KeyOf(g), q) && Tally(g, m, flags[..], q, one, two, v, ahead, behind)
      decreases flags.Length - ResultCount(flags[..]), |q|
    {
      q, ahead, behind, v := CountStep(g, flags, q, ahead, behind, m, one, two, v);
    }
    CountingEnds(g, m, flags[..], one, two, v);
    CountsRight(g, m, one, two);
  }

  lemma WalkBegins(g: Graph, m: seq<Flags>, q: seq<nat>, one: nat, two: nat)
    requires Valid(g) && |m| == |g.parents| && one < |m| && two < |m|
    requires forall x :: x in q <==> x == one || x == two
    ensures Tally(g, m, m, q, one, two, {}, 0, 0)
  {
    forall x | x in q && !Met(m, x) ensures Walks(g, m, one, two, x) {
      WalksSelf(g, m, one, two, x);
    }
    assert Firsts(m, {}) == {} && Seconds(m, {}) == {};
  }
}
