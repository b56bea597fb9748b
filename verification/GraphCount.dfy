/**
 * When the counts are right, told from the history alone: whatever the times,
 * if no commit is exposed; and if one is, there are times that make them wrong.
 */
module GraphCount {
  import opened Graph
  import opened GraphRuns
  import opened GraphShape
  import opened GraphTimes

  // ----- the commits at which the walk meets the other side -----

  /** A path from `a` to a commit of both sides crosses the edge. */
  lemma {:induction false} Crossing(g: Graph, a: nat, b: nat, p: seq<nat>) returns (k: nat)
    requires Valid(g) && Path(g, p) && p[0] == a && Reaches(g, b, p[|p| - 1])
    ensures k < |p| && Edge(g, a, b, p[k])
    decreases |p|
  {
    var q := p[..|p| - 1];
    assert Reaches(g, a, p[|p| - 1]);
    if |p| == 1 {
      k := 0;
    } else if Reaches(g, b, p[|p| - 2]) {
      assert Path(g, q) && q[|q| - 1] == p[|p| - 2];
      k := Crossing(g, a, b, q);
    } else {
      k := |p| - 1;
      assert Path(g, q) && q[|q| - 1] == p[|p| - 2];
      assert p[(|p| - 2) + 1] in g.parents[p[|p| - 2]];
      assert p[|p| - 2] in Only(g, a, b);
    }
  }

  /** The mark of the own side is at the edge. */
  lemma EdgeMarked(g: Graph, f: seq<Flags>, a: nat, b: nat, x: nat)
    requires Marked(g, f, a, b) && Edge(g, a, b, x)
    ensures f[x].p1 && (!f[x].p2 ==> !f[x].result)
  {
    assert SoundAt(g, f, a, b, x);
    if x != a {
      var y :| y in Only(g, a, b) && x in g.parents[y];
      assert MarkedAt(g, f, y);
      var i :| 0 <= i < |g.parents[y]| && g.parents[y][i] == x;
    }
  }

  /** The walk does not get past an edge that has both marks. */
  lemma NotPast(g: Graph, f: seq<Flags>, a: nat, b: nat, p: seq<nat>)
    requires Marked(g, f, a, b) && OpenPath(g, f, p) && p[0] == a
    requires forall x: nat :: Edge(g, a, b, x) ==> f[x].p2
    ensures !Reaches(g, b, p[|p| - 1])
  {
    if Reaches(g, b, p[|p| - 1]) {
      var k := Crossing(g, a, b, p);
      EdgeMarked(g, f, a, b, p[k]);
    }
  }

  lemma FlipsOpen(g: Graph, f: seq<Flags>, p: seq<nat>)
    ensures OpenPath(g, Mirror(f), p) <==> OpenPath(g, f, p)
  {
    assert forall y: nat :: Met(Mirror(f), y) <==> Met(f, y);
  }

  /** If both marks are at both edges, the walk comes to no commit of both sides. */
  lemma EdgesAgree(g: Graph, f: seq<Flags>, one: nat, two: nat)
    requires Marked(g, f, one, two)
    requires forall x: nat :: Edge(g, one, two, x) ==> f[x].p2
    requires forall x: nat :: Edge(g, two, one, x) ==> f[x].p1
    ensures AgreeWalked(g, f, one, two)
  {
    forall x | x in Walked(g, f, one, two) ensures !(Reaches(g, one, x) && Reaches(g, two, x)) {
      var p :| OpenPath(g, f, p) && (p[0] == one || p[0] == two) && p[|p| - 1] == x;
      if p[0] == one {
        NotPast(g, f, one, two, p);
      } else {
        MarkedFlips(g, f, one, two);
        FlipsOpen(g, f, p);
        NotPast(g, Mirror(f), two, one, p);
      }
    }
  }

  /** The walk counts a commit of the edge that lacks the other mark. */
  lemma EdgeCounted(g: Graph, f: seq<Flags>, a: nat, b: nat, x: nat)
    requires Marked(g, f, a, b) && Edge(g, a, b, x) && !f[x].p2
    ensures x in Walked(g, f, a, b) && f[x].p1
  {
    EdgeMarked(g, f, a, b, x);
    if x == a {
      WalksSelf(g, f, a, b, x);
    } else {
      var y :| y in Only(g, a, b) && x in g.parents[y];
      OnlyWalked(g, f, a, b, y);
      WalksParent(g, f, a, b, y, x);
    }
  }

  /** Then the counts are too large. */
  lemma TooMany(g: Graph, f: seq<Flags>, a: nat, b: nat, x: nat)
    requires Marked(g, f, a, b) && x in Walked(g, f, a, b) && f[x].p1 && Reaches(g, b, x)
    ensures |Firsts(f, Walked(g, f, a, b))| > |Only(g, a, b)|
  {
    var v := Walked(g, f, a, b);
    forall y | y in Only(g, a, b) ensures y in Firsts(f, v) {
      OnlyWalked(g, f, a, b, y);
    }
    assert x in Firsts(f, v) && x !in Only(g, a, b);
    SameSize(Only(g, a, b), Firsts(f, v));
  }

  lemma WalkFlips(g: Graph, f: seq<Flags>, one: nat, two: nat)
    requires Marked(g, f, one, two)
    ensures Firsts(Mirror(f), Walked(g, Mirror(f), two, one)) == Seconds(f, Walked(g, f, one, two))
  {
    forall x ensures Walks(g, Mirror(f), two, one, x) <==> Walks(g, f, one, two, x) {
      forall p ensures OpenPath(g, Mirror(f), p) <==> OpenPath(g, f, p) {
        FlipsOpen(g, f, p);
      }
    }
    forall x | x in Walked(g, f, one, two) ensures !(f[x].p1 && f[x].p2) {
      var p :| OpenPath(g, f, p) && (p[0] == one || p[0] == two) && p[|p| - 1] == x;
    }
  }

  // ----- right and wrong counts -----

  /** Each commit of the edge is `b` or a parent of a commit of `b` alone. */
  ghost predicate Shape(g: Graph, a: nat, b: nat) {
    forall x :: Edge(g, a, b, x) ==> x == b || exists z :: z in Only(g, b, a) && x in g.parents[z]
  }

  lemma ShapeMarks(g: Graph, f: seq<Flags>, a: nat, b: nat, x: nat)
    requires Marked(g, f, a, b) && Shape(g, a, b) && Edge(g, a, b, x)
    ensures f[x].p2
  {
    if x != b {
      var z :| z in Only(g, b, a) && x in g.parents[z];
      assert MarkedAt(g, Mirror(f), z);
      var i :| 0 <= i < |g.parents[z]| && g.parents[z][i] == x;
    }
  }

  /** In such a history, any marking that is over gives the right counts. */
  lemma ShapeAgrees(g: Graph, f: seq<Flags>, one: nat, two: nat)
    requires Marked(g, f, one, two) && Shape(g, one, two) && Shape(g, two, one)
    ensures AgreeWalked(g, f, one, two)
  {
    MarkedFlips(g, f, one, two);
    forall x: nat | Edge(g, one, two, x) ensures f[x].p2 { ShapeMarks(g, f, one, two, x); }
    forall x: nat | Edge(g, two, one, x) ensures f[x].p1 { ShapeMarks(g, Mirror(f), two, one, x); }
    EdgesAgree(g, f, one, two);
  }

  /** A marking that is over. */
  ghost predicate Over(g: Graph, one: nat, two: nat, ms: seq<Moment>, cs: seq<nat>, f: seq<Flags>) {
    Valid(g) && Ran(g, one, two, ms, cs) && Halts(ms[|cs|]) && ms[|cs|].f == f && Marked(g, f, one, two)
  }

  lemma OverFlips(g: Graph, one: nat, two: nat, ms: seq<Moment>, cs: seq<nat>, f: seq<Flags>)
    requires Over(g, one, two, ms, cs, f)
    ensures Over(g, two, one, FlipAll(ms), cs, Mirror(f))
  {
    RanFlips(g, one, two, ms, cs);
    HaltsFlips(ms[|cs|]);
    MarkedFlips(g, f, one, two);
  }

  lemma NotExposedMarks(g: Graph, a: nat, b: nat, ms: seq<Moment>, cs: seq<nat>, f: seq<Flags>, x: nat)
    requires Over(g, a, b, ms, cs, f) && Acyclic(g) && !Exposed(g, a, b) && Edge(g, a, b, x)
    ensures f[x].p2
  {
    if !f[x].p2 {
      RanInv(g, a, b, ms, cs, |cs|);
      MissedExposed(g, ms[|cs|], a, b, x);
    }
  }

  /** Where no commit is exposed the counts are right, whatever the times. */
  lemma NotExposedAgrees(g: Graph, one: nat, two: nat, ms: seq<Moment>, cs: seq<nat>, f: seq<Flags>)
    requires Over(g, one, two, ms, cs, f) && Acyclic(g) && !Exposed(g, one, two) && !Exposed(g, two, one)
    ensures AgreeWalked(g, f, one, two)
  {
    OverFlips(g, one, two, ms, cs, f);
    forall x: nat | Edge(g, one, two, x) ensures f[x].p2 { NotExposedMarks(g, one, two, ms, cs, f, x); }
    forall x: nat | Edge(g, two, one, x) ensures f[x].p1 { NotExposedMarks(g, two, one, FlipAll(ms), cs, Mirror(f), x); }
    EdgesAgree(g, f, one, two);
  }

  /** With the adverse times of an exposed commit, the first side is counted too high. */
  lemma TrapCounts(g: Graph, a: nat, b: nat, ms: seq<Moment>, cs: seq<nat>, f: seq<Flags>, x: nat, late: set<nat>)
    requires Over(g, a, b, ms, cs, f) && Trap(g, a, b, x, late)
    ensures |Firsts(f, Walked(g, f, a, b))| > |Only(g, a, b)|
  {
    NeverComes(g, a, b, ms, cs, x, late);
    EdgeCounted(g, f, a, b, x);
    TooMany(g, f, a, b, x);
  }

  lemma TrapCountsSecond(g: Graph, one: nat, two: nat, ms: seq<Moment>, cs: seq<nat>, f: seq<Flags>, x: nat, late: set<nat>)
    requires Over(g, one, two, ms, cs, f) && Trap(g, two, one, x, late)
    ensures |Seconds(f, Walked(g, f, one, two))| > |Only(g, two, one)|
  {
    OverFlips(g, one, two, ms, cs, f);
    TrapCounts(g, two, one, FlipAll(ms), cs, Mirror(f), x, late);
    WalkFlips(g, f, one, two);
  }

  // ----- the whole computation -----

  ghost predicate Right(g: Graph, local: nat, upstream: nat, ahead: nat, behind: nat) {
    ahead == |Only(g, upstream, local)| && behind == |Only(g, local, upstream)|
  }

  lemma ShapeRight(g: Graph, f: seq<Flags>, one: nat, two: nat)
    requires Marked(g, f, one, two)
    ensures Agree(g, f, one, two) ==> AgreeWalked(g, f, one, two)
    ensures Shape(g, one, two) && Shape(g, two, one) ==> AgreeWalked(g, f, one, two)
  {
    if Shape(g, one, two) && Shape(g, two, one) {
      ShapeAgrees(g, f, one, two);
    }
  }

  /**
   * How far two commits have diverged: `behind` counts the commits of `local`
   * alone and `ahead` those of `upstream` alone. The computation ends in any
   * history, with counts that are not too small; the rounds of its marking
   * are returned beside them. The counts are right if times fall from child
   * to parent, and for any times if no commit is exposed; where one is
   * exposed, its adverse times make one of them too large.
   */
  method GraphAheadBehind(g: Graph, local: nat, upstream: nat)
    returns (ahead: nat, behind: nat, ghost ms: seq<Moment>, ghost cs: seq<nat>, ghost f: seq<Flags>)
    requires Valid(g) && local < |g.parents| && upstream < |g.parents|
    ensures ahead >= |Only(g, upstream, local)| && behind >= |Only(g, local, upstream)|
    ensures Ordered(g) || local == upstream ==> Right(g, local, upstream, ahead, behind)
    ensures Shape(g, local, upstream) && Shape(g, upstream, local) ==> Right(g, local, upstream, ahead, behind)
    ensures Acyclic(g) && !Exposed(g, local, upstream) && !Exposed(g, upstream, local) ==> Right(g, local, upstream, ahead, behind)
    ensures forall x, late :: Trap(g, local, upstream, x, late) ==> behind > |Only(g, local, upstream)|
    ensures forall x, late :: Trap(g, upstream, local, x, late) ==> ahead > |Only(g, upstream, local)|
    ensures local != upstream ==> Over(g, local, upstream, ms, cs, f) && behind == |Firsts(f, Walked(g, f, local, upstream))|
  {
    var flags := new Flags[|g.parents|](_ => CLEAR);
    ms, cs := MarkParents(g, flags, local, upstream);
    f := flags[..];
    ShapeRight(g, f, local, upstream);
    ahead, behind := AheadBehind(g, flags, local, upstream);
    if local != upstream {
      if Acyclic(g) && !Exposed(g, local, upstream) && !Exposed(g, upstream, local) {
        NotExposedAgrees(g, local, upstream, ms, cs, f);
      }
      forall x, late | Trap(g, local, upstream, x, late) ensures behind > |Only(g, local, upstream)| {
        TrapCounts(g, local, upstream, ms, cs, f, x, late);
      }
      forall x, late | Trap(g, upstream, local, x, late) ensures ahead > |Only(g, upstream, local)| {
        TrapCountsSecond(g, local, upstream, ms, cs, f, x, late);
      }
    }
  }
}
