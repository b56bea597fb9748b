/**
 * Which histories the marking can be misled on: a condition on the parents
 * alone. Where it fails to hold, the counts are right whatever the times are.
 */
module GraphShape {
  import opened Graph
  import opened GraphRuns

  /** No commit is an ancestor of one of its own parents. */
  ghost predicate Acyclic(g: Graph) {
    forall c, x :: 0 <= c < |g.parents| && x in g.parents[c] ==> !Reaches(g, x, c)
  }

  ghost predicate Common(g: Graph, a: nat, b: nat, x: nat) { x < |g.parents| && Reaches(g, a, x) && Reaches(g, b, x) }

  /** The children of `x` that are of both sides. */
  ghost function Kids(g: Graph, a: nat, b: nat, x: nat): set<nat> {
    set y | 0 <= y < |g.parents| && Common(g, a, b, y) && x in g.parents[y]
  }

  /** The walk from `a` comes to `x`, of both sides, straight from commits of `a` alone. */
  ghost predicate Edge(g: Graph, a: nat, b: nat, x: nat) {
    Common(g, a, b, x) && (x == a || exists y :: y in Only(g, a, b) && x in g.parents[y])
  }

  /** The mark of `b` reaches `x` through commits of both sides only. */
  ghost predicate Sheltered(g: Graph, a: nat, b: nat, x: nat) {
    && x != b && b < |g.parents| && x !in g.parents[b]
    && forall z :: z in Only(g, b, a) ==> x !in g.parents[z]
  }

  /** With the commits of `kids` holding back the mark of `b`, and those of `late` that of `a`, `v` gets and passes on both. */
  ghost predicate Merges(g: Graph, a: nat, b: nat, kids: set<nat>, late: set<nat>, v: nat) {
    v < |g.parents| && v !in kids && Leads(g, late, a, v) && Leads(g, kids, b, v)
  }

  ghost predicate BelowMerge(g: Graph, a: nat, b: nat, kids: set<nat>, late: set<nat>, v: nat) {
    exists u: nat :: Merges(g, a, b, kids, late, u) && v in g.parents[u]
  }

  /** Everything that would keep the marking awake is a parent of a commit that has both marks. */
  ghost predicate Lulled(g: Graph, a: nat, b: nat, kids: set<nat>, late: set<nat>) {
    && (forall v :: v in kids && Leads(g, kids, b, v) ==> BelowMerge(g, a, b, kids, late, v))
    && (forall v :: 0 <= v < |g.parents| && g.parents[v] == [] && (Leads(g, late, a, v) || Leads(g, kids, b, v))
          ==> BelowMerge(g, a, b, kids, late, v))
  }

  ghost predicate LateAmong(g: Graph, a: nat, b: nat, kids: set<nat>, late: set<nat>) {
    && (forall y :: y in late ==> y in kids && Leads(g, kids, b, y))
    && (Reaches(g, a, b) ==> forall y :: y in kids && Leads(g, kids, b, y) ==> y in late)
  }

  /** The mark of `b` may fail to reach `x`, although that of `a` does. */
  ghost predicate ExposedAt(g: Graph, a: nat, b: nat, x: nat, late: set<nat>) {
    && Edge(g, a, b, x) && Sheltered(g, a, b, x)
    && LateAmong(g, a, b, Kids(g, a, b, x), late) && Lulled(g, a, b, Kids(g, a, b, x), late)
  }

  ghost predicate Exposed(g: Graph, a: nat, b: nat) { exists x, late :: ExposedAt(g, a, b, x, late) }

  // ----- the moment at which marking stops -----

  /** All that waits, and every root that was taken, is stale. */
  ghost predicate Quiet(m: Moment) { forall y :: (y in m.q || y in m.roots) && y < |m.f| ==> m.f[y].stale }

  /** The marking has stopped, and the mark of `b` has not come to `x`. */
  ghost predicate Missed(g: Graph, m: Moment, a: nat, b: nat, x: nat) {
    Inv(g, m, a, b) && Quiet(m) && Common(g, a, b, x) && !m.f[x].p2
  }

  /** A commit of the queue gives its marks to its parents or is stale. */
  lemma SentOrStale(g: Graph, m: Moment, a: nat, b: nat, c: nat)
    requires Inv(g, m, a, b) && Quiet(m) && c < |m.f| && Has(m.f[c])
    ensures m.f[c].stale || Covers(m.sent[c], Passed(m.f[c]))
    ensures g.parents[c] == [] ==> m.f[c].stale
  {
    assert SentAt(m, c) && Traced(g, m, a, b, c);
  }

  lemma Gives(g: Graph, m: Moment, a: nat, b: nat, c: nat, x: nat)
    requires Inv(g, m, a, b) && c < |m.f| && x in g.parents[c]
    ensures Covers(m.f[x], m.sent[c])
  {
    assert Received(g, m, c);
    var i :| 0 <= i < |g.parents[c]| && g.parents[c][i] == x;
  }

  /** With nothing waiting, every mark has gone as far as it can. */
  lemma {:induction false} EmptyReaches(g: Graph, m: Moment, a: nat, b: nat, p: seq<nat>, k: nat)
    requires Inv(g, m, a, b) && m.q == multiset{} && Path(g, p) && p[0] == b && k < |p|
    ensures m.f[p[k]].p2
    decreases k
  {
    if k > 0 {
      EmptyReaches(g, m, a, b, p, k - 1);
      assert SentAt(m, p[k - 1]);
      assert p[(k - 1) + 1] in g.parents[p[k - 1]];
      Gives(g, m, a, b, p[k - 1], p[k]);
    }
  }

  lemma HaltQuiet(g: Graph, m: Moment, a: nat, b: nat, x: nat)
    requires Inv(g, m, a, b) && Halts(m) && Common(g, a, b, x) && !m.f[x].p2
    ensures Missed(g, m, a, b, x)
  {
    if m.q == multiset{} {
      var p :| Path(g, p) && p[0] == b && p[|p| - 1] == x;
      EmptyReaches(g, m, a, b, p, |p| - 1);
    }
  }

  /** The children of `x` have kept the mark of `b` to themselves. */
  lemma KidsKeep(g: Graph, m: Moment, a: nat, b: nat, x: nat)
    requires Missed(g, m, a, b, x)
    ensures Kids(g, a, b, x) <= Held2(m)
  {
    forall c | c in Kids(g, a, b, x) ensures c in Held2(m) {
      Gives(g, m, a, b, c, x);
    }
  }

  lemma MarkLeads(g: Graph, m: Moment, a: nat, b: nat, x: nat, v: nat)
    requires Missed(g, m, a, b, x) && v < |m.f| && m.f[v].p2
    ensures Leads(g, Kids(g, a, b, x), b, v)
  {
    assert Traced(g, m, a, b, v);
    KidsKeep(g, m, a, b, x);
    LeadsMore(g, Held2(m), Kids(g, a, b, x), b, v);
  }

  /** The children of `x` that have not passed on the mark of `a`, or all if `b` is an ancestor of `a`. */
  ghost function Late(g: Graph, m: Moment, a: nat, b: nat, kids: set<nat>): set<nat>
    requires |m.sent| == |g.parents|
  {
    set y | y in kids && y < |g.parents| && Leads(g, kids, b, y) && (Reaches(g, a, b) || !m.sent[y].p1)
  }

  /** A path leads to its end through any commits that include its own. */
  lemma PathLeads(g: Graph, stop: set<nat>, p: seq<nat>, k: nat)
    requires PathOff(g, stop, p) && k < |p|
    ensures Leads(g, stop, p[0], p[k])
  {
    var q := p[..k + 1];
    assert PathOff(g, stop, q);
  }

  lemma {:induction false} LeadsOn(g: Graph, stop: set<nat>, a: nat, p: seq<nat>, k: nat)
    requires Valid(g) && PathOff(g, stop, p) && k < |p| && Leads(g, stop, a, p[0])
    ensures Leads(g, stop, a, p[k])
    decreases k
  {
    if k > 0 {
      LeadsOn(g, stop, a, p, k - 1);
      assert p[(k - 1) + 1] in g.parents[p[k - 1]];
      LeadsNext(g, stop, a, p[k - 1], p[k]);
    }
  }

  /** In a history without cycles, a path to `b` meets no ancestor of `b` on the way. */
  lemma PathAbove(g: Graph, p: seq<nat>, i: nat)
    requires Valid(g) && Acyclic(g) && Path(g, p) && i < |p| - 1
    ensures !Reaches(g, p[|p| - 1], p[i])
  {
    if Reaches(g, p[|p| - 1], p[i]) {
      assert p[i + 1] in g.parents[p[i]];
      var q := p[i + 1..];
      forall k | 0 <= k < |q| - 1 ensures q[k + 1] in g.parents[q[k]] {
        assert p[(i + 1 + k) + 1] in g.parents[p[i + 1 + k]];
      }
      assert Path(g, q);
      assert Reaches(g, p[i + 1], p[|p| - 1]);
      var r :| Path(g, r) && r[0] == p[|p| - 1] && r[|r| - 1] == p[i];
      ReachesAlong(g, p[i + 1], r, 0);
    }
  }

  /** If `b` is an ancestor of `a`, what `b` leads to `a` leads to. */
  lemma LeadsThrough(g: Graph, a: nat, b: nat, kids: set<nat>, late: set<nat>, v: nat)
    requires Valid(g) && Acyclic(g) && Reaches(g, a, b) && Leads(g, kids, b, v)
    requires forall y :: y in late ==> y in kids && Leads(g, kids, b, y)
    ensures Leads(g, late, a, v)
  {
    var p :| Path(g, p) && p[0] == a && p[|p| - 1] == b;
    forall i | 0 <= i < |p| - 1 ensures p[i] !in late {
      PathAbove(g, p, i);
      if p[i] in late {
        LeadsReaches(g, kids, b, p[i]);
      }
    }
    assert PathOff(g, late, p);
    LeadsMore(g, kids, late, b, v);
    var r :| PathOff(g, late, r) && r[0] == b && r[|r| - 1] == v;
    LeadsOn(g, late, a, r, |r| - 1);
  }

  lemma FirstLeads(g: Graph, m: Moment, a: nat, b: nat, x: nat, v: nat)
    requires Missed(g, m, a, b, x) && Acyclic(g) && v < |m.f| && m.f[v].p1
    requires Leads(g, Kids(g, a, b, x), b, v)
    ensures Leads(g, Late(g, m, a, b, Kids(g, a, b, x)), a, v)
  {
    var kids := Kids(g, a, b, x);
    var late := Late(g, m, a, b, kids);
    if Reaches(g, a, b) {
      LeadsThrough(g, a, b, kids, late, v);
    } else {
      assert Traced(g, m, a, b, v);
      assert late <= Held1(m);
      LeadsMore(g, Held1(m), late, a, v);
    }
  }

  /** What has been made stale lies below a commit with both marks. */
  lemma StaleBelow(g: Graph, m: Moment, a: nat, b: nat, x: nat, v: nat)
    requires Missed(g, m, a, b, x) && Acyclic(g) && v < |m.f| && m.f[v].stale
    ensures var kids := Kids(g, a, b, x); BelowMerge(g, a, b, kids, Late(g, m, a, b, kids), v)
  {
    var kids := Kids(g, a, b, x);
    assert Traced(g, m, a, b, v);
    var u :| 0 <= u < |m.sent| && v in g.parents[u] && m.sent[u].stale;
    assert SentAt(m, u);
    KidsKeep(g, m, a, b, x);
    assert u !in Held2(m);
    MarkLeads(g, m, a, b, x, u);
    FirstLeads(g, m, a, b, x, u);
    assert Merges(g, a, b, kids, Late(g, m, a, b, kids), u);
  }

  /** Along a path from `b`: the mark has come, or the commit before has both. */
  lemma {:induction false} AlongSecond(g: Graph, m: Moment, a: nat, b: nat, x: nat, p: seq<nat>, k: nat)
    requires Missed(g, m, a, b, x) && Acyclic(g) && PathOff(g, Kids(g, a, b, x), p) && p[0] == b && k < |p|
    ensures var kids := Kids(g, a, b, x); m.f[p[k]].p2 || (k > 0 && Merges(g, a, b, kids, Late(g, m, a, b, kids), p[k - 1]))
    decreases k
  {
    if k > 0 {
      var kids := Kids(g, a, b, x);
      var late := Late(g, m, a, b, kids);
      var y := p[k - 1];
      assert p[(k - 1) + 1] in g.parents[y];
      AlongSecond(g, m, a, b, x, p, k - 1);
      PathLeads(g, kids, p, k - 1);
      if m.f[y].p2 {
        SentOrStale(g, m, a, b, y);
        if m.sent[y].p2 {
          Gives(g, m, a, b, y, p[k]);
        } else {
          assert SentAt(m, y);
          FirstLeads(g, m, a, b, x, y);
        }
      } else {
        assert p[(k - 2) + 1] in g.parents[p[k - 2]];
        LeadsNext(g, late, a, p[k - 2], y);
      }
    }
  }

  /** Along a path from `a`: the mark has come, or the commit before has both. */
  lemma {:induction false} AlongFirst(g: Graph, m: Moment, a: nat, b: nat, x: nat, p: seq<nat>, k: nat)
    requires Missed(g, m, a, b, x) && Acyclic(g) && p != [] && p[0] == a && k < |p|
    requires PathOff(g, Late(g, m, a, b, Kids(g, a, b, x)), p)
    ensures var kids := Kids(g, a, b, x);
            m.f[p[k]].p1 || (k > 0 && Leads(g, kids, b, p[k]) && Merges(g, a, b, kids, Late(g, m, a, b, kids), p[k - 1]))
    decreases k
  {
    if k > 0 {
      var kids := Kids(g, a, b, x);
      var late := Late(g, m, a, b, kids);
      var y := p[k - 1];
      assert p[(k - 1) + 1] in g.parents[y];
      AlongFirst(g, m, a, b, x, p, k - 1);
      PathLeads(g, late, p, k - 1);
      if m.sent[y].p1 {
        Gives(g, m, a, b, y, p[k]);
      } else {
        if m.f[y].p1 {
          SentOrStale(g, m, a, b, y);
          assert SentAt(m, y);
          MarkLeads(g, m, a, b, x, y);
        }
        assert y !in kids;
        LeadsNext(g, kids, b, y, p[k]);
      }
    }
  }

  lemma KidBelow(g: Graph, m: Moment, a: nat, b: nat, x: nat, v: nat)
    requires Missed(g, m, a, b, x) && Acyclic(g) && v in Kids(g, a, b, x) && Leads(g, Kids(g, a, b, x), b, v)
    ensures var kids := Kids(g, a, b, x); BelowMerge(g, a, b, kids, Late(g, m, a, b, kids), v)
  {
    var kids := Kids(g, a, b, x);
    var p :| PathOff(g, kids, p) && p[0] == b && p[|p| - 1] == v;
    AlongSecond(g, m, a, b, x, p, |p| - 1);
    if m.f[v].p2 {
      KidsKeep(g, m, a, b, x);
      assert v in Held2(m);
      SentOrStale(g, m, a, b, v);
      StaleBelow(g, m, a, b, x, v);
    } else {
      assert p[(|p| - 2) + 1] in g.parents[p[|p| - 2]];
    }
  }

  lemma RootBelow(g: Graph, m: Moment, a: nat, b: nat, x: nat, v: nat)
    requires Missed(g, m, a, b, x) && Acyclic(g) && v < |m.f| && g.parents[v] == []
    requires var kids := Kids(g, a, b, x);
             Leads(g, Late(g, m, a, b, kids), a, v) || Leads(g, kids, b, v)
    ensures var kids := Kids(g, a, b, x); BelowMerge(g, a, b, kids, Late(g, m, a, b, kids), v)
  {
    var kids := Kids(g, a, b, x);
    var late := Late(g, m, a, b, kids);
    if Has(m.f[v]) {
      SentOrStale(g, m, a, b, v);
      StaleBelow(g, m, a, b, x, v);
    } else if Leads(g, late, a, v) {
      var p :| PathOff(g, late, p) && p[0] == a && p[|p| - 1] == v;
      AlongFirst(g, m, a, b, x, p, |p| - 1);
      assert p[(|p| - 2) + 1] in g.parents[p[|p| - 2]];
    } else {
      var p :| PathOff(g, kids, p) && p[0] == b && p[|p| - 1] == v;
      AlongSecond(g, m, a, b, x, p, |p| - 1);
      assert p[(|p| - 2) + 1] in g.parents[p[|p| - 2]];
    }
  }

  /** The second commit has passed its mark on. */
  lemma SecondSent(g: Graph, m: Moment, a: nat, b: nat)
    requires Inv(g, m, a, b) && Quiet(m)
    ensures m.sent[b].p2
  {
    SentOrStale(g, m, a, b, b);
    if m.f[b].stale {
      assert Traced(g, m, a, b, b);
      var u :| 0 <= u < |m.sent| && b in g.parents[u] && m.sent[u].stale;
      assert SentAt(m, u) && Traced(g, m, a, b, u);
      var p :| PathOff(g, Held2(m), p) && p[0] == b && p[|p| - 1] == u;
      assert u !in Held2(m) && p[0] !in Held2(m);
    }
  }

  lemma MissedSheltered(g: Graph, m: Moment, a: nat, b: nat, x: nat)
    requires Missed(g, m, a, b, x) && Marked(g, m.f, a, b)
    ensures Sheltered(g, a, b, x)
  {
    SecondSent(g, m, a, b);
    if x in g.parents[b] {
      Gives(g, m, a, b, b, x);
    }
    forall z | z in Only(g, b, a) ensures x !in g.parents[z] {
      assert MarkedAt(g, Mirror(m.f), z);
    }
  }

  /** A commit at the edge that the mark of `b` has missed is exposed. */
  lemma MissedExposed(g: Graph, m: Moment, a: nat, b: nat, x: nat)
    requires Inv(g, m, a, b) && Halts(m) && Marked(g, m.f, a, b) && Acyclic(g) && Edge(g, a, b, x) && !m.f[x].p2
    ensures ExposedAt(g, a, b, x, Late(g, m, a, b, Kids(g, a, b, x)))
  {
    var kids := Kids(g, a, b, x);
    var late := Late(g, m, a, b, kids);
    HaltQuiet(g, m, a, b, x);
    MissedSheltered(g, m, a, b, x);
    forall v | v in kids && Leads(g, kids, b, v) ensures BelowMerge(g, a, b, kids, late, v) {
      KidBelow(g, m, a, b, x, v);
    }
    forall v | 0 <= v < |g.parents| && g.parents[v] == [] && (Leads(g, late, a, v) || Leads(g, kids, b, v))
      ensures BelowMerge(g, a, b, kids, late, v) {
      RootBelow(g, m, a, b, x, v);
    }
  }
}
