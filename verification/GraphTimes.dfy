/**
 * Times that mislead the marking wherever the history is exposed: everything
 * runs to its end while the mark of `b` waits, and then the commits that hold
 * it are already stale.
 */
module GraphTimes {
  import opened Graph
  import opened GraphRuns
  import opened GraphShape

  /** The children of `x` come last, those that are to be late last of all, just after `b`. */
  ghost function Adverse(g: Graph, a: nat, b: nat, x: nat, late: set<nat>): seq<nat> {
    seq(|g.parents|, c => if c in late then 0 else if c in Kids(g, a, b, x) then 2 else if c == b && !Reaches(g, a, b) then 1 else 3)
  }

  /** The history is exposed at `x`, and its times are the adverse ones. */
  ghost predicate Trap(g: Graph, a: nat, b: nat, x: nat, late: set<nat>) {
    Valid(g) && ExposedAt(g, a, b, x, late) && g.time == Adverse(g, a, b, x, late)
  }

  // ----- any exposed history can be given such times -----

  lemma SameWays(g: Graph, h: Graph)
    requires g.parents == h.parents
    ensures forall a, x :: Reaches(g, a, x) <==> Reaches(h, a, x)
    ensures forall s, a, x :: Leads(g, s, a, x) <==> Leads(h, s, a, x)
  {
    forall a, x ensures Reaches(g, a, x) <==> Reaches(h, a, x) {
      assert forall p :: Path(g, p) <==> Path(h, p);
    }
    forall s, a, x ensures Leads(g, s, a, x) <==> Leads(h, s, a, x) {
      assert forall p :: PathOff(g, s, p) <==> PathOff(h, s, p);
    }
  }

  lemma SameMerges(g: Graph, h: Graph, a: nat, b: nat, kids: set<nat>, late: set<nat>)
    requires g.parents == h.parents && Lulled(g, a, b, kids, late)
    ensures Lulled(h, a, b, kids, late)
  {
    SameWays(g, h);
    assert forall u: nat :: Merges(g, a, b, kids, late, u) <==> Merges(h, a, b, kids, late, u);
    assert forall v: nat :: BelowMerge(g, a, b, kids, late, v) <==> BelowMerge(h, a, b, kids, late, v);
  }

  /** Whether a commit is exposed is a matter of the parents alone. */
  lemma SameShape(g: Graph, h: Graph, a: nat, b: nat, x: nat, late: set<nat>)
    requires g.parents == h.parents && ExposedAt(g, a, b, x, late)
    ensures ExposedAt(h, a, b, x, late)
    ensures Adverse(h, a, b, x, late) == Adverse(g, a, b, x, late)
  {
    SameWays(g, h);
    assert Only(h, a, b) == Only(g, a, b) && Only(h, b, a) == Only(g, b, a);
    assert Kids(h, a, b, x) == Kids(g, a, b, x);
    SameMerges(g, h, a, b, Kids(g, a, b, x), late);
  }

  /** Where a commit is exposed, some times mislead the marking. */
  lemma ExposedTraps(g: Graph, a: nat, b: nat, x: nat, late: set<nat>)
    requires Valid(g) && ExposedAt(g, a, b, x, late)
    ensures Trap(g.(time := Adverse(g, a, b, x, late)), a, b, x, late)
  {
    SameShape(g, g.(time := Adverse(g, a, b, x, late)), a, b, x, late);
  }

  /** What is taken is at least as new as what waits. */
  lemma Newest(g: Graph, m: Moment, c: nat, n: Moment, y: nat)
    requires Step(g, m, c, n) && y in m.q && y < |m.f|
    ensures c < |m.f| && g.time[y] <= g.time[c]
  {
    assert KeyOf(g)(y) == g.time[y] && KeyOf(g)(c) == g.time[c];
  }

  // ----- nothing waits but the children of `x` -----

  /** So far the children of `x` have kept the mark of `b`, and the late ones that of `a`. */
  ghost predicate Keeps(g: Graph, m: Moment, a: nat, b: nat, kids: set<nat>, late: set<nat>) {
    Inv(g, m, a, b) && late <= kids && kids <= Held2(m) && late <= Held1(m)
  }

  lemma {:induction false} SecondCame(g: Graph, m: Moment, a: nat, b: nat, kids: set<nat>, p: seq<nat>, k: nat)
    requires Inv(g, m, a, b) && (forall y :: y in m.q ==> y in kids) && PathOff(g, kids, p) && p[0] == b && k < |p|
    ensures m.f[p[k]].p2
    decreases k
  {
    if k > 0 {
      SecondCame(g, m, a, b, kids, p, k - 1);
      assert SentAt(m, p[k - 1]);
      assert p[(k - 1) + 1] in g.parents[p[k - 1]];
      Gives(g, m, a, b, p[k - 1], p[k]);
    }
  }

  /** Along a path that stays clear of what waits, the mark of `a` has come. */
  lemma {:induction false} FirstCame(g: Graph, m: Moment, a: nat, b: nat, late: set<nat>, p: seq<nat>, k: nat)
    requires Inv(g, m, a, b) && (forall y :: y in m.q ==> y in late || !Reaches(g, a, y)) && PathOff(g, late, p) && p[0] == a && k < |p|
    ensures m.f[p[k]].p1
    decreases k
  {
    if k > 0 {
      FirstCame(g, m, a, b, late, p, k - 1);
      PathLeads(g, late, p, k - 1);
      LeadsReaches(g, late, a, p[k - 1]);
      assert SentAt(m, p[k - 1]);
      assert p[(k - 1) + 1] in g.parents[p[k - 1]];
      Gives(g, m, a, b, p[k - 1], p[k]);
    }
  }

  /** Wherever the mark of `a` can come without the late ones, it is. */
  ghost predicate FirstDone(g: Graph, m: Moment, a: nat, late: set<nat>) {
    forall v :: 0 <= v < |m.f| && Leads(g, late, a, v) ==> m.f[v].p1
  }

  lemma FirstsCame(g: Graph, m: Moment, a: nat, b: nat, late: set<nat>)
    requires Inv(g, m, a, b) && (forall y :: y in m.q ==> y in late || !Reaches(g, a, y))
    ensures FirstDone(g, m, a, late)
  {
    forall v | 0 <= v < |m.f| && Leads(g, late, a, v) ensures m.f[v].p1 {
      var p :| PathOff(g, late, p) && p[0] == a && p[|p| - 1] == v;
      FirstCame(g, m, a, b, late, p, |p| - 1);
    }
  }

  /** Parents of merges are stale by then. */
  lemma BelowStale(g: Graph, m: Moment, a: nat, b: nat, kids: set<nat>, late: set<nat>, v: nat)
    requires Keeps(g, m, a, b, kids, late) && FirstDone(g, m, a, late) && (forall y :: y in m.q ==> y in kids)
    requires v < |m.f| && BelowMerge(g, a, b, kids, late, v)
    ensures m.f[v].stale
  {
    var u: nat :| Merges(g, a, b, kids, late, u) && v in g.parents[u];
    var p :| PathOff(g, kids, p) && p[0] == b && p[|p| - 1] == u;
    SecondCame(g, m, a, b, kids, p, |p| - 1);
    assert m.f[u].p1 && SentAt(m, u);
    Gives(g, m, a, b, u, v);
  }

  /** Then nothing is awake. */
  lemma Asleep(g: Graph, m: Moment, a: nat, b: nat, kids: set<nat>, late: set<nat>)
    requires Keeps(g, m, a, b, kids, late) && FirstDone(g, m, a, late) && Lulled(g, a, b, kids, late)
    requires forall y :: y in m.q ==> y in kids && Leads(g, kids, b, y)
    ensures !Awake(m)
  {
    forall y | (y in m.q || y in m.roots) && y < |m.f| ensures m.f[y].stale {
      if y in m.roots {
        assert Traced(g, m, a, b, y);
        if m.f[y].p2 {
          LeadsMore(g, Held2(m), kids, b, y);
        } else {
          LeadsMore(g, Held1(m), late, a, y);
        }
      }
      BelowStale(g, m, a, b, kids, late, y);
    }
  }

  // ----- every round -----

  /**
   * If `b` is not an ancestor of `a`: until `b` is taken it waits, once; from
   * then on only late commits wait without its mark, and the mark of `a` is
   * everywhere it can come to.
   */
  ghost predicate Split(g: Graph, m: Moment, a: nat, b: nat, late: set<nat>)
    requires b < |m.sent|
  {
    if m.sent[b].p2 then
      && b !in m.q && FirstDone(g, m, a, late)
      && (forall y :: y in m.q ==> y in late || (y < |m.f| && m.f[y].p2))
    else
      m.q[b] == 1
  }

  ghost predicate Calm(g: Graph, m: Moment, a: nat, b: nat, x: nat, late: set<nat>) {
    Keeps(g, m, a, b, Kids(g, a, b, x), late) && (!Reaches(g, a, b) ==> Split(g, m, a, b, late))
  }

  lemma SecondLeads(g: Graph, m: Moment, a: nat, b: nat, kids: set<nat>, late: set<nat>, v: nat)
    requires Keeps(g, m, a, b, kids, late) && v < |m.f| && m.f[v].p2
    ensures Leads(g, kids, b, v)
  {
    assert Traced(g, m, a, b, v);
    LeadsMore(g, Held2(m), kids, b, v);
  }

  /** If `b` is an ancestor of `a`, no late commit is taken, and no other child of `x` gets the mark of `b`. */
  lemma BelowKept(g: Graph, m: Moment, c: nat, n: Moment, a: nat, b: nat, x: nat, late: set<nat>)
    requires Trap(g, a, b, x, late) && Calm(g, m, a, b, x, late) && Step(g, m, c, n) && Reaches(g, a, b)
    ensures c < |m.f| && c !in late && (c in Kids(g, a, b, x) ==> !m.f[c].p2)
  {
    var kids := Kids(g, a, b, x);
    if c in late {
      forall y | y in m.q ensures y in late && y in kids && Leads(g, kids, b, y) {
        Newest(g, m, c, n, y);
      }
      FirstsCame(g, m, a, b, late);
      Asleep(g, m, a, b, kids, late);
    } else if c in kids && m.f[c].p2 {
      SecondLeads(g, m, a, b, kids, late, c);
    }
  }

  /** Until `b` is taken nothing else has its mark. */
  lemma OnlySecond(g: Graph, m: Moment, a: nat, b: nat, c: nat)
    requires Inv(g, m, a, b) && !m.sent[b].p2 && c < |m.f| && m.f[c].p2
    ensures c == b
  {
    assert Traced(g, m, a, b, c);
    var p :| PathOff(g, Held2(m), p) && p[0] == b && p[|p| - 1] == c;
    assert p[0] in Held2(m);
  }

  /** Once `b` has been taken, no child of `x` is. */
  lemma ApartKept(g: Graph, m: Moment, c: nat, n: Moment, a: nat, b: nat, x: nat, late: set<nat>)
    requires Trap(g, a, b, x, late) && Calm(g, m, a, b, x, late) && Step(g, m, c, n) && !Reaches(g, a, b) && m.sent[b].p2
    ensures c < |m.f| && c !in Kids(g, a, b, x)
  {
    var kids := Kids(g, a, b, x);
    if c in kids {
      forall y | y in m.q ensures y in kids && Leads(g, kids, b, y) {
        Newest(g, m, c, n, y);
        if y !in late {
          SecondLeads(g, m, a, b, kids, late, y);
        }
      }
      Asleep(g, m, a, b, kids, late);
    }
  }

  lemma StepKeeps(g: Graph, m: Moment, c: nat, n: Moment, a: nat, b: nat, x: nat, late: set<nat>)
    requires Trap(g, a, b, x, late) && Calm(g, m, a, b, x, late) && Step(g, m, c, n)
    ensures Keeps(g, n, a, b, Kids(g, a, b, x), late)
  {
    StepInv(g, m, c, n, a, b);
    if Reaches(g, a, b) {
      BelowKept(g, m, c, n, a, b, x, late);
    } else if m.sent[b].p2 {
      ApartKept(g, m, c, n, a, b, x, late);
    } else {
      Newest(g, m, c, n, b);
      if c in Kids(g, a, b, x) && m.f[c].p2 {
        OnlySecond(g, m, a, b, c);
      }
    }
  }

  /** The second commit is not put back in the queue if the first cannot reach it. */
  lemma SecondOnce(g: Graph, m: Moment, c: nat, n: Moment, a: nat, b: nat)
    requires Inv(g, m, a, b) && Step(g, m, c, n) && !Reaches(g, a, b)
    ensures n.q[b] == m.q[b] - if c == b then 1 else 0
  {
    var r := Resulting(m.f, c);
    JoiningAt(g, r, c, Passed(r[c]), |g.parents[c]|, b);
    assert SentAt(m, c) && Traced(g, m, a, b, c);
    if b in g.parents[c] && m.f[c].p1 {
      LeadsReaches(g, Held1(m), a, c);
      ReachesParent(g, a, c, b);
    }
    assert g.parents[c][..|g.parents[c]|] == g.parents[c];
    assert b !in Joining(g, r, c, Passed(r[c]), |g.parents[c]|);
  }

  lemma FirstStays(g: Graph, m: Moment, c: nat, n: Moment, a: nat, late: set<nat>)
    requires Step(g, m, c, n) && FirstDone(g, m, a, late)
    ensures FirstDone(g, n, a, late)
  {
    forall v | 0 <= v < |n.f| && Leads(g, late, a, v) ensures n.f[v].p1 {
      LeadsReaches(g, late, a, v);
      StepsAt(g, m, c, n, v);
    }
  }

  /** When `b` is taken for the first time, only late commits wait beside it. */
  lemma SecondTaken(g: Graph, m: Moment, n: Moment, a: nat, b: nat, x: nat, late: set<nat>)
    requires Trap(g, a, b, x, late) && Calm(g, m, a, b, x, late) && Step(g, m, b, n) && !Reaches(g, a, b) && !m.sent[b].p2
    ensures b < |n.sent| && Split(g, n, a, b, late)
  {
    forall y | y in m.q ensures y in late || y == b {
      Newest(g, m, b, n, y);
    }
    FirstsCame(g, m, a, b, late);
    FirstStays(g, m, b, n, a, late);
    SecondOnce(g, m, b, n, a, b);
    StepQueue(g, m, b, n);
    forall y | y in n.q ensures y in late || (y < |n.f| && n.f[y].p2) {
      StepsAt(g, m, b, n, y);
    }
  }

  lemma SplitStays(g: Graph, m: Moment, c: nat, n: Moment, a: nat, b: nat, x: nat, late: set<nat>)
    requires Trap(g, a, b, x, late) && Calm(g, m, a, b, x, late) && Step(g, m, c, n) && !Reaches(g, a, b) && m.sent[b].p2
    ensures b < |n.sent| && Split(g, n, a, b, late)
  {
    ApartKept(g, m, c, n, a, b, x, late);
    FirstStays(g, m, c, n, a, late);
    SecondOnce(g, m, c, n, a, b);
    StepQueue(g, m, c, n);
    forall y | y in n.q ensures y in late || (y < |n.f| && n.f[y].p2) {
      StepsAt(g, m, c, n, y);
    }
  }

  lemma StepCalm(g: Graph, m: Moment, c: nat, n: Moment, a: nat, b: nat, x: nat, late: set<nat>)
    requires Trap(g, a, b, x, late) && Calm(g, m, a, b, x, late) && Step(g, m, c, n)
    ensures Calm(g, n, a, b, x, late)
  {
    StepKeeps(g, m, c, n, a, b, x, late);
    if !Reaches(g, a, b) {
      if m.sent[b].p2 {
        SplitStays(g, m, c, n, a, b, x, late);
      } else if c == b {
        SecondTaken(g, m, n, a, b, x, late);
      } else {
        SecondOnce(g, m, c, n, a, b);
      }
    }
  }

  lemma SeededCalm(g: Graph, a: nat, b: nat, x: nat, late: set<nat>)
    requires Trap(g, a, b, x, late) && a < |g.parents| && a != b
    ensures Calm(g, Seeded(|g.parents|, a, b), a, b, x, late)
  {
    SeededInv(g, a, b);
  }

  lemma {:induction false} RanCalm(g: Graph, a: nat, b: nat, ms: seq<Moment>, cs: seq<nat>, x: nat, late: set<nat>, i: nat)
    requires Trap(g, a, b, x, late) && Ran(g, a, b, ms, cs) && i <= |cs|
    ensures Calm(g, ms[i], a, b, x, late)
    decreases i
  {
    if i == 0 {
      SeededCalm(g, a, b, x, late);
    } else {
      RanCalm(g, a, b, ms, cs, x, late, i - 1);
      assert StepOf(g, ms, cs, i - 1);
      StepCalm(g, ms[i - 1], cs[i - 1], ms[i], a, b, x, late);
    }
  }

  /** The mark of `b` never comes to `x`. */
  lemma NeverComes(g: Graph, a: nat, b: nat, ms: seq<Moment>, cs: seq<nat>, x: nat, late: set<nat>)
    requires Trap(g, a, b, x, late) && Ran(g, a, b, ms, cs)
    ensures |ms[|cs|].f| == |g.parents| && !ms[|cs|].f[x].p2
  {
    var m := ms[|cs|];
    RanCalm(g, a, b, ms, cs, x, late, |cs|);
    if m.f[x].p2 {
      assert Traced(g, m, a, b, x);
      var p :| PathOff(g, Held2(m), p) && p[0] == b && p[|p| - 1] == x;
      var y := p[|p| - 2];
      assert p[(|p| - 2) + 1] in g.parents[y];
      PathLeads(g, Held2(m), p, |p| - 2);
      LeadsReaches(g, Held2(m), b, y);
    }
  }
}
