/** What holds at every moment of the marking, whatever the times are. */
module GraphRuns {
  import opened Graph

  // ----- one step, commit by commit -----

  predicate Has(f: Flags) { f.p1 || f.p2 }

  lemma {:induction false} SpreadAt(g: Graph, f: seq<Flags>, c: nat, e: Flags, i: nat, x: nat)
    requires Valid(g) && |f| == |g.parents| && c < |f| && i <= |g.parents[c]| && x < |f|
    ensures var n := Spread(g, f, c, e, i);
            if x in g.parents[c][..i] then SameMarks(n[x], Join(f[x], e)) else n[x] == f[x]
    decreases i
  {
    if i > 0 {
      SpreadAt(g, f, c, e, i - 1, x);
      assert g.parents[c][..i] == g.parents[c][..i - 1] + [g.parents[c][i - 1]];
    }
  }

  lemma {:induction false} JoiningAt(g: Graph, f: seq<Flags>, c: nat, e: Flags, i: nat, x: nat)
    requires Valid(g) && |f| == |g.parents| && c < |f| && i <= |g.parents[c]| && x < |f|
    ensures x in Joining(g, f, c, e, i) <==> x in g.parents[c][..i] && !Covers(f[x], e)
    decreases i
  {
    if i > 0 {
      JoiningAt(g, f, c, e, i - 1, x);
      SpreadAt(g, f, c, e, i - 1, g.parents[c][i - 1]);
      assert g.parents[c][..i] == g.parents[c][..i - 1] + [g.parents[c][i - 1]];
    }
  }

  predicate SameMarks(a: Flags, b: Flags) { a.p1 == b.p1 && a.p2 == b.p2 && a.stale == b.stale }

  /** What a step does to one commit. */
  ghost predicate StepAt(g: Graph, m: Moment, c: nat, n: Moment, x: nat)
    requires |m.f| == |n.f| == |g.parents| && c < |m.f| && x < |m.f|
  {
    var e := Passed(m.f[c]);
    && SameMarks(n.f[x], if x in g.parents[c] then Join(m.f[x], e) else m.f[x])
    && (x in n.q ==> x in m.q || (x in g.parents[c] && !Covers(m.f[x], e)))
    && (x != c && x in m.q ==> x in n.q)
    && (x in g.parents[c] && !Covers(m.f[x], e) ==> x in n.q)
  }

  lemma StepsAt(g: Graph, m: Moment, c: nat, n: Moment, x: nat)
    requires Step(g, m, c, n) && x < |m.f|
    ensures |n.f| == |m.f| && c < |m.f| && c in m.q && StepAt(g, m, c, n, x)
  {
    var r := Resulting(m.f, c);
    SpreadAt(g, r, c, Passed(r[c]), |g.parents[c]|, x);
    JoiningAt(g, r, c, Passed(r[c]), |g.parents[c]|, x);
    assert g.parents[c][..|g.parents[c]|] == g.parents[c];
  }

  lemma StepQueue(g: Graph, m: Moment, c: nat, n: Moment)
    requires Step(g, m, c, n) && forall x :: x in m.q ==> x < |m.f|
    ensures forall x :: x in n.q ==> x < |m.f|
  {
    var r := Resulting(m.f, c);
    JoiningWithin(g, r, c, Passed(r[c]), |g.parents[c]|);
  }

  lemma {:induction false} JoiningWithin(g: Graph, f: seq<Flags>, c: nat, e: Flags, i: nat)
    requires Valid(g) && |f| == |g.parents| && c < |f| && i <= |g.parents[c]|
    ensures forall x :: x in Joining(g, f, c, e, i) ==> x < |f|
    decreases i
  {
    if i > 0 {
      JoiningWithin(g, f, c, e, i - 1);
    }
  }

  // ----- ways along which marks travel -----

  predicate PathOff(g: Graph, stop: set<nat>, p: seq<nat>) {
    Path(g, p) && forall i :: 0 <= i < |p| - 1 ==> p[i] !in stop
  }

  /** `v` can be reached from `a` without going on from a commit of `stop`. */
  ghost predicate Leads(g: Graph, stop: set<nat>, a: nat, v: nat) {
    exists p :: PathOff(g, stop, p) && p[0] == a && p[|p| - 1] == v
  }

  lemma LeadsSelf(g: Graph, stop: set<nat>, a: nat)
    requires a < |g.parents|
    ensures Leads(g, stop, a, a)
  {
    assert PathOff(g, stop, [a]);
  }

  lemma LeadsNext(g: Graph, stop: set<nat>, a: nat, c: nat, x: nat)
    requires Valid(g) && Leads(g, stop, a, c) && c !in stop && x in g.parents[c]
    ensures Leads(g, stop, a, x)
  {
    var p :| PathOff(g, stop, p) && p[0] == a && p[|p| - 1] == c;
    var q := p + [x];
    assert forall i :: 0 <= i < |q| - 1 ==> q[i] == p[i];
    assert PathOff(g, stop, q);
  }

  lemma LeadsMore(g: Graph, stop: set<nat>, less: set<nat>, a: nat, v: nat)
    requires Leads(g, stop, a, v) && less <= stop
    ensures Leads(g, less, a, v)
  {
    var p :| PathOff(g, stop, p) && p[0] == a && p[|p| - 1] == v;
    assert PathOff(g, less, p);
  }

  lemma LeadsReaches(g: Graph, stop: set<nat>, a: nat, v: nat)
    requires Leads(g, stop, a, v)
    ensures Reaches(g, a, v) && a < |g.parents| && v < |g.parents|
  {
    var p :| PathOff(g, stop, p) && p[0] == a && p[|p| - 1] == v;
  }

  // ----- the invariant -----

  /** The commits that have not passed on the first mark. */
  function Held1(m: Moment): set<nat> { set c | 0 <= c < |m.sent| && !m.sent[c].p1 }

  /** Those that have not passed on the second. */
  function Held2(m: Moment): set<nat> { set c | 0 <= c < |m.sent| && !m.sent[c].p2 }

  /** What a commit carries beyond what it has passed on, it will pass on when its turn comes. */
  ghost predicate SentAt(m: Moment, c: nat)
    requires c < |m.f| == |m.sent|
  {
    && (m.sent[c].p1 ==> m.f[c].p1) && (m.sent[c].p2 ==> m.f[c].p2) && (m.sent[c].stale ==> m.sent[c].p1 && m.sent[c].p2)
    && (m.f[c].stale ==> m.f[c].p1 && m.f[c].p2)
    && (Has(m.f[c]) && c !in m.q ==> Covers(m.sent[c], Passed(m.f[c])))
  }

  /** What has been passed on is there. */
  ghost predicate Received(g: Graph, m: Moment, c: nat)
    requires Valid(g) && c < |g.parents| == |m.f| == |m.sent|
  {
    forall i :: 0 <= i < |g.parents[c]| ==> Covers(m.f[g.parents[c][i]], m.sent[c])
  }

  /** Every mark came along some way, and what is stale was made so by a commit with both marks. */
  ghost predicate Traced(g: Graph, m: Moment, one: nat, two: nat, v: nat)
    requires v < |m.f| == |m.sent| == |g.parents|
  {
    && (m.f[v].p1 ==> Leads(g, Held1(m), one, v)) && (m.f[v].p2 ==> Leads(g, Held2(m), two, v))
    && (m.f[v].stale ==> exists u :: 0 <= u < |m.sent| && v in g.parents[u] && m.sent[u].stale)
    && (g.parents[v] == [] && Has(m.f[v]) && v !in m.q ==> v in m.roots)
  }

  ghost predicate Inv(g: Graph, m: Moment, one: nat, two: nat) {
    && Valid(g) && |m.f| == |m.sent| == |g.parents| && one < |m.f| && two < |m.f| && m.f[one].p1 && m.f[two].p2
    && (forall x :: x in m.q ==> x < |m.f| && Has(m.f[x]))
    && (forall x :: x in m.roots ==> x < |m.f| && g.parents[x] == [] && Has(m.f[x]))
    && (forall c :: 0 <= c < |m.f| ==> SentAt(m, c) && Received(g, m, c) && Traced(g, m, one, two, c))
  }

  lemma SeededInv(g: Graph, one: nat, two: nat)
    requires Valid(g) && one < |g.parents| && two < |g.parents| && one != two
    ensures Inv(g, Seeded(|g.parents|, one, two), one, two)
  {
    var m := Seeded(|g.parents|, one, two);
    forall c | 0 <= c < |m.f| ensures SentAt(m, c) && Received(g, m, c) && Traced(g, m, one, two, c) {
      LeadsSelf(g, Held1(m), one);
      LeadsSelf(g, Held2(m), two);
    }
  }

  lemma StepSent(g: Graph, m: Moment, c: nat, n: Moment, one: nat, two: nat, x: nat)
    requires Inv(g, m, one, two) && Step(g, m, c, n) && x < |m.f|
    ensures |n.f| == |n.sent| == |m.f| && SentAt(n, x)
  {
    StepsAt(g, m, c, n, x);
    assert SentAt(m, x) && SentAt(m, c);
  }

  lemma StepReceived(g: Graph, m: Moment, c: nat, n: Moment, one: nat, two: nat, x: nat)
    requires Inv(g, m, one, two) && Step(g, m, c, n) && x < |m.f|
    ensures |n.f| == |n.sent| == |m.f| && Received(g, n, x)
  {
    StepsAt(g, m, c, n, x);
    forall i | 0 <= i < |g.parents[x]| ensures Covers(n.f[g.parents[x][i]], n.sent[x]) {
      StepsAt(g, m, c, n, g.parents[x][i]);
      assert Received(g, m, x) && Covers(m.f[g.parents[x][i]], m.sent[x]);
    }
  }

  lemma StepTraced(g: Graph, m: Moment, c: nat, n: Moment, one: nat, two: nat, x: nat)
    requires Inv(g, m, one, two) && Step(g, m, c, n) && x < |m.f|
    ensures |n.f| == |n.sent| == |m.f| && Traced(g, n, one, two, x)
  {
    StepsAt(g, m, c, n, x);
    assert Traced(g, m, one, two, x) && Traced(g, m, one, two, c);
    assert Held1(n) <= Held1(m) && Held2(n) <= Held2(m);
    if n.f[x].p1 {
      if m.f[x].p1 {
        LeadsMore(g, Held1(m), Held1(n), one, x);
      } else {
        LeadsMore(g, Held1(m), Held1(n), one, c);
        LeadsNext(g, Held1(n), one, c, x);
      }
    }
    if n.f[x].p2 {
      if m.f[x].p2 {
        LeadsMore(g, Held2(m), Held2(n), two, x);
      } else {
        LeadsMore(g, Held2(m), Held2(n), two, c);
        LeadsNext(g, Held2(n), two, c, x);
      }
    }
    if n.f[x].stale {
      if m.f[x].stale {
        var u :| 0 <= u < |m.sent| && x in g.parents[u] && m.sent[u].stale;
        assert n.sent[u].stale;
      } else {
        assert n.sent[c].stale;
      }
    }
  }

  /** What waits is marked, and so is every root that was taken. */
  lemma StepMarked(g: Graph, m: Moment, c: nat, n: Moment, one: nat, two: nat, x: nat)
    requires Inv(g, m, one, two) && Step(g, m, c, n) && (x in n.q || x in n.roots)
    ensures |n.f| == |m.f| && x < |n.f| && Has(n.f[x])
  {
    StepQueue(g, m, c, n);
    StepsAt(g, m, c, n, x);
    assert SentAt(m, c);
  }

  lemma StepInv(g: Graph, m: Moment, c: nat, n: Moment, one: nat, two: nat)
    requires Inv(g, m, one, two) && Step(g, m, c, n)
    ensures Inv(g, n, one, two)
  {
    StepQueue(g, m, c, n);
    StepsAt(g, m, c, n, one);
    StepsAt(g, m, c, n, two);
    forall x | x in n.q || x in n.roots ensures x < |n.f| && Has(n.f[x]) {
      StepMarked(g, m, c, n, one, two, x);
    }
    forall x | 0 <= x < |n.f| ensures SentAt(n, x) && Received(g, n, x) && Traced(g, n, one, two, x) {
      StepSent(g, m, c, n, one, two, x);
      StepReceived(g, m, c, n, one, two, x);
      StepTraced(g, m, c, n, one, two, x);
    }
  }

  lemma {:induction false} RanInv(g: Graph, one: nat, two: nat, ms: seq<Moment>, cs: seq<nat>, i: nat)
    requires Valid(g) && Ran(g, one, two, ms, cs) && i <= |cs|
    ensures Inv(g, ms[i], one, two)
    decreases i
  {
    if i == 0 {
      SeededInv(g, one, two);
    } else {
      RanInv(g, one, two, ms, cs, i - 1);
      assert StepOf(g, ms, cs, i - 1);
      StepInv(g, ms[i - 1], cs[i - 1], ms[i], one, two);
    }
  }

  // ----- the two sides are alike -----

  function Flip(m: Moment): Moment { Moment(Mirror(m.f), m.q, m.roots, Mirror(m.sent)) }

  lemma {:induction false} SpreadFlips(g: Graph, f: seq<Flags>, c: nat, e: Flags, i: nat)
    requires Valid(g) && |f| == |g.parents| && c < |f| && i <= |g.parents[c]|
    ensures var d := Flags(e.p2, e.p1, e.result, e.stale);
            && Spread(g, Mirror(f), c, d, i) == Mirror(Spread(g, f, c, e, i))
            && Joining(g, Mirror(f), c, d, i) == Joining(g, f, c, e, i)
    decreases i
  {
    if i > 0 {
      SpreadFlips(g, f, c, e, i - 1);
      var n, p := Spread(g, f, c, e, i - 1), g.parents[c][i - 1];
      var d := Flags(e.p2, e.p1, e.result, e.stale);
      assert Mirror(n[p := Join(n[p], e)]) == Mirror(n)[p := Join(Mirror(n)[p], d)];
    }
  }

  lemma StepFlips(g: Graph, m: Moment, c: nat, n: Moment)
    requires Step(g, m, c, n)
    ensures Step(g, Flip(m), c, Flip(n))
  {
    var r := Resulting(m.f, c);
    assert Resulting(Mirror(m.f), c) == Mirror(r);
    SpreadFlips(g, r, c, Passed(r[c]), |g.parents[c]|);
    var x :| (x in m.q || x in m.roots) && x < |m.f| && !m.f[x].stale;
    assert !Flip(m).f[x].stale;
    assert Mirror(n.sent) == Mirror(m.sent)[c := Join(Mirror(m.sent)[c], Passed(Mirror(m.f)[c]))];
  }

  function FlipAll(ms: seq<Moment>): seq<Moment> { seq(|ms|, i requires 0 <= i < |ms| => Flip(ms[i])) }

  /** The same rounds mark the two commits the other way round. */
  lemma RanFlips(g: Graph, one: nat, two: nat, ms: seq<Moment>, cs: seq<nat>)
    requires Ran(g, one, two, ms, cs)
    ensures Ran(g, two, one, FlipAll(ms), cs)
  {
    var n := |g.parents|;
    assert Flip(Seeded(n, one, two)).f == Seeded(n, two, one).f;
    assert Flip(Seeded(n, one, two)).sent == Seeded(n, two, one).sent;
    forall i | 0 <= i < |cs| ensures StepOf(g, FlipAll(ms), cs, i) {
      assert StepOf(g, ms, cs, i);
      StepFlips(g, ms[i], cs[i], ms[i + 1]);
    }
  }

  lemma HaltsFlips(m: Moment)
    requires Halts(m)
    ensures Halts(Flip(m))
  {
    if x :| (x in m.q || x in m.roots) && x < |m.f| && !Flip(m).f[x].stale {
      assert !m.f[x].stale;
    }
  }

  lemma MarkedFlips(g: Graph, f: seq<Flags>, one: nat, two: nat)
    requires Marked(g, f, one, two)
    ensures Marked(g, Mirror(f), two, one)
  {
    assert Mirror(Mirror(f)) == f;
    forall c | 0 <= c < |f| ensures SoundAt(g, Mirror(f), two, one, c) { assert SoundAt(g, f, one, two, c); }
  }
}
