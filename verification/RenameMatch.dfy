/**
 * Best-fit matching of rename sources and targets: pairs are proposed in a
 * fixed order, a better pair evicts the pairs it conflicts with, and the whole
 * scan restarts as long as something was evicted.
 */
module RenameMatch {

  /** The partner of a delta and how similar it is; similarity 0 means no partner. */
  datatype Match = Match(idx: nat, similarity: nat)

  /** Which deltas are sources and targets, how similar each pair is, and the scan limit. */
  datatype Problem = Problem(isSrc: seq<bool>, isTgt: seq<bool>, similarity: (nat, nat) -> int, limit: nat)

  predicate WellFormed(p: Problem) {
    |p.isSrc| == |p.isTgt|
  }

  function Size(p: Problem): nat { |p.isSrc| }

  /** The two tables of matches, by target and by source. */
  datatype Tables = Tables(t2s: seq<Match>, s2t: seq<Match>)

  // ----- which pairs a scan looks at -----

  /** A source that is measured against target `t`, unless the limit cuts in first. */
  predicate Candidate(p: Problem, s: nat, t: nat) {
    s < |p.isSrc| && p.isSrc[s] && s != t && p.similarity(s, t) >= 0
  }

  /** How many of the first `s` deltas are candidates for `t`. */
  function Rank(p: Problem, t: nat, s: nat): (r: nat)
    ensures r <= s
  {
    if s == 0 then 0 else Rank(p, t, s - 1) + if Candidate(p, s - 1, t) then 1 else 0
  }

  /** A pair looked at in every scan: each target takes its candidates in order up to the limit. */
  predicate Measured(p: Problem, s: nat, t: nat) {
    t < |p.isTgt| && p.isTgt[t] && Candidate(p, s, t) && Rank(p, t, s) <= p.limit
  }

  function CountTrue(b: seq<bool>, n: nat): (c: nat)
    requires n <= |b|
    ensures c <= n
  {
    if n == 0 then 0 else CountTrue(b, n - 1) + if b[n - 1] then 1 else 0
  }

  /** Candidates yet to come are no more than sources yet to come. */
  lemma {:induction false} RankWithin(p: Problem, t: nat, s: nat, upto: nat)
    requires s <= upto <= |p.isSrc|
    ensures 0 <= Rank(p, t, upto) - Rank(p, t, s) <= CountTrue(p.isSrc, upto) - CountTrue(p.isSrc, s)
    decreases upto - s
  {
    if s < upto {
      RankWithin(p, t, s, upto - 1);
    }
  }

  lemma {:induction false} CountGrows(b: seq<bool>, n: nat, m: nat)
    requires n <= m <= |b|
    ensures CountTrue(b, n) <= CountTrue(b, m)
    decreases m - n
  {
    if n < m {
      CountGrows(b, n, m - 1);
    }
  }

  // ----- one proposal -----

  /** Similarity of the pair as the scan compares it. */
  predicate Better(m: Tables, s: nat, t: nat, x: nat)
    requires t < |m.t2s| && s < |m.s2t|
  {
    m.t2s[t].similarity < x && m.s2t[s].similarity < x
  }

  function Clear(a: seq<Match>, i: nat): seq<Match> {
    if i < |a| then a[i := a[i].(similarity := 0)] else a
  }

  /** Both old partners are let go, then the new pair is entered in both tables. */
  function Propose(m: Tables, s: nat, t: nat, x: nat): Tables
    requires t < |m.t2s| && s < |m.s2t|
  {
    if !Better(m, s, t, x) then m
    else
      var t2s := if m.s2t[s].similarity > 0 then Clear(m.t2s, m.s2t[s].idx) else m.t2s;
      var s2t := if t2s[t].similarity > 0 then Clear(m.s2t, t2s[t].idx) else m.s2t;
      Tables(t2s[t := Match(s, x)], s2t[s := Match(t, x)])
  }

  /** The proposal replaces some match. */
  predicate Evicts(m: Tables, s: nat, t: nat, x: nat)
    requires t < |m.t2s| && s < |m.s2t|
  {
    Better(m, s, t, x) && (m.s2t[s].similarity > 0 || m.t2s[t].similarity > 0)
  }

  // ----- the tables are inverse to each other -----

  predicate TargetOk(p: Problem, m: Tables, t: nat)
    requires t < |m.t2s|
  {
    m.t2s[t].similarity > 0 ==>
      && m.t2s[t].idx < |m.s2t|
      && m.s2t[m.t2s[t].idx] == Match(t, m.t2s[t].similarity)
      && Measured(p, m.t2s[t].idx, t) && p.similarity(m.t2s[t].idx, t) == m.t2s[t].similarity
  }

  predicate SourceOk(m: Tables, s: nat)
    requires s < |m.s2t|
  {
    m.s2t[s].similarity > 0 ==>
      m.s2t[s].idx < |m.t2s| && m.t2s[m.s2t[s].idx] == Match(s, m.s2t[s].similarity)
  }

  /** Restricted to positive similarity the tables are inverse partial maps onto measured pairs. */
  predicate Inverse(p: Problem, m: Tables) {
    && |m.t2s| == |m.s2t| == Size(p)
    && (forall t :: 0 <= t < |m.t2s| ==> TargetOk(p, m, t))
    && (forall s :: 0 <= s < |m.s2t| ==> SourceOk(m, s))
  }

  lemma ProposeInverse(p: Problem, m: Tables, s: nat, t: nat)
    requires WellFormed(p) && Inverse(p, m) && Measured(p, s, t)
    ensures Inverse(p, Propose(m, s, t, p.similarity(s, t)))
  {
    var next := Propose(m, s, t, p.similarity(s, t));
    assert TargetOk(p, m, t) && SourceOk(m, s);
    forall u | 0 <= u < |next.t2s| ensures TargetOk(p, next, u) {
      assert TargetOk(p, m, u);
    }
    forall v | 0 <= v < |next.s2t| ensures SourceOk(next, v) {
      assert SourceOk(m, v);
    }
  }

  // ----- progress -----

  function Pow3(k: nat): (w: nat)
    ensures w > 0
  {
    if k == 0 then 1 else 3 * Pow3(k - 1)
  }

  lemma {:induction false} Pow3Grows(j: nat, k: nat)
    requires j <= k
    ensures Pow3(j) <= Pow3(k)
    decreases k - j
  {
    if j < k {
      Pow3Grows(j, k - 1);
    }
  }

  /** What a match is worth: more than any two matches of lower similarity together. */
  function Worth(m: Match): nat {
    if m.similarity == 0 then 0 else Pow3(m.similarity)
  }

  lemma WorthMoreThanTwo(a: Match, b: Match, x: nat)
    requires a.similarity < x && b.similarity < x
    ensures Worth(a) + Worth(b) < Pow3(x)
  {
    Pow3Grows(a.similarity, x - 1);
    Pow3Grows(b.similarity, x - 1);
  }

  function Total(a: seq<Match>): nat {
    if a == [] then 0 else Total(a[..|a| - 1]) + Worth(a[|a| - 1])
  }

  lemma {:induction false} TotalUpdate(a: seq<Match>, i: nat, v: Match)
    requires i < |a|
    ensures Total(a[i := v]) + Worth(a[i]) == Total(a) + Worth(v)
    decreases |a|
  {
    var b := a[i := v];
    if i < |a| - 1 {
      TotalUpdate(a[..|a| - 1], i, v);
      assert b[..|a| - 1] == a[..|a| - 1][i := v];
    } else {
      assert b[..|a| - 1] == a[..|a| - 1];
    }
  }

  lemma {:induction false} TotalBound(a: seq<Match>, top: nat)
    requires forall i :: 0 <= i < |a| ==> a[i].similarity <= top
    ensures Total(a) <= |a| * Pow3(top)
    decreases |a|
  {
    if a != [] {
      TotalBound(a[..|a| - 1], top);
      Pow3Grows(a[|a| - 1].similarity, top);
      assert |a| * Pow3(top) == (|a| - 1) * Pow3(top) + Pow3(top);
    }
  }

  /** Every write evicts only weaker matches, so the total worth strictly grows. */
  lemma ProposeGrows(p: Problem, m: Tables, s: nat, t: nat, x: nat)
    requires Inverse(p, m) && s < Size(p) && t < Size(p)
    ensures Total(Propose(m, s, t, x).t2s) >= Total(m.t2s)
    ensures Better(m, s, t, x) ==> Total(Propose(m, s, t, x).t2s) > Total(m.t2s)
  {
    if Better(m, s, t, x) {
      assert SourceOk(m, s);
      var u := m.s2t[s].idx;
      var cleared := if m.s2t[s].similarity > 0 then Clear(m.t2s, u) else m.t2s;
      var lost := if m.s2t[s].similarity > 0 then m.t2s[u] else Match(0, 0);
      if m.s2t[s].similarity > 0 {
        TotalUpdate(m.t2s, u, m.t2s[u].(similarity := 0));
      }
      assert Total(cleared) + Worth(lost) == Total(m.t2s);
      TotalUpdate(cleared, t, Match(s, x));
      WorthMoreThanTwo(lost, cleared[t], x);
    }
  }

  // ----- stability -----

  /** A measured pair is content: one side has a match at least as good. */
  predicate Content(p: Problem, m: Tables, s: nat, t: nat)
    requires |m.t2s| == |m.s2t| == Size(p) && s < Size(p) && t < Size(p)
  {
    p.similarity(s, t) <= m.t2s[t].similarity || p.similarity(s, t) <= m.s2t[s].similarity
  }

  /** No measured pair is strictly more similar than both its target's and its source's match. */
  predicate Stable(p: Problem, m: Tables)
    requires WellFormed(p) && |m.t2s| == |m.s2t| == Size(p)
  {
    forall s: nat, t: nat :: s < Size(p) && t < Size(p) && Measured(p, s, t) ==> Content(p, m, s, t)
  }

  /** Similarities nowhere fall. */
  predicate AtLeast(m: Tables, was: Tables) {
    && |m.t2s| == |was.t2s| && |m.s2t| == |was.s2t|
    && (forall t :: 0 <= t < |m.t2s| ==> was.t2s[t].similarity <= m.t2s[t].similarity)
    && (forall s :: 0 <= s < |m.s2t| ==> was.s2t[s].similarity <= m.s2t[s].similarity)
  }

  lemma ProposeKeeps(p: Problem, m: Tables, s: nat, t: nat)
    requires Inverse(p, m) && s < Size(p) && t < Size(p) && p.similarity(s, t) >= 0
    requires !Evicts(m, s, t, p.similarity(s, t))
    ensures AtLeast(Propose(m, s, t, p.similarity(s, t)), m)
    ensures Content(p, Propose(m, s, t, p.similarity(s, t)), s, t)
  {}

  /** No two measured pairs that share a source or a target are equally similar. */
  ghost predicate AllDifferent(p: Problem) {
    forall s: nat, u: nat, s': nat, u': nat ::
      (s == s' || u == u') && Measured(p, s, u) && Measured(p, s', u') && p.similarity(s, u) == p.similarity(s', u') > 0
      ==> s == s' && u == u'
  }

  /** Some number is above all similarities. */
  lemma Bounded(p: Problem) returns (bound: nat)
    requires WellFormed(p)
    ensures forall s: nat, t: nat :: Measured(p, s, t) ==> p.similarity(s, t) <= bound
  {
    bound := 0;
    for t := 0 to Size(p)
      invariant forall s: nat, u: nat :: u < t && Measured(p, s, u) ==> p.similarity(s, u) <= bound
    {
      for s := 0 to Size(p)
        invariant forall v: nat, u: nat :: (u < t || (u == t && v < s)) && Measured(p, v, u) ==> p.similarity(v, u) <= bound
      {
        if p.similarity(s, t) > bound {
          bound := p.similarity(s, t);
        }
      }
    }
  }

  lemma {:induction false} StableSame(p: Problem, m: Tables, n: Tables, t: nat, bound: nat)
    requires WellFormed(p) && Inverse(p, m) && Inverse(p, n) && Stable(p, m) && Stable(p, n) && AllDifferent(p)
    requires forall s: nat, u: nat :: Measured(p, s, u) ==> p.similarity(s, u) <= bound
    requires t < Size(p) && m.t2s[t].similarity > 0
    ensures n.t2s[t] == m.t2s[t]
    decreases bound - m.t2s[t].similarity
  {
    assert TargetOk(p, m, t);
    var s := m.t2s[t].idx;
    var x := m.t2s[t].similarity;
    assert Content(p, n, s, t);
    assert TargetOk(p, n, t) && SourceOk(n, s);
    assert n.s2t[s].similarity == x ==> n.s2t[s].idx == t by {
      if n.s2t[s].similarity == x {
        assert TargetOk(p, n, n.s2t[s].idx);
        assert p.similarity(s, n.s2t[s].idx) == x;
      }
    }
    if x <= n.t2s[t].similarity {
      if n.t2s[t].similarity > x {
        StableSame(p, n, m, t, bound);
      }
      assert p.similarity(n.t2s[t].idx, t) == x;
    } else if n.s2t[s].similarity > x {
      assert TargetOk(p, m, n.s2t[s].idx);
      StableSame(p, n, m, n.s2t[s].idx, bound);
    }
  }

  /**
   * If no two measured pairs are equally similar, the stable tables are
   * unique: the result does not depend on the order of the scan.
   */
  lemma StableUnique(p: Problem, m: Tables, n: Tables)
    requires WellFormed(p) && Inverse(p, m) && Inverse(p, n) && Stable(p, m) && Stable(p, n) && AllDifferent(p)
    ensures forall t :: 0 <= t < Size(p) && (m.t2s[t].similarity > 0 || n.t2s[t].similarity > 0) ==> m.t2s[t] == n.t2s[t]
    ensures forall s :: 0 <= s < Size(p) && (m.s2t[s].similarity > 0 || n.s2t[s].similarity > 0) ==> m.s2t[s] == n.s2t[s]
  {
    var bound := Bounded(p);
    forall t | 0 <= t < Size(p) && (m.t2s[t].similarity > 0 || n.t2s[t].similarity > 0) ensures m.t2s[t] == n.t2s[t] {
      if m.t2s[t].similarity > 0 {
        StableSame(p, m, n, t, bound);
      } else {
        StableSame(p, n, m, t, bound);
      }
    }
    forall s | 0 <= s < Size(p) && (m.s2t[s].similarity > 0 || n.s2t[s].similarity > 0) ensures m.s2t[s] == n.s2t[s] {
      assert SourceOk(m, s) && SourceOk(n, s);
      if m.s2t[s].similarity > 0 {
        assert TargetOk(p, n, m.s2t[s].idx);
      } else {
        assert TargetOk(p, m, n.s2t[s].idx);
      }
    }
  }

  // ----- scanning -----

  /** The pairs before position (t, s) of a scan are content. */
  predicate Seen(p: Problem, m: Tables, t: nat, s: nat)
    requires WellFormed(p) && |m.t2s| == |m.s2t| == Size(p)
  {
    forall v: nat, u: nat :: v < Size(p) && u < Size(p) && Measured(p, v, u) && (u < t || (u == t && v < s)) ==>
      Content(p, m, v, u)
  }

  lemma SeenStep(p: Problem, m: Tables, next: Tables, t: nat, s: nat)
    requires WellFormed(p) && |m.t2s| == |m.s2t| == Size(p) && AtLeast(next, m)
    requires Seen(p, m, t, s)
    requires s < Size(p) && t < Size(p) && Measured(p, s, t) ==> Content(p, next, s, t)
    ensures Seen(p, next, t, s + 1)
  {
    forall v: nat, u: nat | v < Size(p) && u < Size(p) && Measured(p, v, u) && (u < t || (u == t && v < s + 1))
      ensures Content(p, next, v, u)
    {
      if u < t || v < s {
        assert Content(p, m, v, u);
      }
    }
  }

  /** Nothing of target `t` is measured from `s` on. */
  predicate RowOver(p: Problem, t: nat, s: nat) {
    forall v: nat :: s <= v && v < |p.isSrc| ==> !Measured(p, v, t)
  }

  lemma RowOverBySources(p: Problem, t: nat, s: nat)
    requires s <= |p.isSrc| && Rank(p, t, s) >= CountTrue(p.isSrc, |p.isSrc|)
    ensures RowOver(p, t, s)
  {
    forall v: nat | s <= v && v < |p.isSrc| ensures !Candidate(p, v, t) {
      RankWithin(p, t, s, v);
      RankWithin(p, t, v + 1, |p.isSrc|);
      RankWithin(p, t, 0, v + 1);
      CountGrows(p.isSrc, v + 1, |p.isSrc|);
    }
  }

  lemma RowOverByLimit(p: Problem, t: nat, s: nat)
    requires s <= |p.isSrc| && Rank(p, t, s) > p.limit
    ensures RowOver(p, t, s)
  {
    forall v: nat | s <= v && v < |p.isSrc| ensures !Measured(p, v, t) {
      RankWithin(p, t, s, v);
    }
  }

  /** The best source of each target regardless of conflicts, over the pairs before (t, s). */
  predicate BestSeen(p: Problem, best: seq<Match>, t: nat, s: nat)
    requires WellFormed(p) && |best| == Size(p)
  {
    forall v: nat, u: nat :: v < Size(p) && u < Size(p) && Measured(p, v, u) && (u < t || (u == t && v < s)) ==>
      p.similarity(v, u) <= best[u].similarity
  }

  predicate BestSound(p: Problem, best: seq<Match>) {
    forall t :: 0 <= t < |best| && best[t].similarity > 0 ==>
      Measured(p, best[t].idx, t) && p.similarity(best[t].idx, t) == best[t].similarity
  }

  /**
   * The state of a scan at position (t, s). `start` is where the scan began:
   * the worth has not fallen since, and it has risen if anything was evicted.
   * If nothing was, all pairs passed so far are content.
   */
  predicate Scanning(p: Problem, m: Tables, best: seq<Match>, copies: bool, start: nat, bumped: nat, t: nat, s: nat) {
    && WellFormed(p) && Inverse(p, m) && |best| == Size(p) && BestSound(p, best)
    && start <= Total(m.t2s) && (bumped > 0 ==> start < Total(m.t2s))
    && (bumped == 0 ==> Seen(p, m, t, s))
    && (copies ==> BestSeen(p, best, t, s))
  }

  /** The table of best sources after the pair (s, t) has been looked at. */
  function Improve(p: Problem, best: seq<Match>, copies: bool, s: nat, t: nat): seq<Match>
    requires t < |best| && p.similarity(s, t) >= 0
  {
    if copies && best[t].similarity < p.similarity(s, t) then best[t := Match(s, p.similarity(s, t))] else best
  }

  lemma ScanOffer(p: Problem, m: Tables, best: seq<Match>, copies: bool, start: nat, bumped: nat, b: nat, t: nat, s: nat)
    requires Scanning(p, m, best, copies, start, bumped, t, s) && Measured(p, s, t)
    requires b > 0 <==> Evicts(m, s, t, p.similarity(s, t))
    ensures Scanning(p, Propose(m, s, t, p.similarity(s, t)), Improve(p, best, copies, s, t), copies, start, bumped + b, t, s + 1)
  {
    var next := Propose(m, s, t, p.similarity(s, t));
    ProposeInverse(p, m, s, t);
    ProposeGrows(p, m, s, t, p.similarity(s, t));
    if bumped + b == 0 {
      ProposeKeeps(p, m, s, t);
      SeenStep(p, m, next, t, s);
    }
  }

  lemma ScanSkip(p: Problem, m: Tables, best: seq<Match>, copies: bool, start: nat, bumped: nat, t: nat, s: nat)
    requires Scanning(p, m, best, copies, start, bumped, t, s) && !Measured(p, s, t)
    ensures Scanning(p, m, best, copies, start, bumped, t, s + 1)
  {
    if bumped == 0 {
      SeenStep(p, m, m, t, s);
    }
  }

  lemma ScanRowEnd(p: Problem, m: Tables, best: seq<Match>, copies: bool, start: nat, bumped: nat, t: nat, s: nat)
    requires Scanning(p, m, best, copies, start, bumped, t, s) && RowOver(p, t, s)
    ensures Scanning(p, m, best, copies, start, bumped, t + 1, 0)
  {}

  /** Offers the pair (s, t) to the tables in place. */
  method Offer(p: Problem, t2s: array<Match>, s2t: array<Match>, s: nat, t: nat) returns (bumped: nat)
    requires WellFormed(p) && t2s != s2t && Inverse(p, Tables(t2s[..], s2t[..])) && Measured(p, s, t)
    modifies t2s, s2t
    ensures Tables(t2s[..], s2t[..]) == Propose(old(Tables(t2s[..], s2t[..])), s, t, p.similarity(s, t))
    ensures bumped > 0 <==> old(Evicts(Tables(t2s[..], s2t[..]), s, t, p.similarity(s, t)))
  {
    ghost var m := Tables(t2s[..], s2t[..]);
    assert SourceOk(m, s) && TargetOk(p, m, t);
    var similarity := p.similarity(s, t);
    bumped := 0;
    if t2s[t].similarity < similarity && s2t[s].similarity < similarity {
      if s2t[s].similarity > 0 {
        var u := s2t[s].idx;
        t2s[u] := t2s[u].(similarity := 0);
        bumped := bumped + 1;
      }
      if t2s[t].similarity > 0 {
        var v := t2s[t].idx;
        s2t[v] := s2t[v].(similarity := 0);
        bumped := bumped + 1;
      }
      t2s[t] := Match(s, similarity);
      s2t[s] := Match(t, similarity);
    }
  }

  /** Looks at one measured pair: offers it, and keeps the best source for copies. */
  method LookAt(p: Problem, t2s: array<Match>, s2t: array<Match>, best: array<Match>, copies: bool,
                t: nat, s: nat, bumped0: nat, ghost start: nat) returns (bumped: nat)
    requires t2s != s2t && best != t2s && best != s2t && Measured(p, s, t)
    requires Scanning(p, Tables(t2s[..], s2t[..]), best[..], copies, start, bumped0, t, s)
    modifies t2s, s2t, best
    ensures Scanning(p, Tables(t2s[..], s2t[..]), best[..], copies, start, bumped, t, s + 1)
  {
    ghost var m, was := Tables(t2s[..], s2t[..]), best[..];
    var b := Offer(p, t2s, s2t, s, t);
    ScanOffer(p, m, was, copies, start, bumped0, b, t, s);
    if copies && best[t].similarity < p.similarity(s, t) {
      best[t] := Match(s, p.similarity(s, t));
    }
    assert best[..] == Improve(p, was, copies, s, t);
    bumped := bumped0 + b;
  }

  /** Looks at a pair if it is one of a source and another file's target that can be compared. */
  method ScanPair(p: Problem, t2s: array<Match>, s2t: array<Match>, best: array<Match>, copies: bool,
                  t: nat, s: nat, bumped0: nat, ghost start: nat) returns (bumped: nat, looked: bool)
    requires t2s != s2t && best != t2s && best != s2t && s < |p.isSrc| && t < |p.isTgt| && p.isTgt[t]
    requires Scanning(p, Tables(t2s[..], s2t[..]), best[..], copies, start, bumped0, t, s) && Rank(p, t, s) <= p.limit
    modifies t2s, s2t, best
    ensures looked <==> Candidate(p, s, t)
    ensures Scanning(p, Tables(t2s[..], s2t[..]), best[..], copies, start, bumped, t, s + 1)
  {
    looked := p.isSrc[s] && s != t && p.similarity(s, t) >= 0;
    if looked {
      bumped := LookAt(p, t2s, s2t, best, copies, t, s, bumped0, start);
    } else {
      bumped := bumped0;
      ScanSkip(p, Tables(t2s[..], s2t[..]), best[..], copies, start, bumped, t, s);
    }
  }

  /** Tries the sources of one target in order. */
  method ScanTarget(p: Problem, t2s: array<Match>, s2t: array<Match>, best: array<Match>, copies: bool, numSrcs: nat,
                    t: nat, bumped0: nat, ghost start: nat) returns (bumped: nat)
    requires t2s != s2t && best != t2s && best != s2t && t < Size(p)
    requires Scanning(p, Tables(t2s[..], s2t[..]), best[..], copies, start, bumped0, t, 0) && p.isTgt[t]
    requires numSrcs == CountTrue(p.isSrc, |p.isSrc|)
    modifies t2s, s2t, best
    ensures Scanning(p, Tables(t2s[..], s2t[..]), best[..], copies, start, bumped, t + 1, 0)
  {
    bumped := bumped0;
    var s, tried := 0, 0;
    while s < Size(p)
      invariant 0 <= s <= Size(p) && tried == Rank(p, t, s) <= p.limit
      invariant Scanning(p, Tables(t2s[..], s2t[..]), best[..], copies, start, bumped, t, s)
    {
      var looked;
      bumped, looked := ScanPair(p, t2s, s2t, best, copies, t, s, bumped, start);
      s := s + 1;
      if looked {
        tried := tried + 1;
        if tried >= numSrcs {
          RowOverBySources(p, t, s);
          break;
        }
        if tried > p.limit {
          RowOverByLimit(p, t, s);
          break;
        }
      }
    }
    ScanRowEnd(p, Tables(t2s[..], s2t[..]), best[..], copies, start, bumped, t, s);
  }

  /** No target is left from `t` on. */
  predicate TargetsOver(p: Problem, t: nat) {
    forall u: nat :: t <= u && u < |p.isTgt| ==> !p.isTgt[u]
  }

  lemma TargetsOverByCount(p: Problem, t: nat)
    requires t <= |p.isTgt| && CountTrue(p.isTgt, t) >= CountTrue(p.isTgt, |p.isTgt|)
    ensures TargetsOver(p, t)
  {
    forall u: nat | t <= u && u < |p.isTgt| ensures !p.isTgt[u] {
      CountGrows(p.isTgt, t, u);
      CountGrows(p.isTgt, u + 1, |p.isTgt|);
    }
  }

  /** One scan over all targets. */
  method Scan(p: Problem, t2s: array<Match>, s2t: array<Match>, best: array<Match>, copies: bool,
              numSrcs: nat, numTgts: nat, ghost start: nat) returns (bumped: nat)
    requires WellFormed(p) && t2s != s2t && best != t2s && best != s2t
    requires Inverse(p, Tables(t2s[..], s2t[..])) && best.Length == Size(p) && BestSound(p, best[..])
    requires numSrcs == CountTrue(p.isSrc, |p.isSrc|) && numTgts == CountTrue(p.isTgt, |p.isTgt|)
    requires start == Total(t2s[..])
    modifies t2s, s2t, best
    ensures Scanning(p, Tables(t2s[..], s2t[..]), best[..], copies, start, bumped, Size(p), 0)
  {
    bumped := 0;
    var t, tried := 0, 0;
    while t < Size(p)
      invariant 0 <= t <= Size(p) && tried == CountTrue(p.isTgt, t)
      invariant Scanning(p, Tables(t2s[..], s2t[..]), best[..], copies, start, bumped, t, 0)
    {
      if p.isTgt[t] {
        bumped := ScanTarget(p, t2s, s2t, best, copies, numSrcs, t, bumped, start);
        t := t + 1;
        tried := tried + 1;
        if tried >= numTgts {
          TargetsOverByCount(p, t);
          break;
        }
      } else {
        t := t + 1;
      }
    }
    assert TargetsOver(p, t);
  }

  method CountMarked(b: seq<bool>) returns (n: nat)
    ensures n == CountTrue(b, |b|)
  {
    n := 0;
    for i := 0 to |b|
      invariant n == CountTrue(b, i)
    {
      if b[i] {
        n := n + 1;
      }
    }
  }

  /** The best source of each target, over all measured pairs. */
  predicate Best(p: Problem, best: seq<Match>)
    requires WellFormed(p)
  {
    && |best| == Size(p) && BestSound(p, best)
    && forall s: nat, t: nat :: s < Size(p) && t < Size(p) && Measured(p, s, t) ==> p.similarity(s, t) <= best[t].similarity
  }

  // ----- which pairs are measured, told from the deltas -----

  /** A source and a target of two different deltas that can be compared. */
  predicate Comparable(p: Problem, s: nat, t: nat)
    requires WellFormed(p)
  {
    s < |p.isSrc| && t < |p.isTgt| && p.isSrc[s] && p.isTgt[t] && s != t && p.similarity(s, t) >= 0
  }

  /** The sources before `s` that can be compared with `t`. */
  ghost function Earlier(p: Problem, s: nat, t: nat): set<nat>
    requires WellFormed(p)
  {
    set j: nat | j < s && Comparable(p, j, t)
  }

  lemma {:induction false} RankCounts(p: Problem, s: nat, t: nat)
    requires WellFormed(p) && s <= Size(p) && t < Size(p) && p.isTgt[t]
    ensures Rank(p, t, s) == |Earlier(p, s, t)|
  {
    if s > 0 {
      RankCounts(p, s - 1, t);
      assert Earlier(p, s, t) == if Comparable(p, s - 1, t) then Earlier(p, s - 1, t) + {s - 1} else Earlier(p, s - 1, t);
    }
  }

  /** Every pair that can be compared is measured, up to one more than the limit for each target, and no other is. */
  lemma MeasuredMeans(p: Problem, s: nat, t: nat)
    requires WellFormed(p)
    ensures Measured(p, s, t) <==> Comparable(p, s, t) && |Earlier(p, s, t)| <= p.limit
  {
    if Comparable(p, s, t) {
      RankCounts(p, s, t);
    }
  }

  ghost function Sources(p: Problem): set<nat> { set s: nat | s < |p.isSrc| && p.isSrc[s] }

  /** With no more sources than that, every pair is measured. */
  lemma FewSources(p: Problem, s: nat, t: nat)
    requires WellFormed(p) && Comparable(p, s, t) && |Sources(p)| <= p.limit + 1
    ensures Measured(p, s, t)
  {
    MeasuredMeans(p, s, t);
    assert Earlier(p, s, t) <= Sources(p) - {s};
    Smaller(Earlier(p, s, t), Sources(p) - {s});
  }

  lemma Smaller(a: set<nat>, b: set<nat>)
    requires a <= b
    ensures |a| <= |b|
  {
    assert b == a + (b - a);
  }

  /** No source and target that are compared would both do better with each other. */
  ghost predicate NoneWaits(p: Problem, m: Tables)
    requires WellFormed(p) && |m.t2s| == |m.s2t| == Size(p)
  {
    forall s: nat, t: nat :: Comparable(p, s, t) && (|Sources(p)| <= p.limit + 1 || |Earlier(p, s, t)| <= p.limit) ==>
      p.similarity(s, t) <= m.t2s[t].similarity || p.similarity(s, t) <= m.s2t[s].similarity
  }

  /** Every match is one of a source with the target of another delta, noted on both sides. */
  ghost predicate Pairs(p: Problem, m: Tables)
    requires WellFormed(p) && |m.t2s| == |m.s2t| == Size(p)
  {
    && (forall t: nat :: t < Size(p) && m.t2s[t].similarity > 0 ==>
          var s := m.t2s[t].idx; Comparable(p, s, t) && p.similarity(s, t) == m.t2s[t].similarity && m.s2t[s] == Match(t, m.t2s[t].similarity))
    && (forall s: nat :: s < Size(p) && m.s2t[s].similarity > 0 ==> m.s2t[s].idx < Size(p) && m.t2s[m.s2t[s].idx] == Match(s, m.s2t[s].similarity))
  }

  /** For each target the most similar of the sources it is compared with. */
  ghost predicate MostSimilar(p: Problem, best: seq<Match>)
    requires WellFormed(p) && |best| == Size(p)
  {
    && (forall s: nat, t: nat :: Comparable(p, s, t) && (|Sources(p)| <= p.limit + 1 || |Earlier(p, s, t)| <= p.limit) ==>
          p.similarity(s, t) <= best[t].similarity)
    && (forall t: nat :: t < Size(p) && best[t].similarity > 0 ==>
          Comparable(p, best[t].idx, t) && p.similarity(best[t].idx, t) == best[t].similarity)
  }

  lemma StableMeans(p: Problem, m: Tables)
    requires WellFormed(p) && Inverse(p, m) && Stable(p, m)
    ensures NoneWaits(p, m) && Pairs(p, m)
  {
    forall s: nat, t: nat | Comparable(p, s, t) && (|Sources(p)| <= p.limit + 1 || |Earlier(p, s, t)| <= p.limit)
      ensures p.similarity(s, t) <= m.t2s[t].similarity || p.similarity(s, t) <= m.s2t[s].similarity
    {
      MeasuredMeans(p, s, t);
      if |Sources(p)| <= p.limit + 1 {
        FewSources(p, s, t);
      }
      assert Content(p, m, s, t);
    }
    forall t: nat | t < Size(p) && m.t2s[t].similarity > 0
      ensures var s := m.t2s[t].idx; Comparable(p, s, t) && p.similarity(s, t) == m.t2s[t].similarity && m.s2t[s] == Match(t, m.t2s[t].similarity)
    {
      assert TargetOk(p, m, t);
      MeasuredMeans(p, m.t2s[t].idx, t);
    }
    forall s: nat | s < Size(p) && m.s2t[s].similarity > 0 ensures m.s2t[s].idx < Size(p) && m.t2s[m.s2t[s].idx] == Match(s, m.s2t[s].similarity) {
      assert SourceOk(m, s);
    }
  }

  lemma BestMeans(p: Problem, best: seq<Match>)
    requires WellFormed(p) && Best(p, best)
    ensures MostSimilar(p, best)
  {
    forall s: nat, t: nat | Comparable(p, s, t) && (|Sources(p)| <= p.limit + 1 || |Earlier(p, s, t)| <= p.limit)
      ensures p.similarity(s, t) <= best[t].similarity
    {
      MeasuredMeans(p, s, t);
      if |Sources(p)| <= p.limit + 1 {
        FewSources(p, s, t);
      }
    }
    forall t: nat | t < Size(p) && best[t].similarity > 0
      ensures Comparable(p, best[t].idx, t) && p.similarity(best[t].idx, t) == best[t].similarity
    {
      MeasuredMeans(p, best[t].idx, t);
    }
  }

  /**
   * Scans until a scan evicts nothing. It always ends, since the worth of the
   * matches grows with every scan that evicts and is bounded; the tables are
   * then inverse to each other and stable, and the copy table is the best.
   */
  method FindBestMatches(p: Problem, copies: bool, ghost top: nat)
    returns (t2s: array<Match>, s2t: array<Match>, best: array<Match>)
    requires WellFormed(p) && forall s: nat, t: nat :: p.similarity(s, t) <= top
    ensures fresh(t2s) && fresh(s2t) && fresh(best)
    ensures Inverse(p, Tables(t2s[..], s2t[..])) && Stable(p, Tables(t2s[..], s2t[..]))
    ensures NoneWaits(p, Tables(t2s[..], s2t[..])) && Pairs(p, Tables(t2s[..], s2t[..]))
    ensures copies ==> Best(p, best[..]) && MostSimilar(p, best[..])
  {
    var n := Size(p);
    t2s := new Match[n](_ => Match(0, 0));
    s2t := new Match[n](_ => Match(0, 0));
    best := new Match[n](_ => Match(0, 0));
    var numSrcs := CountMarked(p.isSrc);
    var numTgts := CountMarked(p.isTgt);
    while true
      invariant t2s.Length == s2t.Length == best.Length == n
      invariant Inverse(p, Tables(t2s[..], s2t[..])) && BestSound(p, best[..])
      decreases n * Pow3(top) - Total(t2s[..])
    {
      ghost var start := Total(t2s[..]);
      var bumped := Scan(p, t2s, s2t, best, copies, numSrcs, numTgts, start);
      WorthBounded(p, Tables(t2s[..], s2t[..]), top);
      if bumped == 0 {
        break;
      }
    }
    StableMeans(p, Tables(t2s[..], s2t[..]));
    if copies {
      BestMeans(p, best[..]);
    }
  }

  lemma WorthBounded(p: Problem, m: Tables, top: nat)
    requires Inverse(p, m) && forall s: nat, t: nat :: p.similarity(s, t) <= top
    ensures Total(m.t2s) <= Size(p) * Pow3(top)
  {
    forall t | 0 <= t < |m.t2s| ensures m.t2s[t].similarity <= top {
      assert TargetOk(p, m, t);
    }
    TotalBound(m.t2s, top);
  }
}
