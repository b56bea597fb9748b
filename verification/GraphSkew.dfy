/** A history in which one commit is newer than its child, and is counted for one side though both reach it. */
module GraphSkew {
  import opened Graph
  import opened GraphCount

  /**
   * Commits 0 and 1 are the two sides and 2 is their common parent. Commit 4
   * is a parent of 0, and of 3, which is a parent of 2 and older than 4.
   */
  const SKEWED: Graph := Graph([[2, 4], [2], [3, 5], [4], [5], []], [10, 9, 8, 5, 6, 1])

  const NONE := CLEAR
  const FIRST := CLEAR.(p1 := true)
  const SECOND := CLEAR.(p2 := true)
  const BOTH := Flags(true, true, false, false)
  const BASE := Flags(true, true, true, false)
  const STALE := Flags(true, true, false, true)

  /** The marks after each round. */
  function Marks(i: nat): (f: seq<Flags>)
    ensures |f| == 6
  {
    if i == 0 then [FIRST, SECOND, NONE, NONE, NONE, NONE]
    else if i == 1 then [FIRST, SECOND, FIRST, NONE, FIRST, NONE]
    else if i == 2 then [FIRST, SECOND, BOTH, NONE, FIRST, NONE]
    else [FIRST, SECOND, BASE, STALE, FIRST, STALE]
  }

  /** What waits after each round. */
  function Waits(i: nat): multiset<nat> {
    if i == 0 then multiset{0, 1}
    else if i == 1 then multiset{1, 2, 4}
    else if i == 2 then multiset{2, 2, 4}
    else if i == 3 then multiset{2, 3, 4, 5}
    else if i == 4 then multiset{3, 4, 5}
    else multiset{3, 5}
  }

  /** Whose round it is. */
  function Turn(i: nat): nat { if i == 0 then 0 else if i == 1 then 1 else if i < 4 then 2 else 4 }

  /** A round of a commit with one parent. */
  lemma RoundOfOne(g: Graph, f: seq<Flags>, q: multiset<nat>, c: nat, p: nat, n: seq<Flags>, q': multiset<nat>)
    requires Valid(g) && |f| == |g.parents| && c < |f| && g.parents[c] == [p] && p != c && p < |f|
    requires c in q && forall x :: x in q ==> KeyOf(g)(x) <= KeyOf(g)(c)
    requires !(f[c].p1 && f[c].p2)
    requires n == if Covers(f[p], Passed(f[c])) then f else f[p := Join(f[p], Passed(f[c]))]
    requires q' == q - multiset{c} + if Covers(f[p], Passed(f[c])) then multiset{} else multiset{p}
    ensures RoundFrom(g, f, q, c, n, q')
  {
    var e := Passed(f[c]);
    assert Spread(g, f, c, e, 0) == f;
    assert Joining(g, f, c, e, 1) == if Covers(f[p], e) then multiset{} else multiset{p};
  }

  /** A round of a commit with two parents that are both new to its marks, or both have them. */
  lemma RoundOfTwo(g: Graph, f: seq<Flags>, q: multiset<nat>, c: nat, a: nat, b: nat, lack: bool, n: seq<Flags>, q': multiset<nat>)
    requires Valid(g) && |f| == |g.parents| && c < |f| && g.parents[c] == [a, b] && a != b && a != c && b != c && a < |f| && b < |f|
    requires c in q && forall x :: x in q ==> KeyOf(g)(x) <= KeyOf(g)(c)
    requires var r := Resulting(f, c); var e := Passed(r[c]);
             && lack == !Covers(r[a], e) == !Covers(r[b], e)
             && n == (if lack then r[a := Join(r[a], e)][b := Join(r[b], e)] else r)
             && q' == q - multiset{c} + if lack then multiset{a, b} else multiset{}
    ensures RoundFrom(g, f, q, c, n, q')
  {
    var r := Resulting(f, c);
    var e := Passed(r[c]);
    assert Spread(g, r, c, e, 0) == r;
    assert Spread(g, r, c, e, 1) == if lack then r[a := Join(r[a], e)] else r;
    assert Joining(g, r, c, e, 1) == if lack then multiset{a} else multiset{};
    assert Joining(g, r, c, e, 2) == if lack then multiset{a, b} else multiset{};
  }

  lemma SkewedValid()
    ensures Valid(SKEWED) && |SKEWED.parents| == 6
  {}

  lemma FirstRound()
    requires Valid(SKEWED)
    ensures RoundFrom(SKEWED, Marks(0), Waits(0), 0, Marks(1), Waits(1))
  {
    RoundOfTwo(SKEWED, Marks(0), Waits(0), 0, 2, 4, true, Marks(1), Waits(1));
  }

  lemma SecondRound()
    requires Valid(SKEWED)
    ensures RoundFrom(SKEWED, Marks(1), Waits(1), 1, Marks(2), Waits(2))
  {
    RoundOfOne(SKEWED, Marks(1), Waits(1), 1, 2, Marks(2), Waits(2));
  }

  lemma ThirdRound()
    requires Valid(SKEWED)
    ensures RoundFrom(SKEWED, Marks(2), Waits(2), 2, Marks(3), Waits(3))
  {
    RoundOfTwo(SKEWED, Marks(2), Waits(2), 2, 3, 5, true, Marks(3), Waits(3));
  }

  lemma FourthRound()
    requires Valid(SKEWED)
    ensures RoundFrom(SKEWED, Marks(3), Waits(3), 2, Marks(4), Waits(4))
  {
    RoundOfTwo(SKEWED, Marks(3), Waits(3), 2, 3, 5, false, Marks(4), Waits(4));
  }

  lemma FifthRound()
    requires Valid(SKEWED)
    ensures RoundFrom(SKEWED, Marks(4), Waits(4), 4, Marks(5), Waits(5))
  {
    RoundOfOne(SKEWED, Marks(4), Waits(4), 4, 5, Marks(5), Waits(5));
  }

  /** The rounds follow each other, and none of them takes a root. */
  lemma Rounds(i: nat)
    requires i < 5
    ensures Valid(SKEWED) && RoundFrom(SKEWED, Marks(i), Waits(i), Turn(i), Marks(i + 1), Waits(i + 1))
    ensures SKEWED.parents[Turn(i)] != []
  {
    SkewedValid();
    if i == 0 { FirstRound(); }
    else if i == 1 { SecondRound(); }
    else if i == 2 { ThirdRound(); }
    else if i == 3 { FourthRound(); }
    else { FifthRound(); }
  }

  /** No other commit is as new as the one whose turn it is. */
  lemma OneTurn(i: nat, c: nat)
    requires i < 5 && c in Waits(i) && forall x :: x in Waits(i) ==> KeyOf(SKEWED)(x) <= KeyOf(SKEWED)(c)
    ensures c == Turn(i)
  {
    assert Turn(i) in Waits(i);
  }

  ghost predicate Stands(m: Moment, i: nat) { m.f == Marks(i) && m.q == Waits(i) && m.roots == {} }

  lemma TurnWaits(i: nat)
    requires i < 5
    ensures Turn(i) in Waits(i) && Turn(i) < 6 && !Marks(i)[Turn(i)].stale
  {}

  lemma WhileAwake(m: Moment, i: nat)
    requires Stands(m, i) && i <= 5
    ensures Awake(m) <==> i < 5
    ensures i < 5 ==> m.q != multiset{}
  {
    if i < 5 {
      TurnWaits(i);
    }
  }

  lemma OneStep(m: Moment, c: nat, n: Moment, i: nat)
    requires Stands(m, i) && i <= 5 && Step(SKEWED, m, c, n)
    ensures i < 5 && Stands(n, i + 1)
  {
    WhileAwake(m, i);
    OneTurn(i, c);
    Rounds(i);
  }

  lemma SeededStands()
    ensures |SKEWED.parents| == 6 && Stands(Seeded(6, 0, 1), 0)
  {
    assert Seeded(6, 0, 1).f == Marks(0);
  }

  /** The marking can go in no other way. */
  lemma {:induction false} Forced(ms: seq<Moment>, cs: seq<nat>, i: nat)
    requires Ran(SKEWED, 0, 1, ms, cs) && i <= |cs|
    ensures i <= 5 && Stands(ms[i], i)
    decreases i
  {
    if i == 0 {
      SeededStands();
    } else {
      Forced(ms, cs, i - 1);
      assert StepOf(SKEWED, ms, cs, i - 1);
      OneStep(ms[i - 1], cs[i - 1], ms[i], i - 1);
    }
  }

  lemma ForcedEnd(ms: seq<Moment>, cs: seq<nat>)
    requires Ran(SKEWED, 0, 1, ms, cs) && Halts(ms[|cs|])
    ensures |cs| == 5 && ms[|cs|].f == Marks(5)
  {
    Forced(ms, cs, |cs|);
    WhileAwake(ms[|cs|], |cs|);
  }

  lemma BothReach()
    ensures Reaches(SKEWED, 0, 4) && Reaches(SKEWED, 1, 4)
  {
    assert Path(SKEWED, [0, 4]);
    assert Path(SKEWED, [1, 2, 3, 4]);
  }

  /** Commit 4 is counted for the first side. */
  lemma CountsFour()
    requires Marked(SKEWED, Marks(5), 0, 1)
    ensures |Firsts(Marks(5), Walked(SKEWED, Marks(5), 0, 1))| > |Only(SKEWED, 0, 1)|
  {
    BothReach();
    var p := [0, 4];
    assert OpenPath(SKEWED, Marks(5), p) && p[|p| - 1] == 4;
    assert Walks(SKEWED, Marks(5), 0, 1, 4);
    TooMany(SKEWED, Marks(5), 0, 1, 4);
  }

  /** The code counts too many commits. */
  method SkewMisleads() returns (ahead: nat, behind: nat)
    ensures behind > |Only(SKEWED, 0, 1)|
  {
    SkewedValid();
    ghost var ms, cs, f;
    ahead, behind, ms, cs, f := GraphAheadBehind(SKEWED, 0, 1);
    ForcedEnd(ms, cs);
    CountsFour();
  }
}
