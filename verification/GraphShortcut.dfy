/**
 * A history that no times can mislead, although a common commit is a parent of
 * one side alone: the simpler condition on the parents is not the exact one.
 */
module GraphShortcut {
  import opened Graph
  import opened GraphRuns
  import opened GraphShape
  import opened GraphCount

  /** Commits 0 and 1 are the two sides, 2 is a parent of both, and 3 is a parent of 2 and of 0. */
  const SHORTCUT: Graph := Graph([[2, 3], [2], [3], []], [4, 3, 2, 1])

  lemma {:induction false} Rises(p: seq<nat>, k: nat)
    requires Path(SHORTCUT, p) && k < |p|
    ensures p[0] <= p[k]
    decreases k
  {
    if k > 0 {
      Rises(p, k - 1);
      assert p[(k - 1) + 1] in SHORTCUT.parents[p[k - 1]];
    }
  }

  lemma OnlyUp(a: nat, x: nat)
    requires Reaches(SHORTCUT, a, x)
    ensures a <= x
  {
    var p :| Path(SHORTCUT, p) && p[0] == a && p[|p| - 1] == x;
    Rises(p, |p| - 1);
  }

  lemma NoWayToOne()
    ensures !Reaches(SHORTCUT, 0, 1) && !Reaches(SHORTCUT, 1, 0)
  {
    if Reaches(SHORTCUT, 1, 0) {
      OnlyUp(1, 0);
    }
    if p :| Path(SHORTCUT, p) && p[0] == 0 && p[|p| - 1] == 1 {
      assert p[(|p| - 2) + 1] in SHORTCUT.parents[p[|p| - 2]];
    }
  }

  lemma Ways()
    ensures Reaches(SHORTCUT, 0, 2) && Reaches(SHORTCUT, 0, 3) && Reaches(SHORTCUT, 1, 3)
    ensures forall late :: 0 !in late ==> Leads(SHORTCUT, late, 0, 3)
  {
    assert Path(SHORTCUT, [0, 2]);
    assert Path(SHORTCUT, [0, 3]);
    assert Path(SHORTCUT, [1, 2, 3]);
    forall late | 0 !in late ensures Leads(SHORTCUT, late, 0, 3) {
      assert PathOff(SHORTCUT, late, [0, 3]);
    }
  }

  lemma FirstSafe(x: nat, late: set<nat>)
    ensures !ExposedAt(SHORTCUT, 0, 1, x, late)
  {
    NoWayToOne();
    Ways();
  }

  lemma SecondSafe(x: nat, late: set<nat>)
    ensures !ExposedAt(SHORTCUT, 1, 0, x, late)
  {
    NoWayToOne();
    Ways();
  }

  lemma ShapeNotNeeded()
    ensures Acyclic(SHORTCUT) && !Exposed(SHORTCUT, 0, 1) && !Exposed(SHORTCUT, 1, 0)
    ensures !Shape(SHORTCUT, 0, 1)
  {
    forall c, x | 0 <= c < 4 && x in SHORTCUT.parents[c] ensures !Reaches(SHORTCUT, x, c) {
      if Reaches(SHORTCUT, x, c) {
        OnlyUp(x, c);
      }
    }
    forall x, late ensures !ExposedAt(SHORTCUT, 0, 1, x, late) { FirstSafe(x, late); }
    forall x, late ensures !ExposedAt(SHORTCUT, 1, 0, x, late) { SecondSafe(x, late); }
    NoWayToOne();
    Ways();
    ReachesSelf(SHORTCUT, 0);
    assert 0 in Only(SHORTCUT, 0, 1);
    assert Edge(SHORTCUT, 0, 1, 3);
  }
}
