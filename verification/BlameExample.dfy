/**
 * A history in which a search passes the oldest commit it was told to stop at.
 * Commit 0 merges commit 1, which has no parents, and commit 2, which has
 * commit 3 for a parent. The file's first line comes from commit 1, its second
 * from commit 2, where it was already in commit 3.
 */
module BlameExample {
  import opened Common
  import opened LineDiff
  import opened Scoreboard
  import opened BlameRules
  import opened BlameTrack
  import opened Blame

  const FIRST: bytes := [10]
  const SECOND: bytes := [98]
  const BOTH: bytes := [10, 98]

  function Parents(c: nat): seq<nat> { if c == 0 then [1, 2] else if c == 2 then [3] else [] }

  function Rank(c: nat): nat { if c == 0 then 2 else if c == 2 then 1 else 0 }

  function Content(o: Origin): bytes {
    if o.commit == 0 then BOTH else if o.commit == 1 then FIRST else SECOND
  }

  function Script(a: bytes, b: bytes): seq<Change> {
    if a == FIRST && b == BOTH then [Change(1, 0, 1, 1)]
    else if a == SECOND && b == BOTH then [Change(0, 0, 0, 1)]
    else [Change(0, |Lines(a)|, 0, |Lines(b)|)]
  }

  function Find(s: bool, p: nat, o: Origin): Found<bool> { Found(Some(Origin(p, o.path)), s) }

  function Merge(): History<bool> { History(Parents, Find, Content, Script) }

  const FINAL := Origin(0, "file")

  const OLDEST: Option<nat> := Some(2)

  lemma TwoLines()
    ensures Lines(FIRST) == [FIRST] && Lines(SECOND) == [SECOND] && Lines(BOTH) == [FIRST, SECOND]
  {
    assert FIRST[1..] == [] && SECOND[1..] == [] && BOTH[1..] == SECOND;
    assert LineEnd(FIRST) == 1 && LineEnd(SECOND) == 1 && LineEnd(BOTH) == 1;
    assert FIRST[..1] == FIRST && SECOND[..1] == SECOND && BOTH[..1] == FIRST;
  }

  /** One change is right if the lines before it and after it are the same. */
  lemma OneChange(a: seq<bytes>, b: seq<bytes>, c: Change)
    requires c.i1 + c.chg1 <= |a| && c.i2 + c.chg2 <= |b|
    requires a[..c.i1] == b[..c.i2] && a[c.i1 + c.chg1..] == b[c.i2 + c.chg2..]
    ensures Correct(a, b, [c], 0, 0)
  {
    assert [c][1..] == [];
    assert Correct(a, b, [], c.i1 + c.chg1, c.i2 + c.chg2);
  }

  lemma ScriptCorrect(a: bytes, b: bytes)
    ensures CorrectFor(Script, a, b)
  {
    TwoLines();
    if a == FIRST && b == BOTH {
      OneChange(Lines(a), Lines(b), Change(1, 0, 1, 1));
    } else if a == SECOND && b == BOTH {
      OneChange(Lines(a), Lines(b), Change(0, 0, 0, 1));
    } else {
      OneChange(Lines(a), Lines(b), Change(0, |Lines(a)|, 0, |Lines(b)|));
    }
  }

  lemma MergeWellFormed()
    ensures WellFormed(Merge(), Rank) && Stateless(Merge())
  {
    forall a, b ensures CorrectFor(Script, a, b) {
      ScriptCorrect(a, b);
    }
  }

  /** The two lines are found in the first and the second parent. */
  lemma MergeTraced()
    ensures Parental(Merge(), FINAL, Origin(1, "file"), 0) == Some(0)
    ensures Parental(Merge(), FINAL, Origin(1, "file"), 1) == None
    ensures Parental(Merge(), FINAL, Origin(2, "file"), 1) == Some(0)
  {
    var script := Script(SECOND, BOTH);
    assert Cut(FIRST, BOTH) == 0 && Cut(SECOND, BOTH) == 0;
    assert FIRST[..1] == FIRST && SECOND[..1] == SECOND && BOTH[..2] == BOTH;
    assert script == [Change(0, 0, 0, 1)] && script[1..] == [];
    assert OldLine([], 0, 1, 1) == Some(0);
    assert OldLine(script, 0, 0, 1) == OldLine(script[1..], 0, 1, 1);
  }

  lemma MergeChoice(s: bool)
    ensures ChoiceFor(Merge(), s, FINAL) == Among([Origin(1, "file"), Origin(2, "file")])
  {
    var h, one, two := Merge(), Origin(1, "file"), Origin(2, "file");
    assert [1, 2][1..] == [2] && [2][1..] == [];
    assert Choose(h, s, [], FINAL, [one, two]).choice == Among([one, two]);
    assert Choose(h, s, [2], FINAL, [one]) == Choose(h, s, [], FINAL, [one] + [two]);
    assert Choose(h, s, [1, 2], FINAL, []) == Choose(h, s, [2], FINAL, [] + [one]);
  }

  lemma MergeVerdicts(s: bool)
    requires WellFormed(Merge(), Rank)
    ensures Verdict(Merge(), Rank, s, OLDEST, FINAL, 0) == Line(Origin(1, "file"), 0, true, true)
    ensures Verdict(Merge(), Rank, s, OLDEST, FINAL, 1) == Line(Origin(2, "file"), 0, true, true)
  {
    var h, one, two := Merge(), Origin(1, "file"), Origin(2, "file");
    MergeChoice(s);
    MergeTraced();
    assert [one, two][1..] == [two];
    assert Earlier(h, s, FINAL, 0) == Some(Place(one, 0));
    assert Earlier(h, s, FINAL, 1) == Some(Place(two, 0));
    assert Stops(h, OLDEST, one) && Stops(h, OLDEST, two);
  }

  /** Commit 3 has the second line as well, so that without a stop the line goes back to it. */
  lemma PastOldest(s: bool)
    requires WellFormed(Merge(), Rank)
    ensures Verdict(Merge(), Rank, s, None, FINAL, 1) == Line(Origin(3, "file"), 0, true, true)
  {
    var h, one, two, three := Merge(), Origin(1, "file"), Origin(2, "file"), Origin(3, "file");
    MergeChoice(s);
    MergeTraced();
    assert [one, two][1..] == [two];
    assert Earlier(h, s, FINAL, 1) == Some(Place(two, 0));
    assert ChoiceFor(h, s, two) == Whole(three);
    assert Earlier(h, s, two, 0) == Some(Place(three, 0));
    assert Verdict(h, Rank, s, None, two, 0) == Verdict(h, Rank, s, None, three, 0);
  }

  /** Blaming both lines replaces the oldest commit by commit 1, and the second line is blamed on commit 3, which is older than commit 2. */
  method Misblamed(s: bool) returns (hunks: seq<Entry<Origin>>)
    ensures WellFormed(Merge(), Rank) && Stateless(Merge()) && 3 in Parents(2)
    ensures |View(hunks)| == 2 && View(hunks)[1].suspect.commit == 3
    ensures OLDEST == Some(2) && Verdict(Merge(), Rank, s, OLDEST, FINAL, 1).suspect.commit == 2
  {
    MergeWellFormed();
    MergeVerdicts(s);
    PastOldest(s);
    TwoLines();
    hunks := BlameFile(Merge(), FINAL, 1, 0, OLDEST, s, Rank);
    assert RootFirstAt(Merge(), OLDEST, Judged(Merge(), Rank, s, OLDEST, FINAL, 0, 2), 0, 1);
  }
}
