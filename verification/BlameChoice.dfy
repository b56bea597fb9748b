/**
 * Which parent a line goes to, said of the parents alone: the first one that
 * has the very same file takes everything; if there is none, each line goes to
 * the first one that has it.
 */
module BlameChoice {
  import opened Common
  import opened Scoreboard
  import opened BlameRules

  // ----- what is found in each parent -----

  /** The paths known before parent `i` is looked at. */
  ghost function PathsBefore<P>(h: History<P>, s: P, o: Origin, i: nat): P
    requires i <= |h.parents(o.commit)|
  {
    if i == 0 then s else h.find(PathsBefore(h, s, o, i - 1), h.parents(o.commit)[i - 1], o).paths
  }

  /** The file in parent `i` that the file came from. */
  ghost function FoundAt<P>(h: History<P>, s: P, o: Origin, i: nat): Option<Origin>
    requires i < |h.parents(o.commit)|
  {
    h.find(PathsBefore(h, s, o, i), h.parents(o.commit)[i], o).origin
  }

  /** Parent `i` has the very same file. */
  ghost predicate SameAt<P>(h: History<P>, s: P, o: Origin, i: nat)
    requires i < |h.parents(o.commit)|
  {
    FoundAt(h, s, o, i).Some? && h.content(FoundAt(h, s, o, i).value) == h.content(o)
  }

  /** Line `x` is a line of the file in parent `i`. */
  ghost predicate HasAt<P>(h: History<P>, s: P, o: Origin, i: nat, x: int)
    requires i < |h.parents(o.commit)|
  {
    FoundAt(h, s, o, i).Some? && Parental(h, o, FoundAt(h, s, o, i).value, x).Some?
  }

  /** None of the first `n` parents has the same file. */
  ghost predicate NoneSame<P>(h: History<P>, s: P, o: Origin, n: nat)
    requires n <= |h.parents(o.commit)|
  {
    forall i :: 0 <= i < n ==> !SameAt(h, s, o, i)
  }

  /** None of the first `n` parents has the line. */
  ghost predicate NoneHas<P>(h: History<P>, s: P, o: Origin, n: nat, x: int)
    requires n <= |h.parents(o.commit)|
  {
    forall i :: 0 <= i < n ==> !HasAt(h, s, o, i, x)
  }

  ghost predicate FirstSame<P>(h: History<P>, s: P, o: Origin, i: nat) {
    i < |h.parents(o.commit)| && SameAt(h, s, o, i) && NoneSame(h, s, o, i)
  }

  ghost predicate FirstHas<P>(h: History<P>, s: P, o: Origin, i: nat, x: int) {
    i < |h.parents(o.commit)| && HasAt(h, s, o, i, x) && NoneHas(h, s, o, i, x)
  }

  /** Where line `x` of `o` goes, if it goes anywhere. */
  ghost predicate GoesTo<P>(h: History<P>, s: P, o: Origin, x: int, r: Option<Place>) {
    var n := |h.parents(o.commit)|;
    && (forall i: nat :: FirstSame(h, s, o, i) ==> r == Some(Place(FoundAt(h, s, o, i).value, x)))
    && (NoneSame(h, s, o, n) ==>
          && (forall i: nat :: FirstHas(h, s, o, i, x) ==>
                var q := FoundAt(h, s, o, i).value; r == Some(Place(q, Parental(h, o, q, x).value)))
          && (NoneHas(h, s, o, n, x) ==> r == None))
  }

  /** What passing blame does to a line: all lines of `o` follow a file that is the same, open ones the first parent that has them. */
  ghost predicate PassesTo<P>(h: History<P>, s: P, o: Origin, l: Line<Origin>, m: Line<Origin>) {
    var n := |h.parents(o.commit)|;
    if l.suspect != o then m == l
    else
      && (forall i: nat :: FirstSame(h, s, o, i) ==> m == l.(suspect := FoundAt(h, s, o, i).value))
      && (NoneSame(h, s, o, n) && l.guilty ==> m == l)
      && (NoneSame(h, s, o, n) && !l.guilty ==>
            && (forall i: nat :: FirstHas(h, s, o, i, l.lno) ==>
                  var q := FoundAt(h, s, o, i).value; m == Line(q, Parental(h, o, q, l.lno).value, false, false))
            && (NoneHas(h, s, o, n, l.lno) ==> m == l))
  }

  // ----- the choice among the first parents -----

  /** What the files kept so far give for line `x` is what the first `k` parents give. */
  ghost predicate SourceAmong<P>(h: History<P>, s: P, o: Origin, k: nat, x: int, r: Option<Place>)
    requires k <= |h.parents(o.commit)|
  {
    && (NoneHas(h, s, o, k, x) ==> r == None)
    && (forall i: nat :: i < k && FirstHas(h, s, o, i, x) ==>
          var q := FoundAt(h, s, o, i).value; r == Some(Place(q, Parental(h, o, q, x).value)))
  }

  ghost predicate Upto<P>(h: History<P>, s: P, o: Origin, k: nat, seen: seq<Origin>)
    requires k <= |h.parents(o.commit)|
  {
    NoneSame(h, s, o, k) && forall x :: SourceAmong(h, s, o, k, x, Source(h, o, seen, x))
  }

  lemma {:induction false} SourceMore<P>(h: History<P>, o: Origin, seen: seq<Origin>, q: Origin, x: int)
    ensures Source(h, o, seen + [q], x) ==
            if Source(h, o, seen, x).Some? then Source(h, o, seen, x)
            else match Parental(h, o, q, x) case None => None case Some(y) => Some(Place(q, y))
    decreases |seen|
  {
    if seen == [] {
      assert seen + [q] == [q] && [q][1..] == [];
    } else {
      assert (seen + [q])[1..] == seen[1..] + [q];
      SourceMore(h, o, seen[1..], q, x);
    }
  }

  lemma {:induction false} SourceNone<P>(h: History<P>, o: Origin, seen: seq<Origin>, x: int, j: nat)
    requires j < |seen| && Parental(h, o, seen[j], x).Some?
    ensures Source(h, o, seen, x).Some?
    decreases |seen|
  {
    if j > 0 {
      SourceNone(h, o, seen[1..], x, j - 1);
    }
  }

  /** If any of the first parents has a line, there is a first one. */
  lemma {:induction false} SomeFirst<P>(h: History<P>, s: P, o: Origin, k: nat, x: int) returns (i: nat)
    requires k <= |h.parents(o.commit)| && !NoneHas(h, s, o, k, x)
    ensures i < k && FirstHas(h, s, o, i, x)
    decreases k
  {
    if NoneHas(h, s, o, k - 1, x) {
      i := k - 1;
    } else {
      i := SomeFirst(h, s, o, k - 1, x);
    }
  }

  lemma SourceKnown<P>(h: History<P>, s: P, o: Origin, k: nat, seen: seq<Origin>, x: int)
    requires k <= |h.parents(o.commit)| && SourceAmong(h, s, o, k, x, Source(h, o, seen, x))
    ensures Source(h, o, seen, x).Some? <==> !NoneHas(h, s, o, k, x)
  {
    if !NoneHas(h, s, o, k, x) {
      var i := SomeFirst(h, s, o, k, x);
    }
  }

  /** One parent more: it has nothing to add, or is kept. */
  lemma SourceStep<P>(h: History<P>, s: P, o: Origin, k: nat, seen: seq<Origin>, more: seq<Origin>, x: int)
    requires k < |h.parents(o.commit)| && SourceAmong(h, s, o, k, x, Source(h, o, seen, x))
    requires var q := FoundAt(h, s, o, k);
             || (q.None? && more == seen)
             || (q.Some? && SameAsOne(h, seen, q.value) && more == seen)
             || (q.Some? && more == seen + [q.value])
    ensures SourceAmong(h, s, o, k + 1, x, Source(h, o, more, x))
  {
    var q := FoundAt(h, s, o, k);
    SourceKnown(h, s, o, k, seen, x);
    if q.Some? {
      SourceMore(h, o, seen, q.value, x);
      if more == seen {
        var j :| 0 <= j < |seen| && h.content(seen[j]) == h.content(q.value);
        assert Parental(h, o, seen[j], x) == Parental(h, o, q.value, x);
        if Parental(h, o, seen[j], x).Some? {
          SourceNone(h, o, seen, x, j);
        }
      }
    }
    forall i: nat | i < k + 1 && FirstHas(h, s, o, i, x)
      ensures var p := FoundAt(h, s, o, i).value; Source(h, o, more, x) == Some(Place(p, Parental(h, o, p, x).value))
    {
      if i == k {
        assert NoneHas(h, s, o, k, x);
      }
    }
  }

  lemma UptoNext<P>(h: History<P>, s: P, o: Origin, k: nat, seen: seq<Origin>, more: seq<Origin>)
    requires k < |h.parents(o.commit)| && Upto(h, s, o, k, seen) && !SameAt(h, s, o, k)
    requires var q := FoundAt(h, s, o, k);
             || (q.None? && more == seen)
             || (q.Some? && SameAsOne(h, seen, q.value) && more == seen)
             || (q.Some? && more == seen + [q.value])
    ensures Upto(h, s, o, k + 1, more)
  {
    forall x ensures SourceAmong(h, s, o, k + 1, x, Source(h, o, more, x)) {
      SourceStep(h, s, o, k, seen, more, x);
    }
  }

  /** The choice is the first file that is the same, or gives for each line what the parents give. */
  ghost predicate Rightly<P>(h: History<P>, s: P, o: Origin, c: Choice) {
    match c
    case Whole(q) => exists i: nat :: FirstSame(h, s, o, i) && FoundAt(h, s, o, i) == Some(q)
    case Among(os) => Upto(h, s, o, |h.parents(o.commit)|, os)
  }

  lemma {:induction false} ChooseFrom<P>(h: History<P>, s: P, o: Origin, k: nat, seen: seq<Origin>)
    requires k <= |h.parents(o.commit)| && Upto(h, s, o, k, seen)
    ensures Rightly(h, s, o, Choose(h, PathsBefore(h, s, o, k), h.parents(o.commit)[k..], o, seen).choice)
    decreases |h.parents(o.commit)| - k
  {
    var ps := h.parents(o.commit);
    if k < |ps| {
      assert ps[k..][0] == ps[k] && ps[k..][1..] == ps[k + 1..];
      var q := FoundAt(h, s, o, k);
      if SameAt(h, s, o, k) {
        assert FirstSame(h, s, o, k);
      } else {
        var more := if q.None? || SameAsOne(h, seen, q.value) then seen else seen + [q.value];
        UptoNext(h, s, o, k, seen, more);
        ChooseFrom(h, s, o, k + 1, more);
      }
    }
  }

  /** Whatever the parents are, the choice is right. */
  lemma ChoiceRight<P>(h: History<P>, s: P, o: Origin)
    ensures Rightly(h, s, o, ChoiceFor(h, s, o))
  {
    assert h.parents(o.commit)[0..] == h.parents(o.commit);
    ChooseFrom(h, s, o, 0, []);
  }

  lemma OneFirst<P>(h: History<P>, s: P, o: Origin, i: nat, j: nat)
    requires FirstSame(h, s, o, i) && FirstSame(h, s, o, j)
    ensures i == j
  {}

  /** A line goes where the parents say. */
  lemma EarlierMeans<P>(h: History<P>, s: P, o: Origin, x: int)
    ensures GoesTo(h, s, o, x, Earlier(h, s, o, x))
  {
    ChoiceRight(h, s, o);
    match ChoiceFor(h, s, o)
    case Whole(q) =>
      var i: nat :| FirstSame(h, s, o, i) && FoundAt(h, s, o, i) == Some(q);
      forall j: nat | FirstSame(h, s, o, j) ensures j == i { OneFirst(h, s, o, i, j); }
    case Among(os) =>
      assert SourceAmong(h, s, o, |h.parents(o.commit)|, x, Source(h, o, os, x));
  }

  /** And passing blame does that to every line. */
  lemma HandMeans<P>(h: History<P>, s: P, o: Origin, l: Line<Origin>)
    ensures PassesTo(h, s, o, l, HandLine(h, o, ChoiceFor(h, s, o), l))
  {
    ChoiceRight(h, s, o);
    match ChoiceFor(h, s, o)
    case Whole(q) =>
      var i: nat :| FirstSame(h, s, o, i) && FoundAt(h, s, o, i) == Some(q);
      forall j: nat | FirstSame(h, s, o, j) ensures j == i { OneFirst(h, s, o, i, j); }
    case Among(os) =>
      assert SourceAmong(h, s, o, |h.parents(o.commit)|, l.lno, Source(h, o, os, l.lno));
  }

  /** The verdict on a line, followed from parent to parent. */
  lemma VerdictMeans<P(!new)>(h: History<P>, rank: nat -> nat, s: P, oldest: Option<nat>, o: Origin, x: int)
    requires WellFormed(h, rank)
    ensures var v := Verdict(h, rank, s, oldest, o, x);
            if oldest == Some(o.commit) || h.parents(o.commit) == [] then v == Line(o, x, true, true)
            else exists r :: GoesTo(h, s, o, x, r) &&
                   v == match r case None => Line(o, x, true, false) case Some(p) => Verdict(h, rank, s, oldest, p.origin, p.lno)
  {
    EarlierMeans(h, s, o, x);
    EarlierRank(h, rank, s, o, x);
  }
}
