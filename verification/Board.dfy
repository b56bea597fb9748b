/** The list of groups and the steps that change it in place. */
module ScoreboardList {
  import opened Scoreboard
  import opened Sequences

  class Board<O(==)> {
    var ent: seq<Entry<O>>

    constructor (e: Entry<O>)
      ensures ent == [e]
    {
      ent := [e];
    }

    /** Links a new group in before the first one that does not start below it. */
    method AddEntry(e: Entry<O>)
      modifies this
      ensures ent == Linked(old(ent), e)
    {
      var i := 0;
      while i < |ent| && ent[i].lno < e.lno
        invariant i <= |ent| && Below(ent, e.lno) == i + Below(ent[i..], e.lno)
      {
        i := i + 1;
      }
      ent := ent[..i] + [e] + ent[i..];
    }

    /** Puts the parts of a split in the place of the group. */
    method SplitBlame(i: nat, s: Split<O>)
      requires i < |ent| && InOrder(s, ent[i]) && Apart(ent, i, ent[i].lno, ent[i].lno + ent[i].num)
      modifies this
      ensures ent == Replaced(old(ent), i, Parts(s))
    {
      LinkedParts(ent, i, s);
      if s.pre != [] && s.post != [] {
        ent := ent[i := s.pre[0]];
        AddEntry(s.post[0]);
        AddEntry(s.mid);
      } else if s.pre == [] && s.post == [] {
        ent := ent[i := s.mid];
      } else if s.pre != [] {
        ent := ent[i := s.pre[0]];
        AddEntry(s.mid);
      } else {
        ent := ent[i := s.mid];
        AddEntry(s.post[0]);
      }
    }

    /** Hands the lines of one chunk from the target to the parent. */
    method BlameChunk(c: Chunk<O>, ghost lo: int, ghost rank: O -> nat)
      requires Orderly(ent, lo) && rank(c.parent) < rank(c.target)
      modifies this
      ensures Orderly(ent, lo)
      ensures View(ent) == Map(Move(c), View(old(ent)))
      ensures NoDearer(rank, old(ent), ent)
    {
      ghost var v0 := View(ent);
      ghost var left: nat := |v0|;
      var i: nat := 0;
      while i < |ent|
        invariant Underway(c, v0, ent, i, lo, left) && NoDearer(rank, old(ent), ent)
        decreases left, |ent| - i
      {
        var e := ent[i];
        var s := if Passed(c, e) then NoSplit else SplitOverlap(e, c);
        if s.Split? {
          SplitTurn(c, v0, ent, i, lo, left, rank);
          SplitBlame(i, s);
          left := left - Count(Parts(s)[0]);
        } else {
          Unsplit(c, e);
          UnderwayNext(c, v0, ent, i, lo, left);
          left := left - Count(e);
        }
        i := i + 1;
      }
      UnderwayEnd(c, v0, ent, lo, left);
    }

    /** One past the last line of the target that is still open, or -1. */
    method FindLastInTarget(target: O) returns (last: int)
      ensures forall i :: 0 <= i < |ent| && Accuses(ent[i], target) ==> ent[i].sLno + ent[i].num <= last
      ensures last == -1 || exists i :: 0 <= i < |ent| && Accuses(ent[i], target) && last == ent[i].sLno + ent[i].num
    {
      last := -1;
      for k := 0 to |ent|
        invariant forall i :: 0 <= i < k && Accuses(ent[i], target) ==> ent[i].sLno + ent[i].num <= last
        invariant last == -1 || exists i :: 0 <= i < k && Accuses(ent[i], target) && last == ent[i].sLno + ent[i].num
      {
        if Accuses(ent[k], target) && last < ent[k].sLno + ent[k].num {
          last := ent[k].sLno + ent[k].num;
        }
      }
    }

    /** Everything one file version is suspected for goes to another. */
    method PassWholeBlame(o: O, q: O, ghost lo: int, ghost rank: O -> nat)
      requires Orderly(ent, lo) && rank(q) < rank(o)
      modifies this
      ensures Orderly(ent, lo)
      ensures View(ent) == Map(Pass(o, q), View(old(ent)))
      ensures Cost(rank, ent) <= Cost(rank, old(ent))
      ensures Suspected(old(ent), o) ==> Cost(rank, ent) < Cost(rank, old(ent))
    {
      for i := 0 to |ent|
        invariant EachUpTo(PassEntry(o, q), old(ent), ent, i)
      {
        if ent[i].suspect == o {
          ent := ent[i := ent[i].(suspect := q)];
        }
      }
      EachAll(PassEntry(o, q), old(ent), ent);
      PassKeeps(o, q, old(ent), lo, rank);
    }

    /** A suspect that could pass on no more takes what is left to it. */
    method TakeBlame(o: O, boundary: bool, ghost lo: int, ghost rank: O -> nat)
      requires Orderly(ent, lo)
      modifies this
      ensures Orderly(ent, lo)
      ensures View(ent) == Map(Own(o, boundary), View(old(ent)))
      ensures Cost(rank, ent) <= Cost(rank, old(ent))
      ensures Suspected(old(ent), o) ==> Cost(rank, ent) < Cost(rank, old(ent))
    {
      for i := 0 to |ent|
        invariant EachUpTo(OwnEntry(o, boundary), old(ent), ent, i)
      {
        if ent[i].suspect == o {
          ent := ent[i := ent[i].(guilty := true, boundary := boundary)];
        }
      }
      EachAll(OwnEntry(o, boundary), old(ent), ent);
      OwnKeeps(o, boundary, old(ent), lo, rank);
    }

    /** The first group that is not settled. */
    method FindSuspect() returns (k: nat)
      ensures k <= |ent| && (k < |ent| ==> !ent[k].guilty) && forall i :: 0 <= i < k ==> ent[i].guilty
    {
      k := 0;
      while k < |ent| && ent[k].guilty
        invariant k <= |ent| && forall i :: 0 <= i < k ==> ent[i].guilty
      {
        k := k + 1;
      }
    }
  }

  /** How many groups at the front start below a line. */
  function Below<O>(es: seq<Entry<O>>, lno: int): (r: nat)
    ensures r <= |es|
  {
    if es == [] || es[0].lno >= lno then 0 else 1 + Below(es[1..], lno)
  }

  function Inserted<O>(es: seq<Entry<O>>, k: nat, more: seq<Entry<O>>): seq<Entry<O>>
    requires k <= |es|
  {
    es[..k] + more + es[k..]
  }

  function Linked<O>(es: seq<Entry<O>>, e: Entry<O>): seq<Entry<O>> {
    Inserted(es, Below(es, e.lno), [e])
  }

  /** A new group that starts after group `i` and before the next one goes between the two. */
  lemma {:induction false} LinkedAfter<O>(es: seq<Entry<O>>, i: nat, lno: int)
    requires i < |es| && (forall j :: 0 <= j <= i ==> es[j].lno < lno) && (i + 1 < |es| ==> es[i + 1].lno >= lno)
    ensures Below(es, lno) == i + 1
    decreases i
  {
    if i > 0 {
      LinkedAfter(es[1..], i - 1, lno);
    }
  }

  lemma LinkedPost<O>(es: seq<Entry<O>>, i: nat, e: Entry<O>, post: seq<Entry<O>>, high: int)
    requires Apart(es, i, e.lno, high) && |post| <= 1 && (post != [] ==> e.lno < post[0].lno < high)
    ensures (if post != [] then Linked(es[i := e], post[0]) else es[i := e]) == Inserted(es[i := e], i + 1, post)
  {
    if post != [] {
      LinkedAfter(es[i := e], i, post[0].lno);
      assert [post[0]] == post;
    } else {
      NoneInserted(es[i := e], i + 1);
    }
  }

  lemma NoneInserted<O>(es: seq<Entry<O>>, k: nat)
    requires k <= |es|
    ensures Inserted(es, k, []) == es
  {}

  lemma LinkedMid<O>(es: seq<Entry<O>>, i: nat, e: Entry<O>, post: seq<Entry<O>>, mid: Entry<O>, high: int)
    requires Apart(es, i, e.lno, high) && |post| <= 1 && e.lno < mid.lno < high && (post != [] ==> mid.lno < post[0].lno)
    ensures var two := Inserted(es[i := e], i + 1, post); Linked(two, mid) == Inserted(two, i + 1, [mid])
  {
    LinkedAfter(Inserted(es[i := e], i + 1, post), i, mid.lno);
  }

  lemma LinkedParts<O>(es: seq<Entry<O>>, i: nat, s: Split<O>)
    requires i < |es| && InOrder(s, es[i]) && Apart(es, i, es[i].lno, es[i].lno + es[i].num)
    ensures var one := es[i := if s.pre != [] then s.pre[0] else s.mid];
            var two := if s.post != [] then Linked(one, s.post[0]) else one;
            (if s.pre != [] then Linked(two, s.mid) else two) == Replaced(es, i, Parts(s))
  {
    var high := es[i].lno + es[i].num;
    Assembled(es, i, s);
    if s.pre != [] {
      LinkedPost(es, i, s.pre[0], s.post, high);
      LinkedMid(es, i, s.pre[0], s.post, s.mid, high);
    } else {
      LinkedPost(es, i, s.mid, s.post, high);
    }
  }

  lemma Assembled<O>(es: seq<Entry<O>>, i: nat, s: Split<O>)
    requires i < |es| && s.Split? && |s.pre| <= 1 && |s.post| <= 1
    ensures var one := es[i := if s.pre != [] then s.pre[0] else s.mid];
            var two := Inserted(one, i + 1, s.post);
            (if s.pre != [] then Inserted(two, i + 1, [s.mid]) else two) == Replaced(es, i, Parts(s))
  {}

  /** The parts of a split lie within the group, one after the other. */
  ghost predicate InOrder<O>(s: Split<O>, e: Entry<O>) {
    && s.Split? && |s.pre| <= 1 && |s.post| <= 1
    && e.lno <= s.mid.lno < e.lno + e.num
    && (s.pre != [] ==> e.lno == s.pre[0].lno < s.mid.lno)
    && (s.pre == [] ==> e.lno == s.mid.lno)
    && (s.post != [] ==> s.mid.lno < s.post[0].lno < e.lno + e.num)
  }

  lemma Unsplit<O>(c: Chunk<O>, e: Entry<O>)
    requires Passed(c, e) || SplitOverlap(e, c).NoSplit?
    requires !e.guilty ==> !e.boundary
    ensures Settled(c, EntryLines(e))
  {
    if Passed(c, e) {
      PassedSettled(c, e);
    } else {
      SplitMoves(e, c);
    }
  }

  /** A split can be linked in, keeps the walk on its way and leaves less open. */
  lemma SplitTurn<O>(c: Chunk<O>, v0: seq<Line<O>>, es: seq<Entry<O>>, i: nat, lo: int, left: nat, rank: O -> nat)
    requires Underway(c, v0, es, i, lo, left) && i < |es| && !Passed(c, es[i]) && rank(c.parent) < rank(c.target)
    requires SplitOverlap(es[i], c).Split?
    ensures Apart(es, i, es[i].lno, es[i].lno + es[i].num) && InOrder(SplitOverlap(es[i], c), es[i])
    ensures var ps := Parts(SplitOverlap(es[i], c));
            && 0 < Count(ps[0]) <= left && Underway(c, v0, Replaced(es, i, ps), i + 1, lo, left - Count(ps[0]))
            && Cost(rank, Replaced(es, i, ps)) < Cost(rank, es)
  {
    UnderwaySplit(c, v0, es, i, lo, left);
    SplitApart(c, es, i, lo);
    SplitLess(c, es, i, rank);
  }

  lemma SplitApart<O>(c: Chunk<O>, es: seq<Entry<O>>, i: nat, lo: int)
    requires Partition(es, lo) && i < |es| && SplitOverlap(es[i], c).Split?
    ensures Apart(es, i, es[i].lno, es[i].lno + es[i].num) && InOrder(SplitOverlap(es[i], c), es[i])
  {
    if |es| > 1 {
      PartitionApart(es, lo, i);
    }
  }

  lemma SplitLess<O>(c: Chunk<O>, es: seq<Entry<O>>, i: nat, rank: O -> nat)
    requires i < |es| && !Passed(c, es[i]) && rank(c.parent) < rank(c.target) && SplitOverlap(es[i], c).Split?
    ensures Cost(rank, Replaced(es, i, Parts(SplitOverlap(es[i], c)))) < Cost(rank, es)
  {
    var ps := Parts(SplitOverlap(es[i], c));
    Around(es, i);
    ReplaceCost(rank, es[..i], [es[i]], es[i + 1..]);
    ReplaceCost(rank, es[..i], ps, es[i + 1..]);
    SplitCost(rank, es[i], c);
  }
}
