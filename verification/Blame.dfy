/** Passing blame from commit to parent until every line is settled. */
module Blame {
  import opened Common
  import opened LineDiff
  import opened Scoreboard
  import opened ScoreboardList
  import opened BlameRules
  import opened BlameChoice
  import opened BlameTrack
  import opened Sequences

  /** Nothing more is open, and less is if the suspect has got rid of all it was open for. */
  ghost predicate Less(rank: Origin -> nat, before: seq<Entry<Origin>>, after: seq<Entry<Origin>>, o: Origin) {
    && Cost(rank, after) <= Cost(rank, before)
    && (Suspected(before, o) ==> Suspected(after, o) || Cost(rank, after) < Cost(rank, before))
  }

  class Blamer<P(!new)> {
    const h: History<P>
    const board: Board<Origin>
    var oldest: Option<nat>
    var paths: P

    constructor (h: History<P>, board: Board<Origin>, oldest: Option<nat>, paths: P)
      ensures this.h == h && this.board == board && this.oldest == oldest && this.paths == paths
    {
      this.h := h;
      this.board := board;
      this.oldest := oldest;
      this.paths := paths;
    }

    /** Hands over the lines before each change of the script. */
    method Emit(script: seq<Change>, target: Origin, parent: Origin, ghost a: seq<bytes>, ghost b: seq<bytes>,
                ghost last: int, ghost lo: int, ghost rank: Origin -> nat)
      returns (plno: nat, tlno: nat)
      requires Correct(a, b, script, 0, 0) && rank(parent) < rank(target)
      requires Orderly(board.ent, lo) && Ends(View(board.ent), target, last)
      modifies board
      ensures Orderly(board.ent, lo) && Ends(View(board.ent), target, last)
      ensures Map(Rest([], plno, tlno, target, parent), View(board.ent)) ==
              Map(Rest(script, 0, 0, target, parent), View(old(board.ent)))
      ensures NoDearer(rank, old(board.ent), board.ent)
    {
      plno, tlno := 0, 0;
      var xch := script;
      ghost var goal := Map(Rest(script, 0, 0, target, parent), View(board.ent));
      while xch != []
        invariant Orderly(board.ent, lo) && NoDearer(rank, old(board.ent), board.ent)
        invariant Emitting(a, b, xch, plno, tlno, target, parent, View(board.ent), last, goal)
        decreases |xch|
      {
        ghost var es := board.ent;
        var c := xch[0];
        board.BlameChunk(Chunk(tlno, plno, c.i2, target, parent), lo, rank);
        EmittingNext(a, b, xch, plno, tlno, target, parent, View(es), View(board.ent), last, goal);
        plno, tlno := c.i1 + c.chg1, c.i2 + c.chg2;
        xch := xch[1..];
      }
    }

    /** Compares the two files and hands over the lines they share. */
    method PassBlameToParent(target: Origin, parent: Origin, ghost lo: int, ghost rank: nat -> nat) returns (nothing: bool)
      requires WellFormed(h, rank) && rank(parent.commit) < rank(target.commit)
      requires Orderly(board.ent, lo) && Natural(View(board.ent))
      modifies board
      ensures Orderly(board.ent, lo)
      ensures View(board.ent) == Map(Offer(h, target, parent), View(old(board.ent)))
      ensures nothing ==> board.ent == old(board.ent) && Ends(View(board.ent), target, 0)
      ensures NoDearer(RankOf(rank), old(board.ent), board.ent)
    {
      var last := board.FindLastInTarget(target);
      EntriesEnd(board.ent, target, last);
      if last < 0 {
        OfferNone(h, target, parent, View(board.ent), last);
        return true;
      }
      nothing := false;
      var plno, tlno := DiffHunks(target, parent, last, lo, rank);
      RestLast(plno, tlno, target, parent, View(board.ent), last);
      board.BlameChunk(Chunk(tlno, plno, last, target, parent), lo, RankOf(rank));
    }

    /** Follows the script between the two files, without their common tail. */
    method DiffHunks(target: Origin, parent: Origin, ghost last: int, ghost lo: int, ghost rank: nat -> nat)
      returns (plno: nat, tlno: nat)
      requires WellFormed(h, rank) && rank(parent.commit) < rank(target.commit)
      requires Orderly(board.ent, lo) && Natural(View(board.ent)) && Ends(View(board.ent), target, last)
      modifies board
      ensures Orderly(board.ent, lo) && Ends(View(board.ent), target, last)
      ensures Map(Rest([], plno, tlno, target, parent), View(board.ent)) ==
              Map(Offer(h, target, parent), View(old(board.ent)))
      ensures NoDearer(RankOf(rank), old(board.ent), board.ent)
    {
      var a, b := h.content(parent), h.content(target);
      var n := TrimCommonTail(a, b);
      RestAll(h, target, parent, View(board.ent));
      a, b := a[..|a| - n], b[..|b| - n];
      assert CorrectFor(h.script, a, b);
      plno, tlno := Emit(h.script(a, b), target, parent, Lines(a), Lines(b), last, lo, RankOf(rank));
    }

    method SeenBefore(seen: seq<Origin>, q: Origin) returns (same: bool)
      ensures same <==> SameAsOne(h, seen, q)
    {
      for j := 0 to |seen|
        invariant forall k :: 0 <= k < j ==> h.content(seen[k]) != h.content(q)
      {
        if h.content(seen[j]) == h.content(q) {
          return true;
        }
      }
      same := false;
    }

    /** Looks the file up in each parent. */
    method FindOrigins(o: Origin, ghost rank: nat -> nat) returns (c: Choice)
      requires WellFormed(h, rank)
      modifies this`paths
      ensures Chosen(c, paths) == Choose(h, old(paths), h.parents(o.commit), o, [])
      ensures ChoiceWithin(c, h.parents(o.commit)) && Rightly(h, old(paths), o, c)
    {
      ChoiceRight(h, paths, o);
      var ps := h.parents(o.commit);
      var seen: seq<Origin> := [];
      for i := 0 to |ps|
        invariant Choose(h, old(paths), ps, o, []) == Choose(h, paths, ps[i..], o, seen)
        invariant Within(seen, ps)
      {
        var f := h.find(paths, ps[i], o);
        paths := f.paths;
        if f.origin.Some? {
          var q := f.origin.value;
          if h.content(q) == h.content(o) {
            return Whole(q);
          }
          var same := SeenBefore(seen, q);
          if !same {
            seen := seen + [q];
          }
        }
      }
      c := Among(seen);
    }

    /** Hands over to the parents what can be handed over. */
    method PassBlame(o: Origin, ghost lo: int, ghost rank: nat -> nat)
      requires WellFormed(h, rank) && Orderly(board.ent, lo) && Natural(View(board.ent))
      modifies this, board
      ensures Orderly(board.ent, lo) && Less(RankOf(rank), old(board.ent), board.ent, o)
      ensures Stops(h, old(oldest), o) ==> oldest == Some(o.commit) && paths == old(paths) && board.ent == old(board.ent)
      ensures !Stops(h, old(oldest), o) ==> oldest == old(oldest)
      ensures !Stops(h, old(oldest), o) ==>
                var c := Choose(h, old(paths), h.parents(o.commit), o, []);
                paths == c.paths && View(board.ent) == Map(Hand(h, o, c.choice), View(old(board.ent)))
      ensures !Stops(h, old(oldest), o) ==> AllPass(h, old(paths), o, View(old(board.ent)), View(board.ent))
    {
      MapPasses(h, paths, o, View(board.ent));
      if Stops(h, oldest, o) {
        oldest := Some(o.commit);
        return;
      }
      var c := FindOrigins(o, rank);
      match c
      case Whole(q) =>
        board.PassWholeBlame(o, q, lo, RankOf(rank));
      case Among(os) =>
        OfferInTurn(o, os, lo, rank);
    }

    method OfferInTurn(o: Origin, os: seq<Origin>, ghost lo: int, ghost rank: nat -> nat)
      requires WellFormed(h, rank) && Orderly(board.ent, lo) && Natural(View(board.ent))
      requires Within(os, h.parents(o.commit))
      modifies board
      ensures Orderly(board.ent, lo) && NoDearer(RankOf(rank), old(board.ent), board.ent)
      ensures View(board.ent) == Map(Hand(h, o, Among(os)), View(old(board.ent)))
    {
      var rest := os;
      ghost var goal := Map(Hand(h, o, Among(os)), View(board.ent));
      while rest != []
        invariant Within(rest, h.parents(o.commit))
        invariant Orderly(board.ent, lo) && NoDearer(RankOf(rank), old(board.ent), board.ent)
        invariant Natural(View(board.ent)) && Map(Hand(h, o, Among(rest)), View(board.ent)) == goal
        decreases |rest|
      {
        ParentRank(h, rank, o, rest[0]);
        HandNext(h, o, rest, View(board.ent));
        OfferNatural(h, rank, o, rest[0], View(board.ent));
        var nothing := PassBlameToParent(o, rest[0], lo, rank);
        rest := rest[1..];
        if nothing {
          HandNone(h, o, rest, View(board.ent));
          return;
        }
      }
      HandNone(h, o, [], View(board.ent));
    }

    /** A suspect passes on what it can and takes the rest. */
    method Round(o: Origin, ghost final: seq<bytes>, ghost lo: int, ghost rank: nat -> nat)
      requires WellFormed(h, rank) && Orderly(board.ent, lo) && AllRead(h, final, lo, View(board.ent))
      modifies this, board
      ensures Orderly(board.ent, lo) && AllRead(h, final, lo, View(board.ent))
      ensures |View(board.ent)| == |View(old(board.ent))|
      ensures Suspected(old(board.ent), o) ==> Cost(RankOf(rank), board.ent) < Cost(RankOf(rank), old(board.ent))
      ensures oldest == OldestAfter(h, old(oldest), o) && paths == PathsAfter(h, old(paths), old(oldest), o)
      ensures View(board.ent) == AfterRound(h, old(paths), old(oldest), o, View(old(board.ent)))
    {
      ghost var v := View(board.ent);
      RoundReads(h, rank, final, lo, paths, o, v);
      RoundLines(h, oldest, paths, o, v);
      PassBlame(o, lo, rank);
      OwnReads(h, final, lo, o, oldest == Some(o.commit), View(board.ent));
      board.TakeBlame(o, oldest == Some(o.commit), lo, RankOf(rank));
    }

    /** The whole search: as long as some line is not settled, the first such line's suspect has its round. */
    method LikeGit(ghost final: seq<bytes>, ghost w: Verdicts<P>, ghost lo: int, ghost rank: nat -> nat)
      requires WellFormed(h, rank) && Orderly(board.ent, lo) && AllRead(h, final, lo, View(board.ent))
      modifies this, board
      ensures Orderly(board.ent, lo) && AllRead(h, final, lo, View(board.ent))
      ensures |View(board.ent)| == |View(old(board.ent))|
      ensures forall i :: 0 <= i < |board.ent| ==> board.ent[i].guilty
      ensures EndsSo(h, rank, w, old(oldest), View(old(board.ent)), View(board.ent))
      ensures exists n: nat :: View(board.ent) == Rounds(h, Search(View(old(board.ent)), old(oldest), old(paths)), n).lines
    {
      ghost var m := Search(View(board.ent), oldest, paths);
      ghost var n: nat := 0;
      while true
        invariant Orderly(board.ent, lo) && AllRead(h, final, lo, View(board.ent))
        invariant |View(board.ent)| == |View(old(board.ent))|
        invariant Follows(h, rank, w, old(oldest), View(old(board.ent)), oldest, View(board.ent))
        invariant StandsAt(h, m, n, View(board.ent), oldest, paths)
        decreases Cost(RankOf(rank), board.ent)
      {
        var k := board.FindSuspect();
        if k == |board.ent| {
          break;
        }
        assert Accuses(board.ent[k], board.ent[k].suspect);
        FirstOpenView(board.ent, lo, k);
        RoundFollows(h, rank, w, old(oldest), View(old(board.ent)), oldest, board.ent[k].suspect, View(board.ent));
        StandsNext(h, m, n, View(board.ent), oldest, paths, board.ent[k].suspect);
        if Stateless(h) {
          RoundStateless(h, paths, w.paths, oldest, board.ent[k].suspect, View(board.ent));
        }
        Round(board.ent[k].suspect, final, lo, rank);
        n := n + 1;
      }
      GuiltyView(board.ent);
      AllSettled(h, rank, w, old(oldest), View(old(board.ent)), oldest, View(board.ent));
    }
  }

  /** Each line goes where the parents say. */
  ghost predicate AllPass<P>(h: History<P>, s: P, o: Origin, v: seq<Line<Origin>>, w: seq<Line<Origin>>) {
    |w| == |v| && forall i :: 0 <= i < |v| ==> PassesTo(h, s, o, v[i], w[i])
  }

  lemma MapPasses<P>(h: History<P>, s: P, o: Origin, v: seq<Line<Origin>>)
    ensures AllPass(h, s, o, v, Map(Hand(h, o, Choose(h, s, h.parents(o.commit), o, []).choice), v))
  {
    forall i | 0 <= i < |v| ensures PassesTo(h, s, o, v[i], HandLine(h, o, ChoiceFor(h, s, o), v[i])) {
      HandMeans(h, s, o, v[i]);
    }
  }

  /** Every line reads, in its suspect's file, as in the final file. */
  ghost predicate AllRead<P>(h: History<P>, final: seq<bytes>, lo: int, v: seq<Line<Origin>>) {
    forall i :: 0 <= i < |v| ==> Reads(h, final, lo + i, v[i])
  }

  lemma ParentRank<P(!new)>(h: History<P>, rank: nat -> nat, o: Origin, q: Origin)
    requires WellFormed(h, rank) && q.commit in h.parents(o.commit)
    ensures rank(q.commit) < rank(o.commit) && q != o
  {}

  lemma RoundReads<P(!new)>(h: History<P>, rank: nat -> nat, final: seq<bytes>, lo: int, s: P, o: Origin, v: seq<Line<Origin>>)
    requires WellFormed(h, rank) && AllRead(h, final, lo, v)
    ensures Natural(v) && AllRead(h, final, lo, Map(Hand(h, o, Choose(h, s, h.parents(o.commit), o, []).choice), v))
  {
    var ps := h.parents(o.commit);
    var c := Choose(h, s, ps, o, []).choice;
    assert ps[0..] == ps;
    ChooseWithin(h, rank, s, ps, 0, o, []);
    forall i | 0 <= i < |v| ensures Reads(h, final, lo + i, HandLine(h, o, c, v[i])) {
      HandReads(h, rank, final, lo + i, o, c, ps, v[i]);
    }
  }

  lemma OwnReads<P>(h: History<P>, final: seq<bytes>, lo: int, o: Origin, b: bool, v: seq<Line<Origin>>)
    requires AllRead(h, final, lo, v)
    ensures AllRead(h, final, lo, Map(Own(o, b), v))
  {}

  /** What a round does to the list it does to each line. */
  lemma RoundLines<P>(h: History<P>, oldest: Option<nat>, s: P, o: Origin, v: seq<Line<Origin>>)
    ensures Stops(h, oldest, o) ==> Map(Own(o, true), v) == AfterRound(h, s, oldest, o, v)
    ensures !Stops(h, oldest, o) ==>
              Map(Own(o, false), Map(Hand(h, o, Choose(h, s, h.parents(o.commit), o, []).choice), v)) == AfterRound(h, s, oldest, o, v)
  {}

  lemma {:induction false} GuiltyView(es: seq<Entry<Origin>>)
    requires forall i :: 0 <= i < |es| ==> es[i].guilty
    ensures forall i :: 0 <= i < |View(es)| ==> View(es)[i].guilty
  {
    if es != [] {
      GuiltyView(es[1..]);
    }
  }

  /** The first group that is not settled has the first line that is not. */
  lemma FirstOpenView(es: seq<Entry<Origin>>, lo: int, k: nat)
    requires Partition(es, lo) && k < |es| && !es[k].guilty && forall i :: 0 <= i < k ==> es[i].guilty
    ensures FirstOpen(View(es), es[k].suspect)
  {
    var a, c := es[..k], es[k + 1..];
    Around(es, k);
    ViewConcat(a + [es[k]], c);
    ViewConcat(a, [es[k]]);
    ViewSingle(es[k]);
    GuiltyView(a);
    if Count(es[k]) > 0 {
      assert View(es)[|View(a)|] == EntryLines(es[k])[0];
      assert forall i :: 0 <= i < |View(a)| ==> View(es)[i] == View(a)[i];
      assert Settles(View(es), |View(a)|);
    }
  }

  lemma OfferNatural<P(!new)>(h: History<P>, rank: nat -> nat, target: Origin, parent: Origin, v: seq<Line<Origin>>)
    requires WellFormed(h, rank) && Natural(v)
    ensures Natural(Map(Offer(h, target, parent), v))
  {
    forall i | 0 <= i < |v| ensures OfferLine(h, target, parent, v[i]).lno >= 0 {
      OriginText(h.script, h.content(parent), h.content(target), v[i].lno);
    }
  }

  /** The file's own lines to begin with. */
  lemma Start<P(!new)>(h: History<P>, o: Origin, lo: nat, num: int)
    ensures var es := [Entry(lo, num, o, false, lo, false)];
            && Orderly(es, lo) && |View(es)| == (if num > 0 then num else 0)
            && AllRead(h, Lines(h.content(o)), lo, View(es))
            && Begun(o, lo, View(es))
  {
    ViewSingle(Entry(lo, num, o, false, lo, false));
  }

  /** Blames `num` lines of a file from line `lo` on. */
  method BlameLines<P(!new)>(h: History<P>, o: Origin, lo: nat, num: int, oldest: Option<nat>, paths: P, ghost rank: nat -> nat)
    returns (hunks: seq<Entry<Origin>>)
    requires WellFormed(h, rank)
    ensures Orderly(hunks, lo) && forall i :: 0 <= i < |hunks| ==> hunks[i].guilty
    ensures |View(hunks)| == if num > 0 then num else 0
    ensures AllRead(h, Lines(h.content(o)), lo, View(hunks))
    ensures Stateless(h) ==> ComesTo(h, rank, paths, oldest, o, lo, View(hunks))
    ensures FoundBy(h, oldest, paths, o, lo, View(hunks))
  {
    var e := Entry(lo, num, o, false, lo, false);
    var board := new Board<Origin>(e);
    var blamer := new Blamer<P>(h, board, oldest, paths);
    ghost var v := View([e]);
    Start(h, o, lo, num);
    blamer.LikeGit(Lines(h.content(o)), Due(h, rank, paths, oldest, o, lo, |v|), lo, rank);
    hunks := board.ent;
    FoundFrom(h, oldest, paths, o, lo, v, View(hunks));
    if Stateless(h) {
      EndsDue(h, rank, paths, oldest, o, lo, v, View(hunks));
    }
  }

  /**
   * Blames the lines `minLine` to `maxLine` of a file, counted from 1, or to
   * its end if `maxLine` is 0.
   */
  method BlameFile<P(!new)>(h: History<P>, o: Origin, minLine: nat, maxLine: nat, oldest: Option<nat>, paths: P, ghost rank: nat -> nat)
    returns (hunks: seq<Entry<Origin>>)
    requires WellFormed(h, rank) && minLine >= 1
    ensures Partition(hunks, minLine - 1) && forall i :: 0 <= i < |hunks| ==> hunks[i].guilty
    ensures 1 <= maxLine < minLine ==> |View(hunks)| == 0
    ensures minLine <= maxLine ==> |View(hunks)| == maxLine - minLine + 1
    ensures maxLine == 0 && minLine <= |Lines(h.content(o))| ==> minLine - 1 + |View(hunks)| == |Lines(h.content(o))|
    ensures maxLine == 0 && minLine > |Lines(h.content(o))| ==> |View(hunks)| == 0
    ensures AllRead(h, Lines(h.content(o)), minLine - 1, View(hunks))
    ensures Stateless(h) ==> ComesTo(h, rank, paths, oldest, o, minLine - 1, View(hunks))
    ensures FoundBy(h, oldest, paths, o, minLine - 1, View(hunks))
  {
    var num: int := CountLines(h.content(o));
    num := num - minLine + 1;
    if maxLine > 0 {
      num := maxLine - minLine + 1;
    }
    hunks := BlameLines(h, o, minLine - 1, num, oldest, paths, rank);
  }
}
