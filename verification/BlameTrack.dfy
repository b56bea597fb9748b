/**
 * Whether a search comes to the verdicts on its lines. It does unless the
 * oldest commit it was given is replaced by a commit without parents while a
 * line is still on its way to the oldest.
 */
module BlameTrack {
  import opened Common
  import opened Scoreboard
  import opened BlameRules

  /** What the lines should come to, judged with some paths known, and what they come to if the search does not stop at the oldest commit. */
  datatype Verdicts<P> = Verdicts(paths: P, oldest: Option<nat>, lines: seq<Line<Origin>>, past: seq<Line<Origin>>)

  /** The suspect is that of the first line that is not settled. */
  ghost predicate FirstOpen(v: seq<Line<Origin>>, o: Origin) {
    v == [] || exists k :: 0 <= k < |v| && OpenFor(v[k], o) && Settles(v, k)
  }

  ghost predicate Settles(v: seq<Line<Origin>>, k: nat) { k <= |v| && forall i :: 0 <= i < k ==> v[i].guilty }

  ghost predicate Rooted<P>(h: History<P>, oldest: Option<nat>) { oldest.Some? && h.parents(oldest.value) == [] }

  ghost predicate AllHead<P(!new)>(h: History<P>, rank: nat -> nat, w: Verdicts<P>, v: seq<Line<Origin>>)
    requires WellFormed(h, rank)
  {
    |w.lines| == |v| && forall i :: 0 <= i < |v| ==> Heads(h, rank, w.paths, w.oldest, v[i], w.lines[i])
  }

  /** All lines that go back to the oldest commit are settled. */
  ghost predicate OldestSettled<P>(h: History<P>, w: Verdicts<P>, v: seq<Line<Origin>>) {
    |w.lines| == |v| && forall i :: 0 <= i < |v| && OldestLine(h, w.oldest, w.lines[i]) ==> v[i].guilty
  }

  /** Every line heads for its verdict, and the oldest commit is the one given unless that matters no more. */
  ghost predicate OnTrack<P(!new)>(h: History<P>, rank: nat -> nat, w: Verdicts<P>, oldest: Option<nat>, v: seq<Line<Origin>>)
    requires WellFormed(h, rank)
  {
    && Stateless(h) && RootsLast(h, w.oldest, w.lines) && AllHead(h, rank, w, v)
    && (oldest == w.oldest || (Rooted(h, oldest) && OldestSettled(h, w, v)))
  }

  /** Line `i` will replace the oldest commit before line `j` comes to it, or has done so; line `j` heads past it. */
  ghost predicate Misled<P(!new)>(h: History<P>, rank: nat -> nat, w: Verdicts<P>, oldest: Option<nat>, v: seq<Line<Origin>>, i: nat, j: nat)
    requires WellFormed(h, rank)
  {
    && Stateless(h) && RootFirstAt(h, w.oldest, w.lines, i, j) && |w.lines| == |w.past| == |v|
    && w.past[j] != w.lines[j] && Heads(h, rank, w.paths, None, v[j], w.past[j])
    && ((oldest == w.oldest && AllHead(h, rank, w, v) && !v[i].guilty && !v[j].guilty) || Rooted(h, oldest))
  }

  /** The lines after a round. */
  ghost function AfterRound<P>(h: History<P>, s: P, oldest: Option<nat>, o: Origin, v: seq<Line<Origin>>): (r: seq<Line<Origin>>)
    ensures |r| == |v|
    ensures forall i :: 0 <= i < |v| ==> r[i] == RoundLine(h, s, Stops(h, oldest, o), o, v[i])
  {
    seq(|v|, i requires 0 <= i < |v| => RoundLine(h, s, Stops(h, oldest, o), o, v[i]))
  }

  function OldestAfter<P>(h: History<P>, oldest: Option<nat>, o: Origin): Option<nat> {
    if Stops(h, oldest, o) then Some(o.commit) else oldest
  }

  /** A suspect with an open line is not the oldest commit given if all lines that go there are settled. */
  lemma NotThere<P(!new)>(h: History<P>, rank: nat -> nat, w: Verdicts<P>, o: Origin, v: seq<Line<Origin>>, k: nat)
    requires WellFormed(h, rank) && AllHead(h, rank, w, v) && k < |v| && OpenFor(v[k], o)
    requires !OldestLine(h, w.oldest, w.lines[k])
    ensures w.oldest == Some(o.commit) ==> h.parents(o.commit) == []
    ensures h.parents(o.commit) == [] ==> RootLine(h, w.lines[k]) && w.lines[k].suspect == o
  {
    assert Heads(h, rank, w.paths, w.oldest, v[k], w.lines[k]);
  }

  lemma AllHeadRound<P(!new)>(h: History<P>, rank: nat -> nat, w: Verdicts<P>, oldest: Option<nat>, o: Origin, v: seq<Line<Origin>>)
    requires WellFormed(h, rank) && AllHead(h, rank, w, v) && (Stops(h, oldest, o) <==> Stops(h, w.oldest, o))
    ensures AllHead(h, rank, w, AfterRound(h, w.paths, oldest, o, v))
  {
    forall i | 0 <= i < |v|
      ensures Heads(h, rank, w.paths, w.oldest, AfterRound(h, w.paths, oldest, o, v)[i], w.lines[i])
    {
      RoundHeads(h, rank, w.paths, w.oldest, o, v[i], w.lines[i]);
    }
  }

  /** Settled lines stay settled. */
  lemma SettledStay<P>(h: History<P>, w: Verdicts<P>, oldest: Option<nat>, o: Origin, v: seq<Line<Origin>>)
    requires OldestSettled(h, w, v)
    ensures OldestSettled(h, w, AfterRound(h, w.paths, oldest, o, v))
  {}

  /** A round of the first open line keeps the search on track. */
  lemma RoundOnTrack<P(!new)>(h: History<P>, rank: nat -> nat, w: Verdicts<P>, oldest: Option<nat>, o: Origin, v: seq<Line<Origin>>)
    requires WellFormed(h, rank) && OnTrack(h, rank, w, oldest, v) && FirstOpen(v, o)
    ensures OnTrack(h, rank, w, OldestAfter(h, oldest, o), AfterRound(h, w.paths, oldest, o, v))
  {
    if v != [] {
      var k: nat :| k < |v| && OpenFor(v[k], o) && Settles(v, k);
      if oldest == w.oldest && h.parents(o.commit) == [] && w.oldest != Some(o.commit) {
        assert Heads(h, rank, w.paths, w.oldest, v[k], w.lines[k]);
        assert RootLine(h, w.lines[k]);
        assert OldestSettled(h, w, v);
      } else if oldest != w.oldest {
        NotThere(h, rank, w, o, v, k);
      }
      AllHeadRound(h, rank, w, oldest, o, v);
      if OldestSettled(h, w, v) {
        SettledStay(h, w, oldest, o, v);
      }
    }
  }

  /** A line that is to go further stays open. */
  lemma StaysOpen<P(!new)>(h: History<P>, rank: nat -> nat, w: Verdicts<P>, oldest: Option<nat>, o: Origin, v: seq<Line<Origin>>, i: nat)
    requires WellFormed(h, rank) && AllHead(h, rank, w, AfterRound(h, w.paths, oldest, o, v)) && i < |v| && !v[i].guilty
    requires w.lines[i].suspect != o
    ensures !AfterRound(h, w.paths, oldest, o, v)[i].guilty
  {
    assert Heads(h, rank, w.paths, w.oldest, AfterRound(h, w.paths, oldest, o, v)[i], w.lines[i]);
  }

  /** A round of the first open line does not bring a misled search back. */
  lemma RoundMisled<P(!new)>(h: History<P>, rank: nat -> nat, w: Verdicts<P>, oldest: Option<nat>, o: Origin,
                             v: seq<Line<Origin>>, i: nat, j: nat)
    requires WellFormed(h, rank) && Misled(h, rank, w, oldest, v, i, j) && FirstOpen(v, o)
    ensures Misled(h, rank, w, OldestAfter(h, oldest, o), AfterRound(h, w.paths, oldest, o, v), i, j)
  {
    var k: nat :| k < |v| && OpenFor(v[k], o) && Settles(v, k);
    RoundHeads(h, rank, w.paths, None, o, v[j], w.past[j]);
    if !Rooted(h, oldest) {
      NotThere(h, rank, w, o, v, k);
      AllHeadRound(h, rank, w, oldest, o, v);
      StaysOpen(h, rank, w, oldest, o, v, j);
      if h.parents(o.commit) != [] {
        StaysOpen(h, rank, w, oldest, o, v, i);
      }
    }
  }

  /** A search that began on track has come to the verdicts, and lines that were misled have gone past the oldest commit. */
  ghost predicate EndsSo<P(!new)>(h: History<P>, rank: nat -> nat, w: Verdicts<P>, oldest0: Option<nat>, v0: seq<Line<Origin>>, v: seq<Line<Origin>>)
    requires WellFormed(h, rank)
  {
    && (OnTrack(h, rank, w, oldest0, v0) ==> v == w.lines)
    && (forall i: nat, j: nat :: Misled(h, rank, w, oldest0, v0, i, j) ==> |v| == |w.past| && v[j] == w.past[j] != w.lines[j])
  }

  /** With every line settled, a search on track has come to the verdicts, and a misled line has gone past the oldest commit. */
  lemma AllSettled<P(!new)>(h: History<P>, rank: nat -> nat, w: Verdicts<P>, oldest0: Option<nat>, v0: seq<Line<Origin>>,
                            oldest: Option<nat>, v: seq<Line<Origin>>)
    requires WellFormed(h, rank) && Follows(h, rank, w, oldest0, v0, oldest, v) && forall i :: 0 <= i < |v| ==> v[i].guilty
    ensures EndsSo(h, rank, w, oldest0, v0, v)
  {
    if OnTrack(h, rank, w, oldest, v) {
      forall i | 0 <= i < |v| ensures v[i] == w.lines[i] {
        assert Heads(h, rank, w.paths, w.oldest, v[i], w.lines[i]);
      }
    }
  }

  /** A search that began on track is, and lines that were misled then still are. */
  ghost predicate Follows<P(!new)>(h: History<P>, rank: nat -> nat, w: Verdicts<P>, oldest0: Option<nat>, v0: seq<Line<Origin>>,
                                   oldest: Option<nat>, v: seq<Line<Origin>>)
    requires WellFormed(h, rank)
  {
    && (OnTrack(h, rank, w, oldest0, v0) ==> OnTrack(h, rank, w, oldest, v))
    && (forall i: nat, j: nat :: Misled(h, rank, w, oldest0, v0, i, j) ==> Misled(h, rank, w, oldest, v, i, j))
  }

  lemma RoundFollows<P(!new)>(h: History<P>, rank: nat -> nat, w: Verdicts<P>, oldest0: Option<nat>, v0: seq<Line<Origin>>,
                              oldest: Option<nat>, o: Origin, v: seq<Line<Origin>>)
    requires WellFormed(h, rank) && Follows(h, rank, w, oldest0, v0, oldest, v) && FirstOpen(v, o)
    ensures Follows(h, rank, w, oldest0, v0, OldestAfter(h, oldest, o), AfterRound(h, w.paths, oldest, o, v))
  {
    if OnTrack(h, rank, w, oldest0, v0) {
      RoundOnTrack(h, rank, w, oldest, o, v);
    }
    forall i: nat, j: nat | Misled(h, rank, w, oldest0, v0, i, j)
      ensures Misled(h, rank, w, OldestAfter(h, oldest, o), AfterRound(h, w.paths, oldest, o, v), i, j)
    {
      RoundMisled(h, rank, w, oldest, o, v, i, j);
    }
  }

  // ----- the search, line by line -----

  /** The lines, the oldest commit as it stands, and the paths known. */
  datatype Search<P> = Search(lines: seq<Line<Origin>>, oldest: Option<nat>, paths: P)

  /** The first line that is not settled, or the number of lines. */
  function FirstUnsettled(v: seq<Line<Origin>>): (k: nat)
    ensures k <= |v| && (k < |v| ==> !v[k].guilty) && forall i :: 0 <= i < k ==> v[i].guilty
  {
    if v == [] || !v[0].guilty then 0 else 1 + FirstUnsettled(v[1..])
  }

  ghost function PathsAfter<P>(h: History<P>, s: P, oldest: Option<nat>, o: Origin): P {
    if Stops(h, oldest, o) then s else Choose(h, s, h.parents(o.commit), o, []).paths
  }

  /** The suspect of the first line that is not settled has its round. */
  ghost function NextRound<P>(h: History<P>, m: Search<P>): Search<P> {
    var k := FirstUnsettled(m.lines);
    if k == |m.lines| then m
    else
      var o := m.lines[k].suspect;
      Search(AfterRound(h, m.paths, m.oldest, o, m.lines), OldestAfter(h, m.oldest, o), PathsAfter(h, m.paths, m.oldest, o))
  }

  ghost function Rounds<P>(h: History<P>, m: Search<P>, n: nat): Search<P> {
    if n == 0 then m else NextRound(h, Rounds(h, m, n - 1))
  }

  ghost predicate AllGuilty(v: seq<Line<Origin>>) { forall i :: 0 <= i < |v| ==> v[i].guilty }

  lemma NothingLeft<P>(h: History<P>, m: Search<P>)
    requires AllGuilty(m.lines)
    ensures NextRound(h, m) == m
  {}

  lemma {:induction false} StaysSettled<P>(h: History<P>, m: Search<P>, n: nat, k: nat)
    requires n <= k && AllGuilty(Rounds(h, m, n).lines)
    ensures Rounds(h, m, k) == Rounds(h, m, n)
    decreases k
  {
    if n < k {
      StaysSettled(h, m, n, k - 1);
      NothingLeft(h, Rounds(h, m, n));
    }
  }

  /** There is only one way for the search to end. */
  lemma OneEnd<P>(h: History<P>, m: Search<P>, n: nat, k: nat)
    requires AllGuilty(Rounds(h, m, n).lines) && AllGuilty(Rounds(h, m, k).lines)
    ensures Rounds(h, m, n) == Rounds(h, m, k)
  {
    if n <= k {
      StaysSettled(h, m, n, k);
    } else {
      StaysSettled(h, m, k, n);
    }
  }

  /** Without lines there is no search; otherwise it stands where `n` rounds have led. */
  ghost predicate StandsAt<P>(h: History<P>, m: Search<P>, n: nat, lines: seq<Line<Origin>>, oldest: Option<nat>, paths: P) {
    Rounds(h, m, n).lines == lines && (lines == [] || Rounds(h, m, n) == Search(lines, oldest, paths))
  }

  lemma StandsNext<P>(h: History<P>, m: Search<P>, n: nat, v: seq<Line<Origin>>, oldest: Option<nat>, paths: P, o: Origin)
    requires StandsAt(h, m, n, v, oldest, paths) && FirstOpen(v, o)
    ensures StandsAt(h, m, n + 1, AfterRound(h, paths, oldest, o, v), OldestAfter(h, oldest, o), PathsAfter(h, paths, oldest, o))
  {
    if v != [] {
      var k: nat :| k < |v| && OpenFor(v[k], o) && Settles(v, k);
      assert FirstUnsettled(v) == k;
    } else {
      assert AfterRound(h, paths, oldest, o, v) == v;
    }
  }

  /** If files are found without regard to known paths, these do not matter. */
  lemma RoundStateless<P(!new)>(h: History<P>, s: P, t: P, oldest: Option<nat>, o: Origin, v: seq<Line<Origin>>)
    requires Stateless(h)
    ensures AfterRound(h, s, oldest, o, v) == AfterRound(h, t, oldest, o, v)
  {
    ChooseStateless(h, s, t, h.parents(o.commit), o, []);
  }

  // ----- whole files -----

  /** The verdicts on `n` lines of a file from `lo` on. */
  ghost function Judged<P(!new)>(h: History<P>, rank: nat -> nat, s: P, oldest: Option<nat>, o: Origin, lo: int, n: nat): (r: seq<Line<Origin>>)
    requires WellFormed(h, rank)
    ensures |r| == n && forall i :: 0 <= i < n ==> r[i] == Verdict(h, rank, s, oldest, o, lo + i)
  {
    seq(n, i => Verdict(h, rank, s, oldest, o, lo + i))
  }

  ghost function Due<P(!new)>(h: History<P>, rank: nat -> nat, s: P, oldest: Option<nat>, o: Origin, lo: int, n: nat): Verdicts<P>
    requires WellFormed(h, rank)
  {
    Verdicts(s, oldest, Judged(h, rank, s, oldest, o, lo, n), Judged(h, rank, s, None, o, lo, n))
  }

  /** No line has been looked at. */
  ghost predicate Begun(o: Origin, lo: int, v: seq<Line<Origin>>) {
    forall i :: 0 <= i < |v| ==> v[i] == Line(o, lo + i, false, false)
  }

  /**
   * The lines have come to their verdicts, unless one that goes back to a
   * commit without parents comes before all that go back to the oldest; then
   * each of those behind it has gone past the oldest.
   */
  ghost predicate ComesTo<P(!new)>(h: History<P>, rank: nat -> nat, s: P, oldest: Option<nat>, o: Origin, lo: int, v: seq<Line<Origin>>)
    requires WellFormed(h, rank)
  {
    var due := Judged(h, rank, s, oldest, o, lo, |v|);
    && (RootsLast(h, oldest, due) ==> v == due)
    && (forall i: nat, j: nat :: RootFirstAt(h, oldest, due, i, j) ==> v[j] == Verdict(h, rank, s, None, o, lo + j) != due[j])
  }

  ghost function Fresh(o: Origin, lo: int, n: nat): (r: seq<Line<Origin>>)
    ensures |r| == n && Begun(o, lo, r)
  {
    seq(n, i => Line(o, lo + i, false, false))
  }

  /** These are the lines as some number of rounds leave them. */
  ghost predicate FoundBy<P>(h: History<P>, oldest: Option<nat>, s: P, o: Origin, lo: int, v: seq<Line<Origin>>) {
    exists n: nat :: v == Rounds(h, Search(Fresh(o, lo, |v|), oldest, s), n).lines
  }

  lemma FoundFrom<P>(h: History<P>, oldest: Option<nat>, s: P, o: Origin, lo: int, v0: seq<Line<Origin>>, v: seq<Line<Origin>>)
    requires Begun(o, lo, v0) && |v| == |v0| && exists n: nat :: v == Rounds(h, Search(v0, oldest, s), n).lines
    ensures FoundBy(h, oldest, s, o, lo, v)
  {
    assert v0 == Fresh(o, lo, |v|);
  }

  lemma EndsDue<P(!new)>(h: History<P>, rank: nat -> nat, s: P, oldest: Option<nat>, o: Origin, lo: int,
                         v0: seq<Line<Origin>>, v: seq<Line<Origin>>)
    requires WellFormed(h, rank) && Stateless(h) && Begun(o, lo, v0) && |v| == |v0|
    requires EndsSo(h, rank, Due(h, rank, s, oldest, o, lo, |v0|), oldest, v0, v)
    ensures ComesTo(h, rank, s, oldest, o, lo, v)
  {
    BegunTrack(h, rank, s, oldest, o, lo, v0);
  }

  lemma BegunTrack<P(!new)>(h: History<P>, rank: nat -> nat, s: P, oldest: Option<nat>, o: Origin, lo: int, v: seq<Line<Origin>>)
    requires WellFormed(h, rank) && Begun(o, lo, v)
    ensures var w := Due(h, rank, s, oldest, o, lo, |v|);
            && (Stateless(h) && RootsLast(h, oldest, w.lines) ==> OnTrack(h, rank, w, oldest, v))
            && (Stateless(h) ==>
                  forall i: nat, j: nat :: RootFirstAt(h, oldest, w.lines, i, j) ==> Misled(h, rank, w, oldest, v, i, j))
  {
    var w := Due(h, rank, s, oldest, o, lo, |v|);
    if Stateless(h) {
      forall i: nat, j: nat | RootFirstAt(h, oldest, w.lines, i, j) ensures Misled(h, rank, w, oldest, v, i, j) {
        Unstopped(h, rank, s, oldest, o, lo + j);
      }
    }
  }

  /**
   * The condition is exact: if some line that goes back to a commit without
   * parents comes before one that goes back to the oldest, the lines from the
   * one to the other are a range that goes wrong.
   */
  lemma SomeRange<P(!new)>(h: History<P>, rank: nat -> nat, s: P, oldest: Option<nat>, o: Origin, lo: int, n: nat)
    returns (first: int, m: nat)
    requires WellFormed(h, rank) && !RootsLast(h, oldest, Judged(h, rank, s, oldest, o, lo, n))
    ensures lo <= first && first + m <= lo + n && RootFirst(h, oldest, Judged(h, rank, s, oldest, o, first, m))
  {
    var ls := Judged(h, rank, s, oldest, o, lo, n);
    var i, j :| 0 <= i < j < |ls| && RootLine(h, ls[i]) && OldestLine(h, oldest, ls[j]);
    first, m := lo + i, j - i + 1;
    var part := Judged(h, rank, s, oldest, o, first, m);
    assert part[0] == ls[i] && part[j - i] == ls[j];
    assert RootFirstAt(h, oldest, part, 0, j - i);
  }

  /** It is met if no way back from the commit ends without having come to the oldest one, and if none is given. */
  lemma ShelteredLines<P(!new)>(h: History<P>, rank: nat -> nat, s: P, oldest: Option<nat>, o: Origin, lo: int, n: nat)
    requires WellFormed(h, rank) && (oldest == None || Sheltered(h, rank, oldest, o.commit))
    ensures RootsLast(h, oldest, Judged(h, rank, s, oldest, o, lo, n))
  {
    if oldest.Some? {
      forall i | 0 <= i < n ensures RootLine(h, Judged(h, rank, s, oldest, o, lo, n)[i]) ==>
                                      oldest == Some(Judged(h, rank, s, oldest, o, lo, n)[i].suspect.commit) {
        ShelteredVerdict(h, rank, s, oldest, o, lo + i);
      }
    }
  }
}
