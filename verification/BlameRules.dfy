/**
 * Who is to blame for a line, said line by line: the parents a commit's file
 * is compared with, what each of them takes over, and where a line ends up.
 */
module BlameRules {
  import opened Common
  import opened LineDiff
  import opened Scoreboard

  /** A file as it stands in a commit. */
  datatype Origin = Origin(commit: nat, path: string)

  /** The file in a parent that a file came from, and the paths known after looking for it. */
  datatype Found<P> = Found(origin: Option<Origin>, paths: P)

  datatype History<!P> = History(
    parents: nat -> seq<nat>,
    find: (P, nat, Origin) -> Found<P>,
    content: Origin -> bytes,
    script: (bytes, bytes) -> seq<Change>)

  /** Parents have lower rank, a file is looked for in the parent asked about, and scripts are correct. */
  ghost predicate WellFormed<P(!new)>(h: History<P>, rank: nat -> nat) {
    && (forall c, p :: p in h.parents(c) ==> rank(p) < rank(c))
    && (forall s, p, o :: h.find(s, p, o).origin.Some? ==> h.find(s, p, o).origin.value.commit == p)
    && Faithful(h.script)
  }

  function RankOf(rank: nat -> nat): Origin -> nat { (o: Origin) => rank(o.commit) }

  // ----- one parent -----

  predicate OpenFor(l: Line<Origin>, o: Origin) { !l.guilty && l.suspect == o }

  /** The line of the parent's file that a line of the target's file is. */
  function Parental<P>(h: History<P>, target: Origin, parent: Origin, x: int): Option<int> {
    Traced(h.script, h.content(parent), h.content(target), x)
  }

  function OfferLine<P>(h: History<P>, target: Origin, parent: Origin, l: Line<Origin>): Line<Origin> {
    if !OpenFor(l, target) then l
    else
      match Parental(h, target, parent, l.lno)
      case None => l
      case Some(y) => Line(parent, y, false, false)
  }

  function Offer<P>(h: History<P>, target: Origin, parent: Origin): Line<Origin> -> Line<Origin> {
    l => OfferLine(h, target, parent, l)
  }

  // ----- going through a script -----

  /** What is still to be done to a line when the script has been followed to `pa` and `pb`. */
  function RestLine(script: seq<Change>, pa: nat, pb: nat, target: Origin, parent: Origin, l: Line<Origin>): Line<Origin> {
    if !OpenFor(l, target) || l.lno < pb then l
    else
      match OldLine(script, pa, pb, l.lno)
      case None => l
      case Some(y) => Line(parent, y, false, false)
  }

  function Rest(script: seq<Change>, pa: nat, pb: nat, target: Origin, parent: Origin): Line<Origin> -> Line<Origin> {
    l => RestLine(script, pa, pb, target, parent, l)
  }

  /** The lines up to the next change, then the rest. */
  lemma RestNext(script: seq<Change>, pa: nat, pb: nat, target: Origin, parent: Origin, v: seq<Line<Origin>>)
    requires script != [] && pb <= script[0].i2 && parent != target
    ensures var c := script[0];
            Map(Rest(script, pa, pb, target, parent), v) ==
            Map(Rest(script[1..], c.i1 + c.chg1, c.i2 + c.chg2, target, parent),
                Map(Move(Chunk(pb, pa, c.i2, target, parent)), v))
  {}

  /** No line that the target is suspected for lies at `last` or beyond. */
  ghost predicate Ends(v: seq<Line<Origin>>, target: Origin, last: int) {
    forall i :: 0 <= i < |v| && OpenFor(v[i], target) ==> v[i].lno < last
  }

  lemma RestLast(pa: nat, pb: nat, target: Origin, parent: Origin, v: seq<Line<Origin>>, last: int)
    requires Ends(v, target, last)
    ensures Map(Rest([], pa, pb, target, parent), v) == Map(Move(Chunk(pb, pa, last, target, parent)), v)
  {}

  lemma MoveEnds(c: Chunk<Origin>, v: seq<Line<Origin>>, last: int)
    requires Ends(v, c.target, last) && c.parent != c.target
    ensures Ends(Map(Move(c), v), c.target, last)
  {}

  /** Following the rest of the script from here leads to `goal`. */
  ghost predicate Emitting(a: seq<bytes>, b: seq<bytes>, script: seq<Change>, pa: nat, pb: nat,
                           target: Origin, parent: Origin, v: seq<Line<Origin>>, last: int, goal: seq<Line<Origin>>)
  {
    Correct(a, b, script, pa, pb) && Ends(v, target, last) && Map(Rest(script, pa, pb, target, parent), v) == goal
  }

  lemma EmittingNext(a: seq<bytes>, b: seq<bytes>, script: seq<Change>, pa: nat, pb: nat, target: Origin, parent: Origin,
                     v: seq<Line<Origin>>, w: seq<Line<Origin>>, last: int, goal: seq<Line<Origin>>)
    requires Emitting(a, b, script, pa, pb, target, parent, v, last, goal) && script != [] && parent != target
    requires w == Map(Move(Chunk(pb, pa, script[0].i2, target, parent)), v)
    ensures var c := script[0]; Emitting(a, b, script[1..], c.i1 + c.chg1, c.i2 + c.chg2, target, parent, w, last, goal)
  {
    RestNext(script, pa, pb, target, parent, v);
    MoveEnds(Chunk(pb, pa, script[0].i2, target, parent), v, last);
  }

  lemma OfferNone<P>(h: History<P>, target: Origin, parent: Origin, v: seq<Line<Origin>>, last: int)
    requires Natural(v) && Ends(v, target, last) && last < 0
    ensures Map(Offer(h, target, parent), v) == v && Ends(v, target, 0)
  {}

  lemma {:induction false} EntriesEnd(es: seq<Entry<Origin>>, target: Origin, last: int)
    requires forall i :: 0 <= i < |es| && Accuses(es[i], target) ==> es[i].sLno + es[i].num <= last
    ensures Ends(View(es), target, last)
  {
    if es != [] {
      EntriesEnd(es[1..], target, last);
    }
  }

  ghost predicate Natural(v: seq<Line<Origin>>) {
    forall i :: 0 <= i < |v| ==> v[i].lno >= 0
  }

  lemma RestAll<P>(h: History<P>, target: Origin, parent: Origin, v: seq<Line<Origin>>)
    requires Natural(v)
    ensures var a, b := h.content(parent), h.content(target);
            var script := h.script(a[..|a| - Cut(a, b)], b[..|b| - Cut(a, b)]);
            Map(Rest(script, 0, 0, target, parent), v) == Map(Offer(h, target, parent), v)
  {}

  // ----- all parents -----

  /** Either one parent has the very same file, or the lines are offered to several in turn. */
  datatype Choice = Whole(origin: Origin) | Among(origins: seq<Origin>)

  datatype Chosen<P> = Chosen(choice: Choice, paths: P)

  predicate SameAsOne<P>(h: History<P>, seen: seq<Origin>, q: Origin) {
    exists j :: 0 <= j < |seen| && h.content(seen[j]) == h.content(q)
  }

  function Choose<P>(h: History<P>, s: P, ps: seq<nat>, o: Origin, seen: seq<Origin>): Chosen<P>
    decreases |ps|
  {
    if ps == [] then Chosen(Among(seen), s)
    else
      var f := h.find(s, ps[0], o);
      match f.origin
      case None => Choose(h, f.paths, ps[1..], o, seen)
      case Some(q) =>
        if h.content(q) == h.content(o) then Chosen(Whole(q), f.paths)
        else if SameAsOne(h, seen, q) then Choose(h, f.paths, ps[1..], o, seen)
        else Choose(h, f.paths, ps[1..], o, seen + [q])
  }

  /** Each origin is in one of the commits. */
  ghost predicate Within(os: seq<Origin>, ps: seq<nat>) {
    forall i :: 0 <= i < |os| ==> os[i].commit in ps
  }

  ghost predicate ChoiceWithin(c: Choice, ps: seq<nat>) {
    match c
    case Whole(q) => q.commit in ps
    case Among(os) => Within(os, ps)
  }

  lemma {:induction false} ChooseWithin<P(!new)>(h: History<P>, rank: nat -> nat, s: P, all: seq<nat>, k: nat, o: Origin, seen: seq<Origin>)
    requires WellFormed(h, rank) && k <= |all| && Within(seen, all)
    ensures ChoiceWithin(Choose(h, s, all[k..], o, seen).choice, all)
    ensures var c := Choose(h, s, all[k..], o, seen).choice; c.Whole? ==> h.content(c.origin) == h.content(o)
    decreases |all| - k
  {
    if k < |all| {
      var f := h.find(s, all[k], o);
      assert all[k..][0] == all[k] && all[k..][1..] == all[k + 1..];
      ChooseWithin(h, rank, f.paths, all, k + 1, o, seen);
      if f.origin.Some? {
        assert f.origin.value.commit == all[k];
        ChooseWithin(h, rank, f.paths, all, k + 1, o, seen + [f.origin.value]);
      }
    }
  }

  datatype Place = Place(origin: Origin, lno: int)

  /** The first parent that has a line, and where. */
  function Source<P>(h: History<P>, o: Origin, os: seq<Origin>, x: int): Option<Place> {
    if os == [] then None
    else
      match Parental(h, o, os[0], x)
      case Some(y) => Some(Place(os[0], y))
      case None => Source(h, o, os[1..], x)
  }

  function HandLine<P>(h: History<P>, o: Origin, c: Choice, l: Line<Origin>): Line<Origin> {
    match c
    case Whole(q) => PassLine(o, q, l)
    case Among(os) =>
      if !OpenFor(l, o) then l
      else
        match Source(h, o, os, l.lno)
        case None => l
        case Some(p) => Line(p.origin, p.lno, false, false)
  }

  function Hand<P>(h: History<P>, o: Origin, c: Choice): Line<Origin> -> Line<Origin> {
    l => HandLine(h, o, c, l)
  }

  /** Offering to all parents is offering to the first and then to the others. */
  lemma HandNext<P>(h: History<P>, o: Origin, os: seq<Origin>, v: seq<Line<Origin>>)
    requires os != [] && os[0] != o
    ensures Map(Hand(h, o, Among(os)), v) == Map(Hand(h, o, Among(os[1..])), Map(Offer(h, o, os[0]), v))
  {}

  lemma HandNone<P>(h: History<P>, o: Origin, os: seq<Origin>, v: seq<Line<Origin>>)
    requires os == [] || forall i :: 0 <= i < |v| ==> !OpenFor(v[i], o)
    ensures Map(Hand(h, o, Among(os)), v) == v
  {}

  // ----- where a line ends up -----

  lemma {:induction false} SourceIn<P>(h: History<P>, o: Origin, os: seq<Origin>, x: int, ps: seq<nat>)
    requires Within(os, ps)
    ensures Source(h, o, os, x).Some? ==> Source(h, o, os, x).value.origin.commit in ps
    ensures Source(h, o, os, x).Some? ==>
              Parental(h, o, Source(h, o, os, x).value.origin, x) == Some(Source(h, o, os, x).value.lno)
    decreases |os|
  {
    if os != [] {
      SourceIn(h, o, os[1..], x, ps);
    }
  }

  ghost function ChoiceFor<P>(h: History<P>, s: P, o: Origin): Choice {
    Choose(h, s, h.parents(o.commit), o, []).choice
  }

  /** The next place to look for a line, if a parent has it. */
  ghost function Earlier<P>(h: History<P>, s: P, o: Origin, x: int): Option<Place> {
    match ChoiceFor(h, s, o)
    case Whole(q) => Some(Place(q, x))
    case Among(os) => Source(h, o, os, x)
  }

  lemma EarlierRank<P(!new)>(h: History<P>, rank: nat -> nat, s: P, o: Origin, x: int)
    requires WellFormed(h, rank)
    ensures Earlier(h, s, o, x).Some? ==>
              var c := Earlier(h, s, o, x).value.origin.commit; c in h.parents(o.commit) && rank(c) < rank(o.commit)
  {
    var ps := h.parents(o.commit);
    ChooseWithin(h, rank, s, ps, 0, o, []);
    assert ps[0..] == ps;
    match ChoiceFor(h, s, o)
    case Whole(q) =>
    case Among(os) => SourceIn(h, o, os, x, ps);
  }

  /** The commit is where the search is to end. */
  predicate Stops<P>(h: History<P>, oldest: Option<nat>, o: Origin) {
    oldest == Some(o.commit) || h.parents(o.commit) == []
  }

  /** The verdict on a line: followed from parent to parent until none has it, or to the oldest commit. */
  ghost function Verdict<P(!new)>(h: History<P>, rank: nat -> nat, s: P, oldest: Option<nat>, o: Origin, x: int): Line<Origin>
    requires WellFormed(h, rank)
    decreases rank(o.commit)
  {
    if Stops(h, oldest, o) then Line(o, x, true, true)
    else
      EarlierRank(h, rank, s, o, x);
      match Earlier(h, s, o, x)
      case None => Line(o, x, true, false)
      case Some(p) => Verdict(h, rank, s, oldest, p.origin, p.lno)
  }

  lemma {:induction false} VerdictRank<P(!new)>(h: History<P>, rank: nat -> nat, s: P, oldest: Option<nat>, o: Origin, x: int)
    requires WellFormed(h, rank)
    ensures rank(Verdict(h, rank, s, oldest, o, x).suspect.commit) <= rank(o.commit)
    ensures Verdict(h, rank, s, oldest, o, x).guilty
    decreases rank(o.commit)
  {
    if !Stops(h, oldest, o) {
      EarlierRank(h, rank, s, o, x);
      match Earlier(h, s, o, x)
      case None =>
      case Some(p) => VerdictRank(h, rank, s, oldest, p.origin, p.lno);
    }
  }

  // ----- the oldest commit -----

  /** The line goes back to a commit without parents. */
  predicate RootLine<P>(h: History<P>, l: Line<Origin>) { h.parents(l.suspect.commit) == [] }

  /** The line goes back to the oldest commit, which has parents. */
  predicate OldestLine<P>(h: History<P>, oldest: Option<nat>, l: Line<Origin>) {
    oldest == Some(l.suspect.commit) && h.parents(l.suspect.commit) != []
  }

  /** No line that goes back to a commit without parents comes before one that goes back to the oldest. */
  ghost predicate RootsLast<P>(h: History<P>, oldest: Option<nat>, ls: seq<Line<Origin>>) {
    forall i, j :: 0 <= i < j < |ls| && RootLine(h, ls[i]) ==> !OldestLine(h, oldest, ls[j])
  }

  /** Line `i` goes back to a commit without parents, and the first to go back to the oldest comes later, as `j` does. */
  ghost predicate RootFirstAt<P>(h: History<P>, oldest: Option<nat>, ls: seq<Line<Origin>>, i: nat, j: nat) {
    && i < j < |ls| && RootLine(h, ls[i]) && OldestLine(h, oldest, ls[j])
    && forall k :: 0 <= k < i ==> !OldestLine(h, oldest, ls[k])
  }

  ghost predicate RootFirst<P>(h: History<P>, oldest: Option<nat>, ls: seq<Line<Origin>>) {
    exists i: nat, j: nat :: RootFirstAt(h, oldest, ls, i, j)
  }

  /** Every way back from the commit comes to the oldest one before it comes to an end. */
  ghost predicate Sheltered<P(!new)>(h: History<P>, rank: nat -> nat, oldest: Option<nat>, c: nat)
    requires WellFormed(h, rank)
    decreases rank(c)
  {
    oldest == Some(c) || (h.parents(c) != [] && forall p :: p in h.parents(c) ==> Sheltered(h, rank, oldest, p))
  }

  lemma {:induction false} ShelteredVerdict<P(!new)>(h: History<P>, rank: nat -> nat, s: P, oldest: Option<nat>, o: Origin, x: int)
    requires WellFormed(h, rank) && Sheltered(h, rank, oldest, o.commit)
    ensures var l := Verdict(h, rank, s, oldest, o, x); RootLine(h, l) ==> oldest == Some(l.suspect.commit)
    decreases rank(o.commit)
  {
    if !Stops(h, oldest, o) {
      EarlierRank(h, rank, s, o, x);
      match Earlier(h, s, o, x)
      case None =>
      case Some(p) => ShelteredVerdict(h, rank, s, oldest, p.origin, p.lno);
    }
  }

  /** Without the stop, a line that should have stopped at the oldest commit comes to another verdict. */
  lemma {:induction false} Unstopped<P(!new)>(h: History<P>, rank: nat -> nat, s: P, oldest: Option<nat>, o: Origin, x: int)
    requires WellFormed(h, rank) && OldestLine(h, oldest, Verdict(h, rank, s, oldest, o, x))
    ensures Verdict(h, rank, s, None, o, x) != Verdict(h, rank, s, oldest, o, x)
    decreases rank(o.commit)
  {
    EarlierRank(h, rank, s, o, x);
    match Earlier(h, s, o, x)
    case None =>
    case Some(p) =>
      if oldest == Some(o.commit) {
        VerdictRank(h, rank, s, None, p.origin, p.lno);
      } else {
        Unstopped(h, rank, s, oldest, p.origin, p.lno);
      }
  }

  // ----- what a round does to a line -----

  /** The line reads, in its suspect's file, as line `at` of the final file does. */
  ghost predicate Reads<P>(h: History<P>, final: seq<bytes>, at: int, l: Line<Origin>) {
    && l.lno >= 0
    && (0 <= at < |final| ==>
          var lines := Lines(h.content(l.suspect)); l.lno < |lines| && lines[l.lno] == final[at])
  }

  lemma HandReads<P(!new)>(h: History<P>, rank: nat -> nat, final: seq<bytes>, at: int, o: Origin, c: Choice, ps: seq<nat>, l: Line<Origin>)
    requires WellFormed(h, rank) && Reads(h, final, at, l)
    requires ChoiceWithin(c, ps) && (c.Whole? ==> h.content(c.origin) == h.content(o))
    ensures Reads(h, final, at, HandLine(h, o, c, l))
  {
    if c.Among? {
      SourceIn(h, o, c.origins, l.lno, ps);
      match Source(h, o, c.origins, l.lno)
      case None =>
      case Some(p) => OriginText(h.script, h.content(p.origin), h.content(o), l.lno);
    }
  }

  /** Looking for a file does not depend on the paths known so far. */
  ghost predicate Stateless<P(!new)>(h: History<P>) {
    forall s, t, p, o :: h.find(s, p, o).origin == h.find(t, p, o).origin
  }

  lemma {:induction false} ChooseStateless<P(!new)>(h: History<P>, s: P, t: P, ps: seq<nat>, o: Origin, seen: seq<Origin>)
    requires Stateless(h)
    ensures Choose(h, s, ps, o, seen).choice == Choose(h, t, ps, o, seen).choice
    decreases |ps|
  {
    if ps != [] {
      var f, g := h.find(s, ps[0], o), h.find(t, ps[0], o);
      ChooseStateless(h, f.paths, g.paths, ps[1..], o, seen);
      if f.origin.Some? {
        ChooseStateless(h, f.paths, g.paths, ps[1..], o, seen + [f.origin.value]);
      }
    }
  }

  /** The line is on its way to its verdict, and there if settled. */
  ghost predicate Heads<P(!new)>(h: History<P>, rank: nat -> nat, s: P, oldest: Option<nat>, l: Line<Origin>, verdict: Line<Origin>)
    requires WellFormed(h, rank)
  {
    Verdict(h, rank, s, oldest, l.suspect, l.lno) == verdict && (l.guilty ==> l == verdict)
  }

  /** What a round does: lines are handed on unless the search stops here, and the suspect owns up to what is left. */
  ghost function RoundLine<P>(h: History<P>, s: P, stop: bool, o: Origin, l: Line<Origin>): Line<Origin> {
    if stop then OwnLine(o, true, l) else OwnLine(o, false, HandLine(h, o, ChoiceFor(h, s, o), l))
  }

  /** A round keeps every line on its way. */
  lemma RoundHeads<P(!new)>(h: History<P>, rank: nat -> nat, s: P, oldest: Option<nat>, o: Origin, l: Line<Origin>, verdict: Line<Origin>)
    requires WellFormed(h, rank) && Heads(h, rank, s, oldest, l, verdict)
    ensures Heads(h, rank, s, oldest, RoundLine(h, s, Stops(h, oldest, o), o, l), verdict)
  {
    if l.suspect == o && !Stops(h, oldest, o) {
      EarlierRank(h, rank, s, o, l.lno);
      match Earlier(h, s, o, l.lno)
      case None =>
      case Some(p) => VerdictRank(h, rank, s, oldest, p.origin, p.lno);
    }
  }
}
