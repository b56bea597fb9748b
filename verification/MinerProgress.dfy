/**
 * Whatever has happened, miner and pusher can go on so that the remote takes
 * another commit of theirs: a push is refused, the miner starts over from what
 * the pusher fetched, and the next push is accepted.
 */
module MinerProgress {
  import opened MinerProtocol

  /** Steps from each state to the next. */
  predicate Path(b: seq<State>) { b != [] && forall i :: 0 <= i < |b| - 1 ==> Next(b[i], b[i + 1]) }

  function Last(b: seq<State>): State
    requires b != []
  {
    b[|b| - 1]
  }

  /** A path from `s` to `n` on which what every state keeps is kept. */
  ghost predicate Leads(b: seq<State>, s: State, n: State) { Path(b) && b[0] == s && Last(b) == n && Inv(n) }

  lemma Stay(s: State)
    requires Inv(s)
    ensures Leads([s], s, s)
  {
  }

  lemma Keeps(s: State, n: State)
    requires Inv(s) && Next(s, n)
    ensures Inv(n)
  {
    if MinerStep(s, n) {
      MinerKeeps(s, n);
    } else if PusherStep(s, n) {
      PusherKeeps(s, n);
    } else {
      RivalKeeps(s, n);
    }
  }

  lemma Then(b: seq<State>, s: State, m: State, n: State)
    requires Leads(b, s, m) && Next(m, n)
    ensures Leads(b + [n], s, n)
  {
    Keeps(m, n);
  }

  lemma Onward(b: seq<State>, c: seq<State>, s: State, m: State, n: State)
    requires Leads(b, s, m) && Leads(c, m, n)
    ensures Leads(b + c[1..], s, n)
  {
    var d := b + c[1..];
    forall i | 0 <= i < |d| - 1 ensures Next(d[i], d[i + 1]) {
      if i >= |b| - 1 {
        assert d[i] == c[i - |b| + 1] && d[i + 1] == c[i - |b| + 2];
      }
    }
  }

  // ----- the pusher finishes -----

  /** The next step of a pusher that holds the mutex, if the push fails and the fetch works. */
  function Failing(s: State): State {
    match s.pusher
    case StartPush => s.(pusher := Pushing(s.curr))
    case Pushing(_) => s.(pusher := LockAfterFailure)
    case Accepted(_) => s.(pusher := LockAfterFailure)
    case LockAfterFailure => s.(updateLock := Pusher, pusher := FetchAfterFailure)
    case FetchAfterFailure => s.(tracking := s.tip, pusher := SetAfterFailure)
    case SetAfterFailure => s.(updated := true, pusher := UnlockAfterFailure)
    case UnlockAfterFailure => s.(updateLock := Free, pusher := ClearPush)
    case ClearPush => s.(pushSet := false, pusher := UnlockPush)
    case UnlockPush => s.(commitLock := Free, pusher := TestUpdated)
    case _ => s
  }

  function Left(p: PusherPc): nat { if p.UnlockPush? then 1 else 1 + StepsToClear(p) }

  lemma FailingSteps(s: State)
    requires Inv(s) && PusherHoldsCommit(s.pusher)
    ensures var n := Failing(s);
            && PusherStep(s, n) && (PusherHoldsCommit(n.pusher) ==> Left(n.pusher) < Left(s.pusher))
            && (PusherHoldsCommit(n.pusher) || n.pusher == TestUpdated) && n.miner == s.miner && n.tip == s.tip
  {
  }

  /** What a failed push leaves behind, as far as it has come. */
  predicate Failed(s: State) {
    && (s.pusher.SetAfterFailure? || s.pusher.UnlockAfterFailure? || s.pusher.ClearPush? || s.pusher.UnlockPush? || s.pusher.TestUpdated? ==>
          s.tracking == s.tip)
    && (s.pusher.UnlockAfterFailure? || s.pusher.ClearPush? || s.pusher.UnlockPush? || s.pusher.TestUpdated? ==> s.updated)
    && (s.pusher.UnlockPush? || s.pusher.TestUpdated? ==> !s.pushSet)
  }

  /** The pusher gives the mutex back; if it has only started, the push fails and it has fetched the tip. */
  lemma {:induction false} Finishes(s: State) returns (b: seq<State>, n: State)
    requires Inv(s) && PusherHoldsCommit(s.pusher)
    ensures Leads(b, s, n) && n.pusher == TestUpdated && n.miner == s.miner
    ensures Failed(s) ==> Failed(n)
    decreases Left(s.pusher)
  {
    var m := Failing(s);
    FailingSteps(s);
    Stay(s);
    Then([s], s, s, m);
    b, n := [s] + [m], m;
    if PusherHoldsCommit(m.pusher) {
      var c;
      c, n := Finishes(m);
      Onward([s] + [m], c, s, m, n);
      b := [s] + [m] + c[1..];
    }
  }

  // ----- the miner goes on while the pusher does not hold the mutex -----

  /** The miner's next step, if it finds something or not. */
  function Working(s: State, find: bool): State {
    match s.miner
    case LockCommit => s.(commitLock := Miner, miner := LockUpdate)
    case LockUpdate => s.(updateLock := Miner, miner := Reset)
    case Reset => s.(miner := if s.updated then ResetHead else UnlockUpdate)
    case ResetHead => s.(head := s.tracking, miner := LowerFlag)
    case LowerFlag => s.(updated := false, miner := LowerPointer)
    case LowerPointer => s.(pushSet := false, miner := UnlockUpdate)
    case UnlockUpdate => s.(updateLock := Free, miner := UnlockCommit)
    case UnlockCommit => s.(commitLock := Free, miner := Prepare)
    case Prepare => s.(draft := s.head, miner := Mine)
    case Mine => s.(found := find, miner := CheckFound)
    case CheckFound => s.(miner := if !s.updated && s.found then AwaitPush else LockCommit)
    case AwaitPush => if s.pushSet then s else s.(miner := CheckUpdated)
    case CheckUpdated => s.(miner := if s.updated then LockCommit else LockForCommit)
    case LockForCommit => s.(commitLock := Miner, miner := WriteCommit)
    case WriteCommit => s.(curr := Child(s.draft, 0), head := Child(s.draft, 0), miner := Publish)
    case Publish => s.(pushSet := true, miner := UnlockAfterCommit)
    case UnlockAfterCommit => s.(commitLock := Free, miner := LockCommit)
  }

  lemma WorkingSteps(s: State, find: bool)
    requires Inv(s) && !PusherHoldsCommit(s.pusher)
    ensures MinerStep(s, Working(s, find)) && Inv(Working(s, find))
  {
    MinerKeeps(s, Working(s, find));
  }

  /** Steps to the end of a round. */
  function ToEnd(m: MinerPc): nat {
    match m
    case LockCommit => 0
    case UnlockAfterCommit => 1
    case Publish => 2
    case WriteCommit => 3
    case LockForCommit => 4
    case CheckUpdated => 5
    case AwaitPush => 6
    case CheckFound => 7
    case Mine => 8
    case Prepare => 9
    case UnlockCommit => 10
    case UnlockUpdate => 11
    case LowerPointer => 12
    case LowerFlag => 13
    case ResetHead => 14
    case Reset => 15
    case LockUpdate => 16
  }

  lemma RoundNext(s: State, find: bool)
    requires s.miner != LockCommit && !(s.miner == AwaitPush && s.pushSet)
    ensures var m := Working(s, find); ToEnd(m.miner) < ToEnd(s.miner) && m.pusher == s.pusher && m.tip == s.tip
  {
  }

  /** The miner ends its round, or waits for the pointer to be cleared. */
  lemma {:induction false} EndsRound(s: State) returns (b: seq<State>, n: State)
    requires Inv(s) && !PusherHoldsCommit(s.pusher)
    ensures Leads(b, s, n) && n.pusher == s.pusher && (n.miner == LockCommit || (n.miner == AwaitPush && n.pushSet))
    decreases ToEnd(s.miner)
  {
    b, n := [s], s;
    Stay(s);
    if s.miner != LockCommit && !(s.miner == AwaitPush && s.pushSet) {
      var m := Working(s, false);
      WorkingSteps(s, false);
      RoundNext(s, false);
      Then([s], s, s, m);
      var c;
      c, n := EndsRound(m);
      Onward([s] + [m], c, s, m, n);
      b := [s] + [m] + c[1..];
    }
  }

  /** What the miner is going to build on. */
  function Base(s: State): Commit { if s.updated && !s.miner.LowerFlag? then s.tracking else s.head }

  function ToPrepare(m: MinerPc): nat { if m.LockCommit? then 8 else if ToEnd(m) >= 9 then ToEnd(m) - 9 else 0 }

  /** The miner starts a round from what it is to build on. */
  predicate Starting(s: State, c: Commit) {
    && Base(s) == c && !s.pushSet
    && (s.miner.LockCommit? || ToEnd(s.miner) >= 9)
    && (s.miner.LowerPointer? || s.miner.UnlockUpdate? || s.miner.UnlockCommit? || s.miner.Prepare? ==> !s.updated)
  }

  lemma {:induction false} Starts(s: State, c: Commit) returns (b: seq<State>, n: State)
    requires Inv(s) && !PusherHoldsCommit(s.pusher) && Starting(s, c)
    ensures Leads(b, s, n) && n.pusher == s.pusher && n.tip == s.tip && n.miner == Prepare && Starting(n, c)
    decreases ToPrepare(s.miner)
  {
    b, n := [s], s;
    Stay(s);
    if s.miner != Prepare {
      var m := Working(s, false);
      WorkingSteps(s, false);
      Then([s], s, s, m);
      var d;
      d, n := Starts(m, c);
      Onward([s] + [m], d, s, m, n);
      b := [s] + [m] + d[1..];
    }
  }

  /** The miner has something to hand over that builds on `c`. */
  predicate Mining(s: State, c: Commit) {
    && !s.updated
    && (match s.miner
        case Prepare => s.head == c && !s.pushSet
        case Mine => s.draft == c && !s.pushSet
        case CheckFound => s.draft == c && !s.pushSet && s.found
        case AwaitPush => s.draft == c && !s.pushSet
        case CheckUpdated => s.draft == c && !s.pushSet
        case LockForCommit => s.draft == c && !s.pushSet
        case WriteCommit => s.draft == c && !s.pushSet
        case Publish => s.curr == Child(c, 0)
        case UnlockAfterCommit => s.curr == Child(c, 0) && s.pushSet
        case LockCommit => s.curr == Child(c, 0) && s.pushSet
        case _ => false)
  }

  lemma MiningNext(s: State, c: Commit)
    requires Mining(s, c) && s.miner != LockCommit
    ensures var m := Working(s, true);
            Mining(m, c) && ToEnd(m.miner) < ToEnd(s.miner) && m.pusher == s.pusher && m.tip == s.tip
  {
    RoundNext(s, true);
  }

  lemma {:induction false} Mines(s: State, c: Commit) returns (b: seq<State>, n: State)
    requires Inv(s) && !PusherHoldsCommit(s.pusher) && Mining(s, c)
    ensures Leads(b, s, n) && n.pusher == s.pusher && n.tip == s.tip && n.miner == LockCommit && Mining(n, c)
    decreases ToEnd(s.miner)
  {
    b, n := [s], s;
    Stay(s);
    if s.miner != LockCommit {
      var m := Working(s, true);
      WorkingSteps(s, true);
      MiningNext(s, c);
      Then([s], s, s, m);
      var d;
      d, n := Mines(m, c);
      Onward([s] + [m], d, s, m, n);
      b := [s] + [m] + d[1..];
    }
  }

  // ----- the pusher takes what is handed over -----

  function Taking(s: State): State {
    match s.pusher
    case TestUpdated => s.(pusher := TestFirst)
    case TestFirst => s.(pusher := TestAgain)
    case TestAgain => s.(pusher := LockToPush)
    case _ => s.(commitLock := Pusher, pusher := StartPush)
  }

  lemma {:induction false} Takes(s: State) returns (b: seq<State>, n: State)
    requires Inv(s) && s.pushSet && !s.updated && (s.miner.LockCommit? || s.miner.AwaitPush?)
    requires !PusherHoldsCommit(s.pusher)
    ensures Leads(b, s, n) && n.pusher == StartPush && n.tip == s.tip && n.curr == s.curr && n.miner == s.miner
    decreases StepsToClear(s.pusher)
  {
    var m := Taking(s);
    assert PusherStep(s, m);
    Stay(s);
    Then([s], s, s, m);
    b, n := [s] + [m], m;
    if m.pusher != StartPush {
      var c;
      c, n := Takes(m);
      Onward([s] + [m], c, s, m, n);
      b := [s] + [m] + c[1..];
    }
  }

  // ----- a round that fails and one that does not -----

  /** Something is handed over to a pusher that does not hold the mutex. */
  lemma HandsOver(s: State) returns (b: seq<State>, n: State)
    requires Inv(s) && !PusherHoldsCommit(s.pusher)
    ensures Leads(b, s, n) && n.pushSet && !n.updated && !PusherHoldsCommit(n.pusher) && (n.miner.LockCommit? || n.miner.AwaitPush?)
  {
    b, n := EndsRound(s);
    if !n.pushSet {
      var m, c := n, Base(n);
      var d, e;
      d, n := Starts(m, c);
      Onward(b, d, s, m, n);
      b, m := b + d[1..], n;
      e, n := Mines(m, c);
      Onward(b, e, s, m, n);
      b := b + e[1..];
    }
  }

  /** The push of it fails, and the pusher has fetched the remote's tip. */
  lemma Fails(s: State) returns (b: seq<State>, n: State)
    requires Inv(s) && !PusherHoldsCommit(s.pusher)
    ensures Leads(b, s, n) && n.pusher == TestUpdated && Failed(n) && (n.miner.LockCommit? || n.miner.AwaitPush?)
  {
    var m, d, e;
    b, m := HandsOver(s);
    d, n := Takes(m);
    Onward(b, d, s, m, n);
    b, m := b + d[1..], n;
    e, n := Finishes(m);
    Onward(b, e, s, m, n);
    b := b + e[1..];
  }

  lemma GoesHome(s: State) returns (b: seq<State>, n: State)
    requires Inv(s) && s.pusher == TestUpdated && Failed(s) && (s.miner.LockCommit? || s.miner.AwaitPush?)
    ensures Leads(b, s, n) && n.pusher == TestUpdated && Failed(n) && n.miner == LockCommit
  {
    b, n := [s], s;
    Stay(s);
    if s.miner != LockCommit {
      var m := s.(miner := CheckUpdated);
      assert MinerStep(s, m);
      Then([s], s, s, m);
      n := m.(miner := LockCommit);
      assert MinerStep(m, n);
      Then([s] + [m], s, m, n);
      b := [s] + [m] + [n];
    }
  }

  /** A round begins on the remote's tip. */
  lemma CatchesUp(s: State) returns (b: seq<State>, n: State)
    requires Inv(s) && !PusherHoldsCommit(s.pusher)
    ensures Leads(b, s, n) && n.pusher == TestUpdated && n.miner == Prepare && Mining(n, n.tip)
  {
    var m, d, e;
    b, m := Fails(s);
    d, n := GoesHome(m);
    Onward(b, d, s, m, n);
    b, m := b + d[1..], n;
    e, n := Starts(m, m.tip);
    Onward(b, e, s, m, n);
    b := b + e[1..];
  }

  /** The remote takes a commit that builds on its tip. */
  predicate Lands(s: State, n: State) { n.tip.Child? && n.tip.parent == s.tip && n.tip == s.curr && PusherStep(s, n) }

  lemma Landing(s: State) returns (b: seq<State>, m: State, n: State)
    requires Inv(s) && s.pusher == TestUpdated && s.miner == Prepare && Mining(s, s.tip)
    ensures Leads(b, s, n) && |b| >= 2 && Lands(b[|b| - 2], b[|b| - 1])
  {
    var d;
    b, m := Mines(s, s.tip);
    d, n := Takes(m);
    Onward(b, d, s, m, n);
    b, m := b + d[1..], n;
    n := m.(pusher := Pushing(m.curr));
    assert PusherStep(m, n);
    Then(b, s, m, n);
    b, m := b + [n], n;
    assert Ancestor(m.tip, m.curr);
    n := m.(tip := m.curr, accepted := m.accepted + {m.curr}, pusher := Accepted(m.curr));
    assert PusherStep(m, n);
    Then(b, s, m, n);
    b := b + [n];
  }

  /** Every run can be continued so that the remote takes another commit. */
  lemma CanLand(b: seq<State>) returns (c: seq<State>)
    requires Run(b)
    ensures Run(c) && |b| < |c| && b <= c && Lands(c[|c| - 2], c[|c| - 1])
  {
    var s := Last(b);
    RunInv(b, |b| - 1);
    var d, m, n := [s], s, s;
    Stay(s);
    if PusherHoldsCommit(s.pusher) {
      d, m := Finishes(s);
    }
    var e, f, k;
    e, n := CatchesUp(m);
    Onward(d, e, s, m, n);
    d, m := d + e[1..], n;
    f, k, n := Landing(m);
    Onward(d, f, s, m, n);
    d := d + f[1..];
    assert Leads(b, b[0], s);
    Onward(b, d, b[0], s, n);
    c := b + d[1..];
  }
}
