/**
 * The miner and the pusher: one thread mines on top of a commit that the
 * other may still be pushing. They share a flag, a pointer to the commit to
 * push, the remote-tracking branch and the two mutexes. Every step below makes
 * at most one access to these or to the remote.
 */
module MinerProtocol {

  /** A commit determines its parent; the nonce tells siblings apart. */
  datatype Commit = Root | Child(parent: Commit, nonce: nat)

  function Depth(c: Commit): nat {
    match c
    case Root => 0
    case Child(p, _) => 1 + Depth(p)
  }

  /** `a` is `c` or one of its ancestors. */
  predicate Ancestor(a: Commit, c: Commit)
    decreases c
  {
    a == c || (c.Child? && Ancestor(a, c.parent))
  }

  datatype Owner = Free | Miner | Pusher

  datatype MinerPc =
    | LockCommit | LockUpdate | Reset | ResetHead | LowerFlag | LowerPointer | UnlockUpdate | UnlockCommit
    | Prepare | Mine | CheckFound | AwaitPush | CheckUpdated
    | LockForCommit | WriteCommit | Publish | UnlockAfterCommit

  datatype PusherPc =
    | TestUpdated | TestFirst | TestAgain
    | LockToPush | StartPush | Pushing(oid: Commit) | Accepted(oid: Commit)
    | LockAfterFailure | FetchAfterFailure | SetAfterFailure | UnlockAfterFailure
    | ClearPush | UnlockPush
    | FetchIdle | LockIdle | SetIdle | UnlockIdle

  /**
   * `pushSet` says that `push_commit` points at `curr`. `head` and `tracking`
   * are the local branch and the remote-tracking branch, `draft` the parent in
   * the message being mined. `tip` and `accepted` are the remote's branch and
   * everything that has been on it.
   */
  datatype State = State(
    miner: MinerPc, pusher: PusherPc,
    updated: bool, pushSet: bool, curr: Commit,
    commitLock: Owner, updateLock: Owner,
    head: Commit, tracking: Commit, draft: Commit, found: bool,
    tip: Commit, accepted: set<Commit>)

  predicate Init(s: State) {
    && s.miner == LockCommit && s.pusher == TestUpdated
    && !s.updated && !s.pushSet
    && s.commitLock == Free && s.updateLock == Free
    && s.head == s.tracking && s.tracking in s.accepted && s.tip in s.accepted
    && (forall c :: c in s.accepted ==> Ancestor(c, s.tip))
  }

  // ----- the miner -----

  predicate MinerStep(s: State, n: State) {
    match s.miner
    case LockCommit => s.commitLock == Free && n == s.(commitLock := Miner, miner := LockUpdate)
    case LockUpdate => s.updateLock == Free && n == s.(updateLock := Miner, miner := Reset)
    case Reset => n == s.(miner := if s.updated then ResetHead else UnlockUpdate)
    case ResetHead => n == s.(head := s.tracking, miner := LowerFlag)
    case LowerFlag => n == s.(updated := false, miner := LowerPointer)
    case LowerPointer => n == s.(pushSet := false, miner := UnlockUpdate)
    case UnlockUpdate => n == s.(updateLock := Free, miner := UnlockCommit)
    case UnlockCommit => n == s.(commitLock := Free, miner := Prepare)
    case Prepare => n == s.(draft := s.head, miner := Mine)
    case Mine => n == s.(found := n.found, miner := CheckFound)
    case CheckFound => n == s.(miner := if !s.updated && s.found then AwaitPush else LockCommit)
    case AwaitPush => n == if s.pushSet then s else s.(miner := CheckUpdated)
    case CheckUpdated => n == s.(miner := if s.updated then LockCommit else LockForCommit)
    case LockForCommit => s.commitLock == Free && n == s.(commitLock := Miner, miner := WriteCommit)
    case WriteCommit =>
      n.curr.Child? && n.curr.parent == s.draft && n == s.(curr := n.curr, head := n.curr, miner := Publish)
    case Publish => n == s.(pushSet := true, miner := UnlockAfterCommit)
    case UnlockAfterCommit => n == s.(commitLock := Free, miner := LockCommit)
  }

  // ----- the pusher -----

  /** A push may be refused, and one that was accepted may still be reported as failed; a fetch may do nothing. */
  predicate PusherStep(s: State, n: State) {
    match s.pusher
    case TestUpdated => n == s.(pusher := if s.updated then TestUpdated else TestFirst)
    case TestFirst => n == s.(pusher := if s.pushSet then TestAgain else TestUpdated)
    case TestAgain => n == s.(pusher := if s.pushSet then LockToPush else FetchIdle)
    case LockToPush => s.commitLock == Free && n == s.(commitLock := Pusher, pusher := StartPush)
    case StartPush => n == s.(pusher := Pushing(s.curr))
    case Pushing(oid) =>
      || n == s.(pusher := LockAfterFailure)
      || (Ancestor(s.tip, oid)
          && n == s.(tip := oid, accepted := s.accepted + {oid}, pusher := Accepted(oid)))
    case Accepted(oid) =>
      && (n.tracking == s.tracking || n.tracking == oid)
      && (n == s.(tracking := n.tracking, pusher := ClearPush) || n == s.(tracking := n.tracking, pusher := LockAfterFailure))
    case LockAfterFailure => s.updateLock == Free && n == s.(updateLock := Pusher, pusher := FetchAfterFailure)
    case FetchAfterFailure =>
      (n.tracking == s.tip || n.tracking == s.tracking) && n == s.(tracking := n.tracking, pusher := SetAfterFailure)
    case SetAfterFailure => n == s.(updated := true, pusher := UnlockAfterFailure)
    case UnlockAfterFailure => n == s.(updateLock := Free, pusher := ClearPush)
    case ClearPush => n == s.(pushSet := false, pusher := UnlockPush)
    case UnlockPush => n == s.(commitLock := Free, pusher := TestUpdated)
    case FetchIdle => n == s.(tracking := s.tip, pusher := if s.tracking == s.tip then TestUpdated else LockIdle)
    case LockIdle => s.updateLock == Free && n == s.(updateLock := Pusher, pusher := SetIdle)
    case SetIdle => n == s.(updated := true, pusher := UnlockIdle)
    case UnlockIdle => n == s.(updateLock := Free, pusher := TestUpdated)
  }

  /** Another miner's commit lands on the remote. */
  predicate RivalStep(s: State, n: State) {
    n.tip.Child? && n.tip.parent == s.tip && n == s.(tip := n.tip, accepted := s.accepted + {n.tip})
  }

  predicate Next(s: State, n: State) {
    MinerStep(s, n) || PusherStep(s, n) || RivalStep(s, n)
  }

  // ----- what every state keeps -----

  /** The pusher has committed to pushing and has not yet cleared the pointer. */
  predicate Engaged(p: PusherPc) {
    p.TestAgain? || p.LockToPush? || p.StartPush? || p.Pushing? || p.Accepted? || p.LockAfterFailure?
    || p.FetchAfterFailure? || p.SetAfterFailure? || p.UnlockAfterFailure? || p.ClearPush?
  }

  predicate MinerHoldsCommit(m: MinerPc) {
    m.LockUpdate? || MinerHoldsUpdate(m) || m.UnlockCommit? || m.WriteCommit? || m.Publish? || m.UnlockAfterCommit?
  }

  predicate MinerHoldsUpdate(m: MinerPc) {
    m.Reset? || m.ResetHead? || m.LowerFlag? || m.LowerPointer? || m.UnlockUpdate?
  }

  predicate PusherHoldsCommit(p: PusherPc) {
    p.StartPush? || p.Pushing? || p.Accepted? || p.LockAfterFailure? || p.FetchAfterFailure? || p.SetAfterFailure?
    || p.UnlockAfterFailure? || p.ClearPush? || p.UnlockPush?
  }

  predicate PusherHoldsUpdate(p: PusherPc) { p.FetchAfterFailure? || p.SetAfterFailure? || p.UnlockAfterFailure? }

  predicate Idle(p: PusherPc) { p.FetchIdle? || p.LockIdle? || p.SetIdle? || p.UnlockIdle? }

  predicate LocksOk(s: State) {
    && (s.commitLock == Miner <==> MinerHoldsCommit(s.miner))
    && (s.commitLock == Pusher <==> PusherHoldsCommit(s.pusher))
    && (s.updateLock == Miner <==> MinerHoldsUpdate(s.miner))
    && (s.updateLock == Pusher <==> PusherHoldsUpdate(s.pusher))
  }

  /** Between seeing the flag down and raising it. */
  predicate Undecided(p: PusherPc) {
    p.TestFirst? || (Engaged(p) && !p.UnlockAfterFailure? && !p.ClearPush?)
  }

  /** Only the pusher raises the flag, so it is down while the pusher has not yet decided to. */
  predicate FlagOk(s: State) {
    && !Idle(s.pusher)
    && (Engaged(s.pusher) ==> s.pushSet)
    && (Undecided(s.pusher) ==> !s.updated)
    && (s.pusher.UnlockAfterFailure? ==> s.updated)
    && (s.pusher.ClearPush? ==> s.updated || s.curr in s.accepted)
    && (s.updated && !s.pusher.UnlockAfterFailure? && !s.pusher.ClearPush? ==> !s.pushSet)
  }

  /** The miner is past its last look at the pointer. */
  predicate Clear(m: MinerPc) { m.CheckUpdated? || m.LockForCommit? || m.WriteCommit? || m.Publish? }

  /** A message has been prepared and not yet turned into a commit. */
  predicate Drafted(m: MinerPc) {
    m.Mine? || m.CheckFound? || m.AwaitPush? || m.CheckUpdated? || m.LockForCommit? || m.WriteCommit?
  }

  /** What the miner builds on has been accepted, is being pushed, or is about to be thrown away. */
  predicate HeadOk(s: State) {
    && (s.miner.Publish? || s.updated || s.head in s.accepted || (s.pushSet && s.head == s.curr))
    && (Clear(s.miner) ==> !s.pushSet)
    && (s.miner.LockForCommit? || s.miner.WriteCommit? ==> !s.updated && s.head in s.accepted)
    && (s.miner.Publish? ==> !s.updated && s.head == s.curr)
    && (Drafted(s.miner) ==> s.draft == s.head)
    && (s.miner.Publish? || s.pushSet ==> s.curr.Child? && s.curr.parent in s.accepted)
  }

  /** What is pushed is what was handed over. */
  predicate PushOk(s: State) {
    && (s.pusher.Pushing? || s.pusher.Accepted? ==> s.pusher.oid == s.curr)
    && (s.pusher.Accepted? ==> s.curr in s.accepted)
  }

  /** While the miner starts over, nothing is handed over and the flag stays up until it has. */
  predicate ResetOk(s: State) {
    && (s.miner.ResetHead? ==> s.updated)
    && (s.miner.LowerFlag? ==> s.updated && s.head in s.accepted)
    && (s.miner.LowerPointer? ==> !s.pushSet && s.head in s.accepted)
  }

  predicate RemoteOk(s: State) {
    s.tip in s.accepted && s.tracking in s.accepted && forall c :: c in s.accepted ==> Ancestor(c, s.tip)
  }

  predicate Inv(s: State) {
    LocksOk(s) && FlagOk(s) && HeadOk(s) && PushOk(s) && ResetOk(s) && RemoteOk(s)
  }

  lemma InitInv(s: State)
    requires Init(s)
    ensures Inv(s)
  {}

  lemma {:induction false} AncestorTransitive(a: Commit, b: Commit, c: Commit)
    requires Ancestor(a, b) && Ancestor(b, c)
    ensures Ancestor(a, c)
    decreases c
  {
    if b != c {
      AncestorTransitive(a, b, c.parent);
    }
  }

  lemma {:induction false} AncestorDepth(a: Commit, c: Commit)
    requires Ancestor(a, c)
    ensures Depth(a) <= Depth(c) && (Depth(a) == Depth(c) ==> a == c)
    decreases c
  {
    if a != c {
      AncestorDepth(a, c.parent);
    }
  }

  /** The remote only ever moves forward. */
  lemma TipMoves(s: State, tip: Commit)
    requires RemoteOk(s) && Ancestor(s.tip, tip)
    ensures forall c :: c in s.accepted + {tip} ==> Ancestor(c, tip)
  {
    forall c | c in s.accepted + {tip} ensures Ancestor(c, tip) {
      if c in s.accepted {
        AncestorTransitive(c, s.tip, tip);
      }
    }
  }

  lemma MinerKeepsLocks(s: State, n: State)
    requires LocksOk(s) && MinerStep(s, n)
    ensures LocksOk(n)
  {}

  lemma MinerKeepsFlag(s: State, n: State)
    requires LocksOk(s) && FlagOk(s) && HeadOk(s) && ResetOk(s) && MinerStep(s, n)
    ensures FlagOk(n)
  {}

  lemma MinerKeepsReset(s: State, n: State)
    requires LocksOk(s) && FlagOk(s) && ResetOk(s) && PushOk(s) && s.tracking in s.accepted && MinerStep(s, n)
    ensures ResetOk(n) && PushOk(n)
  {}

  lemma MinerKeepsHead(s: State, n: State)
    requires LocksOk(s) && FlagOk(s) && HeadOk(s) && ResetOk(s) && s.tracking in s.accepted && MinerStep(s, n)
    ensures HeadOk(n)
  {}

  lemma MinerKeeps(s: State, n: State)
    requires Inv(s) && MinerStep(s, n)
    ensures Inv(n)
  {
    MinerKeepsLocks(s, n);
    MinerKeepsFlag(s, n);
    MinerKeepsHead(s, n);
    MinerKeepsReset(s, n);
  }

  lemma PusherKeepsLocks(s: State, n: State)
    requires LocksOk(s) && !Idle(s.pusher) && PusherStep(s, n) && !Idle(n.pusher)
    ensures LocksOk(n)
  {}

  lemma PusherKeepsRemote(s: State, n: State)
    requires RemoteOk(s) && PushOk(s) && PusherStep(s, n)
    ensures RemoteOk(n)
  {
    if s.pusher.Pushing? && Ancestor(s.tip, s.pusher.oid) {
      TipMoves(s, s.pusher.oid);
    }
  }

  /** The pusher has not begun to push. */
  predicate Looking(p: PusherPc) { p.TestUpdated? || p.TestFirst? || p.TestAgain? || p.LockToPush? || p.StartPush? }

  lemma LookingKeepsFlag(s: State, n: State)
    requires FlagOk(s) && Looking(s.pusher) && PusherStep(s, n)
    ensures FlagOk(n)
  {}

  lemma PushingKeepsFlag(s: State, n: State)
    requires LocksOk(s) && FlagOk(s) && HeadOk(s) && PushOk(s) && !Looking(s.pusher) && PusherStep(s, n)
    ensures FlagOk(n)
  {}

  lemma PusherKeepsFlag(s: State, n: State)
    requires LocksOk(s) && FlagOk(s) && HeadOk(s) && PushOk(s) && PusherStep(s, n)
    ensures FlagOk(n)
  {
    if Looking(s.pusher) {
      LookingKeepsFlag(s, n);
    } else {
      PushingKeepsFlag(s, n);
    }
  }

  lemma PusherKeepsHead(s: State, n: State)
    requires LocksOk(s) && FlagOk(s) && HeadOk(s) && PushOk(s) && PusherStep(s, n)
    ensures HeadOk(n)
  {}

  lemma PusherKeepsReset(s: State, n: State)
    requires LocksOk(s) && FlagOk(s) && ResetOk(s) && PushOk(s) && PusherStep(s, n)
    ensures ResetOk(n) && PushOk(n)
  {}

  lemma PusherKeeps(s: State, n: State)
    requires Inv(s) && PusherStep(s, n)
    ensures Inv(n)
  {
    PusherKeepsFlag(s, n);
    PusherKeepsLocks(s, n);
    PusherKeepsRemote(s, n);
    PusherKeepsHead(s, n);
    PusherKeepsReset(s, n);
  }

  lemma RivalKeeps(s: State, n: State)
    requires Inv(s) && RivalStep(s, n)
    ensures Inv(n)
  {
    TipMoves(s, n.tip);
  }

  // ----- whole runs -----

  predicate Run(b: seq<State>) {
    b != [] && Init(b[0]) && forall i :: 0 <= i < |b| - 1 ==> Next(b[i], b[i + 1])
  }

  lemma {:induction false} RunInv(b: seq<State>, i: nat)
    requires Run(b) && i < |b|
    ensures Inv(b[i])
    decreases i
  {
    if i == 0 {
      InitInv(b[0]);
    } else {
      RunInv(b, i - 1);
      var s, n := b[i - 1], b[i];
      assert Next(s, n);
      if MinerStep(s, n) { MinerKeeps(s, n); }
      else if PusherStep(s, n) { PusherKeeps(s, n); }
      else { RivalKeeps(s, n); }
    }
  }

  /** In every run, whatever is handed to the pusher builds on a commit the remote has accepted. */
  lemma HandedOverOnAccepted(b: seq<State>, i: nat)
    requires Run(b) && i < |b| && b[i].pushSet
    ensures b[i].curr.Child? && b[i].curr.parent in b[i].accepted
  {
    RunInv(b, i);
  }

  /** In every run, a push has a commit to push, and that commit is not overwritten while it lasts. */
  lemma PushedOidStable(b: seq<State>, i: nat)
    requires Run(b) && i < |b| && b[i].pusher.Pushing?
    ensures b[i].pushSet && b[i].pusher.oid == b[i].curr
    ensures i + 1 < |b| ==> b[i + 1].curr == b[i].curr
  {
    RunInv(b, i);
    if i + 1 < |b| {
      assert Next(b[i], b[i + 1]);
    }
  }

  /** In every run, a push that the remote accepts adds one commit on top of its branch, or finds it there. */
  lemma AcceptedPushExtends(b: seq<State>, i: nat)
    requires Run(b) && i < |b| && b[i].pusher.Pushing? && Ancestor(b[i].tip, b[i].pusher.oid)
    ensures b[i].pusher.oid == b[i].tip || (b[i].pusher.oid.Child? && b[i].pusher.oid.parent == b[i].tip)
  {
    RunInv(b, i);
    var s := b[i];
    var c := s.pusher.oid;
    if c != s.tip {
      AncestorDepth(s.tip, c.parent);
      assert Ancestor(c.parent, s.tip);
      AncestorDepth(c.parent, s.tip);
    }
  }

  /** The fetch that the pusher would do between its two looks at the pointer never happens. */
  lemma NoIdleFetch(b: seq<State>, i: nat)
    requires Run(b) && i < |b|
    ensures !Idle(b[i].pusher)
  {
    RunInv(b, i);
  }

  // ----- progress -----

  predicate MinerBlocked(s: State) {
    || ((s.miner.LockCommit? || s.miner.LockForCommit?) && s.commitLock != Free)
    || (s.miner.LockUpdate? && s.updateLock != Free)
  }

  predicate PusherBlocked(s: State) {
    || (s.pusher.LockToPush? && s.commitLock != Free)
    || ((s.pusher.LockAfterFailure? || s.pusher.LockIdle?) && s.updateLock != Free)
  }

  /** In every run, a thread waits only for a mutex held by the other, and the other is not waiting. */
  lemma NoDeadlock(b: seq<State>, i: nat)
    requires Run(b) && i < |b|
    ensures !(MinerBlocked(b[i]) && PusherBlocked(b[i]))
    ensures !PusherBlocked(b[i]) ==> exists n :: PusherStep(b[i], n)
    ensures !MinerBlocked(b[i]) ==> exists n :: MinerStep(b[i], n)
  {
    RunInv(b, i);
    if !PusherBlocked(b[i]) {
      PusherCanStep(b[i]);
    }
    if !MinerBlocked(b[i]) {
      MinerCanStep(b[i]);
    }
  }

  lemma PusherCanStep(s: State)
    requires !PusherBlocked(s)
    ensures exists n :: PusherStep(s, n)
  {
    var n := match s.pusher
      case TestUpdated => s.(pusher := if s.updated then TestUpdated else TestFirst)
      case TestFirst => s.(pusher := if s.pushSet then TestAgain else TestUpdated)
      case TestAgain => s.(pusher := if s.pushSet then LockToPush else FetchIdle)
      case LockToPush => s.(commitLock := Pusher, pusher := StartPush)
      case StartPush => s.(pusher := Pushing(s.curr))
      case Pushing(_) => s.(pusher := LockAfterFailure)
      case LockAfterFailure => s.(updateLock := Pusher, pusher := FetchAfterFailure)
      case Accepted(_) => s.(pusher := ClearPush)
      case FetchAfterFailure => s.(tracking := s.tip, pusher := SetAfterFailure)
      case SetAfterFailure => s.(updated := true, pusher := UnlockAfterFailure)
      case UnlockAfterFailure => s.(updateLock := Free, pusher := ClearPush)
      case ClearPush => s.(pushSet := false, pusher := UnlockPush)
      case UnlockPush => s.(commitLock := Free, pusher := TestUpdated)
      case FetchIdle => s.(tracking := s.tip, pusher := if s.tracking == s.tip then TestUpdated else LockIdle)
      case LockIdle => s.(updateLock := Pusher, pusher := SetIdle)
      case SetIdle => s.(updated := true, pusher := UnlockIdle)
      case UnlockIdle => s.(updateLock := Free, pusher := TestUpdated);
    assert PusherStep(s, n);
  }

  lemma MinerCanStep(s: State)
    requires !MinerBlocked(s)
    ensures exists n :: MinerStep(s, n)
  {
    var n := match s.miner
      case LockCommit => s.(commitLock := Miner, miner := LockUpdate)
      case LockUpdate => s.(updateLock := Miner, miner := Reset)
      case Reset => s.(miner := if s.updated then ResetHead else UnlockUpdate)
      case ResetHead => s.(head := s.tracking, miner := LowerFlag)
      case LowerFlag => s.(updated := false, miner := LowerPointer)
      case LowerPointer => s.(pushSet := false, miner := UnlockUpdate)
      case UnlockUpdate => s.(updateLock := Free, miner := UnlockCommit)
      case UnlockCommit => s.(commitLock := Free, miner := Prepare)
      case Prepare => s.(draft := s.head, miner := Mine)
      case Mine => s.(miner := CheckFound)
      case CheckFound => s.(miner := if !s.updated && s.found then AwaitPush else LockCommit)
      case AwaitPush => if s.pushSet then s else s.(miner := CheckUpdated)
      case CheckUpdated => s.(miner := if s.updated then LockCommit else LockForCommit)
      case LockForCommit => s.(commitLock := Miner, miner := WriteCommit)
      case WriteCommit => s.(curr := Child(s.draft, 0), head := Child(s.draft, 0), miner := Publish)
      case Publish => s.(pushSet := true, miner := UnlockAfterCommit)
      case UnlockAfterCommit => s.(commitLock := Free, miner := LockCommit);
    assert MinerStep(s, n);
  }

  /** How many pusher steps remain at most before the pointer is cleared. */
  function StepsToClear(p: PusherPc): nat {
    match p
    case UnlockPush => 13
    case TestUpdated => 12
    case TestFirst => 11
    case TestAgain => 10
    case LockToPush => 9
    case StartPush => 8
    case Pushing(_) => 7
    case Accepted(_) => 6
    case LockAfterFailure => 5
    case FetchAfterFailure => 4
    case SetAfterFailure => 3
    case UnlockAfterFailure => 2
    case ClearPush => 1
    case _ => 0
  }

  /**
   * While a miner spins on the pointer the pusher is not blocked, and each of
   * its steps brings the clearing of the pointer nearer.
   */
  lemma SpinStep(s: State, n: State)
    requires Inv(s) && s.miner.AwaitPush? && s.pushSet && PusherStep(s, n)
    ensures !PusherBlocked(s)
    ensures !n.pushSet || StepsToClear(n.pusher) < StepsToClear(s.pusher)
  {}

  /** Nothing sets the pointer meanwhile, and only the pusher's own steps move the pusher. */
  lemma SpinNext(s: State, n: State)
    requires Inv(s) && Next(s, n) && s.miner.AwaitPush? && n.miner.AwaitPush? && n.pushSet
    ensures s.pushSet && StepsToClear(n.pusher) + (if PusherStep(s, n) then 1 else 0) <= StepsToClear(s.pusher)
  {
    if PusherStep(s, n) {
      assert s.pushSet;
      SpinStep(s, n);
    }
  }

  /** How many steps of the pusher there are from `i` to `j`. */
  function PusherSteps(b: seq<State>, i: nat, j: nat): nat
    requires i <= j < |b|
    decreases j
  {
    if i == j then 0 else PusherSteps(b, i, j - 1) + if PusherStep(b[j - 1], b[j]) then 1 else 0
  }

  /** From `i` to `j` the miner waits for the pointer to be cleared. */
  predicate Spins(b: seq<State>, i: nat, j: nat) {
    i <= j < |b| && forall k :: i <= k <= j ==> b[k].miner.AwaitPush?
  }

  lemma {:induction false} SpinCount(b: seq<State>, i: nat, j: nat)
    requires Run(b) && Spins(b, i, j) && b[j].pushSet
    ensures b[i].pushSet && PusherSteps(b, i, j) + StepsToClear(b[j].pusher) <= StepsToClear(b[i].pusher)
    decreases j
  {
    if i < j {
      RunInv(b, j - 1);
      assert Next(b[j - 1], b[j - 1 + 1]);
      SpinNext(b[j - 1], b[j]);
      SpinCount(b, i, j - 1);
    }
  }

  /**
   * In every run, a miner spinning on the pointer is waiting for something
   * that comes: the pusher is never blocked meanwhile, and once it has taken
   * thirteen steps the pointer has been cleared, whatever else happens in
   * between.
   */
  lemma SpinEnds(b: seq<State>, i: nat, j: nat)
    requires Run(b) && Spins(b, i, j)
    ensures b[j].pushSet ==> !PusherBlocked(b[j])
    ensures PusherSteps(b, i, j) >= 13 ==> !b[j].pushSet
  {
    RunInv(b, j);
    if b[j].pushSet {
      SpinCount(b, i, j);
    }
  }
}
