/** Runs of the scheduler: any sequence of library calls, switches, interrupts, clock readings and kernel reports. */
module SchedulerRuns {
  import opened Options
  import opened ThreadStates
  import opened Scheduler
  import opened SchedulerInvariant

  /** One step of the thread that has the processor. */
  datatype Op =
    | OpPoll(timeout: Option<int>, added: bool)
    | OpUsleep(timeout: Option<int>)
    | OpCondWait(c: Cid, timeout: Option<int>)
    | OpSignal(c: Cid, broadcast: bool)
    | OpLock(m: Mid)
    | OpUnlock(m: Mid)
    | OpTrylock(m: Mid)
    | OpInterrupt(t: Tid)
    | OpCreate(t: Tid, tc: Option<Cid>)
    | OpExit
    | OpJoin(t: Tid)
    | OpNewCond(c: Cid)
    | OpNewMutex(m: Mid)
    | OpDestroyCond(c: Cid)
    | OpDestroyMutex(m: Mid)
    | OpResume
    | OpIdle(fired: set<Tid>, now: int, order: seq<Tid>)

  /** An ordinary condition variable, not the one that announces a thread's end. */
  predicate Ordinary(s: State, c: Cid) {
    c in s.cond && s.cond[c].owner == None
  }

  /** A thread that a caller may hold a handle of. */
  predicate Handle(s: State, t: Tid) {
    t in s.thread && t != s.idle && s.thread[t].at != Gone
  }

  /** The running thread can take this step; the order in which an idle turn wakes is not its own choice. */
  predicate Possible(s: State, op: Op) {
    s.current in s.thread &&
    match op
    case OpIdle(_, now, _) => s.current == s.idle && s.lastClock <= now
    case OpResume => Me(s).at != Code && Me(s).at != Idling
    case OpCondWait(c, _) => Calling(s) && Ordinary(s, c)
    case OpSignal(c, _) => Calling(s) && Ordinary(s, c)
    case OpDestroyCond(c) => Calling(s) && Ordinary(s, c)
    case OpLock(m) => Calling(s) && m in s.mutex
    case OpUnlock(m) => Calling(s) && m in s.mutex
    case OpTrylock(m) => Calling(s) && m in s.mutex
    case OpDestroyMutex(m) => Calling(s) && m in s.mutex
    case OpInterrupt(t) => Calling(s) && Handle(s, t)
    case OpJoin(t) => Calling(s) && Handle(s, t)
    case OpCreate(t, tc) => Calling(s) && t !in s.thread && (tc.Some? ==> tc.value !in s.cond)
    case OpNewCond(c) => Calling(s) && c !in s.cond
    case OpNewMutex(m) => Calling(s) && m !in s.mutex
    case _ => Calling(s)
  }

  ghost predicate Enabled(s: State, op: Op) {
    Possible(s, op) && (op.OpIdle? ==> IdleInput(s, op.fired, op.now, op.order))
  }

  function Next(s: State, op: Op): (State, Ret)
    requires Enabled(s, op)
  {
    match op
    case OpPoll(timeout, added) => Poll(s, timeout, added)
    case OpUsleep(timeout) => Usleep(s, timeout)
    case OpCondWait(c, timeout) => CondWait(s, c, timeout)
    case OpSignal(c, broadcast) => (Signal(s, s.cond[c].waitQ, broadcast), Ok)
    case OpLock(m) => Lock(s, m)
    case OpUnlock(m) => Unlock(s, m)
    case OpTrylock(m) => Trylock(s, m)
    case OpInterrupt(t) => (Interrupt(s, t), Ok)
    case OpCreate(t, tc) => (Create(s, t, tc), Ok)
    case OpExit => (Exit(s), Switched)
    case OpJoin(t) => Join(s, t)
    case OpNewCond(c) => (s.(cond := s.cond[c := Cond([], None)]), Ok)
    case OpNewMutex(m) => (s.(mutex := s.mutex[m := Mutex(None, [])]), Ok)
    case OpDestroyCond(c) => DestroyCond(s, c)
    case OpDestroyMutex(m) => DestroyMutex(s, m)
    case OpResume => Resume(s)
    case OpIdle(fired, now, order) => (IdleTurn(s, fired, now, order), Switched)
  }

  lemma ResumeKeeps(s: State)
    requires Inv(s) && Enabled(s, OpResume)
    ensures Inv(Resume(s).0)
  {
    assert ThreadOk(s, s.current);
    match Me(s).at
    case Polling(_) => PollReturns(s);
    case Sleeping(_) => UsleepReturns(s);
    case Waiting(c) => CondReturns(s, c);
    case Joining(_, _) => JoinReturns(s);
    case Locking(_) => LockReturns(s);
    case Exiting => ExitReturns(s);
    case _ =>
  }

  /** A step after which the processor may be another thread's, or was before. */
  predicate Switches(op: Op) {
    op.OpPoll? || op.OpUsleep? || op.OpCondWait? || op.OpLock? || op.OpJoin? || op.OpExit? || op.OpResume? || op.OpIdle?
  }

  lemma SwitchKeeps(s: State, op: Op)
    requires Inv(s) && Enabled(s, op) && Switches(op)
    ensures Inv(Next(s, op).0)
  {
    match op
    case OpPoll(timeout, added) => PollKeeps(s, timeout, added);
    case OpUsleep(timeout) => UsleepKeeps(s, timeout);
    case OpCondWait(c, timeout) => CondWaitKeeps(s, c, timeout);
    case OpLock(m) => LockKeeps(s, m);
    case OpExit => ExitKeeps(s);
    case OpJoin(t) => JoinKeeps(s, t);
    case OpResume => ResumeKeeps(s);
    case OpIdle(fired, now, order) => IdleTurnKeeps(s, fired, now, order);
  }

  lemma StepKeeps(s: State, op: Op)
    requires Inv(s) && Enabled(s, op)
    ensures Inv(Next(s, op).0)
  {
    if Switches(op) {
      SwitchKeeps(s, op);
    } else {
      match op
      case OpSignal(c, broadcast) => CondSignalKeeps(s, c, broadcast);
      case OpUnlock(m) => UnlockKeeps(s, m);
      case OpTrylock(m) => TrylockKeeps(s, m);
      case OpInterrupt(t) => InterruptKeeps(s, t);
      case OpCreate(t, tc) => CreateKeeps(s, t, tc);
      case OpNewCond(c) => NewCondKeeps(s, c);
      case OpNewMutex(m) => NewMutexKeeps(s, m);
      case OpDestroyCond(c) => DestroyCondKeeps(s, c);
      case OpDestroyMutex(m) => DestroyMutexKeeps(s, m);
    }
  }

  /** st_init: the primordial thread runs, the idle thread is runnable but on no queue. */
  function Init(primordial: Tid, idle: Tid, clock: int): State {
    State(map[primordial := Thread(RUNNING, Code, false, false, false, 0, None),
              idle := Thread(RUNNABLE, Idling, false, false, false, 0, None)],
          primordial, idle, [], [], [], {}, map[], map[], clock)
  }

  lemma InitOk(primordial: Tid, idle: Tid, clock: int)
    requires primordial != idle
    ensures Inv(Init(primordial, idle, clock))
  {
  }

  ghost predicate IsRun(run: seq<State>, ops: seq<Op>) {
    && |run| == |ops| + 1
    && (exists p: Tid, i: Tid, clock: int :: p != i && run[0] == Init(p, i, clock))
    && forall k {:trigger StepAt(run, ops, k)} :: 0 <= k < |ops| ==> StepAt(run, ops, k)
  }

  ghost predicate StepAt(run: seq<State>, ops: seq<Op>, k: int)
    requires 0 <= k < |ops| && |run| == |ops| + 1
  {
    Enabled(run[k], ops[k]) && run[k + 1] == Next(run[k], ops[k]).0
  }

  /** Every state of every run satisfies the invariant. */
  lemma {:induction false} AlwaysInv(run: seq<State>, ops: seq<Op>, k: nat)
    requires IsRun(run, ops) && k < |run|
    ensures Inv(run[k])
  {
    if k == 0 {
      var p: Tid, i: Tid, clock: int :| p != i && run[0] == Init(p, i, clock);
      InitOk(p, i, clock);
    } else {
      AlwaysInv(run, ops, k - 1);
      assert StepAt(run, ops, k - 1);
      StepKeeps(run[k - 1], ops[k - 1]);
    }
  }
}
