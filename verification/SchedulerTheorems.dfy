/** Safety of the scheduler over whole runs. */
module SchedulerTheorems {
  import opened Options
  import opened ThreadStates
  import opened Queues
  import opened Scheduler
  import opened SchedulerInvariant
  import opened SchedulerRuns
  import opened SchedulerEffects
  import HeapModel

  // ---------- Every thread is in one place ----------

  lemma {:induction false} CountOnce(q: seq<Tid>, t: Tid)
    requires NoDup(q)
    ensures multiset(q)[t] == if t in q then 1 else 0
  {
    if q != [] {
      PopNoDup(q);
      CountOnce(q[1..], t);
      assert q == [q[0]] + q[1..];
    }
  }

  /**
   * In every state of every run a live thread that is not running is in exactly the place its state names: on the
   * run queue once iff RUNNABLE, on the zombie queue once iff ZOMBIE, in the timeout heap iff ON_SLEEPQ and then
   * not RUNNABLE, on the queue of the one condition variable or mutex it is blocked at. The idle thread is on none.
   */
  lemma OnePlace(run: seq<State>, ops: seq<Op>, k: nat, t: Tid)
    requires IsRun(run, ops) && k < |run| && t in run[k].thread && run[k].thread[t].at != Gone
    ensures var s := run[k];
      var r := s.thread[t];
      && (r.state == RUNNING <==> t == s.current)
      && multiset(s.runQ)[t] == (if r.state == RUNNABLE && t != s.idle then 1 else 0)
      && multiset(s.zombieQ)[t] == (if r.state == ZOMBIE then 1 else 0)
      && (r.state == IO_WAIT ==> multiset(s.ioQ)[t] == 1)
      && (t in s.sleepQ <==> r.onSleepq) && (r.state == RUNNABLE ==> t !in s.sleepQ)
      && (forall c :: c in s.cond ==> multiset(s.cond[c].waitQ)[t] == if OnCond(r.at, c) then 1 else 0)
      && (forall m :: m in s.mutex ==> multiset(s.mutex[m].waitQ)[t] == if r.at == Locking(m) then 1 else 0)
      && (r.state == COND_WAIT ==> exists c :: c in s.cond && OnCond(r.at, c))
      && (r.state == LOCK_WAIT ==> exists m :: m in s.mutex && r.at == Locking(m))
      && (t == s.idle ==> t !in s.runQ && t !in s.zombieQ && t !in s.ioQ && t !in s.sleepQ)
  {
    var s := run[k];
    AlwaysInv(run, ops, k);
    assert ThreadOk(s, t) && ThreadOk(s, s.current);
    CountOnce(s.runQ, t);
    CountOnce(s.zombieQ, t);
    CountOnce(s.ioQ, t);
    forall c | c in s.cond ensures multiset(s.cond[c].waitQ)[t] == if OnCond(s.thread[t].at, c) then 1 else 0 {
      assert CondOk(s, c);
      CountOnce(s.cond[c].waitQ, t);
    }
    forall m | m in s.mutex ensures multiset(s.mutex[m].waitQ)[t] == if s.thread[t].at == Locking(m) then 1 else 0 {
      assert MutexOk(s, m);
      CountOnce(s.mutex[m].waitQ, t);
    }
    if s.thread[t].state == COND_WAIT {
      var c := if s.thread[t].at.Waiting? then s.thread[t].at.c else s.thread[t].at.tc;
      assert c in s.cond && OnCond(s.thread[t].at, c);
    }
  }

  // ---------- Wakeups are exact ----------

  /**
   * One turn of the idle loop from any reachable state: dispatch starts with an empty run queue and only IO_WAIT
   * requests; the reported threads wake in queue order, then exactly the sleepers that are due, earliest first; no
   * thread is enqueued twice, and only later sleepers stay in the heap.
   */
  lemma IdleTurnWakesExactly(s: State, fired: set<Tid>, now: int, order: seq<Tid>)
    requires Inv(s) && Enabled(s, OpIdle(fired, now, order))
    ensures s.runQ == [] && forall t :: t in s.ioQ ==> t in s.thread && s.thread[t].state == IO_WAIT
    ensures var s1 := Dispatch(s, s.ioQ, fired);
      var s2 := Expire(s1.(lastClock := now), order);
      && s1.runQ == Chosen(s.ioQ, fired) && s1.ioQ == Unchosen(s.ioQ, fired)
      && s2.runQ == s1.runQ + order && NoDup(s2.runQ)
      && s2.sleepQ == set t | t in s1.sleepQ && HeapModel.Due(Dues(s1), t) > now
  {
    DispatchFindsOnlyWaiters(s);
    DispatchedExactly(s, fired);
    ClockCheckReady(s, fired, now, order);
    ExpiredExactly(Dispatch(s, s.ioQ, fired), now, order);
  }

  lemma DispatchedExactly(s: State, fired: set<Tid>)
    requires s.runQ == [] && NoDup(s.ioQ) && forall t :: t in s.ioQ ==> t in s.thread
    ensures var s1 := Dispatch(s, s.ioQ, fired); s1.runQ == Chosen(s.ioQ, fired) && s1.ioQ == Unchosen(s.ioQ, fired)
  {
    assert [] + s.ioQ == s.ioQ;
    DispatchAppends(s, s.ioQ, fired);
    DispatchRemoves(s, [], s.ioQ, fired);
    assert [] + Chosen(s.ioQ, fired) == Chosen(s.ioQ, fired) && [] + Unchosen(s.ioQ, fired) == Unchosen(s.ioQ, fired);
  }

  ghost predicate ReadyForClock(s1: State, now: int, order: seq<Tid>) {
    var s2 := s1.(lastClock := now);
    && Inv0(s2) && NoDup(order) && HeapModel.Expiry(s1.sleepQ, Dues(s1), now, order)
    && forall t :: t in order ==> t in s2.sleepQ && t in s2.thread && s2.thread[t].due <= now && t != s2.current
  }

  lemma ExpiredExactly(s1: State, now: int, order: seq<Tid>)
    requires ReadyForClock(s1, now, order)
    ensures var s2 := Expire(s1.(lastClock := now), order);
      && s2.runQ == s1.runQ + order && NoDup(s2.runQ)
      && s2.sleepQ == set t | t in s1.sleepQ && HeapModel.Due(Dues(s1), t) > now
  {
    var s2 := s1.(lastClock := now);
    ExpireKeeps(s2, order);
    ExpireAppends(s2, order);
    forall t | t in s1.sleepQ ensures t in order <==> HeapModel.Due(Dues(s1), t) <= now {
      assert ThreadOk(s2, t);
      assert t in HeapModel.Elements(order) <==> t in order;
    }
  }

  /** The members of q in fired, in order. */
  function Chosen(q: seq<Tid>, fired: set<Tid>): seq<Tid> {
    if q == [] then [] else if q[0] in fired then [q[0]] + Chosen(q[1..], fired) else Chosen(q[1..], fired)
  }

  function Unchosen(q: seq<Tid>, fired: set<Tid>): seq<Tid> {
    if q == [] then [] else if q[0] in fired then Unchosen(q[1..], fired) else [q[0]] + Unchosen(q[1..], fired)
  }

  lemma {:induction false} WithoutAbsent(q: seq<Tid>, t: Tid)
    requires t !in q
    ensures Without(q, t) == q
  {
    if q != [] { WithoutAbsent(q[1..], t); }
  }

  lemma {:induction false} WithoutMiddle(p: seq<Tid>, q: seq<Tid>)
    requires q != [] && NoDup(p + q)
    ensures Without(p + q, q[0]) == p + q[1..]
  {
    if p == [] {
      assert p + q == q && p + q[1..] == q[1..];
      WithoutAbsent(q[1..], q[0]);
    } else {
      assert (p + q)[1..] == p[1..] + q && (p + q)[|p|] == q[0];
      PopNoDup(p + q);
      WithoutMiddle(p[1..], q);
      assert p + q[1..] == [p[0]] + (p[1..] + q[1..]);
    }
  }

  lemma {:induction false} DispatchAppends(s: State, q: seq<Tid>, fired: set<Tid>)
    requires forall t :: t in q ==> t in s.thread
    ensures Dispatch(s, q, fired).runQ == s.runQ + Chosen(q, fired)
    decreases |q|
  {
    if q != [] {
      var x, rest := q[0], q[1..];
      assert x in q && forall t :: t in rest ==> t in q;
      if x in fired {
        var s1 := Notify(s, x);
        DispatchAppends(s1, rest, fired);
        assert s1.runQ == s.runQ + [x];
        assert s.runQ + [x] + Chosen(rest, fired) == s.runQ + ([x] + Chosen(rest, fired));
      } else {
        DispatchAppends(s, rest, fired);
      }
    }
  }

  lemma {:induction false} DispatchRemoves(s: State, p: seq<Tid>, q: seq<Tid>, fired: set<Tid>)
    requires s.ioQ == p + q && NoDup(p + q) && forall t :: t in q ==> t in s.thread
    ensures Dispatch(s, q, fired).ioQ == p + Unchosen(q, fired)
    decreases |q|
  {
    if q != [] {
      var x := q[0];
      var s1 := if x in fired then Notify(s, x) else s;
      var rest := q[1..];
      assert x in q && forall t :: t in rest ==> t in q;
      assert forall t :: t in rest ==> t in s1.thread;
      if x in fired {
        WithoutMiddle(p, q);
        WithoutNoDup(p + q, x);
        DispatchRemoves(s1, p, rest, fired);
      } else {
        assert p + q == p + [x] + rest;
        DispatchRemoves(s1, p + [x], rest, fired);
        assert p + [x] + Unchosen(rest, fired) == p + ([x] + Unchosen(rest, fired));
      }
    }
  }

  lemma {:induction false} ExpireAppends(s: State, order: seq<Tid>)
    requires NoDup(order) && forall t :: t in order ==> t in s.thread
    ensures Expire(s, order).runQ == s.runQ + order
    ensures Expire(s, order).sleepQ == s.sleepQ - (set t | t in order)
    decreases |order|
  {
    if order != [] {
      var x, r := order[0], s.thread[order[0]];
      PopNoDup(order);
      ExpireAppends(Wake(s, x, r.(timedOut := r.timedOut || r.state == COND_WAIT)), order[1..]);
      assert s.runQ + [x] + order[1..] == s.runQ + order;
    }
  }

  // ---------- What a thread's own step does to its place ----------

  /** A call that blocks leaves the caller blocked at that call; every other step leaves it outside, or ends it. */
  predicate OwnPlace(s: State, op: Op, r': Thread) {
    match op
    case OpPoll(_, _) => r'.at == Code || (r'.at == Polling(true) && r'.state == IO_WAIT)
    case OpUsleep(timeout) =>
      || r'.at == Code
      || (r'.at == Sleeping(if timeout.Some? then Some(s.lastClock + timeout.value) else None) && !Awake(r'))
    case OpCondWait(c, timeout) =>
      || r'.at == Code
      || (r'.at == Waiting(c) && r'.state == COND_WAIT && !r'.timedOut && !r'.interrupt
          && (r'.onSleepq ==> timeout.Some? && r'.due == s.lastClock + timeout.value))
    case OpLock(m) => r'.at == Code || (r'.at == Locking(m) && r'.state == LOCK_WAIT)
    case OpJoin(x) =>
      r'.at == Code || (r'.at.Joining? && r'.at.target == x && r'.state == COND_WAIT && !r'.interrupt && x != s.current)
    case OpExit => r'.at == Exiting || r'.at == Gone
    case OpResume => r'.at == if s.current in s.thread && s.thread[s.current].at == Exiting then Gone else Code
    case OpIdle(_, _, _) => r'.at == Idling
    case _ => r'.at == Code
  }

  /** The processor goes to another thread, unless that is the idle one giving it back to itself. */
  lemma ScheduledAway(s: State)
    requires Inv0(s) && Stopped(s) && s.current != s.idle
    requires s.thread[s.current].state != RUNNABLE
    ensures s.current in Schedule(s).thread && Schedule(s).thread[s.current] == s.thread[s.current]
  {
    NextIsRunnable(s);
  }

  /** A caller that blocks and switches stays where it blocked. */
  lemma OwnPark(s: State, state: ThreadState, at: Where, timeout: Option<int>)
    requires s.current in s.thread && Inv0(Park(s, state, at, timeout)) && Stopped(Park(s, state, at, timeout))
    requires s.current != s.idle && state != RUNNABLE
    ensures var s' := Schedule(Park(s, state, at, timeout));
      s.current in s'.thread && s'.thread[s.current] == Park(s, state, at, timeout).thread[s.current]
  {
    ScheduledAway(Park(s, state, at, timeout));
  }

  lemma OwnPollStep(s: State, timeout: Option<int>, added: bool)
    requires Inv(s) && Calling(s)
    ensures var s' := Poll(s, timeout, added).0;
      s.current in s'.thread && OwnPlace(s, OpPoll(timeout, added), s'.thread[s.current])
  {
    CallerFacts(s);
    PollParks(s, timeout);
    OwnPark(s.(ioQ := s.ioQ + [s.current]), IO_WAIT, Polling(true), timeout);
  }

  lemma OwnUsleepStep(s: State, timeout: Option<int>)
    requires Inv(s) && Calling(s)
    ensures var s' := Usleep(s, timeout).0;
      s.current in s'.thread && OwnPlace(s, OpUsleep(timeout), s'.thread[s.current])
  {
    CallerFacts(s);
    UsleepParks(s, timeout);
    ScheduledAway(ParkAsleep(s, timeout));
  }

  lemma OwnCondWaitStep(s: State, c: Cid, timeout: Option<int>)
    requires Inv(s) && Calling(s) && Ordinary(s, c)
    ensures var s' := CondWait(s, c, timeout).0;
      s.current in s'.thread && OwnPlace(s, OpCondWait(c, timeout), s'.thread[s.current])
  {
    CallerFacts(s);
    CondParks(s, c, Waiting(c), timeout);
    OwnPark(EnqueueCond(s, c), COND_WAIT, Waiting(c), timeout);
  }

  lemma OwnLockStep(s: State, m: Mid)
    requires Inv(s) && Enabled(s, OpLock(m))
    ensures var s' := Lock(s, m).0; s.current in s'.thread && OwnPlace(s, OpLock(m), s'.thread[s.current])
  {
    CallerFacts(s);
    if s.mutex[m].owner != None {
      var v := s.mutex[m];
      LockParks(s, m);
      OwnPark(s.(mutex := s.mutex[m := v.(waitQ := v.waitQ + [s.current])]), LOCK_WAIT, Locking(m), None);
    }
  }

  lemma OwnJoinStep(s: State, x: Tid)
    requires Inv(s) && Enabled(s, OpJoin(x))
    ensures var s' := Join(s, x).0; s.current in s'.thread && OwnPlace(s, OpJoin(x), s'.thread[s.current])
  {
    CallerFacts(s);
    assert ThreadOk(s, x);
    var term := s.thread[x].term;
    if && term.Some? && s.current != x && s.cond[term.value].waitQ == [] && s.thread[x].state != ZOMBIE
       && !Me(s).interrupt {
      CondParks(s, term.value, Joining(x, term.value), None);
      OwnPark(EnqueueCond(s, term.value), COND_WAIT, Joining(x, term.value), None);
    }
  }

  lemma OwnExitStep(s: State)
    requires Inv(s) && Enabled(s, OpExit)
    ensures var s' := Exit(s); s.current in s'.thread && OwnPlace(s, OpExit, s'.thread[s.current])
  {
    var r := Me(s);
    CallerFacts(s);
    if r.term.Some? {
      var c := r.term.value;
      var s1 := SetMe(s, r.(state := ZOMBIE, at := Exiting)).(zombieQ := s.zombieQ + [s.current]);
      ExitParks(s);
      SignalKeeps(s1, c, s.cond[c].waitQ, false);
      ScheduledAway(Signal(s1, s.cond[c].waitQ, false));
    } else {
      ExitGoes(s);
      ScheduledAway(SetMe(s, r.(at := Gone)));
    }
  }

  lemma OwnResumeStep(s: State)
    requires Inv(s) && Enabled(s, OpResume)
    ensures var s' := Resume(s).0; s.current in s'.thread && OwnPlace(s, OpResume, s'.thread[s.current])
  {
    assert ThreadOk(s, s.current);
    if Me(s).at.Exiting? {
      VanishKeeps(s);
      ScheduledAway(Vanish(s));
    }
  }

  lemma OwnIdleStep(s: State, fired: set<Tid>, now: int, order: seq<Tid>)
    requires Inv(s) && Enabled(s, OpIdle(fired, now, order))
    ensures var s' := IdleTurn(s, fired, now, order); s.current in s'.thread && s'.thread[s.current].at == Idling
  {
    ClockCheckReady(s, fired, now, order);
    ExpireKeeps(Dispatch(s, s.ioQ, fired).(lastClock := now), order);
    assert ThreadOk(s, s.current);
  }

  lemma OwnSignalStep(s: State, c: Cid, broadcast: bool)
    requires Inv(s) && Enabled(s, OpSignal(c, broadcast))
    ensures var s' := Signal(s, s.cond[c].waitQ, broadcast); s.current in s'.thread && s'.thread[s.current].at == Code
  {
    CallerFacts(s);
    SignalKeeps(s, c, s.cond[c].waitQ, broadcast);
  }

  /** The calls that never switch. */
  lemma OwnPlainStep(s: State, op: Op)
    requires Inv(s) && Enabled(s, op)
    requires op.OpUnlock? || op.OpTrylock? || op.OpInterrupt? || op.OpCreate? || op.OpNewCond? || op.OpNewMutex?
          || op.OpDestroyCond? || op.OpDestroyMutex?
    ensures var s' := Next(s, op).0; s.current in s'.thread && s'.thread[s.current].at == Code
  {
    CallerFacts(s);
  }

  lemma OwnStep(s: State, op: Op)
    requires Inv(s) && Enabled(s, op)
    ensures var s' := Next(s, op).0; s.current in s'.thread && OwnPlace(s, op, s'.thread[s.current])
  {
    match op
    case OpPoll(timeout, added) => OwnPollStep(s, timeout, added);
    case OpUsleep(timeout) => OwnUsleepStep(s, timeout);
    case OpCondWait(c, timeout) => OwnCondWaitStep(s, c, timeout);
    case OpLock(m) => OwnLockStep(s, m);
    case OpJoin(x) => OwnJoinStep(s, x);
    case OpExit => OwnExitStep(s);
    case OpResume => OwnResumeStep(s);
    case OpIdle(fired, now, order) => OwnIdleStep(s, fired, now, order);
    case OpSignal(c, broadcast) => OwnSignalStep(s, c, broadcast);
    case _ => OwnPlainStep(s, op);
  }

  // ---------- st_cond_timedwait ----------

  /** At step j of the run, thread t is woken from COND_WAIT on c by a signal or broadcast of c. */
  ghost predicate SignalledAt(run: seq<State>, ops: seq<Op>, j: nat, t: Tid, c: Cid)
    requires |run| == |ops| + 1
  {
    && j < |ops| && ops[j].OpSignal? && ops[j].c == c
    && t in run[j].thread && run[j].thread[t].at == Waiting(c) && run[j].thread[t].state == COND_WAIT
    && t in run[j + 1].thread && Awake(run[j + 1].thread[t])
  }

  /** From state j on up to state k, t is awake inside that wait: it has not returned from it yet. */
  ghost predicate AwakeIn(run: seq<State>, j: int, k: int, t: Tid, c: Cid)
    requires 0 <= j <= k < |run|
  {
    forall l {:trigger run[l]} :: j <= l <= k ==>
      t in run[l].thread && run[l].thread[t].at == Waiting(c) && Awake(run[l].thread[t])
  }

  lemma {:induction false} WokenBySignal(run: seq<State>, ops: seq<Op>, k: nat, t: Tid, c: Cid) returns (j: nat)
    requires IsRun(run, ops) && k < |run| && t in run[k].thread
    requires var r := run[k].thread[t]; r.at == Waiting(c) && Awake(r) && !r.timedOut && !r.interrupt
    ensures j < k && SignalledAt(run, ops, j, t, c) && AwakeIn(run, j + 1, k, t, c)
  {
    if k == 0 { assert false; }
    AwakeStep(run, ops, k - 1, t, c);
    if Awake(run[k - 1].thread[t]) {
      j := WokenBySignal(run, ops, k - 1, t, c);
    } else {
      j := k - 1;
    }
  }

  /** A thread awake in its wait without a flag was so before the step, or the step signalled it. */
  lemma AwakeStep(run: seq<State>, ops: seq<Op>, k: nat, t: Tid, c: Cid)
    requires IsRun(run, ops) && k < |ops| && t in run[k + 1].thread
    requires var r := run[k + 1].thread[t]; r.at == Waiting(c) && Awake(r) && !r.timedOut && !r.interrupt
    ensures t in run[k].thread && run[k].thread[t].at == Waiting(c)
    ensures var r := run[k].thread[t];
      (Awake(r) && !r.timedOut && !r.interrupt) || SignalledAt(run, ops, k, t, c)
  {
    var s, op := run[k], ops[k];
    AlwaysInv(run, ops, k);
    assert StepAt(run, ops, k);
    NewThreadsAreOutside(s, op, t);
    if t == s.current {
      OwnStep(s, op);
    } else {
      OtherThread(s, op, t);
      assert ThreadOk(s, t);
    }
  }

  /** Threads come into being outside the library. */
  lemma NewThreadsAreOutside(s: State, op: Op, t: Tid)
    requires Inv(s) && Enabled(s, op) && t in Next(s, op).0.thread
    ensures t in s.thread || Next(s, op).0.thread[t].at == Code
  {
  }

  /** From state j + 1 to state k, t is inside the wait on c that it began at step j. */
  ghost predicate WaitsSince(run: seq<State>, ops: seq<Op>, j: nat, k: nat, t: Tid, c: Cid)
    requires |run| == |ops| + 1
  {
    && j < k < |run| && run[j].current == t && ops[j].OpCondWait? && ops[j].c == c
    && forall l {:trigger run[l]} :: j < l <= k ==> t in run[l].thread && run[l].thread[t].at == Waiting(c)
  }

  /** A thread in a wait began it at one step; its deadline and its timeout flag stem from the timeout of that call. */
  lemma {:induction false} WaitingSince(run: seq<State>, ops: seq<Op>, k: nat, t: Tid, c: Cid) returns (j: nat)
    requires IsRun(run, ops) && k < |run| && t in run[k].thread && run[k].thread[t].at == Waiting(c)
    ensures WaitsSince(run, ops, j, k, t, c)
    ensures var r, timeout := run[k].thread[t], ops[j].timeout;
      r.onSleepq || r.timedOut ==> timeout.Some? && r.due == run[j].lastClock + timeout.value
  {
    if k == 0 { assert false; }
    WaitStep(run, ops, k - 1, t, c);
    if t == run[k - 1].current {
      j := k - 1;
    } else {
      j := WaitingSince(run, ops, k - 1, t, c);
    }
  }

  lemma WaitStep(run: seq<State>, ops: seq<Op>, k: nat, t: Tid, c: Cid)
    requires IsRun(run, ops) && k < |ops| && t in run[k + 1].thread && run[k + 1].thread[t].at == Waiting(c)
    ensures t in run[k].thread
    ensures var r, r' := run[k].thread[t], run[k + 1].thread[t];
      if t == run[k].current then
        && ops[k].OpCondWait? && ops[k].c == c
        && (r'.onSleepq || r'.timedOut ==> ops[k].timeout.Some? && r'.due == run[k].lastClock + ops[k].timeout.value)
      else
        r.at == Waiting(c) && r'.due == r.due && (r'.onSleepq || r'.timedOut ==> r.onSleepq || r.timedOut)
  {
    AlwaysInv(run, ops, k);
    assert StepAt(run, ops, k);
    NewThreadsAreOutside(run[k], ops[k], t);
    if t == run[k].current {
      OwnStep(run[k], ops[k]);
    } else {
      OtherThread(run[k], ops[k], t);
    }
  }

  /** A step that signals a thread, or leaves it awake in its wait, does not tell it that it timed out. */
  lemma StaysInTime(run: seq<State>, ops: seq<Op>, k: nat, t: Tid, c: Cid)
    requires IsRun(run, ops) && k < |ops| && t in run[k].thread && run[k].thread[t].at == Waiting(c)
    requires t in run[k + 1].thread && run[k + 1].thread[t].at == Waiting(c) && Awake(run[k + 1].thread[t])
    requires SignalledAt(run, ops, k, t, c) || (Awake(run[k].thread[t]) && !run[k].thread[t].timedOut)
    ensures !run[k + 1].thread[t].timedOut
  {
    AlwaysInv(run, ops, k);
    assert StepAt(run, ops, k);
    assert ThreadOk(run[k], t);
    if t == run[k].current {
      OwnStep(run[k], ops[k]);
    } else {
      OtherThread(run[k], ops[k], t);
    }
  }

  /** Once signalled, a waiter does not time out any more. */
  lemma {:induction false} SignalBeatsTimeout(run: seq<State>, ops: seq<Op>, j: nat, k: nat, t: Tid, c: Cid)
    requires IsRun(run, ops) && j < k < |run| && SignalledAt(run, ops, j, t, c) && AwakeIn(run, j + 1, k, t, c)
    ensures !run[k].thread[t].timedOut
  {
    assert Awake(run[k].thread[t]);
    if k > j + 1 {
      assert AwakeIn(run, j + 1, k - 1, t, c) && Awake(run[k - 1].thread[t]);
      SignalBeatsTimeout(run, ops, j, k - 1, t, c);
    }
    StaysInTime(run, ops, k - 1, t, c);
  }

  /** A signal or broadcast of c woke t from the wait in which it is at state k. */
  ghost predicate SignalledSince(run: seq<State>, ops: seq<Op>, k: nat, t: Tid, c: Cid)
    requires |run| == |ops| + 1
  {
    k < |run| && exists j: nat :: j < k && SignalledAt(run, ops, j, t, c) && AwakeIn(run, j + 1, k, t, c)
  }

  /**
   * st_cond_timedwait returns 0 exactly if the caller was woken by a signal or broadcast of its condition variable
   * during this very wait and was not interrupted; it fails with ETIME only if it was called with a timeout and
   * the clock has advanced by as much since, and with EINTR exactly if it was interrupted, even after a signal.
   */
  lemma TimedwaitResult(run: seq<State>, ops: seq<Op>, k: nat, c: Cid)
    requires IsRun(run, ops) && k < |ops| && ops[k] == OpResume && run[k].current in run[k].thread
    requires Me(run[k]).at == Waiting(c)
    ensures var s := run[k];
      var ret := Next(s, OpResume).1;
      && (ret == Ok <==> !Me(s).interrupt && SignalledSince(run, ops, k, s.current, c))
      && (ret == Failed(EINTR) <==> Me(s).interrupt)
      && (ret == Failed(ETIME) ==>
            exists j: nat :: WaitsSince(run, ops, j, k, s.current, c) && ops[j].timeout.Some?
                             && run[j].lastClock + ops[j].timeout.value <= s.lastClock)
      && (ret == Ok || ret == Failed(EINTR) || ret == Failed(ETIME))
      && (!Me(s).interrupt && !Me(s).timedOut ==> ret == Ok)
  {
    var s := run[k];
    assert StepAt(run, ops, k);
    AlwaysInv(run, ops, k);
    assert ThreadOk(s, s.current);
    if Next(s, OpResume).1 == Ok {
      var j := WokenBySignal(run, ops, k, s.current, c);
    } else if Next(s, OpResume).1 == Failed(ETIME) {
      var j := WaitingSince(run, ops, k, s.current, c);
      if SignalledSince(run, ops, k, s.current, c) {
        var i: nat :| i < k && SignalledAt(run, ops, i, s.current, c) && AwakeIn(run, i + 1, k, s.current, c);
        SignalBeatsTimeout(run, ops, i, k, s.current, c);
      }
    }
  }

  // ---------- st_usleep ----------

  /** From state j + 1 to state k, t is inside the st_usleep that it called at step j. */
  ghost predicate SleepsSince(run: seq<State>, ops: seq<Op>, j: nat, k: nat, t: Tid)
    requires |run| == |ops| + 1
  {
    && j < k < |run| && run[j].current == t && ops[j].OpUsleep?
    && forall l {:trigger run[l]} :: j < l <= k ==> t in run[l].thread && run[l].thread[t].at.Sleeping?
  }

  /** A sleeping thread has been in st_usleep since the call that set its deadline. */
  lemma {:induction false} SleepingSince(run: seq<State>, ops: seq<Op>, k: nat, t: Tid) returns (j: nat)
    requires IsRun(run, ops) && k < |run| && t in run[k].thread && run[k].thread[t].at.Sleeping?
    ensures SleepsSince(run, ops, j, k, t)
    ensures run[k].thread[t].at.until ==
      if ops[j].timeout.Some? then Some(run[j].lastClock + ops[j].timeout.value) else None
  {
    if k == 0 { assert false; }
    SleepStep(run, ops, k - 1, t);
    if t == run[k - 1].current {
      j := k - 1;
    } else {
      j := SleepingSince(run, ops, k - 1, t);
    }
  }

  lemma SleepStep(run: seq<State>, ops: seq<Op>, k: nat, t: Tid)
    requires IsRun(run, ops) && k < |ops| && t in run[k + 1].thread && run[k + 1].thread[t].at.Sleeping?
    ensures t in run[k].thread
    ensures t != run[k].current ==> run[k].thread[t].at == run[k + 1].thread[t].at
    ensures t == run[k].current ==>
      && ops[k].OpUsleep?
      && run[k + 1].thread[t].at.until ==
           if ops[k].timeout.Some? then Some(run[k].lastClock + ops[k].timeout.value) else None
  {
    AlwaysInv(run, ops, k);
    assert StepAt(run, ops, k);
    NewThreadsAreOutside(run[k], ops[k], t);
    if t == run[k].current {
      OwnStep(run[k], ops[k]);
    } else {
      OtherThread(run[k], ops[k], t);
    }
  }

  /**
   * An uninterrupted st_usleep never returns before last_clock reaches the clock at this very call plus its timeout,
   * and never at all without a timeout; st_usleep fails exactly if it is interrupted.
   */
  lemma UsleepNeverEarly(run: seq<State>, ops: seq<Op>, k: nat)
    requires IsRun(run, ops) && k < |ops| && ops[k] == OpResume && run[k].current in run[k].thread
    requires Me(run[k]).at.Sleeping?
    ensures var ret := Next(run[k], OpResume).1;
      && (ret == Failed(EINTR) <==> Me(run[k]).interrupt) && (ret == Ok || ret == Failed(EINTR))
      && (ret == Ok ==> exists j: nat :: SleepsSince(run, ops, j, k, run[k].current) && ops[j].timeout.Some?
                                         && run[j].lastClock + ops[j].timeout.value <= run[k].lastClock)
  {
    var s := run[k];
    assert StepAt(run, ops, k);
    AlwaysInv(run, ops, k);
    assert ThreadOk(s, s.current);
    var j := SleepingSince(run, ops, k, s.current);
  }

  // ---------- Mutexes ----------

  /**
   * st_mutex_lock returns 0 only when the caller owns the mutex, whether it found it free or was handed it, and
   * after a wait it fails only with EINTR, exactly if it was interrupted and not handed the mutex.
   */
  lemma LockZeroMeansOwner(run: seq<State>, ops: seq<Op>, k: nat, m: Mid)
    requires IsRun(run, ops) && k < |ops| && run[k].current in run[k].thread
    requires ops[k] == OpLock(m) || (ops[k] == OpResume && Me(run[k]).at == Locking(m))
    ensures Enabled(run[k], ops[k]) && var (s', ret) := Next(run[k], ops[k]);
      && (ret == Ok ==> m in s'.mutex && s'.mutex[m].owner == Some(run[k].current))
      && (ops[k] == OpResume ==>
            m in run[k].mutex
            && ret == if Me(run[k]).interrupt && run[k].mutex[m].owner != Some(run[k].current)
                      then Failed(EINTR) else Ok)
  {
    var s := run[k];
    assert StepAt(run, ops, k);
    AlwaysInv(run, ops, k);
    assert ThreadOk(s, s.current);
  }

  /** In every state of every run no thread waits in LOCK_WAIT for a free mutex. */
  lemma FreeMutexHasNoWaiter(run: seq<State>, ops: seq<Op>, k: nat, m: Mid, t: Tid)
    requires IsRun(run, ops) && k < |run| && m in run[k].mutex && run[k].mutex[m].owner == None
    requires t in run[k].thread && run[k].thread[t].at == Locking(m)
    ensures run[k].thread[t].state != LOCK_WAIT && run[k].thread[t].interrupt
  {
    AlwaysInv(run, ops, k);
    assert ThreadOk(run[k], t) && MutexOk(run[k], m);
  }

  /** Only its owner, outside the library, or a lock call on a free mutex changes the owner of a mutex. */
  lemma HandoffStays(s: State, op: Op, t: Tid, m: Mid)
    requires Inv(s) && Enabled(s, op) && m in s.mutex && s.mutex[m].owner == Some(t)
    requires t in s.thread && s.thread[t].at == Locking(m) && !(op == OpResume && s.current == t)
    ensures var s' := Next(s, op).0;
      m in s'.mutex && s'.mutex[m].owner == Some(t) && t in s'.thread && s'.thread[t].at == Locking(m)
  {
    assert ThreadOk(s, t);
    OtherThread(s, op, t);
    MutexOwner(s, op, m);
  }

  lemma MutexOwner(s: State, op: Op, m: Mid)
    requires Inv(s) && Enabled(s, op) && m in s.mutex && s.mutex[m].owner.Some?
    requires s.mutex[m].owner == Some(s.current) ==> !Calling(s)
    ensures var s' := Next(s, op).0; m in s'.mutex && s'.mutex[m].owner == s.mutex[m].owner
  {
    if op == OpResume { assert ThreadOk(s, s.current); }
  }

  /**
   * A mutex handed to a waiter stays his through any steps of other threads until he runs: nobody can take it
   * in between, not even after he was interrupted.
   */
  lemma {:induction false} HandoffHeld(run: seq<State>, ops: seq<Op>, i: nat, k: nat, t: Tid, m: Mid)
    requires IsRun(run, ops) && i <= k < |run|
    requires m in run[i].mutex && run[i].mutex[m].owner == Some(t) && t in run[i].thread
    requires run[i].thread[t].at == Locking(m)
    requires forall l :: i <= l < k ==> !(ops[l] == OpResume && run[l].current == t)
    ensures m in run[k].mutex && run[k].mutex[m].owner == Some(t) && t in run[k].thread
    ensures run[k].thread[t].at == Locking(m)
  {
    if i < k {
      HandoffHeld(run, ops, i, k - 1, t, m);
      HeldOneStep(run, ops, k - 1, t, m);
    }
  }

  lemma HeldOneStep(run: seq<State>, ops: seq<Op>, k: nat, t: Tid, m: Mid)
    requires IsRun(run, ops) && k < |ops| && !(ops[k] == OpResume && run[k].current == t)
    requires m in run[k].mutex && run[k].mutex[m].owner == Some(t) && t in run[k].thread
    requires run[k].thread[t].at == Locking(m)
    ensures m in run[k + 1].mutex && run[k + 1].mutex[m].owner == Some(t)
    ensures t in run[k + 1].thread && run[k + 1].thread[t].at == Locking(m)
  {
    AlwaysInv(run, ops, k);
    assert StepAt(run, ops, k);
    HandoffStays(run[k], ops[k], t, m);
  }

  // ---------- Hand-off is first come, first served ----------

  lemma {:induction false} FirstLockingIsFirst(s: State, q: seq<Tid>, a: Tid, b: Tid)
    requires NoDup(q) && Before(q, a, b) && FirstLocking(s, q) == Some(b) && a in s.thread
    ensures s.thread[a].state != LOCK_WAIT
  {
    var i, j :| 0 <= i < j < |q| && q[i] == a && q[j] == b;
    if i > 0 && q[0] != b {
      PopNoDup(q);
      assert q[1..][i - 1] == a && q[1..][j - 1] == b;
      FirstLockingIsFirst(s, q[1..], a, b);
    }
  }

  /** A step appends at most its taker to the queue of a mutex, or removes it. */
  lemma MutexQueueStep(run: seq<State>, ops: seq<Op>, k: nat, m: Mid)
    requires IsRun(run, ops) && k < |ops| && m in run[k].mutex && m in run[k + 1].mutex
    ensures var q, q', me := run[k].mutex[m].waitQ, run[k + 1].mutex[m].waitQ, run[k].current;
      q' == q || q' == q + [me] || q' == Without(q, me)
  {
    assert StepAt(run, ops, k);
  }

  /** Two waiters of a mutex keep their order as long as both wait. */
  lemma {:induction false} WaitersKeepOrder(run: seq<State>, ops: seq<Op>, i: nat, k: nat, m: Mid, a: Tid, b: Tid)
    requires IsRun(run, ops) && i <= k < |run|
    requires forall l {:trigger run[l]} :: i <= l <= k ==>
      m in run[l].mutex && a in run[l].mutex[m].waitQ && b in run[l].mutex[m].waitQ
    requires Before(run[i].mutex[m].waitQ, a, b)
    ensures Before(run[k].mutex[m].waitQ, a, b)
  {
    if i < k {
      WaitersKeepOrder(run, ops, i, k - 1, m, a, b);
      var me := run[k - 1].current;
      assert m in run[k - 1].mutex && m in run[k].mutex;
      MutexQueueStep(run, ops, k - 1, m);
      var q, q' := run[k - 1].mutex[m].waitQ, run[k].mutex[m].waitQ;
      if q' == q + [me] {
        var x, y :| 0 <= x < y < |q| && q[x] == a && q[y] == b;
        assert q'[x] == a && q'[y] == b;
      } else if q' != q {
        assert a in q' && b in q';
        WithoutKeepsOrder(q, me, a, b);
      }
    }
  }

  /**
   * Hand-off is FIFO among the threads still in LOCK_WAIT: if a queued for the mutex before b and both still wait
   * when an unlock hands it to b, then a is no longer in LOCK_WAIT but was interrupted.
   */
  lemma HandoffIsFifo(run: seq<State>, ops: seq<Op>, i: nat, k: nat, m: Mid, a: Tid, b: Tid)
    requires IsRun(run, ops) && i <= k < |ops| && ops[k] == OpUnlock(m)
    requires forall l {:trigger run[l]} :: i <= l <= k ==>
      m in run[l].mutex && a in run[l].mutex[m].waitQ && b in run[l].mutex[m].waitQ
    requires Before(run[i].mutex[m].waitQ, a, b)
    requires run[k].mutex[m].owner == Some(run[k].current) && m in run[k + 1].mutex
    requires run[k + 1].mutex[m].owner == Some(b)
    ensures a in run[k].thread && run[k].thread[a].state != LOCK_WAIT && run[k].thread[a].interrupt
  {
    var s := run[k];
    AlwaysInv(run, ops, k);
    assert StepAt(run, ops, k);
    WaitersKeepOrder(run, ops, i, k, m, a, b);
    assert MutexOk(s, m) && ThreadOk(s, a) && ThreadOk(s, b);
    FirstLockingIsFirst(s, s.mutex[m].waitQ, a, b);
  }

  // ---------- st_cond_signal ----------

  /** The first thread of q in COND_WAIT. */
  ghost predicate FirstCondWaiter(s: State, q: seq<Tid>, i: int) {
    && 0 <= i < |q| && q[i] in s.thread && s.thread[q[i]].state == COND_WAIT
    && forall j :: 0 <= j < i ==> q[j] in s.thread && s.thread[q[j]].state != COND_WAIT
  }

  /** A signal wakes the first waiter still in COND_WAIT and nobody else; it is lost only if there is none. */
  lemma {:induction false} SignalWakesFirst(s: State, q: seq<Tid>)
    requires forall t :: t in q ==> t in s.thread
    ensures (exists i :: FirstCondWaiter(s, q, i)) || forall t :: t in q ==> s.thread[t].state != COND_WAIT
    ensures forall i :: FirstCondWaiter(s, q, i) ==> Signal(s, q, false) == Wake(s, q[i], s.thread[q[i]])
    ensures (forall t :: t in q ==> s.thread[t].state != COND_WAIT) ==> Signal(s, q, false) == s
    decreases |q|
  {
    if q != [] {
      assert q[0] in q;
      if s.thread[q[0]].state == COND_WAIT {
        assert FirstCondWaiter(s, q, 0);
      } else {
        var rest := q[1..];
        assert forall t :: t in rest ==> t in q;
        SignalWakesFirst(s, rest);
        forall i | FirstCondWaiter(s, q, i) ensures i > 0 && FirstCondWaiter(s, rest, i - 1) && rest[i - 1] == q[i] {
          forall j | 0 <= j < i - 1 ensures rest[j] in s.thread && s.thread[rest[j]].state != COND_WAIT {
            assert rest[j] == q[j + 1];
          }
        }
        if exists i :: FirstCondWaiter(s, rest, i) {
          var i :| FirstCondWaiter(s, rest, i);
          forall j | 0 <= j < i + 1 ensures q[j] in s.thread && s.thread[q[j]].state != COND_WAIT {
            assert j == 0 || q[j] == rest[j - 1];
          }
          assert q[i + 1] == rest[i];
          assert FirstCondWaiter(s, q, i + 1);
        }
      }
    }
  }

  /** Those of q who are still in COND_WAIT. */
  function CondWaiters(s: State, q: seq<Tid>): set<Tid> {
    set t | t in q && t in s.thread && s.thread[t].state == COND_WAIT
  }

  /** A broadcast wakes every waiter in COND_WAIT, in queue order. */
  lemma {:induction false} BroadcastWakesAll(s: State, q: seq<Tid>)
    requires NoDup(q) && forall t :: t in q ==> t in s.thread
    ensures Signal(s, q, true).runQ == s.runQ + Chosen(q, CondWaiters(s, q))
    ensures forall t :: t in q ==> Signal(s, q, true).thread[t].state != COND_WAIT
    decreases |q|
  {
    if q != [] {
      var w, rest := CondWaiters(s, q), q[1..];
      PopNoDup(q);
      var s1 := if s.thread[q[0]].state == COND_WAIT then Wake(s, q[0], s.thread[q[0]]) else s;
      BroadcastWakesAll(s1, rest);
      ChosenSame(rest, w, CondWaiters(s1, rest));
      SignalEffect(s1, rest, true, q[0]);
      assert s.runQ + [q[0]] + Chosen(rest, w) == s.runQ + ([q[0]] + Chosen(rest, w));
    }
  }

  lemma {:induction false} ChosenSame(q: seq<Tid>, w: set<Tid>, w': set<Tid>)
    requires forall t :: t in q ==> (t in w <==> t in w')
    ensures Chosen(q, w) == Chosen(q, w')
  {
    if q != [] { ChosenSame(q[1..], w, w'); }
  }
}
