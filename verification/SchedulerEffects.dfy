/** What one step does to the threads that do not take it. */
module SchedulerEffects {
  import opened Options
  import opened ThreadStates
  import opened Queues
  import opened Scheduler
  import opened SchedulerInvariant
  import opened SchedulerRuns

  /** The record of a thread that was not woken: it may have been scheduled, reaped, or marked interrupted. */
  predicate Kept(r: Thread, r': Thread) {
    && r' == r.(state := r'.state, interrupt := r'.interrupt) && (r.interrupt ==> r'.interrupt)
    && (r'.state == r.state || (r.state == RUNNABLE && r'.state == RUNNING) || (r.state == ZOMBIE && Awake(r')))
  }

  /** The record of a thread that may have been chosen to run. */
  predicate Scheduled(r: Thread, r': Thread) {
    r' == r || (r.state == RUNNABLE && r' == r.(state := RUNNING))
  }

  /** The record of a thread that was woken, and why. */
  predicate Woken(op: Op, owner: Option<Tid>, current: Tid, t: Tid, r: Thread, r': Thread) {
    && !Awake(r) && r.state != ZOMBIE && Awake(r')
    && r' == r.(state := r'.state, at := r'.at, interrupt := r'.interrupt, timedOut := r'.timedOut, onSleepq := false)
    && (r'.at != r.at ==> r.at == Polling(true) && r'.at == Polling(false))
    && match op
       case OpInterrupt(x) => x == t && r'.interrupt && r'.timedOut == r.timedOut
       case OpSignal(c, _) => r.at == Waiting(c) && r'.interrupt == r.interrupt && r'.timedOut == r.timedOut
       case OpExit => r.at.Joining? && r.at.target == current && r'.interrupt == r.interrupt
       case OpUnlock(m) => r.at == Locking(m) && owner == Some(t) && r'.interrupt == r.interrupt
       case OpIdle(fired, now, order) =>
         && r'.interrupt == r.interrupt
         && ((t in fired && r'.at == Polling(false) && r'.timedOut == r.timedOut)
             || (t in order && r.onSleepq && r.due <= now && r'.timedOut == (r.timedOut || r.state == COND_WAIT)))
       case _ => false
  }

  lemma ScheduleEffect(s: State, t: Tid)
    requires Inv0(s) && Stopped(s) && t in s.thread
    ensures t in Schedule(s).thread
    ensures Scheduled(s.thread[t], Schedule(s).thread[t])
    ensures Schedule(s).mutex == s.mutex && Schedule(s).cond == s.cond && Schedule(s).lastClock == s.lastClock
  {
    NextIsRunnable(s);
  }

  /** A caller that blocks and switches: nothing happens to another thread, but that it may run. */
  lemma ParkEffect(s: State, state: ThreadState, at: Where, timeout: Option<int>, t: Tid)
    requires s.current in s.thread && Inv0(Park(s, state, at, timeout)) && Stopped(Park(s, state, at, timeout))
    requires t in s.thread && t != s.current
    ensures var s' := Schedule(Park(s, state, at, timeout));
      t in s'.thread && Kept(s.thread[t], s'.thread[t]) && s'.lastClock == s.lastClock
  {
    ScheduleEffect(Park(s, state, at, timeout), t);
  }

  lemma {:induction false} SignalEffect(s: State, q: seq<Tid>, broadcast: bool, t: Tid)
    requires t in s.thread
    ensures var s' := Signal(s, q, broadcast);
      && t in s'.thread && s'.mutex == s.mutex && s'.cond == s.cond && s'.lastClock == s.lastClock && s'.ioQ == s.ioQ
      && (s'.thread[t] == s.thread[t]
          || (t in q && s.thread[t].state == COND_WAIT
              && s'.thread[t] == s.thread[t].(state := RUNNABLE, onSleepq := false)))
    decreases |q|
  {
    if q != [] {
      if q[0] in s.thread && s.thread[q[0]].state == COND_WAIT {
        if broadcast { SignalEffect(Wake(s, q[0], s.thread[q[0]]), q[1..], true, t); }
      } else {
        SignalEffect(s, q[1..], broadcast, t);
      }
    }
  }

  lemma {:induction false} DispatchEffect(s: State, q: seq<Tid>, fired: set<Tid>, t: Tid)
    requires t in s.thread && NoDup(q)
    ensures var s' := Dispatch(s, q, fired);
      && t in s'.thread && s'.mutex == s.mutex && s'.cond == s.cond && s'.lastClock == s.lastClock
      && s'.thread[t] == (if t in q && t in fired
                          then s.thread[t].(state := RUNNABLE, at := Polling(false), onSleepq := false)
                          else s.thread[t])
      && (t in s'.sleepQ <==> t in s.sleepQ && !(t in q && t in fired))
    decreases |q|
  {
    if q != [] {
      var x := q[0];
      PopNoDup(q);
      if x in fired && x in s.thread {
        DispatchEffect(Notify(s, x), q[1..], fired, t);
      } else {
        DispatchEffect(s, q[1..], fired, t);
      }
    }
  }

  lemma {:induction false} ExpireEffect(s: State, order: seq<Tid>, t: Tid)
    requires t in s.thread && NoDup(order) && forall u :: u in order ==> u in s.thread
    ensures var s' := Expire(s, order);
      && t in s'.thread && s'.mutex == s.mutex && s'.cond == s.cond && s'.lastClock == s.lastClock && s'.ioQ == s.ioQ
      && (var r := s.thread[t];
          s'.thread[t] == if t in order
                          then r.(timedOut := r.timedOut || r.state == COND_WAIT, state := RUNNABLE, onSleepq := false)
                          else r)
    decreases |order|
  {
    if order != [] {
      var x := order[0];
      var r := s.thread[x];
      PopNoDup(order);
      ExpireEffect(Wake(s, x, r.(timedOut := r.timedOut || r.state == COND_WAIT)), order[1..], t);
    }
  }

  lemma IdleEffect(s: State, fired: set<Tid>, now: int, order: seq<Tid>, t: Tid)
    requires Inv(s) && Enabled(s, OpIdle(fired, now, order)) && t in s.thread && t != s.current
    ensures var s' := IdleTurn(s, fired, now, order);
      && t in s'.thread && s'.mutex == s.mutex && s'.cond == s.cond && s'.lastClock == now
      && (Kept(s.thread[t], s'.thread[t])
          || Woken(OpIdle(fired, now, order), None, s.current, t, s.thread[t], s'.thread[t]))
  {
    ClockCheckReady(s, fired, now, order);
    var s2 := Dispatch(s, s.ioQ, fired).(lastClock := now);
    WakersEffect(s, fired, now, order, t);
    ExpireKeeps(s2, order);
    IdleYields(Expire(s2, order), t);
  }

  /** Dispatch and the clock check. */
  lemma WakersEffect(s: State, fired: set<Tid>, now: int, order: seq<Tid>, t: Tid)
    requires Inv(s) && Enabled(s, OpIdle(fired, now, order)) && t in s.thread && t != s.current
    ensures var s' := Expire(Dispatch(s, s.ioQ, fired).(lastClock := now), order);
      && t in s'.thread && s'.mutex == s.mutex && s'.cond == s.cond && s'.lastClock == now
      && (s'.thread[t] == s.thread[t]
          || (s'.thread[t].state == RUNNABLE
              && Woken(OpIdle(fired, now, order), None, s.current, t, s.thread[t], s'.thread[t])))
  {
    WakersFacts(s, fired, now, order, t);
    DispatchEffect(s, s.ioQ, fired, t);
    var s2 := Dispatch(s, s.ioQ, fired).(lastClock := now);
    ExpireEffect(s2, order, t);
    RecordWoken(s, fired, now, order, t, s2.thread[t], Expire(s2, order).thread[t]);
  }

  /** From its record r through r1, after dispatch, to r2, after the clock check. */
  lemma RecordWoken(s: State, fired: set<Tid>, now: int, order: seq<Tid>, t: Tid, r1: Thread, r2: Thread)
    requires t in s.thread
    requires t in s.ioQ ==> s.thread[t].at == Polling(true) && s.thread[t].state == IO_WAIT
    requires t in order ==>
      && s.thread[t].onSleepq && s.thread[t].due <= now && !(t in s.ioQ && t in fired)
      && !Awake(s.thread[t]) && s.thread[t].state != ZOMBIE
    requires r1 == if t in s.ioQ && t in fired
                   then s.thread[t].(state := RUNNABLE, at := Polling(false), onSleepq := false)
                   else s.thread[t]
    requires r2 == if t in order
                   then r1.(timedOut := r1.timedOut || r1.state == COND_WAIT, state := RUNNABLE, onSleepq := false)
                   else r1
    ensures r2 == s.thread[t]
         || (r2.state == RUNNABLE && Woken(OpIdle(fired, now, order), None, s.current, t, s.thread[t], r2))
  {
  }

  /** Who fires was blocked in st_poll, and who is woken by the clock slept and was due. */
  lemma WakersFacts(s: State, fired: set<Tid>, now: int, order: seq<Tid>, t: Tid)
    requires Inv(s) && Enabled(s, OpIdle(fired, now, order)) && t in s.thread
    ensures NoDup(s.ioQ) && NoDup(order) && forall u :: u in order ==> u in s.thread
    ensures t in s.ioQ ==> s.thread[t].at == Polling(true) && s.thread[t].state == IO_WAIT
    ensures t in order ==>
      && s.thread[t].onSleepq && s.thread[t].due <= now && !(t in s.ioQ && t in fired)
      && !Awake(s.thread[t]) && s.thread[t].state != ZOMBIE
  {
    ClockCheckReady(s, fired, now, order);
    DispatchFindsOnlyWaiters(s);
    DispatchEffect(s, s.ioQ, fired, t);
    assert ThreadOk(s, t);
    if t in order { assert ThreadOk(Dispatch(s, s.ioQ, fired).(lastClock := now), t); }
  }

  lemma IdleYields(s: State, t: Tid)
    requires Inv0(s) && s.current == s.idle && t in s.thread && t != s.current
    ensures var s' := Schedule(SetMe(s, Me(s).(state := RUNNABLE)));
      && t in s'.thread && s'.mutex == s.mutex && s'.cond == s.cond && s'.lastClock == s.lastClock
      && Scheduled(s.thread[t], s'.thread[t])
  {
    var s1 := SetMe(s, Me(s).(state := RUNNABLE));
    if s1.runQ != [] {
      assert s.runQ[0] in s.runQ && ThreadOk(s, s.runQ[0]);
    }
  }

  /** Back from its wait, a joiner finds a zombie or an interrupt: it does not wait again. */
  lemma JoinResumeEffect(s: State, t: Tid)
    requires Inv(s) && Me(s).at.Joining? && t in s.thread && t != s.current
    ensures var s' := Resume(s).0; t in s'.thread && Kept(s.thread[t], s'.thread[t]) && s'.lastClock == s.lastClock
  {
    assert ThreadOk(s, s.current);
  }

  lemma ExitResumeEffect(s: State, t: Tid)
    requires Inv(s) && Me(s).at == Exiting && t in s.thread && t != s.current
    ensures var s' := Resume(s).0; t in s'.thread && Kept(s.thread[t], s'.thread[t]) && s'.lastClock == s.lastClock
  {
    VanishKeeps(s);
    VanishEffect(s, t);
    ScheduleEffect(Vanish(s), t);
  }

  lemma VanishEffect(s: State, t: Tid)
    requires s.current in s.thread && t in s.thread && t != s.current
    ensures t in Vanish(s).thread && Vanish(s).thread[t] == s.thread[t] && Vanish(s).lastClock == s.lastClock
  {
  }

  /** The other calls only end. */
  lemma PlainResumeEffect(s: State, t: Tid)
    requires Inv(s) && Enabled(s, OpResume) && !Me(s).at.Joining? && Me(s).at != Exiting && t in s.thread
    requires t != s.current
    ensures var s' := Resume(s).0; t in s'.thread && Kept(s.thread[t], s'.thread[t]) && s'.lastClock == s.lastClock
  {
  }

  lemma ResumeEffect(s: State, t: Tid)
    requires Inv(s) && Enabled(s, OpResume) && t in s.thread && t != s.current
    ensures var s' := Resume(s).0; t in s'.thread && Kept(s.thread[t], s'.thread[t]) && s'.lastClock == s.lastClock
  {
    match Me(s).at
    case Joining(_, _) => JoinResumeEffect(s, t);
    case Exiting => ExitResumeEffect(s, t);
    case _ => PlainResumeEffect(s, t);
  }

  lemma LockEffect(s: State, m: Mid, t: Tid)
    requires Inv(s) && Calling(s) && m in s.mutex && t in s.thread && t != s.current
    ensures var s' := Lock(s, m).0; t in s'.thread && Kept(s.thread[t], s'.thread[t]) && s'.lastClock == s.lastClock
  {
    var v := s.mutex[m];
    if v.owner != None {
      LockParks(s, m);
      ParkEffect(s.(mutex := s.mutex[m := v.(waitQ := v.waitQ + [s.current])]), LOCK_WAIT, Locking(m), None, t);
    }
  }

  lemma PollEffect(s: State, timeout: Option<int>, added: bool, t: Tid)
    requires Inv(s) && Calling(s) && t in s.thread && t != s.current
    ensures var s' := Poll(s, timeout, added).0;
      t in s'.thread && Kept(s.thread[t], s'.thread[t]) && s'.lastClock == s.lastClock
  {
    PollParks(s, timeout);
    ParkEffect(s.(ioQ := s.ioQ + [s.current]), IO_WAIT, Polling(true), timeout, t);
  }

  lemma UsleepEffect(s: State, timeout: Option<int>, t: Tid)
    requires Inv(s) && Calling(s) && t in s.thread && t != s.current
    ensures var s' := Usleep(s, timeout).0;
      t in s'.thread && Kept(s.thread[t], s'.thread[t]) && s'.lastClock == s.lastClock
  {
    UsleepParks(s, timeout);
    ScheduleEffect(ParkAsleep(s, timeout), t);
  }

  lemma CondWaitEffect(s: State, c: Cid, timeout: Option<int>, t: Tid)
    requires Inv(s) && Calling(s) && Ordinary(s, c) && t in s.thread && t != s.current
    ensures var s' := CondWait(s, c, timeout).0;
      t in s'.thread && Kept(s.thread[t], s'.thread[t]) && s'.lastClock == s.lastClock
  {
    CondParks(s, c, Waiting(c), timeout);
    ParkEffect(EnqueueCond(s, c), COND_WAIT, Waiting(c), timeout, t);
  }

  lemma JoinEffect(s: State, x: Tid, t: Tid)
    requires Inv(s) && Enabled(s, OpJoin(x)) && t in s.thread && t != s.current
    ensures var s' := Join(s, x).0; t in s'.thread && Kept(s.thread[t], s'.thread[t]) && s'.lastClock == s.lastClock
  {
    assert ThreadOk(s, x);
    var term := s.thread[x].term;
    if && term.Some? && s.current != x && s.cond[term.value].waitQ == [] && s.thread[x].state != ZOMBIE
       && !Me(s).interrupt {
      CondParks(s, term.value, Joining(x, term.value), None);
      ParkEffect(EnqueueCond(s, term.value), COND_WAIT, Joining(x, term.value), None, t);
    }
  }

  lemma ExitEffect(s: State, t: Tid)
    requires Inv(s) && Enabled(s, OpExit) && t in s.thread && t != s.current
    ensures var s' := Exit(s);
      && t in s'.thread && s'.lastClock == s.lastClock && s'.mutex == s.mutex
      && (Kept(s.thread[t], s'.thread[t]) || Woken(OpExit, None, s.current, t, s.thread[t], s'.thread[t]))
  {
    if Me(s).term.Some? {
      JoinableExitEffect(s, t);
    } else {
      ExitGoes(s);
      ScheduleEffect(SetMe(s, Me(s).(at := Gone)), t);
    }
  }

  lemma JoinableExitEffect(s: State, t: Tid)
    requires Inv(s) && Calling(s) && Me(s).term.Some? && t in s.thread && t != s.current
    ensures var s' := Exit(s);
      && t in s'.thread && s'.lastClock == s.lastClock && s'.mutex == s.mutex
      && (Kept(s.thread[t], s'.thread[t]) || Woken(OpExit, None, s.current, t, s.thread[t], s'.thread[t]))
  {
    ExitSignals(s, t);
    var c := Me(s).term.value;
    var s1 := SetMe(s, Me(s).(state := ZOMBIE, at := Exiting)).(zombieQ := s.zombieQ + [s.current]);
    SignalEffect(s1, s.cond[c].waitQ, false, t);
    ScheduleEffect(Signal(s1, s.cond[c].waitQ, false), t);
  }

  /** The end of a thread is announced to nobody but its joiner. */
  lemma ExitSignals(s: State, t: Tid)
    requires Inv(s) && Calling(s) && Me(s).term.Some? && t in s.thread && t != s.current
    ensures var c := Me(s).term.value;
      var s1 := SetMe(s, Me(s).(state := ZOMBIE, at := Exiting)).(zombieQ := s.zombieQ + [s.current]);
      && c in s.cond && s1.thread[t] == s.thread[t]
      && Inv0(Signal(s1, s.cond[c].waitQ, false)) && Stopped(Signal(s1, s.cond[c].waitQ, false))
      && (t in s.cond[c].waitQ && s.thread[t].state == COND_WAIT ==>
            s.thread[t].at.Joining? && s.thread[t].at.target == s.current)
  {
    CallerFacts(s);
    ExitParks(s);
    var c := Me(s).term.value;
    assert CondOk(s, c) && ThreadOk(s, t);
    SignalKeeps(SetMe(s, Me(s).(state := ZOMBIE, at := Exiting)).(zombieQ := s.zombieQ + [s.current]), c,
                s.cond[c].waitQ, false);
  }

  lemma SignalWaking(s: State, c: Cid, broadcast: bool, t: Tid)
    requires Inv(s) && Enabled(s, OpSignal(c, broadcast)) && t in s.thread && t != s.current
    ensures var s' := Signal(s, s.cond[c].waitQ, broadcast);
      && t in s'.thread && s'.lastClock == s.lastClock
      && (Kept(s.thread[t], s'.thread[t])
          || Woken(OpSignal(c, broadcast), None, s.current, t, s.thread[t], s'.thread[t]))
  {
    SignalEffect(s, s.cond[c].waitQ, broadcast, t);
    assert ThreadOk(s, t) && CondOk(s, c);
  }

  lemma UnlockWaking(s: State, m: Mid, t: Tid)
    requires Inv(s) && Enabled(s, OpUnlock(m)) && t in s.thread && t != s.current
    ensures var s' := Unlock(s, m).0;
      && t in s'.thread && m in s'.mutex && s'.lastClock == s.lastClock
      && (Kept(s.thread[t], s'.thread[t])
          || Woken(OpUnlock(m), s'.mutex[m].owner, s.current, t, s.thread[t], s'.thread[t]))
  {
    assert ThreadOk(s, t) && MutexOk(s, m);
  }

  lemma InterruptWaking(s: State, x: Tid, t: Tid)
    requires Inv(s) && Enabled(s, OpInterrupt(x)) && t in s.thread && t != s.current
    ensures var s' := Interrupt(s, x);
      && t in s'.thread && s'.lastClock == s.lastClock
      && (Kept(s.thread[t], s'.thread[t]) || Woken(OpInterrupt(x), None, s.current, t, s.thread[t], s'.thread[t]))
  {
    assert ThreadOk(s, t);
  }

  /** A step leaves another thread as it is, up to scheduling and an interrupt mark, or wakes it for a reason. */
  lemma OtherThread(s: State, op: Op, t: Tid)
    requires Inv(s) && Enabled(s, op) && t in s.thread && t != s.current
    ensures var s' := Next(s, op).0;
      && t in s'.thread && s.lastClock <= s'.lastClock
      && (Kept(s.thread[t], s'.thread[t])
          || Woken(op, if op.OpUnlock? && op.m in s'.mutex then s'.mutex[op.m].owner else None, s.current, t,
                   s.thread[t], s'.thread[t]))
  {
    if !Wakes(op) {
      KeepingStep(s, op, t);
    } else {
      match op
      case OpIdle(fired, now, order) => IdleEffect(s, fired, now, order, t);
      case OpExit => ExitEffect(s, t);
      case OpSignal(c, broadcast) => SignalWaking(s, c, broadcast, t);
      case OpUnlock(m) => UnlockWaking(s, m, t);
      case OpInterrupt(x) => InterruptWaking(s, x, t);
    }
  }

  predicate Wakes(op: Op) {
    op.OpIdle? || op.OpExit? || op.OpSignal? || op.OpUnlock? || op.OpInterrupt?
  }

  /** The other steps wake nobody. */
  lemma KeepingStep(s: State, op: Op, t: Tid)
    requires Inv(s) && Enabled(s, op) && !Wakes(op) && t in s.thread && t != s.current
    ensures var s' := Next(s, op).0;
      t in s'.thread && Kept(s.thread[t], s'.thread[t]) && s'.lastClock == s.lastClock
  {
    match op
    case OpResume => ResumeEffect(s, t);
    case OpJoin(x) => JoinEffect(s, x, t);
    case OpPoll(timeout, added) => PollEffect(s, timeout, added, t);
    case OpUsleep(timeout) => UsleepEffect(s, timeout, t);
    case OpCondWait(c, timeout) => CondWaitEffect(s, c, timeout, t);
    case OpLock(m) => LockEffect(s, m, t);
    case _ =>
  }
}
