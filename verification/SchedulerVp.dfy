/**
 * The library calls in the form sched.c and sync.c give them: methods that update the virtual processor step by
 * step, up to the context switch or from it on. Each is proved to be the corresponding step of Scheduler, so what
 * SchedulerInvariant and SchedulerTheorems prove of every run holds of them.
 */
module SchedulerVp {
  import opened Options
  import opened ThreadStates
  import opened Queues
  import opened Scheduler
  import opened SchedulerInvariant
  import opened SchedulerRuns

  lemma SleepersAreFlagged(s: State)
    requires Inv0(s)
    ensures forall t :: t in s.sleepQ ==> t in s.thread && s.thread[t].onSleepq
  {
    forall t | t in s.sleepQ ensures t in s.thread && s.thread[t].onSleepq { assert ThreadOk(s, t); }
  }

  class Vp {
    var thread: map<Tid, Thread>
    var current: Tid
    var idle: Tid
    var runQ: seq<Tid>
    var zombieQ: seq<Tid>
    var ioQ: seq<Tid>
    var sleepQ: set<Tid>
    var cond: map<Cid, Cond>
    var mutex: map<Mid, Mutex>
    var lastClock: int

    function Abs(): State
      reads this
    {
      State(thread, current, idle, runQ, zombieQ, ioQ, sleepQ, cond, mutex, lastClock)
    }

    ghost predicate Valid()
      reads this
    {
      Inv(Abs())
    }

    /** st_init */
    constructor (primordial: Tid, idleThread: Tid, clock: int)
      requires primordial != idleThread
      ensures Valid() && Abs() == Init(primordial, idleThread, clock)
    {
      thread := map[primordial := Thread(RUNNING, Code, false, false, false, 0, None),
                    idleThread := Thread(RUNNABLE, Idling, false, false, false, 0, None)];
      current, idle, lastClock := primordial, idleThread, clock;
      runQ, zombieQ, ioQ, sleepQ := [], [], [], {};
      cond, mutex := map[], map[];
      new;
      InitOk(primordial, idleThread, clock);
    }

    /** st_thread_create, for a thread joinable through tc */
    method StThreadCreate(t: Tid, tc: Option<Cid>)
      requires Valid() && Calling(Abs()) && t !in thread && (tc.Some? ==> tc.value !in cond)
      modifies this
      ensures Valid() && Abs() == Create(old(Abs()), t, tc)
    {
      CreateKeeps(Abs(), t, tc);
      thread := thread[t := Thread(RUNNABLE, Code, false, false, false, 0, tc)];
      if tc.Some? {
        cond := cond[tc.value := Cond([], Some(t))];
      }
      runQ := runQ + [t];
    }

    /** st_cond_new and st_mutex_new */
    method StCondNew(c: Cid)
      requires Valid() && Calling(Abs()) && c !in cond
      modifies this
      ensures Valid() && Abs() == old(Abs()).(cond := old(cond)[c := Cond([], None)])
    {
      NewCondKeeps(Abs(), c);
      cond := cond[c := Cond([], None)];
    }

    method StMutexNew(m: Mid)
      requires Valid() && Calling(Abs()) && m !in mutex
      modifies this
      ensures Valid() && Abs() == old(Abs()).(mutex := old(mutex)[m := Mutex(None, [])])
    {
      NewMutexKeeps(Abs(), m);
      mutex := mutex[m := Mutex(None, [])];
    }

    /** st_cond_destroy */
    method StCondDestroy(c: Cid) returns (ret: Ret)
      requires Valid() && Calling(Abs()) && Ordinary(Abs(), c)
      modifies this
      ensures Valid() && (Abs(), ret) == DestroyCond(old(Abs()), c)
    {
      DestroyCondKeeps(Abs(), c);
      if cond[c].waitQ != [] { return Failed(EBUSY); }
      cond := cond - {c};
      ret := Ok;
    }

    /** st_mutex_destroy */
    method StMutexDestroy(m: Mid) returns (ret: Ret)
      requires Valid() && Calling(Abs()) && m in mutex
      modifies this
      ensures Valid() && (Abs(), ret) == DestroyMutex(old(Abs()), m)
    {
      DestroyMutexKeeps(Abs(), m);
      if mutex[m].owner != None || mutex[m].waitQ != [] { return Failed(EBUSY); }
      mutex := mutex - {m};
      ret := Ok;
    }

    /**
     * _st_vp_schedule, with the switch itself reduced to the choice of the next thread: the first on the run queue,
     * or the idle one. It was runnable, and the processor is in order again.
     */
    method VpSchedule()
      requires Inv0(Abs()) && Stopped(Abs())
      modifies this
      ensures Abs() == Schedule(old(Abs())) && Valid()
      ensures current in old(thread) && old(thread)[current].state == RUNNABLE
      ensures current == if old(runQ) != [] then old(runQ)[0] else idle
    {
      NextIsRunnable(Abs());
      ScheduleKeeps(Abs());
      var t := idle;
      if runQ != [] {
        t := runQ[0];
        runQ := runQ[1..];
      }
      thread := thread[t := thread[t].(state := RUNNING)];
      current := t;
    }

    method SetState(t: Tid, state: ThreadState)
      requires t in thread
      modifies this`thread
      ensures thread == old(thread)[t := old(thread)[t].(state := state)]
    {
      thread := thread[t := thread[t].(state := state)];
    }

    /** _ST_ADD_SLEEPQ; TimeoutHeap.Vp.AddSleepQ is the queue itself */
    method AddSleepQ(t: Tid, timeout: int)
      requires t in thread
      modifies this`thread, this`sleepQ
      ensures thread == old(thread)[t := old(thread)[t].(onSleepq := true, due := lastClock + timeout)]
      ensures sleepQ == old(sleepQ) + {t}
    {
      thread := thread[t := thread[t].(onSleepq := true, due := lastClock + timeout)];
      sleepQ := sleepQ + {t};
    }

    /** Off the sleep queue if it is there, then runnable and at the end of the run queue. */
    method MakeRunnable(t: Tid)
      requires t in thread && (t in sleepQ ==> thread[t].onSleepq)
      modifies this
      ensures Abs() == Wake(old(Abs()), t, old(thread)[t])
    {
      if thread[t].onSleepq {
        sleepQ := sleepQ - {t};
        thread := thread[t := thread[t].(onSleepq := false)];
      }
      SetState(t, RUNNABLE);
      runQ := runQ + [t];
    }

    /** The test every blocking call starts with. */
    method TakeInterrupt() returns (interrupted: bool)
      requires current in thread
      modifies this`thread
      ensures interrupted == old(thread)[current].interrupt
      ensures Abs() == if interrupted then Refuse(old(Abs())).0 else old(Abs())
    {
      interrupted := thread[current].interrupt;
      if interrupted {
        thread := thread[current := thread[current].(interrupt := false)];
      }
    }

    /** Blocks the caller at `at` and switches. */
    method Block(state: ThreadState, at: Where, timeout: Option<int>)
      requires current in thread && Inv0(Park(Abs(), state, at, timeout)) && Stopped(Park(Abs(), state, at, timeout))
      modifies this
      ensures Abs() == Schedule(Park(old(Abs()), state, at, timeout)) && Valid()
    {
      ghost var s1 := Park(Abs(), state, at, timeout);
      thread := thread[current := thread[current].(state := state, at := at)];
      if timeout.Some? {
        AddSleepQ(current, timeout.value);
      }
      assert Abs() == s1;
      VpSchedule();
    }

    /** st_poll up to the switch */
    method StPoll(timeout: Option<int>, added: bool) returns (ret: Ret)
      requires Valid() && Calling(Abs())
      modifies this
      ensures (Abs(), ret) == Poll(old(Abs()), timeout, added) && Valid()
    {
      PollKeeps(Abs(), timeout, added);
      var interrupted := TakeInterrupt();
      if interrupted {
        return Failed(EINTR);
      }
      if !added {
        return Failed(EPOLLSET);
      }
      PollParks(Abs(), timeout);
      ioQ := ioQ + [current];
      Block(IO_WAIT, Polling(true), timeout);
      return Switched;
    }

    /** st_usleep up to the switch */
    method StUsleep(usecs: Option<int>) returns (ret: Ret)
      requires Valid() && Calling(Abs())
      modifies this
      ensures (Abs(), ret) == Usleep(old(Abs()), usecs) && Valid()
    {
      UsleepKeeps(Abs(), usecs);
      var interrupted := TakeInterrupt();
      if interrupted {
        return Failed(EINTR);
      }
      FallAsleep(usecs);
      return Switched;
    }

    method FallAsleep(usecs: Option<int>)
      requires Valid() && Calling(Abs())
      modifies this
      ensures Abs() == Schedule(ParkAsleep(old(Abs()), usecs)) && Valid()
    {
      UsleepParks(Abs(), usecs);
      if usecs.Some? {
        Block(SLEEPING, Sleeping(Some(lastClock + usecs.value)), usecs);
      } else {
        Block(SUSPENDED, Sleeping(None), None);
      }
    }

    /** st_cond_timedwait up to the switch */
    method StCondTimedwait(c: Cid, timeout: Option<int>) returns (ret: Ret)
      requires Valid() && Calling(Abs()) && Ordinary(Abs(), c)
      modifies this
      ensures (Abs(), ret) == CondWait(old(Abs()), c, timeout) && Valid()
    {
      CondWaitKeeps(Abs(), c, timeout);
      var interrupted := TakeInterrupt();
      if interrupted {
        return Failed(EINTR);
      }
      CondParks(Abs(), c, Waiting(c), timeout);
      cond := cond[c := cond[c].(waitQ := cond[c].waitQ + [current])];
      Block(COND_WAIT, Waiting(c), timeout);
      return Switched;
    }

    /** st_cond_signal and st_cond_broadcast */
    method StCondSignal(c: Cid, broadcast: bool)
      requires Valid() && Calling(Abs()) && Ordinary(Abs(), c)
      modifies this
      ensures Abs() == Signal(old(Abs()), old(cond)[c].waitQ, broadcast) && Valid()
    {
      CondSignalKeeps(Abs(), c, broadcast);
      WakeWaiters(c, broadcast);
    }

    /** _st_cond_signal: walks the wait queue and wakes the first thread in COND_WAIT, or each of them. */
    method WakeWaiters(c: Cid, broadcast: bool)
      requires Inv0(Abs()) && c in cond
      modifies this
      ensures Abs() == Signal(old(Abs()), old(cond)[c].waitQ, broadcast)
    {
      var q := cond[c].waitQ;
      ghost var s0 := Abs();
      assert CondOk(s0, c);
      SleepersAreFlagged(s0);
      var i := 0;
      while i < |q|
        invariant 0 <= i <= |q|
        invariant Signal(Abs(), q[i..], broadcast) == Signal(s0, q, broadcast)
        invariant thread.Keys == s0.thread.Keys && forall t :: t in sleepQ ==> t in thread && thread[t].onSleepq
      {
        assert q[i] in q && q[i..][1..] == q[i + 1..];
        if thread[q[i]].state == COND_WAIT {
          MakeRunnable(q[i]);
          if !broadcast {
            return;
          }
        }
        i := i + 1;
      }
    }

    /** st_mutex_lock up to the switch, or to the end if there is none */
    method StMutexLock(m: Mid) returns (ret: Ret)
      requires Valid() && Calling(Abs()) && m in mutex
      modifies this
      ensures (Abs(), ret) == Lock(old(Abs()), m) && Valid()
    {
      LockKeeps(Abs(), m);
      var interrupted := TakeInterrupt();
      if interrupted {
        return Failed(EINTR);
      }
      if mutex[m].owner == None {
        mutex := mutex[m := mutex[m].(owner := Some(current))];
        return Ok;
      }
      if mutex[m].owner == Some(current) {
        return Failed(EDEADLK);
      }
      LockParks(Abs(), m);
      mutex := mutex[m := mutex[m].(waitQ := mutex[m].waitQ + [current])];
      Block(LOCK_WAIT, Locking(m), None);
      return Switched;
    }

    /** st_mutex_unlock: hands the mutex to the first thread of its queue that is still in LOCK_WAIT. */
    method StMutexUnlock(m: Mid) returns (ret: Ret)
      requires Valid() && Calling(Abs()) && m in mutex
      modifies this
      ensures (Abs(), ret) == Unlock(old(Abs()), m) && Valid()
    {
      UnlockKeeps(Abs(), m);
      if mutex[m].owner != Some(current) {
        return Failed(EPERM);
      }
      var q := mutex[m].waitQ;
      ghost var s := Abs();
      assert MutexOk(s, m);
      var i := 0;
      while i < |q|
        invariant 0 <= i <= |q| && Abs() == s
        invariant FirstLocking(s, q[i..]) == FirstLocking(s, q)
      {
        assert q[i] in q && q[i..][1..] == q[i + 1..];
        var t := q[i];
        if thread[t].state == LOCK_WAIT {
          assert ThreadOk(s, t);
          HandOver(m, t);
          return Ok;
        }
        i := i + 1;
      }
      mutex := mutex[m := mutex[m].(owner := None)];
      return Ok;
    }

    /** The mutex goes to a waiter, who becomes runnable. */
    method HandOver(m: Mid, t: Tid)
      requires m in mutex && t in thread && t !in sleepQ && !thread[t].onSleepq
      modifies this
      ensures Abs() == Wake(old(Abs()).(mutex := old(mutex)[m := old(mutex)[m].(owner := Some(t))]), t, old(thread)[t])
    {
      mutex := mutex[m := mutex[m].(owner := Some(t))];
      SetState(t, RUNNABLE);
      runQ := runQ + [t];
      assert sleepQ - {t} == sleepQ;
    }

    /** st_mutex_trylock */
    method StMutexTrylock(m: Mid) returns (ret: Ret)
      requires Valid() && Calling(Abs()) && m in mutex
      modifies this
      ensures (Abs(), ret) == Trylock(old(Abs()), m) && Valid()
    {
      TrylockKeeps(Abs(), m);
      if mutex[m].owner != None {
        return Failed(EBUSY);
      }
      mutex := mutex[m := mutex[m].(owner := Some(current))];
      return Ok;
    }

    /** st_thread_interrupt */
    method StThreadInterrupt(t: Tid)
      requires Valid() && Calling(Abs()) && Handle(Abs(), t)
      modifies this
      ensures Abs() == Interrupt(old(Abs()), t) && Valid()
    {
      InterruptKeeps(Abs(), t);
      assert ThreadOk(Abs(), t);
      if thread[t].state == ZOMBIE {
        return;
      }
      thread := thread[t := thread[t].(interrupt := true)];
      if thread[t].state == RUNNING || thread[t].state == RUNNABLE {
        return;
      }
      MakeRunnable(t);
    }

    /** st_thread_exit up to its first switch */
    method StThreadExit()
      requires Valid() && Calling(Abs())
      modifies this
      ensures Abs() == Exit(old(Abs())) && Valid()
    {
      ghost var s := Abs();
      ExitKeeps(s);
      CallerFacts(s);
      var term := thread[current].term;
      if term.Some? {
        ExitParks(s);
        SignalKeeps(SetMe(s, Me(s).(state := ZOMBIE, at := Exiting)).(zombieQ := s.zombieQ + [s.current]),
                    term.value, cond[term.value].waitQ, false);
        thread := thread[current := thread[current].(state := ZOMBIE, at := Exiting)];
        zombieQ := zombieQ + [current];
        WakeWaiters(term.value, false);
      } else {
        ExitGoes(s);
        thread := thread[current := thread[current].(at := Gone)];
      }
      VpSchedule();
    }

    /** st_thread_join up to its first switch, or to the end if there is none */
    method StThreadJoin(t: Tid) returns (ret: Ret)
      requires Valid() && Calling(Abs()) && Handle(Abs(), t)
      modifies this
      ensures (Abs(), ret) == Join(old(Abs()), t) && Valid()
    {
      JoinKeeps(Abs(), t);
      assert ThreadOk(Abs(), t);
      var term := thread[t].term;
      if term == None {
        return Failed(EINVAL);
      }
      if current == t {
        return Failed(EDEADLK);
      }
      if cond[term.value].waitQ != [] {
        return Failed(EINVAL);
      }
      ret := JoinFrom(t, term.value);
    }

    /** The wait loop of st_thread_join, up to the switch, and what follows it. */
    method JoinFrom(t: Tid, c: Cid) returns (ret: Ret)
      requires Valid() && Calling(Abs()) && t in thread && c in cond && cond[c].owner == Some(t) && cond[c].waitQ == []
      requires thread[t].state == ZOMBIE ==> thread[t].term == Some(c)
      modifies this
      ensures (Abs(), ret) == JoinLoop(old(Abs()), t, c) && Valid()
    {
      JoinLoopKeeps(Abs(), t, c);
      if thread[t].state != ZOMBIE {
        var interrupted := TakeInterrupt();
        if interrupted {
          return Failed(EINTR);
        }
        WaitForEnd(t, c);
        return Switched;
      }
      SetState(t, RUNNABLE);
      zombieQ := Without(zombieQ, t);
      runQ := runQ + [t];
      return Ok;
    }

    /** The caller queues on the condition variable that announces the end of t. */
    method WaitForEnd(t: Tid, c: Cid)
      requires Valid() && Calling(Abs()) && c in cond && cond[c].owner == Some(t) && cond[c].waitQ == []
      modifies this
      ensures Abs() == Schedule(Park(EnqueueCond(old(Abs()), c), COND_WAIT, Joining(t, c), None)) && Valid()
    {
      CondParks(Abs(), c, Joining(t, c), None);
      cond := cond[c := cond[c].(waitQ := cond[c].waitQ + [current])];
      Block(COND_WAIT, Joining(t, c), None);
    }

    /** st_poll from the switch on */
    method AfterPoll() returns (ret: Ret)
      requires Valid() && Me(Abs()).at.Polling?
      modifies this
      ensures (Abs(), ret) == Resume(old(Abs())) && Valid()
    {
      PollReturns(Abs());
      var me := thread[current];
      if me.at.onIoq {
        ioQ := Without(ioQ, current);
      }
      thread := thread[current := me.(at := Code, interrupt := false)];
      ret := if me.interrupt then Failed(EINTR) else Ok;
      assert ThreadOk(old(Abs()), current);
    }

    /** st_mutex_lock from the switch on */
    method AfterLock(m: Mid) returns (ret: Ret)
      requires Valid() && Me(Abs()).at == Locking(m)
      modifies this
      ensures (Abs(), ret) == Resume(old(Abs())) && Valid()
    {
      LockReturns(Abs());
      assert ThreadOk(Abs(), current);
      var me := thread[current];
      mutex := mutex[m := mutex[m].(waitQ := Without(mutex[m].waitQ, current))];
      if me.interrupt && mutex[m].owner != Some(current) {
        thread := thread[current := me.(at := Code, interrupt := false)];
        return Failed(EINTR);
      }
      thread := thread[current := me.(at := Code)];
      return Ok;
    }

    /** st_thread_join from the switch on: back to its loop unless the wait failed */
    method AfterJoin(t: Tid, c: Cid) returns (ret: Ret)
      requires Valid() && Me(Abs()).at == Joining(t, c)
      modifies this
      ensures (Abs(), ret) == Resume(old(Abs())) && Valid()
    {
      ghost var s := Abs();
      CondReturns(s, c);
      assert ThreadOk(s, current) && CondOk(s, c);
      ret := LeaveWait(c);
      if ret == Ok {
        assert ThreadOk(Abs(), t);
        ret := JoinFrom(t, c);
      }
    }

    /** st_thread_exit of a joined thread from the switch on */
    method AfterExit()
      requires Valid() && Me(Abs()).at == Exiting
      modifies this
      ensures (Abs(), Switched) == Resume(old(Abs())) && Valid()
    {
      VanishKeeps(Abs());
      CleanUp();
      VpSchedule();
    }

    /** The condition variable of its termination goes unless somebody waits there. */
    method CleanUp()
      requires current in thread
      modifies `thread, `cond
      ensures Abs() == Vanish(old(Abs()))
    {
      var me := thread[current];
      thread := thread[current := me.(at := Gone, term := None)];
      if me.term.Some? && me.term.value in cond && cond[me.term.value].waitQ == [] {
        cond := cond - {me.term.value};
      }
    }

    /** The current thread goes on after the switch back, in whichever call it is. */
    method StResume() returns (ret: Ret)
      requires Valid() && Enabled(Abs(), OpResume)
      modifies this
      ensures (Abs(), ret) == Resume(old(Abs())) && Valid()
    {
      ResumeKeeps(Abs());
      assert ThreadOk(Abs(), current);
      var me := thread[current];
      match me.at {
        case Polling(_) =>
          ret := AfterPoll();
        case Sleeping(_) =>
          thread := thread[current := me.(at := Code, interrupt := false)];
          ret := if me.interrupt then Failed(EINTR) else Ok;
        case Waiting(c) =>
          ret := AfterCondWait(c);
        case Joining(t, c) =>
          ret := AfterJoin(t, c);
        case Locking(m) =>
          ret := AfterLock(m);
        case Exiting =>
          AfterExit();
          ret := Switched;
        case _ =>
          assert false;
      }
    }

    /** st_cond_timedwait from the switch on */
    method AfterCondWait(c: Cid) returns (ret: Ret)
      requires Valid() && Me(Abs()).at == Waiting(c)
      modifies this
      ensures (Abs(), ret) == Resume(old(Abs())) && Valid()
    {
      CondReturns(Abs(), c);
      assert ThreadOk(Abs(), current);
      ret := LeaveWait(c);
    }

    /** Off the wait queue, with the flags turned into the result. */
    method LeaveWait(c: Cid) returns (ret: Ret)
      requires current in thread && c in cond
      modifies this`cond, this`thread
      ensures Abs() == ReturnTimed(DequeueCond(old(Abs()), c))
      ensures var me := old(thread)[current];
        ret == if me.interrupt then Failed(EINTR) else if me.timedOut then Failed(ETIME) else Ok
    {
      cond := cond[c := cond[c].(waitQ := Without(cond[c].waitQ, current))];
      var me := thread[current];
      ret := Ok;
      if me.timedOut {
        me := me.(timedOut := false);
        ret := Failed(ETIME);
      }
      if me.interrupt {
        me := me.(interrupt := false);
        ret := Failed(EINTR);
      }
      thread := thread[current := me.(at := Code)];
    }

    /** Whatever the running thread does, but for the idle one. */
    method Perform(op: Op) returns (ret: Ret)
      requires Valid() && Enabled(Abs(), op) && !op.OpIdle?
      modifies this
      ensures (Abs(), ret) == Next(old(Abs()), op) && Valid()
    {
      ret := Ok;
      match op {
        case OpPoll(timeout, added) => ret := StPoll(timeout, added);
        case OpUsleep(timeout) => ret := StUsleep(timeout);
        case OpCondWait(c, timeout) => ret := StCondTimedwait(c, timeout);
        case OpSignal(c, broadcast) => StCondSignal(c, broadcast);
        case OpLock(m) => ret := StMutexLock(m);
        case OpUnlock(m) => ret := StMutexUnlock(m);
        case OpTrylock(m) => ret := StMutexTrylock(m);
        case OpInterrupt(t) => StThreadInterrupt(t);
        case OpCreate(t, tc) => StThreadCreate(t, tc);
        case OpExit =>
          StThreadExit();
          ret := Switched;
        case OpJoin(t) => ret := StThreadJoin(t);
        case OpNewCond(c) => StCondNew(c);
        case OpNewMutex(m) => StMutexNew(m);
        case OpDestroyCond(c) => ret := StCondDestroy(c);
        case OpDestroyMutex(m) => ret := StMutexDestroy(m);
        case OpResume => ret := StResume();
        case OpIdle(_, _, _) =>
          assert false;
      }
    }

    /** One turn of _st_idle_thread_start: dispatch, clock check, yield. */
    method IdleThread(fired: set<Tid>, now: int, order: seq<Tid>)
      requires Valid() && Enabled(Abs(), OpIdle(fired, now, order))
      modifies this
      ensures Abs() == IdleTurn(old(Abs()), fired, now, order) && Valid()
    {
      IdleTurnKeeps(Abs(), fired, now, order);
      VpIdle(fired, now, order);
      Yield();
    }

    /** Dispatch and clock check. */
    method VpIdle(fired: set<Tid>, now: int, order: seq<Tid>)
      requires Valid() && Enabled(Abs(), OpIdle(fired, now, order))
      modifies this
      ensures Abs() == Expire(Dispatch(old(Abs()), old(ioQ), fired).(lastClock := now), order) && Inv0(Abs())
      ensures current == idle
    {
      ghost var s := Abs();
      ClockCheckReady(s, fired, now, order);
      ExpireKeeps(Dispatch(s, s.ioQ, fired).(lastClock := now), order);
      DispatchFired(fired);
      lastClock := now;
      CheckClock(order);
    }

    method Yield()
      requires Inv0(Abs()) && current == idle
      modifies this
      ensures Valid() && Abs() == Schedule(SetMe(old(Abs()), Me(old(Abs())).(state := RUNNABLE)))
    {
      YieldStops(Abs());
      SetState(current, RUNNABLE);
      VpSchedule();
    }

    /** The loop of dispatch over the I/O queue. */
    method DispatchFired(fired: set<Tid>)
      requires Valid() && current == idle
      modifies this
      ensures Abs() == Dispatch(old(Abs()), old(ioQ), fired)
    {
      var q := ioQ;
      ghost var s := Abs();
      DispatchFindsOnlyWaiters(s);
      SleepersAreFlagged(s);
      var i := 0;
      while i < |q|
        invariant 0 <= i <= |q| && thread.Keys == s.thread.Keys
        invariant Dispatch(Abs(), q[i..], fired) == Dispatch(s, q, fired)
        invariant forall t :: t in sleepQ ==> t in thread && thread[t].onSleepq
      {
        assert q[i] in q && q[i..][1..] == q[i + 1..];
        var t := q[i];
        if t in fired {
          Fire(t);
        }
        i := i + 1;
      }
    }

    method Fire(t: Tid)
      requires t in thread && (t in sleepQ ==> thread[t].onSleepq)
      modifies this
      ensures Abs() == Notify(old(Abs()), t)
    {
      ioQ := Without(ioQ, t);
      thread := thread[t := thread[t].(at := Polling(false))];
      MakeRunnable(t);
    }

    /** The loop of _st_vp_check_clock, over the threads in the order in which the heap yields them. */
    method CheckClock(expired: seq<Tid>)
      requires Inv0(Abs()) && forall t :: t in expired ==> t in thread
      modifies this
      ensures Abs() == Expire(old(Abs()), expired)
    {
      ghost var s := Abs();
      SleepersAreFlagged(s);
      var i := 0;
      while i < |expired|
        invariant 0 <= i <= |expired| && thread.Keys == s.thread.Keys
        invariant Expire(Abs(), expired[i..]) == Expire(s, expired)
        invariant forall t :: t in sleepQ ==> t in thread && thread[t].onSleepq
      {
        assert expired[i] in expired && expired[i..][1..] == expired[i + 1..];
        WakeExpired(expired[i]);
        i := i + 1;
      }
    }

    method WakeExpired(t: Tid)
      requires t in thread && (t in sleepQ ==> thread[t].onSleepq)
      modifies this
      ensures var r := old(thread)[t]; Abs() == Wake(old(Abs()), t, r.(timedOut := r.timedOut || r.state == COND_WAIT))
    {
      if thread[t].state == COND_WAIT {
        thread := thread[t := thread[t].(timedOut := true)];
      }
      MakeRunnable(t);
    }
  }
}
