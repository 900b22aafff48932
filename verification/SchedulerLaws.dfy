/**
 * What every step of every run answers and changes, in terms of owners, states, flags and queues alone. Whatever a
 * statement does not mention stays as it was.
 */
module SchedulerLaws {
  import opened Options
  import opened ThreadStates
  import opened Queues
  import opened Scheduler
  import opened SchedulerInvariant
  import opened SchedulerRuns
  import opened SchedulerEffects
  import opened SchedulerTheorems
  import HeapModel

  /** Step k of a run: from s to s', with this result. */
  ghost predicate Steps(run: seq<State>, ops: seq<Op>, k: nat, op: Op, s: State, s': State, ret: Ret) {
    && IsRun(run, ops) && k < |ops| && ops[k] == op && s == run[k] && s' == run[k + 1]
    && Enabled(s, op) && ret == Next(s, op).1
  }

  lemma StepFacts(run: seq<State>, ops: seq<Op>, k: nat, op: Op, s: State, s': State, ret: Ret)
    requires Steps(run, ops, k, op, s, s', ret)
    ensures Inv(s) && Enabled(s, op) && s.current in s.thread && Next(s, op) == (s', ret)
  {
    AlwaysInv(run, ops, k);
    assert StepAt(run, ops, k);
  }

  // ---------- The processor changes hands ----------

  /** The caller's record becomes r, and the first of the queue q runs, or the idle thread if it is empty. */
  predicate HandsOver(s: State, s': State, r: Thread, q: seq<Tid>, thread: map<Tid, Thread>) {
    var n := if q == [] then s.idle else q[0];
    && s.current in s.thread && n in thread && thread[n].state == RUNNABLE && n != s.current
    && s'.current == n && s'.thread == thread[s.current := r][n := thread[n].(state := RUNNING)]
    && s'.runQ == if q == [] then [] else q[1..]
  }

  /** The caller blocks in this state at this place, and sleeps as well if it gave a timeout. */
  predicate Blocks(s: State, s': State, state: ThreadState, at: Where, timeout: Option<int>) {
    && s.current in s.thread
    && (var me := s.thread[s.current].(state := state, at := at);
        var r := if timeout.None? then me else me.(onSleepq := true, due := s.lastClock + timeout.value);
        HandsOver(s, s', r, s.runQ, s.thread))
    && s'.sleepQ == s.sleepQ + if timeout.None? then {} else {s.current}
  }

  /** A pending interrupt makes a blocking call fail before it changes anything else, and is used up. */
  predicate Refused(s: State, s': State, ret: Ret) {
    && s.current in s.thread && ret == Failed(EINTR)
    && s' == s.(thread := s.thread[s.current := s.thread[s.current].(interrupt := false)])
  }

  /** A blocked thread becomes runnable, last in the queue, and sleeps no more. */
  predicate MadeRunnable(s: State, s': State, t: Tid, r: Thread) {
    && s'.thread == s.thread[t := r.(state := RUNNABLE, onSleepq := false)]
    && s'.runQ == s.runQ + [t] && s'.sleepQ == s.sleepQ - {t}
  }

  lemma CallerHandsOver(s: State, s1: State)
    requires Inv(s) && Calling(s) && Inv0(s1) && Stopped(s1) && s1.current == s.current && s1.idle == s.idle
    requires s1.thread.Keys == s.thread.Keys && s1.thread[s.current].state != RUNNABLE
    ensures HandsOver(s, Schedule(s1), s1.thread[s.current], s1.runQ, s1.thread)
    ensures Schedule(s1) == s1.(current := Schedule(s1).current, thread := Schedule(s1).thread,
                                runQ := Schedule(s1).runQ)
  {
    CallerFacts(s);
    NextIsRunnable(s1);
    var n := Schedule(s1).current;
    assert s1.thread[s.current := s1.thread[s.current]] == s1.thread;
    if s1.runQ == [] { assert n == s.idle; }
  }

  /** HandsOver depends on the caller's record only through r. */
  lemma SameHandOver(s: State, s': State, r: Thread, q: seq<Tid>, thread: map<Tid, Thread>)
    requires HandsOver(s, s', r, q, thread[s.current := r]) && s.current in thread
    ensures HandsOver(s, s', r, q, thread)
  {
    assert thread[s.current := r][s.current := r] == thread[s.current := r];
  }

  lemma ParkBlocks(s: State, s0: State, state: ThreadState, at: Where, timeout: Option<int>)
    requires Inv(s) && Calling(s) && s0.thread == s.thread && s0.current == s.current && s0.idle == s.idle
    requires s0.runQ == s.runQ && s0.sleepQ == s.sleepQ && s0.lastClock == s.lastClock && state != RUNNABLE
    requires Inv0(Park(s0, state, at, timeout)) && Stopped(Park(s0, state, at, timeout))
    ensures var s' := Schedule(Park(s0, state, at, timeout));
      && Blocks(s, s', state, at, timeout)
      && s' == s0.(current := s'.current, thread := s'.thread, runQ := s'.runQ, sleepQ := s'.sleepQ)
  {
    var s1 := Park(s0, state, at, timeout);
    CallerHandsOver(s, s1);
    Parks(s, s1, Schedule(s1), state, at, timeout);
  }

  lemma Parks(s: State, s1: State, s': State, state: ThreadState, at: Where, timeout: Option<int>)
    requires s.current in s.thread && s.current in s1.thread
    requires s1.thread == s.thread[s.current := s1.thread[s.current]] && s1.runQ == s.runQ
    requires HandsOver(s, s', s1.thread[s.current], s1.runQ, s1.thread) && s'.sleepQ == s1.sleepQ
    requires var me := s.thread[s.current].(state := state, at := at);
      s1.thread[s.current] == if timeout.None? then me
                              else me.(onSleepq := true, due := s.lastClock + timeout.value)
    requires s1.sleepQ == s.sleepQ + if timeout.None? then {} else {s.current}
    ensures Blocks(s, s', state, at, timeout)
  {
    SameHandOver(s, s', s1.thread[s.current], s.runQ, s.thread);
  }

  // ---------- Blocking calls ----------

  /** st_poll: refused, or failed without a change, or blocked last on the I/O queue. */
  lemma PollLaw(run: seq<State>, ops: seq<Op>, k: nat, timeout: Option<int>, added: bool, s: State, s': State, ret: Ret)
    requires Steps(run, ops, k, OpPoll(timeout, added), s, s', ret)
    ensures if s.thread[s.current].interrupt then Refused(s, s', ret)
      else if !added then ret == Failed(EPOLLSET) && s' == s
      else
        && ret == Switched && Blocks(s, s', IO_WAIT, Polling(true), timeout) && s'.ioQ == s.ioQ + [s.current]
        && s' == s.(current := s'.current, thread := s'.thread, runQ := s'.runQ, sleepQ := s'.sleepQ, ioQ := s'.ioQ)
  {
    StepFacts(run, ops, k, OpPoll(timeout, added), s, s', ret);
    if !Me(s).interrupt && added {
      PollParks(s, timeout);
      ParkBlocks(s, s.(ioQ := s.ioQ + [s.current]), IO_WAIT, Polling(true), timeout);
    }
  }

  /** st_usleep: refused, or blocked with a deadline, or for ever. */
  lemma UsleepLaw(run: seq<State>, ops: seq<Op>, k: nat, timeout: Option<int>, s: State, s': State, ret: Ret)
    requires Steps(run, ops, k, OpUsleep(timeout), s, s', ret)
    ensures if s.thread[s.current].interrupt then Refused(s, s', ret)
      else
        && ret == Switched
        && (if timeout.Some? then Blocks(s, s', SLEEPING, Sleeping(Some(s.lastClock + timeout.value)), timeout)
            else Blocks(s, s', SUSPENDED, Sleeping(None), None))
        && s' == s.(current := s'.current, thread := s'.thread, runQ := s'.runQ, sleepQ := s'.sleepQ)
  {
    StepFacts(run, ops, k, OpUsleep(timeout), s, s', ret);
    if !Me(s).interrupt {
      if timeout.Some? { SleepBlocks(s, timeout.value); } else { SuspendBlocks(s); }
    }
  }

  lemma SleepBlocks(s: State, timeout: int)
    requires Inv(s) && Calling(s)
    ensures var s', at := Schedule(ParkAsleep(s, Some(timeout))), Sleeping(Some(s.lastClock + timeout));
      && Blocks(s, s', SLEEPING, at, Some(timeout))
      && s' == s.(current := s'.current, thread := s'.thread, runQ := s'.runQ, sleepQ := s'.sleepQ)
  {
    ParksAsleep(s, timeout);
    ParkBlocks(s, s, SLEEPING, Sleeping(Some(s.lastClock + timeout)), Some(timeout));
  }

  lemma ParksAsleep(s: State, timeout: int)
    requires Inv(s) && Calling(s)
    ensures var s1 := Park(s, SLEEPING, Sleeping(Some(s.lastClock + timeout)), Some(timeout));
      s1 == ParkAsleep(s, Some(timeout)) && Inv0(s1) && Stopped(s1)
  {
    UsleepParks(s, Some(timeout));
  }

  lemma SuspendBlocks(s: State)
    requires Inv(s) && Calling(s)
    ensures var s' := Schedule(ParkAsleep(s, None));
      && Blocks(s, s', SUSPENDED, Sleeping(None), None)
      && s' == s.(current := s'.current, thread := s'.thread, runQ := s'.runQ, sleepQ := s'.sleepQ)
  {
    UsleepParks(s, None);
    ParkBlocks(s, s, SUSPENDED, Sleeping(None), None);
  }

  /** st_cond_timedwait: refused, or blocked last on the wait queue. */
  lemma CondWaitLaw(run: seq<State>, ops: seq<Op>, k: nat, c: Cid, timeout: Option<int>, s: State, s': State, ret: Ret)
    requires Steps(run, ops, k, OpCondWait(c, timeout), s, s', ret)
    ensures c in s.cond
    ensures if s.thread[s.current].interrupt then Refused(s, s', ret)
      else
        && ret == Switched && Blocks(s, s', COND_WAIT, Waiting(c), timeout)
        && s'.cond == s.cond[c := s.cond[c].(waitQ := s.cond[c].waitQ + [s.current])]
        && s' == s.(current := s'.current, thread := s'.thread, runQ := s'.runQ, sleepQ := s'.sleepQ, cond := s'.cond)
  {
    StepFacts(run, ops, k, OpCondWait(c, timeout), s, s', ret);
    if !Me(s).interrupt {
      CondParks(s, c, Waiting(c), timeout);
      ParkBlocks(s, EnqueueCond(s, c), COND_WAIT, Waiting(c), timeout);
    }
  }

  /** st_mutex_lock: refused, or the caller gets a free mutex, or finds it its own, or blocks last on its queue. */
  lemma LockLaw(run: seq<State>, ops: seq<Op>, k: nat, m: Mid, s: State, s': State, ret: Ret)
    requires Steps(run, ops, k, OpLock(m), s, s', ret)
    ensures m in s.mutex
    ensures if s.thread[s.current].interrupt then Refused(s, s', ret)
      else if s.mutex[m].owner == None then
        ret == Ok && s' == s.(mutex := s.mutex[m := s.mutex[m].(owner := Some(s.current))])
      else if s.mutex[m].owner == Some(s.current) then ret == Failed(EDEADLK) && s' == s
      else
        && ret == Switched && Blocks(s, s', LOCK_WAIT, Locking(m), None)
        && s'.mutex == s.mutex[m := s.mutex[m].(waitQ := s.mutex[m].waitQ + [s.current])]
        && s' == s.(current := s'.current, thread := s'.thread, runQ := s'.runQ, sleepQ := s'.sleepQ, mutex := s'.mutex)
  {
    StepFacts(run, ops, k, OpLock(m), s, s', ret);
    if !Me(s).interrupt && s.mutex[m].owner != None && s.mutex[m].owner != Some(s.current) {
      LockParks(s, m);
      var v := s.mutex[m];
      ParkBlocks(s, s.(mutex := s.mutex[m := v.(waitQ := v.waitQ + [s.current])]), LOCK_WAIT, Locking(m), None);
    }
  }

  /** The answer of st_thread_join that does not wait. */
  ghost predicate JoinAnswers(s: State, s': State, ret: Ret, x: Tid)
    requires x in s.thread
  {
    var term := s.thread[x].term;
    if term.None? then ret == Failed(EINVAL) && s' == s
    else if s.current == x then ret == Failed(EDEADLK) && s' == s
    else if term.value in s.cond && s.cond[term.value].waitQ != [] then ret == Failed(EINVAL) && s' == s
    else
      && term.value in s.cond && s.thread[x].state == ZOMBIE && ret == Ok && Removed(s.zombieQ, s'.zombieQ, x)
      && s'.runQ == s.runQ + [x] && s'.thread == s.thread[x := s.thread[x].(state := RUNNABLE)]
      && s' == s.(thread := s'.thread, runQ := s'.runQ, zombieQ := s'.zombieQ)
  }

  /**
   * st_thread_join: fails for a thread without a termination condition variable, for oneself, and while somebody
   * else waits for it; else it takes a zombie off its queue to finish, or waits, unless an interrupt is pending.
   */
  lemma JoinLaw(run: seq<State>, ops: seq<Op>, k: nat, x: Tid, s: State, s': State, ret: Ret)
    requires Steps(run, ops, k, OpJoin(x), s, s', ret)
    ensures x in s.thread
    ensures var term := s.thread[x].term;
      if term.Some? && term.value in s.cond && s.cond[term.value].waitQ == [] && s.current != x
         && s.thread[x].state != ZOMBIE then
        if s.thread[s.current].interrupt then Refused(s, s', ret)
        else
          && ret == Switched && Blocks(s, s', COND_WAIT, Joining(x, term.value), None)
          && s'.cond == s.cond[term.value := s.cond[term.value].(waitQ := [s.current])]
          && s' == s.(current := s'.current, thread := s'.thread, runQ := s'.runQ, sleepQ := s'.sleepQ, cond := s'.cond)
      else JoinAnswers(s, s', ret, x)
  {
    StepFacts(run, ops, k, OpJoin(x), s, s', ret);
    assert ThreadOk(s, x);
    WithoutRemoves(s.zombieQ, x);
    var term := s.thread[x].term;
    if term.Some? && s.cond[term.value].waitQ == [] && s.current != x && s.thread[x].state != ZOMBIE
       && !Me(s).interrupt {
      JoinBlocks(s, x, term.value);
    }
  }

  lemma JoinBlocks(s: State, x: Tid, c: Cid)
    requires Inv(s) && Enabled(s, OpJoin(x)) && s.thread[x].term == Some(c) && c in s.cond && s.cond[c].waitQ == []
    requires s.current != x && s.thread[x].state != ZOMBIE && !Me(s).interrupt
    ensures var (s', ret) := Join(s, x);
      && ret == Switched && Blocks(s, s', COND_WAIT, Joining(x, c), None)
      && s'.cond == s.cond[c := s.cond[c].(waitQ := [s.current])]
      && s' == s.(current := s'.current, thread := s'.thread, runQ := s'.runQ, sleepQ := s'.sleepQ, cond := s'.cond)
  {
    assert ThreadOk(s, x);
    CondParks(s, c, Joining(x, c), None);
    ParkBlocks(s, EnqueueCond(s, c), COND_WAIT, Joining(x, c), None);
    assert [] + [s.current] == [s.current];
  }

  // ---------- Calls that do not block ----------

  /** t is the first thread of q in LOCK_WAIT. */
  ghost predicate FirstWaiter(s: State, q: seq<Tid>, t: Tid) {
    exists i :: 0 <= i < |q| && q[i] == t && t in s.thread && s.thread[t].state == LOCK_WAIT
      && forall j :: 0 <= j < i ==> q[j] in s.thread && s.thread[q[j]].state != LOCK_WAIT
  }

  lemma {:induction false} FirstIsFirst(s: State, q: seq<Tid>)
    requires forall t :: t in q ==> t in s.thread
    ensures FirstLocking(s, q).Some? ==> FirstWaiter(s, q, FirstLocking(s, q).value)
  {
    if q != [] && s.thread[q[0]].state != LOCK_WAIT {
      assert q[0] in q && forall t :: t in q[1..] ==> t in q;
      FirstIsFirst(s, q[1..]);
      if FirstLocking(s, q).Some? {
        var t := FirstLocking(s, q).value;
        var i :| 0 <= i < |q[1..]| && q[1..][i] == t
                 && forall j :: 0 <= j < i ==> q[1..][j] in s.thread && s.thread[q[1..][j]].state != LOCK_WAIT;
        forall j | 0 <= j < i + 1 ensures q[j] in s.thread && s.thread[q[j]].state != LOCK_WAIT {
          assert j == 0 || q[j] == q[1..][j - 1];
        }
        assert q[i + 1] == t;
      }
    } else if q != [] {
      assert q[0] in q;
    }
  }

  /**
   * st_mutex_unlock: only the owner may, and then the mutex is free exactly if nobody in its queue is in LOCK_WAIT;
   * otherwise the first who is owns it now and is runnable.
   */
  lemma UnlockLaw(run: seq<State>, ops: seq<Op>, k: nat, m: Mid, s: State, s': State, ret: Ret)
    requires Steps(run, ops, k, OpUnlock(m), s, s', ret)
    ensures m in s.mutex && m in s'.mutex
    ensures s.mutex[m].owner != Some(s.current) ==> ret == Failed(EPERM) && s' == s
    ensures s.mutex[m].owner == Some(s.current) ==>
      var q, owner := s.mutex[m].waitQ, s'.mutex[m].owner;
      && ret == Ok && s'.mutex == s.mutex[m := s.mutex[m].(owner := owner)]
      && (owner == None <==> forall t :: t in q ==> t in s.thread && s.thread[t].state != LOCK_WAIT)
      && (owner == None ==> s' == s.(mutex := s'.mutex))
      && (owner.Some? ==>
            && FirstWaiter(s, q, owner.value) && MadeRunnable(s, s', owner.value, s.thread[owner.value])
            && s' == s.(mutex := s'.mutex, thread := s'.thread, runQ := s'.runQ, sleepQ := s'.sleepQ))
  {
    StepFacts(run, ops, k, OpUnlock(m), s, s', ret);
    assert MutexOk(s, m);
    FirstIsFirst(s, s.mutex[m].waitQ);
  }

  /** st_mutex_trylock: the caller gets a free mutex, and no other. */
  lemma TrylockLaw(run: seq<State>, ops: seq<Op>, k: nat, m: Mid, s: State, s': State, ret: Ret)
    requires Steps(run, ops, k, OpTrylock(m), s, s', ret)
    ensures m in s.mutex
    ensures if s.mutex[m].owner == None then
        ret == Ok && s' == s.(mutex := s.mutex[m := s.mutex[m].(owner := Some(s.current))])
      else ret == Failed(EBUSY) && s' == s
  {
    StepFacts(run, ops, k, OpTrylock(m), s, s', ret);
  }

  /** Destroying fails while a mutex is owned, or somebody waits. */
  lemma DestroyLaw(run: seq<State>, ops: seq<Op>, k: nat, op: Op, s: State, s': State, ret: Ret)
    requires Steps(run, ops, k, op, s, s', ret)
    ensures op.OpDestroyMutex? ==>
      && op.m in s.mutex
      && if s.mutex[op.m].owner == None && s.mutex[op.m].waitQ == [] then
           ret == Ok && s' == s.(mutex := s.mutex - {op.m})
         else ret == Failed(EBUSY) && s' == s
    ensures op.OpDestroyCond? ==>
      && op.c in s.cond
      && if s.cond[op.c].waitQ == [] then ret == Ok && s' == s.(cond := s.cond - {op.c})
         else ret == Failed(EBUSY) && s' == s
  {
    StepFacts(run, ops, k, op, s, s', ret);
  }

  /** What is new is free, without waiters; a new thread is runnable, and its end can be waited for if joinable. */
  lemma NewLaw(run: seq<State>, ops: seq<Op>, k: nat, op: Op, s: State, s': State, ret: Ret)
    requires Steps(run, ops, k, op, s, s', ret)
    ensures op.OpNewMutex? ==> ret == Ok && s' == s.(mutex := s.mutex[op.m := Mutex(None, [])])
    ensures op.OpNewCond? ==> ret == Ok && s' == s.(cond := s.cond[op.c := Cond([], None)])
    ensures op.OpCreate? ==>
      && ret == Ok && s'.thread == s.thread[op.t := Thread(RUNNABLE, Code, false, false, false, 0, op.tc)]
      && s'.runQ == s.runQ + [op.t]
      && s'.cond == (if op.tc.Some? then s.cond[op.tc.value := Cond([], Some(op.t))] else s.cond)
      && s' == s.(thread := s'.thread, runQ := s'.runQ, cond := s'.cond)
  {
    StepFacts(run, ops, k, op, s, s', ret);
  }

  /**
   * st_thread_interrupt: a zombie is left alone; any other thread is marked, and runs again if it was blocked,
   * wherever that was.
   */
  lemma InterruptLaw(run: seq<State>, ops: seq<Op>, k: nat, t: Tid, s: State, s': State, ret: Ret)
    requires Steps(run, ops, k, OpInterrupt(t), s, s', ret)
    ensures t in s.thread && ret == Ok
    ensures var r := s.thread[t];
      if r.state == ZOMBIE then s' == s
      else if r.state == RUNNING || r.state == RUNNABLE then
        s' == s.(thread := s.thread[t := r.(interrupt := true)])
      else
        && MadeRunnable(s, s', t, r.(interrupt := true))
        && s' == s.(thread := s'.thread, runQ := s'.runQ, sleepQ := s'.sleepQ)
  {
    StepFacts(run, ops, k, OpInterrupt(t), s, s', ret);
  }

  /** st_cond_signal and st_cond_broadcast: those of q that wake, in order. */
  lemma {:induction false} SignalledAll(s: State, q: seq<Tid>)
    requires NoDup(q) && forall t :: t in q ==> t in s.thread
    ensures var s' := Signal(s, q, true);
      && s' == s.(thread := s'.thread, runQ := s'.runQ, sleepQ := s'.sleepQ)
      && (forall t :: t in s'.sleepQ <==> t in s.sleepQ && !(t in q && s.thread[t].state == COND_WAIT))
      && forall t :: t in s.thread ==>
           s'.thread[t] == if t in q && s.thread[t].state == COND_WAIT
                           then s.thread[t].(state := RUNNABLE, onSleepq := false) else s.thread[t]
    decreases |q|
  {
    if q != [] {
      PopNoDup(q);
      assert q[0] in q;
      var s1 := if s.thread[q[0]].state == COND_WAIT then Wake(s, q[0], s.thread[q[0]]) else s;
      SignalledAll(s1, q[1..]);
    }
  }

  lemma {:induction false} SignalFrame(s: State, q: seq<Tid>, broadcast: bool)
    ensures var s' := Signal(s, q, broadcast); s' == s.(thread := s'.thread, runQ := s'.runQ, sleepQ := s'.sleepQ)
    decreases |q|
  {
    if q != [] {
      if q[0] in s.thread && s.thread[q[0]].state == COND_WAIT {
        SignalFrame(Wake(s, q[0], s.thread[q[0]]), q[1..], true);
      } else {
        SignalFrame(s, q[1..], broadcast);
      }
    }
  }

  /** The answer of a broadcast: all of q who are still in COND_WAIT become runnable, in the order of q. */
  ghost predicate BroadcastWakes(s: State, s': State, q: seq<Tid>) {
    var keep := CondWaiters(s, q);
    && s.runQ <= s'.runQ && Picks(q, s'.runQ[|s.runQ|..], keep) && s'.sleepQ == s.sleepQ - keep
    && s'.thread.Keys == s.thread.Keys
    && forall t :: t in s.thread ==>
         s'.thread[t] == if t in keep then s.thread[t].(state := RUNNABLE, onSleepq := false) else s.thread[t]
  }

  lemma BroadcastLaw(s: State, q: seq<Tid>)
    requires NoDup(q) && forall t :: t in q ==> t in s.thread
    ensures BroadcastWakes(s, Signal(s, q, true), q)
  {
    var s' := Signal(s, q, true);
    SignalledAll(s, q);
    BroadcastWakesAll(s, q);
    ChosenPicks(q, CondWaiters(s, q));
    assert s'.runQ[|s.runQ|..] == Chosen(q, CondWaiters(s, q));
    assert s'.sleepQ == s.sleepQ - CondWaiters(s, q);
  }

  /** A signal wakes the first who is still in COND_WAIT, if any; a broadcast all of them, in queue order. */
  lemma SignalLaw(run: seq<State>, ops: seq<Op>, k: nat, c: Cid, broadcast: bool, s: State, s': State, ret: Ret)
    requires Steps(run, ops, k, OpSignal(c, broadcast), s, s', ret)
    ensures c in s.cond && ret == Ok && s' == s.(thread := s'.thread, runQ := s'.runQ, sleepQ := s'.sleepQ)
    ensures forall t :: t in s.cond[c].waitQ ==> t in s.thread
    ensures var q := s.cond[c].waitQ;
      && (!broadcast ==>
            && ((forall t :: t in q ==> s.thread[t].state != COND_WAIT) ==> s' == s)
            && forall i :: FirstCondWaiter(s, q, i) ==> MadeRunnable(s, s', q[i], s.thread[q[i]]))
      && (broadcast ==> BroadcastWakes(s, s', q))
  {
    StepFacts(run, ops, k, OpSignal(c, broadcast), s, s', ret);
    assert CondOk(s, c);
    var q := s.cond[c].waitQ;
    SignalFrame(s, q, broadcast);
    if broadcast { BroadcastLaw(s, q); } else { SignalWakesFirst(s, q); }
  }

  /** w are the members of q in keep, in the order of q. */
  ghost predicate Picks(q: seq<Tid>, w: seq<Tid>, keep: set<Tid>) {
    && NoDup(w) && (forall t :: t in w <==> t in q && t in keep)
    && forall a, b :: Before(w, a, b) ==> Before(q, a, b)
  }

  lemma {:induction false} ChosenPicks(q: seq<Tid>, keep: set<Tid>)
    requires NoDup(q)
    ensures Picks(q, Chosen(q, keep), keep)
  {
    if q != [] {
      PopNoDup(q);
      ChosenPicks(q[1..], keep);
      var w, rest := Chosen(q, keep), Chosen(q[1..], keep);
      forall a, b | Before(w, a, b) ensures Before(q, a, b) { PickedFirst(q, w, rest, a, b); }
    }
  }

  lemma {:induction false} UnchosenPicks(q: seq<Tid>, gone: set<Tid>, keep: set<Tid>)
    requires NoDup(q) && forall t :: t in q ==> (t in keep <==> t !in gone)
    ensures Picks(q, Unchosen(q, gone), keep)
  {
    if q != [] {
      PopNoDup(q);
      UnchosenPicks(q[1..], gone, keep);
      var w, rest := Unchosen(q, gone), Unchosen(q[1..], gone);
      forall a, b | Before(w, a, b) ensures Before(q, a, b) { PickedFirst(q, w, rest, a, b); }
    }
  }

  /** From the order in the rest of a queue to that in all of it. */
  lemma PickedFirst(q: seq<Tid>, w: seq<Tid>, rest: seq<Tid>, a: Tid, b: Tid)
    requires q != [] && (w == rest || w == [q[0]] + rest) && (forall t :: t in rest ==> t in q[1..])
    requires forall c, d :: Before(rest, c, d) ==> Before(q[1..], c, d)
    requires Before(w, a, b)
    ensures Before(q, a, b)
  {
    var i, j :| 0 <= i < j < |w| && w[i] == a && w[j] == b;
    if w == rest || i > 0 {
      assert Before(rest, a, b) by {
        if w != rest { assert rest[i - 1] == a && rest[j - 1] == b; }
      }
      var x, y :| 0 <= x < y < |q[1..]| && q[1..][x] == a && q[1..][y] == b;
      assert q[x + 1] == a && q[y + 1] == b;
    } else {
      assert b == rest[j - 1] && b in q[1..];
      var y :| 0 <= y < |q[1..]| && q[1..][y] == b;
      assert q[0] == a && q[y + 1] == b;
    }
  }

  // ---------- The end of a thread ----------

  /**
   * st_thread_exit: a thread nobody can join is gone; a joinable one becomes a zombie, and who waits for it, if anybody
   * still does, is runnable.
   */
  lemma ExitLaw(run: seq<State>, ops: seq<Op>, k: nat, s: State, s': State, ret: Ret)
    requires Steps(run, ops, k, OpExit, s, s', ret)
    ensures ret == Switched
    ensures var r := s.thread[s.current];
      if r.term.None? then
        && HandsOver(s, s', r.(at := Gone), s.runQ, s.thread)
        && s' == s.(current := s'.current, thread := s'.thread, runQ := s'.runQ)
      else r.term.value in s.cond && ExitSignalled(s, s', r, s.cond[r.term.value].waitQ)
  {
    StepFacts(run, ops, k, OpExit, s, s', ret);
    CallerFacts(s);
    if Me(s).term.None? {
      ExitGoes(s);
      CallerHandsOver(s, SetMe(s, Me(s).(at := Gone)));
      SameHandOver(s, s', Me(s).(at := Gone), s.runQ, s.thread);
    } else {
      JoinableExits(s);
    }
  }

  predicate ExitSignalled(s: State, s': State, r: Thread, q: seq<Tid>) {
    && (forall t :: t in q ==> t in s.thread)
    && (var zombie := r.(state := ZOMBIE, at := Exiting);
        if q != [] && s.thread[q[0]].state == COND_WAIT then
          |q| == 1 && HandsOver(s, s', zombie, s.runQ + q, s.thread[q[0] := s.thread[q[0]].(state := RUNNABLE)])
        else
          |q| <= 1 && HandsOver(s, s', zombie, s.runQ, s.thread))
    && s' == s.(current := s'.current, thread := s'.thread, runQ := s'.runQ, zombieQ := s.zombieQ + [s.current])
  }

  lemma JoinableExits(s: State)
    requires Inv(s) && Calling(s) && Me(s).term.Some?
    ensures var c := Me(s).term.value; c in s.cond && ExitSignalled(s, Exit(s), Me(s), s.cond[c].waitQ)
  {
    CallerFacts(s);
    ExitParks(s);
    var c := Me(s).term.value;
    assert CondOk(s, c);
    var q := s.cond[c].waitQ;
    var zombie := Me(s).(state := ZOMBIE, at := Exiting);
    var s1 := SetMe(s, zombie).(zombieQ := s.zombieQ + [s.current]);
    SignalKeeps(s1, c, q, false);
    CallerHandsOver(s, Signal(s1, q, false));
    if q != [] {
      assert q[0] in q && ThreadOk(s, q[0]) && q == [q[0]] && q[1..] == [];
    }
    SoleJoiner(s, s1, q, zombie);
  }

  /** What the signal of an ending thread does to its joiner. */
  lemma SoleJoiner(s: State, s1: State, q: seq<Tid>, zombie: Thread)
    requires s.current in s.thread && s1 == SetMe(s, zombie).(zombieQ := s.zombieQ + [s.current]) && s.current !in q
    requires |q| <= 1 && (forall t :: t in q ==> t in s.thread && !s.thread[t].onSleepq && t !in s.sleepQ)
    requires HandsOver(s, Schedule(Signal(s1, q, false)), zombie, Signal(s1, q, false).runQ,
                       Signal(s1, q, false).thread)
    requires zombie == s.thread[s.current].(state := ZOMBIE, at := Exiting)
    requires Schedule(Signal(s1, q, false)) == Signal(s1, q, false).(
               current := Schedule(Signal(s1, q, false)).current, thread := Schedule(Signal(s1, q, false)).thread,
               runQ := Schedule(Signal(s1, q, false)).runQ)
    ensures var s' := Schedule(Signal(s1, q, false)); ExitSignalled(s, s', s.thread[s.current], q)
  {
    var s' := Schedule(Signal(s1, q, false));
    if q != [] && s.thread[q[0]].state == COND_WAIT {
      assert q == [q[0]];
      var r := s.thread[q[0]].(state := RUNNABLE);
      assert s1.thread[q[0] := r] == s.thread[q[0] := r][s.current := zombie];
      assert Signal(s1, q, false) == Wake(s1, q[0], s.thread[q[0]]);
      SameHandOver(s, s', zombie, s.runQ + q, s.thread[q[0] := r]);
    } else {
      assert q[..] == [] || q[1..] == [];
      SameHandOver(s, s', zombie, s.runQ, s.thread);
    }
  }

  // ---------- After the switch back ----------

  /** The result of a wait: an interrupt counts more than a timeout. */
  predicate WaitResult(r: Thread, ret: Ret) {
    && (ret == Failed(EINTR) <==> r.interrupt) && (ret == Failed(ETIME) <==> !r.interrupt && r.timedOut)
    && (ret == Ok <==> !r.interrupt && !r.timedOut)
  }

  /** The caller is outside the library again. */
  predicate Returns(s: State, s': State) {
    && s.current in s.thread
    && s'.thread == s.thread[s.current := s.thread[s.current].(at := Code, interrupt := false, timedOut := false)]
  }

  /** From st_poll and st_usleep: the request is off the I/O queue, and the flags became the result. */
  lemma ReturnLaw(run: seq<State>, ops: seq<Op>, k: nat, s: State, s': State, ret: Ret)
    requires Steps(run, ops, k, OpResume, s, s', ret) && (Me(s).at.Polling? || Me(s).at.Sleeping?)
    ensures WaitResult(s.thread[s.current], ret) && Returns(s, s') && Removed(s.ioQ, s'.ioQ, s.current)
    ensures s' == s.(thread := s'.thread, ioQ := s'.ioQ) && (Me(s).at.Sleeping? ==> s'.ioQ == s.ioQ)
  {
    StepFacts(run, ops, k, OpResume, s, s', ret);
    assert ThreadOk(s, s.current);
    WithoutRemoves(s.ioQ, s.current);
    if s'.ioQ == s.ioQ { assert s.current !in s.ioQ; }
  }

  /** From st_cond_timedwait: off the wait queue. */
  lemma WaitLaw(run: seq<State>, ops: seq<Op>, k: nat, s: State, s': State, ret: Ret)
    requires Steps(run, ops, k, OpResume, s, s', ret) && Me(s).at.Waiting?
    ensures WaitResult(s.thread[s.current], ret) && Returns(s, s')
    ensures var c := Me(s).at.c;
      && c in s.cond && c in s'.cond && Removed(s.cond[c].waitQ, s'.cond[c].waitQ, s.current)
      && s'.cond == s.cond[c := s.cond[c].(waitQ := s'.cond[c].waitQ)]
    ensures s' == s.(thread := s'.thread, cond := s'.cond)
  {
    StepFacts(run, ops, k, OpResume, s, s', ret);
    assert ThreadOk(s, s.current);
    WithoutRemoves(s.cond[Me(s).at.c].waitQ, s.current);
  }

  /** From st_mutex_lock: off the queue; with the mutex an interrupt stays pending, without it the call fails. */
  lemma LockedLaw(run: seq<State>, ops: seq<Op>, k: nat, s: State, s': State, ret: Ret)
    requires Steps(run, ops, k, OpResume, s, s', ret) && Me(s).at.Locking?
    ensures var m, r := Me(s).at.m, s.thread[s.current];
      && m in s.mutex && m in s'.mutex && Removed(s.mutex[m].waitQ, s'.mutex[m].waitQ, s.current)
      && s'.mutex == s.mutex[m := s.mutex[m].(waitQ := s'.mutex[m].waitQ)]
      && (if s.mutex[m].owner == Some(s.current) then ret == Ok && s'.thread == s.thread[s.current := r.(at := Code)]
          else
            && r.interrupt && ret == Failed(EINTR)
            && s'.thread == s.thread[s.current := r.(at := Code, interrupt := false)])
      && s' == s.(thread := s'.thread, mutex := s'.mutex)
  {
    StepFacts(run, ops, k, OpResume, s, s', ret);
    assert ThreadOk(s, s.current);
    WithoutRemoves(s.mutex[Me(s).at.m].waitQ, s.current);
  }

  /** From st_thread_join: off the wait queue; if it was not interrupted, the target is a zombie and goes on to end. */
  lemma JoinedLaw(run: seq<State>, ops: seq<Op>, k: nat, s: State, s': State, ret: Ret)
    requires Steps(run, ops, k, OpResume, s, s', ret) && Me(s).at.Joining?
    ensures var c, x, r := Me(s).at.tc, Me(s).at.target, s.thread[s.current].(at := Code, interrupt := false);
      && c in s.cond && s'.cond == s.cond[c := s.cond[c].(waitQ := [])] && x in s.thread
      && (if s.thread[s.current].interrupt then
            ret == Failed(EINTR) && s' == s.(thread := s.thread[s.current := r], cond := s'.cond)
          else
            && ret == Ok && s.thread[x].state == ZOMBIE && Removed(s.zombieQ, s'.zombieQ, x)
            && s'.runQ == s.runQ + [x]
            && s'.thread == s.thread[s.current := r][x := s.thread[x].(state := RUNNABLE)]
            && s' == s.(thread := s'.thread, cond := s'.cond, runQ := s'.runQ, zombieQ := s'.zombieQ))
  {
    StepFacts(run, ops, k, OpResume, s, s', ret);
    assert ThreadOk(s, s.current) && CondOk(s, Me(s).at.tc);
    assert s.cond[Me(s).at.tc].waitQ == [s.current];
    WithoutRemoves(s.zombieQ, Me(s).at.target);
    assert Without([s.current], s.current) == [];
  }

  /** From st_thread_exit: the thread is gone, with its condition variable unless somebody waits at that. */
  lemma GoneLaw(run: seq<State>, ops: seq<Op>, k: nat, s: State, s': State, ret: Ret)
    requires Steps(run, ops, k, OpResume, s, s', ret) && Me(s).at == Exiting
    ensures ret == Switched && HandsOver(s, s', s.thread[s.current].(at := Gone, term := None), s.runQ, s.thread)
    ensures var term := s.thread[s.current].term;
      && term.Some? && term.value in s.cond
      && s'.cond == (if s.cond[term.value].waitQ == [] then s.cond - {term.value} else s.cond)
      && s' == s.(current := s'.current, thread := s'.thread, runQ := s'.runQ, cond := s'.cond)
  {
    StepFacts(run, ops, k, OpResume, s, s', ret);
    assert ThreadOk(s, s.current);
    VanishKeeps(s);
    GoneHandsOver(s, Vanish(s));
  }

  lemma GoneHandsOver(s: State, s1: State)
    requires Inv(s) && Inv0(s1) && Stopped(s1) && Me(s).at == Exiting
    requires s1 == SetMe(s, Me(s).(at := Gone, term := None)).(cond := s1.cond)
    ensures HandsOver(s, Schedule(s1), s.thread[s.current].(at := Gone, term := None), s.runQ, s.thread)
    ensures var s' := Schedule(s1); s' == s1.(current := s'.current, thread := s'.thread, runQ := s'.runQ)
  {
    NextIsRunnable(s1);
    assert ThreadOk(s, s.current);
  }

  // ---------- The idle loop ----------

  /** The record of a thread after an idle turn, but for being scheduled. */
  function AfterIdle(r: Thread, fired: bool, expired: bool): Thread {
    if fired then r.(state := RUNNABLE, at := Polling(false), onSleepq := false)
    else if expired then r.(state := RUNNABLE, onSleepq := false, timedOut := r.timedOut || r.state == COND_WAIT)
    else r
  }

  /** The run queue when the idle thread yields: the requests that fired in queue order, then the sleepers. */
  ghost predicate Lined(s: State, q: seq<Tid>, fired: set<Tid>, order: seq<Tid>) {
    |order| <= |q| && q[|q| - |order|..] == order && Picks(s.ioQ, q[..|q| - |order|], fired)
  }

  /** The state between the clock check and the switch. */
  ghost predicate Roused(s: State, s2: State, fired: set<Tid>, now: int, order: seq<Tid>) {
    && Picks(s.ioQ, s2.ioQ, set t | t in s.ioQ && t !in fired) && Lined(s, s2.runQ, fired, order)
    && s2 == s.(thread := s2.thread, runQ := s2.runQ, ioQ := s2.ioQ, sleepQ := s2.sleepQ, lastClock := now)
    && s2.thread.Keys == s.thread.Keys
    && (forall t :: t in s.thread ==> s2.thread[t] == AfterIdle(s.thread[t], t in s.ioQ && t in fired, t in order))
    && (forall t :: t in s2.sleepQ <==> t in s.sleepQ && t !in order && !(t in s.ioQ && t in fired))
  }

  /** And after it. */
  ghost predicate IdleAnswers(s: State, s': State, fired: set<Tid>, now: int, order: seq<Tid>) {
    && Picks(s.ioQ, s'.ioQ, set t | t in s.ioQ && t !in fired)
    && Lined(s, if s'.current == s.idle then [] else [s'.current] + s'.runQ, fired, order)
    && (s'.current == s.idle ==> s'.runQ == [])
    && s' == s.(current := s'.current, thread := s'.thread, runQ := s'.runQ, ioQ := s'.ioQ, sleepQ := s'.sleepQ,
                lastClock := now)
    && s'.thread.Keys == s.thread.Keys
    && (forall t :: t in s.thread && t != s.idle ==>
          var r := AfterIdle(s.thread[t], t in s.ioQ && t in fired, t in order);
          s'.thread[t] == if t == s'.current then r.(state := RUNNING) else r)
    && (forall t :: t in s'.sleepQ <==> t in s.sleepQ && t !in order && !(t in s.ioQ && t in fired))
  }

  /**
   * One turn of the idle loop: the requests that fired and then the sleepers that are due become runnable, earliest
   * first, and the first of them runs; who was due on a condition variable is told so.
   */
  lemma IdleLaw(run: seq<State>, ops: seq<Op>, k: nat, fired: set<Tid>, now: int, order: seq<Tid>, s: State, s': State,
                ret: Ret)
    requires Steps(run, ops, k, OpIdle(fired, now, order), s, s', ret)
    ensures ret == Switched && ExpiredInOrder(s, fired, now, order) && IdleAnswers(s, s', fired, now, order)
  {
    StepFacts(run, ops, k, OpIdle(fired, now, order), s, s', ret);
    WokenLaw(s, fired, now, order);
    OrderFacts(s, fired, now, order);
    ClockCheckReady(s, fired, now, order);
    ExpireKeeps(Dispatch(s, s.ioQ, fired).(lastClock := now), order);
    IdleHandsOver(s, Expire(Dispatch(s, s.ioQ, fired).(lastClock := now), order), fired, now, order);
  }

  lemma IdleHandsOver(s: State, s2: State, fired: set<Tid>, now: int, order: seq<Tid>)
    requires Roused(s, s2, fired, now, order) && Inv0(s2) && s.current == s.idle && s.current in s.thread
    ensures IdleAnswers(s, Schedule(SetMe(s2, Me(s2).(state := RUNNABLE))), fired, now, order)
  {
    IdleGives(s2);
    IdleGave(s, s2, Schedule(SetMe(s2, Me(s2).(state := RUNNABLE))), fired, now, order);
  }

  /** The idle thread gives the processor to the first of the run queue, if there is one. */
  ghost predicate Gives(s2: State, s': State) {
    && s' == s2.(current := s'.current, thread := s'.thread, runQ := s'.runQ) && s'.thread.Keys == s2.thread.Keys
    && (if s2.runQ == [] then s'.current == s2.idle && s'.runQ == []
        else s'.current == s2.runQ[0] && s'.runQ == s2.runQ[1..] && s'.current != s2.idle)
    && forall t :: t in s2.thread && t != s2.idle ==>
         s'.thread[t] == if t == s'.current then s2.thread[t].(state := RUNNING) else s2.thread[t]
  }

  lemma IdleGives(s2: State)
    requires Inv0(s2) && s2.current == s2.idle
    ensures Gives(s2, Schedule(SetMe(s2, Me(s2).(state := RUNNABLE))))
  {
    YieldStops(s2);
    NextIsRunnable(SetMe(s2, Me(s2).(state := RUNNABLE)));
    if s2.runQ != [] { assert s2.runQ[0] in s2.runQ && ThreadOk(s2, s2.runQ[0]); }
  }

  lemma IdleGave(s: State, s2: State, s': State, fired: set<Tid>, now: int, order: seq<Tid>)
    requires Roused(s, s2, fired, now, order) && Gives(s2, s')
    ensures IdleAnswers(s, s', fired, now, order)
  {
    if s2.runQ != [] { assert [s'.current] + s'.runQ == s2.runQ; }
  }

  lemma WokenLaw(s: State, fired: set<Tid>, now: int, order: seq<Tid>)
    requires Inv(s) && Enabled(s, OpIdle(fired, now, order))
    ensures Roused(s, Expire(Dispatch(s, s.ioQ, fired).(lastClock := now), order), fired, now, order)
  {
    var s1 := Dispatch(s, s.ioQ, fired);
    var s2 := Expire(s1.(lastClock := now), order);
    RousedQueues(s, fired, now, order);
    DispatchFrame(s, s.ioQ, fired);
    ExpireFrame(s1.(lastClock := now), order);
    forall t | t in s.thread
      ensures s2.thread[t] == AfterIdle(s.thread[t], t in s.ioQ && t in fired, t in order)
    {
      WokenRecord(s, fired, now, order, t);
    }
    RousedSleepers(s, fired, now, order);
  }

  lemma RousedQueues(s: State, fired: set<Tid>, now: int, order: seq<Tid>)
    requires Inv(s) && Enabled(s, OpIdle(fired, now, order))
    ensures var s2 := Expire(Dispatch(s, s.ioQ, fired).(lastClock := now), order);
      Picks(s.ioQ, s2.ioQ, set t | t in s.ioQ && t !in fired) && Lined(s, s2.runQ, fired, order)
  {
    IdleTurnWakesExactly(s, fired, now, order);
    ExpireFrame(Dispatch(s, s.ioQ, fired).(lastClock := now), order);
    ChosenPicks(s.ioQ, fired);
    UnchosenPicks(s.ioQ, fired, set t | t in s.ioQ && t !in fired);
    var w := Chosen(s.ioQ, fired);
    assert (w + order)[|w|..] == order && (w + order)[..|w|] == w;
  }

  lemma RousedSleepers(s: State, fired: set<Tid>, now: int, order: seq<Tid>)
    requires Inv(s) && Enabled(s, OpIdle(fired, now, order))
    ensures var s2 := Expire(Dispatch(s, s.ioQ, fired).(lastClock := now), order);
      forall t :: t in s2.sleepQ <==> t in s.sleepQ && t !in order && !(t in s.ioQ && t in fired)
  {
    ClockCheckReady(s, fired, now, order);
    var s1 := Dispatch(s, s.ioQ, fired).(lastClock := now);
    ExpireAppends(s1, order);
    forall t | t in s.thread ensures t in s1.sleepQ <==> t in s.sleepQ && !(t in s.ioQ && t in fired) {
      DispatchEffect(s, s.ioQ, fired, t);
    }
  }

  /** The order is that of the deadlines, over exactly the sleepers that are due and did not fire. */
  ghost predicate ExpiredInOrder(s: State, fired: set<Tid>, now: int, order: seq<Tid>) {
    && (forall t :: t in order <==>
          t in s.sleepQ && t in s.thread && s.thread[t].due <= now && !(t in s.ioQ && t in fired))
    && forall i, j :: 0 <= i < j < |order| ==>
         order[i] in s.thread && order[j] in s.thread && s.thread[order[i]].due <= s.thread[order[j]].due
  }

  lemma OrderFacts(s: State, fired: set<Tid>, now: int, order: seq<Tid>)
    requires Inv(s) && Enabled(s, OpIdle(fired, now, order))
    ensures ExpiredInOrder(s, fired, now, order)
  {
    ClockCheckReady(s, fired, now, order);
    var s1 := Dispatch(s, s.ioQ, fired);
    forall t | t in s.thread
      ensures t in s1.thread && s1.thread[t].due == s.thread[t].due
      ensures t in s1.sleepQ <==> t in s.sleepQ && !(t in s.ioQ && t in fired)
    {
      DispatchEffect(s, s.ioQ, fired, t);
    }
    forall t ensures t in order <==>
      t in s.sleepQ && t in s.thread && s.thread[t].due <= now && !(t in s.ioQ && t in fired)
    {
      assert t in HeapModel.Elements(order) <==> t in order;
      assert t in order <==> t in s1.sleepQ && HeapModel.Due(Dues(s1), t) <= now;
    }
  }

  lemma WokenRecord(s: State, fired: set<Tid>, now: int, order: seq<Tid>, t: Tid)
    requires Inv(s) && Enabled(s, OpIdle(fired, now, order)) && t in s.thread
    ensures var s2 := Expire(Dispatch(s, s.ioQ, fired).(lastClock := now), order);
      t in s2.thread && s2.thread[t] == AfterIdle(s.thread[t], t in s.ioQ && t in fired, t in order)
  {
    WakersFacts(s, fired, now, order, t);
    DispatchEffect(s, s.ioQ, fired, t);
    ExpireEffect(Dispatch(s, s.ioQ, fired).(lastClock := now), order, t);
  }

  lemma {:induction false} DispatchFrame(s: State, q: seq<Tid>, fired: set<Tid>)
    ensures var s' := Dispatch(s, q, fired);
      s' == s.(thread := s'.thread, runQ := s'.runQ, ioQ := s'.ioQ, sleepQ := s'.sleepQ)
    decreases |q|
  {
    if q != [] {
      DispatchFrame(if q[0] in fired && q[0] in s.thread then Notify(s, q[0]) else s, q[1..], fired);
    }
  }

  lemma {:induction false} ExpireFrame(s: State, order: seq<Tid>)
    ensures var s' := Expire(s, order); s' == s.(thread := s'.thread, runQ := s'.runQ, sleepQ := s'.sleepQ)
    decreases |order|
  {
    if order != [] && order[0] in s.thread {
      var r := s.thread[order[0]];
      ExpireFrame(Wake(s, order[0], r.(timedOut := r.timedOut || r.state == COND_WAIT)), order[1..]);
    }
  }
}
