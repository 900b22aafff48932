/**
 * What every step of the scheduler keeps: each thread is on the queues that its state and its place in the library
 * call for and on no other, and a thread that was woken was woken for a reason.
 */
module SchedulerInvariant {
  import opened Options
  import opened ThreadStates
  import opened Queues
  import opened Scheduler
  import HeapModel

  /** State, flags and place in the code agree. */
  predicate StateOk(r: Thread) {
    match r.at
    case Idling => Awake(r) && !r.onSleepq && !r.timedOut
    case Code => Awake(r) && !r.onSleepq && !r.timedOut
    case Polling(q) =>
      && (r.state == IO_WAIT || Awake(r)) && (r.state == IO_WAIT ==> q)
      && (r.onSleepq ==> r.state == IO_WAIT) && !r.timedOut
    case Sleeping(u) =>
      && (r.state == SLEEPING || r.state == SUSPENDED || Awake(r)) && (r.onSleepq <==> r.state == SLEEPING)
      && (r.state == SLEEPING ==> u == Some(r.due)) && !r.timedOut
    case Waiting(_) =>
      && (r.state == COND_WAIT || Awake(r)) && (r.onSleepq ==> r.state == COND_WAIT) && (r.timedOut ==> Awake(r))
    case Joining(_, _) => (r.state == COND_WAIT || Awake(r)) && !r.onSleepq && !r.timedOut
    case Locking(_) => (r.state == LOCK_WAIT || Awake(r)) && !r.onSleepq && !r.timedOut
    case Exiting => (r.state == ZOMBIE || Awake(r)) && !r.onSleepq && !r.timedOut && r.term.Some?
    case Gone => r.state == RUNNING && !r.onSleepq
  }

  /** A waiting thread was woken for what it waited for, or interrupted. */
  predicate Justified(s: State, t: Tid, r: Thread) {
    && (r.timedOut ==> r.due <= s.lastClock)
    && (Awake(r) && !r.interrupt ==> WaitedFor(s, t, r))
  }

  predicate WaitedFor(s: State, t: Tid, r: Thread) {
    match r.at
    case Sleeping(u) => u.Some? && u.value <= s.lastClock
    case Locking(m) => m in s.mutex && s.mutex[m].owner == Some(t)
    case Joining(x, _) => x in s.thread && s.thread[x].state == ZOMBIE
    case _ => true
  }

  predicate OnCond(a: Where, c: Cid) {
    a == Waiting(c) || (a.Joining? && a.tc == c)
  }

  /** The thread is on the queues its state and place call for, and on no other. */
  predicate Placed(s: State, t: Tid, r: Thread) {
    && (t in s.runQ <==> r.state == RUNNABLE && t != s.idle)
    && (t in s.zombieQ <==> r.state == ZOMBIE)
    && (t in s.ioQ <==> r.at == Polling(true))
    && (t in s.sleepQ <==> r.onSleepq)
    && (r.at.Waiting? ==> r.at.c in s.cond && t in s.cond[r.at.c].waitQ && s.cond[r.at.c].owner == None)
    && (r.at.Joining? ==> r.at.tc in s.cond && t in s.cond[r.at.tc].waitQ && s.cond[r.at.tc].owner == Some(r.at.target))
    && (r.at.Locking? ==> r.at.m in s.mutex && t in s.mutex[r.at.m].waitQ)
    && (r.term.Some? ==> r.term.value in s.cond && s.cond[r.term.value].owner == Some(t))
    && (r.at == Idling <==> t == s.idle)
    && (r.state == RUNNING && r.at != Gone ==> t == s.current)
  }

  predicate ThreadOk(s: State, t: Tid)
    requires t in s.thread
  {
    var r := s.thread[t];
    StateOk(r) && Justified(s, t, r) && Placed(s, t, r)
  }

  ghost predicate CondOk(s: State, c: Cid)
    requires c in s.cond
  {
    var v := s.cond[c];
    && NoDup(v.waitQ)
    && (forall t :: t in v.waitQ ==> t in s.thread && OnCond(s.thread[t].at, c))
    && (v.owner.Some? ==>
          && |v.waitQ| <= 1 && v.owner.value in s.thread
          && (s.thread[v.owner.value].at == Gone || s.thread[v.owner.value].term == Some(c)))
  }

  ghost predicate MutexOk(s: State, m: Mid)
    requires m in s.mutex
  {
    var v := s.mutex[m];
    && NoDup(v.waitQ)
    && (forall t :: t in v.waitQ ==> t in s.thread && s.thread[t].at == Locking(m))
    && (v.owner.None? ==> forall t :: t in v.waitQ ==> s.thread[t].state != LOCK_WAIT)
  }

  ghost predicate QueuesOk(s: State) {
    && NoDup(s.runQ) && NoDup(s.zombieQ) && NoDup(s.ioQ)
    && (forall t :: t in s.runQ || t in s.zombieQ || t in s.ioQ || t in s.sleepQ ==> t in s.thread)
    && s.current in s.thread && s.idle in s.thread
  }

  /** Holds at every moment inside a step as well. */
  ghost predicate Inv0(s: State) {
    && QueuesOk(s)
    && (forall t {:trigger ThreadOk(s, t)} :: t in s.thread ==> ThreadOk(s, t))
    && (forall c {:trigger CondOk(s, c)} :: c in s.cond ==> CondOk(s, c))
    && (forall m {:trigger MutexOk(s, m)} :: m in s.mutex ==> MutexOk(s, m))
  }

  /** The invariant between steps. */
  ghost predicate Inv(s: State) {
    && Inv0(s) && s.thread[s.current].state == RUNNING && s.thread[s.current].at != Gone
    && (s.current == s.idle ==> s.runQ == [])
  }

  /** Nothing that ThreadOk says about u is spoilt between s and s'. */
  predicate SameFor(s: State, s': State, u: Tid) {
    && u in s.thread && u in s'.thread && s'.thread[u] == s.thread[u]
    && s'.idle == s.idle && s.lastClock <= s'.lastClock
    && var r := s.thread[u];
    && (u in s'.runQ <==> u in s.runQ) && (u in s'.zombieQ <==> u in s.zombieQ)
    && (u in s'.ioQ <==> u in s.ioQ) && (u in s'.sleepQ <==> u in s.sleepQ)
    && (u == s.current ==> u == s'.current || r.state != RUNNING || r.at == Gone)
    && (r.at.Waiting? ==> SameCond(s, s', r.at.c, u))
    && (r.at.Joining? ==> SameCond(s, s', r.at.tc, u) && SameZombie(s, s', r.at.target))
    && (r.at.Locking? ==> SameMutex(s, s', r.at.m, u))
    && (r.term.Some? && r.term.value in s.cond ==>
          r.term.value in s'.cond && s'.cond[r.term.value].owner == s.cond[r.term.value].owner)
  }

  predicate SameCond(s: State, s': State, c: Cid, u: Tid) {
    c in s.cond && u in s.cond[c].waitQ ==> c in s'.cond && u in s'.cond[c].waitQ && s'.cond[c].owner == s.cond[c].owner
  }

  predicate SameZombie(s: State, s': State, x: Tid) {
    x in s.thread && s.thread[x].state == ZOMBIE ==> x in s'.thread && s'.thread[x].state == ZOMBIE
  }

  predicate SameMutex(s: State, s': State, m: Mid, u: Tid) {
    m in s.mutex && u in s.mutex[m].waitQ ==>
      m in s'.mutex && u in s'.mutex[m].waitQ && (s.mutex[m].owner == Some(u) ==> s'.mutex[m].owner == Some(u))
  }

  lemma SameForKeeps(s: State, s': State, u: Tid)
    requires SameFor(s, s', u) && ThreadOk(s, u)
    ensures ThreadOk(s', u)
  {
  }

  lemma OthersKept(s: State, s': State, ts: set<Tid>)
    requires Inv0(s)
    requires forall u {:trigger SameFor(s, s', u)} :: u in s'.thread && u !in ts ==> SameFor(s, s', u)
    ensures forall u {:trigger ThreadOk(s', u)} :: u in s'.thread && u !in ts ==> ThreadOk(s', u)
  {
    forall u | u in s'.thread && u !in ts ensures ThreadOk(s', u) {
      assert SameFor(s, s', u) && ThreadOk(s, u);
      SameForKeeps(s, s', u);
    }
  }

  /** Only t changes its place in the code. */
  ghost predicate OnlyMoves(s: State, s': State, t: Tid) {
    && t in s.thread && t in s'.thread && s'.thread[t].term == s.thread[t].term
    && (s.thread[t].at == Gone ==> s'.thread[t].at == Gone)
    && forall u :: u in s.thread && u != t ==> u in s'.thread && SamePlace(s.thread[u], s'.thread[u])
  }

  lemma CondsKept(s: State, s': State, t: Tid, cs: set<Cid>)
    requires Inv0(s) && OnlyMoves(s, s', t)
    requires forall c :: c in s'.cond && c !in cs ==>
      c in s.cond && s'.cond[c] == s.cond[c] && !OnCond(s.thread[t].at, c)
    ensures forall c {:trigger CondOk(s', c)} :: c in s'.cond && c !in cs ==> CondOk(s', c)
  {
    forall c | c in s'.cond && c !in cs ensures CondOk(s', c) { assert CondOk(s, c); }
  }

  lemma MutexesKept(s: State, s': State, t: Tid, ms: set<Mid>)
    requires Inv0(s) && OnlyMoves(s, s', t)
    requires forall m :: m in s'.mutex && m !in ms ==>
      m in s.mutex && s'.mutex[m] == s.mutex[m] && s.thread[t].at != Locking(m)
    ensures forall m {:trigger MutexOk(s', m)} :: m in s'.mutex && m !in ms ==> MutexOk(s', m)
  {
    forall m | m in s'.mutex && m !in ms ensures MutexOk(s', m) { assert MutexOk(s, m); }
  }

  /** Queues of the condition variables and mutexes are untouched, and so are the waiters' places. */
  ghost predicate SameWaits(s: State, s': State) {
    && s'.cond == s.cond && s'.mutex == s.mutex && s.thread.Keys <= s'.thread.Keys
    && forall u :: u in s.thread ==> SamePlace(s.thread[u], s'.thread[u])
  }

  predicate SamePlace(r: Thread, r': Thread) {
    r'.at == r.at && r'.term == r.term && (r'.state == LOCK_WAIT ==> r.state == LOCK_WAIT)
  }

  lemma WaitsKept(s: State, s': State)
    requires Inv0(s) && SameWaits(s, s')
    ensures forall c {:trigger CondOk(s', c)} :: c in s'.cond ==> CondOk(s', c)
    ensures forall m {:trigger MutexOk(s', m)} :: m in s'.mutex ==> MutexOk(s', m)
  {
    forall c | c in s'.cond ensures CondOk(s', c) { assert CondOk(s, c); }
    forall m | m in s'.mutex ensures MutexOk(s', m) { assert MutexOk(s, m); }
  }

  /** No live thread is running: the current one gave up the processor. */
  ghost predicate Stopped(s: State) {
    s.current in s.thread && (s.thread[s.current].state != RUNNING || s.thread[s.current].at == Gone)
  }

  /** The thread that _st_vp_schedule picks is runnable. */
  lemma NextIsRunnable(s: State)
    requires Inv0(s) && Stopped(s)
    ensures var t := Schedule(s).current;
      t in s.thread && ThreadOk(s, t) && s.thread[t].state == RUNNABLE && (s.runQ != [] ==> t == s.runQ[0])
  {
    assert ThreadOk(s, s.idle) && ThreadOk(s, s.current);
    if s.runQ != [] {
      assert s.runQ[0] in s.runQ;
      assert ThreadOk(s, s.runQ[0]);
    }
  }

  lemma ScheduleOthers(s: State)
    requires Inv0(s) && Stopped(s)
    ensures var s' := Schedule(s); NoDup(s'.runQ) && forall u :: u in s.thread && u != s'.current ==> SameFor(s, s', u)
  {
    NextIsRunnable(s);
    if s.runQ != [] {
      PopNoDup(s.runQ);
    }
  }

  lemma ScheduleKeeps(s: State)
    requires Inv0(s) && Stopped(s)
    ensures Inv(Schedule(s))
  {
    var s' := Schedule(s);
    NextIsRunnable(s);
    ScheduleOthers(s);
    ScheduleNext(s);
    OthersKept(s, s', {s'.current});
    WaitsKept(s, s');
  }

  lemma ScheduleNext(s: State)
    requires Inv0(s) && Stopped(s)
    ensures var s' := Schedule(s); QueuesOk(s') && s'.current in s'.thread && ThreadOk(s', s'.current)
  {
    NextIsRunnable(s);
    if s.runQ != [] { PopNoDup(s.runQ); }
  }

  lemma WakeKeeps(s: State, t: Tid, r: Thread)
    requires Inv0(s) && t in s.thread && t != s.idle && t != s.current
    requires !Awake(s.thread[t]) && s.thread[t].state != ZOMBIE
    requires r == s.thread[t].(interrupt := r.interrupt, timedOut := r.timedOut) && (r.timedOut ==> r.at.Waiting?)
    requires Justified(s, t, r.(state := RUNNABLE))
    ensures Inv0(Wake(s, t, r))
  {
    var s' := Wake(s, t, r);
    assert ThreadOk(s, t);
    AppendNoDup(s.runQ, t);
    OthersKept(s, s', {t});
    WaitsKept(s, s');
    assert ThreadOk(s', t);
  }

  // ---------- Every step keeps the invariant ----------

  /** A caller outside the library. */
  predicate Calling(s: State) {
    s.current in s.thread && s.thread[s.current].at == Code
  }

  lemma CallerFacts(s: State)
    requires Inv(s) && Calling(s)
    ensures ThreadOk(s, s.current) && s.current != s.idle
    ensures s.current !in s.runQ && s.current !in s.ioQ && s.current !in s.sleepQ && s.current !in s.zombieQ
    ensures forall c :: c in s.cond ==> s.current !in s.cond[c].waitQ
    ensures forall m :: m in s.mutex ==> s.current !in s.mutex[m].waitQ
  {
    assert ThreadOk(s, s.current);
    forall c | c in s.cond ensures s.current !in s.cond[c].waitQ { assert CondOk(s, c); }
    forall m | m in s.mutex ensures s.current !in s.mutex[m].waitQ { assert MutexOk(s, m); }
  }

  lemma RefuseKeeps(s: State)
    requires Inv(s) && Calling(s)
    ensures Inv(Refuse(s).0)
  {
    CallerFacts(s);
    var s' := Refuse(s).0;
    OthersKept(s, s', {s.current});
    WaitsKept(s, s');
  }

  lemma PollParks(s: State, timeout: Option<int>)
    requires Inv(s) && Calling(s)
    ensures var s' := Park(s.(ioQ := s.ioQ + [s.current]), IO_WAIT, Polling(true), timeout);
      Inv0(s') && Stopped(s')
  {
    CallerFacts(s);
    var s' := Park(s.(ioQ := s.ioQ + [s.current]), IO_WAIT, Polling(true), timeout);
    AppendNoDup(s.ioQ, s.current);
    OthersKept(s, s', {s.current});
    CondsKept(s, s', s.current, {});
    MutexesKept(s, s', s.current, {});
    assert ThreadOk(s', s.current);
  }

  lemma PollKeeps(s: State, timeout: Option<int>, added: bool)
    requires Inv(s) && Calling(s)
    ensures Inv(Poll(s, timeout, added).0)
  {
    if Me(s).interrupt {
      RefuseKeeps(s);
    } else if added {
      PollParks(s, timeout);
      ScheduleKeeps(Park(s.(ioQ := s.ioQ + [s.current]), IO_WAIT, Polling(true), timeout));
    }
  }

  lemma UsleepParks(s: State, timeout: Option<int>)
    requires Inv(s) && Calling(s)
    ensures Inv0(ParkAsleep(s, timeout)) && Stopped(ParkAsleep(s, timeout))
  {
    CallerFacts(s);
    var s' := ParkAsleep(s, timeout);
    OthersAsleep(s, timeout);
    CondsKept(s, s', s.current, {});
    MutexesKept(s, s', s.current, {});
    assert ThreadOk(s', s.current);
  }

  lemma OthersAsleep(s: State, timeout: Option<int>)
    requires Inv(s) && Calling(s)
    ensures var s' := ParkAsleep(s, timeout);
      forall u {:trigger ThreadOk(s', u)} :: u in s'.thread && u != s.current ==> ThreadOk(s', u)
  {
    CallerFacts(s);
    OthersKept(s, ParkAsleep(s, timeout), {s.current});
  }

  lemma UsleepKeeps(s: State, timeout: Option<int>)
    requires Inv(s) && Calling(s)
    ensures Inv(Usleep(s, timeout).0)
  {
    if Me(s).interrupt {
      RefuseKeeps(s);
    } else {
      UsleepParks(s, timeout);
      ScheduleKeeps(ParkAsleep(s, timeout));
    }
  }

  /** The caller queues on condition variable c: an ordinary one, or that of a thread nobody else joins. */
  lemma CondParks(s: State, c: Cid, at: Where, timeout: Option<int>)
    requires Inv(s) && Calling(s) && c in s.cond
    requires (at == Waiting(c) && s.cond[c].owner == None)
          || (at.Joining? && at.tc == c && s.cond[c].owner == Some(at.target) && s.cond[c].waitQ == []
              && timeout == None)
    ensures var s' := Park(EnqueueCond(s, c), COND_WAIT, at, timeout);
      Inv0(s') && Stopped(s')
  {
    CallerFacts(s);
    var s' := Park(EnqueueCond(s, c), COND_WAIT, at, timeout);
    EntersCond(s, c, at, timeout);
    OthersAtCond(s, c, at, timeout);
    CondsKept(s, s', s.current, {c});
    MutexesKept(s, s', s.current, {});
  }

  lemma OthersAtCond(s: State, c: Cid, at: Where, timeout: Option<int>)
    requires Inv(s) && Calling(s) && c in s.cond && (at.Waiting? || at.Joining?)
    ensures var s' := Park(EnqueueCond(s, c), COND_WAIT, at, timeout);
      forall u {:trigger ThreadOk(s', u)} :: u in s'.thread && u != s.current ==> ThreadOk(s', u)
  {
    CallerFacts(s);
    OthersKept(s, Park(EnqueueCond(s, c), COND_WAIT, at, timeout), {s.current});
  }

  lemma EntersCond(s: State, c: Cid, at: Where, timeout: Option<int>)
    requires Inv(s) && Calling(s) && c in s.cond
    requires (at == Waiting(c) && s.cond[c].owner == None)
          || (at.Joining? && at.tc == c && s.cond[c].owner == Some(at.target) && s.cond[c].waitQ == []
              && timeout == None)
    ensures var s' := Park(EnqueueCond(s, c), COND_WAIT, at, timeout);
      s.current in s'.thread && ThreadOk(s', s.current) && c in s'.cond && CondOk(s', c)
  {
    CallerFacts(s);
    assert CondOk(s, c);
    AppendNoDup(s.cond[c].waitQ, s.current);
  }

  lemma CondWaitKeeps(s: State, c: Cid, timeout: Option<int>)
    requires Inv(s) && Calling(s) && c in s.cond && s.cond[c].owner == None
    ensures Inv(CondWait(s, c, timeout).0)
  {
    if Me(s).interrupt {
      RefuseKeeps(s);
    } else {
      CondParks(s, c, Waiting(c), timeout);
      ScheduleKeeps(Park(EnqueueCond(s, c), COND_WAIT, Waiting(c), timeout));
    }
  }

  lemma {:induction false} SignalKeeps(s: State, c: Cid, q: seq<Tid>, broadcast: bool)
    requires Inv0(s) && c in s.cond && forall t :: t in q ==> t in s.cond[c].waitQ && t != s.current
    requires s.cond[c].owner.Some? ==>
      s.cond[c].owner.value in s.thread && s.thread[s.cond[c].owner.value].state == ZOMBIE
    ensures Inv0(Signal(s, q, broadcast))
    ensures var s' := Signal(s, q, broadcast);
      && s'.current == s.current && s'.cond == s.cond && s.current in s.thread && s.current in s'.thread
      && s'.thread[s.current] == s.thread[s.current] && s'.idle == s.idle
    decreases |q|
  {
    if q != [] {
      var t := q[0];
      assert t in q;
      assert CondOk(s, c) && ThreadOk(s, t);
      if s.thread[t].state == COND_WAIT {
        WakeKeeps(s, t, s.thread[t]);
        if broadcast {
          SignalKeeps(Wake(s, t, s.thread[t]), c, q[1..], broadcast);
        }
      } else {
        SignalKeeps(s, c, q[1..], broadcast);
      }
    }
  }

  lemma CondSignalKeeps(s: State, c: Cid, broadcast: bool)
    requires Inv(s) && Calling(s) && c in s.cond && s.cond[c].owner == None
    ensures Inv(Signal(s, s.cond[c].waitQ, broadcast))
  {
    CallerFacts(s);
    SignalKeeps(s, c, s.cond[c].waitQ, broadcast);
  }

  lemma LockKeeps(s: State, m: Mid)
    requires Inv(s) && Calling(s) && m in s.mutex
    ensures Inv(Lock(s, m).0)
  {
    CallerFacts(s);
    var v := s.mutex[m];
    assert MutexOk(s, m);
    if Me(s).interrupt {
      RefuseKeeps(s);
    } else if v.owner == None {
      TakeKeeps(s, m);
    } else if v.owner != Some(s.current) {
      LockParks(s, m);
      ScheduleKeeps(Park(s.(mutex := s.mutex[m := v.(waitQ := v.waitQ + [s.current])]), LOCK_WAIT, Locking(m), None));
    }
  }

  /** A free mutex goes to the caller. */
  lemma TakeKeeps(s: State, m: Mid)
    requires Inv(s) && Calling(s) && m in s.mutex && s.mutex[m].owner == None
    ensures Inv(s.(mutex := s.mutex[m := s.mutex[m].(owner := Some(s.current))]))
  {
    CallerFacts(s);
    assert MutexOk(s, m);
    var s' := s.(mutex := s.mutex[m := s.mutex[m].(owner := Some(s.current))]);
    OthersKept(s, s', {s.current});
    CondsKept(s, s', s.current, {});
    MutexesKept(s, s', s.current, {m});
    assert ThreadOk(s', s.current);
    assert MutexOk(s', m);
  }

  lemma LockParks(s: State, m: Mid)
    requires Inv(s) && Calling(s) && m in s.mutex && s.mutex[m].owner != None
    ensures var v := s.mutex[m];
      var s' := Park(s.(mutex := s.mutex[m := v.(waitQ := v.waitQ + [s.current])]), LOCK_WAIT, Locking(m), None);
      Inv0(s') && Stopped(s')
  {
    CallerFacts(s);
    var v := s.mutex[m];
    var s' := Park(s.(mutex := s.mutex[m := v.(waitQ := v.waitQ + [s.current])]), LOCK_WAIT, Locking(m), None);
    assert MutexOk(s, m);
    AppendNoDup(v.waitQ, s.current);
    OthersKept(s, s', {s.current});
    CondsKept(s, s', s.current, {});
    MutexesKept(s, s', s.current, {m});
    assert ThreadOk(s', s.current);
    assert MutexOk(s', m);
  }

  lemma TrylockKeeps(s: State, m: Mid)
    requires Inv(s) && Calling(s) && m in s.mutex
    ensures Inv(Trylock(s, m).0)
  {
    if s.mutex[m].owner == None { TakeKeeps(s, m); }
  }

  lemma UnlockKeeps(s: State, m: Mid)
    requires Inv(s) && Calling(s) && m in s.mutex
    ensures Inv(Unlock(s, m).0)
  {
    var v := s.mutex[m];
    if v.owner == Some(s.current) {
      CallerFacts(s);
      var next := FirstLocking(s, v.waitQ);
      var s1 := s.(mutex := s.mutex[m := v.(owner := next)]);
      HandOverKeeps(s, m, next);
      if next.Some? {
        assert MutexOk(s, m) && ThreadOk(s, next.value);
        WakeKeeps(s1, next.value, s.thread[next.value]);
      }
    }
  }

  /** The mutex changes hands before its new owner wakes. */
  lemma HandOverKeeps(s: State, m: Mid, next: Option<Tid>)
    requires Inv(s) && Calling(s) && m in s.mutex && s.mutex[m].owner == Some(s.current)
    requires next == FirstLocking(s, s.mutex[m].waitQ)
    ensures Inv(s.(mutex := s.mutex[m := s.mutex[m].(owner := next)]))
  {
    CallerFacts(s);
    var s1 := s.(mutex := s.mutex[m := s.mutex[m].(owner := next)]);
    assert MutexOk(s, m);
    OthersKept(s, s1, {s.current});
    CondsKept(s, s1, s.current, {});
    MutexesKept(s, s1, s.current, {m});
    assert ThreadOk(s1, s.current);
    assert MutexOk(s1, m);
  }

  lemma InterruptKeeps(s: State, t: Tid)
    requires Inv(s) && Calling(s) && t in s.thread && s.thread[t].at != Gone && t != s.idle
    ensures Inv(Interrupt(s, t))
  {
    CallerFacts(s);
    assert ThreadOk(s, t);
    var r := s.thread[t].(interrupt := true);
    if s.thread[t].state != ZOMBIE {
      if Awake(r) {
        var s' := s.(thread := s.thread[t := r]);
        OthersKept(s, s', {t});
        WaitsKept(s, s');
        assert ThreadOk(s', t);
      } else {
        WakeKeeps(s, t, r);
      }
    }
  }

  lemma CreateKeeps(s: State, t: Tid, tc: Option<Cid>)
    requires Inv(s) && Calling(s) && t !in s.thread && (tc.Some? ==> tc.value !in s.cond)
    ensures Inv(Create(s, t, tc))
  {
    CallerFacts(s);
    var s' := Create(s, t, tc);
    AppendNoDup(s.runQ, t);
    OthersKept(s, s', {t});
    CondsKept(s, s', s.current, if tc.Some? then {tc.value} else {});
    MutexesKept(s, s', s.current, {});
    assert ThreadOk(s', t);
  }

  /** A joinable thread becomes a zombie. */
  lemma ExitParks(s: State)
    requires Inv(s) && Calling(s) && Me(s).term.Some?
    ensures var s1 := SetMe(s, Me(s).(state := ZOMBIE, at := Exiting)).(zombieQ := s.zombieQ + [s.current]);
      Inv0(s1) && Stopped(s1)
  {
    CallerFacts(s);
    var s1 := SetMe(s, Me(s).(state := ZOMBIE, at := Exiting)).(zombieQ := s.zombieQ + [s.current]);
    AppendNoDup(s.zombieQ, s.current);
    OthersKept(s, s1, {s.current});
    CondsKept(s, s1, s.current, {});
    MutexesKept(s, s1, s.current, {});
    assert ThreadOk(s1, s.current);
  }

  lemma ExitGoes(s: State)
    requires Inv(s) && Calling(s) && Me(s).term.None?
    ensures var s1 := SetMe(s, Me(s).(at := Gone)); Inv0(s1) && Stopped(s1)
  {
    CallerFacts(s);
    var s1 := SetMe(s, Me(s).(at := Gone));
    OthersKept(s, s1, {s.current});
    CondsKept(s, s1, s.current, {});
    MutexesKept(s, s1, s.current, {});
    assert ThreadOk(s1, s.current);
  }

  lemma ExitKeeps(s: State)
    requires Inv(s) && Calling(s)
    ensures Inv(Exit(s))
  {
    var r := Me(s);
    if r.term.Some? {
      CallerFacts(s);
      var c := r.term.value;
      var s1 := SetMe(s, r.(state := ZOMBIE, at := Exiting)).(zombieQ := s.zombieQ + [s.current]);
      ExitParks(s);
      SignalKeeps(s1, c, s.cond[c].waitQ, false);
      ScheduleKeeps(Signal(s1, s.cond[c].waitQ, false));
    } else {
      ExitGoes(s);
      ScheduleKeeps(SetMe(s, r.(at := Gone)));
    }
  }

  /** The joiner reaps a zombie that nobody else waits for. */
  lemma ReapKeeps(s: State, t: Tid, c: Cid)
    requires Inv(s) && Calling(s) && t in s.thread && s.thread[t].state == ZOMBIE
    requires s.thread[t].term == Some(c) && c in s.cond && s.cond[c].waitQ == []
    ensures Inv(Reap(s, t))
  {
    CallerFacts(s);
    var s' := Reap(s, t);
    assert ThreadOk(s, t);
    AppendNoDup(s.runQ, t);
    WithoutNoDup(s.zombieQ, t);
    ReapOthers(s, t, c);
    WaitsKept(s, s');
    assert ThreadOk(s', t);
  }

  lemma ReapOthers(s: State, t: Tid, c: Cid)
    requires Inv(s) && Calling(s) && t in s.thread && s.thread[t].state == ZOMBIE
    requires s.thread[t].term == Some(c) && c in s.cond && s.cond[c].waitQ == []
    ensures var s' := Reap(s, t); forall u {:trigger ThreadOk(s', u)} :: u in s'.thread && u != t ==> ThreadOk(s', u)
  {
    var s' := Reap(s, t);
    assert ThreadOk(s, t);
    forall u | u in s'.thread && u != t ensures SameFor(s, s', u) {
      assert ThreadOk(s, u);
      if s.thread[u].at.Joining? && s.thread[u].at.target == t {
        assert CondOk(s, s.thread[u].at.tc);
      }
    }
    OthersKept(s, s', {t});
  }

  lemma JoinLoopKeeps(s: State, t: Tid, c: Cid)
    requires Inv(s) && Calling(s) && t in s.thread && c in s.cond && s.cond[c].owner == Some(t) && s.cond[c].waitQ == []
    requires s.thread[t].state == ZOMBIE ==> s.thread[t].term == Some(c)
    ensures Inv(JoinLoop(s, t, c).0)
  {
    if s.thread[t].state == ZOMBIE {
      ReapKeeps(s, t, c);
    } else if Me(s).interrupt {
      RefuseKeeps(s);
    } else {
      CondParks(s, c, Joining(t, c), None);
      ScheduleKeeps(Park(EnqueueCond(s, c), COND_WAIT, Joining(t, c), None));
    }
  }

  lemma JoinKeeps(s: State, t: Tid)
    requires Inv(s) && Calling(s) && t in s.thread
    ensures Inv(Join(s, t).0)
  {
    var term := s.thread[t].term;
    assert ThreadOk(s, t);
    if term.Some? && s.current != t && s.cond[term.value].waitQ == [] {
      JoinLoopKeeps(s, t, term.value);
    }
  }

  lemma NewCondKeeps(s: State, c: Cid)
    requires Inv(s) && Calling(s) && c !in s.cond
    ensures Inv(s.(cond := s.cond[c := Cond([], None)]))
  {
    CallerFacts(s);
    var s' := s.(cond := s.cond[c := Cond([], None)]);
    OthersKept(s, s', {});
    CondsKept(s, s', s.current, {c});
    MutexesKept(s, s', s.current, {});
  }

  lemma NewMutexKeeps(s: State, m: Mid)
    requires Inv(s) && Calling(s) && m !in s.mutex
    ensures Inv(s.(mutex := s.mutex[m := Mutex(None, [])]))
  {
    CallerFacts(s);
    var s' := s.(mutex := s.mutex[m := Mutex(None, [])]);
    OthersKept(s, s', {});
    CondsKept(s, s', s.current, {});
    MutexesKept(s, s', s.current, {m});
  }

  lemma DestroyCondKeeps(s: State, c: Cid)
    requires Inv(s) && Calling(s) && c in s.cond && s.cond[c].owner == None
    ensures Inv(DestroyCond(s, c).0)
  {
    CallerFacts(s);
    var s' := DestroyCond(s, c).0;
    forall u | u in s'.thread ensures SameFor(s, s', u) { assert ThreadOk(s, u); }
    OthersKept(s, s', {});
    CondsKept(s, s', s.current, {});
    MutexesKept(s, s', s.current, {});
  }

  lemma DestroyMutexKeeps(s: State, m: Mid)
    requires Inv(s) && Calling(s) && m in s.mutex
    ensures Inv(DestroyMutex(s, m).0)
  {
    CallerFacts(s);
    var s' := DestroyMutex(s, m).0;
    forall u | u in s'.thread ensures SameFor(s, s', u) { assert ThreadOk(s, u); }
    OthersKept(s, s', {});
    CondsKept(s, s', s.current, {});
    MutexesKept(s, s', s.current, {});
  }

  // ---------- After the switch back ----------

  lemma PollReturns(s: State)
    requires Inv(s) && Me(s).at.Polling?
    ensures Inv(Resume(s).0)
  {
    var s' := Resume(s).0;
    assert ThreadOk(s, s.current);
    WithoutNoDup(s.ioQ, s.current);
    OthersKept(s, s', {s.current});
    CondsKept(s, s', s.current, {});
    MutexesKept(s, s', s.current, {});
    assert ThreadOk(s', s.current);
  }

  lemma UsleepReturns(s: State)
    requires Inv(s) && Me(s).at.Sleeping?
    ensures Inv(Resume(s).0)
  {
    var s' := Resume(s).0;
    assert ThreadOk(s, s.current);
    OthersKept(s, s', {s.current});
    CondsKept(s, s', s.current, {});
    MutexesKept(s, s', s.current, {});
    assert ThreadOk(s', s.current);
  }

  lemma CondReturns(s: State, c: Cid)
    requires Inv(s) && OnCond(Me(s).at, c)
    ensures Inv(ReturnTimed(DequeueCond(s, c))) && Calling(ReturnTimed(DequeueCond(s, c)))
  {
    var s' := ReturnTimed(DequeueCond(s, c));
    assert c in s'.cond && CondOk(s', c) && ThreadOk(s', s.current) by { LeavesCond(s, c); }
    CondReturnsOthers(s, c);
  }

  lemma CondReturnsOthers(s: State, c: Cid)
    requires Inv(s) && OnCond(Me(s).at, c)
    ensures var s' := ReturnTimed(DequeueCond(s, c));
      c in s'.cond && CondOk(s', c) && ThreadOk(s', s.current) ==> Inv(s') && Calling(s')
  {
    var s' := ReturnTimed(DequeueCond(s, c));
    assert ThreadOk(s, s.current) && CondOk(s, c);
    if c in s'.cond && CondOk(s', c) && ThreadOk(s', s.current) {
      OthersLeftAtCond(s, c);
      CondsKept(s, s', s.current, {c});
      MutexesKept(s, s', s.current, {});
    }
  }

  lemma OthersLeftAtCond(s: State, c: Cid)
    requires Inv(s) && OnCond(Me(s).at, c)
    ensures var s' := ReturnTimed(DequeueCond(s, c));
      forall u {:trigger ThreadOk(s', u)} :: u in s'.thread && u != s.current ==> ThreadOk(s', u)
  {
    assert ThreadOk(s, s.current) && CondOk(s, c);
    OthersKept(s, ReturnTimed(DequeueCond(s, c)), {s.current});
  }

  lemma LeavesCond(s: State, c: Cid)
    requires Inv(s) && OnCond(Me(s).at, c)
    ensures var s' := ReturnTimed(DequeueCond(s, c)); c in s'.cond && CondOk(s', c) && ThreadOk(s', s.current)
  {
    assert ThreadOk(s, s.current) && CondOk(s, c);
    WithoutNoDup(s.cond[c].waitQ, s.current);
  }

  lemma JoinReturns(s: State)
    requires Inv(s) && Me(s).at.Joining?
    ensures Inv(Resume(s).0)
  {
    var t, c := Me(s).at.target, Me(s).at.tc;
    assert ThreadOk(s, s.current) && CondOk(s, c);
    CondReturns(s, c);
    var s1 := ReturnTimed(DequeueCond(s, c));
    assert s1.cond[c].waitQ == [];
    if !Me(s).interrupt {
      assert ThreadOk(s1, t);
      JoinLoopKeeps(s1, t, c);
    }
  }

  lemma LockReturns(s: State)
    requires Inv(s) && Me(s).at.Locking?
    ensures Inv(Resume(s).0)
  {
    var r, m := Me(s), Me(s).at.m;
    assert ThreadOk(s, s.current);
    LeavesMutexKeeps(s, m, r.(at := Code, interrupt := r.interrupt && s.mutex[m].owner == Some(s.current)));
  }

  /** The caller off the queue of the mutex, with its record as in r. */
  function LeaveMutex(s: State, m: Mid, r: Thread): State
    requires m in s.mutex
  {
    s.(mutex := s.mutex[m := s.mutex[m].(waitQ := Without(s.mutex[m].waitQ, s.current))],
       thread := s.thread[s.current := r])
  }

  lemma LeavesMutexKeeps(s: State, m: Mid, r: Thread)
    requires Inv(s) && Me(s).at == Locking(m) && r == Me(s).(at := Code, interrupt := r.interrupt) && m in s.mutex
    ensures Inv(LeaveMutex(s, m, r))
  {
    var s' := LeaveMutex(s, m, r);
    LeavesMutex(s, m, r);
    OthersLeftAtMutex(s, m, r);
    CondsKept(s, s', s.current, {});
    MutexesKept(s, s', s.current, {m});
  }

  lemma LeavesMutex(s: State, m: Mid, r: Thread)
    requires Inv(s) && Me(s).at == Locking(m) && r == Me(s).(at := Code, interrupt := r.interrupt) && m in s.mutex
    ensures var s' := LeaveMutex(s, m, r); MutexOk(s', m) && ThreadOk(s', s.current)
  {
    assert ThreadOk(s, s.current) && MutexOk(s, m);
    WithoutNoDup(s.mutex[m].waitQ, s.current);
  }

  lemma OthersLeftAtMutex(s: State, m: Mid, r: Thread)
    requires Inv(s) && Me(s).at == Locking(m) && r == Me(s).(at := Code, interrupt := r.interrupt) && m in s.mutex
    ensures var s' := LeaveMutex(s, m, r);
      forall u {:trigger ThreadOk(s', u)} :: u in s'.thread && u != s.current ==> ThreadOk(s', u)
  {
    assert ThreadOk(s, s.current);
    OthersKept(s, LeaveMutex(s, m, r), {s.current});
  }

  lemma VanishKeeps(s: State)
    requires Inv(s) && Me(s).at.Exiting?
    ensures Inv0(Vanish(s)) && Stopped(Vanish(s))
  {
    var s1 := Vanish(s);
    assert ThreadOk(s, s.current);
    VanishOthers(s);
    forall d | d in s1.cond ensures CondOk(s1, d) { assert CondOk(s, d); }
    forall m | m in s1.mutex ensures MutexOk(s1, m) { assert MutexOk(s, m); }
    assert ThreadOk(s1, s.current);
  }

  lemma VanishOthers(s: State)
    requires Inv(s) && Me(s).at.Exiting?
    ensures var s1 := Vanish(s); forall u {:trigger ThreadOk(s1, u)} :: u in s1.thread && u != s.current ==>
      ThreadOk(s1, u)
  {
    var s1 := Vanish(s);
    assert ThreadOk(s, s.current);
    forall u | u in s1.thread && u != s.current ensures SameFor(s, s1, u) { assert ThreadOk(s, u); }
    OthersKept(s, s1, {s.current});
  }

  lemma ExitReturns(s: State)
    requires Inv(s) && Me(s).at.Exiting?
    ensures Inv(Resume(s).0)
  {
    VanishKeeps(s);
    ScheduleKeeps(Vanish(s));
  }

  // ---------- The idle thread ----------

  /**
   * When the idle thread runs, the run queue is empty and every request on the I/O queue belongs to a thread in
   * IO_WAIT, although requests of timed-out or interrupted threads stay queued until those threads run.
   */
  lemma DispatchFindsOnlyWaiters(s: State)
    requires Inv(s) && s.current == s.idle
    ensures s.runQ == [] && NoDup(s.ioQ)
    ensures forall t :: t in s.ioQ ==>
      t in s.thread && t != s.idle && s.thread[t].state == IO_WAIT && s.thread[t].at == Polling(true)
  {
    forall t | t in s.ioQ
      ensures t in s.thread && t != s.idle && s.thread[t].state == IO_WAIT && s.thread[t].at == Polling(true)
    {
      assert ThreadOk(s, t);
    }
  }

  lemma NotifyKeeps(s: State, t: Tid)
    requires Inv0(s) && t in s.ioQ && t in s.thread && t != s.current && s.thread[t].state == IO_WAIT
    ensures Inv0(Notify(s, t))
  {
    var s' := Notify(s, t);
    assert ThreadOk(s, t);
    AppendNoDup(s.runQ, t);
    WithoutNoDup(s.ioQ, t);
    OthersKept(s, s', {t});
    CondsKept(s, s', t, {});
    MutexesKept(s, s', t, {});
    assert ThreadOk(s', t);
  }

  /** What a turn of the idle loop leaves alone on the way. */
  predicate SameIdle(s: State, s': State) {
    s'.current == s.current && s'.idle == s.idle && s.current in s.thread && s.current in s'.thread
    && s'.thread[s.current] == s.thread[s.current] && s'.lastClock == s.lastClock
  }

  lemma {:induction false} DispatchKeeps(s: State, q: seq<Tid>, fired: set<Tid>)
    requires Inv0(s) && NoDup(q)
    requires forall t :: t in q ==> t in s.ioQ && t in s.thread && t != s.current && s.thread[t].state == IO_WAIT
    ensures Inv0(Dispatch(s, q, fired)) && SameIdle(s, Dispatch(s, q, fired))
    decreases |q|
  {
    if q != [] {
      var t := q[0];
      assert t in q;
      PopNoDup(q);
      if t in fired {
        NotifyKeeps(s, t);
        DispatchKeeps(Notify(s, t), q[1..], fired);
      } else {
        DispatchKeeps(s, q[1..], fired);
      }
    }
  }

  lemma {:induction false} ExpireKeeps(s: State, order: seq<Tid>)
    requires Inv0(s) && NoDup(order)
    requires forall t :: t in order ==>
      t in s.sleepQ && t in s.thread && s.thread[t].due <= s.lastClock && t != s.current
    ensures Inv0(Expire(s, order)) && SameIdle(s, Expire(s, order))
    decreases |order|
  {
    if order != [] {
      var t := order[0];
      var r := s.thread[t];
      assert t in order && ThreadOk(s, t);
      PopNoDup(order);
      WakeKeeps(s, t, r.(timedOut := r.timedOut || r.state == COND_WAIT));
      ExpireKeeps(Wake(s, t, r.(timedOut := r.timedOut || r.state == COND_WAIT)), order[1..]);
    }
  }

  lemma TickKeeps(s: State, now: int)
    requires Inv0(s) && s.lastClock <= now
    ensures Inv0(s.(lastClock := now))
  {
    OthersKept(s, s.(lastClock := now), {});
    WaitsKept(s, s.(lastClock := now));
  }

  /** The idle thread is runnable again, on no queue. */
  lemma YieldStops(s: State)
    requires Inv0(s) && s.current == s.idle
    ensures var s' := SetMe(s, Me(s).(state := RUNNABLE)); Inv0(s') && Stopped(s')
  {
    var s' := SetMe(s, Me(s).(state := RUNNABLE));
    assert ThreadOk(s, s.idle);
    OthersKept(s, s', {s.idle});
    WaitsKept(s, s');
    assert ThreadOk(s', s.idle);
  }

  lemma YieldKeeps(s: State)
    requires Inv0(s) && s.current == s.idle
    ensures Inv(Schedule(SetMe(s, Me(s).(state := RUNNABLE))))
  {
    YieldStops(s);
    ScheduleKeeps(SetMe(s, Me(s).(state := RUNNABLE)));
  }

  /** The kernel reports `fired`, the clock reads `now`, and the timeout heap yields `order`. */
  ghost predicate IdleInput(s: State, fired: set<Tid>, now: int, order: seq<Tid>) {
    var s1 := Dispatch(s, s.ioQ, fired);
    s.lastClock <= now && HeapModel.Expiry(s1.sleepQ, Dues(s1), now, order)
  }

  /** The clock check of that turn starts from a good state and wakes only expired sleepers, each once. */
  lemma ClockCheckReady(s: State, fired: set<Tid>, now: int, order: seq<Tid>)
    requires Inv(s) && s.current == s.idle && IdleInput(s, fired, now, order)
    ensures var s2 := Dispatch(s, s.ioQ, fired).(lastClock := now);
      && Inv0(s2) && SameIdle(s.(lastClock := now), s2) && NoDup(order)
      && forall t :: t in order ==> t in s2.sleepQ && t in s2.thread && s2.thread[t].due <= now && t != s2.current
  {
    DispatchFindsOnlyWaiters(s);
    DispatchKeeps(s, s.ioQ, fired);
    var s1 := Dispatch(s, s.ioQ, fired);
    TickKeeps(s1, now);
    forall t | t in order ensures t in s1.sleepQ && t in s1.thread && s1.thread[t].due <= now && t != s1.current {
      assert t in HeapModel.Elements(order);
      assert ThreadOk(s1, t) && ThreadOk(s1, s1.idle);
    }
  }

  lemma IdleTurnKeeps(s: State, fired: set<Tid>, now: int, order: seq<Tid>)
    requires Inv(s) && s.current == s.idle && IdleInput(s, fired, now, order)
    ensures Inv(IdleTurn(s, fired, now, order))
  {
    ClockCheckReady(s, fired, now, order);
    var s2 := Dispatch(s, s.ioQ, fired).(lastClock := now);
    ExpireKeeps(s2, order);
    YieldKeeps(Expire(s2, order));
  }
}
