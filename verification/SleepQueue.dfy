/**
 * The sleep queue of the scheduler kept by the timeout heap: the scheduler knows the sleepers and their deadlines, the
 * heap holds their records and yields the order in which the clock check wakes them.
 */
module SleepQueue {
  import opened Triggers
  import opened Options
  import opened ThreadStates
  import opened Scheduler
  import opened SchedulerInvariant
  import SchedulerEffects
  import opened SchedulerTheorems
  import opened HeapModel
  import SchedulerRuns
  import V = SchedulerVp
  import H = TimeoutHeap

  /** The record of each thread, and back. */
  datatype Records = Records(of: map<Tid, H.Thread>, tid: map<H.Thread, Tid>) {
    ghost predicate Bijective() {
      && (forall t :: t in of ==> of[t] in tid && tid[of[t]] == t)
      && (forall x :: x in tid ==> tid[x] in of && of[tid[x]] == x)
    }
  }

  /** The heap holds the records of exactly the sleepers, with their deadlines. */
  ghost predicate Mirrors(s: State, members: set<H.Thread>, dues: map<H.Thread, int>, r: Records) {
    && r.Bijective() && s.thread.Keys == r.of.Keys && s.sleepQ <= s.thread.Keys
    && (forall t :: t in s.sleepQ ==> r.of[t] in members && r.of[t] in dues && dues[r.of[t]] == s.thread[t].due)
    && (forall x :: x in members ==> x in r.tid && r.tid[x] in s.sleepQ)
  }

  ghost predicate Holds(heap: H.Vp, s: State, r: Records)
    reads heap, heap.threads
  {
    && heap.Valid() && r.tid.Keys == heap.threads && heap.lastClock == s.lastClock
    && Mirrors(s, Members(heap.at), heap.dues, r)
  }

  /** The heap is that of the state s; OpenHeap unfolds it. */
  ghost predicate HeapOf(heap: H.Vp, s: State, r: Records)
    reads heap, heap.threads
  {
    forall u {:trigger Opened(u)} :: Opened(u) ==> Holds(heap, s, r)
  }

  lemma OpenHeap(heap: H.Vp, s: State, r: Records)
    requires HeapOf(heap, s, r)
    ensures Holds(heap, s, r)
  {
    assert Opened(0);
  }

  ghost predicate InStep(vp: V.Vp, heap: H.Vp, r: Records)
    reads vp, heap, heap.threads
  {
    HeapOf(heap, vp.Abs(), r)
  }

  /** The order in which the heap yields the records is the order in which the scheduler must wake the threads. */
  lemma OrderOfRecords(s: State, members: set<H.Thread>, dues: map<H.Thread, int>, r: Records, now: int,
                       woken: seq<H.Thread>, order: seq<Tid>)
    requires Mirrors(s, members, dues, r) && Expiry(members, dues, now, woken)
    requires |order| == |woken| && forall i :: 0 <= i < |order| ==> woken[i] in r.tid && order[i] == r.tid[woken[i]]
    ensures Expiry(s.sleepQ, Dues(s), now, order)
  {
    forall i | 0 <= i < |order| ensures order[i] in s.sleepQ && Due(Dues(s), order[i]) == Due(dues, woken[i]) <= now {
      assert woken[i] in Elements(woken);
    }
    forall t | t in s.sleepQ && Due(Dues(s), t) <= now ensures t in Elements(order) {
      assert r.of[t] in Elements(woken);
      var i :| 0 <= i < |woken| && woken[i] == r.of[t];
      assert order[i] == t;
    }
    assert Elements(order) == set t | t in s.sleepQ && Due(Dues(s), t) <= now;
  }

  /** A step that adds t to the sleepers, or takes it off, and leaves the other deadlines alone. */
  predicate SameDeadlines(s: State, s': State, t: Tid) {
    && s'.lastClock == s.lastClock && s'.thread.Keys == s.thread.Keys
    && forall u :: u in s.thread && u != t ==> s'.thread[u].due == s.thread[u].due
  }

  lemma AddMirror(s: State, s': State, members: set<H.Thread>, dues: map<H.Thread, int>, r: Records, t: Tid, due: int)
    requires Mirrors(s, members, dues, r) && t in s.thread && t !in s.sleepQ
    requires s'.sleepQ == s.sleepQ + {t} && SameDeadlines(s, s', t) && s'.thread[t].due == due
    ensures r.of[t] !in members && Mirrors(s', members + {r.of[t]}, dues[r.of[t] := due], r)
  {
  }

  lemma DeleteMirror(s: State, s': State, members: set<H.Thread>, dues: map<H.Thread, int>, r: Records, t: Tid)
    requires Mirrors(s, members, dues, r) && t in s.thread
    requires s'.sleepQ == s.sleepQ - {t} && SameDeadlines(s, s', t)
    ensures t in s.sleepQ <==> r.of[t] in members
    ensures Mirrors(s', members - {r.of[t]}, dues, r)
  {
  }

  /** _ST_ADD_SLEEPQ of a blocking call of the thread t that has just taken the scheduler from s to s'. */
  method Add(heap: H.Vp, ghost s: State, ghost s': State, r: Records, t: Tid, timeout: int)
    requires HeapOf(heap, s, r)
    requires t in s.thread && t !in s.sleepQ && s'.sleepQ == s.sleepQ + {t} && SameDeadlines(s, s', t)
    requires s'.thread[t].due == s.lastClock + timeout
    modifies heap, heap.threads
    ensures HeapOf(heap, s', r) && heap.threads == old(heap.threads)
  {
    OpenHeap(heap, s, r);
    AddMirror(s, s', Members(heap.at), heap.dues, r, t, heap.lastClock + timeout);
    heap.AddSleepQ(r.of[t], timeout);
    assert Holds(heap, s', r);
  }

  /** _ST_DEL_SLEEPQ, if t is on the queue. */
  method Delete(heap: H.Vp, ghost s: State, ghost s': State, r: Records, t: Tid)
    requires HeapOf(heap, s, r)
    requires t in s.thread && s'.sleepQ == s.sleepQ - {t} && SameDeadlines(s, s', t)
    modifies heap, heap.threads
    ensures HeapOf(heap, s', r) && heap.threads == old(heap.threads)
  {
    OpenHeap(heap, s, r);
    DeleteMirror(s, s', Members(heap.at), heap.dues, r, t);
    if r.of[t].onSleepq {
      heap.DelSleepQ(r.of[t]);
    } else {
      assert Members(heap.at) - {r.of[t]} == Members(heap.at);
    }
  }

  // ---------- Calls ----------

  /** What a blocking call of s.current with this timeout does to the sleepers. */
  predicate Arms(s: State, s': State, blocked: bool, timeout: Option<int>) {
    if blocked && timeout.Some? then
         && s.current in s.thread && s.current !in s.sleepQ && s'.sleepQ == s.sleepQ + {s.current}
         && SameDeadlines(s, s', s.current) && s'.thread[s.current].due == s.lastClock + timeout.value
       else
         SameSleepers(s, s')
  }

  predicate SameSleepers(s: State, s': State) {
    && s'.lastClock == s.lastClock && s'.sleepQ == s.sleepQ && s'.thread.Keys == s.thread.Keys
    && forall u :: u in s.sleepQ && u in s.thread ==> s'.thread[u].due == s.thread[u].due
  }

  lemma SameHeap(heap: H.Vp, s: State, s': State, r: Records)
    requires HeapOf(heap, s, r) && SameSleepers(s, s')
    ensures HeapOf(heap, s', r)
  {
    OpenHeap(heap, s, r);
  }

  lemma UsleepArms(s: State, timeout: Option<int>)
    requires Inv(s) && Calling(s)
    ensures Arms(s, Usleep(s, timeout).0, Usleep(s, timeout).1 == Switched, timeout)
  {
    CallerFacts(s);
  }

  lemma PollArms(s: State, timeout: Option<int>, added: bool)
    requires Inv(s) && Calling(s)
    ensures Arms(s, Poll(s, timeout, added).0, Poll(s, timeout, added).1 == Switched, timeout)
  {
    CallerFacts(s);
  }

  lemma CondWaitArms(s: State, c: Cid, timeout: Option<int>)
    requires Inv(s) && Calling(s) && c in s.cond
    ensures Arms(s, CondWait(s, c, timeout).0, CondWait(s, c, timeout).1 == Switched, timeout)
  {
    CallerFacts(s);
  }

  /** The heap follows such a call. */
  method Follow(vp: V.Vp, heap: H.Vp, r: Records, ghost s: State, me: Tid, blocked: bool, timeout: Option<int>)
    requires HeapOf(heap, s, r) && me == s.current && Arms(s, vp.Abs(), blocked, timeout)
    modifies heap, heap.threads
    ensures InStep(vp, heap, r)
    ensures heap.threads == old(heap.threads)
  {
    if blocked && timeout.Some? {
      Add(heap, s, vp.Abs(), r, me, timeout.value);
    } else {
      SameHeap(heap, s, vp.Abs(), r);
    }
  }

  /** st_usleep up to the switch, with the timeout heap */
  method StUsleep(vp: V.Vp, heap: H.Vp, r: Records, usecs: Option<int>) returns (ret: Ret)
    requires vp.Valid() && Calling(vp.Abs()) && InStep(vp, heap, r)
    modifies vp, heap, heap.threads
    ensures (vp.Abs(), ret) == Usleep(old(vp.Abs()), usecs) && vp.Valid() && InStep(vp, heap, r)
    ensures heap.threads == old(heap.threads)
  {
    var me := vp.current;
    UsleepArms(vp.Abs(), usecs);
    ret := vp.StUsleep(usecs);
    Follow(vp, heap, r, old(vp.Abs()), me, ret == Switched, usecs);
  }

  /** st_poll up to the switch, with the timeout heap */
  method StPoll(vp: V.Vp, heap: H.Vp, r: Records, timeout: Option<int>, added: bool) returns (ret: Ret)
    requires vp.Valid() && Calling(vp.Abs()) && InStep(vp, heap, r)
    modifies vp, heap, heap.threads
    ensures (vp.Abs(), ret) == Poll(old(vp.Abs()), timeout, added) && vp.Valid() && InStep(vp, heap, r)
    ensures heap.threads == old(heap.threads)
  {
    var me := vp.current;
    PollArms(vp.Abs(), timeout, added);
    ret := vp.StPoll(timeout, added);
    Follow(vp, heap, r, old(vp.Abs()), me, ret == Switched, timeout);
  }

  /** st_cond_timedwait up to the switch, with the timeout heap */
  method StCondTimedwait(vp: V.Vp, heap: H.Vp, r: Records, c: Cid, timeout: Option<int>) returns (ret: Ret)
    requires vp.Valid() && Calling(vp.Abs()) && SchedulerRuns.Ordinary(vp.Abs(), c) && InStep(vp, heap, r)
    modifies vp, heap, heap.threads
    ensures (vp.Abs(), ret) == CondWait(old(vp.Abs()), c, timeout) && vp.Valid() && InStep(vp, heap, r)
    ensures heap.threads == old(heap.threads)
  {
    var me := vp.current;
    CondWaitArms(vp.Abs(), c, timeout);
    ret := vp.StCondTimedwait(c, timeout);
    Follow(vp, heap, r, old(vp.Abs()), me, ret == Switched, timeout);
  }

  lemma InterruptSleepers(s: State, t: Tid)
    requires t in s.thread
    ensures var s' := Interrupt(s, t);
      if !Awake(s.thread[t]) && s.thread[t].state != ZOMBIE then
        s'.sleepQ == s.sleepQ - {t} && SameDeadlines(s, s', t)
      else
        SameSleepers(s, s')
  {
  }

  /** st_thread_interrupt, with the timeout heap */
  method StThreadInterrupt(vp: V.Vp, heap: H.Vp, r: Records, t: Tid)
    requires vp.Valid() && Calling(vp.Abs()) && SchedulerRuns.Handle(vp.Abs(), t) && InStep(vp, heap, r)
    modifies vp, heap, heap.threads
    ensures vp.Abs() == Interrupt(old(vp.Abs()), t) && vp.Valid() && InStep(vp, heap, r)
    ensures heap.threads == old(heap.threads)
  {
    ghost var s := vp.Abs();
    var blocked := !Awake(vp.thread[t]) && vp.thread[t].state != ZOMBIE;
    InterruptSleepers(s, t);
    vp.StThreadInterrupt(t);
    if blocked {
      Delete(heap, s, vp.Abs(), r, t);
    } else {
      SameHeap(heap, s, vp.Abs(), r);
    }
  }

  predicate Flagged(s: State) {
    forall t :: t in s.sleepQ ==> t in s.thread && s.thread[t].onSleepq
  }

  /** _ST_DEL_SLEEPQ if need be, then runnable. */
  method MakeRunnable(vp: V.Vp, heap: H.Vp, r: Records, t: Tid)
    requires InStep(vp, heap, r) && t in vp.thread && Flagged(vp.Abs())
    modifies vp, heap, heap.threads
    ensures vp.Abs() == Wake(old(vp.Abs()), t, old(vp.thread)[t]) && InStep(vp, heap, r) && Flagged(vp.Abs())
    ensures heap.threads == old(heap.threads)
  {
    ghost var s := vp.Abs();
    vp.MakeRunnable(t);
    Delete(heap, s, vp.Abs(), r, t);
  }

  /** st_cond_signal and st_cond_broadcast, with the timeout heap */
  method StCondSignal(vp: V.Vp, heap: H.Vp, r: Records, c: Cid, broadcast: bool)
    requires vp.Valid() && Calling(vp.Abs()) && SchedulerRuns.Ordinary(vp.Abs(), c) && InStep(vp, heap, r)
    modifies vp, heap, heap.threads
    ensures vp.Abs() == Signal(old(vp.Abs()), old(vp.cond)[c].waitQ, broadcast) && vp.Valid() && InStep(vp, heap, r)
    ensures heap.threads == old(heap.threads)
  {
    ghost var s := vp.Abs();
    CondSignalKeeps(s, c, broadcast);
    assert CondOk(s, c);
    V.SleepersAreFlagged(s);
    WakeWaiters(vp, heap, r, vp.cond[c].waitQ, broadcast);
  }

  /** The loop of _st_cond_signal. */
  method WakeWaiters(vp: V.Vp, heap: H.Vp, r: Records, q: seq<Tid>, broadcast: bool)
    requires InStep(vp, heap, r) && Flagged(vp.Abs()) && forall t :: t in q ==> t in vp.thread
    modifies vp, heap, heap.threads
    ensures vp.Abs() == Signal(old(vp.Abs()), q, broadcast) && InStep(vp, heap, r)
    ensures heap.threads == old(heap.threads)
  {
    ghost var s := vp.Abs();
    var i := 0;
    while i < |q|
      invariant 0 <= i <= |q| && vp.thread.Keys == s.thread.Keys && InStep(vp, heap, r)
      invariant heap.threads == old(heap.threads) && Flagged(vp.Abs())
      invariant Signal(vp.Abs(), q[i..], broadcast) == Signal(s, q, broadcast)
    {
      assert q[i] in q && q[i..][1..] == q[i + 1..];
      if vp.thread[q[i]].state == COND_WAIT {
        MakeRunnable(vp, heap, r, q[i]);
        if !broadcast {
          return;
        }
      }
      i := i + 1;
    }
  }

  // ---------- The other calls ----------

  /** The calls that are not paired with the heap above. */
  predicate Spares(op: SchedulerRuns.Op) {
    && !op.OpUsleep? && !op.OpPoll? && !op.OpCondWait? && !op.OpSignal? && !op.OpInterrupt? && !op.OpCreate?
    && !op.OpIdle?
  }

  /** They wake only threads that have no deadline, and give none to the caller. */
  lemma SparedSleeper(s: State, op: SchedulerRuns.Op, t: Tid)
    requires Inv(s) && SchedulerRuns.Enabled(s, op) && Spares(op) && t in s.thread
    ensures var s' := SchedulerRuns.Next(s, op).0;
      t in s'.thread && (t in s'.sleepQ <==> t in s.sleepQ) && (t in s.sleepQ ==> s'.thread[t].due == s.thread[t].due)
  {
    var s' := SchedulerRuns.Next(s, op).0;
    SchedulerRuns.StepKeeps(s, op);
    assert ThreadOk(s, t);
    if t == s.current {
      OwnStep(s, op);
    } else {
      SchedulerEffects.OtherThread(s, op, t);
    }
    assert ThreadOk(s', t);
  }

  lemma SparedClock(s: State, op: SchedulerRuns.Op)
    requires Inv(s) && SchedulerRuns.Enabled(s, op) && Spares(op)
    ensures SchedulerRuns.Next(s, op).0.lastClock == s.lastClock
  {
    assert ThreadOk(s, s.idle) && ThreadOk(s, s.current);
    match op
    case OpExit => SchedulerEffects.ExitEffect(s, s.idle);
    case OpJoin(x) => SchedulerEffects.JoinEffect(s, x, s.idle);
    case OpLock(m) => SchedulerEffects.LockEffect(s, m, s.idle);
    case OpResume => SchedulerEffects.ResumeEffect(s, s.idle);
    case _ =>
  }

  /** So the heap need not change with any of them. */
  lemma OtherCallsSpareTheHeap(s: State, op: SchedulerRuns.Op)
    requires Inv(s) && SchedulerRuns.Enabled(s, op) && Spares(op)
    ensures SameSleepers(s, SchedulerRuns.Next(s, op).0)
  {
    var s' := SchedulerRuns.Next(s, op).0;
    SchedulerRuns.StepKeeps(s, op);
    SparedClock(s, op);
    SparedThreads(s, op);
    forall t | t in s.thread
      ensures t in s'.thread && (t in s'.sleepQ <==> t in s.sleepQ)
      ensures t in s.sleepQ ==> s'.thread[t].due == s.thread[t].due
    {
      SparedSleeper(s, op, t);
    }
  }

  lemma SparedThreads(s: State, op: SchedulerRuns.Op)
    requires SchedulerRuns.Enabled(s, op) && Spares(op)
    ensures SchedulerRuns.Next(s, op).0.thread.Keys == s.thread.Keys
  {
  }

  // ---------- The idle thread ----------

  /** A poll request fires, and its thread leaves the heap. */
  method Fire(vp: V.Vp, heap: H.Vp, r: Records, t: Tid)
    requires InStep(vp, heap, r) && t in vp.thread && Flagged(vp.Abs())
    modifies vp, heap, heap.threads
    ensures vp.Abs() == Notify(old(vp.Abs()), t) && InStep(vp, heap, r) && Flagged(vp.Abs())
    ensures heap.threads == old(heap.threads)
  {
    ghost var s := vp.Abs();
    vp.Fire(t);
    Delete(heap, s, vp.Abs(), r, t);
  }

  /** The loop of dispatch, with the timeout heap. */
  method Dispatched(vp: V.Vp, heap: H.Vp, r: Records, fired: set<Tid>)
    requires vp.Valid() && vp.current == vp.idle && InStep(vp, heap, r)
    modifies vp, heap, heap.threads
    ensures vp.Abs() == Dispatch(old(vp.Abs()), old(vp.ioQ), fired) && InStep(vp, heap, r)
    ensures heap.threads == old(heap.threads)
  {
    var q := vp.ioQ;
    ghost var s := vp.Abs();
    DispatchFindsOnlyWaiters(s);
    V.SleepersAreFlagged(s);
    var i := 0;
    while i < |q|
      invariant 0 <= i <= |q| && vp.thread.Keys == s.thread.Keys && InStep(vp, heap, r)
      invariant heap.threads == old(heap.threads) && Flagged(vp.Abs())
      invariant Dispatch(vp.Abs(), q[i..], fired) == Dispatch(s, q, fired)
    {
      assert q[i] in q && q[i..][1..] == q[i + 1..];
      if q[i] in fired {
        Fire(vp, heap, r, q[i]);
      }
      i := i + 1;
    }
  }

  lemma ExpiredMirror(s: State, members: set<H.Thread>, left: set<H.Thread>, dues: map<H.Thread, int>, r: Records,
                      now: int, order: seq<Tid>)
    requires Inv0(s) && s.lastClock <= now && Mirrors(s, members, dues, r) && Expiry(s.sleepQ, Dues(s), now, order)
    requires left == set x | x in members && Due(dues, x) > now
    ensures Mirrors(Expire(s.(lastClock := now), order), left, dues, r)
  {
    var s1 := s.(lastClock := now);
    var s2 := Expire(s1, order);
    forall t | t in order
      ensures t in s.thread && t in s.sleepQ && Due(Dues(s), t) <= now
    {
      assert t in Elements(order);
    }
    ExpireAppends(s1, order);
    forall t | t in s.thread
      ensures s2.thread[t].due == s.thread[t].due
    {
      SchedulerEffects.ExpireEffect(s1, order, t);
    }
    forall t | t in s.sleepQ
      ensures t in s2.sleepQ <==> r.of[t] in left
    {
      assert t in order <==> t in Elements(order);
    }
  }

  /** _st_vp_check_clock, with the timeout heap: the threads that it yields are exactly those that must wake. */
  method ClockChecked(vp: V.Vp, heap: H.Vp, r: Records, now: int) returns (order: seq<Tid>)
    requires Inv0(vp.Abs()) && InStep(vp, heap, r) && vp.lastClock <= now
    modifies vp, heap, heap.threads
    ensures Expiry(old(vp.sleepQ), Dues(old(vp.Abs())), now, order)
    ensures vp.Abs() == Expire(old(vp.Abs()).(lastClock := now), order) && InStep(vp, heap, r)
    ensures heap.threads == old(heap.threads)
  {
    order := Yielded(heap, vp.Abs(), r, now);
    WakeAll(vp, now, order);
  }

  /** The scheduler's part of it. */
  method WakeAll(vp: V.Vp, now: int, order: seq<Tid>)
    requires Inv0(vp.Abs()) && vp.lastClock <= now && Expiry(vp.sleepQ, Dues(vp.Abs()), now, order)
    modifies vp
    ensures vp.Abs() == Expire(old(vp.Abs()).(lastClock := now), order) && vp.lastClock == now
  {
    ghost var s := vp.Abs();
    TickKeeps(s, now);
    forall t | t in order ensures t in vp.thread {
      assert t in Elements(order);
    }
    vp.lastClock := now;
    assert vp.Abs() == s.(lastClock := now);
    vp.CheckClock(order);
    ExpireClock(s.(lastClock := now), order);
  }

  lemma {:induction false} ExpireClock(s: State, order: seq<Tid>)
    ensures Expire(s, order).lastClock == s.lastClock
    decreases |order|
  {
    if order != [] && order[0] in s.thread {
      var r := s.thread[order[0]];
      ExpireClock(Wake(s, order[0], r.(timedOut := r.timedOut || r.state == COND_WAIT)), order[1..]);
    }
  }

  /** The heap's part of it. */
  method Yielded(heap: H.Vp, ghost s: State, r: Records, now: int) returns (order: seq<Tid>)
    requires HeapOf(heap, s, r) && Inv0(s) && s.lastClock <= now
    modifies heap, heap.threads
    ensures Expiry(s.sleepQ, Dues(s), now, order) && HeapOf(heap, Expire(s.(lastClock := now), order), r)
    ensures heap.threads == old(heap.threads)
  {
    OpenHeap(heap, s, r);
    ghost var members := Members(heap.at);
    order := Taken(heap, s, r, now);
    ExpiredMirror(s, members, Members(heap.at), heap.dues, r, now, order);
    ExpireClock(s.(lastClock := now), order);
  }

  method Taken(heap: H.Vp, ghost s: State, r: Records, now: int) returns (order: seq<Tid>)
    requires Holds(heap, s, r)
    modifies heap, heap.threads
    ensures heap.Valid() && heap.lastClock == now && heap.threads == old(heap.threads) && heap.dues == old(heap.dues)
    ensures Members(heap.at) == set x | x in old(Members(heap.at)) && Due(heap.dues, x) > now
    ensures Expiry(s.sleepQ, Dues(s), now, order)
  {
    var n := |heap.runQ|;
    heap.CheckClock(now);
    var woken := heap.runQ[n..];
    forall i | 0 <= i < |woken| ensures woken[i] in r.tid {
      assert woken[i] in Elements(woken);
    }
    order := seq(|woken|, i requires 0 <= i < |woken| => r.tid[woken[i]]);
    OrderOfRecords(s, old(Members(heap.at)), heap.dues, r, now, woken, order);
  }

  /** Dispatch and the clock check. */
  method Wakers(vp: V.Vp, heap: H.Vp, r: Records, fired: set<Tid>, now: int) returns (order: seq<Tid>)
    requires vp.Valid() && vp.current == vp.idle && InStep(vp, heap, r) && vp.lastClock <= now
    modifies vp, heap, heap.threads
    ensures IdleInput(old(vp.Abs()), fired, now, order) && InStep(vp, heap, r)
    ensures vp.Abs() == Expire(Dispatch(old(vp.Abs()), old(vp.ioQ), fired).(lastClock := now), order)
    ensures heap.threads == old(heap.threads)
  {
    ghost var s := vp.Abs();
    DispatchFindsOnlyWaiters(s);
    DispatchKeeps(s, s.ioQ, fired);
    Dispatched(vp, heap, r, fired);
    order := ClockChecked(vp, heap, r, now);
  }

  /** One turn of _st_idle_thread_start, with the timeout heap: the machine's step in the order of the heap. */
  method IdleThread(vp: V.Vp, heap: H.Vp, r: Records, fired: set<Tid>, now: int) returns (order: seq<Tid>)
    requires vp.Valid() && vp.current == vp.idle && InStep(vp, heap, r) && vp.lastClock <= now
    modifies vp, heap, heap.threads
    ensures SchedulerRuns.Enabled(old(vp.Abs()), SchedulerRuns.OpIdle(fired, now, order))
    ensures vp.Abs() == IdleTurn(old(vp.Abs()), fired, now, order) && vp.Valid() && InStep(vp, heap, r)
    ensures heap.threads == old(heap.threads)
  {
    ghost var s := vp.Abs();
    order := Wakers(vp, heap, r, fired, now);
    ClockCheckReady(s, fired, now, order);
    ExpireKeeps(Dispatch(s, s.ioQ, fired).(lastClock := now), order);
    Yield(vp, heap, r);
  }

  method Yield(vp: V.Vp, heap: H.Vp, r: Records)
    requires Inv0(vp.Abs()) && vp.current == vp.idle && InStep(vp, heap, r)
    modifies vp
    ensures vp.Valid() && vp.Abs() == Schedule(SetMe(old(vp.Abs()), Me(old(vp.Abs())).(state := RUNNABLE)))
    ensures InStep(vp, heap, r)
  {
    vp.Yield();
  }

  // ---------- A new thread ----------

  function With(r: Records, t: Tid, x: H.Thread): Records {
    Records(r.of[t := x], r.tid[x := t])
  }

  lemma CreateMirror(s: State, members: set<H.Thread>, dues: map<H.Thread, int>, r: Records, t: Tid, tc: Option<Cid>,
                     x: H.Thread)
    requires Mirrors(s, members, dues, r) && t !in s.thread && x !in r.tid && x !in members
    ensures Mirrors(Create(s, t, tc), members, dues[x := x.due], With(r, t, x))
  {
  }

  /** st_thread_create, with the record of the new thread */
  method StThreadCreate(vp: V.Vp, heap: H.Vp, r: Records, t: Tid, tc: Option<Cid>) returns (r': Records)
    requires vp.Valid() && InStep(vp, heap, r) && SchedulerRuns.Enabled(vp.Abs(), SchedulerRuns.OpCreate(t, tc))
    modifies vp, heap
    ensures vp.Abs() == Create(old(vp.Abs()), t, tc) && vp.Valid() && InStep(vp, heap, r')
    ensures fresh(heap.threads - old(heap.threads))
  {
    ghost var s := vp.Abs();
    vp.StThreadCreate(t, tc);
    r' := NewRecord(heap, s, r, t, tc);
  }

  method NewRecord(heap: H.Vp, ghost s: State, r: Records, t: Tid, ghost tc: Option<Cid>) returns (r': Records)
    requires HeapOf(heap, s, r) && t !in s.thread
    modifies heap`threads, heap`dues
    ensures HeapOf(heap, Create(s, t, tc), r') && fresh(heap.threads - old(heap.threads))
  {
    OpenHeap(heap, s, r);
    var x := heap.NewThread();
    CreateMirror(s, Members(heap.at), old(heap.dues), r, t, tc, x);
    r' := With(r, t, x);
  }

  // ---------- Whole runs ----------

  /** st_init and st_timecache of both: the primordial thread runs, and nobody sleeps. */
  method StInit(primordial: Tid, idle: Tid, clock: int) returns (vp: V.Vp, heap: H.Vp, r: Records)
    requires primordial != idle
    ensures fresh(vp) && fresh(heap) && fresh(heap.threads)
    ensures vp.Abs() == SchedulerRuns.Init(primordial, idle, clock) && vp.Valid() && InStep(vp, heap, r)
  {
    vp := new V.Vp(primordial, idle, clock);
    heap, r := NewHeap(primordial, idle, clock);
  }

  method NewHeap(primordial: Tid, idle: Tid, clock: int) returns (heap: H.Vp, r: Records)
    requires primordial != idle
    ensures fresh(heap) && fresh(heap.threads) && HeapOf(heap, SchedulerRuns.Init(primordial, idle, clock), r)
  {
    heap := new H.Vp(clock);
    var a := heap.NewThread();
    var b := heap.NewThread();
    r := Records(map[primordial := a, idle := b], map[a := primordial, b := idle]);
    InitMirror(primordial, idle, clock, a, b, heap.dues);
    assert Members(heap.at) == {};
  }

  lemma InitMirror(primordial: Tid, idle: Tid, clock: int, a: H.Thread, b: H.Thread, dues: map<H.Thread, int>)
    requires primordial != idle && a != b
    ensures Mirrors(SchedulerRuns.Init(primordial, idle, clock), {}, dues,
                    Records(map[primordial := a, idle := b], map[a := primordial, b := idle]))
  {
  }

  /** A step as it was asked for; the order in which an idle turn wakes comes from the heap. */
  predicate AskedFor(op: SchedulerRuns.Op, asked: SchedulerRuns.Op) {
    if asked.OpIdle? then op.OpIdle? && op.fired == asked.fired && op.now == asked.now else op == asked
  }

  /** Any step of the running thread, over scheduler and heap: it is the machine's, and both stay in step. */
  method Step(vp: V.Vp, heap: H.Vp, r: Records, asked: SchedulerRuns.Op)
    returns (r': Records, ret: Ret, ghost op: SchedulerRuns.Op)
    requires vp.Valid() && InStep(vp, heap, r) && SchedulerRuns.Possible(vp.Abs(), asked)
    modifies vp, heap, heap.threads
    ensures AskedFor(op, asked) && SchedulerRuns.Enabled(old(vp.Abs()), op)
    ensures (vp.Abs(), ret) == SchedulerRuns.Next(old(vp.Abs()), op) && vp.Valid() && InStep(vp, heap, r')
    ensures fresh(heap.threads - old(heap.threads))
  {
    r', op := r, asked;
    match asked {
      case OpCreate(t, tc) =>
        r' := StThreadCreate(vp, heap, r, t, tc);
        ret := Ok;
      case OpIdle(fired, now, _) =>
        var order := IdleThread(vp, heap, r, fired, now);
        op, ret := SchedulerRuns.OpIdle(fired, now, order), Switched;
      case _ =>
        ret := Call(vp, heap, r, asked);
    }
  }

  /** The calls of a thread that exists already. */
  method Call(vp: V.Vp, heap: H.Vp, r: Records, op: SchedulerRuns.Op) returns (ret: Ret)
    requires vp.Valid() && InStep(vp, heap, r) && SchedulerRuns.Enabled(vp.Abs(), op) && !op.OpIdle? && !op.OpCreate?
    modifies vp, heap, heap.threads
    ensures (vp.Abs(), ret) == SchedulerRuns.Next(old(vp.Abs()), op) && vp.Valid() && InStep(vp, heap, r)
    ensures heap.threads == old(heap.threads)
  {
    ret := Ok;
    if Spares(op) {
      ret := Spared(vp, heap, r, op);
      return;
    }
    match op {
      case OpPoll(timeout, added) => ret := StPoll(vp, heap, r, timeout, added);
      case OpUsleep(timeout) => ret := StUsleep(vp, heap, r, timeout);
      case OpCondWait(c, timeout) => ret := StCondTimedwait(vp, heap, r, c, timeout);
      case OpSignal(c, broadcast) => StCondSignal(vp, heap, r, c, broadcast);
      case OpInterrupt(t) => StThreadInterrupt(vp, heap, r, t);
      case _ =>
        assert false;
    }
  }

  method Spared(vp: V.Vp, heap: H.Vp, r: Records, op: SchedulerRuns.Op) returns (ret: Ret)
    requires vp.Valid() && InStep(vp, heap, r) && SchedulerRuns.Enabled(vp.Abs(), op) && Spares(op)
    modifies vp
    ensures (vp.Abs(), ret) == SchedulerRuns.Next(old(vp.Abs()), op) && vp.Valid() && InStep(vp, heap, r)
  {
    OtherCallsSpareTheHeap(vp.Abs(), op);
    SameHeap(heap, vp.Abs(), SchedulerRuns.Next(vp.Abs(), op).0, r);
    ret := vp.Perform(op);
  }

  lemma RunGrows(run: seq<State>, ops: seq<SchedulerRuns.Op>, op: SchedulerRuns.Op, s': State)
    requires SchedulerRuns.IsRun(run, ops) && SchedulerRuns.Enabled(run[|ops|], op)
    requires s' == SchedulerRuns.Next(run[|ops|], op).0
    ensures SchedulerRuns.IsRun(run + [s'], ops + [op])
  {
    var run', ops' := run + [s'], ops + [op];
    assert run'[0] == run[0];
    forall k | 0 <= k < |ops'| ensures SchedulerRuns.StepAt(run', ops', k) {
      if k < |ops| { assert SchedulerRuns.StepAt(run, ops, k); }
    }
  }

  lemma RunStarts(primordial: Tid, idle: Tid, clock: int)
    requires primordial != idle
    ensures SchedulerRuns.IsRun([SchedulerRuns.Init(primordial, idle, clock)], [])
  {
  }

  /** What the steps that were asked for came to: they were taken one by one, up to one that is not possible. */
  ghost predicate Performed(run: seq<State>, ops: seq<SchedulerRuns.Op>, asked: seq<SchedulerRuns.Op>) {
    && SchedulerRuns.IsRun(run, ops) && |ops| <= |asked|
    && (forall k :: 0 <= k < |ops| ==> AskedFor(ops[k], asked[k]))
  }

  lemma PerformedGrows(run: seq<State>, ops: seq<SchedulerRuns.Op>, asked: seq<SchedulerRuns.Op>,
                       op: SchedulerRuns.Op, s': State)
    requires Performed(run, ops, asked) && |ops| < |asked| && AskedFor(op, asked[|ops|])
    requires SchedulerRuns.Enabled(run[|ops|], op) && s' == SchedulerRuns.Next(run[|ops|], op).0
    ensures Performed(run + [s'], ops + [op], asked)
  {
    RunGrows(run, ops, op, s');
  }

  /** The step that was asked for next. */
  method Next(vp: V.Vp, heap: H.Vp, r: Records, asked: seq<SchedulerRuns.Op>, i: nat, ghost run: seq<State>,
              ghost ops: seq<SchedulerRuns.Op>)
    returns (r': Records, ghost run': seq<State>, ghost ops': seq<SchedulerRuns.Op>)
    requires i < |asked| && SchedulerRuns.Possible(vp.Abs(), asked[i]) && vp.Valid() && InStep(vp, heap, r)
    requires i == |ops| && Performed(run, ops, asked) && vp.Abs() == run[i]
    modifies vp, heap, heap.threads
    ensures |ops'| == i + 1 && Performed(run', ops', asked) && vp.Abs() == run'[i + 1] && run'[0] == run[0]
    ensures vp.Valid() && InStep(vp, heap, r') && fresh(heap.threads - old(heap.threads))
  {
    ghost var op;
    var ret;
    r', ret, op := Step(vp, heap, r, asked[i]);
    PerformedGrows(run, ops, asked, op, vp.Abs());
    run', ops' := run + [vp.Abs()], ops + [op];
  }

  /**
   * Along whole runs: whatever steps are asked for after st_init, the updates in place take the scheduler through a
   * run of the machine, for as long as the steps are possible, and the heap is in step with it.
   */
  method Execute(primordial: Tid, idle: Tid, clock: int, asked: seq<SchedulerRuns.Op>)
    returns (vp: V.Vp, heap: H.Vp, r: Records, ghost run: seq<State>, ghost ops: seq<SchedulerRuns.Op>)
    requires primordial != idle
    ensures Performed(run, ops, asked) && vp.Abs() == run[|ops|] && vp.Valid() && InStep(vp, heap, r)
    ensures run[0] == SchedulerRuns.Init(primordial, idle, clock)
    ensures |ops| < |asked| ==> !SchedulerRuns.Possible(run[|ops|], asked[|ops|])
  {
    vp, heap, r := StInit(primordial, idle, clock);
    run, ops := [vp.Abs()], [];
    RunStarts(primordial, idle, clock);
    var i := 0;
    while i < |asked| && SchedulerRuns.Possible(vp.Abs(), asked[i])
      invariant i == |ops| && Performed(run, ops, asked) && vp.Abs() == run[i] && vp.Valid() && InStep(vp, heap, r)
      invariant run[0] == SchedulerRuns.Init(primordial, idle, clock)
      invariant fresh(vp) && fresh(heap) && fresh(heap.threads)
    {
      r, run, ops := Next(vp, heap, r, asked, i, run, ops);
      i := i + 1;
    }
  }
}
