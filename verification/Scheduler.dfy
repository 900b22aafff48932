/**
 * The cooperative scheduler: thread states and flags, the run, I/O, zombie and sleep queues, condition variables
 * and mutexes. A step is what the running thread does in one library call up to the next context switch, or the
 * part of a call after the switch back.
 */
module Scheduler {
  import opened Options
  import opened ThreadStates
  import opened Queues

  type Tid = nat
  type Cid = nat
  type Mid = nat

  /** Where the stack of a thread is parked. */
  datatype Where =
    | Idling                              // the loop of the idle thread
    | Code                                // outside the library, or not started
    | Polling(onIoq: bool)                // st_poll; onIoq is pq.on_ioq
    | Sleeping(until: Option<int>)        // st_usleep
    | Waiting(c: Cid)                     // st_cond_timedwait
    | Joining(target: Tid, tc: Cid)       // st_thread_join, in st_cond_timedwait
    | Locking(m: Mid)                     // st_mutex_lock
    | Exiting                             // st_thread_exit, a zombie
    | Gone                                // st_thread_exit, for good

  datatype Thread = Thread(state: ThreadState, at: Where, onSleepq: bool, interrupt: bool, timedOut: bool,
                           due: int, term: Option<Cid>)

  /** owner is the thread whose termination it announces; None for an ordinary condition variable. */
  datatype Cond = Cond(waitQ: seq<Tid>, owner: Option<Tid>)

  datatype Mutex = Mutex(owner: Option<Tid>, waitQ: seq<Tid>)

  datatype State = State(thread: map<Tid, Thread>, current: Tid, idle: Tid, runQ: seq<Tid>, zombieQ: seq<Tid>,
                         ioQ: seq<Tid>, sleepQ: set<Tid>, cond: map<Cid, Cond>, mutex: map<Mid, Mutex>,
                         lastClock: int)

  predicate Awake(r: Thread) {
    r.state == RUNNABLE || r.state == RUNNING
  }

  /** _st_vp_schedule */
  function Schedule(s: State): (s': State)
    ensures s'.thread.Keys == s.thread.Keys && s'.mutex == s.mutex
  {
    var t := if s.runQ != [] then s.runQ[0] else s.idle;
    if t in s.thread then
      s.(runQ := if s.runQ != [] then s.runQ[1..] else [], current := t,
         thread := s.thread[t := s.thread[t].(state := RUNNING)])
    else s
  }

  /** Makes a blocked thread runnable, with flags as in r: off the sleep queue, onto the run queue. */
  function Wake(s: State, t: Tid, r: Thread): State {
    s.(thread := s.thread[t := r.(state := RUNNABLE, onSleepq := false)],
       sleepQ := s.sleepQ - {t}, runQ := s.runQ + [t])
  }

  // ---------- Library calls ----------

  datatype Errno = EINTR | ETIME | EDEADLK | EPERM | EBUSY | EINVAL | EPOLLSET

  /** Switched: the caller gave up the processor inside the call. */
  datatype Ret = Ok | Switched | Failed(errno: Errno)

  function Me(s: State): (r: Thread)
    requires s.current in s.thread
  {
    s.thread[s.current]
  }

  function SetMe(s: State, r: Thread): State {
    s.(thread := s.thread[s.current := r])
  }

  /** The interrupt that is pending on entry of a blocking call is consumed by its failure. */
  function Refuse(s: State): (r: (State, Ret))
    requires s.current in s.thread
    ensures r.0.thread.Keys == s.thread.Keys && r.0.mutex == s.mutex
  {
    (SetMe(s, Me(s).(interrupt := false)), Failed(EINTR))
  }

  /** The caller blocks at a place of the library, with a deadline if it gave a timeout. */
  function Park(s: State, state: ThreadState, at: Where, timeout: Option<int>): (s': State)
    requires s.current in s.thread
    ensures s'.thread.Keys == s.thread.Keys && s'.mutex == s.mutex
  {
    var r := Me(s).(state := state, at := at);
    if timeout.Some? then
      SetMe(s, r.(onSleepq := true, due := s.lastClock + timeout.value)).(sleepQ := s.sleepQ + {s.current})
    else SetMe(s, r)
  }

  /** The caller goes on after the switch back, outside the library; an interrupt was turned into a failure. */
  function Return(s: State): (s': State)
    requires s.current in s.thread
    ensures s'.thread.Keys == s.thread.Keys && s'.mutex == s.mutex
  {
    SetMe(s, Me(s).(at := Code, interrupt := false))
  }

  /** The same after a wait that may also have timed out. */
  function ReturnTimed(s: State): (s': State)
    requires s.current in s.thread
    ensures s'.thread.Keys == s.thread.Keys && s'.mutex == s.mutex
  {
    SetMe(s, Me(s).(at := Code, interrupt := false, timedOut := false))
  }

  /** st_poll up to the switch; `added` is the success of pollset_add. */
  function Poll(s: State, timeout: Option<int>, added: bool): (r: (State, Ret))
    requires s.current in s.thread
    ensures r.0.thread.Keys == s.thread.Keys && r.0.mutex == s.mutex
  {
    if Me(s).interrupt then Refuse(s)
    else if !added then (s, Failed(EPOLLSET))
    else (Schedule(Park(s.(ioQ := s.ioQ + [s.current]), IO_WAIT, Polling(true), timeout)), Switched)
  }

  function ParkAsleep(s: State, timeout: Option<int>): (s': State)
    requires s.current in s.thread
    ensures s'.thread.Keys == s.thread.Keys && s'.mutex == s.mutex
  {
    if timeout.Some? then Park(s, SLEEPING, Sleeping(Some(s.lastClock + timeout.value)), timeout)
    else Park(s, SUSPENDED, Sleeping(None), None)
  }

  /** st_usleep up to the switch */
  function Usleep(s: State, timeout: Option<int>): (r: (State, Ret))
    requires s.current in s.thread
    ensures r.0.thread.Keys == s.thread.Keys && r.0.mutex == s.mutex
  {
    if Me(s).interrupt then Refuse(s) else (Schedule(ParkAsleep(s, timeout)), Switched)
  }

  function EnqueueCond(s: State, c: Cid): State
    requires c in s.cond
  {
    s.(cond := s.cond[c := s.cond[c].(waitQ := s.cond[c].waitQ + [s.current])])
  }

  function DequeueCond(s: State, c: Cid): State {
    if c in s.cond then s.(cond := s.cond[c := s.cond[c].(waitQ := Without(s.cond[c].waitQ, s.current))]) else s
  }

  /** st_cond_timedwait up to the switch */
  function CondWait(s: State, c: Cid, timeout: Option<int>): (r: (State, Ret))
    requires s.current in s.thread && c in s.cond
    ensures r.0.thread.Keys == s.thread.Keys && r.0.mutex == s.mutex
  {
    if Me(s).interrupt then Refuse(s)
    else (Schedule(Park(EnqueueCond(s, c), COND_WAIT, Waiting(c), timeout)), Switched)
  }

  /** The loop of _st_cond_signal over the rest q of the wait queue. */
  function Signal(s: State, q: seq<Tid>, broadcast: bool): (s': State)
    ensures s'.thread.Keys == s.thread.Keys && s'.mutex == s.mutex
    decreases |q|
  {
    if q == [] then s
    else if q[0] in s.thread && s.thread[q[0]].state == COND_WAIT then
      var s1 := Wake(s, q[0], s.thread[q[0]]);
      if broadcast then Signal(s1, q[1..], true) else s1
    else Signal(s, q[1..], broadcast)
  }

  /** st_mutex_lock up to the switch */
  function Lock(s: State, m: Mid): (r: (State, Ret))
    requires s.current in s.thread && m in s.mutex
    ensures r.0.thread.Keys == s.thread.Keys
  {
    var v := s.mutex[m];
    if Me(s).interrupt then Refuse(s)
    else if v.owner == None then (s.(mutex := s.mutex[m := v.(owner := Some(s.current))]), Ok)
    else if v.owner == Some(s.current) then (s, Failed(EDEADLK))
    else
      var s1 := s.(mutex := s.mutex[m := v.(waitQ := v.waitQ + [s.current])]);
      (Schedule(Park(s1, LOCK_WAIT, Locking(m), None)), Switched)
  }

  /** The first thread of q in LOCK_WAIT. */
  function FirstLocking(s: State, q: seq<Tid>): (r: Option<Tid>)
    ensures r.Some? ==> r.value in q && r.value in s.thread && s.thread[r.value].state == LOCK_WAIT
    ensures r.None? ==> forall t :: t in q && t in s.thread ==> s.thread[t].state != LOCK_WAIT
  {
    if q == [] then None
    else if q[0] in s.thread && s.thread[q[0]].state == LOCK_WAIT then Some(q[0])
    else FirstLocking(s, q[1..])
  }

  function Unlock(s: State, m: Mid): (r: (State, Ret))
    requires s.current in s.thread && m in s.mutex
    ensures r.0.thread.Keys == s.thread.Keys
  {
    var v := s.mutex[m];
    if v.owner != Some(s.current) then (s, Failed(EPERM))
    else
      var next := FirstLocking(s, v.waitQ);
      var s1 := s.(mutex := s.mutex[m := v.(owner := next)]);
      (if next.Some? then Wake(s1, next.value, s.thread[next.value]) else s1, Ok)
  }

  function Trylock(s: State, m: Mid): (r: (State, Ret))
    requires m in s.mutex
    ensures r.0.thread.Keys == s.thread.Keys
  {
    if s.mutex[m].owner != None then (s, Failed(EBUSY))
    else (s.(mutex := s.mutex[m := s.mutex[m].(owner := Some(s.current))]), Ok)
  }

  /** st_cond_destroy */
  function DestroyCond(s: State, c: Cid): (r: (State, Ret))
    requires c in s.cond
    ensures r.0.thread.Keys == s.thread.Keys
  {
    if s.cond[c].waitQ != [] then (s, Failed(EBUSY)) else (s.(cond := s.cond - {c}), Ok)
  }

  /** st_mutex_destroy */
  function DestroyMutex(s: State, m: Mid): (r: (State, Ret))
    requires m in s.mutex
    ensures r.0.thread.Keys == s.thread.Keys
  {
    if s.mutex[m].owner != None || s.mutex[m].waitQ != [] then (s, Failed(EBUSY)) else (s.(mutex := s.mutex - {m}), Ok)
  }

  /** st_thread_interrupt */
  function Interrupt(s: State, t: Tid): (s': State)
    requires t in s.thread
    ensures s'.thread.Keys == s.thread.Keys && s'.mutex == s.mutex
  {
    var r := s.thread[t].(interrupt := true);
    if s.thread[t].state == ZOMBIE then s
    else if Awake(r) then s.(thread := s.thread[t := r])
    else Wake(s, t, r)
  }

  /** st_thread_create; tc is the termination condition variable of a joinable thread. */
  function Create(s: State, t: Tid, tc: Option<Cid>): State {
    s.(thread := s.thread[t := Thread(RUNNABLE, Code, false, false, false, 0, tc)], runQ := s.runQ + [t],
       cond := if tc.Some? then s.cond[tc.value := Cond([], Some(t))] else s.cond)
  }

  /** st_thread_exit up to the first switch */
  function Exit(s: State): (s': State)
    requires s.current in s.thread
    ensures s'.thread.Keys == s.thread.Keys && s'.mutex == s.mutex
  {
    var r := Me(s);
    if r.term.Some? then
      var s1 := SetMe(s, r.(state := ZOMBIE, at := Exiting)).(zombieQ := s.zombieQ + [s.current]);
      Schedule(if r.term.value in s.cond then Signal(s1, s.cond[r.term.value].waitQ, false) else s1)
    else Schedule(SetMe(s, r.(at := Gone)))
  }

  /** A zombie leaves the zombie queue, to finish its exit. */
  function Reap(s: State, t: Tid): (s': State)
    requires t in s.thread
    ensures s'.thread.Keys == s.thread.Keys && s'.mutex == s.mutex
  {
    s.(thread := s.thread[t := s.thread[t].(state := RUNNABLE)], zombieQ := Without(s.zombieQ, t), runQ := s.runQ + [t])
  }

  /** The wait loop of st_thread_join and what follows it. */
  function JoinLoop(s: State, t: Tid, c: Cid): (r: (State, Ret))
    requires s.current in s.thread && t in s.thread && c in s.cond
    ensures r.0.thread.Keys == s.thread.Keys && r.0.mutex == s.mutex
  {
    if s.thread[t].state == ZOMBIE then
      (Reap(s, t), Ok)
    else if Me(s).interrupt then Refuse(s)
    else (Schedule(Park(EnqueueCond(s, c), COND_WAIT, Joining(t, c), None)), Switched)
  }

  function Join(s: State, t: Tid): (r: (State, Ret))
    requires s.current in s.thread && t in s.thread
    ensures r.0.thread.Keys == s.thread.Keys && r.0.mutex == s.mutex
  {
    var term := s.thread[t].term;
    if term.None? || term.value !in s.cond then (s, Failed(EINVAL))
    else if s.current == t then (s, Failed(EDEADLK))
    else if s.cond[term.value].waitQ != [] then (s, Failed(EINVAL))
    else JoinLoop(s, t, term.value)
  }

  /** The rest of st_thread_exit for a joined thread: its condition variable goes unless somebody waits there. */
  function Vanish(s: State): (s': State)
    requires s.current in s.thread
    ensures s'.thread.Keys == s.thread.Keys && s'.mutex == s.mutex
  {
    var s1 := SetMe(s, Me(s).(at := Gone, term := None));
    var term := Me(s).term;
    if term.Some? && term.value in s.cond && s.cond[term.value].waitQ == [] then s1.(cond := s.cond - {term.value})
    else s1
  }

  /** What the current thread does when the processor is switched back to it inside a call. */
  function Resume(s: State): (r: (State, Ret))
    requires s.current in s.thread
    ensures r.0.thread.Keys == s.thread.Keys
  {
    var r := Me(s);
    var result := if r.interrupt then Failed(EINTR) else if r.timedOut then Failed(ETIME) else Ok;
    match r.at
    case Polling(onIoq) => (Return(if onIoq then s.(ioQ := Without(s.ioQ, s.current)) else s), result)
    case Sleeping(_) => (Return(s), result)
    case Waiting(c) => (ReturnTimed(DequeueCond(s, c)), result)
    case Joining(t, c) =>
      var s1 := ReturnTimed(DequeueCond(s, c));
      if result != Ok || t !in s1.thread || c !in s1.cond then (s1, result) else JoinLoop(s1, t, c)
    case Locking(m) =>
      if m !in s.mutex then (s, Ok) else
      var v := s.mutex[m];
      var s1 := s.(mutex := s.mutex[m := v.(waitQ := Without(v.waitQ, s.current))]);
      if r.interrupt && v.owner != Some(s.current) then (Return(s1), Failed(EINTR))
      else (SetMe(s1, r.(at := Code)), Ok)
    case Exiting => (Schedule(Vanish(s)), Switched)
    case _ => (s, Ok)
  }

  // ---------- The idle thread ----------

  /** A poll request fires: it leaves the I/O queue and its thread wakes. */
  function Notify(s: State, t: Tid): (s': State)
    requires t in s.thread
    ensures s'.thread.Keys == s.thread.Keys && s'.mutex == s.mutex
  {
    Wake(s.(ioQ := Without(s.ioQ, t)), t, s.thread[t].(at := Polling(false)))
  }

  /** dispatch: the requests of the threads in `fired` leave the I/O queue in order and their threads wake. */
  function Dispatch(s: State, q: seq<Tid>, fired: set<Tid>): (s': State)
    ensures s'.thread.Keys == s.thread.Keys && s'.mutex == s.mutex
    decreases |q|
  {
    if q == [] then s
    else Dispatch(if q[0] in fired && q[0] in s.thread then Notify(s, q[0]) else s, q[1..], fired)
  }

  /** The loop of _st_vp_check_clock over the expired threads, in the order in which the timeout heap yields them. */
  function Expire(s: State, order: seq<Tid>): (s': State)
    ensures s'.thread.Keys == s.thread.Keys && s'.mutex == s.mutex
    decreases |order|
  {
    if order == [] || order[0] !in s.thread then s
    else
      var t := order[0];
      var r := s.thread[t];
      Expire(Wake(s, t, r.(timedOut := r.timedOut || r.state == COND_WAIT)), order[1..])
  }

  function Dues(s: State): map<Tid, int> {
    map t | t in s.thread :: s.thread[t].due
  }

  /** One turn of the idle loop. */
  function IdleTurn(s: State, fired: set<Tid>, now: int, order: seq<Tid>): (s': State)
    requires s.current in s.thread
    ensures s'.thread.Keys == s.thread.Keys && s'.mutex == s.mutex
  {
    var s1 := Expire(Dispatch(s, s.ioQ, fired).(lastClock := now), order);
    Schedule(if s1.current in s1.thread then SetMe(s1, Me(s1).(state := RUNNABLE)) else s1)
  }
}
