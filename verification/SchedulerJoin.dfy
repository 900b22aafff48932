/** What st_thread_join promises over whole runs, and when it never returns. */
module SchedulerJoin {
  import opened Triggers
  import opened Options
  import opened ThreadStates
  import opened Scheduler
  import opened SchedulerInvariant
  import opened SchedulerRuns
  import opened SchedulerEffects
  import opened SchedulerTheorems

  /** u is inside st_thread_join of x. */
  predicate Joins(s: State, u: Tid, x: Tid) {
    u in s.thread && s.thread[u].at.Joining? && s.thread[u].at.target == x
  }

  /** u is blocked there. */
  predicate Parked(s: State, u: Tid, x: Tid) {
    Joins(s, u, x) && s.thread[u].state == COND_WAIT
  }

  /** x called st_thread_exit: it is a zombie, or was reaped, or is gone. */
  predicate Ending(s: State, x: Tid) {
    x in s.thread && (s.thread[x].at == Exiting || s.thread[x].at == Gone)
  }

  /** At step l, x calls st_thread_exit. */
  predicate ExitsAt(run: seq<State>, ops: seq<Op>, l: nat, x: Tid)
    requires |run| == |ops| + 1
  {
    l < |ops| && ops[l] == OpExit && run[l].current == x
  }

  predicate InterruptsAt(ops: seq<Op>, l: nat, u: Tid) {
    l < |ops| && ops[l] == OpInterrupt(u)
  }

  // ---------- What wakes a joiner ----------

  /** The exit of x makes the thread that waits for it runnable. */
  lemma ExitWakesJoiner(s: State, u: Tid, x: Tid)
    requires Inv(s) && Parked(s, u, x) && s.current == x && Calling(s)
    ensures u in Exit(s).thread && Awake(Exit(s).thread[u])
  {
    var c := s.thread[u].at.tc;
    assert ThreadOk(s, u) && CondOk(s, c) && ThreadOk(s, x);
    assert s.cond[c].waitQ == [u];
    ExitEffect(s, u);
    ExitParks(s);
    SignalKeeps(SetMe(s, Me(s).(state := ZOMBIE, at := Exiting)).(zombieQ := s.zombieQ + [s.current]), c, [u], false);
  }

  /** Nothing else but an interrupt does. */
  lemma OnlyExitWakesJoiner(s: State, op: Op, u: Tid, x: Tid)
    requires Inv(s) && Enabled(s, op) && Parked(s, u, x)
    ensures var s' := Next(s, op).0;
      && Joins(s', u, x) && (op == OpInterrupt(u) ==> s'.thread[u].interrupt)
      && (s'.thread[u].state == COND_WAIT || op == OpInterrupt(u) || (op == OpExit && s.current == x))
  {
    assert ThreadOk(s, u) && ThreadOk(s, s.current);
    OtherThread(s, op, u);
  }

  lemma InterruptWakes(s: State, u: Tid)
    requires u in s.thread && s.thread[u].state == COND_WAIT
    ensures u in Interrupt(s, u).thread && Awake(Interrupt(s, u).thread[u])
  {
  }

  /** A step wakes a parked joiner exactly if it interrupts him or is the exit of his target. */
  lemma ParkedStep(run: seq<State>, ops: seq<Op>, k: nat, u: Tid, x: Tid)
    requires IsRun(run, ops) && k < |ops| && Parked(run[k], u, x)
    ensures Joins(run[k + 1], u, x) && (InterruptsAt(ops, k, u) ==> run[k + 1].thread[u].interrupt)
    ensures Parked(run[k + 1], u, x) <==> !InterruptsAt(ops, k, u) && !ExitsAt(run, ops, k, x)
  {
    var s, op := run[k], ops[k];
    AlwaysInv(run, ops, k);
    assert StepAt(run, ops, k);
    OnlyExitWakesJoiner(s, op, u, x);
    if ExitsAt(run, ops, k, x) {
      ExitWakesJoiner(s, u, x);
    } else if InterruptsAt(ops, k, u) {
      InterruptWakes(s, u);
    }
  }

  /** A thread is in a join because it just called it, or was before. */
  lemma JoinsStep(run: seq<State>, ops: seq<Op>, k: nat, u: Tid, x: Tid)
    requires IsRun(run, ops) && k < |ops| && Joins(run[k + 1], u, x)
    ensures if u == run[k].current then ops[k] == OpJoin(x) && Parked(run[k + 1], u, x) else Joins(run[k], u, x)
    ensures u != run[k].current ==>
      && (run[k].thread[u].interrupt ==> run[k + 1].thread[u].interrupt)
      && (!Parked(run[k], u, x) ==> !Parked(run[k + 1], u, x))
  {
    var s, op := run[k], ops[k];
    AlwaysInv(run, ops, k);
    assert StepAt(run, ops, k);
    NewThreadsAreOutside(s, op, u);
    if u == s.current {
      OwnStep(s, op);
    } else {
      OtherThread(s, op, u);
      assert ThreadOk(s, u);
    }
  }

  // ---------- The result ----------

  /** From state j + 1 to state k, u is inside the st_thread_join of x that it called at step j. */
  ghost predicate JoinsSince(run: seq<State>, ops: seq<Op>, j: nat, k: nat, u: Tid, x: Tid)
    requires |run| == |ops| + 1
  {
    && j < k < |run| && run[j].current == u && ops[j] == OpJoin(x)
    && forall l {:trigger run[l]} :: j < l <= k ==> Joins(run[l], u, x)
  }

  /** A joiner called st_thread_join; if it is awake without an interrupt, its target has called exit since. */
  lemma {:induction false} JoiningSince(run: seq<State>, ops: seq<Op>, k: nat, u: Tid, x: Tid) returns (j: nat, e: nat)
    requires IsRun(run, ops) && k < |run| && Joins(run[k], u, x)
    ensures JoinsSince(run, ops, j, k, u, x)
    ensures !Parked(run[k], u, x) && !run[k].thread[u].interrupt ==>
      j < e < k && ExitsAt(run, ops, e, x) && Parked(run[e], u, x)
  {
    if k == 0 { assert false; }
    JoinsStep(run, ops, k - 1, u, x);
    if u == run[k - 1].current {
      j, e := k - 1, k - 1;
    } else {
      j, e := JoiningSince(run, ops, k - 1, u, x);
      if Parked(run[k - 1], u, x) {
        ParkedStep(run, ops, k - 1, u, x);
        e := k - 1;
      }
    }
  }

  /**
   * st_thread_join that had to wait returns 0 exactly if its caller was not interrupted, and then its target called
   * st_thread_exit during this very wait and is taken off the zombie queue to finish its exit; it fails only with
   * EINTR.
   */
  lemma JoinResult(run: seq<State>, ops: seq<Op>, k: nat, x: Tid)
    requires IsRun(run, ops) && k < |ops| && ops[k] == OpResume && Joins(run[k], run[k].current, x)
    ensures Enabled(run[k], OpResume)
    ensures var s, (s', ret) := run[k], Next(run[k], OpResume);
      && ret == (if Me(s).interrupt then Failed(EINTR) else Ok)
      && (ret == Ok ==>
            && x in s.thread && s.thread[x].state == ZOMBIE && s'.thread[x].state == RUNNABLE
            && x !in s'.zombieQ && s'.runQ == s.runQ + [x]
            && exists j: nat, e: nat ::
                 JoinsSince(run, ops, j, k, s.current, x) && j < e < k && ExitsAt(run, ops, e, x))
  {
    var s := run[k];
    assert StepAt(run, ops, k);
    AlwaysInv(run, ops, k);
    assert ThreadOk(s, s.current);
    var j, e := JoiningSince(run, ops, k, s.current, x);
  }

  // ---------- A join that never returns ----------

  /** A thread on its way out stays there and never calls exit again. */
  lemma EndingStep(run: seq<State>, ops: seq<Op>, k: nat, x: Tid)
    requires IsRun(run, ops) && k < |ops| && Ending(run[k], x)
    ensures Ending(run[k + 1], x) && !ExitsAt(run, ops, k, x)
  {
    var s, op := run[k], ops[k];
    AlwaysInv(run, ops, k);
    assert StepAt(run, ops, k);
    assert ThreadOk(s, s.current);
    if x == s.current {
      assert op == OpResume;
      OwnStep(s, op);
    } else {
      OtherThread(s, op, x);
    }
  }

  lemma {:induction false} EndingStays(run: seq<State>, ops: seq<Op>, i: nat, k: nat, x: Tid)
    requires IsRun(run, ops) && i <= k < |run| && Ending(run[i], x)
    ensures Ending(run[k], x)
  {
    if i < k {
      EndingStays(run, ops, i, k - 1, x);
      EndingStep(run, ops, k - 1, x);
    }
  }

  /**
   * As long as nobody interrupts it, a thread parked in st_thread_join stays parked exactly until its target calls
   * st_thread_exit.
   */
  lemma {:induction false} JoinEndsIff(run: seq<State>, ops: seq<Op>, i: nat, k: nat, u: Tid, x: Tid)
    requires IsRun(run, ops) && i <= k < |run| && Parked(run[i], u, x)
    requires forall l {:trigger InterruptsAt(ops, l, u)} :: i <= l < k ==> !InterruptsAt(ops, l, u)
    ensures (forall l {:trigger run[l]} :: i <= l <= k ==> Parked(run[l], u, x))
       <==> (forall l {:trigger ExitsAt(run, ops, l, x)} :: i <= l < k ==> !ExitsAt(run, ops, l, x))
  {
    if i < k {
      JoinEndsIff(run, ops, i, k - 1, u, x);
      assert !InterruptsAt(ops, k - 1, u);
      if Parked(run[k - 1], u, x) { ParkedStep(run, ops, k - 1, u, x); }
      assert ExitsAt(run, ops, k - 1, x) ==>
        !(forall l {:trigger ExitsAt(run, ops, l, x)} :: i <= l < k ==> !ExitsAt(run, ops, l, x));
    }
  }

  /**
   * So if the target was already on its way out when the caller parked, as after an earlier join that took it off the
   * zombie queue, the call returns only if somebody interrupts the caller.
   */
  lemma JoinHangs(run: seq<State>, ops: seq<Op>, i: nat, k: nat, u: Tid, x: Tid)
    requires IsRun(run, ops) && i <= k < |run| && Parked(run[i], u, x) && Ending(run[i], x)
    requires forall l {:trigger InterruptsAt(ops, l, u)} :: i <= l < k ==> !InterruptsAt(ops, l, u)
    ensures Parked(run[k], u, x)
  {
    forall l | i <= l < k ensures !ExitsAt(run, ops, l, x) {
      EndingStays(run, ops, i, l, x);
      EndingStep(run, ops, l, x);
    }
    JoinEndsIff(run, ops, i, k, u, x);
  }

  /** st_thread_join parks its caller on such a target exactly if that was reaped but has not run since. */
  lemma ParksOnEndingIff(s: State, x: Tid)
    requires Inv(s) && Enabled(s, OpJoin(x))
    ensures var (s', ret) := Join(s, x);
      ret == Switched && Ending(s', x)
      <==> s.thread[x].at == Exiting && s.thread[x].state != ZOMBIE && !Me(s).interrupt
           && s.thread[x].term.Some? && s.thread[x].term.value in s.cond && s.cond[s.thread[x].term.value].waitQ == []
  {
    assert ThreadOk(s, x) && ThreadOk(s, s.current);
  }

  const TWICE: seq<Op> := [OpCreate(2, Some(7)), OpJoin(2), OpExit, OpResume, OpJoin(2), OpResume]

  const PARKED := Thread(COND_WAIT, Joining(2, 7), false, false, false, 0, None)
  const TARGET := Thread(RUNNABLE, Code, false, false, false, 0, Some(7))

  /** Thread 1 idles, and 7 announces the end of thread 2, for which thread 0 may wait. */
  ghost predicate Trio(s: State, current: Tid, runQ: seq<Tid>, waitQ: seq<Tid>, main: Thread, target: Thread) {
    && s.current == current && s.idle == 1 && s.runQ == runQ && 7 in s.cond && s.cond[7] == Cond(waitQ, Some(2))
    && 0 in s.thread && s.thread[0] == main && 2 in s.thread && s.thread[2] == target
    && 1 in s.thread && s.thread[1].at == Idling
  }

  /** The step that op takes from s to s'. */
  ghost predicate StepsTo(s: State, op: Op, s': State) {
    forall u {:trigger Opened(u)} :: Opened(u) ==> Enabled(s, op) && Next(s, op).0 == s'
  }

  lemma OpenStep(s: State, op: Op, s': State)
    requires StepsTo(s, op, s')
    ensures Enabled(s, op) && Next(s, op).0 == s'
  {
    assert Opened(0);
  }

  lemma Creates2(s: State) returns (s': State)
    requires s == Init(0, 1, 0)
    ensures StepsTo(s, OpCreate(2, Some(7)), s') && Trio(s', 0, [2], [], PARKED.(state := RUNNING, at := Code), TARGET)
  {
    s' := Create(s, 2, Some(7));
  }

  lemma Joins2(s: State, target: Thread) returns (s': State)
    requires Trio(s, 0, [2], [], PARKED.(state := RUNNING, at := Code), target)
    requires target == TARGET || target == TARGET.(at := Exiting)
    ensures StepsTo(s, OpJoin(2), s') && Trio(s', 2, [], [0], PARKED, target.(state := RUNNING))
  {
    s' := Join(s, 2).0;
  }

  lemma Exits2(s: State) returns (s': State)
    requires Trio(s, 2, [], [0], PARKED, TARGET.(state := RUNNING))
    ensures StepsTo(s, OpExit, s')
    ensures Trio(s', 0, [], [0], PARKED.(state := RUNNING), TARGET.(state := ZOMBIE, at := Exiting))
  {
    s' := Exit(s);
  }

  lemma Reaps2(s: State) returns (s': State)
    requires Trio(s, 0, [], [0], PARKED.(state := RUNNING), TARGET.(state := ZOMBIE, at := Exiting))
    ensures StepsTo(s, OpResume, s')
    ensures Trio(s', 0, [2], [], PARKED.(state := RUNNING, at := Code), TARGET.(at := Exiting))
    ensures s.current in s.thread && Resume(s).1 == Ok
  {
    s' := Resume(s).0;
  }

  lemma Vanishes2(s: State) returns (s': State)
    requires Trio(s, 2, [], [0], PARKED, TARGET.(state := RUNNING, at := Exiting))
    ensures StepsTo(s, OpResume, s')
    ensures Trio(s', 1, [], [0], PARKED, TARGET.(state := RUNNING, at := Gone, term := None))
  {
    s' := Resume(s).0;
  }

  lemma RunOf(run: seq<State>, ops: seq<Op>)
    requires |run| == |ops| + 1 && run[0] == Init(0, 1, 0)
    requires forall k :: 0 <= k < |ops| ==> StepsTo(run[k], ops[k], run[k + 1])
    ensures IsRun(run, ops)
  {
    assert 0 != 1 && run[0] == Init(0, 1, 0);
    forall k | 0 <= k < |ops| ensures StepAt(run, ops, k) { OpenStep(run[k], ops[k], run[k + 1]); }
  }

  lemma SixSteps(s0: State, s1: State, s2: State, s3: State, s4: State, s5: State, s6: State)
    requires s0 == Init(0, 1, 0) && StepsTo(s0, OpCreate(2, Some(7)), s1) && StepsTo(s1, OpJoin(2), s2)
    requires StepsTo(s2, OpExit, s3) && StepsTo(s3, OpResume, s4) && StepsTo(s4, OpJoin(2), s5)
    requires StepsTo(s5, OpResume, s6)
    ensures IsRun([s0, s1, s2, s3, s4, s5, s6], TWICE)
  {
    RunOf([s0, s1, s2, s3, s4, s5, s6], TWICE);
  }

  lemma FirstJoin() returns (s1: State, s2: State, s3: State, s4: State)
    ensures StepsTo(Init(0, 1, 0), OpCreate(2, Some(7)), s1) && StepsTo(s1, OpJoin(2), s2)
    ensures StepsTo(s2, OpExit, s3) && StepsTo(s3, OpResume, s4)
    ensures s3.current == 0 && 0 in s3.thread && Resume(s3).1 == Ok
    ensures Trio(s4, 0, [2], [], PARKED.(state := RUNNING, at := Code), TARGET.(at := Exiting))
  {
    s1 := Creates2(Init(0, 1, 0));
    s2 := Joins2(s1, TARGET);
    s3 := Exits2(s2);
    s4 := Reaps2(s3);
  }

  lemma SecondJoin(s4: State) returns (s5: State, s6: State)
    requires Trio(s4, 0, [2], [], PARKED.(state := RUNNING, at := Code), TARGET.(at := Exiting))
    ensures StepsTo(s4, OpJoin(2), s5) && StepsTo(s5, OpResume, s6)
    ensures Parked(s6, 0, 2) && Ending(s6, 2) && s6.current == s6.idle
  {
    s5 := Joins2(s4, TARGET.(at := Exiting));
    s6 := Vanishes2(s5);
  }

  /**
   * It happens: thread 0 joins thread 2, which takes it off the zombie queue, and joins it again before it has run.
   * Thread 2 ends without a signal, and only the idle thread is left to run.
   */
  lemma JoinedTwice() returns (run: seq<State>)
    ensures IsRun(run, TWICE) && TWICE[1] == TWICE[4] == OpJoin(2) && TWICE[3] == OpResume
    ensures run[3].current == 0 && 0 in run[3].thread && Resume(run[3]).1 == Ok
    ensures Parked(run[6], 0, 2) && Ending(run[6], 2) && run[6].current == run[6].idle
  {
    var s1, s2, s3, s4 := FirstJoin();
    var s5, s6 := SecondJoin(s4);
    SixSteps(Init(0, 1, 0), s1, s2, s3, s4, s5, s6);
    run := [Init(0, 1, 0), s1, s2, s3, s4, s5, s6];
  }
}
