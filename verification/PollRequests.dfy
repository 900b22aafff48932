/** Poll requests, as both event systems see them. */
module PollRequests {
  datatype Flag = POLLIN | POLLOUT | POLLPRI | POLLERR | POLLHUP | POLLNVAL

  datatype PollFd = PollFd(fd: int, events: set<Flag>, revents: set<Flag>)

  /** An entry of the I/O queue: a thread and the descriptors it waits for. */
  datatype Request = Request(thread: int, pds: seq<PollFd>)

  /** What can be polled for. */
  predicate Pollable(pd: PollFd) {
    pd.events != {} && pd.events <= {POLLIN, POLLOUT, POLLPRI}
  }

  /** How often the descriptor is waited for with the flag: in one request, and in all. */
  function Tally(pds: seq<PollFd>, fd: int, k: Flag): nat {
    if pds == [] then 0
    else Tally(pds[..|pds| - 1], fd, k) + if pds[|pds| - 1].fd == fd && k in pds[|pds| - 1].events then 1 else 0
  }

  function Total(q: seq<Request>, fd: int, k: Flag): nat {
    if q == [] then 0 else Tally(q[0].pds, fd, k) + Total(q[1..], fd, k)
  }

  lemma TallyStep(pds: seq<PollFd>, i: nat, fd: int, k: Flag)
    requires i < |pds|
    ensures Tally(pds[..i + 1], fd, k) ==
      Tally(pds[..i], fd, k) + if pds[i].fd == fd && k in pds[i].events then 1 else 0
  {
    assert pds[..i + 1][..i] == pds[..i];
  }

  lemma {:induction false} TallyPart(pds: seq<PollFd>, i: nat, fd: int, k: Flag)
    requires i <= |pds|
    ensures Tally(pds[..i], fd, k) <= Tally(pds, fd, k)
  {
    if i < |pds| {
      TallyPart(pds[..|pds| - 1], i, fd, k);
      assert pds[..|pds| - 1][..i] == pds[..i];
    } else {
      assert pds[..i] == pds;
    }
  }

  lemma {:induction false} TallyPositive(pds: seq<PollFd>, fd: int, k: Flag)
    ensures Tally(pds, fd, k) > 0 <==> exists pd :: pd in pds && pd.fd == fd && k in pd.events
  {
    if pds != [] {
      var rest := pds[..|pds| - 1];
      TallyPositive(rest, fd, k);
      assert pds == rest + [pds[|pds| - 1]];
    }
  }

  lemma {:induction false} TotalPositive(q: seq<Request>, fd: int, k: Flag)
    ensures Total(q, fd, k) > 0 <==> exists r, pd :: r in q && pd in r.pds && pd.fd == fd && k in pd.events
  {
    if q != [] {
      TotalPositive(q[1..], fd, k);
      TallyPositive(q[0].pds, fd, k);
      assert q == [q[0]] + q[1..];
    }
  }

  lemma {:induction false} TotalConcat(q: seq<Request>, p: seq<Request>, fd: int, k: Flag)
    ensures Total(q + p, fd, k) == Total(q, fd, k) + Total(p, fd, k)
  {
    if q == [] {
      assert q + p == p;
    } else {
      assert (q + p)[1..] == q[1..] + p;
      TotalConcat(q[1..], p, fd, k);
    }
  }

  lemma TotalSplit(q: seq<Request>, i: nat, fd: int, k: Flag)
    requires i < |q|
    ensures Total(q, fd, k) == Total(q[..i] + q[i + 1..], fd, k) + Tally(q[i].pds, fd, k)
  {
    assert q == q[..i] + ([q[i]] + q[i + 1..]);
    TotalConcat(q[..i], [q[i]] + q[i + 1..], fd, k);
    TotalConcat(q[..i], q[i + 1..], fd, k);
    assert ([q[i]] + q[i + 1..])[1..] == q[i + 1..];
  }

  /** The same descriptors and events; only what is reported differs. */
  predicate SameAsked(p: seq<PollFd>, q: seq<PollFd>) {
    |p| == |q| && forall i :: 0 <= i < |p| ==> p[i].fd == q[i].fd && p[i].events == q[i].events
  }

  lemma {:induction false} SameTally(p: seq<PollFd>, q: seq<PollFd>, fd: int, k: Flag)
    requires SameAsked(p, q)
    ensures Tally(p, fd, k) == Tally(q, fd, k)
  {
    if p != [] { SameTally(p[..|p| - 1], q[..|q| - 1], fd, k); }
  }

  lemma TotalReplace(q: seq<Request>, i: nat, r: Request, fd: int, k: Flag)
    requires i < |q| && SameAsked(r.pds, q[i].pds)
    ensures Total(q[..i] + [r] + q[i + 1..], fd, k) == Total(q, fd, k)
  {
    var p := q[..i] + [r] + q[i + 1..];
    SameTally(r.pds, q[i].pds, fd, k);
    TotalSplit(q, i, fd, k);
    TotalSplit(p, i, fd, k);
    assert p[..i] == q[..i] && p[i + 1..] == q[i + 1..];
  }

  function Kind(k: int): Flag {
    if k == 0 then POLLIN else if k == 1 then POLLOUT else POLLPRI
  }

  // ---------- A pass over the I/O queue ----------

  /**
   * What the kernel finds: the ready descriptors of each select() set; the bad descriptors, by fcntl(), after EBADF;
   * or for each descriptor the events of epoll_wait().
   */
  datatype Outcome =
    | Selected(r: set<int>, w: set<int>, e: set<int>)
    | BadFds(bad: set<int>)
    | Polled(events: seq<set<Flag>>)

  function ReadySet(o: Outcome, k: Flag): set<int>
    requires o.Selected?
  {
    match k case POLLIN => o.r case POLLOUT => o.w case POLLPRI => o.e case _ => {}
  }

  function EventsAt(o: Outcome, fd: int): set<Flag>
    requires o.Polled?
  {
    if 0 <= fd < |o.events| then o.events[fd] else {}
  }

  /** What a pass reports for a descriptor. */
  function Report(pd: PollFd, o: Outcome): PollFd {
    pd.(revents :=
      match o
      case Selected(_, _, _) => set k: Flag | k in pd.events && pd.fd in ReadySet(o, k)
      case BadFds(bad) => if pd.events != {} && pd.fd in bad then {POLLNVAL} else {}
      case Polled(_) => EventsAt(o, pd.fd) * (pd.events + {POLLERR, POLLHUP}))
  }

  /** The outcome concerns a descriptor polled with flag k. */
  predicate Concerns(o: Outcome, fd: int, k: Flag) {
    match o
    case Selected(_, _, _) => fd in ReadySet(o, k)
    case BadFds(bad) => fd in bad
    case Polled(_) => EventsAt(o, fd) * {k, POLLERR, POLLHUP} != {}
  }

  function Reported(pds: seq<PollFd>, o: Outcome): (r: seq<PollFd>)
    ensures SameAsked(r, pds)
  {
    seq(|pds|, i requires 0 <= i < |pds| => Report(pds[i], o))
  }

  predicate Notified(pds: seq<PollFd>) {
    exists i :: 0 <= i < |pds| && pds[i].revents != {}
  }

  function Answer(r: Request, o: Outcome): Request {
    r.(pds := Reported(r.pds, o))
  }

  function Answers(q: seq<Request>, o: Outcome): seq<Request> {
    if q == [] then [] else Answers(q[..|q| - 1], o) + [Answer(q[|q| - 1], o)]
  }

  /** The requests that a pass leaves on the queue, and those it wakes, in queue order. */
  function Left(q: seq<Request>, o: Outcome): seq<Request> {
    if q == [] then [] else
      var r := Answer(q[|q| - 1], o);
      Left(q[..|q| - 1], o) + if Notified(r.pds) then [] else [r]
  }

  function Fired(q: seq<Request>, o: Outcome): seq<Request> {
    if q == [] then [] else
      var r := Answer(q[|q| - 1], o);
      Fired(q[..|q| - 1], o) + if Notified(r.pds) then [r] else []
  }

  /** One more answered request, among those left or those fired. */
  function Passed(w: (seq<Request>, seq<Request>), r: Request): (seq<Request>, seq<Request>) {
    if Notified(r.pds) then (w.0, w.1 + [r]) else (w.0 + [r], w.1)
  }

  ghost predicate PassAt(w: int -> (seq<Request>, seq<Request>), q: seq<Request>, o: Outcome, j: int) {
    0 <= j < |q| ==> w(j + 1) == Passed(w(j), Answer(q[j], o))
  }

  /** w(j) is what the first j requests came to. */
  ghost predicate IsPass(w: int -> (seq<Request>, seq<Request>), q: seq<Request>, o: Outcome) {
    w(0) == ([], []) && forall j {:trigger PassAt(w, q, o, j)} :: PassAt(w, q, o, j)
  }

  lemma LeftStep(q: seq<Request>, j: nat, o: Outcome)
    requires j < |q|
    ensures (Left(q[..j + 1], o), Fired(q[..j + 1], o)) == Passed((Left(q[..j], o), Fired(q[..j], o)), Answer(q[j], o))
  {
    assert q[..j + 1][..j] == q[..j];
    assert Left(q[..j], o) + [] == Left(q[..j], o) && Fired(q[..j], o) + [] == Fired(q[..j], o);
  }

  /** The passes of a queue, as the function of its prefixes. */
  ghost function PassOf(q: seq<Request>, o: Outcome): (w: int -> (seq<Request>, seq<Request>))
    ensures IsPass(w, q, o) && w(|q|) == (Left(q, o), Fired(q, o))
  {
    var w := (j: int) => if 0 <= j <= |q| then (Left(q[..j], o), Fired(q[..j], o)) else ([], []);
    PassFacts(q, o, w);
    w
  }

  lemma PassFacts(q: seq<Request>, o: Outcome, w: int -> (seq<Request>, seq<Request>))
    requires forall j :: 0 <= j <= |q| ==> w(j) == (Left(q[..j], o), Fired(q[..j], o))
    ensures IsPass(w, q, o) && w(|q|) == (Left(q, o), Fired(q, o))
  {
    forall j ensures PassAt(w, q, o, j) {
      if 0 <= j < |q| { LeftStep(q, j, o); }
    }
    assert q[..0] == [] && q[..|q|] == q;
  }

  lemma SplitAt(left: seq<Request>, q: seq<Request>, j: nat, r: Request)
    requires j < |q|
    ensures var all, i := left + q[j..], |left|;
      && all[..i] + all[i + 1..] == left + q[j + 1..]
      && all[..i] + [r] + all[i + 1..] == (left + [r]) + q[j + 1..]
  {
    assert q[j..][1..] == q[j + 1..];
  }

  /** No request is lost or duplicated: each is left or fired, and what fires keeps its order. */
  lemma {:induction false} PassConserves(q: seq<Request>, o: Outcome)
    ensures multiset(Left(q, o)) + multiset(Fired(q, o)) == multiset(Answers(q, o))
  {
    if q != [] { PassConserves(q[..|q| - 1], o); }
  }

  /** A pass wakes a request exactly if a descriptor it waits for is ready as asked, in error, or bad. */
  lemma WokenIff(pds: seq<PollFd>, o: Outcome)
    requires forall i :: 0 <= i < |pds| ==> Pollable(pds[i])
    ensures Notified(Reported(pds, o)) <==>
      exists i, k :: 0 <= i < |pds| && k in pds[i].events && Concerns(o, pds[i].fd, k)
  {
    var r := Reported(pds, o);
    if Notified(r) {
      var i :| 0 <= i < |r| && r[i].revents != {};
      var k :| k in r[i].revents;
      assert r[i] == Report(pds[i], o) && Pollable(pds[i]);
      var k' :| k' in pds[i].events;
      if k in pds[i].events {
        assert Concerns(o, pds[i].fd, k) by {
          if o.Polled? { assert k in EventsAt(o, pds[i].fd) * {k, POLLERR, POLLHUP}; }
        }
      } else {
        assert Concerns(o, pds[i].fd, k') by {
          if o.Polled? { assert k in EventsAt(o, pds[i].fd) * {k', POLLERR, POLLHUP}; }
        }
      }
    }
    forall i, k | 0 <= i < |pds| && k in pds[i].events && Concerns(o, pds[i].fd, k) ensures Notified(r) {
      assert r[i] == Report(pds[i], o);
      match o
      case Selected(_, _, _) => assert k in r[i].revents;
      case BadFds(_) => assert POLLNVAL in r[i].revents;
      case Polled(_) =>
        var e :| e in EventsAt(o, pds[i].fd) * {k, POLLERR, POLLHUP};
        assert e in r[i].revents;
    }
  }

  // ---------- The same without the functions ----------

  /** The elements of sub are elements of q, in their order. */
  ghost predicate InOrder(sub: seq<Request>, q: seq<Request>) {
    exists at: seq<int> :: Places(at, sub, q)
  }

  ghost predicate Places(at: seq<int>, sub: seq<Request>, q: seq<Request>) {
    && |at| == |sub| && (forall i :: 0 <= i < |at| ==> 0 <= at[i] < |q| && q[at[i]] == sub[i])
    && forall i, j :: 0 <= i < j < |at| ==> at[i] < at[j]
  }

  predicate Told(r: Request) {
    exists i :: 0 <= i < |r.pds| && r.pds[i].revents != {}
  }

  /** Answered requests are told apart: those with something to report are woken, the others left, all in order. */
  ghost predicate Splits(answers: seq<Request>, left: seq<Request>, woken: seq<Request>) {
    && multiset(left) + multiset(woken) == multiset(answers) && InOrder(left, answers) && InOrder(woken, answers)
    && (forall r :: r in left ==> !Told(r)) && (forall r :: r in woken ==> Told(r))
  }

  lemma OrderGrows(sub: seq<Request>, q: seq<Request>, r: Request)
    requires InOrder(sub, q)
    ensures InOrder(sub, q + [r]) && InOrder(sub + [r], q + [r])
  {
    var at: seq<int> :| Places(at, sub, q);
    assert Places(at, sub, q + [r]);
    assert Places(at + [|q|], sub + [r], q + [r]);
  }

  lemma {:induction false} PassSplits(q: seq<Request>, o: Outcome)
    ensures Splits(Answers(q, o), Left(q, o), Fired(q, o))
  {
    PassConserves(q, o);
    if q == [] {
      assert Places([], [], []);
    } else {
      var n := |q| - 1;
      PassSplits(q[..n], o);
      var r := Answer(q[n], o);
      OrderGrows(Left(q[..n], o), Answers(q[..n], o), r);
      OrderGrows(Fired(q[..n], o), Answers(q[..n], o), r);
      assert Left(q[..n], o) + [] == Left(q[..n], o) && Fired(q[..n], o) + [] == Fired(q[..n], o);
    }
  }

  lemma {:induction false} AnswersAt(q: seq<Request>, o: Outcome)
    ensures |Answers(q, o)| == |q| && forall i :: 0 <= i < |q| ==> Answers(q, o)[i] == Answer(q[i], o)
  {
    if q != [] { AnswersAt(q[..|q| - 1], o); }
  }

  /** A request and its answer differ in what is reported. */
  predicate SameRequest(a: Request, r: Request) {
    a.thread == r.thread && SameAsked(a.pds, r.pds)
  }
}
