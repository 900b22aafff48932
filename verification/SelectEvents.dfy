/** The select event system of event.c: reference counts, descriptor sets and the largest descriptor, kept in place. */
module SelectEvents {
  import opened PollRequests

  const FD_SETSIZE := 1024

  predicate Acceptable(pds: seq<PollFd>) {
    forall i :: 0 <= i < |pds| ==> 0 <= pds[i].fd < FD_SETSIZE && Pollable(pds[i])
  }

  predicate AllAcceptable(q: seq<Request>) {
    forall r :: r in q ==> Acceptable(r.pds)
  }

  class Select {
    const cnt: array2<int>   // fd_ref_cnts
    const sets: array2<bool> // the read, write and exception sets
    var maxfd: int
    var ioQ: seq<Request>
    var runQ: seq<Request>

    ghost predicate Shape() {
      cnt.Length0 == FD_SETSIZE && cnt.Length1 == 3 && sets.Length0 == FD_SETSIZE && sets.Length1 == 3
    }

    /** The descriptor sets hold what is counted. */
    ghost predicate Sets()
      requires Shape()
      reads cnt, sets
    {
      forall fd, k :: 0 <= fd < FD_SETSIZE && 0 <= k < 3 ==> (sets[fd, k] <==> cnt[fd, k] > 0)
    }

    /** The counts are the entries of all requests of q. */
    ghost predicate Counts(q: seq<Request>)
      requires Shape()
      reads cnt
    {
      forall fd, k :: 0 <= fd < FD_SETSIZE && 0 <= k < 3 ==> cnt[fd, k] == Total(q, fd, Kind(k))
    }

    ghost predicate Bounded(q: seq<Request>)
      reads this
    {
      forall r, pd :: r in q && pd in r.pds ==> pd.fd <= maxfd
    }

    /** The indices mirror the requests of q. */
    ghost predicate Mirrors(q: seq<Request>)
      reads this, cnt, sets
    {
      && Shape() && Sets() && Counts(q) && Bounded(q)
      && AllAcceptable(q)
    }

    ghost predicate Valid()
      reads this, cnt, sets
    {
      Mirrors(ioQ)
    }

    constructor ()
      ensures Valid() && ioQ == [] && runQ == [] && maxfd == -1 && fresh(cnt) && fresh(sets)
    {
      cnt := new int[FD_SETSIZE, 3]((_, _) => 0);
      sets := new bool[FD_SETSIZE, 3]((_, _) => false);
      maxfd, ioQ, runQ := -1, [], [];
    }

    /** FD_SET and one more reference, for each flag asked for. */
    method Register(pd: PollFd)
      requires Shape() && Sets() && 0 <= pd.fd < FD_SETSIZE
      requires forall k :: 0 <= k < 3 ==> cnt[pd.fd, k] >= 0
      modifies cnt, sets
      ensures Sets()
      ensures forall fd, k :: 0 <= fd < FD_SETSIZE && 0 <= k < 3 ==>
        cnt[fd, k] == old(cnt[fd, k]) + if pd.fd == fd && Kind(k) in pd.events then 1 else 0
    {
      if POLLIN in pd.events {
        sets[pd.fd, 0] := true;
        cnt[pd.fd, 0] := cnt[pd.fd, 0] + 1;
      }
      if POLLOUT in pd.events {
        sets[pd.fd, 1] := true;
        cnt[pd.fd, 1] := cnt[pd.fd, 1] + 1;
      }
      if POLLPRI in pd.events {
        sets[pd.fd, 2] := true;
        cnt[pd.fd, 2] := cnt[pd.fd, 2] + 1;
      }
    }

    method DropOne(fd: int, k: int)
      requires Shape() && Sets() && 0 <= fd < FD_SETSIZE && 0 <= k < 3 && cnt[fd, k] > 0
      modifies cnt, sets
      ensures Sets()
      ensures forall d, j :: 0 <= d < FD_SETSIZE && 0 <= j < 3 ==>
        cnt[d, j] == old(cnt[d, j]) - if d == fd && j == k then 1 else 0
    {
      cnt[fd, k] := cnt[fd, k] - 1;
      if cnt[fd, k] == 0 { sets[fd, k] := false; }
    }

    /** The reverse; FD_CLR when the last reference goes. */
    method Unregister(pd: PollFd)
      requires Shape() && Sets() && 0 <= pd.fd < FD_SETSIZE
      requires forall k :: 0 <= k < 3 && Kind(k) in pd.events ==> cnt[pd.fd, k] > 0
      modifies cnt, sets
      ensures Sets()
      ensures forall fd, k :: 0 <= fd < FD_SETSIZE && 0 <= k < 3 ==>
        cnt[fd, k] == old(cnt[fd, k]) - if pd.fd == fd && Kind(k) in pd.events then 1 else 0
    {
      if POLLIN in pd.events { DropOne(pd.fd, 0); }
      if POLLOUT in pd.events { DropOne(pd.fd, 1); }
      if POLLPRI in pd.events { DropOne(pd.fd, 2); }
    }

    /** The checks up front. */
    method Check(pds: seq<PollFd>) returns (ok: bool)
      ensures ok <==> Acceptable(pds)
    {
      var i := 0;
      while i < |pds|
        invariant i <= |pds| && Acceptable(pds[..i])
      {
        if || pds[i].fd < 0 || pds[i].fd >= FD_SETSIZE
           || pds[i].events == {} || !(pds[i].events <= {POLLIN, POLLOUT, POLLPRI}) {
          return false;
        }
        i := i + 1;
      }
      ok := true;
    }

    method RegisterAll(pds: seq<PollFd>, ghost rest: seq<Request>)
      requires Shape() && Sets() && Counts(rest) && Acceptable(pds)
      modifies `maxfd, cnt, sets
      ensures Sets() && maxfd >= old(maxfd) && forall j :: 0 <= j < |pds| ==> pds[j].fd <= maxfd
      ensures forall fd, k :: 0 <= fd < FD_SETSIZE && 0 <= k < 3 ==>
        cnt[fd, k] == Total(rest, fd, Kind(k)) + Tally(pds, fd, Kind(k))
    {
      var i := 0;
      while i < |pds|
        invariant i <= |pds| && Sets() && maxfd >= old(maxfd)
        invariant forall fd, k :: 0 <= fd < FD_SETSIZE && 0 <= k < 3 ==>
          cnt[fd, k] == Total(rest, fd, Kind(k)) + Tally(pds[..i], fd, Kind(k))
        invariant forall j :: 0 <= j < i ==> pds[j].fd <= maxfd
      {
        Register(pds[i]);
        forall fd, k | 0 <= fd < FD_SETSIZE && 0 <= k < 3
          ensures cnt[fd, k] == Total(rest, fd, Kind(k)) + Tally(pds[..i + 1], fd, Kind(k))
        {
          TallyStep(pds, i, fd, Kind(k));
        }
        if maxfd < pds[i].fd { maxfd := pds[i].fd; }
        i := i + 1;
      }
      assert pds[..i] == pds;
    }

    /** _st_select_pollset_add: refuses the whole request (EINVAL), or registers all of it. */
    method PollsetAdd(thread: int, pds: seq<PollFd>) returns (result: int)
      requires Mirrors(ioQ)
      modifies `maxfd, cnt, sets
      ensures result == if Acceptable(pds) then 0 else -1
      ensures result == 0 ==> Mirrors(ioQ + [Request(thread, pds)])
      ensures result == -1 ==> Mirrors(ioQ) && maxfd == old(maxfd)
    {
      var ok := Check(pds);
      if !ok { return -1; }
      RegisterAll(pds, ioQ);
      forall fd, k | 0 <= fd < FD_SETSIZE && 0 <= k < 3
        ensures cnt[fd, k] == Total(ioQ + [Request(thread, pds)], fd, Kind(k))
      {
        TotalConcat(ioQ, [Request(thread, pds)], fd, Kind(k));
      }
      result := 0;
    }

    /** _st_select_pollset_del, also inlined in dispatch and find_bad_fd; rest are the other requests. */
    method PollsetDel(pds: seq<PollFd>, ghost rest: seq<Request>)
      requires Shape() && Sets() && Acceptable(pds)
      requires forall fd, k :: 0 <= fd < FD_SETSIZE && 0 <= k < 3 ==>
        cnt[fd, k] == Total(rest, fd, Kind(k)) + Tally(pds, fd, Kind(k))
      modifies cnt, sets
      ensures Sets() && Counts(rest)
    {
      var i := 0;
      assert pds[..i] == [];
      while i < |pds|
        invariant i <= |pds| && Sets()
        invariant forall fd, k :: 0 <= fd < FD_SETSIZE && 0 <= k < 3 ==>
          cnt[fd, k] == Total(rest, fd, Kind(k)) + Tally(pds, fd, Kind(k)) - Tally(pds[..i], fd, Kind(k))
      {
        forall fd, k | 0 <= fd < FD_SETSIZE && 0 <= k < 3
          ensures Tally(pds[..i + 1], fd, Kind(k)) ==
            Tally(pds[..i], fd, Kind(k)) + if pds[i].fd == fd && Kind(k) in pds[i].events then 1 else 0
          ensures Tally(pds[..i + 1], fd, Kind(k)) <= Tally(pds, fd, Kind(k))
        {
          TallyStep(pds, i, fd, Kind(k));
          TallyPart(pds, i + 1, fd, Kind(k));
        }
        Unregister(pds[i]);
        i := i + 1;
      }
      assert pds[..i] == pds;
    }

    /** The loop over a request's descriptors in dispatch and in find_bad_fd. */
    method Scan(pds: seq<PollFd>, o: Outcome) returns (answer: seq<PollFd>, notify: bool, pqMax: int)
      requires Acceptable(pds) && !o.Polled?
      ensures answer == Reported(pds, o) && (notify <==> Notified(answer))
      ensures forall pd :: pd in pds ==> pd.fd <= pqMax
      ensures pqMax == -1 || exists pd :: pd in pds && pd.fd == pqMax
    {
      answer, notify, pqMax := pds, false, -1;
      var i := 0;
      while i < |pds|
        invariant i <= |pds| && |answer| == |pds|
        invariant forall j :: 0 <= j < |pds| ==> answer[j] == if j < i then Report(pds[j], o) else pds[j]
        invariant notify <==> exists j :: 0 <= j < i && answer[j].revents != {}
        invariant forall j :: 0 <= j < i ==> pds[j].fd <= pqMax
        invariant pqMax == -1 || exists pd :: pd in pds && pd.fd == pqMax
      {
        var osfd, events, revents := pds[i].fd, pds[i].events, {};
        match o {
        case Selected(r, w, e) =>
          if POLLIN in events && osfd in r { revents := revents + {POLLIN}; }
          if POLLOUT in events && osfd in w { revents := revents + {POLLOUT}; }
          if POLLPRI in events && osfd in e { revents := revents + {POLLPRI}; }
        case BadFds(bad) =>
          if osfd in bad { revents := {POLLNVAL}; }
        }
        assert pds[i] in pds && answer[i := pds[i].(revents := revents)][i].revents == Report(pds[i], o).revents;
        answer := answer[i := pds[i].(revents := revents)];
        if revents != {} { notify := true; }
        if osfd > pqMax { pqMax := osfd; }
        i := i + 1;
      }
    }

    /** The rest of a pass over request i: off the queue and runnable, or kept and counted into maxfd. */
    method Dispose(i: nat, answer: seq<PollFd>, notify: bool, pqMax: int)
      requires Shape() && Sets() && Counts(ioQ) && i < |ioQ| && AllAcceptable(ioQ) && SameAsked(answer, ioQ[i].pds)
      requires Bounded(ioQ[..i]) && forall pd :: pd in answer ==> pd.fd <= pqMax
      modifies this, cnt, sets
      ensures Sets() && Counts(ioQ) && AllAcceptable(ioQ)
      ensures var r := old(ioQ)[i].(pds := answer);
        if notify then ioQ == old(ioQ)[..i] + old(ioQ)[i + 1..] && runQ == old(runQ) + [r] && Bounded(ioQ[..i])
        else ioQ == old(ioQ)[..i] + [r] + old(ioQ)[i + 1..] && runQ == old(runQ) && Bounded(ioQ[..i + 1])
    {
      ghost var rest := ioQ[..i] + ioQ[i + 1..];
      assert ioQ[i] in ioQ;
      forall fd, k | 0 <= fd < FD_SETSIZE && 0 <= k < 3
        ensures cnt[fd, k] == Total(rest, fd, Kind(k)) + Tally(ioQ[i].pds, fd, Kind(k))
      {
        TotalSplit(ioQ, i, fd, Kind(k));
      }
      var r := ioQ[i].(pds := answer);
      if notify {
        PollsetDel(ioQ[i].pds, rest);
        ioQ := ioQ[..i] + ioQ[i + 1..];
        runQ := runQ + [r];
      } else {
        forall fd, k | 0 <= fd < FD_SETSIZE && 0 <= k < 3
          ensures cnt[fd, k] == Total(ioQ[..i] + [r] + ioQ[i + 1..], fd, Kind(k))
        {
          TotalReplace(ioQ, i, r, fd, Kind(k));
        }
        assert ioQ[i := r] == ioQ[..i] + [r] + ioQ[i + 1..];
        ioQ := ioQ[i := r];
        if maxfd < pqMax { maxfd := pqMax; }
      }
    }

    /** One turn of the walk, for request i. */
    method Turn(i: nat, o: Outcome) returns (notify: bool)
      requires Shape() && Sets() && Counts(ioQ) && AllAcceptable(ioQ) && i < |ioQ| && Bounded(ioQ[..i]) && !o.Polled?
      modifies this, cnt, sets
      ensures Sets() && Counts(ioQ) && AllAcceptable(ioQ)
      ensures var r := Answer(old(ioQ)[i], o);
        && (notify <==> Notified(r.pds))
        && if notify then ioQ == old(ioQ)[..i] + old(ioQ)[i + 1..] && runQ == old(runQ) + [r] && Bounded(ioQ[..i])
           else ioQ == old(ioQ)[..i] + [r] + old(ioQ)[i + 1..] && runQ == old(runQ) && Bounded(ioQ[..i + 1])
    {
      assert ioQ[i] in ioQ;
      var answer, found, pqMax := Scan(ioQ[i].pds, o);
      ScanBounds(ioQ[i].pds, answer, pqMax);
      Dispose(i, answer, found, pqMax);
      notify := found;
    }

    /** The walk over the I/O queue in dispatch and in find_bad_fd. */
    method Walk(o: Outcome, ghost w: int -> (seq<Request>, seq<Request>))
      requires Valid() && IsPass(w, ioQ, o) && !o.Polled?
      modifies this, cnt, sets
      ensures Valid() && ioQ == w(|old(ioQ)|).0 && runQ == old(runQ) + w(|old(ioQ)|).1
    {
      ghost var q, j := ioQ, 0;
      maxfd := -1;
      var i := 0;
      while i < |ioQ|
        invariant j <= |q| && i == |w(j).0| && ioQ == w(j).0 + q[j..] && runQ == old(runQ) + w(j).1
        invariant Sets() && Counts(ioQ) && Bounded(ioQ[..i]) && AllAcceptable(ioQ)
        decreases |q| - j
      {
        SplitAt(w(j).0, q, j, Answer(q[j], o));
        assert ioQ[i] == q[j];
        var notify := Turn(i, o);
        assert PassAt(w, q, o, j);
        if !notify { i := i + 1; }
        j := j + 1;
      }
      assert ioQ[..i] == ioQ;
    }

    method Pass(o: Outcome)
      requires Valid() && !o.Polled?
      modifies this, cnt, sets
      ensures Valid() && ioQ == Left(old(ioQ), o) && runQ == old(runQ) + Fired(old(ioQ), o)
    {
      ghost var w := PassOf(ioQ, o);
      Walk(o, w);
    }

    /** _st_select_dispatch, given what select() did; _st_select_find_bad_fd after EBADF. */
    method Dispatch(nfd: int, r: set<int>, w: set<int>, e: set<int>, ebadf: bool, bad: set<int>)
      requires Valid()
      modifies this, cnt, sets
      ensures Valid()
      ensures nfd > 0 ==>
        ioQ == Left(old(ioQ), Selected(r, w, e)) && runQ == old(runQ) + Fired(old(ioQ), Selected(r, w, e))
      ensures nfd < 0 && ebadf ==>
        ioQ == Left(old(ioQ), BadFds(bad)) && runQ == old(runQ) + Fired(old(ioQ), BadFds(bad))
      ensures nfd == 0 || (nfd < 0 && !ebadf) ==> ioQ == old(ioQ) && runQ == old(runQ)
      ensures old(runQ) <= runQ
      ensures nfd > 0 ==> ReadyPass(old(ioQ), ioQ, runQ[|old(runQ)|..], r, w, e)
      ensures nfd < 0 && ebadf ==> BadPass(old(ioQ), ioQ, runQ[|old(runQ)|..], bad)
    {
      ReadyPassed(ioQ, r, w, e);
      BadPassed(ioQ, bad);
      if nfd > 0 {
        Pass(Selected(r, w, e));
      } else if nfd < 0 {
        if ebadf { Pass(BadFds(bad)); }
      }
    }

    /** st_poll up to its switch: the request joins the I/O queue. */
    method PollBegins(thread: int, pds: seq<PollFd>) returns (result: int)
      requires Valid()
      modifies this, cnt, sets
      ensures Valid() && runQ == old(runQ) && result == if Acceptable(pds) then 0 else -1
      ensures ioQ == if result == 0 then old(ioQ) + [Request(thread, pds)] else old(ioQ)
    {
      result := PollsetAdd(thread, pds);
      if result == 0 { ioQ := ioQ + [Request(thread, pds)]; }
    }

    /** The end of st_poll for a request still on the I/O queue, at position i. */
    method PollEnds(i: nat)
      requires Valid() && i < |ioQ|
      modifies `ioQ, cnt, sets
      ensures Valid() && ioQ == old(ioQ)[..i] + old(ioQ)[i + 1..]
    {
      ghost var rest := ioQ[..i] + ioQ[i + 1..];
      var pds := ioQ[i].pds;
      assert ioQ[i] in ioQ;
      forall fd, k | 0 <= fd < FD_SETSIZE && 0 <= k < 3
        ensures cnt[fd, k] == Total(rest, fd, Kind(k)) + Tally(pds, fd, Kind(k))
      {
        TotalSplit(ioQ, i, fd, Kind(k));
      }
      ioQ := ioQ[..i] + ioQ[i + 1..];
      PollsetDel(pds, rest);
    }

    /** _st_select_fd_close: EBUSY exactly if some queued request names the descriptor. */
    method FdClose(osfd: int) returns (result: int)
      requires Valid() && 0 <= osfd < FD_SETSIZE
      ensures result == -1 <==> exists r, pd :: r in ioQ && pd in r.pds && pd.fd == osfd
      ensures result == 0 || result == -1
    {
      forall k | 0 <= k < 3
        ensures cnt[osfd, k] > 0 <==> exists r, pd :: r in ioQ && pd in r.pds && pd.fd == osfd && Kind(k) in pd.events
      {
        TotalPositive(ioQ, osfd, Kind(k));
      }
      NamesAFlag(ioQ, osfd);
      if cnt[osfd, 0] != 0 || cnt[osfd, 1] != 0 || cnt[osfd, 2] != 0 { return -1; }
      result := 0;
    }

    /** select() is given every descriptor waited for: in its set, and below maxfd + 1. */
    lemma NothingIsMissed(r: Request, pd: PollFd, k: int)
      requires Valid() && r in ioQ && pd in r.pds && 0 <= k < 3 && Kind(k) in pd.events
      ensures 0 <= pd.fd < FD_SETSIZE && pd.fd <= maxfd && sets[pd.fd, k]
    {
      TotalPositive(ioQ, pd.fd, Kind(k));
    }

    /** And no other: what is in a set is waited for. */
    lemma NothingIsStale(fd: int, k: int)
      requires Valid() && 0 <= fd < FD_SETSIZE && 0 <= k < 3 && sets[fd, k]
      ensures fd <= maxfd && exists r, pd :: r in ioQ && pd in r.pds && pd.fd == fd && Kind(k) in pd.events
    {
      TotalPositive(ioQ, fd, Kind(k));
    }
  }

  /** What select() found of a request: each flag that was asked for and whose set has the descriptor, and no other. */
  ghost predicate ReadyAnswer(a: Request, q: Request, r: set<int>, w: set<int>, e: set<int>) {
    && SameRequest(a, q)
    && forall i, k :: 0 <= i < |q.pds| ==>
         var fd := q.pds[i].fd;
         (k in a.pds[i].revents <==>
           && k in q.pds[i].events
           && ((k == POLLIN && fd in r) || (k == POLLOUT && fd in w) || (k == POLLPRI && fd in e)))
  }

  /** What fcntl() found of it: POLLNVAL for bad descriptors. */
  ghost predicate BadAnswer(a: Request, q: Request, bad: set<int>) {
    && SameRequest(a, q)
    && forall i :: 0 <= i < |q.pds| ==> a.pds[i].revents == if q.pds[i].fd in bad then {POLLNVAL} else {}
  }

  /** A pass after select(): every request of q is answered, and woken or left in order. */
  ghost predicate ReadyPass(q: seq<Request>, left: seq<Request>, woken: seq<Request>, r: set<int>, w: set<int>,
                            e: set<int>) {
    exists answers: seq<Request> ::
      && |answers| == |q| && (forall i :: 0 <= i < |q| ==> ReadyAnswer(answers[i], q[i], r, w, e))
      && Splits(answers, left, woken)
  }

  /** A pass after EBADF. */
  ghost predicate BadPass(q: seq<Request>, left: seq<Request>, woken: seq<Request>, bad: set<int>) {
    exists answers: seq<Request> ::
      && |answers| == |q| && (forall i :: 0 <= i < |q| ==> BadAnswer(answers[i], q[i], bad))
      && Splits(answers, left, woken)
  }

  lemma ReadyPassed(q: seq<Request>, r: set<int>, w: set<int>, e: set<int>)
    ensures ReadyPass(q, Left(q, Selected(r, w, e)), Fired(q, Selected(r, w, e)), r, w, e)
  {
    var o := Selected(r, w, e);
    AnswersAt(q, o);
    PassSplits(q, o);
    forall i | 0 <= i < |q| ensures ReadyAnswer(Answers(q, o)[i], q[i], r, w, e) {
      forall j, k | 0 <= j < |q[i].pds| ensures k in Answer(q[i], o).pds[j].revents <==>
        k in q[i].pds[j].events && q[i].pds[j].fd in ReadySet(o, k)
      {
        assert Answer(q[i], o).pds[j] == Report(q[i].pds[j], o);
      }
    }
  }

  lemma BadPassed(q: seq<Request>, bad: set<int>)
    requires AllAcceptable(q)
    ensures BadPass(q, Left(q, BadFds(bad)), Fired(q, BadFds(bad)), bad)
  {
    var o := BadFds(bad);
    AnswersAt(q, o);
    PassSplits(q, o);
    forall i | 0 <= i < |q| ensures BadAnswer(Answers(q, o)[i], q[i], bad) {
      assert q[i] in q;
      forall j | 0 <= j < |q[i].pds|
        ensures Answer(q[i], o).pds[j].revents == if q[i].pds[j].fd in bad then {POLLNVAL} else {}
      {
        assert Answer(q[i], o).pds[j] == Report(q[i].pds[j], o) && Pollable(q[i].pds[j]);
      }
    }
  }

  lemma ScanBounds(pds: seq<PollFd>, answer: seq<PollFd>, pqMax: int)
    requires SameAsked(answer, pds) && forall pd :: pd in pds ==> pd.fd <= pqMax
    ensures forall pd :: pd in answer ==> pd.fd <= pqMax
  {
    forall pd | pd in answer ensures pd.fd <= pqMax {
      var i :| 0 <= i < |answer| && answer[i] == pd;
      assert pds[i] in pds;
    }
  }

  /** A queued request names a descriptor with some flag that is counted. */
  lemma NamesAFlag(q: seq<Request>, fd: int)
    requires AllAcceptable(q)
    ensures (exists r, pd :: r in q && pd in r.pds && pd.fd == fd) <==>
            exists k: int, r, pd :: 0 <= k < 3 && r in q && pd in r.pds && pd.fd == fd && Kind(k) in pd.events
  {
    forall r, pd | r in q && pd in r.pds && pd.fd == fd
      ensures Kind(0) in pd.events || Kind(1) in pd.events || Kind(2) in pd.events
    {
      var i :| 0 <= i < |r.pds| && r.pds[i] == pd;
      var k :| k in pd.events;
      assert k in {POLLIN, POLLOUT, POLLPRI};
    }
  }
}
