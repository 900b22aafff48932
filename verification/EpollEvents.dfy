/**
 * The epoll event system of event.c: reference counts per descriptor, and the kernel's interest set that follows them.
 */
module EpollEvents {
  import opened PollRequests

  /** _epoll_fd_data_t */
  datatype FdData = FdData(rd: int, wr: int, ex: int, revents: set<Flag>)

  function Cnt(d: FdData, k: Flag): int {
    match k case POLLIN => d.rd case POLLOUT => d.wr case POLLPRI => d.ex case _ => 0
  }

  /** _ST_EPOLL_EVENTS */
  function Events(d: FdData): set<Flag> {
    (if d.rd != 0 then {POLLIN} else {}) + (if d.wr != 0 then {POLLOUT} else {}) + (if d.ex != 0 then {POLLPRI} else {})
  }

  datatype Ctl = ADD | MOD | DEL

  function Step(k: Flag, events: set<Flag>): int {
    if k in events then 1 else 0
  }

  function Plus(d: FdData, events: set<Flag>, n: int): FdData {
    FdData(d.rd + n * Step(POLLIN, events), d.wr + n * Step(POLLOUT, events), d.ex + n * Step(POLLPRI, events),
           d.revents)
  }

  ghost predicate AllPollable(q: seq<Request>, size: int) {
    forall r, pd :: r in q && pd in r.pds ==> 0 <= pd.fd < size && Pollable(pd)
  }

  type Interest = map<int, set<Flag>>

  /** The kernel waits for the descriptor's counted events, and for no others. */
  ghost predicate InSync(d: FdData, interest: Interest, fd: int) {
    if Events(d) == {} then fd !in interest else fd in interest && interest[fd] == Events(d)
  }

  /** The interest set follows the counts, but for descriptors that fired in the dispatch under way and for x. */
  ghost predicate Follows(data: seq<FdData>, interest: Interest, x: int) {
    && (forall fd :: fd in interest ==> 0 <= fd < |data|)
    && (forall fd :: 0 <= fd < |data| && data[fd].revents != {} ==> fd in interest)
    && (forall fd :: 0 <= fd < |data| && fd != x && data[fd].revents == {} ==> InSync(data[fd], interest, fd))
  }

  /** The interest set once a descriptor present in it is modified or deleted. */
  function Retold(interest: Interest, fd: int, events: set<Flag>): Interest {
    if fd !in interest then interest else if events == {} then interest - {fd} else interest[fd := events]
  }

  lemma FewerEvents(d: FdData, events: set<Flag>)
    requires forall k :: k in {POLLIN, POLLOUT, POLLPRI} ==> Cnt(d, k) >= Step(k, events)
    ensures Events(Plus(d, events, -1)) <= Events(d)
  {
    assert Cnt(d, POLLIN) >= Step(POLLIN, events) && Cnt(d, POLLOUT) >= Step(POLLOUT, events);
    assert Cnt(d, POLLPRI) >= Step(POLLPRI, events);
  }

  lemma MoreEvents(d: FdData, events: set<Flag>)
    requires forall k :: k in {POLLIN, POLLOUT, POLLPRI} ==> Cnt(d, k) >= 0
    ensures Events(d) <= Events(Plus(d, events, 1))
  {
    assert Cnt(d, POLLIN) >= 0 && Cnt(d, POLLOUT) >= 0 && Cnt(d, POLLPRI) >= 0;
  }

  lemma RefusedFollows(data: seq<FdData>, interest: Interest, fd: int, d: FdData)
    requires Follows(data, interest, -1) && 0 <= fd < |data| && d.revents == data[fd].revents
    ensures Follows(data[fd := d], interest, fd)
  {
  }

  lemma AddedFollows(data: seq<FdData>, interest: Interest, fd: int, d: FdData)
    requires Follows(data, interest, -1) && 0 <= fd < |data| && d.revents == {} && Events(d) != {}
    ensures Follows(data[fd := d], interest[fd := Events(d)], -1)
  {
    forall c | 0 <= c < |data| && c != fd && data[c].revents == {}
      ensures InSync(data[c], interest[fd := Events(d)], c)
    {
      assert InSync(data[c], interest, c);
    }
  }

  /** The descriptor's counts change, its events do not, or it fired. */
  lemma SameEventsFollow(data: seq<FdData>, interest: Interest, x: int, fd: int, d: FdData)
    requires Follows(data, interest, x) && 0 <= fd < |data| && d.revents == data[fd].revents
    requires Events(d) == Events(data[fd]) || d.revents != {}
    ensures Follows(data[fd := d], interest, x)
  {
    assert fd != x && d.revents == {} ==> InSync(data[fd], interest, fd);
  }

  /** Its events change, and the kernel is told. */
  lemma RetoldFollows(data: seq<FdData>, interest: Interest, x: int, fd: int, d: FdData)
    requires Follows(data, interest, x) && 0 <= fd < |data| && d.revents == {} && (fd in interest || Events(d) == {})
    ensures Follows(data[fd := d], Retold(interest, fd, Events(d)), x)
    ensures InSync(d, Retold(interest, fd, Events(d)), fd)
  {
    var m := Retold(interest, fd, Events(d));
    forall c | 0 <= c < |data| && c != x && c != fd && data[c].revents == {} ensures InSync(data[c], m, c) {
      assert InSync(data[c], interest, c);
    }
  }

  /** The counts once the first i descriptors of pds are dropped, and the others are not. */
  ghost predicate Dropped(data: seq<FdData>, pds: seq<PollFd>, i: nat, rest: seq<Request>)
    requires i <= |pds|
  {
    forall fd, k :: 0 <= fd < |data| && k in {POLLIN, POLLOUT, POLLPRI} ==>
      Cnt(data[fd], k) == Total(rest, fd, k) + Tally(pds, fd, k) - Tally(pds[..i], fd, k)
  }

  lemma DropsOne(data: seq<FdData>, pds: seq<PollFd>, i: nat, rest: seq<Request>)
    requires i < |pds| && Dropped(data, pds, i, rest) && 0 <= pds[i].fd < |data|
    ensures forall k :: k in {POLLIN, POLLOUT, POLLPRI} ==> Cnt(data[pds[i].fd], k) >= Step(k, pds[i].events)
    ensures var pd := pds[i]; Dropped(data[pd.fd := Plus(data[pd.fd], pd.events, -1)], pds, i + 1, rest)
  {
    var pd := pds[i];
    forall fd, k | 0 <= fd < |data| && k in {POLLIN, POLLOUT, POLLPRI}
      ensures Tally(pds[..i + 1], fd, k) == Tally(pds[..i], fd, k) + if pd.fd == fd then Step(k, pd.events) else 0
      ensures Tally(pds[..i + 1], fd, k) <= Tally(pds, fd, k)
    {
      TallyStep(pds, i, fd, k);
      TallyPart(pds, i + 1, fd, k);
    }
  }

  /** The descriptors that fired are back in step up to report i. */
  ghost predicate Settling(data0: seq<FdData>, fired: seq<(int, set<Flag>)>, i: nat, data: seq<FdData>,
                           interest: Interest) {
    && |data| == |data0| && Follows(data, interest, -1)
    && (forall fd :: 0 <= fd < |data| && data[fd].revents != {} ==> IsFired(fired, i, fd))
    && (forall fd :: 0 <= fd < |data| ==> data[fd].(revents := {}) == data0[fd].(revents := {}))
  }

  lemma SettlesOne(data0: seq<FdData>, fired: seq<(int, set<Flag>)>, i: nat, data: seq<FdData>, interest: Interest)
    requires Settling(data0, fired, i, data, interest) && i < |fired| && 0 <= fired[i].0 < |data|
    ensures var osfd, d := fired[i].0, data[fired[i].0].(revents := {});
      Settling(data0, fired, i + 1, data[osfd := d], Retold(interest, osfd, Events(d)))
  {
    var osfd, d := fired[i].0, data[fired[i].0].(revents := {});
    assert data[osfd].revents == {} ==> InSync(data[osfd], interest, osfd);
    RetoldFollows(data, interest, -1, osfd, d);
  }

  class Epoll {
    var fdData: seq<FdData>
    var evtlistSize: int
    var evtlistCnt: int
    var interest: Interest  // the kernel's side
    var ioQ: seq<Request>
    var runQ: seq<Request>

    ghost predicate Counts(q: seq<Request>)
      reads this
    {
      forall fd, k :: 0 <= fd < |fdData| && k in {POLLIN, POLLOUT, POLLPRI} ==> Cnt(fdData[fd], k) == Total(q, fd, k)
    }

    ghost predicate Quiet() reads this {
      forall fd :: 0 <= fd < |fdData| ==> fdData[fd].revents == {}
    }

    ghost predicate Mirrors(q: seq<Request>)
      reads this
    {
      && Follows(fdData, interest, -1) && evtlistCnt == |interest| && Counts(q) && Quiet() && AllPollable(q, |fdData|)
      && |fdData| > 0 && 0 < evtlistSize && evtlistCnt <= evtlistSize
    }

    ghost predicate Valid() reads this {
      Mirrors(ioQ)
    }

    constructor (fdHint: nat)
      requires fdHint > 0
      ensures Valid() && ioQ == [] && runQ == [] && interest == map[] && |fdData| == fdHint
    {
      fdData := seq(fdHint, _ => FdData(0, 0, 0, {}));
      evtlistSize, evtlistCnt, interest, ioQ, runQ := fdHint, 0, map[], [], [];
    }

    /** epoll_ctl: fails on a descriptor present for ADD or absent for MOD and DEL, and if the kernel refuses. */
    method EpollCtl(op: Ctl, fd: int, events: set<Flag>, refuse: bool) returns (rc: int)
      modifies `interest
      ensures rc == if refuse || (op == ADD <==> fd in old(interest)) then -1 else 0
      ensures interest ==
        if rc != 0 then old(interest) else if op == DEL then old(interest) - {fd} else old(interest)[fd := events]
    {
      if refuse || (op == ADD <==> fd in interest) { return -1; }
      interest := if op == DEL then interest - {fd} else interest[fd := events];
      rc := 0;
    }

    /** epoll_ctl with EPOLL_CTL_MOD or, without events, EPOLL_CTL_DEL. */
    method Retell(fd: int, events: set<Flag>)
      requires evtlistCnt == |interest|
      modifies `interest, `evtlistCnt
      ensures interest == Retold(old(interest), fd, events) && evtlistCnt == |interest| <= old(evtlistCnt)
    {
      var op := if events != {} then MOD else DEL;
      assert (interest - {fd}).Keys == interest.Keys - {fd} && interest[fd := events].Keys == interest.Keys + {fd};
      var rc := EpollCtl(op, fd, events, false);
      if rc == 0 && op == DEL { evtlistCnt := evtlistCnt - 1; }
    }

    /** One turn of _st_epoll_pollset_del. A stale descriptor x gets back in step if its events change. */
    method Drop(pd: PollFd, ghost x: int)
      requires Follows(fdData, interest, x) && evtlistCnt == |interest| && 0 <= pd.fd < |fdData|
      requires forall k :: k in {POLLIN, POLLOUT, POLLPRI} ==> Cnt(fdData[pd.fd], k) >= Step(k, pd.events)
      requires pd.fd == x ==> fdData[x].revents == {} && (x in interest || Events(Plus(fdData[x], pd.events, -1)) == {})
      modifies `fdData, `interest, `evtlistCnt
      ensures fdData == old(fdData)[pd.fd := Plus(old(fdData)[pd.fd], pd.events, -1)]
      ensures Follows(fdData, interest, x) && evtlistCnt == |interest| <= old(evtlistCnt)
      ensures pd.fd == x && Events(fdData[x]) != Events(old(fdData)[x]) ==> InSync(fdData[x], interest, x)
      ensures x in old(interest) && 0 <= x < |fdData| && Events(fdData[x]) != {} ==> x in interest
      ensures pd.fd != x ==> (x in interest <==> x in old(interest))
    {
      ghost var data, d := fdData, Plus(fdData[pd.fd], pd.events, -1);
      var oldEvents := Events(fdData[pd.fd]);
      fdData := fdData[pd.fd := Plus(fdData[pd.fd], pd.events, -1)];
      var events := Events(fdData[pd.fd]);
      if events != oldEvents && fdData[pd.fd].revents == {} {
        assert pd.fd != x ==> InSync(data[pd.fd], interest, pd.fd);
        FewerEvents(data[pd.fd], pd.events);
        RetoldFollows(data, interest, x, pd.fd, d);
        Retell(pd.fd, events);
      } else {
        SameEventsFollow(data, interest, x, pd.fd, d);
      }
    }

    /**
     * _st_epoll_pollset_del; rest are the other requests. A stale request is one whose last descriptor the kernel
     * refused: its turn brings that descriptor back in step.
     */
    method PollsetDel(pds: seq<PollFd>, ghost rest: seq<Request>, ghost stale: bool)
      requires PdsOk(pds, |fdData|) && CountsWith(rest, pds) && evtlistCnt == |interest|
      requires stale ==> LastIsStale(pds, rest, fdData, interest)
      requires Follows(fdData, interest, if stale then pds[|pds| - 1].fd else -1)
      modifies `fdData, `interest, `evtlistCnt
      ensures Follows(fdData, interest, -1) && Counts(rest) && evtlistCnt == |interest| <= old(evtlistCnt)
      ensures SameRevents(old(fdData), fdData)
    {
      var i := 0;
      assert pds[..i] == [];
      while i < |pds|
        invariant i <= |pds| && SameRevents(old(fdData), fdData) && Deleting(pds, i, rest, stale)
        invariant evtlistCnt <= old(evtlistCnt)
      {
        DeleteTurn(pds, i, rest, stale);
        i := i + 1;
      }
      assert pds[..i] == pds;
    }

    /** The first i descriptors of a request are deleted. */
    ghost predicate Deleting(pds: seq<PollFd>, i: nat, rest: seq<Request>, stale: bool)
      requires i <= |pds|
      reads this
    {
      && PdsOk(pds, |fdData|) && evtlistCnt == |interest|
      && Dropped(fdData, pds, i, rest)
      && Follows(fdData, interest, if stale && i < |pds| then pds[|pds| - 1].fd else -1)
      && (stale && i < |pds| ==> LastIsStale(pds, rest, fdData, interest))
    }

    method DeleteTurn(pds: seq<PollFd>, i: nat, ghost rest: seq<Request>, ghost stale: bool)
      requires i < |pds| && Deleting(pds, i, rest, stale)
      modifies `fdData, `interest, `evtlistCnt
      ensures Deleting(pds, i + 1, rest, stale) && SameRevents(old(fdData), fdData) && evtlistCnt <= old(evtlistCnt)
    {
      DropsOne(fdData, pds, i, rest);
      if stale { StaleTurn(pds, i, rest, fdData, interest); }
      ghost var data, m := fdData, interest;
      Drop(pds[i], if stale then pds[|pds| - 1].fd else -1);
      if stale && i + 1 < |pds| { StaleStays(pds, rest, data, m, fdData, interest); }
      assert Follows(fdData, interest, if stale && i + 1 < |pds| then pds[|pds| - 1].fd else -1);
    }

    /** _st_epoll_fd_data_expand */
    method Expand(maxfd: int)
      requires Mirrors(ioQ)
      modifies `fdData
      ensures Mirrors(ioQ) && |fdData| > maxfd && |fdData| >= |old(fdData)|
      ensures forall fd :: 0 <= fd < |old(fdData)| ==> fdData[fd] == old(fdData)[fd]
    {
      var n := |fdData|;
      while maxfd >= n
        invariant n >= |fdData| > 0
      {
        n := 2 * n;
      }
      ghost var data := fdData;
      forall fd, k | fd >= |fdData| && k in {POLLIN, POLLOUT, POLLPRI} ensures Total(ioQ, fd, k) == 0 {
        TotalPositive(ioQ, fd, k);
      }
      fdData := fdData + seq(n - |fdData|, _ => FdData(0, 0, 0, {}));
      forall fd | 0 <= fd < |fdData| ensures InSync(fdData[fd], interest, fd) {
        if fd < |data| { assert InSync(data[fd], interest, fd); }
      }
    }

    /** _st_epoll_evtlist_expand */
    method EvtlistExpand()
      requires evtlistSize > 0
      modifies `evtlistSize
      ensures evtlistSize >= evtlistCnt && evtlistSize >= old(evtlistSize)
    {
      var n := evtlistSize;
      while evtlistCnt > n
        invariant n >= evtlistSize > 0
      {
        n := 2 * n;
      }
      evtlistSize := n;
    }

    /** The checks of _st_epoll_pollset_add, which grow fd_data as needed. */
    method Check(pds: seq<PollFd>) returns (ok: bool)
      requires Mirrors(ioQ)
      modifies `fdData
      ensures Mirrors(ioQ) && (ok <==> Acceptable(pds)) && (ok ==> PdsOk(pds, |fdData|))
    {
      var i := 0;
      while i < |pds|
        invariant i <= |pds| && Mirrors(ioQ) && Acceptable(pds[..i]) && PdsOk(pds[..i], |fdData|)
      {
        var fd := pds[i].fd;
        if fd < 0 || pds[i].events == {} || !(pds[i].events <= {POLLIN, POLLOUT, POLLPRI}) { return false; }
        if fd >= |fdData| { Expand(fd); }
        i := i + 1;
      }
      assert pds[..i] == pds;
      ok := true;
    }

    /** One turn of _st_epoll_pollset_add. If the kernel refuses, the descriptor is out of step. */
    method Raise(pd: PollFd, refuse: bool) returns (rc: int)
      requires Follows(fdData, interest, -1) && evtlistCnt == |interest| <= evtlistSize && evtlistSize > 0
      requires 0 <= pd.fd < |fdData| && fdData[pd.fd].revents == {}
      requires forall k :: k in {POLLIN, POLLOUT, POLLPRI} ==> Cnt(fdData[pd.fd], k) >= 0
      modifies `fdData, `interest, `evtlistCnt, `evtlistSize
      ensures rc == 0 || (rc == -1 && refuse)
      ensures fdData == old(fdData)[pd.fd := Plus(old(fdData)[pd.fd], pd.events, 1)]
      ensures Follows(fdData, interest, if rc == 0 then -1 else pd.fd) && evtlistCnt == |interest| <= evtlistSize
      ensures evtlistSize > 0
      ensures rc == -1 ==> interest == old(interest) && Events(fdData[pd.fd]) != Events(old(fdData)[pd.fd])
    {
      ghost var data, m, d := fdData, interest, Plus(fdData[pd.fd], pd.events, 1);
      assert InSync(data[pd.fd], interest, pd.fd);
      var oldEvents := Events(fdData[pd.fd]);
      fdData := fdData[pd.fd := Plus(fdData[pd.fd], pd.events, 1)];
      var events := Events(fdData[pd.fd]);
      if events != oldEvents {
        MoreEvents(data[pd.fd], pd.events);
        rc := RetellMore(pd.fd, oldEvents, events, refuse);
        if rc == 0 {
          AddedFollows(data, m, pd.fd, d);
        } else {
          RefusedFollows(data, m, pd.fd, d);
        }
      } else {
        SameEventsFollow(data, interest, -1, pd.fd, d);
        rc := 0;
      }
    }

    /** epoll_ctl with EPOLL_CTL_MOD or, without events so far, EPOLL_CTL_ADD. */
    method RetellMore(fd: int, oldEvents: set<Flag>, events: set<Flag>, refuse: bool) returns (rc: int)
      requires evtlistCnt == |interest| <= evtlistSize && evtlistSize > 0 && (oldEvents == {} <==> fd !in interest)
      modifies `interest, `evtlistCnt, `evtlistSize
      ensures evtlistCnt == |interest| <= evtlistSize && evtlistSize > 0
      ensures rc == if refuse then -1 else 0
      ensures interest == if rc == 0 then old(interest)[fd := events] else old(interest)
    {
      assert interest[fd := events].Keys == interest.Keys + {fd};
      var op := if oldEvents != {} then MOD else ADD;
      rc := EpollCtl(op, fd, events, refuse);
      if rc == 0 && op == ADD {
        evtlistCnt := evtlistCnt + 1;
        if evtlistCnt > evtlistSize { EvtlistExpand(); }
      }
    }

    /** The first i descriptors of a request are added. */
    ghost predicate Adding(pds: seq<PollFd>, i: nat)
      requires i <= |pds|
      reads this
    {
      && |fdData| > 0 && PdsOk(pds, |fdData|) && CountsWith(ioQ, pds[..i]) && Follows(fdData, interest, -1) && Quiet()
      && evtlistCnt == |interest| <= evtlistSize && evtlistSize > 0
    }

    method AddTurn(pds: seq<PollFd>, i: nat, refuse: bool) returns (rc: int)
      requires i < |pds| && Adding(pds, i)
      modifies `fdData, `interest, `evtlistCnt, `evtlistSize
      ensures |fdData| == |old(fdData)| && Quiet() && CountsWith(ioQ, pds[..i + 1])
      ensures rc == 0 || (rc == -1 && refuse)
      ensures rc == 0 ==> Adding(pds, i + 1)
      ensures rc == -1 ==>
        Follows(fdData, interest, pds[i].fd) && evtlistCnt == |interest| <= evtlistSize && evtlistSize > 0
      ensures rc == -1 ==> LastIsStale(pds[..i + 1], ioQ, fdData, interest)
    {
      ghost var data := fdData;
      assert InSync(data[pds[i].fd], interest, pds[i].fd);
      rc := Raise(pds[i], refuse);
      forall fd, k | 0 <= fd < |fdData| && k in {POLLIN, POLLOUT, POLLPRI}
        ensures Cnt(fdData[fd], k) == Total(ioQ, fd, k) + Tally(pds[..i + 1], fd, k)
      {
        TallyStep(pds, i, fd, k);
      }
      if rc == -1 {
        RefusedIsStale(pds, i, ioQ, data[pds[i].fd], fdData, interest);
      }
    }

    /**
     * _st_epoll_pollset_add; refuse is the descriptor at which the kernel fails epoll_ctl, if it is asked there. A
     * refused request leaves counts, interest set and event count as they were.
     */
    method PollsetAdd(thread: int, pds: seq<PollFd>, refuse: int) returns (result: int)
      requires Valid()
      modifies `fdData, `interest, `evtlistCnt, `evtlistSize
      ensures result == 0 ==> Acceptable(pds) && Mirrors(ioQ + [Request(thread, pds)])
      ensures result != 0 ==> result == -1 && Mirrors(ioQ) && (!Acceptable(pds) || 0 <= refuse < |pds|)
    {
      var ok := Check(pds);
      if !ok { return -1; }
      assert pds[..0] == [];
      result := AddAll(pds, refuse);
      AddedRequest(ioQ, Request(thread, pds), |fdData|);
    }

    method AddAll(pds: seq<PollFd>, refuse: int) returns (result: int)
      requires Adding(pds, 0) && AllPollable(ioQ, |fdData|)
      modifies `fdData, `interest, `evtlistCnt, `evtlistSize
      ensures |fdData| == |old(fdData)|
      ensures result == 0 ==> Adding(pds, |pds|) && CountsWith(ioQ, pds)
      ensures result != 0 ==> result == -1 && Mirrors(ioQ) && 0 <= refuse < |pds|
    {
      var i := 0;
      while i < |pds|
        invariant i <= |pds| && Adding(pds, i) && |fdData| == |old(fdData)|
      {
        var rc := AddTurn(pds, i, i == refuse);
        if rc < 0 {
          PollsetDel(pds[..i + 1], ioQ, true);
          return -1;
        }
        i := i + 1;
      }
      assert pds[..i] == pds;
      result := 0;
    }

    /** The first loop of dispatch: notes what epoll_wait reported. */
    method Note(fired: seq<(int, set<Flag>)>)
      requires Follows(fdData, interest, -1) && Quiet() && forall i :: 0 <= i < |fired| ==> fired[i].0 in interest
      modifies `fdData
      ensures Follows(fdData, interest, -1) && |fdData| == |old(fdData)|
      ensures forall fd :: 0 <= fd < |fdData| ==> fdData[fd] == Noted(old(fdData)[fd], Heard(fired, fd))
      ensures forall fd :: 0 <= fd < |fdData| && fdData[fd].revents != {} ==> IsFired(fired, 0, fd)
    {
      var i := 0;
      assert fired[..i] == [];
      while i < |fired|
        invariant i <= |fired| && |fdData| == |old(fdData)|
        invariant forall fd :: 0 <= fd < |fdData| ==> fdData[fd] == Noted(old(fdData)[fd], Heard(fired[..i], fd))
      {
        var osfd := fired[i].0;
        assert fired[..i + 1][..i] == fired[..i];
        fdData := fdData[osfd := fdData[osfd].(revents := fired[i].1)];
        if fdData[osfd].revents * {POLLERR, POLLHUP} != {} {
          fdData := fdData[osfd := fdData[osfd].(revents := fdData[osfd].revents + Events(fdData[osfd]))];
        }
        i := i + 1;
      }
      assert fired[..i] == fired;
      forall fd | 0 <= fd < |fdData|
        ensures Events(fdData[fd]) == Events(old(fdData)[fd]) && (fdData[fd].revents != {} ==> IsFired(fired, 0, fd))
      {
        HeardIsFired(fired, fd);
      }
      NotedFollows(old(fdData), interest, fdData, fired);
    }

    /** The last loop of dispatch: puts the descriptors that fired back in step. */
    method Settle(fired: seq<(int, set<Flag>)>)
      requires Follows(fdData, interest, -1) && evtlistCnt == |interest| && forall i :: 0 <= i < |fired| ==>
        0 <= fired[i].0 < |fdData|
      requires forall fd :: 0 <= fd < |fdData| && fdData[fd].revents != {} ==> IsFired(fired, 0, fd)
      modifies `fdData, `interest, `evtlistCnt
      ensures Follows(fdData, interest, -1) && evtlistCnt == |interest| <= old(evtlistCnt) && Quiet()
      ensures |fdData| == |old(fdData)|
      ensures forall fd :: 0 <= fd < |fdData| ==> fdData[fd] == old(fdData)[fd].(revents := {})
    {
      var i := 0;
      while i < |fired|
        invariant i <= |fired| && Settling(old(fdData), fired, i, fdData, interest)
        invariant evtlistCnt == |interest| <= old(evtlistCnt)
      {
        SettleTurn(fired, i, old(fdData));
        i := i + 1;
      }
    }

    /** One turn of it. */
    method SettleTurn(fired: seq<(int, set<Flag>)>, i: nat, ghost data0: seq<FdData>)
      requires Settling(data0, fired, i, fdData, interest) && i < |fired| && 0 <= fired[i].0 < |fdData|
      requires evtlistCnt == |interest|
      modifies `fdData, `interest, `evtlistCnt
      ensures Settling(data0, fired, i + 1, fdData, interest) && evtlistCnt == |interest| <= old(evtlistCnt)
    {
      var osfd := fired[i].0;
      SettlesOne(data0, fired, i, fdData, interest);
      fdData := fdData[osfd := fdData[osfd].(revents := {})];
      Retell(osfd, Events(fdData[osfd]));
    }

    /** One turn of the walk of dispatch, for request i. */
    method Turn(i: nat, ghost o: Outcome) returns (notify: bool)
      requires Walking(o) && i < |ioQ|
      modifies this
      ensures Walking(o) && SameRevents(old(fdData), fdData) && evtlistSize == old(evtlistSize)
      ensures evtlistCnt <= old(evtlistCnt)
      ensures var r := Answer(old(ioQ)[i], o);
        && (notify <==> Notified(r.pds))
        && if notify then ioQ == old(ioQ)[..i] + old(ioQ)[i + 1..] && runQ == old(runQ) + [r]
           else ioQ == old(ioQ)[..i] + [r] + old(ioQ)[i + 1..] && runQ == old(runQ)
    {
      var answer, found := Scan(ioQ[i].pds, o);
      notify := found;
      Dispose(i, answer, notify, o);
    }

    /** During the walk of dispatch, with o what was noted. */
    ghost predicate Walking(o: Outcome)
      reads this
    {
      && Follows(fdData, interest, -1) && evtlistCnt == |interest| && Counts(ioQ) && AllPollable(ioQ, |fdData|)
      && o.Polled? && |o.events| == |fdData| && forall fd :: 0 <= fd < |fdData| ==> fdData[fd].revents == o.events[fd]
    }

    method Scan(pds: seq<PollFd>, ghost o: Outcome) returns (answer: seq<PollFd>, notify: bool)
      requires Walking(o) && forall i :: 0 <= i < |pds| ==> 0 <= pds[i].fd < |fdData| && Pollable(pds[i])
      ensures answer == Reported(pds, o) && (notify <==> Notified(answer))
    {
      answer, notify := pds, false;
      var i := 0;
      while i < |pds|
        invariant i <= |pds| && |answer| == |pds|
        invariant forall j :: 0 <= j < |pds| ==> answer[j] == if j < i then Report(pds[j], o) else pds[j]
        invariant notify <==> exists j :: 0 <= j < i && answer[j].revents != {}
      {
        var revents := ScanOne(pds[i], o);
        if revents != {} { notify := true; }
        answer := answer[i := pds[i].(revents := revents)];
        i := i + 1;
      }
    }

    method ScanOne(pd: PollFd, ghost o: Outcome) returns (revents: set<Flag>)
      requires 0 <= pd.fd < |fdData| && Pollable(pd) && o.Polled? && EventsAt(o, pd.fd) == fdData[pd.fd].revents
      ensures revents == Report(pd, o).revents
    {
      var events, fired := pd.events, fdData[pd.fd].revents;
      revents := {};
      if fired == {} { return; }
      if POLLIN in events && POLLIN in fired { revents := revents + {POLLIN}; }
      if POLLOUT in events && POLLOUT in fired { revents := revents + {POLLOUT}; }
      if POLLPRI in events && POLLPRI in fired { revents := revents + {POLLPRI}; }
      if POLLERR in fired { revents := revents + {POLLERR}; }
      if POLLHUP in fired { revents := revents + {POLLHUP}; }
    }

    method Dispose(i: nat, answer: seq<PollFd>, notify: bool, ghost o: Outcome)
      requires Walking(o) && i < |ioQ| && SameAsked(answer, ioQ[i].pds)
      modifies this
      ensures Walking(o) && SameRevents(old(fdData), fdData) && evtlistSize == old(evtlistSize)
      ensures evtlistCnt <= old(evtlistCnt)
      ensures var r := old(ioQ)[i].(pds := answer);
        if notify then ioQ == old(ioQ)[..i] + old(ioQ)[i + 1..] && runQ == old(runQ) + [r]
        else ioQ == old(ioQ)[..i] + [r] + old(ioQ)[i + 1..] && runQ == old(runQ)
    {
      ghost var rest := ioQ[..i] + ioQ[i + 1..];
      var pds, r := ioQ[i].pds, ioQ[i].(pds := answer);
      PollableAt(ioQ, i, r, |fdData|);
      if notify {
        forall fd, k ensures Total(ioQ, fd, k) == Total(rest, fd, k) + Tally(pds, fd, k) {
          TotalSplit(ioQ, i, fd, k);
        }
        ioQ := ioQ[..i] + ioQ[i + 1..];
        PollsetDel(pds, rest, false);
        runQ := runQ + [r];
      } else {
        forall fd, k ensures Total(ioQ[..i] + [r] + ioQ[i + 1..], fd, k) == Total(ioQ, fd, k) {
          TotalReplace(ioQ, i, r, fd, k);
        }
        assert ioQ[i := r] == ioQ[..i] + [r] + ioQ[i + 1..];
        ioQ := ioQ[i := r];
      }
    }

    method Walk(ghost o: Outcome, ghost w: int -> (seq<Request>, seq<Request>))
      requires Walking(o) && IsPass(w, ioQ, o)
      modifies this
      ensures Walking(o) && SameRevents(old(fdData), fdData) && evtlistSize == old(evtlistSize)
      ensures evtlistCnt <= old(evtlistCnt)
      ensures ioQ == w(|old(ioQ)|).0 && runQ == old(runQ) + w(|old(ioQ)|).1
    {
      ghost var q, j := ioQ, 0;
      var i := 0;
      while i < |ioQ|
        invariant j <= |q| && i == |w(j).0| && ioQ == w(j).0 + q[j..] && runQ == old(runQ) + w(j).1
        invariant Walking(o) && SameRevents(old(fdData), fdData) && evtlistSize == old(evtlistSize)
        invariant evtlistCnt <= old(evtlistCnt)
        decreases |q| - j
      {
        SplitAt(w(j).0, q, j, Answer(q[j], o));
        assert ioQ[i] == q[j];
        var notify := Turn(i, o);
        assert PassAt(w, q, o, j);
        if !notify { i := i + 1; }
        j := j + 1;
      }
    }

    /** _st_epoll_dispatch, given the events that epoll_wait reported on descriptors of the interest set. */
    method Dispatch(fired: seq<(int, set<Flag>)>)
      requires Valid() && forall i :: 0 <= i < |fired| ==> fired[i].0 in interest
      modifies this
      ensures Valid()
      ensures fired != [] ==>
        var o := WhatFired(old(fdData), fired); ioQ == Left(old(ioQ), o) && runQ == old(runQ) + Fired(old(ioQ), o)
      ensures fired == [] ==> ioQ == old(ioQ) && runQ == old(runQ)
      ensures old(runQ) <= runQ && (fired != [] ==> FiredPass(old(ioQ), ioQ, runQ[|old(runQ)|..], fired))
    {
      if |fired| > 0 {
        FiredAsTold(fired);
        DispatchFired(fired);
        assert runQ[|old(runQ)|..] == Fired(old(ioQ), WhatFired(old(fdData), fired));
      }
    }

    /** All of it, if there are reports. */
    method DispatchFired(fired: seq<(int, set<Flag>)>)
      requires Valid() && forall i :: 0 <= i < |fired| ==> fired[i].0 in interest
      modifies this
      ensures Valid()
      ensures var o := WhatFired(old(fdData), fired);
        ioQ == Left(old(ioQ), o) && runQ == old(runQ) + Fired(old(ioQ), o)
    {
      ghost var o := WhatFired(fdData, fired);
      Hear(fired, o);
      Walk(o, PassOf(ioQ, o));
      Quieten(fired, o);
    }

    /** What queued requests ask for is counted. */
    lemma AskedIsCounted()
      requires Valid()
      ensures forall q, pd :: q in ioQ && pd in q.pds ==>
        0 <= pd.fd < |fdData| && Pollable(pd) && pd.events <= Events(fdData[pd.fd])
    {
      forall q, pd, k | q in ioQ && pd in q.pds && k in pd.events
        ensures 0 <= pd.fd < |fdData| && k in Events(fdData[pd.fd])
      {
        assert Pollable(pd);
        TotalPositive(ioQ, pd.fd, k);
        EventsHave(fdData[pd.fd], k);
      }
    }

    lemma FiredAsTold(fired: seq<(int, set<Flag>)>)
      requires Valid()
      ensures var o := WhatFired(fdData, fired); FiredPass(ioQ, Left(ioQ, o), Fired(ioQ, o), fired)
    {
      AskedIsCounted();
      FiredPassed(ioQ, fdData, fired);
    }

    /** Its first loop leaves everything ready for the walk. */
    method Hear(fired: seq<(int, set<Flag>)>, ghost o: Outcome)
      requires Valid() && o == WhatFired(fdData, fired) && forall i :: 0 <= i < |fired| ==> fired[i].0 in interest
      modifies `fdData
      ensures Walking(o) && |fdData| == |old(fdData)|
      ensures forall i :: 0 <= i < |fired| ==> 0 <= fired[i].0 < |fdData|
      ensures forall fd :: 0 <= fd < |fdData| && fdData[fd].revents != {} ==> IsFired(fired, 0, fd)
    {
      Note(fired);
    }

    /** Its last loop ends the walk. */
    method Quieten(fired: seq<(int, set<Flag>)>, ghost o: Outcome)
      requires Walking(o) && |fdData| > 0 && evtlistCnt <= evtlistSize && evtlistSize > 0
      requires forall i :: 0 <= i < |fired| ==> 0 <= fired[i].0 < |fdData|
      requires forall fd :: 0 <= fd < |fdData| && fdData[fd].revents != {} ==> IsFired(fired, 0, fd)
      modifies `fdData, `interest, `evtlistCnt
      ensures Valid()
    {
      Settle(fired);
    }

    /** st_poll up to its switch: the request joins the I/O queue. */
    method PollBegins(thread: int, pds: seq<PollFd>, refuse: int) returns (result: int)
      requires Valid()
      modifies this
      ensures Valid() && runQ == old(runQ) && (result == 0 || result == -1)
      ensures Acceptable(pds) && !(0 <= refuse < |pds|) ==> result == 0
      ensures result == 0 ==> Acceptable(pds)
      ensures ioQ == if result == 0 then old(ioQ) + [Request(thread, pds)] else old(ioQ)
    {
      result := PollsetAdd(thread, pds, refuse);
      if result == 0 { ioQ := ioQ + [Request(thread, pds)]; }
    }

    /** The end of st_poll for a request still on the I/O queue, at position i. */
    method PollEnds(i: nat)
      requires Valid() && i < |ioQ|
      modifies `ioQ, `fdData, `interest, `evtlistCnt
      ensures Valid() && ioQ == old(ioQ)[..i] + old(ioQ)[i + 1..]
    {
      ghost var rest := ioQ[..i] + ioQ[i + 1..];
      var pds := ioQ[i].pds;
      PollableAt(ioQ, i, ioQ[i], |fdData|);
      forall fd, k ensures Total(ioQ, fd, k) == Total(rest, fd, k) + Tally(pds, fd, k) {
        TotalSplit(ioQ, i, fd, k);
      }
      ioQ := ioQ[..i] + ioQ[i + 1..];
      PollsetDel(pds, rest, false);
    }

    /** _st_epoll_fd_close: EBUSY exactly if some queued request names the descriptor. */
    method FdClose(osfd: int) returns (result: int)
      requires Valid() && 0 <= osfd < |fdData|
      ensures result == -1 <==> exists r, pd :: r in ioQ && pd in r.pds && pd.fd == osfd
      ensures result == 0 || result == -1
    {
      forall k
        ensures Total(ioQ, osfd, k) > 0 <==> exists r, pd :: r in ioQ && pd in r.pds && pd.fd == osfd && k in pd.events
      {
        TotalPositive(ioQ, osfd, k);
      }
      assert POLLIN in {POLLIN, POLLOUT, POLLPRI} && POLLOUT in {POLLIN, POLLOUT, POLLPRI};
      assert POLLPRI in {POLLIN, POLLOUT, POLLPRI};
      var d := fdData[osfd];
      assert Cnt(d, POLLIN) == d.rd && Cnt(d, POLLOUT) == d.wr && Cnt(d, POLLPRI) == d.ex;
      if d.rd != 0 || d.wr != 0 || d.ex != 0 { return -1; }
      result := 0;
    }

    /** The kernel waits on a descriptor for exactly the events that queued requests ask of it. */
    lemma InterestIsExact(fd: int, k: Flag)
      requires Valid()
      ensures (fd in interest && k in interest[fd]) <==>
        exists r, pd :: r in ioQ && pd in r.pds && pd.fd == fd && k in pd.events
    {
      TotalPositive(ioQ, fd, k);
      if 0 <= fd < |fdData| {
        assert InSync(fdData[fd], interest, fd);
        if k in {POLLIN, POLLOUT, POLLPRI} { EventsHave(fdData[fd], k); }
      }
    }

    ghost predicate CountsWith(rest: seq<Request>, pds: seq<PollFd>)
      reads this
    {
      forall fd, k :: 0 <= fd < |fdData| && k in {POLLIN, POLLOUT, POLLPRI} ==>
        Cnt(fdData[fd], k) == Total(rest, fd, k) + Tally(pds, fd, k)
    }
  }

  predicate Acceptable(pds: seq<PollFd>) {
    forall i :: 0 <= i < |pds| ==> pds[i].fd >= 0 && Pollable(pds[i])
  }

  predicate PdsOk(pds: seq<PollFd>, size: int) {
    forall i :: 0 <= i < |pds| ==> 0 <= pds[i].fd < size && Pollable(pds[i])
  }

  predicate SameRevents(a: seq<FdData>, b: seq<FdData>) {
    |a| == |b| && forall fd :: 0 <= fd < |a| ==> a[fd].revents == b[fd].revents
  }

  /** Nothing but the last of pds waits for one of its flags; nor for its descriptor, if that is not in the set. */
  ghost predicate LastIsStale(pds: seq<PollFd>, rest: seq<Request>, data: seq<FdData>, interest: Interest) {
    |pds| > 0 && var n, last := |pds| - 1, pds[|pds| - 1];
    && 0 <= last.fd < |data| && data[last.fd].revents == {}
    && (exists k :: k in last.events && Total(rest, last.fd, k) == 0 && Tally(pds[..n], last.fd, k) == 0)
    && (last.fd !in interest ==>
         forall k :: k in {POLLIN, POLLOUT, POLLPRI} ==>
           Total(rest, last.fd, k) == 0 && Tally(pds[..n], last.fd, k) == 0)
  }

  lemma StaleStays(pds: seq<PollFd>, rest: seq<Request>, data: seq<FdData>, m: Interest, data': seq<FdData>,
                   m': Interest)
    requires LastIsStale(pds, rest, data, m) && SameRevents(data, data')
    requires var x := pds[|pds| - 1].fd; x in m <==> x in m'
    ensures LastIsStale(pds, rest, data', m')
  {
  }

  /** What turn i of the deletion of a stale request does to its last descriptor. */
  lemma StaleTurn(pds: seq<PollFd>, i: nat, rest: seq<Request>, data: seq<FdData>, interest: Interest)
    requires PdsOk(pds, |data|) && i < |pds| && LastIsStale(pds, rest, data, interest)
    requires var x := pds[|pds| - 1].fd; forall k :: k in {POLLIN, POLLOUT, POLLPRI} ==>
      Cnt(data[x], k) == Total(rest, x, k) + Tally(pds, x, k) - Tally(pds[..i], x, k)
    ensures var x, d := pds[|pds| - 1].fd, Plus(data[pds[i].fd], pds[i].events, -1);
      && (pds[i].fd == x ==> x in interest || Events(d) == {})
      && (i < |pds| - 1 ==> Events(if pds[i].fd == x then d else data[x]) != {})
      && (i == |pds| - 1 ==> Events(d) != Events(data[x]))
  {
    var n, x, pd := |pds| - 1, pds[|pds| - 1].fd, pds[i];
    var d := Plus(data[pd.fd], pd.events, -1);
    var k0 :| k0 in pds[n].events && Total(rest, x, k0) == 0 && Tally(pds[..n], x, k0) == 0;
    assert k0 in {POLLIN, POLLOUT, POLLPRI};
    forall k | k in {POLLIN, POLLOUT, POLLPRI}
      ensures Tally(pds, x, k) == Tally(pds[..n], x, k) + Step(k, pds[n].events)
      ensures i < n ==> Tally(pds[..i], x, k) + (if pd.fd == x then Step(k, pd.events) else 0) <= Tally(pds[..n], x, k)
    {
      TallyStep(pds, n, x, k);
      assert pds[..n + 1] == pds;
      if i < n {
        TallyStep(pds, i, x, k);
        TallyPart(pds[..n], i + 1, x, k);
        assert pds[..n][..i + 1] == pds[..i + 1];
      }
    }
    EventsHave(data[x], k0);
    EventsHave(d, k0);
  }

  lemma EventsHave(d: FdData, k: Flag)
    requires k in {POLLIN, POLLOUT, POLLPRI}
    ensures k in Events(d) <==> Cnt(d, k) != 0
  {
  }

  lemma RefusedIsStale(pds: seq<PollFd>, i: nat, rest: seq<Request>, d: FdData, data: seq<FdData>, interest: Interest)
    requires i < |pds| && PdsOk(pds, |data|) && d.revents == {} && InSync(d, interest, pds[i].fd)
    requires data[pds[i].fd] == Plus(d, pds[i].events, 1) && Events(data[pds[i].fd]) != Events(d)
    requires forall k :: k in {POLLIN, POLLOUT, POLLPRI} ==>
      Cnt(d, k) == Total(rest, pds[i].fd, k) + Tally(pds[..i], pds[i].fd, k)
    ensures LastIsStale(pds[..i + 1], rest, data, interest)
  {
    var pd := pds[i];
    assert pds[..i + 1][..i] == pds[..i];
    assert Cnt(d, POLLIN) >= 0 && Cnt(d, POLLOUT) >= 0 && Cnt(d, POLLPRI) >= 0;
    var k: Flag := if d.rd == 0 && POLLIN in pd.events then POLLIN
      else if d.wr == 0 && POLLOUT in pd.events then POLLOUT else POLLPRI;
    assert k in pd.events && Cnt(d, k) == 0;
    forall k | k in {POLLIN, POLLOUT, POLLPRI} && pd.fd !in interest ensures Cnt(d, k) == 0 {
      EventsHave(d, k);
    }
  }

  lemma AddedRequest(q: seq<Request>, r: Request, size: int)
    requires AllPollable(q, size) && PdsOk(r.pds, size)
    ensures AllPollable(q + [r], size)
    ensures forall fd, k :: Total(q + [r], fd, k) == Total(q, fd, k) + Tally(r.pds, fd, k)
  {
    forall fd, k ensures Total(q + [r], fd, k) == Total(q, fd, k) + Tally(r.pds, fd, k) {
      TotalConcat(q, [r], fd, k);
    }
  }

  // ---------- What fired ----------

  /** The last report on a descriptor. */
  function Heard(fired: seq<(int, set<Flag>)>, fd: int): set<Flag> {
    if fired == [] then {} else if fired[|fired| - 1].0 == fd then fired[|fired| - 1].1
    else Heard(fired[..|fired| - 1], fd)
  }

  /** An error or hang-up counts as every event waited for. */
  function Noted(d: FdData, heard: set<Flag>): FdData {
    d.(revents := if heard * {POLLERR, POLLHUP} != {} then heard + Events(d) else heard)
  }

  function WhatFired(data: seq<FdData>, fired: seq<(int, set<Flag>)>): Outcome {
    Polled(seq(|data|, fd requires 0 <= fd < |data| => Noted(data[fd], Heard(fired, fd)).revents))
  }

  /** The last report on a descriptor is number j. */
  predicate LastReport(fired: seq<(int, set<Flag>)>, j: int, fd: int) {
    0 <= j < |fired| && fired[j].0 == fd && forall l :: j < l < |fired| ==> fired[l].0 != fd
  }

  /**
   * What epoll_wait reported of a request: by the last report on its descriptor, each flag asked for, an error and a
   * hang-up; on an error or a hang-up, all flags asked for. Nothing without a report.
   */
  ghost predicate FiredAnswer(a: Request, q: Request, fired: seq<(int, set<Flag>)>) {
    && SameRequest(a, q)
    && forall i, k :: 0 <= i < |q.pds| ==>
         (k in a.pds[i].revents <==>
           exists j :: LastReport(fired, j, q.pds[i].fd) && Concerned(fired[j].1, q.pds[i].events, k))
  }

  predicate Concerned(reported: set<Flag>, events: set<Flag>, k: Flag) {
    || (k in reported && (k in events || k == POLLERR || k == POLLHUP))
    || (k in events && (POLLERR in reported || POLLHUP in reported))
  }

  /** A pass after epoll_wait: every request of q is answered, and woken or left in order. */
  ghost predicate FiredPass(q: seq<Request>, left: seq<Request>, woken: seq<Request>, fired: seq<(int, set<Flag>)>) {
    exists answers: seq<Request> ::
      && |answers| == |q| && (forall i :: 0 <= i < |q| ==> FiredAnswer(answers[i], q[i], fired))
      && Splits(answers, left, woken)
  }

  lemma {:induction false} HeardIsLast(fired: seq<(int, set<Flag>)>, fd: int)
    ensures (forall j :: 0 <= j < |fired| ==> fired[j].0 != fd) ==> Heard(fired, fd) == {}
    ensures forall j :: LastReport(fired, j, fd) ==> Heard(fired, fd) == fired[j].1
    ensures (exists j :: LastReport(fired, j, fd)) || forall j :: 0 <= j < |fired| ==> fired[j].0 != fd
  {
    if fired != [] {
      var n := |fired| - 1;
      if fired[n].0 == fd {
        assert LastReport(fired, n, fd);
      } else {
        HeardIsLast(fired[..n], fd);
        forall j ensures LastReport(fired, j, fd) <==> LastReport(fired[..n], j, fd) {}
      }
    }
  }

  lemma ErrorHeard(heard: set<Flag>)
    ensures heard * {POLLERR, POLLHUP} != {} <==> POLLERR in heard || POLLHUP in heard
  {
    if POLLERR in heard {
      assert POLLERR in heard * {POLLERR, POLLHUP};
    } else if POLLHUP in heard {
      assert POLLHUP in heard * {POLLERR, POLLHUP};
    }
  }

  lemma OneLast(fired: seq<(int, set<Flag>)>, i: int, j: int, fd: int)
    requires LastReport(fired, i, fd) && LastReport(fired, j, fd)
    ensures i == j
  {
  }

  lemma FlagReported(fired: seq<(int, set<Flag>)>, pd: PollFd, data: seq<FdData>, k: Flag)
    requires 0 <= pd.fd < |data| && Pollable(pd) && pd.events <= Events(data[pd.fd])
    ensures k in Report(pd, WhatFired(data, fired)).revents <==>
      exists j :: LastReport(fired, j, pd.fd) && Concerned(fired[j].1, pd.events, k)
  {
    HeardIsLast(fired, pd.fd);
    assert EventsAt(WhatFired(data, fired), pd.fd) == Noted(data[pd.fd], Heard(fired, pd.fd)).revents;
    if j :| LastReport(fired, j, pd.fd) {
      var heard := fired[j].1;
      ErrorHeard(heard);
      forall l | LastReport(fired, l, pd.fd) ensures l == j {
        OneLast(fired, l, j, pd.fd);
      }
    }
  }

  lemma FiredPassed(q: seq<Request>, data: seq<FdData>, fired: seq<(int, set<Flag>)>)
    requires forall r, pd :: r in q && pd in r.pds ==>
      0 <= pd.fd < |data| && Pollable(pd) && pd.events <= Events(data[pd.fd])
    ensures FiredPass(q, Left(q, WhatFired(data, fired)), Fired(q, WhatFired(data, fired)), fired)
  {
    var o := WhatFired(data, fired);
    AnswersAt(q, o);
    PassSplits(q, o);
    forall i | 0 <= i < |q| ensures FiredAnswer(Answers(q, o)[i], q[i], fired) {
      assert q[i] in q;
      forall l, k | 0 <= l < |q[i].pds| ensures k in Answer(q[i], o).pds[l].revents <==>
        exists j :: LastReport(fired, j, q[i].pds[l].fd) && Concerned(fired[j].1, q[i].pds[l].events, k)
      {
        assert q[i].pds[l] in q[i].pds;
        assert Answer(q[i], o).pds[l] == Report(q[i].pds[l], o);
        FlagReported(fired, q[i].pds[l], data, k);
      }
    }
  }

  ghost predicate IsFired(fired: seq<(int, set<Flag>)>, i: nat, fd: int) {
    exists j :: i <= j < |fired| && fired[j].0 == fd
  }

  lemma {:induction false} HeardIsFired(fired: seq<(int, set<Flag>)>, fd: int)
    ensures Heard(fired, fd) != {} ==> IsFired(fired, 0, fd)
  {
    if fired != [] && fired[|fired| - 1].0 != fd {
      HeardIsFired(fired[..|fired| - 1], fd);
      if Heard(fired, fd) != {} {
        var j :| 0 <= j < |fired| - 1 && fired[..|fired| - 1][j].0 == fd;
        assert fired[j].0 == fd;
      }
    }
  }

  lemma NotedFollows(data: seq<FdData>, interest: Interest, data': seq<FdData>, fired: seq<(int, set<Flag>)>)
    requires Follows(data, interest, -1) && |data| == |data'| && forall i :: 0 <= i < |fired| ==> fired[i].0 in interest
    requires forall fd :: 0 <= fd < |data| ==> data[fd].revents == {}
    requires forall fd :: 0 <= fd < |data| ==>
      Events(data'[fd]) == Events(data[fd]) && (data'[fd].revents != {} ==> IsFired(fired, 0, fd))
    ensures Follows(data', interest, -1)
  {
    forall fd | 0 <= fd < |data| ensures InSync(data'[fd], interest, fd) {
      assert InSync(data[fd], interest, fd);
    }
  }

  lemma PollableAt(q: seq<Request>, i: nat, r: Request, size: int)
    requires AllPollable(q, size) && i < |q| && SameAsked(r.pds, q[i].pds)
    ensures PdsOk(q[i].pds, size) && AllPollable(q[..i] + q[i + 1..], size)
    ensures AllPollable(q[..i] + [r] + q[i + 1..], size)
  {
    assert q[i] in q;
    forall j | 0 <= j < |q[i].pds| ensures 0 <= q[i].pds[j].fd < size && Pollable(q[i].pds[j]) {
      assert q[i].pds[j] in q[i].pds;
    }
    forall pd | pd in r.pds ensures 0 <= pd.fd < size && Pollable(pd) {
      var j :| 0 <= j < |r.pds| && r.pds[j] == pd;
    }
  }

  /** On an error or hang-up every request waiting for the descriptor is woken, with all the flags it asked for. */
  lemma {:induction false} ErrorsWakeAll(data: seq<FdData>, fired: seq<(int, set<Flag>)>, pds: seq<PollFd>, i: nat)
    requires i < |pds| && 0 <= pds[i].fd < |data| && pds[i].events <= Events(data[pds[i].fd])
    requires Heard(fired, pds[i].fd) * {POLLERR, POLLHUP} != {}
    ensures var r := Reported(pds, WhatFired(data, fired)); Notified(r) && pds[i].events <= r[i].revents
  {
    var o := WhatFired(data, fired);
    var r := Reported(pds, o);
    assert EventsAt(o, pds[i].fd) == Heard(fired, pds[i].fd) + Events(data[pds[i].fd]);
    assert r[i] == Report(pds[i], o);
    var e :| e in Heard(fired, pds[i].fd) * {POLLERR, POLLHUP};
    assert e in r[i].revents;
  }
}
