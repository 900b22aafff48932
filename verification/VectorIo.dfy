/**
 * Short transfers in io.c: the loops that finish a read or a write, against a kernel that moves any part of what it is
 * given, is interrupted, is not ready, or fails.
 */
module VectorIo {
  import opened Triggers

  const LOCAL_MAXIOV := 16

  /** A stretch of memory: an address and a length. */
  datatype Iovec = Iovec(base: int, len: nat)

  /** The addresses that an I/O vector names, in order. */
  function Range(v: Iovec): (r: seq<int>)
    ensures |r| == v.len && forall i :: 0 <= i < v.len ==> r[i] == v.base + i
  {
    seq(v.len, i => v.base + i)
  }

  function Addrs(v: seq<Iovec>): seq<int> {
    if v == [] then [] else Range(v[0]) + Addrs(v[1..])
  }

  /** The addresses that the vectors name; the lemmas NamesAre and NamesOf unfold it. */
  ghost predicate Names(v: seq<Iovec>, a: seq<int>) {
    forall u {:trigger Opened(u)} :: Opened(u) ==> Addrs(v) == a
  }

  lemma NamesAre(v: seq<Iovec>, a: seq<int>)
    requires Names(v, a)
    ensures Addrs(v) == a
  {
    assert Opened(0);
  }

  /** The vectors name at most k addresses; OpenAtMost unfolds it. */
  ghost predicate AtMost(v: seq<Iovec>, k: int) {
    forall u {:trigger Opened(u)} :: Opened(u) ==> |Addrs(v)| <= k
  }

  lemma OpenAtMost(v: seq<Iovec>, k: int)
    requires AtMost(v, k)
    ensures |Addrs(v)| <= k
  {
    assert Opened(0);
  }

  lemma NamesAgree(v: seq<Iovec>, a: seq<int>, b: seq<int>)
    requires Names(v, a) && Names(v, b)
    ensures a == b
  {
    assert Opened(0);
  }

  lemma {:induction false} AddrsConcat(v: seq<Iovec>, w: seq<Iovec>)
    ensures Addrs(v + w) == Addrs(v) + Addrs(w)
  {
    if v == [] {
      assert v + w == w;
    } else {
      assert (v + w)[1..] == v[1..] + w;
      AddrsConcat(v[1..], w);
    }
  }

  /** What the kernel does next. */
  datatype Event = Moves(n: nat) | Interrupts | NotReady | Fails

  /** The result of a transfer, with errno. */
  datatype Result = Done(n: nat) | Eintr | Eagain | Eother

  predicate InMemory(a: seq<int>, size: int) {
    forall i :: 0 <= i < |a| ==> 0 <= a[i] < size
  }

  /** The bytes at some addresses. */
  function Gather(m: seq<int>, a: seq<int>): (r: seq<int>)
    requires InMemory(a, |m|)
    ensures |r| == |a| && forall i :: 0 <= i < |a| ==> r[i] == m[a[i]]
  {
    seq(|a|, i requires 0 <= i < |a| => m[a[i]])
  }

  lemma GatherStep(m: seq<int>, a: seq<int>, k0: nat, k: nat)
    requires InMemory(a, |m|) && k0 <= k <= |a|
    ensures Gather(m, a[..k]) == Gather(m, a[..k0]) + Gather(m, a[k0..k])
  {
  }

  ghost predicate Distinct(a: seq<int>) {
    forall i, j :: 0 <= i < j < |a| ==> a[i] != a[j]
  }

  function UsedUp(v: Iovec): Iovec {
    Iovec(v.base + v.len, 0)
  }

  ghost predicate RestAt(rest: int -> seq<int>, v: seq<Iovec>, p: int) {
    0 <= p < |v| ==> rest(p) == Range(v[p]) + rest(p + 1)
  }

  /** rest(p) are the addresses from vector p on. */
  ghost predicate Rests(rest: int -> seq<int>, v: seq<Iovec>) {
    rest(|v|) == [] && forall p {:trigger RestAt(rest, v, p)} :: RestAt(rest, v, p)
  }

  ghost function RestsOf(v: seq<Iovec>): (rest: int -> seq<int>)
    ensures Rests(rest, v) && forall p {:trigger rest(p)} :: 0 <= p <= |v| ==> Names(v[p..], rest(p))
  {
    var rest := (p: int) => if 0 <= p <= |v| then Addrs(v[p..]) else [];
    RestsFacts(v, rest);
    rest
  }

  lemma RestsFacts(v: seq<Iovec>, rest: int -> seq<int>)
    requires forall p :: 0 <= p <= |v| ==> rest(p) == Addrs(v[p..])
    ensures Rests(rest, v)
  {
    forall p ensures RestAt(rest, v, p) {
      if 0 <= p < |v| { assert v[p..][1..] == v[p + 1..]; }
    }
  }

  class Descriptor {
    const mem: array<int>
    var script: seq<Event>  // the kernel's behaviour until it fails for good
    var sent: seq<int>
    var input: seq<int>
    var eof: bool           // a read has returned 0
    ghost var failed: bool  // a transfer or a poll has failed
    ghost var mayPoll: bool // the last transfer moved something or was not ready, and there was no poll since

    method NextEvent() returns (e: Event)
      modifies `script, `failed
      ensures e == (if old(script) == [] then Fails else old(script)[0])
      ensures script == if old(script) == [] then [] else old(script)[1..]
      ensures failed == (old(failed) || e == Fails)
    {
      if script == [] {
        failed := true;
        return Fails;
      }
      e := script[0];
      script := script[1..];
      failed := failed || e == Fails;
    }

    /** The vectors start..end, of which size are left: each ends where it did in v, and only these name anything. */
    ghost predicate Shortened(iov: array<Iovec>, v: seq<Iovec>, start: int, end: int, size: int)
      reads iov
    {
      && |v| == iov.Length && 0 <= start <= end - size <= end <= iov.Length
      && (forall j :: 0 <= j < iov.Length ==> iov[j].base + iov[j].len == v[j].base + v[j].len)
      && (forall j :: start <= j < end - size ==> iov[j].len == 0)
      && (size > 0 && v[end - 1].len > 0 ==> iov[end - 1].len > 0)
    }

    /** The first k bytes of what was asked for have been sent. */
    ghost predicate Sent(before: seq<int>, all: seq<int>, k: int)
      reads `sent, mem
    {
      InMemory(all, mem.Length) && 0 <= k <= |all| && sent == before + Gather(mem[..], all[..k])
    }

    method Take(addrs: seq<int>, ghost all: seq<int>, ghost k: nat, ghost before: seq<int>)
      requires Sent(before, all, k) && k + |addrs| <= |all| && addrs == all[k..k + |addrs|]
      modifies `sent
      ensures Sent(before, all, k + |addrs|)
    {
      GatherStep(mem[..], all, k, k + |addrs|);
      sent := sent + Gather(mem[..], addrs);
    }

    /** write and writev: the kernel takes the next n bytes. */
    method Write(v: seq<Iovec>, ghost all: seq<int>, ghost k: nat, ghost before: seq<int>) returns (r: Result)
      requires Sent(before, all, k) && Names(v, all[k..])
      modifies `script, `failed, `mayPoll, `sent
      ensures (|script| < |old(script)| || r == Eother) && failed == (old(failed) || r == Eother)
      ensures mayPoll == (r.Done? || r == Eagain)
      ensures if r.Done? then k + r.n <= |all| && Sent(before, all, k + r.n) else Sent(before, all, k)
    {
      NamesAre(v, all[k..]);
      var e := NextEvent();
      mayPoll := e.Moves? || e == NotReady;
      match e
      case Moves(n) =>
        var addrs := Addrs(v);
        var m := if n <= |addrs| then n else |addrs|;
        assert addrs[..m] == all[k..k + m];
        Take(addrs[..m], all, k, before);
        r := Done(m);
      case Interrupts => r := Eintr;
      case NotReady => r := Eagain;
      case Fails => r := Eother;
    }

    /** The first k of the addresses hold the next k bytes of the input; the rest of memory is as it was. */
    ghost predicate Received(before: seq<int>, was: seq<int>, all: seq<int>, k: int)
      reads `input, mem
    {
      && InMemory(all, mem.Length) && 0 <= k <= |all| && k <= |before| && |was| == mem.Length
      && input == before[k..]
      && (forall i {:trigger all[i]} :: 0 <= i < k ==> mem[all[i]] == before[i])
      && (forall a :: 0 <= a < mem.Length && a !in all[..k] ==> mem[a] == was[a])
    }

    method StoreByte(ghost before: seq<int>, ghost was: seq<int>, ghost all: seq<int>, ghost k: int, a: int)
      requires Received(before, was, all, k) && Distinct(all) && k < |all| && a == all[k] && input != []
      modifies `input, mem
      ensures Received(before, was, all, k + 1) && input == old(input)[1..]
    {
      assert all[..k + 1] == all[..k] + [a];
      mem[a] := input[0];
      input := input[1..];
    }

    method StoreAll(addrs: seq<int>, m: nat, ghost before: seq<int>, ghost was: seq<int>, ghost all: seq<int>,
                    ghost k: nat)
      requires Received(before, was, all, k) && Distinct(all) && addrs == all[k..] && m <= |addrs| && m <= |input|
      modifies `input, mem
      ensures Received(before, was, all, k + m)
    {
      var i := 0;
      while i < m
        invariant i <= m && Received(before, was, all, k + i) && m - i <= |input|
      {
        StoreByte(before, was, all, k + i, addrs[i]);
        i := i + 1;
      }
    }

    /** read and readv: the kernel stores the next n bytes of the input; none at its end. */
    method Read(v: seq<Iovec>, ghost all: seq<int>, ghost k: nat, ghost before: seq<int>, ghost was: seq<int>)
      returns (r: Result)
      requires Received(before, was, all, k) && Distinct(all) && Names(v, all[k..])
      modifies `script, `failed, `mayPoll, `input, `eof, mem
      ensures (|script| < |old(script)| || r == Eother) && failed == (old(failed) || r == Eother)
      ensures mayPoll == (r.Done? || r == Eagain)
      ensures if r.Done? then k + r.n <= |all| && Received(before, was, all, k + r.n) else Received(before, was, all, k)
      ensures eof == (old(eof) || (r.Done? && r.n == 0 && k < |all|))
    {
      NamesAre(v, all[k..]);
      var addrs := Addrs(v);
      var e := NextEvent();
      mayPoll := e.Moves? || e == NotReady;
      match e
      case Moves(n) =>
        var m := if n <= |addrs| then n else |addrs|;
        if m > |input| { m := |input|; }
        StoreAll(addrs, m, before, was, all, k);
        if m == 0 && |addrs| > 0 { eof := true; }
        r := Done(m);
      case Interrupts => r := Eintr;
      case NotReady => r := Eagain;
      case Fails => r := Eother;
    }

    /** st_netfd_poll, which the loops call only to wait after a transfer */
    method Poll() returns (ok: bool)
      requires mayPoll
      modifies `script, `failed, `mayPoll
      ensures !mayPoll
      ensures (|script| < |old(script)| || !ok) && failed == (old(failed) || !ok)
    {
      var e := NextEvent();
      mayPoll := false;
      ok := e != Fails;
    }

    /**
     * After n bytes were moved: skips the vectors they fill and shortens the next one. The shared part of
     * st_readv_resid and st_writev_resid; pos is the moving *iov.
     */
    method Advance(iov: array<Iovec>, pos0: nat, size0: nat, n0: nat, ghost all: seq<int>, ghost was: seq<Iovec>,
                   ghost start: nat)
      returns (pos: nat, size: nat)
      requires Shortened(iov, was, start, pos0 + size0, size0)
      requires 0 < size0 && pos0 + size0 <= iov.Length && Names(iov[pos0..pos0 + size0], all) && n0 <= |all|
      modifies iov
      ensures pos0 <= pos && pos + size == pos0 + size0
      ensures Names(iov[pos..pos + size], all[n0..])
      ensures forall j :: 0 <= j < iov.Length && !(pos0 <= j < pos + size) ==> iov[j] == old(iov[j])
      ensures Shortened(iov, was, start, pos + size, size)
    {
      ghost var v := iov[..pos0 + size0];
      ghost var rest := RestsOf(v);
      assert v[pos0..] == iov[pos0..pos0 + size0];
      NamesAgree(v[pos0..], all, rest(pos0));
      var n;
      pos, size, n := SkipFull(iov, pos0, size0, n0, v, rest);
      if size == 0 { return; }
      assert iov[pos..pos + size] == v[pos..];
      Shorten(iov, pos, size, n, rest(pos));
    }

    /** The inner loop: the vectors that were filled. */
    method SkipFull(iov: array<Iovec>, pos0: nat, size0: nat, n0: nat, ghost v: seq<Iovec>, ghost rest: int -> seq<int>)
      returns (pos: nat, size: nat, n: nat)
      requires 0 < size0 && pos0 + size0 <= iov.Length && v == iov[..pos0 + size0] && Rests(rest, v)
      requires n0 <= |rest(pos0)|
      modifies iov
      ensures pos0 <= pos && pos + size == pos0 + size0 && n <= |rest(pos)| && rest(pos)[n..] == rest(pos0)[n0..]
      ensures if size == 0 then n == 0 else n == 0 || n < v[pos].len
      ensures forall j :: 0 <= j < iov.Length ==> iov[j] == if pos0 <= j < pos then UsedUp(old(iov[j])) else old(iov[j])
    {
      pos, size, n := pos0, size0, n0;
      while n >= iov[pos].len
        invariant pos0 <= pos && 0 < size && pos + size == pos0 + size0 && n <= |rest(pos)|
        invariant rest(pos)[n..] == rest(pos0)[n0..]
        invariant forall j :: 0 <= j < iov.Length ==>
          iov[j] == if pos0 <= j < pos then UsedUp(old(iov[j])) else old(iov[j])
        decreases size
      {
        assert RestAt(rest, v, pos) && iov[pos] == v[pos];
        n := n - iov[pos].len;
        iov[pos] := UsedUp(iov[pos]);
        pos := pos + 1;
        size := size - 1;
        if n == 0 { break; }
      }
    }

    /** The vectors that are left name exactly the addresses after the first k. */
    ghost predicate Remain(iov: array<Iovec>, pos: int, size: int, all: seq<int>, k: int)
      reads iov
    {
      0 <= pos && 0 <= size && pos + size <= iov.Length && 0 <= k <= |all| && Names(iov[pos..pos + size], all[k..])
    }

    /** One turn of st_writev_resid: the transfer. */
    method WriteSome(iov: array<Iovec>, pos0: nat, size0: nat, ghost all: seq<int>, ghost k0: nat,
                     ghost before: seq<int>, ghost v: seq<Iovec>,
                     ghost start: nat)
      returns (r: Result, pos: nat, size: nat, ghost k: nat)
      requires 0 < size0 && Remain(iov, pos0, size0, all, k0) && Sent(before, all, k0)
      requires Shortened(iov, v, start, pos0 + size0, size0)
      modifies `script, `failed, `mayPoll, `sent, iov
      ensures (|script| < |old(script)| || r == Eother) && failed == (old(failed) || r == Eother)
      ensures mayPoll == (r.Done? || r == Eagain)
      ensures pos0 <= pos && pos + size == pos0 + size0 && Remain(iov, pos, size, all, k)
      ensures Sent(before, all, k) && Shortened(iov, v, start, pos + size, size) && (!r.Done? ==> size > 0)
    {
      pos, size, k := pos0, size0, k0;
      r := Write(iov[pos..pos + size], all, k0, before);
      if r.Done? {
        assert all[k0..][r.n..] == all[k0 + r.n..];
        pos, size := Advance(iov, pos0, size0, r.n, all[k0..], v, start);
        k := k0 + r.n;
      }
    }

    /** st_writev_resid: what was sent and what is left make up what was asked for, at every return. */
    method WritevResid(iov: array<Iovec>, pos0: nat, size0: nat, ghost all: seq<int>, ghost k0: nat,
                       ghost before: seq<int>)
      returns (rc: int, pos: nat, size: nat, ghost k: nat)
      requires Remain(iov, pos0, size0, all, k0) && Sent(before, all, k0)
      modifies `script, `failed, `mayPoll, `sent, iov
      ensures pos0 <= pos && pos + size == pos0 + size0 && Remain(iov, pos, size, all, k)
      ensures Sent(before, all, k) && Shortened(iov, old(iov[..]), pos0, pos0 + size0, size)
      ensures rc == (if size == 0 then 0 else -1) && failed == (old(failed) || rc == -1)
    {
      pos, size, k := pos0, size0, k0;
      while size > 0
        invariant pos0 <= pos && pos + size == pos0 + size0 && Remain(iov, pos, size, all, k)
        invariant Sent(before, all, k) && Shortened(iov, old(iov[..]), pos0, pos0 + size0, size)
        invariant failed == old(failed)
        decreases |script|
      {
        var r;
        r, pos, size, k := WriteSome(iov, pos, size, all, k, before, old(iov[..]), pos0);
        if r == Eintr { continue; }
        if r == Eother { return -1, pos, size, k; }
        if size == 0 { break; }
        var ok := Poll();
        if !ok { return -1, pos, size, k; }
      }
      rc := 0;
    }

    /** st_write: the whole buffer, or -1 after a part of it. */
    method StWrite(base: int, nbyte: nat, ghost all: seq<int>, ghost k0: nat, ghost before: seq<int>)
      returns (rv: int, ghost k: nat)
      requires Sent(before, all, k0) && all[k0..] == Range(Iovec(base, nbyte))
      modifies `script, `failed, `mayPoll, `sent
      ensures Sent(before, all, k) && (rv == nbyte || rv == -1) && failed == (old(failed) || rv == -1)
      ensures nbyte > 0 ==> (rv == nbyte <==> k == |all|)
    {
      var iov := new Iovec[1](_ => Iovec(base, nbyte));
      assert iov[0..1] == [Iovec(base, nbyte)];
      var rc, pos, size;
      rc, pos, size, k := WritevResid(iov, 0, 1, all, k0, before);
      var resid := iov[0].len;
      rv := if rc == 0 then nbyte - resid else -1;
      assert iov[pos..pos + size] == if size == 1 then [iov[0]] else [];
      NamesAre(iov[pos..pos + size], all[k..]);
    }

    /** Prefix sums of the vector lengths. */
    method TotalLength(iov: array<Iovec>, iovSize: nat) returns (nbyte: nat)
      requires iovSize <= iov.Length
      ensures nbyte == |Addrs(iov[..iovSize])|
    {
      nbyte := 0;
      var index := 0;
      while index < iovSize
        invariant index <= iovSize && nbyte == |Addrs(iov[..index])|
      {
        PrefixStep(iov[..iovSize], index);
        assert iov[..iovSize][..index] == iov[..index] && iov[..iovSize][..index + 1] == iov[..index + 1];
        nbyte := nbyte + iov[index].len;
        index := index + 1;
      }
    }

    /** The vector that holds byte n, and the place of the byte in it. */
    method FindVector(iov: array<Iovec>, iovSize: nat, n0: nat) returns (index: nat, n: nat)
      requires iovSize <= iov.Length && n0 < |Addrs(iov[..iovSize])|
      ensures index < iovSize && |Addrs(iov[..index])| + n == n0 && n < iov[index].len
    {
      index, n := 0, n0;
      while n >= iov[index].len
        invariant index < iovSize && |Addrs(iov[..index])| + n == n0
        decreases iovSize - index
      {
        ghost var v := iov[..iovSize];
        PrefixStep(v, index);
        assert v[..index] == iov[..index] && v[..index + 1] == iov[..index + 1];
        if index + 1 == iovSize { assert false; }
        n := n - iov[index].len;
        index := index + 1;
      }
    }

    /** Fills tmp with the vectors that are left, from byte n of vector index0 on. */
    method Rebuild(tmp: array<Iovec>, iov: array<Iovec>, iovSize: nat, index0: nat, n: nat) returns (iovCnt: nat)
      requires tmp != iov && index0 < iovSize <= iov.Length && iovSize - index0 <= tmp.Length && n <= iov[index0].len
      modifies tmp
      ensures iovCnt == iovSize - index0
      ensures tmp[..iovCnt] == [Iovec(iov[index0].base + n, iov[index0].len - n)] + iov[index0 + 1..iovSize]
    {
      tmp[0] := Iovec(iov[index0].base + n, iov[index0].len - n);
      var index := index0 + 1;
      iovCnt := 1;
      while index < iovSize
        invariant index <= iovSize && iovCnt == index - index0
        invariant forall j :: 0 <= j < iov.Length ==> iov[j] == old(iov[j])
        invariant tmp[0] == Iovec(iov[index0].base + n, iov[index0].len - n)
        invariant forall j :: 1 <= j < iovCnt ==> tmp[j] == iov[index0 + j]
      {
        tmp[iovCnt] := Iovec(iov[index].base, iov[index].len);
        iovCnt := iovCnt + 1;
        index := index + 1;
      }
    }

    /** The vectors in tmp are what is left of iov after k bytes; a copy has room from vector first on. */
    ghost predicate Rebuilt(tmp: array<Iovec>, iovCnt: nat, iov: array<Iovec>, iovSize: nat, all: seq<int>, k: int,
                            first: nat)
      reads tmp, iov
    {
      && iovSize <= iov.Length && Names(iov[..iovSize], all) && 0 <= k <= |all| && iovCnt <= tmp.Length
      && Names(tmp[..iovCnt], all[k..])
      && (tmp == iov ==> iovCnt == iovSize)
      && (tmp != iov ==> first < iovSize && iovSize - first <= tmp.Length && AtMost(iov[..first], k))
    }

    /** local_iov, or calloc for more vectors */
    method Storage(size: nat) returns (tmp: array<Iovec>)
      ensures fresh(tmp) && tmp.Length == if size <= LOCAL_MAXIOV then LOCAL_MAXIOV else size
    {
      if size <= LOCAL_MAXIOV {
        tmp := new Iovec[LOCAL_MAXIOV](_ => Iovec(0, 0));
      } else {
        tmp := new Iovec[size](_ => Iovec(0, 0));
      }
    }

    /** After a short writev: skips what was sent, copying the vectors the first time. */
    method Resume(tmp0: array<Iovec>, iovCnt0: nat, iov: array<Iovec>, iovSize: nat, sentBytes: nat,
                  ghost all: seq<int>, ghost k0: nat, ghost first0: nat)
      returns (tmp: array<Iovec>, iovCnt: nat, ghost first: nat)
      requires Rebuilt(tmp0, iovCnt0, iov, iovSize, all, k0, first0) && k0 <= sentBytes < |all|
      modifies if tmp0 == iov then {} else {tmp0}
      ensures Rebuilt(tmp, iovCnt, iov, iovSize, all, sentBytes, first) && tmp != iov && (tmp == tmp0 || fresh(tmp))
    {
      NamesAre(iov[..iovSize], all);
      var index, n := FindVector(iov, iovSize, sentBytes);
      tmp, first := tmp0, first0;
      ghost var v := iov[..iovSize];
      assert v[..index] == iov[..index] && (first < iovSize ==> v[..first] == iov[..first]);
      if tmp == iov {
        first := index;
        tmp := Storage(iovSize - index);
      } else {
        OpenAtMost(iov[..first0], k0);
        LaterVector(v, first0, index, n, k0);
      }
      iovCnt := Rebuild(tmp, iov, iovSize, index, n);
      assert v[index + 1..] == iov[index + 1..iovSize];
      RestFrom(v, index, n, all, sentBytes);
    }

    /** The last vector goes to st_write. */
    method WriteLast(tmp: array<Iovec>, nleft: nat, ghost all: seq<int>, ghost k0: nat, ghost before: seq<int>)
      returns (done: bool, ghost k: nat)
      requires tmp.Length > 0 && Sent(before, all, k0) && Names(tmp[..1], all[k0..]) && nleft == |all| - k0 > 0
      modifies `script, `failed, `mayPoll, `sent
      ensures Sent(before, all, k) && (done <==> k == |all|) && failed == (old(failed) || !done)
    {
      assert tmp[..1] == [tmp[0]];
      NamesAre(tmp[..1], all[k0..]);
      var r;
      r, k := StWrite(tmp[0].base, nleft, all, k0, before);
      done := r == nleft;
    }

    /** st_writev: sends a prefix of the vectors' bytes, in order, and all exactly if it returns their number. */
    method StWritev(iov: array<Iovec>, iovSize: nat) returns (rv: int, ghost k: nat)
      requires iovSize <= iov.Length && InMemory(Addrs(iov[..iovSize]), mem.Length)
      modifies `script, `failed, `mayPoll, `sent
      ensures var all := Addrs(iov[..iovSize]);
        Sent(old(sent), all, k) && (rv == |all| || rv == -1) && (rv == |all| <==> k == |all|)
      ensures failed == (old(failed) || rv == -1)
    {
      ghost var all := Addrs(iov[..iovSize]);
      var nbyte := TotalLength(iov, iovSize);
      NamesStart(iov[..iovSize]);
      rv, k := WriteAll(iov, iovSize, nbyte, all, sent);
    }

    /** One transfer, and the bytes that are left after it. */
    method WriteOnce(tmp: array<Iovec>, iovCnt: nat, nleft0: nat, ghost all: seq<int>, ghost k0: nat,
                     ghost before: seq<int>)
      returns (r: Result, nleft: nat, ghost k: nat)
      requires Sent(before, all, k0) && nleft0 == |all| - k0
      requires iovCnt <= tmp.Length && Names(tmp[..iovCnt], all[k0..])
      modifies `script, `failed, `mayPoll, `sent
      ensures (|script| < |old(script)| || r == Eother) && failed == (old(failed) || r == Eother)
      ensures mayPoll == (r.Done? || r == Eagain)
      ensures k0 <= k && Sent(before, all, k) && nleft == |all| - k && (!r.Done? ==> k == k0)
    {
      nleft, k := nleft0, k0;
      r := Write(tmp[..iovCnt], all, k0, before);
      if r.Done? {
        nleft, k := nleft - r.n, k + r.n;
      }
    }

    /** One turn of its loop; result is 0 to go on. */
    method WriteTurn(tmp0: array<Iovec>, iovCnt0: nat, iov: array<Iovec>, iovSize: nat, nbyte: nat, nleft0: nat,
                     ghost all: seq<int>, ghost k0: nat, ghost before: seq<int>, ghost first0: nat)
      returns (result: int, tmp: array<Iovec>, iovCnt: nat, nleft: nat, ghost k: nat, ghost first: nat)
      requires Rebuilt(tmp0, iovCnt0, iov, iovSize, all, k0, first0) && Sent(before, all, k0)
      requires nbyte == |all| && nleft0 == |all| - k0 > 0
      modifies `script, `failed, `mayPoll, `sent, if tmp0 == iov then {} else {tmp0}
      ensures Sent(before, all, k) && nleft == |all| - k
      ensures result == 0 ==> nleft > 0 && Rebuilt(tmp, iovCnt, iov, iovSize, all, k, first) && |script| < |old(script)|
      ensures result == 0 || result == nbyte || result == -1
      ensures result != 0 ==> (result == nbyte <==> k == |all|)
      ensures failed == (old(failed) || result == -1)
      ensures tmp == tmp0 || fresh(tmp)
    {
      tmp, iovCnt, first := tmp0, iovCnt0, first0;
      var r;
      r, nleft, k := WriteOnce(tmp, iovCnt, nleft0, all, k0, before);
      if r == Eintr { return 0, tmp, iovCnt, nleft, k, first; }
      if r == Eother { return -1, tmp, iovCnt, nleft, k, first; }
      if r.Done? {
        if nleft == 0 { return nbyte, tmp, iovCnt, nleft, k, first; }
        tmp, iovCnt, first := Resume(tmp, iovCnt, iov, iovSize, nbyte - nleft, all, k0, first);
      }
      var ok := Poll();
      result := if ok then 0 else -1;
    }

    method WriteAll(iov: array<Iovec>, iovSize: nat, nbyte: nat, ghost all: seq<int>, ghost before: seq<int>)
      returns (rv: int, ghost k: nat)
      requires iovSize <= iov.Length && Names(iov[..iovSize], all) && nbyte == |all| && Sent(before, all, 0)
      modifies `script, `failed, `mayPoll, `sent
      ensures Sent(before, all, k) && (rv == |all| || rv == -1) && (rv == |all| <==> k == |all|)
      ensures failed == (old(failed) || rv == -1)
    {
      var nleft, tmp, iovCnt := nbyte, iov, iovSize;
      ghost var first := 0;
      k := 0;
      assert all[0..] == all;
      while nleft > 0
        invariant nleft > 0 || nbyte == 0
        invariant Rebuilt(tmp, iovCnt, iov, iovSize, all, k, first) && Sent(before, all, k) && nleft == |all| - k
        invariant (tmp == iov || fresh(tmp)) && failed == old(failed)
        decreases |script|
      {
        if iovCnt == 1 {
          var done;
          done, k := WriteLast(tmp, nleft, all, k, before);
          return if done then nbyte else -1, k;
        }
        var result;
        result, tmp, iovCnt, nleft, k, first :=
          WriteTurn(tmp, iovCnt, iov, iovSize, nbyte, nleft, all, k, before, first);
        if result != 0 { return result, k; }
      }
      rv := nbyte;
    }

    /** One turn of st_readv_resid: the transfer. */
    method ReadSome(iov: array<Iovec>, pos0: nat, size0: nat, ghost all: seq<int>, ghost k0: nat,
                    ghost before: seq<int>, ghost was: seq<int>,
                    ghost v: seq<Iovec>, ghost start: nat)
      returns (r: Result, pos: nat, size: nat, ghost k: nat)
      requires 0 < size0 && Remain(iov, pos0, size0, all, k0) && Received(before, was, all, k0) && Distinct(all)
      requires Shortened(iov, v, start, pos0 + size0, size0)
      modifies `script, `failed, `mayPoll, `input, `eof, mem, iov
      ensures (|script| < |old(script)| || r == Eother) && failed == (old(failed) || r == Eother)
      ensures mayPoll == (r.Done? || r == Eagain)
      ensures pos0 <= pos && pos + size == pos0 + size0 && Remain(iov, pos, size, all, k)
      ensures Received(before, was, all, k) && Shortened(iov, v, start, pos + size, size) && (!r.Done? ==> size > 0)
      ensures r == Done(0) ==> eof || k == |all|
      ensures !old(eof) && eof ==> r == Done(0)
    {
      pos, size, k := pos0, size0, k0;
      r := Read(iov[pos..pos + size], all, k0, before, was);
      if r.Done? && r.n > 0 {
        assert all[k0..][r.n..] == all[k0 + r.n..];
        pos, size := Advance(iov, pos0, size0, r.n, all[k0..], v, start);
        k := k0 + r.n;
      }
    }

    /** st_readv_resid: what was received and what is left make up what was asked for, at every return. */
    method ReadvResid(iov: array<Iovec>, pos0: nat, size0: nat, ghost all: seq<int>)
      returns (rc: int, pos: nat, size: nat, ghost k: nat)
      requires Remain(iov, pos0, size0, all, 0) && InMemory(all, mem.Length) && Distinct(all) && !eof
      modifies `script, `failed, `mayPoll, `input, `eof, mem, iov
      ensures pos0 <= pos && pos + size == pos0 + size0 && Remain(iov, pos, size, all, k)
      ensures Received(old(input), old(mem[..]), all, k) && Shortened(iov, old(iov[..]), pos0, pos0 + size0, size)
      ensures (rc == 0 || rc == -1) && failed == (old(failed) || rc == -1)
      ensures rc == 0 ==> size == 0 || k == |all| || eof
    {
      ghost var before, was := input, mem[..];
      pos, size, k := pos0, size0, 0;
      while size > 0
        invariant pos0 <= pos && pos + size == pos0 + size0 && Remain(iov, pos, size, all, k)
        invariant Received(before, was, all, k) && Shortened(iov, old(iov[..]), pos0, pos0 + size0, size)
        invariant failed == old(failed)
        decreases |script|
      {
        var r;
        r, pos, size, k := ReadSome(iov, pos, size, all, k, before, was, old(iov[..]), pos0);
        if r == Eintr { continue; }
        if r == Eother { return -1, pos, size, k; }
        if r == Done(0) || size == 0 { break; }
        var ok := Poll();
        if !ok { return -1, pos, size, k; }
      }
      rc := 0;
    }

    /** st_read_fully: the buffer holds exactly the next bytes of the input; fewer than asked for only at its end. */
    method StReadFully(base: int, nbyte: nat) returns (rv: int, ghost k: nat)
      requires InMemory(Range(Iovec(base, nbyte)), mem.Length) && !eof
      modifies `script, `failed, `mayPoll, `input, `eof, mem
      ensures Received(old(input), old(mem[..]), Range(Iovec(base, nbyte)), k)
      ensures rv == -1 || (rv == k <= nbyte && (k < nbyte ==> eof))
      ensures failed == (old(failed) || rv == -1)
    {
      ghost var all := Range(Iovec(base, nbyte));
      var iov := new Iovec[1](_ => Iovec(base, nbyte));
      assert iov[0..1] == [Iovec(base, nbyte)] && all[0..] == all;
      var rc, pos, size;
      rc, pos, size, k := ReadvResid(iov, 0, 1, all);
      var resid := iov[0].len;
      rv := if rc == 0 then nbyte - resid else -1;
      assert iov[pos..pos + size] == if size == 1 then [iov[0]] else [];
      NamesAre(iov[pos..pos + size], all[k..]);
    }

    method Shorten(iov: array<Iovec>, pos: nat, size: nat, n: nat, ghost all: seq<int>)
      requires 0 < size && pos + size <= iov.Length && n <= iov[pos].len && Names(iov[pos..pos + size], all)
      modifies iov
      ensures iov[pos] == Iovec(old(iov[pos].base) + n, old(iov[pos].len) - n)
      ensures forall j :: 0 <= j < iov.Length && j != pos ==> iov[j] == old(iov[j])
      ensures n <= |all| && Names(iov[pos..pos + size], all[n..])
    {
      ghost var v := iov[pos..pos + size];
      iov[pos] := Iovec(iov[pos].base + n, iov[pos].len - n);
      assert iov[pos..pos + size] == [Iovec(v[0].base + n, v[0].len - n)] + v[1..];
      NamesAre(v, all);
      ShortenFirst(v, n);
    }
  }

  lemma ShortenFirst(v: seq<Iovec>, n: nat)
    requires v != [] && n <= v[0].len
    ensures Addrs([Iovec(v[0].base + n, v[0].len - n)] + v[1..]) == Addrs(v)[n..]
  {
    var w := [Iovec(v[0].base + n, v[0].len - n)] + v[1..];
    assert w[1..] == v[1..];
    assert Range(w[0]) == Range(v[0])[n..];
    assert Addrs(w) == Range(w[0]) + Addrs(w[1..]);
  }

  lemma NamesStart(v: seq<Iovec>)
    ensures Names(v, Addrs(v))
  {
  }

  lemma PrefixStep(v: seq<Iovec>, i: nat)
    requires i < |v|
    ensures |Addrs(v[..i + 1])| == |Addrs(v[..i])| + v[i].len
  {
    assert v[..i + 1] == v[..i] + [v[i]];
    AddrsConcat(v[..i], [v[i]]);
    assert [v[i]][1..] == [];
  }

  lemma {:induction false} PrefixGrows(v: seq<Iovec>, i: nat, j: nat)
    requires i <= j <= |v|
    ensures |Addrs(v[..i])| <= |Addrs(v[..j])|
    decreases j
  {
    if i < j {
      PrefixStep(v, j - 1);
      PrefixGrows(v, i, j - 1);
    }
  }

  /** Later bytes are in later vectors. */
  lemma LaterVector(v: seq<Iovec>, first: nat, index: nat, n: nat, k0: nat)
    requires first <= |v| && index < |v| && |Addrs(v[..first])| <= k0 <= |Addrs(v[..index])| + n && n < v[index].len
    ensures first <= index
  {
    if index < first {
      PrefixStep(v, index);
      PrefixGrows(v, index + 1, first);
    }
  }

  lemma RestFrom(v: seq<Iovec>, index: nat, n: nat, all: seq<int>, k: nat)
    requires index < |v| && n <= v[index].len && all == Addrs(v) && k == |Addrs(v[..index])| + n
    ensures k <= |all| && Names([Iovec(v[index].base + n, v[index].len - n)] + v[index + 1..], all[k..])
  {
    assert v == v[..index] + v[index..];
    AddrsConcat(v[..index], v[index..]);
    assert v[index..][1..] == v[index + 1..];
    ShortenFirst(v[index..], n);
  }
}
