/**
 * Chunked messages (section 5.3.1 of the Adobe RTMP specification 1.0): how write_message and the relay loop cut a
 * payload into chunks, and how the two receive loops put it together again.
 */
module Chunking {
  import opened Bytes

  // ---------- Payloads on the wire ----------

  /** A payload in chunks of c bytes, each but the first behind a one-byte header. */
  function Chunks(p: seq<Byte>, c: nat, h: Byte): seq<Byte>
    requires c > 0
    decreases |p|
  {
    if |p| <= c then p else p[..c] + [h] + Chunks(p[c..], c, h)
  }

  /** The same cut for what is left of a payload once its first chunk is out. */
  function Rest(p: seq<Byte>, c: nat, h: Byte): seq<Byte>
    requires c > 0
  {
    if p == [] then [] else [h] + Chunks(p, c, h)
  }

  /** Where byte i of a payload is on the wire: every c bytes there is a header byte. */
  function Pos(i: nat, c: nat): (k: nat)
    requires c > 0
    ensures k >= i
  {
    if i < c then i else c + 1 + Pos(i - c, c)
  }

  lemma {:induction false} PosGrows(i: nat, j: nat, c: nat)
    requires c > 0 && i < j
    ensures Pos(i, c) < Pos(j, c)
    decreases j
  {
    if i >= c { PosGrows(i - c, j - c, c); }
  }

  /** How many bytes a payload of n bytes takes up. */
  function WireLength(n: nat, c: nat): nat
    requires c > 0
  {
    if n == 0 then 0 else Pos(n - 1, c) + 1
  }

  lemma InWire(i: nat, n: nat, c: nat)
    requires c > 0 && i < n
    ensures Pos(i, c) < WireLength(n, c)
  {
    if i < n - 1 { PosGrows(i, n - 1, c); }
  }

  /** What the receive loops make of n payload bytes: every c bytes they drop one. */
  function Dechunk(s: seq<Byte>, n: nat, c: nat): (p: seq<Byte>)
    requires c > 0 && |s| >= WireLength(n, c)
    ensures |p| == n
  {
    seq(n, i requires 0 <= i < n => InWire(i, n, c); s[Pos(i, c)])
  }

  lemma {:induction false} ChunkByte(p: seq<Byte>, c: nat, h: Byte, i: nat)
    requires c > 0 && i < |p|
    ensures |Chunks(p, c, h)| == WireLength(|p|, c)
    ensures Pos(i, c) < |Chunks(p, c, h)| && Chunks(p, c, h)[Pos(i, c)] == p[i]
    decreases |p|
  {
    if |p| > c {
      var rest := Chunks(p[c..], c, h);
      ChunkByte(p[c..], c, h, if i < c then 0 else i - c);
      assert Chunks(p, c, h) == p[..c] + [h] + rest;
      if i >= c { assert (p[..c] + [h] + rest)[c + 1 + Pos(i - c, c)] == rest[Pos(i - c, c)]; }
    }
  }

  /** Behind every whole number of chunks of c bytes there is the header byte, if anything follows. */
  lemma {:induction false} ChunkHeader(p: seq<Byte>, c: nat, h: Byte, i: nat)
    requires c > 0 && 0 < i < |p| && Whole(i, c)
    ensures 0 < Pos(i, c) < |Chunks(p, c, h)| && Chunks(p, c, h)[Pos(i, c) - 1] == h
    decreases |p|
  {
    ChunkByte(p, c, h, i);
    var rest := Chunks(p[c..], c, h);
    assert Chunks(p, c, h) == p[..c] + [h] + rest;
    if i > c {
      ChunkHeader(p[c..], c, h, i - c);
      assert (p[..c] + [h] + rest)[c + 1 + (Pos(i - c, c) - 1)] == rest[Pos(i - c, c) - 1];
    }
  }

  /** The next byte of a payload is next on the wire, unless a whole number of chunks ends between them. */
  lemma {:induction false} PosNext(i: nat, c: nat)
    requires c > 0
    ensures Pos(0, c) == 0 && Pos(i + 1, c) == Pos(i, c) + if Whole(i + 1, c) then 2 else 1
    decreases i
  {
    if i >= c { PosNext(i - c, c); }
  }

  /** Dechunking undoes chunking and consumes exactly the sender's bytes. */
  lemma {:induction false} DechunkUndoesChunks(p: seq<Byte>, c: nat, h: Byte, rest: seq<Byte>)
    requires c > 0
    ensures |Chunks(p, c, h)| == WireLength(|p|, c)
    ensures Dechunk(Chunks(p, c, h) + rest, |p|, c) == p
  {
    if p != [] { ChunkByte(p, c, h, 0); }
    forall i | 0 <= i < |p| ensures Dechunk(Chunks(p, c, h) + rest, |p|, c)[i] == p[i] {
      ChunkByte(p, c, h, i);
    }
  }

  lemma WireGrows(m: nat, n: nat, c: nat)
    requires c > 0 && m < n
    ensures WireLength(m, c) < WireLength(n, c)
  {
    if m > 0 { PosGrows(m - 1, n - 1, c); }
  }

  // ---------- Sending ----------

  /** st_writev as IO_Socket uses it: everything, or -1 after a part. */
  class Sender {
    var sent: seq<Byte>
    var faults: seq<int>  // for each call, -1 or the number of bytes that go out before it fails
    ghost var failed: bool  // a call has failed

    method Writev(a: seq<Byte>, b: seq<Byte>, ghost rest: seq<Byte>, ghost goal: seq<Byte>) returns (nwrite: int)
      requires goal == sent + (a + b + rest) && a + b != []
      modifies this
      ensures (nwrite == |a| + |b| || nwrite == -1) && failed == (old(failed) || nwrite == -1)
      ensures nwrite != -1 ==> sent == old(sent) + a + b && goal == sent + rest
      ensures old(sent) <= sent && sent <= goal
    {
      var k := if faults == [] then -1 else faults[0];
      faults := if faults == [] then [] else faults[1..];
      if k < 0 || k > |a + b| {
        sent := sent + a + b;
        nwrite := |a| + |b|;
      } else {
        sent := sent + (a + b)[..k];
        failed := true;
        nwrite := -1;
      }
    }

    /** The header of every chunk but the first: fmt 3 over the low byte of the chunk stream number. */
    static function Fmt3(csid: int): Byte {
      0xC0 + csid % 64
    }

    /** The loop of write_message over buffer = header + payload. */
    method WriteMessage(buffer: seq<Byte>, headerSize: nat, csid: int, chunkSize: nat) returns (rc: int)
      requires headerSize <= |buffer| && chunkSize > 0
      modifies this
      ensures headerSize == |buffer| ==> sent == old(sent) && rc == 0
      ensures var goal := old(sent) + MessageStream(buffer[..headerSize], buffer[headerSize..], chunkSize, Fmt3(csid));
        && (rc == 0 || rc == -1) && (rc == 0 ==> sent == goal) && old(sent) <= sent && sent <= goal
      ensures failed == (old(failed) || rc == -1)
    {
      NothingSkipped(buffer[..headerSize], buffer[headerSize..], chunkSize, Fmt3(csid));
      ghost var ahead := Ahead(buffer[..headerSize], buffer[headerSize..], chunkSize, Fmt3(csid), 0);
      rc := SendAll(buffer, headerSize, csid, chunkSize, ahead);
    }

    method SendAll(buffer: seq<Byte>, headerSize: nat, csid: int, chunkSize: nat, ghost ahead: int -> seq<Byte>)
      returns (rc: int)
      requires headerSize <= |buffer| && chunkSize > 0
      requires IsAhead(ahead, buffer[..headerSize], buffer[headerSize..], chunkSize, Fmt3(csid), 0)
      modifies this
      ensures headerSize == |buffer| ==> rc == 0 && sent == old(sent)
      ensures (rc == 0 || rc == -1) && (rc == 0 ==> sent == old(sent) + ahead(0))
      ensures failed == (old(failed) || rc == -1)
      ensures old(sent) <= sent && sent <= old(sent) + ahead(0)
    {
      var messageSize, h := |buffer|, Fmt3(csid);
      var totalSent, pos, header := 0, headerSize, buffer[..headerSize];
      ghost var payload, goal := buffer[headerSize..], sent + ahead(0);
      while pos < messageSize
        invariant 0 <= totalSent && pos == headerSize + totalSent <= messageSize
        invariant goal == sent + ahead(totalSent) && old(sent) <= sent && failed == old(failed)
        decreases messageSize - pos
      {
        var left := messageSize - headerSize - totalSent;
        var len := if left < chunkSize then left else chunkSize;
        var head := if pos == headerSize then header else [h];
        NextAhead(ahead, header, buffer, headerSize, chunkSize, h, 0, totalSent);
        var nwrite := Writev(head, buffer[pos..pos + len], ahead(totalSent + len), goal);
        if nwrite == -1 { return -1; }
        totalSent := totalSent + if pos == headerSize then nwrite - headerSize else nwrite - 1;
        pos := headerSize + totalSent;
      }
      assert AheadEnds(ahead, payload, totalSent);
      rc := 0;
    }

    /** The relay loop, on a stable buffer: the header as received, then the payload. */
    method Relay(av: seq<Byte>, headerLength: nat, m: MediaHeader, chunkSize: nat) returns (rc: int)
      requires headerLength + m.length == |av| && m.length >= 0 && chunkSize > 0
      modifies this
      ensures var goal := old(sent) + RelayStream(m, av[headerLength..], chunkSize);
        && (rc == 0 || rc == -1) && (rc == 0 ==> sent == goal) && old(sent) <= sent && sent <= goal
      ensures failed == (old(failed) || rc == -1)
    {
      rc := RelayWith(av, headerLength, m.length, RelayHeader(m), Fmt3(RelayCsid(m.kind)), chunkSize);
    }

    method RelayWith(av: seq<Byte>, headerLength: nat, messageLength: nat, header: seq<Byte>, fmt3: Byte,
                     chunkSize: nat)
      returns (rc: int)
      requires headerLength + messageLength == |av| && chunkSize > 0 && |header| >= 12
      modifies this
      ensures var goal := old(sent) + SkippingStream(header, av[headerLength..], chunkSize, fmt3, |header| - 12);
        && (rc == 0 || rc == -1) && (rc == 0 ==> sent == goal) && old(sent) <= sent && sent <= goal
      ensures failed == (old(failed) || rc == -1)
    {
      rc := RelayAll(av, headerLength, messageLength, header, fmt3, chunkSize,
                     Ahead(header, av[headerLength..], chunkSize, fmt3, |header| - 12));
    }

    method RelayAll(av: seq<Byte>, headerLength: nat, messageLength: nat, header: seq<Byte>, fmt3: Byte, chunkSize: nat,
                    ghost ahead: int -> seq<Byte>)
      returns (rc: int)
      requires headerLength + messageLength == |av| && chunkSize > 0 && |header| >= 12
      requires IsAhead(ahead, header, av[headerLength..], chunkSize, fmt3, |header| - 12)
      modifies this
      ensures (rc == 0 || rc == -1) && (rc == 0 ==> sent == old(sent) + ahead(0))
      ensures failed == (old(failed) || rc == -1)
      ensures old(sent) <= sent && sent <= old(sent) + ahead(0)
    {
      var totalSent, pos := 0, headerLength;
      ghost var payload, goal := av[headerLength..], sent + ahead(0);
      while pos < |av|
        invariant 0 <= totalSent && pos == headerLength + totalSent
        invariant goal == sent + ahead(totalSent) && old(sent) <= sent && failed == old(failed)
        decreases |av| - pos
      {
        var len := if messageLength - totalSent < chunkSize then messageLength - totalSent else chunkSize;
        var head := if pos == headerLength then header else [fmt3];
        NextAhead(ahead, header, av, headerLength, chunkSize, fmt3, |header| - 12, totalSent);
        ghost var next := totalSent + len + if totalSent == 0 then |header| - 12 else 0;
        var nwrite := Writev(head, av[pos..pos + len], ahead(next), goal);
        if nwrite == -1 { return -1; }
        totalSent := totalSent + if pos == headerLength then nwrite - 12 else nwrite - 1;
        pos := headerLength + totalSent;
      }
      assert AheadEnds(ahead, payload, totalSent);
      rc := 0;
    }
  }

  /** Message_Header, as far as the relay uses it. */
  datatype MediaHeader = MediaHeader(timestamp: int, length: int, kind: Byte, streamId: int)

  function RelayCsid(kind: Byte): (csid: Byte)
    ensures csid < 64 && (kind in {8, 9} ==> csid >= 2)
  {
    if kind == 8 then 7 else if kind == 9 then 6 else 0
  }

  /** The header that the relay builds: fmt 0, 12 bytes or, with an extended timestamp, 16. */
  function RelayHeader(m: MediaHeader): (r: seq<Byte>)
    ensures |r| == 12 + RelaySkip(m) && r[0] == RelayCsid(m.kind)
  {
    var stamp: seq<Byte> := if m.timestamp >= 0xFFFFFF then [0xFF, 0xFF, 0xFF] else Be(m.timestamp, 3);
    var extended: seq<Byte> := if m.timestamp >= 0xFFFFFF then Be(m.timestamp, 4) else [];
    [RelayCsid(m.kind)] + stamp + (Be(m.length, 3) + [m.kind] + Low(m.streamId, 4)) + extended
  }

  /** The relay takes 12 bytes off what the first writev sent, whatever the header had. */
  function RelaySkip(m: MediaHeader): nat {
    if m.timestamp >= 0xFFFFFF then 4 else 0
  }

  function Least(a: nat, b: nat): nat {
    if a < b then a else b
  }

  /** ahead(k) is what is still to go out once k payload bytes are. */
  ghost predicate AheadAt(ahead: int -> seq<Byte>, header: seq<Byte>, p: seq<Byte>, c: nat, h: Byte, skip: nat,
                          k: int) {
    0 <= k < |p| ==>
      var len := Least(|p| - k, c);
      ahead(k) == if k == 0 then header + p[..len] + ahead(len + skip) else [h] + p[k..k + len] + ahead(k + len)
  }

  ghost predicate AheadEnds(ahead: int -> seq<Byte>, p: seq<Byte>, k: int) {
    k >= |p| ==> ahead(k) == []
  }

  ghost predicate IsAhead(ahead: int -> seq<Byte>, header: seq<Byte>, p: seq<Byte>, c: nat, h: Byte, skip: nat) {
    && (forall k {:trigger AheadEnds(ahead, p, k)} :: AheadEnds(ahead, p, k))
    && (forall k {:trigger AheadAt(ahead, header, p, c, h, skip, k)} :: AheadAt(ahead, header, p, c, h, skip, k))
  }

  /** The next chunk, as a part of the buffer. */
  lemma NextAhead(ahead: int -> seq<Byte>, header: seq<Byte>, buffer: seq<Byte>, size: nat, c: nat, h: Byte, skip: nat,
                  k: nat)
    requires size <= |buffer| && k < |buffer| - size && IsAhead(ahead, header, buffer[size..], c, h, skip)
    ensures var len := Least(|buffer| - size - k, c);
      var head, next := if k == 0 then header else [h], k + len + if k == 0 then skip else 0;
      ahead(k) == head + buffer[size + k..size + k + len] + ahead(next)
  {
    assert AheadAt(ahead, header, buffer[size..], c, h, skip, k);
    SliceOfRest(buffer, size, k, k + Least(|buffer| - size - k, c));
  }

  ghost function Ahead(header: seq<Byte>, p: seq<Byte>, c: nat, h: Byte, skip: nat): (ahead: int -> seq<Byte>)
    requires c > 0
    ensures IsAhead(ahead, header, p, c, h, skip) && ahead(0) == SkippingStream(header, p, c, h, skip)
  {
    var ahead := (k: int) => if k == 0 then SkippingStream(header, p, c, h, skip)
      else if 0 < k <= |p| then Rest(p[k..], c, h) else [];
    AheadFacts(header, p, c, h, skip, ahead);
    ahead
  }

  lemma AheadFacts(header: seq<Byte>, p: seq<Byte>, c: nat, h: Byte, skip: nat, ahead: int -> seq<Byte>)
    requires c > 0 && ahead(0) == SkippingStream(header, p, c, h, skip)
    requires forall k :: 0 < k <= |p| ==> ahead(k) == Rest(p[k..], c, h)
    requires forall k :: k > |p| ==> ahead(k) == []
    ensures IsAhead(ahead, header, p, c, h, skip)
  {
    forall k ensures AheadAt(ahead, header, p, c, h, skip, k) {
      if 0 < k < |p| {
        AheadBehind(header, p, c, h, skip, ahead, k);
      } else if k == 0 && p != [] {
        AheadFirst(header, p, c, h, skip, ahead);
      }
    }
  }

  lemma AheadFirst(header: seq<Byte>, p: seq<Byte>, c: nat, h: Byte, skip: nat, ahead: int -> seq<Byte>)
    requires c > 0 && p != [] && ahead(0) == SkippingStream(header, p, c, h, skip)
    requires var n := Least(|p|, c) + skip; ahead(n) == if n >= |p| then [] else Rest(p[n..], c, h)
    ensures AheadAt(ahead, header, p, c, h, skip, 0)
  {
    var len := Least(|p|, c);
    JoinThree(header, p[..len], ahead(len + skip));
  }

  lemma AheadBehind(header: seq<Byte>, p: seq<Byte>, c: nat, h: Byte, skip: nat, ahead: int -> seq<Byte>, k: nat)
    requires c > 0 && 0 < k < |p| && ahead(k) == Rest(p[k..], c, h)
    requires var n := k + Least(|p| - k, c); ahead(n) == Rest(p[n..], c, h)
    ensures AheadAt(ahead, header, p, c, h, skip, k)
  {
    RestAt(p, k, c, h);
  }

  /** A stream that leaves out `skip` payload bytes after the first chunk. */
  function SkippingStream(header: seq<Byte>, p: seq<Byte>, c: nat, h: Byte, skip: nat): seq<Byte>
    requires c > 0
  {
    if p == [] then [] else header + SkippedBody(p, c, h, skip)
  }

  function SkippedBody(p: seq<Byte>, c: nat, h: Byte, skip: nat): seq<Byte>
    requires c > 0
  {
    var len := Least(|p|, c);
    p[..len] + if len + skip >= |p| then [] else Rest(p[len + skip..], c, h)
  }

  lemma JoinThree(a: seq<Byte>, b: seq<Byte>, d: seq<Byte>)
    ensures a + (b + d) == a + b + d && (d == [] ==> a + b + d == a + b + [])
  {
  }

  lemma NothingSkipped(header: seq<Byte>, p: seq<Byte>, c: nat, h: Byte)
    requires c > 0
    ensures SkippingStream(header, p, c, h, 0) == MessageStream(header, p, c, h)
  {
    if p != [] {
      var len := Least(|p|, c);
      CutOff(p, c, h);
      JoinThree(header, p[..len], Rest(p[len..], c, h));
    }
  }

  lemma RestAt(p: seq<Byte>, k: nat, c: nat, h: Byte)
    requires c > 0 && 0 < k < |p|
    ensures var len := Least(|p| - k, c); Rest(p[k..], c, h) == [h] + p[k..k + len] + Rest(p[k + len..], c, h)
  {
    CutOffAt(p, k, c, h);
  }

  lemma CutOffAt(p: seq<Byte>, k: nat, c: nat, h: Byte)
    requires c > 0 && k < |p|
    ensures var len := Least(|p| - k, c); Chunks(p[k..], c, h) == p[k..k + len] + Rest(p[k + len..], c, h)
    ensures k == 0 ==> p[k..] == p
  {
    var len := Least(|p| - k, c);
    CutOff(p[k..], c, h);
    SliceOfRest(p, k, 0, len);
  }

  /** What write_message sends; nothing at all, not even the header, for an empty payload. */
  function MessageStream(header: seq<Byte>, payload: seq<Byte>, c: nat, h: Byte): seq<Byte>
    requires c > 0
  {
    if payload == [] then [] else header + Chunks(payload, c, h)
  }

  /** One chunk and the rest. */
  lemma CutOff(p: seq<Byte>, c: nat, h: Byte)
    requires c > 0 && p != []
    ensures var len := if |p| < c then |p| else c; Chunks(p, c, h) == p[..len] + Rest(p[len..], c, h)
  {
    if |p| <= c {
      assert p[|p|..] == [] && p[..|p|] == p;
    }
  }

  // ---------- Receiving ----------

  /** What csid_header remembers of the last header on a chunk stream. */
  datatype Fields = Fields(timestamp: int, delta: int, length: int, kind: Byte, streamId: int)

  const UNKNOWN := Fields(-1, -1, -1, 0xFF, -1)

  function Last(known: map<int, Fields>, csid: int): Fields {
    if csid in known then known[csid] else UNKNOWN
  }

  /**
   * csid_header after the fixed part of a header of format fmt on chunk stream csid; the reader of commands stores only
   * the length.
   */
  function Learnt(known: map<int, Fields>, s: seq<Byte>, fmt: nat, csid: int, media: bool): map<int, Fields>
    requires |s| >= FixedSize(fmt)
  {
    var last := Last(known, csid);
    if fmt == 0 then
      var m := ParseHeader(s);
      known[csid := if media then Fields(m.timestamp, m.timestamp, m.length, m.kind, m.streamId)
                    else last.(length := m.length)]
    else if fmt == 1 then
      var length := Value(Reversed(s[3..6]));
      known[csid := if media then last.(delta := Value(Reversed(s[..3])), length := length, kind := s[6])
                    else last.(length := length)]
    else if fmt == 2 && media then known[csid := last.(delta := Value(Reversed(s[..3])))]
    else known
  }

  /** The end of the reader of media headers: the extended timestamp, if there is one, and the sum. */
  function Timed(f: Fields, extended: seq<Byte>): Fields {
    var delta := if |extended| == 4 then Int32(Value(Reversed(extended))) else f.delta;
    f.(delta := delta, timestamp := Wrap32(f.timestamp + delta))
  }

  /** csid_header after a whole header. */
  function AfterHeader(known: map<int, Fields>, s: seq<Byte>, fmt: nat, csid: int, media: bool): map<int, Fields>
    requires |s| >= HeaderSize(s, fmt, media)
  {
    var after := Learnt(known, s, fmt, csid, media);
    if media && csid in after then after[csid := Timed(after[csid], s[FixedSize(fmt)..HeaderSize(s, fmt, media)])]
    else after
  }

  /** Of the stream, fewer than n bytes were taken. */
  predicate TakesLess(before: seq<Byte>, after: seq<Byte>, n: int) {
    |after| <= |before| < |after| + n && after == before[|before| - |after|..]
  }

  lemma TakesLessInAll(before: seq<Byte>, k: nat, after: seq<Byte>, n: int)
    requires k <= |before| && TakesLess(before[k..], after, n - k)
    ensures TakesLess(before, after, n)
  {
    SliceOfRest(before, k, 0, |before| - k - |after|);
  }

  class Receiver {
    var buffer: seq<Byte>
    var input: seq<Byte>  // what the socket is yet to deliver
    // For each read, -1 or the number of bytes it takes before it fails; after them all reads fail.
    var faults: seq<int>
    ghost var failed: bool  // a read has failed
    var known: map<int, Fields>

    /** st_read_fully: the next bytes, fewer than asked for only at the end of the stream; or -1 before the last one. */
    method ReadFully(n: nat) returns (rc: int, part: seq<Byte>)
      requires n > 0
      modifies `input, `faults, `failed
      ensures |faults| == if old(faults) == [] then 0 else |old(faults)| - 1
      ensures (rc == -1 || (rc == 0 && old(faults) != [])) && failed == (old(failed) || rc == -1)
      ensures rc == 0 ==> var k := Least(|old(input)|, n); part == old(input)[..k] && input == old(input)[k..]
      ensures rc == -1 ==> TakesLess(old(input), input, n)
    {
      if faults == [] {
        failed := true;
        return -1, [];
      }
      var fault := faults[0];
      faults := faults[1..];
      var k := Least(|input|, if 0 <= fault < n then fault else if fault < 0 then n else n - 1);
      part, input := input[..k], input[k..];
      failed := failed || fault >= 0;
      rc := if fault < 0 then 0 else -1;
    }

    /**
     * read_nbytes_cycle and read_nbytes_cycle_av: the buffer grows to nbytes, or stays as it is if a read fails.
     * nread is set only if it has to grow. At the end of the stream the loop goes on until a read fails.
     */
    method ReadNbytesCycle(nbytes: nat) returns (rc: int, nread: nat)
      modifies `buffer, `input, `faults, `failed
      ensures (rc == 0 || rc == -1) && (nbytes <= |old(buffer)| ==> rc == 0)
      ensures failed == (old(failed) || rc == -1)
      ensures rc == -1 ==> buffer == old(buffer) && TakesLess(old(input), input, nbytes - |old(buffer)|)
      ensures rc == 0 ==>
        && nread == (if nbytes > |old(buffer)| then nbytes - |old(buffer)| else 0) <= |old(input)|
        && buffer == old(buffer) + old(input)[..nread] && input == old(input)[nread..]
    {
      rc, nread := 0, 0;
      if nbytes > |buffer| {
        var need, got := nbytes - |buffer|, [];
        while nread < need
          invariant rc == 0 && nread <= need && nread == |got| && buffer == old(buffer) && failed == old(failed)
          invariant nread <= |old(input)| && got == old(input)[..nread] && input == old(input)[nread..]
          decreases |faults|
        {
          rc, nread, got := ReadPart(need, nread, got, old(input));
          if rc == -1 { return; }
        }
        buffer := buffer + got;
      }
    }

    /** One turn of that loop, over the input s as it was before the first. */
    method ReadPart(need: nat, nread0: nat, got0: seq<Byte>, ghost s: seq<Byte>)
      returns (rc: int, nread: nat, got: seq<Byte>)
      requires nread0 < need && nread0 <= |s| && got0 == s[..nread0] && input == s[nread0..]
      modifies `input, `faults, `failed
      ensures (rc == 0 || rc == -1) && failed == (old(failed) || rc == -1)
      ensures rc == 0 ==> |faults| < |old(faults)|
      ensures rc == 0 ==> nread <= need && nread <= |s| && got == s[..nread] && input == s[nread..]
      ensures rc == -1 ==> TakesLess(s, input, need)
    {
      nread, got := nread0, got0;
      var part;
      rc, part := ReadFully(need - nread);
      if rc == -1 {
        TakesLessInAll(s, nread, input, need);
        return;
      }
      TakeMore(s, nread, |part|);
      got := got + part;
      nread := nread + |part|;
    }

    /** read_nbytes and read_nbytes_av: the same with one read, which must deliver everything. */
    method ReadNbytes(nbytes: nat) returns (rc: int)
      modifies `buffer, `input, `faults, `failed
      ensures (rc == 0 || rc == -1) && (nbytes <= |old(buffer)| ==> rc == 0)
      ensures failed ==> old(failed) || rc == -1
      ensures rc == -1 ==> failed || |old(input)| < nbytes - |old(buffer)|
      ensures rc == -1 ==> buffer == old(buffer)
      ensures rc == 0 ==>
        var k := if nbytes > |old(buffer)| then nbytes - |old(buffer)| else 0;
        k <= |old(input)| && buffer == old(buffer) + old(input)[..k] && input == old(input)[k..]
    {
      rc := 0;
      if nbytes > |buffer| {
        var part;
        rc, part := ReadFully(nbytes - |buffer|);
        if rc == -1 || |part| != nbytes - |buffer| { return -1; }
        buffer := buffer + part;
      }
    }

    /** read_basic_header and read_audio_video_basic_header, into an empty buffer */
    method ReadBasicHeader() returns (rc: int, fmt: nat, csid: int, bhSize: nat)
      requires buffer == []
      modifies `buffer, `input, `faults, `failed
      ensures (rc == 0 || rc == -1) && (failed ==> old(failed) || rc == -1)
      ensures rc == -1 ==> failed || (old(input) != [] && |old(input)| < BasicSize(old(input)[0]))
      ensures rc == 0 ==>
        && old(input) != [] && bhSize == BasicSize(old(input)[0]) <= |old(input)| && fmt <= 3
        && (fmt, csid) == ParseBasic(old(input))
        && buffer == old(input)[..bhSize] && input == old(input)[bhSize..]
    {
      fmt, csid, bhSize := 0, 0, 1;
      ghost var s := input;
      var nread;
      rc, nread := ReadNbytesCycle(1);
      if rc == -1 { return; }
      var bh := buffer[0];
      fmt, csid := bh / 64, bh % 64;
      if csid == 0 {
        rc := ReadNbytes(2);
        if rc == -1 { return; }
        TakeMore(s, 1, 1);
        csid, bhSize := 64 + Int8(buffer[1]), 2;
      } else if csid == 1 {
        rc := ReadNbytes(3);
        if rc == -1 { return; }
        TakeMore(s, 1, 2);
        csid, bhSize := 64 + Int8(buffer[1]) + 256 * Int8(buffer[2]), 3;
      }
    }

    /** The fields of a header of format 0 to 2 in the buffer, behind a basic header of bhSize bytes. */
    method Learn(fmt: nat, csid: int, bhSize: nat, media: bool, ghost s: seq<Byte>)
      requires fmt <= 2 && bhSize + FixedSize(fmt) == |buffer| && FixedSize(fmt) <= |s|
      requires buffer[bhSize..] == s[..FixedSize(fmt)]
      modifies `known
      ensures known == Learnt(old(known), s, fmt, csid, media)
    {
      var p := buffer[bhSize..];
      FieldSlices(s, FixedSize(fmt));
      if media {
        if csid !in known { known := known[csid := UNKNOWN]; }
        var stamp := Value(Reversed(p[..3]));
        if fmt == 0 { known := known[csid := known[csid].(timestamp := stamp)]; }
        known := known[csid := known[csid].(delta := stamp)];
      }
      if fmt <= 1 {
        known := known[csid := Last(known, csid).(length := Value(Reversed(p[3..6])))];
        if media {
          known := known[csid := known[csid].(kind := p[6])];
          if fmt < 1 {
            known := known[csid := known[csid].(streamId := Int32(Value(p[7..11])))];
          }
        }
      }
    }

    /**
     * read_message_header and read_audio_video_message_header, behind a basic header of bhSize bytes. The reader of
     * media messages knows what format 3 repeats, or fails.
     */
    method ReadMessageHeader(fmt: nat, csid: int, bhSize: nat, media: bool) returns (rc: int, mhSize: nat)
      requires fmt <= 3 && bhSize == |buffer|
      modifies this
      ensures (rc == 0 || rc == -1) && (failed ==> old(failed) || rc == -1)
      ensures rc == -1 ==> failed || (media && fmt == 3 && csid !in old(known))
      ensures rc == 0 ==>
        && mhSize == HeaderSize(old(input), fmt, media) <= |old(input)|
        && buffer == old(buffer) + old(input)[..mhSize] && input == old(input)[mhSize..]
        && known == AfterHeader(old(known), old(input), fmt, csid, media) && (media ==> csid in known)
      ensures rc == -1 ==>
        || known == old(known)
        || (|old(input)| >= FixedSize(fmt) && known == Learnt(old(known), old(input), fmt, csid, media))
      ensures media && fmt == 3 && csid !in old(known) ==> rc == -1
    {
      mhSize := FixedSize(fmt);
      ghost var s := input;
      var nread;
      rc, nread := ReadNbytesCycle(bhSize + mhSize);
      if rc == -1 { return; }
      if fmt == 3 {
        rc := if media && csid !in known then -1 else 0;
        if rc == 0 && media { AddDelta(csid, []); }
        return;
      }
      BehindBasic(old(buffer), s, mhSize);
      Learn(fmt, csid, bhSize, media, s);
      var delta := if media || fmt > 0 then Value(Reversed(buffer[bhSize..][..3])) else 0;
      if delta == 0xFFFFFF {
        rc, nread := ReadNbytesCycle(bhSize + mhSize + 4);
        if rc == -1 { return; }
        TakeMore(s, mhSize, 4);
        Extended(old(buffer), s, mhSize);
        if media { AddDelta(csid, buffer[bhSize + mhSize..]); }
        mhSize := mhSize + 4;
      } else if media {
        AddDelta(csid, []);
      }
    }

    /** The extended timestamp replaces the difference, and that is added to the time. */
    method AddDelta(csid: int, extended: seq<Byte>)
      requires csid in known && (extended == [] || |extended| == 4)
      modifies `known
      ensures known == old(known)[csid := Timed(old(known)[csid], extended)]
    {
      if extended != [] {
        known := known[csid := known[csid].(delta := Int32(Value(Reversed(extended))))];
      }
      known := known[csid := known[csid].(timestamp := Wrap32(known[csid].timestamp + known[csid].delta))];
    }

    /** One turn of the receive loops: a chunk and, but for the first, the header byte that is erased again. */
    method ReceiveChunk(nread: nat, len: nat) returns (rc: int, temp: nat)
      requires len > 0
      modifies `buffer, `input, `faults, `failed
      ensures (rc == 0 || rc == -1) && (rc == -1 ==> buffer == old(buffer)) && failed == (old(failed) || rc == -1)
      ensures rc == -1 ==> TakesLess(old(input), input, HeadBytes(nread) + len)
      ensures rc == 0 ==>
        && |old(input)| >= HeadBytes(nread) + len && temp == len && input == old(input)[HeadBytes(nread) + len..]
        && buffer == old(buffer) + old(input)[HeadBytes(nread)..HeadBytes(nread) + len]
    {
      var nbytes := len + if nread > 0 then 1 else 0;
      rc, temp := ReadNbytesCycle(nbytes + |buffer|);
      if rc == 0 && nread > 0 {
        temp := temp - 1;
        var index := |buffer| - 1 - temp;
        buffer := buffer[..index] + buffer[index + 1..];
      }
    }

    /**
     * The loop of ConnectMessage::read_payload and of recv_audio_video_payload. If a read fails, the chunks before it
     * are in the buffer, and the next one has not come in whole.
     */
    method ReadPayload(messageLength: nat, chunkSize: nat) returns (rc: int, ghost done: nat)
      requires chunkSize > 0
      modifies `buffer, `input, `faults, `failed
      ensures (rc == 0 && done == messageLength) || (rc == -1 && done < messageLength)
      ensures failed == (old(failed) || rc == -1)
      ensures |old(input)| >= WireLength(done, chunkSize)
      ensures buffer == old(buffer) + Dechunk(old(input), done, chunkSize)
      ensures rc == -1 ==>
        TakesLess(old(input), input, WireLength(done + Least(messageLength - done, chunkSize), chunkSize))
      ensures rc == 0 ==> input == old(input)[WireLength(messageLength, chunkSize)..]
    {
      ghost var (d, w) := Taken(input, messageLength, chunkSize);
      rc, done := ReadAll(messageLength, chunkSize, d, w);
    }

    method ReadAll(messageLength: nat, chunkSize: nat, ghost d: int -> seq<Byte>, ghost w: int -> int)
      returns (rc: int, ghost done: nat)
      requires chunkSize > 0 && IsTaken(d, w, input, messageLength, chunkSize)
      modifies `buffer, `input, `faults, `failed
      ensures (rc == 0 && done == messageLength) || (rc == -1 && done < messageLength)
      ensures failed == (old(failed) || rc == -1)
      ensures 0 <= w(done) <= |old(input)| && buffer == old(buffer) + d(done)
      ensures rc == -1 ==> TakesLess(old(input), input, w(done + Least(messageLength - done, chunkSize)))
      ensures rc == 0 ==> input == old(input)[w(messageLength)..]
    {
      var nread: nat := 0;
      ghost var s := input;
      while nread < messageLength
        invariant nread <= messageLength && (nread < messageLength ==> Whole(nread, chunkSize)) && failed == old(failed)
        invariant 0 <= w(nread) <= |s| && input == s[w(nread)..] && buffer == old(buffer) + d(nread)
      {
        var temp;
        rc, temp := ReadNext(nread, messageLength, chunkSize, d, w, s, old(buffer));
        if rc == -1 { return -1, nread; }
        nread := nread + temp;
      }
      rc, done := 0, nread;
    }

    /**
     * recv_audio_video into an empty buffer: if the input begins with a message of payload p in chunks, then unless a
     * read fails the buffer gets its headers and the payload, its fields are stored, and what follows stays in the
     * input.
     */
    method RecvAudioVideo(chunkSize: nat, ghost fmt0: nat, ghost csid0: int, ghost p: seq<Byte>, ghost rest: seq<Byte>)
      returns (rc: int, csid: int, size: nat)
      requires chunkSize > 0 && buffer == []
      modifies this
      ensures (rc == 0 || rc == -1) && (failed ==> old(failed) || rc == -1)
      ensures rc == -1 && Incoming(old(input), old(known), fmt0, csid0, p, chunkSize, rest) ==> failed
      ensures rc == 0 && Incoming(old(input), old(known), fmt0, csid0, p, chunkSize, rest) ==>
        && csid == csid0 && known == AfterHeader(old(known), BehindBase(old(input)), fmt0, csid0, true)
        && size == BasicSize(old(input)[0]) + HeaderSize(BehindBase(old(input)), fmt0, true) <= |old(input)|
        && buffer == old(input)[..size] + p && input == rest
    {
      var fmt, bhSize, mhSize;
      size := 0;
      rc, fmt, csid, bhSize := ReadBasicHeader();
      if rc == -1 { return; }
      rc, mhSize := ReadMessageHeader(fmt, csid, bhSize, true);
      if rc == -1 { return; }
      size := bhSize + mhSize;
      TakeMore(old(input), bhSize, mhSize);
      var length := known[csid].length;
      ghost var done;
      rc, done := ReadPayload(if length < 0 then 0 else length, chunkSize);
    }

    /** One turn of that loop, over the input s as it was before the first. */
    method ReadNext(nread: nat, messageLength: nat, chunkSize: nat, ghost d: int -> seq<Byte>, ghost w: int -> int,
                    ghost s: seq<Byte>, ghost base: seq<Byte>)
      returns (rc: int, temp: nat)
      requires chunkSize > 0 && IsTaken(d, w, s, messageLength, chunkSize)
      requires nread < messageLength && Whole(nread, chunkSize)
      requires 0 <= w(nread) <= |s| && input == s[w(nread)..] && buffer == base + d(nread)
      modifies `buffer, `input, `faults, `failed
      ensures (rc == 0 || rc == -1) && (rc == -1 ==> buffer == old(buffer)) && failed == (old(failed) || rc == -1)
      ensures rc == -1 ==> TakesLess(s, input, w(nread + Least(messageLength - nread, chunkSize)))
      ensures rc == 0 ==>
        var k := nread + temp;
        && temp > 0 && k <= messageLength && (k < messageLength ==> Whole(k, chunkSize))
        && 0 <= w(k) <= |s| && input == s[w(k)..] && buffer == base + d(k)
    {
      var left := messageLength - nread;
      var len := if left <= chunkSize then left else chunkSize;
      rc, temp := ReceiveChunk(nread, len);
      if rc == -1 {
        NextFails(d, w, s, messageLength, chunkSize, nread, input);
      } else {
        NextTaken(d, w, s, messageLength, chunkSize, nread);
        Regroup(base, d(nread), s[w(nread)..][HeadBytes(nread)..HeadBytes(nread) + len]);
      }
    }
  }

  /** d(k) are the first k payload bytes and w(k) is how much of the input they take, if there is that much. */
  ghost predicate TakenAt(d: int -> seq<Byte>, w: int -> int, s: seq<Byte>, n: nat, c: nat, k: int) {
    0 <= k < n && Whole(k, c) ==>
      var len, x := Least(n - k, c), w(k) + HeadBytes(k);
      && 0 <= w(k) && w(k + len) == x + len && (x + len <= |s| ==> d(k + len) == d(k) + s[x..x + len])
      && (k + len < n ==> Whole(k + len, c))
  }

  ghost predicate IsTaken(d: int -> seq<Byte>, w: int -> int, s: seq<Byte>, n: nat, c: nat) {
    d(0) == [] && w(0) == 0 && forall k {:trigger TakenAt(d, w, s, n, c, k)} :: TakenAt(d, w, s, n, c, k)
  }

  lemma NextFails(d: int -> seq<Byte>, w: int -> int, s: seq<Byte>, n: nat, c: nat, k: nat, after: seq<Byte>)
    requires c > 0 && IsTaken(d, w, s, n, c) && k < n && Whole(k, c) && 0 <= w(k) <= |s|
    requires TakesLess(s[w(k)..], after, HeadBytes(k) + Least(n - k, c))
    ensures TakesLess(s, after, w(k + Least(n - k, c)))
  {
    assert TakenAt(d, w, s, n, c, k);
    TakesLessInAll(s, w(k), after, w(k + Least(n - k, c)));
  }

  lemma NextTaken(d: int -> seq<Byte>, w: int -> int, s: seq<Byte>, n: nat, c: nat, k: nat)
    requires c > 0 && IsTaken(d, w, s, n, c) && k < n && Whole(k, c) && 0 <= w(k) <= |s|
    requires HeadBytes(k) + Least(n - k, c) <= |s[w(k)..]|
    ensures var len, head := Least(n - k, c), HeadBytes(k);
      && 0 <= w(k + len) <= |s| && (k + len < n ==> Whole(k + len, c))
      && s[w(k)..][head + len..] == s[w(k + len)..] && d(k + len) == d(k) + s[w(k)..][head..head + len]
  {
    assert TakenAt(d, w, s, n, c, k);
    SliceOfRest(s, w(k), HeadBytes(k), HeadBytes(k) + Least(n - k, c));
  }

  ghost function Taken(s: seq<Byte>, n: nat, c: nat): (r: (int -> seq<Byte>, int -> int))
    requires c > 0
    ensures IsTaken(r.0, r.1, s, n, c)
    ensures forall k {:trigger r.1(k)} :: 0 <= k <= n ==>
      r.1(k) == WireLength(k, c) && (|s| >= r.1(k) ==> r.0(k) == Dechunk(s, k, c))
  {
    var d := (k: int) => if 0 <= k && |s| >= WireLength(k, c) then Dechunk(s, k, c) else [];
    var w := (k: int) => if k < 0 then 0 else WireLength(k, c);
    TakenFacts(d, w, s, n, c);
    (d, w)
  }

  lemma TakenFacts(d: int -> seq<Byte>, w: int -> int, s: seq<Byte>, n: nat, c: nat)
    requires c > 0
    requires forall k :: 0 <= k <= n ==> w(k) == WireLength(k, c) && (|s| >= w(k) ==> d(k) == Dechunk(s, k, c))
    ensures IsTaken(d, w, s, n, c)
  {
    forall k ensures TakenAt(d, w, s, n, c, k) {
      if 0 <= k < n && Whole(k, c) {
        var len := Least(n - k, c);
        assert w(k) == WireLength(k, c) && w(k + len) == WireLength(k + len, c);
        TakenOne(d, w, s, n, c, k);
      }
    }
  }

  lemma TakenOne(d: int -> seq<Byte>, w: int -> int, s: seq<Byte>, n: nat, c: nat, k: nat)
    requires c > 0 && k < n && Whole(k, c)
    requires var m := k + Least(n - k, c); w(k) == WireLength(k, c) && w(m) == WireLength(m, c)
    requires |s| >= w(k) ==> d(k) == Dechunk(s, k, c)
    requires var m := k + Least(n - k, c); |s| >= w(m) ==> d(m) == Dechunk(s, m, c)
    ensures TakenAt(d, w, s, n, c, k)
  {
    TakenWire(n, c, k);
    if w(k + Least(n - k, c)) <= |s| { NextChunk(s, k, Least(n - k, c), c); }
  }

  lemma TakenWire(n: nat, c: nat, k: nat)
    requires c > 0 && k < n && Whole(k, c)
    ensures var len := Least(n - k, c);
      && WireLength(k + len, c) == WireLength(k, c) + HeadBytes(k) + len <= WireLength(n, c)
      && (k + len < n ==> Whole(k + len, c))
  {
    WholeFits(k, Least(n - k, c), n, c);
    NextWire(k, Least(n - k, c), c);
  }

  function HeadBytes(nread: nat): nat {
    if nread > 0 then 1 else 0
  }

  /** A whole number of chunks. */
  predicate Whole(k: nat, c: nat) {
    k == 0 || (0 < c <= k && Whole(k - c, c))
  }

  lemma {:induction false} PosInChunk(k: nat, j: nat, c: nat)
    requires c > 0 && Whole(k, c) && j < c
    ensures Pos(k + j, c) == WireLength(k, c) + HeadBytes(k) + j
    decreases k
  {
    if k > 0 {
      PosInChunk(k - c, j, c);
      if k == c { assert Pos(k - 1, c) == k - 1; } else { assert Pos(k - 1, c) == c + 1 + Pos(k - c - 1, c); }
    }
  }

  /** One more chunk, of len bytes. */
  lemma NextWire(k: nat, len: nat, c: nat)
    requires c > 0 && Whole(k, c) && 0 < len <= c
    ensures WireLength(k + len, c) == WireLength(k, c) + HeadBytes(k) + len
  {
    PosInChunk(k, len - 1, c);
  }

  lemma NextChunk(s: seq<Byte>, k: nat, len: nat, c: nat)
    requires c > 0 && Whole(k, c) && 0 < len <= c
    requires |s| >= WireLength(k + len, c) == WireLength(k, c) + HeadBytes(k) + len
    ensures var w := WireLength(k, c) + HeadBytes(k); Dechunk(s, k + len, c) == Dechunk(s, k, c) + s[w..w + len]
  {
    var w := WireLength(k, c) + HeadBytes(k);
    var x, y := Dechunk(s, k + len, c), Dechunk(s, k, c) + s[w..w + len];
    forall i | 0 <= i < k + len ensures x[i] == y[i] {
      if i >= k { PosInChunk(k, i - k, c); }
    }
  }

  lemma FieldSlices(s: seq<Byte>, n: nat)
    requires n <= |s|
    ensures n >= 3 ==> s[..n][..3] == s[..3]
    ensures n >= 7 ==> s[..n][3..6] == s[3..6] && s[..n][6] == s[6]
    ensures n >= 11 ==> s[..n][7..11] == s[7..11]
  {
  }

  lemma Extended(b: seq<Byte>, s: seq<Byte>, n: nat)
    requires n + 4 <= |s|
    ensures (b + s[..n + 4])[|b| + n..] == s[n..n + 4]
  {
  }

  lemma BehindBasic(b: seq<Byte>, s: seq<Byte>, n: nat)
    requires n <= |s|
    ensures (b + s[..n])[|b|..] == s[..n] && (n >= 3 ==> (b + s[..n])[|b|..][..3] == s[..3])
  {
    assert (b + s[..n])[|b|..] == s[..n];
    FieldSlices(s, n);
  }

  lemma TakeMore(s: seq<Byte>, n: nat, k: nat)
    requires n + k <= |s|
    ensures s[..n] + s[n..][..k] == s[..n + k] && s[n..][k..] == s[n + k..]
  {
  }

  lemma SliceOfRest(s: seq<Byte>, k: nat, i: nat, j: nat)
    requires k <= |s| && i <= j <= |s| - k
    ensures s[k..][i..j] == s[k + i..k + j] && s[k..][j..] == s[k + j..]
  {
  }

  lemma {:induction false} WholeFits(k: nat, len: nat, n: nat, c: nat)
    requires c > 0 && Whole(k, c) && k < n && len == Least(n - k, c)
    ensures k + len < n ==> Whole(k + len, c)
    ensures WireLength(k + len, c) <= WireLength(n, c)
  {
    if k + len < n {
      WireGrows(k + len, n, c);
      WholePlus(k, c);
    }
  }

  lemma {:induction false} WholePlus(k: nat, c: nat)
    requires c > 0 && Whole(k, c)
    ensures Whole(k + c, c)
  {
    assert k + c - c == k;
  }

  // ---------- Message headers ----------

  /** The sizes of message headers by format, without the extended timestamp. */
  function FixedSize(fmt: nat): nat {
    if fmt == 0 then 11 else if fmt == 1 then 7 else if fmt == 2 then 3 else 0
  }

  /**
   * What the two header readers take off the stream: four bytes more if the timestamp field is 0xFFFFFF. Formats 0
   * count only for the reader of media messages.
   */
  function HeaderSize(s: seq<Byte>, fmt: nat, media: bool): nat {
    FixedSize(fmt)
    + if fmt <= 2 && (media || fmt > 0) && |s| >= 3 && Value(Reversed(s[..3])) == 0xFFFFFF then 4 else 0
  }

  /** The fields of a fmt 0 header. */
  function ParseHeader(s: seq<Byte>): MediaHeader
    requires |s| >= 11
  {
    MediaHeader(Value(Reversed(s[..3])), Value(Reversed(s[3..6])), s[6], Int32(Value(s[7..11])))
  }

  /** The message header of write_header. */
  function WriteHeader(fmt: nat, m: MediaHeader): (r: seq<Byte>)
    requires fmt <= 3
    ensures |r| == FixedSize(fmt) + if fmt <= 2 && m.timestamp > 0xFFFFFF then 4 else 0
    ensures fmt <= 2 ==> r[..3] == if m.timestamp > 0xFFFFFF then Be(0xFFFFFF, 3) else Be(m.timestamp, 3)
  {
    var stamp: seq<Byte> := if fmt == 3 then [] else if m.timestamp > 0xFFFFFF then Be(0xFFFFFF, 3)
      else Be(m.timestamp, 3);
    var kind: seq<Byte> := if fmt <= 1 then Be(m.length, 3) + [m.kind] else [];
    var stream: seq<Byte> := if fmt == 0 then Low(m.streamId, 4) else [];
    var extended: seq<Byte> := if fmt <= 2 && m.timestamp > 0xFFFFFF then Be(m.timestamp, 4) else [];
    stamp + (kind + stream + extended)
  }

  /** The timestamp field asks for an extended timestamp. */
  predicate Escapes(timestamp: int) {
    timestamp % 0x100_0000 == 0xFFFFFF
  }

  /** The timestamps with which writer and reader agree on where the header ends. */
  predicate HeaderEndsAgree(fmt: nat, timestamp: int, media: bool) {
    if fmt == 3 then true
    else if media || fmt > 0 then timestamp > 0xFFFFFF || !Escapes(timestamp)
    else timestamp <= 0xFFFFFF
  }

  lemma StampField(t: int)
    ensures Value(Reversed(Be(t, 3))) == t % 0x100_0000
  {
    BeRoundTrip(t, 3);
    Widths();
  }

  /**
   * Writer and reader agree on where a header ends, except for one timestamp field: the writer extends timestamps
   * above 0xFFFFFF, the reader all whose field is 0xFFFFFF; and the reader of commands never extends format 0.
   */
  lemma HeadersAgreeIff(fmt: nat, m: MediaHeader, media: bool, rest: seq<Byte>)
    requires fmt <= 3
    ensures HeaderSize(WriteHeader(fmt, m) + rest, fmt, media) == |WriteHeader(fmt, m)| <==>
      HeaderEndsAgree(fmt, m.timestamp, media)
  {
    if fmt <= 2 {
      StampFirst(fmt, m, rest);
      StampEscapes(m.timestamp);
    }
  }

  /** The timestamp field of a written header looks extended for these timestamps. */
  lemma StampEscapes(timestamp: int)
    ensures var t := if timestamp > 0xFFFFFF then 0xFFFFFF else timestamp;
      Value(Reversed(Be(t, 3))) == 0xFFFFFF <==> timestamp > 0xFFFFFF || Escapes(timestamp)
  {
    StampField(if timestamp > 0xFFFFFF then 0xFFFFFF else timestamp);
  }

  /** It happens: the timestamp 0xFFFFFF is written in three bytes, and the reader takes four bytes more. */
  lemma StampOfOnes(rest: seq<Byte>)
    ensures var r := WriteHeader(1, MediaHeader(0xFFFFFF, 1, 9, 1)); |r| == 7 && HeaderSize(r + rest, 1, true) == 11
  {
    StampFirst(1, MediaHeader(0xFFFFFF, 1, 9, 1), rest);
    StampField(0xFFFFFF);
  }

  lemma StampFirst(fmt: nat, m: MediaHeader, rest: seq<Byte>)
    requires fmt <= 2
    ensures |WriteHeader(fmt, m) + rest| >= 3
    ensures (WriteHeader(fmt, m) + rest)[..3] == Be(if m.timestamp > 0xFFFFFF then 0xFFFFFF else m.timestamp, 3)
  {
    var r := WriteHeader(fmt, m);
    assert (r + rest)[..3] == r[..3];
  }

  // ---------- What the readers store ----------

  /** The parts of a written header: stamp, length, kind, stream and extended timestamp, as far as the format goes. */
  lemma HeaderParts(fmt: nat, m: MediaHeader, rest: seq<Byte>)
    requires fmt <= 3
    ensures var s := WriteHeader(fmt, m) + rest;
      && (fmt <= 2 ==> s[..3] == Be(if m.timestamp > 0xFFFFFF then 0xFFFFFF else m.timestamp, 3))
      && (fmt <= 1 ==> s[3..6] == Be(m.length, 3) && s[6] == m.kind)
      && (fmt == 0 ==> s[7..11] == Low(m.streamId, 4))
      && (fmt <= 2 && m.timestamp > 0xFFFFFF ==> s[FixedSize(fmt)..FixedSize(fmt) + 4] == Be(m.timestamp, 4))
  {
    if fmt <= 2 { StampFirst(fmt, m, rest); }
    if fmt <= 1 {
      HeaderTail(Be(if m.timestamp > 0xFFFFFF then 0xFFFFFF else m.timestamp, 3), Be(m.length, 3), [m.kind],
                 if fmt == 0 then Low(m.streamId, 4) else [], if m.timestamp > 0xFFFFFF then Be(m.timestamp, 4) else [],
                 rest);
    }
  }

  lemma HeaderTail(a: seq<Byte>, b: seq<Byte>, c: seq<Byte>, d: seq<Byte>, e: seq<Byte>, rest: seq<Byte>)
    requires |a| == 3 && |b| == 3 && |c| == 1
    ensures var s := a + (b + c + d + e) + rest;
      && s[3..6] == b && s[6] == c[0] && s[7..7 + |d|] == d && s[7 + |d|..7 + |d| + |e|] == e
  {
    var s := a + (b + c + d + e) + rest;
    assert s[3..6] == b && s[7..7 + |d|] == d && s[7 + |d|..7 + |d| + |e|] == e;
  }

  /** The fields stored after a header of this format, given those before. */
  function Stored(last: Fields, fmt: nat, m: MediaHeader): Fields {
    var delta := if fmt <= 2 then m.timestamp else last.delta;
    var time := if fmt > 0 then last.timestamp else if m.timestamp > 0xFFFFFF then 0xFFFFFF else m.timestamp;
    Fields(Wrap32(time + delta), delta, if fmt <= 1 then m.length else last.length,
           if fmt <= 1 then m.kind else last.kind, if fmt == 0 then m.streamId else last.streamId)
  }

  lemma FieldValues(m: MediaHeader)
    requires 0 <= m.timestamp < 0x8000_0000 && 0 <= m.length < 0x100_0000
    requires -0x8000_0000 <= m.streamId < 0x8000_0000
    ensures var t := if m.timestamp > 0xFFFFFF then 0xFFFFFF else m.timestamp;
      && Value(Reversed(Be(t, 3))) == t && Int32(Value(Reversed(Be(m.timestamp, 4)))) == m.timestamp
      && Value(Reversed(Be(m.length, 3))) == m.length && Int32(Value(Low(m.streamId, 4))) == m.streamId
  {
    ThreeBytes(if m.timestamp > 0xFFFFFF then 0xFFFFFF else m.timestamp);
    ThreeBytes(m.length);
    TimeField(m.timestamp);
    StreamField(m.streamId);
  }

  lemma ThreeBytes(n: int)
    requires 0 <= n < 0x100_0000
    ensures Value(Reversed(Be(n, 3))) == n
  {
    StampField(n);
  }

  lemma TimeField(t: int)
    requires -0x8000_0000 <= t < 0x8000_0000
    ensures Int32(Value(Reversed(Be(t, 4)))) == t
  {
    BeRoundTrip(t, 4);
    Widths();
  }

  lemma StreamField(n: int)
    requires -0x8000_0000 <= n < 0x8000_0000
    ensures Int32(Value(Low(n, 4))) == n
  {
    ValueOfLow(n, 4);
    Widths();
  }

  /**
   * The reader of media headers stores of a written header what its format has and keeps what it has not. But the
   * time it stores is the sum of what it takes for time and for difference, and for format 0 it takes the timestamp for
   * both.
   */
  lemma HeaderIsStored(known: map<int, Fields>, fmt: nat, csid: int, m: MediaHeader, rest: seq<Byte>)
    requires fmt <= 3 && HeaderEndsAgree(fmt, m.timestamp, true) && (fmt == 3 ==> csid in known)
    requires 0 <= m.timestamp < 0x8000_0000 && 0 <= m.length < 0x100_0000
    requires -0x8000_0000 <= m.streamId < 0x8000_0000
    ensures var s := WriteHeader(fmt, m) + rest;
      && |s| >= HeaderSize(s, fmt, true)
      && AfterHeader(known, s, fmt, csid, true) == known[csid := Stored(Last(known, csid), fmt, m)]
  {
    HeadersAgreeIff(fmt, m, true, rest);
    HeaderParts(fmt, m, rest);
    FieldValues(m);
    StoredParts(known, WriteHeader(fmt, m) + rest, fmt, csid, m);
  }

  lemma StoredParts(known: map<int, Fields>, s: seq<Byte>, fmt: nat, csid: int, m: MediaHeader)
    requires fmt <= 3 && (fmt == 3 ==> csid in known) && (fmt <= 2 ==> m.timestamp != 0xFFFFFF) && m.timestamp >= 0
    requires |s| >= HeaderSize(s, fmt, true)
    requires HeaderSize(s, fmt, true) == FixedSize(fmt) + if fmt <= 2 && m.timestamp > 0xFFFFFF then 4 else 0
    requires fmt <= 2 ==> Value(Reversed(s[..3])) == if m.timestamp > 0xFFFFFF then 0xFFFFFF else m.timestamp
    requires fmt <= 1 ==> Value(Reversed(s[3..6])) == m.length && s[6] == m.kind
    requires fmt == 0 ==> Int32(Value(s[7..11])) == m.streamId
    requires fmt <= 2 && m.timestamp > 0xFFFFFF ==>
      Int32(Value(Reversed(s[FixedSize(fmt)..FixedSize(fmt) + 4]))) == m.timestamp
    ensures AfterHeader(known, s, fmt, csid, true) == known[csid := Stored(Last(known, csid), fmt, m)]
  {
  }

  /** So after a header of format 0 the stored time is its timestamp exactly if that is 0; otherwise times add up. */
  lemma TimeIsKeptIff(known: map<int, Fields>, fmt: nat, csid: int, m: MediaHeader, rest: seq<Byte>)
    requires fmt <= 2 && HeaderEndsAgree(fmt, m.timestamp, true)
    requires 0 <= m.timestamp < 0x8000_0000 && 0 <= m.length < 0x100_0000
    requires -0x8000_0000 <= m.streamId < 0x8000_0000
    ensures var s := WriteHeader(fmt, m) + rest;
      && |s| >= HeaderSize(s, fmt, true) && csid in AfterHeader(known, s, fmt, csid, true)
      && (var time := AfterHeader(known, s, fmt, csid, true)[csid].timestamp;
          if fmt == 0 then time == m.timestamp <==> m.timestamp == 0
          else time == Wrap32(Last(known, csid).timestamp + m.timestamp))
  {
    HeaderIsStored(known, fmt, csid, m, rest);
    StoredTime(Last(known, csid), fmt, m);
  }

  lemma StoredTime(last: Fields, fmt: nat, m: MediaHeader)
    requires fmt <= 2 && HeaderEndsAgree(fmt, m.timestamp, true) && 0 <= m.timestamp < 0x8000_0000
    ensures var time := Stored(last, fmt, m).timestamp;
      if fmt == 0 then time == m.timestamp <==> m.timestamp == 0 else time == Wrap32(last.timestamp + m.timestamp)
  {
  }

  /** It happens: at 40 milliseconds, the reader stores 80. */
  lemma TimeIsDoubled(known: map<int, Fields>, rest: seq<Byte>)
    ensures var s := WriteHeader(0, MediaHeader(40, 1, 9, 1)) + rest;
      && |s| >= HeaderSize(s, 0, true) && 6 in AfterHeader(known, s, 0, 6, true)
      && AfterHeader(known, s, 0, 6, true)[6].timestamp == 80
  {
    HeaderIsStored(known, 0, 6, MediaHeader(40, 1, 9, 1), rest);
  }

  /** The reader of commands stores the length that formats 0 and 1 have, and nothing else. */
  lemma LengthIsStored(known: map<int, Fields>, fmt: nat, csid: int, m: MediaHeader, rest: seq<Byte>)
    requires fmt <= 3 && HeaderEndsAgree(fmt, m.timestamp, false) && 0 <= m.length < 0x100_0000
    ensures var s := WriteHeader(fmt, m) + rest;
      && |s| >= HeaderSize(s, fmt, false)
      && AfterHeader(known, s, fmt, csid, false) ==
           if fmt <= 1 then known[csid := Last(known, csid).(length := m.length)] else known
  {
    HeadersAgreeIff(fmt, m, false, rest);
    HeaderParts(fmt, m, rest);
    StampField(m.length);
  }

  // ---------- The header of the relay ----------

  /** The header of the relay, behind its basic header byte. */
  lemma RelayHeaderParses(m: MediaHeader, rest: seq<Byte>)
    requires 0 <= m.length < 0x100_0000 && -0x8000_0000 <= m.streamId < 0x8000_0000
    requires m.timestamp >= 0xFFFFFF || !Escapes(m.timestamp)
    ensures var s := RelayHeader(m)[1..] + rest;
      && HeaderSize(s, 0, true) == |RelayHeader(m)| - 1 && RelayHeader(m)[0] == RelayCsid(m.kind)
      && ParseHeader(s).length == m.length && ParseHeader(s).kind == m.kind && ParseHeader(s).streamId == m.streamId
      && (m.timestamp < 0xFFFFFF ==> ParseHeader(s).timestamp == m.timestamp % 0x100_0000)
      && (m.timestamp >= 0xFFFFFF ==> Value(Reversed(s[11..15])) == m.timestamp % 0x1_0000_0000)
  {
    RelaySize(m, rest);
    RelayTime(m, rest);
    RelayLength(m, rest);
    RelayStreamId(m, rest);
  }

  lemma RelaySize(m: MediaHeader, rest: seq<Byte>)
    requires m.timestamp >= 0xFFFFFF || !Escapes(m.timestamp)
    ensures HeaderSize(RelayHeader(m)[1..] + rest, 0, true) == |RelayHeader(m)| - 1
  {
    RelayParts(m, rest);
    if m.timestamp >= 0xFFFFFF { AllOnes(); } else { StampField(m.timestamp); }
  }

  lemma RelayTime(m: MediaHeader, rest: seq<Byte>)
    ensures var s := RelayHeader(m)[1..] + rest;
      && (m.timestamp < 0xFFFFFF ==> ParseHeader(s).timestamp == m.timestamp % 0x100_0000)
      && (m.timestamp >= 0xFFFFFF ==> Value(Reversed(s[11..15])) == m.timestamp % 0x1_0000_0000)
  {
    RelayParts(m, rest);
    if m.timestamp < 0xFFFFFF {
      StampField(m.timestamp);
    } else {
      assert (RelayHeader(m)[1..] + rest)[11..15] == Be(m.timestamp, 4);
      BeRoundTrip(m.timestamp, 4);
      Widths();
    }
  }

  lemma RelayLength(m: MediaHeader, rest: seq<Byte>)
    requires 0 <= m.length < 0x100_0000
    ensures ParseHeader(RelayHeader(m)[1..] + rest).length == m.length
  {
    RelayParts(m, rest);
    StampField(m.length);
  }

  lemma RelayStreamId(m: MediaHeader, rest: seq<Byte>)
    requires -0x8000_0000 <= m.streamId < 0x8000_0000
    ensures ParseHeader(RelayHeader(m)[1..] + rest).kind == m.kind
    ensures ParseHeader(RelayHeader(m)[1..] + rest).streamId == m.streamId
  {
    RelayParts(m, rest);
    ValueOfLow(m.streamId, 4);
    Widths();
  }

  lemma RelayParts(m: MediaHeader, rest: seq<Byte>)
    ensures var s := RelayHeader(m)[1..] + rest;
      && s[..3] == (if m.timestamp >= 0xFFFFFF then [0xFF, 0xFF, 0xFF] else Be(m.timestamp, 3))
      && s[3..6] == Be(m.length, 3) && s[6] == m.kind && s[7..11] == Low(m.streamId, 4)
  {
    RelayFields(m);
    TailSlices(RelayHeader(m), rest);
  }

  lemma TailSlices(r: seq<Byte>, rest: seq<Byte>)
    requires |r| >= 12
    ensures var s := r[1..] + rest;
      s[..3] == r[1..4] && s[3..6] == r[4..7] && s[6] == r[7] && s[7..11] == r[8..12]
  {
    TailSlice(r, rest, 0, 3);
    TailSlice(r, rest, 3, 6);
    TailSlice(r, rest, 7, 11);
  }

  lemma TailSlice(r: seq<Byte>, rest: seq<Byte>, i: nat, j: nat)
    requires i <= j < |r|
    ensures (r[1..] + rest)[i..j] == r[i + 1..j + 1]
  {
  }

  lemma AllOnes()
    ensures Value(Reversed([0xFF, 0xFF, 0xFF])) == 0xFFFFFF
  {
    var s: seq<Byte> := [0xFF, 0xFF, 0xFF];
    ReversedAt(s, 0);
    ReversedAt(s, 1);
    ReversedAt(s, 2);
    assert Reversed(s) == s;
    assert s[1..] == [0xFF, 0xFF] && s[1..][1..] == [0xFF] && s[1..][1..][1..] == [];
    assert Value(s[1..][1..]) == 0xFF;
    assert Value(s[1..]) == 0xFFFF;
  }

  lemma RelayFields(m: MediaHeader)
    ensures var r := RelayHeader(m);
      && r[1..4] == (if m.timestamp >= 0xFFFFFF then [0xFF, 0xFF, 0xFF] else Be(m.timestamp, 3))
      && r[4..7] == Be(m.length, 3) && r[7] == m.kind && r[8..12] == Low(m.streamId, 4)
  {
    FieldsOf([RelayCsid(m.kind)], if m.timestamp >= 0xFFFFFF then [0xFF, 0xFF, 0xFF] else Be(m.timestamp, 3),
             Be(m.length, 3), [m.kind], Low(m.streamId, 4), if m.timestamp >= 0xFFFFFF then Be(m.timestamp, 4) else []);
  }

  lemma FieldsOf(a: seq<Byte>, b: seq<Byte>, c: seq<Byte>, d: seq<Byte>, e: seq<Byte>, f: seq<Byte>)
    requires |a| == 1 && |b| == 3 && |c| == 3 && |d| == 1 && |e| == 4
    ensures var r := a + b + (c + d + e) + f;
      r[1..4] == b && r[4..7] == c && r[7..8] == d && r[7] == d[0] && r[8..12] == e
  {
    var r := a + b + (c + d + e) + f;
    assert r[7..8][0] == r[7];
    assert r[1..4] == b && r[4..7] == c && r[7..8] == d && r[8..12] == e;
  }

  /** The basic header of write_header: one byte for chunk streams 2 to 63, two up to 319, else three. */
  function BasicHeader(fmt: nat, csid: int): (r: seq<Byte>)
    requires fmt <= 3
    ensures 0 < |r| <= 3
  {
    if 2 <= csid <= 63 then [64 * fmt + csid]
    else if csid <= 319 then [64 * fmt, (csid - 64) % 256]
    else [64 * fmt + 1] + Low(csid - 64, 2)
  }

  /** How many bytes the readers take for the basic header that b begins. */
  function BasicSize(b: Byte): (n: nat)
    ensures 1 <= n <= 3
  {
    if b % 64 == 0 then 2 else if b % 64 == 1 then 3 else 1
  }

  /** Format and chunk stream that the readers make of a basic header; they take its bytes for signed. */
  function ParseBasic(s: seq<Byte>): (nat, int)
    requires s != [] && |s| >= BasicSize(s[0])
  {
    (s[0] / 64,
     if s[0] % 64 == 0 then 64 + Int8(s[1])
     else if s[0] % 64 == 1 then 64 + Int8(s[1]) + 256 * Int8(s[2])
     else s[0] % 64)
  }

  /** They read back what was written exactly if the low byte of the number on the wire fits a signed one. */
  lemma BasicHeaderIff(fmt: nat, csid: int, rest: seq<Byte>)
    requires fmt <= 3
    ensures var r := BasicHeader(fmt, csid);
      && BasicSize(r[0]) == |r|
      && (ParseBasic(r + rest) == (fmt, csid) <==>
          -64 <= csid <= 191 || (320 <= csid < 0x8000 + 64 && (csid - 64) % 256 < 128))
  {
    var n := csid - 64;
    if csid > 319 {
      assert Low(n, 2) == [n % 256, n / 256 % 256] by { assert Low(n / 256, 1) == [n / 256 % 256]; }
    }
  }

  /**
   * The three forms of section 5.3.1.1 of the RTMP specification: the format in the upper two bits, and the chunk
   * stream in the lower six, or, behind 0 or 1 there, less 64 in one byte, or two with the lower first.
   */
  lemma BasicHeaderForms(fmt: nat, csid: int)
    requires fmt <= 3 && 2 <= csid < 0x1_0000 + 64
    ensures var r := BasicHeader(fmt, csid);
      && r[0] / 64 == fmt && |r| == (if csid <= 63 then 1 else if csid <= 319 then 2 else 3)
      && r[0] % 64 == (if csid <= 63 then csid else |r| - 2)
      && (|r| > 1 ==> Value(r[1..]) == csid - 64)
  {
    if csid > 319 {
      assert BasicHeader(fmt, csid)[1..] == Low(csid - 64, 2);
      ValueOfLow(csid - 64, 2);
      Widths();
    }
  }

  /** It happens: chunk stream 192 is read as -64. */
  lemma BasicHeaderMisread()
    ensures ParseBasic(BasicHeader(0, 192)) == (0, -64)
  {
  }

  /** The header of a continuation chunk names its chunk stream exactly if that fits the one-byte form. */
  lemma ContinuationNamesStreamIff(csid: int)
    ensures Sender.Fmt3(csid) / 64 == 3
    ensures (Sender.Fmt3(csid) % 64 == csid && csid >= 2) <==> 2 <= csid <= 63
  {
  }

  /** A message, its reader, and what follows: the header ends where it should, and the payload comes back. */
  lemma MessageIsRead(fmt: nat, csid: int, m: MediaHeader, p: seq<Byte>, c: nat, media: bool, rest: seq<Byte>)
    requires fmt <= 3 && 2 <= csid <= 63 && c > 0 && p != []
    requires HeaderEndsAgree(fmt, m.timestamp, media)
    ensures var header := BasicHeader(fmt, csid) + WriteHeader(fmt, m);
      var stream := MessageStream(header, p, c, Sender.Fmt3(csid));
      var s := stream[1..] + rest;
      var n := HeaderSize(s, fmt, media);
      && BasicSize(stream[0]) == 1 && ParseBasic(stream) == (fmt, csid) && Sender.Fmt3(csid) / 64 == 3
      && Sender.Fmt3(csid) % 64 == csid
      && n == |WriteHeader(fmt, m)| && |s| >= n + WireLength(|p|, c)
      && Dechunk(s[n..], |p|, c) == p && s[n..][WireLength(|p|, c)..] == rest
  {
    var header := BasicHeader(fmt, csid) + WriteHeader(fmt, m);
    var body := Chunks(p, c, Sender.Fmt3(csid));
    DechunkUndoesChunks(p, c, Sender.Fmt3(csid), rest);
    HeadersAgreeIff(fmt, m, media, body + rest);
    Parts(header, body, rest);
    assert header[1..] == WriteHeader(fmt, m);
  }

  // ---------- The relay ----------

  function RelayStream(m: MediaHeader, p: seq<Byte>, c: nat): seq<Byte>
    requires c > 0
  {
    SkippingStream(RelayHeader(m), p, c, Sender.Fmt3(RelayCsid(m.kind)), RelaySkip(m))
  }

  /** The relay sends the message as it should exactly if the header is not extended or the payload fits one chunk. */
  lemma RelayIsRightIff(m: MediaHeader, p: seq<Byte>, c: nat)
    requires c > 0 && p != []
    ensures RelayStream(m, p, c) == RelayHeader(m) + Chunks(p, c, Sender.Fmt3(RelayCsid(m.kind))) <==>
      m.timestamp < 0xFFFFFF || |p| <= c
  {
    var h, header := Sender.Fmt3(RelayCsid(m.kind)), RelayHeader(m);
    if m.timestamp < 0xFFFFFF {
      NothingSkipped(header, p, c, h);
    } else if |p| > c {
      SkippedIsShorter(header, p, c, h, 4);
      ChunksLength(p, c, h);
    } else {
      assert p[..|p|] == p;
      assert header + p + [] == header + p;
    }
  }

  lemma SkippedIsShorter(header: seq<Byte>, p: seq<Byte>, c: nat, h: Byte, skip: nat)
    requires c > 0 && skip > 0 && |p| > c
    ensures |SkippingStream(header, p, c, h, skip)| < |header| + WireLength(|p|, c)
  {
    FirstWire(|p|, c);
    SkippingLength(header, p, c, h, skip);
    if c + skip < |p| { WireGrows(|p| - c - skip, |p| - c, c); }
  }

  lemma FirstWire(n: nat, c: nat)
    requires 0 < c < n
    ensures WireLength(n, c) == c + 1 + WireLength(n - c, c)
  {
  }

  lemma {:induction false} WireIsLonger(n: nat, c: nat)
    requires c > 0
    ensures WireLength(n, c) >= n
    decreases n
  {
  }

  lemma SkippingLength(header: seq<Byte>, p: seq<Byte>, c: nat, h: Byte, skip: nat)
    requires 0 < c < |p|
    ensures |SkippingStream(header, p, c, h, skip)| ==
      |header| + c + if c + skip >= |p| then 0 else 1 + WireLength(|p| - c - skip, c)
  {
    if c + skip < |p| { RestLength(p[c + skip..], c, h); }
  }

  lemma RestLength(p: seq<Byte>, c: nat, h: Byte)
    requires c > 0
    ensures |Rest(p, c, h)| == if p == [] then 0 else 1 + WireLength(|p|, c)
  {
    ChunksLength(p, c, h);
  }

  lemma ChunksLength(p: seq<Byte>, c: nat, h: Byte)
    requires c > 0
    ensures |Chunks(p, c, h)| == WireLength(|p|, c)
  {
    if p != [] { ChunkByte(p, c, h, 0); }
  }

  /** What follows a basic header. */
  function BehindBase(s: seq<Byte>): seq<Byte>
    requires s != [] && |s| >= BasicSize(s[0])
  {
    s[BasicSize(s[0])..]
  }

  /**
   * What a reader of media messages that knows these fields finds in s: a message of this format and payload on this
   * chunk stream, and then `rest`.
   */
  predicate Incoming(s: seq<Byte>, known: map<int, Fields>, fmt: nat, csid: int, p: seq<Byte>, c: nat, rest: seq<Byte>)
    requires c > 0
  {
    && s != [] && |s| >= BasicSize(s[0]) && ParseBasic(s) == (fmt, csid)
    && IncomingBehind(BehindBase(s), known, fmt, csid, p, c, rest)
  }

  predicate IncomingBehind(t: seq<Byte>, known: map<int, Fields>, fmt: nat, csid: int, p: seq<Byte>, c: nat,
                           rest: seq<Byte>)
    requires c > 0
  {
    var n := HeaderSize(t, fmt, true);
    && |t| >= n + WireLength(|p|, c) && (fmt == 3 ==> csid in known) && csid in AfterHeader(known, t, fmt, csid, true)
    && AfterHeader(known, t, fmt, csid, true)[csid].length == |p|
    && Dechunk(t[n..], |p|, c) == p && t[n..][WireLength(|p|, c)..] == rest
  }

  /** What a reader of media messages finds in s: a message of format 0 on this chunk stream, and then `rest`. */
  predicate ReadsAs(s: seq<Byte>, csid: int, m: MediaHeader, p: seq<Byte>, c: nat, rest: seq<Byte>)
    requires c > 0
  {
    s != [] && BasicSize(s[0]) == 1 && ParseBasic(s) == (0, csid) && ReadsBehind(s[1..], m, p, c, rest)
  }

  /** Behind the basic header. */
  predicate ReadsBehind(t: seq<Byte>, m: MediaHeader, p: seq<Byte>, c: nat, rest: seq<Byte>)
    requires c > 0
  {
    var n := HeaderSize(t, 0, true);
    && |t| >= 11 && |t| >= n + WireLength(|p|, c)
    && ParseHeader(t).length == |p| && ParseHeader(t).kind == m.kind && ParseHeader(t).streamId == m.streamId
    && Dechunk(t[n..], |p|, c) == p && t[n..][WireLength(|p|, c)..] == rest
  }

  /** Such a message is one of format 0, whatever the reader knew. */
  lemma ReadsAsIncoming(s: seq<Byte>, known: map<int, Fields>, csid: int, m: MediaHeader, p: seq<Byte>, c: nat,
                        rest: seq<Byte>)
    requires c > 0 && ReadsAs(s, csid, m, p, c, rest)
    ensures Incoming(s, known, 0, csid, p, c, rest)
    ensures var f := AfterHeader(known, BehindBase(s), 0, csid, true)[csid];
      f.length == |p| && f.kind == m.kind && f.streamId == m.streamId
  {
  }

  /**
   * A message of any format that write_message sends arrives, if both sides agree on where its header ends, and the
   * length is that of the payload, be it in the header or known from before.
   */
  lemma MessageArrives(known: map<int, Fields>, fmt: nat, csid: int, m: MediaHeader, p: seq<Byte>, c: nat,
                       rest: seq<Byte>)
    requires fmt <= 3 && 2 <= csid <= 63 && c > 0 && p != [] && HeaderEndsAgree(fmt, m.timestamp, true)
    requires 0 <= m.timestamp < 0x8000_0000 && 0 <= m.length < 0x100_0000 && (fmt == 3 ==> csid in known)
    requires -0x8000_0000 <= m.streamId < 0x8000_0000
    requires |p| == if fmt <= 1 then m.length else Last(known, csid).length
    ensures var s := MessageStream(BasicHeader(fmt, csid) + WriteHeader(fmt, m), p, c, Sender.Fmt3(csid)) + rest;
      && Incoming(s, known, fmt, csid, p, c, rest)
      && AfterHeader(known, BehindBase(s), fmt, csid, true) == known[csid := Stored(Last(known, csid), fmt, m)]
  {
    var t := WriteHeader(fmt, m) + (Chunks(p, c, Sender.Fmt3(csid)) + rest);
    StreamParts(BasicHeader(fmt, csid), WriteHeader(fmt, m), p, c, Sender.Fmt3(csid), rest);
    BehindBasicHeader(fmt, csid, t);
    BodyArrives(known, fmt, csid, m, p, c, rest);
    ArrivesBehind(BasicHeader(fmt, csid) + t, t, known, fmt, csid, p, c, rest);
  }

  lemma StreamParts(b: seq<Byte>, header: seq<Byte>, p: seq<Byte>, c: nat, h: Byte, rest: seq<Byte>)
    requires c > 0 && p != []
    ensures MessageStream(b + header, p, c, h) + rest == b + (header + (Chunks(p, c, h) + rest))
  {
    Regroup(b, header, Chunks(p, c, h) + rest);
    Regroup(b + header, Chunks(p, c, h), rest);
  }

  lemma ArrivesBehind(s: seq<Byte>, t: seq<Byte>, known: map<int, Fields>, fmt: nat, csid: int, p: seq<Byte>, c: nat,
                      rest: seq<Byte>)
    requires c > 0 && s != [] && |s| >= BasicSize(s[0]) && ParseBasic(s) == (fmt, csid) && BehindBase(s) == t
    requires IncomingBehind(t, known, fmt, csid, p, c, rest)
    ensures Incoming(s, known, fmt, csid, p, c, rest)
  {
  }

  lemma BehindBasicHeader(fmt: nat, csid: int, t: seq<Byte>)
    requires fmt <= 3 && 2 <= csid <= 63
    ensures var s := BasicHeader(fmt, csid) + t;
      BasicSize(s[0]) == 1 && ParseBasic(s) == (fmt, csid) && BehindBase(s) == t
  {
    BasicHeaderIff(fmt, csid, t);
  }

  lemma BodyArrives(known: map<int, Fields>, fmt: nat, csid: int, m: MediaHeader, p: seq<Byte>, c: nat,
                    rest: seq<Byte>)
    requires fmt <= 3 && c > 0 && p != [] && HeaderEndsAgree(fmt, m.timestamp, true)
    requires 0 <= m.timestamp < 0x8000_0000 && 0 <= m.length < 0x100_0000 && (fmt == 3 ==> csid in known)
    requires -0x8000_0000 <= m.streamId < 0x8000_0000
    requires |p| == if fmt <= 1 then m.length else Last(known, csid).length
    ensures var t := WriteHeader(fmt, m) + (Chunks(p, c, Sender.Fmt3(csid)) + rest);
      && |t| >= HeaderSize(t, fmt, true) && IncomingBehind(t, known, fmt, csid, p, c, rest)
      && AfterHeader(known, t, fmt, csid, true) == known[csid := Stored(Last(known, csid), fmt, m)]
  {
    var body := Chunks(p, c, Sender.Fmt3(csid));
    HeadersAgreeIff(fmt, m, true, body + rest);
    HeaderIsStored(known, fmt, csid, m, body + rest);
    BehindHeader(WriteHeader(fmt, m), p, c, Sender.Fmt3(csid), rest);
    assert Stored(Last(known, csid), fmt, m).length == |p|;
  }

  lemma ReadsToTheEnd(t: seq<Byte>, m: MediaHeader, p: seq<Byte>, c: nat, rest: seq<Byte>)
    requires c > 0 && ReadsBehind(t, m, p, c, rest)
    ensures |t| == HeaderSize(t, 0, true) + WireLength(|p|, c) + |rest|
  {
  }

  /** The relay's header ends where the reader thinks, and no byte of the payload is counted as sent with it. */
  predicate RelayFits(timestamp: int, size: nat, c: nat) {
    if timestamp >= 0xFFFFFF then size <= c else !Escapes(timestamp)
  }

  /**
   * A message that the relay sends is read as it was, audio on chunk stream 7 and video on 6, exactly if it is one of
   * these, and its header is not extended or its payload fits one chunk. A negative timestamp must not look extended in
   * its low three bytes.
   */
  lemma RelayIsReadIff(m: MediaHeader, p: seq<Byte>, c: nat, rest: seq<Byte>)
    requires c > 0 && p != [] && m.length == |p| < 0x100_0000 && -0x8000_0000 <= m.streamId < 0x8000_0000
    ensures ReadsAs(RelayStream(m, p, c) + rest, if m.kind == 8 then 7 else 6, m, p, c, rest) <==>
      m.kind in {8, 9} && RelayFits(m.timestamp, |p|, c)
  {
    if m.kind !in {8, 9} {
      assert RelayCsid(m.kind) == 0;
    } else if RelayFits(m.timestamp, |p|, c) {
      RelayIsRead(m, p, c, rest);
    } else if m.timestamp >= 0xFFFFFF {
      RelayIsLost(m, p, c, rest);
    } else {
      RelayIsOverread(m, p, c, rest);
    }
  }

  lemma RelayIsRead(m: MediaHeader, p: seq<Byte>, c: nat, rest: seq<Byte>)
    requires c > 0 && p != [] && m.kind in {8, 9} && m.length == |p| < 0x100_0000
    requires -0x8000_0000 <= m.streamId < 0x8000_0000
    requires RelayFits(m.timestamp, |p|, c)
    ensures ReadsAs(RelayStream(m, p, c) + rest, RelayCsid(m.kind), m, p, c, rest)
  {
    RelayIsRightIff(m, p, c);
    BodyIsRead(m, p, c, rest);
    ReadsWhole(RelayHeader(m), Chunks(p, c, Sender.Fmt3(RelayCsid(m.kind))), RelayCsid(m.kind), m, p, c, rest);
  }

  lemma ReadsWhole(header: seq<Byte>, body: seq<Byte>, csid: int, m: MediaHeader, p: seq<Byte>, c: nat, rest: seq<Byte>)
    requires c > 0 && header != [] && header[0] == csid && 2 <= csid < 64
    requires ReadsBehind(header[1..] + (body + rest), m, p, c, rest)
    ensures ReadsAs(header + body + rest, csid, m, p, c, rest)
  {
    assert (header + body + rest)[1..] == header[1..] + (body + rest);
  }

  lemma ReadsShort(header: seq<Byte>, body: seq<Byte>, csid: int, m: MediaHeader, p: seq<Byte>, c: nat, rest: seq<Byte>)
    requires c > 0 && header != []
    requires |header| - 1 + |body| < HeaderSize(header[1..] + (body + rest), 0, true) + WireLength(|p|, c)
    ensures !ReadsAs(header + body + rest, csid, m, p, c, rest)
  {
    assert (header + body + rest)[1..] == header[1..] + (body + rest);
    if ReadsAs(header + body + rest, csid, m, p, c, rest) {
      ReadsToTheEnd(header[1..] + (body + rest), m, p, c, rest);
    }
  }

  lemma BodyIsRead(m: MediaHeader, p: seq<Byte>, c: nat, rest: seq<Byte>)
    requires c > 0 && m.length == |p| < 0x100_0000 && -0x8000_0000 <= m.streamId < 0x8000_0000
    requires m.timestamp >= 0xFFFFFF || !Escapes(m.timestamp)
    ensures ReadsBehind(RelayHeader(m)[1..] + (Chunks(p, c, Sender.Fmt3(RelayCsid(m.kind))) + rest), m, p, c, rest)
  {
    var h := Sender.Fmt3(RelayCsid(m.kind));
    RelayHeaderParses(m, Chunks(p, c, h) + rest);
    BehindHeader(RelayHeader(m)[1..], p, c, h, rest);
  }

  /** Behind a header there are the chunks, and what follows. */
  lemma BehindHeader(header: seq<Byte>, p: seq<Byte>, c: nat, h: Byte, rest: seq<Byte>)
    requires c > 0
    ensures var body, t := Chunks(p, c, h), (header + (Chunks(p, c, h) + rest))[|header|..];
      && |body| == WireLength(|p|, c) && t == body + rest && Dechunk(t, |p|, c) == p && t[|body|..] == rest
  {
    DechunkUndoesChunks(p, c, h, rest);
  }

  /** Where bytes are lost, the reader takes others of what follows in their place. */
  lemma RelayIsLost(m: MediaHeader, p: seq<Byte>, c: nat, rest: seq<Byte>)
    requires c > 0 && |p| > c && m.timestamp >= 0xFFFFFF && 0 <= m.length < 0x100_0000
    requires -0x8000_0000 <= m.streamId < 0x8000_0000
    ensures !ReadsAs(RelayStream(m, p, c) + rest, RelayCsid(m.kind), m, p, c, rest)
  {
    var header, h := RelayHeader(m), Sender.Fmt3(RelayCsid(m.kind));
    var body := SkippedBody(p, c, h, 4);
    SkippedIsShorter(header, p, c, h, 4);
    RelayHeaderParses(m, body + rest);
    ReadsShort(header, body, RelayCsid(m.kind), m, p, c, rest);
  }

  /** Where the header looks extended and is not, it takes bytes of the payload for the extension. */
  lemma RelayIsOverread(m: MediaHeader, p: seq<Byte>, c: nat, rest: seq<Byte>)
    requires c > 0 && p != [] && m.timestamp < 0xFFFFFF && Escapes(m.timestamp)
    ensures !ReadsAs(RelayStream(m, p, c) + rest, RelayCsid(m.kind), m, p, c, rest)
  {
    var header, body := RelayHeader(m), Chunks(p, c, Sender.Fmt3(RelayCsid(m.kind)));
    RelayIsRightIff(m, p, c);
    ChunksLength(p, c, Sender.Fmt3(RelayCsid(m.kind)));
    RelayParts(m, body + rest);
    StampField(m.timestamp);
    ReadsShort(header, body, RelayCsid(m.kind), m, p, c, rest);
  }

  /** It happens: of a video message of two chunks, the second is lost. */
  lemma RelayLosesAChunk(rest: seq<Byte>)
    ensures var m := MediaHeader(0xFFFFFF, 2, 9, 1);
      && RelayStream(m, [1, 2], 1) == RelayHeader(m) + [1]
      && !ReadsAs(RelayStream(m, [1, 2], 1) + rest, 6, m, [1, 2], 1, rest)
  {
    var m := MediaHeader(0xFFFFFF, 2, 9, 1);
    RelayIsReadIff(m, [1, 2], 1, rest);
    assert RelayHeader(m) + [1] + [] == RelayHeader(m) + [1];
  }

  /** It happens: a message that is neither audio nor video goes out on chunk stream 0, which asks for two bytes. */
  lemma RelayMisnamesOthers(rest: seq<Byte>)
    ensures var m := MediaHeader(5, 1, 18, 1); BasicSize((RelayStream(m, [1], 1) + rest)[0]) == 2
  {
  }

  /** A media message received in chunks of c1 and relayed in chunks of c2 is read with the same payload. */
  lemma RelayPreservesPayload(m: MediaHeader, p: seq<Byte>, c1: nat, h1: Byte, c2: nat, rest1: seq<Byte>,
                              rest2: seq<Byte>)
    requires c1 > 0 && c2 > 0 && p != [] && m.kind in {8, 9}
    requires m.length == |p| < 0x100_0000 && -0x8000_0000 <= m.streamId < 0x8000_0000
    requires RelayFits(m.timestamp, |p|, c2)
    ensures |Chunks(p, c1, h1)| == WireLength(|p|, c1)
    ensures var q := Dechunk(Chunks(p, c1, h1) + rest1, |p|, c1);
      ReadsAs(RelayStream(m, q, c2) + rest2, if m.kind == 8 then 7 else 6, m, p, c2, rest2)
  {
    DechunkUndoesChunks(p, c1, h1, rest1);
    RelayIsRead(m, p, c2, rest2);
  }

  /** And so what the server received in a header of format 0 it relays at twice its time. */
  lemma RelayedTime(known: map<int, Fields>, csid: int, m: MediaHeader, rest1: seq<Byte>, rest2: seq<Byte>)
    requires 0 <= m.timestamp < 0x7FFFFF && 0 <= m.length < 0x100_0000 && -0x8000_0000 <= m.streamId < 0x8000_0000
    ensures var s := WriteHeader(0, m) + rest1;
      && |s| >= HeaderSize(s, 0, true) && csid in AfterHeader(known, s, 0, csid, true)
      && var f := AfterHeader(known, s, 0, csid, true)[csid];
         ParseHeader(RelayHeader(MediaHeader(f.timestamp, f.length, f.kind, f.streamId))[1..] + rest2) ==
           m.(timestamp := 2 * m.timestamp)
  {
    HeaderIsStored(known, 0, csid, m, rest1);
    DoubledTime(Last(known, csid), m);
    RelayedFields(m.(timestamp := 2 * m.timestamp), rest2);
  }

  lemma DoubledTime(last: Fields, m: MediaHeader)
    requires 0 <= m.timestamp < 0x7FFFFF
    ensures var f := Stored(last, 0, m);
      MediaHeader(f.timestamp, f.length, f.kind, f.streamId) == m.(timestamp := 2 * m.timestamp)
  {
  }

  lemma RelayedFields(m: MediaHeader, rest: seq<Byte>)
    requires 0 <= m.timestamp < 0xFFFFFF && 0 <= m.length < 0x100_0000 && -0x8000_0000 <= m.streamId < 0x8000_0000
    ensures ParseHeader(RelayHeader(m)[1..] + rest) == m
  {
    RelayHeaderParses(m, rest);
  }

  lemma Parts(header: seq<Byte>, body: seq<Byte>, rest: seq<Byte>)
    requires header != []
    ensures var s := (header + body)[1..] + rest;
      s == header[1..] + (body + rest) && s[|header| - 1..] == body + rest && s[|header| - 1..][|body|..] == rest
  {
    var s := (header + body)[1..] + rest;
    assert s == header[1..] + (body + rest);
    assert s[|header| - 1..] == body + rest;
  }
}
