/** Buffers that hold several equally sized datagrams: stamping packet ids into them on the
    sending side, cutting them into datagrams on the receiving side. */
module Datagrams {
  import opened Wire
  import opened Arithmetic

  /** Number of datagrams of size `datagramSize` in a buffer of `mss` bytes, the last one
      possibly shorter: the ceiling of the quotient. */
  function PacketCount(mss: nat, datagramSize: nat): (p: nat)
    requires datagramSize > 0
  {
    (mss + datagramSize - 1) / datagramSize
  }

  /** Each datagram of the buffer, the shorter last one included, has room for a header. */
  ghost predicate HoldsHeaders(mss: nat, datagramSize: nat): (holds: bool)
    ensures holds ==> datagramSize > 0
  {
    datagramSize > 0 &&
    (mss == 0 || (datagramSize >= HEADER_LEN && (mss % datagramSize == 0 || mss % datagramSize >= HEADER_LEN)))
  }

  /** `count` consecutive packet ids. */
  function IdRange(first: nat, count: nat): (ids: seq<nat>)
    ensures |ids| == count
    ensures forall i :: 0 <= i < count ==> ids[i] == first + i
  {
    seq(count, i => first + i)
  }

  lemma IdRangeConcat(first: nat, m: nat, n: nat)
    ensures IdRange(first, m) + IdRange(first + m, n) == IdRange(first, m + n)
  {
  }

  // Packet positions

  /** Where packet i starts. Written as a sum so that the proofs below need no products. */
  function Start(i: nat, ds: nat): nat {
    if i == 0 then 0 else Start(i - 1, ds) + ds
  }

  lemma {:induction false} StartIsProduct(i: nat, ds: nat)
    ensures Start(i, ds) == i * ds
  {
    if i == 0 {
    } else {
      StartIsProduct(i - 1, ds);
    }
  }

  lemma {:induction false} StartAdds(a: nat, b: nat, p: nat)
    ensures Start(a, p) + Start(b, p) == Start(a + b, p)
  {
    if b == 0 {
    } else {
      StartAdds(a, b - 1, p);
    }
  }

  lemma {:induction false} StartMonotone(i: nat, j: nat, ds: nat)
    requires i < j
    ensures Start(i, ds) + ds <= Start(j, ds)
  {
    if i + 1 < j { StartMonotone(i, j - 1, ds); }
  }

  /** A buffer longer than one datagram has one packet more than its tail. */
  lemma PacketCountTail(n: nat, ds: nat)
    requires HoldsHeaders(n, ds)
    ensures n == 0 ==> PacketCount(n, ds) == 0
    ensures 0 < n <= ds ==> PacketCount(n, ds) == 1 && n >= HEADER_LEN
    ensures n > ds ==> HoldsHeaders(n - ds, ds) && PacketCount(n, ds) == 1 + PacketCount(n - ds, ds)
  {
    if n <= ds {
      CountWithinOne(n, ds);
    } else {
      ModTail(n, ds);
      DivTail(n + ds - 1, ds);
    }
  }

  lemma CountWithinOne(n: nat, ds: nat)
    requires ds > 0 && n <= ds
    ensures PacketCount(n, ds) == if n == 0 then 0 else 1
    ensures 0 < n < ds ==> n % ds == n
  {
    if n == 0 { DivUnique(ds - 1, 0, ds, ds - 1); }
    else { DivUnique(n + ds - 1, 1, ds, n - 1); }
  }

  lemma ModTail(n: nat, ds: nat)
    requires 0 < ds <= n
    ensures (n - ds) % ds == n % ds
  {
    DivUnique(n, (n - ds) / ds + 1, ds, (n - ds) % ds);
  }

  lemma DivTail(n: nat, ds: nat)
    requires 0 < ds <= n
    ensures n / ds == 1 + (n - ds) / ds
  {
    DivUnique(n, (n - ds) / ds + 1, ds, (n - ds) % ds);
  }

  /** The first `count` packets lie inside a buffer of `mss` bytes, headers included. */
  ghost predicate PacketsFit(mss: nat, ds: nat, count: nat) {
    count > 0 ==> ds >= HEADER_LEN && Start(count - 1, ds) + HEADER_LEN <= mss
  }

  lemma {:induction false} AllPacketsFit(mss: nat, ds: nat)
    requires HoldsHeaders(mss, ds)
    ensures PacketsFit(mss, ds, PacketCount(mss, ds))
    decreases mss
  {
    PacketCountTail(mss, ds);
    if mss <= ds {
    } else {
      AllPacketsFit(mss - ds, ds);
      PacketCountTail(mss - ds, ds);
    }
  }

  /** Stamping fits into the buffer exactly if every datagram, the last one included, has room for a
      header. */
  lemma {:induction false} PacketsFitExactly(mss: nat, ds: nat)
    requires ds > 0
    ensures PacketsFit(mss, ds, PacketCount(mss, ds)) <==> HoldsHeaders(mss, ds)
    decreases mss
  {
    if mss <= ds {
      CountWithinOne(mss, ds);
      if mss == ds { DivUnique(mss, 1, ds, 0); }
    } else {
      ModTail(mss, ds);
      DivTail(mss + ds - 1, ds);
      AtLeastOnePacket(mss - ds, ds);
      PacketsFitExactly(mss - ds, ds);
    }
  }

  lemma AtLeastOnePacket(mss: nat, ds: nat)
    requires mss > 0 && ds > 0
    ensures PacketCount(mss, ds) > 0
  {
    DivTail(mss + ds - 1, ds);
  }

  // Stamping

  /** The buffer after packets 0 .. count-1 have been given the ids first, first+1, ... */
  function StampIds(buffer: seq<Byte>, ds: nat, first: nat, count: nat): (r: seq<Byte>)
    requires PacketsFit(|buffer|, ds, count)
    ensures |r| == |buffer|
  {
    if count == 0 then buffer
    else SetPacketId(StampIds(buffer, ds, first, count - 1), Start(count - 1, ds), first + count - 1)
  }

  /** Byte `k` belongs to the id word of packet `i`. */
  predicate InIdWord(k: nat, ds: nat, i: nat) {
    Start(i, ds) + 16 <= k < Start(i, ds) + 24
  }

  /** Stamping touches id words only: message type, test id and payload stay as they were. */
  lemma {:induction false} StampTouchesIdsOnly(buffer: seq<Byte>, ds: nat, first: nat, count: nat, k: nat)
    requires PacketsFit(|buffer|, ds, count)
    requires k < |buffer| && forall i :: 0 <= i < count ==> !InIdWord(k, ds, i)
    ensures StampIds(buffer, ds, first, count)[k] == buffer[k]
  {
    if count == 0 {
    } else {
      StampTouchesIdsOnly(buffer, ds, first, count - 1, k);
      assert !InIdWord(k, ds, count - 1);
    }
  }

  lemma LastStamp(buffer: seq<Byte>, ds: nat, first: nat, count: nat)
    requires count > 0 && PacketsFit(|buffer|, ds, count)
    ensures
      var before := StampIds(buffer, ds, first, count - 1);
      var after := StampIds(buffer, ds, first, count);
      && (first + count <= U64_LIMIT ==> WordAt(after, Start(count - 1, ds) + 16) == first + count - 1)
      && (forall k :: 0 <= k < |buffer| && !InIdWord(k, ds, count - 1) ==> after[k] == before[k])
  {
  }

  /** After stamping, packet i carries id first + i. */
  lemma {:induction false} StampedIdAt(buffer: seq<Byte>, ds: nat, first: nat, count: nat, i: nat)
    requires PacketsFit(|buffer|, ds, count)
    requires i < count && first + count <= U64_LIMIT
    ensures Start(i, ds) + HEADER_LEN <= |buffer|
    ensures WordAt(StampIds(buffer, ds, first, count), Start(i, ds) + 16) == first + i
  {
    hide WordAt, StampIds;
    LastStamp(buffer, ds, first, count);
    if i == count - 1 {
    } else {
      StampedIdAt(buffer, ds, first, count - 1, i);
      StartMonotone(i, count - 1, ds);
      SameWord(StampIds(buffer, ds, first, count - 1), StampIds(buffer, ds, first, count), Start(i, ds) + 16);
    }
  }

  lemma SameWord(a: seq<Byte>, b: seq<Byte>, at: nat)
    requires |a| == |b| && at + 8 <= |a|
    requires forall k :: at <= k < at + 8 ==> a[k] == b[k]
    ensures WordAt(a, at) == WordAt(b, at)
  {
    assert a[at..at + 8] == b[at..at + 8];
  }

  /** Words 0 and 1 of every packet survive stamping. */
  lemma StampKeepsWord(buffer: seq<Byte>, ds: nat, first: nat, count: nat, i: nat, at: nat)
    requires PacketsFit(|buffer|, ds, count) && i < count && at <= 8
    ensures Start(i, ds) + HEADER_LEN <= |buffer|
    ensures WordAt(StampIds(buffer, ds, first, count), Start(i, ds) + at) == WordAt(buffer, Start(i, ds) + at)
  {
    hide WordAt;
    var out := StampIds(buffer, ds, first, count);
    if i < count - 1 { StartMonotone(i, count - 1, ds); }
    forall k | Start(i, ds) + at <= k < Start(i, ds) + at + 8 ensures out[k] == buffer[k] {
      forall j | 0 <= j < count ensures !InIdWord(k, ds, j) {
        if j < i { StartMonotone(j, i, ds); }
        if i < j { StartMonotone(i, j, ds); }
      }
      StampTouchesIdsOnly(buffer, ds, first, count, k);
    }
    SameWord(buffer, out, Start(i, ds) + at);
  }

  /** The id words of the first `count` packets hold the ids first, first+1, ... */
  ghost predicate AlreadyStamped(buffer: seq<Byte>, ds: nat, first: nat, count: nat) {
    forall k :: 0 <= k < count ==> HasIdWord(buffer, Start(k, ds), first + k)
  }

  predicate HasIdWord(buffer: seq<Byte>, start: nat, id: nat) {
    start + 24 <= |buffer| && buffer[start + 16..start + 24] == EncodeWord(id)
  }

  /** Stamping changes nothing exactly if the buffer holds those ids already. */
  lemma {:induction false} StampIsNoOpExactly(buffer: seq<Byte>, ds: nat, first: nat, count: nat)
    requires PacketsFit(|buffer|, ds, count)
    ensures StampIds(buffer, ds, first, count) == buffer <==> AlreadyStamped(buffer, ds, first, count)
  {
    if count == 0 {
    } else {
      AlreadyStampedStep(buffer, ds, first, count);
      hide SetPacketId, AlreadyStamped, HasIdWord;
      var before := StampIds(buffer, ds, first, count - 1);
      var start := Start(count - 1, ds);
      StampIsNoOpExactly(buffer, ds, first, count - 1);
      LastWordUntouched(buffer, ds, first, count);
      SetPacketIdIsNoOpExactly(before, start, first + count - 1);
      if StampIds(buffer, ds, first, count) == buffer {
        SameOutsideWord(before, buffer, start, first + count - 1);
        LastWordWritten(before, start, first + count - 1);
      }
    }
  }

  lemma AlreadyStampedStep(buffer: seq<Byte>, ds: nat, first: nat, count: nat)
    requires count > 0
    ensures AlreadyStamped(buffer, ds, first, count)
      <==> AlreadyStamped(buffer, ds, first, count - 1) && HasIdWord(buffer, Start(count - 1, ds), first + count - 1)
  {
    hide HasIdWord;
    if AlreadyStamped(buffer, ds, first, count) {
      assert HasIdWord(buffer, Start(count - 1, ds), first + (count - 1));
    }
  }

  lemma SameOutsideWord(before: seq<Byte>, buffer: seq<Byte>, start: nat, id: nat)
    requires start + HEADER_LEN <= |before| == |buffer| && SetPacketId(before, start, id) == buffer
    requires forall k :: start + 16 <= k < start + 24 ==> before[k] == buffer[k]
    ensures before == buffer
  {
    hide EncodeWord, WordAt;
  }

  lemma LastWordUntouched(buffer: seq<Byte>, ds: nat, first: nat, count: nat)
    requires count > 0 && PacketsFit(|buffer|, ds, count)
    ensures
      var start := Start(count - 1, ds);
      forall k :: start + 16 <= k < start + 24 ==> StampIds(buffer, ds, first, count - 1)[k] == buffer[k]
  {
    var start := Start(count - 1, ds);
    forall k | start + 16 <= k < start + 24 ensures StampIds(buffer, ds, first, count - 1)[k] == buffer[k] {
      forall i | 0 <= i < count - 1 ensures !InIdWord(k, ds, i) {
        StartMonotone(i, count - 1, ds);
      }
      StampTouchesIdsOnly(buffer, ds, first, count - 1, k);
    }
  }

  lemma LastWordWritten(buffer: seq<Byte>, start: nat, id: nat)
    requires start + HEADER_LEN <= |buffer|
    ensures HasIdWord(SetPacketId(buffer, start, id), start, id)
  {
    hide EncodeWord, WordAt;
  }

  lemma SetPacketIdIsNoOpExactly(buffer: seq<Byte>, start: nat, id: nat)
    requires start + HEADER_LEN <= |buffer|
    ensures SetPacketId(buffer, start, id) == buffer <==> HasIdWord(buffer, start, id)
  {
    hide EncodeWord, WordAt;
    LastWordWritten(buffer, start, id);
    if HasIdWord(buffer, start, id) {
      assert buffer == buffer[..start + 16] + buffer[start + 16..start + 24] + buffer[start + 24..];
    }
  }

  // Cutting a buffer into datagrams

  /** The buffer cut into pieces of `size` bytes, the last one possibly shorter. */
  function Chunks(buffer: seq<Byte>, size: nat): (c: seq<seq<Byte>>)
    requires size > 0
    ensures |buffer| == 0 <==> |c| == 0
  {
    if |buffer| == 0 then []
    else if |buffer| <= size then [buffer]
    else [buffer[..size]] + Chunks(buffer[size..], size)
  }

  ghost predicate AllHaveHeaders(packets: seq<seq<Byte>>) {
    forall i :: 0 <= i < |packets| ==> |packets[i]| >= HEADER_LEN
  }

  /** Packet ids read off a list of datagrams. */
  function IdsOf(packets: seq<seq<Byte>>): (ids: seq<nat>)
    requires AllHaveHeaders(packets)
    ensures |ids| == |packets|
    ensures forall i :: 0 <= i < |packets| ==> ids[i] == GetPacketId(packets[i])
  {
    seq(|packets|, i requires 0 <= i < |packets| => GetPacketId(packets[i]))
  }

  lemma IdsOfConcat(a: seq<seq<Byte>>, b: seq<seq<Byte>>)
    requires AllHaveHeaders(a) && AllHaveHeaders(b)
    ensures AllHaveHeaders(a + b)
    ensures IdsOf(a + b) == IdsOf(a) + IdsOf(b)
  {
  }

  /** The summed length of several datagrams. */
  function LengthOf(packets: seq<seq<Byte>>): nat {
    if |packets| == 0 then 0 else |packets[0]| + LengthOf(packets[1..])
  }

  lemma {:induction false} LengthOfConcat(a: seq<seq<Byte>>, b: seq<seq<Byte>>)
    ensures LengthOf(a + b) == LengthOf(a) + LengthOf(b)
  {
    if |a| == 0 {
      assert a + b == b;
    } else {
      LengthOfConcat(a[1..], b);
      assert (a + b)[1..] == a[1..] + b;
    }
  }

  /** Cutting a buffer loses no byte. */
  lemma {:induction false} ChunksKeepLength(buffer: seq<Byte>, size: nat)
    requires size > 0
    ensures LengthOf(Chunks(buffer, size)) == |buffer|
    decreases |buffer|
  {
    if |buffer| <= size {
      assert |buffer| > 0 ==> Chunks(buffer, size)[1..] == [];
    } else {
      ChunksKeepLength(buffer[size..], size);
      LengthOfConcat([buffer[..size]], Chunks(buffer[size..], size));
      assert [buffer[..size]][1..] == [];
    }
  }

  /** The number of chunks is the packet count, and each of them holds a header. */
  lemma {:induction false} ChunkCount(buffer: seq<Byte>, ds: nat)
    requires HoldsHeaders(|buffer|, ds)
    ensures |Chunks(buffer, ds)| == PacketCount(|buffer|, ds)
    ensures AllHaveHeaders(Chunks(buffer, ds))
    decreases |buffer|
  {
    PacketCountTail(|buffer|, ds);
    if |buffer| <= ds {
    } else {
      ChunkCount(buffer[ds..], ds);
    }
  }

  /** The header words of chunk i are the words of the buffer at the start of packet i. */
  lemma {:induction false} ChunkWord(buffer: seq<Byte>, ds: nat, i: nat, at: nat)
    requires HoldsHeaders(|buffer|, ds) && i < PacketCount(|buffer|, ds) && at <= 16
    ensures |Chunks(buffer, ds)| == PacketCount(|buffer|, ds)
    ensures |Chunks(buffer, ds)[i]| >= HEADER_LEN
    ensures Start(i, ds) + HEADER_LEN <= |buffer|
    ensures WordAt(Chunks(buffer, ds)[i], at) == WordAt(buffer, Start(i, ds) + at)
    decreases |buffer|
  {
    ChunkCount(buffer, ds);
    PacketCountTail(|buffer|, ds);
    if i > 0 {
      var rest := buffer[ds..];
      ChunkWord(rest, ds, i - 1, at);
      assert Chunks(buffer, ds)[i] == Chunks(rest, ds)[i - 1];
      hide WordAt, Chunks;
      WordOfTail(buffer, ds, Start(i - 1, ds) + at);
    } else if |buffer| > ds {
      WordOfPrefix(buffer, ds, at);
    }
  }

  lemma WordOfTail(buffer: seq<Byte>, n: nat, at: nat)
    requires n + at + 8 <= |buffer|
    ensures WordAt(buffer[n..], at) == WordAt(buffer, n + at)
  {
    assert buffer[n..][at..at + 8] == buffer[n + at..n + at + 8];
  }

  lemma WordOfPrefix(buffer: seq<Byte>, n: nat, at: nat)
    requires at + 8 <= n <= |buffer|
    ensures WordAt(buffer[..n], at) == WordAt(buffer, at)
  {
    assert buffer[..n][at..at + 8] == buffer[at..at + 8];
  }

  /** Round trip: cutting a stamped buffer by the datagram size yields exactly the stamped
      ids in order, and the test id and message type of each datagram are those it had. */
  lemma StampThenChunk(buffer: seq<Byte>, ds: nat, first: nat)
    requires HoldsHeaders(|buffer|, ds)
    requires first + PacketCount(|buffer|, ds) <= U64_LIMIT
    ensures PacketsFit(|buffer|, ds, PacketCount(|buffer|, ds))
    ensures
      var p := PacketCount(|buffer|, ds);
      var plain := Chunks(buffer, ds);
      var stamped := Chunks(StampIds(buffer, ds, first, p), ds);
      && AllHaveHeaders(stamped) && AllHaveHeaders(plain)
      && |stamped| == |plain| == p
      && IdsOf(stamped) == IdRange(first, p)
      && (forall i :: 0 <= i < p ==>
           && GetMessageTypeCode(stamped[i]) == GetMessageTypeCode(plain[i])
           && GetTestId(stamped[i]) == GetTestId(plain[i]))
  {
    hide WordAt, StampIds;
    var p := PacketCount(|buffer|, ds);
    AllPacketsFit(|buffer|, ds);
    var out := StampIds(buffer, ds, first, p);
    var stamped, plain := Chunks(out, ds), Chunks(buffer, ds);
    ChunkCount(out, ds);
    ChunkCount(buffer, ds);
    forall i | 0 <= i < p
      ensures GetPacketId(stamped[i]) == first + i
      ensures GetMessageTypeCode(stamped[i]) == GetMessageTypeCode(plain[i])
      ensures GetTestId(stamped[i]) == GetTestId(plain[i])
    {
      ChunkWord(out, ds, i, 16);
      StampedIdAt(buffer, ds, first, p, i);
      SameHeaderWord(buffer, ds, first, i, 0);
      SameHeaderWord(buffer, ds, first, i, 8);
    }
  }

  lemma SameHeaderWord(buffer: seq<Byte>, ds: nat, first: nat, i: nat, at: nat)
    requires HoldsHeaders(|buffer|, ds) && i < PacketCount(|buffer|, ds) && at <= 8
    requires PacketsFit(|buffer|, ds, PacketCount(|buffer|, ds))
    ensures
      var plain := Chunks(buffer, ds);
      var stamped := Chunks(StampIds(buffer, ds, first, PacketCount(|buffer|, ds)), ds);
      && |stamped| == |plain| == PacketCount(|buffer|, ds)
      && |stamped[i]| >= HEADER_LEN && |plain[i]| >= HEADER_LEN
      && WordAt(stamped[i], at) == WordAt(plain[i], at)
  {
    var p := PacketCount(|buffer|, ds);
    ChunkWord(buffer, ds, i, at);
    ChunkWord(StampIds(buffer, ds, first, p), ds, i, at);
    StampKeepsWord(buffer, ds, first, p, i, at);
  }

  // Headers written once when the sender's buffers are created

  function WriteHeader(buffer: seq<Byte>, start: nat, h: Header): (r: seq<Byte>)
    requires start + HEADER_LEN <= |buffer|
    ensures |r| == |buffer|
    ensures forall k :: 0 <= k < |buffer| && !(start <= k < start + HEADER_LEN) ==> r[k] == buffer[k]
    ensures WordAt(r, start) == Code(h.mtype)
    ensures h.testId < U64_LIMIT ==> WordAt(r, start + 8) == h.testId
  {
    var r := buffer[..start] + Serialize(h) + buffer[start + HEADER_LEN..];
    assert r[start..start + 8] == EncodeWord(Code(h.mtype));
    assert r[start + 8..start + 16] == EncodeWord(h.testId);
    r
  }

  /** The buffer after the first `count` packets have got a MEASUREMENT header. */
  function WriteHeaders(buffer: seq<Byte>, ds: nat, testId: nat, first: nat, count: nat): (r: seq<Byte>)
    requires PacketsFit(|buffer|, ds, count)
    ensures |r| == |buffer|
  {
    if count == 0 then buffer
    else WriteHeader(WriteHeaders(buffer, ds, testId, first, count - 1), Start(count - 1, ds),
                     Header(MEASUREMENT, testId, first + count - 1))
  }

  lemma {:induction false} WrittenHeaderAt(buffer: seq<Byte>, ds: nat, testId: nat, first: nat, count: nat, i: nat)
    requires PacketsFit(|buffer|, ds, count) && i < count && testId < U64_LIMIT
    ensures Start(i, ds) + HEADER_LEN <= |buffer|
    ensures WordAt(WriteHeaders(buffer, ds, testId, first, count), Start(i, ds)) == Code(MEASUREMENT)
    ensures WordAt(WriteHeaders(buffer, ds, testId, first, count), Start(i, ds) + 8) == testId
  {
    hide WordAt, WriteHeader;
    var before := WriteHeaders(buffer, ds, testId, first, count - 1);
    var after := WriteHeaders(buffer, ds, testId, first, count);
    if i < count - 1 {
      WrittenHeaderAt(buffer, ds, testId, first, count - 1, i);
      StartMonotone(i, count - 1, ds);
      SameWord(before, after, Start(i, ds));
      SameWord(before, after, Start(i, ds) + 8);
    }
  }

  /** A sender buffer on the wire: whatever ids are stamped after creation, every datagram cut
      from it is a MEASUREMENT of the sender's test and carries the stamped ids in order. */
  lemma SenderBufferOnWire(buffer: seq<Byte>, ds: nat, testId: nat, first: nat)
    requires HoldsHeaders(|buffer|, ds) && testId < U64_LIMIT
    requires first + PacketCount(|buffer|, ds) <= U64_LIMIT
    ensures PacketsFit(|buffer|, ds, PacketCount(|buffer|, ds))
    ensures
      var p := PacketCount(|buffer|, ds);
      var wire := Chunks(StampIds(WriteHeaders(buffer, ds, testId, 0, p), ds, first, p), ds);
      && AllHaveHeaders(wire) && IdsOf(wire) == IdRange(first, p)
      && (forall i :: 0 <= i < p ==>
           GetMessageTypeCode(wire[i]) == Code(MEASUREMENT) && GetTestId(wire[i]) == testId)
  {
    hide WordAt, StampIds, WriteHeaders;
    var p := PacketCount(|buffer|, ds);
    AllPacketsFit(|buffer|, ds);
    var created := WriteHeaders(buffer, ds, testId, 0, p);
    StampThenChunk(created, ds, first);
    forall i | 0 <= i < p
      ensures GetMessageTypeCode(Chunks(created, ds)[i]) == Code(MEASUREMENT)
      ensures GetTestId(Chunks(created, ds)[i]) == testId
    {
      WrittenHeaderAt(buffer, ds, testId, 0, p, i);
      ChunkWord(created, ds, i, 0);
      ChunkWord(created, ds, i, 8);
    }
  }

  /** Coalesced segments: equally sized ones, except a possibly shorter last one. */
  ghost predicate Coalesced(segments: seq<seq<Byte>>, size: nat) {
    forall i :: 0 <= i < |segments| ==>
      0 < |segments[i]| <= size && (i < |segments| - 1 ==> |segments[i]| == size)
  }

  function Concat(segments: seq<seq<Byte>>): seq<Byte> {
    if |segments| == 0 then [] else segments[0] + Concat(segments[1..])
  }

  /** Cutting a coalesced buffer by the segment size gives the segments back. */
  lemma {:induction false} ChunksOfCoalesced(segments: seq<seq<Byte>>, size: nat)
    requires size > 0 && Coalesced(segments, size)
    ensures Chunks(Concat(segments), size) == segments
  {
    if |segments| == 0 {
    } else {
      var rest := segments[1..];
      ChunksOfCoalesced(rest, size);
      assert segments == [segments[0]] + rest;
      var all := Concat(segments);
      if |rest| == 0 {
        assert all == segments[0];
      } else {
        assert |rest[0]| > 0;
        assert all[..size] == segments[0] && all[size..] == Concat(rest);
      }
    }
  }
}
