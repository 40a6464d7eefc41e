/** The packet buffer shared by all exchange functions: a vector of equally sized message
    buffers, and the pool of buffer indexes that io_uring requests draw from. */
module PacketBuffers {
  import opened Wire
  import opened Wrappers
  import opened Datagrams

  // Stamping a vector of buffers

  ghost predicate AllSized(contents: seq<seq<Byte>>, mss: nat) {
    forall i :: 0 <= i < |contents| ==> |contents[i]| == mss
  }

  /** The buffers after the first `count` of them, `p` packets each, have got consecutive ids
      from `first` on. */
  function StampBuffers(contents: seq<seq<Byte>>, mss: nat, ds: nat, p: nat, first: nat,
                        count: nat): (r: seq<seq<Byte>>)
    requires AllSized(contents, mss) && PacketsFit(mss, ds, p) && count <= |contents|
    ensures |r| == |contents| && AllSized(r, mss)
    ensures forall i :: count <= i < |contents| ==> r[i] == contents[i]
  {
    if count == 0 then contents
    else StampBuffers(contents, mss, ds, p, first, count - 1)
           [count - 1 := StampIds(contents[count - 1], ds, first + Start(count - 1, p), p)]
  }

  lemma {:induction false} StampedAt(contents: seq<seq<Byte>>, mss: nat, ds: nat, p: nat, first: nat, count: nat,
                                     i: nat)
    requires AllSized(contents, mss) && PacketsFit(mss, ds, p) && i < count <= |contents|
    ensures StampBuffers(contents, mss, ds, p, first, count)[i] == StampIds(contents[i], ds, first + Start(i, p), p)
  {
    hide StampIds, Start;
    if i == count - 1 {
    } else {
      StampedAt(contents, mss, ds, p, first, count - 1, i);
    }
  }

  /** The i-th stamped buffer puts its own consecutive ids on the wire. */
  lemma StampedBufferOnWire(contents: seq<seq<Byte>>, mss: nat, ds: nat, first: nat, count: nat, i: nat)
    requires AllSized(contents, mss) && HoldsHeaders(mss, ds) && i < count <= |contents|
    requires first + Start(count, PacketCount(mss, ds)) <= U64_LIMIT
    ensures PacketsFit(mss, ds, PacketCount(mss, ds))
    ensures
      var p := PacketCount(mss, ds);
      var wire := Chunks(StampBuffers(contents, mss, ds, p, first, count)[i], ds);
      AllHaveHeaders(wire) && IdsOf(wire) == IdRange(first + Start(i, p), p)
  {
    hide StampBuffers, StampIds, PacketCount, HoldsHeaders, GetPacketId, Chunks, Start;
    var p := PacketCount(mss, ds);
    AllPacketsFit(mss, ds);
    StampedAt(contents, mss, ds, p, first, count, i);
    StartMonotone(i, count, p);
    StampThenChunk(contents[i], ds, first + Start(i, p));
  }

  /** The datagrams a list of message buffers puts on the wire. */
  function OnWire(messages: seq<seq<Byte>>, ds: nat): seq<seq<Byte>>
    requires ds > 0
  {
    if |messages| == 0 then [] else OnWire(messages[..|messages| - 1], ds) + Chunks(messages[|messages| - 1], ds)
  }

  /** Buffers of equal size leave as datagrams that hold all their bytes. */
  lemma {:induction false} OnWireKeepsLength(messages: seq<seq<Byte>>, mss: nat, ds: nat)
    requires ds > 0 && AllSized(messages, mss)
    ensures LengthOf(OnWire(messages, ds)) == Start(|messages|, mss)
  {
    if |messages| == 0 {
    } else {
      var front, last := messages[..|messages| - 1], messages[|messages| - 1];
      OnWireKeepsLength(front, mss, ds);
      ChunksKeepLength(last, ds);
      LengthOfConcat(OnWire(front, ds), Chunks(last, ds));
    }
  }

  lemma OnWireLast(messages: seq<seq<Byte>>, ds: nat, count: nat)
    requires ds > 0 && 0 < count <= |messages|
    ensures OnWire(messages[..count], ds) == OnWire(messages[..count - 1], ds) + Chunks(messages[count - 1], ds)
  {
    hide Chunks;
    assert messages[..count][..count - 1] == messages[..count - 1];
  }

  /** Stamping `stamped` buffers and sending the first `count` of them puts one gap-free id
      range on the wire, across buffer boundaries. */
  lemma {:induction false} StampedBuffersOnWire(contents: seq<seq<Byte>>, mss: nat, ds: nat, first: nat, stamped: nat,
                                                count: nat)
    requires AllSized(contents, mss) && HoldsHeaders(mss, ds) && count <= stamped <= |contents|
    requires first + Start(stamped, PacketCount(mss, ds)) <= U64_LIMIT
    ensures PacketsFit(mss, ds, PacketCount(mss, ds))
    ensures
      var p := PacketCount(mss, ds);
      var wire := OnWire(StampBuffers(contents, mss, ds, p, first, stamped)[..count], ds);
      AllHaveHeaders(wire) && IdsOf(wire) == IdRange(first, Start(count, p))
  {
    hide StampBuffers, PacketCount, HoldsHeaders, GetPacketId, Chunks;
    var p := PacketCount(mss, ds);
    AllPacketsFit(mss, ds);
    var out := StampBuffers(contents, mss, ds, p, first, stamped);
    if count == 0 {
      assert |out[..0]| == 0;
    } else {
      StampedBuffersOnWire(contents, mss, ds, first, stamped, count - 1);
      StampedBufferOnWire(contents, mss, ds, first, stamped, count - 1);
      OnWireLast(out, ds, count);
      hide OnWire, IdsOf;
      IdsOfConcat(OnWire(out[..count - 1], ds), Chunks(out[count - 1], ds));
      IdRangeConcat(first, Start(count - 1, p), p);
    }
  }

  /** The capacity of a vector with room for `capacity` elements once it holds `len`. */
  function GrownCapacity(capacity: nat, len: nat): (c: nat)
    ensures c >= len && c >= capacity
    ensures len <= capacity ==> c == capacity
  {
    if len <= capacity then capacity
    else if 2 * capacity >= len && 2 * capacity >= 4 then 2 * capacity
    else if len >= 4 then len else 4
  }

  class PacketBuffer {
    const buffers: seq<array<Byte>>
    const mss: nat
    const datagramSize: nat
    const packetsPerMsghdr: nat
    var indexPool: seq<nat>
    var poolCapacity: nat
    ghost var contents: seq<seq<Byte>>

    ghost predicate Valid()
      reads this, buffers
    {
      && datagramSize > 0 && packetsPerMsghdr == PacketCount(mss, datagramSize)
      && |contents| == |buffers| && AllSized(contents, mss)
      && (forall i :: 0 <= i < |buffers| ==> buffers[i][..] == contents[i])
      && (forall i, j :: 0 <= i < j < |buffers| ==> buffers[i] != buffers[j])
      && |indexPool| <= poolCapacity
    }

    /** Takes over a vector of message buffers; every index starts in the pool, whose
        capacity is exactly the number of buffers. */
    constructor (buffers: seq<array<Byte>>, mss: nat, datagramSize: nat)
      requires datagramSize > 0
      requires forall i :: 0 <= i < |buffers| ==> buffers[i].Length == mss
      requires forall i, j :: 0 <= i < j < |buffers| ==> buffers[i] != buffers[j]
      ensures Valid() && this.buffers == buffers && this.mss == mss && this.datagramSize == datagramSize
      ensures indexPool == seq(|buffers|, i => i) && poolCapacity == |buffers|
      ensures contents == seq(|buffers|, i requires 0 <= i < |buffers| reads buffers => buffers[i][..])
    {
      this.buffers := buffers;
      this.mss := mss;
      this.datagramSize := datagramSize;
      this.packetsPerMsghdr := PacketCount(mss, datagramSize);
      this.indexPool := seq(|buffers|, i => i);
      this.poolCapacity := |buffers|;
      this.contents := seq(|buffers|, i requires 0 <= i < |buffers| reads buffers => buffers[i][..]);
    }

    /** Stamps one buffer in place. */
    method StampBuffer(index: nat, first: nat) returns (used: nat)
      requires Valid() && HoldsHeaders(mss, datagramSize) && index < |buffers|
      modifies buffers[index], `contents
      ensures Valid() && used == packetsPerMsghdr
      ensures PacketsFit(mss, datagramSize, packetsPerMsghdr)
      ensures contents == old(contents)[index := StampIds(old(contents[index]), datagramSize, first, packetsPerMsghdr)]
    {
      hide SetPacketId, HoldsHeaders, PacketCount;
      AllPacketsFit(mss, datagramSize);
      var buffer := buffers[index];
      used := 0;
      for i := 0 to packetsPerMsghdr
        invariant used == i && PacketsFit(mss, datagramSize, i)
        invariant buffer.Length == mss && contents == old(contents)
        invariant buffer[..] == StampIds(old(buffer[..]), datagramSize, first, i)
        invariant forall k :: 0 <= k < |buffers| && k != index ==> buffers[k][..] == old(buffers[k][..])
      {
        if i + 1 < packetsPerMsghdr { StartMonotone(i, packetsPerMsghdr - 1, datagramSize); }
        StartIsProduct(i, datagramSize);
        SetPacketIdRaw(buffer, i * datagramSize, first + used);
        used := used + 1;
      }
      contents := contents[index := buffer[..]];
    }

    /** Stamps the first `amount` buffers, or all of them if there are fewer, with
        consecutive ids. */
    method AddPacketIds(first: nat, amount: nat) returns (used: nat)
      requires Valid() && HoldsHeaders(mss, datagramSize)
      modifies buffers, `contents
      ensures Valid() && PacketsFit(mss, datagramSize, packetsPerMsghdr)
      ensures var n := if amount < |buffers| then amount else |buffers|;
        && used == Start(n, packetsPerMsghdr)
        && contents == StampBuffers(old(contents), mss, datagramSize, packetsPerMsghdr, first, n)
    {
      hide StampIds, HoldsHeaders, PacketCount;
      AllPacketsFit(mss, datagramSize);
      var n := if amount < |buffers| then amount else |buffers|;
      used := 0;
      for i := 0 to n
        invariant Valid() && used == Start(i, packetsPerMsghdr)
        invariant contents == StampBuffers(old(contents), mss, datagramSize, packetsPerMsghdr, first, i)
      {
        var stamped := StampBuffer(i, first + used);
        used := used + stamped;
      }
    }

    method GetBufferIndex() returns (r: Result<nat>)
      requires Valid()
      modifies `indexPool
      ensures Valid()
      ensures old(indexPool) == [] ==> r.Err? && indexPool == []
      ensures old(indexPool) != [] ==>
        r == Ok(old(indexPool)[|old(indexPool)| - 1]) && indexPool == old(indexPool)[..|old(indexPool)| - 1]
    {
      if |indexPool| == 0 {
        return Err("No buffers left in packet_buffer");
      }
      r := Ok(indexPool[|indexPool| - 1]);
      indexPool := indexPool[..|indexPool| - 1];
    }

    method GetPoolInflight() returns (inflight: nat)
      requires Valid()
      ensures inflight == poolCapacity - |indexPool|
    {
      inflight := poolCapacity - |indexPool|;
    }

    method ReturnBufferIndex(indexes: seq<nat>)
      requires Valid()
      modifies `indexPool, `poolCapacity
      ensures Valid()
      ensures indexPool == old(indexPool) + indexes
      ensures poolCapacity == GrownCapacity(old(poolCapacity), |indexPool|)
      ensures |indexPool| > old(poolCapacity) ==>
        && poolCapacity >= 2 * old(poolCapacity) && poolCapacity >= 4
        && (poolCapacity == 2 * old(poolCapacity) || poolCapacity == |indexPool| || poolCapacity == 4)
    {
      indexPool := indexPool + indexes;
      poolCapacity := GrownCapacity(poolCapacity, |indexPool|);
    }
  }

  /** Creates one message buffer with a MEASUREMENT header at the start of every packet. */
  method NewSenderBuffer(mss: nat, ds: nat, testId: nat) returns (buffer: array<Byte>, ghost raw: seq<Byte>)
    requires HoldsHeaders(mss, ds)
    ensures fresh(buffer) && buffer.Length == mss == |raw|
    ensures PacketsFit(mss, ds, PacketCount(mss, ds))
    ensures buffer[..] == WriteHeaders(raw, ds, testId, 0, PacketCount(mss, ds))
  {
    hide WriteHeader, HoldsHeaders, PacketCount;
    AllPacketsFit(mss, ds);
    buffer := new Byte[mss];
    raw := buffer[..];
    var packets := PacketCount(mss, ds);
    for i := 0 to packets
      invariant PacketsFit(mss, ds, i)
      invariant buffer[..] == WriteHeaders(raw, ds, testId, 0, i)
    {
      if i + 1 < packets { StartMonotone(i, packets - 1, ds); }
      StartIsProduct(i, ds);
      CopyHeader(buffer, i * ds, Header(MEASUREMENT, testId, i));
    }
  }

  method CopyHeader(buffer: array<Byte>, start: nat, header: Header)
    requires start + HEADER_LEN <= buffer.Length
    modifies buffer
    ensures buffer[..] == WriteHeader(old(buffer[..]), start, header)
  {
    hide Serialize;
    var bytes := Serialize(header);
    forall k | 0 <= k < HEADER_LEN { buffer[start + k] := bytes[k]; }
    assert buffer[start..start + HEADER_LEN] == bytes;
    assert buffer[..] == buffer[..start] + buffer[start..start + HEADER_LEN] + buffer[start + HEADER_LEN..];
    assert buffer[..start] == old(buffer[..])[..start];
    assert buffer[start + HEADER_LEN..] == old(buffer[..])[start + HEADER_LEN..];
  }
}
