/** Batched and coalesced receiving against receiving one message at a time. */
module Batching {
  import opened Wire
  import opened Datagrams
  import opened Accounting
  import opened Receivers

  lemma GrowKeeps(ms: seq<Measurement>, len: nat, now: real, i: nat)
    ensures i < |ms| ==> Grow(ms, len, now)[i] == ms[i]
    ensures len <= |ms| ==> Grow(ms, len, now) == ms
  {
    if i < |ms| { assert Grow(ms, len, now)[..|ms|][i] == ms[i]; }
  }

  predicate OfTest(a: Arrival, testId: nat)
    requires |a.bytes| >= HEADER_LEN
  {
    TypeOf(a) == MEASUREMENT && GetTestId(a.bytes) == testId
  }

  ghost predicate AllOfTest(batch: seq<Arrival>, testId: nat)
    requires AllWellFormed(batch)
  {
    forall i :: 0 <= i < |batch| ==> OfTest(batch[i], testId)
  }

  // Batches of data

  lemma {:induction false} TallyAllFirst(t: Tally, batch: seq<Arrival>)
    requires AllWellFormed(batch) && |batch| > 0
    ensures TallyAll(t, batch) == TallyAll(TallyMessage(t, batch[0]), batch[1..])
  {
    hide TallyMessage, WellFormed;
    var last := |batch| - 1;
    if last == 0 {
      assert |batch[..0]| == 0;
    } else {
      TallyAllFirst(t, batch[..last]);
      assert batch[..last][1..] == batch[1..][..last - 1];
    }
  }

  /** A batch of MEASUREMENT messages of one test leaves the receiver as single calls would. */
  lemma {:induction false} BatchRefinesSingle(s: ReceiverState, batch: seq<Arrival>, times: seq<real>)
    requires AllWellFormed(batch) && |times| == |batch| > 0
    requires GetTestId(batch[0].bytes) < MAX_TEST_ID && AllOfTest(batch, GetTestId(batch[0].bytes))
    ensures HandleEach(s, batch, times) == HandleBatch(s, batch, times[0]).0
    decreases |batch|
  {
    hide GetTestId, GetMessageTypeCode, TypeOf, TallyMessage, Chunks;
    var testId := GetTestId(batch[0].bytes);
    assert OfTest(batch[0], testId);
    var (s', reply) := HandleMessage(s, batch[0], times[0]);
    var rest := batch[1..];
    assert AllOfTest(rest, testId) by {
      forall i | 0 <= i < |rest| ensures OfTest(rest[i], testId) {
        assert OfTest(batch[i + 1], testId);
      }
    }
    var started := s.(ms := ParseMessageType(s.ms, MEASUREMENT, testId, times[0]).0);
    TallyAllFirst(TallyOf(started, testId), batch);
    if |rest| == 0 {
    } else {
      assert OfTest(rest[0], testId);
      BatchRefinesSingle(s', rest, times[1..]);
      GrowKeeps(s'.ms, testId + 1, times[1], testId);
    }
  }

  /** Datagrams counted for a test so far. */
  function CountedFor(s: ReceiverState, testId: nat): nat {
    if testId < |s.ms| then s.ms[testId].counts.datagrams else 0
  }

  function DatagramsIn(a: Arrival): nat
    requires a.segmentSize > 0
  {
    |Chunks(a.bytes, a.segmentSize)|
  }

  /** The datagrams of a batch, and those in MEASUREMENT messages of one test. */
  function All(batch: seq<Arrival>): nat
    requires AllWellFormed(batch)
  {
    if |batch| == 0 then 0 else DatagramsIn(batch[0]) + All(batch[1..])
  }

  function Own(batch: seq<Arrival>, testId: nat): nat
    requires AllWellFormed(batch)
  {
    if |batch| == 0 then 0
    else (if OfTest(batch[0], testId) then DatagramsIn(batch[0]) else 0) + Own(batch[1..], testId)
  }

  lemma HoldsDatagram(a: Arrival)
    requires WellFormed(a)
    ensures DatagramsIn(a) > 0
  {
  }

  lemma HoldsHeader(a: Arrival)
    requires WellFormed(a)
    ensures |a.bytes| >= HEADER_LEN
  {
  }

  lemma {:induction false} OwnIsAllExactly(batch: seq<Arrival>, testId: nat)
    requires AllWellFormed(batch)
    ensures Own(batch, testId) <= All(batch)
    ensures Own(batch, testId) == All(batch) <==> AllOfTest(batch, testId)
  {
    hide OfTest, DatagramsIn, WellFormed;
    if |batch| == 0 {
    } else {
      OwnIsAllExactly(batch[1..], testId);
      HoldsDatagram(batch[0]);
      HoldsHeader(batch[0]);
      assert AllOfTest(batch, testId) <==> OfTest(batch[0], testId) && AllOfTest(batch[1..], testId) by {
        assert forall i :: 1 <= i < |batch| ==> batch[1..][i - 1] == batch[i];
      }
    }
  }

  lemma MessageCounts(t: Tally, a: Arrival)
    requires WellFormed(a)
    ensures TallyMessage(t, a).counts.datagrams == t.counts.datagrams + DatagramsIn(a)
  {
    Conservation(t, IdsOf(Chunks(a.bytes, a.segmentSize)));
  }

  lemma {:induction false} BatchCounts(t: Tally, batch: seq<Arrival>)
    requires AllWellFormed(batch)
    ensures TallyAll(t, batch).counts.datagrams == t.counts.datagrams + All(batch)
    decreases |batch|
  {
    hide TallyMessage, DatagramsIn, WellFormed;
    if |batch| == 0 {
    } else {
      TallyAllFirst(t, batch);
      MessageCounts(t, batch[0]);
      BatchCounts(TallyMessage(t, batch[0]), batch[1..]);
    }
  }

  lemma HandleMessageCounts(s: ReceiverState, a: Arrival, now: real, testId: nat)
    requires WellFormed(a) && testId < MAX_TEST_ID
    ensures CountedFor(HandleMessage(s, a, now).0, testId) ==
        CountedFor(s, testId) + if OfTest(a, testId) then DatagramsIn(a) else 0
  {
    hide TallyMessage, GetTestId, GetMessageTypeCode, Chunks, TypeOf, DatagramsIn;
    var id := GetTestId(a.bytes);
    GrowKeeps(s.ms, id + 1, now, testId);
    var (ms, reply) := ParseMessageType(s.ms, TypeOf(a), id, now);
    if reply == Data { MessageCounts(TallyOf(s.(ms := ms), id), a); }
  }

  /** One by one, at most the messages of the test are counted for it. */
  lemma {:induction false} EachCounts(s: ReceiverState, batch: seq<Arrival>, times: seq<real>, testId: nat)
    requires AllWellFormed(batch) && |times| == |batch| && testId < MAX_TEST_ID
    ensures CountedFor(HandleEach(s, batch, times), testId) <= CountedFor(s, testId) + Own(batch, testId)
    decreases |batch|
  {
    hide OfTest, HandleMessage, CountedFor, DatagramsIn, WellFormed, Stops;
    if |batch| == 0 {
    } else {
      HandleMessageCounts(s, batch[0], times[0], testId);
      EachCounts(HandleMessage(s, batch[0], times[0]).0, batch[1..], times[1..], testId);
    }
  }

  lemma HandleBatchCounts(s: ReceiverState, batch: seq<Arrival>, now: real)
    requires AllWellFormed(batch) && |batch| > 0
    requires TypeOf(batch[0]) == MEASUREMENT && GetTestId(batch[0].bytes) < MAX_TEST_ID
    ensures
      var testId := GetTestId(batch[0].bytes);
      CountedFor(HandleBatch(s, batch, now).0, testId) == CountedFor(s, testId) + All(batch)
  {
    hide TallyAll, GetTestId, TypeOf, All;
    var testId := GetTestId(batch[0].bytes);
    GrowKeeps(s.ms, testId + 1, now, testId);
    var (ms, reply) := ParseMessageType(s.ms, MEASUREMENT, testId, now);
    BatchCounts(TallyOf(s.(ms := ms), testId), batch);
  }

  /** A batch that starts with a MEASUREMENT message. */
  lemma DataBatchExactly(s: ReceiverState, batch: seq<Arrival>, times: seq<real>)
    requires AllWellFormed(batch) && |times| == |batch| > 0
    requires TypeOf(batch[0]) == MEASUREMENT && GetTestId(batch[0].bytes) < MAX_TEST_ID
    ensures HandleEach(s, batch, times) == HandleBatch(s, batch, times[0]).0 <==>
        AllOfTest(batch, GetTestId(batch[0].bytes))
  {
    hide HandleEach, TypeOf, GetTestId, TallyAll, Own, All, AllOfTest;
    var testId := GetTestId(batch[0].bytes);
    if HandleEach(s, batch, times) == HandleBatch(s, batch, times[0]).0 {
      EachCounts(s, batch, times, testId);
      HandleBatchCounts(s, batch, times[0]);
      OwnIsAllExactly(batch, testId);
    } else if AllOfTest(batch, testId) {
      BatchRefinesSingle(s, batch, times);
    }
  }

  // Batches that start with another message: the rest of the batch is not looked at

  /** The message changes nothing in this vector. */
  predicate Idle(ms: seq<Measurement>, a: Arrival)
    requires |a.bytes| >= HEADER_LEN
  {
    var testId := GetTestId(a.bytes);
    || testId >= MAX_TEST_ID
    || (TypeOf(a) == INIT && testId < |ms|)
    || (TypeOf(a) == LAST && (testId >= |ms| || ms[testId].last))
  }

  /** An idle message that ends the receive loop. */
  predicate EndsLoop(ms: seq<Measurement>, a: Arrival)
    requires |a.bytes| >= HEADER_LEN
  {
    var testId := GetTestId(a.bytes);
    testId >= MAX_TEST_ID || (TypeOf(a) == LAST && (testId >= |ms| || AllFinished(ms)))
  }

  /** All messages up to the one that ends the receive loop are idle. */
  predicate AllIdle(ms: seq<Measurement>, batch: seq<Arrival>)
    requires forall i :: 0 <= i < |batch| ==> |batch[i].bytes| >= HEADER_LEN
  {
    |batch| == 0 || (Idle(ms, batch[0]) && (EndsLoop(ms, batch[0]) || AllIdle(ms, batch[1..])))
  }

  /** Nothing gets lost: no entry, no LAST flag, no datagram count. */
  ghost predicate Above(s: ReceiverState, s': ReceiverState) {
    |s.ms| <= |s'.ms| && forall i :: 0 <= i < |s.ms| ==>
      (s.ms[i].last ==> s'.ms[i].last) && s.ms[i].counts.datagrams <= s'.ms[i].counts.datagrams
  }

  lemma MessageRises(s: ReceiverState, a: Arrival, now: real)
    requires WellFormed(a)
    ensures Above(s, HandleMessage(s, a, now).0)
  {
    hide TallyMessage, GetTestId, GetMessageTypeCode, Chunks, TypeOf, DatagramsIn;
    var s', id := HandleMessage(s, a, now).0, GetTestId(a.bytes);
    var (ms, reply) := ParseMessageType(s.ms, TypeOf(a), id, now);
    if reply == Data { MessageCounts(TallyOf(s.(ms := ms), id), a); }
    forall i | 0 <= i < |s.ms|
      ensures (s.ms[i].last ==> s'.ms[i].last) && s.ms[i].counts.datagrams <= s'.ms[i].counts.datagrams
    {
      GrowKeeps(s.ms, id + 1, now, i);
    }
  }

  /** A message that is not idle leaves a trace that cannot be undone; an idle one leaves none. */
  lemma IdleExactly(s: ReceiverState, a: Arrival, now: real)
    requires WellFormed(a)
    ensures
      var (s', reply) := HandleMessage(s, a, now);
      if Idle(s.ms, a) then s' == s && (Stops(s', reply) <==> EndsLoop(s.ms, a)) else !Above(s', s)
  {
    hide TallyMessage, GetTestId, GetMessageTypeCode, Chunks, TypeOf, DatagramsIn;
    var id := GetTestId(a.bytes);
    GrowKeeps(s.ms, id + 1, now, id);
    var (ms, reply) := ParseMessageType(s.ms, TypeOf(a), id, now);
    if reply == Data {
      MessageCounts(TallyOf(s.(ms := ms), id), a);
      HoldsDatagram(a);
    }
  }

  lemma {:induction false} EachRises(s: ReceiverState, batch: seq<Arrival>, times: seq<real>)
    requires AllWellFormed(batch) && |times| == |batch|
    ensures Above(s, HandleEach(s, batch, times))
    decreases |batch|
  {
    hide HandleMessage, WellFormed, Stops;
    if |batch| == 0 {
    } else {
      MessageRises(s, batch[0], times[0]);
      EachRises(HandleMessage(s, batch[0], times[0]).0, batch[1..], times[1..]);
    }
  }

  lemma {:induction false} NothingHappensExactly(s: ReceiverState, batch: seq<Arrival>, times: seq<real>)
    requires AllWellFormed(batch) && |times| == |batch|
    ensures HandleEach(s, batch, times) == s <==> AllIdle(s.ms, batch)
    decreases |batch|
  {
    hide HandleMessage, WellFormed, Stops, Idle, EndsLoop, Above;
    if |batch| == 0 {
    } else {
      IdleExactly(s, batch[0], times[0]);
      var s' := HandleMessage(s, batch[0], times[0]).0;
      EachRises(s', batch[1..], times[1..]);
      AboveItself(s');
      NothingHappensExactly(s', batch[1..], times[1..]);
    }
  }

  lemma AboveItself(s: ReceiverState)
    ensures Above(s, s)
  {
  }

  /** When a batch leaves the receiver as single calls would, for every batch. A batch that starts
      with MEASUREMENT: exactly if all its messages are MEASUREMENT messages of that test. With
      INIT or LAST: exactly if the messages behind it, as far as the receive loop gets, change
      nothing. With a message that ends the receive loop: always. */
  lemma BatchRefinesSingleExactly(s: ReceiverState, batch: seq<Arrival>, times: seq<real>)
    requires AllWellFormed(batch) && |times| == |batch| > 0
    ensures HandleEach(s, batch, times) == HandleBatch(s, batch, times[0]).0 <==> Transparent(s, batch, times[0])
  {
    hide HandleEach, AllOfTest, AllIdle, Stops, TallyMessage, TallyAll, TypeOf, GetTestId;
    var (s', reply) := HandleMessage(s, batch[0], times[0]);
    EachUnfolds(s, batch, times);
    if reply == Data {
      DataNeverStops(s');
      DataBatchExactly(s, batch, times);
    } else if !Stops(s', reply) {
      NothingHappensExactly(s', batch[1..], times[1..]);
    }
  }

  ghost predicate Transparent(s: ReceiverState, batch: seq<Arrival>, now: real)
    requires AllWellFormed(batch) && |batch| > 0
  {
    var (s', reply) := HandleMessage(s, batch[0], now);
    || Stops(s', reply)
    || (reply == Data && AllOfTest(batch, GetTestId(batch[0].bytes)))
    || (reply != Data && AllIdle(s'.ms, batch[1..]))
  }

  lemma DataNeverStops(s: ReceiverState)
    ensures !Stops(s, Data)
  {
  }

  lemma EachUnfolds(s: ReceiverState, batch: seq<Arrival>, times: seq<real>)
    requires AllWellFormed(batch) && |times| == |batch| > 0
    ensures
      var (s', reply) := HandleMessage(s, batch[0], times[0]);
      HandleEach(s, batch, times) == if Stops(s', reply) then s' else HandleEach(s', batch[1..], times[1..])
  {
    hide HandleMessage, Stops;
  }

  /** A LAST message behind a MEASUREMENT message of the same batch is counted as data and does
      not end the test. */
  lemma BatchHidesLast(s: ReceiverState, a: Arrival, b: Arrival, now: real)
    requires WellFormed(a) && WellFormed(b) && TypeOf(a) == MEASUREMENT && TypeOf(b) == LAST
    requires GetTestId(a.bytes) == GetTestId(b.bytes) < MAX_TEST_ID
    requires GetTestId(a.bytes) < |s.ms| && !s.ms[GetTestId(a.bytes)].last
    ensures
      var t := GetTestId(a.bytes);
      var single := HandleEach(s, [a, b], [now, now]);
      var batched := HandleBatch(s, [a, b], now).0;
      && t < |single.ms| && single.ms[t].last
      && t < |batched.ms| && !batched.ms[t].last
  {
    hide GetTestId, GetMessageTypeCode, TypeOf, Chunks, TallyMessage;
    var t := GetTestId(a.bytes);
    var both, times := [a, b], [now, now];
    assert both[1..] == [b] && times[1..] == [now];
    GrowKeeps(s.ms, t + 1, now, t);
    EachUnfolds(s, both, times);
    var s' := HandleMessage(s, a, now).0;
    EachUnfolds(s', [b], [now]);
  }

  // Receive offload

  /** The segments of a coalesced message, each a message of its own. */
  function AsArrivals(segments: seq<seq<Byte>>): (r: seq<Arrival>)
    ensures |r| == |segments|
    ensures forall i :: 0 <= i < |segments| ==> r[i] == Arrival(segments[i], |segments[i]|)
  {
    if |segments| == 0 then []
    else
      var last := segments[|segments| - 1];
      AsArrivals(segments[..|segments| - 1]) + [Arrival(last, |last|)]
  }

  /** A coalesced buffer as the receiver gets it, and its segments. */
  ghost predicate Offloaded(segments: seq<seq<Byte>>, size: nat) {
    size > 0 && |segments| > 0 && Coalesced(segments, size) && AllWellFormed(AsArrivals(segments))
  }

  lemma HeadersOfSegments(segments: seq<seq<Byte>>)
    requires AllWellFormed(AsArrivals(segments))
    ensures AllHaveHeaders(segments)
  {
    forall i | 0 <= i < |segments| ensures |segments[i]| >= HEADER_LEN {
      assert WellFormed(AsArrivals(segments)[i]);
    }
  }

  /** The header of a coalesced buffer is that of its first segment. */
  lemma CoalescedHeader(segments: seq<seq<Byte>>, size: nat)
    requires Offloaded(segments, size)
    ensures WellFormed(Arrival(Concat(segments), size))
    ensures GetTestId(Concat(segments)) == GetTestId(segments[0])
    ensures GetMessageTypeCode(Concat(segments)) == GetMessageTypeCode(segments[0])
  {
    HeadersOfSegments(segments);
    ChunksOfCoalesced(segments, size);
    assert WellFormed(AsArrivals(segments)[0]);
    hide WordAt, Chunks;
    var buffer := Concat(segments);
    assert segments[0] == buffer[..|segments[0]|];
    WordOfPrefix(buffer, |segments[0]|, 0);
    WordOfPrefix(buffer, |segments[0]|, 8);
  }

  lemma ConcatAppend(segments: seq<seq<Byte>>)
    requires |segments| > 0
    ensures |Concat(segments)| == |Concat(segments[..|segments| - 1])| + |segments[|segments| - 1]|
  {
    var last := |segments| - 1;
    if last == 0 {
      assert |segments[..0]| == 0 && |segments[1..]| == 0;
    } else {
      ConcatAppend(segments[1..]);
      assert segments[1..][..last - 1] == segments[..last][1..];
    }
  }

  /** The tally with n more bytes counted. */
  function WithBytes(t: Tally, n: nat): Tally {
    t.(counts := t.counts.(dataBytes := t.counts.dataBytes + n))
  }

  lemma RunWithBytes(t: Tally, ids: seq<nat>, m: nat, n: nat)
    ensures WithBytes(Run(WithBytes(t, m), ids), n) == WithBytes(Run(t, ids), m + n)
  {
    hide Run;
    PendingIsTransparent(t, ids, 0, m);
  }

  /** The segments' tally as a batch: their ids in order, and their bytes. */
  lemma {:induction false} SegmentsTally(t: Tally, segments: seq<seq<Byte>>)
    requires AllWellFormed(AsArrivals(segments)) && AllHaveHeaders(segments)
    ensures TallyAll(t, AsArrivals(segments)) == WithBytes(Run(t, IdsOf(segments)), |Concat(segments)|)
  {
    hide GetPacketId, GetMessageTypeCode;
    if |segments| == 0 {
      RunNone(t);
    } else {
      var last := |segments| - 1;
      var front, segment := segments[..last], segments[last];
      assert AsArrivals(segments)[..last] == AsArrivals(front);
      assert WellFormed(AsArrivals(segments)[last]);
      hide Run, IdsOf, Concat, WellFormed, TallyMessage, WithBytes;
      SegmentsTally(t, front);
      ConcatAppend(segments);
      assert segments == front + [segment];
      IdsOfConcat(front, [segment]);
      RunConcat(t, IdsOf(front), IdsOf([segment]));
      SegmentTally(TallyAll(t, AsArrivals(front)), segment);
      RunWithBytes(Run(t, IdsOf(front)), IdsOf([segment]), |Concat(front)|, |segment|);
    }
  }

  lemma SegmentTally(t: Tally, segment: seq<Byte>)
    requires |segment| >= HEADER_LEN && WellFormed(Arrival(segment, |segment|))
    ensures TallyMessage(t, Arrival(segment, |segment|)) == WithBytes(Run(t, IdsOf([segment])), |segment|)
  {
    assert Chunks(segment, |segment|) == [segment];
  }

  /** Receive offload acts like a batch: a coalesced buffer is handled as its segments would be in
      one call of recvmmsg. */
  lemma CoalescedIsBatch(s: ReceiverState, segments: seq<seq<Byte>>, size: nat, now: real)
    requires Offloaded(segments, size)
    ensures WellFormed(Arrival(Concat(segments), size))
    ensures HandleMessage(s, Arrival(Concat(segments), size), now) == HandleBatch(s, AsArrivals(segments), now)
  {
    HeadersOfSegments(segments);
    CoalescedHeader(segments, size);
    ChunksOfCoalesced(segments, size);
    hide Run, GetTestId, GetMessageTypeCode, Chunks, IdsOf;
    var testId := GetTestId(segments[0]);
    var a := Arrival(Concat(segments), size);
    assert TypeOf(a) == TypeOf(AsArrivals(segments)[0]);
    var (ms, reply) := ParseMessageType(s.ms, TypeOf(a), testId, now);
    if reply == Data { SegmentsTally(TallyOf(s.(ms := ms), testId), segments); }
  }

  /** A coalesced buffer leaves the receiver as its segments one by one would, exactly under the
      condition for batches. */
  lemma CoalescedRefinesSegmentsExactly(s: ReceiverState, segments: seq<seq<Byte>>, size: nat, times: seq<real>)
    requires Offloaded(segments, size) && |times| == |segments|
    ensures WellFormed(Arrival(Concat(segments), size))
    ensures HandleEach(s, AsArrivals(segments), times) == HandleMessage(s, Arrival(Concat(segments), size), times[0]).0
      <==> Transparent(s, AsArrivals(segments), times[0])
  {
    hide HandleEach, HandleMessage, HandleBatch, Transparent, WellFormed;
    CoalescedIsBatch(s, segments, size, times[0]);
    BatchRefinesSingleExactly(s, AsArrivals(segments), times);
  }
}
