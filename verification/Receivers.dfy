/** The receiver: the measurement vector with its lifecycle flags, and the handling of received
    messages one at a time (recvmsg), in batches (recvmmsg). */
module Receivers {
  import opened Wire
  import opened Datagrams
  import opened Counters
  import opened Accounting

  const MAX_TEST_ID: nat := 1024

  datatype Measurement = Measurement(startTime: real, counts: Counts, first: bool, last: bool)

  /** How a message is answered; `Panics` is the failed lookup of an unknown test. */
  datatype Reply = Data | InitReceived | LastReceived | TestIdTooBig | Panics

  function NewMeasurement(now: real): Measurement {
    Measurement(now, NO_COUNTS, false, false)
  }

  /** The vector resized to at least `len` entries. */
  function Grow(ms: seq<Measurement>, len: nat, now: real): (r: seq<Measurement>)
    ensures |r| == if |ms| < len then len else |ms|
    ensures r[..|ms|] == ms
    ensures forall i :: |ms| <= i < |r| ==> r[i] == NewMeasurement(now)
  {
    if |ms| < len then ms + seq(len - |ms|, _ => NewMeasurement(now)) else ms
  }

  function ParseMessageType(ms: seq<Measurement>, mtype: MessageType, testId: nat,
                            now: real): (r: (seq<Measurement>, Reply))
    ensures r.1 == Data ==> testId < |r.0| && r.0[testId].first
    ensures |r.0| >= |ms|
  {
    if testId >= MAX_TEST_ID then (ms, TestIdTooBig)
    else match mtype
      case INIT => (Grow(ms, testId + 1, now), InitReceived)
      case MEASUREMENT =>
        var grown := Grow(ms, testId + 1, now);
        (if grown[testId].first then grown
         else grown[testId := grown[testId].(startTime := now, first := true)], Data)
      case LAST =>
        if testId < |ms| then (ms[testId := ms[testId].(last := true)], LastReceived) else (ms, Panics)
  }

  // Lifecycle over whole runs

  /** A message arrives, the counters of one measurement change, or an interval end resets the
      counters of all of them. */
  datatype Event = Arrive(mtype: MessageType, testId: nat, now: real) | Recount(testId: nat, counts: Counts) | Reset

  datatype Life = Life(ms: seq<Measurement>, panicked: bool)

  function LifeStep(l: Life, e: Event): Life {
    if l.panicked then l
    else match e
      case Arrive(mtype, testId, now) =>
        var (ms, reply) := ParseMessageType(l.ms, mtype, testId, now);
        Life(ms, reply == Panics)
      case Recount(testId, counts) =>
        if testId < |l.ms| then l.(ms := l.ms[testId := l.ms[testId].(counts := counts)]) else l
      case Reset =>
        l.(ms := seq(|l.ms|, i requires 0 <= i < |l.ms| => l.ms[i].(counts := NO_COUNTS)))
  }

  function LifeAfter(events: seq<Event>): Life {
    if |events| == 0 then Life([], false) else LifeStep(LifeAfter(events[..|events| - 1]), events[|events| - 1])
  }

  /** Entries are never lost, flags are never cleared, and the start time of a measurement only
      changes in the step that marks its first packet. */
  ghost predicate Grows(a: seq<Measurement>, b: seq<Measurement>) {
    |a| <= |b| && forall i :: 0 <= i < |a| ==>
      && (a[i].first ==> b[i].first) && (a[i].last ==> b[i].last)
      && (a[i].first || !b[i].first ==> a[i].startTime == b[i].startTime)
  }

  lemma StepGrows(l: Life, e: Event)
    ensures Grows(l.ms, LifeStep(l, e).ms)
  {
    if e.Arrive? && e.testId < MAX_TEST_ID {
      var grown := Grow(l.ms, e.testId + 1, e.now);
      forall i | 0 <= i < |l.ms| ensures grown[i] == l.ms[i] {
        assert grown[..|l.ms|][i] == l.ms[i];
      }
    }
  }

  lemma {:induction false} LifecycleIsMonotone(events: seq<Event>, k: nat)
    requires k <= |events|
    ensures Grows(LifeAfter(events[..k]).ms, LifeAfter(events).ms)
  {
    if k == |events| {
      assert events[..k] == events;
    } else {
      var last := |events| - 1;
      LifecycleIsMonotone(events[..last], k);
      assert events[..last][..k] == events[..k];
      StepGrows(LifeAfter(events[..last]), events[last]);
    }
  }

  /** Test t has received a MEASUREMENT (a LAST) message. */
  ghost predicate Started(events: seq<Event>, t: nat) {
    exists i :: 0 <= i < |events| && Starts(events[i], t)
  }

  ghost predicate Ended(events: seq<Event>, t: nat) {
    exists i :: 0 <= i < |events| && Ends(events[i], t)
  }

  predicate Starts(e: Event, t: nat) {
    t < MAX_TEST_ID && e.Arrive? && e.mtype == MEASUREMENT && e.testId == t
  }

  predicate Ends(e: Event, t: nat) {
    t < MAX_TEST_ID && e.Arrive? && e.mtype == LAST && e.testId == t
  }

  /** The message creates the entries up to its test id. */
  predicate Creates(e: Event) {
    e.Arrive? && e.mtype != LAST && e.testId < MAX_TEST_ID
  }

  function VectorLength(events: seq<Event>): nat {
    if |events| == 0 then 0
    else
      var n, e := VectorLength(events[..|events| - 1]), events[|events| - 1];
      if Creates(e) && e.testId >= n then e.testId + 1 else n
  }

  /** The time of the first MEASUREMENT message of test t. */
  ghost function FirstTime(events: seq<Event>, t: nat): real
    requires Started(events, t)
  {
    var last := |events| - 1;
    if Started(events[..last], t) then FirstTime(events[..last], t)
    else StartsLast(events, t); events[last].now
  }

  lemma StartsLast(events: seq<Event>, t: nat)
    requires Started(events, t) && !Started(events[..|events| - 1], t)
    ensures Starts(events[|events| - 1], t)
  {
    StartedStep(events, t);
  }

  lemma StartedStep(events: seq<Event>, t: nat)
    requires |events| > 0
    ensures Started(events, t) <==> Started(events[..|events| - 1], t) || Starts(events[|events| - 1], t)
    ensures Ended(events, t) <==> Ended(events[..|events| - 1], t) || Ends(events[|events| - 1], t)
  {
    var last := |events| - 1;
    forall i | 0 <= i < last ensures events[..last][i] == events[i] {}
    if Started(events[..last], t) {
      var i :| 0 <= i < last && Starts(events[..last][i], t);
      assert Starts(events[i], t);
    }
    if Ended(events[..last], t) {
      var i :| 0 <= i < last && Ends(events[..last][i], t);
      assert Ends(events[i], t);
    }
    if Started(events, t) && !Starts(events[last], t) {
      var i :| 0 <= i < |events| && Starts(events[i], t);
      assert Starts(events[..last][i], t);
    }
    if Ended(events, t) && !Ends(events[last], t) {
      var i :| 0 <= i < |events| && Ends(events[i], t);
      assert Ends(events[..last][i], t);
    }
  }

  /** In every run that has not panicked the vector says what the messages said: an entry's
      flags tell whether its test was started and ended, its start time is that of the first
      MEASUREMENT message, and tests without an entry were neither started nor ended. */
  ghost predicate Faithful(ms: seq<Measurement>, events: seq<Event>, t: nat) {
    && (t < |ms| ==> (ms[t].first <==> Started(events, t)) && (ms[t].last <==> Ended(events, t)))
    && (t < |ms| && Started(events, t) ==> ms[t].startTime == FirstTime(events, t))
    && (t >= |ms| ==> !Started(events, t) && !Ended(events, t))
  }

  lemma {:induction false} FlagsTellHistory(events: seq<Event>, t: nat)
    requires !LifeAfter(events).panicked
    ensures |LifeAfter(events).ms| == VectorLength(events)
    ensures Faithful(LifeAfter(events).ms, events, t)
  {
    if |events| == 0 {
    } else {
      hide Started, Ended;
      var last := |events| - 1;
      var l := LifeAfter(events[..last]);
      FlagsTellHistory(events[..last], t);
      StartedStep(events, t);
      EntryStep(l, events[last], t);
    }
  }

  /** What one event does to the entry of test t. */
  lemma EntryStep(l: Life, e: Event, t: nat)
    requires !l.panicked && !LifeStep(l, e).panicked
    ensures
      var ms := LifeStep(l, e).ms;
      && |ms| == (if Creates(e) && e.testId >= |l.ms| then e.testId + 1 else |l.ms|)
      && (Starts(e, t) || Ends(e, t) ==> t < |ms|)
      && (t < |ms| ==>
            && (ms[t].first <==> (t < |l.ms| && l.ms[t].first) || Starts(e, t))
            && (ms[t].last <==> (t < |l.ms| && l.ms[t].last) || Ends(e, t))
            && (t < |l.ms| && l.ms[t].first ==> ms[t].startTime == l.ms[t].startTime)
            && (!(t < |l.ms| && l.ms[t].first) && Starts(e, t) ==> ms[t].startTime == e.now))
  {
    if e.Arrive? && e.testId < MAX_TEST_ID {
      var grown := Grow(l.ms, e.testId + 1, e.now);
      if t < |l.ms| { assert grown[..|l.ms|][t] == l.ms[t]; }
    }
  }

  /** The lookup of a LAST message panics exactly when no earlier INIT or MEASUREMENT message
      had an id at least as high. */
  lemma {:induction false} PanicsExactly(events: seq<Event>)
    ensures LifeAfter(events).panicked <==>
      exists j :: 0 <= j < |events| && UnknownLast(events, j)
  {
    if |events| == 0 {
    } else {
      var last := |events| - 1;
      var before := events[..last];
      PanicsExactly(before);
      UnknownLastSplits(events);
      if !LifeAfter(before).panicked {
        FlagsTellHistory(before, 0);
        LifeStepPanics(LifeAfter(before), events[last]);
        assert LifeAfter(events).panicked <==> UnknownLast(events, last);
      }
    }
  }

  lemma UnknownLastSplits(events: seq<Event>)
    requires |events| > 0
    ensures
      var last := |events| - 1;
      (exists j :: 0 <= j < |events| && UnknownLast(events, j)) <==>
        (exists j :: 0 <= j < last && UnknownLast(events[..last], j)) || UnknownLast(events, last)
  {
    hide VectorLength;
    var last := |events| - 1;
    forall j | 0 <= j < last ensures UnknownLast(events[..last], j) <==> UnknownLast(events, j) {
      assert events[..last][..j] == events[..j];
    }
  }

  ghost predicate UnknownLast(events: seq<Event>, j: nat)
    requires j < |events|
  {
    events[j].Arrive? && events[j].mtype == LAST && VectorLength(events[..j]) <= events[j].testId < MAX_TEST_ID
  }

  lemma LifeStepPanics(l: Life, e: Event)
    requires !l.panicked
    ensures LifeStep(l, e).panicked <==> e.Arrive? && e.mtype == LAST && |l.ms| <= e.testId < MAX_TEST_ID
  {
  }

  predicate AllFinished(ms: seq<Measurement>) {
    forall i :: 0 <= i < |ms| ==> (ms[i].first ==> ms[i].last)
  }

  /** The loop's finish test holds exactly when every started test has ended. */
  lemma FinishesExactlyWhenAllEnded(events: seq<Event>)
    requires !LifeAfter(events).panicked
    ensures AllFinished(LifeAfter(events).ms) <==>
      forall t :: Started(events, t) ==> Ended(events, t)
  {
    var ms := LifeAfter(events).ms;
    forall t: nat ensures Faithful(ms, events, t) {
      FlagsTellHistory(events, t);
    }
    if AllFinished(ms) {
      forall t | Started(events, t) ensures Ended(events, t) {
        assert Faithful(ms, events, t);
      }
    }
    if forall t :: Started(events, t) ==> Ended(events, t) {
      forall i | 0 <= i < |ms| && ms[i].first ensures ms[i].last {
        assert Faithful(ms, events, i);
      }
    }
  }

  // Receiving messages

  /** A received message: its bytes and, with receive offload, the segment size. */
  datatype Arrival = Arrival(bytes: seq<Byte>, segmentSize: nat)

  ghost predicate WellFormed(a: Arrival) {
    && a.segmentSize > 0 && |a.bytes| >= HEADER_LEN
    && AllHaveHeaders(Chunks(a.bytes, a.segmentSize))
    && GetMessageTypeCode(a.bytes) <= 2
  }

  ghost predicate AllWellFormed(batch: seq<Arrival>) {
    forall i {:trigger batch[i]} :: 0 <= i < |batch| ==> WellFormed(batch[i])
  }

  function TypeOf(a: Arrival): MessageType
    requires |a.bytes| >= HEADER_LEN
  {
    var code := GetMessageTypeCode(a.bytes);
    if code == 0 then INIT else if code == 1 then MEASUREMENT else LAST
  }

  datatype ReceiverState = ReceiverState(next: nat, ms: seq<Measurement>)

  /** The datagrams and bytes of one message, and of several. */
  function TallyMessage(t: Tally, a: Arrival): Tally
    requires WellFormed(a)
  {
    var t' := ReceiveMessage(t, a.bytes, a.segmentSize);
    t'.(counts := t'.counts.(dataBytes := t'.counts.dataBytes + |a.bytes|))
  }

  function TallyAll(t: Tally, batch: seq<Arrival>): Tally
    requires AllWellFormed(batch)
  {
    if |batch| == 0 then t else TallyMessage(TallyAll(t, batch[..|batch| - 1]), batch[|batch| - 1])
  }

  /** The receiver-wide expected id with the counters of test `testId`, and its update. */
  function TallyOf(s: ReceiverState, testId: nat): Tally
    requires testId < |s.ms|
  {
    Tally(s.next, s.ms[testId].counts)
  }

  function WithTally(s: ReceiverState, testId: nat, t: Tally): ReceiverState
    requires testId < |s.ms|
  {
    ReceiverState(t.next, s.ms[testId := s.ms[testId].(counts := t.counts)])
  }

  /** recvmsg: the message type decides first; only MEASUREMENT messages are counted. */
  function HandleMessage(s: ReceiverState, a: Arrival, now: real): (ReceiverState, Reply)
    requires WellFormed(a)
  {
    var testId := GetTestId(a.bytes);
    var (ms, reply) := ParseMessageType(s.ms, TypeOf(a), testId, now);
    if reply != Data then (s.(ms := ms), reply)
    else
      var started := s.(ms := ms);
      (WithTally(started, testId, TallyMessage(TallyOf(started, testId), a)), Data)
  }

  /** recvmmsg: only the first message's type and test id are looked at. */
  function HandleBatch(s: ReceiverState, batch: seq<Arrival>, now: real): (ReceiverState, Reply)
    requires AllWellFormed(batch)
  {
    if |batch| == 0 then (s, Data)
    else
      var testId := GetTestId(batch[0].bytes);
      var (ms, reply) := ParseMessageType(s.ms, TypeOf(batch[0]), testId, now);
      if reply != Data then (s.(ms := ms), reply)
      else
        var started := s.(ms := ms);
        (WithTally(started, testId, TallyAll(TallyOf(started, testId), batch)), Data)
  }

  /** The receive loop ends with this answer: on an error, on a panic, and on a LAST message once
      every started test has ended. */
  predicate Stops(s: ReceiverState, reply: Reply) {
    reply == TestIdTooBig || reply == Panics || (reply == LastReceived && AllFinished(s.ms))
  }

  /** The messages of a batch received by one call each, at the given times, until the receive
      loop ends. */
  function HandleEach(s: ReceiverState, batch: seq<Arrival>, times: seq<real>): ReceiverState
    requires AllWellFormed(batch) && |times| == |batch|
    decreases |batch|
  {
    if |batch| == 0 then s
    else
      var (s', reply) := HandleMessage(s, batch[0], times[0]);
      if Stops(s', reply) then s' else HandleEach(s', batch[1..], times[1..])
  }

  /** What handling a message does to the vector is one step of the lifecycle, followed by an
      update of counters only: so the lifecycle results hold of every run of the receiver. */
  lemma HandlingIsLifeSteps(s: ReceiverState, a: Arrival, now: real)
    requires WellFormed(a)
    ensures
      var (s', reply) := HandleMessage(s, a, now);
      var arrived := LifeStep(Life(s.ms, false), Arrive(TypeOf(a), GetTestId(a.bytes), now));
      && (arrived.panicked <==> reply == Panics)
      && (reply != Data ==> s'.ms == arrived.ms && s'.next == s.next)
      && (reply == Data ==>
            exists counts :: Life(s'.ms, false) == LifeStep(arrived, Recount(GetTestId(a.bytes), counts)))
  {
    hide TallyMessage, GetTestId, TypeOf;
    var (s', reply) := HandleMessage(s, a, now);
    var arrived := LifeStep(Life(s.ms, false), Arrive(TypeOf(a), GetTestId(a.bytes), now));
    if reply == Data {
      var testId := GetTestId(a.bytes);
      var counts := TallyMessage(Tally(s.next, arrived.ms[testId].counts), a).counts;
      assert Life(s'.ms, false) == LifeStep(arrived, Recount(testId, counts));
    }
  }

  /** The type and test id a sender serialises are those a receiver dispatches on. */
  lemma TypeIsOnWire(h: Header, payload: seq<Byte>, size: nat)
    requires h.testId < U64_LIMIT && h.packetId < U64_LIMIT
    ensures TypeOf(Arrival(Serialize(h) + payload, size)) == h.mtype
    ensures GetTestId(Serialize(h) + payload) == h.testId
  {
    SerializeRoundTrip(h, payload);
  }

  /** Each answer to a message, by its type, its test id and the length of the vector. */
  lemma AnswersExactly(s: ReceiverState, a: Arrival, now: real)
    requires WellFormed(a)
    ensures
      var reply, id, mtype := HandleMessage(s, a, now).1, GetTestId(a.bytes), TypeOf(a);
      && (reply == TestIdTooBig <==> id >= 1024)
      && (reply == Data <==> id < 1024 && mtype == MEASUREMENT)
      && (reply == InitReceived <==> id < 1024 && mtype == INIT)
      && (reply == LastReceived <==> id < 1024 && mtype == LAST && id < |s.ms|)
      && (reply == Panics <==> id < 1024 && mtype == LAST && id >= |s.ms|)
  {
    hide TallyMessage, GetTestId, TypeOf;
  }

  /** The receive loop ends with a message exactly if its test id is too big or, for a LAST message,
      if its test is unknown or every other started test has ended already. */
  lemma LoopEndsExactly(s: ReceiverState, a: Arrival, now: real)
    requires WellFormed(a)
    ensures
      var (s', reply) := HandleMessage(s, a, now);
      var id := GetTestId(a.bytes);
      Stops(s', reply) <==>
        id >= 1024 || (TypeOf(a) == LAST &&
          (id >= |s.ms| || forall t :: 0 <= t < |s.ms| && s.ms[t].first ==> s.ms[t].last || t == id))
  {
    hide TallyMessage, GetTestId, TypeOf;
    AnswersExactly(s, a, now);
    var id, s' := GetTestId(a.bytes), HandleMessage(s, a, now).0;
    if TypeOf(a) == LAST && id < 1024 && id < |s.ms| {
      assert s'.ms == s.ms[id := s.ms[id].(last := true)];
      if AllFinished(s'.ms) {
        forall t | 0 <= t < |s.ms| && s.ms[t].first ensures s.ms[t].last || t == id {
          assert s'.ms[t].first ==> s'.ms[t].last;
        }
      }
    }
  }

  // A measurement with interval ends

  /** The counters of all tests. */
  function SumOf(ms: seq<Measurement>): Counts {
    if |ms| == 0 then NO_COUNTS else SumOf(ms[..|ms| - 1]).Plus(ms[|ms| - 1].counts)
  }

  function ResetCounts(ms: seq<Measurement>): (r: seq<Measurement>)
    ensures |r| == |ms| && forall i :: 0 <= i < |ms| ==> r[i] == ms[i].(counts := NO_COUNTS)
  {
    seq(|ms|, i requires 0 <= i < |ms| => ms[i].(counts := NO_COUNTS))
  }

  datatype Input = Message(arrival: Arrival, now: real) | IntervalEnds

  ghost predicate InputsWellFormed(inputs: seq<Input>) {
    forall i {:trigger inputs[i]} :: 0 <= i < |inputs| ==> inputs[i].Message? ==> WellFormed(inputs[i].arrival)
  }

  /** `past` sums the counters handed over at interval ends; `over` once the loop has ended. */
  datatype Session = Session(state: ReceiverState, past: Counts, over: bool)

  const NEW_SESSION: Session := Session(ReceiverState(0, []), NO_COUNTS, false)

  function SessionStep(x: Session, e: Input): Session
    requires e.Message? ==> WellFormed(e.arrival)
  {
    if x.over then x
    else match e
      case IntervalEnds => x.(state := x.state.(ms := ResetCounts(x.state.ms)), past := x.past.Plus(SumOf(x.state.ms)))
      case Message(a, now) =>
        var (s', reply) := HandleMessage(x.state, a, now);
        Session(s', x.past, Stops(s', reply))
  }

  function SessionAfter(inputs: seq<Input>): Session
    requires InputsWellFormed(inputs)
  {
    if |inputs| == 0 then NEW_SESSION else SessionStep(SessionAfter(inputs[..|inputs| - 1]), inputs[|inputs| - 1])
  }

  /** What all intervals report together, the last, unfinished one included. */
  function Report(x: Session): Counts {
    x.past.Plus(SumOf(x.state.ms))
  }

  class Receiver {
    var nextPacketId: nat
    var measurements: seq<Measurement>

    constructor ()
      ensures State() == ReceiverState(0, [])
    {
      nextPacketId := 0;
      measurements := [];
    }

    ghost function State(): ReceiverState
      reads this
    {
      ReceiverState(nextPacketId, measurements)
    }

    method Resize(len: nat, now: real)
      modifies `measurements
      ensures measurements == Grow(old(measurements), len, now)
    {
      if |measurements| < len {
        measurements := measurements + seq(len - |measurements|, _ => NewMeasurement(now));
      }
    }

    method ParseType(mtype: MessageType, testId: nat, now: real) returns (reply: Reply)
      modifies `measurements
      ensures (measurements, reply) == ParseMessageType(old(measurements), mtype, testId, now)
    {
      if testId >= MAX_TEST_ID { return TestIdTooBig; }
      match mtype {
        case INIT =>
          Resize(testId + 1, now);
          reply := InitReceived;
        case MEASUREMENT =>
          if testId >= |measurements| { Resize(testId + 1, now); }
          var measurement := measurements[testId];
          if !measurement.first {
            measurements := measurements[testId := measurement.(startTime := now, first := true)];
          }
          reply := Data;
        case LAST =>
          if testId >= |measurements| { return Panics; }
          measurements := measurements[testId := measurements[testId].(last := true)];
          reply := LastReceived;
      }
    }

    method RecvMsg(a: Arrival, now: real) returns (reply: Reply)
      requires WellFormed(a)
      modifies this
      ensures (State(), reply) == HandleMessage(old(State()), a, now)
    {
      var testId := GetTestId(a.bytes);
      reply := ParseType(TypeOf(a), testId, now);
      if reply != Data { return; }
      var statistic := measurements[testId].counts;
      var received;
      nextPacketId, received, statistic := ProcessPacketMsghdr(a.bytes, a.segmentSize, nextPacketId, statistic);
      statistic := statistic.(datagrams := statistic.datagrams + received,
          dataBytes := statistic.dataBytes + |a.bytes|);
      measurements := measurements[testId := measurements[testId].(counts := statistic)];
    }

    method RecvMmsg(batch: seq<Arrival>, now: real) returns (reply: Reply)
      requires AllWellFormed(batch)
      modifies this
      ensures (State(), reply) == HandleBatch(old(State()), batch, now)
    {
      hide GetTestId, GetMessageTypeCode, TypeOf, Run, Chunks, ReceiveMessage;
      if |batch| == 0 { return Data; }
      var testId := GetTestId(batch[0].bytes);
      reply := ParseType(TypeOf(batch[0]), testId, now);
      if reply != Data { return; }
      ghost var parsed := measurements;
      ghost var t := TallyOf(State(), testId);
      var statistic := measurements[testId].counts;
      var datagrams: nat, bytes: nat := 0, 0;
      for i := 0 to |batch|
        invariant measurements == parsed
        invariant Tally(nextPacketId, Pending(statistic, datagrams, bytes)) == TallyAll(t, batch[..i])
      {
        assert batch[..i + 1][..i] == batch[..i];
        var received;
        nextPacketId, received, statistic := ProcessBatchMessage(batch[i], nextPacketId, statistic, datagrams, bytes);
        datagrams := datagrams + received;
        bytes := bytes + |batch[i].bytes|;
      }
      assert batch[..|batch|] == batch;
      statistic := statistic.(datagrams := statistic.datagrams + datagrams, dataBytes := statistic.dataBytes + bytes);
      measurements := measurements[testId := measurements[testId].(counts := statistic)];
    }

    /** An interval end: adds up the counters of all tests and sets them back. */
    method EndInterval() returns (interval: Counts)
      modifies `measurements
      ensures interval == SumOf(old(measurements)) && measurements == ResetCounts(old(measurements))
    {
      interval := NO_COUNTS;
      for i := 0 to |measurements|
        invariant interval == SumOf(measurements[..i])
      {
        assert measurements[..i + 1][..i] == measurements[..i];
        interval := interval.Plus(measurements[i].counts);
      }
      assert measurements[..|measurements|] == measurements;
      for i := 0 to |measurements|
        invariant |measurements| == |old(measurements)|
        invariant forall k :: 0 <= k < i ==> measurements[k] == old(measurements)[k].(counts := NO_COUNTS)
        invariant forall k :: i <= k < |measurements| ==> measurements[k] == old(measurements)[k]
      {
        measurements := measurements[i := measurements[i].(counts := NO_COUNTS)];
      }
    }

    /** The measurement loop over recvmsg and interval ends, until it ends or the inputs do. */
    method Measure(inputs: seq<Input>) returns (past: Counts, over: bool)
      requires InputsWellFormed(inputs) && State() == NEW_SESSION.state
      modifies this
      ensures Session(State(), past, over) == SessionAfter(inputs)
    {
      hide HandleMessage, WellFormed, SumOf;
      past, over := NO_COUNTS, false;
      for i := 0 to |inputs|
        invariant Session(State(), past, over) == SessionAfter(inputs[..i])
      {
        assert inputs[..i + 1][..i] == inputs[..i];
        if !over {
          match inputs[i] {
            case IntervalEnds =>
              var interval := EndInterval();
              past := past.Plus(interval);
            case Message(arrival, now) =>
              assert WellFormed(arrival);
              var reply := RecvMsg(arrival, now);
              over := LoopEnds(reply);
          }
        }
      }
      assert inputs[..|inputs|] == inputs;
    }

    method LoopEnds(reply: Reply) returns (over: bool)
      ensures over == Stops(State(), reply)
    {
      if reply == TestIdTooBig || reply == Panics { return true; }
      if reply == LastReceived {
        over := AllMeasurementsFinished();
      } else {
        over := false;
      }
    }

    method AllMeasurementsFinished() returns (finished: bool)
      ensures finished == AllFinished(measurements)
    {
      for i := 0 to |measurements|
        invariant AllFinished(measurements[..i])
      {
        if !measurements[i].last && measurements[i].first { return false; }
      }
      assert measurements[..|measurements|] == measurements;
      return true;
    }
  }

  /** One message of a batch; the datagram and byte counts are only added after the batch. */
  method ProcessBatchMessage(a: Arrival, next: nat, statistic: Counts, ghost datagrams: nat, ghost bytes: nat)
    returns (next': nat, received: nat, statistic': Counts)
    requires WellFormed(a)
    ensures Tally(next', Pending(statistic', datagrams + received, bytes + |a.bytes|))
      == TallyMessage(Tally(next, Pending(statistic, datagrams, bytes)), a)
  {
    next', received, statistic' := ProcessPacketMsghdr(a.bytes, a.segmentSize, next, statistic);
    PendingIsTransparent(Tally(next, statistic), IdsOf(Chunks(a.bytes, a.segmentSize)), datagrams, bytes);
  }

  ghost function Pending(c: Counts, datagrams: nat, bytes: nat): Counts {
    c.(datagrams := c.datagrams + datagrams, dataBytes := c.dataBytes + bytes)
  }

  /** Sequence accounting looks at neither datagram nor byte counts. */
  lemma {:induction false} PendingIsTransparent(t: Tally, ids: seq<nat>, datagrams: nat, bytes: nat)
    ensures Run(t.(counts := Pending(t.counts, datagrams, bytes)), ids)
      == Run(t, ids).(counts := Pending(Run(t, ids).counts, datagrams, bytes))
  {
    if |ids| == 0 {
    } else {
      PendingIsTransparent(t, ids[..|ids| - 1], datagrams, bytes);
    }
  }
}
