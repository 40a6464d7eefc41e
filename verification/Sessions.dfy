/** A receiver's whole measurement of one test, with interval ends anywhere: its reports are those
    of the sequence accounting that starts every interval from zero. */
module Sessions {
  import opened Wire
  import opened Datagrams
  import opened Counters
  import opened Accounting
  import opened IntervalAccounting
  import opened Receivers
  import opened Batching

  /** The message is counted as data. */
  predicate IsData(a: Arrival)
    requires |a.bytes| >= HEADER_LEN
  {
    TypeOf(a) == MEASUREMENT && GetTestId(a.bytes) < MAX_TEST_ID
  }

  /** All data is of one test; control messages may be of any. */
  ghost predicate OneTest(inputs: seq<Input>, testId: nat)
    requires InputsWellFormed(inputs)
  {
    testId < MAX_TEST_ID && forall i {:trigger inputs[i]} :: 0 <= i < |inputs| ==> inputs[i].Message? ==>
        KeepsToTest(inputs[i].arrival, testId)
  }

  ghost predicate KeepsToTest(a: Arrival, testId: nat)
    requires WellFormed(a)
  {
    IsData(a) ==> GetTestId(a.bytes) == testId
  }

  /** The datagrams counted in the session. */
  function Packets(inputs: seq<Input>): seq<seq<Byte>>
    requires InputsWellFormed(inputs)
  {
    if |inputs| == 0 then []
    else
      var before, e := Packets(inputs[..|inputs| - 1]), inputs[|inputs| - 1];
      if SessionAfter(inputs[..|inputs| - 1]).over || e.IntervalEnds? || !IsData(e.arrival) then before
      else before + Chunks(e.arrival.bytes, e.arrival.segmentSize)
  }

  /** The last segment goes on. */
  function Extended(segments: seq<seq<nat>>, ids: seq<nat>): seq<seq<nat>>
    requires |segments| > 0
  {
    segments[..|segments| - 1] + [segments[|segments| - 1] + ids]
  }

  /** Their ids, cut at the interval ends. */
  function Segments(inputs: seq<Input>): (r: seq<seq<nat>>)
    requires InputsWellFormed(inputs)
    ensures |r| > 0
  {
    if |inputs| == 0 then [[]]
    else
      var before, e := Segments(inputs[..|inputs| - 1]), inputs[|inputs| - 1];
      if SessionAfter(inputs[..|inputs| - 1]).over then before
      else if e.IntervalEnds? then before + [[]]
      else if IsData(e.arrival) then Extended(before, IdsOf(Chunks(e.arrival.bytes, e.arrival.segmentSize)))
      else before
  }

  lemma FlattenAppend(segments: seq<seq<nat>>, ids: seq<nat>)
    ensures Flatten(segments + [ids]) == Flatten(segments) + ids
  {
    assert (segments + [ids])[..|segments|] == segments;
  }

  lemma {:induction false} SegmentsHoldThePackets(inputs: seq<Input>)
    requires InputsWellFormed(inputs)
    ensures AllHaveHeaders(Packets(inputs)) && Flatten(Segments(inputs)) == IdsOf(Packets(inputs))
  {
    hide SessionAfter, IsData, GetPacketId, Flatten, IdsOf, Extended;
    if |inputs| == 0 {
      FlattenOfNothing();
      NoIds();
    } else {
      var front, e := inputs[..|inputs| - 1], inputs[|inputs| - 1];
      SegmentsHoldThePackets(front);
      if e.IntervalEnds? {
        FlattenAppend(Segments(front), []);
      } else {
        var packets := Chunks(e.arrival.bytes, e.arrival.segmentSize);
        assert WellFormed(e.arrival);
        hide Chunks;
        FlattenExtend(Segments(front), IdsOf(packets));
        IdsOfConcat(Packets(front), packets);
      }
    }
  }

  lemma NoIds()
    ensures IdsOf([]) == []
  {
  }

  lemma FlattenExtend(segments: seq<seq<nat>>, ids: seq<nat>)
    requires |segments| > 0
    ensures Flatten(Extended(segments, ids)) == Flatten(segments) + ids
  {
    var last := |segments| - 1;
    FlattenAppend(segments[..last], segments[last] + ids);
    ConcatAssociates(Flatten(segments[..last]), segments[last], ids);
  }

  lemma ConcatAssociates(a: seq<nat>, b: seq<nat>, c: seq<nat>)
    ensures (a + b) + c == a + (b + c)
  {
  }

  lemma FlattenOfNothing()
    ensures Flatten([[]]) == []
  {
    var none: seq<seq<nat>> := [];
    FlattenAppend(none, []);
    assert none + [[]] == [[]];
  }

  // The invariant of a session

  /** The counters without the bytes, which the sequence accounting does not know. */
  function Loss(c: Counts): Counts { c.(dataBytes := 0) }

  lemma LossOfPlus(a: Counts, b: Counts)
    ensures Loss(a.Plus(b)) == Loss(a).Plus(Loss(b))
  {
  }

  function CountsOf(ms: seq<Measurement>, testId: nat): Counts {
    if testId < |ms| then ms[testId].counts else NO_COUNTS
  }

  ghost predicate OnlyCounts(ms: seq<Measurement>, testId: nat) {
    forall i :: 0 <= i < |ms| && i != testId ==> ms[i].counts == NO_COUNTS
  }

  lemma {:induction false} SumOfOne(ms: seq<Measurement>, testId: nat)
    requires OnlyCounts(ms, testId)
    ensures SumOf(ms) == CountsOf(ms, testId)
  {
    hide Counts.Plus;
    if |ms| == 0 {
    } else {
      SumOfOne(ms[..|ms| - 1], testId);
      PlusIdentity(ms[|ms| - 1].counts);
      PlusIdentity(CountsOf(ms, testId));
    }
  }

  ghost predicate Agree(x: Session, testId: nat, segments: seq<seq<nat>>)
    requires |segments| > 0
  {
    var last := |segments| - 1;
    var (mid, total) := RunWithResets(0, segments[..last]);
    var t := Run(Tally(mid, NO_COUNTS), segments[last]);
    && OnlyCounts(x.state.ms, testId)
    && Loss(x.past) == total && x.state.next == t.next && Loss(CountsOf(x.state.ms, testId)) == t.counts
  }

  lemma {:induction false} RunIgnoresBytes(t: Tally, ids: seq<nat>)
    ensures Run(t, ids).next == Run(t.(counts := Loss(t.counts)), ids).next
    ensures Loss(Run(t, ids).counts) == Run(t.(counts := Loss(t.counts)), ids).counts
  {
    if |ids| == 0 {
    } else {
      RunIgnoresBytes(t, ids[..|ids| - 1]);
    }
  }

  lemma IntervalAgrees(x: Session, testId: nat, segments: seq<seq<nat>>)
    requires !x.over && |segments| > 0 && Agree(x, testId, segments)
    ensures Agree(SessionStep(x, IntervalEnds), testId, segments + [[]])
  {
    hide Counts.Plus, RunWithResets, SumOf;
    SumOfOne(x.state.ms, testId);
    LossOfPlus(x.past, CountsOf(x.state.ms, testId));
    OneMoreInterval(segments);
    assert (segments + [[]])[..|segments|] == segments;
    hide Run;
    RunNone(Tally(RunWithResets(0, segments).0, NO_COUNTS));
  }

  lemma OneMoreInterval(segments: seq<seq<nat>>)
    requires |segments| > 0
    ensures
      var (mid, total) := RunWithResets(0, segments[..|segments| - 1]);
      var t := Run(Tally(mid, NO_COUNTS), segments[|segments| - 1]);
      RunWithResets(0, segments) == (t.next, total.Plus(t.counts))
  {
    hide Counts.Plus;
  }

  /** What a message does to the counters of the session's test. */
  lemma MessageAgrees(s: ReceiverState, a: Arrival, now: real, testId: nat)
    requires WellFormed(a) && OnlyCounts(s.ms, testId) && KeepsToTest(a, testId)
    ensures
      var s' := HandleMessage(s, a, now).0;
      var t := Tally(s.next, CountsOf(s.ms, testId));
      && OnlyCounts(s'.ms, testId)
      && (IsData(a) ==> Tally(s'.next, CountsOf(s'.ms, testId)) == TallyMessage(t, a))
      && (!IsData(a) ==> s'.next == s.next && CountsOf(s'.ms, testId) == CountsOf(s.ms, testId))
  {
    hide TallyMessage, GetTestId, TypeOf, Chunks;
    var id, s' := GetTestId(a.bytes), HandleMessage(s, a, now).0;
    GrowKeeps(s.ms, id + 1, now, testId);
    forall i | 0 <= i < |s'.ms| && i != testId ensures s'.ms[i].counts == NO_COUNTS {
      GrowKeeps(s.ms, id + 1, now, i);
    }
  }

  lemma TallyLosses(t: Tally, a: Arrival)
    requires WellFormed(a)
    ensures
      var t' := Run(t.(counts := Loss(t.counts)), IdsOf(Chunks(a.bytes, a.segmentSize)));
      TallyMessage(t, a).next == t'.next && Loss(TallyMessage(t, a).counts) == t'.counts
  {
    RunIgnoresBytes(t, IdsOf(Chunks(a.bytes, a.segmentSize)));
  }

  lemma DataAgrees(x: Session, a: Arrival, now: real, testId: nat, segments: seq<seq<nat>>)
    requires WellFormed(a) && !x.over && |segments| > 0 && Agree(x, testId, segments) && KeepsToTest(a, testId)
    ensures
      Agree(SessionStep(x, Message(a, now)), testId,
            if IsData(a) then Extended(segments, IdsOf(Chunks(a.bytes, a.segmentSize))) else segments)
  {
    hide Run, RunWithResets, TallyMessage, IsData, Chunks, IdsOf, HandleMessage, Stops;
    MessageAgrees(x.state, a, now, testId);
    if IsData(a) {
      var last, ids := |segments| - 1, IdsOf(Chunks(a.bytes, a.segmentSize));
      TallyLosses(Tally(x.state.next, CountsOf(x.state.ms, testId)), a);
      var segments' := Extended(segments, ids);
      assert segments'[..last] == segments[..last] && segments'[last] == segments[last] + ids;
      RunConcat(Tally(RunWithResets(0, segments[..last]).0, NO_COUNTS), segments[last], ids);
    }
  }

  lemma {:induction false} SessionAgrees(inputs: seq<Input>, testId: nat)
    requires InputsWellFormed(inputs) && OneTest(inputs, testId)
    ensures Agree(SessionAfter(inputs), testId, Segments(inputs))
  {
    hide Agree, SessionStep, IsData, WellFormed, KeepsToTest;
    if |inputs| == 0 {
      NewSessionAgrees(testId);
    } else {
      var front, e := inputs[..|inputs| - 1], inputs[|inputs| - 1];
      SessionAgrees(front, testId);
      var x := SessionAfter(front);
      if x.over {
        OverStays(x, e);
      } else if e.IntervalEnds? {
        IntervalAgrees(x, testId, Segments(front));
      } else {
        DataAgrees(x, e.arrival, e.now, testId, Segments(front));
      }
    }
  }

  lemma NewSessionAgrees(testId: nat)
    ensures Agree(NEW_SESSION, testId, [[]])
  {
    RunNone(Tally(0, NO_COUNTS));
    var none: seq<seq<nat>> := [[]];
    assert |none[..0]| == 0;
  }

  lemma OverStays(x: Session, e: Input)
    requires x.over && (e.Message? ==> WellFormed(e.arrival))
    ensures SessionStep(x, e) == x
  {
  }

  /** Over every run of the receiver on one test, with interval ends and control messages
      anywhere: the expected id and the counters of all intervals together are those of the
      accounting with resets, on the ids of the datagrams counted. */
  lemma SessionIsRunWithResets(inputs: seq<Input>, testId: nat)
    requires InputsWellFormed(inputs) && OneTest(inputs, testId)
    ensures
      var x := SessionAfter(inputs);
      var (next, total) := RunWithResets(0, Segments(inputs));
      x.state.next == next && Loss(Report(x)) == total
  {
    var x, segments := SessionAfter(inputs), Segments(inputs);
    hide Counts.Plus, RunWithResets, SumOf, SessionAfter, Segments;
    SessionAgrees(inputs, testId);
    OneMoreInterval(segments);
    SumOfOne(x.state.ms, testId);
    LossOfPlus(x.past, CountsOf(x.state.ms, testId));
  }

  // Any number of tests on one receiver

  /** What the counters say the expected id has moved on by. */
  function Balance(c: Counts): int { c.datagrams + c.omitted - c.duplicated }

  lemma BalanceOfPlus(a: Counts, b: Counts)
    ensures Balance(a.Plus(b)) == Balance(a) + Balance(b)
  {
  }

  lemma {:induction false} SumOfUpdate(ms: seq<Measurement>, i: nat, m: Measurement, counter: Counter)
    requires i < |ms|
    ensures CountOf(SumOf(ms[i := m]), counter) ==
        CountOf(SumOf(ms), counter) + CountOf(m.counts, counter) - CountOf(ms[i].counts, counter)
  {
    hide CountOf, Counts.Plus;
    var last := |ms| - 1;
    var changed := ms[i := m];
    PlusAddsEachCounter(SumOf(ms[..last]), ms[last].counts, SumOf(ms));
    PlusAddsEachCounter(SumOf(changed[..last]), changed[last].counts, SumOf(changed));
    if i == last {
      assert changed[..last] == ms[..last];
    } else {
      SumOfUpdate(ms[..last], i, m, counter);
      assert changed[..last] == ms[..last][i := m];
    }
  }

  /** Entries are summed by their counters alone. */
  lemma {:induction false} SumOfSameCounts(ms: seq<Measurement>, changed: seq<Measurement>)
    requires |ms| == |changed| && forall i :: 0 <= i < |ms| ==> changed[i].counts == ms[i].counts
    ensures SumOf(changed) == SumOf(ms)
  {
    if |ms| == 0 {
    } else {
      SumOfSameCounts(ms[..|ms| - 1], changed[..|ms| - 1]);
    }
  }

  /** Entries without counts add nothing. */
  lemma {:induction false} SumOfGrown(ms: seq<Measurement>, grown: seq<Measurement>)
    requires |ms| <= |grown| && forall i :: 0 <= i < |ms| ==> grown[i] == ms[i]
    requires forall i :: |ms| <= i < |grown| ==> grown[i].counts == NO_COUNTS
    ensures SumOf(grown) == SumOf(ms)
    decreases |grown|
  {
    hide Counts.Plus;
    if |grown| == |ms| {
      assert grown == ms;
    } else {
      SumOfGrown(ms, grown[..|grown| - 1]);
      PlusIdentity(SumOf(ms));
    }
  }

  lemma {:induction false} SumOfReset(ms: seq<Measurement>)
    requires forall i :: 0 <= i < |ms| ==> ms[i].counts == NO_COUNTS
    ensures SumOf(ms) == NO_COUNTS
  {
    hide Counts.Plus;
    if |ms| == 0 {
    } else {
      SumOfReset(ms[..|ms| - 1]);
      PlusIdentity(NO_COUNTS);
    }
  }

  /** Whatever test a message is of, the counters of all tests together gain what it brings. */
  lemma MessageGains(s: ReceiverState, a: Arrival, now: real, counter: Counter)
    requires WellFormed(a)
    ensures
      var s', id := HandleMessage(s, a, now).0, GetTestId(a.bytes);
      var counts := CountsOf(s.ms, id);
      var t' := TallyMessage(Tally(s.next, counts), a);
      if IsData(a) then
        s'.next == t'.next && CountOf(SumOf(s'.ms), counter) ==
          CountOf(SumOf(s.ms), counter) + CountOf(t'.counts, counter) - CountOf(counts, counter)
      else s'.next == s.next && SumOf(s'.ms) == SumOf(s.ms)
  {
    hide GetTestId, GetMessageTypeCode, Chunks, TypeOf, SumOf, TallyMessage, CountOf;
    var id := GetTestId(a.bytes);
    var (ms, reply) := ParseMessageType(s.ms, TypeOf(a), id, now);
    ParsingKeepsSum(s.ms, TypeOf(a), id, now);
    if reply == Data {
      GrowKeeps(s.ms, id + 1, now, id);
      var t := TallyOf(s.(ms := ms), id);
      assert t.counts == CountsOf(s.ms, id);
      SumOfUpdate(ms, id, ms[id].(counts := TallyMessage(t, a).counts), counter);
    }
  }

  /** The expected id moves on by what the counters of all tests together gain. */
  lemma MessageKeepsBalance(s: ReceiverState, a: Arrival, now: real)
    requires WellFormed(a)
    ensures
      var s' := HandleMessage(s, a, now).0;
      s'.next - Balance(SumOf(s'.ms)) == s.next - Balance(SumOf(s.ms))
  {
    hide HandleMessage, GetTestId, IsData, SumOf, TallyMessage, CountsOf;
    MessageGains(s, a, now, Datagrams);
    MessageGains(s, a, now, Omitted);
    MessageGains(s, a, now, Duplicated);
    MessageBalance(Tally(s.next, CountsOf(s.ms, GetTestId(a.bytes))), a);
  }

  lemma MessageBalance(t: Tally, a: Arrival)
    requires WellFormed(a)
    ensures
      var t' := TallyMessage(t, a);
      t'.next - Balance(t'.counts) == t.next - Balance(t.counts)
  {
    Conservation(t, IdsOf(Chunks(a.bytes, a.segmentSize)));
  }

  lemma ParsingKeepsSum(ms: seq<Measurement>, mtype: MessageType, testId: nat, now: real)
    ensures SumOf(ParseMessageType(ms, mtype, testId, now).0) == SumOf(ms)
  {
    if testId < MAX_TEST_ID {
      var grown := Grow(ms, testId + 1, now);
      forall i | 0 <= i < |ms| ensures grown[i] == ms[i] {
        GrowKeeps(ms, testId + 1, now, i);
      }
      hide SumOf, Grow;
      SumOfGrown(ms, grown);
      match mtype {
        case INIT =>
        case MEASUREMENT => SumOfSameCounts(grown, grown[testId := grown[testId].(startTime := now, first := true)]);
        case LAST => if testId < |ms| { SumOfSameCounts(ms, ms[testId := ms[testId].(last := true)]); }
      }
    }
  }

  lemma StepKeepsBalance(x: Session, e: Input)
    requires e.Message? ==> WellFormed(e.arrival)
    ensures
      var y := SessionStep(x, e);
      y.state.next - Balance(Report(y)) == x.state.next - Balance(Report(x))
  {
    hide HandleMessage, WellFormed, Balance, Stops;
    if !x.over {
      var y := SessionStep(x, e);
      BalanceOfPlus(x.past, SumOf(x.state.ms));
      BalanceOfPlus(y.past, SumOf(y.state.ms));
      match e {
        case IntervalEnds =>
          SumOfReset(y.state.ms);
          NoBalance();
        case Message(a, now) => MessageKeepsBalance(x.state, a, now);
      }
    }
  }

  lemma NoBalance()
    ensures Balance(NO_COUNTS) == 0
  {
  }

  /** Conservation for every session, with messages of any tests in any order and interval ends
      anywhere: the expected id, which all tests share, and the duplicates of all tests make up the
      datagrams received and omitted of all tests. */
  lemma {:induction false} SessionConserves(inputs: seq<Input>)
    requires InputsWellFormed(inputs)
    ensures
      var x, r := SessionAfter(inputs), Report(SessionAfter(inputs));
      x.state.next + r.duplicated == r.datagrams + r.omitted
  {
    hide SessionStep, WellFormed;
    if |inputs| == 0 {
    } else {
      hide Report;
      SessionConserves(inputs[..|inputs| - 1]);
      StepKeepsBalance(SessionAfter(inputs[..|inputs| - 1]), inputs[|inputs| - 1]);
    }
  }

  // How much a session counts

  lemma TallyVolume(t: Tally, a: Arrival)
    requires WellFormed(a)
    ensures
      var c, t' := Chunks(a.bytes, a.segmentSize), TallyMessage(t, a);
      && t'.counts.datagrams == t.counts.datagrams + |c| && t'.counts.dataBytes == t.counts.dataBytes + |a.bytes|
      && LengthOf(c) == |a.bytes|
  {
    hide Chunks;
    RunTouchesLossesOnly(t, IdsOf(Chunks(a.bytes, a.segmentSize)));
    ChunksKeepLength(a.bytes, a.segmentSize);
  }

  lemma StepVolume(x: Session, e: Input)
    requires !x.over && (e.Message? ==> WellFormed(e.arrival))
    ensures
      var r, r' := Report(x), Report(SessionStep(x, e));
      var packets := if e.Message? && IsData(e.arrival) then Chunks(e.arrival.bytes, e.arrival.segmentSize) else [];
      r'.datagrams == r.datagrams + |packets| && r'.dataBytes == r.dataBytes + LengthOf(packets)
  {
    hide HandleMessage, Stops, SumOf, TallyMessage, Chunks, IsData, GetMessageTypeCode, AllHaveHeaders;
    match e {
      case IntervalEnds => SumOfReset(SessionStep(x, e).state.ms);
      case Message(a, now) =>
        MessageGains(x.state, a, now, Datagrams);
        MessageGains(x.state, a, now, DataBytes);
        TallyVolume(Tally(x.state.next, CountsOf(x.state.ms, GetTestId(a.bytes))), a);
    }
  }

  /** Over every session, of any tests: the datagrams and bytes reported, over all tests and intervals,
      are those of the datagrams of the messages counted. */
  lemma {:induction false} ReportedVolume(inputs: seq<Input>)
    requires InputsWellFormed(inputs)
    ensures
      var r, packets := Report(SessionAfter(inputs)), Packets(inputs);
      r.datagrams == |packets| && r.dataBytes == LengthOf(packets)
  {
    hide SessionStep, Report, Chunks, IsData, LengthOf, GetMessageTypeCode, AllHaveHeaders;
    if |inputs| == 0 {
      NothingReported(SessionAfter(inputs), Packets(inputs));
    } else {
      var front, e := inputs[..|inputs| - 1], inputs[|inputs| - 1];
      ReportedVolume(front);
      if !SessionAfter(front).over {
        StepVolume(SessionAfter(front), e);
        var packets := if e.Message? && IsData(e.arrival) then Chunks(e.arrival.bytes, e.arrival.segmentSize) else [];
        LengthOfConcat(Packets(front), packets);
        assert Packets(inputs) == Packets(front) + packets;
      } else {
        OverStays(SessionAfter(front), e);
      }
    }
  }

  lemma NothingReported(x: Session, packets: seq<seq<Byte>>)
    requires x == NEW_SESSION && |packets| == 0
    ensures Report(x).datagrams == Report(x).dataBytes == LengthOf(packets) == 0
  {
  }

  // A session as a run of the lifecycle

  /** What the messages and interval ends of a session do to the vector. */
  function LifeOf(inputs: seq<Input>): seq<Event>
    requires InputsWellFormed(inputs)
  {
    if |inputs| == 0 then []
    else
      var front, e := inputs[..|inputs| - 1], inputs[|inputs| - 1];
      if SessionAfter(front).over then LifeOf(front) else LifeOf(front) + LifeOfStep(SessionAfter(front).state, e)
  }

  function LifeOfStep(s: ReceiverState, e: Input): seq<Event>
    requires e.Message? ==> WellFormed(e.arrival)
  {
    match e
    case IntervalEnds => [Reset]
    case Message(a, now) =>
      var id, (s', reply) := GetTestId(a.bytes), HandleMessage(s, a, now);
      [Arrive(TypeOf(a), id, now)] + if reply == Data && id < |s'.ms| then [Recount(id, s'.ms[id].counts)] else []
  }

  lemma {:induction false} LifeGoesOn(events: seq<Event>, s: ReceiverState, e: Input)
    requires e.Message? ==> WellFormed(e.arrival)
    requires LifeAfter(events) == Life(s.ms, false)
    ensures
      var y := SessionStep(Session(s, NO_COUNTS, false), e);
      var l := LifeAfter(events + LifeOfStep(s, e));
      l.ms == y.state.ms && (l.panicked ==> y.over)
  {
    hide TallyMessage, GetTestId, TypeOf, SumOf;
    match e {
      case IntervalEnds => assert (events + [Reset])[..|events|] == events;
      case Message(a, now) =>
        var arrive := Arrive(TypeOf(a), GetTestId(a.bytes), now);
        assert (events + [arrive])[..|events|] == events;
        var (s', reply) := HandleMessage(s, a, now);
        if reply == Data {
          var recount := Recount(GetTestId(a.bytes), s'.ms[GetTestId(a.bytes)].counts);
          var arrived := events + [arrive];
          assert events + LifeOfStep(s, e) == arrived + [recount];
          assert (arrived + [recount])[..|arrived|] == arrived;
        } else {
          assert LifeOfStep(s, e) == [arrive];
        }
    }
  }

  /** The vector of every session is that of a run of the lifecycle, so what is proved of those runs
      holds of every session. */
  lemma {:induction false} SessionIsLife(inputs: seq<Input>)
    requires InputsWellFormed(inputs)
    ensures
      var x, l := SessionAfter(inputs), LifeAfter(LifeOf(inputs));
      l.ms == x.state.ms && (l.panicked ==> x.over)
  {
    hide SessionStep, WellFormed, LifeOfStep;
    if |inputs| == 0 {
    } else {
      var front, e := inputs[..|inputs| - 1], inputs[|inputs| - 1];
      SessionIsLife(front);
      var x := SessionAfter(front);
      if x.over {
        OverStays(x, e);
      } else {
        LifeGoesOn(LifeOf(front), x.state, e);
        PastIsApart(x, e);
      }
    }
  }

  lemma PastIsApart(x: Session, e: Input)
    requires !x.over && (e.Message? ==> WellFormed(e.arrival))
    ensures
      var y, z := SessionStep(x, e), SessionStep(Session(x.state, NO_COUNTS, false), e);
      y.state == z.state && y.over == z.over
  {
    hide HandleMessage;
  }

  /** A session that goes on ends with the next message exactly if the test id is too big or, for a
      LAST message, if no earlier message was of a test as high or all tests started so far, the one
      at hand aside, have ended. */
  lemma SessionEndsExactly(inputs: seq<Input>, a: Arrival, now: real)
    requires InputsWellFormed(inputs) && WellFormed(a) && !SessionAfter(inputs).over
    ensures
      var id, events := GetTestId(a.bytes), LifeOf(inputs);
      SessionStep(SessionAfter(inputs), Message(a, now)).over <==>
        id >= 1024 || (TypeOf(a) == LAST &&
          (id >= VectorLength(events) || forall t: nat :: Started(events, t) ==> Ended(events, t) || t == id))
  {
    hide HandleMessage, Stops, GetTestId, TypeOf, Started, Ended, LifeOf, SessionAfter, Chunks, GetMessageTypeCode;
    var s, events, id := SessionAfter(inputs).state, LifeOf(inputs), GetTestId(a.bytes);
    SessionIsLife(inputs);
    LoopEndsExactly(s, a, now);
    FlagsTellHistory(events, 0);
    forall t: nat ensures Faithful(s.ms, events, t) {
      FlagsTellHistory(events, t);
    }
    if forall t :: 0 <= t < |s.ms| && s.ms[t].first ==> s.ms[t].last || t == id {
      forall t: nat | Started(events, t) ensures Ended(events, t) || t == id {
        assert Faithful(s.ms, events, t);
      }
    }
    if forall t: nat :: Started(events, t) ==> Ended(events, t) || t == id {
      forall t | 0 <= t < |s.ms| && s.ms[t].first ensures s.ms[t].last || t == id {
        assert Faithful(s.ms, events, t);
      }
    }
  }
}
