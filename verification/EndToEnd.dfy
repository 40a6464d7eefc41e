/** Sender, network and receiver together: what the receiver's reports say about what the sender
    sent, when the network loses, reorders and duplicates datagrams and intervals end anywhere. */
module EndToEnd {
  import opened Wire
  import opened Arithmetic
  import opened Datagrams
  import opened Accounting
  import opened IntervalAccounting
  import opened Receivers
  import opened Sessions
  import S = SenderStream
  import U = SendRing
  import W = SendWire
  import P = PacketBuffers

  /** What arrives: the elements at these positions, in this order. */
  function Picked<T>(xs: seq<T>, positions: seq<nat>): (r: seq<T>)
    requires InRange(positions, |xs|)
    ensures |r| == |positions| && forall i :: 0 <= i < |r| ==> r[i] == xs[positions[i]]
  {
    seq(|positions|, i requires 0 <= i < |positions| => xs[positions[i]])
  }

  predicate InRange(positions: seq<nat>, n: nat) {
    forall i :: 0 <= i < |positions| ==> positions[i] < n
  }

  /** A receiver that parses the delivered bytes ends up where the delivered ids lead. */
  lemma BytesCarryTheIds(wire: seq<seq<Byte>>, positions: seq<nat>, t: Tally)
    requires AllHaveHeaders(wire) && InRange(positions, |wire|)
    ensures AllHaveHeaders(Picked(wire, positions))
    ensures IdsOf(Picked(wire, positions)) == Picked(IdsOf(wire), positions)
    ensures OneByOne(t, Picked(wire, positions)) == Run(t, Picked(IdsOf(wire), positions))
  {
    hide GetPacketId;
    OneByOneIsRun(t, Picked(wire, positions));
    assert IdsOf(Picked(wire, positions)) == Picked(IdsOf(wire), positions);
  }

  // The receiver's reports, from the datagrams that reached it

  /** A session on one test that counts the datagrams of the wire at these positions. Intervals
      may end, and control messages arrive, anywhere in between. */
  ghost predicate Receives(inputs: seq<Input>, testId: nat, wire: seq<seq<Byte>>, positions: seq<nat>) {
    && InputsWellFormed(inputs) && OneTest(inputs, testId)
    && AllHaveHeaders(wire) && InRange(positions, |wire|)
    && Packets(inputs) == Picked(wire, positions)
  }

  /** Everything a session reports, from the delivered ids and the places of the interval ends. */
  lemma ReportInClosedForm(inputs: seq<Input>, testId: nat, wire: seq<seq<Byte>>, positions: seq<nat>)
    requires Receives(inputs, testId, wire, positions)
    ensures
      var x, r := SessionAfter(inputs), Report(SessionAfter(inputs));
      var ids, short := Picked(IdsOf(wire), positions), Shortfalls(0, Segments(inputs));
      && Flatten(Segments(inputs)) == ids
      && x.state.next == Expected(0, ids) && r.datagrams == |ids|
      && r.duplicated == short && r.omitted == x.state.next - |ids| + short
  {
    hide SessionAfter, Segments, Packets, RunWithResets, Flatten, IdsOf;
    SessionIsRunWithResets(inputs, testId);
    TotalsInClosedForm(0, Segments(inputs));
    SegmentsHoldThePackets(inputs);
    BytesCarryTheIds(wire, positions, FRESH);
  }

  /** The expected id after different ids, and how many of the lower ones are missing. */
  lemma ExpectedOfDistinct(ids: seq<nat>)
    requires Distinct(ids)
    ensures OnePastHighest(Expected(0, ids), ids)
    ensures |Missing(Expected(0, ids), Seen(ids))| == Expected(0, ids) - |ids|
  {
    hide Run;
    CountersFromZero(0, ids);
    CountersMatchSet(ids);
    CountersOfDistinctStream(ids);
  }

  // sendmmsg, and sendmsg with one buffer

  /** A run of the sender whose accepted datagrams are the wire. */
  ghost predicate Sends(f: S.SendFunction, n: nat, p: nat, events: seq<S.Event>, wire: seq<seq<Byte>>) {
    && S.PossibleRun(f, n, events) && (f == S.Mmsg || n == 1)
    && AllHaveHeaders(wire) && IdsOf(wire) == S.After(S.START, f, n, p, events).accepted
  }

  lemma WireIsRange(f: S.SendFunction, n: nat, p: nat, events: seq<S.Event>, wire: seq<seq<Byte>>)
    requires Sends(f, n, p, events, wire)
    ensures S.GapFree(S.After(S.START, f, n, p, events)) && IdsOf(wire) == IdRange(0, |wire|)
    ensures forall positions :: InRange(positions, |wire|) ==> Picked(IdsOf(wire), positions) == positions
  {
    if f == S.Mmsg { S.SendmmsgIsGapFree(n, p, events); } else { S.SendmsgIsGapFree(n, p, events); }
  }

  /** The sent datagrams that did not arrive. */
  ghost function Lost(sent: nat, positions: seq<nat>): set<nat> {
    Missing(sent, Seen(positions))
  }

  lemma LostCount(sent: nat, positions: seq<nat>)
    requires InRange(positions, sent)
    ensures |Lost(sent, positions)| == sent - |Seen(positions)|
    ensures Distinct(positions) ==> |Seen(positions)| == |positions|
  {
    MissingCard(sent, Seen(positions));
    if Distinct(positions) { DistinctCard(positions); }
  }

  /** Over every run of the sender, every loss and reordering in the network and all interval ends:
      the receiver counts every arrival once; losses less duplicates are exactly the datagrams
      sent below the highest arrival that did not arrive; and with those sent behind it, all of
      which are lost, they make up everything that was lost. */
  lemma LossesAreAccountedFor(f: S.SendFunction, n: nat, p: nat, events: seq<S.Event>, wire: seq<seq<Byte>>,
                              inputs: seq<Input>, testId: nat, positions: seq<nat>)
    requires Sends(f, n, p, events, wire) && Receives(inputs, testId, wire, positions) && Distinct(positions)
    ensures
      var s := S.After(S.START, f, n, p, events);
      var sent := s.past.datagrams + s.statistic.datagrams;
      var x, r := SessionAfter(inputs), Report(SessionAfter(inputs));
      && sent == |wire| && (!s.ended ==> sent == s.next)
      && OnePastHighest(x.state.next, positions) && x.state.next <= sent
      && r.datagrams == |positions|
      && r.omitted - r.duplicated == |Lost(x.state.next, positions)|
      && |Lost(sent, positions)| == (r.omitted - r.duplicated) + (sent - x.state.next)
  {
    hide S.After, Packets, SessionAfter, Segments, Report, Shortfalls, Flatten, Expected;
    WireIsRange(f, n, p, events, wire);
    ReportInClosedForm(inputs, testId, wire, positions);
    ExpectedOfDistinct(positions);
    LostCount(|wire|, positions);
  }

  /** The reported loss alone is the true loss exactly if the made-up losses happen to equal the
      datagrams lost behind the highest arrival. The whole report is right, with no duplicate
      reported either, exactly if the last datagram sent arrived (or none was sent) and every
      interval kept ahead of its arrivals. */
  lemma ReportIsRightExactly(f: S.SendFunction, n: nat, p: nat, events: seq<S.Event>, wire: seq<seq<Byte>>,
                             inputs: seq<Input>, testId: nat, positions: seq<nat>)
    requires Sends(f, n, p, events, wire) && Receives(inputs, testId, wire, positions) && Distinct(positions)
    ensures
      var x, r, lost := SessionAfter(inputs), Report(SessionAfter(inputs)), |Lost(|wire|, positions)|;
      && (r.omitted == lost <==> Shortfalls(0, Segments(inputs)) == |wire| - x.state.next)
      && (r.omitted == lost && r.duplicated == 0 <==>
            (|wire| == 0 || |wire| - 1 in positions) && AllKeepAhead(0, Segments(inputs)))
  {
    hide S.After, Packets, SessionAfter, Segments, Report, Shortfalls, Flatten, Expected, AllKeepAhead, Lost;
    LossesAreAccountedFor(f, n, p, events, wire, inputs, testId, positions);
    ReportInClosedForm(inputs, testId, wire, positions);
    NothingIsMadeUpExactly(0, Segments(inputs));
    LastArrived(SessionAfter(inputs).state.next, |wire|, positions);
  }

  lemma LastArrived(next: nat, sent: nat, positions: seq<nat>)
    requires OnePastHighest(next, positions) && InRange(positions, sent) && next <= sent
    ensures next == sent <==> sent == 0 || sent - 1 in positions
  {
  }

  /** Delivery of everything, in whatever order and with whatever interval ends: both ends are at
      the same id, and as many losses as duplicates are reported, none exactly if every interval
      kept ahead of its arrivals. */
  lemma FullDelivery(f: S.SendFunction, n: nat, p: nat, events: seq<S.Event>, wire: seq<seq<Byte>>,
                     inputs: seq<Input>, testId: nat, positions: seq<nat>)
    requires Sends(f, n, p, events, wire) && Receives(inputs, testId, wire, positions) && Distinct(positions)
    requires |positions| == |wire|
    ensures
      var s := S.After(S.START, f, n, p, events);
      var x, r := SessionAfter(inputs), Report(SessionAfter(inputs));
      && x.state.next == r.datagrams == s.past.datagrams + s.statistic.datagrams
      && (!s.ended ==> x.state.next == s.next)
      && r.omitted == r.duplicated == Shortfalls(0, Segments(inputs))
      && (r.omitted == 0 <==> AllKeepAhead(0, Segments(inputs)))
  {
    hide S.After, Packets, SessionAfter, Segments, Report, Shortfalls, Flatten;
    hide Expected, AllKeepAhead, Lost, OnePastHighest;
    LossesAreAccountedFor(f, n, p, events, wire, inputs, testId, positions);
    ReportInClosedForm(inputs, testId, wire, positions);
    NothingIsMadeUpExactly(0, Segments(inputs));
    LostCount(|wire|, positions);
  }

  /** With duplication in the network as well: more losses are reported than there are exactly if
      the made-up ones outweigh the losses behind the highest arrival and the extra copies. While
      no interval ends that never happens. */
  lemma LossIsOverstatedExactly(f: S.SendFunction, n: nat, p: nat, events: seq<S.Event>, wire: seq<seq<Byte>>,
                                inputs: seq<Input>, testId: nat, positions: seq<nat>)
    requires Sends(f, n, p, events, wire) && Receives(inputs, testId, wire, positions)
    ensures
      var x, r, lost := SessionAfter(inputs), Report(SessionAfter(inputs)), |Lost(|wire|, positions)|;
      && (r.omitted > lost <==>
            Shortfalls(0, Segments(inputs)) > (|wire| - x.state.next) + (|positions| - |Seen(positions)|))
      && (|Segments(inputs)| == 1 ==> r.omitted <= lost)
  {
    hide S.After, Packets, SessionAfter, Segments, Report, Shortfalls, Flatten, Expected;
    WireIsRange(f, n, p, events, wire);
    ReportInClosedForm(inputs, testId, wire, positions);
    LostCount(|wire|, positions);
    if |Segments(inputs)| == 1 {
      UncutReport(inputs, testId, wire, positions);
      UncutLosses(positions, |wire|);
    }
  }

  lemma UncutReport(inputs: seq<Input>, testId: nat, wire: seq<seq<Byte>>, positions: seq<nat>)
    requires Receives(inputs, testId, wire, positions) && |Segments(inputs)| == 1
    ensures Report(SessionAfter(inputs)).omitted == Run(FRESH, Picked(IdsOf(wire), positions)).counts.omitted
  {
    hide SessionAfter, Report, Packets, IdsOf, Run, Shortfall;
    ReportInClosedForm(inputs, testId, wire, positions);
    var segments := Segments(inputs);
    hide Segments;
    assert segments == [segments[0]] && |segments[..0]| == 0;
    assert Flatten(segments) == segments[0];
    CountersFromZero(0, segments[0]);
  }

  lemma UncutLosses(ids: seq<nat>, sent: nat)
    requires InRange(ids, sent)
    ensures Run(FRESH, ids).counts.omitted <= sent - |Seen(ids)|
  {
    hide Run;
    ArbitraryStream(ids);
    MissingOf(Run(FRESH, ids).next, ids);
  }

  // The defect at the receiver

  /** One datagram that is all header. */
  function DataMessage(testId: nat, id: nat): Arrival {
    Arrival(Serialize(Header(MEASUREMENT, testId, id)), HEADER_LEN)
  }

  lemma DataMessageIsData(testId: nat, id: nat)
    requires testId < MAX_TEST_ID && id < U64_LIMIT
    ensures WellFormed(DataMessage(testId, id)) && IsData(DataMessage(testId, id))
    ensures KeepsToTest(DataMessage(testId, id), testId)
    ensures IdsOf(Chunks(DataMessage(testId, id).bytes, DataMessage(testId, id).segmentSize)) == [id]
  {
    hide Serialize, GetPacketId, GetTestId, GetMessageTypeCode;
    var bytes := DataMessage(testId, id).bytes;
    SerializeRoundTrip(Header(MEASUREMENT, testId, id), []);
    assert bytes + [] == bytes;
    assert Chunks(bytes, HEADER_LEN) == [bytes];
  }

  /** Datagram 1, an interval end, datagram 0. */
  function SwappedInputs(testId: nat, now: real): seq<Input> {
    [Message(DataMessage(testId, 1), now), IntervalEnds, Message(DataMessage(testId, 0), now)]
  }

  /** The receiver gets both datagrams, each once, and reports one loss and one duplicate. */
  lemma IntervalEndMakesReceiverReportLoss(testId: nat, now: real)
    requires testId < MAX_TEST_ID
    ensures InputsWellFormed(SwappedInputs(testId, now))
    ensures
      var r := Report(SessionAfter(SwappedInputs(testId, now)));
      r.datagrams == 2 && r.omitted == 1 && r.duplicated == 1
  {
    hide SwappedInputs, RunWithResets, SessionAfter, Report;
    SwappedSegments(testId, now);
    SwappedIsOneTest(testId, now);
    SessionIsRunWithResets(SwappedInputs(testId, now), testId);
    IntervalEndMakesUpLossAndDuplicate(0, 1);
  }

  lemma AppendData(front: seq<Input>, a: Arrival, now: real)
    requires InputsWellFormed(front) && WellFormed(a) && IsData(a) && !SessionAfter(front).over
    ensures
      var inputs, before, ids := front + [Message(a, now)], Segments(front), IdsOf(Chunks(a.bytes, a.segmentSize));
      && InputsWellFormed(inputs) && !SessionAfter(inputs).over
      && Segments(inputs) == Extended(before, ids)
  {
    hide TallyMessage, GetTestId, TypeOf, IdsOf, Chunks;
    assert (front + [Message(a, now)])[..|front|] == front;
  }

  lemma AppendInterval(front: seq<Input>)
    requires InputsWellFormed(front) && !SessionAfter(front).over
    ensures
      var inputs := front + [IntervalEnds];
      InputsWellFormed(inputs) && !SessionAfter(inputs).over && Segments(inputs) == Segments(front) + [[]]
  {
    assert (front + [IntervalEnds])[..|front|] == front;
  }

  /** The segments of two messages with an interval end in between. */
  lemma TwoMessages(a: Arrival, b: Arrival, now: real, first: seq<nat>, second: seq<nat>)
    requires WellFormed(a) && WellFormed(b) && IsData(a) && IsData(b)
    requires IdsOf(Chunks(a.bytes, a.segmentSize)) == first && IdsOf(Chunks(b.bytes, b.segmentSize)) == second
    ensures
      var inputs := [Message(a, now), IntervalEnds, Message(b, now)];
      InputsWellFormed(inputs) && Segments(inputs) == [first, second]
  {
    hide IsData, WellFormed, IdsOf, Chunks;
    var none: seq<Input> := [];
    NoInputs();
    hide Segments, SessionAfter, Extended;
    AppendData(none, a, now);
    var one := none + [Message(a, now)];
    NothingBefore(first);
    AppendInterval(one);
    var two := one + [IntervalEnds];
    AppendData(two, b, now);
    ExtendEmptyLast(first, second);
    assert [Message(a, now), IntervalEnds, Message(b, now)] == two + [Message(b, now)];
  }

  lemma ExtendEmptyLast(first: seq<nat>, second: seq<nat>)
    ensures Extended([first] + [[]], second) == [first, second]
  {
    var segments, nothing: seq<nat> := [first] + [[]], [];
    assert segments[..1] == [first] && segments[1] == nothing && nothing + second == second;
  }

  lemma NothingBefore(ids: seq<nat>)
    ensures [] + ids == ids
    ensures Extended([[]], ids) == [ids]
  {
    var nothing: seq<nat> := [];
    assert nothing + ids == ids;
  }

  lemma NoInputs()
    ensures InputsWellFormed([]) && Segments([]) == [[]] && !SessionAfter([]).over
  {
  }

  lemma SwappedSegments(testId: nat, now: real)
    requires testId < MAX_TEST_ID
    ensures InputsWellFormed(SwappedInputs(testId, now)) && Segments(SwappedInputs(testId, now)) == [[1], [0]]
  {
    DataMessageIsData(testId, 0);
    DataMessageIsData(testId, 1);
    hide DataMessage, WellFormed, IsData, KeepsToTest, IdsOf, Chunks, Segments, InputsWellFormed;
    TwoMessages(DataMessage(testId, 1), DataMessage(testId, 0), now, [1], [0]);
  }

  lemma SwappedIsOneTest(testId: nat, now: real)
    requires testId < MAX_TEST_ID
    ensures InputsWellFormed(SwappedInputs(testId, now)) && OneTest(SwappedInputs(testId, now), testId)
  {
    DataMessageIsData(testId, 0);
    DataMessageIsData(testId, 1);
    hide DataMessage, WellFormed, IsData, KeepsToTest;
  }

  // io_uring, zero copy

  /** A run of the zero-copy sender without a fatal error, and the datagrams cut from the bytes its
      kernel sent. */
  ghost predicate SendsZerocopy(c: U.Config, buffers: seq<seq<Byte>>, events: seq<U.Event>, wire: seq<seq<Byte>>)
    requires c.ds > 0
  {
    && U.GoodConfig(c) && U.GoodBuffers(c, buffers) && c.Zc()
    && HoldsHeaders(c.mss, c.ds) && c.p == PacketCount(c.mss, c.ds)
    && U.After(c, buffers, events).next <= U64_LIMIT && !U.After(c, buffers, events).ended
    && wire == P.OnWire(U.After(c, buffers, events).transmitted, c.ds)
  }

  /** Ids below n on the wire that did not arrive. */
  ghost function LostOnTheWay(n: nat, wire: seq<nat>, ids: seq<nat>): set<nat> {
    set id | id in Seen(wire) && id < n && id !in Seen(ids)
  }

  lemma MissingSplits(n: nat, wire: seq<nat>, ids: seq<nat>)
    requires Seen(ids) <= Seen(wire)
    ensures |Missing(n, Seen(ids))| == |Missing(n, Seen(wire))| + |LostOnTheWay(n, wire, ids)|
  {
    hide Seen;
    var unsent, lost := Missing(n, Seen(wire)), LostOnTheWay(n, wire, ids);
    assert Missing(n, Seen(ids)) == unsent + lost && unsent !! lost;
  }

  lemma PickedIsDistinct(xs: seq<nat>, positions: seq<nat>)
    requires Distinct(xs) && Distinct(positions) && InRange(positions, |xs|)
    ensures Distinct(Picked(xs, positions)) && Seen(Picked(xs, positions)) <= Seen(xs)
  {
    var ids := Picked(xs, positions);
    forall i, j | 0 <= i < j < |ids| ensures ids[i] != ids[j] {
      assert positions[i] != positions[j];
    }
    forall id | id in Seen(ids) ensures id in Seen(xs) {
      var i :| 0 <= i < |ids| && ids[i] == id;
      assert xs[positions[i]] == id;
    }
  }

  /** Over every run of the zero-copy sender, every loss and reordering, and all interval ends: the
      wire holds p datagrams for every message the sender counted as sent or will count when it
      reaps the result; the ids never sent are those the sender counted as omitted or whose
      request is still unanswered; and the receiver's losses less duplicates are exactly the ids
      below its highest one that were never sent or got lost on the way. */
  lemma ZerocopyLossesAreAccountedFor(c: U.Config, buffers: seq<seq<Byte>>, events: seq<U.Event>, wire: seq<seq<Byte>>,
                                      inputs: seq<Input>, testId: nat, positions: seq<nat>)
    requires c.ds > 0 && SendsZerocopy(c, buffers, events, wire)
    requires Receives(inputs, testId, wire, positions) && Distinct(positions)
    ensures
      var s, ids := U.After(c, buffers, events), IdsOf(wire);
      var x, r := SessionAfter(inputs), Report(SessionAfter(inputs));
      && |wire| == s.past.datagrams + s.statistic.datagrams + W.SentIn(s.cq) * c.p
      && |Missing(s.next, Seen(ids))| == (s.past.omitted + s.statistic.omitted) +
          (U.Unresolved(s) - W.SentIn(s.cq)) * c.p
      && x.state.next <= s.next && r.datagrams == |positions|
      && r.omitted - r.duplicated
           == |Missing(x.state.next, Seen(ids))| + |LostOnTheWay(x.state.next, ids, Picked(ids, positions))|
      && (r.duplicated == 0 <==> AllKeepAhead(0, Segments(inputs)))
  {
    hide U.After, SessionAfter, Segments, Packets, Report, Shortfalls, Flatten, Expected, AllKeepAhead;
    hide IdsOf, Missing, Seen, LostOnTheWay, P.OnWire;
    var s, ids := U.After(c, buffers, events), IdsOf(wire);
    W.TransmittedIdsDiffer(c, buffers, events);
    W.DatagramsSentAreCounted(c, buffers, events);
    U.SendConservation(c, buffers, events);
    NeverSent(s.next, ids);
    Distribute(U.Unresolved(s), W.SentIn(s.cq), c.p);
    PickedIsDistinct(ids, positions);
    ReportInClosedForm(inputs, testId, wire, positions);
    NothingIsMadeUpExactly(0, Segments(inputs));
    ExpectedOfDistinct(Picked(ids, positions));
    MissingSplits(SessionAfter(inputs).state.next, ids, Picked(ids, positions));
    HighestBelow(SessionAfter(inputs).state.next, Picked(ids, positions), s.next);
  }

  lemma Distribute(a: int, b: int, p: int)
    ensures (a - b) * p == a * p - b * p
  {
  }

  lemma NeverSent(next: nat, ids: seq<nat>)
    requires Distinct(ids) && forall i :: 0 <= i < |ids| ==> ids[i] < next
    ensures |Missing(next, Seen(ids))| == next - |ids|
  {
    MissingCard(next, Seen(ids));
    DistinctCard(ids);
  }

  lemma HighestBelow(next: nat, ids: seq<nat>, limit: nat)
    requires OnePastHighest(next, ids) && forall i :: 0 <= i < |ids| ==> ids[i] < limit
    ensures next <= limit
  {
  }

  // sendmsg with several buffers

  lemma RunRange(t: Tally, first: nat, count: nat)
    requires count > 0 && first >= t.next
    ensures Run(t, IdRange(first, count)) ==
      Tally(first + count, t.counts.(omitted := t.counts.omitted + (first - t.next),
          datagrams := t.counts.datagrams + count))
  {
    hide Run;
    assert IdRange(first, count) == [first] + IdRange(first + 1, count - 1);
    RunConcat(t, [first], IdRange(first + 1, count - 1));
    RunSingle(t, first);
    InOrder(Receive(t, first), count - 1);
  }

  lemma RunSingle(t: Tally, id: nat)
    ensures Run(t, [id]) == Receive(t, id)
  {
    hide Receive;
    assert [id][..0] == [];
    RunNone(t);
  }

  /** k successful calls. */
  function Calls(n: nat, k: nat): (events: seq<S.Event>)
    requires n > 0
    ensures |events| == k && S.PossibleRun(S.Msg, n, events)
  {
    if k == 0 then [] else Calls(n, k - 1) + [S.OneCall(n)[0]]
  }

  lemma {:induction false} LossesInSums(n: nat, p: nat, k: nat)
    requires n > 0 && p > 0 && k > 0
    ensures
      var s := S.After(S.START, S.Msg, n, p, Calls(n, k));
      var t := Run(FRESH, s.accepted);
      && !s.ended && s.next == Start(k, n * p) && t.next == Start(k - 1, n * p) + p
      && t.counts.omitted == Start(k - 1, n * p - p) && t.counts.datagrams == Start(k, p) == |s.accepted|
      && IncreasingFrom(0, s.accepted) && forall i :: 0 <= i < |s.accepted| ==> s.accepted[i] < s.next
  {
    hide S.After, S.Step, S.OneCall, Run, IncreasingFrom;
    MulMono(1, n, p);
    if k == 1 {
      CallsOfNone(n, p);
      OneMoreCall(n, p, 1);
      RunNone(FRESH);
      NothingIncreases();
      IncreasingAppend([], 0, 0, p);
      assert [] + IdRange(0, p) == IdRange(0, p);
      RunRange(FRESH, 0, p);
    } else {
      LossesInSums(n, p, k - 1);
      OneMoreCall(n, p, k);
      var s := S.After(S.START, S.Msg, n, p, Calls(n, k - 1));
      IncreasingAppend(s.accepted, s.next, s.next, p);
      RunConcat(FRESH, s.accepted, IdRange(s.next, p));
      RunRange(Run(FRESH, s.accepted), s.next, p);
    }
  }

  /** With n buffers of p packets, every call after the first makes the receiver report the ids
      of the n - 1 buffers that were stamped and never sent, although nothing was lost. */
  lemma SeveralBuffersFakeLosses(n: nat, p: nat, k: nat)
    requires n > 0 && p > 0 && k > 0
    ensures
      var s := S.After(S.START, S.Msg, n, p, Calls(n, k));
      var t := Run(FRESH, s.accepted);
      && !s.ended && s.next == k * (n * p)
      && t.next == (k - 1) * (n * p) + p
      && t.counts.omitted == (k - 1) * (n * p - p)
      && t.counts.datagrams == k * p == |s.accepted|
      && IncreasingFrom(0, s.accepted) && forall i :: 0 <= i < |s.accepted| ==> s.accepted[i] < s.next
  {
    hide S.After, Run, IncreasingFrom;
    MulMono(1, n, p);
    LossesInSums(n, p, k);
    StartIsProduct(k, n * p);
    StartIsProduct(k - 1, n * p);
    StartIsProduct(k - 1, n * p - p);
    StartIsProduct(k, p);
  }

  lemma NothingIncreases()
    ensures IncreasingFrom(0, [])
  {
  }

  lemma IncreasingAppend(ids: seq<nat>, bound: nat, first: nat, count: nat)
    requires IncreasingFrom(0, ids) && bound <= first && forall i :: 0 <= i < |ids| ==> ids[i] < bound
    ensures IncreasingFrom(0, ids + IdRange(first, count))
    ensures forall id :: id in ids + IdRange(first, count) ==> id < first + count
  {
  }

  lemma CallsOfNone(n: nat, p: nat)
    requires n > 0
    ensures S.After(S.START, S.Msg, n, p, Calls(n, 0)) == S.START
  {
  }

  lemma OneMoreCall(n: nat, p: nat, k: nat)
    requires n > 0 && k > 0 && !S.After(S.START, S.Msg, n, p, Calls(n, k - 1)).ended
    ensures
      var s, s' := S.After(S.START, S.Msg, n, p, Calls(n, k - 1)), S.After(S.START, S.Msg, n, p, Calls(n, k));
      !s'.ended && s'.next == s.next + n * p && s'.accepted == s.accepted + IdRange(s.next, p)
  {
    var events := Calls(n, k);
    assert events[..k - 1] == Calls(n, k - 1) && events[k - 1] == S.OneCall(n)[0];
  }

  /** The same with interval ends anywhere: the ids arrive in increasing order, so no interval makes
      up anything, and what is reported is all due to the ids spent on unsent buffers. */
  lemma FakeLossesWhateverTheIntervals(n: nat, p: nat, k: nat, segments: seq<seq<nat>>)
    requires n > 0 && p > 0 && k > 0
    requires Flatten(segments) == S.After(S.START, S.Msg, n, p, Calls(n, k)).accepted
    ensures
      var (next, total) := RunWithResets(0, segments);
      && total.omitted == (k - 1) * (n * p - p) && total.duplicated == 0 && total.datagrams == k * p
      && next == (k - 1) * (n * p) + p
  {
    hide S.After, Flatten, Run, RunWithResets, Shortfalls, Shortfall, Calls;
    SeveralBuffersFakeLosses(n, p, k);
    CutsKeepTheDifference(segments);
    TotalsInClosedForm(0, segments);
    IncreasingSegmentsKeepAhead(0, segments);
    CountersFromZero(0, Flatten(segments));
    IncreasingKeepsAhead(0, Flatten(segments));
  }
}
