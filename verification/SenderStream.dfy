/** The sender's packet-id stream over sendmsg and sendmmsg: ids are stamped before the call and
    taken back when the socket accepts fewer messages than were stamped. */
module SenderStream {
  import opened Wire
  import opened Arithmetic
  import opened Datagrams
  import opened Counters
  import opened PacketBuffers

  /** The socket's answer: it accepted the first `count` messages and reports their lengths,
      it would have blocked, or it failed in a way that ends the run. */
  datatype Answer = Accepted(count: nat, lengths: seq<nat>) | WouldBlock | Failed(error: string)

  /** What a send call returns to the measurement loop. */
  datatype Outcome = Sent | Eagain | Fatal(error: string)

  datatype Event = IntervalEnds | Call(answer: Answer)

  /** sendmsg or sendmmsg. */
  datatype SendFunction = Msg | Mmsg

  /** `past` sums the statistics set aside at interval ends; `accepted` is the list of packet
      ids of the datagrams the socket accepted. */
  datatype SenderState = SenderState(next: nat, statistic: Counts, past: Counts, accepted: seq<nat>, ended: bool)

  const START: SenderState := SenderState(0, NO_COUNTS, NO_COUNTS, [], false)

  function TotalBytes(lengths: seq<nat>, count: nat): nat
    requires count <= |lengths|
  {
    if count == 0 then 0 else TotalBytes(lengths, count - 1) + lengths[count - 1]
  }

  method GetTotalBytes(lengths: seq<nat>, count: nat) returns (bytes: nat)
    requires count <= |lengths|
    ensures bytes == TotalBytes(lengths, count)
  {
    bytes := 0;
    for i := 0 to |lengths|
      invariant bytes == TotalBytes(lengths, if i <= count then i else count)
    {
      if i >= count { break; }
      bytes := bytes + lengths[i];
    }
  }

  /** An answer the socket can give to a call with n messages; sendmsg hands over one. */
  ghost predicate Possible(f: SendFunction, n: nat, a: Answer) {
    a.Accepted? ==> |a.lengths| == n && if f == Msg then a.count == 1 else a.count <= n
  }

  /** One call with n stamped buffers of p packets each: `stamped` ids are spent up front,
      `sent` of them belong to messages the socket took, `counted` are added to the statistic
      and `kept` stay spent. */
  function Send(s: SenderState, f: SendFunction, n: nat, p: nat, a: Answer): SenderState
    requires Possible(f, n, a) && n > 0
  {
    match a
    case Accepted(count, lengths) =>
      var used := if f == Msg then n * p else count * p;
      SenderState(
        s.next + used,
        s.statistic.(datagrams := s.statistic.datagrams + used,
            dataBytes := s.statistic.dataBytes + TotalBytes(lengths, count)),
        s.past, s.accepted + IdRange(s.next, count * p), s.ended)
    case WouldBlock => s
    case Failed(_) => s.(next := s.next + n * p, ended := true)
  }

  function Step(s: SenderState, f: SendFunction, n: nat, p: nat, e: Event): SenderState
    requires n > 0 && (e.Call? ==> Possible(f, n, e.answer))
  {
    if s.ended then s
    else match e
      case IntervalEnds => s.(past := s.past.Plus(s.statistic), statistic := NO_COUNTS)
      case Call(a) => Send(s, f, n, p, a)
  }

  ghost predicate PossibleRun(f: SendFunction, n: nat, events: seq<Event>) {
    n > 0 && forall i :: 0 <= i < |events| ==> events[i].Call? ==> Possible(f, n, events[i].answer)
  }

  function After(s: SenderState, f: SendFunction, n: nat, p: nat, events: seq<Event>): SenderState
    requires PossibleRun(f, n, events)
  {
    if |events| == 0 then s else Step(After(s, f, n, p, events[..|events| - 1]), f, n, p, events[|events| - 1])
  }

  // No gaps, no repeats

  /** The accepted ids are 0, 1, 2, ... without gap or repeat; the statistics, summed across
      intervals, count them; and unless a fatal error ended the run, the next id continues
      where they stop. */
  ghost predicate GapFree(s: SenderState) {
    && s.accepted == IdRange(0, |s.accepted|)
    && s.past.datagrams + s.statistic.datagrams == |s.accepted|
    && (!s.ended ==> s.next == |s.accepted|)
  }

  /** Over every run of full sends, partial sends, blocked calls and interval ends. */
  lemma {:induction false} SendmmsgIsGapFree(n: nat, p: nat, events: seq<Event>)
    requires PossibleRun(Mmsg, n, events)
    ensures GapFree(After(START, Mmsg, n, p, events))
  {
    if |events| == 0 {
    } else {
      var last := |events| - 1;
      SendmmsgIsGapFree(n, p, events[..last]);
      StepKeepsGapFree(After(START, Mmsg, n, p, events[..last]), Mmsg, n, p, events[last]);
    }
  }

  lemma StepKeepsGapFree(s: SenderState, f: SendFunction, n: nat, p: nat, e: Event)
    requires n > 0 && (e.Call? ==> Possible(f, n, e.answer))
    requires GapFree(s) && (f == Mmsg || n == 1)
    ensures GapFree(Step(s, f, n, p, e))
  {
    if e.Call? && e.answer.Accepted? {
      IdRangeConcat(0, |s.accepted|, e.answer.count * p);
    }
  }

  /** sendmsg stamps every buffer of the vector but hands over only the first, so it is free of
      gaps over all runs exactly when the vector holds a single buffer (or empty messages). */
  lemma SendmsgIsGapFreeExactlyWithOneBuffer(n: nat, p: nat)
    requires n > 0
    ensures (forall events :: PossibleRun(Msg, n, events) ==> GapFree(After(START, Msg, n, p, events)))
      <==> n == 1 || p == 0
  {
    if n == 1 || p == 0 {
      forall events | PossibleRun(Msg, n, events) ensures GapFree(After(START, Msg, n, p, events)) {
        SendmsgIsGapFree(n, p, events);
      }
    } else {
      assert PossibleRun(Msg, n, OneCall(n));
      SendmsgLeavesGap(n, p);
    }
  }

  /** A run of one successful call. */
  function OneCall(n: nat): (events: seq<Event>)
    ensures n > 0 ==> PossibleRun(Msg, n, events)
  {
    [Call(Accepted(1, seq(n, i => 0)))]
  }

  /** With several buffers the very first call spends the ids of all of them and delivers those
      of one. */
  lemma SendmsgLeavesGap(n: nat, p: nat)
    requires n > 1 && p > 0
    ensures
      var s := After(START, Msg, n, p, OneCall(n));
      s.next == n * p && s.accepted == IdRange(0, p) && p < n * p && !GapFree(s)
  {
    var once := OneCall(n);
    assert once[..0] == [];
    assert After(START, Msg, n, p, once[..0]) == START;
    assert After(START, Msg, n, p, once) == Step(START, Msg, n, p, once[0]);
    MulMono(2, n, p);
  }

  lemma {:induction false} SendmsgIsGapFree(n: nat, p: nat, events: seq<Event>)
    requires PossibleRun(Msg, n, events) && (n == 1 || p == 0)
    ensures GapFree(After(START, Msg, n, p, events))
  {
    if |events| == 0 {
    } else {
      var last := |events| - 1;
      SendmsgIsGapFree(n, p, events[..last]);
      var s := After(START, Msg, n, p, events[..last]);
      if n == 1 {
        StepKeepsGapFree(s, Msg, n, p, events[last]);
      } else {
        assert n * p == 0;
      }
    }
  }

  // Bytes

  /** The bytes the code adds up are those of the messages the socket took. */
  lemma {:induction false} TotalBytesAreTheMessages(messages: seq<seq<Byte>>, lengths: seq<nat>, count: nat)
    requires count <= |messages| == |lengths| && forall k :: 0 <= k < count ==> lengths[k] == |messages[k]|
    ensures TotalBytes(lengths, count) == LengthOf(messages[..count])
  {
    if count == 0 {
    } else {
      TotalBytesAreTheMessages(messages, lengths, count - 1);
      assert messages[..count] == messages[..count - 1] + [messages[count - 1]];
      LengthOfConcat(messages[..count - 1], [messages[count - 1]]);
      assert [messages[count - 1]][1..] == [];
    }
  }

  /** The socket reports the length of every message it accepted. */
  ghost predicate ReportsLengths(a: Answer, mss: nat) {
    a.Accepted? ==> a.count <= |a.lengths| && forall k :: 0 <= k < a.count ==> a.lengths[k] == mss
  }

  ghost predicate RunReportsLengths(events: seq<Event>, mss: nat) {
    forall i :: 0 <= i < |events| ==> events[i].Call? ==> ReportsLengths(events[i].answer, mss)
  }

  /** How many messages a run gets accepted before a call fails. */
  function MessagesAccepted(events: seq<Event>): nat {
    if |events| == 0 then 0
    else
      var front, e := events[..|events| - 1], events[|events| - 1];
      MessagesAccepted(front) + if e.Call? && e.answer.Accepted? && !HasFailed(front) then e.answer.count else 0
  }

  function BytesOf(a: Answer, mss: nat): nat {
    if a.Accepted? then Start(a.count, mss) else 0
  }

  function BytesAccepted(events: seq<Event>, mss: nat): nat {
    MessagesAccepted(events) * mss
  }

  predicate HasFailed(events: seq<Event>) {
    exists i :: 0 <= i < |events| && events[i].Call? && events[i].answer.Failed?
  }

  lemma {:induction false} EqualLengthsAdd(lengths: seq<nat>, count: nat, mss: nat)
    requires count <= |lengths| && forall k :: 0 <= k < count ==> lengths[k] == mss
    ensures TotalBytes(lengths, count) == Start(count, mss)
  {
    if count == 0 {
    } else {
      EqualLengthsAdd(lengths, count - 1, mss);
    }
  }

  lemma {:induction false} EndsExactlyOnFailure(f: SendFunction, n: nat, p: nat, events: seq<Event>)
    requires PossibleRun(f, n, events)
    ensures After(START, f, n, p, events).ended <==> HasFailed(events)
  {
    if |events| == 0 {
    } else {
      var front := events[..|events| - 1];
      EndsExactlyOnFailure(f, n, p, front);
      assert forall i :: 0 <= i < |front| ==> events[i] == front[i];
    }
  }

  /** Over every run, full and partial sends and interval ends alike, the bytes counted are those of
      the messages accepted. */
  lemma {:induction false} BytesAreThoseAccepted(f: SendFunction, n: nat, p: nat, mss: nat, events: seq<Event>)
    requires PossibleRun(f, n, events) && RunReportsLengths(events, mss)
    ensures
      var s := After(START, f, n, p, events);
      s.past.dataBytes + s.statistic.dataBytes == MessagesAccepted(events) * mss
  {
    if |events| == 0 {
    } else {
      var last := |events| - 1;
      BytesAreThoseAccepted(f, n, p, mss, events[..last]);
      EndsExactlyOnFailure(f, n, p, events[..last]);
      assert events[..last + 1] == events;
      var s := After(START, f, n, p, events[..last]);
      if !s.ended {
        OneMoreAccepted(f, n, p, events, last, mss);
        StepCountsBytes(s, f, n, p, mss, events[last]);
      }
    }
  }

  /** Over every run: each accepted message brings its p datagrams, but sendmsg spends and counts the
      ids of all n buffers for it; and a call that fails leaves the ids it stamped spent. */
  lemma CountersInClosedForm(f: SendFunction, n: nat, p: nat, events: seq<Event>)
    requires PossibleRun(f, n, events)
    ensures
      var s, m := After(START, f, n, p, events), MessagesAccepted(events);
      var perMessage := if f == Msg then n * p else p;
      && |s.accepted| == m * p && s.past.datagrams + s.statistic.datagrams == m * perMessage
      && s.next == m * perMessage + if HasFailed(events) then n * p else 0
  {
    var perMessage := if f == Msg then n * p else p;
    CountersInSums(f, n, p, events, perMessage, n * p);
    EndsExactlyOnFailure(f, n, p, events);
    StartIsProduct(MessagesAccepted(events), p);
    StartIsProduct(MessagesAccepted(events), perMessage);
  }

  lemma {:induction false} CountersInSums(f: SendFunction, n: nat, p: nat, events: seq<Event>, perMessage: nat,
                                          perCall: nat)
    requires PossibleRun(f, n, events) && perCall == n * p && perMessage == if f == Msg then perCall else p
    ensures
      var s, m := After(START, f, n, p, events), MessagesAccepted(events);
      && |s.accepted| == Start(m, p) && s.past.datagrams + s.statistic.datagrams == Start(m, perMessage)
      && s.next == Start(m, perMessage) + if s.ended then perCall else 0
  {
    hide Start, Step;
    if |events| == 0 {
      NoneStarted(p);
      NoneStarted(perMessage);
    } else {
      var last := |events| - 1;
      var s, m := After(START, f, n, p, events[..last]), MessagesAccepted(events[..last]);
      CountersInSums(f, n, p, events[..last], perMessage, perCall);
      EndsExactlyOnFailure(f, n, p, events[..last]);
      if s.ended {
        StaysEnded(s, f, n, p, events[last]);
      } else {
        StepSpends(s, f, n, p, events[last], perMessage, perCall);
        var count := if events[last].Call? && events[last].answer.Accepted? then events[last].answer.count else 0;
        assert MessagesAccepted(events) == m + count;
        StartAdds(m, count, p);
        StartAdds(m, count, perMessage);
      }
    }
  }

  lemma NoneStarted(p: nat)
    ensures Start(0, p) == 0
  {
  }

  lemma StaysEnded(s: SenderState, f: SendFunction, n: nat, p: nat, e: Event)
    requires n > 0 && (e.Call? ==> Possible(f, n, e.answer)) && s.ended
    ensures Step(s, f, n, p, e) == s
  {
  }

  lemma StepSpends(s: SenderState, f: SendFunction, n: nat, p: nat, e: Event, perMessage: nat, perCall: nat)
    requires n > 0 && (e.Call? ==> Possible(f, n, e.answer)) && !s.ended
    requires perCall == n * p && perMessage == if f == Msg then perCall else p
    ensures
      var t, count := Step(s, f, n, p, e), if e.Call? && e.answer.Accepted? then e.answer.count else 0;
      && |t.accepted| == |s.accepted| + Start(count, p)
      && t.past.datagrams + t.statistic.datagrams == s.past.datagrams + s.statistic.datagrams + Start(count, perMessage)
      && t.next == s.next + Start(count, perMessage) + if t.ended then perCall else 0
  {
    if e.Call? && e.answer.Accepted? {
      StartIsProduct(e.answer.count, p);
      assert f == Msg ==> Start(1, perCall) == perCall;
    }
  }

  lemma StepCountsBytes(s: SenderState, f: SendFunction, n: nat, p: nat, mss: nat, e: Event)
    requires n > 0 && (e.Call? ==> Possible(f, n, e.answer) && ReportsLengths(e.answer, mss)) && !s.ended
    ensures
      var t := Step(s, f, n, p, e);
      t.past.dataBytes + t.statistic.dataBytes == s.past.dataBytes + s.statistic.dataBytes +
        if e.Call? then BytesOf(e.answer, mss) else 0
  {
    if e.Call? && e.answer.Accepted? { EqualLengthsAdd(e.answer.lengths, e.answer.count, mss); }
  }

  /** How one event adds to the messages accepted by a run that has not ended. */
  lemma OneMoreAccepted(f: SendFunction, n: nat, p: nat, events: seq<Event>, i: nat, mss: nat)
    requires PossibleRun(f, n, events) && i < |events| && !After(START, f, n, p, events[..i]).ended
    ensures
      var m := if events[i].Call? then BytesOf(events[i].answer, mss) else 0;
      BytesAccepted(events[..i + 1], mss) == BytesAccepted(events[..i], mss) + m
  {
    assert events[..i + 1][..i] == events[..i];
    EndsExactlyOnFailure(f, n, p, events[..i]);
    var m := if events[i].Call? && events[i].answer.Accepted? then events[i].answer.count else 0;
    var k := MessagesAccepted(events[..i]);
    assert MessagesAccepted(events[..i + 1]) == k + m;
    assert (k + m) * mss == k * mss + m * mss;
    StartIsProduct(m, mss);
  }

  // The imperative sender

  class Sender {
    const packetBuffer: PacketBuffer
    var nextPacketId: nat
    var statistic: Counts
    ghost var past: Counts
    ghost var wire: seq<seq<Byte>>
    ghost var ended: bool

    ghost predicate Valid()
      reads this, packetBuffer, packetBuffer.buffers
    {
      && packetBuffer.Valid() && |packetBuffer.buffers| > 0
      && HoldsHeaders(packetBuffer.mss, packetBuffer.datagramSize)
      && AllHaveHeaders(wire)
    }

    ghost function State(): SenderState
      reads this
      requires AllHaveHeaders(wire)
    {
      SenderState(nextPacketId, statistic, past, IdsOf(wire), ended)
    }

    constructor (packetBuffer: PacketBuffer)
      requires packetBuffer.Valid() && |packetBuffer.buffers| > 0
      requires HoldsHeaders(packetBuffer.mss, packetBuffer.datagramSize)
      ensures Valid() && State() == START && this.packetBuffer == packetBuffer
    {
      this.packetBuffer := packetBuffer;
      nextPacketId := 0;
      statistic := NO_COUNTS;
      past := NO_COUNTS;
      wire := [];
      ended := false;
    }

    /** Sends buffer 0. The datagrams put on the wire are those cut from its bytes. */
    method Sendmsg(answer: Answer) returns (r: Outcome)
      requires Valid() && Possible(Msg, |packetBuffer.buffers|, answer)
      requires nextPacketId + |packetBuffer.buffers| * packetBuffer.packetsPerMsghdr <= U64_LIMIT
      modifies this, packetBuffer.buffers, packetBuffer`contents
      ensures Valid()
      ensures State() == Send(old(State()), Msg, |packetBuffer.buffers|, packetBuffer.packetsPerMsghdr, answer)
      ensures LengthOf(wire) == old(LengthOf(wire)) + BytesOf(answer, packetBuffer.mss)
      ensures r.Sent? <==> answer.Accepted?
      ensures r.Eagain? <==> answer.WouldBlock?
      ensures ended == (old(ended) || r.Fatal?)
    {
      hide OnWire, IdsOf, StampBuffers, GetPacketId, HoldsHeaders, LengthOf;
      var amountDatagrams := Stamp();
      ghost var first := nextPacketId;
      nextPacketId := nextPacketId + amountDatagrams;
      match answer
      case Accepted(_, lengths) =>
        statistic := statistic.(datagrams := statistic.datagrams + amountDatagrams,
                                dataBytes := statistic.dataBytes + lengths[0]);
        assert TotalBytes(lengths, 1) == TotalBytes(lengths, 0) + lengths[0];
        PutOnWire(first, 1);
        r := Sent;
      case WouldBlock =>
        nextPacketId := nextPacketId - amountDatagrams;
        r := Eagain;
      case Failed(error) =>
        ended := true;
        r := Fatal(error);
    }

    /** Sends the whole vector, of which the socket may accept a prefix. */
    method Sendmmsg(answer: Answer) returns (r: Outcome)
      requires Valid() && Possible(Mmsg, |packetBuffer.buffers|, answer)
      requires nextPacketId + |packetBuffer.buffers| * packetBuffer.packetsPerMsghdr <= U64_LIMIT
      modifies this, packetBuffer.buffers, packetBuffer`contents
      ensures Valid()
      ensures State() == Send(old(State()), Mmsg, |packetBuffer.buffers|, packetBuffer.packetsPerMsghdr, answer)
      ensures LengthOf(wire) == old(LengthOf(wire)) + BytesOf(answer, packetBuffer.mss)
      ensures r.Sent? <==> answer.Accepted?
      ensures r.Eagain? <==> answer.WouldBlock?
      ensures ended == (old(ended) || r.Fatal?)
    {
      hide OnWire, IdsOf, StampBuffers, GetPacketId, HoldsHeaders, LengthOf;
      var amountDatagrams := Stamp();
      ghost var first := nextPacketId;
      nextPacketId := nextPacketId + amountDatagrams;
      match answer
      case Accepted(count, lengths) =>
        var n, p := |packetBuffer.buffers|, packetBuffer.packetsPerMsghdr;
        assert n * p == (n - count) * p + count * p;
        if count != n {
          var amountNotSent := (n - count) * p;
          nextPacketId := nextPacketId - amountNotSent;
        }
        var bytes := GetTotalBytes(lengths, count);
        statistic := statistic.(datagrams := statistic.datagrams + count * p, dataBytes := statistic.dataBytes + bytes);
        PutOnWire(first, count);
        r := Sent;
      case WouldBlock =>
        nextPacketId := nextPacketId - amountDatagrams;
        r := Eagain;
      case Failed(error) =>
        ended := true;
        r := Fatal(error);
    }

    /** Stamps all buffers from the next id on. */
    method Stamp() returns (used: nat)
      requires Valid()
      modifies packetBuffer.buffers, packetBuffer`contents
      ensures Valid() && used == |packetBuffer.buffers| * packetBuffer.packetsPerMsghdr
      ensures Stamped(nextPacketId)
    {
      hide StampBuffers, HoldsHeaders, StampIds, IdsOf;
      ghost var before := packetBuffer.contents;
      used := packetBuffer.AddPacketIds(nextPacketId, |packetBuffer.buffers|);
      StartIsProduct(|packetBuffer.buffers|, packetBuffer.packetsPerMsghdr);
      assert IsStamped(before, nextPacketId);
    }

    ghost predicate IsStamped(before: seq<seq<Byte>>, first: nat)
      reads packetBuffer
    {
      && AllSized(before, packetBuffer.mss)
      && |before| == |packetBuffer.buffers|
      && PacketsFit(packetBuffer.mss, packetBuffer.datagramSize, packetBuffer.packetsPerMsghdr)
      && packetBuffer.contents == StampBuffers(before, packetBuffer.mss, packetBuffer.datagramSize,
                                               packetBuffer.packetsPerMsghdr, first, |before|)
    }

    ghost predicate Stamped(first: nat)
      reads packetBuffer
    {
      exists before :: IsStamped(before, first)
    }

    /** The first `count` stamped buffers leave for the network. */
    ghost method PutOnWire(first: nat, count: nat)
      requires Valid() && Stamped(first) && count <= |packetBuffer.buffers|
      requires first + |packetBuffer.buffers| * packetBuffer.packetsPerMsghdr <= U64_LIMIT
      modifies `wire
      ensures AllHaveHeaders(wire)
      ensures wire == old(wire) + OnWire(packetBuffer.contents[..count], packetBuffer.datagramSize)
      ensures IdsOf(wire) == old(IdsOf(wire)) + IdRange(first, count * packetBuffer.packetsPerMsghdr)
      ensures LengthOf(wire) == old(LengthOf(wire)) + Start(count, packetBuffer.mss)
    {
      hide OnWire, IdsOf, StampBuffers, GetPacketId, HoldsHeaders, LengthOf;
      var before :| IsStamped(before, first);
      var p := packetBuffer.packetsPerMsghdr;
      StartIsProduct(|before|, p);
      StartIsProduct(count, p);
      StampedBuffersOnWire(before, packetBuffer.mss, packetBuffer.datagramSize, first, |before|, count);
      var sent := OnWire(packetBuffer.contents[..count], packetBuffer.datagramSize);
      IdsOfConcat(wire, sent);
      OnWireKeepsLength(packetBuffer.contents[..count], packetBuffer.mss, packetBuffer.datagramSize);
      LengthOfConcat(wire, sent);
      wire := wire + sent;
    }

    method SendMessages(f: SendFunction, answer: Answer) returns (r: Outcome)
      requires Valid() && Possible(f, |packetBuffer.buffers|, answer)
      requires nextPacketId + |packetBuffer.buffers| * packetBuffer.packetsPerMsghdr <= U64_LIMIT
      modifies this, packetBuffer.buffers, packetBuffer`contents
      ensures Valid()
      ensures State() == Send(old(State()), f, |packetBuffer.buffers|, packetBuffer.packetsPerMsghdr, answer)
      ensures LengthOf(wire) == old(LengthOf(wire)) + BytesOf(answer, packetBuffer.mss)
      ensures ended == (old(ended) || r.Fatal?)
    {
      hide IdsOf, HoldsHeaders, Send, LengthOf, BytesOf;
      if f == Msg { r := Sendmsg(answer); } else { r := Sendmmsg(answer); }
    }

    /** The measurement loop. */
    method Run(f: SendFunction, events: seq<Event>)
      requires Valid() && State() == START && PossibleRun(f, |packetBuffer.buffers|, events)
      requires Start(|events|, |packetBuffer.buffers| * packetBuffer.packetsPerMsghdr) <= U64_LIMIT
      modifies this, packetBuffer.buffers, packetBuffer`contents
      ensures Valid()
      ensures State() == After(START, f, |packetBuffer.buffers|, packetBuffer.packetsPerMsghdr, events)
      ensures LengthOf(wire) == MessagesAccepted(events) * packetBuffer.mss
      ensures RunReportsLengths(events, packetBuffer.mss) ==>
          past.dataBytes + statistic.dataBytes == LengthOf(wire)
    {
      hide IdsOf, GetPacketId, HoldsHeaders, Send, LengthOf, BytesAccepted, BytesOf, MessagesAccepted;
      ghost var n, p := |packetBuffer.buffers|, packetBuffer.packetsPerMsghdr;
      NothingSentYet(wire, events[..0], packetBuffer.mss);
      for i := 0 to |events|
        invariant Valid() && !ended
        invariant State() == After(START, f, n, p, events[..i])
        invariant nextPacketId <= Start(i, n * p)
        invariant LengthOf(wire) == BytesAccepted(events[..i], packetBuffer.mss)
      {
        assert events[..i + 1][..i] == events[..i];
        OneMoreAccepted(f, n, p, events, i, packetBuffer.mss);
        if i + 1 < |events| { StartMonotone(i, |events|, n * p); }
        SpendsAtMost(State(), f, n, p, events[i]);
        match events[i] {
          case IntervalEnds =>
            past := past.Plus(statistic);
            statistic := NO_COUNTS;
          case Call(answer) =>
            var r := SendMessages(f, answer);
            if r.Fatal? {
              NothingAfterTheEnd(START, f, n, p, events, i + 1);
              BytesOnWire(f, n, p, events, packetBuffer.mss);
              return;
            }
        }
      }
      assert events[..|events|] == events;
      BytesOnWire(f, n, p, events, packetBuffer.mss);
    }
  }

  lemma NothingSentYet(wire: seq<seq<Byte>>, events: seq<Event>, mss: nat)
    requires AllHaveHeaders(wire) && IdsOf(wire) == [] && |events| == 0
    ensures LengthOf(wire) == BytesAccepted(events, mss)
  {
    assert |IdsOf(wire)| == |wire|;
  }

  lemma BytesOnWire(f: SendFunction, n: nat, p: nat, events: seq<Event>, mss: nat)
    requires PossibleRun(f, n, events)
    ensures BytesAccepted(events, mss) == MessagesAccepted(events) * mss
    ensures RunReportsLengths(events, mss) ==>
      var s := After(START, f, n, p, events);
      s.past.dataBytes + s.statistic.dataBytes == BytesAccepted(events, mss)
  {
    if RunReportsLengths(events, mss) { BytesAreThoseAccepted(f, n, p, mss, events); }
  }

  lemma {:induction false} NothingAfterTheEnd(s: SenderState, f: SendFunction, n: nat, p: nat, events: seq<Event>,
                                              k: nat)
    requires PossibleRun(f, n, events) && k <= |events| && After(s, f, n, p, events[..k]).ended
    ensures After(s, f, n, p, events) == After(s, f, n, p, events[..k])
    ensures s == START ==> forall mss: nat :: BytesAccepted(events, mss) == BytesAccepted(events[..k], mss)
  {
    if k < |events| {
      assert events[..|events| - 1][..k] == events[..k];
      NothingAfterTheEnd(s, f, n, p, events[..|events| - 1], k);
      if s == START { EndsExactlyOnFailure(f, n, p, events[..|events| - 1]); }
    } else {
      assert events[..k] == events;
    }
  }

  lemma SpendsAtMost(s: SenderState, f: SendFunction, n: nat, p: nat, e: Event)
    requires n > 0 && (e.Call? ==> Possible(f, n, e.answer))
    ensures Step(s, f, n, p, e).next <= s.next + n * p
  {
    if e.Call? && e.answer.Accepted? { MulMono(e.answer.count, n, p); }
  }
}
