/** What the io_uring sender puts on the wire: in zero-copy mode every message carries the ids of its
    own push, once; in Normal mode that can fail. */
module SendWire {
  import opened Wire
  import opened Datagrams
  import opened PacketBuffers
  import opened FillMode
  import opened Accounting
  import opened SendRing

  // Zero copy: which request a buffer was pushed for

  /** Requests without a posted result. */
  ghost function Pending(s: SendState): multiset<nat> {
    multiset(s.sq) + s.working
  }

  /** Each of these buffers was pushed for a request of its own, with the ids that follow from the
      request's number. */
  ghost predicate Numbered(held: multiset<nat>, payload: map<nat, Payload>, pushed: nat, p: nat) {
    && (forall i :: i in held ==>
          i in payload && payload[i].number < pushed && payload[i].first == Start(payload[i].number, p))
    && (forall i, j :: i in held && j in held && i != j ==> payload[i].number != payload[j].number)
  }

  /** No message has been sent for the requests of these buffers. */
  ghost predicate Unanswered(pending: multiset<nat>, payload: map<nat, Payload>, answered: seq<nat>) {
    forall i :: i in pending ==> i in payload && payload[i].number !in answered
  }

  ghost predicate Carries(c: Config, number: nat, bytes: seq<Byte>) {
    CarriesItsIds(c, Payload(number, Start(number, c.p), bytes))
  }

  /** The messages sent are those of different requests, each with the ids of its push. */
  ghost predicate Answered(c: Config, answered: seq<nat>, transmitted: seq<seq<Byte>>, pushed: nat) {
    && |answered| == |transmitted| && Distinct(answered)
    && (forall k :: 0 <= k < |answered| ==> answered[k] < pushed && Carries(c, answered[k], transmitted[k]))
  }

  ghost predicate Traced(c: Config, s: SendState) {
    && Numbered(KernelHeld(c, s), s.payload, |s.pushed|, c.p)
    && Unanswered(Pending(s), s.payload, s.answered)
    && Answered(c, s.answered, s.transmitted, |s.pushed|)
  }

  lemma NumberedFewer(held': multiset<nat>, held: multiset<nat>, payload: map<nat, Payload>, pushed: nat, p: nat)
    requires Numbered(held, payload, pushed, p) && held' <= held
    ensures Numbered(held', payload, pushed, p)
  {
    assert forall i :: i in held' ==> i in held;
  }

  lemma UnansweredFewer(pending': multiset<nat>, pending: multiset<nat>, payload: map<nat, Payload>, answered: seq<nat>)
    requires Unanswered(pending, payload, answered) && pending' <= pending
    ensures Unanswered(pending', payload, answered)
  {
    assert forall i :: i in pending' ==> i in pending;
  }

  lemma NumberedPush(held: multiset<nat>, payload: map<nat, Payload>, pushed: nat, p: nat, index: nat, new': Payload)
    requires Numbered(held, payload, pushed, p) && index !in held && new'.number == pushed
    requires new'.first == Start(pushed, p)
    ensures Numbered(held + multiset{index}, payload[index := new'], pushed + 1, p)
  {
    assert forall i :: i in held + multiset{index} ==> i == index || i in held;
  }

  lemma UnansweredPush(c: Config, pending: multiset<nat>, payload: map<nat, Payload>, answered: seq<nat>,
                       transmitted: seq<seq<Byte>>,
                       pushed: nat, index: nat, new': Payload)
    requires Unanswered(pending, payload, answered) && Answered(c, answered, transmitted, pushed)
    requires index !in pending && new'.number == pushed
    ensures Unanswered(pending + multiset{index}, payload[index := new'], answered)
    ensures Answered(c, answered, transmitted, pushed + 1)
  {
    hide Carries;
    assert forall i :: i in pending + multiset{index} ==> i == index || i in pending;
  }

  lemma OneMoreAnswered(c: Config, pending: multiset<nat>, held: multiset<nat>, payload: map<nat, Payload>,
                        answered: seq<nat>, transmitted: seq<seq<Byte>>, pushed: nat, index: nat, message: seq<Byte>)
    requires Numbered(held, payload, pushed, c.p) && Unanswered(pending + multiset{index}, payload, answered)
    requires Answered(c, answered, transmitted, pushed)
    requires index !in pending && index in held && pending <= held && Carries(c, payload[index].number, message)
    ensures Unanswered(pending, payload, answered + [payload[index].number])
    ensures Answered(c, answered + [payload[index].number], transmitted + [message], pushed)
  {
    hide Carries;
    forall i | i in pending ensures i in payload && payload[i].number !in answered + [payload[index].number] {
      assert i in pending + multiset{index} && i in held;
    }
    assert index in pending + multiset{index};
  }

  lemma TracedFrame(c: Config, s: SendState, t: SendState)
    requires Traced(c, s) && KernelHeld(c, t) <= KernelHeld(c, s) && Pending(t) <= Pending(s)
    requires t.payload == s.payload && t.pushed == s.pushed && t.answered == s.answered
    requires t.transmitted == s.transmitted
    ensures Traced(c, t)
  {
    hide KernelHeld, Pending, Numbered, Unanswered, Answered;
    NumberedFewer(KernelHeld(c, t), KernelHeld(c, s), s.payload, |s.pushed|, c.p);
    UnansweredFewer(Pending(t), Pending(s), s.payload, s.answered);
  }

  lemma PendingIsHeld(c: Config, s: SendState, i: nat)
    ensures Pending(s)[i] <= KernelHeld(c, s)[i]
  {
    hide Finals;
  }

  lemma HeldOnce(c: Config, s: SendState, i: nat)
    requires c.Zc() && Inv(c, s)
    ensures KernelHeld(c, s)[i] <= 1
  {
    hide KernelHeld, Inv;
    InvOwnsOnce(c, s);
    assert multiset(s.pool)[i] + KernelHeld(c, s)[i] + s.leaked[i] <= 1;
  }

  /** The pushed buffer gets the next number. */
  lemma PushTopTraced(c: Config, s: SendState)
    requires c.Zc() && Inv(c, s) && Traced(c, s) && |s.pool| > 0 && CanStamp(c, s, s.pool[|s.pool| - 1])
    ensures Traced(c, PushTop(c, s))
  {
    hide Inv, KernelHeld, Pending, Numbered, Unanswered, Answered, Stamped, CanStamp;
    var index, t := s.pool[|s.pool| - 1], PushTop(c, s);
    TopIsNotHeld(c, s);
    NextNumber(c, s);
    PushTopMoves(c, s);
    PushTopPends(c, s);
    PendingIsHeld(c, s, index);
    NumberedPush(KernelHeld(c, s), s.payload, |s.pushed|, c.p, index, t.payload[index]);
    UnansweredPush(c, Pending(s), s.payload, s.answered, s.transmitted, |s.pushed|, index, t.payload[index]);
  }

  lemma PushTopPends(c: Config, s: SendState)
    requires |s.pool| > 0 && CanStamp(c, s, s.pool[|s.pool| - 1])
    ensures Pending(PushTop(c, s)) == Pending(s) + multiset{s.pool[|s.pool| - 1]}
  {
    hide Stamped, CanStamp;
  }

  lemma NextNumber(c: Config, s: SendState)
    requires Inv(c, s)
    ensures s.next == Start(|s.pushed|, c.p)
  {
  }

  lemma LoseTopTraced(c: Config, s: SendState)
    requires c.Zc() && Traced(c, s) && |s.pool| > 0 && CanStamp(c, s, s.pool[|s.pool| - 1])
    ensures Traced(c, LoseTop(c, s))
  {
    LoseTopMoves(c, s);
    hide KernelHeld, Stamped, CanStamp, Traced;
    TracedFrame(c, s, LoseTop(c, s));
  }

  lemma {:induction false} SubmitTraced(c: Config, s: SendState, remaining: nat, room: nat)
    requires GoodConfig(c) && c.Zc() && Inv(c, s) && !s.ended && Traced(c, s) && remaining <= |s.pool|
    requires c.uring.sqFillingMode == Syscall ==> c.uring.bufferSize - |s.pool| + remaining <= c.uring.burstSize
    ensures Traced(c, SubmitZc(c, s, remaining, room))
    decreases remaining
  {
    hide Inv, CanStamp, Traced;
    if remaining == 0 {
    } else {
      TopKeepsInv(c, s);
      if room == 0 {
        LoseTopTraced(c, s);
      } else {
        PushTopTraced(c, s);
        SubmitTraced(c, PushTop(c, s), remaining - 1, room - 1);
      }
    }
  }

  /** The kernel sends the message of a request that has no result yet. */
  lemma SentTraced(c: Config, s: SendState, index: nat, bytes: nat)
    requires c.Zc() && Inv(c, s) && Traced(c, s) && index in s.working
    ensures Traced(c, KernelPosts(c, s, Sent(index, bytes)))
  {
    hide Inv, KernelHeld, Pending, Numbered, Unanswered, Answered, Carries;
    var t := KernelPosts(c, s, Sent(index, bytes));
    PostMoves(c, s, Sent(index, bytes));
    HeldOnce(c, s, index);
    SentPends(c, s, index, bytes);
    HeldCarries(c, s, index);
    OneMoreAnswered(c, Pending(t), KernelHeld(c, s), s.payload, s.answered, s.transmitted, |s.pushed|, index,
        s.buffers[index]);
  }

  lemma SentPends(c: Config, s: SendState, index: nat, bytes: nat)
    requires index in s.working && KernelHeld(c, s)[index] <= 1
    ensures
      var t := KernelPosts(c, s, Sent(index, bytes));
      && Pending(t) + multiset{index} == Pending(s) && index !in Pending(t)
      && Pending(t) <= KernelHeld(c, s) && index in KernelHeld(c, s)
  {
    hide Finals;
    var t := KernelPosts(c, s, Sent(index, bytes));
    assert s.working == t.working + multiset{index};
    PendingIsHeld(c, s, index);
  }

  /** A completion that sends nothing. */
  lemma OtherPost(c: Config, s: SendState, e: Cqe)
    requires e.Sent? ==> e.index !in s.working
    ensures
      var t := KernelPosts(c, s, e);
      && Pending(t) <= Pending(s)
      && t.payload == s.payload && t.pushed == s.pushed && t.answered == s.answered && t.transmitted == s.transmitted
  {
    var t := KernelPosts(c, s, e);
    assert t.sq == s.sq && (t.working == s.working || t.working == s.working - multiset{e.index});
    hide KernelPosts;
    FewerWorking(s, t, e.index);
  }

  lemma FewerWorking(s: SendState, t: SendState, i: nat)
    requires t.sq == s.sq && (t.working == s.working || t.working == s.working - multiset{i})
    ensures Pending(t) <= Pending(s)
  {
    assert t.working <= s.working;
  }

  lemma HeldCarries(c: Config, s: SendState, index: nat)
    requires c.Zc() && Inv(c, s) && Traced(c, s) && index in KernelHeld(c, s)
    ensures index in s.payload && index < |s.buffers| && Carries(c, s.payload[index].number, s.buffers[index])
  {
    hide Inv, KernelHeld, CarriesItsIds;
    HeldHasPayload(c, s, index);
    var payload := s.payload[index];
    assert payload == Payload(payload.number, Start(payload.number, c.p), s.buffers[index]);
  }

  lemma PostTraced(c: Config, s: SendState, e: Cqe)
    requires c.Zc() && Inv(c, s) && Traced(c, s)
    ensures Traced(c, KernelPosts(c, s, e))
  {
    hide Inv, Traced, KernelPosts, KernelHeld, Pending;
    if e.Sent? && e.index in s.working {
      SentTraced(c, s, e.index, e.bytes);
    } else {
      PostMoves(c, s, e);
      OtherPost(c, s, e);
      TracedFrame(c, s, KernelPosts(c, s, e));
    }
  }

  lemma {:induction false} ReapTraced(c: Config, s: SendState, collected: seq<nat>, completed: nat)
    requires Traced(c, s)
    ensures Traced(c, Reap(c, s, collected, completed))
    decreases |s.cq|
  {
    if |s.cq| == 0 {
      var t := Reap(c, s, collected, completed);
      hide Traced;
      SameHeld(c, s, t);
      TracedFrame(c, s, t);
    } else {
      var e, rest := s.cq[0], ReapOne(c, s);
      ReapReleases(c, s);
      assert Pending(rest) == Pending(s);
      hide Traced;
      if e.Failed? {
        var t := Reap(c, s, collected, completed);
        SameHeld(c, rest, t);
        hide KernelHeld, Pending;
        TracedFrame(c, s, t);
      } else {
        hide KernelHeld, Pending;
        TracedFrame(c, s, rest);
        ReapTraced(c, rest, if GivesBack(c, e) then collected + [e.index] else collected,
                   if Completes(c, e) then completed + 1 else completed);
      }
    }
  }

  lemma SameHeld(c: Config, s: SendState, t: SendState)
    requires t.sq == s.sq && t.working == s.working && t.awaiting == s.awaiting && t.cq == s.cq
    ensures KernelHeld(c, t) == KernelHeld(c, s) && Pending(t) == Pending(s)
  {
  }

  lemma TakeTraced(c: Config, s: SendState, count: nat)
    requires Traced(c, s) && count <= |s.sq|
    ensures Traced(c, s.(sq := s.sq[count..], working := s.working + multiset(s.sq[..count])))
  {
    var t := s.(sq := s.sq[count..], working := s.working + multiset(s.sq[..count]));
    TakeMoves(c, s, count);
    assert s.sq == s.sq[..count] + s.sq[count..];
    assert Pending(t) == Pending(s);
    hide KernelHeld, Pending, Traced;
    TracedFrame(c, s, t);
  }

  lemma StepTraced(c: Config, s: SendState, e: Event)
    requires GoodConfig(c) && c.Zc() && Inv(c, s) && Traced(c, s)
    ensures Traced(c, Step(c, s, e))
  {
    hide Inv, Traced, Fill, Reap;
    if !s.ended && !s.fault {
      match e {
        case IntervalEnds =>
          var t := Step(c, s, e);
          SameHeld(c, s, t);
          TracedFrame(c, s, t);
        case FillSq(sqLeft, cqEmpty, room) =>
          var left := if sqLeft < c.uring.ringSize then sqLeft else c.uring.ringSize;
          var amount := FillSubmits(c, s, left, cqEmpty, room);
          SubmitTraced(c, s, amount, room);
        case KernelTakes(count) => if count <= |s.sq| { TakeTraced(c, s, count); }
        case KernelAnswers(cqe) => PostTraced(c, s, cqe);
        case ReapCq => ReapTraced(c, s, [], 0);
      }
    }
  }

  lemma {:induction false} TracedAlways(c: Config, buffers: seq<seq<Byte>>, events: seq<Event>)
    requires GoodConfig(c) && GoodBuffers(c, buffers) && c.Zc()
    ensures Traced(c, After(c, buffers, events))
  {
    hide Inv, Step;
    if |events| == 0 {
    } else {
      hide Traced;
      var last := |events| - 1;
      TracedAlways(c, buffers, events[..last]);
      InvAlways(c, buffers, events[..last]);
      StepTraced(c, After(c, buffers, events[..last]), events[last]);
    }
  }

  // The ids of different requests

  /** The ids of these requests, p each. */
  function IdsAt(numbers: seq<nat>, p: nat): seq<nat> {
    if |numbers| == 0 then [] else IdsAt(numbers[..|numbers| - 1], p) + IdRange(Start(numbers[|numbers| - 1], p), p)
  }

  lemma RangesApart(m: nat, n: nat, p: nat)
    requires m != n
    ensures Start(m, p) + p <= Start(n, p) || Start(n, p) + p <= Start(m, p)
  {
    if m < n { StartMonotone(m, n, p); } else { StartMonotone(n, m, p); }
  }

  lemma {:induction false} IdsAtFrom(numbers: seq<nat>, p: nat, id: nat)
    requires id in IdsAt(numbers, p)
    ensures exists n :: n in numbers && Start(n, p) <= id < Start(n, p) + p
  {
    if |numbers| == 0 {
    } else {
      var front, n := numbers[..|numbers| - 1], numbers[|numbers| - 1];
      if id in IdsAt(front, p) {
        IdsAtFrom(front, p, id);
        var n' :| n' in front && Start(n', p) <= id < Start(n', p) + p;
        assert n' in numbers;
      } else {
        assert id in IdRange(Start(n, p), p);
        assert n in numbers;
      }
    }
  }

  lemma {:induction false} IdsAtDiffer(numbers: seq<nat>, p: nat, pushed: nat)
    requires Distinct(numbers) && forall k :: 0 <= k < |numbers| ==> numbers[k] < pushed
    ensures Distinct(IdsAt(numbers, p)) && |IdsAt(numbers, p)| == Start(|numbers|, p)
    ensures forall id :: id in IdsAt(numbers, p) ==> id < Start(pushed, p)
  {
    if |numbers| == 0 {
    } else {
      var front, n := numbers[..|numbers| - 1], numbers[|numbers| - 1];
      IdsAtDiffer(front, p, pushed);
      StartMonotone(n, pushed, p);
      var range := IdRange(Start(n, p), p);
      forall id | id in IdsAt(front, p) ensures id !in range {
        IdsAtFrom(front, p, id);
        var n' :| n' in front && Start(n', p) <= id < Start(n', p) + p;
        RangesApart(n', n, p);
      }
      DistinctConcat(IdsAt(front, p), range);
    }
  }

  lemma DistinctConcat(a: seq<nat>, b: seq<nat>)
    requires Distinct(a) && Distinct(b) && forall id :: id in a ==> id !in b
    ensures Distinct(a + b)
  {
    var ab := a + b;
    forall i, j | 0 <= i < j < |ab| ensures ab[i] != ab[j] {
      if i < |a| <= j { assert ab[i] in a && ab[j] in b; }
    }
  }

  // What the wire carries

  lemma MessageIds(c: Config, number: nat, message: seq<Byte>, pushed: nat)
    requires Carries(c, number, message) && number < pushed && Start(pushed, c.p) <= U64_LIMIT
    requires HoldsHeaders(c.mss, c.ds) && c.p == PacketCount(c.mss, c.ds)
    ensures AllHaveHeaders(Chunks(message, c.ds)) && IdsOf(Chunks(message, c.ds)) == IdRange(Start(number, c.p), c.p)
  {
    hide StampIds, HoldsHeaders, PacketCount, Chunks, GetPacketId;
    StartMonotone(number, pushed, c.p);
    var before :| |before| == c.mss && message == StampIds(before, c.ds, Start(number, c.p), c.p);
    StampThenChunk(before, c.ds, Start(number, c.p));
  }

  lemma {:induction false} WireOfAnswered(c: Config, answered: seq<nat>, transmitted: seq<seq<Byte>>, pushed: nat)
    requires Answered(c, answered, transmitted, pushed) && Start(pushed, c.p) <= U64_LIMIT
    requires HoldsHeaders(c.mss, c.ds) && c.p == PacketCount(c.mss, c.ds)
    ensures AllHaveHeaders(OnWire(transmitted, c.ds)) && IdsOf(OnWire(transmitted, c.ds)) == IdsAt(answered, c.p)
    decreases |answered|
  {
    hide Carries, HoldsHeaders, PacketCount, Chunks, GetPacketId;
    if |answered| == 0 {
    } else {
      var last := |answered| - 1;
      WireOfAnswered(c, answered[..last], transmitted[..last], pushed);
      MessageIds(c, answered[last], transmitted[last], pushed);
      IdsOfConcat(OnWire(transmitted[..last], c.ds), Chunks(transmitted[last], c.ds));
    }
  }

  /** Zero copy, over every run and read off the bytes sent: no two datagrams on the wire carry the
      same id, all ids lie below the next one, and there are p datagrams per message sent. */
  lemma TransmittedIdsDiffer(c: Config, buffers: seq<seq<Byte>>, events: seq<Event>)
    requires GoodConfig(c) && GoodBuffers(c, buffers) && c.Zc()
    requires HoldsHeaders(c.mss, c.ds) && c.p == PacketCount(c.mss, c.ds) && After(c, buffers, events).next <= U64_LIMIT
    ensures
      var s := After(c, buffers, events);
      var wire := OnWire(s.transmitted, c.ds);
      && AllHaveHeaders(wire) && Distinct(IdsOf(wire))
      && (forall i :: 0 <= i < |wire| ==> IdsOf(wire)[i] < s.next)
      && |wire| == |s.transmitted| * c.p
  {
    hide After, KernelHeld, Numbered, Unanswered, IdsOf, OnWire, HoldsHeaders, Carries, Inv;
    var s := After(c, buffers, events);
    TracedAlways(c, buffers, events);
    InvAlways(c, buffers, events);
    NextNumber(c, s);
    WireOfAnswered(c, s.answered, s.transmitted, |s.pushed|);
    IdsAtDiffer(s.answered, c.p, |s.pushed|);
    StartIsProduct(|s.transmitted|, c.p);
    var ids := IdsAt(s.answered, c.p);
    assert forall i :: 0 <= i < |ids| ==> ids[i] in ids;
  }

  /** Zero copy: different buffers the kernel holds carry different ids. */
  lemma HeldBuffersCarryDifferentIds(c: Config, buffers: seq<seq<Byte>>, events: seq<Event>, i: nat, j: nat)
    requires GoodConfig(c) && GoodBuffers(c, buffers) && c.Zc()
    requires HoldsHeaders(c.mss, c.ds) && c.p == PacketCount(c.mss, c.ds) && After(c, buffers, events).next <= U64_LIMIT
    requires i != j && i in KernelHeld(c, After(c, buffers, events)) && j in KernelHeld(c, After(c, buffers, events))
    ensures
      var s := After(c, buffers, events);
      && i < |s.buffers| && j < |s.buffers|
      && AllHaveHeaders(Chunks(s.buffers[i], c.ds)) && AllHaveHeaders(Chunks(s.buffers[j], c.ds))
      && (forall id :: id in IdsOf(Chunks(s.buffers[i], c.ds)) ==> id !in IdsOf(Chunks(s.buffers[j], c.ds)))
  {
    hide After, KernelHeld, Unanswered, Answered, Chunks, GetPacketId, HoldsHeaders, Carries, Inv;
    var s := After(c, buffers, events);
    TracedAlways(c, buffers, events);
    InvAlways(c, buffers, events);
    NextNumber(c, s);
    HeldCarries(c, s, i);
    HeldCarries(c, s, j);
    MessageIds(c, s.payload[i].number, s.buffers[i], |s.pushed|);
    MessageIds(c, s.payload[j].number, s.buffers[j], |s.pushed|);
    RangesApart(s.payload[i].number, s.payload[j].number, c.p);
  }

  // Counting the messages sent, in both modes

  function SentIn(cq: seq<Cqe>): nat {
    if |cq| == 0 then 0 else SentIn(cq[1..]) + if cq[0].Sent? then 1 else 0
  }

  lemma {:induction false} SentAppend(cq: seq<Cqe>, e: Cqe)
    ensures SentIn(cq + [e]) == SentIn(cq) + if e.Sent? then 1 else 0
  {
    if |cq| == 0 {
      assert cq + [e] == [e] && |[e][1..]| == 0;
    } else {
      SentAppend(cq[1..], e);
      assert (cq + [e])[1..] == cq[1..] + [e];
    }
  }

  /** The datagrams counted as sent, and those of results not reaped yet, are those of the messages
      sent; every message is a whole buffer. */
  ghost predicate SentCounted(c: Config, s: SendState) {
    && (!s.ended ==>
          Start(|s.transmitted|, c.p) == s.past.datagrams + s.statistic.datagrams + Start(SentIn(s.cq), c.p))
    && (forall k :: 0 <= k < |s.transmitted| ==> |s.transmitted[k]| == c.mss || s.transmitted[k] == [])
  }

  /** Submitting changes neither the wire nor what has been counted. */
  ghost predicate WireUntouched(s: SendState, t: SendState) {
    && t.transmitted == s.transmitted && t.cq == s.cq && t.working == s.working && t.awaiting == s.awaiting
    && t.statistic == s.statistic && t.past == s.past && t.ended == s.ended
  }

  lemma {:induction false} SubmitZcLeavesWire(c: Config, s: SendState, remaining: nat, room: nat)
    ensures WireUntouched(s, SubmitZc(c, s, remaining, room))
    decreases remaining
  {
    hide CanStamp, Stamped;
    if remaining == 0 || |s.pool| == 0 || !CanStamp(c, s, s.pool[|s.pool| - 1]) || room == 0 {
    } else {
      SubmitZcLeavesWire(c, PushTop(c, s), remaining - 1, room - 1);
    }
  }

  lemma {:induction false} PushInOrderLeavesWire(c: Config, s: SendState, i: nat, amount: nat, room: nat)
    ensures WireUntouched(s, PushInOrder(c, s, i, amount, room))
    decreases amount - i
  {
    if i >= amount || i >= |s.buffers| || room == 0 {
    } else {
      PushInOrderLeavesWire(c, Push(c, s, i), i + 1, amount, room - 1);
    }
  }

  lemma FillLeavesWire(c: Config, s: SendState, sqLeft: nat, cqEmpty: bool, room: nat)
    ensures WireUntouched(s, Fill(c, s, sqLeft, cqEmpty, room))
  {
    if c.uring.burstSize <= c.uring.bufferSize {
      var (toSubmit, _) := CalcSqFillMode(PoolInflight(s), c.uring, sqLeft, cqEmpty);
      SubmitZcLeavesWire(c, s, toSubmit, room);
      if AllSized(s.buffers, c.mss) && PacketsFit(c.mss, c.ds, c.p) {
        var n := if toSubmit < |s.buffers| then toSubmit else |s.buffers|;
        PushInOrderLeavesWire(c, s.(buffers := StampBuffers(s.buffers, c.mss, c.ds, c.p, s.next, n)), 0, toSubmit,
            room);
      }
    }
  }

  lemma {:induction false} ReapCountsSent(c: Config, s: SendState, collected: seq<nat>, completed: nat)
    requires SentCounted(c, s) && !s.ended
    ensures SentCounted(c, Reap(c, s, collected, completed))
    decreases |s.cq|
  {
    if |s.cq| == 0 || s.cq[0].Failed? {
    } else {
      var e := s.cq[0];
      ReapCountsSent(c, ReapOne(c, s), if GivesBack(c, e) then collected + [e.index] else collected,
                     if Completes(c, e) then completed + 1 else completed);
    }
  }

  lemma PostCountsSent(c: Config, s: SendState, e: Cqe)
    requires SentCounted(c, s) && AllSized(s.buffers, c.mss)
    ensures SentCounted(c, KernelPosts(c, s, e))
  {
    hide SentIn;
    SentAppend(s.cq, e);
    if e.Sent? && e.index in s.working {
      assert |s.transmitted| + 1 == |KernelPosts(c, s, e).transmitted|;
    }
  }

  lemma StepCountsSent(c: Config, s: SendState, e: Event)
    requires SentCounted(c, s) && AllSized(s.buffers, c.mss)
    ensures SentCounted(c, Step(c, s, e))
  {
    hide Fill, Reap, KernelPosts;
    if !s.ended && !s.fault {
      match e {
        case IntervalEnds =>
        case FillSq(sqLeft, cqEmpty, room) =>
          FillLeavesWire(c, s, if sqLeft < c.uring.ringSize then sqLeft else c.uring.ringSize, cqEmpty, room);
        case KernelTakes(_) =>
        case KernelAnswers(cqe) => PostCountsSent(c, s, cqe);
        case ReapCq => ReapCountsSent(c, s, [], 0);
      }
    }
  }

  lemma {:induction false} SentCountedAlways(c: Config, buffers: seq<seq<Byte>>, events: seq<Event>)
    requires GoodConfig(c) && GoodBuffers(c, buffers)
    ensures SentCounted(c, After(c, buffers, events))
  {
    hide Step;
    if |events| == 0 {
    } else {
      var last := |events| - 1;
      SentCountedAlways(c, buffers, events[..last]);
      InvAlways(c, buffers, events[..last]);
      StepCountsSent(c, After(c, buffers, events[..last]), events[last]);
    }
  }

  /** Both modes, over every run: the messages sent hold as many datagrams as the statistics count,
      plus those of results still in the completion queue. */
  lemma DatagramsSentAreCounted(c: Config, buffers: seq<seq<Byte>>, events: seq<Event>)
    requires GoodConfig(c) && GoodBuffers(c, buffers)
    ensures
      var s := After(c, buffers, events);
      !s.ended ==> |s.transmitted| * c.p == s.past.datagrams + s.statistic.datagrams + SentIn(s.cq) * c.p
  {
    var s := After(c, buffers, events);
    SentCountedAlways(c, buffers, events);
    StartIsProduct(|s.transmitted|, c.p);
    StartIsProduct(SentIn(s.cq), c.p);
  }

  /** The same for the bytes, as long as every result reports the whole message. */
  ghost predicate BytesCounted(c: Config, s: SendState) {
    && (forall k :: 0 <= k < |s.cq| ==> Whole(c, s.cq[k]))
    && (!s.ended ==>
          Start(|s.transmitted|, c.mss) == s.past.dataBytes + s.statistic.dataBytes + Start(SentIn(s.cq), c.mss))
  }

  predicate Whole(c: Config, e: Cqe) { e.Sent? ==> e.bytes == c.mss }

  ghost predicate WholeRun(c: Config, events: seq<Event>) {
    forall i :: 0 <= i < |events| ==> events[i].KernelAnswers? ==> Whole(c, events[i].cqe)
  }

  lemma {:induction false} ReapCountsBytes(c: Config, s: SendState, collected: seq<nat>, completed: nat)
    requires BytesCounted(c, s) && !s.ended
    ensures BytesCounted(c, Reap(c, s, collected, completed))
    decreases |s.cq|
  {
    if |s.cq| == 0 || s.cq[0].Failed? {
    } else {
      var e := s.cq[0];
      ReapCountsBytes(c, ReapOne(c, s), if GivesBack(c, e) then collected + [e.index] else collected,
                      if Completes(c, e) then completed + 1 else completed);
    }
  }

  lemma StepCountsBytes(c: Config, s: SendState, e: Event)
    requires BytesCounted(c, s) && (e.KernelAnswers? ==> Whole(c, e.cqe))
    ensures BytesCounted(c, Step(c, s, e))
  {
    hide Fill, Reap, SentIn;
    if !s.ended && !s.fault {
      match e {
        case IntervalEnds =>
        case FillSq(sqLeft, cqEmpty, room) =>
          FillLeavesWire(c, s, if sqLeft < c.uring.ringSize then sqLeft else c.uring.ringSize, cqEmpty, room);
        case KernelTakes(_) =>
        case KernelAnswers(cqe) => SentAppend(s.cq, cqe);
        case ReapCq => ReapCountsBytes(c, s, [], 0);
      }
    }
  }

  lemma {:induction false} BytesCountedAlways(c: Config, buffers: seq<seq<Byte>>, events: seq<Event>)
    requires WholeRun(c, events)
    ensures BytesCounted(c, After(c, buffers, events))
  {
    hide Step;
    if |events| == 0 {
    } else {
      var last := |events| - 1;
      BytesCountedAlways(c, buffers, events[..last]);
      StepCountsBytes(c, After(c, buffers, events[..last]), events[last]);
    }
  }

  /** Both modes, over every run that sends messages whole: the bytes counted, and those of results
      still in the completion queue, are those of the messages sent. */
  lemma BytesSentAreCounted(c: Config, buffers: seq<seq<Byte>>, events: seq<Event>)
    requires WholeRun(c, events)
    ensures
      var s := After(c, buffers, events);
      !s.ended ==> |s.transmitted| * c.mss == s.past.dataBytes + s.statistic.dataBytes + SentIn(s.cq) * c.mss
  {
    var s := After(c, buffers, events);
    BytesCountedAlways(c, buffers, events);
    StartIsProduct(|s.transmitted|, c.mss);
    StartIsProduct(SentIn(s.cq), c.mss);
  }
}
