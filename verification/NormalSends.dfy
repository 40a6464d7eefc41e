/** The io_uring sender in Normal mode: buffers are stamped and pushed again while the kernel still
    holds them, so the wire may carry some ids twice and others never. */
module NormalSends {
  import opened Wire
  import opened Datagrams
  import opened PacketBuffers
  import opened FillMode
  import opened Accounting
  import opened SendRing
  import opened SendWire

  ghost predicate NormalConfig(c: Config) {
    GoodConfig(c) && !c.Zc() && HoldsHeaders(c.mss, c.ds) && c.p == PacketCount(c.mss, c.ds)
  }

  /** A fill leaves the bytes of a buffer the kernel holds as they are exactly if it submits too few
      requests to reach that buffer, or the messages hold no packets, or the buffer carries the
      ids it would be given already. */
  lemma FillKeepsHeldBufferExactly(c: Config, s: SendState, sqLeft: nat, cqEmpty: bool, room: nat, i: nat)
    requires GoodConfig(c) && !c.Zc() && Inv(c, s) && !s.ended && i in KernelHeld(c, s) && i < |s.buffers|
    ensures
      var t := Fill(c, s, sqLeft, cqEmpty, room);
      var (toSubmit, _) := CalcSqFillMode(PoolInflight(s), c.uring, sqLeft, cqEmpty);
      && |t.buffers| == |s.buffers|
      && (t.buffers[i] == s.buffers[i] <==>
            i >= toSubmit || c.p == 0 || AlreadyStamped(s.buffers[i], c.ds, s.next + i * c.p, c.p))
  {
    hide StampBuffers, StampIds, PushInOrder, AlreadyStamped, KernelHeld, Outstanding, Streamed;
    var (toSubmit, _) := CalcSqFillMode(PoolInflight(s), c.uring, sqLeft, cqEmpty);
    NeverOversubscribes(PoolInflight(s), c.uring, sqLeft, cqEmpty);
    NormalModeRestampsHeldBuffers(c, s, toSubmit, room, i);
    StampIsNoOpExactly(s.buffers[i], c.ds, s.next + i * c.p, c.p);
    if c.p == 0 { NothingToStamp(s.buffers[i], c.ds, s.next + i * c.p); }
  }

  lemma NothingToStamp(buffer: seq<Byte>, ds: nat, first: nat)
    ensures AlreadyStamped(buffer, ds, first, 0)
  {
  }

  // A run that sends a buffer twice

  /** How many requests a fill of a drained ring submits. */
  function Batch(p: UringParameter): nat {
    if p.sqFillingMode == Syscall then p.burstSize else p.ringSize
  }

  /** One round of the loop in which nothing has completed yet: the queues are read empty, all
      requests pushed and taken by the kernel, and there is nothing to reap. */
  function Round(p: UringParameter): seq<Event> {
    [FillSq(p.ringSize, true, p.ringSize), KernelTakes(Batch(p)), ReapCq]
  }

  lemma {:induction false} PushesSome(c: Config, s: SendState, i: nat, amount: nat, room: nat)
    requires i <= amount <= |s.buffers|
    ensures
      var t, m := PushInOrder(c, s, i, amount, room), if amount - i < room then amount - i else room;
      && t.sq == s.sq + IdRange(i, m) && |t.pushed| == |s.pushed| + m && t.next == s.next + Start(m, c.p)
      && t == s.(sq := t.sq, pushed := t.pushed, next := t.next, inflight := t.inflight)
    decreases amount - i
  {
    if i == amount || room == 0 {
    } else {
      PushesSome(c, Push(c, s, i), i + 1, amount, room - 1);
      var m := if amount - i < room then amount - i else room;
      assert IdRange(i, m) == [i] + IdRange(i + 1, m - 1);
      FromTheFront(m, c.p);
    }
  }

  lemma FromTheFront(n: nat, p: nat)
    requires n > 0
    ensures Start(n, p) == p + Start(n - 1, p)
  {
  }

  /** A fill of a drained ring: the first buffers are stamped and all of them pushed. */
  lemma FillDrained(c: Config, s: SendState) returns (t: SendState)
    requires NormalConfig(c) && Inv(c, s) && !s.ended && s.sq == []
    ensures t == Step(c, s, FillSq(c.uring.ringSize, true, c.uring.ringSize))
    ensures t.sq == IdRange(0, Batch(c.uring)) && t.next == s.next + Start(Batch(c.uring), c.p)
    ensures t.working == s.working && t.cq == s.cq && t.transmitted == s.transmitted && !t.ended
    ensures |t.buffers| == |s.buffers| == c.uring.bufferSize && PacketsFit(c.mss, c.ds, c.p)
    ensures |s.buffers[0]| == c.mss
    ensures Batch(c.uring) > 0 ==> t.buffers[0] == StampIds(s.buffers[0], c.ds, s.next, c.p)
  {
    hide StampBuffers, StampIds, Outstanding, Streamed, HoldsHeaders, PacketCount;
    var n := Batch(c.uring);
    t := Step(c, s, FillSq(c.uring.ringSize, true, c.uring.ringSize));
    var stamped := StampBuffers(s.buffers, c.mss, c.ds, c.p, s.next, n);
    var t' := s.(buffers := stamped);
    assert t == PushInOrder(c, t', 0, n, c.uring.ringSize) by { NoBatch(c, s, c.uring.ringSize); }
    PushesSome(c, t', 0, n, c.uring.ringSize);
    if n > 0 {
      StampedAt(s.buffers, c.mss, c.ds, c.p, s.next, n, 0);
      assert Start(0, c.p) == 0;
    }
  }

  lemma NoBatch(c: Config, s: SendState, room: nat)
    requires AllSized(s.buffers, c.mss) && PacketsFit(c.mss, c.ds, c.p)
    ensures StampBuffers(s.buffers, c.mss, c.ds, c.p, s.next, 0) == s.buffers && PushInOrder(c, s, 0, 0, room) == s
  {
  }

  /** A whole round after a run that left the queues empty. */
  lemma RoundRuns(c: Config, buffers: seq<seq<Byte>>, events: seq<Event>)
    requires NormalConfig(c) && GoodBuffers(c, buffers) && LoopRun(c, buffers, events) && !FilledLast(events)
    requires var s := After(c, buffers, events); !s.ended && s.sq == [] && s.cq == []
    ensures LoopRun(c, buffers, events + Round(c.uring)) && !FilledLast(events + Round(c.uring))
    ensures
      var s, t, n := After(c, buffers, events), After(c, buffers, events + Round(c.uring)), Batch(c.uring);
      && !t.ended && t.sq == [] && t.cq == [] && t.working == s.working + multiset(IdRange(0, n))
      && t.next == s.next + Start(n, c.p) && t.transmitted == s.transmitted
      && |t.buffers| == |s.buffers| == c.uring.bufferSize && |s.buffers[0]| == c.mss && PacketsFit(c.mss, c.ds, c.p)
      && (n > 0 ==> t.buffers[0] == StampIds(s.buffers[0], c.ds, s.next, c.p))
  {
    hide Inv, Step, After, StampIds, HoldsHeaders, PacketCount;
    var s, r := After(c, buffers, events), c.uring.ringSize;
    InvAlways(c, buffers, events);
    var filled := FillDrained(c, s);
    RunAppend(c, buffers, events, FillSq(r, true, r));
    var one := events + [FillSq(r, true, r)];
    InvAlways(c, buffers, one);
    InvMeansRunning(c, filled);
    TakeBatch(c, filled, Batch(c.uring));
    RunAppend(c, buffers, one, KernelTakes(Batch(c.uring)));
    var two := one + [KernelTakes(Batch(c.uring))];
    InvAlways(c, buffers, two);
    InvMeansRunning(c, After(c, buffers, two));
    ReapNothing(c, After(c, buffers, two));
    RunAppend(c, buffers, two, ReapCq);
    assert two + [ReapCq] == events + Round(c.uring);
  }

  lemma InvMeansRunning(c: Config, s: SendState)
    requires Inv(c, s)
    ensures !s.fault
  {
  }

  lemma TakeBatch(c: Config, s: SendState, n: nat)
    requires !s.ended && !s.fault && s.sq == IdRange(0, n)
    ensures Step(c, s, KernelTakes(n)) == s.(sq := [], working := s.working + multiset(IdRange(0, n)))
  {
    assert s.sq[..n] == s.sq && s.sq[n..] == [];
  }

  lemma ReapNothing(c: Config, s: SendState)
    requires !s.ended && !s.fault && s.cq == []
    ensures
      var t := Step(c, s, ReapCq);
      t == s.(pool := t.pool, capacity := t.capacity, inflight := t.inflight, fault := t.fault)
  {
  }

  lemma FirstOfBatch(n: nat)
    requires n > 0
    ensures 0 in multiset(IdRange(0, n))
  {
    assert IdRange(0, n)[0] == 0;
    assert 0 in IdRange(0, n);
  }

  /** The datagrams of the message carry p ids from `first` on. */
  ghost predicate CarriesFrom(c: Config, message: seq<Byte>, first: nat) {
    && c.ds > 0 && AllHaveHeaders(Chunks(message, c.ds))
    && IdsOf(Chunks(message, c.ds)) == IdRange(first, c.p)
  }

  /** The first round, and the second round's fill before the kernel has answered: the buffer the
      kernel works on is given other ids. */
  lemma SecondFillRestampsHeldBuffer(c: Config, buffers: seq<seq<Byte>>) returns (s: SendState, t: SendState)
    requires NormalConfig(c) && GoodBuffers(c, buffers) && Submits(c.uring) && c.p > 0
    requires (Batch(c.uring) + 1) * c.p <= U64_LIMIT
    ensures 0 in KernelHeld(c, s) && 0 in KernelHeld(c, t) && |s.buffers| == |t.buffers| > 0
    ensures CarriesFrom(c, s.buffers[0], 0) && CarriesFrom(c, t.buffers[0], Batch(c.uring) * c.p)
    ensures
      var fill := FillSq(c.uring.ringSize, true, c.uring.ringSize);
      && s == After(c, buffers, Round(c.uring)) && t == After(c, buffers, Round(c.uring) + [fill])
      && LoopRun(c, buffers, Round(c.uring) + [fill])
  {
    hide StampIds, Chunks, HoldsHeaders, PacketCount, After, Step, Inv, CarriesFrom, Batch, PacketsFit, KernelHeld;
    var n, r := Batch(c.uring), c.uring.ringSize;
    StartIsProduct(n, c.p);
    NextBatchFits(n, c.p);
    BatchPushes(c.uring);
    InitialRun(c, buffers);
    RoundRuns(c, buffers, []);
    assert [] + Round(c.uring) == Round(c.uring);
    s := After(c, buffers, Round(c.uring));
    InvAlways(c, buffers, Round(c.uring));
    t := FillDrained(c, s);
    RunAppend(c, buffers, Round(c.uring), FillSq(r, true, r));
    FirstOfBatch(n);
    WorkedOnIsHeld(c, s, 0);
    WorkedOnIsHeld(c, t, 0);
    NewlyStamped(c, buffers[0], 0);
    NewlyStamped(c, s.buffers[0], Start(n, c.p));
  }

  lemma BatchPushes(p: UringParameter)
    requires Sound(p) && Submits(p)
    ensures Batch(p) > 0
  {
  }

  lemma NextBatchFits(n: nat, p: nat)
    requires (n + 1) * p <= U64_LIMIT
    ensures p <= n * p + p <= U64_LIMIT
  {
  }

  lemma NewlyStamped(c: Config, before: seq<Byte>, first: nat)
    requires NormalConfig(c) && |before| == c.mss && first + c.p <= U64_LIMIT && PacketsFit(|before|, c.ds, c.p)
    ensures CarriesFrom(c, StampIds(before, c.ds, first, c.p), first)
  {
    hide StampIds, Chunks, GetPacketId;
    StampThenChunk(before, c.ds, first);
  }

  lemma WorkedOnIsHeld(c: Config, s: SendState, i: nat)
    requires i in s.working
    ensures i in KernelHeld(c, s)
  {
    hide Finals;
  }

  /** Two rounds before the kernel answers, and then both requests for buffer 0 are sent. */
  function SentTwice(c: Config): seq<Event> {
    Round(c.uring) + Round(c.uring) + [KernelAnswers(Sent(0, c.mss))] + [KernelAnswers(Sent(0, c.mss))]
  }

  /** Both messages are read from the same, newly stamped buffer: they carry the ids of the second
      request, and those of the first are never sent. */
  lemma NormalModeSendsTwice(c: Config, buffers: seq<seq<Byte>>) returns (message: seq<Byte>)
    requires NormalConfig(c) && GoodBuffers(c, buffers) && Submits(c.uring)
    ensures LoopRun(c, buffers, SentTwice(c))
    ensures
      var s, n := After(c, buffers, SentTwice(c)), Batch(c.uring);
      && s.transmitted == [message, message] && s.next == 2 * (n * c.p) && !s.ended && |message| == c.mss
      && ((n + 1) * c.p <= U64_LIMIT ==> CarriesFrom(c, message, n * c.p))
  {
    hide StampIds, Chunks, GetPacketId, HoldsHeaders, PacketCount, After, Step, Inv;
    var n, round := Batch(c.uring), Round(c.uring);
    StartIsProduct(n, c.p);
    InitialRun(c, buffers);
    RoundRuns(c, buffers, []);
    assert [] + round == round;
    var s := After(c, buffers, round);
    RoundRuns(c, buffers, round);
    var t := After(c, buffers, round + round);
    message := t.buffers[0];
    FirstOfBatch(n);
    var e := KernelAnswers(Sent(0, c.mss));
    RunAppend(c, buffers, round + round, e);
    RunAppend(c, buffers, round + round + [e], e);
    InvAlways(c, buffers, round + round);
    InvMeansRunning(c, t);
    TwoAnswers(c, t);
    if (n + 1) * c.p <= U64_LIMIT { StampThenChunk(s.buffers[0], c.ds, n * c.p); }
  }

  lemma TwoAnswers(c: Config, s: SendState)
    requires !c.Zc() && !s.fault && !s.ended && s.working[0] >= 2 && |s.buffers| > 0
    ensures
      var e := KernelAnswers(Sent(0, c.mss));
      var t := Step(c, Step(c, s, e), e);
      t.transmitted == s.transmitted + [s.buffers[0], s.buffers[0]] && t.next == s.next && !t.ended
  {
    var once := Step(c, s, KernelAnswers(Sent(0, c.mss)));
    assert 0 in s.working && once.working[0] >= 1;
  }

  // When Normal mode is right

  /** No two datagrams on the wire carry the same id. */
  ghost predicate WireDistinct(c: Config, s: SendState)
    requires c.ds > 0
  {
    AllHaveHeaders(OnWire(s.transmitted, c.ds)) && Distinct(IdsOf(OnWire(s.transmitted, c.ds)))
  }

  /** In Normal mode no run, nor any run in the order of the loop, sends an id twice exactly if no
      run sends anything: the messages hold no packets, or nothing is ever submitted. */
  lemma NormalModeIdsDifferExactly(c: Config, buffers: seq<seq<Byte>>)
    requires NormalConfig(c) && GoodBuffers(c, buffers)
    ensures (forall events :: WireDistinct(c, After(c, buffers, events))) <==> c.p == 0 || !Submits(c.uring)
    ensures (forall events :: LoopRun(c, buffers, events) ==> WireDistinct(c, After(c, buffers, events)))
      <==> c.p == 0 || !Submits(c.uring)
  {
    hide After, WireDistinct, LoopRun;
    if c.p == 0 || !Submits(c.uring) {
      forall events ensures WireDistinct(c, After(c, buffers, events)) {
        if c.p == 0 { EmptyMessages(c, buffers, events); } else { NothingSent(c, buffers, events); }
      }
    } else {
      var message := NormalModeSendsTwice(c, buffers);
      TwiceIsNotDistinct(c, After(c, buffers, SentTwice(c)), message);
    }
  }

  lemma TwiceIsNotDistinct(c: Config, s: SendState, message: seq<Byte>)
    requires NormalConfig(c) && c.p > 0 && s.transmitted == [message, message] && |message| == c.mss
    ensures !WireDistinct(c, s)
  {
    hide HoldsHeaders, PacketCount, Chunks, GetPacketId;
    ChunkCount(message, c.ds);
    var packets := Chunks(message, c.ds);
    TwoOnWire(message, c.ds);
    var ids := IdsOf(packets + packets);
    assert 0 < |packets| < |ids| && ids[0] == ids[|packets|];
  }

  lemma TwoOnWire(message: seq<Byte>, ds: nat)
    requires ds > 0
    ensures OnWire([message, message], ds) == Chunks(message, ds) + Chunks(message, ds)
  {
    hide Chunks;
    var two := [message, message];
    assert two[..1] == [message] && |[message][..0]| == 0;
    assert OnWire([message], ds) == Chunks(message, ds);
  }

  lemma {:induction false} NothingOnWire(messages: seq<seq<Byte>>, ds: nat)
    requires ds > 0 && forall k :: 0 <= k < |messages| ==> messages[k] == []
    ensures OnWire(messages, ds) == []
  {
    if |messages| == 0 {
    } else {
      NothingOnWire(messages[..|messages| - 1], ds);
    }
  }

  lemma EmptyMessages(c: Config, buffers: seq<seq<Byte>>, events: seq<Event>)
    requires NormalConfig(c) && GoodBuffers(c, buffers) && c.p == 0
    ensures WireDistinct(c, After(c, buffers, events))
  {
    hide After;
    var s := After(c, buffers, events);
    SentCountedAlways(c, buffers, events);
    if c.mss > 0 { AtLeastOnePacket(c.mss, c.ds); }
    NothingOnWire(s.transmitted, c.ds);
  }

  /** A configuration that never submits: nothing is queued, worked on or sent. */
  ghost predicate Quiet(s: SendState) {
    s.sq == [] && s.working == multiset{} && s.transmitted == []
  }

  lemma StepStaysQuiet(c: Config, s: SendState, e: Event)
    requires NormalConfig(c) && !Submits(c.uring) && Inv(c, s) && Quiet(s)
    ensures Quiet(Step(c, s, e))
  {
    hide HoldsHeaders, PacketCount, StampBuffers;
    if !s.ended && !s.fault {
      match e {
        case FillSq(sqLeft, cqEmpty, room) =>
        case ReapCq => ReapStaysQuiet(c, s, [], 0);
        case IntervalEnds =>
        case KernelTakes(_) =>
        case KernelAnswers(_) =>
      }
    }
  }

  lemma {:induction false} ReapStaysQuiet(c: Config, s: SendState, collected: seq<nat>, completed: nat)
    requires Quiet(s)
    ensures Quiet(Reap(c, s, collected, completed))
    decreases |s.cq|
  {
    if |s.cq| == 0 || s.cq[0].Failed? {
    } else {
      var e := s.cq[0];
      ReapStaysQuiet(c, ReapOne(c, s), if GivesBack(c, e) then collected + [e.index] else collected,
                     if Completes(c, e) then completed + 1 else completed);
    }
  }

  lemma {:induction false} StaysQuiet(c: Config, buffers: seq<seq<Byte>>, events: seq<Event>)
    requires NormalConfig(c) && GoodBuffers(c, buffers) && !Submits(c.uring)
    ensures Quiet(After(c, buffers, events))
  {
    hide Inv, Step, HoldsHeaders, PacketCount;
    if |events| == 0 {
    } else {
      var last := |events| - 1;
      StaysQuiet(c, buffers, events[..last]);
      InvAlways(c, buffers, events[..last]);
      StepStaysQuiet(c, After(c, buffers, events[..last]), events[last]);
    }
  }

  lemma NothingSent(c: Config, buffers: seq<seq<Byte>>, events: seq<Event>)
    requires NormalConfig(c) && GoodBuffers(c, buffers) && !Submits(c.uring)
    ensures WireDistinct(c, After(c, buffers, events))
  {
    hide After;
    StaysQuiet(c, buffers, events);
    NothingOnWire(After(c, buffers, events).transmitted, c.ds);
  }

  // Runs in which Normal mode is right

  /** Every fill of the run finds nothing queued and nothing in work. */
  ghost predicate DrainedFills(c: Config, buffers: seq<seq<Byte>>, events: seq<Event>) {
    forall k {:trigger events[k]} ::
      0 <= k < |events| && events[k].FillSq? ==> Pending(After(c, buffers, events[..k])) == multiset{}
  }

  /** Buffer i of the last fill, which pushed requests from number `base` on: it waits for its result
      once, and still carries the ids of that push. */
  ghost predicate Waits(c: Config, s: SendState, answered: seq<nat>, base: nat, i: nat) {
    && Pending(s)[i] == 1 && i < |s.buffers| && base + i < |s.pushed| && base + i !in answered
    && Carries(c, base + i, s.buffers[i])
  }

  ghost predicate Matched(c: Config, s: SendState, answered: seq<nat>, base: nat) {
    && Answered(c, answered, s.transmitted, |s.pushed|)
    && forall i :: i in Pending(s) ==> Waits(c, s, answered, base, i)
  }

  lemma MatchedFrame(c: Config, s: SendState, t: SendState, answered: seq<nat>, base: nat)
    requires Matched(c, s, answered, base) && Pending(t) == Pending(s)
    requires t.buffers == s.buffers && t.pushed == s.pushed && t.transmitted == s.transmitted
    ensures Matched(c, t, answered, base)
  {
    hide Pending, Carries, Answered;
    forall i | i in Pending(t) ensures Waits(c, t, answered, base, i) {
      assert Waits(c, s, answered, base, i);
    }
  }

  /** One request less waits, and nothing was sent for it. */
  lemma MatchedFewer(c: Config, s: SendState, t: SendState, answered: seq<nat>, base: nat, index: nat)
    requires Matched(c, s, answered, base) && index in Pending(s) && Pending(t) + multiset{index} == Pending(s)
    requires t.buffers == s.buffers && t.pushed == s.pushed && t.transmitted == s.transmitted
    ensures Matched(c, t, answered, base)
  {
    hide Pending, Carries, Answered;
    assert Waits(c, s, answered, base, index);
    forall i | i in Pending(t) ensures Waits(c, t, answered, base, i) {
      OneOfSum(Pending(t), index, Pending(s), i);
      assert Waits(c, s, answered, base, i);
    }
  }

  lemma OneOfSum(m: multiset<nat>, x: nat, sum: multiset<nat>, i: nat)
    requires m + multiset{x} == sum
    ensures sum[i] == m[i] + if i == x then 1 else 0
  {
    assert (m + multiset{x})[i] == sum[i];
  }

  /** One request less waits: its message, whole, was sent. */
  lemma MatchedSent(c: Config, s: SendState, t: SendState, answered: seq<nat>, base: nat, index: nat)
    requires Matched(c, s, answered, base) && index in Pending(s) && Pending(t) + multiset{index} == Pending(s)
    requires t.buffers == s.buffers && t.pushed == s.pushed
    requires index < |s.buffers| && t.transmitted == s.transmitted + [s.buffers[index]]
    ensures Matched(c, t, answered + [base + index], base)
  {
    hide Pending, Carries;
    assert Waits(c, s, answered, base, index);
    forall i | i in Pending(t) ensures Waits(c, t, answered + [base + index], base, i) {
      OneOfSum(Pending(t), index, Pending(s), i);
      assert Waits(c, s, answered, base, i);
      OneOfSum(Pending(t), index, Pending(s), index);
    }
  }

  lemma PostMatched(c: Config, s: SendState, e: Cqe, answered: seq<nat>, base: nat)
    returns (answered': seq<nat>)
    requires !c.Zc() && Inv(c, s) && Matched(c, s, answered, base)
    ensures Matched(c, KernelPosts(c, s, e), answered', base)
  {
    var t, i := KernelPosts(c, s, e), e.index;
    answered' := answered;
    assert e.Notif? ==> t == s by { PostKeepsPoolUnused(c, s, e); }
    hide Inv, Matched;
    if !e.Notif? && i in s.working {
      assert s.working == t.working + multiset{i};
      assert i in Pending(s) && Pending(t) + multiset{i} == Pending(s);
      if e.Sent? {
        WaitsInRange(c, s, answered, base, i);
        answered' := answered + [base + i];
        MatchedSent(c, s, t, answered, base, i);
      } else {
        MatchedFewer(c, s, t, answered, base, i);
      }
    }
  }

  lemma WaitsInRange(c: Config, s: SendState, answered: seq<nat>, base: nat, i: nat)
    requires Matched(c, s, answered, base) && i in Pending(s)
    ensures i < |s.buffers|
  {
    assert Waits(c, s, answered, base, i);
  }

  /** A fill of a ring with nothing queued or in work: the first m buffers are stamped and pushed. */
  lemma FillOfNothing(c: Config, s: SendState, sqLeft: nat, cqEmpty: bool, room: nat) returns (amount: nat, m: nat)
    requires NormalConfig(c) && Inv(c, s) && !s.ended && s.sq == []
    ensures m <= amount <= |s.buffers| && AllSized(s.buffers, c.mss) && PacketsFit(c.mss, c.ds, c.p)
    ensures
      var t := Fill(c, s, sqLeft, cqEmpty, room);
      && t.sq == IdRange(0, m) && t.working == s.working && t.transmitted == s.transmitted
      && |t.pushed| == |s.pushed| + m && t.buffers == StampBuffers(s.buffers, c.mss, c.ds, c.p, s.next, amount)
  {
    NormalInvMeans(c, s);
    hide Inv, StampBuffers, HoldsHeaders, PacketCount, PushInOrder;
    NeverOversubscribes(PoolInflight(s), c.uring, sqLeft, cqEmpty);
    var (toSubmit, _) := CalcSqFillMode(PoolInflight(s), c.uring, sqLeft, cqEmpty);
    amount, m := toSubmit, if toSubmit < room then toSubmit else room;
    NoBatch(c, s, room);
    PushesSome(c, s.(buffers := StampBuffers(s.buffers, c.mss, c.ds, c.p, s.next, amount)), 0, amount, room);
  }

  lemma FillMatched(c: Config, s: SendState, sqLeft: nat, cqEmpty: bool, room: nat, answered: seq<nat>, base: nat)
    requires NormalConfig(c) && Inv(c, s) && !s.ended && Matched(c, s, answered, base) && Pending(s) == multiset{}
    ensures Matched(c, Fill(c, s, sqLeft, cqEmpty, room), answered, |s.pushed|)
  {
    hide Inv, StampBuffers, StampIds, HoldsHeaders, PacketCount, Carries, Fill;
    NextNumber(c, s);
    assert s.sq == [] && s.working == multiset{} by { assert |Pending(s)| == |s.sq| + |s.working|; }
    var amount, m := FillOfNothing(c, s, sqLeft, cqEmpty, room);
    var t := Fill(c, s, sqLeft, cqEmpty, room);
    assert Pending(t) == multiset(IdRange(0, m));
    hide Pending;
    forall i | i in Pending(t) ensures Waits(c, t, answered, |s.pushed|, i) {
      InBatch(m, i);
      StampedWaits(c, s, amount, i);
    }
  }

  lemma StampedWaits(c: Config, s: SendState, amount: nat, i: nat)
    requires AllSized(s.buffers, c.mss) && PacketsFit(c.mss, c.ds, c.p) && i < amount <= |s.buffers|
    requires s.next == Start(|s.pushed|, c.p)
    ensures Carries(c, |s.pushed| + i, StampBuffers(s.buffers, c.mss, c.ds, c.p, s.next, amount)[i])
  {
    hide StampBuffers, StampIds, Carries;
    StampedAt(s.buffers, c.mss, c.ds, c.p, s.next, amount, i);
    StartAdds(|s.pushed|, i, c.p);
    StampedCarries(c, |s.pushed| + i, s.buffers[i]);
  }

  lemma NormalInvMeans(c: Config, s: SendState)
    requires Inv(c, s) && !c.Zc()
    ensures |s.buffers| == c.uring.bufferSize && AllSized(s.buffers, c.mss) && PoolInflight(s) == 0 && !s.fault
  {
  }

  lemma StampedCarries(c: Config, number: nat, before: seq<Byte>)
    requires |before| == c.mss && PacketsFit(c.mss, c.ds, c.p)
    ensures Carries(c, number, StampIds(before, c.ds, Start(number, c.p), c.p))
  {
    hide StampIds;
  }

  lemma InBatch(m: nat, i: nat)
    ensures i in multiset(IdRange(0, m)) <==> i < m
    ensures i < m ==> multiset(IdRange(0, m))[i] == 1
    decreases m
  {
    if m == 0 {
    } else {
      InBatch(m - 1, i);
      assert IdRange(0, m) == IdRange(0, m - 1) + [m - 1];
    }
  }

  lemma {:induction false} ReapMatched(c: Config, s: SendState, collected: seq<nat>, completed: nat)
    ensures
      var t := Reap(c, s, collected, completed);
      Pending(t) == Pending(s) && t.buffers == s.buffers && t.pushed == s.pushed && t.transmitted == s.transmitted
    decreases |s.cq|
  {
    if |s.cq| == 0 || s.cq[0].Failed? {
    } else {
      var e := s.cq[0];
      ReapMatched(c, ReapOne(c, s), if GivesBack(c, e) then collected + [e.index] else collected,
                  if Completes(c, e) then completed + 1 else completed);
    }
  }

  lemma StepMatched(c: Config, s: SendState, e: Event, answered: seq<nat>, base: nat)
    returns (answered': seq<nat>, base': nat)
    requires NormalConfig(c) && Inv(c, s) && Matched(c, s, answered, base)
    requires e.FillSq? ==> Pending(s) == multiset{}
    ensures Matched(c, Step(c, s, e), answered', base')
  {
    hide Inv, Matched, Fill, Reap, KernelPosts, Pending;
    answered', base' := answered, base;
    if !s.ended && !s.fault {
      match e {
        case IntervalEnds => SameQueues(s, Step(c, s, e)); MatchedFrame(c, s, Step(c, s, e), answered, base);
        case FillSq(sqLeft, cqEmpty, room) =>
          FillMatched(c, s, Left(c, sqLeft), cqEmpty, room, answered, base);
          base' := |s.pushed|;
        case KernelTakes(count) =>
          if count <= |s.sq| {
            TakeKeepsPending(s, count);
            MatchedFrame(c, s, Step(c, s, e), answered, base);
          }
        case KernelAnswers(cqe) => answered' := PostMatched(c, s, cqe, answered, base);
        case ReapCq =>
          ReapMatched(c, s, [], 0);
          MatchedFrame(c, s, Step(c, s, e), answered, base);
      }
    }
  }

  lemma SameQueues(s: SendState, t: SendState)
    requires t.sq == s.sq && t.working == s.working
    ensures Pending(t) == Pending(s)
  {
  }

  lemma TakeKeepsPending(s: SendState, count: nat)
    requires count <= |s.sq|
    ensures Pending(s.(sq := s.sq[count..], working := s.working + multiset(s.sq[..count]))) == Pending(s)
  {
    assert s.sq == s.sq[..count] + s.sq[count..];
  }

  lemma {:induction false} DrainedRunsMatch(c: Config, buffers: seq<seq<Byte>>, events: seq<Event>)
    returns (answered: seq<nat>, base: nat)
    requires NormalConfig(c) && GoodBuffers(c, buffers) && DrainedFills(c, buffers, events)
    ensures Matched(c, After(c, buffers, events), answered, base)
  {
    hide Inv, Step, HoldsHeaders, PacketCount;
    if |events| == 0 {
      answered, base := [], 0;
    } else {
      hide Matched;
      var last := |events| - 1;
      assert DrainedFills(c, buffers, events[..last]) by {
        assert forall k :: 0 <= k < last ==> events[..last][k] == events[k] && events[..last][..k] == events[..k];
      }
      answered, base := DrainedRunsMatch(c, buffers, events[..last]);
      InvAlways(c, buffers, events[..last]);
      answered, base := StepMatched(c, After(c, buffers, events[..last]), events[last], answered, base);
    }
  }

  /** If every fill finds nothing queued and nothing in work, Normal mode is right: no two datagrams
      on the wire carry the same id. */
  lemma DrainedFillsSendDifferentIds(c: Config, buffers: seq<seq<Byte>>, events: seq<Event>)
    requires NormalConfig(c) && GoodBuffers(c, buffers) && DrainedFills(c, buffers, events)
    requires After(c, buffers, events).next <= U64_LIMIT
    ensures WireDistinct(c, After(c, buffers, events))
  {
    hide After, Inv, HoldsHeaders, PacketCount, OnWire, IdsOf;
    var s := After(c, buffers, events);
    var answered, base := DrainedRunsMatch(c, buffers, events);
    InvAlways(c, buffers, events);
    NextNumber(c, s);
    WireOfAnswered(c, answered, s.transmitted, |s.pushed|);
    IdsAtDiffer(answered, c.p, |s.pushed|);
  }
}
