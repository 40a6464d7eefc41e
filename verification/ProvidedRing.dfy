/** Receiving with kernel-selected buffers: no index pool, only a counter of requests in flight,
    which is both what the fill decision reads and what bounds the completion queue. */
module ProvidedRing {
  import opened Wrappers
  import opened FillMode
  import opened Wire
  import opened Datagrams
  import R = Receivers

  /** How reaping treats a completion: it is counted as completed, it stops the pass early, or it
      ends the run. */
  datatype Fate = Counted | StopsEarly | Fatal

  /** Requests queued, in work, and completed; `dropped` are the requests whose completions were
      reaped by a pass that stopped early, and so never subtracted from `inflight`. */
  datatype RingState = RingState(
    inflight: int,
    sq: nat,
    working: nat,
    cq: seq<Fate>,
    dropped: nat,
    fault: bool,
    ended: bool)

  const START: RingState := RingState(0, 0, 0, [], 0, false, false)

  /** One call of fill_sq_and_submit; `room` pushes succeed at most. */
  function Fill(p: UringParameter, s: RingState, sqLeft: nat, cqEmpty: bool, room: nat): RingState {
    if p.burstSize > p.bufferSize || s.inflight < 0 then s.(fault := true)
    else
      var (toSubmit, minComplete) := CalcSqFillMode(s.inflight, p, sqLeft, cqEmpty);
      var pushed := Least(toSubmit, room);
      s.(sq := s.sq + pushed, inflight := s.inflight + pushed)
  }

  /** Drains the completion queue; the counter goes down only if the pass runs to its end. */
  function Reap(s: RingState, completed: nat): RingState
    decreases |s.cq|
  {
    if |s.cq| == 0 then s.(inflight := s.inflight - completed, fault := s.fault || s.inflight < completed)
    else
      var rest := s.(cq := s.cq[1..]);
      match s.cq[0]
      case Counted => Reap(rest, completed + 1)
      case StopsEarly => rest.(dropped := s.dropped + completed + 1)
      case Fatal => rest.(dropped := s.dropped + completed + 1, ended := true)
  }

  datatype Event =
    | FillSq(sqLeft: nat, cqEmpty: bool, room: nat)
    | KernelTakes(count: nat)
    | KernelCompletes(fate: Fate)
    | ReapCq

  function Step(p: UringParameter, s: RingState, e: Event): RingState {
    if s.fault || s.ended then s
    else match e
      case FillSq(sqLeft, cqEmpty, room) => Fill(p, s, Least(sqLeft, p.ringSize), cqEmpty, room)
      case KernelTakes(count) => if count > s.sq then s else s.(sq := s.sq - count, working := s.working + count)
      case KernelCompletes(fate) =>
        if s.working == 0 then s
        else s.(working := s.working - 1, cq := s.cq + [fate], fault := |s.cq| >= p.bufferSize)
      case ReapCq => Reap(s, 0)
  }

  function After(p: UringParameter, events: seq<Event>): RingState {
    if |events| == 0 then START else Step(p, After(p, events[..|events| - 1]), events[|events| - 1])
  }

  function Outstanding(s: RingState): nat { s.sq + s.working + |s.cq| }

  ghost predicate InvWith(p: UringParameter, s: RingState, completed: nat) {
    && !s.fault
    && s.inflight == Outstanding(s) + s.dropped + completed
    && s.inflight <= p.bufferSize
    && (p.sqFillingMode == Syscall ==> s.inflight <= p.burstSize)
  }

  ghost predicate Inv(p: UringParameter, s: RingState) { InvWith(p, s, 0) }

  lemma {:induction false} ReapKeepsInv(p: UringParameter, s: RingState, completed: nat)
    requires InvWith(p, s, completed) && !s.ended
    ensures Inv(p, Reap(s, completed)) && s.dropped <= Reap(s, completed).dropped
    decreases |s.cq|
  {
    if |s.cq| == 0 || s.cq[0] != Counted {
    } else {
      ReapKeepsInv(p, s.(cq := s.cq[1..]), completed + 1);
    }
  }

  lemma StepKeepsInv(p: UringParameter, s: RingState, e: Event)
    requires Sound(p) && Inv(p, s)
    ensures Inv(p, Step(p, s, e)) && s.dropped <= Step(p, s, e).dropped
  {
    if !s.ended {
      match e {
        case FillSq(sqLeft, cqEmpty, room) => NeverOversubscribes(s.inflight, p, Least(sqLeft, p.ringSize), cqEmpty);
        case ReapCq => ReapKeepsInv(p, s, 0);
        case KernelTakes(_) =>
        case KernelCompletes(_) =>
      }
    }
  }

  lemma {:induction false} InvAlways(p: UringParameter, events: seq<Event>)
    requires Sound(p)
    ensures Inv(p, After(p, events))
  {
    if |events| == 0 {
    } else {
      var last := |events| - 1;
      InvAlways(p, events[..last]);
      StepKeepsInv(p, After(p, events[..last]), events[last]);
    }
  }

  /** Over every run the counter never underflows and never under-counts: it exceeds the
      outstanding requests by exactly the dropped ones, and stays within the buffer count, so
      the completion queue never overflows. */
  lemma CounterNeverUnderCounts(p: UringParameter, events: seq<Event>)
    requires Sound(p)
    ensures
      var s := After(p, events);
      && !s.fault
      && 0 <= Outstanding(s) + s.dropped == s.inflight <= p.bufferSize
      && |s.cq| <= p.bufferSize
      && (p.sqFillingMode == Syscall ==> s.inflight <= p.burstSize)
  {
    InvAlways(p, events);
  }

  /** Some pass of the run stopped early. */
  ghost predicate HasEarlyStop(p: UringParameter, events: seq<Event>) {
    exists k {:trigger events[k]} :: 0 <= k < |events| && events[k] == ReapCq && StopsShort(After(p, events[..k]))
  }

  predicate StopsShort(s: RingState) {
    !s.fault && !s.ended && exists i :: 0 <= i < |s.cq| && s.cq[i] != Counted
  }

  lemma {:induction false} ReapDropsExactly(s: RingState, completed: nat)
    ensures Reap(s, completed).dropped >= s.dropped
    ensures Reap(s, completed).dropped == s.dropped <==> (forall i :: 0 <= i < |s.cq| ==> s.cq[i] == Counted)
    decreases |s.cq|
  {
    if |s.cq| == 0 || s.cq[0] != Counted {
    } else {
      var rest := s.(cq := s.cq[1..]);
      ReapDropsExactly(rest, completed + 1);
      assert forall i :: 1 <= i < |s.cq| ==> s.cq[i] == rest.cq[i - 1];
      assert forall i :: 0 <= i < |rest.cq| ==> rest.cq[i] == s.cq[i + 1];
    }
  }

  /** The counter is the number of outstanding requests exactly as long as no pass has stopped
      early. */
  lemma {:induction false} CounterIsExactUntilEarlyStop(p: UringParameter, events: seq<Event>)
    requires Sound(p)
    ensures After(p, events).inflight == Outstanding(After(p, events)) <==> !HasEarlyStop(p, events)
  {
    InvAlways(p, events);
    if |events| == 0 {
    } else {
      var last := |events| - 1;
      CounterIsExactUntilEarlyStop(p, events[..last]);
      var before := After(p, events[..last]);
      InvAlways(p, events[..last]);
      StepKeepsInv(p, before, events[last]);
      if events[last] == ReapCq && !before.ended { ReapDropsExactly(before, 0); }
      EarlyStopSplits(p, events);
    }
  }

  lemma EarlyStopSplits(p: UringParameter, events: seq<Event>)
    requires |events| > 0
    ensures
      var last := |events| - 1;
      HasEarlyStop(p, events) <==>
        HasEarlyStop(p, events[..last]) || (events[last] == ReapCq && StopsShort(After(p, events[..last])))
  {
    var last := |events| - 1;
    assert forall k :: 0 <= k < last ==> events[..last][k] == events[k] && events[..last][..k] == events[..k];
  }

  /** Syscall mode: once a pass has stopped early the counter never gets back to zero, and
      nothing is ever submitted again. */
  lemma SyscallStarvesAfterEarlyStop(p: UringParameter, events: seq<Event>, sqLeft: nat, cqEmpty: bool, room: nat)
    requires Sound(p) && p.sqFillingMode == Syscall && HasEarlyStop(p, events)
    ensures Fill(p, After(p, events), sqLeft, cqEmpty, room) == After(p, events)
  {
    CounterIsExactUntilEarlyStop(p, events);
    InvAlways(p, events);
  }

  /** What a fill of a drained ring submits. */
  function Batch(p: UringParameter): nat {
    if p.sqFillingMode == Syscall then p.burstSize else p.ringSize
  }

  /** The first round of the loop, with true readings of the queues: a fill, one completion that stops
      the pass, such as that of an INIT message, and the reap. */
  function UpToStop(p: UringParameter): seq<Event> {
    [FillSq(p.ringSize, true, p.ringSize)] + [KernelTakes(Batch(p))] + [KernelCompletes(StopsEarly)]
  }

  function StoppedRound(p: UringParameter): seq<Event> {
    UpToStop(p) + [ReapCq]
  }

  lemma RunAppend(p: UringParameter, events: seq<Event>, e: Event)
    ensures After(p, events + [e]) == Step(p, After(p, events), e)
  {
    hide Step;
    assert (events + [e])[..|events|] == events;
  }

  lemma StopPosted(p: UringParameter)
    requires Sound(p) && Submits(p)
    ensures
      var n := Batch(p);
      After(p, UpToStop(p)) == RingState(n, 0, n - 1, [StopsEarly], 0, false, false)
  {
    hide After;
    var fill: seq<Event> := [FillSq(p.ringSize, true, p.ringSize)];
    var none: seq<Event> := [];
    StartOfRun(p);
    RunAppend(p, none, FillSq(p.ringSize, true, p.ringSize));
    assert none + fill == fill;
    RunAppend(p, fill, KernelTakes(Batch(p)));
    RunAppend(p, fill + [KernelTakes(Batch(p))], KernelCompletes(StopsEarly));
  }

  lemma StartOfRun(p: UringParameter)
    ensures After(p, []) == START
  {
  }

  /** Such a round is an early stop, for every ring that submits anything. In Syscall mode nothing is
      ever submitted after it, not even once all other requests have completed. */
  lemma FirstMessageCanStopThePass(p: UringParameter)
    requires Sound(p) && Submits(p)
    ensures HasEarlyStop(p, StoppedRound(p))
    ensures p.sqFillingMode == Syscall ==>
      forall sqLeft, cqEmpty, room ::
        Fill(p, After(p, StoppedRound(p)), sqLeft, cqEmpty, room) == After(p, StoppedRound(p))
  {
    hide Fill, After;
    var events := StoppedRound(p);
    StopPosted(p);
    assert events[..3] == UpToStop(p) && events[3] == ReapCq;
    assert After(p, events[..3]).cq[0] == StopsEarly;
    if p.sqFillingMode == Syscall {
      forall sqLeft, cqEmpty, room ensures Fill(p, After(p, events), sqLeft, cqEmpty, room) == After(p, events) {
        SyscallStarvesAfterEarlyStop(p, events, sqLeft, cqEmpty, room);
      }
    }
  }

  /** It submits exactly when nothing is outstanding and no pass has stopped early, and then a whole
      burst, as far as the queue has room. */
  lemma SyscallSubmitsExactly(p: UringParameter, events: seq<Event>, sqLeft: nat, cqEmpty: bool, room: nat)
    requires Sound(p) && p.sqFillingMode == Syscall
    ensures
      var s, t := After(p, events), Fill(p, After(p, events), sqLeft, cqEmpty, room);
      && (t != s <==> Outstanding(s) == 0 && !HasEarlyStop(p, events) && p.burstSize > 0 && room > 0)
      && (Outstanding(s) == 0 && !HasEarlyStop(p, events) ==> t.sq == Least(p.burstSize, room))
  {
    CounterIsExactUntilEarlyStop(p, events);
    InvAlways(p, events);
  }

  /** It waits only for owed completions exactly as long as nothing is counted in flight or a whole
      burst is outstanding; with nothing in flight it waits for as many as it asks to submit. */
  lemma SyscallWaitsForTheOwedExactly(p: UringParameter, events: seq<Event>, sqLeft: nat, cqEmpty: bool)
    requires Sound(p) && p.sqFillingMode == Syscall && !p.sqpoll && p.burstSize > 0
    ensures
      var s := After(p, events);
      s.inflight >= 0 &&
      var (toSubmit, minComplete) := CalcSqFillMode(s.inflight, p, sqLeft, cqEmpty);
      && (Outstanding(s) + toSubmit >= minComplete <==> s.inflight == 0 || Outstanding(s) >= p.burstSize)
      && (s.inflight == 0 ==> toSubmit == minComplete == p.burstSize)
  {
    InvAlways(p, events);
    var s := After(p, events);
    SyscallWaitIsOwedExactly(p, s.inflight, s.dropped, sqLeft, cqEmpty);
  }

  // The program

  datatype Completion = Completion(result: int, arrival: R.Arrival)

  ghost predicate KernelContract(c: Completion) {
    R.WellFormed(c.arrival) && (c.result >= 0 ==> c.result == |c.arrival.bytes|)
  }

  function FateOf(c: Completion): Fate
    requires R.WellFormed(c.arrival)
  {
    match ParseReceivedBytes(c.result)
    case Err(error) => if error == "EAGAIN" then StopsEarly else Fatal
    case Ok(count) =>
      if count == 0 then Counted
      else if GetTestId(c.arrival.bytes) >= R.MAX_TEST_ID then Fatal
      else if R.TypeOf(c.arrival) == MEASUREMENT then Counted else StopsEarly
  }

  ghost predicate AllContracts(cq: seq<Completion>) {
    forall i {:trigger cq[i]} :: 0 <= i < |cq| ==> KernelContract(cq[i])
  }

  ghost function Fates(cq: seq<Completion>): (r: seq<Fate>)
    requires AllContracts(cq)
    ensures |r| == |cq|
  {
    if |cq| == 0 then [] else [FateOf(cq[0])] + Fates(cq[1..])
  }

  /** What the receiver becomes by one completion, and by a pass over the completion queue, which
      ends with the first completion that stops it. */
  function Handled(s: R.ReceiverState, c: Completion, now: real): R.ReceiverState
    requires R.WellFormed(c.arrival)
  {
    if ParseReceivedBytes(c.result) == Ok(1) then R.HandleMessage(s, c.arrival, now).0 else s
  }

  ghost function HandledAll(s: R.ReceiverState, cq: seq<Completion>, now: real): R.ReceiverState
    requires AllContracts(cq)
    decreases |cq|
  {
    if |cq| == 0 then s
    else
      var s' := Handled(s, cq[0], now);
      if FateOf(cq[0]) == Counted then HandledAll(s', cq[1..], now) else s'
  }

  predicate IsSkipped(c: Completion) { c.result == -105 || c.result == -90 }

  /** The completions a pass skips, without a buffer or truncated. */
  ghost function Skipped(cq: seq<Completion>): nat
    requires AllContracts(cq)
    decreases |cq|
  {
    if |cq| == 0 then 0
    else (if IsSkipped(cq[0]) then 1 else 0) + if FateOf(cq[0]) == Counted then Skipped(cq[1..]) else 0
  }

  // What becomes of a completion, read off its result and its message

  /** The pass goes on: there was no buffer, the message was truncated, or it is counted. */
  predicate GoesOn(c: Completion)
    requires R.WellFormed(c.arrival)
  {
    c.result in {-105, -90} ||
    (c.result >= 0 && GetMessageTypeCode(c.arrival.bytes) == 1 && GetTestId(c.arrival.bytes) < 1024)
  }

  predicate EndsTheRun(c: Completion)
    requires R.WellFormed(c.arrival)
  {
    if c.result < 0 then c.result !in {-105, -90, -11} else GetTestId(c.arrival.bytes) >= 1024
  }

  /** Only a counted message, a missing buffer and a truncation are counted as completed: the INIT
      message that opens a measurement stops the pass like a LAST message. */
  lemma FateExactly(s: R.ReceiverState, c: Completion, now: real)
    requires KernelContract(c)
    ensures
      var reply := R.HandleMessage(s, c.arrival, now).1;
      && (FateOf(c) == Counted <==> c.result in {-105, -90} || (c.result >= 0 && reply == R.Data))
      && (FateOf(c) == StopsEarly <==>
            c.result == -11 || (c.result >= 0 && reply in {R.InitReceived, R.LastReceived, R.Panics}))
      && (FateOf(c) == Fatal <==>
            (c.result < 0 && c.result !in {-105, -90, -11}) || (c.result >= 0 && reply == R.TestIdTooBig))
    ensures FateOf(c) == Counted <==> GoesOn(c)
    ensures FateOf(c) == Fatal <==> EndsTheRun(c)
  {
    hide R.TallyMessage, GetTestId, GetMessageTypeCode;
  }

  /** How many completions at the head of the queue let the pass go on. */
  ghost function GoodAhead(cq: seq<Completion>): (k: nat)
    requires AllContracts(cq)
    ensures k <= |cq|
    ensures forall i :: 0 <= i < k ==> KernelContract(cq[i]) && GoesOn(cq[i])
    ensures k < |cq| ==> KernelContract(cq[k]) && !GoesOn(cq[k])
    decreases |cq|
  {
    if |cq| == 0 || !GoesOn(cq[0]) then 0 else 1 + GoodAhead(cq[1..])
  }

  /** A pass that meets no other completion counts all of them. Any other ends there: the completions
      up to that one are taken off the queue and never counted. */
  lemma {:induction false} PassInClosedForm(s: RingState, cq: seq<Completion>, completed: nat)
    requires AllContracts(cq) && s.cq == Fates(cq)
    ensures
      var k, s' := GoodAhead(cq), Reap(s, completed);
      if k == |cq| then
        && |s'.cq| == 0 && s'.inflight == s.inflight - completed - |cq|
        && s'.dropped == s.dropped && s'.ended == s.ended
      else
        s' == s.(cq := Fates(cq[k + 1..]), dropped := s.dropped + completed + k + 1,
                 ended := s.ended || EndsTheRun(cq[k]))
    decreases |cq|
  {
    hide FateOf, KernelContract, GoesOn, EndsTheRun, Reap;
    ReapUnfolds(s, completed);
    if |cq| == 0 {
    } else {
      FateOfFirst(cq);
      if GoesOn(cq[0]) {
        PassInClosedForm(s.(cq := s.cq[1..]), cq[1..], completed + 1);
        var k := GoodAhead(cq[1..]);
        if k < |cq| - 1 { assert cq[1..][k + 1..] == cq[k + 2..] && cq[1..][k] == cq[k + 1]; }
      }
    }
  }

  /** The queue after a pass. */
  ghost function LeftOver(cq: seq<Completion>): seq<Completion>
    requires AllContracts(cq)
  {
    var k := GoodAhead(cq);
    if k == |cq| then [] else cq[k + 1..]
  }

  ghost predicate PassesWhole(cq: seq<Completion>)
    requires AllContracts(cq)
  {
    GoodAhead(cq) == |cq|
  }

  /** The number of completions without a buffer, or of truncated messages. */
  function Skips(cq: seq<Completion>): nat {
    if |cq| == 0 then 0 else Skips(cq[1..]) + if cq[0].result in {-105, -90} then 1 else 0
  }

  lemma {:induction false} SkippedExactly(cq: seq<Completion>)
    requires AllContracts(cq)
    ensures Skipped(cq) == Skips(cq[..GoodAhead(cq)])
  {
    hide FateOf, KernelContract, GetTestId, GetMessageTypeCode, R.WellFormed;
    if |cq| == 0 {
    } else {
      FateOfFirst(cq);
      if GoesOn(cq[0]) {
        SkippedExactly(cq[1..]);
        assert cq[..GoodAhead(cq)][1..] == cq[1..][..GoodAhead(cq[1..])];
      }
    }
  }

  lemma ReapUnfolds(s: RingState, completed: nat)
    ensures |s.cq| == 0 ==>
      Reap(s, completed) == s.(inflight := s.inflight - completed, fault := s.fault || s.inflight < completed)
    ensures |s.cq| > 0 ==>
      var rest := s.(cq := s.cq[1..]);
      Reap(s, completed) == match s.cq[0]
        case Counted => Reap(rest, completed + 1)
        case StopsEarly => rest.(dropped := s.dropped + completed + 1)
        case Fatal => rest.(dropped := s.dropped + completed + 1, ended := true)
  {
  }

  lemma {:induction false} LeftOverUnfolds(cq: seq<Completion>)
    requires AllContracts(cq)
    ensures |cq| == 0 ==> LeftOver(cq) == cq
    ensures |cq| > 0 ==>
      && LeftOver(cq) == (if FateOf(cq[0]) == Counted then LeftOver(cq[1..]) else cq[1..])
      && (PassesWhole(cq) <==> FateOf(cq[0]) == Counted && PassesWhole(cq[1..]))
    ensures |cq| == 0 ==> PassesWhole(cq)
  {
    hide FateOf, KernelContract, GoesOn;
    if |cq| > 0 {
      FateOfFirst(cq);
      var k := GoodAhead(cq[1..]);
      if GoesOn(cq[0]) && k < |cq| - 1 { assert cq[1..][k + 1..] == cq[k + 2..]; }
    }
  }

  /** The whole of a pass as a step of the state machine. */
  lemma ClosedFormOfPass(s: RingState, cq: seq<Completion>)
    requires AllContracts(cq) && s.cq == Fates(cq)
    ensures
      var k, s' := GoodAhead(cq), Reap(s, 0);
      && LeftOver(cq) == (if k == |cq| then [] else cq[k + 1..]) && Skipped(cq) == Skips(cq[..k])
      && (if k == |cq| then s'.inflight == s.inflight - k && s'.dropped == s.dropped && s'.ended == s.ended
          else
            && s'.inflight == s.inflight && s'.dropped == s.dropped + k + 1
            && s'.ended == (s.ended || EndsTheRun(cq[k])))
  {
    hide Reap, EndsTheRun, KernelContract, Skipped, Skips;
    PassInClosedForm(s, cq, 0);
    SkippedExactly(cq);
  }

  lemma FateOfFirst(cq: seq<Completion>)
    requires AllContracts(cq) && |cq| > 0
    ensures R.WellFormed(cq[0].arrival)
    ensures FateOf(cq[0]) == Counted <==> GoesOn(cq[0])
    ensures FateOf(cq[0]) == Fatal <==> EndsTheRun(cq[0])
  {
    hide FateOf, R.WellFormed;
    assert KernelContract(cq[0]);
    FateExactly(R.ReceiverState(0, []), cq[0], 0.0);
  }

  /** Why a pass ended. */
  datatype Exit = Completed(count: nat) | Early | Aborted

  class UringReceiver {
    const receiver: R.Receiver
    const parameter: UringParameter
    var sq: nat
    var cq: seq<Completion>
    var amountInflight: int
    var outOfBuffers: nat
    ghost var working: nat
    ghost var dropped: nat
    ghost var ended: bool

    ghost predicate Valid()
      reads this
    {
      AllContracts(cq) && sq <= parameter.ringSize
    }

    ghost function State(): RingState
      reads this
      requires AllContracts(cq)
    {
      RingState(amountInflight, sq, working, Fates(cq), dropped, false, ended)
    }

    constructor (receiver: R.Receiver, parameter: UringParameter)
      ensures Valid() && State() == START && this.receiver == receiver && this.parameter == parameter
    {
      this.receiver := receiver;
      this.parameter := parameter;
      sq := 0;
      cq := [];
      amountInflight := 0;
      outOfBuffers := 0;
      working := 0;
      dropped := 0;
      ended := false;
    }

    method Submit(amount: nat) returns (count: nat)
      requires Valid()
      modifies `sq
      ensures Valid() && count == Least(amount, parameter.ringSize - old(sq)) && sq == old(sq) + count
    {
      count := 0;
      for i := 0 to amount
        invariant count == i && sq == old(sq) + i <= parameter.ringSize
      {
        if sq < parameter.ringSize {
          sq := sq + 1;
          count := count + 1;
        } else {
          break;
        }
      }
    }

    /** First half of a loop round. It is a step of the state machine, and its subtractions stay
        within the unsigned range. */
    method FillHalf()
      requires Valid() && Sound(parameter) && Inv(parameter, State()) && !ended
      modifies `sq, `amountInflight
      ensures Valid() && Inv(parameter, State())
      ensures var room := parameter.ringSize - old(sq);
        State() == Step(parameter, old(State()), FillSq(room, old(cq) == [], room))
      ensures
        var room := parameter.ringSize - old(sq);
        var n := Least(CalcSqFillMode(old(amountInflight), parameter, room, old(cq) == []).0, room);
        sq == old(sq) + n && amountInflight == old(amountInflight) + n
    {
      hide CalcSqFillMode, Fates, AllContracts;
      StepKeepsInv(parameter, State(), FillSq(parameter.ringSize - sq, cq == [], parameter.ringSize - sq));
      var (toSubmit, minComplete) := CalcSqFillMode(amountInflight, parameter, parameter.ringSize - sq, |cq| == 0);
      if toSubmit == 0 && minComplete == 0 { return; }
      var submitted := Submit(toSubmit);
      amountInflight := amountInflight + submitted;
    }

    /** Handles one completion that is no error: without a buffer or truncated it is skipped,
        otherwise the message in it is handled. The panic on a LAST message of an unknown
        test also leaves the pass early. */
    method HandleCompletion(c: Completion, now: real) returns (fate: Fate)
      requires KernelContract(c)
      modifies receiver, `outOfBuffers
      ensures fate == FateOf(c)
      ensures receiver.State() == Handled(old(receiver.State()), c, now)
      ensures outOfBuffers == old(outOfBuffers) + if IsSkipped(c) then 1 else 0
    {
      hide GetTestId, GetMessageTypeCode, Chunks, R.TypeOf, R.TallyMessage;
      var parsed := ParseReceivedBytes(c.result);
      if parsed.Err? { return if parsed.error == "EAGAIN" then StopsEarly else Fatal; }
      if parsed.value == 0 {
        outOfBuffers := outOfBuffers + 1;
        return Counted;
      }
      var reply := receiver.RecvMsg(c.arrival, now);
      fate := match reply
        case Data => Counted
        case InitReceived => StopsEarly
        case LastReceived => StopsEarly
        case Panics => StopsEarly
        case TestIdTooBig => Fatal;
    }

    /** Drains the completion queue. A pass that stops early reports no completions at all. */
    method CompleteProvidedBuffers(now: real) returns (exit: Exit)
      requires Valid() && !ended
      modifies receiver, `cq, `outOfBuffers, `dropped, `ended
      ensures Valid()
      ensures
        var s := Reap(old(State()), 0);
        && State().(inflight := s.inflight, fault := s.fault) == s
        && s.inflight == amountInflight - (if exit.Completed? then exit.count else 0)
        && (exit.Aborted? <==> s.ended)
      ensures receiver.State() == HandledAll(old(receiver.State()), old(cq), now)
      ensures outOfBuffers == old(outOfBuffers) + Skipped(old(cq))
      ensures cq == LeftOver(old(cq)) && (exit.Completed? <==> PassesWhole(old(cq)))
    {
      hide FateOf, Handled, IsSkipped, LeftOver, PassesWhole;
      var count: nat := 0;
      while |cq| > 0
        invariant Valid() && !ended && amountInflight == old(amountInflight)
        invariant Reap(State(), count) == Reap(old(State()), 0)
        invariant HandledAll(receiver.State(), cq, now) == HandledAll(old(receiver.State()), old(cq), now)
        invariant outOfBuffers + Skipped(cq) == old(outOfBuffers) + Skipped(old(cq))
        invariant LeftOver(cq) == LeftOver(old(cq)) && (PassesWhole(cq) <==> PassesWhole(old(cq)))
        decreases |cq|
      {
        var c := cq[0];
        assert KernelContract(c);
        LeftOverUnfolds(cq);
        cq := cq[1..];
        var fate := HandleCompletion(c, now);
        if fate == Counted {
          count := count + 1;
        } else {
          dropped := dropped + count + 1;
          ended := fate == Fatal;
          return if fate == Fatal then Aborted else Early;
        }
      }
      LeftOverUnfolds(cq);
      exit := Completed(count);
    }

    /** Second half of a loop round. */
    method ReapHalf(now: real) returns (exit: Exit)
      requires Valid() && Sound(parameter) && Inv(parameter, State()) && !ended
      modifies this, receiver
      ensures Valid() && Inv(parameter, State())
      ensures State() == Step(parameter, old(State()), ReapCq)
      ensures receiver.State() == HandledAll(old(receiver.State()), old(cq), now)
      ensures
        var k := GoodAhead(old(cq));
        if k == |old(cq)| then
          && exit == Completed(k) && cq == [] && amountInflight == old(amountInflight) - k
          && dropped == old(dropped) && !ended
        else
          && exit == (if EndsTheRun(old(cq)[k]) then Aborted else Early) && cq == old(cq)[k + 1..]
          && amountInflight == old(amountInflight) && dropped == old(dropped) + k + 1
          && ended == EndsTheRun(old(cq)[k])
      ensures outOfBuffers == old(outOfBuffers) + Skips(old(cq)[..GoodAhead(old(cq))])
    {
      hide Reap, HandledAll, LeftOver, Skipped, Skips, EndsTheRun, GoodAhead, Fates;
      ClosedFormOfPass(State(), cq);
      StepKeepsInv(parameter, State(), ReapCq);
      exit := CompleteProvidedBuffers(now);
      if exit.Completed? { amountInflight := amountInflight - exit.count; }
    }
  }
}
