/** The receiver on an io_uring instance in Normal mode: submission, completion handling and the
    two halves of the measurement loop, proved to be steps of the ring state machine. */
module UringReceivers {
  import opened Wire
  import opened PacketBuffers
  import opened Wrappers
  import opened FillMode
  import opened RecvRing
  import opened Datagrams
  import R = Receivers

  /** A completion queue entry: the buffer index passed as user data, the result, and the message
      the kernel wrote into that buffer. */
  datatype Completion = Completion(index: nat, result: int, arrival: R.Arrival)

  /** One completion per request: bytes received, or a negated error. The two errors the code maps
      to "nothing received" only concern provided buffers and truncation. */
  ghost predicate KernelContract(c: Completion) {
    R.WellFormed(c.arrival) && c.result != -105 && c.result != -90 && (c.result >= 0 ==> c.result == |c.arrival.bytes|)
  }

  function FateOf(c: Completion): Fate
    requires R.WellFormed(c.arrival)
  {
    match ParseReceivedBytes(c.result)
    case Err(error) => if error == "EAGAIN" then StopsEarly else Fatal
    case Ok(_) =>
      if GetTestId(c.arrival.bytes) >= R.MAX_TEST_ID then Fatal
      else if R.TypeOf(c.arrival) == LAST then StopsEarly else Returned
  }

  ghost predicate AllContracts(cq: seq<Completion>) {
    forall i {:trigger cq[i]} :: 0 <= i < |cq| ==> KernelContract(cq[i])
  }

  ghost function Cqes(cq: seq<Completion>): (r: seq<Cqe>)
    requires AllContracts(cq)
    ensures |r| == |cq| && (forall i :: 0 <= i < |cq| ==> r[i] == Cqe(cq[i].index, FateOf(cq[i])))
  {
    seq(|cq|, i requires 0 <= i < |cq| => Cqe(cq[i].index, FateOf(cq[i])))
  }

  /** What the receiver becomes by one completion, and by a pass over the completion queue, which
      ends with the first completion that stops it. */
  function Handled(s: R.ReceiverState, c: Completion, now: real): R.ReceiverState
    requires R.WellFormed(c.arrival)
  {
    if ParseReceivedBytes(c.result).Err? then s else R.HandleMessage(s, c.arrival, now).0
  }

  ghost function HandledAll(s: R.ReceiverState, cq: seq<Completion>, now: real): R.ReceiverState
    requires AllContracts(cq)
    decreases |cq|
  {
    if |cq| == 0 then s
    else
      var s' := Handled(s, cq[0], now);
      if FateOf(cq[0]) == Returned then HandledAll(s', cq[1..], now) else s'
  }

  /** How many completions a pass takes off the queue: all, or those up to the first that stops it. */
  ghost function Taken(cq: seq<Completion>): (n: nat)
    requires AllContracts(cq)
    ensures n <= |cq|
    decreases |cq|
  {
    if |cq| == 0 then 0 else if FateOf(cq[0]) == Returned then 1 + Taken(cq[1..]) else 1
  }

  function Arrivals(cq: seq<Completion>): (r: seq<R.Arrival>)
    ensures |r| == |cq|
  {
    if |cq| == 0 then [] else [cq[0].arrival] + Arrivals(cq[1..])
  }

  lemma {:induction false} ArrivalsWellFormed(cq: seq<Completion>)
    requires AllContracts(cq)
    ensures R.AllWellFormed(Arrivals(cq))
  {
    hide R.WellFormed;
    if |cq| == 0 {
    } else {
      assert KernelContract(cq[0]);
      ArrivalsWellFormed(cq[1..]);
    }
  }

  lemma ReturnedNeverStops(s: R.ReceiverState, c: Completion, now: real)
    requires KernelContract(c) && FateOf(c) == Returned
    ensures var (s', reply) := R.HandleMessage(s, c.arrival, now);
      Handled(s, c, now) == s' && !R.Stops(s', reply)
  {
    hide R.TypeOf, R.TallyMessage, GetTestId;
  }

  /** A pass over completions that all hand their buffers back leaves the receiver as one recvmsg
      call per message would, in the order of completion. */
  lemma {:induction false} RingRefinesSingleReceives(s: R.ReceiverState, cq: seq<Completion>, now: real)
    requires AllContracts(cq) && forall i :: 0 <= i < |cq| ==> KernelContract(cq[i]) && FateOf(cq[i]) == Returned
    ensures R.AllWellFormed(Arrivals(cq))
    ensures HandledAll(s, cq, now) == R.HandleEach(s, Arrivals(cq), seq(|cq|, i => now))
    decreases |cq|
  {
    ArrivalsWellFormed(cq);
    hide R.HandleMessage, R.WellFormed, R.TypeOf, GetTestId;
    if |cq| == 0 {
    } else {
      var rest := cq[1..];
      RingRefinesSingleReceives(Handled(s, cq[0], now), rest, now);
      var times := seq(|cq|, i => now);
      assert times[1..] == seq(|rest|, i => now);
      assert Arrivals(cq)[1..] == Arrivals(rest);
      ReturnedNeverStops(s, cq[0], now);
    }
  }

  // What becomes of a completion, read off its result and its message

  /** The message opens a test or is counted: its buffer goes back to the pool. */
  predicate Welcome(c: Completion)
    requires R.WellFormed(c.arrival)
  {
    c.result >= 0 && GetMessageTypeCode(c.arrival.bytes) != 2 && GetTestId(c.arrival.bytes) < 1024
  }

  /** An error other than "nothing there", or a message whose test id is out of range. */
  predicate EndsTheRun(c: Completion)
    requires R.WellFormed(c.arrival)
  {
    if c.result < 0 then c.result != -11 else GetTestId(c.arrival.bytes) >= 1024
  }

  /** A buffer is handed back exactly if a message arrived in it that is counted or opens a test;
      nothing to read, a LAST message and a panic stop the pass, every other error ends the run. */
  lemma FateExactly(s: R.ReceiverState, c: Completion, now: real)
    requires KernelContract(c)
    ensures
      var reply := R.HandleMessage(s, c.arrival, now).1;
      && (FateOf(c) == Returned <==> c.result >= 0 && reply in {R.Data, R.InitReceived})
      && (FateOf(c) == StopsEarly <==> c.result == -11 || (c.result >= 0 && reply in {R.LastReceived, R.Panics}))
      && (FateOf(c) == Fatal <==>
            (c.result < 0 && c.result != -11) || (c.result >= 0 && reply == R.TestIdTooBig))
    ensures FateOf(c) == Returned <==> Welcome(c)
    ensures FateOf(c) == Fatal <==> EndsTheRun(c)
  {
    hide R.TallyMessage, GetTestId, GetMessageTypeCode;
  }

  /** How many completions at the head of the queue are welcome. */
  ghost function WelcomeAhead(cq: seq<Completion>): (k: nat)
    requires AllContracts(cq)
    ensures k <= |cq|
    ensures forall i :: 0 <= i < k ==> KernelContract(cq[i]) && Welcome(cq[i])
    ensures k < |cq| ==> KernelContract(cq[k]) && !Welcome(cq[k])
    decreases |cq|
  {
    if |cq| == 0 || !Welcome(cq[0]) then 0 else 1 + WelcomeAhead(cq[1..])
  }

  function BufferIndexes(cq: seq<Completion>): (r: seq<nat>)
    ensures |r| == |cq| && forall i :: 0 <= i < |cq| ==> r[i] == cq[i].index
  {
    seq(|cq|, i requires 0 <= i < |cq| => cq[i].index)
  }

  /** A pass whose completions are all welcome empties the queue, hands every buffer back in order
      and lowers the counter by their number. Any other pass ends with the first unwelcome one: the
      buffers up to it are leaked, pool and counter stay, and the run ends if that one says so. */
  ghost predicate PassLeaves(s: RingState, cq: seq<Completion>, collected: seq<nat>, s': RingState)
    requires AllContracts(cq)
  {
    var k := WelcomeAhead(cq);
    if k == |cq| then
      && |s'.cq| == 0 && s'.pool == s.pool + (collected + BufferIndexes(cq)) && s'.leaked == s.leaked
      && s'.inflight == s.inflight - |collected| - |cq| && s'.ended == s.ended
    else
      && s'.cq == Cqes(cq[k + 1..]) && s'.pool == s.pool && s'.inflight == s.inflight
      && s'.leaked == s.leaked + multiset(collected + BufferIndexes(cq[..k + 1]))
      && s'.ended == (s.ended || EndsTheRun(cq[k]))
  }

  lemma {:induction false} PassInClosedForm(s: RingState, cq: seq<Completion>, collected: seq<nat>)
    requires AllContracts(cq) && s.cq == Cqes(cq)
    ensures PassLeaves(s, cq, collected, Reap(s, collected))
    ensures Taken(cq) == if WelcomeAhead(cq) == |cq| then |cq| else WelcomeAhead(cq) + 1
    decreases |cq|
  {
    hide FateOf, Reap, KernelContract, Welcome, GrownCapacity, PassLeaves;
    ReapUnfolds(s, collected);
    if |cq| == 0 {
      NothingToReap(s, cq, collected);
    } else {
      FateOfFirst(cq);
      var rest := cq[1..];
      assert Cqes(rest) == s.cq[1..];
      if Welcome(cq[0]) {
        var next := s.(cq := s.cq[1..]);
        PassInClosedForm(next, rest, collected + [cq[0].index]);
        OneMoreWelcome(s, cq, collected, Reap(s, collected));
      } else {
        StopsAtFirst(s, cq, collected);
      }
    }
  }

  /** The same as a step of the ring. */
  lemma ClosedFormOfStep(p: UringParameter, s: RingState, cq: seq<Completion>)
    requires AllContracts(cq) && s.cq == Cqes(cq) && !s.fault && !s.ended
    ensures Step(p, s, ReapCq) == Reap(s, [])
    ensures Taken(cq) == if WelcomeAhead(cq) == |cq| then |cq| else WelcomeAhead(cq) + 1
    ensures
      var s', k := Reap(s, []), WelcomeAhead(cq);
      if k == |cq| then
        && s'.pool == s.pool + BufferIndexes(cq) && s'.leaked == s.leaked
        && s'.inflight == s.inflight - |cq| && !s'.ended
      else
        && s'.pool == s.pool && s'.leaked == s.leaked + multiset(BufferIndexes(cq[..k + 1]))
        && s'.inflight == s.inflight && s'.ended == EndsTheRun(cq[k])
  {
    hide Reap, AllContracts, KernelContract, Welcome, WelcomeAhead, BufferIndexes, Taken, EndsTheRun;
    PassInClosedForm(s, cq, []);
    if WelcomeAhead(cq) == |cq| {
      assert [] + BufferIndexes(cq) == BufferIndexes(cq);
    } else {
      assert [] + BufferIndexes(cq[..WelcomeAhead(cq) + 1]) == BufferIndexes(cq[..WelcomeAhead(cq) + 1]);
    }
  }

  lemma NothingToReap(s: RingState, cq: seq<Completion>, collected: seq<nat>)
    requires |s.cq| == |cq| == 0
    ensures PassLeaves(s, cq, collected, Reap(s, collected))
  {
    hide GrownCapacity;
    assert collected + BufferIndexes(cq) == collected;
  }

  lemma StopsAtFirst(s: RingState, cq: seq<Completion>, collected: seq<nat>)
    requires AllContracts(cq) && |cq| > 0 && s.cq == Cqes(cq) && R.WellFormed(cq[0].arrival) && !Welcome(cq[0])
    requires FateOf(cq[0]) != Returned && (FateOf(cq[0]) == Fatal <==> EndsTheRun(cq[0]))
    ensures PassLeaves(s, cq, collected, Reap(s, collected))
  {
    hide FateOf, Reap, KernelContract, Welcome, EndsTheRun, GrownCapacity;
    ReapUnfolds(s, collected);
    assert Cqes(cq[1..]) == s.cq[1..];
    assert collected + BufferIndexes(cq[..1]) == collected + [cq[0].index];
  }

  /** A welcome completion ahead of a pass only adds its buffer to the ones collected. */
  lemma OneMoreWelcome(s: RingState, cq: seq<Completion>, collected: seq<nat>, s': RingState)
    requires AllContracts(cq) && |cq| > 0 && |s.cq| > 0 && R.WellFormed(cq[0].arrival) && Welcome(cq[0])
    requires PassLeaves(s.(cq := s.cq[1..]), cq[1..], collected + [cq[0].index], s')
    ensures PassLeaves(s, cq, collected, s')
  {
    hide FateOf, KernelContract, Welcome, EndsTheRun, Cqes, BufferIndexes;
    var rest, k := cq[1..], WelcomeAhead(cq[1..]);
    IndexesGain(cq, collected);
    if k < |rest| {
      assert rest[k] == cq[k + 1] && rest[k + 1..] == cq[k + 2..];
      IndexesGain(cq[..k + 2], collected);
      assert cq[..k + 2][1..] == rest[..k + 1];
    }
  }

  lemma IndexesGain(cq: seq<Completion>, collected: seq<nat>)
    requires |cq| > 0
    ensures collected + BufferIndexes(cq) == collected + [cq[0].index] + BufferIndexes(cq[1..])
  {
    assert BufferIndexes(cq) == [cq[0].index] + BufferIndexes(cq[1..]);
  }

  lemma FateOfFirst(cq: seq<Completion>)
    requires AllContracts(cq) && |cq| > 0
    ensures R.WellFormed(cq[0].arrival)
    ensures FateOf(cq[0]) == Returned <==> Welcome(cq[0])
    ensures FateOf(cq[0]) == Fatal <==> EndsTheRun(cq[0])
  {
    hide FateOf, R.WellFormed;
    assert KernelContract(cq[0]);
    FateExactly(R.ReceiverState(0, []), cq[0], 0.0);
  }

  class IoUringNormal {
    const parameter: UringParameter
    var sq: seq<nat>
    var cq: seq<Completion>
    ghost var kernel: multiset<nat>

    ghost predicate Valid()
      reads this
    {
      |sq| <= parameter.ringSize && AllContracts(cq)
    }

    constructor (parameter: UringParameter)
      ensures Valid() && this.parameter == parameter && sq == [] && cq == [] && kernel == multiset{}
    {
      this.parameter := parameter;
      sq := [];
      cq := [];
      kernel := multiset{};
    }

    ghost function View(pb: PacketBuffer, leaked: multiset<nat>, inflight: int): RingState
      reads this, pb
      requires AllContracts(cq)
    {
      RingState(pb.indexPool, pb.poolCapacity, sq, kernel, Cqes(cq), leaked, inflight, false, false)
    }

    /** Fails exactly when the pool runs empty, otherwise does what `RecvRing.Submit` does with
        the room the submission queue has. */
    method SubmitRequests(amount: nat, pb: PacketBuffer, ghost leaked: multiset<nat>, ghost inflight: int)
      returns (r: Result<nat>)
      requires Valid() && pb.Valid()
      modifies `sq, pb`indexPool, pb`poolCapacity
      ensures Valid() && pb.Valid()
      ensures var s := Submit(old(View(pb, leaked, inflight)), amount, parameter.ringSize - |old(sq)|);
        && (r.Err? <==> s.fault)
        && (r.Ok? ==> View(pb, leaked, inflight + r.value) == s)
    {
      hide Cqes, AllContracts, GrownCapacity;
      var count := 0;
      for i := 0 to amount
        invariant Valid() && pb.Valid()
        invariant Submit(View(pb, leaked, inflight + count), amount - i, parameter.ringSize - |sq|)
          == Submit(old(View(pb, leaked, inflight)), amount, parameter.ringSize - |old(sq)|)
      {
        var index := pb.GetBufferIndex();
        if index.Err? { return Err(index.error); }
        if |sq| < parameter.ringSize {
          sq := sq + [index.value];
          count := count + 1;
        } else {
          pb.ReturnBufferIndex([index.value]);
          break;
        }
      }
      r := Ok(count);
    }

    method FillSqAndSubmit(inflightPool: nat, pb: PacketBuffer, ghost leaked: multiset<nat>, ghost inflight: int)
      returns (r: Result<nat>)
      requires Valid() && pb.Valid() && parameter.burstSize <= parameter.bufferSize
      requires inflightPool == pb.poolCapacity - |pb.indexPool|
      modifies `sq, pb`indexPool, pb`poolCapacity
      ensures Valid() && pb.Valid()
      ensures var room := parameter.ringSize - |old(sq)|;
        var s := Fill(parameter, old(View(pb, leaked, inflight)), room, old(cq) == [], room);
        && (r.Err? <==> s.fault)
        && (r.Ok? ==> View(pb, leaked, inflight + r.value) == s)
    {
      hide Submit, Cqes, CalcSqFillMode;
      var (toSubmit, minComplete) := CalcSqFillMode(inflightPool, parameter, parameter.ringSize - |sq|, |cq| == 0);
      if toSubmit == 0 && minComplete == 0 { return Ok(0); }
      r := SubmitRequests(toSubmit, pb, leaked, inflight);
    }
  }

  /** Why reaping ended. */
  datatype Exit = Completed(count: nat) | Early(error: string) | Aborted(error: string)

  /** All completions were welcome and are counted; or the loop goes on after an early stop, unless
      the completion it stopped at ends the run or a panic did. */
  ghost predicate ExitFits(cq: seq<Completion>, exit: Exit)
    requires AllContracts(cq)
  {
    var k := WelcomeAhead(cq);
    if k == |cq| then exit == Completed(|cq|)
    else !exit.Completed? && (cq[k].result == -11 ==> exit.Early?) && (EndsTheRun(cq[k]) ==> exit.Aborted?)
  }

  class UringReceiver {
    const receiver: R.Receiver
    const packetBuffer: PacketBuffer
    const ring: IoUringNormal
    var amountInflight: int
    ghost var leaked: multiset<nat>
    ghost var ended: bool

    ghost function Objects(): set<object> {
      {this, receiver, packetBuffer, ring}
    }

    ghost predicate Valid()
      reads Objects(), packetBuffer.buffers
    {
      packetBuffer.Valid() && ring.Valid()
    }

    ghost function State(): RingState
      reads this, packetBuffer, ring
      requires AllContracts(ring.cq)
    {
      ring.View(packetBuffer, leaked, amountInflight).(ended := ended)
    }

    constructor (receiver: R.Receiver, packetBuffer: PacketBuffer, ring: IoUringNormal)
      requires packetBuffer.Valid() && ring.Valid() && Sound(ring.parameter)
      requires ring.sq == [] && ring.cq == [] && ring.kernel == multiset{}
      requires |packetBuffer.buffers| == ring.parameter.bufferSize == packetBuffer.poolCapacity
      requires packetBuffer.indexPool == seq(|packetBuffer.buffers|, i => i)
      ensures Valid() && State() == Initial(ring.parameter.bufferSize)
      ensures Inv(ring.parameter, State())
      ensures this.receiver == receiver && this.packetBuffer == packetBuffer && this.ring == ring
    {
      this.receiver := receiver;
      this.packetBuffer := packetBuffer;
      this.ring := ring;
      amountInflight := 0;
      leaked := multiset{};
      ended := false;
      new;
      InitialInv(ring.parameter);
    }

    /** First half of a loop round. It is a step of the state machine and never fails. */
    method FillHalf() returns (r: Result<nat>)
      requires Valid() && Sound(ring.parameter) && Inv(ring.parameter, State()) && !ended
      modifies `amountInflight, ring`sq, packetBuffer`indexPool, packetBuffer`poolCapacity
      ensures Valid() && r.Ok? && Inv(ring.parameter, State())
      ensures var room := ring.parameter.ringSize - |old(ring.sq)|;
        State() == Step(ring.parameter, old(State()), FillSq(room, old(ring.cq) == [], room))
      ensures
        var p, pool := ring.parameter, old(packetBuffer.indexPool);
        var room := p.ringSize - |old(ring.sq)|;
        var (toSubmit, _) := CalcSqFillMode(PoolInflight(old(State())), p, room, old(ring.cq) == []);
        && r.value == Least(toSubmit, room) && amountInflight == old(amountInflight) + r.value && r.value <= |pool|
        && ring.sq == old(ring.sq) + TopDown(pool, r.value) && packetBuffer.indexPool == pool[..|pool| - r.value]
    {
      hide Fill, Inv, TopDown, CalcSqFillMode, PoolInflight;
      ghost var s := State();
      var inflightPool := packetBuffer.GetPoolInflight();
      ghost var room := ring.parameter.ringSize - |ring.sq|;
      StepKeepsInv(ring.parameter, s, FillSq(room, ring.cq == [], room));
      InvMeansNoFault(ring.parameter, Step(ring.parameter, s, FillSq(room, ring.cq == [], room)));
      FillMoves(ring.parameter, s, ring.cq == []);
      r := ring.FillSqAndSubmit(inflightPool, packetBuffer, leaked, amountInflight);
      amountInflight := amountInflight + r.value;
    }

    /** Handles one completion: parses its result and, if bytes arrived, the message. */
    method HandleCompletion(cqe: Completion, now: real) returns (fate: Fate, panicked: bool)
      requires KernelContract(cqe)
      modifies receiver
      ensures fate == FateOf(cqe) && (panicked ==> fate == StopsEarly && cqe.result >= 0)
      ensures receiver.State() == Handled(old(receiver.State()), cqe, now)
      ensures fate == Returned ==> ParseReceivedBytes(cqe.result) == Ok(1)
    {
      hide GetTestId, GetMessageTypeCode, Chunks, R.TypeOf, R.TallyMessage;
      var parsed := ParseReceivedBytes(cqe.result);
      if parsed.Err? {
        return if parsed.error == "EAGAIN" then StopsEarly else Fatal, false;
      }
      var reply := receiver.RecvMsg(cqe.arrival, now);
      match reply
      case Data => return Returned, false;
      case InitReceived => return Returned, false;
      case LastReceived => return StopsEarly, false;
      case Panics => return StopsEarly, true;
      case TestIdTooBig => return Fatal, false;
    }

    /** Takes the oldest completion off the queue. */
    method PopCqe() returns (cqe: Completion)
      requires Valid() && |ring.cq| > 0
      modifies ring`cq
      ensures Valid() && KernelContract(cqe)
      ensures State() == old(State()).(cq := old(State()).cq[1..])
      ensures Cqe(cqe.index, FateOf(cqe)) == old(State()).cq[0]
      ensures old(ring.cq) == [cqe] + ring.cq
      ensures |ring.cq| == |old(ring.cq)| - 1
    {
      hide FateOf;
      cqe := ring.cq[0];
      ghost var before := State();
      assert KernelContract(cqe);
      ring.cq := ring.cq[1..];
      assert Cqes(ring.cq) == before.cq[1..];
    }

    /** Takes the oldest completion off the queue and handles it. */
    method ReapOne(now: real) returns (cqe: Completion, fate: Fate, panicked: bool)
      requires Valid() && |ring.cq| > 0
      modifies receiver, ring`cq
      ensures Valid() && KernelContract(cqe) && fate == FateOf(cqe)
      ensures panicked ==> fate == StopsEarly && cqe.result >= 0
      ensures State() == old(State()).(cq := old(State()).cq[1..]) && old(State()).cq[0] == Cqe(cqe.index, fate)
      ensures old(ring.cq) == [cqe] + ring.cq
      ensures receiver.State() == Handled(old(receiver.State()), cqe, now)
    {
      hide FateOf, Handled;
      cqe := PopCqe();
      fate, panicked := HandleCompletion(cqe, now);
    }

    /** An early exit: the collected indexes and the one at hand are held by nobody any more. */
    ghost method Drop(collected: seq<nat>, index: nat, fatal: bool)
      requires Valid()
      modifies `leaked, `ended
      ensures Valid()
      ensures State() == old(State()).(leaked := old(leaked) + multiset(collected) + multiset{index},
          ended := old(ended) || fatal)
    {
      leaked := leaked + multiset(collected) + multiset{index};
      ended := ended || fatal;
    }

    method ReturnCollected(collected: seq<nat>)
      requires Valid()
      modifies packetBuffer`indexPool, packetBuffer`poolCapacity
      ensures Valid()
      ensures var s := old(State());
        State() == s.(pool := s.pool + collected, capacity := GrownCapacity(s.capacity, |s.pool + collected|))
    {
      hide GrownCapacity, Cqes;
      packetBuffer.ReturnBufferIndex(collected);
    }

    /** Drains the completion queue. On an early stop the collected indexes are dropped. */
    method CompleteNormal(now: real) returns (exit: Exit)
      requires Valid() && !ended
      modifies receiver, ring`cq, packetBuffer`indexPool, packetBuffer`poolCapacity, `leaked, `ended
      ensures Valid()
      ensures
        var s := Reap(old(State()), []);
        && State().(inflight := s.inflight, fault := s.fault) == s
        && s.inflight == amountInflight - (if exit.Completed? then exit.count else 0)
      ensures receiver.State() == HandledAll(old(receiver.State()), old(ring.cq), now)
      ensures ring.cq == old(ring.cq)[Taken(old(ring.cq))..]
      ensures ExitFits(old(ring.cq), exit)
    {
      hide Underway, ExitFits, FateOf, Cqes, AllContracts, GrownCapacity, Reap, Handled, HandledAll, Taken;
      ghost var s0, r0, all := State(), receiver.State(), ring.cq;
      var collected: seq<nat> := [];
      PassBegins(s0, r0, all, now);
      while |ring.cq| > 0
        invariant Valid() && !ended && amountInflight == old(amountInflight)
        invariant Underway(s0, r0, all, now, State(), receiver.State(), ring.cq, collected)
        decreases |ring.cq|
      {
        OneCompletion(s0, r0, all, now, State(), receiver.State(), ring.cq, collected);
        var cqe, fate, panicked := ReapOne(now);
        match fate {
          case Returned =>
            collected := collected + [cqe.index];
          case StopsEarly =>
            Drop(collected, cqe.index, false);
            return if panicked then Aborted("panic") else Early("");
          case Fatal =>
            Drop(collected, cqe.index, true);
            return Aborted("");
        }
      }
      PassEnds(s0, r0, all, now, State(), receiver.State(), ring.cq, collected);
      ReturnCollected(collected);
      exit := Completed(|collected|);
    }

    /** Second half of a loop round: an early stop leaves the counter as it is. */
    method ReapHalf(now: real) returns (exit: Exit)
      requires Valid() && Sound(ring.parameter) && Inv(ring.parameter, State()) && !ended
      modifies this, receiver, ring`cq, packetBuffer`indexPool, packetBuffer`poolCapacity
      ensures Valid() && Inv(ring.parameter, State())
      ensures State() == Step(ring.parameter, old(State()), ReapCq)
      ensures receiver.State() == HandledAll(old(receiver.State()), old(ring.cq), now)
      ensures ring.cq == old(ring.cq)[Taken(old(ring.cq))..]
      ensures
        var cq := old(ring.cq);
        var k := WelcomeAhead(cq);
        if k == |cq| then
          && ring.cq == [] && packetBuffer.indexPool == old(packetBuffer.indexPool) + BufferIndexes(cq)
          && leaked == old(leaked) && amountInflight == old(amountInflight) - |cq| && !ended
        else
          && ring.cq == cq[k + 1..] && packetBuffer.indexPool == old(packetBuffer.indexPool)
          && leaked == old(leaked) + multiset(BufferIndexes(cq[..k + 1]))
          && amountInflight == old(amountInflight) && ended == EndsTheRun(cq[k])
      ensures ExitFits(old(ring.cq), exit)
    {
      hide Reap, Step, Inv, HandledAll, Cqes, AllContracts, KernelContract, WelcomeAhead, BufferIndexes;
      hide Taken, ExitFits;
      ghost var s := State();
      ClosedFormOfStep(ring.parameter, s, ring.cq);
      StepKeepsInv(ring.parameter, s, ReapCq);
      InvMeansNoFault(ring.parameter, Step(ring.parameter, s, ReapCq));
      exit := CompleteNormal(now);
      if exit.Completed? { amountInflight := amountInflight - exit.count; }
    }
  }

  // One pass over the queue

  /** A pass over `all` from the states `s0` and `r0` has brought ring and receiver to `s` and `r`,
      with `cq` still to come, every buffer so far collected and nothing else changed. */
  ghost predicate Underway(s0: RingState, r0: R.ReceiverState, all: seq<Completion>, now: real, s: RingState,
                           r: R.ReceiverState, cq: seq<Completion>, collected: seq<nat>) {
    && AllContracts(all) && AllContracts(cq) && s.cq == Cqes(cq)
    && |collected| <= |all| && cq == all[|collected|..]
    && Reap(s, collected) == Reap(s0, []) && HandledAll(r, cq, now) == HandledAll(r0, all, now)
    && Taken(all) == |collected| + Taken(cq) && WelcomeAhead(all) == |collected| + WelcomeAhead(cq)
  }

  lemma PassBegins(s0: RingState, r0: R.ReceiverState, all: seq<Completion>, now: real)
    requires AllContracts(all) && s0.cq == Cqes(all)
    ensures Underway(s0, r0, all, now, s0, r0, all, [])
  {
    hide AllContracts, Cqes, Reap, HandledAll, Taken, WelcomeAhead;
  }

  lemma OneCompletion(s0: RingState, r0: R.ReceiverState, all: seq<Completion>, now: real, s: RingState,
                      r: R.ReceiverState, cq: seq<Completion>, collected: seq<nat>)
    requires Underway(s0, r0, all, now, s, r, cq, collected) && |cq| > 0
    ensures KernelContract(cq[0])
    ensures
      var c, rest := cq[0], s.(cq := s.cq[1..]);
      var r' := Handled(r, c, now);
      if FateOf(c) == Returned then Underway(s0, r0, all, now, rest, r', cq[1..], collected + [c.index])
      else
        && Reap(s0, []) == rest.(leaked := s.leaked + multiset(collected) + multiset{c.index},
                                 ended := s.ended || FateOf(c) == Fatal)
        && HandledAll(r0, all, now) == r' && AllContracts(all) && Taken(all) <= |all| && cq[1..] == all[Taken(all)..]
        && (if FateOf(c) == Fatal then ExitFits(all, Aborted(""))
            else ExitFits(all, Early("")) && (c.result >= 0 ==> ExitFits(all, Aborted("panic"))))
  {
    hide FateOf, Welcome, EndsTheRun, KernelContract, GrownCapacity, Reap, Handled;
    FateOfFirst(cq);
    assert KernelContract(cq[0]);
    var k := |collected|;
    assert all[k] == cq[0] && all[k + 1..] == cq[1..];
    assert Cqes(cq[1..]) == s.cq[1..];
    ReapUnfolds(s, collected);
    FatalIsNotEagain(cq[0]);
  }

  lemma FatalIsNotEagain(c: Completion)
    requires R.WellFormed(c.arrival)
    ensures EndsTheRun(c) ==> c.result != -11
  {
  }

  lemma PassEnds(s0: RingState, r0: R.ReceiverState, all: seq<Completion>, now: real, s: RingState,
                 r: R.ReceiverState, cq: seq<Completion>, collected: seq<nat>)
    requires Underway(s0, r0, all, now, s, r, cq, collected) && |cq| == 0
    ensures
      var s' := s.(pool := s.pool + collected, capacity := GrownCapacity(s.capacity, |s.pool + collected|));
      Reap(s0, []) == s'.(inflight := s.inflight - |collected|, fault := s.fault || s.inflight < |collected|)
    ensures AllContracts(all) && HandledAll(r0, all, now) == r && cq == all[Taken(all)..]
    ensures ExitFits(all, Completed(|collected|))
  {
    hide Reap, GrownCapacity;
    ReapUnfolds(s, collected);
  }

  lemma ReapUnfolds(s: RingState, collected: seq<nat>)
    ensures |s.cq| == 0 ==>
      var s' := s.(pool := s.pool + collected, capacity := GrownCapacity(s.capacity, |s.pool + collected|));
      Reap(s, collected) == s'.(inflight := s.inflight - |collected|, fault := s.fault || s.inflight < |collected|)
    ensures |s.cq| > 0 ==>
      var head, rest := s.cq[0], s.(cq := s.cq[1..]);
      var dropped := rest.(leaked := s.leaked + multiset(collected) + multiset{head.index});
      Reap(s, collected) == match head.fate
        case Returned => Reap(rest, collected + [head.index])
        case StopsEarly => dropped
        case Fatal => dropped.(ended := true)
  {
  }

  lemma FillMoves(p: UringParameter, s: RingState, cqEmpty: bool)
    requires Sound(p) && Inv(p, s) && !s.ended && |s.sq| <= p.ringSize
    ensures
      var room := p.ringSize - |s.sq|;
      var t := Step(p, s, FillSq(room, cqEmpty, room));
      var (toSubmit, _) := CalcSqFillMode(PoolInflight(s), p, room, cqEmpty);
      var n := Least(toSubmit, room);
      && n <= |s.pool| && t.pool == s.pool[..|s.pool| - n] && t.sq == s.sq + TopDown(s.pool, n)
      && t.inflight == s.inflight + n
  {
    hide Owned, Fill, TopDown, CalcSqFillMode, PoolInflight, KernelHeld, Inv;
    InvMeansNoFault(p, s);
    FillMovesExactly(p, s, p.ringSize - |s.sq|, cqEmpty, p.ringSize - |s.sq|);
  }

  lemma InvMeansNoFault(p: UringParameter, s: RingState)
    requires Inv(p, s)
    ensures !s.fault
  {
  }
}
