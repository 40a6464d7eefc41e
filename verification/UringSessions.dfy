/** A whole measurement over the Normal-mode receive ring, across passes, early stops and interval
    ends: it is a measurement that receives the same messages one by one. */
module UringSessions {
  import opened Wire
  import opened Counters
  import opened RecvRing
  import opened UringReceivers
  import R = Receivers

  /** The completions the kernel posts before a pass over the queue, or an interval end. */
  datatype RingInput = Pass(posted: seq<Completion>, now: real) | IntervalEnds

  /** `queue` are the completions not reaped yet, `over` whether the loop has ended. */
  datatype RingSession = RingSession(state: R.ReceiverState, past: Counts, queue: seq<Completion>, over: bool)

  const NEW_SESSION: RingSession := RingSession(R.NEW_SESSION.state, NO_COUNTS, [], false)

  ghost predicate InputsHonoured(inputs: seq<RingInput>) {
    forall i {:trigger inputs[i]} :: 0 <= i < |inputs| ==> inputs[i].Pass? ==> AllContracts(inputs[i].posted)
  }

  /** The completion ends the loop: a fatal error, or a message after which the loop stops. */
  ghost predicate EndsLoop(s: R.ReceiverState, c: Completion, now: real)
    requires KernelContract(c)
  {
    var (s', reply) := R.HandleMessage(s, c.arrival, now);
    if c.result >= 0 then R.Stops(s', reply) else FateOf(c) == Fatal
  }

  ghost predicate PassEndsLoop(s: R.ReceiverState, cq: seq<Completion>, now: real)
    requires AllContracts(cq)
    decreases |cq|
  {
    if |cq| == 0 then false
    else if FateOf(cq[0]) == Returned then PassEndsLoop(Handled(s, cq[0], now), cq[1..], now)
    else EndsLoop(s, cq[0], now)
  }

  /** One pass over the queue handles what `UringReceiver.ReapHalf` handles, and leaves what it
      leaves. */
  ghost function RingStep(x: RingSession, e: RingInput): RingSession
    requires AllContracts(x.queue) && (e.Pass? ==> AllContracts(e.posted))
  {
    if x.over then x
    else match e
      case IntervalEnds =>
        x.(state := x.state.(ms := R.ResetCounts(x.state.ms)), past := x.past.Plus(R.SumOf(x.state.ms)))
      case Pass(posted, now) =>
        var cq := x.queue + posted;
        RingSession(HandledAll(x.state, cq, now), x.past, cq[Taken(cq)..], PassEndsLoop(x.state, cq, now))
  }

  ghost function RingAfter(inputs: seq<RingInput>): (x: RingSession)
    requires InputsHonoured(inputs)
    ensures AllContracts(x.queue)
  {
    if |inputs| == 0 then NEW_SESSION
    else
      var before := RingAfter(inputs[..|inputs| - 1]);
      var e := inputs[|inputs| - 1];
      StepHonours(before, e);
      RingStep(before, e)
  }

  lemma StepHonours(x: RingSession, e: RingInput)
    requires AllContracts(x.queue) && (e.Pass? ==> AllContracts(e.posted))
    ensures AllContracts(RingStep(x, e).queue)
  {
    hide KernelContract, HandledAll;
  }

  // The messages of a pass

  /** The messages of these completions, in order; errors carry none. */
  function Messages(cq: seq<Completion>, now: real): seq<R.Input> {
    if |cq| == 0 then []
    else (if cq[0].result >= 0 then [R.Message(cq[0].arrival, now)] else []) + Messages(cq[1..], now)
  }

  /** All messages and interval ends of a measurement, in order. */
  ghost function Received(inputs: seq<RingInput>): seq<R.Input>
    requires InputsHonoured(inputs)
  {
    if |inputs| == 0 then []
    else
      var front, e := inputs[..|inputs| - 1], inputs[|inputs| - 1];
      var x := RingAfter(front);
      if x.over then Received(front)
      else match e
        case IntervalEnds => Received(front) + [R.IntervalEnds]
        case Pass(posted, now) =>
          var cq := x.queue + posted;
          Received(front) + Messages(cq[..Taken(cq)], now)
  }

  /** One of the completions reports an error other than "nothing there". */
  predicate SomeFailed(cq: seq<Completion>) {
    |cq| > 0 && ((cq[0].result < 0 && cq[0].result != -11) || SomeFailed(cq[1..]))
  }

  /** Some pass of the measurement took a completion with such an error off the queue. */
  ghost predicate KernelFailed(inputs: seq<RingInput>)
    requires InputsHonoured(inputs)
  {
    if |inputs| == 0 then false
    else
      var front, e := inputs[..|inputs| - 1], inputs[|inputs| - 1];
      var x := RingAfter(front);
      KernelFailed(front) || (!x.over && e.Pass? &&
        var cq := x.queue + e.posted;
        SomeFailed(cq[..Taken(cq)]))
  }

  /** A session that goes on with these inputs. */
  ghost function GoesOn(x: R.Session, inputs: seq<R.Input>): R.Session
    requires R.InputsWellFormed(inputs)
    decreases |inputs|
  {
    if |inputs| == 0 then x else GoesOn(R.SessionStep(x, inputs[0]), inputs[1..])
  }

  lemma {:induction false} GoesOnAfter(a: seq<R.Input>, b: seq<R.Input>)
    requires R.InputsWellFormed(a) && R.InputsWellFormed(b)
    ensures R.InputsWellFormed(a + b) && R.SessionAfter(a + b) == GoesOn(R.SessionAfter(a), b)
    decreases |b|
  {
    hide R.SessionStep, R.WellFormed;
    if |b| == 0 {
      assert a + b == a;
    } else {
      var one := a + [b[0]];
      assert one[..|a|] == a && a + b == one + b[1..];
      assert R.InputsWellFormed(one);
      GoesOnAfter(one, b[1..]);
    }
  }

  lemma {:induction false} MessagesWellFormed(cq: seq<Completion>, now: real)
    requires AllContracts(cq)
    ensures R.InputsWellFormed(Messages(cq, now))
  {
    hide R.WellFormed;
    if |cq| == 0 {
    } else {
      assert KernelContract(cq[0]);
      MessagesWellFormed(cq[1..], now);
    }
  }

  lemma NoMore(x: R.Session, now: real)
    ensures Messages([], now) == [] && R.InputsWellFormed([]) && GoesOn(x, []) == x
  {
  }

  /** A pass over the queue is the single receives of the messages it takes off. */
  lemma {:induction false} PassIsMessages(x: R.Session, cq: seq<Completion>, now: real)
    requires AllContracts(cq) && !x.over
    ensures R.InputsWellFormed(Messages(cq[..Taken(cq)], now))
    ensures
      var y := GoesOn(x, Messages(cq[..Taken(cq)], now));
      && y.state == HandledAll(x.state, cq, now) && y.past == x.past
      && (PassEndsLoop(x.state, cq, now) <==> y.over || SomeFailed(cq[..Taken(cq)]))
    decreases |cq|
  {
    MessagesWellFormed(cq[..Taken(cq)], now);
    NoMore(x, now);
    if |cq| == 0 {
      assert |cq[..Taken(cq)]| == 0;
    } else {
      var c := cq[0];
      assert KernelContract(c);
      var taken := cq[..Taken(cq)];
      if FateOf(c) == Returned {
        assert taken[1..] == cq[1..][..Taken(cq[1..])];
        ReturnedIsMessage(x, c, now);
        hide FateOf, Handled, R.SessionStep;
        PassIsMessages(R.SessionStep(x, R.Message(c.arrival, now)), cq[1..], now);
        assert Messages(taken, now) == [R.Message(c.arrival, now)] + Messages(taken[1..], now);
        FirstMessage(x, R.Message(c.arrival, now), Messages(taken[1..], now));
      } else {
        assert taken == [c] && |taken[1..]| == 0;
        StopIsMessage(x, c, now);
        if c.result >= 0 {
          hide FateOf, Handled, R.SessionStep;
          assert Messages(taken, now) == [R.Message(c.arrival, now)];
          NoMore(R.SessionStep(x, R.Message(c.arrival, now)), now);
          FirstMessage(x, R.Message(c.arrival, now), []);
        }
      }
    }
  }

  lemma FirstMessage(x: R.Session, e: R.Input, rest: seq<R.Input>)
    requires R.InputsWellFormed(rest) && (e.Message? ==> R.WellFormed(e.arrival))
    ensures R.InputsWellFormed([e] + rest) && GoesOn(x, [e] + rest) == GoesOn(R.SessionStep(x, e), rest)
  {
    hide R.WellFormed, R.SessionStep;
    assert ([e] + rest)[1..] == rest;
  }

  lemma ReturnedIsMessage(x: R.Session, c: Completion, now: real)
    requires KernelContract(c) && !x.over && FateOf(c) == Returned
    ensures c.result >= 0
    ensures
      var y := R.SessionStep(x, R.Message(c.arrival, now));
      y.state == Handled(x.state, c, now) && y.past == x.past && !y.over
  {
    hide R.HandleMessage, R.TypeOf, GetTestId;
    ReturnedNeverStops(x.state, c, now);
  }

  lemma StopIsMessage(x: R.Session, c: Completion, now: real)
    requires KernelContract(c) && !x.over && FateOf(c) != Returned
    ensures c.result >= 0 ==>
      var y := R.SessionStep(x, R.Message(c.arrival, now));
      y.state == Handled(x.state, c, now) && y.past == x.past && (y.over <==> EndsLoop(x.state, c, now))
    ensures c.result < 0 ==> Handled(x.state, c, now) == x.state && (EndsLoop(x.state, c, now) <==> c.result != -11)
  {
    hide R.HandleMessage, R.TypeOf, GetTestId;
  }

  /** Over every measurement on the ring, whatever completes when, wherever passes stop early and
      intervals end: expected id, measurements and reports are those of receiving the same messages
      one by one in the order of completion. The loop ends when that measurement does, and otherwise
      exactly when a pass meets an error other than "nothing there". */
  lemma {:induction false} RingSessionIsSession(inputs: seq<RingInput>)
    requires InputsHonoured(inputs)
    ensures R.InputsWellFormed(Received(inputs))
    ensures
      var x, y := RingAfter(inputs), R.SessionAfter(Received(inputs));
      x.state == y.state && x.past == y.past && (x.over <==> y.over || KernelFailed(inputs))
  {
    hide RingStep, AllContracts, HandledAll, Taken, PassEndsLoop;
    if |inputs| == 0 {
    } else {
      var front, e := inputs[..|inputs| - 1], inputs[|inputs| - 1];
      RingSessionIsSession(front);
      var x, y := RingAfter(front), R.SessionAfter(Received(front));
      if x.over {
        StaysOver(x, e);
      } else {
        OneRingStep(x, y, e);
        match e {
          case IntervalEnds => GoesOnAfter(Received(front), [R.IntervalEnds]);
          case Pass(posted, now) =>
            var cq := x.queue + posted;
            BothHonoured(x.queue, posted);
            PassIsMessages(y, cq, now);
            GoesOnAfter(Received(front), Messages(cq[..Taken(cq)], now));
        }
      }
    }
  }

  lemma BothHonoured(a: seq<Completion>, b: seq<Completion>)
    requires AllContracts(a) && AllContracts(b)
    ensures AllContracts(a + b)
  {
    hide KernelContract;
  }

  lemma StaysOver(x: RingSession, e: RingInput)
    requires x.over && AllContracts(x.queue) && (e.Pass? ==> AllContracts(e.posted))
    ensures RingStep(x, e) == x
  {
  }

  lemma OneRingStep(x: RingSession, y: R.Session, e: RingInput)
    requires x.state == y.state && x.past == y.past && !x.over && !y.over
    requires AllContracts(x.queue) && (e.Pass? ==> AllContracts(e.posted))
    ensures e.IntervalEnds? ==>
      var x', y' := RingStep(x, e), GoesOn(y, [R.IntervalEnds]);
      x'.state == y'.state && x'.past == y'.past && !x'.over && !y'.over
    ensures e.Pass? ==>
      var cq := x.queue + e.posted;
      && AllContracts(cq) && RingStep(x, e).state == HandledAll(x.state, cq, e.now) && RingStep(x, e).past == x.past
      && RingStep(x, e).over == PassEndsLoop(x.state, cq, e.now)
  {
    hide KernelContract, HandledAll, PassEndsLoop;
    if e.IntervalEnds? {
      var one := [R.IntervalEnds];
      assert |one[1..]| == 0;
    }
  }
}
