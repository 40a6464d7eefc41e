/** The sender on an io_uring instance: submission, completion handling and the two halves of the
    send loop, in Normal and in zero-copy mode, proved to be steps of the state machine. */
module UringSenders {
  import opened Wrappers
  import opened Datagrams
  import opened Counters
  import opened PacketBuffers
  import opened FillMode
  import opened SendRing

  const EAGAIN: int := -11
  const ZC_COPIED: int := -0x8000_0000

  /** A completion queue entry of a send request for buffer `index`. */
  datatype Completion = Completion(index: nat, result: int, more: bool, notif: bool)

  /** A notification carries no bytes and comes last. The result of a zero-copy request, whose
      messages are never empty, is positive or an error. */
  predicate KernelContract(zc: bool, e: Completion) {
    zc ==> (e.notif <==> e.result == 0 || e.result == ZC_COPIED) && (e.notif ==> !e.more)
  }

  function CqeOf(zc: bool, e: Completion): (r: Cqe)
    ensures r.index == e.index
  {
    if e.result == EAGAIN then Again(e.index)
    else if zc && (e.result == 0 || e.result == ZC_COPIED) then Notif(e.index, e.result == ZC_COPIED)
    else if e.result < 0 then Failed(e.index)
    else Sent(e.index, e.result)
  }

  function Cqes(zc: bool, cq: seq<Completion>): (r: seq<Cqe>)
    ensures |r| == |cq|
  {
    if |cq| == 0 then [] else [CqeOf(zc, cq[0])] + Cqes(zc, cq[1..])
  }

  // What a pass over the completion queue does, read off the fields of the completions

  /** Any error but "no room", and in zero copy but a notification that the data was copied. */
  predicate EndsTheRun(zc: bool, e: Completion) {
    e.result < 0 && e.result != -11 && !(zc && e.result == -2147483648)
  }

  /** A message was sent. In zero copy the result 0 belongs to the notification. */
  predicate IsMessage(zc: bool, e: Completion) {
    if zc then e.result > 0 else e.result >= 0
  }

  /** The number of completions before the first that ends the run. */
  function GoodAhead(zc: bool, cq: seq<Completion>): (k: nat)
    ensures k <= |cq| && forall i :: 0 <= i < k ==> !EndsTheRun(zc, cq[i])
    ensures k < |cq| ==> EndsTheRun(zc, cq[k])
  {
    if |cq| == 0 || EndsTheRun(zc, cq[0]) then 0 else 1 + GoodAhead(zc, cq[1..])
  }

  function Refusals(cq: seq<Completion>): nat {
    if |cq| == 0 then 0 else Refusals(cq[1..]) + if cq[0].result == -11 then 1 else 0
  }

  function Messages(zc: bool, cq: seq<Completion>): nat {
    if |cq| == 0 then 0 else Messages(zc, cq[1..]) + if IsMessage(zc, cq[0]) then 1 else 0
  }

  function MessageBytes(zc: bool, cq: seq<Completion>): nat {
    if |cq| == 0 then 0 else MessageBytes(zc, cq[1..]) + if IsMessage(zc, cq[0]) then cq[0].result else 0
  }

  function Notifications(cq: seq<Completion>): nat {
    if |cq| == 0 then 0 else Notifications(cq[1..]) + if cq[0].notif then 1 else 0
  }

  function Copies(cq: seq<Completion>): nat {
    if |cq| == 0 then 0
    else Copies(cq[1..]) + if cq[0].notif && cq[0].result == -2147483648 then 1 else 0
  }

  /** Zero copy: the buffers of the refusals and the notifications, in the order of the queue. */
  function Freed(cq: seq<Completion>): seq<nat> {
    if |cq| == 0 then []
    else (if cq[0].result == -11 || cq[0].notif then [cq[0].index] else []) + Freed(cq[1..])
  }

  /** p packets are omitted by a refusal and counted by a message, with the bytes it reports. */
  function Counted(zc: bool, p: nat, k: Counts, cq: seq<Completion>): Counts {
    k.(omitted := k.omitted + Refusals(cq) * p,
       datagrams := k.datagrams + Messages(zc, cq) * p,
       dataBytes := k.dataBytes + MessageBytes(zc, cq),
       copiedZc := k.copiedZc + if zc then Copies(cq) else 0)
  }

  /** A pass without fatal completion counts all of them, empties the queue, hands back the buffers
      that came free and lowers the counter by the completed requests. A fatal one ends the run: what
      came before it is counted, nothing is handed back. */
  ghost predicate PassLeaves(c: Config, s: SendState, cq: seq<Completion>, collected: seq<nat>, completed: nat,
                             s': SendState) {
    PassCounts(c, s, cq, s') && PassHandsBack(c, s, cq, collected, completed, s')
  }

  ghost predicate PassCounts(c: Config, s: SendState, cq: seq<Completion>, s': SendState) {
    var k := GoodAhead(c.Zc(), cq);
    && s'.statistic == Counted(c.Zc(), c.p, s.statistic, cq[..k]) && s'.again == s.again + Refusals(cq[..k])
    && s'.ended == (s.ended || k < |cq|)
  }

  ghost predicate PassHandsBack(c: Config, s: SendState, cq: seq<Completion>, collected: seq<nat>, completed: nat,
                                s': SendState) {
    var zc := c.Zc();
    var k := GoodAhead(zc, cq);
    if k == |cq| then
      && |s'.cq| == 0 && s'.pool == s.pool + (collected + if zc then Freed(cq) else []) && s'.leaked == s.leaked
      && s'.inflight == s.inflight - completed - if zc then Notifications(cq) else Messages(zc, cq)
    else
      && s'.cq == Cqes(zc, cq[k + 1..]) && s'.pool == s.pool && s'.inflight == s.inflight
      && s'.leaked == s.leaked +
          if zc then multiset(collected + Freed(cq[..k])) + multiset{cq[k].index} else multiset(collected)
  }

  ghost predicate Contracts(zc: bool, cq: seq<Completion>) {
    forall i {:trigger cq[i]} :: 0 <= i < |cq| ==> KernelContract(zc, cq[i])
  }

  lemma {:induction false} PassInClosedForm(c: Config, s: SendState, cq: seq<Completion>, collected: seq<nat>,
                                            completed: nat)
    requires Contracts(c.Zc(), cq) && s.cq == Cqes(c.Zc(), cq)
    ensures PassLeaves(c, s, cq, collected, completed, Reap(c, s, collected, completed))
    decreases |cq|
  {
    hide PassLeaves, Reap, ReapOne, KernelContract, EndsTheRun, CqeOf, GivesBack, Completes, GrownCapacity;
    ReapUnfolds(c, s, collected, completed);
    if |cq| == 0 {
      NothingToReap(c, s, cq, collected, completed);
    } else {
      var e, zc := cq[0], c.Zc();
      assert KernelContract(zc, e);
      CqeMeans(c, s, e);
      if EndsTheRun(zc, e) {
        EndsAtFirst(c, s, cq, collected, completed);
      } else {
        ReapOneTakes(c, s, cq);
        var collected' := if GivesBack(c, CqeOf(zc, e)) then collected + [e.index] else collected;
        var completed' := if Completes(c, CqeOf(zc, e)) then completed + 1 else completed;
        PassInClosedForm(c, ReapOne(c, s), cq[1..], collected', completed');
        OneMoreGood(c, s, ReapOne(c, s), cq, collected, completed, Reap(c, s, collected, completed));
      }
    }
  }

  /** What the code makes of one completion. */
  lemma {:induction false} CqeMeans(c: Config, s: SendState, e: Completion)
    requires KernelContract(c.Zc(), e)
    ensures
      var zc, cqe := c.Zc(), CqeOf(c.Zc(), e);
      && (cqe.Failed? <==> EndsTheRun(zc, e))
      && (GivesBack(c, cqe) <==> zc && (e.result == -11 || e.notif))
      && (Completes(c, cqe) <==> if zc then e.notif else IsMessage(zc, e))
      && (cqe.Again? <==> e.result == -11)
    ensures Tallied(c, s.statistic, CqeOf(c.Zc(), e)) ==
        Counted(c.Zc(), c.p, s.statistic, if EndsTheRun(c.Zc(), e) then [] else [e])
  {
    OneCounted(c.Zc(), e);
  }

  lemma {:induction false} OneCounted(zc: bool, e: Completion)
    ensures Refusals([]) == Messages(zc, []) == Copies([]) == MessageBytes(zc, []) == 0
    ensures Refusals([e]) == if e.result == -11 then 1 else 0
    ensures Messages(zc, [e]) == if IsMessage(zc, e) then 1 else 0
    ensures MessageBytes(zc, [e]) == if IsMessage(zc, e) then e.result else 0
    ensures Copies([e]) == if e.notif && e.result == -2147483648 then 1 else 0
  {
    assert [e][1..] == [];
  }

  lemma {:induction false} ReapOneTakes(c: Config, s: SendState, cq: seq<Completion>)
    requires |cq| > 0 && s.cq == Cqes(c.Zc(), cq) && KernelContract(c.Zc(), cq[0])
    ensures
      var s', zc := ReapOne(c, s), c.Zc();
      var first := if EndsTheRun(zc, cq[0]) then [] else cq[..1];
      && s' == s.(cq := Cqes(zc, cq[1..]), statistic := s'.statistic, again := s.again + Refusals(first))
      && s'.statistic == Counted(zc, c.p, s.statistic, first)
  {
    hide CqeOf, Tallied, Counted, EndsTheRun, KernelContract;
    CqeMeans(c, s, cq[0]);
    NoRefusal(c.Zc(), cq[0]);
    assert cq[..1] == [cq[0]];
  }

  lemma NoRefusal(zc: bool, e: Completion)
    ensures EndsTheRun(zc, e) ==> e.result != -11
    ensures Refusals([]) == 0 && Refusals([e]) == if e.result == -11 then 1 else 0
  {
    assert [e][1..] == [];
  }

  lemma {:induction false} NothingToReap(c: Config, s: SendState, cq: seq<Completion>, collected: seq<nat>,
                                         completed: nat)
    requires |s.cq| == |cq| == 0
    ensures PassLeaves(c, s, cq, collected, completed, Reap(c, s, collected, completed))
  {
    hide GrownCapacity;
    assert collected + [] == collected;
  }

  lemma {:induction false} EndsAtFirst(c: Config, s: SendState, cq: seq<Completion>, collected: seq<nat>,
                                       completed: nat)
    requires |cq| > 0 && s.cq == Cqes(c.Zc(), cq) && KernelContract(c.Zc(), cq[0]) && EndsTheRun(c.Zc(), cq[0])
    requires CqeOf(c.Zc(), cq[0]).Failed?
    ensures PassLeaves(c, s, cq, collected, completed, Reap(c, s, collected, completed))
  {
    hide Reap, ReapOne, KernelContract, EndsTheRun, CqeOf, GrownCapacity;
    ReapUnfolds(c, s, collected, completed);
    ReapOneTakes(c, s, cq);
    assert cq[..0] == [] && collected + [] == collected;
  }

  /** A completion ahead of a pass that does not end it adds its own share. */
  lemma {:induction false} OneMoreGood(c: Config, s: SendState, next: SendState, cq: seq<Completion>,
                                       collected: seq<nat>, completed: nat, s': SendState)
    requires |cq| > 0 && !EndsTheRun(c.Zc(), cq[0])
    requires next == s.(cq := next.cq, statistic := next.statistic, again := s.again + Refusals(cq[..1]))
    requires next.statistic == Counted(c.Zc(), c.p, s.statistic, cq[..1])
    requires
      var e, zc := cq[0], c.Zc();
      PassLeaves(c, next, cq[1..], if zc && (e.result == -11 || e.notif) then collected + [e.index] else collected,
                 if (if zc then e.notif else IsMessage(zc, e)) then completed + 1 else completed, s')
    ensures PassLeaves(c, s, cq, collected, completed, s')
  {
    hide PassCounts, PassHandsBack, EndsTheRun, Counted, IsMessage;
    OneMoreCounts(c, s, next, cq, s');
    OneMoreHandsBack(c, s, next, cq, collected, completed, s');
  }

  lemma {:induction false} OneMoreCounts(c: Config, s: SendState, next: SendState, cq: seq<Completion>, s': SendState)
    requires |cq| > 0 && !EndsTheRun(c.Zc(), cq[0])
    requires next.again == s.again + Refusals(cq[..1]) && next.ended == s.ended
    requires next.statistic == Counted(c.Zc(), c.p, s.statistic, cq[..1])
    requires PassCounts(c, next, cq[1..], s')
    ensures PassCounts(c, s, cq, s')
  {
    hide EndsTheRun, Counted, Messages, Refusals, GoodAhead;
    var k := GoodAhead(c.Zc(), cq[1..]);
    var good := cq[..k + 1];
    OneFurther(c.Zc(), cq);
    assert good[1..] == cq[1..][..k] && good[..1] == cq[..1];
    CountsGain(c.Zc(), c.p, s.statistic, good);
  }

  lemma {:induction false} OneMoreHandsBack(c: Config, s: SendState, next: SendState, cq: seq<Completion>,
                                            collected: seq<nat>, completed: nat, s': SendState)
    requires |cq| > 0 && !EndsTheRun(c.Zc(), cq[0])
    requires next.pool == s.pool && next.leaked == s.leaked && next.inflight == s.inflight
    requires
      var e, zc := cq[0], c.Zc();
      PassHandsBack(c, next, cq[1..],
                    if zc && (e.result == -11 || e.notif) then collected + [e.index] else collected,
                    if (if zc then e.notif else IsMessage(zc, e)) then completed + 1 else completed, s')
    ensures PassHandsBack(c, s, cq, collected, completed, s')
  {
    hide EndsTheRun, Cqes, Messages, Refusals, Notifications, Freed, GoodAhead, IsMessage, Counted;
    var zc, k := c.Zc(), GoodAhead(c.Zc(), cq[1..]);
    OneFurther(zc, cq);
    CountsGain(zc, c.p, s.statistic, cq);
    FreedGain(zc, cq[..k + 1], collected);
    assert cq[..k + 1][1..] == cq[1..][..k];
  }

  lemma {:induction false} OneFurther(zc: bool, cq: seq<Completion>)
    requires |cq| > 0 && !EndsTheRun(zc, cq[0])
    ensures
      var rest, k := cq[1..], GoodAhead(zc, cq[1..]);
      && GoodAhead(zc, cq) == k + 1
      && (if k == |rest| then cq[..k + 1] == cq && rest[..k] == rest
          else rest[k] == cq[k + 1] && rest[k + 1..] == cq[k + 2..])
  {
  }

  lemma {:induction false} CountsGain(zc: bool, p: nat, k: Counts, cq: seq<Completion>)
    requires |cq| > 0
    ensures Counted(zc, p, Counted(zc, p, k, cq[..1]), cq[1..]) == Counted(zc, p, k, cq)
    ensures Messages(zc, cq) == Messages(zc, cq[1..]) + if IsMessage(zc, cq[0]) then 1 else 0
    ensures Refusals(cq) == Refusals(cq[1..]) + Refusals(cq[..1])
    ensures Notifications(cq) == Notifications(cq[1..]) + if cq[0].notif then 1 else 0
  {
    hide IsMessage;
    var e, rest := cq[0], cq[1..];
    assert cq[..1] == [e];
    OneCounted(zc, e);
    Distributes(Refusals([e]), Refusals(rest), p);
    Distributes(Messages(zc, [e]), Messages(zc, rest), p);
  }

  lemma Distributes(a: nat, b: nat, p: nat)
    ensures (a + b) * p == a * p + b * p
  {
  }

  lemma {:induction false} FreedGain(zc: bool, cq: seq<Completion>, collected: seq<nat>)
    requires |cq| > 0
    ensures cq[0].result == -11 || cq[0].notif ==>
        collected + [cq[0].index] + Freed(cq[1..]) == collected + Freed(cq)
    ensures !(cq[0].result == -11 || cq[0].notif) ==> Freed(cq[1..]) == Freed(cq)
  {
  }

  /** The queue after a pass. */
  function LeftOver(zc: bool, cq: seq<Completion>): seq<Completion> {
    var k := GoodAhead(zc, cq);
    if k == |cq| then [] else cq[k + 1..]
  }

  function ErrorText(result: int): string {
    if result == -111 then "Start the receiver first! Abort measurement..." else "Failed to receive data!"
  }

  ghost predicate AnswerFits(zc: bool, cq: seq<Completion>, r: Result<nat>) {
    var k := GoodAhead(zc, cq);
    if k == |cq| then r.Ok? else r == Err(ErrorText(cq[k].result))
  }

  // One pass over the queue

  /** A pass over `all` has brought the state from `s0` to `s`, with `cq` still to come. */
  ghost predicate Underway(c: Config, s0: SendState, all: seq<Completion>, s: SendState, cq: seq<Completion>,
                           collected: seq<nat>, completed: nat) {
    && Contracts(c.Zc(), all) && Contracts(c.Zc(), cq) && s.cq == Cqes(c.Zc(), cq)
    && |cq| <= |all| && cq == all[|all| - |cq|..]
    && Reap(c, s, collected, completed) == Reap(c, s0, [], 0)
    && GoodAhead(c.Zc(), all) == |all| - |cq| + GoodAhead(c.Zc(), cq)
  }

  lemma {:induction false} PassBegins(c: Config, s0: SendState, all: seq<Completion>)
    requires Contracts(c.Zc(), all) && s0.cq == Cqes(c.Zc(), all)
    ensures Underway(c, s0, all, s0, all, [], 0)
  {
    hide Reap, Cqes, Contracts, GoodAhead;
  }

  lemma {:induction false} OneCompletion(c: Config, s0: SendState, all: seq<Completion>, s: SendState,
                                         cq: seq<Completion>, collected: seq<nat>, completed: nat)
    requires Underway(c, s0, all, s, cq, collected, completed) && |cq| > 0
    ensures KernelContract(c.Zc(), cq[0])
    ensures |s.cq| > 0 && s.cq[0] == CqeOf(c.Zc(), cq[0]) && s.cq[1..] == Cqes(c.Zc(), cq[1..])
    ensures
      var e, next := s.cq[0], ReapOne(c, s);
      if e.Failed? then
        && Reap(c, s0, [], 0) == next.(leaked := s.leaked + multiset(collected) +
            (if c.Zc() then multiset{e.index} else multiset{}), ended := true)
        && LeftOver(c.Zc(), all) == cq[1..] && AnswerFits(c.Zc(), all, Err(ErrorText(cq[0].result)))
      else Underway(c, s0, all, next, cq[1..], if GivesBack(c, e) then collected + [e.index] else collected,
                    if Completes(c, e) then completed + 1 else completed)
  {
    hide Reap, KernelContract, CqeOf, GivesBack, Completes, EndsTheRun, GrownCapacity;
    var e, n := cq[0], |all| - |cq|;
    assert KernelContract(c.Zc(), e);
    CqeMeans(c, s, e);
    ReapUnfolds(c, s, collected, completed);
    assert all[n] == e && all[n + 1..] == cq[1..];
  }

  lemma {:induction false} PassEnds(c: Config, s0: SendState, all: seq<Completion>, s: SendState,
                                    cq: seq<Completion>, collected: seq<nat>, completed: nat)
    requires Underway(c, s0, all, s, cq, collected, completed) && |cq| == 0
    ensures Reap(c, s0, [], 0) ==
        s.(pool := s.pool + collected, capacity := GrownCapacity(s.capacity, |s.pool + collected|),
           inflight := s.inflight - completed, fault := s.fault || s.inflight < completed)
    ensures LeftOver(c.Zc(), all) == cq && AnswerFits(c.Zc(), all, Ok(completed))
  {
    hide Reap, GrownCapacity;
    ReapUnfolds(c, s, collected, completed);
  }

  /** The pass on its own, from no collected buffer. */
  lemma {:induction false} ClosedFormOfReap(c: Config, s: SendState, cq: seq<Completion>)
    requires Contracts(c.Zc(), cq) && s.cq == Cqes(c.Zc(), cq)
    ensures
      var s', zc := Reap(c, s, [], 0), c.Zc();
      var k := GoodAhead(zc, cq);
      && s'.statistic == Counted(zc, c.p, s.statistic, cq[..k]) && (s'.ended <==> s.ended || k < |cq|)
      && s'.pool == s.pool + (if zc && k == |cq| then Freed(cq) else [])
      && s'.inflight == s.inflight - (if k < |cq| then 0 else if zc then Notifications(cq) else Messages(zc, cq))
  {
    hide Reap, Counted, Freed, Notifications, Messages, GoodAhead, Contracts, Cqes;
    PassInClosedForm(c, s, cq, [], 0);
    assert [] + Freed(cq) == Freed(cq);
    assert s.pool + [] == s.pool;
  }

  class IoUringSend {
    const parameter: UringParameter
    const zerocopy: bool
    var sq: seq<nat>
    var cq: seq<Completion>

    ghost predicate Valid()
      reads this
    {
      && zerocopy == (parameter.uringMode == Zerocopy) && |sq| <= parameter.ringSize
      && Contracts(zerocopy, cq)
    }

    constructor (parameter: UringParameter)
      ensures Valid() && this.parameter == parameter && sq == [] && cq == []
    {
      this.parameter := parameter;
      zerocopy := parameter.uringMode == Zerocopy;
      sq := [];
      cq := [];
    }

    ghost function ConfigOf(pb: PacketBuffer): Config {
      Config(parameter, pb.mss, pb.datagramSize, pb.packetsPerMsghdr)
    }

    /** Pool, buffers and queues are those of the state `s`. */
    ghost predicate Shows(pb: PacketBuffer, s: SendState)
      reads this, pb
    {
      && s.pool == pb.indexPool && s.capacity == pb.poolCapacity && s.buffers == pb.contents
      && s.sq == sq && s.cq == Cqes(zerocopy, cq)
    }

    /** Normal mode: stamps the first `amount` buffers in one go and pushes them in order. */
    method Submit(amount: nat, pb: PacketBuffer, nextPacketId: nat, ghost s: SendState)
      returns (r: Result<nat>, ghost s': SendState)
      requires Valid() && pb.Valid() && HoldsHeaders(pb.mss, pb.datagramSize)
      requires Shows(pb, s) && s.next == nextPacketId && !s.fault
      modifies `sq, pb.buffers, pb`contents
      ensures Valid() && pb.Valid()
      ensures s' == SubmitNormal(ConfigOf(pb), s, amount, parameter.ringSize - |old(sq)|)
      ensures r.Err? <==> s'.fault
      ensures r.Ok? ==>
          && Shows(pb, s') && s'.next == nextPacketId + Start(r.value, pb.packetsPerMsghdr)
          && s'.inflight == s.inflight + r.value
      ensures s'.statistic == s.statistic && (r.Ok? ==> r.value == Least(amount, parameter.ringSize - |old(sq)|))
    {
      hide HoldsHeaders, PacketCount, StampBuffers, Cqes;
      AllPacketsFit(pb.mss, pb.datagramSize);
      var count := 0;
      var used := pb.AddPacketIds(nextPacketId, amount);
      s' := s.(buffers := pb.contents);
      for i := 0 to amount
        invariant Valid() && pb.Valid() && Shows(pb, s') && !s'.fault
        invariant count == i && s'.next == nextPacketId + Start(i, pb.packetsPerMsghdr) && |sq| == |old(sq)| + i
        invariant s'.inflight == s.inflight + i && s'.statistic == s.statistic
        invariant PushInOrder(ConfigOf(pb), s', i, amount, parameter.ringSize - |sq|)
          == SubmitNormal(ConfigOf(pb), s, amount, parameter.ringSize - |old(sq)|)
      {
        if i >= |pb.buffers| {
          s' := s'.(fault := true);
          return Err("Getting msghdr is out of bounds!"), s';
        }
        if |sq| < parameter.ringSize {
          sq := sq + [i];
          s' := Push(ConfigOf(pb), s', i);
          count := count + 1;
        } else {
          break;
        }
      }
      r := Ok(count);
    }

    /** Takes a buffer off the pool and stamps it with ids from `first` on. */
    method TakeStamped(pb: PacketBuffer, first: nat, ghost s: SendState) returns (r: Result<nat>, used: nat)
      requires Valid() && pb.Valid() && HoldsHeaders(pb.mss, pb.datagramSize) && Shows(pb, s) && s.next == first
      modifies pb.buffers, pb`contents, pb`indexPool
      ensures Valid() && pb.Valid()
      ensures r.Err? <==> |s.pool| == 0 || !CanStamp(ConfigOf(pb), s, s.pool[|s.pool| - 1])
      ensures r.Ok? ==>
        var index := s.pool[|s.pool| - 1];
        && r.value == index && used == pb.packetsPerMsghdr
        && Shows(pb, s.(pool := s.pool[..|s.pool| - 1], buffers := s.buffers[index := Stamped(ConfigOf(pb), s, index)]))
    {
      hide HoldsHeaders, PacketCount, StampIds, Cqes;
      AllPacketsFit(pb.mss, pb.datagramSize);
      r := pb.GetBufferIndex();
      if r.Err? { return r, 0; }
      if r.value >= |pb.buffers| { return Err("Getting buffer pointer of msghdr is out of bounds!"), 0; }
      used := pb.StampBuffer(r.value, first);
    }

    /** Zero copy: takes a buffer off the pool, stamps and pushes it, `amount` times. */
    method SubmitZerocopy(amount: nat, pb: PacketBuffer, nextPacketId: nat, ghost s: SendState)
      returns (r: Result<nat>, ghost s': SendState)
      requires Valid() && pb.Valid() && HoldsHeaders(pb.mss, pb.datagramSize)
      requires Shows(pb, s) && s.next == nextPacketId && !s.fault
      modifies `sq, pb.buffers, pb`contents, pb`indexPool
      ensures Valid() && pb.Valid()
      ensures s' == SubmitZc(ConfigOf(pb), s, amount, parameter.ringSize - |old(sq)|)
      ensures r.Err? <==> s'.fault
      ensures r.Ok? ==>
          && Shows(pb, s') && s'.next == nextPacketId + Start(r.value, pb.packetsPerMsghdr)
          && s'.inflight == s.inflight + r.value
      ensures s'.statistic == s.statistic && (r.Ok? ==> r.value == Least(amount, parameter.ringSize - |old(sq)|))
    {
      hide HoldsHeaders, PacketCount, Cqes, CanStamp, Stamped, SubmitZc, PushTop, LoseTop;
      var c := ConfigOf(pb);
      var count, amountDatagrams := 0, 0;
      s' := s;
      for i := 0 to amount
        invariant Valid() && pb.Valid() && Shows(pb, s') && !s'.fault
        invariant count == i && amountDatagrams == Start(i, pb.packetsPerMsghdr) && |sq| == |old(sq)| + i
        invariant s'.next == nextPacketId + amountDatagrams && s'.inflight == s.inflight + i
        invariant s'.statistic == s.statistic
        invariant SubmitZc(c, s', amount - i, parameter.ringSize - |sq|) ==
            SubmitZc(c, s, amount, parameter.ringSize - |old(sq)|)
      {
        ghost var before := s';
        SubmitZcUnfolds(c, before, amount - i, parameter.ringSize - |sq|);
        var index, used := TakeStamped(pb, nextPacketId + amountDatagrams, s');
        if index.Err? {
          s' := s'.(fault := true);
          return Err(index.error), s';
        }
        amountDatagrams := amountDatagrams + used;
        if |sq| < parameter.ringSize {
          sq := sq + [index.value];
          s' := PushTop(c, before);
          count := count + 1;
        } else {
          s' := LoseTop(c, before);
          return Ok(count), s';
        }
      }
      SubmitZcUnfolds(c, s', 0, parameter.ringSize - |sq|);
      r := Ok(count);
    }

    method FillSqAndSubmit(amountInflight: nat, pb: PacketBuffer, nextPacketId: nat, ghost s: SendState)
      returns (r: Result<nat>, ghost s': SendState)
      requires Valid() && pb.Valid() && HoldsHeaders(pb.mss, pb.datagramSize)
      requires parameter.burstSize <= parameter.bufferSize
      requires Shows(pb, s) && s.next == nextPacketId && !s.fault && amountInflight == pb.poolCapacity - |pb.indexPool|
      modifies `sq, pb.buffers, pb`contents, pb`indexPool
      ensures Valid() && pb.Valid()
      ensures var room := parameter.ringSize - |old(sq)|;
        s' == Fill(ConfigOf(pb), s, room, old(cq) == [], room)
      ensures r.Err? <==> s'.fault
      ensures r.Ok? ==>
          && Shows(pb, s') && s'.next == nextPacketId + Start(r.value, pb.packetsPerMsghdr)
          && s'.inflight == s.inflight + r.value
      ensures s'.statistic == s.statistic
      ensures r.Ok? ==>
        var (toSubmit, _) := CalcSqFillMode(amountInflight, parameter, parameter.ringSize - |old(sq)|, old(cq) == []);
        r.value == Least(toSubmit, parameter.ringSize - |old(sq)|)
    {
      hide HoldsHeaders, PacketCount, SubmitZc, SubmitNormal, CalcSqFillMode;
      var (toSubmit, minComplete) := CalcSqFillMode(amountInflight, parameter, parameter.ringSize - |sq|, |cq| == 0);
      if toSubmit == 0 && minComplete == 0 { return Ok(0), s; }
      if zerocopy {
        r, s' := SubmitZerocopy(toSubmit, pb, nextPacketId, s);
      } else {
        r, s' := Submit(toSubmit, pb, nextPacketId, s);
      }
    }
  }

  class UringSender {
    const packetBuffer: PacketBuffer
    const ring: IoUringSend
    var nextPacketId: nat
    var statistic: Counts
    var amountInflight: int
    ghost var state: SendState

    ghost function Objects(): set<object> {
      {this, packetBuffer, ring}
    }

    ghost function C(): Config {
      ring.ConfigOf(packetBuffer)
    }

    ghost predicate Valid()
      reads Objects(), packetBuffer.buffers
    {
      && packetBuffer.Valid() && ring.Valid() && HoldsHeaders(packetBuffer.mss, packetBuffer.datagramSize)
      && ring.Shows(packetBuffer, state)
      && state.next == nextPacketId && state.statistic == statistic && state.inflight == amountInflight
    }

    constructor (packetBuffer: PacketBuffer, ring: IoUringSend)
      requires packetBuffer.Valid() && ring.Valid() && ring.sq == [] && ring.cq == []
      requires HoldsHeaders(packetBuffer.mss, packetBuffer.datagramSize) && Sound(ring.parameter)
      requires |packetBuffer.buffers| == ring.parameter.bufferSize == packetBuffer.poolCapacity
      requires packetBuffer.indexPool == seq(|packetBuffer.buffers|, i => i)
      ensures Valid() && this.packetBuffer == packetBuffer && this.ring == ring
      ensures state == Initial(packetBuffer.contents) && GoodConfig(C()) && Inv(C(), state)
    {
      hide HoldsHeaders, Inv;
      this.packetBuffer := packetBuffer;
      this.ring := ring;
      nextPacketId := 0;
      statistic := NO_COUNTS;
      amountInflight := 0;
      state := Initial(packetBuffer.contents);
      new;
      AllPacketsFit(packetBuffer.mss, packetBuffer.datagramSize);
      InitialInv(C(), packetBuffer.contents);
    }

    /** First half of a loop round. It is a step of the state machine and never fails. */
    method FillHalf() returns (r: Result<nat>)
      requires Valid() && GoodConfig(C()) && Inv(C(), state) && !state.ended
      modifies `nextPacketId, `amountInflight, `state, ring`sq, packetBuffer.buffers, packetBuffer`contents,
          packetBuffer`indexPool
      ensures Valid() && r.Ok? && Inv(C(), state)
      ensures var room := ring.parameter.ringSize - |old(ring.sq)|;
        state == Step(C(), old(state), FillSq(room, old(ring.cq) == [], room))
      ensures
        var room := ring.parameter.ringSize - |old(ring.sq)|;
        var (toSubmit, _) := CalcSqFillMode(PoolInflight(old(state)), ring.parameter, room, old(ring.cq) == []);
        r.value == Least(toSubmit, room)
    {
      hide Fill, Inv, HoldsHeaders, PacketCount, Cqes, CalcSqFillMode, Step;
      FillIsSafe(C(), state, ring.parameter.ringSize - |ring.sq|, ring.cq == []);
      var amount := packetBuffer.GetPoolInflight();
      r, state := ring.FillSqAndSubmit(amount, packetBuffer, nextPacketId, state);
      var submitted := r.value;
      amountInflight := amountInflight + submitted;
      StartIsProduct(submitted, packetBuffer.packetsPerMsghdr);
      nextPacketId := nextPacketId + submitted * packetBuffer.packetsPerMsghdr;
    }

    method EndInterval() returns (interval: Counts)
      requires Valid() && Inv(C(), state) && !state.ended && GoodConfig(C())
      modifies `statistic, `state
      ensures Valid() && interval == old(statistic) && Inv(C(), state)
      ensures state == Step(C(), old(state), IntervalEnds)
    {
      hide HoldsHeaders, Inv;
      InvMeansNoFault(C(), state);
      StepKeepsInv(C(), state, IntervalEnds);
      interval := statistic;
      statistic := NO_COUNTS;
      state := Step(C(), state, IntervalEnds);
    }

    /** Normal mode: what one completion adds to the statistic, and whether it is fatal or completes its
        request. */
    method Record(e: Completion, amountDatagrams: nat) returns (failed: bool, completes: bool)
      requires !C().Zc() && amountDatagrams == C().p
      modifies `statistic
      ensures
        var cqe := CqeOf(false, e);
        && statistic == Tallied(C(), old(statistic), cqe) && failed == cqe.Failed? && completes == Completes(C(), cqe)
        && !cqe.Notif?
    {
      if e.result == EAGAIN {
        statistic := statistic.(omitted := statistic.omitted + amountDatagrams);
        return false, false;
      } else if e.result < 0 {
        return true, false;
      }
      statistic := statistic.(datagrams := statistic.datagrams + amountDatagrams,
                              dataBytes := statistic.dataBytes + e.result);
      return false, true;
    }

    /** Normal mode: counts results; the first fatal one ends the run. */
    method CompleteSend() returns (r: Result<nat>)
      requires Valid() && !C().Zc() && !state.ended && !state.fault
      modifies `statistic, `state, ring`cq
      ensures Valid() && amountInflight == old(amountInflight)
      ensures
        var s := Reap(C(), old(state), [], 0);
        && state == s.(inflight := amountInflight, fault := false)
        && (r.Err? <==> s.ended)
        && s.inflight == amountInflight - (if r.Ok? then r.value else 0)
      ensures ring.cq == LeftOver(false, old(ring.cq)) && AnswerFits(false, old(ring.cq), r)
    {
      hide HoldsHeaders, Reap, GrownCapacity, CqeOf, Tallied, Completes, EndsTheRun, Underway, Cqes, LeftOver;
      ghost var c, s0, all := C(), state, ring.cq;
      var completionCount: nat := 0;
      var amountDatagrams := packetBuffer.packetsPerMsghdr;
      PassBegins(c, s0, all);
      while |ring.cq| > 0
        invariant Valid() && !state.ended && !state.fault && amountInflight == old(amountInflight)
        invariant state.pool == old(state.pool) && Underway(c, s0, all, state, ring.cq, [], completionCount)
        decreases |ring.cq|
      {
        OneCompletion(c, s0, all, state, ring.cq, [], completionCount);
        var cqe := ring.cq[0];
        ring.cq := ring.cq[1..];
        state := ReapOne(c, state);
        var failed, completes := Record(cqe, amountDatagrams);
        if failed {
          state := state.(leaked := state.leaked + multiset{}, ended := true);
          return Err(ErrorText(cqe.result));
        }
        if completes { completionCount := completionCount + 1; }
      }
      PassEnds(c, s0, all, state, ring.cq, [], completionCount);
      assert state.pool + [] == state.pool;
      r := Ok(completionCount);
    }

    /** Zero copy: what one completion adds to the statistic, and whether it is fatal, hands its
        buffer back, or completes its request. */
    method RecordZc(e: Completion, amountDatagrams: nat) returns (failed: bool, givesBack: bool, completes: bool)
      requires KernelContract(true, e) && C().Zc() && amountDatagrams == C().p
      modifies `statistic
      ensures
        var cqe := CqeOf(true, e);
        && statistic == Tallied(C(), old(statistic), cqe)
        && failed == cqe.Failed? && givesBack == GivesBack(C(), cqe) && completes == Completes(C(), cqe)
    {
      if e.result == EAGAIN {
        statistic := statistic.(omitted := statistic.omitted + amountDatagrams);
        return false, true, false;
      } else if e.result == ZC_COPIED {
        if !e.more && e.notif {
          statistic := statistic.(copiedZc := statistic.copiedZc + 1);
          return false, true, true;
        }
      } else if e.result < 0 {
        return true, false, false;
      } else if e.result == 0 {
        if !e.more && e.notif { return false, true, true; }
      } else {
        statistic := statistic.(datagrams := statistic.datagrams + amountDatagrams,
            dataBytes := statistic.dataBytes + e.result);
      }
      return false, false, false;
    }

    /** Zero copy: a result is counted, a notification hands its buffer back. */
    method CompleteSendZc() returns (r: Result<nat>)
      requires Valid() && C().Zc() && !state.ended && !state.fault
      modifies `statistic, `state, ring`cq, packetBuffer`indexPool, packetBuffer`poolCapacity
      ensures Valid() && amountInflight == old(amountInflight)
      ensures
        var s := Reap(C(), old(state), [], 0);
        && state == s.(inflight := amountInflight, fault := false)
        && (r.Err? <==> s.ended)
        && s.inflight == amountInflight - (if r.Ok? then r.value else 0)
      ensures ring.cq == LeftOver(true, old(ring.cq)) && AnswerFits(true, old(ring.cq), r)
    {
      hide HoldsHeaders, Reap, GrownCapacity, CqeOf, Tallied, GivesBack, Completes, EndsTheRun, Underway, Cqes;
      hide LeftOver;
      ghost var c, s0, all := C(), state, ring.cq;
      var completionCount: nat := 0;
      var indexPool: seq<nat> := [];
      var amountDatagrams := packetBuffer.packetsPerMsghdr;
      PassBegins(c, s0, all);
      while |ring.cq| > 0
        invariant Valid() && !state.ended && !state.fault && amountInflight == old(amountInflight)
        invariant Underway(c, s0, all, state, ring.cq, indexPool, completionCount)
        decreases |ring.cq|
      {
        OneCompletion(c, s0, all, state, ring.cq, indexPool, completionCount);
        var cqe := ring.cq[0];
        ring.cq := ring.cq[1..];
        state := ReapOne(c, state);
        var failed, givesBack, completes := RecordZc(cqe, amountDatagrams);
        if failed {
          state := state.(leaked := state.leaked + multiset(indexPool) + multiset{cqe.index}, ended := true);
          return Err(ErrorText(cqe.result));
        }
        if givesBack { indexPool := indexPool + [cqe.index]; }
        if completes { completionCount := completionCount + 1; }
      }
      PassEnds(c, s0, all, state, ring.cq, indexPool, completionCount);
      state := state.(pool := state.pool + indexPool,
          capacity := GrownCapacity(state.capacity, |state.pool + indexPool|));
      packetBuffer.ReturnBufferIndex(indexPool);
      r := Ok(completionCount);
    }

    /** Second half of a loop round. It fails exactly when a completion reports a fatal error. */
    method ReapHalf() returns (r: Result<nat>)
      requires Valid() && GoodConfig(C()) && Inv(C(), state) && !state.ended
      modifies `statistic, `state, `amountInflight, ring`cq, packetBuffer`indexPool, packetBuffer`poolCapacity
      ensures Valid() && Inv(C(), state) && (r.Err? <==> state.ended)
      ensures state == Step(C(), old(state), ReapCq)
      ensures
        var zc, cq := ring.zerocopy, old(ring.cq);
        var k := GoodAhead(zc, cq);
        && statistic == Counted(zc, packetBuffer.packetsPerMsghdr, old(statistic), cq[..k])
        && (state.ended <==> k < |cq|)
        && ring.cq == (if k == |cq| then [] else cq[k + 1..])
        && packetBuffer.indexPool == old(packetBuffer.indexPool) + (if zc && k == |cq| then Freed(cq) else [])
        && amountInflight == old(amountInflight) -
            (if k < |cq| then 0 else if zc then Notifications(cq) else Messages(zc, cq))
    {
      hide Reap, Inv, HoldsHeaders, Counted, Freed, Notifications, Messages, GoodAhead, PassLeaves, Cqes;
      ClosedFormOfReap(C(), state, ring.cq);
      InvMeansNoFault(C(), state);
      StepKeepsInv(C(), state, ReapCq);
      InvMeansNoFault(C(), Step(C(), state, ReapCq));
      if ring.zerocopy { r := CompleteSendZc(); } else { r := CompleteSend(); }
      if r.Ok? { amountInflight := amountInflight - r.value; }
      state := state.(inflight := amountInflight);
    }
  }

  lemma SubmitZcUnfolds(c: Config, s: SendState, remaining: nat, room: nat)
    ensures remaining == 0 ==> SubmitZc(c, s, remaining, room) == s
    ensures remaining > 0 ==>
      if |s.pool| == 0 || !CanStamp(c, s, s.pool[|s.pool| - 1]) then SubmitZc(c, s, remaining, room) ==
          s.(fault := true)
      else
        var index := s.pool[|s.pool| - 1];
        var taken := s.(pool := s.pool[..|s.pool| - 1], buffers := s.buffers[index := Stamped(c, s, index)]);
        var pushed, lost := PushTop(c, s), LoseTop(c, s);
        && SubmitZc(c, s, remaining, room) == (if room == 0 then lost else SubmitZc(c, pushed, remaining - 1, room - 1))
        && lost == taken.(leaked := s.leaked + multiset{index})
        && pushed == taken.(sq := s.sq + [index], payload := pushed.payload, pushed := s.pushed + [s.next],
                            next := s.next + c.p, inflight := s.inflight + 1)
  {
    hide Stamped, CanStamp;
  }

  lemma ReapUnfolds(c: Config, s: SendState, collected: seq<nat>, completed: nat)
    ensures |s.cq| == 0 ==>
      Reap(c, s, collected, completed) ==
        s.(pool := s.pool + collected, capacity := GrownCapacity(s.capacity, |s.pool + collected|),
           inflight := s.inflight - completed, fault := s.fault || s.inflight < completed)
    ensures |s.cq| > 0 ==>
      var e, rest := s.cq[0], ReapOne(c, s);
      Reap(c, s, collected, completed) ==
        if e.Failed? then rest.(leaked := s.leaked + multiset(collected) +
            (if c.Zc() then multiset{e.index} else multiset{}), ended := true)
        else Reap(c, rest, if GivesBack(c, e) then collected + [e.index] else collected,
                  if Completes(c, e) then completed + 1 else completed)
  {
  }

  lemma FillIsSafe(c: Config, s: SendState, room: nat, cqEmpty: bool)
    requires GoodConfig(c) && Inv(c, s) && !s.ended && room <= c.uring.ringSize
    ensures !s.fault && c.uring.burstSize <= c.uring.bufferSize
    ensures
      var t := Step(c, s, FillSq(room, cqEmpty, room));
      Inv(c, t) && !t.fault && t == Fill(c, s, room, cqEmpty, room)
  {
    hide Fill, Inv, PacketsFit;
    InvMeansNoFault(c, s);
    StepKeepsInv(c, s, FillSq(room, cqEmpty, room));
    InvMeansNoFault(c, Step(c, s, FillSq(room, cqEmpty, room)));
  }

  lemma InvMeansNoFault(c: Config, s: SendState)
    requires Inv(c, s)
    ensures !s.fault
  {
  }
}
