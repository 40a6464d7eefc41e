/** Sending over io_uring, in Normal and in zero-copy mode: who owns which buffer, which packet ids
    a request carries, and how requests are counted. */
module SendRing {
  import opened Wire
  import opened Arithmetic
  import opened Datagrams
  import opened Counters
  import opened PacketBuffers
  import opened FillMode
  import RR = RecvRing

  datatype Config = Config(uring: UringParameter, mss: nat, ds: nat, p: nat) {
    predicate Zc() { uring.uringMode == Zerocopy }
  }

  ghost predicate GoodConfig(c: Config) {
    Sound(c.uring) && PacketsFit(c.mss, c.ds, c.p)
  }

  /** A completion: a request's result (bytes sent, no room at the socket, a fatal error), or the
      notification that ends a zero-copy request. */
  datatype Cqe = Sent(index: nat, bytes: nat) | Again(index: nat) | Failed(index: nat) | Notif(index: nat, copied: bool)

  /** What a pushed zero-copy request carries: its number among all requests pushed, its first id
      and the bytes of its buffer. */
  datatype Payload = Payload(number: nat, first: nat, bytes: seq<Byte>)

  /** `working` requests have no result yet, `awaiting` ones have a result but no notification.
      `payload` records what was pushed, `pushed` the first ids of all requests ever pushed,
      `again` how many results said "no room", `past` the statistics of earlier intervals.
      `transmitted` are the messages the kernel has sent, read from their buffers when it sends
      them, `answered` the numbers of the zero-copy requests they were sent for. */
  datatype SendState = SendState(
    pool: seq<nat>,
    capacity: nat,
    buffers: seq<seq<Byte>>,
    sq: seq<nat>,
    working: multiset<nat>,
    awaiting: multiset<nat>,
    cq: seq<Cqe>,
    leaked: multiset<nat>,
    payload: map<nat, Payload>,
    pushed: seq<nat>,
    next: nat,
    statistic: Counts,
    past: Counts,
    transmitted: seq<seq<Byte>>,
    answered: seq<nat>,
    inflight: int,
    again: nat,
    fault: bool,
    ended: bool)

  function Initial(buffers: seq<seq<Byte>>): SendState {
    SendState(seq(|buffers|, i => i), |buffers|, buffers, [], multiset{}, multiset{}, [], multiset{}, map[],
              [], 0, NO_COUNTS, NO_COUNTS, [], [], 0, 0, false, false)
  }

  function PoolInflight(s: SendState): nat {
    if |s.pool| <= s.capacity then s.capacity - |s.pool| else 0
  }

  // Submission

  ghost predicate CanStamp(c: Config, s: SendState, index: nat) {
    index < |s.buffers| && PacketsFit(|s.buffers[index]|, c.ds, c.p)
  }

  ghost function Stamped(c: Config, s: SendState, index: nat): seq<Byte>
    requires CanStamp(c, s, index)
  {
    StampIds(s.buffers[index], c.ds, s.next, c.p)
  }

  /** A request is pushed: the id counter moves on by the packets of one message. */
  function Push(c: Config, s: SendState, index: nat): SendState {
    s.(sq := s.sq + [index], pushed := s.pushed + [s.next], next := s.next + c.p, inflight := s.inflight + 1)
  }

  /** Zero copy: takes the top index off the pool, stamps that buffer and pushes it. */
  ghost function PushTop(c: Config, s: SendState): SendState
    requires |s.pool| > 0 && CanStamp(c, s, s.pool[|s.pool| - 1])
  {
    var index := s.pool[|s.pool| - 1];
    var stamped := Stamped(c, s, index);
    Push(c, s.(pool := s.pool[..|s.pool| - 1], buffers := s.buffers[index := stamped],
               payload := s.payload[index := Payload(|s.pushed|, s.next, stamped)]), index)
  }

  /** The push fails after the buffer was taken and stamped: its index is lost. */
  ghost function LoseTop(c: Config, s: SendState): SendState
    requires |s.pool| > 0 && CanStamp(c, s, s.pool[|s.pool| - 1])
  {
    var index := s.pool[|s.pool| - 1];
    s.(pool := s.pool[..|s.pool| - 1], buffers := s.buffers[index := Stamped(c, s, index)],
       leaked := s.leaked + multiset{index})
  }

  ghost function SubmitZc(c: Config, s: SendState, remaining: nat, room: nat): SendState
    decreases remaining
  {
    if remaining == 0 then s
    else if |s.pool| == 0 || !CanStamp(c, s, s.pool[|s.pool| - 1]) then s.(fault := true)
    else if room == 0 then LoseTop(c, s)
    else SubmitZc(c, PushTop(c, s), remaining - 1, room - 1)
  }

  /** Normal mode pushes buffers 0, 1, ... of the vector, whatever the kernel still holds. */
  function PushInOrder(c: Config, s: SendState, i: nat, amount: nat, room: nat): SendState
    decreases amount - i
  {
    if i >= amount then s
    else if i >= |s.buffers| then s.(fault := true)
    else if room == 0 then s
    else PushInOrder(c, Push(c, s, i), i + 1, amount, room - 1)
  }

  ghost function SubmitNormal(c: Config, s: SendState, amount: nat, room: nat): SendState {
    if !AllSized(s.buffers, c.mss) || !PacketsFit(c.mss, c.ds, c.p) then s.(fault := true)
    else
      var n := if amount < |s.buffers| then amount else |s.buffers|;
      PushInOrder(c, s.(buffers := StampBuffers(s.buffers, c.mss, c.ds, c.p, s.next, n)), 0, amount, room)
  }

  ghost function Fill(c: Config, s: SendState, sqLeft: nat, cqEmpty: bool, room: nat): SendState {
    if c.uring.burstSize > c.uring.bufferSize then s.(fault := true)
    else
      var (toSubmit, minComplete) := CalcSqFillMode(PoolInflight(s), c.uring, sqLeft, cqEmpty);
      if toSubmit == 0 && minComplete == 0 then s
      else if c.Zc() then SubmitZc(c, s, toSubmit, room)
      else SubmitNormal(c, s, toSubmit, room)
  }

  // Completion

  /** What one completion adds to the statistic. */
  function Tallied(c: Config, k: Counts, e: Cqe): Counts {
    match e
    case Sent(_, bytes) => k.(datagrams := k.datagrams + c.p, dataBytes := k.dataBytes + bytes)
    case Again(_) => k.(omitted := k.omitted + c.p)
    case Failed(_) => k
    case Notif(_, copied) => if copied then k.(copiedZc := k.copiedZc + 1) else k
  }

  /** The completion hands the buffer back (zero copy), or counts as a completed request. A
      request turned down for lack of room is never counted as completed. */
  predicate GivesBack(c: Config, e: Cqe) { c.Zc() && (e.Again? || e.Notif?) }

  predicate Completes(c: Config, e: Cqe) { if c.Zc() then e.Notif? else e.Sent? }

  function ReapOne(c: Config, s: SendState): SendState
    requires |s.cq| > 0
  {
    var e := s.cq[0];
    s.(cq := s.cq[1..], statistic := Tallied(c, s.statistic, e), again := s.again + if e.Again? then 1 else 0)
  }

  function Reap(c: Config, s: SendState, collected: seq<nat>, completed: nat): SendState
    decreases |s.cq|
  {
    if |s.cq| == 0 then
      s.(pool := s.pool + collected, capacity := GrownCapacity(s.capacity, |s.pool + collected|),
         inflight := s.inflight - completed, fault := s.fault || s.inflight < completed)
    else
      var e, rest := s.cq[0], ReapOne(c, s);
      if e.Failed? then rest.(leaked := s.leaked + multiset(collected) +
          (if c.Zc() then multiset{e.index} else multiset{}), ended := true)
      else Reap(c, rest, if GivesBack(c, e) then collected + [e.index] else collected,
                if Completes(c, e) then completed + 1 else completed)
  }

  // Runs

  datatype Event =
    | IntervalEnds
    | FillSq(sqLeft: nat, cqEmpty: bool, room: nat)
    | KernelTakes(count: nat)
    | KernelAnswers(cqe: Cqe)
    | ReapCq

  /** The kernel reads a message from its buffer and sends it, or does not. It posts one result per
      request, and in zero-copy mode one notification after each
      successful result. */
  function KernelPosts(c: Config, s: SendState, e: Cqe): SendState {
    var posted := s.(cq := s.cq + [e]);
    match e
    case Sent(index, _) =>
      if index !in s.working then s
      else posted.(working := s.working - multiset{index},
                   awaiting := if c.Zc() then s.awaiting + multiset{index} else s.awaiting,
                   transmitted := s.transmitted + [if index < |s.buffers| then s.buffers[index] else []],
                   answered := s.answered + if index in s.payload then [s.payload[index].number] else [])
    case Again(index) => if index !in s.working then s else posted.(working := s.working - multiset{index})
    case Failed(index) => if index !in s.working then s else posted.(working := s.working - multiset{index})
    case Notif(index, _) => if index !in s.awaiting then s else posted.(awaiting := s.awaiting - multiset{index})
  }

  ghost function Step(c: Config, s: SendState, e: Event): SendState {
    if s.fault || s.ended then s
    else match e
      case IntervalEnds => s.(past := s.past.Plus(s.statistic), statistic := NO_COUNTS)
      case FillSq(sqLeft, cqEmpty, room) =>
        Fill(c, s, if sqLeft < c.uring.ringSize then sqLeft else c.uring.ringSize, cqEmpty, room)
      case KernelTakes(count) =>
        if count > |s.sq| then s
        else s.(sq := s.sq[count..], working := s.working + multiset(s.sq[..count]))
      case KernelAnswers(cqe) => KernelPosts(c, s, cqe)
      case ReapCq => Reap(c, s, [], 0)
  }

  ghost function After(c: Config, buffers: seq<seq<Byte>>, events: seq<Event>): SendState {
    if |events| == 0 then Initial(buffers)
    else Step(c, After(c, buffers, events[..|events| - 1]), events[|events| - 1])
  }

  // Runs in the order of the loop

  /** The last step of the program was a fill. */
  predicate FilledLast(events: seq<Event>) {
    if |events| == 0 then false
    else
      match events[|events| - 1]
      case FillSq(_, _, _) => true
      case ReapCq => false
      case IntervalEnds => FilledLast(events[..|events| - 1])
      case KernelTakes(_) => FilledLast(events[..|events| - 1])
      case KernelAnswers(_) => FilledLast(events[..|events| - 1])
  }

  /** Fills and reaps take turns, intervals end before a fill, and a fill reads both queues truly: a
      push fails only if the queue is full. Messages are sent whole. */
  predicate InTurn(c: Config, s: SendState, filled: bool, e: Event) {
    match e
    case IntervalEnds => !filled
    case FillSq(sqLeft, cqEmpty, room) =>
      && !filled && |s.sq| <= c.uring.ringSize && sqLeft == room == c.uring.ringSize - |s.sq|
      && cqEmpty == (|s.cq| == 0)
    case ReapCq => filled
    case KernelTakes(_) => true
    case KernelAnswers(cqe) => cqe.Sent? ==> cqe.bytes == c.mss
  }

  /** A run the program can make without a polling kernel thread. */
  ghost predicate LoopRun(c: Config, buffers: seq<seq<Byte>>, events: seq<Event>) {
    if |events| == 0 then true
    else
      var front := events[..|events| - 1];
      LoopRun(c, buffers, front) && InTurn(c, After(c, buffers, front), FilledLast(front), events[|events| - 1])
  }

  /** The last step of the program was a fill that submitted or waited, and so read the length of the
      completion queue afterwards. */
  ghost predicate FillActed(c: Config, buffers: seq<seq<Byte>>, events: seq<Event>)
    requires c.uring.burstSize <= c.uring.bufferSize
  {
    if |events| == 0 then false
    else
      var front := events[..|events| - 1];
      match events[|events| - 1]
      case FillSq(sqLeft, cqEmpty, _) =>
        CalcSqFillMode(PoolInflight(After(c, buffers, front)), c.uring, Left(c, sqLeft), cqEmpty) != (0, 0)
      case ReapCq => false
      case IntervalEnds => FillActed(c, buffers, front)
      case KernelTakes(_) => FillActed(c, buffers, front)
      case KernelAnswers(_) => FillActed(c, buffers, front)
  }

  /** One more step of a run. */
  lemma RunAppend(c: Config, buffers: seq<seq<Byte>>, events: seq<Event>, e: Event)
    ensures After(c, buffers, events + [e]) == Step(c, After(c, buffers, events), e)
    ensures LoopRun(c, buffers, events + [e])
      <==> LoopRun(c, buffers, events) && InTurn(c, After(c, buffers, events), FilledLast(events), e)
    ensures FilledLast(events + [e]) == (e.FillSq? || (!e.ReapCq? && FilledLast(events)))
    ensures c.uring.burstSize <= c.uring.bufferSize && (e.KernelTakes? || e.KernelAnswers?) ==>
              FillActed(c, buffers, events + [e]) == FillActed(c, buffers, events)
  {
    hide Step, InTurn, CalcSqFillMode;
    assert (events + [e])[..|events|] == events;
  }

  // Requests, counted

  predicate IsResult(e: Cqe) { !e.Notif? }

  /** The completion that ends the kernel's hold on the buffer. */
  predicate IsFinal(c: Config, e: Cqe) { if c.Zc() then !e.Sent? else true }

  function Finals(c: Config, cq: seq<Cqe>): seq<nat> {
    if |cq| == 0 then []
    else if IsFinal(c, cq[0]) then [cq[0].index] + Finals(c, cq[1..]) else Finals(c, cq[1..])
  }

  function Results(cq: seq<Cqe>): nat {
    if |cq| == 0 then 0 else Results(cq[1..]) + if IsResult(cq[0]) then 1 else 0
  }

  lemma {:induction false} CqAppend(c: Config, cq: seq<Cqe>, e: Cqe)
    ensures Finals(c, cq + [e]) == Finals(c, cq) + if IsFinal(c, e) then [e.index] else []
    ensures Results(cq + [e]) == Results(cq) + if IsResult(e) then 1 else 0
  {
    if |cq| == 0 {
      assert cq + [e] == [e] && [e][1..] == [];
    } else {
      CqAppend(c, cq[1..], e);
      assert (cq + [e])[1..] == cq[1..] + [e];
    }
  }

  /** Indexes the kernel side holds: queued, in work, awaiting the notification, or in a posted
      final completion. */
  ghost function KernelHeld(c: Config, s: SendState): multiset<nat> {
    multiset(s.sq) + s.working + s.awaiting + multiset(Finals(c, s.cq))
  }

  ghost function Outstanding(c: Config, s: SendState): nat {
    |s.sq| + |s.working| + |s.awaiting| + |Finals(c, s.cq)|
  }

  /** Requests whose result has not been reaped. */
  function Unresolved(s: SendState): nat {
    |s.sq| + |s.working| + Results(s.cq)
  }

  ghost function Owned(c: Config, s: SendState): multiset<nat> {
    multiset(s.pool) + KernelHeld(c, s) + s.leaked
  }

  // Invariants

  /** Ids of pushed requests are contiguous, and every id handed out belongs to a datagram counted
      as sent, to one counted as omitted, or to a request without a reaped result. */
  ghost predicate Streamed(c: Config, s: SendState) {
    && s.next == Start(|s.pushed|, c.p)
    && (forall i :: 0 <= i < |s.pushed| ==> s.pushed[i] == Start(i, c.p))
    && (!s.ended ==>
          s.next == s.past.datagrams + s.statistic.datagrams + s.past.omitted + s.statistic.omitted
                    + Start(Unresolved(s), c.p))
  }

  /** The loop's counter: outstanding requests, plus one for every request ever turned down. */
  ghost predicate CountedWith(c: Config, s: SendState, completed: nat) {
    !s.ended ==> s.inflight == Outstanding(c, s) + completed + s.again
  }

  ghost predicate Shaped(c: Config, s: SendState) {
    s.capacity == c.uring.bufferSize == |s.buffers| && AllSized(s.buffers, c.mss)
  }

  ghost predicate OwnedOnceWith(c: Config, s: SendState, collected: seq<nat>) {
    && Owned(c, s) + multiset(collected) == RR.Indexes(c.uring.bufferSize)
    && (c.uring.sqFillingMode == Syscall ==> c.uring.bufferSize - |s.pool| <= c.uring.burstSize)
  }

  /** The buffer of every request the kernel holds contains exactly what was pushed, stamped with
      the ids of that push. */
  ghost predicate Carried(c: Config, s: SendState) {
    forall i :: i in KernelHeld(c, s) ==> CarriesAt(c, s, i)
  }

  ghost predicate CarriesAt(c: Config, s: SendState, i: nat) {
    && i in s.payload && i < |s.buffers| && s.buffers[i] == s.payload[i].bytes
    && CarriesItsIds(c, s.payload[i]) && s.payload[i].first in s.pushed
  }

  ghost predicate CarriesItsIds(c: Config, p: Payload) {
    exists before: seq<Byte> :: |before| == c.mss && PacketsFit(c.mss, c.ds, c.p) &&
      p.bytes == StampIds(before, c.ds, p.first, c.p)
  }

  /** Normal mode leaves the pool alone and knows no notifications. */
  ghost predicate PoolUnused(c: Config, s: SendState) {
    |s.pool| == c.uring.bufferSize && s.awaiting == multiset{} && (forall e :: e in s.cq ==> !e.Notif?)
  }

  ghost predicate InvWith(c: Config, s: SendState, collected: seq<nat>, completed: nat) {
    && !s.fault && Shaped(c, s) && Streamed(c, s) && CountedWith(c, s, completed)
    && (if c.Zc() then OwnedOnceWith(c, s, collected) && Carried(c, s) else collected == [] && PoolUnused(c, s))
  }

  ghost predicate Inv(c: Config, s: SendState) { InvWith(c, s, [], 0) }

  // Counting: the effect of one hand-over on the number of requests

  lemma PushCounts(c: Config, s: SendState, index: nat)
    ensures Streamed(c, s) ==> Streamed(c, Push(c, s, index))
    ensures Outstanding(c, Push(c, s, index)) == Outstanding(c, s) + 1
  {
  }

  lemma TakeCounts(c: Config, s: SendState, count: nat)
    requires count <= |s.sq|
    ensures var s' := s.(sq := s.sq[count..], working := s.working + multiset(s.sq[..count]));
      Unresolved(s') == Unresolved(s) && Outstanding(c, s') == Outstanding(c, s)
  {
  }

  lemma PostCounts(c: Config, s: SendState, e: Cqe)
    requires !c.Zc() ==> !e.Notif?
    ensures Unresolved(KernelPosts(c, s, e)) == Unresolved(s)
    ensures Outstanding(c, KernelPosts(c, s, e)) == Outstanding(c, s)
  {
    PostKeepsUnresolved(c, s, e);
    PostKeepsOutstanding(c, s, e);
  }

  lemma PostKeepsUnresolved(c: Config, s: SendState, e: Cqe)
    requires !c.Zc() ==> !e.Notif?
    ensures Unresolved(KernelPosts(c, s, e)) == Unresolved(s)
  {
    CqAppend(c, s.cq, e);
    hide Finals, Results;
    if !e.Notif? && e.index in s.working { RemoveOne(s.working, e.index); }
  }

  lemma PostKeepsOutstanding(c: Config, s: SendState, e: Cqe)
    ensures Outstanding(c, KernelPosts(c, s, e)) == Outstanding(c, s)
  {
    PostMoves(c, s, e);
    OutstandingIsHeld(c, s);
    OutstandingIsHeld(c, KernelPosts(c, s, e));
  }

  lemma OutstandingIsHeld(c: Config, s: SendState)
    ensures Outstanding(c, s) == |KernelHeld(c, s)|
  {
    hide Finals;
  }

  lemma ReapCounts(c: Config, s: SendState)
    requires |s.cq| > 0
    ensures var e, s' := s.cq[0], ReapOne(c, s);
      && (!e.Failed? && Streamed(c, s) ==> Streamed(c, s'))
      && Outstanding(c, s) == Outstanding(c, s') + (if IsFinal(c, e) then 1 else 0)
  {
    assert Unresolved(s) == Unresolved(ReapOne(c, s)) + if IsResult(s.cq[0]) then 1 else 0;
  }

  // Ownership: each hand-over moves one index and creates or destroys none

  lemma PushTopMoves(c: Config, s: SendState)
    requires |s.pool| > 0 && CanStamp(c, s, s.pool[|s.pool| - 1])
    ensures Owned(c, PushTop(c, s)) == Owned(c, s)
    ensures KernelHeld(c, PushTop(c, s)) == KernelHeld(c, s) + multiset{s.pool[|s.pool| - 1]}
  {
    hide Finals, StampIds;
    assert s.pool == s.pool[..|s.pool| - 1] + [s.pool[|s.pool| - 1]];
  }

  lemma LoseTopMoves(c: Config, s: SendState)
    requires |s.pool| > 0 && CanStamp(c, s, s.pool[|s.pool| - 1])
    ensures Owned(c, LoseTop(c, s)) == Owned(c, s)
    ensures KernelHeld(c, LoseTop(c, s)) == KernelHeld(c, s)
  {
    hide Finals, StampIds;
    assert s.pool == s.pool[..|s.pool| - 1] + [s.pool[|s.pool| - 1]];
  }

  lemma TakeMoves(c: Config, s: SendState, count: nat)
    requires count <= |s.sq|
    ensures KernelHeld(c, s.(sq := s.sq[count..], working := s.working + multiset(s.sq[..count]))) == KernelHeld(c, s)
  {
    hide Finals;
    assert s.sq == s.sq[..count] + s.sq[count..];
  }

  lemma PostMoves(c: Config, s: SendState, e: Cqe)
    ensures KernelHeld(c, KernelPosts(c, s, e)) == KernelHeld(c, s)
  {
    var t, i := KernelPosts(c, s, e), e.index;
    var finals := multiset(Finals(c, s.cq));
    assert t != s ==> multiset(Finals(c, t.cq)) == if IsFinal(c, e) then finals + multiset{i} else finals by {
      CqAppend(c, s.cq, e);
      hide Finals;
      assert multiset(Finals(c, s.cq) + [i]) == finals + multiset{i};
    }
    hide Finals;
    if t != s {
      SamePartsSameWhole(c, s, t, i);
    }
  }

  lemma SamePartsSameWhole(c: Config, s: SendState, t: SendState, i: nat)
    requires t.sq == s.sq
    requires
      var f, f' := multiset(Finals(c, s.cq)), multiset(Finals(c, t.cq));
      || (i in s.working && t.working == s.working - multiset{i} && t.awaiting == s.awaiting + multiset{i} && f' == f)
      || (i in s.working && t.working == s.working - multiset{i} && t.awaiting == s.awaiting && f' == f + multiset{i})
      || (i in s.awaiting && t.working == s.working && t.awaiting == s.awaiting - multiset{i} && f' == f + multiset{i})
    ensures KernelHeld(c, t) == KernelHeld(c, s)
  {
    hide Finals;
  }

  lemma ReapReleases(c: Config, s: SendState)
    requires |s.cq| > 0
    ensures KernelHeld(c, s) ==
      KernelHeld(c, ReapOne(c, s)) + (if IsFinal(c, s.cq[0]) then multiset{s.cq[0].index} else multiset{})
  {
    var e := s.cq[0];
    assert Finals(c, s.cq) == (if IsFinal(c, e) then [e.index] else []) + Finals(c, s.cq[1..]);
    hide Finals;
  }

  lemma ReapMoves(c: Config, s: SendState, collected: seq<nat>)
    requires c.Zc() && |s.cq| > 0
    ensures var e, s' := s.cq[0], ReapOne(c, s);
      && (!e.Failed? ==>
            Owned(c, s') + multiset(if GivesBack(c, e) then collected + [e.index] else collected) ==
                Owned(c, s) + multiset(collected))
      && (e.Failed? ==>
            Owned(c, s'.(leaked := s.leaked + multiset(collected) + multiset{e.index}, ended := true)) ==
                Owned(c, s) + multiset(collected))
  {
    var e, s' := s.cq[0], ReapOne(c, s);
    ReapReleases(c, s);
    assert KernelHeld(c, s'.(leaked := s.leaked + multiset(collected) + multiset{e.index}, ended := true)) ==
        KernelHeld(c, s');
    hide KernelHeld;
    assert multiset(collected + [e.index]) == multiset(collected) + multiset{e.index};
  }

  lemma Census(c: Config, s: SendState, collected: seq<nat>)
    requires OwnedOnceWith(c, s, collected)
    ensures |s.pool| + Outstanding(c, s) + |s.leaked| + |collected| == c.uring.bufferSize
  {
    hide Finals;
    assert |Owned(c, s) + multiset(collected)| == c.uring.bufferSize;
  }

  /** An index on top of the pool is in range and not in the kernel's hands. */
  lemma TopIsFree(c: Config, s: SendState, collected: seq<nat>, k: nat)
    requires OwnedOnceWith(c, s, collected) && k < |s.pool|
    ensures s.pool[k] < c.uring.bufferSize && s.pool[k] !in KernelHeld(c, s)
  {
    hide KernelHeld;
    assert s.pool[k] in multiset(s.pool);
    assert (Owned(c, s) + multiset(collected))[s.pool[k]] == RR.Indexes(c.uring.bufferSize)[s.pool[k]];
  }

  // Each part of the invariant depends on a part of the state

  lemma StreamedFrame(c: Config, s: SendState, t: SendState)
    requires Streamed(c, s) && t.next == s.next && t.pushed == s.pushed && (t.ended || !s.ended)
    requires !t.ended ==>
      && Unresolved(t) == Unresolved(s)
      && t.past.datagrams + t.statistic.datagrams == s.past.datagrams + s.statistic.datagrams
      && t.past.omitted + t.statistic.omitted == s.past.omitted + s.statistic.omitted
    ensures Streamed(c, t)
  {
    hide Unresolved;
  }

  lemma OwnedFrame(c: Config, s: SendState, collected: seq<nat>, t: SendState, collected': seq<nat>)
    requires OwnedOnceWith(c, s, collected) && |t.pool| >= |s.pool|
    requires Owned(c, t) + multiset(collected') == Owned(c, s) + multiset(collected)
    ensures OwnedOnceWith(c, t, collected')
  {
    hide Owned;
  }

  lemma CarriedFrame(c: Config, s: SendState, t: SendState)
    requires Carried(c, s) && KernelHeld(c, t) <= KernelHeld(c, s)
    requires t.buffers == s.buffers && t.payload == s.payload && t.pushed == s.pushed
    ensures Carried(c, t)
  {
    hide KernelHeld, CarriesItsIds;
    forall i | i in KernelHeld(c, t) ensures CarriesAt(c, t, i) {
      assert CarriesAt(c, s, i);
    }
  }

  lemma CarriesAtFrame(c: Config, s: SendState, t: SendState, i: nat)
    requires CarriesAt(c, s, i) && |t.buffers| == |s.buffers| && t.buffers[i] == s.buffers[i]
    requires i in t.payload && t.payload[i] == s.payload[i]
    requires t.pushed == s.pushed || t.pushed == s.pushed + [s.next]
    ensures CarriesAt(c, t, i)
  {
    hide CarriesItsIds;
  }

  // Zero-copy submission

  lemma PushTopCarries(c: Config, s: SendState)
    requires Carried(c, s) && Shaped(c, s) && |s.pool| > 0 && CanStamp(c, s, s.pool[|s.pool| - 1])
    ensures Carried(c, PushTop(c, s)) && Shaped(c, PushTop(c, s))
  {
    var index, t := s.pool[|s.pool| - 1], PushTop(c, s);
    TopIsStamped(c, s);
    PushTopMoves(c, s);
    hide KernelHeld, CarriesAt, Stamped, CanStamp;
    forall i | i in KernelHeld(c, t) ensures CarriesAt(c, t, i) {
      if i != index {
        assert i in KernelHeld(c, s);
        CarriesInside(c, s, i);
        CarriesAtFrame(c, s, t, i);
      }
    }
  }

  lemma CarriesInside(c: Config, s: SendState, i: nat)
    requires CarriesAt(c, s, i)
    ensures i < |s.buffers| && i in s.payload
  {
  }

  lemma TopIsStamped(c: Config, s: SendState)
    requires Shaped(c, s) && |s.pool| > 0 && CanStamp(c, s, s.pool[|s.pool| - 1])
    ensures CarriesAt(c, PushTop(c, s), s.pool[|s.pool| - 1])
    ensures AllSized(PushTop(c, s).buffers, c.mss) && AllSized(LoseTop(c, s).buffers, c.mss)
  {
    hide StampIds;
    assert |s.buffers[s.pool[|s.pool| - 1]]| == c.mss;
  }

  lemma PushTopOwns(c: Config, s: SendState)
    requires OwnedOnceWith(c, s, []) && |s.pool| > 0 && CanStamp(c, s, s.pool[|s.pool| - 1])
    requires c.uring.sqFillingMode == Syscall ==> c.uring.bufferSize - |s.pool| < c.uring.burstSize
    ensures OwnedOnceWith(c, PushTop(c, s), []) && OwnedOnceWith(c, LoseTop(c, s), [])
  {
    PushTopMoves(c, s);
    LoseTopMoves(c, s);
    hide Owned, StampIds;
  }

  lemma LoseTopCarries(c: Config, s: SendState)
    requires Carried(c, s) && Shaped(c, s) && |s.pool| > 0 && CanStamp(c, s, s.pool[|s.pool| - 1])
    requires s.pool[|s.pool| - 1] !in KernelHeld(c, s)
    ensures Carried(c, LoseTop(c, s)) && Shaped(c, LoseTop(c, s))
  {
    var t := LoseTop(c, s);
    TopIsStamped(c, s);
    LoseTopMoves(c, s);
    hide KernelHeld, CarriesAt, Stamped, CanStamp;
    forall i | i in KernelHeld(c, t) ensures CarriesAt(c, t, i) {
      assert i in KernelHeld(c, s);
      CarriesInside(c, s, i);
      CarriesAtFrame(c, s, t, i);
    }
  }

  lemma PushTopStreams(c: Config, s: SendState)
    requires Streamed(c, s) && CountedWith(c, s, 0) && |s.pool| > 0 && CanStamp(c, s, s.pool[|s.pool| - 1])
    ensures Streamed(c, PushTop(c, s)) && CountedWith(c, PushTop(c, s), 0)
    ensures Streamed(c, LoseTop(c, s)) && CountedWith(c, LoseTop(c, s), 0)
  {
    hide StampIds, Finals, Results;
    var index := s.pool[|s.pool| - 1];
    var stamped := Stamped(c, s, index);
    var s' := s.(pool := s.pool[..|s.pool| - 1], buffers := s.buffers[index := stamped],
                 payload := s.payload[index := Payload(|s.pushed|, s.next, stamped)]);
    StreamedFrame(c, s, s');
    StreamedFrame(c, s, LoseTop(c, s));
    PushCounts(c, s', index);
  }

  lemma TopKeepsInv(c: Config, s: SendState)
    requires GoodConfig(c) && c.Zc() && Inv(c, s) && !s.ended && |s.pool| > 0
    requires c.uring.sqFillingMode == Syscall ==> c.uring.bufferSize - |s.pool| < c.uring.burstSize
    ensures CanStamp(c, s, s.pool[|s.pool| - 1])
    ensures Inv(c, PushTop(c, s)) && !PushTop(c, s).ended
    ensures Inv(c, LoseTop(c, s)) && !LoseTop(c, s).ended
  {
    TopIsFree(c, s, [], |s.pool| - 1);
    assert CanStamp(c, s, s.pool[|s.pool| - 1]);
    hide Streamed, CountedWith, OwnedOnceWith, Carried, Shaped, CanStamp, Stamped;
    PushTopCarries(c, s);
    LoseTopCarries(c, s);
    PushTopOwns(c, s);
    PushTopStreams(c, s);
  }

  lemma {:induction false} SubmitZcKeepsInv(c: Config, s: SendState, remaining: nat, room: nat)
    requires GoodConfig(c) && c.Zc() && Inv(c, s) && !s.ended && remaining <= |s.pool|
    requires c.uring.sqFillingMode == Syscall ==> c.uring.bufferSize - |s.pool| + remaining <= c.uring.burstSize
    ensures Inv(c, SubmitZc(c, s, remaining, room)) && !SubmitZc(c, s, remaining, room).ended
    decreases remaining
  {
    hide Inv, CanStamp;
    if remaining == 0 {
    } else {
      TopKeepsInv(c, s);
      if room > 0 {
        SubmitZcKeepsInv(c, PushTop(c, s), remaining - 1, room - 1);
      }
    }
  }

  // Normal submission

  lemma {:induction false} PushInOrderKeepsInv(c: Config, s: SendState, i: nat, amount: nat, room: nat)
    requires !c.Zc() && Inv(c, s) && !s.ended && amount <= c.uring.bufferSize
    ensures Inv(c, PushInOrder(c, s, i, amount, room)) && !PushInOrder(c, s, i, amount, room).ended
    decreases amount - i
  {
    if i >= amount || room == 0 {
    } else {
      PushCounts(c, s, i);
      assert Inv(c, Push(c, s, i)) by { hide Outstanding, Unresolved; }
      PushInOrderKeepsInv(c, Push(c, s, i), i + 1, amount, room - 1);
    }
  }

  lemma SubmitNormalKeepsInv(c: Config, s: SendState, amount: nat, room: nat)
    requires GoodConfig(c) && !c.Zc() && Inv(c, s) && !s.ended && amount <= c.uring.bufferSize
    ensures Inv(c, SubmitNormal(c, s, amount, room)) && !SubmitNormal(c, s, amount, room).ended
  {
    hide StampBuffers, StampIds;
    var n := if amount < |s.buffers| then amount else |s.buffers|;
    var s' := s.(buffers := StampBuffers(s.buffers, c.mss, c.ds, c.p, s.next, n));
    assert Inv(c, s') by { hide Finals; }
    PushInOrderKeepsInv(c, s', 0, amount, room);
  }

  /** A zero-copy fill is a submission of an amount the pool can serve. */
  lemma FillSubmits(c: Config, s: SendState, sqLeft: nat, cqEmpty: bool, room: nat) returns (amount: nat)
    requires GoodConfig(c) && c.Zc() && Inv(c, s) && !s.ended && sqLeft <= c.uring.ringSize
    ensures Fill(c, s, sqLeft, cqEmpty, room) == SubmitZc(c, s, amount, room)
    ensures amount <= |s.pool| && amount <= c.uring.ringSize
    ensures c.uring.sqFillingMode == Syscall ==> c.uring.bufferSize - |s.pool| + amount <= c.uring.burstSize
  {
    Census(c, s, []);
    NeverOversubscribes(PoolInflight(s), c.uring, sqLeft, cqEmpty);
    var (toSubmit, minComplete) := CalcSqFillMode(PoolInflight(s), c.uring, sqLeft, cqEmpty);
    amount := toSubmit;
  }

  lemma FillKeepsInv(c: Config, s: SendState, sqLeft: nat, cqEmpty: bool, room: nat)
    requires GoodConfig(c) && Inv(c, s) && !s.ended && sqLeft <= c.uring.ringSize
    ensures Inv(c, Fill(c, s, sqLeft, cqEmpty, room)) && !Fill(c, s, sqLeft, cqEmpty, room).ended
  {
    if c.Zc() {
      var amount := FillSubmits(c, s, sqLeft, cqEmpty, room);
      SubmitZcKeepsInv(c, s, amount, room);
    } else {
      var (toSubmit, _) := CalcSqFillMode(PoolInflight(s), c.uring, sqLeft, cqEmpty);
      NeverOversubscribes(PoolInflight(s), c.uring, sqLeft, cqEmpty);
      SubmitNormalKeepsInv(c, s, toSubmit, room);
    }
  }

  // Kernel and completion

  lemma TakeKeepsInv(c: Config, s: SendState, count: nat)
    requires Inv(c, s) && count <= |s.sq|
    ensures Inv(c, s.(sq := s.sq[count..], working := s.working + multiset(s.sq[..count])))
  {
    var t := s.(sq := s.sq[count..], working := s.working + multiset(s.sq[..count]));
    TakeCounts(c, s, count);
    TakeMoves(c, s, count);
    KernelStepKeepsInv(c, s, t);
  }

  lemma PostKeepsPoolUnused(c: Config, s: SendState, e: Cqe)
    requires !c.Zc() && PoolUnused(c, s)
    ensures PoolUnused(c, KernelPosts(c, s, e))
    ensures e.Notif? ==> KernelPosts(c, s, e) == s
  {
  }

  lemma PostKeepsInv(c: Config, s: SendState, e: Cqe)
    requires Inv(c, s)
    ensures Inv(c, KernelPosts(c, s, e))
  {
    hide Streamed, CountedWith, OwnedOnceWith, Carried, Shaped, Unresolved, Outstanding, KernelHeld, PoolUnused;
    if c.Zc() {
      PostCounts(c, s, e);
      PostMoves(c, s, e);
      KernelStepKeepsInv(c, s, KernelPosts(c, s, e));
    } else {
      PostKeepsPoolUnused(c, s, e);
      if !e.Notif? {
        PostCounts(c, s, e);
        KernelStepKeepsInv(c, s, KernelPosts(c, s, e));
      }
    }
  }

  /** The kernel passes requests on, but neither creates nor destroys any. */
  lemma KernelStepKeepsInv(c: Config, s: SendState, t: SendState)
    requires Inv(c, s)
    requires t == s.(sq := t.sq, working := t.working, awaiting := t.awaiting, cq := t.cq,
                     transmitted := t.transmitted, answered := t.answered)
    requires Unresolved(t) == Unresolved(s) && Outstanding(c, t) == Outstanding(c, s)
    requires if c.Zc() then KernelHeld(c, t) == KernelHeld(c, s) else PoolUnused(c, t)
    ensures Inv(c, t)
  {
    hide Unresolved, Outstanding, KernelHeld, PoolUnused;
    StreamedFrame(c, s, t);
    if c.Zc() {
      CarriedFrame(c, s, t);
      OwnedFrame(c, s, [], t, []);
    }
  }

  lemma IntervalKeepsInv(c: Config, s: SendState)
    requires Inv(c, s)
    ensures Inv(c, s.(past := s.past.Plus(s.statistic), statistic := NO_COUNTS))
  {
    var t := s.(past := s.past.Plus(s.statistic), statistic := NO_COUNTS);
    StreamedFrame(c, s, t);
    hide Finals, Streamed;
    if c.Zc() {
      CarriedFrame(c, s, t);
      OwnedFrame(c, s, [], t, []);
    }
  }

  lemma {:induction false} ReapKeepsInv(c: Config, s: SendState, collected: seq<nat>, completed: nat)
    requires InvWith(c, s, collected, completed) && !s.ended
    ensures Inv(c, Reap(c, s, collected, completed))
    decreases |s.cq|
  {
    hide Inv, InvWith, Tallied;
    if |s.cq| == 0 {
      ReturnKeepsInv(c, s, collected, completed);
    } else {
      var e, rest := s.cq[0], ReapOne(c, s);
      ReapOneKeepsInv(c, s, collected, completed);
      if !e.Failed? {
        ReapKeepsInv(c, rest, if GivesBack(c, e) then collected + [e.index] else collected,
                     if Completes(c, e) then completed + 1 else completed);
      }
    }
  }

  lemma ReturnMoves(c: Config, s: SendState, t: SendState, collected: seq<nat>)
    requires t.pool == s.pool + collected && t.sq == s.sq && t.working == s.working && t.awaiting == s.awaiting
    requires t.cq == s.cq && t.leaked == s.leaked
    ensures KernelHeld(c, t) == KernelHeld(c, s) && Outstanding(c, t) == Outstanding(c, s)
    ensures Owned(c, t) + multiset{} == Owned(c, s) + multiset(collected)
  {
    hide Finals;
  }

  lemma ReturnKeepsInv(c: Config, s: SendState, collected: seq<nat>, completed: nat)
    requires InvWith(c, s, collected, completed) && !s.ended
    ensures Inv(c, s.(pool := s.pool + collected, capacity := GrownCapacity(s.capacity, |s.pool + collected|),
                      inflight := s.inflight - completed, fault := s.fault || s.inflight < completed))
  {
    var t := s.(pool := s.pool + collected, capacity := GrownCapacity(s.capacity, |s.pool + collected|),
                inflight := s.inflight - completed, fault := s.fault || s.inflight < completed);
    if c.Zc() { Census(c, s, collected); }
    assert Shaped(c, t) && CountedWith(c, t, 0) && completed <= s.inflight;
    StreamedFrame(c, s, t);
    ReturnMoves(c, s, t, collected);
    hide KernelHeld, Owned, Outstanding, Streamed, Shaped, CountedWith;
    if c.Zc() {
      CarriedFrame(c, s, t);
      OwnedFrame(c, s, collected, t, []);
    }
  }

  lemma ReapOneKeepsInv(c: Config, s: SendState, collected: seq<nat>, completed: nat)
    requires InvWith(c, s, collected, completed) && !s.ended && |s.cq| > 0
    ensures var e, rest := s.cq[0], ReapOne(c, s);
      && (!e.Failed? ==> InvWith(c, rest, if GivesBack(c, e) then collected + [e.index] else collected,
                                 if Completes(c, e) then completed + 1 else completed))
      && (e.Failed? ==> Inv(c, rest.(leaked := s.leaked + multiset(collected) +
          (if c.Zc() then multiset{e.index} else multiset{}), ended := true)))
  {
    hide Streamed, CountedWith, OwnedOnceWith, Carried, PoolUnused;
    ReapOneCounts(c, s, collected, completed);
    if c.Zc() {
      ReapOneOwns(c, s, collected);
    } else {
      ReapOneLeavesPool(c, s, collected);
    }
  }

  lemma ReapOneLeavesPool(c: Config, s: SendState, collected: seq<nat>)
    requires !c.Zc() && |s.cq| > 0 && PoolUnused(c, s)
    ensures !s.cq[0].Notif? && PoolUnused(c, ReapOne(c, s))
    ensures PoolUnused(c, ReapOne(c, s).(leaked := s.leaked + multiset(collected) + multiset{}, ended := true))
  {
    assert s.cq[0] in s.cq;
  }

  lemma ReapOneCounts(c: Config, s: SendState, collected: seq<nat>, completed: nat)
    requires |s.cq| > 0 && Streamed(c, s) && CountedWith(c, s, completed) && !s.ended
    requires !c.Zc() ==> PoolUnused(c, s)
    ensures var e, rest := s.cq[0], ReapOne(c, s);
      var dropped := rest.(leaked := s.leaked + multiset(collected) +
          (if c.Zc() then multiset{e.index} else multiset{}), ended := true);
      && (!e.Failed? ==> Streamed(c, rest) && CountedWith(c, rest,
          if Completes(c, e) then completed + 1 else completed))
      && (e.Failed? ==> Streamed(c, dropped) && CountedWith(c, dropped, 0))
  {
    var e, rest := s.cq[0], ReapOne(c, s);
    assert e in s.cq;
    ReapCounts(c, s);
    hide Outstanding, Unresolved;
    if e.Failed? {
      StreamedFrame(c, s, rest.(leaked := s.leaked + multiset(collected) +
          (if c.Zc() then multiset{e.index} else multiset{}), ended := true));
    } else {
      hide Streamed;
    }
  }

  lemma ReapOneOwns(c: Config, s: SendState, collected: seq<nat>)
    requires c.Zc() && |s.cq| > 0 && OwnedOnceWith(c, s, collected) && Carried(c, s)
    ensures var e, rest := s.cq[0], ReapOne(c, s);
      var dropped := rest.(leaked := s.leaked + multiset(collected) + multiset{e.index}, ended := true);
      && Carried(c, rest) && Carried(c, dropped)
      && (!e.Failed? ==> OwnedOnceWith(c, rest, if GivesBack(c, e) then collected + [e.index] else collected))
      && (e.Failed? ==> OwnedOnceWith(c, dropped, []))
  {
    ReapMoves(c, s, collected);
    ReapReleases(c, s);
    var e, rest := s.cq[0], ReapOne(c, s);
    var dropped := rest.(leaked := s.leaked + multiset(collected) + multiset{e.index}, ended := true);
    assert KernelHeld(c, dropped) == KernelHeld(c, rest);
    hide KernelHeld, Owned;
    CarriedFrame(c, s, rest);
    CarriedFrame(c, s, dropped);
    if e.Failed? {
      OwnedFrame(c, s, collected, dropped, []);
    } else {
      OwnedFrame(c, s, collected, rest, if GivesBack(c, e) then collected + [e.index] else collected);
    }
  }

  lemma StepKeepsInv(c: Config, s: SendState, e: Event)
    requires GoodConfig(c) && Inv(c, s)
    ensures Inv(c, Step(c, s, e))
  {
    if !s.ended && !s.fault {
      match e {
        case IntervalEnds => IntervalKeepsInv(c, s);
        case FillSq(sqLeft, cqEmpty, room) =>
          FillKeepsInv(c, s, if sqLeft < c.uring.ringSize then sqLeft else c.uring.ringSize, cqEmpty, room);
        case KernelTakes(count) => if count <= |s.sq| { TakeKeepsInv(c, s, count); }
        case KernelAnswers(cqe) => PostKeepsInv(c, s, cqe);
        case ReapCq => ReapKeepsInv(c, s, [], 0);
      }
    }
  }

  /** The buffers a run starts with. */
  ghost predicate GoodBuffers(c: Config, buffers: seq<seq<Byte>>) {
    |buffers| == c.uring.bufferSize && AllSized(buffers, c.mss)
  }

  lemma InitialInv(c: Config, buffers: seq<seq<Byte>>)
    requires GoodConfig(c) && GoodBuffers(c, buffers)
    ensures Inv(c, Initial(buffers))
  {
    RR.InitialPool(|buffers|);
    var s := Initial(buffers);
    assert KernelHeld(c, s) == multiset{};
    assert Owned(c, s) + multiset{} == RR.Indexes(|buffers|);
  }

  lemma {:induction false} InvAlways(c: Config, buffers: seq<seq<Byte>>, events: seq<Event>)
    requires GoodConfig(c) && GoodBuffers(c, buffers)
    ensures Inv(c, After(c, buffers, events))
  {
    hide Inv, Step;
    if |events| == 0 {
      InitialInv(c, buffers);
    } else {
      var last := |events| - 1;
      InvAlways(c, buffers, events[..last]);
      StepKeepsInv(c, After(c, buffers, events[..last]), events[last]);
    }
  }

  lemma InitialRun(c: Config, buffers: seq<seq<Byte>>)
    requires GoodConfig(c) && GoodBuffers(c, buffers)
    ensures After(c, buffers, []) == Initial(buffers) && Inv(c, Initial(buffers))
    ensures LoopRun(c, buffers, []) && !FilledLast([])
    ensures
      var s := Initial(buffers);
      && s.sq == [] && s.working == multiset{} && s.cq == [] && s.transmitted == [] && s.pushed == [] && s.next == 0
      && !s.ended && s.buffers == buffers
  {
    hide Inv;
    InitialInv(c, buffers);
  }

  // What the invariant means

  /** Zero copy, every state of every run: pool, kernel side and leaked indexes are disjoint,
      duplicate-free and together all indexes. */
  lemma EveryBufferHasOneOwner(c: Config, buffers: seq<seq<Byte>>, events: seq<Event>)
    requires GoodConfig(c) && GoodBuffers(c, buffers) && c.Zc()
    ensures
      var s := After(c, buffers, events);
      && (forall i, j :: 0 <= i < j < |s.pool| ==> s.pool[i] != s.pool[j])
      && (forall i: nat ::
            multiset(s.pool)[i] + KernelHeld(c, s)[i] + s.leaked[i] == if i < c.uring.bufferSize then 1 else 0)
      && (forall i :: i in multiset(s.pool) ==> i < c.uring.bufferSize && i !in KernelHeld(c, s) && i !in s.leaked)
  {
    hide KernelHeld, Inv, After;
    InvAlways(c, buffers, events);
    InvOwnsOnce(c, After(c, buffers, events));
  }

  lemma InvOwnsOnce(c: Config, s: SendState)
    requires Inv(c, s) && c.Zc()
    ensures multiset(s.pool) + KernelHeld(c, s) + s.leaked == RR.Indexes(c.uring.bufferSize)
    ensures forall i, j :: 0 <= i < j < |s.pool| ==> s.pool[i] != s.pool[j]
    ensures forall i: nat ::
        multiset(s.pool)[i] + KernelHeld(c, s)[i] + s.leaked[i] == if i < c.uring.bufferSize then 1 else 0
    ensures forall i :: i in multiset(s.pool) ==> i < c.uring.bufferSize && i !in KernelHeld(c, s) && i !in s.leaked
  {
    hide KernelHeld;
    assert Owned(c, s) + multiset{} == Owned(c, s);
    RR.OneOwnerEach(s.pool, KernelHeld(c, s), s.leaked, c.uring.bufferSize);
  }

  /** The submission queue takes fewer requests than the fill decides to submit. */
  ghost predicate PushFails(c: Config, s: SendState, e: Event)
    requires GoodConfig(c)
  {
    && e.FillSq? && !s.fault && !s.ended
    && e.room < CalcSqFillMode(PoolInflight(s), c.uring, Left(c, e.sqLeft), e.cqEmpty).0
  }

  function Left(c: Config, sqLeft: nat): nat {
    if sqLeft < c.uring.ringSize then sqLeft else c.uring.ringSize
  }

  ghost predicate HasPushFailure(c: Config, buffers: seq<seq<Byte>>, events: seq<Event>)
    requires GoodConfig(c)
  {
    exists k {:trigger events[k]} :: 0 <= k < |events| && PushFails(c, After(c, buffers, events[..k]), events[k])
  }

  /** Zero copy, over every run: nothing has leaked, and pool and kernel side partition the indexes,
      exactly as long as no push has failed and no fatal error has ended the run. */
  lemma PartitionWithoutPushFailure(c: Config, buffers: seq<seq<Byte>>, events: seq<Event>)
    requires GoodConfig(c) && GoodBuffers(c, buffers) && c.Zc()
    ensures
      var s := After(c, buffers, events);
      var clean := !HasPushFailure(c, buffers, events) && !s.ended;
      && (s.leaked == multiset{} <==> clean)
      && (multiset(s.pool) + KernelHeld(c, s) == RR.Indexes(c.uring.bufferSize) <==> clean)
  {
    hide After, KernelHeld, HasPushFailure, Inv;
    InvAlways(c, buffers, events);
    LeaksExactly(c, buffers, events);
    LeakFreeIsPartition(c, After(c, buffers, events));
  }

  lemma LeakFreeIsPartition(c: Config, s: SendState)
    requires Inv(c, s) && c.Zc()
    ensures multiset(s.pool) + KernelHeld(c, s) == RR.Indexes(c.uring.bufferSize) <==> s.leaked == multiset{}
  {
    hide KernelHeld, Inv;
    InvOwnsOnce(c, s);
    var rest := multiset(s.pool) + KernelHeld(c, s);
    assert rest + s.leaked - rest == s.leaked;
  }

  lemma {:induction false} LeaksExactly(c: Config, buffers: seq<seq<Byte>>, events: seq<Event>)
    requires GoodConfig(c) && GoodBuffers(c, buffers) && c.Zc()
    ensures After(c, buffers, events).leaked == multiset{}
      <==> !HasPushFailure(c, buffers, events) && !After(c, buffers, events).ended
  {
    hide Inv, Step, PushFails;
    if |events| == 0 {
    } else {
      hide HasPushFailure;
      var last := |events| - 1;
      LeaksExactly(c, buffers, events[..last]);
      InvAlways(c, buffers, events[..last]);
      StepLeaksExactly(c, After(c, buffers, events[..last]), events[last]);
      PushFailureSplits(c, buffers, events);
    }
  }

  lemma PushFailureSplits(c: Config, buffers: seq<seq<Byte>>, events: seq<Event>)
    requires GoodConfig(c) && |events| > 0
    ensures
      var last := |events| - 1;
      HasPushFailure(c, buffers, events) <==>
        HasPushFailure(c, buffers, events[..last]) || PushFails(c, After(c, buffers, events[..last]), events[last])
  {
    hide PushFails, After;
    var last := |events| - 1;
    assert forall k :: 0 <= k < last ==> events[..last][k] == events[k] && events[..last][..k] == events[..k];
  }

  lemma StepLeaksExactly(c: Config, s: SendState, e: Event)
    requires GoodConfig(c) && c.Zc() && Inv(c, s)
    ensures Step(c, s, e).leaked == multiset{} && !Step(c, s, e).ended
      <==> s.leaked == multiset{} && !s.ended && !PushFails(c, s, e) && !Step(c, s, e).ended
    ensures Step(c, s, e).ended && !s.ended ==> Step(c, s, e).leaked != multiset{}
    ensures s.ended ==> Step(c, s, e) == s
  {
    hide Inv, Fill, CanStamp;
    if !s.ended && !s.fault {
      match e {
        case FillSq(sqLeft, cqEmpty, room) => FillLeaksExactly(c, s, sqLeft, cqEmpty, room);
        case ReapCq => ReapLeaksExactly(c, s, [], 0);
        case IntervalEnds =>
        case KernelTakes(_) =>
        case KernelAnswers(_) =>
      }
    }
  }

  lemma FillLeaksExactly(c: Config, s: SendState, sqLeft: nat, cqEmpty: bool, room: nat)
    requires GoodConfig(c) && c.Zc() && Inv(c, s) && !s.ended && !s.fault
    ensures
      var t := Fill(c, s, Left(c, sqLeft), cqEmpty, room);
      !t.ended && (t.leaked == multiset{} <==>
          s.leaked == multiset{} && !PushFails(c, s, FillSq(sqLeft, cqEmpty, room)))
  {
    var left := Left(c, sqLeft);
    FillKeepsInv(c, s, left, cqEmpty, room);
    Census(c, s, []);
    NeverOversubscribes(PoolInflight(s), c.uring, left, cqEmpty);
    var (toSubmit, _) := CalcSqFillMode(PoolInflight(s), c.uring, left, cqEmpty);
    hide Inv, Outstanding, Owned;
    SubmitsNothing(c, s, room);
    assert Fill(c, s, left, cqEmpty, room) == SubmitZc(c, s, toSubmit, room);
    PushesLeakExactly(c, s, toSubmit, room);
  }

  lemma SubmitsNothing(c: Config, s: SendState, room: nat)
    ensures SubmitZc(c, s, 0, room) == s
  {
  }

  lemma {:induction false} PushesLeakExactly(c: Config, s: SendState, remaining: nat, room: nat)
    requires GoodConfig(c) && c.Zc() && Inv(c, s) && !s.ended && remaining <= |s.pool|
    requires c.uring.sqFillingMode == Syscall ==> c.uring.bufferSize - |s.pool| + remaining <= c.uring.burstSize
    ensures SubmitZc(c, s, remaining, room).leaked == multiset{} <==> s.leaked == multiset{} && remaining <= room
    decreases remaining
  {
    hide Inv, CanStamp, Stamped;
    if remaining == 0 {
    } else {
      TopKeepsInv(c, s);
      if room == 0 {
        assert s.pool[|s.pool| - 1] in LoseTop(c, s).leaked;
      } else {
        PushesLeakExactly(c, PushTop(c, s), remaining - 1, room - 1);
      }
    }
  }

  lemma {:induction false} ReapLeaksExactly(c: Config, s: SendState, collected: seq<nat>, completed: nat)
    requires c.Zc() && !s.ended
    ensures
      var t := Reap(c, s, collected, completed);
      if t.ended then t.leaked != multiset{} else t.leaked == s.leaked
    decreases |s.cq|
  {
    if |s.cq| == 0 {
    } else if s.cq[0].Failed? {
      assert s.cq[0].index in Reap(c, s, collected, completed).leaked;
    } else {
      var e := s.cq[0];
      ReapLeaksExactly(c, ReapOne(c, s), if GivesBack(c, e) then collected + [e.index] else collected,
                       if Completes(c, e) then completed + 1 else completed);
    }
  }

  // In-flight immutability

  /** The bytes of buffer i, and the record of what was pushed in it, are the same. */
  ghost predicate Untouched(s: SendState, t: SendState, i: nat) {
    && i < |s.buffers| == |t.buffers| && t.buffers[i] == s.buffers[i]
    && i in s.payload && i in t.payload && t.payload[i] == s.payload[i]
  }

  /** The payload of a buffer the kernel holds is not touched by any step, whichever it is. */
  lemma StepLeavesHeldBuffers(c: Config, s: SendState, e: Event, i: nat)
    requires GoodConfig(c) && c.Zc() && Inv(c, s) && i in KernelHeld(c, s)
    ensures Untouched(s, Step(c, s, e), i)
  {
    HeldUntouched(c, s, i);
    hide Inv, Fill, KernelHeld, Untouched;
    if !s.ended && !s.fault && e.FillSq? {
      var left := if e.sqLeft < c.uring.ringSize then e.sqLeft else c.uring.ringSize;
      var amount := FillSubmits(c, s, left, e.cqEmpty, e.room);
      SubmitLeavesHeldBuffers(c, s, amount, e.room, i);
    } else {
      OtherStepsLeaveBuffers(c, s, e);
      UntouchedFrame(s, Step(c, s, e), i);
    }
  }

  lemma OtherStepsLeaveBuffers(c: Config, s: SendState, e: Event)
    requires !e.FillSq? || s.ended || s.fault
    ensures Step(c, s, e).buffers == s.buffers && Step(c, s, e).payload == s.payload
  {
    if e.ReapCq? { ReapLeavesBuffers(c, s, [], 0); }
  }

  lemma UntouchedFrame(s: SendState, t: SendState, i: nat)
    requires Untouched(s, s, i) && t.buffers == s.buffers && t.payload == s.payload
    ensures Untouched(s, t, i)
  {
  }

  lemma {:induction false} SubmitLeavesHeldBuffers(c: Config, s: SendState, remaining: nat, room: nat, i: nat)
    requires GoodConfig(c) && c.Zc() && Inv(c, s) && !s.ended && i in KernelHeld(c, s) && remaining <= |s.pool|
    requires c.uring.sqFillingMode == Syscall ==> c.uring.bufferSize - |s.pool| + remaining <= c.uring.burstSize
    ensures Untouched(s, SubmitZc(c, s, remaining, room), i)
    decreases remaining
  {
    hide Inv, KernelHeld, CanStamp, GoodConfig, PushTop, LoseTop, Untouched;
    if remaining == 0 {
      HeldUntouched(c, s, i);
    } else {
      var t, lost := TopStepHolds(c, s, i);
      if room > 0 {
        SubmitLeavesHeldBuffers(c, t, remaining - 1, room - 1, i);
        UntouchedTwice(s, t, SubmitZc(c, s, remaining, room), i);
      }
    }
  }

  /** One zero-copy push, and one failing push, seen from a buffer the kernel holds. */
  lemma TopStepHolds(c: Config, s: SendState, i: nat) returns (t: SendState, lost: SendState)
    requires GoodConfig(c) && c.Zc() && Inv(c, s) && !s.ended && i in KernelHeld(c, s) && |s.pool| > 0
    requires c.uring.sqFillingMode == Syscall ==> c.uring.bufferSize - |s.pool| < c.uring.burstSize
    ensures CanStamp(c, s, s.pool[|s.pool| - 1]) && t == PushTop(c, s) && lost == LoseTop(c, s)
    ensures Inv(c, t) && !t.ended && i in KernelHeld(c, t) && |t.pool| == |s.pool| - 1
    ensures Untouched(s, t, i) && Untouched(s, lost, i)
  {
    hide Inv, KernelHeld, CanStamp, GoodConfig, PushTop, LoseTop, Untouched, CarriesItsIds;
    TopKeepsInv(c, s);
    t, lost := PushTop(c, s), LoseTop(c, s);
    HeldHasPayload(c, s, i);
    TopIsNotHeld(c, s);
    PushTopHolds(c, s, i);
    TopLeavesOthers(c, s, i);
  }

  lemma TopIsNotHeld(c: Config, s: SendState)
    requires c.Zc() && Inv(c, s) && |s.pool| > 0
    ensures s.pool[|s.pool| - 1] !in KernelHeld(c, s)
  {
    InvOwnsOnce(c, s);
    hide Inv, KernelHeld;
    assert s.pool[|s.pool| - 1] in multiset(s.pool);
  }

  lemma HeldUntouched(c: Config, s: SendState, i: nat)
    requires c.Zc() && Inv(c, s) && i in KernelHeld(c, s)
    ensures Untouched(s, s, i)
  {
    HeldHasPayload(c, s, i);
  }

  lemma UntouchedTwice(s: SendState, t: SendState, u: SendState, i: nat)
    requires Untouched(s, t, i) && Untouched(t, u, i)
    ensures Untouched(s, u, i)
  {
  }

  lemma PushTopHolds(c: Config, s: SendState, i: nat)
    requires |s.pool| > 0 && CanStamp(c, s, s.pool[|s.pool| - 1]) && i in KernelHeld(c, s)
    ensures |PushTop(c, s).pool| == |s.pool| - 1 && i in KernelHeld(c, PushTop(c, s))
  {
    PushTopMoves(c, s);
    hide StampIds, KernelHeld;
  }

  lemma TopLeavesOthers(c: Config, s: SendState, i: nat)
    requires |s.pool| > 0 && CanStamp(c, s, s.pool[|s.pool| - 1]) && s.pool[|s.pool| - 1] != i
    requires i in s.payload && i < |s.buffers|
    ensures Untouched(s, PushTop(c, s), i) && Untouched(s, LoseTop(c, s), i)
  {
    hide Stamped;
  }

  lemma {:induction false} ReapLeavesBuffers(c: Config, s: SendState, collected: seq<nat>, completed: nat)
    ensures Reap(c, s, collected, completed).buffers == s.buffers
    ensures Reap(c, s, collected, completed).payload == s.payload
    decreases |s.cq|
  {
    if |s.cq| == 0 || s.cq[0].Failed? {
    } else {
      var e := s.cq[0];
      ReapLeavesBuffers(c, ReapOne(c, s), if GivesBack(c, e) then collected + [e.index] else collected,
                        if Completes(c, e) then completed + 1 else completed);
    }
  }

  /** Zero copy: while the kernel holds a buffer, from its push until its notification is reaped,
      the bytes stay those of the push. */
  lemma {:induction false} InFlightBuffersAreImmutable(c: Config, buffers: seq<seq<Byte>>, events: seq<Event>, k: nat,
                                                       i: nat)
    requires GoodConfig(c) && GoodBuffers(c, buffers) && c.Zc() && k <= |events|
    requires forall m :: k <= m <= |events| ==> i in KernelHeld(c, After(c, buffers, events[..m]))
    ensures Untouched(After(c, buffers, events[..k]), After(c, buffers, events), i)
  {
    hide KernelHeld, Step, Inv;
    assert i in KernelHeld(c, After(c, buffers, events[..k]));
    if k == |events| {
      assert events[..k] == events;
      InvAlways(c, buffers, events);
      HeldHasPayload(c, After(c, buffers, events), i);
    } else {
      var last := |events| - 1;
      forall m | k <= m <= last ensures i in KernelHeld(c, After(c, buffers, events[..last][..m])) {
        assert events[..last][..m] == events[..m];
      }
      InFlightBuffersAreImmutable(c, buffers, events[..last], k, i);
      assert events[..last][..k] == events[..k];
      InvAlways(c, buffers, events[..last]);
      assert i in KernelHeld(c, After(c, buffers, events[..last]));
      StepLeavesHeldBuffers(c, After(c, buffers, events[..last]), events[last], i);
    }
  }

  lemma HeldHasPayload(c: Config, s: SendState, i: nat)
    requires c.Zc() && Inv(c, s) && i in KernelHeld(c, s)
    ensures i in s.payload && i < |s.buffers| && s.buffers[i] == s.payload[i].bytes
    ensures CarriesItsIds(c, s.payload[i]) && s.payload[i].first in s.pushed
  {
    hide KernelHeld;
  }

  /** And those bytes are datagrams with exactly the ids assigned by that push. */
  lemma HeldBuffersCarryTheirIds(c: Config, buffers: seq<seq<Byte>>, events: seq<Event>, i: nat)
    requires GoodConfig(c) && GoodBuffers(c, buffers) && c.Zc()
    requires HoldsHeaders(c.mss, c.ds) && c.p == PacketCount(c.mss, c.ds)
    requires i in KernelHeld(c, After(c, buffers, events))
    ensures
      var s := After(c, buffers, events);
      && i in s.payload && s.payload[i].first in s.pushed && i < |s.buffers|
      && AllHaveHeaders(Chunks(s.buffers[i], c.ds))
      && (s.payload[i].first + c.p <= U64_LIMIT ==>
          IdsOf(Chunks(s.buffers[i], c.ds)) == IdRange(s.payload[i].first, c.p))
  {
    var s := After(c, buffers, events);
    InvAlways(c, buffers, events);
    HeldHasPayload(c, s, i);
    hide Inv, KernelHeld, StampIds, HoldsHeaders, PacketCount, Chunks, GetPacketId;
    var before :| |before| == c.mss && s.payload[i].bytes == StampIds(before, c.ds, s.payload[i].first, c.p);
    ChunkCount(s.buffers[i], c.ds);
    if s.payload[i].first + c.p <= U64_LIMIT {
      StampThenChunk(before, c.ds, s.payload[i].first);
    }
  }

  /** Normal mode has no such guarantee. Submitting `amount` requests stamps the first `amount`
      buffers anew, with ids from the next one on, whoever holds them, and only those. */
  lemma NormalModeRestampsHeldBuffers(c: Config, s: SendState, amount: nat, room: nat, i: nat)
    requires GoodConfig(c) && !c.Zc() && Inv(c, s) && amount <= c.uring.bufferSize && i < |s.buffers|
    ensures
      var t := SubmitNormal(c, s, amount, room);
      && |t.buffers| == |s.buffers| && PacketsFit(|s.buffers[i]|, c.ds, c.p)
      && t.buffers[i] == if i < amount then StampIds(s.buffers[i], c.ds, s.next + i * c.p, c.p) else s.buffers[i]
  {
    hide StampBuffers, StampIds, PushInOrder;
    var n := if amount < |s.buffers| then amount else |s.buffers|;
    PushInOrderLeavesBuffers(c, s.(buffers := StampBuffers(s.buffers, c.mss, c.ds, c.p, s.next, n)), 0, amount, room);
    if i < amount {
      StampedAt(s.buffers, c.mss, c.ds, c.p, s.next, n, i);
      StartIsProduct(i, c.p);
    }
  }

  lemma {:induction false} PushInOrderLeavesBuffers(c: Config, s: SendState, i: nat, amount: nat, room: nat)
    ensures PushInOrder(c, s, i, amount, room).buffers == s.buffers
    decreases amount - i
  {
    if i >= amount || i >= |s.buffers| || room == 0 {
    } else {
      PushInOrderLeavesBuffers(c, Push(c, s, i), i + 1, amount, room - 1);
    }
  }

  // Counting over whole runs

  /** Both modes, over every run: the first ids of the pushed requests are 0, p, 2p, ... even
      when pushing stops early, and, until a fatal error, every id handed out is in a datagram
      counted as sent, in one counted as omitted, or in a request without a reaped result. */
  lemma SendConservation(c: Config, buffers: seq<seq<Byte>>, events: seq<Event>)
    requires GoodConfig(c) && GoodBuffers(c, buffers)
    ensures
      var s := After(c, buffers, events);
      && s.next == |s.pushed| * c.p
      && (forall i :: 0 <= i < |s.pushed| ==> s.pushed[i] == i * c.p)
      && (!s.ended ==>
            s.next == (s.past.datagrams + s.statistic.datagrams) + (s.past.omitted + s.statistic.omitted) +
                Unresolved(s) * c.p)
  {
    var s := After(c, buffers, events);
    InvAlways(c, buffers, events);
    hide Unresolved;
    StartIsProduct(|s.pushed|, c.p);
    StartIsProduct(Unresolved(s), c.p);
    forall i | 0 <= i < |s.pushed| ensures s.pushed[i] == i * c.p {
      StartIsProduct(i, c.p);
    }
  }

  /** Both modes, over every run: no buffer lookup fails and the loop's counter never underflows.
      It equals the outstanding requests plus one for every request ever turned down for lack of
      room, so it never under-counts, and over-counts for good after the first such answer. In
      zero-copy mode the outstanding requests, pool and leaked buffers add up to all buffers. */
  lemma CounterNeverUnderCounts(c: Config, buffers: seq<seq<Byte>>, events: seq<Event>)
    requires GoodConfig(c) && GoodBuffers(c, buffers)
    ensures
      var s := After(c, buffers, events);
      && !s.fault
      && (!s.ended ==> s.inflight == Outstanding(c, s) + s.again)
      && (c.Zc() ==> |s.pool| + Outstanding(c, s) + |s.leaked| == c.uring.bufferSize)
      && (!c.Zc() ==> PoolInflight(s) == 0)
  {
    var s := After(c, buffers, events);
    InvAlways(c, buffers, events);
    if c.Zc() { Census(c, s, []); }
  }

  /** Zero copy in Syscall mode: never more than a burst is out, requests are submitted only when
      every buffer is back in the pool, and the exhausted-pool branch is never entered. */
  lemma SyscallMimicsSyscall(c: Config, buffers: seq<seq<Byte>>, events: seq<Event>, sqLeft: nat, cqEmpty: bool,
                             room: nat)
    requires GoodConfig(c) && GoodBuffers(c, buffers) && c.Zc() && c.uring.sqFillingMode == Syscall
    ensures
      var s := After(c, buffers, events);
      && PoolInflight(s) <= c.uring.burstSize
      && PoolInflight(s) <= c.uring.bufferSize - c.uring.burstSize
      && (Fill(c, s, sqLeft, cqEmpty, room) != s ==> PoolInflight(s) == 0 && Outstanding(c, s) == 0)
  {
    InvAlways(c, buffers, events);
    Census(c, After(c, buffers, events), []);
  }

  /** Zero copy in Topup mode waits only for owed completions: the requests outstanding after the
      submission cover the completions waited for unless leaks have eaten the pool up. */
  lemma TopupNeverWaitsForTheImpossible(c: Config, buffers: seq<seq<Byte>>, events: seq<Event>, cqEmpty: bool)
    requires GoodConfig(c) && GoodBuffers(c, buffers) && c.Zc()
    requires c.uring.sqFillingMode == Topup && !c.uring.sqpoll && c.uring.burstSize > 0
    ensures
      var s := After(c, buffers, events);
      var (toSubmit, minComplete) := CalcSqFillMode(PoolInflight(s), c.uring, c.uring.ringSize, cqEmpty);
      && (Outstanding(c, s) + toSubmit >= minComplete <==>
            !(PoolInflight(s) > c.uring.bufferSize - c.uring.burstSize && cqEmpty &&
                Outstanding(c, s) < c.uring.burstSize))
      && (s.leaked == multiset{} ==> Outstanding(c, s) + toSubmit >= minComplete)
      && (toSubmit == 0 && minComplete == 0 ==> !cqEmpty)
  {
    var s := After(c, buffers, events);
    InvAlways(c, buffers, events);
    Census(c, s, []);
    TopupWaitIsOwedExactly(c.uring, PoolInflight(s), |s.leaked|, cqEmpty);
  }

  /** Zero copy in Syscall mode waits only for owed completions exactly as long as the pool is full
      or a whole burst is outstanding; from a full pool it waits for as many as it asks to submit. */
  lemma SyscallWaitsForTheOwedExactly(c: Config, buffers: seq<seq<Byte>>, events: seq<Event>, sqLeft: nat,
                                      cqEmpty: bool)
    requires GoodConfig(c) && GoodBuffers(c, buffers) && c.Zc()
    requires c.uring.sqFillingMode == Syscall && !c.uring.sqpoll && c.uring.burstSize > 0
    ensures
      var s := After(c, buffers, events);
      var (toSubmit, minComplete) := CalcSqFillMode(PoolInflight(s), c.uring, sqLeft, cqEmpty);
      && (Outstanding(c, s) + toSubmit >= minComplete <==>
            |s.pool| == c.uring.bufferSize || Outstanding(c, s) >= c.uring.burstSize)
      && (|s.pool| == c.uring.bufferSize ==> toSubmit == minComplete == c.uring.burstSize)
  {
    var s := After(c, buffers, events);
    InvAlways(c, buffers, events);
    Census(c, s, []);
    SyscallWaitIsOwedExactly(c.uring, PoolInflight(s), |s.leaked|, sqLeft, cqEmpty);
  }

  // How much a zero-copy fill moves

  /** Buffers are taken from the top of the pool down and pushed, as many as are asked for and fit;
      each uses up the packet ids of one message. If one more was asked for, it is lost. */
  lemma {:induction false} SubmitMovesExactly(c: Config, s: SendState, remaining: nat, room: nat)
    requires GoodConfig(c) && c.Zc() && Inv(c, s) && !s.ended && remaining <= |s.pool|
    requires c.uring.sqFillingMode == Syscall ==> c.uring.bufferSize - |s.pool| + remaining <= c.uring.burstSize
    ensures MovesExactly(c, s, remaining, room, SubmitZc(c, s, remaining, room))
    decreases remaining
  {
    hide Inv, CanStamp, Stamped, RR.TopDown, MovesExactly, SubmitZc;
    SubmitZcStep(c, s, remaining, room);
    if remaining > 0 {
      TopKeepsInv(c, s);
      if room > 0 {
        SubmitMovesExactly(c, PushTop(c, s), remaining - 1, room - 1);
        OneMoreMoves(c, s, PushTop(c, s), remaining, room, SubmitZc(c, s, remaining, room));
      }
    }
  }

  ghost predicate MovesExactly(c: Config, s: SendState, remaining: nat, room: nat, t: SendState)
    requires remaining <= |s.pool|
  {
    var n := Least(remaining, room);
    var lost := if room < remaining then 1 else 0;
    && t.sq == s.sq + RR.TopDown(s.pool, n) && t.pool == s.pool[..|s.pool| - n - lost]
    && t.leaked == s.leaked + (if lost == 1 then multiset{s.pool[|s.pool| - 1 - n]} else multiset{})
    && t.next == s.next + Start(n, c.p) && t.inflight == s.inflight + n
    && t.cq == s.cq && t.working == s.working && t.awaiting == s.awaiting && t.statistic == s.statistic
  }

  lemma SubmitZcStep(c: Config, s: SendState, remaining: nat, room: nat)
    requires remaining <= |s.pool|
    ensures remaining == 0 ==> SubmitZc(c, s, remaining, room) == s && MovesExactly(c, s, remaining, room, s)
    ensures remaining > 0 && CanStamp(c, s, s.pool[|s.pool| - 1]) ==>
      SubmitZc(c, s, remaining, room) ==
        if room == 0 then LoseTop(c, s) else SubmitZc(c, PushTop(c, s), remaining - 1, room - 1)
    ensures remaining > 0 && CanStamp(c, s, s.pool[|s.pool| - 1]) && room == 0 ==>
      MovesExactly(c, s, remaining, room, LoseTop(c, s))
  {
    hide CanStamp, Stamped;
    assert s.pool[..|s.pool|] == s.pool && s.sq + RR.TopDown(s.pool, 0) == s.sq;
  }

  lemma OneMoreMoves(c: Config, s: SendState, pushed: SendState, remaining: nat, room: nat, t: SendState)
    requires 0 < remaining <= |s.pool| && room > 0
    requires
      var last := |s.pool| - 1;
      pushed == s.(pool := s.pool[..last], sq := s.sq + [s.pool[last]], next := s.next + c.p,
                   inflight := s.inflight + 1, buffers := pushed.buffers, payload := pushed.payload,
                   pushed := pushed.pushed)
    requires MovesExactly(c, pushed, remaining - 1, room - 1, t)
    ensures MovesExactly(c, s, remaining, room, t)
  {
    hide RR.TopDown;
    RR.TopFirst(s.sq, s.pool, Least(remaining, room));
  }

  /** A zero-copy fill in any reachable state moves exactly the requests decided on, as far as the
      queue has room. */
  lemma FillMovesExactly(c: Config, s: SendState, sqLeft: nat, cqEmpty: bool, room: nat)
    requires GoodConfig(c) && c.Zc() && Inv(c, s) && !s.ended && sqLeft <= c.uring.ringSize
    ensures
      var (toSubmit, _) := CalcSqFillMode(PoolInflight(s), c.uring, sqLeft, cqEmpty);
      toSubmit <= |s.pool| && MovesExactly(c, s, toSubmit, room, Fill(c, s, sqLeft, cqEmpty, room))
  {
    hide Inv, MovesExactly, CalcSqFillMode, SubmitZc, Fill;
    Affordable(c, s, sqLeft, cqEmpty, room);
    var (toSubmit, _) := CalcSqFillMode(PoolInflight(s), c.uring, sqLeft, cqEmpty);
    SubmitMovesExactly(c, s, toSubmit, room);
  }

  lemma Affordable(c: Config, s: SendState, sqLeft: nat, cqEmpty: bool, room: nat)
    requires GoodConfig(c) && c.Zc() && Inv(c, s) && !s.ended && sqLeft <= c.uring.ringSize
    ensures
      var (toSubmit, _) := CalcSqFillMode(PoolInflight(s), c.uring, sqLeft, cqEmpty);
      && toSubmit <= |s.pool| && Fill(c, s, sqLeft, cqEmpty, room) == SubmitZc(c, s, toSubmit, room)
      && (c.uring.sqFillingMode == Syscall ==> c.uring.bufferSize - |s.pool| + toSubmit <= c.uring.burstSize)
  {
    Census(c, s, []);
    NeverOversubscribes(PoolInflight(s), c.uring, sqLeft, cqEmpty);
  }
}
