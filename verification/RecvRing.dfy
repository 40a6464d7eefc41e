/** Ownership of receive buffers on an io_uring instance in Normal mode: the index pool, the
    submission queue, the kernel and the completion queue pass buffer indexes around. */
module RecvRing {
  import opened PacketBuffers
  import opened FillMode

  /** How reaping treats a completion: the buffer goes back to the pool, or reaping stops early
      (no message at the socket, or the LAST message of a test), or a fatal error ends the run. */
  datatype Fate = Returned | StopsEarly | Fatal

  datatype Cqe = Cqe(index: nat, fate: Fate)

  /** `leaked` collects the indexes reaping dropped; no code holds them any more. `inflight` is
      the loop's own counter. `fault` marks an empty pool, an underflow or a completion queue
      overflow, `ended` a fatal error return. */
  datatype RingState = RingState(
    pool: seq<nat>,
    capacity: nat,
    sq: seq<nat>,
    kernel: multiset<nat>,
    cq: seq<Cqe>,
    leaked: multiset<nat>,
    inflight: int,
    fault: bool,
    ended: bool)

  function Initial(n: nat): RingState {
    RingState(seq(n, i => i), n, [], multiset{}, [], multiset{}, 0, false, false)
  }

  function PoolInflight(s: RingState): nat {
    if |s.pool| <= s.capacity then s.capacity - |s.pool| else 0
  }

  /** Pushes up to `remaining` requests; the push after `room` successful ones fails and its
      buffer index is put back. */
  function Submit(s: RingState, remaining: nat, room: nat): RingState
    decreases remaining
  {
    if remaining == 0 then s
    else if |s.pool| == 0 then s.(fault := true)
    else
      var index, rest := s.pool[|s.pool| - 1], s.pool[..|s.pool| - 1];
      if room == 0 then s.(pool := rest + [index], capacity := GrownCapacity(s.capacity, |s.pool|))
      else Submit(s.(pool := rest, sq := s.sq + [index], inflight := s.inflight + 1), remaining - 1, room - 1)
  }

  /** One call of fill_sq_and_submit. The reads of the two queues, and the number of successful
      pushes, are the environment's: with a polling kernel thread they may all be stale. */
  function Fill(p: UringParameter, s: RingState, sqLeft: nat, cqEmpty: bool, room: nat): RingState {
    if p.burstSize > p.bufferSize then s.(fault := true)
    else
      var (toSubmit, minComplete) := CalcSqFillMode(PoolInflight(s), p, sqLeft, cqEmpty);
      if toSubmit == 0 && minComplete == 0 then s else Submit(s, toSubmit, room)
  }

  /** Drains the completion queue. `collected` indexes go back to the pool only if the loop runs
      to its end. */
  function Reap(s: RingState, collected: seq<nat>): RingState
    decreases |s.cq|
  {
    if |s.cq| == 0 then
      s.(pool := s.pool + collected,
         capacity := GrownCapacity(s.capacity, |s.pool + collected|),
         inflight := s.inflight - |collected|,
         fault := s.fault || s.inflight < |collected|)
    else
      var head, rest := s.cq[0], s.(cq := s.cq[1..]);
      match head.fate
      case Returned => Reap(rest, collected + [head.index])
      case StopsEarly => rest.(leaked := s.leaked + multiset(collected) + multiset{head.index})
      case Fatal => rest.(leaked := s.leaked + multiset(collected) + multiset{head.index}, ended := true)
  }

  datatype Event =
    | FillSq(sqLeft: nat, cqEmpty: bool, room: nat)
    | KernelTakes(count: nat)
    | KernelCompletes(index: nat, fate: Fate)
    | ReapCq

  /** One step; the kernel's steps may come between any two steps of the program. */
  function Step(p: UringParameter, s: RingState, e: Event): RingState {
    if s.fault || s.ended then s
    else match e
      case FillSq(sqLeft, cqEmpty, room) => Fill(p, s, if sqLeft < p.ringSize then sqLeft else p.ringSize, cqEmpty,
          room)
      case KernelTakes(count) =>
        if count > |s.sq| then s
        else s.(sq := s.sq[count..], kernel := s.kernel + multiset(s.sq[..count]))
      case KernelCompletes(index, fate) =>
        if index !in s.kernel then s
        else s.(kernel := s.kernel - multiset{index}, cq := s.cq + [Cqe(index, fate)],
                fault := |s.cq| >= p.bufferSize)
      case ReapCq => Reap(s, [])
  }

  function After(p: UringParameter, events: seq<Event>): RingState {
    if |events| == 0 then Initial(p.bufferSize)
    else Step(p, After(p, events[..|events| - 1]), events[|events| - 1])
  }

  // Runs in the order of the loop

  /** The last step of the program was a fill. */
  predicate FilledLast(events: seq<Event>) {
    if |events| == 0 then false
    else
      match events[|events| - 1]
      case FillSq(_, _, _) => true
      case ReapCq => false
      case KernelTakes(_) => FilledLast(events[..|events| - 1])
      case KernelCompletes(_, _) => FilledLast(events[..|events| - 1])
  }

  /** Fills and reaps take turns, and a fill reads both queues truly: a push fails only if the queue
      is full. */
  predicate InTurn(p: UringParameter, s: RingState, filled: bool, e: Event) {
    match e
    case FillSq(sqLeft, cqEmpty, room) =>
      !filled && |s.sq| <= p.ringSize && sqLeft == room == p.ringSize - |s.sq| && cqEmpty == (|s.cq| == 0)
    case ReapCq => filled
    case KernelTakes(_) => true
    case KernelCompletes(_, _) => true
  }

  /** A run the program can make without a polling kernel thread. */
  predicate LoopRun(p: UringParameter, events: seq<Event>) {
    if |events| == 0 then true
    else
      var front := events[..|events| - 1];
      LoopRun(p, front) && InTurn(p, After(p, front), FilledLast(front), events[|events| - 1])
  }

  /** The last step of the program was a fill that submitted or waited, and so read the length of the
      completion queue afterwards. */
  predicate FillActed(p: UringParameter, events: seq<Event>)
    requires p.burstSize <= p.bufferSize
  {
    if |events| == 0 then false
    else
      var front := events[..|events| - 1];
      match events[|events| - 1]
      case FillSq(sqLeft, cqEmpty, _) =>
        var left := if sqLeft < p.ringSize then sqLeft else p.ringSize;
        CalcSqFillMode(PoolInflight(After(p, front)), p, left, cqEmpty) != (0, 0)
      case ReapCq => false
      case KernelTakes(_) => FillActed(p, front)
      case KernelCompletes(_, _) => FillActed(p, front)
  }

  /** One more step of a run. */
  lemma RunAppend(p: UringParameter, events: seq<Event>, e: Event)
    ensures After(p, events + [e]) == Step(p, After(p, events), e)
    ensures LoopRun(p, events + [e]) <==> LoopRun(p, events) && InTurn(p, After(p, events), FilledLast(events), e)
    ensures FilledLast(events + [e]) == (e.FillSq? || (!e.ReapCq? && FilledLast(events)))
    ensures p.burstSize <= p.bufferSize && (e.KernelTakes? || e.KernelCompletes?) ==>
              FillActed(p, events + [e]) == FillActed(p, events)
  {
    hide Step, InTurn, CalcSqFillMode;
    assert (events + [e])[..|events|] == events;
  }

  // Ownership

  ghost function Indexes(n: nat): (m: multiset<nat>)
    ensures |m| == n
    ensures forall i: nat :: m[i] == if i < n then 1 else 0
  {
    if n == 0 then multiset{} else Indexes(n - 1) + multiset{n - 1}
  }

  function IndexesOf(cq: seq<Cqe>): (r: seq<nat>)
    ensures |r| == |cq|
  {
    seq(|cq|, i requires 0 <= i < |cq| => cq[i].index)
  }

  ghost function InCq(cq: seq<Cqe>): (m: multiset<nat>)
    ensures |m| == |cq|
  {
    multiset(IndexesOf(cq))
  }

  lemma InCqHead(cq: seq<Cqe>)
    requires |cq| > 0
    ensures InCq(cq) == multiset{cq[0].index} + InCq(cq[1..])
  {
    assert IndexesOf(cq) == [cq[0].index] + IndexesOf(cq[1..]);
  }

  lemma InCqAppend(cq: seq<Cqe>, c: Cqe)
    ensures InCq(cq + [c]) == InCq(cq) + multiset{c.index}
  {
    assert IndexesOf(cq + [c]) == IndexesOf(cq) + [c.index];
  }

  /** The indexes of requests the kernel side holds: queued, in work, or completed and not yet
      reaped. */
  ghost function KernelHeld(s: RingState): multiset<nat> {
    multiset(s.sq) + s.kernel + InCq(s.cq)
  }

  ghost function Owned(s: RingState): multiset<nat> {
    multiset(s.pool) + KernelHeld(s) + s.leaked
  }

  /** Every index has exactly one owner, and the loop's counter agrees with the pool. */
  ghost predicate Inv(p: UringParameter, s: RingState) {
    && !s.fault
    && s.capacity == p.bufferSize
    && Owned(s) == Indexes(p.bufferSize)
    && (!s.ended ==> s.inflight == p.bufferSize - |s.pool|)
    && (p.sqFillingMode == Syscall ==> p.bufferSize - |s.pool| <= p.burstSize)
  }

  lemma Census(p: UringParameter, s: RingState)
    requires Inv(p, s)
    ensures |s.pool| + |s.sq| + |s.kernel| + |s.cq| + |s.leaked| == p.bufferSize
  {
    assert |Owned(s)| == p.bufferSize;
  }

  lemma {:induction false} InitialPool(n: nat)
    ensures multiset(seq(n, i => i)) == Indexes(n)
  {
    if n == 0 {
    } else {
      InitialPool(n - 1);
      assert seq(n, i => i) == seq(n - 1, i => i) + [n - 1];
    }
  }

  lemma InitialInv(p: UringParameter)
    requires Sound(p)
    ensures Inv(p, Initial(p.bufferSize))
  {
    InitialPool(p.bufferSize);
  }

  // Each hand-over moves one index and creates or destroys none

  lemma PushMoves(s: RingState)
    requires |s.pool| > 0
    ensures
      var last := |s.pool| - 1;
      Owned(s.(pool := s.pool[..last], sq := s.sq + [s.pool[last]], inflight := s.inflight + 1)) == Owned(s)
  {
    hide InCq;
    assert s.pool == s.pool[..|s.pool| - 1] + [s.pool[|s.pool| - 1]];
  }

  lemma TakeMoves(s: RingState, count: nat)
    requires count <= |s.sq|
    ensures Owned(s.(sq := s.sq[count..], kernel := s.kernel + multiset(s.sq[..count]))) == Owned(s)
  {
    hide InCq;
    assert s.sq == s.sq[..count] + s.sq[count..];
  }

  lemma CompletionMoves(s: RingState, index: nat, fate: Fate, fault: bool)
    requires index in s.kernel
    ensures Owned(s.(kernel := s.kernel - multiset{index}, cq := s.cq + [Cqe(index, fate)], fault := fault)) == Owned(s)
  {
    InCqAppend(s.cq, Cqe(index, fate));
    hide InCq;
  }

  lemma ReapMoves(s: RingState, collected: seq<nat>)
    requires |s.cq| > 0
    ensures
      var index, rest := s.cq[0].index, s.(cq := s.cq[1..]);
      && Owned(rest) + multiset(collected + [index]) == Owned(s) + multiset(collected)
      && Owned(rest.(leaked := s.leaked + multiset(collected) + multiset{index})) == Owned(s) + multiset(collected)
  {
    InCqHead(s.cq);
    hide InCq;
    assert multiset(collected + [s.cq[0].index]) == multiset(collected) + multiset{s.cq[0].index};
  }

  lemma ReturnMoves(s: RingState, collected: seq<nat>)
    ensures Owned(s.(pool := s.pool + collected)) == Owned(s) + multiset(collected)
  {
    hide InCq;
  }

  lemma OwnedIgnoresTheRest(s: RingState, t: RingState)
    requires s.pool == t.pool && s.sq == t.sq && s.kernel == t.kernel && s.cq == t.cq && s.leaked == t.leaked
    ensures Owned(s) == Owned(t)
  {
  }

  lemma {:induction false} SubmitKeepsInv(p: UringParameter, s: RingState, remaining: nat, room: nat)
    requires Inv(p, s) && !s.ended && remaining <= |s.pool|
    requires p.sqFillingMode == Syscall ==> p.bufferSize - |s.pool| + remaining <= p.burstSize
    ensures var s' := Submit(s, remaining, room);
      && Inv(p, s') && s'.leaked == s.leaked && s'.cq == s.cq && s'.kernel == s.kernel
      && |s'.sq| == |s.sq| + if remaining < room then remaining else room
    decreases remaining
  {
    hide Owned;
    if remaining == 0 {
    } else {
      var last := |s.pool| - 1;
      var index := s.pool[last];
      assert s.pool == s.pool[..last] + [index];
      Census(p, s);
      if room > 0 {
        PushMoves(s);
        var s' := s.(pool := s.pool[..last], sq := s.sq + [index], inflight := s.inflight + 1);
        SubmitKeepsInv(p, s', remaining - 1, room - 1);
      }
    }
  }

  lemma FillKeepsInv(p: UringParameter, s: RingState, sqLeft: nat, cqEmpty: bool, room: nat)
    requires Sound(p) && Inv(p, s) && !s.ended
    ensures var s' := Fill(p, s, sqLeft, cqEmpty, room);
      Inv(p, s') && s'.leaked == s.leaked && s'.cq == s.cq && !s'.ended
  {
    Census(p, s);
    NeverOversubscribes(PoolInflight(s), p, sqLeft, cqEmpty);
    var (toSubmit, _) := CalcSqFillMode(PoolInflight(s), p, sqLeft, cqEmpty);
    SubmitKeepsInv(p, s, toSubmit, room);
    SubmitNeverEnds(s, toSubmit, room);
  }

  lemma {:induction false} SubmitNeverEnds(s: RingState, remaining: nat, room: nat)
    ensures Submit(s, remaining, room).ended == s.ended
    decreases remaining
  {
    if remaining == 0 || |s.pool| == 0 || room == 0 {
    } else {
      SubmitNeverEnds(s.(pool := s.pool[..|s.pool| - 1], sq := s.sq + [s.pool[|s.pool| - 1]],
          inflight := s.inflight + 1), remaining - 1, room - 1);
    }
  }

  /** The invariant with some indexes held by the reaping loop. */
  ghost predicate InvWhileReaping(p: UringParameter, s: RingState, collected: seq<nat>) {
    && !s.fault && !s.ended
    && s.capacity == p.bufferSize
    && Owned(s) + multiset(collected) == Indexes(p.bufferSize)
    && s.inflight == p.bufferSize - |s.pool|
    && (p.sqFillingMode == Syscall ==> p.bufferSize - |s.pool| <= p.burstSize)
  }

  lemma {:induction false} ReapKeepsInv(p: UringParameter, s: RingState, collected: seq<nat>)
    requires InvWhileReaping(p, s, collected)
    ensures Inv(p, Reap(s, collected))
    ensures s.leaked <= Reap(s, collected).leaked
    decreases |s.cq|
  {
    CensusWhileReaping(p, s, collected);
    hide Owned;
    if |s.cq| == 0 {
      ReturnMoves(s, collected);
      OwnedIgnoresTheRest(s.(pool := s.pool + collected), Reap(s, collected));
    } else {
      ReapMoves(s, collected);
      var head, rest := s.cq[0], s.(cq := s.cq[1..]);
      if head.fate == Returned {
        ReapKeepsInv(p, rest, collected + [head.index]);
      } else {
        OwnedIgnoresTheRest(rest.(leaked := s.leaked + multiset(collected) + multiset{head.index}), Reap(s, collected));
      }
    }
  }

  lemma CensusWhileReaping(p: UringParameter, s: RingState, collected: seq<nat>)
    requires InvWhileReaping(p, s, collected)
    ensures |s.pool| + |collected| + |s.cq| <= p.bufferSize
  {
    hide InCq;
    assert |Owned(s) + multiset(collected)| == p.bufferSize;
  }

  lemma KernelKeepsInv(p: UringParameter, s: RingState, e: Event)
    requires Inv(p, s) && (e.KernelTakes? || e.KernelCompletes?)
    ensures Inv(p, Step(p, s, e)) && Step(p, s, e).leaked == s.leaked
  {
    Census(p, s);
    hide Owned;
    match e {
      case KernelTakes(count) =>
        if count <= |s.sq| { TakeMoves(s, count); }
      case KernelCompletes(index, fate) =>
        if index in s.kernel {
          CompletionMoves(s, index, fate, |s.cq| >= p.bufferSize);
          NotEmpty(s.kernel, index);
        }
    }
  }

  lemma NotEmpty(m: multiset<nat>, x: nat)
    requires x in m
    ensures |m| > 0
  {
    assert multiset{x} <= m;
  }

  lemma StepKeepsInv(p: UringParameter, s: RingState, e: Event)
    requires Sound(p) && Inv(p, s)
    ensures Inv(p, Step(p, s, e)) && s.leaked <= Step(p, s, e).leaked
  {
    hide Inv, Owned, Fill, Reap;
    if e.KernelTakes? || e.KernelCompletes? {
      KernelKeepsInv(p, s, e);
    } else if !s.ended {
      ProgramKeepsInv(p, s, e);
    }
  }

  lemma ProgramKeepsInv(p: UringParameter, s: RingState, e: Event)
    requires Sound(p) && Inv(p, s) && !s.ended && (e.FillSq? || e.ReapCq?)
    ensures Inv(p, Step(p, s, e)) && s.leaked <= Step(p, s, e).leaked
  {
    match e {
      case FillSq(sqLeft, cqEmpty, room) =>
        FillKeepsInv(p, s, if sqLeft < p.ringSize then sqLeft else p.ringSize, cqEmpty, room);
      case ReapCq =>
        var none: seq<nat> := [];
        assert multiset(none) == multiset{};
        ReapKeepsInv(p, s, none);
    }
  }

  lemma {:induction false} InvAlways(p: UringParameter, events: seq<Event>)
    requires Sound(p)
    ensures Inv(p, After(p, events))
  {
    if |events| == 0 {
      InitialInv(p);
    } else {
      var last := |events| - 1;
      InvAlways(p, events[..last]);
      StepKeepsInv(p, After(p, events[..last]), events[last]);
    }
  }

  // What the invariant means

  /** Buffer ownership, in every state of every run, whatever the kernel does and wherever
      reaping stops early: the pool holds no index twice and none out of range, pool, kernel
      side and leaked indexes are disjoint and together are all indexes. */
  lemma EveryBufferHasOneOwner(p: UringParameter, events: seq<Event>)
    requires Sound(p)
    ensures
      var s := After(p, events);
      && (forall i, j :: 0 <= i < j < |s.pool| ==> s.pool[i] != s.pool[j])
      && (forall i: nat :: multiset(s.pool)[i] + KernelHeld(s)[i] + s.leaked[i] == if i < p.bufferSize then 1 else 0)
      && (forall i :: i in multiset(s.pool) ==> i < p.bufferSize && i !in KernelHeld(s) && i !in s.leaked)
  {
    var s := After(p, events);
    InvAlways(p, events);
    hide KernelHeld;
    OneOwnerEach(s.pool, KernelHeld(s), s.leaked, p.bufferSize);
  }

  lemma OneOwnerEach(pool: seq<nat>, held: multiset<nat>, leaked: multiset<nat>, n: nat)
    requires multiset(pool) + held + leaked == Indexes(n)
    ensures forall i, j :: 0 <= i < j < |pool| ==> pool[i] != pool[j]
    ensures forall i: nat :: multiset(pool)[i] + held[i] + leaked[i] == if i < n then 1 else 0
    ensures forall i :: i in multiset(pool) ==> i < n && i !in held && i !in leaked
  {
    forall i: nat ensures multiset(pool)[i] + held[i] + leaked[i] == if i < n then 1 else 0 {
      assert (multiset(pool) + held + leaked)[i] == Indexes(n)[i];
    }
    NoRepeats(pool);
  }

  lemma NoRepeats(pool: seq<nat>)
    requires forall x: nat :: multiset(pool)[x] <= 1
    ensures forall i, j :: 0 <= i < j < |pool| ==> pool[i] != pool[j]
  {
    forall i, j | 0 <= i < j < |pool| ensures pool[i] != pool[j] {
      var a, b := pool[..j], pool[j..];
      assert pool == a + b && pool[i] in a && pool[j] in b;
      assert multiset(pool) == multiset(a) + multiset(b);
      assert multiset(a)[pool[i]] >= 1 && multiset(b)[pool[j]] >= 1;
      assert multiset(pool)[pool[i]] <= 1;
    }
  }

  /** Some pass of the run met a completion that stops it. */
  ghost predicate HasEarlyStop(p: UringParameter, events: seq<Event>) {
    exists k {:trigger events[k]} ::
      0 <= k < |events| && events[k] == ReapCq && StopsShort(After(p, events[..k]))
  }

  predicate StopsShort(s: RingState) {
    !s.fault && !s.ended && exists i :: 0 <= i < |s.cq| && s.cq[i].fate != Returned
  }

  /** Over every run: nothing has leaked, and pool and kernel side partition the indexes, exactly
      as long as no pass has met a completion that stops it, posted or not. */
  lemma PartitionWithoutEarlyStop(p: UringParameter, events: seq<Event>)
    requires Sound(p)
    ensures var s := After(p, events);
      && (s.leaked == multiset{} <==> !HasEarlyStop(p, events))
      && (multiset(s.pool) + KernelHeld(s) == Indexes(p.bufferSize) <==> !HasEarlyStop(p, events))
  {
    hide After, KernelHeld, HasEarlyStop;
    InvAlways(p, events);
    LeaksExactly(p, events);
    LeakFreeIsPartition(p, After(p, events));
  }

  lemma LeakFreeIsPartition(p: UringParameter, s: RingState)
    requires Inv(p, s)
    ensures multiset(s.pool) + KernelHeld(s) == Indexes(p.bufferSize) <==> s.leaked == multiset{}
  {
    hide KernelHeld;
    var rest := multiset(s.pool) + KernelHeld(s);
    assert Owned(s) == rest + s.leaked;
    assert rest + s.leaked - rest == s.leaked;
  }

  lemma {:induction false} LeaksExactly(p: UringParameter, events: seq<Event>)
    requires Sound(p)
    ensures After(p, events).leaked == multiset{} <==> !HasEarlyStop(p, events)
  {
    hide Inv, Step, StopsShort;
    if |events| == 0 {
    } else {
      hide HasEarlyStop;
      var last := |events| - 1;
      LeaksExactly(p, events[..last]);
      InvAlways(p, events[..last]);
      StepLeaksExactly(p, After(p, events[..last]), events[last]);
      EarlyStopSplits(p, events);
    }
  }

  lemma StepLeaksExactly(p: UringParameter, s: RingState, e: Event)
    requires Sound(p) && Inv(p, s)
    ensures Step(p, s, e).leaked == multiset{} <==> s.leaked == multiset{} && !(e == ReapCq && StopsShort(s))
  {
    match e {
      case FillSq(sqLeft, cqEmpty, room) =>
        FillTouches(p, s, if sqLeft < p.ringSize then sqLeft else p.ringSize, cqEmpty, room);
      case ReapCq =>
        if !s.ended { ReapLeaksExactly(s, []); }
      case KernelTakes(_) =>
      case KernelCompletes(_, _) =>
    }
  }

  lemma {:induction false} ReapLeaksExactly(s: RingState, collected: seq<nat>)
    ensures Reap(s, collected).leaked == multiset{}
      <==> s.leaked == multiset{} && forall i :: 0 <= i < |s.cq| ==> s.cq[i].fate == Returned
    decreases |s.cq|
  {
    if |s.cq| == 0 {
    } else if s.cq[0].fate == Returned {
      var rest := s.(cq := s.cq[1..]);
      ReapLeaksExactly(rest, collected + [s.cq[0].index]);
      assert forall i :: 1 <= i < |s.cq| ==> s.cq[i] == rest.cq[i - 1];
      assert forall i :: 0 <= i < |rest.cq| ==> rest.cq[i] == s.cq[i + 1];
    } else {
      assert s.cq[0].index in Reap(s, collected).leaked;
    }
  }

  lemma EarlyStopSplits(p: UringParameter, events: seq<Event>)
    requires |events| > 0
    ensures
      var last := |events| - 1;
      HasEarlyStop(p, events) <==>
        HasEarlyStop(p, events[..last]) || (events[last] == ReapCq && StopsShort(After(p, events[..last])))
  {
    hide StopsShort, After;
    var last := |events| - 1;
    assert forall k :: 0 <= k < last ==> events[..last][k] == events[k] && events[..last][..k] == events[..k];
  }

  lemma FillTouches(p: UringParameter, s: RingState, sqLeft: nat, cqEmpty: bool, room: nat)
    ensures Fill(p, s, sqLeft, cqEmpty, room).leaked == s.leaked && Fill(p, s, sqLeft, cqEmpty, room).cq == s.cq
  {
    if p.burstSize <= p.bufferSize {
      SubmitTouches(s, CalcSqFillMode(PoolInflight(s), p, sqLeft, cqEmpty).0, room);
    }
  }

  lemma {:induction false} SubmitTouches(s: RingState, remaining: nat, room: nat)
    ensures Submit(s, remaining, room).leaked == s.leaked && Submit(s, remaining, room).cq == s.cq
    decreases remaining
  {
    if remaining == 0 || |s.pool| == 0 || room == 0 {
    } else {
      SubmitTouches(s.(pool := s.pool[..|s.pool| - 1], sq := s.sq + [s.pool[|s.pool| - 1]],
          inflight := s.inflight + 1), remaining - 1, room - 1);
    }
  }

  /** Over every run: no buffer lookup fails, no subtraction underflows, the completion queue
      sized to the buffer count never overflows, and the loop's counter is exactly the number
      of outstanding requests plus the leaked buffers. */
  lemma NoFaultEver(p: UringParameter, events: seq<Event>)
    requires Sound(p)
    ensures
      var s := After(p, events);
      && !s.fault && |s.cq| <= p.bufferSize && |KernelHeld(s)| <= p.bufferSize
      && (!s.ended ==> s.inflight == |KernelHeld(s)| + |s.leaked| == PoolInflight(s))
  {
    InvAlways(p, events);
    Census(p, After(p, events));
  }

  /** The push-failure branch is dead as long as free submission queue entries stay free until
      the push and the queue started within its capacity. */
  lemma PushNeverFailsOnFreshReads(p: UringParameter, events: seq<Event>, cqEmpty: bool, room: nat)
    requires Sound(p) && !After(p, events).ended && |After(p, events).sq| <= p.ringSize
    requires room >= p.ringSize - |After(p, events).sq|
    ensures
      var s := After(p, events);
      var (toSubmit, _) := CalcSqFillMode(PoolInflight(s), p, p.ringSize - |s.sq|, cqEmpty);
      toSubmit <= room && |Submit(s, toSubmit, room).sq| == |s.sq| + toSubmit <= p.ringSize
  {
    var s := After(p, events);
    InvAlways(p, events);
    Census(p, s);
    NeverOversubscribes(PoolInflight(s), p, p.ringSize - |s.sq|, cqEmpty);
    SubmitKeepsInv(p, s, CalcSqFillMode(PoolInflight(s), p, p.ringSize - |s.sq|, cqEmpty).0, room);
  }

  /** Syscall mode mimics a system call: never more than a burst is out, requests are only
      submitted when every buffer is back in the pool, and the branch for an exhausted pool is
      never entered. */
  lemma SyscallMimicsSyscall(p: UringParameter, events: seq<Event>, sqLeft: nat, cqEmpty: bool, room: nat)
    requires Sound(p) && p.sqFillingMode == Syscall
    ensures
      var s := After(p, events);
      && PoolInflight(s) <= p.burstSize
      && PoolInflight(s) <= p.bufferSize - p.burstSize
      && (Fill(p, s, sqLeft, cqEmpty, room) != s ==> PoolInflight(s) == 0 && KernelHeld(s) == multiset{})
  {
    var s := After(p, events);
    InvAlways(p, events);
    Census(p, s);
    if PoolInflight(s) == 0 {
      assert |KernelHeld(s)| == 0;
    }
  }

  /** The price: once a buffer has leaked, Syscall mode never submits anything again. */
  lemma SyscallStarvesAfterLeak(p: UringParameter, events: seq<Event>, k: nat, sqLeft: nat, cqEmpty: bool, room: nat)
    requires Sound(p) && p.sqFillingMode == Syscall
    requires k <= |events| && After(p, events[..k]).leaked != multiset{}
    ensures After(p, events).leaked != multiset{}
    ensures Fill(p, After(p, events), sqLeft, cqEmpty, room) == After(p, events)
  {
    LeakIsPermanent(p, events, k);
    InvAlways(p, events);
    Census(p, After(p, events));
    SyscallMimicsSyscall(p, events, sqLeft, cqEmpty, room);
  }

  /** Syscall mode submits exactly when nothing is held and nothing has leaked, and then a whole
      burst, as far as the queue has room. */
  lemma SyscallSubmitsExactly(p: UringParameter, events: seq<Event>, sqLeft: nat, cqEmpty: bool, room: nat)
    requires Sound(p) && p.sqFillingMode == Syscall && !After(p, events).ended
    ensures
      var s, t := After(p, events), Fill(p, After(p, events), sqLeft, cqEmpty, room);
      && (t != s <==> KernelHeld(s) == multiset{} && s.leaked == multiset{} && p.burstSize > 0 && room > 0)
      && (KernelHeld(s) == multiset{} && s.leaked == multiset{} ==>
          |t.sq| == if p.burstSize < room then p.burstSize else room)
  {
    hide After, Inv, KernelHeld, Fill;
    InvAlways(p, events);
    SyscallFills(p, After(p, events), sqLeft, cqEmpty, room);
  }

  lemma SyscallFills(p: UringParameter, s: RingState, sqLeft: nat, cqEmpty: bool, room: nat)
    requires Sound(p) && p.sqFillingMode == Syscall && Inv(p, s) && !s.ended
    ensures
      var t := Fill(p, s, sqLeft, cqEmpty, room);
      && (t != s <==> KernelHeld(s) == multiset{} && s.leaked == multiset{} && p.burstSize > 0 && room > 0)
      && (KernelHeld(s) == multiset{} && s.leaked == multiset{} ==>
          |t.sq| == if p.burstSize < room then p.burstSize else room)
  {
    NothingOut(p, s);
    hide KernelHeld, Owned;
    var (toSubmit, _) := CalcSqFillMode(PoolInflight(s), p, sqLeft, cqEmpty);
    NeverOversubscribes(PoolInflight(s), p, sqLeft, cqEmpty);
    SubmitKeepsInv(p, s, toSubmit, room);
    SubmitWithoutRoom(s, toSubmit);
    SubmitNothing(s, room);
    hide Submit, Inv;
  }

  /** A push that fails puts its index back. */
  lemma SubmitWithoutRoom(s: RingState, remaining: nat)
    requires remaining <= |s.pool| <= s.capacity
    ensures Submit(s, remaining, 0) == s
  {
    if remaining > 0 { assert s.pool == s.pool[..|s.pool| - 1] + [s.pool[|s.pool| - 1]]; }
  }

  lemma SubmitNothing(s: RingState, room: nat)
    ensures Submit(s, 0, room) == s
  {
  }

  lemma NothingOut(p: UringParameter, s: RingState)
    requires Inv(p, s)
    ensures |s.pool| == p.bufferSize <==> KernelHeld(s) == multiset{} && s.leaked == multiset{}
    ensures KernelHeld(s) == multiset{} ==> s.sq == []
  {
    Census(p, s);
    assert |KernelHeld(s)| == |s.sq| + |s.kernel| + |s.cq|;
  }

  lemma {:induction false} LeakIsPermanent(p: UringParameter, events: seq<Event>, k: nat)
    requires Sound(p) && k <= |events|
    ensures After(p, events[..k]).leaked <= After(p, events).leaked
  {
    hide Inv, Step;
    if k < |events| {
      var last := |events| - 1;
      assert events[..last][..k] == events[..k];
      LeakIsPermanent(p, events[..last], k);
      InvAlways(p, events[..last]);
      StepKeepsInv(p, After(p, events[..last]), events[last]);
    } else {
      assert events[..k] == events;
    }
  }

  /** Topup waits only for owed completions, in every reachable state with an empty submission
      queue: the requests outstanding after the submission cover `minComplete` unless leaks
      have eaten the pool up, and without leaks always. */
  lemma TopupNeverWaitsForTheImpossible(p: UringParameter, events: seq<Event>, cqEmpty: bool)
    requires Sound(p) && p.sqFillingMode == Topup && !p.sqpoll && p.burstSize > 0
    ensures
      var s := After(p, events);
      var (toSubmit, minComplete) := CalcSqFillMode(PoolInflight(s), p, p.ringSize, cqEmpty);
      && (|KernelHeld(s)| + toSubmit >= minComplete <==>
           !(PoolInflight(s) > p.bufferSize - p.burstSize && cqEmpty && |KernelHeld(s)| < p.burstSize))
      && (s.leaked == multiset{} ==> |KernelHeld(s)| + toSubmit >= minComplete)
      && (toSubmit == 0 && minComplete == 0 ==> !cqEmpty)
  {
    var s := After(p, events);
    InvAlways(p, events);
    Census(p, s);
    TopupWaitIsOwedExactly(p, PoolInflight(s), |s.leaked|, cqEmpty);
  }

  /** Syscall mode waits only for owed completions exactly as long as the pool is full or a whole
      burst is outstanding; from a full pool it waits for as many as it asks to submit. */
  lemma SyscallWaitsForTheOwedExactly(p: UringParameter, events: seq<Event>, sqLeft: nat, cqEmpty: bool)
    requires Sound(p) && p.sqFillingMode == Syscall && !p.sqpoll && p.burstSize > 0
    ensures
      var s := After(p, events);
      var (toSubmit, minComplete) := CalcSqFillMode(PoolInflight(s), p, sqLeft, cqEmpty);
      && (|KernelHeld(s)| + toSubmit >= minComplete <==> |s.pool| == p.bufferSize || |KernelHeld(s)| >= p.burstSize)
      && (|s.pool| == p.bufferSize ==> toSubmit == minComplete == p.burstSize)
  {
    var s := After(p, events);
    InvAlways(p, events);
    Census(p, s);
    SyscallWaitIsOwedExactly(p, PoolInflight(s), |s.leaked|, sqLeft, cqEmpty);
  }

  // How much a fill moves

  /** The last n indexes of the pool, the topmost first. */
  function TopDown(pool: seq<nat>, n: nat): (r: seq<nat>)
    requires n <= |pool|
    ensures |r| == n && forall i :: 0 <= i < n ==> r[i] == pool[|pool| - 1 - i]
  {
    seq(n, i requires 0 <= i < n => pool[|pool| - 1 - i])
  }

  /** The requests are pushed from the top of the pool down, as many as are asked for and fit. */
  lemma {:induction false} SubmitMovesExactly(s: RingState, remaining: nat, room: nat)
    requires remaining <= |s.pool| <= s.capacity
    ensures
      var n := Least(remaining, room);
      Submit(s, remaining, room) ==
        s.(pool := s.pool[..|s.pool| - n], sq := s.sq + TopDown(s.pool, n), inflight := s.inflight + n)
    decreases remaining
  {
    hide TopDown, Submit;
    SubmitUnfolds(s, remaining, room);
    NothingMoves(s);
    if remaining == 0 {
    } else if room == 0 {
      SubmitWithoutRoom(s, remaining);
    } else {
      var last, n := |s.pool| - 1, Least(remaining, room);
      SubmitMovesExactly(s.(pool := s.pool[..last], sq := s.sq + [s.pool[last]], inflight := s.inflight + 1),
                         remaining - 1, room - 1);
      TopFirst(s.sq, s.pool, n);
    }
  }

  lemma SubmitUnfolds(s: RingState, remaining: nat, room: nat)
    ensures remaining == 0 ==> Submit(s, remaining, room) == s
    ensures remaining > 0 && room > 0 && |s.pool| > 0 ==>
      var last := |s.pool| - 1;
      var pushed := s.(pool := s.pool[..last], sq := s.sq + [s.pool[last]], inflight := s.inflight + 1);
      Submit(s, remaining, room) == Submit(pushed, remaining - 1, room - 1)
  {
  }

  lemma NothingMoves(s: RingState)
    ensures s.pool[..|s.pool|] == s.pool && s.sq + TopDown(s.pool, 0) == s.sq
  {
  }

  lemma TopFirst(sq: seq<nat>, pool: seq<nat>, n: nat)
    requires 0 < n <= |pool|
    ensures
      var last := |pool| - 1;
      && sq + [pool[last]] + TopDown(pool[..last], n - 1) == sq + TopDown(pool, n)
      && pool[..last][..last - (n - 1)] == pool[..|pool| - n]
  {
    var last := |pool| - 1;
    assert TopDown(pool, n) == [pool[last]] + TopDown(pool[..last], n - 1);
  }

  /** In every reachable state a fill moves exactly the requests decided on, as far as the queue has
      room, from the top of the pool to the submission queue, and touches nothing else. */
  lemma FillMovesExactly(p: UringParameter, s: RingState, sqLeft: nat, cqEmpty: bool, room: nat)
    requires Sound(p) && Inv(p, s)
    ensures
      var t := Fill(p, s, sqLeft, cqEmpty, room);
      var (toSubmit, _) := CalcSqFillMode(PoolInflight(s), p, sqLeft, cqEmpty);
      var n := Least(toSubmit, room);
      && n <= |s.pool|
      && t == s.(pool := s.pool[..|s.pool| - n], sq := s.sq + TopDown(s.pool, n), inflight := s.inflight + n)
  {
    Census(p, s);
    hide Owned, Submit, TopDown;
    var (toSubmit, _) := CalcSqFillMode(PoolInflight(s), p, sqLeft, cqEmpty);
    NeverOversubscribes(PoolInflight(s), p, sqLeft, cqEmpty);
    SubmitMovesExactly(s, toSubmit, room);
    SubmitNothing(s, room);
  }
}
