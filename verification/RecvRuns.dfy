/** Runs of the Normal-mode receive ring in the order of its loop, with true readings of the queues:
    how far the completion queue can fill, and what early stops lead to. */
module RecvRuns {
  import opened Arithmetic
  import opened FillMode
  import opened RecvRing

  /** Where a round of the loop starts. */
  ghost predicate AtRoundStart(p: UringParameter, events: seq<Event>) {
    var s := After(p, events);
    LoopRun(p, events) && !FilledLast(events) && s.sq == [] && s.cq == [] && !s.ended
  }

  /** What a fill of empty queues submits, from a pool with that many buffers. */
  function Batch(p: UringParameter, pool: nat): nat {
    if p.sqFillingMode == Syscall then (if pool == p.bufferSize then p.burstSize else 0)
    else if pool < p.ringSize then pool else p.ringSize
  }

  lemma FillBatch(p: UringParameter, s: RingState)
    requires Sound(p) && Inv(p, s) && !s.ended && s.sq == [] && s.cq == [] && |s.pool| >= p.burstSize
    ensures
      var t, n := Step(p, s, FillSq(p.ringSize, true, p.ringSize)), Batch(p, |s.pool|);
      && !t.ended && !t.fault && |t.sq| == n && |t.pool| == |s.pool| - n
      && t.kernel == s.kernel && t.cq == s.cq && t.leaked == s.leaked
  {
    hide Inv, Submit;
    InvMeans(p, s);
    var n := Batch(p, |s.pool|);
    SubmitKeepsInv(p, s, n, p.ringSize);
    SubmitNeverEnds(s, n, p.ringSize);
    SubmitNothing(s, p.ringSize);
    var t := Step(p, s, FillSq(p.ringSize, true, p.ringSize));
    assert t == Submit(s, n, p.ringSize);
    InvMeans(p, t);
  }

  lemma TakeBatch(p: UringParameter, s: RingState)
    requires !s.fault && !s.ended
    ensures
      var t := Step(p, s, KernelTakes(|s.sq|));
      t == s.(sq := [], kernel := s.kernel + multiset(s.sq)) && |t.kernel| == |s.kernel| + |s.sq|
  {
    assert s.sq[..|s.sq|] == s.sq && s.sq[|s.sq|..] == [];
  }

  /** A fill at the start of a round, and the kernel takes all requests. */
  lemma FillAndTake(p: UringParameter, events: seq<Event>) returns (more: seq<Event>)
    requires Sound(p) && AtRoundStart(p, events) && |After(p, events).pool| >= p.burstSize
    ensures LoopRun(p, more) && FilledLast(more) && (Batch(p, |After(p, events).pool|) > 0 ==> FillActed(p, more))
    ensures
      var s, t := After(p, events), After(p, more);
      var n := Batch(p, |s.pool|);
      && !t.ended && t.sq == [] && t.cq == [] && |t.pool| == |s.pool| - n && |t.kernel| == |s.kernel| + n
      && t.leaked == s.leaked
  {
    hide Inv, Step, After, FillActed;
    var s, n := After(p, events), Batch(p, |After(p, events).pool|);
    var fill := FillSq(p.ringSize, true, p.ringSize);
    InvAlways(p, events);
    FillBatch(p, s);
    RunAppend(p, events, fill);
    if n > 0 { ActsOnBatch(p, events); }
    var filled := events + [fill];
    TakeBatch(p, After(p, filled));
    RunAppend(p, filled, KernelTakes(n));
    more := filled + [KernelTakes(n)];
  }

  lemma ActsOnBatch(p: UringParameter, events: seq<Event>)
    requires Sound(p) && Inv(p, After(p, events)) && Batch(p, |After(p, events).pool|) > 0
    requires |After(p, events).pool| >= p.burstSize
    ensures FillActed(p, events + [FillSq(p.ringSize, true, p.ringSize)])
  {
    hide Owned;
    Census(p, After(p, events));
    assert (events + [FillSq(p.ringSize, true, p.ringSize)])[..|events|] == events;
  }

  /** k of the requests in work complete with a message each. */
  lemma {:induction false} CompleteSome(p: UringParameter, events: seq<Event>, k: nat) returns (more: seq<Event>)
    requires Sound(p) && LoopRun(p, events) && FilledLast(events)
    requires !After(p, events).ended && k <= |After(p, events).kernel|
    ensures LoopRun(p, more) && FilledLast(more) && FillActed(p, more) == FillActed(p, events)
    ensures
      var s, t := After(p, events), After(p, more);
      && !t.ended && t.pool == s.pool && t.sq == s.sq && t.leaked == s.leaked
      && |t.kernel| == |s.kernel| - k && |t.cq| == |s.cq| + k
      && ((forall i :: 0 <= i < |s.cq| ==> s.cq[i].fate == Returned) ==>
            forall i :: 0 <= i < |t.cq| ==> t.cq[i].fate == Returned)
  {
    hide Inv, Step, After, FillActed;
    if k == 0 {
      more := events;
    } else {
      var before := CompleteSome(p, events, k - 1);
      more := CompleteOne(p, before, Returned);
    }
  }

  lemma CompleteOne(p: UringParameter, events: seq<Event>, fate: Fate) returns (more: seq<Event>)
    requires Sound(p) && LoopRun(p, events) && FilledLast(events)
    requires !After(p, events).ended && |After(p, events).kernel| > 0
    ensures LoopRun(p, more) && FilledLast(more) && FillActed(p, more) == FillActed(p, events)
    ensures
      var s, t := After(p, events), After(p, more);
      && !t.ended && t.pool == s.pool && t.sq == s.sq && t.leaked == s.leaked && |t.kernel| == |s.kernel| - 1
      && |t.cq| == |s.cq| + 1 && t.cq[..|s.cq|] == s.cq && t.cq[|s.cq|].fate == fate
  {
    hide Inv, Step, After, FillActed;
    var s := After(p, events);
    var index := AnyOf(s.kernel);
    var e := KernelCompletes(index, fate);
    InvAlways(p, events);
    InvMeans(p, s);
    RunAppend(p, events, e);
    more := events + [e];
    StepCompletes(p, s, index, fate);
  }

  lemma InvMeans(p: UringParameter, s: RingState)
    requires Inv(p, s)
    ensures !s.fault && s.capacity == p.bufferSize
    ensures |s.pool| + |s.sq| + |s.kernel| + |s.cq| + |s.leaked| == p.bufferSize
    ensures p.sqFillingMode == Syscall ==> p.bufferSize - |s.pool| <= p.burstSize
  {
    Census(p, s);
  }

  lemma StepCompletes(p: UringParameter, s: RingState, index: nat, fate: Fate)
    requires !s.fault && !s.ended && index in s.kernel
    ensures
      var t := Step(p, s, KernelCompletes(index, fate));
      && t == s.(kernel := t.kernel, cq := t.cq, fault := t.fault)
      && |t.kernel| == |s.kernel| - 1 && t.cq == s.cq + [Cqe(index, fate)]
  {
    RemoveOne(s.kernel, index);
  }

  // The completion queue

  /** A round in which nothing completes: a fill, the kernel takes the requests, nothing to reap. */
  lemma IdleRound(p: UringParameter, events: seq<Event>) returns (more: seq<Event>)
    requires Sound(p) && AtRoundStart(p, events) && |After(p, events).pool| >= p.burstSize
    ensures AtRoundStart(p, more)
    ensures
      var s, t := After(p, events), After(p, more);
      var n := Batch(p, |s.pool|);
      |t.pool| == |s.pool| - n && |t.kernel| == |s.kernel| + n && t.leaked == s.leaked
  {
    hide Inv, Step, After;
    var taken := FillAndTake(p, events);
    InvAlways(p, taken);
    InvMeans(p, After(p, taken));
    RunAppend(p, taken, ReapCq);
    ReapNothing(p, After(p, taken));
    more := taken + [ReapCq];
  }

  lemma ReapNothing(p: UringParameter, s: RingState)
    requires !s.fault && !s.ended && s.cq == []
    ensures
      var t := Step(p, s, ReapCq);
      t == s.(pool := t.pool, capacity := t.capacity, inflight := t.inflight, fault := t.fault) && t.pool == s.pool
  {
    assert s.pool + [] == s.pool;
  }

  lemma {:induction false} IdleRounds(p: UringParameter, k: nat) returns (events: seq<Event>)
    requires Sound(p) && p.sqFillingMode != Syscall && k <= 3
    ensures AtRoundStart(p, events)
    ensures |After(p, events).pool| == (4 - k) * p.ringSize && |After(p, events).kernel| == k * p.ringSize
  {
    hide After;
    if k == 0 {
      events := [];
      StartOfRun(p);
    } else {
      var before := IdleRounds(p, k - 1);
      OneRingMore(k, p.ringSize);
      events := IdleRound(p, before);
    }
  }

  lemma OneRingMore(k: nat, r: nat)
    requires 0 < k <= 4
    ensures (4 - (k - 1)) * r == (4 - k) * r + r && k * r == (k - 1) * r + r && (4 - k) * r >= 0
    ensures k < 4 ==> (4 - k) * r >= r
  {
  }

  lemma StartOfRun(p: UringParameter)
    ensures AtRoundStart(p, []) && |After(p, []).pool| == p.bufferSize && After(p, []).kernel == multiset{}
  {
  }

  /** Three rounds without a message, and in the fourth, while the fill is in the kernel, a message
      for every request: the completion queue holds an entry for each buffer when it is read. */
  lemma AllCompletedAtOnce(p: UringParameter) returns (events: seq<Event>)
    requires Sound(p) && p.sqFillingMode != Syscall
    ensures LoopRun(p, events) && FillActed(p, events) && |After(p, events).cq| == p.bufferSize
  {
    hide After, FillActed, LoopRun;
    var three := IdleRounds(p, 3);
    var taken := FillAndTake(p, three);
    events := CompleteSome(p, taken, 4 * p.ringSize);
  }

  // Early stops

  /** A round in which all requests complete, the last of them with a completion that stops the
      pass: all their buffers are lost. */
  lemma LosingRound(p: UringParameter, events: seq<Event>) returns (more: seq<Event>)
    requires Sound(p) && AtRoundStart(p, events) && |After(p, events).pool| >= p.burstSize
    requires After(p, events).kernel == multiset{} && Batch(p, |After(p, events).pool|) > 0
    ensures AtRoundStart(p, more) && After(p, more).kernel == multiset{}
    ensures
      var s, t := After(p, events), After(p, more);
      |t.pool| == |s.pool| - Batch(p, |s.pool|) && |t.leaked| == |s.leaked| + Batch(p, |s.pool|)
  {
    hide Inv, Step, After;
    var s, n := After(p, events), Batch(p, |After(p, events).pool|);
    var taken := FillAndTake(p, events);
    var almost := CompleteSome(p, taken, n - 1);
    var all := CompleteOne(p, almost, StopsEarly);
    var t := After(p, all);
    assert forall i :: 0 <= i < n - 1 ==> t.cq[i] == After(p, almost).cq[i];
    InvAlways(p, all);
    InvMeans(p, t);
    RunAppend(p, all, ReapCq);
    StepLoses(p, t);
    more := all + [ReapCq];
  }

  lemma StepLoses(p: UringParameter, s: RingState)
    requires !s.fault && !s.ended && |s.cq| > 0 && s.cq[|s.cq| - 1].fate == StopsEarly
    requires forall i :: 0 <= i < |s.cq| - 1 ==> s.cq[i].fate == Returned
    ensures
      var t := Step(p, s, ReapCq);
      && !t.ended && t.cq == [] && t.pool == s.pool && t.sq == s.sq && t.kernel == s.kernel
      && |t.leaked| == |s.leaked| + |s.cq|
  {
    ReapLoses(s, []);
  }

  lemma {:induction false} ReapLoses(s: RingState, collected: seq<nat>)
    requires |s.cq| > 0 && s.cq[|s.cq| - 1].fate == StopsEarly
    requires forall i :: 0 <= i < |s.cq| - 1 ==> s.cq[i].fate == Returned
    ensures
      var t := Reap(s, collected);
      && t == s.(cq := [], leaked := t.leaked) && |t.leaked| == |s.leaked| + |collected| + |s.cq|
    decreases |s.cq|
  {
    if |s.cq| == 1 {
    } else {
      ReapLoses(s.(cq := s.cq[1..]), collected + [s.cq[0].index]);
    }
  }

  /** A run in the order of the loop that leaks, for every ring that submits anything: so in Syscall
      mode there is a run after which nothing is ever submitted again. */
  lemma SomeRunLeaks(p: UringParameter) returns (events: seq<Event>)
    requires Sound(p) && (p.sqFillingMode == Syscall ==> p.burstSize > 0)
    ensures AtRoundStart(p, events) && After(p, events).leaked != multiset{} && HasEarlyStop(p, events)
    ensures After(p, events).kernel == multiset{}
    ensures p.sqFillingMode == Syscall ==>
      forall sqLeft, cqEmpty, room :: Fill(p, After(p, events), sqLeft, cqEmpty, room) == After(p, events)
  {
    hide After, Fill, HasEarlyStop;
    StartOfRun(p);
    events := LosingRound(p, []);
    assert |After(p, events).leaked| > 0;
    LeaksExactly(p, events);
    if p.sqFillingMode == Syscall {
      forall sqLeft, cqEmpty, room ensures Fill(p, After(p, events), sqLeft, cqEmpty, room) == After(p, events) {
        assert events[..|events|] == events;
        SyscallStarvesAfterLeak(p, events, |events|, sqLeft, cqEmpty, room);
      }
    }
  }

  lemma {:induction false} LosingRounds(p: UringParameter, k: nat) returns (events: seq<Event>)
    requires Sound(p) && p.sqFillingMode != Syscall && k <= 4
    ensures AtRoundStart(p, events) && After(p, events).kernel == multiset{}
    ensures |After(p, events).pool| == (4 - k) * p.ringSize && |After(p, events).leaked| == k * p.ringSize
  {
    hide After;
    if k == 0 {
      events := [];
      StartOfRun(p);
      NoneLeakedYet(p);
    } else {
      var before := LosingRounds(p, k - 1);
      OneRingMore(k, p.ringSize);
      events := LosingRound(p, before);
    }
  }

  lemma NoneLeakedYet(p: UringParameter)
    ensures After(p, []).leaked == multiset{}
  {
  }

  /** Four such rounds lose every buffer. In Topup mode the next fill then waits for a whole burst of
      completions with no request outstanding, for every ring that waits at all. */
  lemma TopupCanWaitForTheImpossible(p: UringParameter) returns (events: seq<Event>)
    requires Sound(p) && p.sqFillingMode == Topup && !p.sqpoll && p.burstSize > 0
    ensures AtRoundStart(p, events)
    ensures
      var s := After(p, events);
      && KernelHeld(s) == multiset{}
      && CalcSqFillMode(PoolInflight(s), p, p.ringSize, true) == (0, p.burstSize)
  {
    hide After;
    events := LosingRounds(p, 4);
    InvAlways(p, events);
  }
}
