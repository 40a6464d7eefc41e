/** Runs of the zero-copy sender in the order of its loop, with true readings of the queues: how far
    its completion queue and its counter of requests in flight can grow. */
module SendRuns {
  import opened Wire
  import opened Arithmetic
  import opened FillMode
  import opened SendRing
  import opened SendWire

  /** What the sizes of a state say about it: buffers, requests, completions. */
  ghost predicate Sized(s: SendState, pool: int, sq: nat, working: nat, cq: nat) {
    !s.ended && |s.pool| == pool && |s.sq| == sq && |s.working| == working && |s.cq| == cq
  }

  /** Where a round of the loop starts. */
  ghost predicate AtRoundStart(c: Config, buffers: seq<seq<Byte>>, events: seq<Event>) {
    var s := After(c, buffers, events);
    LoopRun(c, buffers, events) && !FilledLast(events) && s.sq == [] && s.cq == [] && !s.ended
  }

  lemma {:induction false} RoomySubmit(c: Config, s: SendState, remaining: nat, room: nat)
    requires GoodConfig(c) && c.Zc() && Inv(c, s) && !s.ended && remaining <= |s.pool| && remaining <= room
    requires c.uring.sqFillingMode == Syscall ==> c.uring.bufferSize - |s.pool| + remaining <= c.uring.burstSize
    ensures
      var t := SubmitZc(c, s, remaining, room);
      && |t.sq| == |s.sq| + remaining && |t.pool| == |s.pool| - remaining
      && t.leaked == s.leaked && t.again == s.again
    decreases remaining
  {
    hide Inv, CanStamp, Stamped;
    if remaining == 0 {
    } else {
      TopKeepsInv(c, s);
      RoomySubmit(c, PushTop(c, s), remaining - 1, room - 1);
    }
  }

  /** What a fill of empty queues submits. */
  function Batch(c: Config, s: SendState): nat
    requires GoodConfig(c)
  {
    if c.uring.sqFillingMode == Syscall then (if |s.pool| == c.uring.bufferSize then c.uring.burstSize else 0)
    else if |s.pool| < c.uring.ringSize then |s.pool| else c.uring.ringSize
  }

  /** A fill at the start of a round, and the kernel takes all requests. */
  lemma FillAndTake(c: Config, buffers: seq<seq<Byte>>, events: seq<Event>) returns (more: seq<Event>)
    requires GoodConfig(c) && GoodBuffers(c, buffers) && c.Zc() && AtRoundStart(c, buffers, events)
    requires |After(c, buffers, events).pool| >= c.uring.burstSize
    ensures LoopRun(c, buffers, more) && FilledLast(more)
    ensures Batch(c, After(c, buffers, events)) > 0 ==> FillActed(c, buffers, more)
    ensures
      var s, t := After(c, buffers, events), After(c, buffers, more);
      && Sized(t, |s.pool| - Batch(c, s), 0, |s.working| + Batch(c, s), 0)
      && t.awaiting == s.awaiting && t.leaked == s.leaked && t.again == s.again
  {
    hide Inv, Step, After, FillActed;
    var s, n, r := After(c, buffers, events), Batch(c, After(c, buffers, events)), c.uring.ringSize;
    var fill := FillSq(r, true, r);
    InvAlways(c, buffers, events);
    FillBatch(c, s);
    RunAppend(c, buffers, events, fill);
    if n > 0 { ActsOnBatch(c, buffers, events); }
    var filled := events + [fill];
    InvAlways(c, buffers, filled);
    InvMeans(c, After(c, buffers, filled));
    TakeBatch(c, After(c, buffers, filled));
    RunAppend(c, buffers, filled, KernelTakes(n));
    more := filled + [KernelTakes(n)];
  }

  lemma ActsOnBatch(c: Config, buffers: seq<seq<Byte>>, events: seq<Event>)
    requires GoodConfig(c) && c.Zc() && Inv(c, After(c, buffers, events)) && Batch(c, After(c, buffers, events)) > 0
    requires |After(c, buffers, events).pool| >= c.uring.burstSize
    ensures FillActed(c, buffers, events + [FillSq(c.uring.ringSize, true, c.uring.ringSize)])
  {
    hide Inv, After, Outstanding;
    InvMeans(c, After(c, buffers, events));
    assert (events + [FillSq(c.uring.ringSize, true, c.uring.ringSize)])[..|events|] == events;
  }

  lemma FillBatch(c: Config, s: SendState)
    requires GoodConfig(c) && c.Zc() && Inv(c, s) && !s.ended && s.sq == [] && s.cq == []
    requires |s.pool| >= c.uring.burstSize
    ensures
      var t := Step(c, s, FillSq(c.uring.ringSize, true, c.uring.ringSize));
      && Sized(t, |s.pool| - Batch(c, s), Batch(c, s), |s.working|, 0)
      && t.awaiting == s.awaiting && t.working == s.working && t.leaked == s.leaked && t.again == s.again
  {
    hide Inv, SubmitZc, SubmitNormal;
    InvMeans(c, s);
    var left, amount := c.uring.ringSize, Batch(c, s);
    hide Outstanding;
    SubmitsNothing(c, s, left);
    assert Step(c, s, FillSq(left, true, left)) == SubmitZc(c, s, amount, left);
    RoomySubmit(c, s, amount, left);
    SubmitZcLeavesWire(c, s, amount, left);
  }

  lemma InvMeans(c: Config, s: SendState)
    requires Inv(c, s) && c.Zc()
    ensures !s.fault && s.capacity == c.uring.bufferSize
    ensures |s.pool| + Outstanding(c, s) + |s.leaked| == c.uring.bufferSize
    ensures c.uring.sqFillingMode == Syscall ==> c.uring.bufferSize - |s.pool| <= c.uring.burstSize
    ensures !s.ended ==> s.inflight == Outstanding(c, s) + s.again
  {
    Census(c, s, []);
  }

  lemma TakeBatch(c: Config, s: SendState)
    requires !s.fault && !s.ended
    ensures
      var t := Step(c, s, KernelTakes(|s.sq|));
      t == s.(sq := [], working := s.working + multiset(s.sq)) && |t.working| == |s.working| + |s.sq|
  {
    assert s.sq[..|s.sq|] == s.sq && s.sq[|s.sq|..] == [];
  }

  // Requests turned down

  /** k of the requests in work are turned down. */
  lemma {:induction false} SomeTurnedDown(c: Config, buffers: seq<seq<Byte>>, events: seq<Event>, k: nat)
    returns (more: seq<Event>)
    requires GoodConfig(c) && GoodBuffers(c, buffers) && c.Zc() && LoopRun(c, buffers, events) && FilledLast(events)
    requires k <= |After(c, buffers, events).working|
    requires !After(c, buffers, events).ended && forall e :: e in After(c, buffers, events).cq ==> e.Again?
    ensures LoopRun(c, buffers, more) && FilledLast(more)
    ensures
      var s, t := After(c, buffers, events), After(c, buffers, more);
      && Sized(t, |s.pool|, |s.sq|, |s.working| - k, |s.cq| + k) && (forall e :: e in t.cq ==> e.Again?)
      && t.awaiting == s.awaiting && t.leaked == s.leaked && t.again == s.again
  {
    hide Inv, Step, After;
    if k == 0 {
      more := events;
    } else {
      var before := SomeTurnedDown(c, buffers, events, k - 1);
      var s := After(c, buffers, before);
      InvAlways(c, buffers, before);
      var index := AnyOf(s.working);
      more := before + [KernelAnswers(Again(index))];
      RunAppend(c, buffers, before, KernelAnswers(Again(index)));
      InvMeans(c, s);
      TurnDown(c, s, index);
    }
  }

  lemma TurnDown(c: Config, s: SendState, index: nat)
    requires !s.ended && !s.fault && index in s.working
    ensures Step(c, s, KernelAnswers(Again(index))) ==
        s.(working := s.working - multiset{index}, cq := s.cq + [Again(index)])
  {
  }

  lemma {:induction false} ReapTurnedDown(c: Config, s: SendState, collected: seq<nat>, completed: nat)
    requires c.Zc() && !s.ended && forall e :: e in s.cq ==> e.Again?
    ensures
      var t := Reap(c, s, collected, completed);
      && Sized(t, |s.pool| + |collected| + |s.cq|, |s.sq|, |s.working|, 0)
      && t.awaiting == s.awaiting && t.leaked == s.leaked && t.again == s.again + |s.cq|
    decreases |s.cq|
  {
    if |s.cq| == 0 {
    } else {
      assert s.cq[0] in s.cq && forall e :: e in s.cq[1..] ==> e in s.cq;
      ReapTurnedDown(c, ReapOne(c, s), collected + [s.cq[0].index], completed);
    }
  }

  /** Nothing is out: all buffers are in the pool. */
  ghost predicate AllHome(c: Config, s: SendState) {
    Sized(s, c.uring.bufferSize, 0, 0, 0) && s.awaiting == multiset{} && s.leaked == multiset{}
  }

  /** Again and again everything submitted is turned down; every buffer comes back, and the counter
      grows for ever. */
  lemma {:induction false} CounterGrowsForEver(c: Config, buffers: seq<seq<Byte>>, k: nat) returns (events: seq<Event>)
    requires GoodConfig(c) && GoodBuffers(c, buffers) && c.Zc() && Submits(c.uring)
    ensures LoopRun(c, buffers, events) && !FilledLast(events)
    ensures var s := After(c, buffers, events); AllHome(c, s) && s.again >= k && s.inflight == s.again
  {
    hide Inv, Step, After, KernelHeld;
    if k == 0 {
      events := [];
      InitialRun(c, buffers);
      InitialIsHome(c, buffers);
    } else {
      var before := CounterGrowsForEver(c, buffers, k - 1);
      var taken := FillAndTake(c, buffers, before);
      assert forall e :: e in After(c, buffers, taken).cq ==> e.Again?;
      var down := SomeTurnedDown(c, buffers, taken, |After(c, buffers, taken).working|);
      events := down + [ReapCq];
      RunAppend(c, buffers, down, ReapCq);
      InvAlways(c, buffers, down);
      InvMeans(c, After(c, buffers, down));
      ReapStep(c, After(c, buffers, down));
    }
    InvAlways(c, buffers, events);
    InvMeans(c, After(c, buffers, events));
    HomeMeansNoneOutstanding(c, After(c, buffers, events));
  }

  lemma InitialIsHome(c: Config, buffers: seq<seq<Byte>>)
    requires GoodBuffers(c, buffers)
    ensures AllHome(c, Initial(buffers)) && Initial(buffers).again == 0
  {
  }

  lemma ReapStep(c: Config, s: SendState)
    requires c.Zc() && !s.ended && !s.fault && forall e :: e in s.cq ==> e.Again?
    ensures
      var t := Step(c, s, ReapCq);
      && Sized(t, |s.pool| + |s.cq|, |s.sq|, |s.working|, 0)
      && t.awaiting == s.awaiting && t.leaked == s.leaked && t.again == s.again + |s.cq|
  {
    ReapTurnedDown(c, s, [], 0);
  }

  lemma HomeMeansNoneOutstanding(c: Config, s: SendState)
    requires AllHome(c, s)
    ensures Outstanding(c, s) == 0
  {
  }

  // Results and notifications together

  /** A round in which nothing is answered. */
  lemma IdleRound(c: Config, buffers: seq<seq<Byte>>, events: seq<Event>) returns (more: seq<Event>)
    requires GoodConfig(c) && GoodBuffers(c, buffers) && c.Zc() && AtRoundStart(c, buffers, events)
    requires |After(c, buffers, events).pool| >= c.uring.burstSize
    ensures AtRoundStart(c, buffers, more)
    ensures
      var s, t := After(c, buffers, events), After(c, buffers, more);
      Sized(t, |s.pool| - Batch(c, s), 0, |s.working| + Batch(c, s), 0)
  {
    hide Inv, Step, After;
    var taken := FillAndTake(c, buffers, events);
    InvAlways(c, buffers, taken);
    InvMeans(c, After(c, buffers, taken));
    RunAppend(c, buffers, taken, ReapCq);
    ReapNothing(c, After(c, buffers, taken));
    more := taken + [ReapCq];
  }

  lemma ReapNothing(c: Config, s: SendState)
    requires !s.fault && !s.ended && s.cq == []
    ensures
      var t := Step(c, s, ReapCq);
      t == s.(pool := t.pool, capacity := t.capacity, inflight := t.inflight, fault := t.fault) && t.pool == s.pool
  {
    assert s.pool + [] == s.pool;
  }

  lemma {:induction false} IdleRounds(c: Config, buffers: seq<seq<Byte>>, k: nat) returns (events: seq<Event>)
    requires GoodConfig(c) && GoodBuffers(c, buffers) && c.Zc() && c.uring.sqFillingMode != Syscall && k <= 3
    ensures AtRoundStart(c, buffers, events)
    ensures Sized(After(c, buffers, events), (4 - k) * c.uring.ringSize, 0, k * c.uring.ringSize, 0)
  {
    hide Inv, Step, After;
    if k == 0 {
      events := [];
      InitialRun(c, buffers);
      InitialIsHome(c, buffers);
    } else {
      var before := IdleRounds(c, buffers, k - 1);
      OneRingMore(k, c.uring.ringSize);
      events := IdleRound(c, buffers, before);
    }
  }

  lemma OneRingMore(k: nat, r: nat)
    requires 0 < k <= 3
    ensures (4 - (k - 1)) * r == (4 - k) * r + r && k * r == (k - 1) * r + r && (4 - k) * r >= r
  {
  }

  /** k requests are sent and their notifications posted. */
  lemma {:induction false} SentAndNotified(c: Config, buffers: seq<seq<Byte>>, events: seq<Event>, k: nat)
    returns (more: seq<Event>)
    requires GoodConfig(c) && GoodBuffers(c, buffers) && c.Zc() && LoopRun(c, buffers, events) && FilledLast(events)
    requires !After(c, buffers, events).ended && k <= |After(c, buffers, events).working|
    ensures LoopRun(c, buffers, more) && FilledLast(more)
    ensures FillActed(c, buffers, more) == FillActed(c, buffers, events)
    ensures
      var s, t := After(c, buffers, events), After(c, buffers, more);
      Sized(t, |s.pool|, |s.sq|, |s.working| - k, |s.cq| + 2 * k)
  {
    hide Inv, Step, After, FillActed;
    if k == 0 {
      more := events;
    } else {
      var before := SentAndNotified(c, buffers, events, k - 1);
      var s := After(c, buffers, before);
      InvAlways(c, buffers, before);
      InvMeans(c, s);
      var index := AnyOf(s.working);
      var sent, notified := KernelAnswers(Sent(index, c.mss)), KernelAnswers(Notif(index, false));
      RunAppend(c, buffers, before, sent);
      RunAppend(c, buffers, before + [sent], notified);
      InvAlways(c, buffers, before + [sent]);
      InvMeans(c, After(c, buffers, before + [sent]));
      SendOne(c, s, index);
      NotifyOne(c, After(c, buffers, before + [sent]), index);
      more := before + [sent] + [notified];
    }
  }

  lemma SendOne(c: Config, s: SendState, index: nat)
    requires c.Zc() && !s.ended && !s.fault && index in s.working
    ensures
      var t := Step(c, s, KernelAnswers(Sent(index, c.mss)));
      && !t.ended && t.pool == s.pool && t.sq == s.sq && t.working == s.working - multiset{index}
      && t.awaiting == s.awaiting + multiset{index} && |t.cq| == |s.cq| + 1
  {
  }

  lemma NotifyOne(c: Config, s: SendState, index: nat)
    requires c.Zc() && !s.ended && !s.fault && index in s.awaiting
    ensures
      var t := Step(c, s, KernelAnswers(Notif(index, false)));
      && !t.ended && t.pool == s.pool && t.sq == s.sq && t.working == s.working && |t.cq| == |s.cq| + 1
  {
  }

  /** Three rounds without an answer, and in the fourth, while the fill is in the kernel, a result and
      a notification for every request. */
  lemma AllAnsweredAtOnce(c: Config, buffers: seq<seq<Byte>>) returns (events: seq<Event>)
    requires GoodConfig(c) && GoodBuffers(c, buffers) && c.Zc() && c.uring.sqFillingMode != Syscall
    ensures LoopRun(c, buffers, events) && FillActed(c, buffers, events)
    ensures |After(c, buffers, events).cq| == 2 * c.uring.bufferSize
  {
    hide After, FillActed, LoopRun;
    var three := IdleRounds(c, buffers, 3);
    var taken := FillAndTake(c, buffers, three);
    events := SentAndNotified(c, buffers, taken, 4 * c.uring.ringSize);
  }
}
