/** How far the queues and counters of the rings can grow: the completion queue of the zero-copy
    sender, and the indexes into the utilization arrays. */
module RingLimits {
  import opened Wire
  import opened Arithmetic
  import opened FillMode
  import opened Statistics
  import opened SendRing
  import opened SendWire
  import opened SendRuns
  import RR = RecvRing
  import RecvRuns
  import PR = ProvidedRing

  // The receiver

  /** The completion queue length, read at the end of a fill that did something, indexes an array of
      twice the largest ring size. It stays in range in all runs, and in all runs in the order of
      the loop, exactly if the ring is at most half that size or filled a burst at a time. */
  lemma ReceiverCqIndexInRangeExactly(p: UringParameter)
    requires Sound(p)
    ensures (forall events :: |RR.After(p, events).cq| < CQ_SLOTS) <==> p.ringSize <= 1024 || p.sqFillingMode == Syscall
    ensures (forall events :: RR.LoopRun(p, events) && RR.FillActed(p, events) ==> |RR.After(p, events).cq| < CQ_SLOTS)
      <==> p.ringSize <= 1024 || p.sqFillingMode == Syscall
  {
    hide RR.After, RR.LoopRun, RR.FillActed;
    if p.ringSize <= 1024 || p.sqFillingMode == Syscall {
      forall events ensures |RR.After(p, events).cq| < CQ_SLOTS {
        RR.InvAlways(p, events);
        RR.Census(p, RR.After(p, events));
      }
    } else {
      var events := RecvRuns.AllCompletedAtOnce(p);
      assert |RR.After(p, events).cq| >= CQ_SLOTS;
    }
  }

  /** The receivers' counters of requests in flight always index the array. */
  lemma ReceiverInflightIndexInRange(p: UringParameter, events: seq<RR.Event>, provided: seq<PR.Event>)
    requires Sound(p)
    ensures !RR.After(p, events).ended ==> 0 <= RR.After(p, events).inflight < INFLIGHT_SLOTS
    ensures 0 <= PR.After(p, provided).inflight < INFLIGHT_SLOTS
    ensures p.ringSize <= 1024 ==> |PR.After(p, provided).cq| < CQ_SLOTS
  {
    RR.InvAlways(p, events);
    RR.Census(p, RR.After(p, events));
    PR.InvAlways(p, provided);
  }

  // The zero-copy sender: two completions per request

  function NotifsIn(cq: seq<Cqe>): nat {
    if |cq| == 0 then 0 else NotifsIn(cq[1..]) + if cq[0].Notif? then 1 else 0
  }

  /** In every rest of the queue, each result of a sent message is followed by its notification,
      unless that is still awaited. */
  ghost predicate Paired(cq: seq<Cqe>, awaiting: nat) {
    |cq| == 0 || (SentIn(cq) <= awaiting + NotifsIn(cq) && Paired(cq[1..], awaiting))
  }

  lemma {:induction false} PairedAppend(cq: seq<Cqe>, e: Cqe, awaiting: nat, awaiting': nat)
    requires Paired(cq, awaiting)
    requires awaiting' + (if e.Notif? then 1 else 0) == awaiting + (if e.Sent? then 1 else 0)
    ensures Paired(cq + [e], awaiting')
    ensures NotifsIn(cq + [e]) == NotifsIn(cq) + if e.Notif? then 1 else 0
  {
    if |cq| == 0 {
      assert cq + [e] == [e] && |[e][1..]| == 0;
    } else {
      PairedAppend(cq[1..], e, awaiting, awaiting');
      assert (cq + [e])[1..] == cq[1..] + [e];
      SentAppend(cq, e);
    }
  }

  lemma {:induction false} ReapStaysPaired(c: Config, s: SendState, collected: seq<nat>, completed: nat)
    requires Paired(s.cq, |s.awaiting|)
    ensures
      var t := Reap(c, s, collected, completed);
      Paired(t.cq, |t.awaiting|)
    decreases |s.cq|
  {
    if |s.cq| == 0 || s.cq[0].Failed? {
    } else {
      var e := s.cq[0];
      ReapStaysPaired(c, ReapOne(c, s), if GivesBack(c, e) then collected + [e.index] else collected,
                      if Completes(c, e) then completed + 1 else completed);
    }
  }

  lemma PostStaysPaired(c: Config, s: SendState, e: Cqe)
    requires c.Zc() && Paired(s.cq, |s.awaiting|)
    ensures
      var t := KernelPosts(c, s, e);
      Paired(t.cq, |t.awaiting|)
  {
    var t := KernelPosts(c, s, e);
    if e.Notif? && e.index in s.awaiting { RemoveOne(s.awaiting, e.index); }
    if t != s { PairedAppend(s.cq, e, |s.awaiting|, |t.awaiting|); }
  }

  lemma StepStaysPaired(c: Config, s: SendState, e: Event)
    requires c.Zc() && Paired(s.cq, |s.awaiting|)
    ensures
      var t := Step(c, s, e);
      Paired(t.cq, |t.awaiting|)
  {
    hide Fill, Reap, KernelPosts, Paired;
    if !s.ended && !s.fault {
      match e {
        case FillSq(sqLeft, cqEmpty, room) =>
          FillLeavesWire(c, s, if sqLeft < c.uring.ringSize then sqLeft else c.uring.ringSize, cqEmpty, room);
        case KernelAnswers(cqe) => PostStaysPaired(c, s, cqe);
        case ReapCq => ReapStaysPaired(c, s, [], 0);
        case KernelTakes(_) =>
        case IntervalEnds =>
      }
    }
  }

  lemma {:induction false} PairedAlways(c: Config, buffers: seq<seq<Byte>>, events: seq<Event>)
    requires c.Zc()
    ensures
      var s := After(c, buffers, events);
      Paired(s.cq, |s.awaiting|)
  {
    hide Step;
    if |events| == 0 {
    } else {
      var last := |events| - 1;
      PairedAlways(c, buffers, events[..last]);
      StepStaysPaired(c, After(c, buffers, events[..last]), events[last]);
    }
  }

  lemma {:induction false} CqSplits(c: Config, cq: seq<Cqe>)
    requires c.Zc()
    ensures |cq| == SentIn(cq) + |Finals(c, cq)| && NotifsIn(cq) <= |Finals(c, cq)|
  {
    if |cq| == 0 {
    } else {
      CqSplits(c, cq[1..]);
    }
  }

  /** Zero copy, over every run: the completions waiting to be reaped are at most twice the buffers,
      and more than the completion queue was sized for exactly if more results of sent messages are
      waiting than buffers are elsewhere. */
  lemma CqHoldsAtMostTwiceTheBuffers(c: Config, buffers: seq<seq<Byte>>, events: seq<Event>)
    requires GoodConfig(c) && GoodBuffers(c, buffers) && c.Zc()
    ensures
      var s := After(c, buffers, events);
      && |s.cq| <= 2 * c.uring.bufferSize
      && (c.uring.sqFillingMode == Syscall ==> |s.cq| <= 2 * c.uring.burstSize)
      && (|s.cq| > c.uring.bufferSize <==>
            SentIn(s.cq) > |s.pool| + |s.sq| + |s.working| + |s.awaiting| + |s.leaked|)
  {
    var s := After(c, buffers, events);
    hide After, Finals;
    InvAlways(c, buffers, events);
    PairedAlways(c, buffers, events);
    CqSplits(c, s.cq);
    Census(c, s, []);
  }

  /** The completion queue, sized to one entry per buffer, is large enough in all runs of the
      zero-copy sender, and in all runs in the order of the loop, exactly in Syscall mode; otherwise
      twice as many completions can wait. */
  lemma CqSizeSufficesExactly(c: Config, buffers: seq<seq<Byte>>)
    requires GoodConfig(c) && GoodBuffers(c, buffers) && c.Zc()
    ensures (forall events :: |After(c, buffers, events).cq| <= c.uring.bufferSize) <==>
        c.uring.sqFillingMode == Syscall
    ensures (forall events :: LoopRun(c, buffers, events) ==> |After(c, buffers, events).cq| <= c.uring.bufferSize)
      <==> c.uring.sqFillingMode == Syscall
    ensures c.uring.sqFillingMode != Syscall ==>
      exists events ::
        LoopRun(c, buffers, events) && FillActed(c, buffers, events)
        && |After(c, buffers, events).cq| == 2 * c.uring.bufferSize
  {
    hide After, LoopRun, FillActed;
    if c.uring.sqFillingMode == Syscall {
      forall events ensures |After(c, buffers, events).cq| <= c.uring.bufferSize {
        CqHoldsAtMostTwiceTheBuffers(c, buffers, events);
      }
    } else {
      var events := AllAnsweredAtOnce(c, buffers);
      assert |After(c, buffers, events).cq| == 2 * c.uring.bufferSize;
    }
  }

  /** The completions the program can see; the kernel keeps the others back until there is room. */
  function Visible(c: Config, s: SendState): nat {
    if |s.cq| < c.uring.bufferSize then |s.cq| else c.uring.bufferSize
  }

  /** The sender's completion queue length indexes its array under the receiver's condition. */
  lemma SenderCqIndexInRangeExactly(c: Config, buffers: seq<seq<Byte>>)
    requires GoodConfig(c) && GoodBuffers(c, buffers) && c.Zc()
    ensures (forall events :: Visible(c, After(c, buffers, events)) < CQ_SLOTS)
      <==> c.uring.ringSize <= 1024 || c.uring.sqFillingMode == Syscall
    ensures (forall events :: LoopRun(c, buffers, events) && FillActed(c, buffers, events) ==>
               Visible(c, After(c, buffers, events)) < CQ_SLOTS)
      <==> c.uring.ringSize <= 1024 || c.uring.sqFillingMode == Syscall
  {
    hide After, LoopRun, FillActed;
    if c.uring.sqFillingMode == Syscall {
      forall events ensures Visible(c, After(c, buffers, events)) < CQ_SLOTS {
        CqHoldsAtMostTwiceTheBuffers(c, buffers, events);
      }
    } else if c.uring.ringSize > 1024 {
      var events := AllAnsweredAtOnce(c, buffers);
      assert Visible(c, After(c, buffers, events)) >= CQ_SLOTS;
    }
  }

  /** The sender's counter of requests in flight indexes its array as long as few enough requests
      have been turned down; in all runs, and whenever a round begins in all runs in the order of the
      loop, exactly if nothing is ever submitted. */
  lemma SenderInflightIndexInRangeExactly(c: Config, buffers: seq<seq<Byte>>)
    requires GoodConfig(c) && GoodBuffers(c, buffers) && c.Zc()
    ensures forall events ::
      !After(c, buffers, events).ended && After(c, buffers, events).again < INFLIGHT_SLOTS - c.uring.bufferSize ==>
        0 <= After(c, buffers, events).inflight < INFLIGHT_SLOTS
    ensures (forall events :: !After(c, buffers, events).ended ==>
        0 <= After(c, buffers, events).inflight < INFLIGHT_SLOTS)
      <==> !Submits(c.uring)
    ensures (forall events :: LoopRun(c, buffers, events) && !FilledLast(events) && !After(c, buffers, events).ended ==>
               0 <= After(c, buffers, events).inflight < INFLIGHT_SLOTS)
      <==> !Submits(c.uring)
  {
    hide After, LoopRun, FilledLast;
    forall events ensures !After(c, buffers, events).ended ==>
      var s := After(c, buffers, events);
      && (s.again < INFLIGHT_SLOTS - c.uring.bufferSize ==> 0 <= s.inflight < INFLIGHT_SLOTS)
      && (!Submits(c.uring) ==> s.inflight == 0)
    {
      hide Inv;
      InvAlways(c, buffers, events);
      InvMeans(c, After(c, buffers, events));
      if !Submits(c.uring) { NeverTurnedDown(c, buffers, events); }
    }
    if Submits(c.uring) {
      var events := CounterGrowsForEver(c, buffers, INFLIGHT_SLOTS);
      assert After(c, buffers, events).inflight >= INFLIGHT_SLOTS;
    }
  }

  lemma {:induction false} NeverTurnedDown(c: Config, buffers: seq<seq<Byte>>, events: seq<Event>)
    requires GoodConfig(c) && GoodBuffers(c, buffers) && c.Zc() && !Submits(c.uring)
    ensures
      var s := After(c, buffers, events);
      s.again == 0 && s.sq == [] && s.working == multiset{} && s.awaiting == multiset{} && s.cq == []
  {
    hide Inv, Step;
    if |events| == 0 {
    } else {
      var last := |events| - 1;
      NeverTurnedDown(c, buffers, events[..last]);
      InvAlways(c, buffers, events[..last]);
      StepNeverTurnsDown(c, After(c, buffers, events[..last]), events[last]);
    }
  }

  lemma StepNeverTurnsDown(c: Config, s: SendState, e: Event)
    requires GoodConfig(c) && c.Zc() && !Submits(c.uring) && Inv(c, s)
    requires s.again == 0 && s.sq == [] && s.working == multiset{} && s.awaiting == multiset{} && s.cq == []
    ensures
      var t := Step(c, s, e);
      t.again == 0 && t.sq == [] && t.working == multiset{} && t.awaiting == multiset{} && t.cq == []
  {
  }
}
