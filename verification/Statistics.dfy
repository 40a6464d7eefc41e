/** Statistics: their addition, the intervals a thread cuts its measurement into, and the total a
    thread reports. */
module Statistics {
  import opened Counters
  import opened FillMode
  import opened Wrappers

  const SQ_SLOTS: nat := MAX_RING_SIZE + 1
  const CQ_SLOTS: nat := MAX_RING_SIZE * 2 + 1
  const INFLIGHT_SLOTS: nat := MAX_RING_SIZE * BUFFER_SIZE_MULTIPLICATOR + 1

  datatype Utilization = Utilization(sq: seq<nat>, cq: seq<nat>, inflight: seq<nat>)

  datatype Statistic = Statistic(
    counts: Counts,
    start: real,
    end: real,
    duration: real,
    intervalId: nat,
    utilization: Option<Utilization>)

  /** The utilization arrays are there, full length, exactly if they are recorded. */
  ghost predicate Fits(record: bool, s: Statistic) {
    match s.utilization
    case None => !record
    case Some(u) => record && |u.sq| == SQ_SLOTS && |u.cq| == CQ_SLOTS && |u.inflight| == INFLIGHT_SLOTS
  }

  function Zeros(n: nat): seq<nat> { seq(n, _ => 0) }

  function NewStatistic(record: bool, now: real): (s: Statistic)
    ensures Fits(record, s)
  {
    Statistic(NO_COUNTS, now, 0.0, 0.0, 0,
              if record then Some(Utilization(Zeros(SQ_SLOTS), Zeros(CQ_SLOTS), Zeros(INFLIGHT_SLOTS))) else None)
  }

  function Lesser(a: real, b: real): real { if a <= b then a else b }
  function Greater(a: real, b: real): real { if a >= b then a else b }

  function AddSlots(a: seq<nat>, b: seq<nat>): (r: seq<nat>)
    requires |a| == |b|
    ensures |r| == |a| && forall i :: 0 <= i < |a| ==> r[i] == a[i] + b[i]
  {
    seq(|a|, i requires 0 <= i < |a| => a[i] + b[i])
  }

  function AddUtilization(a: Utilization, b: Utilization): Utilization
    requires |a.sq| == |b.sq| && |a.cq| == |b.cq| && |a.inflight| == |b.inflight|
  {
    Utilization(AddSlots(a.sq, b.sq), AddSlots(a.cq, b.cq), AddSlots(a.inflight, b.inflight))
  }

  function Add(record: bool, a: Statistic, b: Statistic): (r: Statistic)
    requires Fits(record, a) && Fits(record, b)
    ensures Fits(record, r)
  {
    Statistic(
      a.counts.Plus(b.counts),
      Lesser(a.start, b.start),
      Greater(a.end, b.end),
      Greater(a.duration, b.duration),
      if a.intervalId >= b.intervalId then a.intervalId else b.intervalId,
      if record then Some(AddUtilization(a.utilization.value, b.utilization.value)) else None)
  }

  /** One of the three loops that add the utilization arrays. */
  method AddArrays(a: array<nat>, b: array<nat>) returns (sum: array<nat>)
    requires a.Length == b.Length
    ensures fresh(sum) && sum[..] == AddSlots(a[..], b[..])
  {
    sum := new nat[a.Length](_ => 0);
    for i := 0 to sum.Length
      invariant forall k :: 0 <= k < i ==> sum[k] == a[k] + b[k]
    {
      sum[i] := a[i] + b[i];
    }
  }

  // Merging does not depend on the order

  lemma SlotsCommute(a: seq<nat>, b: seq<nat>)
    requires |a| == |b|
    ensures AddSlots(a, b) == AddSlots(b, a)
  {
  }

  lemma SlotsAssociate(a: seq<nat>, b: seq<nat>, c: seq<nat>)
    requires |a| == |b| == |c|
    ensures AddSlots(AddSlots(a, b), c) == AddSlots(a, AddSlots(b, c))
  {
  }

  lemma AddCommutes(record: bool, a: Statistic, b: Statistic)
    requires Fits(record, a) && Fits(record, b)
    ensures Add(record, a, b) == Add(record, b, a)
  {
    PlusLaws(a.counts, b.counts, b.counts);
    if record {
      var u, v := a.utilization.value, b.utilization.value;
      SlotsCommute(u.sq, v.sq);
      SlotsCommute(u.cq, v.cq);
      SlotsCommute(u.inflight, v.inflight);
    }
  }

  lemma AddAssociates(record: bool, a: Statistic, b: Statistic, c: Statistic)
    requires Fits(record, a) && Fits(record, b) && Fits(record, c)
    ensures Add(record, Add(record, a, b), c) == Add(record, a, Add(record, b, c))
  {
    PlusLaws(a.counts, b.counts, c.counts);
    if record {
      var u, v, w := a.utilization.value, b.utilization.value, c.utilization.value;
      SlotsAssociate(u.sq, v.sq, w.sq);
      SlotsAssociate(u.cq, v.cq, w.cq);
      SlotsAssociate(u.inflight, v.inflight, w.inflight);
    }
  }

  ghost predicate AllFit(record: bool, xs: seq<Statistic>) {
    forall i :: 0 <= i < |xs| ==> Fits(record, xs[i])
  }

  /** Statistics added one after the other to a first one. */
  function Fold(record: bool, first: Statistic, xs: seq<Statistic>): (r: Statistic)
    requires Fits(record, first) && AllFit(record, xs)
    ensures Fits(record, r)
  {
    if |xs| == 0 then first else Add(record, Fold(record, first, xs[..|xs| - 1]), xs[|xs| - 1])
  }

  lemma AddSwaps(record: bool, a: Statistic, b: Statistic, c: Statistic)
    requires Fits(record, a) && Fits(record, b) && Fits(record, c)
    ensures Add(record, Add(record, a, b), c) == Add(record, Add(record, a, c), b)
  {
    hide Add;
    AddAssociates(record, a, b, c);
    AddAssociates(record, a, c, b);
    AddCommutes(record, b, c);
  }

  lemma FoldAppend(record: bool, first: Statistic, xs: seq<Statistic>, x: Statistic)
    requires Fits(record, first) && AllFit(record, xs) && Fits(record, x)
    ensures AllFit(record, xs + [x])
    ensures Fold(record, first, xs + [x]) == Add(record, Fold(record, first, xs), x)
  {
    hide Add, Fits;
    assert (xs + [x])[..|xs|] == xs;
  }

  lemma {:induction false} FoldPullsOut(record: bool, first: Statistic, a: seq<Statistic>, x: Statistic,
                                        b: seq<Statistic>)
    requires Fits(record, first) && AllFit(record, a) && Fits(record, x) && AllFit(record, b)
    ensures AllFit(record, a + [x] + b) && AllFit(record, a + b)
    ensures Fold(record, first, a + [x] + b) == Add(record, Fold(record, first, a + b), x)
    decreases |b|
  {
    hide Add, Fits, Fold;
    if |b| == 0 {
      assert a + [x] + b == a + [x] && a + b == a;
      FoldAppend(record, first, a, x);
    } else {
      var front, y := b[..|b| - 1], b[|b| - 1];
      FoldPullsOut(record, first, a, x, front);
      assert a + [x] + b == (a + [x] + front) + [y] && a + b == (a + front) + [y];
      FoldAppend(record, first, a + [x] + front, y);
      FoldAppend(record, first, a + front, y);
      AddSwaps(record, Fold(record, first, a + front), x, y);
    }
  }

  /** Any order of the same statistics yields the same total. */
  lemma {:induction false} MergeIsOrderIndependent(record: bool, first: Statistic, xs: seq<Statistic>,
                                                   ys: seq<Statistic>)
    requires Fits(record, first) && AllFit(record, xs) && AllFit(record, ys)
    requires multiset(xs) == multiset(ys)
    ensures Fold(record, first, xs) == Fold(record, first, ys)
    decreases |xs|
  {
    hide Add, Fits, Fold;
    if |xs| == 0 {
      assert |multiset(ys)| == 0;
      assert xs == ys;
    } else {
      var front, x := xs[..|xs| - 1], xs[|xs| - 1];
      assert xs == front + [x];
      var a, b := SplitAround(ys, x);
      SameRest(front, x, a, b);
      FoldAppend(record, first, front, x);
      FoldPullsOut(record, first, a, x, b);
      MergeIsOrderIndependent(record, first, front, a + b);
    }
  }

  lemma SplitAround(ys: seq<Statistic>, x: Statistic) returns (a: seq<Statistic>, b: seq<Statistic>)
    requires x in multiset(ys)
    ensures ys == a + [x] + b
    ensures (forall i :: 0 <= i < |a| ==> a[i] == ys[i]) && (forall i :: 0 <= i < |b| ==> b[i] == ys[|a| + 1 + i])
  {
    var j :| 0 <= j < |ys| && ys[j] == x;
    a, b := ys[..j], ys[j + 1..];
  }

  lemma SameRest(front: seq<Statistic>, x: Statistic, a: seq<Statistic>, b: seq<Statistic>)
    requires multiset(front + [x]) == multiset(a + [x] + b)
    ensures multiset(front) == multiset(a + b)
  {
    assert multiset(front) == multiset(front + [x]) - multiset{x};
    assert multiset(a + b) == multiset(a + [x] + b) - multiset{x};
  }

  // What a sum of statistics is, statistic by statistic

  datatype Slots = SqSlots | CqSlots | InflightSlots

  function SlotsOf(s: Statistic, slots: Slots): seq<nat> {
    match s.utilization
    case None => []
    case Some(u) =>
      match slots
      case SqSlots => u.sq
      case CqSlots => u.cq
      case InflightSlots => u.inflight
  }

  /** Slot i over all statistics, and one counter over all of them. */
  function SlotTotal(xs: seq<Statistic>, slots: Slots, i: nat): nat {
    if |xs| == 0 then 0
    else
      var x := SlotsOf(xs[|xs| - 1], slots);
      SlotTotal(xs[..|xs| - 1], slots, i) + if i < |x| then x[i] else 0
  }

  function CounterTotal(xs: seq<Statistic>, counter: Counter): int {
    if |xs| == 0 then 0 else CounterTotal(xs[..|xs| - 1], counter) + CountOf(xs[|xs| - 1].counts, counter)
  }

  ghost predicate SpansAll(xs: seq<Statistic>, r: Statistic) {
    && (forall i :: 0 <= i < |xs| ==> r.start <= xs[i].start && r.end >= xs[i].end)
    && (forall i :: 0 <= i < |xs| ==> r.duration >= xs[i].duration && r.intervalId >= xs[i].intervalId)
    && (exists i :: 0 <= i < |xs| && r.start == xs[i].start)
    && (exists i :: 0 <= i < |xs| && r.end == xs[i].end)
    && (exists i :: 0 <= i < |xs| && r.duration == xs[i].duration)
    && (exists i :: 0 <= i < |xs| && r.intervalId == xs[i].intervalId)
  }

  ghost predicate SumsSlots(record: bool, xs: seq<Statistic>, r: Statistic) {
    && r.utilization.Some? == record
    && (forall slots, i :: 0 <= i < |SlotsOf(r, slots)| ==> SlotsOf(r, slots)[i] == SlotTotal(xs, slots, i))
  }

  ghost predicate SumsCounters(xs: seq<Statistic>, r: Statistic) {
    forall counter :: CountOf(r.counts, counter) == CounterTotal(xs, counter)
  }

  /** The sum of statistics starts with the earliest and ends with the latest of them, takes the
      longest duration and the highest interval number, and adds up each counter and each slot of the
      utilization arrays. */
  ghost predicate Combines(record: bool, xs: seq<Statistic>, r: Statistic) {
    SpansAll(xs, r) && SumsSlots(record, xs, r) && SumsCounters(xs, r)
  }

  lemma Alone(record: bool, a: Statistic)
    requires Fits(record, a)
    ensures Combines(record, [a], a)
  {
    assert [a][..0] == [] && [a][0] == a;
  }

  /** One more statistic. */
  lemma AddCombines(record: bool, xs: seq<Statistic>, a: Statistic, b: Statistic)
    requires Fits(record, a) && Fits(record, b) && Combines(record, xs, a)
    ensures Combines(record, xs + [b], Add(record, a, b))
  {
    hide Combines, SpansAll, SumsSlots, SumsCounters, Add;
    assert Combines(record, xs, a);
    CombinesParts(record, xs, a);
    AddSpans(record, xs, a, b);
    AddSumsSlots(record, xs, a, b);
    AddSumsCounters(record, xs, a, b);
    CombinesParts(record, xs + [b], Add(record, a, b));
  }

  lemma CombinesParts(record: bool, xs: seq<Statistic>, r: Statistic)
    ensures Combines(record, xs, r) <==> SpansAll(xs, r) && SumsSlots(record, xs, r) && SumsCounters(xs, r)
  {
    hide SpansAll, SumsSlots, SumsCounters;
  }

  lemma AddSpans(record: bool, xs: seq<Statistic>, a: Statistic, b: Statistic)
    requires Fits(record, a) && Fits(record, b) && SpansAll(xs, a)
    ensures SpansAll(xs + [b], Add(record, a, b))
  {
    hide Fits;
    var all, r, n := xs + [b], Add(record, a, b), |xs|;
    assert all[n] == b && forall i :: 0 <= i < n ==> all[i] == xs[i];
    var start :| 0 <= start < n && a.start == xs[start].start;
    var end :| 0 <= end < n && a.end == xs[end].end;
    var duration :| 0 <= duration < n && a.duration == xs[duration].duration;
    var id :| 0 <= id < n && a.intervalId == xs[id].intervalId;
    assert r.start == all[if r.start == b.start then n else start].start;
    assert r.end == all[if r.end == b.end then n else end].end;
    assert r.duration == all[if r.duration == b.duration then n else duration].duration;
    assert r.intervalId == all[if r.intervalId == b.intervalId then n else id].intervalId;
  }

  lemma AddSumsSlots(record: bool, xs: seq<Statistic>, a: Statistic, b: Statistic)
    requires Fits(record, a) && Fits(record, b) && SumsSlots(record, xs, a)
    ensures SumsSlots(record, xs + [b], Add(record, a, b))
  {
    var r, all := Add(record, a, b), xs + [b];
    assert all[..|xs|] == xs;
    forall slots, i | 0 <= i < |SlotsOf(r, slots)| ensures SlotsOf(r, slots)[i] == SlotTotal(all, slots, i) {
      assert SlotsOf(r, slots) == AddSlots(SlotsOf(a, slots), SlotsOf(b, slots));
      assert SlotsOf(a, slots)[i] == SlotTotal(xs, slots, i);
    }
  }

  lemma AddSumsCounters(record: bool, xs: seq<Statistic>, a: Statistic, b: Statistic)
    requires Fits(record, a) && Fits(record, b) && SumsCounters(xs, a)
    ensures SumsCounters(xs + [b], Add(record, a, b))
  {
    hide Fits, CountOf;
    var r := Add(record, a, b);
    assert (xs + [b])[..|xs|] == xs;
    PlusAddsEachCounter(a.counts, b.counts, r.counts);
  }

  lemma {:induction false} FoldCombines(record: bool, first: Statistic, xs: seq<Statistic>)
    requires Fits(record, first) && AllFit(record, xs)
    ensures Combines(record, [first] + xs, Fold(record, first, xs))
  {
    hide Fits, Combines, Add;
    if |xs| == 0 {
      Alone(record, first);
      assert [first] + xs == [first];
    } else {
      var front, x := xs[..|xs| - 1], xs[|xs| - 1];
      FoldCombines(record, first, front);
      AddCombines(record, [first] + front, Fold(record, first, front), x);
      assert [first] + front + [x] == [first] + xs;
    }
  }

  /** A new statistic adds nothing to any slot. */
  lemma {:induction false} NewAddsNothing(record: bool, now: real, xs: seq<Statistic>, slots: Slots, i: nat, id: nat)
    ensures SlotTotal([NewStatistic(record, now).(intervalId := id)] + xs, slots, i) == SlotTotal(xs, slots, i)
  {
    var s := NewStatistic(record, now).(intervalId := id);
    if |xs| == 0 {
      assert [s] + xs == [s] && [s][..0] == [];
    } else {
      NewAddsNothing(record, now, xs[..|xs| - 1], slots, i, id);
      assert ([s] + xs)[..|xs|] == [s] + xs[..|xs| - 1];
    }
  }

  /** The average of two rates, a zero rate standing for "nothing measured". */
  function MergedRate(a: real, b: real): real {
    if a == 0.0 then b else if b == 0.0 then a else (a + b) / 2.0
  }

  /** Merged rates, unlike counters, depend on how the merges are grouped. */
  lemma MergedRatesAgreeExactly(a: real, b: real, c: real)
    requires a >= 0.0 && b >= 0.0 && c >= 0.0
    ensures MergedRate(MergedRate(a, b), c) == MergedRate(a, MergedRate(b, c)) <==>
              a == 0.0 || b == 0.0 || c == 0.0 || a == c
  {
  }

  // Intervals

  class StatisticInterval {
    const total: nat
    var intervalId: nat
    var amount: nat
    var lastTimestamp: real
    var statistics: seq<Statistic>
    ghost const began: real

    /** Interval outputs are numbered 1, 2, ..., never more than planned, and each starts when the
        one before it ended. */
    ghost predicate Valid()
      reads this
    {
      && |statistics| == amount <= total && intervalId == amount + 1
      && (forall i :: 0 <= i < |statistics| ==> statistics[i].intervalId == i + 1)
      && (forall i :: 0 < i < |statistics| ==> statistics[i].start == statistics[i - 1].end)
      && (forall i :: 0 <= i < |statistics| ==> statistics[i].duration == statistics[i].end - statistics[i].start)
      && (if amount == 0 then lastTimestamp == began
          else statistics[0].start == began && statistics[amount - 1].end == lastTimestamp)
    }

    lemma ValidMeans()
      requires Valid()
      ensures |statistics| <= total
      ensures if |statistics| == 0 then lastTimestamp == began else statistics[|statistics| - 1].end == lastTimestamp
    {
    }

    constructor (total: nat, now: real)
      ensures Valid() && this.total == total && statistics == [] && began == now
    {
      this.total := total;
      intervalId, amount, lastTimestamp, statistics := 1, 0, now, [];
      began := now;
    }

    method Finished() returns (finished: bool)
      requires Valid()
      ensures finished <==> |statistics| == total
    {
      finished := amount >= total;
    }

    /** Appends the statistic as the next interval, unless all of them have been put out. */
    method CalculateInterval(statistic: Statistic, now: real)
      requires Valid()
      modifies this
      ensures Valid()
      ensures old(|statistics|) == total ==> statistics == old(statistics) && lastTimestamp == old(lastTimestamp)
      ensures old(|statistics|) < total ==>
        && lastTimestamp == now
        && statistics == old(statistics) + [statistic.(intervalId := old(|statistics|) + 1, start := old(lastTimestamp),
                                                       end := now, duration := now - old(lastTimestamp))]
    {
      if amount >= total { return; }
      var entry := SetTestDuration(statistic.(intervalId := intervalId), Some(lastTimestamp), Some(now));
      lastTimestamp := now;
      amount := amount + 1;
      intervalId := intervalId + 1;
      statistics := statistics + [entry];
    }
  }

  function SumCounts(xs: seq<Statistic>): Counts {
    if |xs| == 0 then NO_COUNTS else SumCounts(xs[..|xs| - 1]).Plus(xs[|xs| - 1].counts)
  }

  lemma {:induction false} FoldCounts(record: bool, first: Statistic, xs: seq<Statistic>)
    requires Fits(record, first) && AllFit(record, xs)
    ensures Fold(record, first, xs).counts == first.counts.Plus(SumCounts(xs))
  {
    hide Fits;
    if |xs| == 0 {
    } else {
      FoldCounts(record, first, xs[..|xs| - 1]);
    }
  }

  lemma {:induction false} SumConcat(xs: seq<Statistic>, ys: seq<Statistic>)
    ensures SumCounts(xs + ys) == SumCounts(xs).Plus(SumCounts(ys))
    decreases |ys|
  {
    hide Counts.Plus;
    if |ys| == 0 {
      assert xs + ys == xs;
      PlusLaws(SumCounts(xs), NO_COUNTS, NO_COUNTS);
    } else {
      var last := |ys| - 1;
      assert (xs + ys)[..|xs + ys| - 1] == xs + ys[..last];
      SumConcat(xs, ys[..last]);
      PlusLaws(SumCounts(xs), SumCounts(ys[..last]), ys[last].counts);
    }
  }

  /** The intervals are the first k pieces, each closed at its own time and begun when the one before
      it was closed. */
  ghost predicate AreCuts(intervals: seq<Statistic>, pieces: seq<Statistic>, times: seq<real>, k: nat, began: real) {
    && k <= |pieces| == |times| && |intervals| == k
    && (forall i :: 0 <= i < k ==> IsCut(intervals[i], pieces[i], StartOf(times, i, began), times[i]))
  }

  function StartOf(times: seq<real>, i: nat, began: real): real
    requires i < |times|
  {
    if i == 0 then began else times[i - 1]
  }

  predicate IsCut(x: Statistic, piece: Statistic, start: real, end: real) {
    x.counts == piece.counts && x.utilization == piece.utilization && x.start == start && x.end == end
  }

  lemma CutsKeepCounts(xs: seq<Statistic>, pieces: seq<Statistic>, times: seq<real>, k: nat, began: real)
    requires AreCuts(xs, pieces, times, k, began)
    ensures SumCounts(xs) == SumCounts(pieces[..k])
  {
    forall i | 0 <= i < k ensures xs[i].counts == pieces[..k][i].counts {
      assert IsCut(xs[i], pieces[i], StartOf(times, i, began), times[i]);
    }
    SameCountsSameSum(xs, pieces[..k]);
  }

  lemma {:induction false} SameCountsSameSum(xs: seq<Statistic>, ys: seq<Statistic>)
    requires |xs| == |ys| && forall i :: 0 <= i < |xs| ==> xs[i].counts == ys[i].counts
    ensures SumCounts(xs) == SumCounts(ys)
  {
    if |xs| == 0 {
    } else {
      SameCountsSameSum(xs[..|xs| - 1], ys[..|xs| - 1]);
    }
  }

  // The total of one thread

  /** How many of the `n` pieces, cut at the interval ends seen by the loop, become intervals.
      The sender closes the last piece itself, the receiver does not. */
  function Pushed(n: nat, total: nat, closesLast: bool): nat
    requires n > 0
  {
    var offered := if closesLast then n else n - 1;
    if offered < total then offered else total
  }

  /** The counts a thread reports: the pieces that became intervals, or the last piece alone if
      none did. */
  function Reported(pieces: seq<Statistic>, total: nat, closesLast: bool): Counts
    requires |pieces| > 0
  {
    var pushed := Pushed(|pieces|, total, closesLast);
    if pushed == 0 then pieces[|pieces| - 1].counts else SumCounts(pieces[..pushed])
  }

  /** A measurement loop, seen from its statistics: `pieces[i]` is what was counted between two
      interval ends, the last one up to the end of the loop. `end` is when the loop ended. */
  method RunThread(record: bool, interval: StatisticInterval, pieces: seq<Statistic>, times: seq<real>,
                   closesLast: bool, end: real, now: real) returns (final: Statistic)
    requires interval.Valid() && interval.statistics == []
    requires |pieces| == |times| > 0 && AllFit(record, pieces)
    modifies interval
    ensures interval.Valid() && AllFit(record, interval.statistics) && Fits(record, final)
    ensures
      var k := Least(if closesLast then |pieces| else |pieces| - 1, interval.total);
      && AreCuts(interval.statistics, pieces, times, k, interval.began)
      && final.counts == (if k == 0 then pieces[|pieces| - 1].counts else SumCounts(pieces[..k]))
      && (k == 0 ==> IsCut(final, pieces[|pieces| - 1], interval.began, end))
      && (k > 0 ==> exists d: real ::
          Combines(record, [NewStatistic(record, now)] + interval.statistics, final.(duration := d)))
    ensures final.duration == final.end - final.start
    ensures final.counts == Reported(pieces, interval.total, closesLast)
    ensures interval.statistics != [] ==> final.counts == SumCounts(interval.statistics)
  {
    hide Fits, interval.Valid, Combines;
    var last := |pieces| - 1;
    for i := 0 to last
      invariant interval.Valid() && AllFit(record, interval.statistics)
      invariant AreCuts(interval.statistics, pieces, times, Least(i, interval.total), interval.began)
    {
      Offer(record, interval, pieces, times, i);
    }
    var finished := interval.Finished();
    if closesLast && !finished {
      Offer(record, interval, pieces, times, last);
    }
    CutsKeepCounts(interval.statistics, pieces, times, |interval.statistics|, interval.began);
    final := Total(record, interval, pieces[last], end, now);
  }

  /** The statistic of the whole measurement. */
  method Total(record: bool, interval: StatisticInterval, last: Statistic, end: real, now: real)
    returns (final: Statistic)
    requires interval.Valid() && AllFit(record, interval.statistics) && Fits(record, last)
    ensures Fits(record, final) && final.duration == final.end - final.start
    ensures interval.statistics == [] ==> IsCut(final, last, interval.began, end)
    ensures interval.statistics != [] ==>
      && final.counts == SumCounts(interval.statistics)
      && exists d: real :: Combines(record, [NewStatistic(record, now)] + interval.statistics, final.(duration := d))
  {
    hide Combines;
    if interval.statistics == [] {
      final := SetTestDuration(last, Some(interval.lastTimestamp), Some(end));
    } else {
      final := FoldIntervals(record, interval.statistics, now);
    }
    ghost var d := final.duration;
    ghost var untimed := final;
    final := SetTestDuration(final, None, None);
    assert final.(duration := d) == untimed;
  }

  function SetTestDuration(s: Statistic, start: Option<real>, end: Option<real>): Statistic {
    var start' := if start.Some? then start.value else s.start;
    var end' := if end.Some? then end.value else s.end;
    s.(start := start', end := end', duration := end' - start')
  }

  /** An interval end: piece i becomes the next interval, unless all have been put out. */
  method Offer(record: bool, interval: StatisticInterval, pieces: seq<Statistic>, times: seq<real>, i: nat)
    requires interval.Valid() && AllFit(record, interval.statistics)
    requires i < |pieces| == |times| && AllFit(record, pieces)
    requires AreCuts(interval.statistics, pieces, times, Least(i, interval.total), interval.began)
    modifies interval
    ensures interval.Valid() && AllFit(record, interval.statistics)
    ensures AreCuts(interval.statistics, pieces, times, Least(i + 1, interval.total), interval.began)
  {
    hide Fits, AllFit, AreCuts, IsCut, interval.Valid;
    interval.ValidMeans();
    KeepsFit(record, pieces, i, interval.intervalId, interval.lastTimestamp, times[i]);
    ghost var before, k := interval.statistics, Least(i, interval.total);
    LastCut(before, pieces, times, k, interval.began);
    interval.CalculateInterval(pieces[i], times[i]);
    if k < interval.total {
      CutMeans(interval.statistics[i], pieces[i], StartOf(times, i, interval.began), times[i]);
      CutsAppend(before, interval.statistics[i], pieces, times, i, interval.began);
      FitAppend(record, before, interval.statistics[i]);
    }
  }

  lemma LastCut(xs: seq<Statistic>, pieces: seq<Statistic>, times: seq<real>, k: nat, began: real)
    requires AreCuts(xs, pieces, times, k, began)
    ensures |xs| == k && (k > 0 ==> xs[k - 1].end == times[k - 1])
  {
    assert k > 0 ==> IsCut(xs[k - 1], pieces[k - 1], StartOf(times, k - 1, began), times[k - 1]);
  }

  lemma CutsAppend(xs: seq<Statistic>, x: Statistic, pieces: seq<Statistic>, times: seq<real>, k: nat, began: real)
    requires AreCuts(xs, pieces, times, k, began) && k < |pieces|
    requires IsCut(x, pieces[k], StartOf(times, k, began), times[k])
    ensures AreCuts(xs + [x], pieces, times, k + 1, began)
  {
    hide IsCut, StartOf;
    forall i | 0 <= i < k + 1 ensures IsCut((xs + [x])[i], pieces[i], StartOf(times, i, began), times[i]) {
      assert i < k ==> IsCut(xs[i], pieces[i], StartOf(times, i, began), times[i]);
    }
  }

  method FoldIntervals(record: bool, statistics: seq<Statistic>, now: real) returns (final: Statistic)
    requires AllFit(record, statistics)
    ensures Fits(record, final) && final == Fold(record, NewStatistic(record, now), statistics)
    ensures final.counts == SumCounts(statistics)
    ensures Combines(record, [NewStatistic(record, now)] + statistics, final)
  {
    hide Fits, Add, Combines;
    final := NewStatistic(record, now);
    for i := 0 to |statistics|
      invariant Fits(record, final) && final == Fold(record, NewStatistic(record, now), statistics[..i])
    {
      assert statistics[..i + 1][..i] == statistics[..i];
      final := Add(record, final, statistics[i]);
    }
    assert statistics[..|statistics|] == statistics;
    FoldCounts(record, NewStatistic(record, now), statistics);
    FoldCombines(record, NewStatistic(record, now), statistics);
    PlusLaws(SumCounts(statistics), NO_COUNTS, NO_COUNTS);
  }

  lemma KeepsFit(record: bool, pieces: seq<Statistic>, i: nat, id: nat, start: real, end: real)
    requires AllFit(record, pieces) && i < |pieces|
    ensures Fits(record, pieces[i].(intervalId := id, start := start, end := end, duration := end - start))
  {
  }

  lemma FitAppend(record: bool, xs: seq<Statistic>, x: Statistic)
    requires AllFit(record, xs) && Fits(record, x)
    ensures AllFit(record, xs + [x])
  {
  }

  lemma CutMeans(x: Statistic, piece: Statistic, start: real, end: real)
    ensures IsCut(x, piece, start, end) <==>
      x.counts == piece.counts && x.utilization == piece.utilization && x.start == start && x.end == end
  {
  }

  /** What is counted and what is reported differ by exactly the pieces behind the last interval
      (or, without any interval, by all but the last piece). */
  lemma ReportedPlusDropped(pieces: seq<Statistic>, total: nat, closesLast: bool)
    requires |pieces| > 0
    ensures
      var pushed := Pushed(|pieces|, total, closesLast);
      var dropped := if pushed == 0 then pieces[..|pieces| - 1] else pieces[pushed..];
      Reported(pieces, total, closesLast).Plus(SumCounts(dropped)) == SumCounts(pieces)
  {
    var pushed := Pushed(|pieces|, total, closesLast);
    if pushed == 0 {
      PlusLaws(pieces[|pieces| - 1].counts, SumCounts(pieces[..|pieces| - 1]), NO_COUNTS);
    } else {
      assert pieces == pieces[..pushed] + pieces[pushed..];
      SumConcat(pieces[..pushed], pieces[pushed..]);
    }
  }

  /** Nothing is dropped whatever was counted exactly if the loop saw no interval end, or every
      piece became an interval: for a sender, if fewer interval ends were seen than planned, for
      a receiver never. */
  lemma NothingIsDroppedExactly(n: nat, total: nat, closesLast: bool)
    requires n > 0
    ensures
      (forall pieces: seq<Statistic> :: |pieces| == n ==> Reported(pieces, total, closesLast) == SumCounts(pieces))
        <==> n == 1 || (closesLast && n <= total)
  {
    hide Reported, SumCounts;
    if n == 1 || (closesLast && n <= total) {
      forall pieces: seq<Statistic> | |pieces| == n
        ensures Reported(pieces, total, closesLast) == SumCounts(pieces)
      {
        NothingIsDropped(pieces, total, closesLast);
      }
    } else {
      var pieces := SomethingIsDropped(n, total, closesLast);
    }
  }

  lemma NothingIsDropped(pieces: seq<Statistic>, total: nat, closesLast: bool)
    requires |pieces| == 1 || (closesLast && 0 < |pieces| <= total)
    ensures Reported(pieces, total, closesLast) == SumCounts(pieces)
  {
    hide Reported, Counts.Plus;
    ReportedPlusDropped(pieces, total, closesLast);
    assert |pieces[|pieces|..]| == 0 && (|pieces| == 1 ==> |pieces[..|pieces| - 1]| == 0);
    PlusIdentity(Reported(pieces, total, closesLast));
  }

  /** Pieces that count one datagram each. */
  lemma SomethingIsDropped(n: nat, total: nat, closesLast: bool) returns (pieces: seq<Statistic>)
    requires n > 1 && !(closesLast && n <= total)
    ensures |pieces| == n && Reported(pieces, total, closesLast) != SumCounts(pieces)
  {
    hide Reported, SumCounts;
    var busy := Statistic(NO_COUNTS.(datagrams := 1), 0.0, 0.0, 0.0, 0, None);
    pieces := seq(n, _ => busy);
    ReportedPlusDropped(pieces, total, closesLast);
    var pushed := Pushed(n, total, closesLast);
    AllBusy(if pushed == 0 then pieces[..n - 1] else pieces[pushed..]);
  }

  lemma {:induction false} AllBusy(pieces: seq<Statistic>)
    requires forall i :: 0 <= i < |pieces| ==> pieces[i].counts.datagrams == 1
    ensures SumCounts(pieces).datagrams == |pieces|
  {
    if |pieces| == 0 {
    } else {
      AllBusy(pieces[..|pieces| - 1]);
    }
  }
}
