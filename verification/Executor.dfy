/** Joining the measurement threads: their totals, and their interval statistics added up per
    interval. */
module Executor {
  import opened Counters
  import opened Wrappers
  import opened Statistics

  /** What a thread returns; a failed thread returns nothing. */
  datatype ThreadResult = ThreadResult(final: Statistic, intervals: seq<Statistic>)

  ghost predicate Numbered(xs: seq<Statistic>) {
    forall i :: 0 <= i < |xs| ==> xs[i].intervalId == i + 1
  }

  /** What the merge relies on, and `RunThreadToResult` guarantees, of a thread with `amount` planned
      intervals. */
  ghost predicate GoodResult(record: bool, amount: nat, r: Option<ThreadResult>) {
    r.Some? ==>
      && Fits(record, r.value.final) && AllFit(record, r.value.intervals)
      && |r.value.intervals| <= amount && Numbered(r.value.intervals)
      && (r.value.intervals != [] ==> r.value.final.counts == SumCounts(r.value.intervals))
  }

  /** One thread: its measurement loop, and what it returns. */
  method RunThreadToResult(record: bool, total: nat, pieces: seq<Statistic>, times: seq<real>, closesLast: bool,
                           start: real, end: real, now: real)
    returns (r: ThreadResult)
    requires |pieces| == |times| > 0 && AllFit(record, pieces)
    ensures GoodResult(record, total, Some(r))
    ensures r.final.counts == Reported(pieces, total, closesLast)
    ensures AreCuts(r.intervals, pieces, times, Pushed(|pieces|, total, closesLast), start)
  {
    hide Fits;
    var interval := new StatisticInterval(total, start);
    var final := RunThread(record, interval, pieces, times, closesLast, end, now);
    r := ThreadResult(final, interval.statistics);
  }

  ghost predicate GoodResults(record: bool, amount: nat, results: seq<Option<ThreadResult>>) {
    forall i {:trigger results[i]} :: 0 <= i < |results| ==> GoodResult(record, amount, results[i])
  }

  function Finals(results: seq<Option<ThreadResult>>): seq<Statistic> {
    if |results| == 0 then []
    else
      var front := Finals(results[..|results| - 1]);
      if results[|results| - 1].None? then front else front + [results[|results| - 1].value.final]
  }

  /** The i-th interval statistics of all threads that have one. */
  function Column(results: seq<Option<ThreadResult>>, i: nat): seq<Statistic> {
    if |results| == 0 then []
    else
      var front, r := Column(results[..|results| - 1], i), results[|results| - 1];
      if r.None? || |r.value.intervals| <= i then front else front + [r.value.intervals[i]]
  }

  /** Exactly the threads that returned take part in the total, and exactly those of them with an
      i-th interval in the i-th interval total. */
  lemma {:induction false} EveryThreadTakesPart(results: seq<Option<ThreadResult>>, x: Statistic)
    ensures x in Finals(results) <==>
        exists k :: 0 <= k < |results| && results[k].Some? && results[k].value.final == x
    ensures |Finals(results)| == Returned(results)
  {
    if |results| == 0 {
    } else {
      var last := |results| - 1;
      EveryThreadTakesPart(results[..last], x);
      assert forall k :: 0 <= k < last ==> results[..last][k] == results[k];
    }
  }

  lemma {:induction false} EveryIntervalTakesPart(results: seq<Option<ThreadResult>>, i: nat, x: Statistic)
    ensures x in Column(results, i) <==>
        exists k :: 0 <= k < |results| && results[k].Some? && HasInterval(results[k].value, i, x)
  {
    if |results| == 0 {
    } else {
      var last := |results| - 1;
      EveryIntervalTakesPart(results[..last], i, x);
      assert forall k :: 0 <= k < last ==> results[..last][k] == results[k];
      var r := results[last];
      assert x in Column(results, i) <==> x in Column(results[..last], i) || (r.Some? && HasInterval(r.value, i, x));
      hide HasInterval;
    }
  }

  predicate HasInterval(r: ThreadResult, i: nat, x: Statistic) {
    i < |r.intervals| && r.intervals[i] == x
  }

  function Returned(results: seq<Option<ThreadResult>>): nat {
    if |results| == 0 then 0
    else Returned(results[..|results| - 1]) + if results[|results| - 1].Some? then 1 else 0
  }

  lemma {:induction false} ResultsFit(record: bool, amount: nat, results: seq<Option<ThreadResult>>)
    requires GoodResults(record, amount, results)
    ensures AllFit(record, Finals(results))
    ensures forall i: nat :: AllFit(record, Column(results, i))
  {
    hide Fits;
    if |results| == 0 {
    } else {
      assert GoodResult(record, amount, results[|results| - 1]);
      ResultsFit(record, amount, results[..|results| - 1]);
    }
  }

  function Blank(record: bool, i: nat, now: real): (s: Statistic)
    ensures Fits(record, s)
  {
    NewStatistic(record, now).(intervalId := i + 1)
  }

  /** Merges the results of all threads. The interval index, read off the statistic itself, is
      always in range. */
  method Merge(record: bool, results: seq<Option<ThreadResult>>, amount: nat, now: real)
    returns (final: Statistic, intervals: seq<Statistic>)
    requires GoodResults(record, amount, results)
    ensures AllFit(record, Finals(results)) && (forall i: nat :: AllFit(record, Column(results, i)))
    ensures final == Fold(record, NewStatistic(record, now), Finals(results))
    ensures |intervals| == amount
    ensures forall i :: 0 <= i < amount ==> intervals[i] == Fold(record, Blank(record, i, now), Column(results, i))
    ensures Combines(record, [NewStatistic(record, now)] + Finals(results), final)
    ensures Covers(now, Finals(results), final)
    ensures forall slots, k :: 0 <= k < |SlotsOf(final, slots)| ==>
        SlotsOf(final, slots)[k] == SlotTotal(Finals(results), slots, k)
    ensures forall i :: 0 <= i < amount ==>
        && intervals[i].intervalId == i + 1
        && Combines(record, [Blank(record, i, now)] + Column(results, i), intervals[i])
        && (forall slots, k :: 0 <= k < |SlotsOf(intervals[i], slots)| ==>
              SlotsOf(intervals[i], slots)[k] == SlotTotal(Column(results, i), slots, k))
  {
    hide Fits, Add, Fold, GoodResult, Combines;
    ResultsFit(record, amount, results);
    final := NewStatistic(record, now);
    intervals := seq(amount, i requires 0 <= i < amount => Blank(record, i, now));
    FoldNothing(record, amount, now);
    assert results[..0] == [];
    for k := 0 to |results|
      invariant GoodResults(record, amount, results[..k]) && AllFit(record, Finals(results[..k]))
      invariant forall i: nat :: AllFit(record, Column(results[..k], i))
      invariant Fits(record, final) && final == Fold(record, NewStatistic(record, now), Finals(results[..k]))
      invariant |intervals| == amount && AllFit(record, intervals)
      invariant forall i :: 0 <= i < amount ==>
          intervals[i] == Fold(record, Blank(record, i, now), Column(results[..k], i))
    {
      assert results[..k + 1][..k] == results[..k] && results[..k + 1][k] == results[k];
      assert GoodResult(record, amount, results[k]);
      ResultsFit(record, amount, results[..k + 1]);
      OneMore(record, amount, results[..k + 1], now);
      if results[k].Some? {
        GoodParts(record, amount, results[k]);
        final := Add(record, final, results[k].value.final);
        intervals := MergeIntervals(record, intervals, results[k].value.intervals);
      }
    }
    assert results[..|results|] == results;
    TotalMeans(record, results, amount, now);
    forall i | 0 <= i < amount
      ensures intervals[i].intervalId == i + 1
      ensures Combines(record, [Blank(record, i, now)] + Column(results, i), intervals[i])
      ensures forall slots, k :: 0 <= k < |SlotsOf(intervals[i], slots)| ==>
          SlotsOf(intervals[i], slots)[k] == SlotTotal(Column(results, i), slots, k)
    {
      IntervalMeans(record, results, amount, now, i);
    }
  }

  /** A total of threads that started by now and ended after the epoch spans exactly these threads. */
  ghost predicate Covers(now: real, xs: seq<Statistic>, r: Statistic) {
    |xs| > 0 && AllBefore(now, xs) ==> SpansAll(xs, r)
  }

  ghost predicate AllBefore(now: real, xs: seq<Statistic>) {
    forall i :: 0 <= i < |xs| ==> xs[i].start <= now && xs[i].end >= 0.0 && xs[i].duration >= 0.0
  }

  lemma BlankAddsNoTime(blank: Statistic, now: real, xs: seq<Statistic>, r: Statistic)
    requires blank.start == now && blank.end == 0.0 == blank.duration && blank.intervalId == 0
    requires SpansAll([blank] + xs, r)
    ensures Covers(now, xs, r)
  {
    var all := [blank] + xs;
    if |xs| > 0 && AllBefore(now, xs) {
      forall i | 0 <= i < |xs|
        ensures r.start <= xs[i].start && r.end >= xs[i].end
        ensures r.duration >= xs[i].duration && r.intervalId >= xs[i].intervalId
      {
        assert all[i + 1] == xs[i];
      }
      var start :| 0 <= start < |all| && r.start == all[start].start;
      var end :| 0 <= end < |all| && r.end == all[end].end;
      var duration :| 0 <= duration < |all| && r.duration == all[duration].duration;
      var id :| 0 <= id < |all| && r.intervalId == all[id].intervalId;
      OfOthers(blank, xs, start);
      OfOthers(blank, xs, end);
      OfOthers(blank, xs, duration);
      OfOthers(blank, xs, id);
      hide AllBefore;
      assert xs[0].start <= now && xs[0].end >= 0.0 && xs[0].duration >= 0.0 by { FirstBefore(now, xs); }
      assert r.start == xs[if start == 0 then 0 else start - 1].start;
      assert r.end == xs[if end == 0 then 0 else end - 1].end;
      assert r.duration == xs[if duration == 0 then 0 else duration - 1].duration;
      assert r.intervalId == xs[if id == 0 then 0 else id - 1].intervalId;
    }
  }

  lemma FirstBefore(now: real, xs: seq<Statistic>)
    requires |xs| > 0 && AllBefore(now, xs)
    ensures xs[0].start <= now && xs[0].end >= 0.0 && xs[0].duration >= 0.0
  {
  }

  lemma OfOthers(blank: Statistic, xs: seq<Statistic>, k: nat)
    requires k <= |xs|
    ensures ([blank] + xs)[k] == if k == 0 then blank else xs[k - 1]
  {
  }

  /** The total spans all threads and adds up what each of them counted. */
  lemma TotalMeans(record: bool, results: seq<Option<ThreadResult>>, amount: nat, now: real)
    requires GoodResults(record, amount, results) && AllFit(record, Finals(results))
    ensures
      var r := Fold(record, NewStatistic(record, now), Finals(results));
      && Combines(record, [NewStatistic(record, now)] + Finals(results), r) && Covers(now, Finals(results), r)
      && (forall slots, k :: 0 <= k < |SlotsOf(r, slots)| ==>
            SlotsOf(r, slots)[k] == SlotTotal(Finals(results), slots, k))
  {
    hide Fits, Fold;
    var xs, r := Finals(results), Fold(record, NewStatistic(record, now), Finals(results));
    FoldCombines(record, NewStatistic(record, now), xs);
    BlankAddsNoTime(NewStatistic(record, now), now, xs, r);
    forall slots, k | 0 <= k < |SlotsOf(r, slots)| ensures SlotsOf(r, slots)[k] == SlotTotal(xs, slots, k) {
      NewAddsNothing(record, now, xs, slots, k, 0);
    }
  }

  lemma IntervalMeans(record: bool, results: seq<Option<ThreadResult>>, amount: nat, now: real, i: nat)
    requires GoodResults(record, amount, results) && AllFit(record, Column(results, i))
    ensures
      var r := Fold(record, Blank(record, i, now), Column(results, i));
      && r.intervalId == i + 1 && Combines(record, [Blank(record, i, now)] + Column(results, i), r)
      && (forall slots, k :: 0 <= k < |SlotsOf(r, slots)| ==>
            SlotsOf(r, slots)[k] == SlotTotal(Column(results, i), slots, k))
  {
    hide Fits, Fold;
    var xs, r := Column(results, i), Fold(record, Blank(record, i, now), Column(results, i));
    FoldCombines(record, Blank(record, i, now), xs);
    ColumnNumbered(record, amount, results, i);
    forall slots, k | 0 <= k < |SlotsOf(r, slots)| ensures SlotsOf(r, slots)[k] == SlotTotal(xs, slots, k) {
      NewAddsNothing(record, now, xs, slots, k, i + 1);
    }
  }

  lemma {:induction false} ColumnNumbered(record: bool, amount: nat, results: seq<Option<ThreadResult>>, i: nat)
    requires GoodResults(record, amount, results)
    ensures forall k :: 0 <= k < |Column(results, i)| ==> Column(results, i)[k].intervalId == i + 1
  {
    hide Fits;
    if |results| == 0 {
    } else {
      assert GoodResult(record, amount, results[|results| - 1]);
      ColumnNumbered(record, amount, results[..|results| - 1], i);
    }
  }

  /** Adds one thread's intervals to the totals, each at the place its number says. */
  method MergeIntervals(record: bool, totals: seq<Statistic>, xs: seq<Statistic>) returns (r: seq<Statistic>)
    requires AllFit(record, totals) && AllFit(record, xs) && Numbered(xs) && |xs| <= |totals|
    ensures |r| == |totals| && AllFit(record, r)
    ensures forall i :: 0 <= i < |xs| ==> r[i] == Add(record, totals[i], xs[i])
    ensures forall i :: |xs| <= i < |totals| ==> r[i] == totals[i]
  {
    hide Fits, Add;
    r := totals;
    for k := 0 to |xs|
      invariant |r| == |totals| && AllFit(record, r)
      invariant forall i :: 0 <= i < k ==> r[i] == Add(record, totals[i], xs[i])
      invariant forall i :: k <= i < |totals| ==> r[i] == totals[i]
    {
      var index := xs[k].intervalId - 1;
      r := r[index := Add(record, r[index], xs[k])];
    }
  }

  lemma GoodParts(record: bool, amount: nat, r: Option<ThreadResult>)
    requires GoodResult(record, amount, r) && r.Some?
    ensures Fits(record, r.value.final) && AllFit(record, r.value.intervals) && Numbered(r.value.intervals)
    ensures |r.value.intervals| <= amount
  {
  }

  lemma FoldNothing(record: bool, amount: nat, now: real)
    ensures Fold(record, NewStatistic(record, now), []) == NewStatistic(record, now)
    ensures forall i: nat :: Fold(record, Blank(record, i, now), []) == Blank(record, i, now)
  {
  }

  /** One more thread adds its parts to the totals of the ones before it. */
  lemma OneMore(record: bool, amount: nat, results: seq<Option<ThreadResult>>, now: real)
    requires |results| > 0 && GoodResults(record, amount, results)
    ensures
      var front, r := results[..|results| - 1], results[|results| - 1];
      && AllFit(record, Finals(front)) && AllFit(record, Finals(results))
      && (r.None? ==> Finals(results) == Finals(front) && forall i: nat :: Column(results, i) == Column(front, i))
      && (r.Some? ==>
            && Fits(record, r.value.final)
            && Fold(record, NewStatistic(record, now), Finals(results))
                 == Add(record, Fold(record, NewStatistic(record, now), Finals(front)), r.value.final))
    ensures
      var front, r := results[..|results| - 1], results[|results| - 1];
      forall i: nat :: AllFit(record, Column(front, i)) && AllFit(record, Column(results, i)) && (r.Some? ==>
        if i < |r.value.intervals| then
          && Fits(record, r.value.intervals[i])
          && Fold(record, Blank(record, i, now), Column(results, i))
               == Add(record, Fold(record, Blank(record, i, now), Column(front, i)), r.value.intervals[i])
        else Column(results, i) == Column(front, i))
  {
    hide Fits, Add, Fold;
    var front, r := results[..|results| - 1], results[|results| - 1];
    assert GoodResult(record, amount, r);
    ResultsFit(record, amount, results);
    ResultsFit(record, amount, front);
    if r.Some? {
      FoldAppend(record, NewStatistic(record, now), Finals(front), r.value.final);
      forall i: nat | i < |r.value.intervals|
        ensures Fold(record, Blank(record, i, now), Column(results, i))
                  == Add(record, Fold(record, Blank(record, i, now), Column(front, i)), r.value.intervals[i])
      {
        FoldAppend(record, Blank(record, i, now), Column(front, i), r.value.intervals[i]);
      }
    }
  }

  // Interval totals against thread totals

  /** Totals of the threads that returned no interval at all. */
  function Intervalless(results: seq<Option<ThreadResult>>): seq<Statistic> {
    if |results| == 0 then []
    else
      var front, r := Intervalless(results[..|results| - 1]), results[|results| - 1];
      if r.None? || r.value.intervals != [] then front else front + [r.value.final]
  }

  function SumColumns(results: seq<Option<ThreadResult>>, n: nat): Counts {
    if n == 0 then NO_COUNTS else SumColumns(results, n - 1).Plus(SumCounts(Column(results, n - 1)))
  }

  lemma SumAppend(xs: seq<Statistic>, x: Statistic)
    ensures SumCounts(xs + [x]) == SumCounts(xs).Plus(x.counts)
  {
    assert (xs + [x])[..|xs|] == xs;
  }

  /** What one thread adds to column i, and to the first n columns. */
  function Cell(r: Option<ThreadResult>, i: nat): Counts {
    if r.None? || |r.value.intervals| <= i then NO_COUNTS else r.value.intervals[i].counts
  }

  function Share(r: Option<ThreadResult>, n: nat): Counts {
    if r.None? then NO_COUNTS
    else SumCounts(r.value.intervals[..if n < |r.value.intervals| then n else |r.value.intervals|])
  }

  lemma ShareOfNothing(r: Option<ThreadResult>)
    ensures Share(r, 0) == NO_COUNTS
  {
  }

  lemma ShareGains(r: Option<ThreadResult>, i: nat)
    ensures Share(r, i + 1) == Share(r, i).Plus(Cell(r, i))
  {
    hide Counts.Plus, SumCounts;
    PlusIdentity(Share(r, i));
    if r.Some? && i < |r.value.intervals| {
      var xs := r.value.intervals;
      assert xs[..i + 1] == xs[..i] + [xs[i]];
      SumAppend(xs[..i], xs[i]);
    }
  }

  lemma ColumnGains(results: seq<Option<ThreadResult>>, i: nat)
    requires |results| > 0
    ensures
      var front, r := results[..|results| - 1], results[|results| - 1];
      SumCounts(Column(results, i)) == SumCounts(Column(front, i)).Plus(Cell(r, i))
  {
    hide Counts.Plus, SumCounts;
    var front, r := results[..|results| - 1], results[|results| - 1];
    if r.Some? && i < |r.value.intervals| {
      SumAppend(Column(front, i), r.value.intervals[i]);
    } else {
      PlusIdentity(SumCounts(Column(front, i)));
    }
  }

  /** A thread's intervals, spread over the columns, still add up to the same. */
  lemma {:induction false} ColumnsGain(results: seq<Option<ThreadResult>>, n: nat)
    requires |results| > 0
    ensures SumColumns(results, n) == SumColumns(results[..|results| - 1], n).Plus(Share(results[|results| - 1], n))
  {
    hide Counts.Plus, SumCounts, Column, Share;
    if n == 0 {
      PlusIdentity(NO_COUNTS);
      ShareOfNothing(results[|results| - 1]);
    } else {
      ColumnsGain(results, n - 1);
      OneMoreColumn(results, n - 1);
    }
  }

  lemma OneMoreColumn(results: seq<Option<ThreadResult>>, i: nat)
    requires |results| > 0
    requires SumColumns(results, i) == SumColumns(results[..|results| - 1], i).Plus(Share(results[|results| - 1], i))
    ensures
      var front, r := results[..|results| - 1], results[|results| - 1];
      SumColumns(results, i + 1) == SumColumns(front, i + 1).Plus(Share(r, i + 1))
  {
    hide Counts.Plus, SumCounts, Column, Share, Cell;
    var front, r := results[..|results| - 1], results[|results| - 1];
    ColumnGains(results, i);
    ShareGains(r, i);
    PlusInterchange(SumColumns(front, i), Share(r, i), SumCounts(Column(front, i)), Cell(r, i));
  }

  /** All interval totals together are the thread totals, except for exactly the threads that
      returned no interval: those count in the thread totals only. */
  lemma {:induction false} IntervalTotalsAgreeWithThreadTotals(record: bool, amount: nat,
                                                               results: seq<Option<ThreadResult>>)
    requires GoodResults(record, amount, results)
    ensures SumCounts(Finals(results)) == SumColumns(results, amount).Plus(SumCounts(Intervalless(results)))
  {
    hide Counts.Plus, Fits;
    if |results| == 0 {
      NoColumns(results, amount);
      PlusIdentity(NO_COUNTS);
    } else {
      var front, r := results[..|results| - 1], results[|results| - 1];
      assert GoodResult(record, amount, r);
      IntervalTotalsAgreeWithThreadTotals(record, amount, front);
      ColumnsGain(results, amount);
      var c, d := SumColumns(front, amount), SumCounts(Intervalless(front));
      PlusIdentity(c);
      if r.Some? {
        SumAppend(Finals(front), r.value.final);
        var xs := r.value.intervals;
        assert xs[..|xs|] == xs;
        if xs == [] {
          SumAppend(Intervalless(front), r.value.final);
          PlusLaws(c, d, r.value.final.counts);
        } else {
          PlusInterchange(c, d, SumCounts(xs), NO_COUNTS);
          PlusIdentity(d);
          PlusIdentity(SumCounts(xs));
        }
      }
    }
  }

  lemma {:induction false} NoColumns(results: seq<Option<ThreadResult>>, n: nat)
    requires |results| == 0
    ensures SumColumns(results, n) == NO_COUNTS
  {
    hide Counts.Plus;
    if n == 0 {
    } else {
      NoColumns(results, n - 1);
      assert Column(results, n - 1) == [];
      PlusIdentity(NO_COUNTS);
    }
  }

  lemma {:induction false} MergedSums(record: bool, results: seq<Option<ThreadResult>>, intervals: seq<Statistic>,
                                      n: nat, now: real)
    requires n <= |intervals| && forall i: nat :: AllFit(record, Column(results, i))
    requires forall i :: 0 <= i < |intervals| ==>
        intervals[i] == Fold(record, Blank(record, i, now), Column(results, i))
    ensures SumCounts(intervals[..n]) == SumColumns(results, n)
  {
    hide Counts.Plus, Fold, Fits;
    if n == 0 {
    } else {
      MergedSums(record, results, intervals, n - 1, now);
      assert intervals[..n] == intervals[..n - 1] + [intervals[n - 1]];
      SumAppend(intervals[..n - 1], intervals[n - 1]);
      FoldCounts(record, Blank(record, n - 1, now), Column(results, n - 1));
      PlusIdentity(SumCounts(Column(results, n - 1)));
    }
  }

  /** What `Merge` returns: the intervals' counters add up to the total's exactly if the threads
      without intervals counted nothing, for instance if there is no such thread. */
  lemma MergedTotalsAgree(record: bool, amount: nat, results: seq<Option<ThreadResult>>, final: Statistic,
                          intervals: seq<Statistic>, now: real)
    requires GoodResults(record, amount, results) && |intervals| == amount
    requires AllFit(record, Finals(results)) && forall i: nat :: AllFit(record, Column(results, i))
    requires final == Fold(record, NewStatistic(record, now), Finals(results))
    requires forall i :: 0 <= i < amount ==> intervals[i] == Fold(record, Blank(record, i, now), Column(results, i))
    ensures final.counts == SumCounts(intervals).Plus(SumCounts(Intervalless(results)))
    ensures final.counts == SumCounts(intervals) <==> SumCounts(Intervalless(results)) == NO_COUNTS
    ensures (forall i :: 0 <= i < |results| ==> results[i].Some? ==> results[i].value.intervals != []) ==>
              final.counts == SumCounts(intervals)
  {
    hide Fold, Fits, SumCounts, Finals, Column, Counts.Plus, GoodResult, SumColumns, Intervalless;
    MergedSums(record, results, intervals, amount, now);
    assert intervals[..amount] == intervals;
    FoldCounts(record, NewStatistic(record, now), Finals(results));
    PlusIdentity(SumCounts(Finals(results)));
    IntervalTotalsAgreeWithThreadTotals(record, amount, results);
    PlusCancels(SumCounts(intervals), SumCounts(Intervalless(results)));
    if forall i :: 0 <= i < |results| ==> results[i].Some? ==> results[i].value.intervals != [] {
      NoneIntervalless(results);
    }
  }

  lemma {:induction false} NoneIntervalless(results: seq<Option<ThreadResult>>)
    requires forall i :: 0 <= i < |results| ==> results[i].Some? ==> results[i].value.intervals != []
    ensures Intervalless(results) == [] && SumCounts(Intervalless(results)) == NO_COUNTS
  {
    if |results| == 0 {
    } else {
      NoneIntervalless(results[..|results| - 1]);
    }
  }
}
