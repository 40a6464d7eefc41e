/** Sequence accounting across interval ends, which set the counters back to zero while the
    expected id carries on: what the counters of all intervals add up to, in closed form. */
module IntervalAccounting {
  import opened Counters
  import opened Accounting

  /** The streams received in the intervals, one after the other. */
  function Flatten(segments: seq<seq<nat>>): seq<nat> {
    if |segments| == 0 then [] else Flatten(segments[..|segments| - 1]) + segments[|segments| - 1]
  }

  /** The expected id after a stream: one past the highest id so far. */
  function Expected(n: nat, ids: seq<nat>): (e: nat)
    ensures e >= n
  {
    if |ids| == 0 then n
    else
      var before := Expected(n, ids[..|ids| - 1]);
      if ids[|ids| - 1] < before then before else ids[|ids| - 1] + 1
  }

  /** By how much the arrivals of a stream got ahead of the expected id, at most. */
  function Shortfall(n: nat, ids: seq<nat>): (s: nat)
    ensures s >= |ids| - (Expected(n, ids) - n)
  {
    if |ids| == 0 then 0
    else
      var before, now := Shortfall(n, ids[..|ids| - 1]), |ids| - (Expected(n, ids) - n);
      if now > before then now else before
  }

  /** Arrivals below the expected id. */
  function Behind(n: nat, ids: seq<nat>): nat {
    if |ids| == 0 then 0
    else
      var before := ids[..|ids| - 1];
      Behind(n, before) + if ids[|ids| - 1] < Expected(n, before) then 1 else 0
  }

  /** Every counter after a stream that began with zero counters, from the ids alone. */
  lemma {:induction false} CountersFromZero(n: nat, ids: seq<nat>)
    ensures
      var t := Run(Tally(n, NO_COUNTS), ids);
      && t.next == Expected(n, ids)
      && t.counts.datagrams == |ids|
      && t.counts.duplicated == Shortfall(n, ids)
      && t.counts.omitted == Expected(n, ids) - n - |ids| + Shortfall(n, ids)
      && t.counts.reordered == Behind(n, ids) - Shortfall(n, ids)
  {
    if |ids| == 0 {
    } else {
      CountersFromZero(n, ids[..|ids| - 1]);
    }
  }

  /** The shortfalls of all intervals. */
  function Shortfalls(n: nat, segments: seq<seq<nat>>): nat {
    if |segments| == 0 then 0
    else
      var before := segments[..|segments| - 1];
      Shortfalls(n, before) + Shortfall(Expected(n, Flatten(before)), segments[|segments| - 1])
  }

  lemma {:induction false} ExpectedConcat(n: nat, a: seq<nat>, b: seq<nat>)
    ensures Expected(n, a + b) == Expected(Expected(n, a), b)
    ensures Behind(n, a + b) == Behind(n, a) + Behind(Expected(n, a), b)
    decreases |b|
  {
    if |b| == 0 {
      assert a + b == a;
    } else {
      assert (a + b)[..|a + b| - 1] == a + b[..|b| - 1];
      ExpectedConcat(n, a, b[..|b| - 1]);
    }
  }

  /** The counters summed over the intervals, for every stream and every way of cutting it: what
      an uncut stream would count, plus the shortfalls, which are reported both as losses and as
      duplicates and taken off the reordered datagrams. */
  lemma {:induction false} TotalsInClosedForm(n: nat, segments: seq<seq<nat>>)
    ensures
      var (next, total) := RunWithResets(n, segments);
      var ids := Flatten(segments);
      && next == Expected(n, ids)
      && total.datagrams == |ids|
      && total.duplicated == Shortfalls(n, segments)
      && total.omitted == Expected(n, ids) - n - |ids| + Shortfalls(n, segments)
      && total.reordered == Behind(n, ids) - Shortfalls(n, segments)
  {
    if |segments| == 0 {
    } else {
      hide Run, Expected, Shortfall, Behind;
      var last := |segments| - 1;
      var before := segments[..last];
      TotalsInClosedForm(n, before);
      CountersFromZero(Expected(n, Flatten(before)), segments[last]);
      ExpectedConcat(n, Flatten(before), segments[last]);
    }
  }

  /** Cutting changes neither the expected id nor the difference of losses and duplicates. On a
      stream of different ids that difference is the number of ids truly missing. */
  lemma CutsKeepTheDifference(segments: seq<seq<nat>>)
    ensures
      var (next, total) := RunWithResets(0, segments);
      var t := Run(FRESH, Flatten(segments));
      && next == t.next && total.datagrams == t.counts.datagrams
      && total.omitted - total.duplicated == t.counts.omitted - t.counts.duplicated
      && (Distinct(Flatten(segments)) ==> total.omitted - total.duplicated == |Missing(next, Seen(Flatten(segments)))|)
  {
    TotalsInClosedForm(0, segments);
    CountersFromZero(0, Flatten(segments));
    hide Run, RunWithResets, Expected, Shortfall, Shortfalls, Flatten, Missing, Seen;
    if Distinct(Flatten(segments)) { CountersMatchSet(Flatten(segments)); }
  }

  /** After every j arrivals the expected id has moved on by at least j. */
  ghost predicate KeepsAhead(n: nat, ids: seq<nat>) {
    forall j :: 0 <= j <= |ids| ==> Expected(n, ids[..j]) >= n + j
  }

  lemma {:induction false} NoShortfallExactly(n: nat, ids: seq<nat>)
    ensures Shortfall(n, ids) == 0 <==> KeepsAhead(n, ids)
  {
    if |ids| == 0 {
    } else {
      var last := |ids| - 1;
      NoShortfallExactly(n, ids[..last]);
      assert forall j :: 0 <= j <= last ==> ids[..last][..j] == ids[..j];
      assert ids[..|ids|] == ids;
    }
  }

  /** Every interval, from the id expected at its start, keeps ahead of its arrivals. */
  ghost predicate AllKeepAhead(n: nat, segments: seq<seq<nat>>) {
    forall k :: 0 <= k < |segments| ==> KeepsAhead(Expected(n, Flatten(segments[..k])), segments[k])
  }

  /** Nothing is reported as a duplicate, and no loss is made up, exactly if every interval keeps
      ahead of its arrivals. */
  lemma {:induction false} NothingIsMadeUpExactly(n: nat, segments: seq<seq<nat>>)
    ensures Shortfalls(n, segments) == 0 <==> AllKeepAhead(n, segments)
    ensures RunWithResets(n, segments).1.duplicated == 0 <==> AllKeepAhead(n, segments)
  {
    hide KeepsAhead, Expected, Shortfall, RunWithResets;
    TotalsInClosedForm(n, segments);
    if |segments| == 0 {
    } else {
      var last := |segments| - 1;
      NothingIsMadeUpExactly(n, segments[..last]);
      NoShortfallExactly(Expected(n, Flatten(segments[..last])), segments[last]);
      assert forall k :: 0 <= k < last ==> segments[..last][..k] == segments[..k];
    }
  }

  /** A stream received in one interval is never short if its ids differ. */
  lemma UncutStreamKeepsAhead(ids: seq<nat>)
    requires Distinct(ids)
    ensures Shortfall(0, ids) == 0
  {
    CountersFromZero(0, ids);
    CountersOfDistinctStream(ids);
  }

  ghost predicate IncreasingFrom(n: nat, ids: seq<nat>) {
    && (forall i :: 0 <= i < |ids| ==> ids[i] >= n)
    && (forall i, j :: 0 <= i < j < |ids| ==> ids[i] < ids[j])
  }

  lemma {:induction false} IncreasingKeepsAhead(n: nat, ids: seq<nat>)
    requires IncreasingFrom(n, ids)
    ensures Shortfall(n, ids) == 0 && Expected(n, ids) == if |ids| == 0 then n else ids[|ids| - 1] + 1
  {
    if |ids| == 0 {
    } else {
      IncreasingKeepsAhead(n, ids[..|ids| - 1]);
    }
  }

  lemma IncreasingSplits(n: nat, a: seq<nat>, b: seq<nat>)
    requires IncreasingFrom(n, a + b)
    ensures IncreasingFrom(n, a) && IncreasingFrom(Expected(n, a), b)
  {
    var ab := a + b;
    assert forall i :: 0 <= i < |a| ==> ab[i] == a[i];
    assert forall i :: 0 <= i < |b| ==> ab[|a| + i] == b[i];
    IncreasingKeepsAhead(n, a);
    hide Expected;
  }

  /** An increasing stream keeps ahead wherever it is cut. */
  lemma {:induction false} IncreasingSegmentsKeepAhead(n: nat, segments: seq<seq<nat>>)
    requires IncreasingFrom(n, Flatten(segments))
    ensures Shortfalls(n, segments) == 0
  {
    hide IncreasingFrom, Expected, Shortfall;
    if |segments| == 0 {
    } else {
      var last := |segments| - 1;
      IncreasingSplits(n, Flatten(segments[..last]), segments[last]);
      IncreasingSegmentsKeepAhead(n, segments[..last]);
      IncreasingKeepsAhead(Expected(n, Flatten(segments[..last])), segments[last]);
    }
  }

  // The defect, on the smallest stream that shows it

  lemma SingleArrival(n: nat, id: nat)
    ensures Expected(n, [id]) == if id < n then n else id + 1
    ensures Shortfall(n, [id]) == Behind(n, [id]) == if id < n then 1 else 0
  {
    assert |[id][..0]| == 0;
  }

  lemma OneMoreSegment(n: nat, segments: seq<seq<nat>>, ids: seq<nat>)
    ensures Flatten(segments + [ids]) == Flatten(segments) + ids
    ensures Shortfalls(n, segments + [ids]) == Shortfalls(n, segments) + Shortfall(Expected(n, Flatten(segments)), ids)
  {
    assert (segments + [ids])[..|segments|] == segments;
  }

  /** Datagram b and then datagram a, with an interval end in between or not. */
  function Cut(a: nat, b: nat): seq<seq<nat>> { [[b], [a]] }
  function Uncut(a: nat, b: nat): seq<seq<nat>> { [[b, a]] }

  /** At a receiver that expects a < b: nothing is lost and nothing arrives twice, yet with the
      interval end the ids from a to b are all but one reported as losses, and a as a duplicate. */
  lemma IntervalEndMakesUpLossAndDuplicate(a: nat, b: nat)
    requires a < b
    ensures Flatten(Cut(a, b)) == Flatten(Uncut(a, b)) == [b, a]
    ensures
      var (next, total) := RunWithResets(a, Cut(a, b));
      next == b + 1 && total.omitted == b - a && total.duplicated == 1 && total.reordered == 0 && total.datagrams == 2
    ensures
      var (next, total) := RunWithResets(a, Uncut(a, b));
      && next == b + 1 && total.omitted == b - a - 1 && total.duplicated == 0 && total.reordered == 1
      && total.datagrams == 2
  {
    hide Expected, Shortfall, Behind, RunWithResets, Flatten, Shortfalls;
    var none: seq<seq<nat>> := [];
    var nothing: seq<nat> := [];
    NoSegments(a, none);
    SingleArrival(a, b);
    SingleArrival(b + 1, a);
    OneMoreSegment(a, none, [b]);
    OneMoreSegment(a, none, [b, a]);
    OneMoreSegment(a, [[b]], [a]);
    assert none + [[b]] == [[b]] && none + [[b, a]] == Uncut(a, b) && [[b]] + [[a]] == Cut(a, b);
    assert [b] + [a] == [b, a] && nothing + [b] == [b] && nothing + [b, a] == [b, a];
    ExpectedConcat(a, [b], [a]);
    TwoArrivals(a, b);
    TotalsInClosedForm(a, Cut(a, b));
    TotalsInClosedForm(a, Uncut(a, b));
  }

  lemma NoSegments(n: nat, none: seq<seq<nat>>)
    requires |none| == 0
    ensures |Flatten(none)| == 0 && Shortfalls(n, none) == 0 && Expected(n, Flatten(none)) == n
  {
  }

  lemma TwoArrivals(a: nat, b: nat)
    requires a < b
    ensures Shortfall(a, [b, a]) == 0
  {
    hide Expected;
    SingleArrival(a, b);
    SingleArrival(b + 1, a);
    assert [b, a][..1] == [b] && [b] + [a] == [b, a];
    ExpectedConcat(a, [b], [a]);
  }
}
