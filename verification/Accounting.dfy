/** The receiver's constant-space sequence accounting: one expected id and a few counters stand
    in for the set of packet ids seen so far. */
module Accounting {
  import opened Wire
  import opened Datagrams
  import opened Counters

  /** What one packet id does to the expected id (the advance) and to the counters. */
  function ProcessPacketNumber(packetId: nat, next: nat, c: Counts): (nat, Counts) {
    if packetId == next then (1, c)
    else if packetId > next then (packetId - next + 1, c.(omitted := c.omitted + (packetId - next)))
    else if c.omitted > 0 then (0, c.(omitted := c.omitted - 1, reordered := c.reordered + 1))
    else (0, c.(duplicated := c.duplicated + 1))
  }

  datatype Tally = Tally(next: nat, counts: Counts)

  const FRESH: Tally := Tally(0, NO_COUNTS)

  /** One datagram received. */
  function Receive(t: Tally, id: nat): Tally {
    var (advance, c) := ProcessPacketNumber(id, t.next, t.counts);
    Tally(t.next + advance, c.(datagrams := c.datagrams + 1))
  }

  /** A stream of datagrams received one at a time. */
  function Run(t: Tally, ids: seq<nat>): Tally {
    if |ids| == 0 then t else Receive(Run(t, ids[..|ids| - 1]), ids[|ids| - 1])
  }

  lemma {:induction false} RunConcat(t: Tally, a: seq<nat>, b: seq<nat>)
    ensures Run(t, a + b) == Run(Run(t, a), b)
  {
    if |b| == 0 {
      assert a + b == a;
    } else {
      assert (a + b)[..|a + b| - 1] == a + b[..|b| - 1];
      RunConcat(t, a, b[..|b| - 1]);
    }
  }

  /** Every datagram is counted as one, and no counter but the three of the loss accounting changes
      besides. */
  lemma {:induction false} RunTouchesLossesOnly(t: Tally, ids: seq<nat>)
    ensures
      var c := Run(t, ids).counts;
      && c.datagrams == t.counts.datagrams + |ids|
      && c == t.counts.(datagrams := c.datagrams, omitted := c.omitted, reordered := c.reordered,
                        duplicated := c.duplicated)
      && c.reordered >= t.counts.reordered && c.duplicated >= t.counts.duplicated
  {
    if |ids| == 0 {
    } else {
      RunTouchesLossesOnly(t, ids[..|ids| - 1]);
    }
  }

  // The counters against the set of ids

  ghost predicate Distinct(ids: seq<nat>) {
    forall i, j :: 0 <= i < j < |ids| ==> ids[i] != ids[j]
  }

  ghost function Seen(ids: seq<nat>): set<nat> {
    set i | 0 <= i < |ids| :: ids[i]
  }

  /** Ids below n that have not been seen. */
  ghost function Missing(n: nat, seen: set<nat>): set<nat> {
    set i | 0 <= i < n && i !in seen
  }

  /** The k-th arrival comes after one with a higher id. */
  ghost predicate IsLate(ids: seq<nat>, k: nat)
    requires k < |ids|
  {
    exists j :: 0 <= j < k && ids[j] > ids[k]
  }

  ghost function LateCount(ids: seq<nat>): nat {
    if |ids| == 0 then 0
    else LateCount(ids[..|ids| - 1]) + if IsLate(ids, |ids| - 1) then 1 else 0
  }

  /** n is one more than the highest id of the stream, 0 for the empty stream. */
  ghost predicate OnePastHighest(n: nat, ids: seq<nat>) {
    && (forall i :: 0 <= i < |ids| ==> ids[i] < n)
    && (n > 0 ==> n - 1 in ids)
  }

  lemma {:induction false} BelowCard(n: nat)
    ensures |Missing(n, {})| == n
  {
    if n == 0 {
    } else {
      BelowCard(n - 1);
      assert Missing(n, {}) == Missing(n - 1, {}) + {n - 1};
    }
  }

  lemma MissingCard(n: nat, seen: set<nat>)
    requires forall x :: x in seen ==> x < n
    ensures |Missing(n, seen)| == n - |seen|
  {
    BelowCard(n);
    var below := Missing(n, {});
    assert seen <= below && Missing(n, seen) == below - seen;
    assert below * seen == seen;
  }

  lemma SeenExtend(ids: seq<nat>)
    requires |ids| > 0
    ensures Seen(ids) == Seen(ids[..|ids| - 1]) + {ids[|ids| - 1]}
  {
    var last := |ids| - 1;
    forall x | x in Seen(ids) ensures x in Seen(ids[..last]) + {ids[last]} {
      var i :| 0 <= i < |ids| && ids[i] == x;
      if i < last { assert ids[..last][i] == x; }
    }
    forall x | x in Seen(ids[..last]) ensures x in Seen(ids) {
      var i :| 0 <= i < last && ids[..last][i] == x;
      assert ids[i] == x;
    }
  }

  lemma {:induction false} DistinctCard(ids: seq<nat>)
    requires Distinct(ids)
    ensures |Seen(ids)| == |ids|
  {
    if |ids| == 0 {
    } else {
      var last := |ids| - 1;
      DistinctCard(ids[..last]);
      SeenExtend(ids);
      assert ids[last] !in Seen(ids[..last]);
    }
  }

  lemma SeenBelow(n: nat, ids: seq<nat>)
    requires OnePastHighest(n, ids)
    ensures forall x :: x in Seen(ids) ==> x < n
  {
  }

  /** The number of missing ids, from the expected id and the number of different ids seen. */
  lemma MissingOf(n: nat, ids: seq<nat>)
    requires OnePastHighest(n, ids)
    ensures |Missing(n, Seen(ids))| == n - |Seen(ids)|
  {
    SeenBelow(n, ids);
    MissingCard(n, Seen(ids));
  }

  lemma HighestExtend(n: nat, ids: seq<nat>)
    requires |ids| > 0 && OnePastHighest(n, ids[..|ids| - 1])
    ensures OnePastHighest(if ids[|ids| - 1] < n then n else ids[|ids| - 1] + 1, ids)
  {
    assert ids == ids[..|ids| - 1] + [ids[|ids| - 1]];
  }

  /** An unseen id below the expected one is one of the missing ids. */
  lemma GapExists(n: nat, ids: seq<nat>, id: nat)
    requires OnePastHighest(n, ids) && Distinct(ids) && id < n && id !in ids
    ensures n > |ids|
  {
    MissingOf(n, ids);
    DistinctCard(ids);
    assert id in Missing(n, Seen(ids));
  }

  /** Among different ids, an arrival is late exactly when it is below the expected id. */
  lemma LateIsBelowExpected(n: nat, ids: seq<nat>)
    requires |ids| > 0 && Distinct(ids) && OnePastHighest(n, ids[..|ids| - 1])
    ensures IsLate(ids, |ids| - 1) <==> ids[|ids| - 1] < n
  {
    var last := |ids| - 1;
    if ids[last] < n {
      var j :| 0 <= j < last && ids[..last][j] == n - 1;
      assert ids[j] > ids[last];
    }
    forall j | 0 <= j < last ensures ids[j] < n {
      assert ids[..last][j] == ids[j];
    }
  }

  /** The counters in terms of the number of ids; `CountersMatchSet` restates it with sets. */
  lemma {:induction false} CountersOfDistinctStream(ids: seq<nat>)
    requires Distinct(ids)
    ensures
      var t := Run(FRESH, ids);
      && OnePastHighest(t.next, ids)
      && t.counts.omitted == t.next - |ids|
      && t.counts.duplicated == 0
      && t.counts.reordered == LateCount(ids)
      && t.counts.datagrams == |ids|
  {
    if |ids| == 0 {
    } else {
      hide OnePastHighest, IsLate;
      var last := |ids| - 1;
      var before, id := ids[..last], ids[last];
      CountersOfDistinctStream(before);
      var t := Run(FRESH, before);
      LateIsBelowExpected(t.next, ids);
      HighestExtend(t.next, ids);
      if id < t.next { GapExists(t.next, before, id); }
    }
  }

  /** On a stream without duplicates the counters say exactly what the set of ids says:
      `omitted` is the number of ids missing below the highest one, `reordered` the number of
      late arrivals, and nothing is ever taken for a duplicate. */
  lemma CountersMatchSet(ids: seq<nat>)
    requires Distinct(ids)
    ensures
      var t := Run(FRESH, ids);
      && OnePastHighest(t.next, ids)
      && t.counts.omitted == |Missing(t.next, Seen(ids))|
      && t.counts.duplicated == 0
      && t.counts.reordered == LateCount(ids)
      && t.counts.datagrams == |ids|
  {
    CountersOfDistinctStream(ids);
    MissingOf(Run(FRESH, ids).next, ids);
    DistinctCard(ids);
  }

  /** Hence the order of arrival decides neither the expected id nor the losses. */
  lemma OrderDoesNotMatter(a: seq<nat>, b: seq<nat>)
    requires Distinct(a) && Distinct(b) && Seen(a) == Seen(b)
    ensures Run(FRESH, a).next == Run(FRESH, b).next
    ensures Run(FRESH, a).counts.omitted == Run(FRESH, b).counts.omitted
    ensures Run(FRESH, a).counts.datagrams == Run(FRESH, b).counts.datagrams
  {
    CountersMatchSet(a);
    CountersMatchSet(b);
    DistinctCard(a);
    DistinctCard(b);
    SameHighest(a, b, Run(FRESH, a).next, Run(FRESH, b).next);
    SameHighest(b, a, Run(FRESH, b).next, Run(FRESH, a).next);
  }

  lemma SameHighest(a: seq<nat>, b: seq<nat>, m: nat, n: nat)
    requires Seen(a) == Seen(b) && OnePastHighest(m, a) && OnePastHighest(n, b)
    ensures m <= n
  {
    if m > 0 {
      var i :| 0 <= i < |a| && a[i] == m - 1;
      assert a[i] in Seen(b);
    }
  }

  /** On every stream, duplicates included: the expected id is one past the highest id, and
      `omitted` never exceeds the number of ids truly missing. */
  lemma {:induction false} ArbitraryStream(ids: seq<nat>)
    ensures
      var t := Run(FRESH, ids);
      && OnePastHighest(t.next, ids)
      && 0 <= t.counts.omitted <= |Missing(t.next, Seen(ids))|
  {
    if |ids| == 0 {
      MissingOf(0, ids);
    } else {
      hide Missing, Seen, OnePastHighest;
      var last := |ids| - 1;
      ArbitraryStream(ids[..last]);
      var t, t' := Run(FRESH, ids[..last]), Run(FRESH, ids);
      HighestExtend(t.next, ids);
      MissingOf(t.next, ids[..last]);
      MissingOf(t'.next, ids);
      SeenCard(ids);
      if t.next <= ids[last] { SeenBelow(t.next, ids[..last]); }
    }
  }

  lemma SeenCard(ids: seq<nat>)
    ensures |ids| == 0 ==> |Seen(ids)| == 0
    ensures |ids| > 0 ==>
        var before := Seen(ids[..|ids| - 1]);
        |Seen(ids)| == |before| + if ids[|ids| - 1] in before then 0 else 1
  {
    if |ids| > 0 { SeenExtend(ids); }
  }

  /** Conservation, from any state and on any stream: every id the expected id moved past, and
      every duplicate, is accounted for as received or omitted. */
  lemma {:induction false} Conservation(t: Tally, ids: seq<nat>)
    ensures
      var t' := Run(t, ids);
      t'.next + t'.counts.duplicated - t'.counts.datagrams - t'.counts.omitted
        == t.next + t.counts.duplicated - t.counts.datagrams - t.counts.omitted
    ensures Run(t, ids).counts.datagrams == t.counts.datagrams + |ids|
  {
    if |ids| == 0 {
    } else {
      Conservation(t, ids[..|ids| - 1]);
    }
  }

  /** A run whose counters are set back to zero before each segment, as at interval ends, while
      the expected id carries on; `total` sums the counters of all segments. */
  function RunWithResets(next: nat, segments: seq<seq<nat>>): (r: (nat, Counts)) {
    if |segments| == 0 then (next, NO_COUNTS)
    else
      var (mid, total) := RunWithResets(next, segments[..|segments| - 1]);
      var t := Run(Tally(mid, NO_COUNTS), segments[|segments| - 1]);
      (t.next, total.Plus(t.counts))
  }

  lemma {:induction false} ConservationAcrossResets(next: nat, segments: seq<seq<nat>>)
    ensures
      var (last, total) := RunWithResets(next, segments);
      last - next + total.duplicated == total.datagrams + total.omitted
  {
    if |segments| == 0 {
    } else {
      var last := |segments| - 1;
      ConservationAcrossResets(next, segments[..last]);
      Conservation(Tally(RunWithResets(next, segments[..last]).0, NO_COUNTS), segments[last]);
    }
  }

  /** Receiving exactly the ids the receiver expects changes no loss counter. */
  lemma {:induction false} InOrder(t: Tally, count: nat)
    ensures Run(t, IdRange(t.next, count)) ==
      Tally(t.next + count, t.counts.(datagrams := t.counts.datagrams + count))
  {
    if count == 0 {
    } else {
      InOrder(t, count - 1);
      assert IdRange(t.next, count)[..count - 1] == IdRange(t.next, count - 1);
    }
  }

  // Machine words

  const I64_LIMIT: int := 0x8000_0000_0000_0000

  /** The 64-bit pattern of v read as a signed number. */
  function AsI64(v: int): (r: int)
    ensures -I64_LIMIT <= r < I64_LIMIT
  {
    var w := v % U64_LIMIT;
    if w < I64_LIMIT then w else w - U64_LIMIT
  }

  /** `ProcessPacketNumber` and the caller's addition on 64-bit words: the loss is cast to a
      signed word, and the expected id wraps. */
  function WordReceive(t: Tally, id: nat): Tally {
    if id == t.next then
      Tally((t.next + 1) % U64_LIMIT, t.counts.(datagrams := t.counts.datagrams + 1))
    else if id > t.next then
      var lost := id - t.next;
      Tally((t.next + (lost + 1) % U64_LIMIT) % U64_LIMIT,
            t.counts.(omitted := AsI64(t.counts.omitted + AsI64(lost)), datagrams := t.counts.datagrams + 1))
    else
      Receive(t, id)
  }

  function WordRun(t: Tally, ids: seq<nat>): Tally {
    if |ids| == 0 then t else WordReceive(WordRun(t, ids[..|ids| - 1]), ids[|ids| - 1])
  }

  /** One packet is counted correctly on machine words exactly when neither the expected id nor
      the signed loss counter leaves its range. */
  lemma WordsAgreeExactlyInRange(t: Tally, id: nat)
    requires t.next < U64_LIMIT && id < U64_LIMIT && -I64_LIMIT <= t.counts.omitted < I64_LIMIT
    ensures WordReceive(t, id) == Receive(t, id)
      <==> (id >= t.next ==> id + 1 < U64_LIMIT && t.counts.omitted + (id - t.next) < I64_LIMIT)
  {
    hide AsI64;
    if id > t.next {
      WordNext(t.next, id - t.next);
      WordOmitted(t.counts.omitted, id - t.next);
    } else if id == t.next {
      assert WordReceive(t, id).next < U64_LIMIT;
    }
  }

  lemma WordNext(next: nat, lost: nat)
    requires next + lost < U64_LIMIT
    ensures (next + (lost + 1) % U64_LIMIT) % U64_LIMIT == next + lost + 1 <==> next + lost + 1 < U64_LIMIT
  {
    if next + lost + 1 < U64_LIMIT { assert (lost + 1) % U64_LIMIT == lost + 1; }
  }

  lemma WordOmitted(omitted: int, lost: nat)
    requires -I64_LIMIT <= omitted < I64_LIMIT && lost < U64_LIMIT
    ensures AsI64(omitted + AsI64(lost)) == omitted + lost <==> omitted + lost < I64_LIMIT
  {
    assert AsI64(lost) == if lost < I64_LIMIT then lost else lost - U64_LIMIT;
  }

  /** Streams whose ids stay below 2^63 are counted correctly from the start. */
  lemma {:induction false} WordsSuffice(ids: seq<nat>)
    requires forall i :: 0 <= i < |ids| ==> ids[i] < I64_LIMIT
    ensures WordRun(FRESH, ids) == Run(FRESH, ids)
    ensures 0 <= Run(FRESH, ids).counts.omitted <= Run(FRESH, ids).next <= I64_LIMIT
    ensures |ids| > 0 ==> Run(FRESH, ids).counts.omitted < Run(FRESH, ids).next
  {
    if |ids| == 0 {
    } else {
      var last := |ids| - 1;
      WordsSuffice(ids[..last]);
      WordsAgreeExactlyInRange(Run(FRESH, ids[..last]), ids[last]);
    }
  }

  /** A first packet with id 2^63 already turns the loss counter negative. */
  lemma WordsWrapAtSignBit()
    ensures WordRun(FRESH, [I64_LIMIT as nat]).counts.omitted == -I64_LIMIT
    ensures Run(FRESH, [I64_LIMIT as nat]).counts.omitted == I64_LIMIT
  {
    var first: nat := I64_LIMIT;
    assert [first][..0] == [];
    assert WordRun(FRESH, [first]) == WordReceive(FRESH, first);
    assert Run(FRESH, [first]) == Receive(FRESH, first);
  }

  // The loop over the datagrams of one message

  /** A message of `|message|` bytes cut into datagrams of `size` bytes. */
  function ReceiveMessage(t: Tally, message: seq<Byte>, size: nat): Tally
    requires size > 0 && AllHaveHeaders(Chunks(message, size))
  {
    Run(t, IdsOf(Chunks(message, size)))
  }

  lemma ChunksStep(buffer: seq<Byte>, size: nat)
    requires size > 0 && |buffer| > 0
    ensures
      var packet := if |buffer| <= size then buffer else buffer[..size];
      Chunks(buffer, size) == [packet] + Chunks(buffer[|packet|..], size)
  {
  }

  lemma RunNone(t: Tally)
    ensures Run(t, []) == t
  {
  }

  lemma RunStep(t: Tally, ids: seq<nat>, k: nat)
    requires k < |ids|
    ensures Run(t, ids[..k + 1]) == Receive(Run(t, ids[..k]), ids[k])
  {
    assert ids[..k + 1][..k] == ids[..k];
  }

  method ProcessPacketMsghdr(message: seq<Byte>, size: nat, next: nat, statistic: Counts)
    returns (next': nat, received: nat, statistic': Counts)
    requires size > 0 && AllHaveHeaders(Chunks(message, size))
    ensures received == |Chunks(message, size)|
    ensures Tally(next', statistic'.(datagrams := statistic'.datagrams + received))
      == ReceiveMessage(Tally(next, statistic), message, size)
    ensures statistic'.dataBytes == statistic.dataBytes
  {
    hide GetPacketId, Chunks, Run;
    ghost var packets := Chunks(message, size);
    ghost var ids := IdsOf(packets);
    assert Run(Tally(next, statistic), ids[..0]) == Tally(next, statistic) by { RunNone(Tally(next, statistic)); }
    next', received, statistic' := next, 0, statistic;
    var rest := message;
    while |rest| > 0
      invariant received <= |packets| && Chunks(rest, size) == packets[received..]
      invariant |rest| == 0 <==> received == |packets|
      invariant Tally(next', statistic'.(datagrams := statistic'.datagrams + received))
        == Run(Tally(next, statistic), ids[..received])
      invariant statistic'.dataBytes == statistic.dataBytes
      decreases |rest|
    {
      var packet := if |rest| <= size then rest else rest[..size];
      ChunksStep(rest, size);
      assert packet == packets[received..][0] == packets[received];
      RunStep(Tally(next, statistic), ids, received);
      var (advance, c) := ProcessPacketNumber(GetPacketId(packet), next', statistic');
      next', received, statistic' := next' + advance, received + 1, c;
      rest := rest[|packet|..];
    }
    assert ids[..received] == ids;
  }

  /** Receive offload changes nothing: a coalesced buffer is accounted for as its segments
      would have been, one message each. */
  lemma {:induction false} CoalescingIsTransparent(t: Tally, segments: seq<seq<Byte>>, size: nat)
    requires size > 0 && Coalesced(segments, size) && AllHaveHeaders(segments)
    ensures AllHaveHeaders(Chunks(Concat(segments), size))
    ensures ReceiveMessage(t, Concat(segments), size) == OneByOne(t, segments)
  {
    ChunksOfCoalesced(segments, size);
    OneByOneIsRun(t, segments);
  }

  /** Datagrams received by one call each. */
  function OneByOne(t: Tally, packets: seq<seq<Byte>>): Tally
    requires forall i :: 0 <= i < |packets| ==> |packets[i]| >= HEADER_LEN
  {
    if |packets| == 0 then t
    else
      var packet := packets[|packets| - 1];
      ReceiveMessage(OneByOne(t, packets[..|packets| - 1]), packet, |packet|)
  }

  lemma RunOne(t: Tally, packet: seq<Byte>)
    requires |packet| >= HEADER_LEN
    ensures Run(t, IdsOf([packet])) == Receive(t, GetPacketId(packet))
  {
    hide GetPacketId;
    var ids := IdsOf([packet]);
    assert ids[..0] == [];
  }

  lemma {:induction false} OneByOneIsRun(t: Tally, packets: seq<seq<Byte>>)
    requires AllHaveHeaders(packets)
    ensures OneByOne(t, packets) == Run(t, IdsOf(packets))
  {
    hide GetPacketId;
    if |packets| == 0 {
    } else {
      var last := |packets| - 1;
      OneByOneIsRun(t, packets[..last]);
      assert IdsOf(packets)[..last] == IdsOf(packets[..last]);
      assert Chunks(packets[last], |packets[last]|) == [packets[last]];
      RunOne(OneByOne(t, packets[..last]), packets[last]);
    }
  }

  /** Stamp/parse round trip: a sender buffer stamped from p, received by a receiver that
      expects p, advances it by the packets in the buffer and touches no loss counter. */
  lemma StampParseRoundTrip(buffer: seq<Byte>, ds: nat, t: Tally)
    requires HoldsHeaders(|buffer|, ds) && t.next + PacketCount(|buffer|, ds) <= U64_LIMIT
    ensures PacketsFit(|buffer|, ds, PacketCount(|buffer|, ds))
    ensures
      var p := PacketCount(|buffer|, ds);
      var message := StampIds(buffer, ds, t.next, p);
      && AllHaveHeaders(Chunks(message, ds))
      && ReceiveMessage(t, message, ds) == Tally(t.next + p, t.counts.(datagrams := t.counts.datagrams + p))
  {
    hide StampIds, PacketCount, Chunks, IdsOf;
    StampThenChunk(buffer, ds, t.next);
    InOrder(t, PacketCount(|buffer|, ds));
  }
}
