/** The counters of a statistic that are summed when statistics are merged. */
module Counters {
  datatype Counts = Counts(
    datagrams: nat,
    dataBytes: nat,
    reordered: nat,
    duplicated: nat,
    omitted: int,
    syscalls: nat,
    ioModelCalls: nat,
    eagain: nat,
    cqOverflows: nat,
    outOfBuffers: nat,
    copiedZc: nat,
    canceledMultishot: nat)
  {
    function Plus(other: Counts): Counts {
      Counts(
        datagrams + other.datagrams,
        dataBytes + other.dataBytes,
        reordered + other.reordered,
        duplicated + other.duplicated,
        omitted + other.omitted,
        syscalls + other.syscalls,
        ioModelCalls + other.ioModelCalls,
        eagain + other.eagain,
        cqOverflows + other.cqOverflows,
        outOfBuffers + other.outOfBuffers,
        copiedZc + other.copiedZc,
        canceledMultishot + other.canceledMultishot)
    }
  }

  const NO_COUNTS: Counts := Counts(0, 0, 0, 0, 0, 0, 0, 0, 0, 0, 0, 0)

  /** One counter of the twelve. */
  datatype Counter = Datagrams | DataBytes | Reordered | Duplicated | Omitted | Syscalls | IoModelCalls | EagainAnswers
    | CqOverflows | OutOfBuffers | CopiedZc | CanceledMultishot

  function CountOf(c: Counts, counter: Counter): int {
    match counter
    case Datagrams => c.datagrams
    case DataBytes => c.dataBytes
    case Reordered => c.reordered
    case Duplicated => c.duplicated
    case Omitted => c.omitted
    case Syscalls => c.syscalls
    case IoModelCalls => c.ioModelCalls
    case EagainAnswers => c.eagain
    case CqOverflows => c.cqOverflows
    case OutOfBuffers => c.outOfBuffers
    case CopiedZc => c.copiedZc
    case CanceledMultishot => c.canceledMultishot
  }

  /** Every counter is added to its own counterpart, and the counters are all there is. */
  lemma PlusAddsEachCounter(a: Counts, b: Counts, c: Counts)
    ensures c == a.Plus(b) <==> forall counter :: CountOf(c, counter) == CountOf(a, counter) + CountOf(b, counter)
  {
    if forall counter :: CountOf(c, counter) == CountOf(a, counter) + CountOf(b, counter) {
      forall counter ensures CountOf(c, counter) == CountOf(a.Plus(b), counter) {
      }
      SameCountersSameCounts(c, a.Plus(b));
    }
  }

  lemma SameCountersSameCounts(a: Counts, b: Counts)
    requires forall counter :: CountOf(a, counter) == CountOf(b, counter)
    ensures a == b
  {
    assert CountOf(a, Datagrams) == CountOf(b, Datagrams) && CountOf(a, DataBytes) == CountOf(b, DataBytes);
    assert CountOf(a, Reordered) == CountOf(b, Reordered) && CountOf(a, Duplicated) == CountOf(b, Duplicated);
    assert CountOf(a, Omitted) == CountOf(b, Omitted) && CountOf(a, Syscalls) == CountOf(b, Syscalls);
    assert CountOf(a, IoModelCalls) == CountOf(b, IoModelCalls);
    assert CountOf(a, EagainAnswers) == CountOf(b, EagainAnswers);
    assert CountOf(a, CqOverflows) == CountOf(b, CqOverflows) && CountOf(a, OutOfBuffers) == CountOf(b, OutOfBuffers);
    assert CountOf(a, CopiedZc) == CountOf(b, CopiedZc);
    assert CountOf(a, CanceledMultishot) == CountOf(b, CanceledMultishot);
  }

  lemma PlusLaws(a: Counts, b: Counts, c: Counts)
    ensures a.Plus(b) == b.Plus(a) && a.Plus(b.Plus(c)) == a.Plus(b).Plus(c)
    ensures NO_COUNTS.Plus(a) == a
  {
  }

  lemma PlusIdentity(a: Counts)
    ensures a.Plus(NO_COUNTS) == a && NO_COUNTS.Plus(a) == a
  {
  }

  lemma PlusInterchange(a: Counts, b: Counts, c: Counts, d: Counts)
    ensures a.Plus(b).Plus(c.Plus(d)) == a.Plus(c).Plus(b.Plus(d))
  {
  }

  lemma PlusCancels(a: Counts, b: Counts)
    ensures a == a.Plus(b) <==> b == NO_COUNTS
  {
  }
}
