/** io_uring parameters as the command line accepts them, and the decision how many requests to
    submit and how many completions to wait for. */
module FillMode {
  import opened Wrappers
  import opened Datagrams

  const DEFAULT_MSS: nat := 1472
  const DEFAULT_RING_SIZE: nat := 16
  const BURST_SIZE_DIVIDEND: nat := 4
  const BUFFER_SIZE_MULTIPLICATOR: nat := 4
  const MAX_RING_SIZE: nat := 2048
  const MAX_UDP_DATAGRAM_SIZE: nat := 65535 - 8 - 20
  const U32_LIMIT: nat := 0x1_0000_0000

  datatype NodeMode = Receiver | Sender
  datatype IoModel = Select | Poll | BusyWaiting | IoUring
  datatype ExchangeFunction = Normal | Msg | Mmsg
  datatype UringMode = NormalMode | Zerocopy | ProvidedBuffer | Multishot
  datatype SqFillingMode = Topup | TopupNoWait | Syscall

  datatype UringParameter = UringParameter(
    uringMode: UringMode,
    ringSize: nat,
    burstSize: nat,
    bufferSize: nat,
    sqpoll: bool,
    sqFillingMode: SqFillingMode)

  datatype Arguments = Arguments(
    mode: NodeMode,
    ioModel: IoModel,
    exchangeFunction: ExchangeFunction,
    mmsgAmount: nat,
    mss: nat,
    datagramSize: nat,
    intervalFits: bool,
    uringMode: UringMode,
    ringSize: nat,
    burstSize: nat,
    sqpoll: bool,
    sqpollShared: bool,
    sqFillingMode: SqFillingMode)

  datatype Parameter = Parameter(mss: nat, datagramSize: nat, packetBufferSize: nat, uring: UringParameter)

  predicate IsPowerOfTwo(n: nat) {
    n == 1 || (n > 1 && n % 2 == 0 && IsPowerOfTwo(n / 2))
  }

  function BuildUring(a: Arguments): UringParameter {
    UringParameter(
      a.uringMode,
      a.ringSize,
      if a.burstSize == DEFAULT_RING_SIZE / BURST_SIZE_DIVIDEND
        then (a.ringSize + BURST_SIZE_DIVIDEND - 1) / BURST_SIZE_DIVIDEND else a.burstSize,
      (a.ringSize * BUFFER_SIZE_MULTIPLICATOR) % U32_LIMIT,
      a.sqpoll,
      a.sqFillingMode)
  }

  /** The parameters an argument list is turned into, or None if it is rejected. */
  function ParseParameter(a: Arguments): Option<Parameter> {
    var uring := BuildUring(a);
    if a.datagramSize > MAX_UDP_DATAGRAM_SIZE then None
    else if !IsPowerOfTwo(a.ringSize) then None
    else if uring.burstSize > a.ringSize then None
    else if a.ringSize > MAX_RING_SIZE then None
    else if a.ioModel == IoUring && a.uringMode == Zerocopy && a.mode != Sender then None
    else if !a.intervalFits then None
    else
      var size :=
        if (a.ioModel == IoUring && a.uringMode == NormalMode) || a.uringMode == Zerocopy then uring.bufferSize
        else if a.exchangeFunction == Mmsg then a.mmsgAmount else 1;
      Some(Parameter(a.mss, a.datagramSize, size, uring.(sqpoll := a.sqpoll || a.sqpollShared)))
  }

  /** What the ring code relies on. */
  ghost predicate Sound(p: UringParameter) {
    0 < p.ringSize <= MAX_RING_SIZE && p.burstSize <= p.ringSize && p.bufferSize == 4 * p.ringSize
  }

  lemma {:induction false} PowersOfTwo(n: nat)
    requires n <= MAX_RING_SIZE
    ensures IsPowerOfTwo(n) <==> n in {1, 2, 4, 8, 16, 32, 64, 128, 256, 512, 1024, 2048}
  {
    if n > 1 && n % 2 == 0 { PowersOfTwo(n / 2); }
  }

  /** What is accepted, on the arguments alone: a datagram fits UDP, the ring size is a power of two
      up to 2048, a burst size other than the default 4 is at most the ring size, the interval fits,
      and zero copy is not asked of a receiving ring. */
  lemma AcceptedExactly(a: Arguments)
    ensures ParseParameter(a).Some? <==>
      && a.datagramSize <= 65507
      && a.ringSize in {1, 2, 4, 8, 16, 32, 64, 128, 256, 512, 1024, 2048}
      && (a.burstSize == 4 || a.burstSize <= a.ringSize)
      && a.intervalFits
      && !(a.ioModel == IoUring && a.uringMode == Zerocopy && a.mode == Receiver)
  {
    if a.ringSize <= MAX_RING_SIZE { PowersOfTwo(a.ringSize); }
  }

  /** What becomes of accepted arguments: the default burst size is a quarter of the ring, rounded up,
      any other is kept; sharing the polling thread turns polling on; the ring modes with an index
      pool get four buffers per ring entry, otherwise sendmmsg gets as many as asked for. */
  lemma AcceptedParameters(a: Arguments)
    requires ParseParameter(a).Some?
    ensures
      var p := ParseParameter(a).value;
      var pooled := (a.ioModel == IoUring && a.uringMode == NormalMode) || a.uringMode == Zerocopy;
      && p.mss == a.mss && p.datagramSize == a.datagramSize
      && p.uring.uringMode == a.uringMode && p.uring.sqFillingMode == a.sqFillingMode
      && p.uring.ringSize == a.ringSize && p.uring.bufferSize == 4 * a.ringSize
      && (if a.burstSize == 4 then a.ringSize <= 4 * p.uring.burstSize < a.ringSize + 4
          else p.uring.burstSize == a.burstSize)
      && (p.uring.sqpoll <==> a.sqpoll || a.sqpollShared)
      && (pooled ==> p.packetBufferSize == 4 * a.ringSize)
      && (!pooled ==> p.packetBufferSize == if a.exchangeFunction == Mmsg then a.mmsgAmount else 1)
  {
    AcceptedParametersAreSound(a);
  }

  /** Every accepted argument list yields sound ring parameters, a completion queue size the
      kernel does not round up, and one packet buffer per ring buffer in the modes that draw
      buffers from the index pool. */
  lemma AcceptedParametersAreSound(a: Arguments)
    requires ParseParameter(a).Some?
    ensures
      var p := ParseParameter(a).value;
      && Sound(p.uring) && IsPowerOfTwo(p.uring.bufferSize)
      && (a.ioModel == IoUring && p.uring.uringMode in {NormalMode, Zerocopy} ==>
            p.packetBufferSize == p.uring.bufferSize)
  {
    var p := ParseParameter(a).value;
    assert p.uring.bufferSize == 4 * a.ringSize;
    assert IsPowerOfTwo(2 * a.ringSize) by { assert (2 * a.ringSize) / 2 == a.ringSize; }
    assert (4 * a.ringSize) / 2 == 2 * a.ringSize;
  }

  /** The override of the buffer count is not tied to the io_uring I/O model for zero copy: a
      socket-based run with sendmsg has the single buffer it needs exactly when the (otherwise
      unused) ring mode is not zero copy. */
  lemma SingleBufferExactlyWithoutZerocopy(a: Arguments)
    requires ParseParameter(a).Some? && a.ioModel != IoUring && a.exchangeFunction != Mmsg
    ensures ParseParameter(a).value.packetBufferSize == 1 <==> a.uringMode != Zerocopy
  {
    AcceptedParametersAreSound(a);
  }

  /** Such an argument list exists: the defaults with the zero-copy ring mode. */
  lemma SelectWithZerocopyIsAccepted()
    ensures
      var a := Arguments(Sender, Select, Msg, 1, DEFAULT_MSS, DEFAULT_MSS, true, Zerocopy, 16, 4, false, false, Topup);
      ParseParameter(a).Some? && ParseParameter(a).value.packetBufferSize == 64
  {
    assert IsPowerOfTwo(4) && IsPowerOfTwo(16);
  }

  /** Nothing relates the datagram size to the buffer size: the defaults with datagrams one byte
      shorter are accepted, and the second datagram of a buffer has no room for its header. */
  lemma UnfitDatagramSizeIsAccepted()
    ensures
      var a := Arguments(Sender, Select, Msg, 1, DEFAULT_MSS, DEFAULT_MSS - 1, true, NormalMode, 16, 4, false, false,
          Topup);
      && ParseParameter(a).Some?
      && !HoldsHeaders(ParseParameter(a).value.mss, ParseParameter(a).value.datagramSize)
      && PacketCount(ParseParameter(a).value.mss, ParseParameter(a).value.datagramSize) == 2
  {
    assert IsPowerOfTwo(4) && IsPowerOfTwo(16);
  }

  function Least(a: nat, b: nat): nat { if a < b then a else b }

  /** Some fill submits a request. */
  predicate Submits(p: UringParameter) {
    p.sqFillingMode != Syscall || p.burstSize > 0
  }

  /** How many requests to submit and how many completions to wait for. `sqLeft` is the number of
      free submission queue entries, `cqEmpty` whether the completion queue is empty. */
  function CalcSqFillMode(inflight: nat, p: UringParameter, sqLeft: nat, cqEmpty: bool): (nat, nat)
    requires p.burstSize <= p.bufferSize
  {
    var most: nat := p.bufferSize - p.burstSize;
    if inflight > most then
      if cqEmpty then (0, if p.burstSize == 0 then p.ringSize / BURST_SIZE_DIVIDEND else p.burstSize)
      else (0, 0)
    else
      var buffersLeft: nat := p.bufferSize - inflight;
      var toSubmit :=
        if p.sqFillingMode == Syscall then (if inflight == 0 then p.burstSize else 0)
        else if buffersLeft < sqLeft then buffersLeft else sqLeft;
      (toSubmit, if p.sqpoll || p.sqFillingMode == TopupNoWait then 0 else p.burstSize)
  }

  /** The decision never asks for more buffers than are free, nor for more entries than the
      submission queue has room for (in Syscall mode: than a whole queue). */
  lemma NeverOversubscribes(inflight: nat, p: UringParameter, sqLeft: nat, cqEmpty: bool)
    requires Sound(p) && inflight <= p.bufferSize
    ensures
      var (toSubmit, _) := CalcSqFillMode(inflight, p, sqLeft, cqEmpty);
      && inflight + toSubmit <= p.bufferSize
      && (p.sqFillingMode != Syscall ==> toSubmit <= sqLeft)
      && (p.sqFillingMode == Syscall ==> toSubmit <= p.ringSize && (toSubmit > 0 ==> inflight == 0))
      && (p.sqFillingMode == Syscall && inflight <= p.burstSize ==> inflight + toSubmit <= p.burstSize)
  {
  }

  /** A fill waits for a whole burst or for nothing. It waits whenever the pool looks exhausted and
      nothing has completed, and otherwise exactly if the kernel has no polling thread and the mode
      waits at all. Topup fills up as far as entries or buffers go, Syscall submits a burst or
      nothing, an exhausted pool submits nothing. */
  lemma WaitsForABurstExactly(p: UringParameter, inflight: nat, sqLeft: nat, cqEmpty: bool)
    requires Sound(p) && inflight <= p.bufferSize
    ensures
      var (toSubmit, minComplete) := CalcSqFillMode(inflight, p, sqLeft, cqEmpty);
      var exhausted := inflight + p.burstSize > p.bufferSize;
      && (minComplete == 0 || minComplete == p.burstSize)
      && (p.burstSize > 0 ==>
            (minComplete > 0 <==> if exhausted then cqEmpty else !p.sqpoll && p.sqFillingMode != TopupNoWait))
      && (exhausted ==> toSubmit == 0)
      && (p.sqFillingMode == Syscall ==> toSubmit == 0 || toSubmit == p.burstSize)
      && (p.sqFillingMode == Syscall && p.burstSize > 0 ==> (toSubmit > 0 <==> inflight == 0))
      && (!exhausted && p.sqFillingMode != Syscall ==>
            toSubmit <= sqLeft && inflight + toSubmit <= p.bufferSize
            && (toSubmit == sqLeft || inflight + toSubmit == p.bufferSize))
  {
  }

  /** A counter beyond the number of buffers, with no burst size set, waits for a quarter ring. */
  lemma OverfullPoolWaitsForAQuarter(p: UringParameter, inflight: nat, sqLeft: nat)
    requires Sound(p) && inflight > p.bufferSize && p.burstSize == 0
    ensures
      var (toSubmit, minComplete) := CalcSqFillMode(inflight, p, sqLeft, true);
      toSubmit == 0 && 4 * minComplete <= p.ringSize < 4 * minComplete + 4
    ensures CalcSqFillMode(inflight, p, sqLeft, false) == (0, 0)
  {
  }

  /** In Syscall mode with at most a burst out, the completions waited for are owed exactly if
      nothing is out, or a whole burst of requests that have not leaked. In between, the code waits
      for more completions than the kernel will ever post. */
  lemma SyscallWaitIsOwedExactly(p: UringParameter, inflight: nat, leaked: nat, sqLeft: nat, cqEmpty: bool)
    requires Sound(p) && p.sqFillingMode == Syscall && !p.sqpoll && p.burstSize > 0
    requires leaked <= inflight <= p.burstSize
    ensures
      var (toSubmit, minComplete) := CalcSqFillMode(inflight, p, sqLeft, cqEmpty);
      && (inflight - leaked + toSubmit >= minComplete <==> inflight == 0 || inflight - leaked >= p.burstSize)
      && (inflight == 0 ==> toSubmit == minComplete == p.burstSize)
  {
  }

  /** From an empty submission queue in Topup mode, the completions waited for are owed by
      requests the kernel holds or is about to get, except when so many indexes have leaked
      that the pool looks exhausted while fewer than a burst of requests is outstanding. */
  lemma TopupWaitIsOwedExactly(p: UringParameter, inflight: nat, leaked: nat, cqEmpty: bool)
    requires Sound(p) && p.sqFillingMode == Topup && !p.sqpoll && p.burstSize > 0
    requires leaked <= inflight <= p.bufferSize
    ensures
      var (toSubmit, minComplete) := CalcSqFillMode(inflight, p, p.ringSize, cqEmpty);
      inflight - leaked + toSubmit >= minComplete <==>
        !(inflight > p.bufferSize - p.burstSize && cqEmpty && inflight - leaked < p.burstSize)
    ensures leaked == 0 ==> !(inflight > p.bufferSize - p.burstSize && inflight - leaked < p.burstSize)
  {
  }

  /** In terms of the leaks alone: the completions waited for are owed whatever else is outstanding,
      exactly as long as at most `bufferSize - 2 * burstSize + 1` buffers have leaked. */
  lemma TopupWaitIsAlwaysOwedExactly(p: UringParameter, leaked: nat)
    requires Sound(p) && p.sqFillingMode == Topup && !p.sqpoll && p.burstSize > 0 && leaked <= p.bufferSize
    ensures (forall inflight: nat, cqEmpty :: leaked <= inflight <= p.bufferSize ==>
        WaitIsOwed(p, inflight, leaked, cqEmpty))
      <==> leaked <= p.bufferSize - 2 * p.burstSize + 1
  {
    if leaked > p.bufferSize - 2 * p.burstSize + 1 {
      var least := p.bufferSize - p.burstSize + 1;
      assert !WaitIsOwed(p, if leaked < least then least else leaked, leaked, true);
    }
  }

  /** The requests outstanding after the submission cover the completions waited for. */
  predicate WaitIsOwed(p: UringParameter, inflight: nat, leaked: nat, cqEmpty: bool)
    requires p.burstSize <= p.bufferSize
  {
    var (toSubmit, minComplete) := CalcSqFillMode(inflight, p, p.ringSize, cqEmpty);
    inflight - leaked + toSubmit >= minComplete
  }

  /** A round that neither submits nor waits: with an empty completion queue this happens exactly
      when nothing may be submitted and no wait is configured. With a positive burst size and
      plain Topup or Syscall filling that is never the case. */
  lemma IdleRoundExactly(p: UringParameter, inflight: nat, sqLeft: nat, cqEmpty: bool)
    requires Sound(p) && inflight <= p.bufferSize
    ensures CalcSqFillMode(inflight, p, sqLeft, cqEmpty) == (0, 0) <==>
      || (inflight > p.bufferSize - p.burstSize && !cqEmpty)
      || (inflight <= p.bufferSize - p.burstSize
          && (p.sqpoll || p.sqFillingMode == TopupNoWait || p.burstSize == 0)
          && (if p.sqFillingMode == Syscall then inflight > 0 || p.burstSize == 0
              else sqLeft == 0 || inflight == p.bufferSize))
    ensures p.burstSize > 0 && !p.sqpoll && p.sqFillingMode != TopupNoWait && cqEmpty
      ==> CalcSqFillMode(inflight, p, sqLeft, cqEmpty) != (0, 0)
  {
  }

  /** The result field of a receive completion: how many receives it completes, or the error it
      stands for. */
  function ParseReceivedBytes(result: int): Result<nat> {
    if result == -105 then Ok(0)
    else if result == -11 then Err("EAGAIN")
    else if result == -90 then Ok(0)
    else if result < 0 then Err("Failed to receive data!")
    else Ok(1)
  }
}
