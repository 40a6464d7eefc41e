/** The NUMA node and core allocator: one call per thread, round robin over the nodes, then on to
    the next core of each node. */
module CoreAffinity {
  import opened Wrappers
  import opened Arithmetic
  import opened FillMode

  const USIZE_LIMIT: int := 0x1_0000_0000_0000_0000
  const ISIZE_LIMIT: int := 0x8000_0000_0000_0000

  /** `nodes[i]` are the absolute core ids of NUMA node i in increasing order, `cpus` the cores the
      round robin runs over: all of the machine, or those of the first node. */
  datatype Machine = Machine(mode: NodeMode, numa: bool, nodes: seq<seq<nat>>, cpus: nat)

  /** The next node and core to use. */
  datatype Cursor = Cursor(node: nat, core: nat)

  ghost predicate Sensible(m: Machine) {
    0 < m.cpus < ISIZE_LIMIT && (m.numa ==> |m.nodes| > 0)
  }

  // Machine words: the source computes in isize and stores in usize

  function AsIsize(x: nat): int
    requires x < USIZE_LIMIT
  {
    if x < ISIZE_LIMIT then x else x - USIZE_LIMIT
  }

  function AsUsize(x: int): nat
    requires -ISIZE_LIMIT <= x < ISIZE_LIMIT
  {
    if x >= 0 then x else x + USIZE_LIMIT
  }

  /** The remainder that takes the sign of the dividend. */
  function SignedRemainder(x: int, n: int): (r: int)
    requires n > 0
    ensures -n < r < n
  {
    if x >= 0 then x % n else -((-x) % n)
  }

  function NextCore(m: Machine, core: nat): (next: nat)
    requires Sensible(m) && core < USIZE_LIMIT
    ensures next < USIZE_LIMIT
  {
    AsUsize(SignedRemainder(AsIsize(core) + (if m.mode == Receiver then -1 else 1), m.cpus))
  }

  function NextNode(m: Machine, node: nat): (next: nat)
    requires Sensible(m) && m.numa
    ensures next < |m.nodes|
  {
    (node + 1) % |m.nodes|
  }

  function Forward(m: Machine, c: Cursor): (r: Cursor)
    requires Sensible(m) && c.core < USIZE_LIMIT
    ensures r.core < USIZE_LIMIT && (m.numa ==> r.node < |m.nodes|)
  {
    if !m.numa then Cursor(c.node, NextCore(m, c.core))
    else
      var node := NextNode(m, c.node);
      Cursor(node, if node == 0 then NextCore(m, c.core) else c.core)
  }

  function First(m: Machine): (c: Cursor)
    requires Sensible(m)
    ensures c.core < USIZE_LIMIT
  {
    Cursor(0, if m.mode == Receiver then m.cpus - 1 else 0)
  }

  /** The cursor before call k, counted from zero. */
  function CursorAt(m: Machine, k: nat): (c: Cursor)
    requires Sensible(m)
    ensures c.core < USIZE_LIMIT
  {
    if k == 0 then First(m) else Forward(m, CursorAt(m, k - 1))
  }

  /** The node and (relative) core call k uses: the core before, the node after moving on. */
  function Chosen(m: Machine, k: nat): Cursor
    requires Sensible(m)
  {
    Cursor(CursorAt(m, k + 1).node, CursorAt(m, k).core)
  }

  /** The absolute core a choice stands for. */
  function Absolute(m: Machine, c: Cursor): Result<nat> {
    if !m.numa then Ok(c.core)
    else if c.node >= |m.nodes| then Err("NUMA node index out of bounds")
    else if c.core < |m.nodes[c.node]| then Ok(m.nodes[c.node][c.core])
    else Err("Failed to get core ID from CPU set")
  }

  class CoreAffinityManager {
    const machine: Machine
    var nextNumaNode: nat
    var nextCoreId: nat

    ghost predicate Valid()
      reads this
    {
      Sensible(machine) && nextCoreId < USIZE_LIMIT
    }

    /** Falls back to plain cores if there are no NUMA nodes; the first node stands for all. */
    constructor (mode: NodeMode, firstCoreId: Option<nat>, numaAffinity: bool, nodes: seq<seq<nat>>, amountPus: nat)
      requires 0 < amountPus < ISIZE_LIMIT && (forall i :: 0 <= i < |nodes| ==> 0 < |nodes[i]| < ISIZE_LIMIT)
      requires firstCoreId.Some? ==> firstCoreId.value < USIZE_LIMIT
      ensures Valid() && machine.mode == mode && machine.nodes == nodes
      ensures machine.numa <==> numaAffinity && nodes != []
      ensures machine.cpus == if machine.numa then |nodes[0]| else amountPus
      ensures firstCoreId == None ==> Cursor(nextNumaNode, nextCoreId) == First(machine)
      ensures firstCoreId.Some? ==> Cursor(nextNumaNode, nextCoreId) == Cursor(0, firstCoreId.value)
    {
      var numa := numaAffinity && |nodes| > 0;
      var amountCpus := if numa then |nodes[0]| else amountPus;
      machine := Machine(mode, numa, nodes, amountCpus);
      nextNumaNode := 0;
      nextCoreId := if firstCoreId.Some? then firstCoreId.value else if mode == Receiver then amountCpus - 1 else 0;
    }

    method ForwardNumaNode() returns (node: nat)
      requires Valid() && machine.numa
      modifies `nextNumaNode
      ensures Valid() && node == nextNumaNode == NextNode(machine, old(nextNumaNode))
    {
      nextNumaNode := (nextNumaNode + 1) % |machine.nodes|;
      node := nextNumaNode;
    }

    method GetCoreId() returns (core: nat)
      requires Valid()
      modifies this
      ensures Valid() && core == old(nextCoreId)
      ensures Cursor(nextNumaNode, nextCoreId) == Forward(machine, Cursor(old(nextNumaNode), old(nextCoreId)))
    {
      core := nextCoreId;
      var delta := if machine.mode == Receiver then -1 else 1;
      if machine.numa {
        var node := ForwardNumaNode();
        if node == 0 {
          nextCoreId := AsUsize(SignedRemainder(AsIsize(core) + delta, machine.cpus));
        }
      } else {
        nextCoreId := AsUsize(SignedRemainder(AsIsize(core) + delta, machine.cpus));
      }
    }

    /** The core the calling thread is bound to. Before call k of a new manager the cursor is
        `CursorAt(machine, k)`; afterwards it is the next one. */
    method SetAffinity(ghost k: nat) returns (r: Result<nat>)
      requires Valid() && Cursor(nextNumaNode, nextCoreId) == CursorAt(machine, k)
      modifies this
      ensures Valid() && Cursor(nextNumaNode, nextCoreId) == CursorAt(machine, k + 1)
      ensures r == Absolute(machine, Chosen(machine, k))
      ensures machine.mode == Sender || k < Rounds(machine) * machine.cpus ==> r == CoreOfThread(machine, k)
    {
      if machine.mode == Sender || k < Rounds(machine) * machine.cpus { BoundTo(machine, k); }
      hide Absolute, Chosen, Forward;
      NextCursor(machine, k);
      var core := GetCoreId();
      r := Absolute(machine, Cursor(nextNumaNode, core));
    }
  }

  // The order of choices in closed form

  /** The core used in round q, a round being one pass over the nodes. */
  function RoundCore(m: Machine, q: nat): int
    requires Sensible(m)
  {
    if m.mode == Receiver then m.cpus - 1 - q else q % m.cpus
  }

  function Rounds(m: Machine): nat { if m.numa then |m.nodes| else 1 }

  lemma NextCoreIs(m: Machine, core: nat)
    requires Sensible(m) && core < m.cpus
    ensures m.mode == Sender ==> NextCore(m, core) == if core + 1 < m.cpus then core + 1 else 0
    ensures m.mode == Receiver && core > 0 ==> NextCore(m, core) == core - 1
    ensures m.mode == Receiver && core == 0 ==> NextCore(m, core) == if m.cpus > 1 then USIZE_LIMIT - 1 else 0
  {
    if m.mode == Sender {
      SmallRemainder(core + 1, m.cpus);
    } else if core > 0 {
      SmallRemainder(core - 1, m.cpus);
    } else {
      SmallRemainder(1, m.cpus);
    }
  }

  lemma NextOfRound(m: Machine, q: nat)
    requires Sensible(m) && (m.mode == Receiver ==> q + 1 < m.cpus)
    ensures 0 <= RoundCore(m, q) < m.cpus && NextCore(m, RoundCore(m, q)) == RoundCore(m, q + 1)
  {
    NextCoreIs(m, RoundCore(m, q));
    if m.mode == Sender { ModStep(q, m.cpus); }
  }

  lemma RoundCoreInFirstPass(m: Machine, q: nat)
    requires Sensible(m) && q < m.cpus
    ensures RoundCore(m, q) == if m.mode == Receiver then m.cpus - 1 - q else q
  {
    if m.mode == Sender { SmallRemainder(q, m.cpus); }
  }

  lemma ForwardIs(m: Machine, c: Cursor)
    requires Sensible(m) && c.node < Rounds(m) && c.core < USIZE_LIMIT
    ensures Forward(m, c) ==
        if c.node + 1 < Rounds(m) then Cursor(c.node + 1, c.core) else Cursor(0, NextCore(m, c.core))
  {
    hide NextCore;
    SmallRemainder(c.node + 1, Rounds(m));
  }

  /** Call r of round q. */
  function Call(m: Machine, q: nat, r: nat): nat { q * Rounds(m) + r }

  lemma CallBefore(m: Machine, q: nat, r: nat)
    requires Sensible(m) && r < Rounds(m)
    ensures Call(m, 0, 0) == 0
    ensures r > 0 ==> Call(m, q, r) == Call(m, q, r - 1) + 1
    ensures r == 0 && q > 0 ==> Call(m, q, r) == Call(m, q - 1, Rounds(m) - 1) + 1
  {
  }

  lemma CallSplits(m: Machine, k: nat)
    requires Sensible(m)
    ensures k % Rounds(m) < Rounds(m) && k == Call(m, k / Rounds(m), k % Rounds(m))
  {
  }

  /** Call r of round q, with r below the number N of nodes, uses core `RoundCore(q)` of node r + 1,
      the last call of a round node 0: for a sender always, for a receiver as long as there are
      cores left. */
  lemma {:induction false} ChoiceInClosedForm(m: Machine, q: nat, r: nat)
    requires Sensible(m) && r < Rounds(m) && (m.mode == Receiver ==> q < m.cpus)
    ensures CursorAt(m, Call(m, q, r)) == Cursor(r, RoundCore(m, q))
    ensures Chosen(m, Call(m, q, r)) == Cursor(if r + 1 < Rounds(m) then r + 1 else 0, RoundCore(m, q))
    decreases q, r
  {
    hide NextCore, Forward, RoundCore, Call;
    CallBefore(m, q, r);
    if r > 0 {
      ChoiceInClosedForm(m, q, r - 1);
      ForwardIs(m, CursorAt(m, Call(m, q, r - 1)));
    } else if q > 0 {
      NextOfRound(m, q - 1);
      ChoiceInClosedForm(m, q - 1, Rounds(m) - 1);
      ForwardIs(m, CursorAt(m, Call(m, q - 1, Rounds(m) - 1)));
    } else {
      RoundCoreInFirstPass(m, 0);
    }
    ForwardIs(m, CursorAt(m, Call(m, q, r)));
  }

  /** Every call of the first pass belongs to a round with a core of its own. */
  lemma RoundOf(m: Machine, k: nat) returns (q: nat, r: nat)
    requires Sensible(m) && k < Rounds(m) * m.cpus
    ensures q < m.cpus && r < Rounds(m) && k == Call(m, q, r) && q == k / Rounds(m) && r == k % Rounds(m)
  {
    var n := Rounds(m);
    q, r := k / n, k % n;
    CallSplits(m, k);
    BelowAllRounds(m, q, r);
    hide Call;
  }

  lemma BelowAllRounds(m: Machine, q: nat, r: nat)
    requires Sensible(m) && Call(m, q, r) < Rounds(m) * m.cpus
    ensures q < m.cpus
  {
    QuotientBelow(Rounds(m), q, r, m.cpus);
  }

  /** Call k of the first N * C calls: node k + 1 modulo N, core k / N from the first (sender) or
      the last (receiver) on. */
  lemma FirstPass(m: Machine, k: nat)
    requires Sensible(m) && k < Rounds(m) * m.cpus
    ensures Chosen(m, k).node == (k + 1) % Rounds(m)
    ensures Chosen(m, k).core == if m.mode == Receiver then m.cpus - 1 - k / Rounds(m) else k / Rounds(m)
  {
    var q, r := RoundOf(m, k);
    ModStep(k, Rounds(m));
    hide Chosen, Call;
    ChoiceInClosedForm(m, q, r);
    RoundCoreInFirstPass(m, q);
  }

  /** The choice of a call of the first pass, by its round and its position in the round. */
  lemma ChoiceInFirstPass(m: Machine, k: nat) returns (q: nat, r: nat)
    requires Sensible(m) && k < Rounds(m) * m.cpus
    ensures q < m.cpus && r < Rounds(m) && k == Call(m, q, r)
    ensures Chosen(m, k).node == if r + 1 < Rounds(m) then r + 1 else 0
    ensures Chosen(m, k).core == if m.mode == Receiver then m.cpus - 1 - q else q
  {
    q, r := RoundOf(m, k);
    hide Chosen, Call;
    ChoiceInClosedForm(m, q, r);
    RoundCoreInFirstPass(m, q);
  }

  /** No two of the first N * C calls use the same core of the same node. */
  lemma ChoicesAreDistinct(m: Machine, j: nat, k: nat)
    requires Sensible(m) && j < k < Rounds(m) * m.cpus
    ensures Chosen(m, j) != Chosen(m, k)
  {
    hide Chosen, Call, Rounds;
    var q, r := ChoiceInFirstPass(m, j);
    var q', r' := ChoiceInFirstPass(m, k);
  }

  /** And each core of each node is used by one of them. */
  lemma ChoicesCoverEverything(m: Machine, node: nat, core: nat) returns (k: nat)
    requires Sensible(m) && node < Rounds(m) && core < m.cpus
    ensures k < Rounds(m) * m.cpus && Chosen(m, k) == Cursor(node, core)
  {
    var n := Rounds(m);
    var q := if m.mode == Receiver then m.cpus - 1 - core else core;
    var r := if node == 0 then n - 1 else node - 1;
    k := Call(m, q, r);
    assert k < n * m.cpus by {
      MulMono(q + 1, m.cpus, n);
      assert (q + 1) * n == q * n + n;
    }
    hide Chosen, Call;
    ChoiceInClosedForm(m, q, r);
    RoundCoreInFirstPass(m, q);
  }

  /** The sender starts over after N * C calls, again and again. */
  lemma SenderRepeats(m: Machine, k: nat)
    requires Sensible(m) && m.mode == Sender
    ensures Chosen(m, k + Rounds(m) * m.cpus) == Chosen(m, k)
    ensures CursorAt(m, k + Rounds(m) * m.cpus) == CursorAt(m, k)
  {
    BackToTheStart(m);
    var period := Rounds(m) * m.cpus;
    hide Rounds, CursorAt;
    RepeatsFrom(m, k, period);
    NextOfCursors(m, k, k + period);
  }

  lemma {:induction false} RepeatsFrom(m: Machine, k: nat, period: nat)
    requires Sensible(m) && CursorAt(m, period) == CursorAt(m, 0)
    ensures CursorAt(m, k + period) == CursorAt(m, k)
  {
    hide Forward, First;
    if k == 0 {
    } else {
      RepeatsFrom(m, k - 1, period);
      NextOfCursors(m, k - 1, k - 1 + period);
    }
  }

  lemma NextOfCursors(m: Machine, j: nat, k: nat)
    requires Sensible(m) && CursorAt(m, j) == CursorAt(m, k)
    ensures CursorAt(m, j + 1) == CursorAt(m, k + 1)
  {
    hide Forward, First;
  }

  lemma BackToTheStart(m: Machine)
    requires Sensible(m) && m.mode == Sender
    ensures CursorAt(m, Rounds(m) * m.cpus) == CursorAt(m, 0)
  {
    assert Call(m, m.cpus, 0) == Rounds(m) * m.cpus && Call(m, 0, 0) == 0;
    hide Call, CursorAt, RoundCore, Rounds, Chosen;
    ChoiceInClosedForm(m, m.cpus, 0);
    ChoiceInClosedForm(m, 0, 0);
    RoundCoreInFirstPass(m, 0);
    NoRoundCore(m);
  }

  lemma NoRoundCore(m: Machine)
    requires Sensible(m) && m.mode == Sender
    ensures RoundCore(m, m.cpus) == 0
  {
    SmallRemainder(m.cpus, m.cpus);
  }

  /** The receiver does not: after the first pass its core id goes below zero and wraps to the
      largest machine word, exactly if a node has more than one core. On a NUMA machine looking
      that core up fails; otherwise it is what the thread is to be bound to. */
  lemma ReceiverRunsOut(m: Machine)
    requires Sensible(m) && m.mode == Receiver
    ensures Chosen(m, Rounds(m) * m.cpus).core == if m.cpus > 1 then USIZE_LIMIT - 1 else 0
    ensures m.numa && (forall i :: 0 <= i < |m.nodes| ==> |m.nodes[i]| <= m.cpus) && m.cpus > 1
      ==> Absolute(m, Chosen(m, Rounds(m) * m.cpus)).Err?
    ensures !m.numa && m.cpus > 1 ==> Absolute(m, Chosen(m, Rounds(m) * m.cpus)) == Ok(USIZE_LIMIT - 1)
  {
    var k := Call(m, m.cpus - 1, Rounds(m) - 1);
    assert k + 1 == Rounds(m) * m.cpus;
    hide NextCore, Forward, Call;
    ChoiceInClosedForm(m, m.cpus - 1, Rounds(m) - 1);
    ForwardIs(m, CursorAt(m, k));
    NextCoreIs(m, 0);
  }

  /** The nodes' core sets are disjoint, and as large as the first one. */
  ghost predicate Uniform(m: Machine) {
    && Sensible(m) && m.numa
    && (forall i :: 0 <= i < |m.nodes| ==> |m.nodes[i]| == m.cpus)
    && (forall i, j, a, b ::
          (0 <= i < |m.nodes| && 0 <= j < |m.nodes| && 0 <= a < |m.nodes[i]| && 0 <= b < |m.nodes[j]|
           && m.nodes[i][a] == m.nodes[j][b]) ==> i == j && a == b)
  }

  /** On such a machine the first N * C threads are bound without an error to pairwise different
      cores. */
  lemma ThreadsGetDifferentCores(m: Machine, j: nat, k: nat)
    requires Uniform(m) && j < k < Rounds(m) * m.cpus
    ensures Absolute(m, Chosen(m, j)).Ok? && Absolute(m, Chosen(m, k)).Ok?
    ensures Absolute(m, Chosen(m, j)) != Absolute(m, Chosen(m, k))
  {
    var q, r := ChoiceInFirstPass(m, j);
    var q', r' := ChoiceInFirstPass(m, k);
    ChoicesAreDistinct(m, j, k);
    hide Chosen, Call;
  }

  /** The core thread k is bound to, a sender's in every round, a receiver's in the first pass: node
      k + 1 modulo N, and there core k / N from the first (sender) or the last (receiver) on, the
      sender starting over after C of them. Without NUMA that is the core itself. */
  function CoreOfThread(m: Machine, k: nat): Result<nat>
    requires Sensible(m) && (m.mode == Receiver ==> k < Rounds(m) * m.cpus)
  {
    var node, core := (k + 1) % Rounds(m), CoreNumber(m, k);
    if !m.numa then Ok(core)
    else if core < |m.nodes[node]| then Ok(m.nodes[node][core])
    else Err("Failed to get core ID from CPU set")
  }

  function CoreNumber(m: Machine, k: nat): nat
    requires Sensible(m) && (m.mode == Receiver ==> k < Rounds(m) * m.cpus)
  {
    CallSplits(m, k);
    if m.mode == Receiver then
      BelowAllRounds(m, k / Rounds(m), k % Rounds(m));
      m.cpus - 1 - k / Rounds(m)
    else (k / Rounds(m)) % m.cpus
  }

  lemma BoundTo(m: Machine, k: nat)
    requires Sensible(m) && (m.mode == Receiver ==> k < Rounds(m) * m.cpus)
    ensures Absolute(m, Chosen(m, k)) == CoreOfThread(m, k)
  {
    ChoiceOfThread(m, k);
    hide Chosen, CoreNumber;
  }

  lemma ChoiceOfThread(m: Machine, k: nat)
    requires Sensible(m) && (m.mode == Receiver ==> k < Rounds(m) * m.cpus)
    ensures Chosen(m, k) == Cursor((k + 1) % Rounds(m), CoreNumber(m, k))
  {
    var q, r := k / Rounds(m), k % Rounds(m);
    CallSplits(m, k);
    if m.mode == Receiver { BelowAllRounds(m, q, r); }
    ModStep(k, Rounds(m));
    hide Chosen, Call, Rounds;
    ChoiceInClosedForm(m, q, r);
  }

  lemma NextCursor(m: Machine, k: nat)
    requires Sensible(m)
    ensures CursorAt(m, k + 1) == Forward(m, CursorAt(m, k))
    ensures Chosen(m, k) == Cursor(CursorAt(m, k + 1).node, CursorAt(m, k).core)
  {
  }
}
