/**
  The platform-level interrupt controller of
  `examples/fuxi/sim/interrupt_devices.cpp`, on values: gateways, arbitration,
  claim and completion, and what they promise over whole runs.
 */
module Plic {
  import opened Bits

  datatype State = State(
    priority: seq<nat>,          // by source; entry 0 is the reserved source
    pending: seq<bool>,
    busy: seq<bool>,             // a request is between gateway and completion
    enables: seq<seq<u32>>,      // by context, 32 words of 32 sources
    threshold: seq<nat>,
    irqs: seq<bool>)
  {
    function Sources(): int { |priority| - 1 }
    function Contexts(): nat { |irqs| }
  }

  const SPAN := 0x400_0000
  const ENABLES := 0x2000
  const CONTEXTS := 0x20_0000

  predicate Shape(s: State) {
    && 2 <= |s.priority| <= 1024 && 1 <= |s.irqs| <= 64
    && |s.pending| == |s.busy| == |s.priority|
    && |s.enables| == |s.threshold| == |s.irqs|
    && (forall c | 0 <= c < |s.enables| :: |s.enables[c]| == 32)
    && s.priority[0] == 0
  }

  predicate Enabled(s: State, c: nat, source: nat)
    requires Shape(s) && c < s.Contexts() && source <= s.Sources()
  {
    Bit(s.enables[c][source / 32], source % 32)
  }

  /** A source that context c may be interrupted by or may claim. */
  predicate Candidate(s: State, c: nat, source: int)
    requires Shape(s) && c < s.Contexts()
  {
    1 <= source <= s.Sources() && s.pending[source] && Enabled(s, c, source) && s.priority[source] > 0
  }

  /** Highest priority first, then lowest identifier. */
  predicate Beats(s: State, i: nat, j: nat)
    requires i < |s.priority| && j < |s.priority|
  {
    s.priority[i] > s.priority[j] || (s.priority[i] == s.priority[j] && i <= j)
  }

  /** Which source wins context c; 0 when there is none. */
  ghost predicate Wins(s: State, c: nat, id: nat)
    requires Shape(s) && c < s.Contexts()
  {
    if id == 0 then forall j | 1 <= j <= s.Sources() :: !Candidate(s, c, j)
    else Candidate(s, c, id) && forall j | 1 <= j <= s.Sources() && Candidate(s, c, j) :: Beats(s, id, j)
  }

  lemma WinnerUnique(s: State, c: nat, id: nat, id': nat)
    requires Shape(s) && c < s.Contexts() && Wins(s, c, id) && Wins(s, c, id')
    ensures id == id'
  {}

  /** The ascending scan of `best` over sources 1..n. */
  function Scan(s: State, c: nat, n: nat): (id: nat)
    requires Shape(s) && c < s.Contexts() && n <= s.Sources()
    ensures id <= n
    ensures id > 0 ==> Candidate(s, c, id)
    ensures forall j | 1 <= j <= n && Candidate(s, c, j) :: id > 0 && Beats(s, id, j)
  {
    if n == 0 then 0
    else
      var selected := Scan(s, c, n - 1);
      if s.pending[n] && Enabled(s, c, n) && s.priority[n] > s.priority[selected] then n else selected
  }

  function Best(s: State, c: nat): (id: nat)
    requires Shape(s) && c < s.Contexts()
    ensures id <= s.Sources()
    ensures Wins(s, c, id)
  {
    Scan(s, c, s.Sources())
  }

  // ---- operations -------------------------------------------------------

  predicate Interrupts(s: State, c: nat)
    requires Shape(s) && c < s.Contexts()
  {
    s.priority[Best(s, c)] > s.threshold[c]
  }

  function Notify(s: State): (r: State)
    requires Shape(s)
  {
    s.(irqs := seq(s.Contexts(), c requires 0 <= c < s.Contexts() => Interrupts(s, c)))
  }

  /** The gateway of source i forwards a request. */
  predicate Raises(s: State, inputs: seq<bool>, i: nat) {
    1 <= i < |inputs| && i < |s.busy| && inputs[i] && !s.busy[i]
  }

  function Gateways(s: State, inputs: seq<bool>): State
    requires Shape(s)
  {
    s.(pending := seq(|s.pending|, i requires 0 <= i < |s.pending| => s.pending[i] || Raises(s, inputs, i)),
       busy := seq(|s.busy|, i requires 0 <= i < |s.busy| => s.busy[i] || Raises(s, inputs, i)))
  }

  function Settle(s: State, inputs: seq<bool>): State
    requires Shape(s)
  {
    Notify(Gateways(s, inputs))
  }

  predicate InEnables(s: State, offset: nat) {
    ENABLES <= offset < ENABLES + s.Contexts() * 0x80
  }

  predicate InContexts(s: State, offset: nat) {
    CONTEXTS <= offset < CONTEXTS + s.Contexts() * 0x1000
  }

  function ContextAt(offset: nat): int { (offset - CONTEXTS) / 0x1000 }

  predicate AtClaim(s: State, offset: nat) {
    InContexts(s, offset) && offset % 0x1000 == 4
  }

  function PendingWord(s: State, base: nat): nat
    requires Shape(s)
  {
    FromBools(seq(32, k requires 0 <= k < 32 => base + k <= s.Sources() && s.pending[base + k]))
  }

  function ReadValue(s: State, offset: nat): nat
    requires Shape(s)
  {
    if offset < 0x1000 then if offset / 4 <= s.Sources() then s.priority[offset / 4] else 0
    else if offset < 0x1080 then PendingWord(s, (offset - 0x1000) / 4 * 32)
    else if InEnables(s, offset) then s.enables[(offset - ENABLES) / 0x80][offset % 0x80 / 4]
    else if InContexts(s, offset) && offset % 0x1000 == 0 then s.threshold[ContextAt(offset)]
    else if AtClaim(s, offset) then Best(s, ContextAt(offset))
    else 0
  }

  /** Reading has an effect only at a claim register. */
  function AfterRead(s: State, offset: nat): State
    requires Shape(s)
  {
    if AtClaim(s, offset) then
      var id := Best(s, ContextAt(offset));
      Notify(if id > 0 then s.(pending := s.pending[id := false]) else s)
    else s
  }

  /** Enable bits that exist: source 0 and sources past the last read as zero. */
  function Implemented(s: State, word: nat): nat {
    FromBools(seq(32, k requires 0 <= k < 32 => 0 < word * 32 + k <= s.Sources()))
  }

  /** The source whose request a write completes, or 0. */
  function Completes(s: State, offset: nat, value: nat): (id: nat)
    requires Shape(s)
    ensures id <= s.Sources()
  {
    if AtClaim(s, offset) && 0 < value <= s.Sources() && Enabled(s, ContextAt(offset), value) then value else 0
  }

  function AfterWrite(s: State, offset: nat, value: u32): State
    requires Shape(s)
  {
    if 0 < offset < 0x1000 && offset / 4 <= s.Sources() then
      s.(priority := s.priority[offset / 4 := value % 8])
    else if InEnables(s, offset) then
      var c, word := (offset - ENABLES) / 0x80, offset % 0x80 / 4;
      var row: seq<u32> := s.enables[c][word := And(value, Implemented(s, word))];
      s.(enables := s.enables[c := row])
    else if InContexts(s, offset) && offset % 0x1000 == 0 then
      s.(threshold := s.threshold[ContextAt(offset) := value % 8])
    else if Completes(s, offset, value) > 0 then
      s.(busy := s.busy[value := false])
    else s
  }

  /** What can happen between two resets; offsets are those the bus decoder lets through. */
  datatype Op =
    | SettleOp(inputs: seq<bool>)
    | ReadOp(offset: nat)
    | WriteOp(offset: nat, value: u32, inputs: seq<bool>)

  predicate OpOk(op: Op) {
    match op
    case SettleOp(_) => true
    case ReadOp(offset) => offset % 4 == 0
    case WriteOp(offset, _, _) => offset % 4 == 0
  }

  function Step(s: State, op: Op): (r: State)
    requires Shape(s) && OpOk(op)
    ensures Shape(r) && r.Sources() == s.Sources() && r.Contexts() == s.Contexts()
  {
    match op
    case SettleOp(inputs) => Settle(s, inputs)
    case ReadOp(offset) => AfterRead(s, offset)
    case WriteOp(offset, value, inputs) => Settle(AfterWrite(s, offset, value), inputs)
  }

  function Initial(sources: nat, contexts: nat): State {
    State(seq(sources + 1, _ => 0), seq(sources + 1, _ => false), seq(sources + 1, _ => false),
          seq(contexts, _ => seq(32, _ => 0)), seq(contexts, _ => 0), seq(contexts, _ => false))
  }

  predicate RunOk(ops: seq<Op>) {
    forall i | 0 <= i < |ops| :: OpOk(ops[i])
  }

  function Run(s: State, ops: seq<Op>): (r: State)
    requires Shape(s) && RunOk(ops)
    ensures Shape(r) && r.Sources() == s.Sources() && r.Contexts() == s.Contexts()
    decreases |ops|
  {
    if ops == [] then s else Run(Step(s, ops[0]), ops[1..])
  }

  // ---- interrupt lines ----------------------------------------------------

  ghost predicate LineExact(s: State, c: nat)
    requires Shape(s) && c < s.Contexts()
  {
    s.irqs[c] <==> exists i | 1 <= i <= s.Sources() :: Candidate(s, c, i) && s.priority[i] > s.threshold[c]
  }

  ghost predicate LinesExact(s: State)
    requires Shape(s)
  {
    forall c | 0 <= c < s.Contexts() :: s.irqs[c] == Interrupts(s, c)
  }

  /** A line above its threshold means some candidate is, and the other way round. */
  lemma InterruptsMeaning(s: State, c: nat)
    requires Shape(s) && c < s.Contexts()
    ensures Interrupts(s, c) <==>
            exists i | 1 <= i <= s.Sources() :: Candidate(s, c, i) && s.priority[i] > s.threshold[c]
  {
    hide Enabled;
    var id := Best(s, c);
    if id > 0 { assert Candidate(s, c, id); }
  }

  lemma SameArbitration(s: State, r: State, c: nat, n: nat)
    requires Shape(s) && Shape(r) && c < s.Contexts() && r == s.(irqs := r.irqs) && n <= s.Sources()
    requires |r.irqs| == |s.irqs|
    ensures Scan(r, c, n) == Scan(s, c, n)
  {
    if n > 0 { SameArbitration(s, r, c, n - 1); }
  }

  lemma NotifyExact(s: State)
    requires Shape(s)
    ensures LinesExact(Notify(s))
  {
    var r := Notify(s);
    forall c | 0 <= c < s.Contexts() ensures r.irqs[c] == Interrupts(r, c) {
      SameArbitration(s, r, c, s.Sources());
    }
  }

  lemma StepExact(s: State, op: Op)
    requires Shape(s) && OpOk(op) && LinesExact(s)
    ensures LinesExact(Step(s, op))
  {
    match op
    case SettleOp(inputs) => NotifyExact(Gateways(s, inputs));
    case WriteOp(offset, value, inputs) => NotifyExact(Gateways(AfterWrite(s, offset, value), inputs));
    case ReadOp(offset) =>
      if AtClaim(s, offset) {
        var id := Best(s, ContextAt(offset));
        NotifyExact(if id > 0 then s.(pending := s.pending[id := false]) else s);
      }
  }

  lemma {:induction false} RunExact(s: State, ops: seq<Op>)
    requires Shape(s) && RunOk(ops) && LinesExact(s)
    ensures LinesExact(Run(s, ops))
    decreases |ops|
  {
    if ops != [] {
      StepExact(s, ops[0]);
      RunExact(Step(s, ops[0]), ops[1..]);
    }
  }

  /** After every operation since reset, each line is high exactly when it should be. */
  lemma InterruptLines(sources: nat, contexts: nat, ops: seq<Op>, c: nat)
    requires 1 <= sources <= 1023 && 1 <= contexts <= 64 && RunOk(ops) && c < contexts
    ensures LineExact(Run(Initial(sources, contexts), ops), c)
  {
    var s := Initial(sources, contexts);
    forall c | 0 <= c < contexts ensures s.irqs[c] == Interrupts(s, c) {
      assert Best(s, c) == 0;
    }
    RunExact(s, ops);
    InterruptsMeaning(Run(s, ops), c);
  }

  // ---- gateway accounting -------------------------------------------------

  /** Source claimed by an operation, or 0. */
  function Claimed(s: State, op: Op): nat
    requires Shape(s)
  {
    if op.ReadOp? && AtClaim(s, op.offset) then ReadValue(s, op.offset) else 0
  }

  /** An effective completion of source i: its busy bit is released. */
  predicate Released(s: State, op: Op, i: nat)
    requires Shape(s) && 1 <= i <= s.Sources()
  {
    op.WriteOp? && Completes(s, op.offset, op.value) == i && s.busy[i]
  }

  /** State seen by the gateways during an operation. */
  function AtGateways(s: State, op: Op): (r: State)
    requires Shape(s) && OpOk(op)
    ensures Shape(r) && r.Sources() == s.Sources()
  {
    if op.WriteOp? then AfterWrite(s, op.offset, op.value) else s
  }

  /** The gateway of source i forwards a request during an operation. */
  predicate Forwarded(s: State, op: Op, i: nat)
    requires Shape(s) && OpOk(op)
  {
    !op.ReadOp? && Raises(AtGateways(s, op), op.inputs, i)
  }

  /** A forwarded request meets one that is still pending and is absorbed by it. */
  predicate Merged(s: State, op: Op, i: nat)
    requires Shape(s) && OpOk(op) && 1 <= i <= s.Sources()
  {
    Forwarded(s, op, i) && s.pending[i]
  }

  datatype Account = Account(claims: nat, completions: nat, forwards: nat, merges: nat)

  function Ledger(s: State, ops: seq<Op>, i: nat): Account
    requires Shape(s) && RunOk(ops) && 1 <= i <= s.Sources()
    decreases |ops|
  {
    if ops == [] then Account(0, 0, 0, 0)
    else
      var op := ops[0];
      var rest := Ledger(Step(s, op), ops[1..], i);
      Account(rest.claims + B(Claimed(s, op) == i), rest.completions + B(Released(s, op, i)),
              rest.forwards + B(Forwarded(s, op, i)), rest.merges + B(Merged(s, op, i)))
  }

  /** One operation: what enters the pending bit and the busy bit leaves them. */
  lemma StepAccount(s: State, op: Op, i: nat)
    requires Shape(s) && OpOk(op) && 1 <= i <= s.Sources()
    ensures var r := Step(s, op);
            && B(Claimed(s, op) == i) + B(r.pending[i]) + B(Merged(s, op, i))
               == B(s.pending[i]) + B(Forwarded(s, op, i))
            && B(Released(s, op, i)) + B(r.busy[i]) == B(s.busy[i]) + B(Forwarded(s, op, i))
  {
    hide Enabled, Wins;
    if op.ReadOp? && AtClaim(s, op.offset) {
      var id := Best(s, ContextAt(op.offset));
      assert id > 0 ==> Candidate(s, ContextAt(op.offset), id);
    }
  }

  lemma {:induction false} RunAccount(s: State, ops: seq<Op>, i: nat)
    requires Shape(s) && RunOk(ops) && 1 <= i <= s.Sources()
    ensures var a, r := Ledger(s, ops, i), Run(s, ops);
            && a.claims + B(r.pending[i]) + a.merges == B(s.pending[i]) + a.forwards
            && a.completions + B(r.busy[i]) == B(s.busy[i]) + a.forwards
    decreases |ops|
  {
    if ops != [] {
      StepAccount(s, ops[0], i);
      RunAccount(Step(s, ops[0]), ops[1..], i);
    }
  }

  /**
    Since reset every forwarded request is claimed, pending or merged, and is
    completed or busy; so claims plus the pending bit never exceed effective
    completions plus the busy bit.
   */
  lemma GatewayAccounting(sources: nat, contexts: nat, ops: seq<Op>, i: nat)
    requires 1 <= sources <= 1023 && 1 <= contexts <= 64 && RunOk(ops) && 1 <= i <= sources
    ensures var s := Initial(sources, contexts);
            var a, r := Ledger(s, ops, i), Run(s, ops);
            && a.forwards == a.claims + B(r.pending[i]) + a.merges
            && a.forwards == a.completions + B(r.busy[i])
            && a.claims + B(r.pending[i]) <= a.completions + B(r.busy[i])
  {
    RunAccount(Initial(sources, contexts), ops, i);
  }

  /** Since reset a source is claimed at most once more than it is effectively completed. */
  lemma ClaimsBounded(sources: nat, contexts: nat, ops: seq<Op>, i: nat)
    requires 1 <= sources <= 1023 && 1 <= contexts <= 64 && RunOk(ops) && 1 <= i <= sources
    ensures var a := Ledger(Initial(sources, contexts), ops, i); a.claims <= a.completions + 1
  {
    GatewayAccounting(sources, contexts, ops, i);
  }

  /**
    When the next claim of a source that is not pending needs a completion first:
    exactly while its busy bit is set.  A completion written before the claim has
    already cleared that bit, and then the source can be claimed twice in a row.
   */
  lemma ClaimNeedsCompletionIffBusy(s: State, i: nat)
    requires Shape(s) && 1 <= i <= s.Sources() && !s.pending[i]
    ensures s.busy[i] <==>
            forall ops: seq<Op> | RunOk(ops) && Ledger(s, ops, i).claims > 0 :: Ledger(s, ops, i).completions > 0
  {
    hide Ledger;
    if s.busy[i] {
      forall ops: seq<Op> | RunOk(ops) && Ledger(s, ops, i).claims > 0 ensures Ledger(s, ops, i).completions > 0 {
        RunAccount(s, ops, i);
      }
    } else {
      var ops := ClaimRun(s, i);
      ClaimedAgain(s, i);
      assert RunOk(ops) && Ledger(s, ops, i).claims > 0 && Ledger(s, ops, i).completions == 0;
    }
  }

  // ---- a run that claims a source whose gateway is open ---------------------------------------------

  const CLAIM := CONTEXTS + 4

  /** Only source i is asserted. */
  function Only(n: nat, i: nat): seq<bool> { seq(n, k => k == i) }

  /** Give source i the top priority, enable its word in context 0, raise it, and claim n times. */
  function ClaimRun(s: State, i: nat): seq<Op>
    requires Shape(s) && 1 <= i <= s.Sources()
  {
    [WriteOp(4 * i, 7, []), WriteOp(ENABLES + i / 32 * 4, TWO32 - 1, Only(|s.priority|, i))] +
    Reads(|s.priority|)
  }

  function Reads(n: nat): seq<Op> { seq(n, _ => ReadOp(CLAIM)) }

  /** Pending sources up to n. */
  function Waiting(s: State, n: nat): nat
    requires n <= |s.pending|
  {
    if n == 0 then 0 else Waiting(s, n - 1) + B(s.pending[n - 1])
  }

  lemma {:induction false} WaitingDrops(s: State, t: State, id: nat, n: nat)
    requires id < |s.pending| && s.pending[id] && t.pending == s.pending[id := false] && n <= |s.pending|
    ensures Waiting(t, n) == Waiting(s, n) - B(id < n)
  {
    if n > 0 { WaitingDrops(s, t, id, n - 1); }
  }

  lemma {:induction false} WaitingBounds(s: State, i: nat, n: nat)
    requires n <= |s.pending|
    ensures Waiting(s, n) <= n && (i < n && s.pending[i] ==> Waiting(s, n) > 0)
  {
    if n > 0 { WaitingBounds(s, i, n - 1); }
  }

  /** Each claim takes one pending source away, so a candidate is claimed in the end. */
  lemma {:induction false} ReadsClaim(s: State, i: nat, n: nat)
    requires Shape(s) && 1 <= i <= s.Sources() && Candidate(s, 0, i) && n >= Waiting(s, |s.pending|)
    ensures RunOk(Reads(n)) && Ledger(s, Reads(n), i).claims > 0 && Ledger(s, Reads(n), i).completions == 0
    decreases n
  {
    hide Enabled, Best, Waiting;
    WaitingBounds(s, i, |s.pending|);
    var op := Reads(n)[0];
    var id, t := Best(s, 0), Step(s, op);
    assert Reads(n)[1..] == Reads(n - 1);
    assert AtClaim(s, CLAIM) && ContextAt(CLAIM) == 0;
    assert id > 0 && t.pending == s.pending[id := false] && Claimed(s, op) == id;
    ReadsComplete(t, i, n - 1);
    if id != i {
      WaitingDrops(s, t, id, |s.pending|);
      assert t.enables == s.enables && t.priority == s.priority;
      SameEnabled(s, t, i);
      ReadsClaim(t, i, n - 1);
    }
  }

  lemma SameEnabled(s: State, t: State, i: nat)
    requires Shape(s) && Shape(t) && t.enables == s.enables && t.priority == s.priority && i <= s.Sources()
    ensures Enabled(s, 0, i) == Enabled(t, 0, i)
  {}

  lemma {:induction false} ReadsComplete(s: State, i: nat, n: nat)
    requires Shape(s) && 1 <= i <= s.Sources()
    ensures RunOk(Reads(n)) && Ledger(s, Reads(n), i).completions == 0
    decreases n
  {
    hide Enabled;
    if n > 0 {
      assert Reads(n)[1..] == Reads(n - 1);
      ReadsComplete(Step(s, Reads(n)[0]), i, n - 1);
    }
  }

  lemma ClaimedAgain(s: State, i: nat)
    requires Shape(s) && 1 <= i <= s.Sources() && !s.busy[i]
    ensures var ops := ClaimRun(s, i);
            RunOk(ops) && Ledger(s, ops, i).claims > 0 && Ledger(s, ops, i).completions == 0
  {
    hide AfterWrite, Step;
    var ops := ClaimRun(s, i);
    var s1 := Step(s, ops[0]);
    var s2 := Step(s1, ops[1]);
    RaisedCandidate(s, i);
    WaitingBounds(s2, i, |s2.pending|);
    ReadsClaim(s2, i, |s.priority|);
    var rest := Reads(|s.priority|);
    assert ops[1..] == [ops[1]] + rest && ([ops[1]] + rest)[1..] == rest;
    LedgerStep(s, ops, i);
    LedgerStep(s1, ops[1..], i);
    assert !Released(s, ops[0], i) && !Released(s1, ops[1], i);
  }

  lemma LedgerStep(s: State, ops: seq<Op>, i: nat)
    requires Shape(s) && RunOk(ops) && 1 <= i <= s.Sources() && ops != []
    ensures var rest := Ledger(Step(s, ops[0]), ops[1..], i);
            && Ledger(s, ops, i).claims >= rest.claims
            && Ledger(s, ops, i).completions == rest.completions + B(Released(s, ops[0], i))
  {
    hide Step, Claimed, Forwarded, Merged, Released;
  }

  lemma RaisedCandidate(s: State, i: nat)
    requires Shape(s) && 1 <= i <= s.Sources() && !s.busy[i]
    ensures var ops := ClaimRun(s, i);
            Candidate(Step(Step(s, ops[0]), ops[1]), 0, i) && |Step(Step(s, ops[0]), ops[1]).pending| == |s.priority|
  {
    hide Bit, And, Best, Interrupts;
    var ops := ClaimRun(s, i);
    var s1 := Step(s, ops[0]);
    assert s1.priority[i] == 7 && !s1.busy[i] && s1.enables == s.enables;
    var word := i / 32;
    var offset := ENABLES + word * 4;
    assert InEnables(s1, offset) && (offset - ENABLES) / 0x80 == 0 && offset % 0x80 / 4 == word;
    EnabledBit(s1, i);
  }

  /** Writing all ones to an enable word enables every source that exists. */
  lemma EnabledBit(s: State, i: nat)
    requires Shape(s) && 1 <= i <= s.Sources()
    ensures Bit(And(TWO32 - 1, Implemented(s, i / 32)), i % 32)
  {
    hide And, Bit;
    AndBit(TWO32 - 1, Implemented(s, i / 32), i % 32);
    FromBoolsBit(seq(32, k requires 0 <= k < 32 => 0 < i / 32 * 32 + k <= s.Sources()), i % 32);
    Powers();
    MaskBit(32, i % 32);
  }

  /** Source 1 of 1 in context 0, given priority, pending or not, busy or not. */
  function OneSource(pending: bool, busy: bool, irq: bool): State {
    State([0, 7], [false, pending], [false, busy], [seq(32, w => if w == 0 then 2 else 0)], [0], [irq])
  }

  lemma OneSourceBest(pending: bool, busy: bool, irq: bool)
    ensures var s := OneSource(pending, busy, irq);
            && Shape(s) && Enabled(s, 0, 1) && Best(s, 0) == (if pending then 1 else 0)
            && Notify(s) == OneSource(pending, busy, pending)
  {
    var s := OneSource(pending, busy, irq);
    assert Bit(2, 1) by { assert 2 / 2 == 1; }
    assert Enabled(s, 0, 1);
    if pending { assert Candidate(s, 0, 1); }
    assert Notify(s).irqs == [pending];
  }

  /**
    The early completion at work: with source 1 pending and enabled, complete it,
    claim it, let its input rise, and claim it again.  Both claims succeed and no
    completion lies between them.
   */
  lemma DoubleClaim()
    ensures var s0 := OneSource(true, true, true);
            && Shape(s0)
            && var s1 := Step(s0, WriteOp(CLAIM, 1, [false, false]));
               var s2 := Step(s1, ReadOp(CLAIM));
               var s3 := Step(s2, SettleOp([false, true]));
               && Released(s0, WriteOp(CLAIM, 1, [false, false]), 1)
               && Claimed(s1, ReadOp(CLAIM)) == 1 && !s2.pending[1] && !s2.busy[1]
               && Claimed(s3, ReadOp(CLAIM)) == 1
  {
    hide Best, Notify, Enabled;
    var s0 := OneSource(true, true, true);
    OneSourceBest(true, true, true);
    OneSourceBest(true, false, true);
    OneSourceBest(false, false, true);
    OneSourceBest(true, true, false);
    assert AfterWrite(s0, CLAIM, 1) == OneSource(true, false, true);
    assert Gateways(OneSource(true, false, true), [false, false]) == OneSource(true, false, true);
    var s1 := OneSource(true, false, true);
    assert Step(s0, WriteOp(CLAIM, 1, [false, false])) == s1;
    assert s1.(pending := s1.pending[1 := false]) == OneSource(false, false, true);
    var s2 := OneSource(false, false, false);
    assert Step(s1, ReadOp(CLAIM)) == s2;
    assert Gateways(s2, [false, true]) == OneSource(true, true, false);
    assert Step(s2, SettleOp([false, true])) == OneSource(true, true, true);
  }

  /** Two operations after reset reach the state where that begins. */
  lemma OneSourceReached()
    ensures var ops := [WriteOp(4, 7, [false, false]), WriteOp(ENABLES, 2, [false, true])];
            RunOk(ops) && Run(Initial(1, 1), ops) == OneSource(true, true, true)
  {
    hide Notify, Enabled, Implemented, And, Best;
    var s0 := Initial(1, 1);
    var a, b := WriteOp(4, 7, [false, false]), WriteOp(ENABLES, 2, [false, true]);
    var s1 := s0.(priority := [0, 7]);
    assert Gateways(AfterWrite(s0, 4, 7), [false, false]) == s1;
    NothingPending(s1);
    assert Step(s0, a) == s1;
    OnlySourceOne(s1);
    EnableSourceOne(s1);
    assert Gateways(OneSource(false, false, false), [false, true]) == OneSource(true, true, false);
    OneSourceBest(true, true, false);
    assert Step(s1, b) == OneSource(true, true, true);
    assert [a, b][1..] == [b];
    assert Run(s1, [b]) == Run(Step(s1, b), []);
  }

  lemma EnableSourceOne(s: State)
    requires s == Initial(1, 1).(priority := [0, 7])
    ensures AfterWrite(s, ENABLES, 2) == OneSource(false, false, false)
  {
    hide Implemented, And;
    OnlySourceOne(s);
    var t := AfterWrite(s, ENABLES, 2);
    assert s.enables == [seq(32, _ => 0)];
    assert t.enables[0] == seq(32, w => if w == 0 then 2 else 0);
    assert t.enables == OneSource(false, false, false).enables;
    assert t.pending == [false, false] && t.busy == [false, false] && t.threshold == [0] && t.irqs == [false];
  }

  lemma NothingPending(s: State)
    requires Shape(s) && s.irqs == [false] && s.pending == [false, false]
    ensures Notify(s) == s
  {
    hide Enabled;
    assert !Candidate(s, 0, 1);
    assert Notify(s).irqs == [false];
  }

  lemma OnlySourceOne(s: State)
    requires s.Sources() == 1
    ensures Implemented(s, 0) == 2 && And(2, 2) == 2
  {
    var b := seq(32, k requires 0 <= k < 32 => 0 < 0 * 32 + k <= s.Sources());
    assert Implemented(s, 0) == FromBools(b);
    forall k: nat ensures Bit(FromBools(b), k) == Bit(2, k) {
      FromBoolsBit(b, k);
      assert Shl(1, 1) == 2;
      ShlBit(1, 1, k);
      if k >= 1 { OneBit(k - 1); }
    }
    Extensional(FromBools(b), 2);
    assert And(1, 1) == 1;
  }

  /** A claim takes the winner away from every context. */
  lemma ClaimIsExclusive(s: State, offset: nat, c: nat)
    requires Shape(s) && offset % 4 == 0 && AtClaim(s, offset) && c < s.Contexts()
    requires ReadValue(s, offset) > 0
    ensures Best(Step(s, ReadOp(offset)), c) != ReadValue(s, offset)
  {
    var id := ReadValue(s, offset);
    var r := Step(s, ReadOp(offset));
    assert !r.pending[id];
    assert !Candidate(r, c, id);
  }

  /** Settling under unchanged inputs is idempotent: a gateway forwards a level once. */
  lemma SettleIdempotent(s: State, inputs: seq<bool>)
    requires Shape(s)
    ensures Settle(Settle(s, inputs), inputs) == Settle(s, inputs)
  {
    hide Enabled;
    var r := Settle(s, inputs);
    assert Gateways(r, inputs).pending == r.pending && Gateways(r, inputs).busy == r.busy;
    assert Gateways(r, inputs) == r;
    NotifyExact(Gateways(s, inputs));
    assert Notify(r).irqs == r.irqs;
  }

  /** Every set enable bit belongs to a source that exists. */
  ghost predicate EnablesMasked(s: State)
    requires Shape(s)
  {
    forall c, w, k: nat | 0 <= c < s.Contexts() && 0 <= w < 32 && Bit(s.enables[c][w], k) ::
      k < 32 && 0 < w * 32 + k <= s.Sources()
  }

  lemma StepMasked(s: State, op: Op)
    requires Shape(s) && OpOk(op) && EnablesMasked(s)
    ensures EnablesMasked(Step(s, op))
  {
    hide Best, Interrupts, Enabled, Bit;
    if op.WriteOp? && InEnables(s, op.offset) && !(0 < op.offset < 0x1000) {
      var word := op.offset % 0x80 / 4;
      forall k: nat | Bit(And(op.value, Implemented(s, word)), k) ensures k < 32 && 0 < word * 32 + k <= s.Sources() {
        AndBit(op.value, Implemented(s, word), k);
        FromBoolsBit(seq(32, k requires 0 <= k < 32 => 0 < word * 32 + k <= s.Sources()), k);
      }
    }
  }

  lemma {:induction false} MaskedKept(s: State, ops: seq<Op>)
    requires Shape(s) && RunOk(ops) && EnablesMasked(s)
    ensures EnablesMasked(Run(s, ops))
    decreases |ops|
  {
    if ops != [] {
      StepMasked(s, ops[0]);
      MaskedKept(Step(s, ops[0]), ops[1..]);
    }
  }

  /** After any run from reset, no context has enabled source 0 or a source past the last. */
  lemma RunMasked(sources: nat, contexts: nat, ops: seq<Op>, c: nat, word: nat, k: nat)
    requires 1 <= sources <= 1023 && 1 <= contexts <= 64 && RunOk(ops) && c < contexts && word < 32
    requires Bit(Run(Initial(sources, contexts), ops).enables[c][word], k)
    ensures k < 32 && 0 < word * 32 + k <= sources
  {
    hide Step;
    var s := Initial(sources, contexts);
    forall k: nat ensures !Bit(0, k) { ZeroBit(k); }
    assert EnablesMasked(s);
    MaskedKept(s, ops);
  }
}
