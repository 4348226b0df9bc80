/**
  The register map of the interrupt controller: what a write to each offset does
  to the state, bit by bit, and what a read of each offset returns.
 */
module PlicRegisters {
  import opened Bits
  import opened Plic

  /** The registers by what they hold. */
  datatype Register =
    | PriorityOf(source: nat)
    | PendingBits(word: nat)
    | EnableBits(context: nat, word: nat)
    | ThresholdOf(context: nat)
    | ClaimOf(context: nat)

  /** The registers a controller of that many sources and contexts has. */
  predicate Exists(r: Register, sources: int, contexts: nat) {
    match r
    case PriorityOf(source) => source <= sources
    case PendingBits(word) => word < 32
    case EnableBits(context, word) => context < contexts && word < 32
    case ThresholdOf(context) => context < contexts
    case ClaimOf(context) => context < contexts
  }

  function OffsetOf(r: Register): nat {
    match r
    case PriorityOf(source) => 4 * source
    case PendingBits(word) => 0x1000 + 4 * word
    case EnableBits(context, word) => 0x2000 + 0x80 * context + 4 * word
    case ThresholdOf(context) => 0x20_0000 + 0x1000 * context
    case ClaimOf(context) => 0x20_0004 + 0x1000 * context
  }

  /** No two registers share an offset. */
  lemma OffsetsDiffer(a: Register, b: Register, sources: nat, contexts: nat)
    requires sources <= 1023 && contexts <= 64 && Exists(a, sources, contexts) && Exists(b, sources, contexts)
    requires OffsetOf(a) == OffsetOf(b)
    ensures a == b
  {}

  // ---- writing ---------------------------------------------------------------------------

  /** Input i is high. */
  predicate High(inputs: seq<bool>, i: nat) { 1 <= i < |inputs| && inputs[i] }

  /** A write of v to register a closes the request of source i. */
  predicate Closes(s: State, a: Register, v: u32, i: nat)
    requires Shape(s) && 1 <= i <= s.Sources()
  {
    a.ClaimOf? && a.context < s.Contexts() && v == i && Bit(s.enables[a.context][i / 32], i % 32)
  }

  /** What priorities, thresholds and enables are after v was written to register a. */
  ghost predicate Stored(s: State, t: State, a: Register, v: u32)
    requires Shape(s) && Shape(t) && t.Sources() == s.Sources() && t.Contexts() == s.Contexts()
    requires Exists(a, s.Sources(), s.Contexts())
  {
    && (forall i | 0 <= i <= s.Sources() ::
          t.priority[i] == if a == PriorityOf(i) && i > 0 then v % 8 else s.priority[i])
    && (forall c | 0 <= c < s.Contexts() :: t.threshold[c] == if a == ThresholdOf(c) then v % 8 else s.threshold[c])
    && (forall c, w | 0 <= c < s.Contexts() && 0 <= w < 32 && a != EnableBits(c, w) ::
          t.enables[c][w] == s.enables[c][w])
    && (a.EnableBits? ==>
          forall k: nat | k < 32 ::
            Bit(t.enables[a.context][a.word], k) <==> Bit(v, k) && 1 <= 32 * a.word + k <= s.Sources())
  }

  /** What the gateways are after it, the inputs being as given. */
  ghost predicate Gated(s: State, t: State, a: Register, v: u32, inputs: seq<bool>)
    requires Shape(s) && Shape(t) && t.Sources() == s.Sources() && t.Contexts() == s.Contexts()
  {
    forall i | 1 <= i <= s.Sources() ::
      && (t.busy[i] <==> (s.busy[i] && !Closes(s, a, v, i)) || High(inputs, i))
      && (t.pending[i] <==> s.pending[i] || (High(inputs, i) && !(s.busy[i] && !Closes(s, a, v, i))))
  }

  lemma EnableWordBits(s: State, word: nat, v: u32, k: nat)
    requires k < 32 && word < 32
    ensures Bit(And(v, Implemented(s, word)), k) <==> Bit(v, k) && 1 <= 32 * word + k <= s.Sources()
  {
    hide And, Bit;
    AndBit(v, Implemented(s, word), k);
    FromBoolsBit(seq(32, k requires 0 <= k < 32 => 0 < word * 32 + k <= s.Sources()), k);
  }

  lemma RowStored(s: State, a: Register, v: u32)
    requires Shape(s) && Exists(a, s.Sources(), s.Contexts()) && a.EnableBits?
    ensures var t := AfterWrite(s, OffsetOf(a), v); Shape(t) && Stored(s, t, a, v) && t == s.(enables := t.enables)
  {
    hide And, Bit, Implemented;
    var o := OffsetOf(a);
    assert InEnables(s, o) && (o - ENABLES) / 0x80 == a.context && o % 0x80 / 4 == a.word;
    forall k: nat | k < 32
      ensures Bit(And(v, Implemented(s, a.word)), k) <==> Bit(v, k) && 1 <= 32 * a.word + k <= s.Sources()
    {
      EnableWordBits(s, a.word, v, k);
    }
  }

  lemma CellStored(s: State, a: Register, v: u32)
    requires Shape(s) && Exists(a, s.Sources(), s.Contexts()) && !a.EnableBits?
    ensures var t := AfterWrite(s, OffsetOf(a), v);
            && Shape(t) && Stored(s, t, a, v) && t.pending == s.pending && t.irqs == s.irqs
            && |t.busy| == |s.busy|
            && forall i | 1 <= i <= s.Sources() :: t.busy[i] <==> s.busy[i] && !Closes(s, a, v, i)
  {
    hide And, Bit, Implemented;
    var o := OffsetOf(a);
    match a
    case PriorityOf(_) =>
    case PendingBits(_) =>
    case ThresholdOf(c) => assert !InEnables(s, o) && ContextAt(o) == c && o % 0x1000 == 0;
    case ClaimOf(c) => assert !InEnables(s, o) && ContextAt(o) == c && o % 0x1000 == 4;
  }

  /** Settling changes only gateways and lines. */
  lemma SettledFields(t: State, inputs: seq<bool>)
    requires Shape(t)
    ensures var r := Settle(t, inputs);
            && Shape(r) && r == t.(pending := r.pending, busy := r.busy, irqs := r.irqs) && r.Contexts() == t.Contexts()
            && forall i | 1 <= i <= t.Sources() ::
                 && (r.busy[i] <==> t.busy[i] || High(inputs, i))
                 && (r.pending[i] <==> t.pending[i] || (High(inputs, i) && !t.busy[i]))
  {
    hide Interrupts;
  }

  lemma SameStored(s: State, t: State, r: State, a: Register, v: u32)
    requires Shape(s) && Shape(t) && Shape(r) && Exists(a, s.Sources(), s.Contexts())
    requires t.Sources() == s.Sources() && t.Contexts() == s.Contexts() == r.Contexts() && Stored(s, t, a, v)
    requires r.priority == t.priority && r.threshold == t.threshold && r.enables == t.enables
    ensures Stored(s, r, a, v)
  {
    hide Bit;
  }

  /** The write itself, before the gateways look at the inputs. */
  lemma WriteStores(s: State, a: Register, v: u32)
    requires Shape(s) && Exists(a, s.Sources(), s.Contexts())
    ensures var t := AfterWrite(s, OffsetOf(a), v);
            && Shape(t) && t.Sources() == s.Sources() && t.Contexts() == s.Contexts() && Stored(s, t, a, v)
            && t.pending == s.pending
            && forall i | 1 <= i <= s.Sources() :: t.busy[i] <==> s.busy[i] && !Closes(s, a, v, i)
  {
    hide AfterWrite, Bit, Stored, Closes;
    if a.EnableBits? {
      RowStored(s, a, v);
      forall i | 1 <= i <= s.Sources() ensures !Closes(s, a, v, i) { NeverCloses(s, a, v, i); }
    } else {
      CellStored(s, a, v);
    }
  }

  lemma GatedFrom(s: State, t: State, a: Register, v: u32, inputs: seq<bool>)
    requires Shape(s) && Shape(t) && t.Sources() == s.Sources() && t.Contexts() == s.Contexts()
    requires t.pending == s.pending
    requires forall i | 1 <= i <= s.Sources() :: t.busy[i] <==> s.busy[i] && !Closes(s, a, v, i)
    ensures var r := Settle(t, inputs);
            Shape(r) && r.Sources() == s.Sources() && r.Contexts() == s.Contexts() && Gated(s, r, a, v, inputs)
  {
    hide Settle, Closes, Bit;
    SettledFields(t, inputs);
  }

  lemma NeverCloses(s: State, a: Register, v: u32, i: nat)
    requires Shape(s) && 1 <= i <= s.Sources() && !a.ClaimOf?
    ensures !Closes(s, a, v, i)
  {}

  /**
    Every write, to every register: priorities and thresholds take the low three
    bits, an enable bit follows the written bit if its source exists, a completion
    opens the gateway of an enabled source, no other register changes, and the
    gateways then forward the inputs.
   */
  lemma WriteMap(s: State, a: Register, v: u32, inputs: seq<bool>)
    requires Shape(s) && Exists(a, s.Sources(), s.Contexts())
    ensures OffsetOf(a) % 4 == 0
    ensures var t := Step(s, WriteOp(OffsetOf(a), v, inputs)); Stored(s, t, a, v) && Gated(s, t, a, v, inputs)
  {
    hide AfterWrite, Settle, Bit, Stored, Gated;
    var t := AfterWrite(s, OffsetOf(a), v);
    WriteStores(s, a, v);
    SettledFields(t, inputs);
    SameStored(s, t, Settle(t, inputs), a, v);
    GatedFrom(s, t, a, v, inputs);
  }

  /** Aligned offsets at which there is no register. */
  ghost predicate Vacant(s: State, offset: nat) {
    offset % 4 == 0 && forall a :: Exists(a, s.Sources(), s.Contexts()) ==> OffsetOf(a) != offset
  }

  lemma SomeRegister(s: State, offset: nat)
    requires Shape(s) && offset % 4 == 0
    requires || offset / 4 <= s.Sources() || 0x1000 <= offset < 0x1080 || InEnables(s, offset)
             || (InContexts(s, offset) && (offset % 0x1000 == 0 || offset % 0x1000 == 4))
    ensures !Vacant(s, offset)
  {
    var a := if offset / 4 <= s.Sources() then PriorityOf(offset / 4)
             else if 0x1000 <= offset < 0x1080 then PendingBits((offset - 0x1000) / 4)
             else if InEnables(s, offset) then EnableBits((offset - ENABLES) / 0x80, offset % 0x80 / 4)
             else if offset % 0x1000 == 0 then ThresholdOf(ContextAt(offset)) else ClaimOf(ContextAt(offset));
    assert Exists(a, s.Sources(), s.Contexts()) && OffsetOf(a) == offset;
  }

  lemma VacantIs(s: State, offset: nat)
    requires Shape(s) && Vacant(s, offset)
    ensures !(offset / 4 <= s.Sources()) && !(0x1000 <= offset < 0x1080) && !InEnables(s, offset)
    ensures InContexts(s, offset) ==> offset % 0x1000 != 0 && offset % 0x1000 != 4
  {
    hide Vacant;
    assert offset % 4 == 0 by { VacantAligned(s, offset); }
    if || offset / 4 <= s.Sources() || 0x1000 <= offset < 0x1080 || InEnables(s, offset)
       || (InContexts(s, offset) && (offset % 0x1000 == 0 || offset % 0x1000 == 4)) {
      SomeRegister(s, offset);
    }
  }

  lemma VacantAligned(s: State, offset: nat)
    requires Vacant(s, offset)
    ensures offset % 4 == 0
  {}

  /** Where there is no register a write only settles and a read gives 0. */
  lemma VacantMap(s: State, offset: nat, v: u32, inputs: seq<bool>)
    requires Shape(s) && Vacant(s, offset)
    ensures Step(s, WriteOp(offset, v, inputs)) == Step(s, SettleOp(inputs))
    ensures ReadValue(s, offset) == 0 && Step(s, ReadOp(offset)) == s
  {
    hide Settle;
    VacantIs(s, offset);
  }

  // ---- reading -----------------------------------------------------------------------------

  /** The value of register a, and what reading it does: only a claim has an effect. */
  ghost predicate ReadsAs(s: State, t: State, a: Register, v: nat)
    requires Shape(s) && Shape(t) && t.Sources() == s.Sources() && t.Contexts() == s.Contexts()
    requires Exists(a, s.Sources(), s.Contexts())
  {
    && (match a
        case PriorityOf(i) => v == s.priority[i]
        case PendingBits(w) =>
          v < TWO32 && forall k: nat | k < 32 :: Bit(v, k) <==> 32 * w + k <= s.Sources() && s.pending[32 * w + k]
        case EnableBits(c, w) => v == s.enables[c][w]
        case ThresholdOf(c) => v == s.threshold[c]
        case ClaimOf(c) => Wins(s, c, v))
    && (!a.ClaimOf? ==> t == s)
    && (a.ClaimOf? ==>
          && t == s.(pending := t.pending, irqs := t.irqs)
          && forall i | 0 <= i <= s.Sources() :: t.pending[i] <==> s.pending[i] && !(i == v && v > 0))
  }

  lemma PendingWordBits(s: State, w: nat, k: nat)
    requires Shape(s) && k < 32
    ensures PendingWord(s, 32 * w) < TWO32
    ensures Bit(PendingWord(s, 32 * w), k) <==> 32 * w + k <= s.Sources() && s.pending[32 * w + k]
  {
    hide Bit;
    var b := seq(32, k requires 0 <= k < 32 => 32 * w + k <= s.Sources() && s.pending[32 * w + k]);
    FromBoolsBit(b, k);
    FromBoolsBelow(b);
    Powers();
  }

  lemma ReadMap(s: State, a: Register)
    requires Shape(s) && Exists(a, s.Sources(), s.Contexts())
    ensures OffsetOf(a) % 4 == 0 && ReadsAs(s, Step(s, ReadOp(OffsetOf(a))), a, ReadValue(s, OffsetOf(a)))
  {
    hide ReadsAs, ReadValue, AfterRead;
    match a
    case PriorityOf(_) => PriorityRead(s, a);
    case PendingBits(_) => PendingRead(s, a);
    case EnableBits(_, _) => EnableRead(s, a);
    case ThresholdOf(_) => ThresholdRead(s, a);
    case ClaimOf(_) => ClaimRead(s, a);
  }

  lemma PriorityRead(s: State, a: Register)
    requires Shape(s) && Exists(a, s.Sources(), s.Contexts()) && a.PriorityOf?
    ensures ReadsAs(s, AfterRead(s, OffsetOf(a)), a, ReadValue(s, OffsetOf(a)))
  {
    hide Bit, Interrupts, Best, PendingWord;
  }

  lemma PendingRead(s: State, a: Register)
    requires Shape(s) && Exists(a, s.Sources(), s.Contexts()) && a.PendingBits?
    ensures ReadsAs(s, AfterRead(s, OffsetOf(a)), a, ReadValue(s, OffsetOf(a)))
  {
    hide Bit, Interrupts, Best, PendingWord;
    var o, w := OffsetOf(a), a.word;
    assert (o - 0x1000) / 4 * 32 == 32 * w;
    PendingWordBits(s, w, 0);
    forall k: nat | k < 32
      ensures Bit(PendingWord(s, 32 * w), k) <==> 32 * w + k <= s.Sources() && s.pending[32 * w + k]
    {
      PendingWordBits(s, w, k);
    }
  }

  lemma EnableRead(s: State, a: Register)
    requires Shape(s) && Exists(a, s.Sources(), s.Contexts()) && a.EnableBits?
    ensures ReadsAs(s, AfterRead(s, OffsetOf(a)), a, ReadValue(s, OffsetOf(a)))
  {
    hide Bit, Interrupts, Best, PendingWord;
    var o := OffsetOf(a);
    assert InEnables(s, o) && (o - ENABLES) / 0x80 == a.context && o % 0x80 / 4 == a.word;
  }

  lemma ThresholdRead(s: State, a: Register)
    requires Shape(s) && Exists(a, s.Sources(), s.Contexts()) && a.ThresholdOf?
    ensures ReadsAs(s, AfterRead(s, OffsetOf(a)), a, ReadValue(s, OffsetOf(a)))
  {
    hide Bit, Interrupts, Best, PendingWord;
    var o := OffsetOf(a);
    assert !InEnables(s, o) && ContextAt(o) == a.context && o % 0x1000 == 0;
  }

  lemma ClaimRead(s: State, a: Register)
    requires Shape(s) && Exists(a, s.Sources(), s.Contexts()) && a.ClaimOf?
    ensures ReadsAs(s, AfterRead(s, OffsetOf(a)), a, ReadValue(s, OffsetOf(a)))
  {
    hide Bit, Interrupts, PendingWord, Scan, Wins;
    var o := OffsetOf(a);
    assert !InEnables(s, o) && ContextAt(o) == a.context && o % 0x1000 == 4;
  }

  /** What was written is read back: the low three bits of a priority or threshold,
      and of an enable word the bits of the sources that exist. */
  lemma WriteThenRead(s: State, a: Register, v: u32, inputs: seq<bool>)
    requires Shape(s) && Exists(a, s.Sources(), s.Contexts())
    ensures var t := Step(s, WriteOp(OffsetOf(a), v, inputs));
            var back := ReadValue(t, OffsetOf(a));
            && (a.ThresholdOf? || (a.PriorityOf? && a.source > 0) ==> back == v % 8)
            && (a.EnableBits? ==>
                  forall k: nat | k < 32 :: Bit(back, k) <==> Bit(v, k) && 1 <= 32 * a.word + k <= s.Sources())
  {
    hide Step, ReadValue, Bit, Wins;
    WriteMap(s, a, v, inputs);
    ReadMap(Step(s, WriteOp(OffsetOf(a), v, inputs)), a);
  }
}
