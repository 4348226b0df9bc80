/** The interrupt controller as the source runs it: registers updated in place. */
module PlicClass {
  import opened Axi
  import opened Bits
  import opened Plic
  import opened Bytes

  /** One bus access: an aligned word of 4 or 8 bytes, or nothing at all (size 0). */
  datatype Access = Access(address: nat, lane: nat, size: nat)

  /** The active lanes are exactly [lane, lane + size). */
  ghost predicate OneRun(lanes: seq<bool>, lane: nat, size: nat) {
    lane + size <= |lanes| && forall i | 0 <= i < |lanes| :: lanes[i] <==> lane <= i < lane + size
  }

  ghost predicate Legal(offset: nat, lanes: seq<bool>, a: Access) {
    && OneRun(lanes, a.lane, a.size) && a.size in {4, 8}
    && a.address == offset + a.lane < TWO64 && a.address % a.size == 0
  }

  ghost predicate Inactive(lanes: seq<bool>) {
    forall i | 0 <= i < |lanes| :: !lanes[i]
  }

  /** `access`: decodes exactly the legal accesses. */
  method Decode(offset: u64, lanes: seq<bool>) returns (r: Option<Access>)
    ensures Inactive(lanes) <==> r == Some(Access(offset, 0, 0))
    ensures !Inactive(lanes) && r.Some? ==> Legal(offset, lanes, r.value)
    ensures r.None? ==> forall a: Access :: !Legal(offset, lanes, a)
  {
    var start := 0;
    while start < |lanes| && !lanes[start]
      invariant start <= |lanes|
      invariant forall i | 0 <= i < start :: !lanes[i]
    {
      start := start + 1;
    }
    if start == |lanes| {
      return Some(Access(offset, 0, 0));
    }
    var end := |lanes|;
    while !lanes[end - 1]
      invariant start < end <= |lanes|
      invariant forall i | end <= i < |lanes| :: !lanes[i]
      decreases end
    {
      end := end - 1;
    }
    var size := end - start;
    if (size != 4 && size != 8) || offset > TWO64 - 1 - start || (offset + start) % size != 0 {
      forall a: Access | OneRun(lanes, a.lane, a.size) ensures !Legal(offset, lanes, a) {
        RunBounds(lanes, a.lane, a.size, start, end);
      }
      return None;
    }
    var i := start;
    while i < end
      invariant start <= i <= end
      invariant forall j | start <= j < i :: lanes[j]
    {
      if !lanes[i] {
        forall a: Access ensures !Legal(offset, lanes, a) {
          HoleInRun(lanes, a.lane, a.size, start, i, end);
        }
        return None;
      }
      i := i + 1;
    }
    r := Some(Access(offset + start, start, size));
  }

  lemma HoleInRun(lanes: seq<bool>, lane: nat, size: nat, start: nat, hole: nat, end: nat)
    requires start <= hole < end <= |lanes| && lanes[start] && !lanes[hole] && lanes[end - 1]
    ensures !OneRun(lanes, lane, size)
  {}

  lemma RunBounds(lanes: seq<bool>, lane: nat, size: nat, start: nat, end: nat)
    requires OneRun(lanes, lane, size) && start < end <= |lanes| && lanes[start] && lanes[end - 1]
    requires forall i | 0 <= i < start :: !lanes[i]
    requires forall i | end <= i < |lanes| :: !lanes[i]
    ensures lane == start && size == end - start
    ensures forall i | start <= i < end :: lanes[i]
  {
    assert lane <= start < lane + size && lanes[lane];
    assert lanes[lane + size - 1];
  }

  /** A legal 32-bit access inside the device. */
  ghost predicate Reaches(offset: nat, lanes: seq<bool>, a: Access) {
    Legal(offset, lanes, a) && a.size == 4 && a.address < SPAN
  }

  /** No active lane, at an offset inside the device. */
  ghost predicate Quiet(offset: nat, lanes: seq<bool>) {
    Inactive(lanes) && offset < SPAN
  }

  /** Which register a bus access reaches: None is refused, size 0 reaches nothing. */
  method Target(offset: u64, lanes: seq<bool>) returns (r: Option<Access>)
    ensures r.None? ==> !Quiet(offset, lanes) && forall a :: !Reaches(offset, lanes, a)
    ensures r.Some? && r.value.size == 0 ==> Quiet(offset, lanes) && forall a :: !Reaches(offset, lanes, a)
    ensures r.Some? && r.value.size != 0 ==>
              && !Inactive(lanes) && Reaches(offset, lanes, r.value) && r.value.address % 4 == 0
              && OneRun(lanes, r.value.lane, 4)
              && forall a :: Reaches(offset, lanes, a) ==> a == r.value
  {
    r := Decode(offset, lanes);
    forall a, b | Legal(offset, lanes, a) && Legal(offset, lanes, b) ensures a == b && !Inactive(lanes) {
      LegalUnique(offset, lanes, a, b);
    }
    assert forall a | Legal(offset, lanes, a) :: !Inactive(lanes);
    if r.None? || r.value.size == 8 || r.value.address >= SPAN {
      return None;
    }
  }

  lemma Nothing(offset: nat, lanes: seq<bool>)
    requires lanes == []
    ensures forall a :: !Reaches(offset, lanes, a)
  {}

  lemma LegalUnique(offset: nat, lanes: seq<bool>, a: Access, b: Access)
    requires Legal(offset, lanes, a) && Legal(offset, lanes, b)
    ensures a == b && !Inactive(lanes)
  {
    assert lanes[a.lane] && lanes[b.lane] && lanes[a.lane + a.size - 1] && lanes[b.lane + b.size - 1];
  }

  /** `get`: the little-endian number on the active lanes. */
  method Get(data: seq<byte>, lane: nat, size: nat) returns (value: nat)
    requires lane + size <= |data| && size <= 8
    ensures value == LittleEndian(data[lane..lane + size])
  {
    value := 0;
    var i := 0;
    while i < size
      invariant 0 <= i <= size
      invariant value == LittleEndian(data[lane..lane + i])
    {
      AppendByte(data[lane..lane + i], data[lane + i]);
      assert data[lane..lane + i] + [data[lane + i]] == data[lane..lane + i + 1];
      value := Or(value, Shl(data[lane + i], i * 8));
      i := i + 1;
    }
  }

  /** `put`: byte i of the value on active lane i. */
  method Put(data: seq<byte>, lane: nat, size: nat, value: nat) returns (r: seq<byte>)
    requires lane + size <= |data| && size <= 8
    ensures |r| == |data|
    ensures forall i | 0 <= i < |data| ::
              r[i] == if lane <= i < lane + size then Low(Shr(value, (i - lane) * 8), 8) else data[i]
  {
    hide And, Low, Shr;
    r := data;
    var i := 0;
    while i < size
      invariant 0 <= i <= size && |r| == |data|
      invariant forall k | 0 <= k < |data| ::
                  r[k] == if lane <= k < lane + i then Low(Shr(value, (k - lane) * 8), 8) else data[k]
    {
      LowByte(Shr(value, i * 8));
      r := r[lane + i := And(Shr(value, i * 8), 255)];
      i := i + 1;
    }
  }

  lemma LowByte(x: nat)
    ensures And(x, 255) == Low(x, 8) < 256
  {
    Powers();
    LowIsMod(x, 8);
    MaskIsLow(x, 8);
  }

  class PlicDevice {
    const sources: nat
    const contexts: nat
    var priority: seq<nat>
    var pending: seq<bool>
    var busy: seq<bool>
    var enables: seq<seq<u32>>
    var threshold: seq<nat>
    var irqs: seq<bool>

    function S(): State
      reads this
    {
      State(priority, pending, busy, enables, threshold, irqs)
    }

    ghost predicate Valid()
      reads this
    {
      Shape(S()) && S().Sources() == sources && S().Contexts() == contexts
    }

    constructor (sources: nat, contexts: nat)
      requires 1 <= sources <= 1023 && 1 <= contexts <= 64
      ensures Valid() && S() == Initial(sources, contexts)
      ensures this.sources == sources && this.contexts == contexts
    {
      this.sources, this.contexts := sources, contexts;
      priority := seq(sources + 1, _ => 0);
      pending := seq(sources + 1, _ => false);
      busy := seq(sources + 1, _ => false);
      enables := seq(contexts, _ => seq(32, _ => 0));
      threshold := seq(contexts, _ => 0);
      irqs := seq(contexts, _ => false);
    }

    method Reset()
      requires Valid()
      modifies this
      ensures Valid() && S() == Initial(sources, contexts)
    {
      priority := seq(sources + 1, _ => 0);
      threshold := seq(contexts, _ => 0);
      pending := seq(sources + 1, _ => false);
      busy := seq(sources + 1, _ => false);
      enables := seq(contexts, _ => seq(32, _ => 0));
      irqs := seq(contexts, _ => false);
    }

    method IsEnabled(context: nat, source: nat) returns (r: bool)
      requires Valid() && context < contexts && source <= sources
      ensures r == Enabled(S(), context, source)
    {
      MaskTest(enables[context][source / 32], source % 32);
      r := And(enables[context][source / 32], Shl(1, source % 32)) != 0;
    }

    method FindBest(context: nat) returns (selected: nat)
      requires Valid() && context < contexts
      ensures selected == Best(S(), context)
      ensures Wins(S(), context, selected)
    {
      selected := 0;
      var i := 1;
      while i <= sources
        invariant 1 <= i <= sources + 1
        invariant selected == Scan(S(), context, i - 1)
      {
        var enabled := IsEnabled(context, i);
        if pending[i] && enabled && priority[i] > priority[selected] {
          selected := i;
        }
        i := i + 1;
      }
    }

    method NotifyContexts()
      requires Valid()
      modifies this`irqs
      ensures Valid() && S() == Notify(old(S()))
    {
      ghost var s := S();
      var c := 0;
      while c < contexts
        invariant 0 <= c <= contexts && Valid()
        invariant S() == s.(irqs := irqs)
        invariant forall k | 0 <= k < c :: irqs[k] == Interrupts(s, k)
      {
        var best := FindBest(c);
        SameArbitration(s, S(), c, sources);
        irqs := irqs[c := priority[best] > threshold[c]];
        c := c + 1;
      }
      assert irqs == Notify(s).irqs;
    }

    method SettleInputs(inputs: seq<bool>)
      requires Valid() && |inputs| == sources + 1
      modifies this`pending, this`busy, this`irqs
      ensures Valid() && S() == Settle(old(S()), inputs)
    {
      ghost var s := S();
      var i := 1;
      while i <= sources
        invariant 1 <= i <= sources + 1 && Valid()
        invariant S() == s.(pending := pending, busy := busy)
        invariant forall k | 0 <= k <= sources ::
                    && pending[k] == (s.pending[k] || (k < i && Raises(s, inputs, k)))
                    && busy[k] == (s.busy[k] || (k < i && Raises(s, inputs, k)))
      {
        if inputs[i] && !busy[i] {
          pending, busy := pending[i := true], busy[i := true];
        }
        i := i + 1;
      }
      assert pending == Gateways(s, inputs).pending && busy == Gateways(s, inputs).busy;
      NotifyContexts();
    }

    method ReadPending(base: nat) returns (value: nat)
      requires Valid()
      ensures value == PendingWord(S(), base)
    {
      ghost var s := S();
      ghost var b := seq(32, k requires 0 <= k < 32 => base + k <= s.Sources() && s.pending[base + k]);
      value := 0;
      var bit := 0;
      assert FromBools(b[..0]) == 0;
      while bit < 32 && base + bit <= sources
        invariant 0 <= bit <= 32
        invariant value == FromBools(b[..bit])
      {
        SetNext(b, bit);
        if pending[base + bit] {
          value := Or(value, Shl(1, bit));
        }
        bit := bit + 1;
      }
      RestClear(b, bit);
      assert value == PendingWord(s, base);
    }

    method ReadRegister(offset: nat) returns (value: nat)
      requires Valid() && offset % 4 == 0
      modifies this`pending, this`irqs
      ensures Valid() && S() == Step(old(S()), ReadOp(offset))
      ensures value == ReadValue(old(S()), offset)
    {
      if offset < 0x1000 {
        if offset / 4 <= sources { return priority[offset / 4]; } else { return 0; }
      }
      if offset < 0x1080 {
        value := ReadPending((offset - 0x1000) / 4 * 32);
        return;
      }
      if offset >= ENABLES && offset < ENABLES + contexts * 0x80 {
        return enables[(offset - ENABLES) / 0x80][offset % 0x80 / 4];
      }
      if offset >= CONTEXTS && offset < CONTEXTS + contexts * 0x1000 {
        var c := (offset - CONTEXTS) / 0x1000;
        if offset % 0x1000 == 0 {
          return threshold[c];
        }
        if offset % 0x1000 == 4 {
          value := FindBest(c);
          if value != 0 {
            pending := pending[value := false];
          }
          NotifyContexts();
          return;
        }
      }
      value := 0;
    }

    method EnableMask(word: nat) returns (mask: nat)
      requires Valid()
      ensures mask == Implemented(S(), word)
    {
      ghost var b := seq(32, k requires 0 <= k < 32 => 0 < word * 32 + k <= sources);
      mask := 0;
      var bit := 0;
      while bit < 32
        invariant 0 <= bit <= 32
        invariant mask == FromBools(b[..bit])
      {
        SetNext(b, bit);
        var id := word * 32 + bit;
        if id != 0 && id <= sources {
          mask := Or(mask, Shl(1, bit));
        }
        bit := bit + 1;
      }
      assert b[..32] == b;
    }

    method WriteRegister(offset: nat, value: u32, inputs: seq<bool>)
      requires Valid() && offset % 4 == 0 && |inputs| == sources + 1
      modifies this
      ensures Valid() && S() == Step(old(S()), WriteOp(offset, value, inputs))
    {
      hide Enabled, Implemented, FromBools, Gateways;
      ghost var s := S();
      if offset > 0 && offset < 0x1000 && offset / 4 <= sources {
        priority := priority[offset / 4 := value % 8];
      } else if offset >= ENABLES && offset < ENABLES + contexts * 0x80 {
        var c, word := (offset - ENABLES) / 0x80, offset % 0x80 / 4;
        var mask := EnableMask(word);
        var row: seq<u32> := enables[c][word := And(value, mask)];
        enables := enables[c := row];
      } else if offset >= CONTEXTS && offset < CONTEXTS + contexts * 0x1000 {
        var c := (offset - CONTEXTS) / 0x1000;
        if offset % 0x1000 == 0 {
          threshold := threshold[c := value % 8];
        } else if offset % 0x1000 == 4 && value != 0 && value <= sources {
          var enabled := IsEnabled(c, value);
          if enabled {
            busy := busy[value := false];
          }
        }
      }
      assert S() == AfterWrite(s, offset, value);
      SettleInputs(inputs);
    }

    /** A bus read reaches a register exactly when it is one legal 32-bit word inside the device. */
    method Read(offset: u64, lanes: seq<bool>) returns (r: Response, data: seq<byte>)
      requires Valid()
      modifies this
      ensures Valid() && |data| == |lanes|
      ensures r.Okay? || r.SlaveError?
      ensures r.Okay? <==> lanes == [] || Quiet(offset, lanes) || exists a :: Reaches(offset, lanes, a)
      ensures forall a | Reaches(offset, lanes, a) ::
                && S() == Step(old(S()), ReadOp(a.address))
                && forall i | 0 <= i < |data| ::
                     data[i] == if lanes[i] then Low(Shr(ReadValue(old(S()), a.address), (i - a.lane) * 8), 8) else 0
      ensures (forall a :: !Reaches(offset, lanes, a)) ==>
                S() == old(S()) && forall i | 0 <= i < |data| :: data[i] == 0
    {
      data := seq(|lanes|, _ => 0);
      hide Legal, Step, ReadValue, Low, Shr;
      if |lanes| == 0 { Nothing(offset, lanes); return Okay, data; }
      var target := Target(offset, lanes);
      if target.None? {
        return SlaveError, data;
      }
      var a := target.value;
      if a.size != 0 {
        var value := ReadRegister(a.address);
        data := Put(data, a.lane, a.size, value);
      }
      r := Okay;
    }

    method Write(offset: u64, data: seq<byte>, lanes: seq<bool>, inputs: seq<bool>) returns (r: Response)
      requires Valid() && |data| == |lanes| && |inputs| == sources + 1
      modifies this
      ensures Valid()
      ensures r.Okay? || r.SlaveError?
      ensures r.Okay? <==> lanes == [] || Quiet(offset, lanes) || exists a :: Reaches(offset, lanes, a)
      ensures forall a | Reaches(offset, lanes, a) ::
                var value := LittleEndian(data[a.lane..a.lane + 4]);
                value < TWO32 && S() == Step(old(S()), WriteOp(a.address, value, inputs))
      ensures (forall a :: !Reaches(offset, lanes, a)) ==> S() == old(S())
    {
      hide Legal, Step, LittleEndian;
      if |lanes| == 0 { Nothing(offset, lanes); return Okay; }
      var target := Target(offset, lanes);
      if target.None? {
        return SlaveError;
      }
      var a := target.value;
      if a.size != 0 {
        var value := Get(data, a.lane, a.size);
        NumberBelow(data[a.lane..a.lane + 4]);
        Powers();
        WriteRegister(a.address, value, inputs);
      }
      r := Okay;
    }
  }

  lemma {:induction false} SetNext(b: seq<bool>, n: nat)
    requires n < |b|
    ensures FromBools(b[..n + 1]) == if b[n] then Or(FromBools(b[..n]), Shl(1, n)) else FromBools(b[..n])
  {
    var before, after := FromBools(b[..n]), FromBools(b[..n + 1]);
    var next := if b[n] then Or(before, Shl(1, n)) else before;
    forall i: nat ensures Bit(after, i) == Bit(next, i) {
      FromBoolsBit(b[..n], i);
      FromBoolsBit(b[..n + 1], i);
      OrBit(before, Shl(1, n), i);
      ShlBit(1, n, i);
      if i >= n { OneBit(i - n); }
    }
    Extensional(after, next);
  }

  lemma RestClear(b: seq<bool>, n: nat)
    requires n <= |b| && forall i | n <= i < |b| :: !b[i]
    ensures FromBools(b[..n]) == FromBools(b)
  {
    forall i: nat ensures Bit(FromBools(b[..n]), i) == Bit(FromBools(b), i) {
      FromBoolsBit(b[..n], i);
      FromBoolsBit(b, i);
    }
    Extensional(FromBools(b[..n]), FromBools(b));
  }
}
