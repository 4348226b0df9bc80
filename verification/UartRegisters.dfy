/**
  What the guest sees of the UART: the bytes it sends reach the backend, every
  register bit by bit, and how long the device waits.
 */
module UartRegisters {
  import opened Axi
  import opened Bits
  import opened Uart

  // ---- the transmit stream -----------------------------------------------------------------

  /** Read off the operations alone: the divisor latch and loopback bits last
      written, and the bytes written to register 0 while both were clear. */
  datatype Wire = Wire(latched: bool, looped: bool, sent: seq<byte>)

  function WireWrite(w: Wire, index: nat, value: byte): Wire {
    if index == 0 && !w.latched && !w.looped then w.(sent := w.sent + [value])
    else if index == 3 then w.(latched := Bit(value, 7))
    else if index == 4 then w.(looped := Bit(value, 4))
    else w
  }

  function WireLanes(w: Wire, offset: nat, data: seq<byte>, strobe: seq<bool>): Wire
    requires |data| == |strobe|
  {
    if strobe == [] then w
    else
      var n := |strobe| - 1;
      var v := WireLanes(w, offset, data[..n], strobe[..n]);
      if strobe[n] then WireWrite(v, offset + n, data[n]) else v
  }

  function WireOp(w: Wire, op: Op): Wire
    requires OpOk(op)
  {
    match op
    case WriteOp(offset, data, strobe) =>
      if 1 <= |data| && offset + |data| <= 8 then WireLanes(w, offset, data, strobe) else w
    case ResetOp => w.(latched := false, looped := false)
    case _ => w
  }

  function WireRun(w: Wire, ops: seq<Op>): Wire
    requires RunOk(ops)
    decreases |ops|
  {
    if ops == [] then w else WireRun(WireOp(w, ops[0]), ops[1..])
  }

  ghost predicate Follows(s: Uart, w: Wire) {
    Bit(s.regs.lcr, 7) == w.latched && Bit(s.regs.mcr, 4) == w.looped && s.output == w.sent
  }

  lemma WriteFollows(s: Uart, w: Wire, index: nat, value: byte)
    requires Follows(s, w)
    ensures Follows(AfterWrite(s, index, value), WireWrite(w, index, value))
  {
    hide And, Or, ModemLines, ModemDelta, Byte, Bit;
    AndBit(value, 0x1f, 4);
    assert Bit(0x1f, 4) by { MaskBit(5, 4); }
  }

  lemma {:induction false} LanesFollow(s: Uart, w: Wire, offset: nat, data: seq<byte>, strobe: seq<bool>)
    requires Follows(s, w) && |data| == |strobe|
    ensures Follows(WriteLanes(s, offset, data, strobe), WireLanes(w, offset, data, strobe))
  {
    hide AfterWrite, WireWrite, Follows;
    if strobe != [] {
      var n := |strobe| - 1;
      LanesFollow(s, w, offset, data[..n], strobe[..n]);
      WriteFollows(WriteLanes(s, offset, data[..n], strobe[..n]), WireLanes(w, offset, data[..n], strobe[..n]),
                   offset + n, data[n]);
    }
  }

  /** Nothing but a write or a reset touches the transmit side. */
  ghost predicate SameWire(s: Uart, t: Uart) {
    t.regs == s.regs && t.output == s.output
  }

  lemma {:induction false} TakeInputWire(s: Uart)
    ensures SameWire(s, TakeInput(s))
    decreases |s.input|
  {
    if |s.fifo| < Capacity(s) && s.input != [] {
      TakeInputWire(s.(fifo := s.fifo + [s.input[0]], input := s.input[1..], idle := 0,
                       log := s.log.(taken := s.log.taken + [s.input[0]])));
    }
  }

  lemma {:induction false} ReadLanesWire(s: Uart, offset: nat, enable: seq<bool>)
    ensures SameWire(s, ReadLanes(s, offset, enable))
  {
    hide Cause;
    if enable != [] { ReadLanesWire(s, offset, enable[..|enable| - 1]); }
  }

  lemma StepFollows(s: Uart, w: Wire, op: Op)
    requires OpOk(op) && Follows(s, w)
    ensures Follows(Step(s, op), WireOp(w, op))
  {
    hide Bit, TakeInput, ReadLanes, WriteLanes, WireLanes, Identification;
    match op
    case TickOp => TakeInputWire(Aged(s));
    case ReadOp(offset, enable) =>
      TakeInputWire(s);
      ReadLanesWire(PollInput(s), offset, enable);
    case WriteOp(offset, data, strobe) => LanesFollow(s, w, offset, data, strobe);
    case ArriveOp(_) =>
    case ResetOp =>
      ZeroBit(7);
      ZeroBit(4);
  }

  lemma {:induction false} RunFollows(s: Uart, w: Wire, ops: seq<Op>)
    requires RunOk(ops) && Follows(s, w)
    ensures Follows(Run(s, ops), WireRun(w, ops))
    decreases |ops|
  {
    hide Follows, Step, WireOp;
    if ops != [] {
      StepFollows(s, w, ops[0]);
      RunFollows(Step(s, ops[0]), WireOp(w, ops[0]), ops[1..]);
    }
  }

  /**
    In every run from power-up the backend has received exactly the bytes the guest
    wrote to register 0 while the divisor latch and loopback were off, in order.
   */
  lemma TransmitStream(character: nat, poll: nat, ops: seq<Op>)
    requires RunOk(ops)
    ensures Run(Initial(character, poll), ops).output == WireRun(Wire(false, false, []), ops).sent
  {
    ZeroBit(7);
    ZeroBit(4);
    RunFollows(Initial(character, poll), Wire(false, false, []), ops);
  }

  // ---- writing one register ------------------------------------------------------------------

  /** One byte written to register i. */
  function Poke(s: Uart, i: nat, value: byte): Uart { Step(s, WriteOp(i, [value], [true])) }

  lemma PokeIs(s: Uart, i: nat, value: byte)
    requires i < 8
    ensures Poke(s, i, value) == Settle(AfterWrite(s, i, value))
  {
    hide AfterWrite, Settle, WriteLanes;
    OneLaneWritten(s, i, value);
  }

  lemma LowBits(value: byte, n: nat)
    requires n == 4 || n == 5
    ensures And(value, 15) == value % 16 && And(value, 0x1f) == value % 32
  {
    assert Pow2(4) == 16 && Pow2(5) == 32;
    AndOnes(value, 4);
    AndOnes(value, 5);
  }

  /** A stored register keeps what was written, as far as it is implemented, and the
      write changes no other stored register. */
  lemma StoredRegisters(s: Uart, i: nat, value: byte)
    requires i < 8
    ensures var t, latched := Poke(s, i, value).regs, Bit(s.regs.lcr, 7);
            && t.divisorLow == (if i == 0 && latched then value else s.regs.divisorLow)
            && t.divisorHigh == (if i == 1 && latched then value else s.regs.divisorHigh)
            && t.ier == (if i == 1 && !latched then value % 16 else s.regs.ier)
            && t.lcr == (if i == 3 then value else s.regs.lcr)
            && t.mcr == (if i == 4 then value % 32 else s.regs.mcr)
            && t.scratch == (if i == 7 then value else s.regs.scratch)
            && (i != 2 ==> t.fcr == s.regs.fcr)
            && (i == 2 ==> forall k: nat | k < 8 :: Bit(t.fcr, k) <==> Bit(value, k) && k in {0, 3, 6, 7})
  {
    hide And, Or, ModemLines, ModemDelta, Byte, Bit, Identification;
    PokeIs(s, i, value);
    LowBits(value, 4);
    if i == 2 {
      forall k: nat | k < 8 ensures Bit(And(value, 0xc9), k) <==> Bit(value, k) && k in {0, 3, 6, 7} {
        AndBit(value, 0xc9, k);
        FifoMask(k);
      }
    }
  }

  lemma FifoMask(k: nat)
    requires k < 8
    ensures Bit(0xc9, k) <==> k in {0, 3, 6, 7}
  {
    assert Bit(0xc9, 0) && !Bit(0xc9, 1) && !Bit(0xc9, 2) && Bit(0xc9, 3);
    assert Bit(0xc9, 4) == Bit(0xc, 0) && Bit(0xc9, 5) == Bit(0xc, 1);
    assert Bit(0xc9, 6) == Bit(0xc, 2) && Bit(0xc9, 7) == Bit(0xc, 3);
  }

  /** And reads it back. */
  lemma ReadBack(s: Uart, i: nat, value: byte)
    requires i < 8
    ensures var t, latched := Poke(s, i, value), Bit(s.regs.lcr, 7);
            && (i == 7 || i == 3 ==> ReadValue(t, i) == value)
            && (i == 4 ==> ReadValue(t, i) == value % 32)
            && (i == 1 && !latched ==> ReadValue(t, i) == value % 16)
            && (i <= 1 && latched ==> ReadValue(t, i) == value)
  {
    hide Poke, Bit, Identification, Or, Byte;
    StoredRegisters(s, i, value);
  }

  /** What a write does beside storing the register: the transmitter, the receive
      FIFO and the modem lines. */
  ghost predicate Acts(s: Uart, t: Uart, i: nat, value: byte) {
    var sends := i == 0 && !Bit(s.regs.lcr, 7);
    var echoes := sends && Bit(s.regs.mcr, 4);
    var full := |s.fifo| >= if Bit(s.regs.fcr, 0) then 16 else 1;
    var clears := i == 2 && (Bit(value, 1) || Bit(value, 0) != Bit(s.regs.fcr, 0));
    var drops := i == 2 && Bit(value, 2);
    var enables := i == 1 && !Bit(s.regs.lcr, 7) && Bit(value, 1) && !Bit(s.regs.ier, 1);
    && t.fifo == (if echoes && !full then s.fifo + [value] else if clears then [] else s.fifo)
    && t.output == (if sends && !echoes then s.output + [value] else s.output)
    && t.line.overrun == (s.line.overrun || (echoes && full))
    && t.line.tx == ((s.line.tx || sends) && !drops)
    && t.line.thre == ((s.line.thre && !sends) || drops || (enables && !s.line.tx))
    && t.idle == (if echoes || clears then 0 else s.idle)
    && t.wait == s.wait && t.input == s.input && t.timing == s.timing
    && (i != 4 ==> t.modem == s.modem)
  }

  lemma WriteActs(s: Uart, i: nat, value: byte)
    requires i < 8
    ensures Acts(s, Poke(s, i, value), i, value)
  {
    hide And, Bit, Identification, Poke, SetModemControl, WriteFifoControl, SetInterruptEnable, Transmit, Acts;
    PokeIs(s, i, value);
    if i == 0 && !DivisorLatch(s) { TransmitActs(s, value); }
    else if i == 1 && !DivisorLatch(s) { EnableActs(s, value); }
    else if i == 2 { FifoActs(s, value); }
    else if i == 4 { ModemActs(s, value); }
    else { StoreActs(s, i, value); }
  }

  lemma TransmitActs(s: Uart, value: byte)
    requires !DivisorLatch(s)
    ensures Acts(s, Settle(Transmit(s, value)), 0, value)
  {
    hide Bit, Identification;
  }

  lemma EnableActs(s: Uart, value: byte)
    requires !DivisorLatch(s)
    ensures Acts(s, Settle(SetInterruptEnable(s, value)), 1, value)
  {
    hide Bit, Identification, And;
  }

  lemma FifoActs(s: Uart, value: byte)
    ensures Acts(s, Settle(WriteFifoControl(s, value)), 2, value)
  {
    hide Bit, Identification, And;
  }

  lemma ModemActs(s: Uart, value: byte)
    ensures Acts(s, Settle(SetModemControl(s, value)), 4, value)
  {
    hide Bit, Identification, And, Or, ModemLines, ModemDelta, Byte;
  }

  lemma StoreActs(s: Uart, i: nat, value: byte)
    requires i in {3, 5, 6, 7} || (i <= 1 && DivisorLatch(s))
    ensures Acts(s, Settle(AfterWrite(s, i, value)), i, value)
  {
    hide Bit, Identification, And, Or;
  }

  /** Lines of the host, as the status register shows them: CTS, DSR and DCD, no ring. */
  predicate HostLine(k: nat) { k == 4 || k == 5 || k == 7 }

  lemma HostLines(k: nat)
    requires k < 8
    ensures Bit(0xb0, k) <==> HostLine(k)
  {
    assert Bit(0xb0, 0) == Bit(0xb0, 1) == Bit(0xb0, 2) == Bit(0xb0, 3) == false;
    assert Bit(0xb0, 4) == Bit(0xb, 0) && Bit(0xb0, 5) == Bit(0xb, 1);
    assert Bit(0xb0, 6) == Bit(0xb, 2) && Bit(0xb0, 7) == Bit(0xb, 3);
  }

  /** Which output of the modem control register line k shows in loopback. */
  function LoopSource(k: nat): nat { if k == 4 then 1 else if k == 5 then 0 else if k == 6 then 2 else 3 }

  /** The modem lines after a write to modem control, and the changes it records. */
  lemma ModemWrite(s: Uart, value: byte, k: nat)
    requires 4 <= k < 8
    ensures var t := Poke(s, 4, value).modem;
            && (Bit(t.status, k) <==> if Bit(value, 4) then Bit(value, LoopSource(k)) else HostLine(k))
            && (Bit(t.delta, k - 4) <==>
                  || Bit(s.modem.delta, k - 4)
                  || (if k == 6 then Bit(s.modem.status, k) && !Bit(t.status, k)
                      else Bit(s.modem.status, k) != Bit(t.status, k)))
  {
    hide ModemLines, ModemDelta, Bit, Identification, SetModemControl, LoopSource, HostLine, Poke;
    PokeIs(s, 4, value);
    LinesAfter(value, k);
    DeltaAt(s.modem.status, ModemLines(value), k);
    ModemSet(s, value, k - 4);
  }

  lemma LinesAfter(value: byte, k: nat)
    requires 4 <= k < 8
    ensures Bit(ModemLines(value), k) <==> if Bit(value, 4) then Bit(value, LoopSource(k)) else HostLine(k)
  {
    hide ModemLines, Bit;
    if Bit(value, 4) { LoopedLines(value); } else { PlainLines(value, k); }
  }

  lemma DeltaAt(previous: byte, lines: byte, k: nat)
    requires 4 <= k < 8
    ensures Bit(ModemDelta(previous, lines), k - 4) <==>
            if k == 6 then Bit(previous, k) && !Bit(lines, k) else Bit(previous, k) != Bit(lines, k)
  {
    hide ModemDelta, Bit;
    DeltaBits(previous, lines);
  }

  lemma PlainLines(value: byte, k: nat)
    requires !Bit(value, 4) && k < 8
    ensures Bit(ModemLines(value), k) <==> HostLine(k)
  {
    hide Bit;
    HostLines(k);
  }

  lemma ModemSet(s: Uart, value: byte, k: nat)
    requires k < 4
    ensures var t := SetModemControl(s, value).modem;
            && t.status == ModemLines(value)
            && (Bit(t.delta, k) <==> Bit(s.modem.delta, k) || Bit(ModemDelta(s.modem.status, ModemLines(value)), k))
  {
    hide Or, ModemLines, ModemDelta, Low, Bit, And;
    var d := ModemDelta(s.modem.status, ModemLines(value));
    OrBit(s.modem.delta, d, k);
    LowBit(Or(s.modem.delta, d), 8, k);
  }

  // ---- reading one register ---------------------------------------------------------------------

  /** The line status register: data ready, overrun, and both transmitter bits. */
  lemma LineStatusBits(s: Uart, k: nat)
    requires k < 8
    ensures Bit(ReadValue(s, 5), k) <==>
            match k
            case 0 => s.fifo != []
            case 1 => s.line.overrun
            case 5 => !s.line.tx
            case 6 => !s.line.tx
            case _ => false
  {
    hide Identification;
    var v := ReadValue(s, 5);
    assert Bit(v, 0) == (v % 2 == 1) && Bit(v, 1) == (v / 2 % 2 == 1);
    assert v / 4 == if s.line.tx then 0 else 0x18;
    if k >= 2 { StatusTop(v, k); }
  }

  lemma StatusTop(v: nat, k: nat)
    requires 2 <= k < 8 && (v / 4 == 0 || v / 4 == 0x18)
    ensures Bit(v, k) <==> v / 4 == 0x18 && (k == 5 || k == 6)
  {
    assert Bit(v, k) == Bit(v / 2, k - 1) == Bit(v / 4, k - 2);
    ZeroBit(k - 2);
    assert Bit(0x18, 0) == Bit(0x18, 1) == Bit(0x18, 2) == false && Bit(0x18, 3);
    assert Bit(0x18, 4) == Bit(1, 0) && Bit(0x18, 5) == Bit(1, 1);
  }

  /** The modem status register: lines above, recorded changes below. */
  lemma ModemStatusBits(s: Uart, k: nat)
    requires k < 8
    ensures Bit(ReadValue(s, 6), k) <==> Bit(s.modem.status, k) || Bit(s.modem.delta, k)
  {
    hide Or, Low, Bit, Identification;
    OrBit(s.modem.status, s.modem.delta, k);
    LowBit(Or(s.modem.status, s.modem.delta), 8, k);
  }

  /** The trigger level chosen by the two top bits of FIFO control. */
  function Level(high: bool, low: bool): nat { if high then (if low then 14 else 8) else (if low then 4 else 1) }

  lemma TriggerLevels(s: Uart)
    ensures Trigger(s) == if Bit(s.regs.fcr, 0) then Level(Bit(s.regs.fcr, 7), Bit(s.regs.fcr, 6)) else 1
  {
    hide Bit;
    var f := s.regs.fcr;
    QuarterBit(f, 4);
    QuarterBit(f / 4, 2);
    QuarterBit(f / 16, 0);
    QuarterBit(f, 5);
    QuarterBit(f / 4, 3);
    QuarterBit(f / 16, 1);
    LowTwo(f / 64);
  }

  lemma LowTwo(x: nat)
    ensures Bit(x, 0) == (x % 2 == 1) && Bit(x, 1) == (x / 2 % 2 == 1)
  {}

  lemma QuarterBit(x: nat, i: nat)
    ensures Bit(x, i + 2) == Bit(x / 4, i) && x / 4 / 4 == x / 16 && x / 16 / 4 == x / 64
  {
    assert Bit(x, i + 2) == Bit(x / 2, i + 1) == Bit(x / 2 / 2, i);
  }

  /** The low half of the identification register on the fields: the code of the
      first source, by rank, that is enabled and asks. */
  lemma IdentificationCodes(s: Uart)
    ensures var ier, n := s.regs.ier, |s.fifo|;
            var on := Bit(s.regs.fcr, 0);
            var level := if on then Level(Bit(s.regs.fcr, 7), Bit(s.regs.fcr, 6)) else 1;
            var code := ReadValue(s, 2) % 16;
            && ReadValue(s, 2) / 16 == (if on then 12 else 0)
            && (if Bit(ier, 2) && s.line.overrun then code == 6
                else if Bit(ier, 0) && n >= level then code == 4
                else if Bit(ier, 0) && n > 0 && on && s.idle >= 4 * s.timing.character then code == 12
                else if Bit(ier, 1) && s.line.thre then code == 2
                else if Bit(ier, 3) && s.modem.delta != 0 then code == 0
                else code == 1)
  {
    hide Bit, Trigger, Identification;
    TriggerLevels(s);
    IdentificationParts(s);
  }

  /** What a read does beside returning a value. */
  lemma ReadActs(s: Uart, i: nat)
    requires i < 8
    ensures var t := AfterRead(s, i);
            && t.fifo == (if i == 0 && !Bit(s.regs.lcr, 7) && s.fifo != [] then s.fifo[1..] else s.fifo)
            && (i == 0 && !Bit(s.regs.lcr, 7) && s.fifo != [] ==> ReadValue(s, 0) == s.fifo[0] && t.idle == 0)
            && t.line.overrun == (s.line.overrun && i != 5)
            && t.line.thre == (s.line.thre && !(i == 2 && ReadValue(s, 2) % 16 == 2)) && t.line.tx == s.line.tx
            && t.modem == (if i == 6 then Modem(s.modem.status, 0) else s.modem)
            && t.regs == s.regs && t.output == s.output && t.input == s.input && t.wait == s.wait
  {
    hide Bit, Cause, Identification, Or, Byte;
    IdentificationParts(s);
    CauseBelow(s);
  }

  lemma CauseBelow(s: Uart)
    ensures Cause(s) < 16
  {
    hide LineError, DataReady, Timeout, TransmitterEmpty, ModemChange;
  }

  // ---- loopback -----------------------------------------------------------------------------------

  function PokeAll(s: Uart, values: seq<byte>): Uart {
    if values == [] then s else Poke(PokeAll(s, values[..|values| - 1]), 0, values[|values| - 1])
  }

  /** One byte read from register 0. */
  function Peek(s: Uart): Uart { Step(s, ReadOp(0, [true])) }

  /** The values of n reads of register 0. */
  function Peeks(s: Uart, n: nat): seq<byte>
    decreases n
  {
    if n == 0 then [] else [ReadValue(PollInput(s), 0)] + Peeks(Peek(s), n - 1)
  }

  lemma {:induction false} LoopedBytes(s: Uart, values: seq<byte>)
    requires Bit(s.regs.mcr, 4) && !Bit(s.regs.lcr, 7)
    requires |s.fifo| + |values| <= if Bit(s.regs.fcr, 0) then 16 else 1
    ensures var t := PokeAll(s, values);
            t.fifo == s.fifo + values && t.regs == s.regs && t.line.overrun == s.line.overrun && t.output == s.output
  {
    hide Poke, Bit;
    if values != [] {
      var n := |values| - 1;
      LoopedBytes(s, values[..n]);
      var t := PokeAll(s, values[..n]);
      WriteActs(t, 0, values[n]);
      StoredRegisters(t, 0, values[n]);
      assert s.fifo + values[..n] + [values[n]] == s.fifo + values;
    }
  }

  lemma PeekIs(s: Uart)
    requires Bit(s.regs.mcr, 4) && !Bit(s.regs.lcr, 7) && s.fifo != []
    ensures PollInput(s) == s && ReadValue(s, 0) == s.fifo[0]
    ensures Peek(s).fifo == s.fifo[1..] && Peek(s).regs == s.regs
  {
    hide Bit, Identification;
    assert [true][..0] == [];
    assert ReadLanes(s, 0, []) == s;
  }

  lemma {:induction false} PeekedBytes(s: Uart)
    requires Bit(s.regs.mcr, 4) && !Bit(s.regs.lcr, 7)
    ensures Peeks(s, |s.fifo|) == s.fifo
    decreases |s.fifo|
  {
    hide Peek, PollInput, ReadValue, Bit;
    if s.fifo != [] {
      PeekIs(s);
      PeekedBytes(Peek(s));
    }
  }

  /** In loopback with an empty FIFO, up to its capacity of bytes written come back in order. */
  lemma LoopbackEcho(s: Uart, values: seq<byte>)
    requires Bit(s.regs.mcr, 4) && !Bit(s.regs.lcr, 7) && s.fifo == []
    requires |values| <= if Bit(s.regs.fcr, 0) then 16 else 1
    ensures Peeks(PokeAll(s, values), |values|) == values
  {
    hide Peeks, PokeAll, Bit;
    LoopedBytes(s, values);
    assert [] + values == values;
    PeekedBytes(PokeAll(s, values));
  }

  // ---- time -----------------------------------------------------------------------------------------

  function Ticks(s: Uart, n: nat): Uart {
    if n == 0 then s else Tick(Ticks(s, n - 1))
  }

  function Min(a: nat, b: nat): nat { if a <= b then a else b }

  /** How many waiting bytes a look at the backend can take. */
  function Room(s: Uart): nat {
    Min(|s.input|, var top := if Bit(s.regs.fcr, 0) then 16 else 1; if |s.fifo| <= top then top - |s.fifo| else 0)
  }

  /** A look at the backend moves as many bytes as fit, and starts the wait when it ran dry. */
  lemma {:induction false} TakeInputExact(s: Uart)
    ensures var t, k := TakeInput(s), Room(s);
            && t.fifo == s.fifo + s.input[..k] && t.input == s.input[k..] && t.regs == s.regs && t.line == s.line
            && t.timing == s.timing && t.modem == s.modem
            && t.wait == (if |t.fifo| >= (if Bit(s.regs.fcr, 0) then 16 else 1) then s.wait
                          else if s.timing.poll == 1 then 0 else s.timing.poll)
            && t.idle == (if k > 0 then 0 else s.idle)
    decreases |s.input|
  {
    hide Bit, Room;
    if |s.fifo| < Capacity(s) && s.input != [] {
      var t := s.(fifo := s.fifo + [s.input[0]], input := s.input[1..], idle := 0,
                  log := s.log.(taken := s.log.taken + [s.input[0]]));
      TakeInputExact(t);
      RoomShrinks(s, t);
      OneByteMore(s.fifo, s.input, Room(t));
    } else {
      NoRoom(s);
      assert s.fifo + s.input[..0] == s.fifo;
    }
  }

  lemma RoomShrinks(s: Uart, t: Uart)
    requires |s.fifo| < Capacity(s) && s.input != [] && t.regs == s.regs
    requires |t.fifo| == |s.fifo| + 1 && t.input == s.input[1..]
    ensures Room(s) == Room(t) + 1 && Room(t) <= |t.input|
  {
    hide Bit;
  }

  lemma NoRoom(s: Uart)
    requires |s.fifo| >= Capacity(s) || s.input == []
    ensures Room(s) == 0
  {
    hide Bit;
  }

  lemma OneByteMore(fifo: seq<byte>, input: seq<byte>, k: nat)
    requires k < |input|
    ensures fifo + [input[0]] + input[1..][..k] == fifo + input[..k + 1] && input[1..][k..] == input[k + 1..]
  {
    assert input[..k + 1] == [input[0]] + input[1..][..k];
  }

  /** Does this tick look at the backend? */
  predicate Looks(s: Uart) { !Bit(s.regs.mcr, 4) && s.wait <= 1 }

  /** One tick: the wait shortens, a character leaves, the FIFO ages, and once the
      wait is over the backend is looked at. */
  lemma TickExact(s: Uart)
    ensures var t, k := Tick(s), if Looks(s) then Room(s) else 0;
            && t.fifo == s.fifo + s.input[..k] && t.input == s.input[k..] && t.regs == s.regs
            && t.timing == s.timing && t.modem == s.modem && t.output == s.output
            && t.line == Line(s.line.thre || s.line.tx, false, s.line.overrun)
            && t.wait == (if Looks(s) && |t.fifo| < (if Bit(s.regs.fcr, 0) then 16 else 1)
                          then (if s.timing.poll == 1 then 0 else s.timing.poll)
                          else if s.wait > 0 then s.wait - 1 else 0)
            && t.idle == (if k > 0 then 0
                          else if s.fifo != [] && s.idle < 4 * s.timing.character then s.idle + 1 else s.idle)
  {
    hide Bit, TakeInput, Identification, Room;
    var a := Aged(s);
    AgedExact(s);
    TakeInputExact(a);
    TakeInputWire(a);
    assert s.fifo + s.input[..0] == s.fifo && s.input[0..] == s.input;
  }

  lemma AgedExact(s: Uart)
    ensures var a := Aged(s);
            && a == s.(line := Line(s.line.thre || s.line.tx, false, s.line.overrun), wait := a.wait, idle := a.idle)
            && a.wait == (if s.wait > 0 then s.wait - 1 else 0) && Room(a) == Room(s)
            && a.idle == (if s.fifo != [] && s.idle < 4 * s.timing.character then s.idle + 1 else s.idle)
  {
    hide Bit;
  }

  /**
    The backend is looked at exactly when the wait is over: with room in the FIFO and
    loopback off, nothing is taken for s.wait - 1 ticks, and the tick after that (the
    first one if there is no wait) takes all that fits.  A dry look starts a new
    wait of the poll interval.
   */
  lemma {:induction false} PollExact(s: Uart, n: nat)
    requires !Bit(s.regs.mcr, 4) && |s.fifo| < if Bit(s.regs.fcr, 0) then 16 else 1
    requires n <= s.wait || n == 1
    ensures var t, k := Ticks(s, n), Room(s);
            if n == 0 || n < s.wait
            then t.fifo == s.fifo && t.input == s.input && t.regs == s.regs && t.wait == s.wait - n
            else
              && t.fifo == s.fifo + s.input[..k] && t.input == s.input[k..]
              && (|t.fifo| < (if Bit(s.regs.fcr, 0) then 16 else 1) ==>
                    t.wait == if s.timing.poll == 1 then 0 else s.timing.poll)
    ensures Ticks(s, n).timing == s.timing
  {
    hide Bit, Tick;
    if n > 0 {
      PollExact(s, n - 1);
      TickExact(Ticks(s, n - 1));
    }
  }

  /** The receive FIFO ages by one per tick up to four character times while nothing
      enters it, so the timeout asks after exactly that long. */
  lemma {:induction false} IdleExact(s: Uart, n: nat)
    requires s.fifo != [] && (Bit(s.regs.mcr, 4) || s.input == [])
    requires s.idle <= 4 * s.timing.character
    ensures var t := Ticks(s, n);
            && t.idle == Min(4 * s.timing.character, s.idle + n) && t.timing == s.timing
            && t.fifo == s.fifo && t.input == s.input && t.regs == s.regs
  {
    hide Bit, Tick;
    if n > 0 {
      IdleExact(s, n - 1);
      TickExact(Ticks(s, n - 1));
    }
  }

  lemma TimeoutExact(s: Uart, n: nat)
    requires s.fifo != [] && (Bit(s.regs.mcr, 4) || s.input == []) && s.idle == 0
    requires Bit(s.regs.ier, 0) && Bit(s.regs.fcr, 0)
    ensures Timeout(Ticks(s, n)) <==> n >= 4 * s.timing.character
  {
    hide Ticks, Bit;
    IdleExact(s, n);
  }

  /** One tick after a byte was sent the transmitter is empty again and says so. */
  lemma TransmitTakesOneTick(s: Uart, value: byte)
    requires !Bit(s.regs.lcr, 7)
    ensures var t := Poke(s, 0, value);
            && t.line.tx && !t.line.thre && !Tick(t).line.tx && Tick(t).line.thre
            && !Bit(ReadValue(t, 5), 5) && Bit(ReadValue(Tick(t), 5), 5)
  {
    hide Poke, Bit, Tick, ReadValue;
    var t := Poke(s, 0, value);
    WriteActs(s, 0, value);
    TickExact(t);
    LineStatusBits(t, 5);
    LineStatusBits(Tick(t), 5);
  }

  /** Reset leaves the device as at power-up; the backend and what was logged stay. */
  lemma ResetIsPowerUp(s: Uart)
    ensures Step(s, ResetOp) == Initial(s.timing.character, s.timing.poll).(input := s.input, output := s.output,
                                                                             log := s.log)
  {}

  // ---- accesses of several lanes ------------------------------------------------------------------------

  /** Lanes act one after another, in order, and a lane that is not enabled does nothing. */
  lemma {:induction false} ReadsInOrder(s: Uart, offset: nat, a: seq<bool>, b: seq<bool>)
    ensures ReadLanes(s, offset, a + b) == ReadLanes(ReadLanes(s, offset, a), offset + |a|, b)
    ensures ReadLanes(s, offset, [false]) == s && ReadLanes(s, offset, [true]) == AfterRead(s, offset)
    decreases |b|
  {
    hide AfterRead;
    assert [false][..0] == [] && [true][..0] == [] && ReadLanes(s, offset, []) == s;
    if b == [] {
      assert a + b == a;
    } else {
      var n := |b| - 1;
      ReadsInOrder(s, offset, a, b[..n]);
      assert (a + b)[..|a| + n] == a + b[..n];
    }
  }

  lemma {:induction false} WritesInOrder(s: Uart, offset: nat, a: seq<byte>, x: seq<bool>, b: seq<byte>, y: seq<bool>)
    requires |a| == |x| && |b| == |y|
    ensures WriteLanes(s, offset, a + b, x + y) == WriteLanes(WriteLanes(s, offset, a, x), offset + |a|, b, y)
    decreases |b|
  {
    hide AfterWrite;
    if b == [] {
      assert a + b == a && x + y == x;
    } else {
      var n := |b| - 1;
      WritesInOrder(s, offset, a, x, b[..n], y[..n]);
      assert (a + b)[..|a| + n] == a + b[..n] && (x + y)[..|a| + n] == x + y[..n];
    }
  }

  lemma OneLaneWritten(s: Uart, offset: nat, value: byte)
    ensures WriteLanes(s, offset, [value], [false]) == s
    ensures WriteLanes(s, offset, [value], [true]) == AfterWrite(s, offset, value)
  {
    hide AfterWrite;
    assert [value][..0] == [] && [true][..0] == [] && [false][..0] == [];
    assert WriteLanes(s, offset, [], []) == s;
  }
}
