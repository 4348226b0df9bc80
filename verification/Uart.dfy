/**
  The 16550 UART of `src/devices.cpp` on values: registers, receive FIFO and
  interrupt identification, and what every run of them keeps.
 */
module Uart {
  import opened Axi
  import opened Bits

  /** Cycles per character, for the receive timeout, and between looks at an empty backend. */
  datatype Timing = Timing(character: nat, poll: nat)

  datatype Registers = Registers(
    divisorLow: byte, divisorHigh: byte, ier: byte, lcr: byte, mcr: byte, scratch: byte, fcr: byte)

  /** Transmitter empty and pending, receiver overrun. */
  datatype Line = Line(thre: bool, tx: bool, overrun: bool)

  datatype Modem = Modem(status: byte, delta: byte)

  datatype Uart = Uart(
    timing: Timing,
    regs: Registers,
    line: Line,
    modem: Modem,
    irq: bool,
    fifo: seq<byte>,
    idle: nat, wait: nat,
    input: seq<byte>,      // bytes the backend has not handed over yet
    output: seq<byte>,
    log: Log)

  /** Bytes seen so far: offered by the host, taken from the backend, read by the guest. */
  datatype Log = Log(arrived: seq<byte>, taken: seq<byte>, delivered: seq<byte>)

  predicate FifoOn(s: Uart) { Bit(s.regs.fcr, 0) }
  predicate Loopback(s: Uart) { Bit(s.regs.mcr, 4) }
  predicate DivisorLatch(s: Uart) { Bit(s.regs.lcr, 7) }
  function Capacity(s: Uart): nat { if FifoOn(s) then 16 else 1 }

  function Byte(x: nat): (r: byte) {
    LowIsMod(x, 8);
    Powers();
    Low(x, 8)
  }

  // ---- interrupts ------------------------------------------------------------

  function Trigger(s: Uart): nat {
    if !FifoOn(s) then 1
    else if s.regs.fcr < 64 then 1 else if s.regs.fcr < 128 then 4 else if s.regs.fcr < 192 then 8 else 14
  }

  predicate LineError(s: Uart) { Bit(s.regs.ier, 2) && s.line.overrun }
  predicate DataReady(s: Uart) { Bit(s.regs.ier, 0) && |s.fifo| >= Trigger(s) }
  predicate Timeout(s: Uart) {
    Bit(s.regs.ier, 0) && s.fifo != [] && FifoOn(s) && s.idle >= 4 * s.timing.character
  }
  predicate TransmitterEmpty(s: Uart) { Bit(s.regs.ier, 1) && s.line.thre }
  predicate ModemChange(s: Uart) { Bit(s.regs.ier, 3) && s.modem.delta != 0 }

  /** Some enabled source asks for service. */
  predicate Pending(s: Uart) {
    LineError(s) || DataReady(s) || Timeout(s) || TransmitterEmpty(s) || ModemChange(s)
  }

  /** Low half of the identification register: the highest-ranking source. */
  function Cause(s: Uart): nat {
    if LineError(s) then 6
    else if DataReady(s) then 4
    else if Timeout(s) then 12
    else if TransmitterEmpty(s) then 2
    else if ModemChange(s) then 0
    else 1
  }

  function Identification(s: Uart): byte {
    Or(if FifoOn(s) then 0xc0 else 0, Cause(s)) % 256
  }

  lemma IdentificationParts(s: Uart)
    ensures Identification(s) == Cause(s) + if FifoOn(s) then 0xc0 else 0
    ensures And(Identification(s), 15) == Cause(s)
    ensures And(Identification(s), 1) == 0 <==> Pending(s)
  {
    hide And, Or, FifoOn, LineError, DataReady, Timeout, TransmitterEmpty, ModemChange;
    var high := if FifoOn(s) then 0xc0 else 0;
    assert Pow2(1) == 2 && Pow2(4) == 16 && Pow2(6) == 64;
    OrDisjoint(high, Cause(s), 6);
    AndOnes(high + Cause(s), 4);
    AndOnes(high + Cause(s), 1);
  }

  function Settle(s: Uart): Uart {
    s.(irq := And(Identification(s), 1) == 0)
  }

  // ---- operations --------------------------------------------------------------

  /** Fill the FIFO from the backend; an empty backend starts the wait. */
  function TakeInput(s: Uart): Uart
    decreases |s.input|
  {
    if |s.fifo| >= Capacity(s) then s
    else if s.input == [] then s.(wait := if s.timing.poll == 1 then 0 else s.timing.poll)
    else
      TakeInput(s.(fifo := s.fifo + [s.input[0]], input := s.input[1..], idle := 0,
                   log := s.log.(taken := s.log.taken + [s.input[0]])))
  }

  function PollInput(s: Uart): Uart {
    if Loopback(s) || s.wait != 0 then s else TakeInput(s)
  }

  /** One cycle passes: the wait shortens, a character is sent, the FIFO ages. */
  function Aged(s: Uart): Uart {
    var a := if s.wait != 0 then s.(wait := s.wait - 1) else s;
    var b := if a.line.tx then a.(line := a.line.(tx := false, thre := true)) else a;
    if b.fifo != [] && b.idle < 4 * b.timing.character then b.(idle := b.idle + 1) else b
  }

  function Tick(s: Uart): Uart {
    Settle(PollInput(Aged(s)))
  }

  function Reset(s: Uart): Uart {
    s.(regs := Registers(0, 0, 0, 0, 0, 0, 0), line := Line(true, false, false), modem := Modem(0xb0, 0),
       irq := false, fifo := [], idle := 0, wait := 0)
  }

  function ReadValue(s: Uart, index: nat): byte {
    match index
    case 0 => if DivisorLatch(s) then s.regs.divisorLow else if s.fifo == [] then 0 else s.fifo[0]
    case 1 => if DivisorLatch(s) then s.regs.divisorHigh else s.regs.ier
    case 2 => Identification(s)
    case 3 => s.regs.lcr
    case 4 => s.regs.mcr
    case 5 => (if s.line.tx then 0 else 0x60) + (if s.line.overrun then 2 else 0) + (if s.fifo == [] then 0 else 1)
    case 6 => Byte(Or(s.modem.status, s.modem.delta))
    case 7 => s.regs.scratch
    case _ => 0
  }

  function AfterRead(s: Uart, index: nat): Uart {
    match index
    case 0 =>
      if DivisorLatch(s) || s.fifo == [] then s
      else s.(fifo := s.fifo[1..], idle := 0, log := s.log.(delivered := s.log.delivered + [s.fifo[0]]))
    case 2 => if Cause(s) == 2 then s.(line := s.line.(thre := false)) else s
    case 5 => s.(line := s.line.(overrun := false))
    case 6 => s.(modem := s.modem.(delta := 0))
    case _ => s
  }

  function Transmit(s: Uart, value: byte): Uart {
    var t := s.(line := s.line.(thre := false, tx := true));
    if !Loopback(s) then t.(output := t.output + [value])
    else if |t.fifo| >= Capacity(t) then t.(line := t.line.(overrun := true), idle := 0)
    else t.(fifo := t.fifo + [value], idle := 0)
  }

  /** Modem lines: those of the host, or in loopback the control outputs fed back. */
  function ModemLines(value: byte): byte {
    if !Bit(value, 4) then 0xb0
    else Byte(Or(Or(Or(Shl(And(value, 2), 3), Shl(And(value, 1), 5)), Shl(And(value, 4), 4)), Shl(And(value, 8), 4)))
  }

  function ModemDelta(previous: byte, lines: byte): nat {
    Or(And(Byte(Shr(Xor(previous, lines), 4)), 0x0b), if Bit(previous, 6) && !Bit(lines, 6) then 4 else 0)
  }

  function SetModemControl(s: Uart, value: byte): Uart {
    var lines := ModemLines(value);
    s.(regs := s.regs.(mcr := And(value, 0x1f)),
       modem := Modem(lines, Byte(Or(s.modem.delta, ModemDelta(s.modem.status, lines)))))
  }

  /** A write to the FIFO control register that empties the receive FIFO. */
  predicate Clears(s: Uart, value: byte) {
    Bit(value, 1) || Bit(value, 0) != Bit(s.regs.fcr, 0)
  }

  function WriteFifoControl(s: Uart, value: byte): Uart {
    var a := if Clears(s, value) then s.(fifo := [], idle := 0) else s;
    var b := if Bit(value, 2) then a.(line := a.line.(tx := false, thre := true)) else a;
    b.(regs := b.regs.(fcr := And(value, 0xc9)))
  }

  function SetInterruptEnable(s: Uart, value: byte): Uart {
    s.(regs := s.regs.(ier := And(value, 15)),
       line := s.line.(thre := s.line.thre || (Bit(value, 1) && !Bit(s.regs.ier, 1) && !s.line.tx)))
  }

  function AfterWrite(s: Uart, index: nat, value: byte): Uart {
    match index
    case 0 => if DivisorLatch(s) then s.(regs := s.regs.(divisorLow := value)) else Transmit(s, value)
    case 1 =>
      if DivisorLatch(s) then s.(regs := s.regs.(divisorHigh := value)) else SetInterruptEnable(s, value)
    case 2 => WriteFifoControl(s, value)
    case 3 => s.(regs := s.regs.(lcr := value))
    case 4 => SetModemControl(s, value)
    case 7 => s.(regs := s.regs.(scratch := value))
    case _ => s
  }

  // ---- bus accesses ---------------------------------------------------------------

  const SPAN := 8

  /** Registers offset .. offset + n - 1, those enabled, in order. */
  function ReadLanes(s: Uart, offset: nat, enable: seq<bool>): Uart {
    if enable == [] then s
    else
      var n := |enable| - 1;
      var t := ReadLanes(s, offset, enable[..n]);
      if enable[n] then AfterRead(t, offset + n) else t
  }

  function WriteLanes(s: Uart, offset: nat, data: seq<byte>, strobe: seq<bool>): Uart
    requires |data| == |strobe|
  {
    if strobe == [] then s
    else
      var n := |strobe| - 1;
      var t := WriteLanes(s, offset, data[..n], strobe[..n]);
      if strobe[n] then AfterWrite(t, offset + n, data[n]) else t
  }

  /** What can happen to the device. */
  datatype Op =
    | TickOp
    | ReadOp(offset: nat, enable: seq<bool>)
    | WriteOp(offset: nat, data: seq<byte>, strobe: seq<bool>)
    | ArriveOp(bytes: seq<byte>)
    | ResetOp

  predicate OpOk(op: Op) {
    op.WriteOp? ==> |op.data| == |op.strobe|
  }

  predicate Accepted(offset: nat, length: nat) { length > 0 && offset + length <= SPAN }

  function Step(s: Uart, op: Op): Uart
    requires OpOk(op)
  {
    match op
    case TickOp => Tick(s)
    case ReadOp(offset, enable) =>
      if Accepted(offset, |enable|) then Settle(ReadLanes(PollInput(s), offset, enable)) else s
    case WriteOp(offset, data, strobe) =>
      if Accepted(offset, |data|) then Settle(WriteLanes(s, offset, data, strobe)) else s
    case ArriveOp(bytes) => s.(input := s.input + bytes, log := s.log.(arrived := s.log.arrived + bytes))
    case ResetOp => Reset(s)
  }

  function Initial(character: nat, poll: nat): Uart {
    Uart(Timing(character, poll), Registers(0, 0, 0, 0, 0, 0, 0), Line(true, false, false), Modem(0xb0, 0),
         false, [], 0, 0, [], [], Log([], [], []))
  }

  predicate RunOk(ops: seq<Op>) { forall i | 0 <= i < |ops| :: OpOk(ops[i]) }

  function Run(s: Uart, ops: seq<Op>): Uart
    requires RunOk(ops)
    decreases |ops|
  {
    if ops == [] then s else Run(Step(s, ops[0]), ops[1..])
  }

  // ---- what every run keeps ---------------------------------------------------------

  /** Registers: the FIFO fits, and the transmitter is not both busy and reported empty. */
  predicate Sound(s: Uart) {
    |s.fifo| <= Capacity(s) && !(s.line.tx && s.line.thre)
  }

  predicate Conserved(s: Uart) { s.log.taken + s.input == s.log.arrived }

  lemma {:induction false} TakeInputKeeps(s: Uart)
    requires Sound(s)
    ensures Sound(TakeInput(s)) && TakeInput(s).regs == s.regs
    ensures Conserved(s) ==> Conserved(TakeInput(s))
    ensures Streams(s) ==> Streams(TakeInput(s))
    decreases |s.input|
  {
    if |s.fifo| < Capacity(s) && s.input != [] {
      var t := s.(fifo := s.fifo + [s.input[0]], input := s.input[1..], idle := 0,
                  log := s.log.(taken := s.log.taken + [s.input[0]]));
      assert s.log.taken + [s.input[0]] + s.input[1..] == s.log.taken + s.input;
      assert s.log.delivered + (s.fifo + [s.input[0]]) == (s.log.delivered + s.fifo) + [s.input[0]];
      TakeInputKeeps(t);
    }
  }

  lemma FifoControlBit(value: byte)
    ensures Bit(And(value, 0xc9), 0) == Bit(value, 0)
  {
    AndBit(value, 0xc9, 0);
  }

  lemma WriteKeeps(s: Uart, index: nat, value: byte)
    requires Sound(s)
    ensures Sound(AfterWrite(s, index, value))
    ensures AfterWrite(s, index, value).log == s.log && AfterWrite(s, index, value).input == s.input
  {
    hide And, Or, ModemLines, ModemDelta, Byte, Bit;
    FifoControlBit(value);
  }

  lemma {:induction false} WriteLanesKeep(s: Uart, offset: nat, data: seq<byte>, strobe: seq<bool>)
    requires |data| == |strobe| && Sound(s)
    ensures Sound(WriteLanes(s, offset, data, strobe))
    ensures WriteLanes(s, offset, data, strobe).log == s.log && WriteLanes(s, offset, data, strobe).input == s.input
  {
    hide Sound, AfterWrite;
    if strobe != [] {
      var n := |strobe| - 1;
      WriteLanesKeep(s, offset, data[..n], strobe[..n]);
      WriteKeeps(WriteLanes(s, offset, data[..n], strobe[..n]), offset + n, data[n]);
    }
  }

  lemma ReadKeeps(s: Uart, index: nat)
    requires Sound(s)
    ensures Sound(AfterRead(s, index))
    ensures Conserved(s) ==> Conserved(AfterRead(s, index))
    ensures Streams(s) ==> Streams(AfterRead(s, index))
  {
    hide Cause;
    if s.fifo != [] {
      assert s.log.delivered + [s.fifo[0]] + s.fifo[1..] == s.log.delivered + s.fifo;
    }
  }

  lemma {:induction false} ReadLanesKeep(s: Uart, offset: nat, enable: seq<bool>)
    requires Sound(s)
    ensures Sound(ReadLanes(s, offset, enable))
    ensures Conserved(s) ==> Conserved(ReadLanes(s, offset, enable))
    ensures Streams(s) ==> Streams(ReadLanes(s, offset, enable))
  {
    hide Sound, Conserved, Streams, AfterRead;
    if enable != [] {
      var n := |enable| - 1;
      ReadLanesKeep(s, offset, enable[..n]);
      ReadKeeps(ReadLanes(s, offset, enable[..n]), offset + n);
    }
  }

  lemma SettleExact(s: Uart)
    ensures Settle(s).irq == Pending(Settle(s))
  {
    IdentificationParts(s);
  }

  ghost predicate Invariant(s: Uart) {
    Sound(s) && Conserved(s) && s.irq == Pending(s)
  }

  lemma StepInvariant(s: Uart, op: Op)
    requires OpOk(op) && Invariant(s)
    ensures Invariant(Step(s, op))
  {
    hide Identification, Pending, Bit, TakeInput, ReadLanes, WriteLanes;
    match op
    case TickOp => TickKeeps(s);
    case ReadOp(offset, enable) =>
      if Accepted(offset, |enable|) {
        if !Loopback(s) && s.wait == 0 { TakeInputKeeps(s); }
        ReadLanesKeep(PollInput(s), offset, enable);
        SettleExact(ReadLanes(PollInput(s), offset, enable));
      }
    case WriteOp(offset, data, strobe) =>
      if Accepted(offset, |data|) {
        WriteLanesKeep(s, offset, data, strobe);
        SettleExact(WriteLanes(s, offset, data, strobe));
      }
    case ArriveOp(bytes) =>
      assert s.log.taken + (s.input + bytes) == s.log.arrived + bytes;
      ArrivalUnseen(s, bytes);
    case ResetOp => ResetQuiet(s);
  }

  lemma ArrivalUnseen(s: Uart, bytes: seq<byte>)
    ensures Pending(Step(s, ArriveOp(bytes))) == Pending(s)
  {}

  lemma ResetQuiet(s: Uart)
    ensures !Pending(Reset(s))
  {
    ZeroBit(0); ZeroBit(1); ZeroBit(2); ZeroBit(3);
  }

  lemma TickKeeps(s: Uart)
    requires Sound(s)
    ensures Sound(Tick(s))
    ensures Conserved(s) ==> Conserved(Tick(s))
    ensures Streams(s) ==> Streams(Tick(s))
    ensures Tick(s).irq == Pending(Tick(s))
  {
    hide Identification, Pending, Bit, TakeInput, Aged;
    var c := Aged(s);
    AgedKeeps(s);
    if !Loopback(c) && c.wait == 0 { TakeInputKeeps(c); }
    SettleExact(PollInput(c));
  }

  lemma AgedKeeps(s: Uart)
    requires Sound(s)
    ensures Sound(Aged(s)) && Aged(s).fifo == s.fifo && Aged(s).log == s.log && Aged(s).input == s.input
  {
    hide Bit;
  }

  lemma {:induction false} RunInvariant(s: Uart, ops: seq<Op>)
    requires RunOk(ops) && Invariant(s)
    ensures Invariant(Run(s, ops))
    decreases |ops|
  {
    hide Invariant, Step;
    if ops != [] {
      StepInvariant(s, ops[0]);
      RunInvariant(Step(s, ops[0]), ops[1..]);
    }
  }

  /**
    In every run from power-up, resets and loopback included: the FIFO fits its
    current capacity, transmit-pending and THRE-pending exclude each other, no
    backend byte is lost or repeated, and the line is high exactly when an enabled
    source asks, which is when the identification register says so.
   */
  lemma RegistersConsistent(character: nat, poll: nat, ops: seq<Op>)
    requires RunOk(ops)
    ensures var r := Run(Initial(character, poll), ops);
            && |r.fifo| <= Capacity(r) <= 16 && !(r.line.tx && r.line.thre)
            && r.log.taken + r.input == r.log.arrived
            && r.irq == Pending(r)
            && (r.irq <==> And(Identification(r), 1) == 0)
  {
    var s := Initial(character, poll);
    ResetQuiet(s);
    assert Reset(s) == s;
    RunInvariant(s, ops);
    IdentificationParts(Run(s, ops));
  }

  // ---- the receive stream --------------------------------------------------------------

  /** Bytes read by the guest, then the FIFO: the bytes taken from the backend, in order. */
  predicate Streams(s: Uart) { s.log.delivered + s.fifo == s.log.taken }

  /** A register write that neither clears the FIFO nor loops a byte back. */
  predicate PlainWrite(s: Uart, index: nat, value: byte) {
    && (index == 2 ==> !Clears(s, value))
    && (index == 0 ==> DivisorLatch(s) || !Loopback(s))
  }

  predicate PlainLanes(s: Uart, offset: nat, data: seq<byte>, strobe: seq<bool>)
    requires |data| == |strobe|
  {
    strobe == [] ||
    var n := |strobe| - 1;
    && PlainLanes(s, offset, data[..n], strobe[..n])
    && (strobe[n] ==> PlainWrite(WriteLanes(s, offset, data[..n], strobe[..n]), offset + n, data[n]))
  }

  predicate PlainOp(s: Uart, op: Op)
    requires OpOk(op)
  {
    match op
    case WriteOp(offset, data, strobe) => Accepted(offset, |data|) ==> PlainLanes(s, offset, data, strobe)
    case ResetOp => false
    case _ => true
  }

  predicate PlainRun(s: Uart, ops: seq<Op>)
    requires RunOk(ops)
    decreases |ops|
  {
    ops == [] || (PlainOp(s, ops[0]) && PlainRun(Step(s, ops[0]), ops[1..]))
  }

  lemma {:induction false} PlainLanesKeep(s: Uart, offset: nat, data: seq<byte>, strobe: seq<bool>)
    requires |data| == |strobe| && PlainLanes(s, offset, data, strobe)
    ensures WriteLanes(s, offset, data, strobe).fifo == s.fifo && WriteLanes(s, offset, data, strobe).log == s.log
  {
    hide And, Or, ModemLines, ModemDelta, Byte, Bit;
    if strobe != [] {
      var n := |strobe| - 1;
      PlainLanesKeep(s, offset, data[..n], strobe[..n]);
    }
  }

  lemma StepStreams(s: Uart, op: Op)
    requires OpOk(op) && PlainOp(s, op) && Invariant(s) && Streams(s)
    ensures Streams(Step(s, op))
  {
    hide Identification, Pending, Bit, TakeInput, ReadLanes, WriteLanes, PlainLanes;
    match op
    case TickOp => TickKeeps(s);
    case ReadOp(offset, enable) =>
      if Accepted(offset, |enable|) {
        if !Loopback(s) && s.wait == 0 { TakeInputKeeps(s); }
        ReadLanesKeep(PollInput(s), offset, enable);
      }
    case WriteOp(offset, data, strobe) =>
      if Accepted(offset, |data|) { PlainLanesKeep(s, offset, data, strobe); }
    case ArriveOp(_) =>
  }

  lemma {:induction false} RunStreams(s: Uart, ops: seq<Op>)
    requires RunOk(ops) && PlainRun(s, ops) && Invariant(s) && Streams(s)
    ensures Streams(Run(s, ops)) && Invariant(Run(s, ops))
    decreases |ops|
  {
    hide Invariant, Step, Streams, PlainOp;
    if ops != [] {
      StepInvariant(s, ops[0]);
      StepStreams(s, ops[0]);
      RunStreams(Step(s, ops[0]), ops[1..]);
    }
  }

  /**
    Over any interleaving of ticks, arrivals and accesses that neither clears
    the FIFO nor loops bytes back: guest, FIFO and backend together hold the
    bytes that arrived, in order.
   */
  lemma ReceiveStream(character: nat, poll: nat, ops: seq<Op>)
    requires RunOk(ops) && PlainRun(Initial(character, poll), ops)
    ensures var r := Run(Initial(character, poll), ops);
            && r.log.delivered + r.fifo == r.log.taken
            && r.log.delivered + r.fifo + r.input == r.log.arrived
  {
    var s := Initial(character, poll);
    ResetQuiet(s);
    assert Reset(s) == s;
    RunStreams(s, ops);
  }

  /** Settling is idempotent, as a combinational device must be. */
  lemma SettleIdempotent(s: Uart)
    ensures Settle(Settle(s)) == Settle(s)
  {
    assert Identification(Settle(s)) == Identification(s);
  }

  // ---- modem lines ----------------------------------------------------------------------

  /** In loopback RTS, DTR, OUT1 and OUT2 appear as CTS, DSR, RI and DCD. */
  lemma LoopedLines(value: byte)
    requires Bit(value, 4)
    ensures Bit(ModemLines(value), 4) == Bit(value, 1)
    ensures Bit(ModemLines(value), 5) == Bit(value, 0)
    ensures Bit(ModemLines(value), 6) == Bit(value, 2)
    ensures Bit(ModemLines(value), 7) == Bit(value, 3)
    ensures forall i: nat | i < 4 :: !Bit(ModemLines(value), i)
  {
    hide And, Or, Shl, Bit, Low;
    forall i: nat | i < 8
      ensures Bit(ModemLines(value), i) == ((i == 4 && Bit(value, 1)) || (i == 5 && Bit(value, 0)) ||
                                            (i == 6 && Bit(value, 2)) || (i == 7 && Bit(value, 3)))
    {
      var a, b, c, d := And(value, 2), And(value, 1), And(value, 4), And(value, 8);
      LowBit(Or(Or(Or(Shl(a, 3), Shl(b, 5)), Shl(c, 4)), Shl(d, 4)), 8, i);
      OrBit(Or(Or(Shl(a, 3), Shl(b, 5)), Shl(c, 4)), Shl(d, 4), i);
      OrBit(Or(Shl(a, 3), Shl(b, 5)), Shl(c, 4), i);
      OrBit(Shl(a, 3), Shl(b, 5), i);
      ShiftedBit(value, 1, 3, i);
      ShiftedBit(value, 0, 5, i);
      ShiftedBit(value, 2, 4, i);
      ShiftedBit(value, 3, 4, i);
    }
  }

  lemma ShiftedBit(value: nat, k: nat, shift: nat, i: nat)
    requires k < 4
    ensures Pow2(k) == [1, 2, 4, 8][k]
    ensures Bit(Shl(And(value, [1, 2, 4, 8][k]), shift), i) <==> i == k + shift && Bit(value, k)
  {
    var m := [1, 2, 4, 8][k];
    assert Shl(1, k) == m;
    ShlBit(And(value, m), shift, i);
    if i >= shift {
      AndBit(value, m, i - shift);
      ShlBit(1, k, i - shift);
      if i - shift >= k { OneBit(i - shift - k); }
    }
  }

  /** A delta bit is set by a change of its line; the ring bit only by a falling edge. */
  lemma DeltaBits(previous: byte, lines: byte)
    ensures Bit(ModemDelta(previous, lines), 0) <==> Bit(previous, 4) != Bit(lines, 4)
    ensures Bit(ModemDelta(previous, lines), 1) <==> Bit(previous, 5) != Bit(lines, 5)
    ensures Bit(ModemDelta(previous, lines), 2) <==> Bit(previous, 6) && !Bit(lines, 6)
    ensures Bit(ModemDelta(previous, lines), 3) <==> Bit(previous, 7) != Bit(lines, 7)
  {
    hide And, Or, Xor, Shr, Low;
    var x := Xor(previous, lines);
    var changed := Byte(Shr(x, 4));
    assert Bit(0x0b, 0) && Bit(0x0b, 1) && !Bit(0x0b, 2) && Bit(0x0b, 3);
    assert !Bit(4, 0) && !Bit(4, 1) && Bit(4, 2) && !Bit(4, 3);
    forall i: nat | i < 4
      ensures Bit(ModemDelta(previous, lines), i) ==
              ((Bit(previous, i + 4) != Bit(lines, i + 4) && Bit(0x0b, i)) ||
               Bit(if Bit(previous, 6) && !Bit(lines, 6) then 4 else 0, i))
    {
      OrBit(And(changed, 0x0b), if Bit(previous, 6) && !Bit(lines, 6) then 4 else 0, i);
      AndBit(changed, 0x0b, i);
      LowBit(Shr(x, 4), 8, i);
      ShrBit(x, 4, i);
      XorBit(previous, lines, i + 4);
      ZeroBit(i);
    }
    ZeroBit(0); ZeroBit(1); ZeroBit(2); ZeroBit(3);
  }
}
