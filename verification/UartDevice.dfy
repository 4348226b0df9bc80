/** The UART as the source runs it: registers, FIFO and counters updated in place. */
module UartClass {
  import opened Axi
  import opened Bits
  import opened Uart

  /** Every one-bit mask the device tests. */
  lemma Masks(x: nat)
    ensures And(x, 1) != 0 <==> Bit(x, 0)
    ensures And(x, 2) != 0 <==> Bit(x, 1)
    ensures And(x, 4) != 0 <==> Bit(x, 2)
    ensures And(x, 8) != 0 <==> Bit(x, 3)
    ensures And(x, 0x10) != 0 <==> Bit(x, 4)
    ensures And(x, 0x40) != 0 <==> Bit(x, 6)
    ensures And(x, 0x80) != 0 <==> Bit(x, 7)
  {
    hide And, Bit;
    assert Shl(1, 0) == 1 && Shl(1, 1) == 2 && Shl(1, 2) == 4 && Shl(1, 3) == 8;
    assert Shl(1, 4) == 0x10 && Shl(1, 6) == 0x40 && Shl(1, 7) == 0x80;
    MaskTest(x, 0); MaskTest(x, 1); MaskTest(x, 2); MaskTest(x, 3);
    MaskTest(x, 4); MaskTest(x, 6); MaskTest(x, 7);
  }

  /** The trigger table is indexed by the two top bits of the control register. */
  lemma TriggerIndex(fcr: byte)
    ensures Shr(fcr, 6) == if fcr < 64 then 0 else if fcr < 128 then 1 else if fcr < 192 then 2 else 3
  {
    var a := fcr / 2;
    var b := a / 2;
    var c := b / 2;
    assert Shr(fcr, 6) == Shr(a, 5) == Shr(b, 4) == Shr(c, 3);
    assert Shr(c, 3) == Shr(c / 2, 2) == Shr(c / 2 / 2, 1) == c / 2 / 2 / 2;
  }

  /** What lane k of a read returns: its register after the enabled lanes before it were read. */
  ghost function LaneValue(s: Uart, offset: nat, enable: seq<bool>, k: nat): byte
    requires k < |enable|
  {
    if enable[k] then ReadValue(ReadLanes(s, offset, enable[..k]), offset + k) else 0
  }

  class UartDevice {
    const timing: Timing
    var regs: Registers
    var line: Line
    var modem: Modem
    var irq: bool
    var receiveFifo: seq<byte>
    var receiveIdleCycles: nat
    var inputPollRemaining: nat
    var input: seq<byte>
    var output: seq<byte>
    ghost var log: Log

    ghost function S(): Uart
      reads this
    {
      Uart(timing, regs, line, modem, irq, receiveFifo, receiveIdleCycles, inputPollRemaining, input, output, log)
    }

    constructor (characterCycles: nat, inputPollCycles: nat)
      requires characterCycles > 0 && inputPollCycles > 0
      ensures S() == Initial(characterCycles, inputPollCycles)
    {
      timing := Timing(characterCycles, inputPollCycles);
      regs, line, modem := Registers(0, 0, 0, 0, 0, 0, 0), Line(true, false, false), Modem(0xb0, 0);
      irq, receiveFifo, receiveIdleCycles, inputPollRemaining := false, [], 0, 0;
      input, output, log := [], [], Log([], [], []);
    }

    method ResetDevice()
      modifies this
      ensures S() == Step(old(S()), ResetOp)
    {
      regs := Registers(0, 0, 0, 0, 0, 0, 0);
      line := Line(true, false, false);
      modem := Modem(0xb0, 0);  // the host console asserts CTS, DSR and DCD
      irq := false;
      receiveFifo := [];
      receiveIdleCycles := 0;
      inputPollRemaining := 0;
    }

    /** The host offers more bytes to the backend. */
    method PushInput(bytes: seq<byte>)
      modifies this`input, this`log
      ensures S() == Step(old(S()), ArriveOp(bytes))
    {
      input := input + bytes;
      log := log.(arrived := log.arrived + bytes);
    }

    method InterruptIdentification() returns (r: byte)
      ensures r == Identification(S())
    {
      hide And, Or, Shr, Bit;
      Masks(regs.fcr);
      Masks(regs.ier);
      TriggerIndex(regs.fcr);
      CauseFits();
      var fifoOn := And(regs.fcr, 1) != 0;
      var fifoBits := if fifoOn then 0xc0 else 0;
      if And(regs.ier, 4) != 0 && line.overrun {
        return Or(fifoBits, 0x06);
      }
      var trigger := if fifoOn then [1, 4, 8, 14][Shr(regs.fcr, 6)] else 1;
      if And(regs.ier, 1) != 0 && |receiveFifo| >= trigger {
        return Or(fifoBits, 0x04);
      }
      if And(regs.ier, 1) != 0 && receiveFifo != [] && fifoOn && receiveIdleCycles >= 4 * timing.character {
        return Or(fifoBits, 0x0c);
      }
      if And(regs.ier, 2) != 0 && line.thre {
        return Or(fifoBits, 0x02);
      }
      if And(regs.ier, 8) != 0 && modem.delta != 0 {
        return Or(fifoBits, 0x00);
      }
      return Or(fifoBits, 0x01);
    }

    method SettleLine()
      modifies this`irq
      ensures S() == Settle(old(S()))
    {
      var id := InterruptIdentification();
      irq := And(id, 1) == 0;
    }

    method PollBackend()
      requires |receiveFifo| <= 16
      modifies this`receiveFifo, this`input, this`receiveIdleCycles, this`inputPollRemaining, this`log
      ensures S() == PollInput(old(S()))
    {
      hide And, Bit, TakeInput;
      Masks(regs.mcr);
      Masks(regs.fcr);
      if And(regs.mcr, 0x10) != 0 || inputPollRemaining != 0 {
        return;
      }
      var capacity := if And(regs.fcr, 1) != 0 then 16 else 1;
      ghost var s := S();
      while |receiveFifo| < capacity
        invariant TakeInput(S()) == TakeInput(s)
        invariant capacity == Capacity(S()) && inputPollRemaining == s.wait
        decreases |input|
      {
        TakeOne(S());
        if |input| == 0 {
          inputPollRemaining := if timing.poll == 1 then 0 else timing.poll;
          return;
        }
        var value := input[0];
        input := input[1..];
        receiveFifo := receiveFifo + [value];
        receiveIdleCycles := 0;
        log := log.(taken := log.taken + [value]);
      }
      TakeOne(S());
    }

    method TickDevice()
      requires |receiveFifo| <= 16
      modifies this
      ensures S() == Step(old(S()), TickOp)
    {
      hide Settle, PollInput;
      if inputPollRemaining != 0 {
        inputPollRemaining := inputPollRemaining - 1;
      }
      if line.tx {
        line := line.(tx := false, thre := true);
      }
      if receiveFifo != [] && receiveIdleCycles < 4 * timing.character {
        receiveIdleCycles := receiveIdleCycles + 1;
      }
      assert S() == Aged(old(S()));
      PollBackend();
      SettleLine();
    }

    method ReadRegister(index: nat) returns (value: byte)
      modifies this`receiveFifo, this`receiveIdleCycles, this`line, this`modem, this`log
      ensures value == ReadValue(old(S()), index)
      ensures S() == AfterRead(old(S()), index)
    {
      hide And, Bit, Or, Low;
      Masks(regs.lcr);
      match index {
        case 0 =>
          if And(regs.lcr, 0x80) != 0 { return regs.divisorLow; }
          if receiveFifo == [] { return 0; }
          value := receiveFifo[0];
          log := log.(delivered := log.delivered + [value]);
          receiveFifo := receiveFifo[1..];
          receiveIdleCycles := 0;
        case 1 =>
          value := if And(regs.lcr, 0x80) != 0 then regs.divisorHigh else regs.ier;
        case 2 =>
          IdentificationParts(S());
          value := InterruptIdentification();
          if And(value, 0x0f) == 2 {
            line := line.(thre := false);
          }
        case 3 => value := regs.lcr;
        case 4 => value := regs.mcr;
        case 5 =>
          StatusBits();
          value := Byte(Or(Or(if line.tx then 0 else Or(0x20, 0x40), if line.overrun then 2 else 0),
                           if receiveFifo == [] then 0 else 1));
          line := line.(overrun := false);
        case 6 =>
          value := Byte(Or(modem.status, modem.delta));
          modem := modem.(delta := 0);
        case 7 => value := regs.scratch;
        case _ => value := 0;
      }
    }

    method TransmitByte(value: byte)
      requires |receiveFifo| <= 16
      modifies this`receiveFifo, this`receiveIdleCycles, this`line, this`output
      ensures S() == Transmit(old(S()), value)
    {
      hide And, Bit;
      Masks(regs.mcr);
      Masks(regs.fcr);
      line := line.(thre := false, tx := true);
      if And(regs.mcr, 0x10) != 0 {
        var capacity := if And(regs.fcr, 1) != 0 then 16 else 1;
        if |receiveFifo| >= capacity {
          line := line.(overrun := true);
        } else {
          receiveFifo := receiveFifo + [value];
        }
        receiveIdleCycles := 0;
      } else {
        output := output + [value];
      }
    }

    method SetModemLines(value: byte)
      modifies this`regs, this`modem
      ensures S() == SetModemControl(old(S()), value)
    {
      hide And, Or, Shl, Shr, Xor, Bit, Low;
      Masks(value);
      var previous := modem.status;
      var control := And(value, 0x1f);
      regs := regs.(mcr := control);
      modem := modem.(status := if And(value, 0x10) == 0 then 0xb0
        else Byte(Or(Or(Or(Shl(And(value, 2), 3), Shl(And(value, 1), 5)), Shl(And(value, 4), 4)),
                     Shl(And(value, 8), 4))));
      Masks(previous);
      Masks(modem.status);
      var changed := Byte(Shr(Xor(previous, modem.status), 4));
      modem := modem.(delta := Byte(Or(modem.delta, Or(And(changed, 0x0b),
        if And(previous, 0x40) != 0 && And(modem.status, 0x40) == 0 then 4 else 0))));
    }

    method EnableInterrupts(value: byte)
      modifies this`line, this`regs
      ensures S() == SetInterruptEnable(old(S()), value)
    {
      hide And, Bit;
      Masks(value);
      Masks(regs.ier);
      if And(value, 2) != 0 && And(regs.ier, 2) == 0 && !line.tx {
        line := line.(thre := true);
      }
      regs := regs.(ier := And(value, 0x0f));
    }

    method ControlFifo(value: byte)
      modifies this`receiveFifo, this`receiveIdleCycles, this`line, this`regs
      ensures S() == WriteFifoControl(old(S()), value)
    {
      hide And, Xor, Bit;
      Masks(value);
      ControlChange(value, regs.fcr);
      if And(value, 2) != 0 || And(Xor(value, regs.fcr), 1) != 0 {
        receiveFifo, receiveIdleCycles := [], 0;
      }
      if And(value, 4) != 0 {
        line := line.(tx := false, thre := true);
      }
      regs := regs.(fcr := And(value, 0xc9));
    }

    method WriteRegister(index: nat, value: byte)
      requires |receiveFifo| <= 16
      modifies this
      ensures S() == AfterWrite(old(S()), index, value)
    {
      hide And, Or, Xor, Bit, Low, Transmit, SetModemControl, WriteFifoControl, SetInterruptEnable;
      Masks(regs.lcr);
      match index {
        case 0 =>
          if And(regs.lcr, 0x80) != 0 { regs := regs.(divisorLow := value); } else { TransmitByte(value); }
        case 1 =>
          if And(regs.lcr, 0x80) != 0 { regs := regs.(divisorHigh := value); } else { EnableInterrupts(value); }
        case 2 =>
          ControlFifo(value);
        case 3 => regs := regs.(lcr := value);
        case 4 => SetModemLines(value);
        case 7 => regs := regs.(scratch := value);
        case _ =>
      }
    }

    /** A bus read: enabled registers in order, then the line; refused past the eighth register. */
    method Read(offset: u64, enable: seq<bool>) returns (r: Response, data: seq<byte>)
      requires Sound(S())
      modifies this
      ensures S() == Step(old(S()), ReadOp(offset, enable)) && |data| == |enable|
      ensures r == if enable == [] || Accepted(offset, |enable|) then Okay else SlaveError
      ensures forall k | 0 <= k < |enable| ::
                data[k] == if Accepted(offset, |enable|) then LaneValue(PollInput(old(S())), offset, enable, k) else 0
    {
      hide Settle, PollInput, LaneValue, ReadLanes, Sound;
      data := seq(|enable|, _ => 0);
      if |enable| == 0 { return Okay, data; }
      if !(|enable| <= SPAN && offset <= SPAN - |enable|) { return SlaveError, data; }
      FifoFits(S());
      PollBackend();
      data := ReadEnabled(offset, enable);
      SettleLine();
      r := Okay;
    }

    method ReadEnabled(offset: nat, enable: seq<bool>) returns (data: seq<byte>)
      modifies this`receiveFifo, this`receiveIdleCycles, this`line, this`modem, this`log
      ensures S() == ReadLanes(old(S()), offset, enable) && |data| == |enable|
      ensures forall k | 0 <= k < |enable| :: data[k] == LaneValue(old(S()), offset, enable, k)
    {
      hide ReadValue, AfterRead;
      ghost var s := S();
      data := [];
      assert enable[..0] == [];
      while |data| < |enable|
        invariant |data| <= |enable|
        invariant S() == ReadLanes(s, offset, enable[..|data|])
        invariant forall k | 0 <= k < |data| :: data[k] == LaneValue(s, offset, enable, k)
      {
        var lane := |data|;
        assert enable[..lane + 1][..lane] == enable[..lane];
        var value := 0;
        if enable[lane] {
          value := ReadRegister(offset + lane);
        }
        data := data + [value];
      }
      assert enable[..|data|] == enable;
    }

    method Write(offset: u64, data: seq<byte>, strobe: seq<bool>) returns (r: Response)
      requires Sound(S()) && |data| == |strobe|
      modifies this
      ensures S() == Step(old(S()), WriteOp(offset, data, strobe))
      ensures r == if data == [] || Accepted(offset, |data|) then Okay else SlaveError
    {
      hide Settle, AfterWrite, Sound;
      if |data| == 0 { return Okay; }
      if !(|data| <= SPAN && offset <= SPAN - |data|) { return SlaveError; }
      ghost var s := S();
      var lane := 0;
      assert data[..0] == [] && strobe[..0] == [];
      while lane < |data|
        invariant 0 <= lane <= |data|
        invariant S() == WriteLanes(s, offset, data[..lane], strobe[..lane])
      {
        assert data[..lane + 1][..lane] == data[..lane] && strobe[..lane + 1][..lane] == strobe[..lane];
        if strobe[lane] {
          WriteLanesKeep(s, offset, data[..lane], strobe[..lane]);
          FifoFits(S());
          WriteRegister(offset + lane, data[lane]);
        }
        lane := lane + 1;
      }
      assert data[..lane] == data && strobe[..lane] == strobe;
      SettleLine();
      r := Okay;
    }
  }

  /** The identification register is a byte for every cause. */
  lemma CauseFits()
    ensures forall high, low | high in {0, 0xc0} && low in {0, 1, 2, 4, 6, 12} :: Or(high, low) < 256
  {
    hide Or;
    assert Pow2(6) == 64;
    forall high, low | high in {0, 0xc0} && low in {0, 1, 2, 4, 6, 12} ensures Or(high, low) < 256 {
      OrDisjoint(high, low, 6);
    }
  }

  lemma TakeOne(s: Uart)
    ensures |s.fifo| >= Capacity(s) ==> TakeInput(s) == s
    ensures |s.fifo| < Capacity(s) && s.input == [] ==>
              TakeInput(s) == s.(wait := if s.timing.poll == 1 then 0 else s.timing.poll)
    ensures |s.fifo| < Capacity(s) && s.input != [] ==>
              TakeInput(s) == TakeInput(s.(fifo := s.fifo + [s.input[0]], input := s.input[1..], idle := 0,
                                           log := s.log.(taken := s.log.taken + [s.input[0]])))
  {
    hide Bit;
  }

  lemma FifoFits(s: Uart)
    requires Sound(s)
    ensures |s.fifo| <= 16
  {}

  lemma StatusBits()
    ensures Or(0x20, 0x40) == 0x60
    ensures forall a, b, c | a in {0, 0x60} && b in {0, 2} && c in {0, 1} :: Byte(Or(Or(a, b), c)) == a + b + c
  {
    hide Or, Low;
    assert Pow2(1) == 2 && Pow2(2) == 4 && Pow2(6) == 64;
    OrDisjoint(0x40, 0x20, 6);
    OrCommutes(0x20, 0x40);
    forall a, b, c | a in {0, 0x60} && b in {0, 2} && c in {0, 1} ensures Byte(Or(Or(a, b), c)) == a + b + c {
      OrDisjoint(a, b, 2);
      OrDisjoint(a + b, c, 1);
      Powers();
      LowFits(a + b + c, 8);
    }
  }

  lemma OrCommutes(x: nat, y: nat)
    ensures Or(x, y) == Or(y, x)
  {
    forall i: nat ensures Bit(Or(x, y), i) == Bit(Or(y, x), i) {
      OrBit(x, y, i);
      OrBit(y, x, i);
    }
    Extensional(Or(x, y), Or(y, x));
  }

  lemma ControlChange(value: nat, fcr: nat)
    ensures And(Xor(value, fcr), 1) != 0 <==> Bit(value, 0) != Bit(fcr, 0)
  {
    hide And, Xor, Bit;
    Masks(Xor(value, fcr));
    XorBit(value, fcr, 0);
  }
}
