/** Byte memories: what a lane-strobed access does, and the RAM device doing it. */
module Memory {
  import opened Axi

  predicate InBounds(offset: nat, length: nat, capacity: nat) {
    offset + length <= capacity
  }

  /** Bytes after a write of `data` at `offset`, lane i only where strobe[i]. */
  function Store(bytes: seq<byte>, offset: nat, data: seq<byte>, strobe: seq<bool>): (r: seq<byte>)
    requires |data| == |strobe|
    ensures |r| == |bytes|
    ensures forall i | 0 <= i < |bytes| ::
              r[i] == if offset <= i < offset + |data| && strobe[i - offset] then data[i - offset] else bytes[i]
  {
    seq(|bytes|, i requires 0 <= i < |bytes| =>
      if offset <= i < offset + |data| && strobe[i - offset] then data[i - offset] else bytes[i])
  }

  /** A RAM: bytes in an array, accessed one beat at a time. */
  class RamDevice {
    const bytes: array<byte>

    constructor (size: nat)
      requires size > 0
      ensures fresh(bytes) && bytes.Length == size
      ensures forall i | 0 <= i < size :: bytes[i] == 0
    {
      bytes := new byte[size](_ => 0);
    }

    method Read(offset: u64, enable: seq<bool>) returns (r: Response, data: seq<byte>)
      ensures |data| == |enable|
      ensures r == if |enable| == 0 || InBounds(offset, |enable|, bytes.Length) then Okay else SlaveError
      ensures forall i | 0 <= i < |enable| ::
                data[i] == if r.Okay? && enable[i] then bytes[offset + i] else 0
    {
      data := seq(|enable|, _ => 0);
      if |enable| == 0 { return Okay, data; }
      if !(offset <= bytes.Length && |enable| <= bytes.Length - offset) { return SlaveError, data; }
      var lane := 0;
      while lane < |enable|
        invariant 0 <= lane <= |enable| == |data|
        invariant forall i | 0 <= i < lane :: data[i] == if enable[i] then bytes[offset + i] else 0
        invariant forall i | lane <= i < |enable| :: data[i] == 0
      {
        if enable[lane] { data := data[lane := bytes[offset + lane]]; }
        lane := lane + 1;
      }
      r := Okay;
    }

    method Write(offset: u64, data: seq<byte>, strobe: seq<bool>) returns (r: Response)
      requires |data| == |strobe|
      modifies bytes
      ensures r == if |data| == 0 || InBounds(offset, |data|, bytes.Length) then Okay else SlaveError
      ensures bytes[..] == if r.Okay? then Store(old(bytes[..]), offset, data, strobe) else old(bytes[..])
    {
      if |data| == 0 {
        assert bytes[..] == Store(old(bytes[..]), offset, data, strobe);
        return Okay;
      }
      if !(offset <= bytes.Length && |data| <= bytes.Length - offset) { return SlaveError; }
      var lane := 0;
      while lane < |data|
        invariant 0 <= lane <= |data|
        invariant forall i | 0 <= i < bytes.Length ::
                    bytes[i] == if offset <= i < offset + lane && strobe[i - offset] then data[i - offset]
                                else old(bytes[i])
      {
        if strobe[lane] { bytes[offset + lane] := data[lane]; }
        lane := lane + 1;
      }
      assert bytes[..] == Store(old(bytes[..]), offset, data, strobe);
      r := Okay;
    }

    /** Host loading overwrites every byte of the range. */
    method Load(offset: u64, data: seq<byte>) returns (r: Response)
      modifies bytes
      ensures r == if InBounds(offset, |data|, bytes.Length) then Okay else SlaveError
      ensures bytes[..] == if r.Okay? then Store(old(bytes[..]), offset, data, seq(|data|, _ => true))
                           else old(bytes[..])
    {
      if !(offset <= bytes.Length && |data| <= bytes.Length - offset) { return SlaveError; }
      var i := 0;
      while i < |data|
        invariant 0 <= i <= |data|
        invariant forall j | 0 <= j < bytes.Length ::
                    bytes[j] == if offset <= j < offset + i then data[j - offset] else old(bytes[j])
      {
        bytes[offset + i] := data[i];
        i := i + 1;
      }
      assert bytes[..] == Store(old(bytes[..]), offset, data, seq(|data|, _ => true));
      r := Okay;
    }
  }
}
