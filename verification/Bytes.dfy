/** Little-endian numbers: byte sequences read as unsigned words, and back. */
module Bytes {
  import Arith
  import opened Axi
  import opened Bits

  function LittleEndian(bytes: seq<byte>): nat {
    if bytes == [] then 0 else bytes[0] + 256 * LittleEndian(bytes[1..])
  }

  lemma {:induction false} LittleEndianByte(bytes: seq<byte>, i: nat)
    requires i < |bytes|
    ensures Low(Shr(LittleEndian(bytes), 8 * i), 8) == bytes[i]
  {
    hide Low, Pow2;
    var n := LittleEndian(bytes);
    Powers();
    if i == 0 {
      LowIsMod(n, 8);
      Arith.DivModUnique(n, 256, LittleEndian(bytes[1..]), bytes[0]);
    } else {
      LittleEndianByte(bytes[1..], i - 1);
      ShrShr(n, 8, 8 * (i - 1));
      ShrIsDiv(n, 8);
      Arith.DivModUnique(n, 256, LittleEndian(bytes[1..]), bytes[0]);
    }
  }

  lemma {:induction false} ShrShr(x: nat, j: nat, k: nat)
    ensures Shr(Shr(x, j), k) == Shr(x, j + k)
  {
    if j > 0 { ShrShr(x / 2, j - 1, k); }
  }

  lemma {:induction false} ShrIsDiv(x: nat, k: nat)
    ensures Shr(x, k) == x / Pow2(k)
  {
    if k > 0 {
      ShrIsDiv(x / 2, k - 1);
      HalfDiv(x, Pow2(k - 1));
    }
  }

  lemma HalfDiv(x: nat, m: nat)
    requires m > 0
    ensures x / 2 / m == x / (2 * m)
  {
    Arith.DivMod(x / 2, m);
    var q, r := x / 2 / m, x / 2 % m;
    assert x == (2 * m) * q + (2 * r + x % 2);
    Arith.DivModUnique(x, 2 * m, q, 2 * r + x % 2);
  }

  lemma {:induction false} AppendByte(bytes: seq<byte>, b: byte)
    ensures Or(LittleEndian(bytes), Shl(b, |bytes| * 8)) == LittleEndian(bytes + [b])
  {
    hide LittleEndian, Or, Shl, Shr, Bit, Pow2, Low;
    var all := bytes + [b];
    var l, r := Or(LittleEndian(bytes), Shl(b, |bytes| * 8)), LittleEndian(all);
    forall i: nat ensures Bit(l, i) == Bit(r, i) {
      OrBit(LittleEndian(bytes), Shl(b, |bytes| * 8), i);
      ShlBit(b, |bytes| * 8, i);
      NumberBit(bytes, i);
      NumberBit(all, i);
      if i >= 8 * |bytes| {
        ByteBits(b, i - 8 * |bytes|);
      }
    }
    Extensional(l, r);
  }

  lemma ByteBits(b: byte, i: nat)
    ensures i >= 8 ==> !Bit(b, i)
  {
    Powers();
    BelowPow2(b, 8);
  }

  /** Bit i of a little-endian number is bit i mod 8 of byte i / 8. */
  lemma NumberBit(bytes: seq<byte>, i: nat)
    ensures Bit(LittleEndian(bytes), i) <==> i / 8 < |bytes| && Bit(bytes[i / 8], i % 8)
  {
    hide LittleEndian, Shr, Bit, Pow2, Low;
    var n := LittleEndian(bytes);
    if i / 8 < |bytes| {
      LittleEndianByte(bytes, i / 8);
      LowBit(Shr(n, 8 * (i / 8)), 8, i % 8);
      ShrBit(n, 8 * (i / 8), i % 8);
      assert i % 8 + 8 * (i / 8) == i;
    } else {
      NumberBelow(bytes);
      BelowPow2(n, 8 * |bytes|);
    }
  }

  lemma {:induction false} NumberBelow(bytes: seq<byte>)
    ensures LittleEndian(bytes) < Pow2(8 * |bytes|)
  {
    if bytes != [] {
      NumberBelow(bytes[1..]);
      EightMore(8 * |bytes| - 8);
    }
  }

  lemma EightMore(n: nat)
    ensures Pow2(n + 8) == 256 * Pow2(n)
  {
    FourMore(n);
    FourMore(n + 4);
  }

  lemma FourMore(n: nat)
    ensures Pow2(n + 4) == 16 * Pow2(n)
  {
    assert Pow2(n + 4) == 2 * Pow2(n + 3);
    assert Pow2(n + 3) == 2 * Pow2(n + 2);
    assert Pow2(n + 2) == 2 * Pow2(n + 1);
  }

  /** The k low bytes of x. */
  function Encode(x: nat, k: nat): (r: seq<byte>)
    ensures |r| == k
  {
    if k == 0 then [] else [x % 256] + Encode(x / 256, k - 1)
  }

  /** A number that fits k bytes is read back from its encoding. */
  lemma {:induction false} EncodeRoundTrip(x: nat, k: nat)
    requires x < Pow2(8 * k)
    ensures LittleEndian(Encode(x, k)) == x
  {
    if k > 0 {
      EightMore(8 * k - 8);
      EncodeRoundTrip(x / 256, k - 1);
      assert Encode(x, k)[1..] == Encode(x / 256, k - 1);
    }
  }
}
