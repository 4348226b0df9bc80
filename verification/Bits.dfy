/**
  Unsigned machine words as natural numbers: single bits, and the C++ bitwise
  and shift operators defined so that each is known by the bits of its result.
 */
module Bits {
  import Arith
  import opened Axi

  const TWO32 := 0x1_0000_0000

  type u32 = x: int | 0 <= x < TWO32

  /** Bit i of x; every bit above the top of x is clear. */
  predicate Bit(x: nat, i: nat) {
    if i == 0 then x % 2 == 1 else Bit(x / 2, i - 1)
  }

  function B(b: bool): nat { if b then 1 else 0 }

  function And(x: nat, y: nat): (r: nat)
    ensures r <= x && r <= y
  {
    if x == 0 || y == 0 then 0 else 2 * And(x / 2, y / 2) + B(x % 2 == 1 && y % 2 == 1)
  }

  function Or(x: nat, y: nat): (r: nat)
    ensures x <= r && y <= r
  {
    if x == 0 then y else 2 * Or(x / 2, y / 2) + B(x % 2 == 1 || y % 2 == 1)
  }

  function Xor(x: nat, y: nat): nat {
    if x == 0 then y else 2 * Xor(x / 2, y / 2) + B(x % 2 != y % 2)
  }

  /** The n-bit complement. */
  function Not(x: nat, n: nat): nat {
    if n == 0 then 0 else 2 * Not(x / 2, n - 1) + (1 - x % 2)
  }

  /** The low n bits: conversion to an n-bit unsigned type. */
  function Low(x: nat, n: nat): nat {
    if n == 0 then 0 else 2 * Low(x / 2, n - 1) + x % 2
  }

  function Shl(x: nat, k: nat): (r: nat)
    ensures r >= x
  {
    if k == 0 then x else 2 * Shl(x, k - 1)
  }

  function Shr(x: nat, k: nat): (r: nat)
    ensures r <= x
  {
    if k == 0 then x else Shr(x / 2, k - 1)
  }

  function FromBools(b: seq<bool>): nat {
    if b == [] then 0 else B(b[0]) + 2 * FromBools(b[1..])
  }

  // ---- the bits of each result ------------------------------------------

  lemma {:induction false} ZeroBit(i: nat)
    ensures !Bit(0, i)
  {
    if i > 0 { ZeroBit(i - 1); }
  }

  lemma {:induction false} AndBit(x: nat, y: nat, i: nat)
    ensures Bit(And(x, y), i) <==> Bit(x, i) && Bit(y, i)
  {
    if x == 0 || y == 0 {
      ZeroBit(i);
    } else {
      var h := And(x / 2, y / 2);
      assert And(x, y) / 2 == h;
      if i > 0 { AndBit(x / 2, y / 2, i - 1); }
    }
  }

  lemma {:induction false} OrBit(x: nat, y: nat, i: nat)
    ensures Bit(Or(x, y), i) <==> Bit(x, i) || Bit(y, i)
  {
    if x == 0 {
      ZeroBit(i);
    } else {
      assert Or(x, y) / 2 == Or(x / 2, y / 2);
      if i > 0 { OrBit(x / 2, y / 2, i - 1); }
    }
  }

  lemma {:induction false} XorBit(x: nat, y: nat, i: nat)
    ensures Bit(Xor(x, y), i) <==> Bit(x, i) != Bit(y, i)
  {
    if x == 0 {
      ZeroBit(i);
    } else {
      assert Xor(x, y) / 2 == Xor(x / 2, y / 2);
      if i > 0 { XorBit(x / 2, y / 2, i - 1); }
    }
  }

  lemma {:induction false} NotBit(x: nat, n: nat, i: nat)
    ensures Bit(Not(x, n), i) <==> i < n && !Bit(x, i)
  {
    if n == 0 {
      ZeroBit(i);
    } else {
      assert Not(x, n) / 2 == Not(x / 2, n - 1);
      if i > 0 { NotBit(x / 2, n - 1, i - 1); }
    }
  }

  lemma {:induction false} LowBit(x: nat, n: nat, i: nat)
    ensures Bit(Low(x, n), i) <==> i < n && Bit(x, i)
  {
    if n == 0 {
      ZeroBit(i);
    } else {
      assert Low(x, n) / 2 == Low(x / 2, n - 1);
      if i > 0 { LowBit(x / 2, n - 1, i - 1); }
    }
  }

  lemma {:induction false} ShlBit(x: nat, k: nat, i: nat)
    ensures Bit(Shl(x, k), i) <==> i >= k && Bit(x, i - k)
  {
    if k > 0 && i > 0 { ShlBit(x, k - 1, i - 1); }
  }

  lemma {:induction false} ShrBit(x: nat, k: nat, i: nat)
    ensures Bit(Shr(x, k), i) <==> Bit(x, i + k)
  {
    if k > 0 { ShrBit(x / 2, k - 1, i); }
  }

  lemma {:induction false} FromBoolsBit(b: seq<bool>, i: nat)
    ensures Bit(FromBools(b), i) <==> i < |b| && b[i]
  {
    if b == [] {
      ZeroBit(i);
    } else {
      assert FromBools(b) / 2 == FromBools(b[1..]);
      if i > 0 { FromBoolsBit(b[1..], i - 1); }
    }
  }

  lemma OneBit(i: nat)
    ensures Bit(1, i) <==> i == 0
  {
    if i > 0 { ZeroBit(i - 1); }
  }

  // ---- a word is its bits -------------------------------------------------

  ghost predicate SameBits(x: nat, y: nat) {
    forall i: nat :: Bit(x, i) == Bit(y, i)
  }

  lemma {:induction false} Extensional(x: nat, y: nat)
    requires SameBits(x, y)
    ensures x == y
    decreases x + y
  {
    assert Bit(x, 0) == Bit(y, 0);
    if x + y > 0 {
      forall i: nat ensures Bit(x / 2, i) == Bit(y / 2, i) {
        assert Bit(x, i + 1) == Bit(y, i + 1);
      }
      Extensional(x / 2, y / 2);
    }
  }

  // ---- ranges ---------------------------------------------------------------

  ghost predicate ClearFrom(x: nat, n: nat) {
    forall i: nat | i >= n :: !Bit(x, i)
  }

  lemma {:induction false} BelowPow2(x: nat, n: nat)
    ensures x < Pow2(n) <==> ClearFrom(x, n)
  {
    if n == 0 {
      if x == 0 {
        forall i: nat ensures !Bit(x, i) { ZeroBit(i); }
      } else {
        ghost var i := TopBit(x);
        assert Bit(x, i);
      }
    } else {
      BelowPow2(x / 2, n - 1);
      if x < Pow2(n) {
        forall i: nat | i >= n ensures !Bit(x, i) { assert !Bit(x / 2, i - 1); }
      } else {
        ghost var i: nat :| i >= n - 1 && Bit(x / 2, i);
        ghost var j := i + 1;
        assert j - 1 == i && Bit(x, j);
      }
    }
  }

  ghost function TopBit(x: nat): (i: nat)
    requires x > 0
    ensures Bit(x, i)
  {
    if x == 1 then 0 else TopBit(x / 2) + 1
  }

  lemma {:induction false} LowIsMod(x: nat, n: nat)
    ensures Low(x, n) == x % Pow2(n) && Low(x, n) < Pow2(n)
  {
    if n > 0 {
      LowIsMod(x / 2, n - 1);
      HalfMod(x, Pow2(n - 1));
    }
  }

  lemma HalfMod(x: nat, m: nat)
    requires m > 0
    ensures x % (2 * m) == 2 * ((x / 2) % m) + x % 2
  {
    var q := (x / 2) / m;
    var r := (x / 2) % m;
    assert x / 2 == m * q + r;
    assert x == (2 * m) * q + (2 * r + x % 2);
    Arith.DivModUnique(x, 2 * m, q, 2 * r + x % 2);
  }

  /** Masking with 2^n - 1 keeps the low n bits. */
  lemma {:induction false} MaskIsLow(x: nat, n: nat)
    ensures And(x, Pow2(n) - 1) == Low(x, n)
  {
    if n > 0 {
      var h := Pow2(n - 1);
      MaskIsLow(x / 2, n - 1);
      assert (2 * h - 1) / 2 == h - 1;
    }
  }

  lemma AndOnes(x: nat, n: nat)
    ensures And(x, Pow2(n) - 1) == x % Pow2(n)
  {
    MaskIsLow(x, n);
    LowIsMod(x, n);
  }

  /** Numbers without a common bit are joined by addition. */
  lemma {:induction false} OrDisjoint(x: nat, y: nat, n: nat)
    requires x % Pow2(n) == 0 && y < Pow2(n)
    ensures Or(x, y) == x + y
  {
    if x > 0 {
      if n > 0 {
        HalfMod(x, Pow2(n - 1));
        OrDisjoint(x / 2, y / 2, n - 1);
      } else {
        OrDisjoint(x / 2, 0, 0);
      }
    }
  }

  lemma LowFits(x: nat, n: nat)
    requires x < Pow2(n)
    ensures Low(x, n) == x
  {
    LowIsMod(x, n);
    Arith.ModSmall(x, Pow2(n));
  }

  lemma FromBoolsBelow(b: seq<bool>)
    ensures FromBools(b) < Pow2(|b|)
  {
    BelowPow2(FromBools(b), |b|);
    forall i: nat | i >= |b| ensures !Bit(FromBools(b), i) { FromBoolsBit(b, i); }
  }

  lemma Powers()
    ensures Pow2(8) == 256 && Pow2(32) == TWO32 && Pow2(64) == TWO64
  {
    assert Pow2(8) == 256;
    assert Pow2(16) == 65536;
    assert Pow2(24) == 0x100_0000;
    assert Pow2(32) == TWO32;
    assert Pow2(40) == 0x100_0000_0000;
    assert Pow2(48) == 0x1_0000_0000_0000;
    assert Pow2(56) == 0x100_0000_0000_0000;
  }

  /** Testing a bit with a one-bit mask. */
  lemma MaskTest(x: nat, k: nat)
    ensures And(x, Shl(1, k)) != 0 <==> Bit(x, k)
  {
    hide And, Shl;
    var m := And(x, Shl(1, k));
    if m == 0 {
      ZeroBit(k);
      AndBit(x, Shl(1, k), k);
      ShlBit(1, k, k);
    } else {
      var i := TopBit(m);
      AndBit(x, Shl(1, k), i);
      ShlBit(1, k, i);
      if i >= k { OneBit(i - k); }
    }
  }

  /** 2^n - 1 has exactly its n low bits set. */
  lemma {:induction false} MaskBit(n: nat, j: nat)
    ensures Shl(1, n) == Pow2(n)
    ensures Bit(Pow2(n) - 1, j) <==> j < n
  {
    if n == 0 {
      ZeroBit(j);
    } else {
      MaskBit(n - 1, if j == 0 then 0 else j - 1);
      assert (Pow2(n) - 1) / 2 == Pow2(n - 1) - 1;
    }
  }
}
