/**
  Bit fields of packed signals, after `src/packed.hpp`.  A signal is either one
  unsigned scalar of 8, 16, 32 or 64 bits or an array of 32-bit words; fields
  are read and written through 32-bit words and may cross word boundaries.
 */
module Packed {
  import opened Axi
  import opened Bits
  import opened Bytes

  datatype Signal = Scalar(bits: nat, value: nat) | Wide(words: seq<u32>)

  predicate SignalOk(s: Signal) {
    s.Scalar? ==> s.bits in {8, 16, 32, 64} && s.value < Pow2(s.bits)
  }

  /** Bits of storage. */
  function Width(s: Signal): nat {
    if s.Scalar? then s.bits else 32 * |s.words|
  }

  predicate SignalBit(s: Signal, i: nat) {
    i < Width(s) &&
    if s.Scalar? then Bit(s.value, i) else Bit(s.words[i / 32], i % 32)
  }

  /** Reading a word past the end of an array is undefined in the source. */
  predicate WordOk(s: Signal, index: nat) {
    s.Wide? ==> index < |s.words|
  }

  predicate FieldOk(s: Signal, lsb: nat, width: nat) {
    s.Wide? ==> lsb + width <= Width(s)
  }

  /** The value of a field, bit by bit; a scalar reads as zero past its end. */
  function Field(s: Signal, lsb: nat, width: nat): nat {
    FromBools(seq(width, i requires 0 <= i < width => SignalBit(s, lsb + i)))
  }

  ghost predicate SameShape(s: Signal, t: Signal) {
    SignalOk(t) && Width(s) == Width(t) && (s.Scalar? <==> t.Scalar?)
  }

  ghost predicate WrittenAt(s: Signal, t: Signal, lsb: nat, width: nat, value: nat, i: nat) {
    SignalBit(t, i) ==
      if lsb <= i < lsb + width then i < Width(s) && Bit(value, i - lsb) else SignalBit(s, i)
  }

  /** t is s with the field replaced by `value` and every other bit kept. */
  ghost predicate Written(s: Signal, t: Signal, lsb: nat, width: nat, value: nat) {
    SameShape(s, t) && forall i: nat :: WrittenAt(s, t, lsb, width, value, i)
  }

  // ---- laws of fields -----------------------------------------------------

  lemma FieldBit(s: Signal, lsb: nat, width: nat, i: nat)
    ensures Bit(Field(s, lsb, width), i) <==> i < width && SignalBit(s, lsb + i)
  {
    FromBoolsBit(seq(width, k requires 0 <= k < width => SignalBit(s, lsb + k)), i);
  }

  lemma EmptyField(s: Signal, lsb: nat)
    ensures Field(s, lsb, 0) == 0
  {}

  function Min(a: nat, b: nat): nat { if a < b then a else b }

  /** Bits of the field that exist in storage. */
  function Stored(s: Signal, lsb: nat, width: nat): nat {
    if lsb >= Width(s) then 0 else Min(width, Width(s) - lsb)
  }

  /** Reading a written field gives the value modulo 2^width, cut at the end of a scalar. */
  lemma RoundTrip(s: Signal, t: Signal, lsb: nat, width: nat, value: nat)
    requires Written(s, t, lsb, width, value)
    ensures Field(t, lsb, width) == value % Pow2(Stored(s, lsb, width))
  {
    var n := Stored(s, lsb, width);
    forall i: nat ensures Bit(Field(t, lsb, width), i) == Bit(Low(value, n), i) {
      FieldBit(t, lsb, width, i);
      LowBit(value, n, i);
      assert WrittenAt(s, t, lsb, width, value, lsb + i);
    }
    Extensional(Field(t, lsb, width), Low(value, n));
    LowIsMod(value, n);
  }

  /** A write leaves every disjoint field as it was. */
  lemma Frame(s: Signal, t: Signal, lsb: nat, width: nat, value: nat, lsb': nat, width': nat)
    requires Written(s, t, lsb, width, value)
    requires lsb' + width' <= lsb || lsb + width <= lsb'
    ensures Field(t, lsb', width') == Field(s, lsb', width')
  {
    forall i: nat ensures Bit(Field(t, lsb', width'), i) == Bit(Field(s, lsb', width'), i) {
      FieldBit(t, lsb', width', i);
      FieldBit(s, lsb', width', i);
      assert WrittenAt(s, t, lsb, width, value, lsb' + i);
    }
    Extensional(Field(t, lsb', width'), Field(s, lsb', width'));
  }

  /** A signal is its bits, so the bits of a write fix the whole signal. */
  lemma WriteUnique(s: Signal, t: Signal, u: Signal, lsb: nat, width: nat, value: nat)
    requires Written(s, t, lsb, width, value) && Written(s, u, lsb, width, value)
    ensures t == u
  {
    forall i: nat ensures SignalBit(t, i) == SignalBit(u, i) {
      assert WrittenAt(s, t, lsb, width, value, i) && WrittenAt(s, u, lsb, width, value, i);
    }
    if t.Scalar? {
      BelowPow2(t.value, t.bits);
      BelowPow2(u.value, u.bits);
      forall i: nat ensures Bit(t.value, i) == Bit(u.value, i) {
        assert SignalBit(t, i) == SignalBit(u, i);
      }
      Extensional(t.value, u.value);
    } else {
      forall k | 0 <= k < |t.words| ensures t.words[k] == u.words[k] { SameWord(t, u, k); }
      assert t.words == u.words;
    }
  }

  lemma SameWord(t: Signal, u: Signal, k: nat)
    requires t.Wide? && u.Wide? && |t.words| == |u.words| && k < |t.words|
    requires forall i: nat :: SignalBit(t, i) == SignalBit(u, i)
    ensures t.words[k] == u.words[k]
  {
    hide Bit, Pow2;
    var x, y := t.words[k], u.words[k];
    Powers();
    BelowPow2(x, 32);
    BelowPow2(y, 32);
    forall j: nat ensures Bit(x, j) == Bit(y, j) {
      if j < 32 {
        assert SignalBit(t, 32 * k + j) == SignalBit(u, 32 * k + j);
        assert (32 * k + j) / 32 == k && (32 * k + j) % 32 == j;
      }
    }
    Extensional(x, y);
  }

  /** Two adjacent writes are one write of both fields. */
  lemma WriteJoin(s: Signal, t: Signal, u: Signal, lsb: nat, done: nat, count: nat, value: nat)
    requires Written(s, t, lsb, done, value)
    requires Written(t, u, lsb + done, count, Shr(value, done))
    ensures Written(s, u, lsb, done + count, value)
  {
    var width := done + count;
    forall i: nat ensures WrittenAt(s, u, lsb, width, value, i) {
      assert WrittenAt(s, t, lsb, done, value, i);
      assert WrittenAt(t, u, lsb + done, count, Shr(value, done), i);
      if lsb + done <= i { ShrBit(value, done, i - (lsb + done)); }
    }
  }

  // ---- words ------------------------------------------------------------

  function Word(s: Signal, index: nat): nat
    requires WordOk(s, index)
  {
    if s.Wide? then s.words[index]
    else if index * 32 >= s.bits then 0
    else Low(Shr(s.value, index * 32), 32)
  }

  lemma WordBit(s: Signal, index: nat, j: nat)
    requires SignalOk(s) && WordOk(s, index)
    ensures Bit(Word(s, index), j) <==> j < 32 && SignalBit(s, 32 * index + j)
  {
    Powers();
    if s.Wide? {
      BelowPow2(s.words[index], 32);
      assert j < 32 ==> (32 * index + j) / 32 == index && (32 * index + j) % 32 == j;
    } else if index * 32 >= s.bits {
      ZeroBit(j);
    } else {
      LowBit(Shr(s.value, index * 32), 32, j);
      ShrBit(s.value, index * 32, j);
      BelowPow2(s.value, s.bits);
    }
  }

  /** The scalar arithmetic of `set_word`: clear one word of `current`, then set it. */
  function Splice(current: nat, bits: nat, index: nat, value: u32): nat {
    var wide := if bits < 32 then 32 else bits;
    var shift := index * 32;
    var mask := Low(Shl(TWO32 - 1, shift), wide);
    Low(Or(And(current, Not(mask, wide)), Low(Shl(value, shift), wide)), bits)
  }

  lemma AllOnes(j: nat)
    ensures Bit(TWO32 - 1, j) <==> j < 32
  {
    Powers();
    MaskBit(32, j);
  }

  lemma SpliceBit(current: nat, bits: nat, index: nat, value: u32, i: nat)
    requires index * 32 < bits && bits in {8, 16, 32, 64}
    ensures Bit(Splice(current, bits, index, value), i) <==>
            i < bits && if i / 32 == index then Bit(value, i % 32) else Bit(current, i)
  {
    hide And, Or, Not, Low, Shl, Bit, Pow2;
    var wide := if bits < 32 then 32 else bits;
    var shift := index * 32;
    var mask := Low(Shl(TWO32 - 1, shift), wide);
    var kept := And(current, Not(mask, wide));
    var put := Low(Shl(value, shift), wide);
    LowBit(Or(kept, put), bits, i);
    OrBit(kept, put, i);
    AndBit(current, Not(mask, wide), i);
    NotBit(mask, wide, i);
    LowBit(Shl(TWO32 - 1, shift), wide, i);
    ShlBit(TWO32 - 1, shift, i);
    LowBit(Shl(value, shift), wide, i);
    ShlBit(value, shift, i);
    if i >= shift {
      AllOnes(i - shift);
      Powers();
      BelowPow2(value, 32);
    }
  }

  lemma SpliceFits(current: nat, bits: nat, index: nat, value: u32)
    ensures Splice(current, bits, index, value) < Pow2(bits)
  {
    var wide := if bits < 32 then 32 else bits;
    var mask := Low(Shl(TWO32 - 1, index * 32), wide);
    LowIsMod(Or(And(current, Not(mask, wide)), Low(Shl(value, index * 32), wide)), bits);
  }

  lemma WordWritten(s: Signal, t: Signal, index: nat, value: u32, ok: bool)
    requires SignalOk(s) && WordOk(s, index) && SameShape(s, t) && ok == (32 * index < Width(s))
    requires s.Wide? ==> t.words == s.words[index := value]
    requires s.Scalar? ==> t.value == if ok then Splice(s.value, s.bits, index, value) else s.value
    ensures Written(s, t, 32 * index, 32, value)
  {
    hide Splice, Bit, Pow2;
    var lsb := 32 * index;
    forall i: nat ensures WrittenAt(s, t, lsb, 32, value, i) {
      if ok && s.Scalar? { SpliceBit(s.value, s.bits, index, value, i); }
      assert lsb <= i < lsb + 32 <==> i / 32 == index;
      assert lsb <= i < lsb + 32 ==> i - lsb == i % 32;
    }
  }

  /** A signal held in place and the accessors that change it. */
  class PackedSignal {
    var signal: Signal

    constructor (s: Signal)
      requires SignalOk(s)
      ensures signal == s
    {
      signal := s;
    }

    /** `set_word` throws (false) past the end of a scalar. */
    method SetWord(index: nat, value: u32) returns (ok: bool)
      requires SignalOk(signal) && WordOk(signal, index)
      modifies this
      ensures ok <==> 32 * index < Width(old(signal))
      ensures Written(old(signal), signal, 32 * index, 32, value)
    {
      hide Splice, SignalBit;
      var s := signal;
      if s.Wide? {
        signal := Wide(s.words[index := value]);
        ok := true;
      } else if index * 32 >= s.bits {
        ok := false;
      } else {
        signal := Scalar(s.bits, Splice(s.value, s.bits, index, value));
        SpliceFits(s.value, s.bits, index, value);
        ok := true;
      }
      WordWritten(s, signal, index, value, ok);
    }

    /** The loop gathers the field piece by piece; None is the width error. */
    method ReadU64(lsb: nat, width: nat) returns (r: Option<nat>)
      requires SignalOk(signal) && FieldOk(signal, lsb, width)
      ensures r == if width > 64 then None else Some(Field(signal, lsb, width))
    {
      hide Field, Bit, SignalBit, SignalOk, Low, Or, And, Shr, Shl;
      if width > 64 { return None; }
      var result, copied := 0, 0;
      assert result == Field(signal, lsb, copied) by { EmptyField(signal, lsb); }
      while copied < width
        invariant copied <= width
        invariant result == Field(signal, lsb, copied)
      {
        var source := lsb + copied;
        var offset := source % 32;
        var count := Min(width - copied, 32 - offset);
        var mask := if count == 32 then TWO32 - 1 else Shl(1, count) - 1;
        assert mask == Pow2(count) - 1 by { MaskBit(count, 0); Powers(); }
        var part := And(Shr(Word(signal, source / 32), offset), mask);
        PieceRead(signal, lsb, copied, count);
        result := Or(result, Low(Shl(part, copied), 64));
        copied := copied + count;
      }
      r := Some(result);
    }

    /**
      The loop replaces the field word by word.  A false result is an error: a
      width over 64, which changes nothing, or a word past the end of a scalar,
      which is met only after every stored bit of the field was written.
     */
    method WriteU64(lsb: nat, width: nat, value: u64) returns (ok: bool)
      requires SignalOk(signal) && FieldOk(signal, lsb, width)
      modifies this
      ensures ok <==> width <= 64 && (width == 0 || 32 * ((lsb + width - 1) / 32) < Width(old(signal)))
      ensures Written(old(signal), signal, lsb, if width > 64 then 0 else width, value)
    {
      hide Bit, SignalBit, SignalOk, Low, Or, And, Not, Shr, Shl;
      ghost var s := signal;
      assert Written(s, s, lsb, 0, value) by { NothingWritten(s, lsb, value); }
      if width > 64 { return false; }
      var copied := 0;
      while copied < width
        invariant copied <= width
        invariant Written(s, signal, lsb, copied, value)
        invariant copied == 0 || 32 * ((lsb + copied - 1) / 32) < Width(s)
      {
        var bit := lsb + copied;
        var offset := bit % 32;
        var count := Min(width - copied, 32 - offset);
        var lowMask := if count == 32 then TWO32 - 1 else Low(Shl(1, count) - 1, 32);
        var mask := Low(Shl(lowMask, offset), 32);
        var current := Word(signal, bit / 32);
        var piece := Low(Shl(Low(Shr(value, copied), 32), offset), 32);
        current := Or(And(current, Not(mask, 32)), And(piece, mask));
        ghost var t := signal;
        PieceFits(t, bit, count, Shr(value, copied));
        assert lowMask == LowMask(count);
        assert current == Piece(t, bit, count, Shr(value, copied));
        ok := SetWord(bit / 32, current);
        PieceWritten(t, signal, bit, count, Shr(value, copied));
        WriteJoin(s, t, signal, lsb, copied, count, value);
        if !ok {
          BeyondEnd(s, signal, lsb, copied + count, width, value);
          return false;
        }
        copied := copied + count;
        assert (lsb + copied - 1) / 32 == bit / 32;
      }
      ok := true;
    }

    /** Byte i of the result is the 8-bit field at lsb + 8 i. */
    method ReadBytes(lsb: nat, size: nat) returns (r: seq<byte>)
      requires SignalOk(signal) && FieldOk(signal, lsb, 8 * size)
      ensures |r| == size
      ensures forall i | 0 <= i < size :: r[i] == Field(signal, lsb + 8 * i, 8)
    {
      r := [];
      while |r| < size
        invariant |r| <= size
        invariant forall i | 0 <= i < |r| :: r[i] == Field(signal, lsb + 8 * i, 8)
      {
        var field := ReadU64(lsb + |r| * 8, 8);
        FieldIsByte(signal, lsb + 8 * |r|);
        r := r + [field.value];
      }
    }

    /**
      Writing bytes is one write of the little-endian number they spell.  It fails
      as one wide write would: at a byte past the end of a scalar, when every stored
      bit has been written.
     */
    method WriteBytes(lsb: nat, bytes: seq<byte>) returns (ok: bool)
      requires SignalOk(signal) && FieldOk(signal, lsb, 8 * |bytes|)
      modifies this
      ensures ok <==> bytes == [] || 32 * ((lsb + 8 * |bytes| - 1) / 32) < Width(old(signal))
      ensures Written(old(signal), signal, lsb, 8 * |bytes|, LittleEndian(bytes))
    {
      hide Bit, SignalBit, LittleEndian, Shr, SignalOk, Width;
      ghost var s, number := signal, LittleEndian(bytes);
      NothingWritten(s, lsb, number);
      var i := 0;
      while i < |bytes|
        invariant 0 <= i <= |bytes|
        invariant Written(s, signal, lsb, 8 * i, number)
        invariant i == 0 || 32 * ((lsb + 8 * i - 1) / 32) < Width(s)
      {
        ghost var t := signal;
        ok := WriteU64(lsb + i * 8, 8, bytes[i]);
        ByteOfNumber(t, signal, lsb + 8 * i, bytes, i);
        WriteJoin(s, t, signal, lsb, 8 * i, 8, number);
        i := i + 1;
        if !ok {
          BeyondEnd(s, signal, lsb, 8 * i, 8 * |bytes|, number);
          return;
        }
      }
      ok := true;
    }
  }

  // ---- one piece of a field ----------------------------------------------

  function LowMask(count: nat): nat {
    if count == 32 then TWO32 - 1 else Low(Shl(1, count) - 1, 32)
  }

  function Piece(s: Signal, bit: nat, count: nat, value: nat): nat
    requires WordOk(s, bit / 32)
  {
    var mask := Low(Shl(LowMask(count), bit % 32), 32);
    Or(And(Word(s, bit / 32), Not(mask, 32)), And(Low(Shl(Low(value, 32), bit % 32), 32), mask))
  }

  lemma LowMaskBit(count: nat, j: nat)
    requires 1 <= count <= 32
    ensures Shl(1, count) >= 1
    ensures Bit(LowMask(count), j) <==> j < count
  {
    MaskBit(count, j);
    Powers();
    if count < 32 { LowBit(Shl(1, count) - 1, 32, j); }
  }

  lemma PieceBit(s: Signal, bit: nat, count: nat, value: nat, j: nat)
    requires SignalOk(s) && WordOk(s, bit / 32) && 1 <= count <= 32 - bit % 32
    ensures Bit(Piece(s, bit, count, value), j) <==>
            j < 32 && if bit % 32 <= j < bit % 32 + count then Bit(value, j - bit % 32)
                      else SignalBit(s, 32 * (bit / 32) + j)
  {
    hide And, Or, Not, Low, Shl, Shr, Bit, Pow2, Word, LowMask;
    var offset := bit % 32;
    var mask := Low(Shl(LowMask(count), offset), 32);
    var word := Word(s, bit / 32);
    var put := Low(Shl(Low(value, 32), offset), 32);
    OrBit(And(word, Not(mask, 32)), And(put, mask), j);
    AndBit(word, Not(mask, 32), j);
    NotBit(mask, 32, j);
    AndBit(put, mask, j);
    LowBit(Shl(LowMask(count), offset), 32, j);
    ShlBit(LowMask(count), offset, j);
    LowBit(Shl(Low(value, 32), offset), 32, j);
    ShlBit(Low(value, 32), offset, j);
    if j >= offset {
      LowMaskBit(count, j - offset);
      LowBit(value, 32, j - offset);
    }
    WordBit(s, bit / 32, j);
  }

  lemma PieceFits(s: Signal, bit: nat, count: nat, value: nat)
    requires SignalOk(s) && WordOk(s, bit / 32) && 1 <= count <= 32 - bit % 32
    ensures Shl(1, count) >= 1
    ensures Piece(s, bit, count, value) < TWO32
  {
    LowMaskBit(count, 0);
    var p := Piece(s, bit, count, value);
    Powers();
    BelowPow2(p, 32);
    forall j: nat | j >= 32 ensures !Bit(p, j) { PieceBit(s, bit, count, value, j); }
  }

  lemma PieceWritten(s: Signal, t: Signal, bit: nat, count: nat, value: nat)
    requires SignalOk(s) && WordOk(s, bit / 32) && 1 <= count <= 32 - bit % 32
    requires Written(s, t, 32 * (bit / 32), 32, Piece(s, bit, count, value))
    ensures Written(s, t, bit, count, value)
  {
    hide Piece, Bit, SignalOk;
    var base := 32 * (bit / 32);
    assert bit == base + bit % 32;
    forall i: nat ensures WrittenAt(s, t, bit, count, value, i) {
      assert WrittenAt(s, t, base, 32, Piece(s, bit, count, value), i);
      if i >= base { PieceBit(s, bit, count, value, i - base); }
    }
  }

  lemma NothingWritten(s: Signal, lsb: nat, value: nat)
    requires SignalOk(s)
    ensures Written(s, s, lsb, 0, value)
  {
    forall i: nat ensures WrittenAt(s, s, lsb, 0, value, i) {}
  }

  /** Past the end of storage there is nothing left to write. */
  lemma BeyondEnd(s: Signal, t: Signal, lsb: nat, done: nat, width: nat, value: nat)
    requires Written(s, t, lsb, done, value) && done <= width
    requires Width(s) <= lsb + done
    ensures Written(s, t, lsb, width, value)
  {
    forall i: nat ensures WrittenAt(s, t, lsb, width, value, i) {
      assert WrittenAt(s, t, lsb, done, value, i);
    }
  }

  lemma PieceRead(s: Signal, lsb: nat, copied: nat, count: nat)
    requires SignalOk(s) && FieldOk(s, lsb, copied + count) && copied + count <= 64
    requires 1 <= count <= 32 - (lsb + copied) % 32
    ensures Pow2(count) >= 1
    ensures Or(Field(s, lsb, copied),
               Low(Shl(And(Shr(Word(s, (lsb + copied) / 32), (lsb + copied) % 32), Pow2(count) - 1), copied), 64))
         == Field(s, lsb, copied + count)
  {
    hide Word, Field, And, Or, Low, Shl, Shr, Bit, Pow2;
    var source := lsb + copied;
    var part := And(Shr(Word(s, source / 32), source % 32), Pow2(count) - 1);
    var after := Field(s, lsb, copied + count);
    var next := Or(Field(s, lsb, copied), Low(Shl(part, copied), 64));
    forall i: nat ensures Bit(next, i) == Bit(after, i) { PieceReadBit(s, lsb, copied, count, i); }
    Extensional(next, after);
  }

  lemma PieceReadBit(s: Signal, lsb: nat, copied: nat, count: nat, i: nat)
    requires SignalOk(s) && FieldOk(s, lsb, copied + count) && copied + count <= 64
    requires 1 <= count <= 32 - (lsb + copied) % 32
    ensures Bit(Or(Field(s, lsb, copied),
                   Low(Shl(And(Shr(Word(s, (lsb + copied) / 32), (lsb + copied) % 32), Pow2(count) - 1),
                           copied), 64)), i)
         == Bit(Field(s, lsb, copied + count), i)
  {
    hide Word, Field, And, Or, Low, Shl, Shr, Bit, Pow2, SignalOk;
    var source := lsb + copied;
    var offset := source % 32;
    var word := Word(s, source / 32);
    var part := And(Shr(word, offset), Pow2(count) - 1);
    FieldBit(s, lsb, copied, i);
    FieldBit(s, lsb, copied + count, i);
    OrBit(Field(s, lsb, copied), Low(Shl(part, copied), 64), i);
    LowBit(Shl(part, copied), 64, i);
    ShlBit(part, copied, i);
    if i >= copied {
      var j := i - copied;
      AndBit(Shr(word, offset), Pow2(count) - 1, j);
      MaskBit(count, j);
      ShrBit(word, offset, j);
      WordBit(s, source / 32, j + offset);
      assert 32 * (source / 32) + j + offset == lsb + i;
    }
  }

  // ---- bytes ----------------------------------------------------------------

  lemma ByteOfNumber(s: Signal, t: Signal, lsb: nat, bytes: seq<byte>, i: nat)
    requires i < |bytes| && Written(s, t, lsb, 8, bytes[i])
    ensures Written(s, t, lsb, 8, Shr(LittleEndian(bytes), 8 * i))
  {
    var n := Shr(LittleEndian(bytes), 8 * i);
    LittleEndianByte(bytes, i);
    forall k: nat ensures WrittenAt(s, t, lsb, 8, n, k) {
      assert WrittenAt(s, t, lsb, 8, bytes[i], k);
      if lsb <= k < lsb + 8 { LowBit(n, 8, k - lsb); }
    }
  }

  lemma FieldIsByte(s: Signal, lsb: nat)
    ensures Field(s, lsb, 8) < 256
  {
    Powers();
    FromBoolsBelow(seq(8, i requires 0 <= i < 8 => SignalBit(s, lsb + i)));
  }

  /** Byte arrays round-trip; every byte that lies inside the signal is read back. */
  lemma BytesRoundTrip(s: Signal, t: Signal, lsb: nat, bytes: seq<byte>, i: nat)
    requires i < |bytes| && lsb + 8 * i + 8 <= Width(s)
    requires Written(s, t, lsb, 8 * |bytes|, LittleEndian(bytes))
    ensures Field(t, lsb + 8 * i, 8) == bytes[i]
  {
    hide Bit, Low, Shr, Field, LittleEndian;
    var n := LittleEndian(bytes);
    var f := Field(t, lsb + 8 * i, 8);
    forall k: nat ensures Bit(f, k) == Bit(Low(Shr(n, 8 * i), 8), k) {
      FieldBit(t, lsb + 8 * i, 8, k);
      LowBit(Shr(n, 8 * i), 8, k);
      ShrBit(n, 8 * i, k);
      assert WrittenAt(s, t, lsb, 8 * |bytes|, n, lsb + 8 * i + k);
    }
    Extensional(f, Low(Shr(n, 8 * i), 8));
    LittleEndianByte(bytes, i);
  }
}
