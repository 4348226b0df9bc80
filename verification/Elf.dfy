/**
  ELF32 and ELF64 headers as `src/elf_loader.cpp` decodes them, and an encoder
  that serves as the reference for the layout.
 */
module Elf {
  import opened Axi
  import opened Bits
  import opened Bytes

  datatype Error =
    Truncated | BadMagic | BadClass | BadEncoding | BadVersion | SmallHeader | ExtendedCount | SmallEntry | Overflow

  datatype Result<T> = Ok(value: T) | Fail(error: Error)

  datatype Header = Header(entry: u64, table: u64, entrySize: nat, count: nat, wide: bool)

  /** A program header, decoded. */
  datatype ProgramHeader = ProgramHeader(
    kind: u32, fileOffset: u64, virtualAddress: u64, physicalAddress: u64,
    fileSize: u64, memorySize: u64, alignment: u64)
  {
    function LoadAddress(): u64 { if physicalAddress != 0 then physicalAddress else virtualAddress }
    predicate Loads() { kind == PT_LOAD && memorySize > 0 }
  }

  const PT_LOAD := 1
  const MAGIC: seq<byte> := [0x7f, 0x45, 0x4c, 0x46]

  function HeaderSize(wide: bool): nat { if wide then 64 else 52 }
  function EntrySize(wide: bool): nat { if wide then 56 else 32 }

  /** The little-endian word of n bytes at an offset. */
  function At(image: seq<byte>, offset: nat, n: nat): (r: u64)
    requires offset + n <= |image| && n in {2, 4, 8}
    ensures n == 2 ==> r < 0x1_0000
    ensures n == 4 ==> r < TWO32
  {
    NumberBelow(image[offset..offset + n]);
    Powers();
    assert Pow2(16) == 0x1_0000;
    LittleEndian(image[offset..offset + n])
  }

  lemma OneLonger(image: seq<byte>, offset: nat, i: nat)
    requires offset + i < |image|
    ensures image[offset..offset + i] + [image[offset + i]] == image[offset..offset + i + 1]
  {}

  /** `read_little_endian`: the byte loop gathers that word; None past the end of the image. */
  method ReadLittleEndian(image: seq<byte>, offset: u64, n: nat) returns (r: Option<u64>)
    requires n in {2, 4, 8}
    ensures r.Some? <==> offset + n <= |image|
    ensures r.Some? ==> r.value == At(image, offset, n)
  {
    if offset > |image| || n > |image| - offset { return None; }
    var value, i := 0, 0;
    while i < n
      invariant 0 <= i <= n
      invariant value == LittleEndian(image[offset..offset + i])
    {
      AppendByte(image[offset..offset + i], image[offset + i]);
      OneLonger(image, offset, i);
      value := Or(value, Shl(image[offset + i], i * 8));
      i := i + 1;
    }
    assert value == At(image, offset, n);
    r := Some(value);
  }

  function ParseHeader(image: seq<byte>): Result<Header> {
    if |image| < 16 then Fail(Truncated)
    else if image[..4] != MAGIC then Fail(BadMagic)
    else if image[4] != 1 && image[4] != 2 then Fail(BadClass)
    else if image[5] != 1 then Fail(BadEncoding)
    else if image[6] != 1 then Fail(BadVersion)
    else
      var wide := image[4] == 2;
      if |image| < HeaderSize(wide) then Fail(Truncated)
      else if At(image, 20, 4) != 1 then Fail(BadVersion)
      else
        var entry := if wide then At(image, 24, 8) else At(image, 24, 4);
        var table := if wide then At(image, 32, 8) else At(image, 28, 4);
        var declared := At(image, if wide then 52 else 40, 2);
        var entrySize := At(image, if wide then 54 else 42, 2);
        var count := At(image, if wide then 56 else 44, 2);
        if declared < HeaderSize(wide) then Fail(SmallHeader)
        else if count == 0xffff then Fail(ExtendedCount)
        else if count != 0 && entrySize < EntrySize(wide) then Fail(SmallEntry)
        else if count * entrySize >= TWO64 then Fail(Overflow)
        else if table > |image| || count * entrySize > |image| - table then Fail(Truncated)
        else Ok(Header(entry, table, entrySize, count, wide))
  }

  /** What an accepted file looks like, byte by byte: the magic number, a class of 1 or 2,
      little-endian, version 1 twice, a large enough header, and a program header table
      of ordinary count that lies in the file. */
  ghost predicate Readable(image: seq<byte>) {
    && |image| >= 52 && image[0] == 0x7f && image[1] == 0x45 && image[2] == 0x4c && image[3] == 0x46
    && (image[4] == 1 || (image[4] == 2 && |image| >= 64)) && image[5] == 1 && image[6] == 1 && At(image, 20, 4) == 1
    && var wide := image[4] == 2;
       var table, size, count := At(image, if wide then 32 else 28, if wide then 8 else 4),
                                 At(image, if wide then 54 else 42, 2), At(image, if wide then 56 else 44, 2);
       && At(image, if wide then 52 else 40, 2) >= (if wide then 64 else 52)
       && count < 0xffff && (count > 0 ==> size >= if wide then 56 else 32) && table + count * size <= |image|
  }

  lemma ReadableExactly(image: seq<byte>)
    requires |image| < TWO64
    ensures ParseHeader(image).Ok? <==> Readable(image)
    ensures ParseHeader(image).Ok? ==>
              var h, wide := ParseHeader(image).value, image[4] == 2;
              && h.wide == wide && h.entry == At(image, 24, if wide then 8 else 4)
              && h.table == At(image, if wide then 32 else 28, if wide then 8 else 4)
              && h.entrySize == At(image, if wide then 54 else 42, 2)
              && h.count == At(image, if wide then 56 else 44, 2)
  {
    hide At;
    if |image| >= 16 {
      assert image[..4] == MAGIC <==> image[0] == 0x7f && image[1] == 0x45 && image[2] == 0x4c && image[3] == 0x46;
    }
    if |image| >= 52 && (image[4] == 1 || (image[4] == 2 && |image| >= 64)) {
      var size, count := At(image, if image[4] == 2 then 54 else 42, 2), At(image, if image[4] == 2 then 56 else 44, 2);
      CountTimesSize(count, size);
    }
  }

  lemma CountTimesSize(count: nat, size: nat)
    ensures 0 <= count * size
  {}

  function Fields64(image: seq<byte>, at: nat): ProgramHeader
    requires at + 56 <= |image|
  {
    ProgramHeader(At(image, at, 4), At(image, at + 8, 8), At(image, at + 16, 8), At(image, at + 24, 8),
                  At(image, at + 32, 8), At(image, at + 40, 8), At(image, at + 48, 8))
  }

  function Fields32(image: seq<byte>, at: nat): ProgramHeader
    requires at + 32 <= |image|
  {
    ProgramHeader(At(image, at, 4), At(image, at + 4, 4), At(image, at + 8, 4), At(image, at + 12, 4),
                  At(image, at + 16, 4), At(image, at + 20, 4), At(image, at + 28, 4))
  }

  /** Entries of other kinds are skipped: only their kind is read. */
  function Skipped(kind: u32): ProgramHeader { ProgramHeader(kind, 0, 0, 0, 0, 0, 0) }

  function ParseEntry(image: seq<byte>, h: Header, index: nat): Result<ProgramHeader> {
    if index * h.entrySize >= TWO64 || h.table + index * h.entrySize >= TWO64 then Fail(Overflow)
    else
      var at := h.table + index * h.entrySize;
      if at + 4 > |image| then Fail(Truncated)
      else if At(image, at, 4) != PT_LOAD then Ok(Skipped(At(image, at, 4)))
      else if at + EntrySize(h.wide) > |image| then Fail(Truncated)
      else Ok(if h.wide then Fields64(image, at) else Fields32(image, at))
  }

  /** Once the header is accepted every entry it announces can be read. */
  lemma EntriesReadable(image: seq<byte>, index: nat)
    requires |image| < TWO64 && ParseHeader(image).Ok? && index < ParseHeader(image).value.count
    ensures ParseEntry(image, ParseHeader(image).value, index).Ok?
  {
    hide At;
    var h := ParseHeader(image).value;
    EntryInTable(index, h.count, h.entrySize);
  }

  lemma EntryInTable(index: nat, count: nat, size: nat)
    requires index < count
    ensures 0 <= index * size && index * size + size <= count * size
  {
    assert (index + 1) * size <= count * size;
  }

  /** The first n entries of an image, in order. */
  ghost function Entries(image: seq<byte>, h: Header, n: nat): seq<ProgramHeader> {
    if n == 0 then []
    else
      var e := ParseEntry(image, h, n - 1);
      Entries(image, h, n - 1) + if e.Ok? then [e.value] else []
  }

  /** An encoder's program headers are the entries decoded, those of other kinds reduced to their kind. */
  lemma {:induction false} EntriesRoundTrip(wide: bool, entry: u64, hs: seq<ProgramHeader>, body: seq<byte>, n: nat)
    requires n <= |hs| < 0xffff && (wide || entry < TWO32)
    requires forall i | 0 <= i < |hs| :: Representable(wide, hs[i])
    ensures var es := Entries(EncodeImage(wide, entry, hs, body),
                              Header(entry, HeaderSize(wide), EntrySize(wide), |hs|, wide), n);
            |es| == n && forall i | 0 <= i < n :: es[i] == if hs[i].kind == PT_LOAD then hs[i] else Skipped(hs[i].kind)
  {
    hide ParseEntry, EncodeImage;
    if n > 0 {
      EntriesRoundTrip(wide, entry, hs, body, n - 1);
      EntryRoundTrip(wide, entry, hs, body, n - 1);
    }
  }

  // ---- the layout, written out ----------------------------------------------------

  function Flat(parts: seq<seq<byte>>): seq<byte> {
    if parts == [] then [] else Flat(parts[..|parts| - 1]) + parts[|parts| - 1]
  }

  function Start(parts: seq<seq<byte>>, i: nat): nat
    requires i <= |parts|
  {
    if i == 0 then 0 else Start(parts, i - 1) + |parts[i - 1]|
  }

  lemma {:induction false} StartPrefix(parts: seq<seq<byte>>, n: nat, i: nat)
    requires i <= n <= |parts|
    ensures Start(parts[..n], i) == Start(parts, i)
  {
    if i > 0 { StartPrefix(parts, n, i - 1); }
  }

  lemma {:induction false} FlatLength(parts: seq<seq<byte>>)
    ensures |Flat(parts)| == Start(parts, |parts|)
  {
    if parts != [] {
      var n := |parts| - 1;
      FlatLength(parts[..n]);
      StartPrefix(parts, n, n);
    }
  }

  /** Part i stands at its start. */
  lemma {:induction false} FlatAt(parts: seq<seq<byte>>, i: nat)
    requires i < |parts|
    ensures Start(parts, i) + |parts[i]| <= |Flat(parts)|
    ensures Flat(parts)[Start(parts, i)..Start(parts, i) + |parts[i]|] == parts[i]
  {
    var n := |parts| - 1;
    FlatLength(parts[..n]);
    if i < n {
      FlatAt(parts[..n], i);
      StartPrefix(parts, n, i);
    } else {
      StartPrefix(parts, n, n);
    }
  }

  lemma SliceOfSlice(image: seq<byte>, base: nat, length: nat, s: nat, n: nat)
    requires base + length <= |image| && s + n <= length
    ensures image[base..base + length][s..s + n] == image[base + s..base + s + n]
  {
    var l, r := image[base..base + length][s..s + n], image[base + s..base + s + n];
    assert |l| == |r|;
    forall i | 0 <= i < n ensures l[i] == r[i] {
      assert l[i] == image[base..base + length][s + i];
    }
  }

  /** Reading a word of an image whose bytes from `base` on are the flattened parts. */
  lemma WordAt(image: seq<byte>, base: nat, parts: seq<seq<byte>>, i: nat, x: nat, n: nat)
    requires i < |parts| && parts[i] == Encode(x, n) && n in {2, 4, 8} && x < Pow2(8 * n)
    requires base + |Flat(parts)| <= |image| && image[base..base + |Flat(parts)|] == Flat(parts)
    ensures base + Start(parts, i) + n <= |image|
    ensures At(image, base + Start(parts, i), n) == x
  {
    hide Encode, Flat;
    FlatAt(parts, i);
    EncodeRoundTrip(x, n);
    var s := Start(parts, i);
    var flat := Flat(parts);
    SliceOfSlice(image, base, |flat|, s, n);
  }

  function HeaderParts(wide: bool, entry: u64, count: nat): seq<seq<byte>> {
    var a := if wide then 8 else 4;
    [MAGIC + [if wide then 2 else 1, 1, 1] + [0, 0, 0, 0, 0, 0, 0, 0, 0],
     Encode(2, 2), Encode(0xf3, 2), Encode(1, 4), Encode(entry, a), Encode(HeaderSize(wide), a), Encode(0, a),
     Encode(0, 4), Encode(HeaderSize(wide), 2), Encode(EntrySize(wide), 2), Encode(count, 2),
     Encode(0, 2), Encode(0, 2), Encode(0, 2)]
  }

  function EntryParts(wide: bool, h: ProgramHeader): seq<seq<byte>> {
    if wide then
      [Encode(h.kind, 4), Encode(0, 4), Encode(h.fileOffset, 8), Encode(h.virtualAddress, 8),
       Encode(h.physicalAddress, 8), Encode(h.fileSize, 8), Encode(h.memorySize, 8), Encode(h.alignment, 8)]
    else
      [Encode(h.kind, 4), Encode(h.fileOffset, 4), Encode(h.virtualAddress, 4), Encode(h.physicalAddress, 4),
       Encode(h.fileSize, 4), Encode(h.memorySize, 4), Encode(0, 4), Encode(h.alignment, 4)]
  }

  function Table(wide: bool, hs: seq<ProgramHeader>): seq<byte> {
    if hs == [] then [] else Table(wide, hs[..|hs| - 1]) + Flat(EntryParts(wide, hs[|hs| - 1]))
  }

  /** An image: header, program headers, then anything. */
  function EncodeImage(wide: bool, entry: u64, hs: seq<ProgramHeader>, body: seq<byte>): seq<byte> {
    Flat(HeaderParts(wide, entry, |hs|)) + Table(wide, hs) + body
  }

  /** The fields fit the class. */
  predicate Representable(wide: bool, h: ProgramHeader) {
    wide || (h.fileOffset < TWO32 && h.virtualAddress < TWO32 && h.physicalAddress < TWO32 &&
             h.fileSize < TWO32 && h.memorySize < TWO32 && h.alignment < TWO32)
  }

  lemma HeaderStarts(wide: bool, entry: u64, count: nat)
    ensures var p := HeaderParts(wide, entry, count);
            && |Flat(p)| == HeaderSize(wide)
            && Start(p, 3) == 20 && Start(p, 4) == 24 && Start(p, 5) == (if wide then 32 else 28)
            && Start(p, 8) == (if wide then 52 else 40) && Start(p, 9) == (if wide then 54 else 42)
            && Start(p, 10) == (if wide then 56 else 44)
  {
    hide Encode, Flat;
    var p := HeaderParts(wide, entry, count);
    FlatLength(p);
    assert Start(p, 1) == 16;
    assert Start(p, 2) == 18;
    assert Start(p, 3) == 20;
    assert Start(p, 4) == 24;
    assert Start(p, 6) == if wide then 40 else 32;
    assert Start(p, 8) == if wide then 52 else 40;
    assert Start(p, 10) == if wide then 56 else 44;
    assert Start(p, 12) == if wide then 60 else 48;
  }

  lemma EntryStarts(wide: bool, h: ProgramHeader)
    ensures var p := EntryParts(wide, h);
            && |p| == 8 && |Flat(p)| == EntrySize(wide)
            && Start(p, 0) == 0
            && Start(p, 1) == 4 && Start(p, 2) == 8 && Start(p, 3) == (if wide then 16 else 12)
            && Start(p, 4) == (if wide then 24 else 16) && Start(p, 5) == (if wide then 32 else 20)
            && Start(p, 6) == (if wide then 40 else 24) && Start(p, 7) == (if wide then 48 else 28)
  {
    hide Encode, Flat;
    var p := EntryParts(wide, h);
    FlatLength(p);
    assert Start(p, 1) == 4;
    assert Start(p, 2) == 8;
    assert Start(p, 3) == if wide then 16 else 12;
    assert Start(p, 4) == if wide then 24 else 16;
    assert Start(p, 5) == if wide then 32 else 20;
    assert Start(p, 6) == if wide then 40 else 24;
    assert Start(p, 7) == if wide then 48 else 28;
    assert Start(p, 8) == EntrySize(wide);
  }

  lemma {:induction false} TableLength(wide: bool, hs: seq<ProgramHeader>)
    ensures |Table(wide, hs)| == |hs| * EntrySize(wide)
  {
    if hs != [] {
      var n := |hs| - 1;
      TableLength(wide, hs[..n]);
      EntryStarts(wide, hs[n]);
    }
  }

  lemma {:induction false} TableEntry(wide: bool, hs: seq<ProgramHeader>, i: nat)
    requires i < |hs|
    ensures i * EntrySize(wide) + EntrySize(wide) <= |Table(wide, hs)|
    ensures Table(wide, hs)[i * EntrySize(wide)..i * EntrySize(wide) + EntrySize(wide)] == Flat(EntryParts(wide, hs[i]))
  {
    hide Flat, EntryParts;
    var n := |hs| - 1;
    TableLength(wide, hs[..n]);
    EntryStarts(wide, hs[i]);
    EntryStarts(wide, hs[n]);
    if i < n {
      TableEntry(wide, hs[..n], i);
    }
  }

  /** The decoder reads back the header an encoder wrote. */
  lemma HeaderRoundTrip(wide: bool, entry: u64, hs: seq<ProgramHeader>, body: seq<byte>)
    requires |hs| < 0xffff && (wide || entry < TWO32)
    ensures ParseHeader(EncodeImage(wide, entry, hs, body))
         == Ok(Header(entry, HeaderSize(wide), EntrySize(wide), |hs|, wide))
  {
    hide Encode, Flat, At, Table, Start;
    var image := EncodeImage(wide, entry, hs, body);
    var p := HeaderParts(wide, entry, |hs|);
    HeaderStarts(wide, entry, |hs|);
    HeaderWords(wide, entry, hs, body);
    TableLength(wide, hs);
    Identification(image, p, wide);
  }

  lemma Identification(image: seq<byte>, p: seq<seq<byte>>, wide: bool)
    requires |p| > 0 && p[0] == MAGIC + [if wide then 2 else 1, 1, 1] + [0, 0, 0, 0, 0, 0, 0, 0, 0]
    requires |Flat(p)| <= |image| && image[..|Flat(p)|] == Flat(p)
    ensures |image| >= 16 && image[..4] == MAGIC && image[4] == (if wide then 2 else 1) && image[5] == 1 &&
            image[6] == 1
  {
    hide Flat;
    FlatAt(p, 0);
    var flat := Flat(p);
    assert flat[0..16] == p[0];
    assert forall k | 0 <= k < 16 :: image[k] == flat[0..16][k];
    assert image[..4] == p[0][..4];
  }

  lemma HeaderWords(wide: bool, entry: u64, hs: seq<ProgramHeader>, body: seq<byte>)
    requires |hs| < 0xffff && (wide || entry < TWO32)
    ensures var image := EncodeImage(wide, entry, hs, body);
            && |image| >= HeaderSize(wide)
            && image[..HeaderSize(wide)] == Flat(HeaderParts(wide, entry, |hs|))
            && At(image, 20, 4) == 1
            && At(image, 24, if wide then 8 else 4) == entry
            && At(image, if wide then 32 else 28, if wide then 8 else 4) == HeaderSize(wide)
            && At(image, if wide then 52 else 40, 2) == HeaderSize(wide)
            && At(image, if wide then 54 else 42, 2) == EntrySize(wide)
            && At(image, if wide then 56 else 44, 2) == |hs|
  {
    hide Encode, Flat, At, Table, Start, Pow2;
    var image := EncodeImage(wide, entry, hs, body);
    var p := HeaderParts(wide, entry, |hs|);
    var a := if wide then 8 else 4;
    HeaderStarts(wide, entry, |hs|);
    Powers();
    TwoBytes();
    assert image[0..|Flat(p)|] == Flat(p);
    WordAt(image, 0, p, 3, 1, 4);
    WordAt(image, 0, p, 4, entry, a);
    WordAt(image, 0, p, 5, HeaderSize(wide), a);
    WordAt(image, 0, p, 8, HeaderSize(wide), 2);
    WordAt(image, 0, p, 9, EntrySize(wide), 2);
    WordAt(image, 0, p, 10, |hs|, 2);
  }

  lemma TwoBytes()
    ensures Pow2(16) == 0x1_0000
  {
    assert Pow2(8) == 256;
  }

  /** The decoder reads back every program header an encoder wrote. */
  lemma EntryRoundTrip(wide: bool, entry: u64, hs: seq<ProgramHeader>, body: seq<byte>, i: nat)
    requires i < |hs| < 0xffff && (wide || entry < TWO32) && Representable(wide, hs[i])
    ensures ParseEntry(EncodeImage(wide, entry, hs, body),
                       Header(entry, HeaderSize(wide), EntrySize(wide), |hs|, wide), i)
         == Ok(if hs[i].kind == PT_LOAD then hs[i] else Skipped(hs[i].kind))
  {
    hide Encode, Flat, At, Table, Start, HeaderParts, EntryParts;
    var image := EncodeImage(wide, entry, hs, body);
    var at := HeaderSize(wide) + i * EntrySize(wide);
    HeaderStarts(wide, entry, |hs|);
    TableEntry(wide, hs, i);
    EntryStarts(wide, hs[i]);
    var flat := Flat(EntryParts(wide, hs[i]));
    assert image[at..at + EntrySize(wide)] == flat by {
      var t := Table(wide, hs);
      assert image[HeaderSize(wide)..HeaderSize(wide) + |t|] == t;
      assert image[at..at + EntrySize(wide)] == t[i * EntrySize(wide)..i * EntrySize(wide) + EntrySize(wide)];
    }
    FieldsAt(image, at, wide, hs[i]);
  }

  lemma FieldsAt(image: seq<byte>, at: nat, wide: bool, h: ProgramHeader)
    requires at + EntrySize(wide) <= |image| && Representable(wide, h)
    requires image[at..at + EntrySize(wide)] == Flat(EntryParts(wide, h))
    ensures At(image, at, 4) == h.kind
    ensures (if wide then Fields64(image, at) else Fields32(image, at)) == h
  {
    hide Encode, Flat, At, Start, Pow2;
    var p := EntryParts(wide, h);
    EntryStarts(wide, h);
    Powers();
    WordAt(image, at, p, 0, h.kind, 4);
    if wide {
      WordAt(image, at, p, 2, h.fileOffset, 8);
      WordAt(image, at, p, 3, h.virtualAddress, 8);
      WordAt(image, at, p, 4, h.physicalAddress, 8);
      WordAt(image, at, p, 5, h.fileSize, 8);
      WordAt(image, at, p, 6, h.memorySize, 8);
      WordAt(image, at, p, 7, h.alignment, 8);
    } else {
      WordAt(image, at, p, 1, h.fileOffset, 4);
      WordAt(image, at, p, 2, h.virtualAddress, 4);
      WordAt(image, at, p, 3, h.physicalAddress, 4);
      WordAt(image, at, p, 4, h.fileSize, 4);
      WordAt(image, at, p, 5, h.memorySize, 4);
      WordAt(image, at, p, 7, h.alignment, 4);
    }
  }
}
