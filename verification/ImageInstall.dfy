/**
  From the bytes of an ELF file to the bytes on the bus: every loadable segment
  stands at its physical address, or at its virtual one if that is zero, and
  nothing else changes.
 */
module ImageInstall {
  import opened Axi
  import opened Bits
  import opened AddressMap
  import opened Images
  import opened Elf

  // ---- what the loader accepts ---------------------------------------------------------------------

  ghost predicate PowerOfTwo(x: nat) { exists k: nat :: x == Pow2(k) }

  /** A header the loader accepts: consistent sizes, data in the file, congruent, one loadable target. */
  ghost predicate HeaderOk(image: seq<byte>, ms: seq<Mapping>, devices: seq<Device>, h: ProgramHeader) {
    h.kind == PT_LOAD ==>
      && h.fileSize <= h.memorySize
      && h.fileOffset + h.fileSize <= |image|
      && (h.alignment > 1 ==>
            PowerOfTwo(h.alignment) && h.virtualAddress % h.alignment == h.fileOffset % h.alignment)
      && h.LoadAddress() + h.memorySize < TWO64
      && (h.memorySize > 0 ==> Loadable(ms, devices, h.LoadAddress(), h.memorySize))
  }

  ghost predicate HeadersOk(image: seq<byte>, ms: seq<Mapping>, devices: seq<Device>, hs: seq<ProgramHeader>) {
    forall i | 0 <= i < |hs| :: HeaderOk(image, ms, devices, hs[i])
  }

  /** The chunks the headers describe: the non-empty loadable ones, in order. */
  ghost function ChunksOf(image: seq<byte>, hs: seq<ProgramHeader>): (r: seq<Chunk>) {
    if hs == [] then []
    else
      var h := hs[|hs| - 1];
      var rest := ChunksOf(image, hs[..|hs| - 1]);
      if h.Loads() && h.fileOffset + h.fileSize <= |image|
      then rest + [Chunk(h.LoadAddress(), h.memorySize, image[h.fileOffset..h.fileOffset + h.fileSize])]
      else rest
  }

  /** The chunks of an image whose header is accepted. */
  ghost function ImageChunks(image: seq<byte>): seq<Chunk> {
    var h := ParseHeader(image);
    if h.Ok? then ChunksOf(image, Entries(image, h.value, h.value.count)) else []
  }

  /** Header accepted, every program header acceptable, no two segments overlapping. */
  ghost predicate AcceptsImage(image: seq<byte>, ms: seq<Mapping>, devices: seq<Device>) {
    var h := ParseHeader(image);
    && h.Ok?
    && HeadersOk(image, ms, devices, Entries(image, h.value, h.value.count))
    && PairwiseApart(Ranges(ImageChunks(image)))
  }

  /** Entries only grow at the end. */
  lemma {:induction false} EntriesPrefix(image: seq<byte>, h: Header, m: nat, n: nat)
    requires m <= n
    ensures Entries(image, h, m) <= Entries(image, h, n)
  {
    if m < n { EntriesPrefix(image, h, m, n - 1); }
  }

  lemma NoEntries(image: seq<byte>, ms: seq<Mapping>, devices: seq<Device>, h: Header)
    ensures HeadersOk(image, ms, devices, Entries(image, h, 0)) && ChunksOf(image, Entries(image, h, 0)) == []
  {}

  lemma NextEntry(image: seq<byte>, ms: seq<Mapping>, devices: seq<Device>, h: Header, i: nat, e: ProgramHeader)
    requires ParseEntry(image, h, i) == Ok(e)
    ensures HeadersOk(image, ms, devices, Entries(image, h, i + 1)) <==>
            HeadersOk(image, ms, devices, Entries(image, h, i)) && HeaderOk(image, ms, devices, e)
    ensures ChunksOf(image, Entries(image, h, i + 1)) == ChunksOf(image, Entries(image, h, i)) +
            if e.Loads() && e.fileOffset + e.fileSize <= |image|
            then [Chunk(e.LoadAddress(), e.memorySize, image[e.fileOffset..e.fileOffset + e.fileSize])] else []
  {
    hide HeaderOk, ParseEntry;
    var before := Entries(image, h, i);
    var after := before + [e];
    assert after[..|before|] == before;
    assert forall k | 0 <= k < |before| :: after[k] == before[k];
    assert after[|before|] == e;
  }

  lemma BadEntry(image: seq<byte>, ms: seq<Mapping>, devices: seq<Device>, h: Header, i: nat, e: ProgramHeader)
    requires ParseEntry(image, h, i) == Ok(e) && i < h.count && !HeaderOk(image, ms, devices, e)
    ensures !HeadersOk(image, ms, devices, Entries(image, h, h.count))
  {
    hide HeaderOk, ParseEntry;
    EntriesPrefix(image, h, i + 1, h.count);
    var k := |Entries(image, h, i)|;
    assert Entries(image, h, i + 1)[k] == e;
    assert Entries(image, h, h.count)[k] == e;
  }

  function Ranges(cs: seq<Chunk>): (r: seq<Range>)
    ensures |r| == |cs| && forall i | 0 <= i < |cs| :: r[i] == Range(cs[i].address, cs[i].size)
  {
    seq(|cs|, i requires 0 <= i < |cs| => Range(cs[i].address, cs[i].size))
  }

  // ---- bytes on the bus ----------------------------------------------------------------------------

  /** Address x of the bus is byte k of device d. */
  ghost predicate ShownAt(ms: seq<Mapping>, x: int, d: nat, k: nat) {
    exists m: nat :: m < |ms| && ms[m].Contains(x, 1) && ms[m].device == d && x - ms[m].base == k
  }

  ghost predicate HoldsAt(ms: seq<Mapping>, devices: seq<Device>, x: int, b: byte) {
    exists d: nat, k: nat ::
      ShownAt(ms, x, d, k) && d < |devices| && devices[d].Storage? && k < |devices[d].bytes| && devices[d].bytes[k] == b
  }

  /** A program header that asks for memory. */
  predicate Occupies(h: ProgramHeader) { h.kind == 1 && h.memorySize > 0 }

  /** Bus address of byte i of a segment. */
  function ByteAddress(h: ProgramHeader, i: nat): nat {
    (if h.physicalAddress != 0 then h.physicalAddress else h.virtualAddress) + i
  }

  ghost predicate Installed(image: seq<byte>, ms: seq<Mapping>, devices: seq<Device>, h: ProgramHeader)
    requires h.fileOffset + h.fileSize <= |image|
  {
    forall i: nat | i < h.memorySize ::
      HoldsAt(ms, devices, ByteAddress(h, i), if i < h.fileSize then image[h.fileOffset + i] else 0)
  }

  /** Some segment has a byte there. */
  ghost predicate Reached(ms: seq<Mapping>, hs: seq<ProgramHeader>, d: nat, k: nat) {
    exists n: nat, i: nat ::
      n < |hs| && Occupies(hs[n]) && i < hs[n].memorySize && ShownAt(ms, ByteAddress(hs[n], i), d, k)
  }

  /** What loading did: every segment is in place and every other byte is as before. */
  ghost predicate Placed(image: seq<byte>, ms: seq<Mapping>, before: seq<Device>, after: seq<Device>,
                         hs: seq<ProgramHeader>) {
    && SameDevices(before, after)
    && (forall n | 0 <= n < |hs| && Occupies(hs[n]) ::
          hs[n].fileOffset + hs[n].fileSize <= |image| && Installed(image, ms, after, hs[n]))
    && (forall d: nat, k: nat | d < |before| && before[d].Storage? && k < |before[d].bytes| && !Reached(ms, hs, d, k) ::
          after[d].bytes[k] == before[d].bytes[k])
  }

  // ---- chunks and headers ------------------------------------------------------------------------

  function ChunkFor(image: seq<byte>, h: ProgramHeader): Chunk
    requires h.fileOffset + h.fileSize <= |image|
  {
    Chunk(ByteAddress(h, 0), h.memorySize, image[h.fileOffset..h.fileOffset + h.fileSize])
  }

  lemma {:induction false} ChunkOfHeader(image: seq<byte>, hs: seq<ProgramHeader>, n: nat)
    requires n < |hs| && Occupies(hs[n]) && hs[n].fileOffset + hs[n].fileSize <= |image|
    ensures ChunkFor(image, hs[n]) in ChunksOf(image, hs)
    decreases |hs|
  {
    var last := |hs| - 1;
    if n < last { ChunkOfHeader(image, hs[..last], n); }
  }

  lemma {:induction false} HeaderOfChunk(image: seq<byte>, hs: seq<ProgramHeader>, c: Chunk) returns (n: nat)
    requires c in ChunksOf(image, hs)
    ensures n < |hs| && Occupies(hs[n]) && hs[n].fileOffset + hs[n].fileSize <= |image| && c == ChunkFor(image, hs[n])
    decreases |hs|
  {
    var last := |hs| - 1;
    if c in ChunksOf(image, hs[..last]) { n := HeaderOfChunk(image, hs[..last], c); } else { n := last; }
  }

  /** A byte of a chunk is shown by the bus in the chunk's range. */
  lemma CoveredIsShown(ms: seq<Mapping>, c: Chunk, d: nat, k: nat) returns (i: nat)
    requires SpaceOk(ms) && Covers(ms, c, d, k)
    ensures i < c.size && ShownAt(ms, c.address + i, d, k)
  {
    hide Scan, SpaceOk;
    var m := Scan(ms, c.address, c.size).value;
    i := k - (c.address - ms[m].base);
    assert ms[m].Contains(c.address + i, 1);
  }

  /** Byte i of a loaded chunk stands at its address plus i. */
  lemma ChunkInstalled(ms: seq<Mapping>, before: seq<Device>, after: seq<Device>, chunks: seq<Chunk>, c: Chunk, i: nat)
    requires Loadable(ms, before, c.address, c.size) && Loaded(ms, chunks, before, after) && c in chunks && i < c.size
    ensures HoldsAt(ms, after, c.address + i, if i < |c.data| then c.data[i] else 0)
  {
    hide ByteLoaded, Scan;
    var m := Scan(ms, c.address, c.size).value;
    var d, k := ms[m].device, c.address - ms[m].base + i;
    assert ByteLoaded(ms, chunks, before, after, d, k);
    LoadedByte(ms, chunks, before, after, c, d, k);
    assert ms[m].Contains(c.address + i, 1);
    assert ShownAt(ms, c.address + i, d, k);
  }

  lemma SegmentInstalled(image: seq<byte>, ms: seq<Mapping>, before: seq<Device>, after: seq<Device>,
                         hs: seq<ProgramHeader>, n: nat, i: nat)
    requires HeadersOk(image, ms, before, hs) && Loaded(ms, ChunksOf(image, hs), before, after)
    requires n < |hs| && Occupies(hs[n]) && i < hs[n].memorySize
    ensures var h := hs[n];
            && h.fileOffset + h.fileSize <= |image|
            && HoldsAt(ms, after, ByteAddress(h, i), if i < h.fileSize then image[h.fileOffset + i] else 0)
  {
    hide ChunksOf, Loaded, Loadable, HoldsAt, PowerOfTwo;
    var h := hs[n];
    assert HeaderOk(image, ms, before, h);
    ChunkOfHeader(image, hs, n);
    ChunkInstalled(ms, before, after, ChunksOf(image, hs), ChunkFor(image, h), i);
  }

  lemma LoadedByte(ms: seq<Mapping>, chunks: seq<Chunk>, before: seq<Device>, after: seq<Device>, c: Chunk, d: nat,
                   k: nat)
    requires SameDevices(before, after) && d < |before| && before[d].Storage? && k < |before[d].bytes|
    requires ByteLoaded(ms, chunks, before, after, d, k) && c in chunks && Covers(ms, c, d, k)
    ensures after[d].bytes[k] == ByteOf(ms, c, d, k)
  {}

  lemma IsReached(ms: seq<Mapping>, hs: seq<ProgramHeader>, n: nat, i: nat, d: nat, k: nat)
    requires n < |hs| && Occupies(hs[n]) && i < hs[n].memorySize && ShownAt(ms, ByteAddress(hs[n], 0) + i, d, k)
    ensures Reached(ms, hs, d, k)
  {
    assert ShownAt(ms, ByteAddress(hs[n], i), d, k);
  }

  lemma OutsideUntouched(image: seq<byte>, ms: seq<Mapping>, before: seq<Device>, after: seq<Device>,
                         hs: seq<ProgramHeader>, d: nat, k: nat)
    requires SpaceOk(ms) && Loaded(ms, ChunksOf(image, hs), before, after)
    requires d < |before| && before[d].Storage? && k < |before[d].bytes| && !Reached(ms, hs, d, k)
    ensures after[d].bytes[k] == before[d].bytes[k]
  {
    hide ChunksOf, Scan, Covers;
    var chunks := ChunksOf(image, hs);
    forall c | c in chunks ensures !Covers(ms, c, d, k) {
      var n := HeaderOfChunk(image, hs, c);
      if Covers(ms, c, d, k) {
        var i := CoveredIsShown(ms, c, d, k);
        IsReached(ms, hs, n, i, d, k);
        assert false;
      }
    }
    assert ByteLoaded(ms, chunks, before, after, d, k);
  }

  /** What `LoadElf` leaves behind, in terms of the program headers. */
  lemma HeadersPlaced(image: seq<byte>, ms: seq<Mapping>, before: seq<Device>, after: seq<Device>,
                      hs: seq<ProgramHeader>)
    requires BoardOk(ms, before) && HeadersOk(image, ms, before, hs)
    requires Loaded(ms, ChunksOf(image, hs), before, after)
    ensures Placed(image, ms, before, after, hs)
  {
    hide ChunksOf, HeaderOk, HoldsAt, Loaded, Reached;
    LoadedShape(ms, ChunksOf(image, hs), before, after);
    forall n, i: nat | 0 <= n < |hs| && Occupies(hs[n]) && i < hs[n].memorySize
      ensures hs[n].fileOffset + hs[n].fileSize <= |image|
      ensures HoldsAt(ms, after, ByteAddress(hs[n], i), if i < hs[n].fileSize then image[hs[n].fileOffset + i] else 0)
    {
      SegmentInstalled(image, ms, before, after, hs, n, i);
    }
    forall n | 0 <= n < |hs| && Occupies(hs[n])
      ensures hs[n].fileOffset + hs[n].fileSize <= |image| && Installed(image, ms, after, hs[n])
    {
      SegmentInstalled(image, ms, before, after, hs, n, 0);
    }
    forall d: nat, k: nat | d < |before| && before[d].Storage? && k < |before[d].bytes| && !Reached(ms, hs, d, k)
      ensures after[d].bytes[k] == before[d].bytes[k]
    {
      OutsideUntouched(image, ms, before, after, hs, d, k);
    }
  }

  /** The program headers of an image whose header is accepted. */
  ghost function HeadersOf(image: seq<byte>): seq<ProgramHeader>
    requires ParseHeader(image).Ok?
  {
    Entries(image, ParseHeader(image).value, ParseHeader(image).value.count)
  }

  lemma ImagePlaced(image: seq<byte>, ms: seq<Mapping>, before: seq<Device>, after: seq<Device>)
    requires BoardOk(ms, before) && AcceptsImage(image, ms, before) && Loaded(ms, ImageChunks(image), before, after)
    ensures ParseHeader(image).Ok? && Placed(image, ms, before, after, HeadersOf(image))
  {
    hide ParseHeader, Entries, ChunksOf, HeadersOk, Loaded, BoardOk, Placed, PairwiseApart;
    HeadersPlaced(image, ms, before, after, HeadersOf(image));
  }

  /** Entries of other kinds are skipped by the decoder, and occupy nothing. */
  lemma SamePlacement(image: seq<byte>, ms: seq<Mapping>, before: seq<Device>, after: seq<Device>,
                      hs: seq<ProgramHeader>, es: seq<ProgramHeader>)
    requires Placed(image, ms, before, after, es) && |es| == |hs|
    requires forall i | 0 <= i < |hs| :: es[i] == if hs[i].kind == 1 then hs[i] else Skipped(hs[i].kind)
    ensures Placed(image, ms, before, after, hs)
  {
    hide HoldsAt, ShownAt;
    forall n | 0 <= n < |hs| && Occupies(hs[n])
      ensures hs[n].fileOffset + hs[n].fileSize <= |image| && Installed(image, ms, after, hs[n])
    {
      assert es[n] == hs[n];
    }
    forall d: nat, k: nat | Reached(ms, es, d, k) ensures Reached(ms, hs, d, k) {
      var n: nat, i: nat :|
        n < |es| && Occupies(es[n]) && i < es[n].memorySize && ShownAt(ms, ByteAddress(es[n], i), d, k);
      assert es[n] == hs[n];
    }
  }

  /**
    End to end: when the loader accepts the file an encoder wrote, byte i of every
    loadable segment stands on the bus at the physical address plus i, or at the
    virtual address plus i if the physical one is zero; it is the file byte up to the
    file size and zero up to the memory size; and no other byte changed.
   */
  lemma EncodedImagePlaced(wide: bool, entry: u64, hs: seq<ProgramHeader>, body: seq<byte>, ms: seq<Mapping>,
                           before: seq<Device>, after: seq<Device>)
    requires |hs| < 0xffff && (wide || entry < TWO32) && forall i | 0 <= i < |hs| :: Representable(wide, hs[i])
    requires BoardOk(ms, before) && AcceptsImage(EncodeImage(wide, entry, hs, body), ms, before)
    requires Loaded(ms, ImageChunks(EncodeImage(wide, entry, hs, body)), before, after)
    ensures Placed(EncodeImage(wide, entry, hs, body), ms, before, after, hs)
  {
    hide EncodeImage, ParseHeader, Entries, ChunksOf, HeadersOk, Loaded, BoardOk, Placed, PairwiseApart;
    var image := EncodeImage(wide, entry, hs, body);
    HeaderRoundTrip(wide, entry, hs, body);
    EntriesRoundTrip(wide, entry, hs, body, |hs|);
    ImagePlaced(image, ms, before, after);
    SamePlacement(image, ms, before, after, hs, HeadersOf(image));
  }

  // ---- exactly which images are accepted -------------------------------------------------------------

  /** One loadable window backs every byte of the segment. */
  ghost predicate Backed(ms: seq<Mapping>, devices: seq<Device>, h: ProgramHeader) {
    exists m: nat ::
      && m < |ms| && ms[m].Contains(ByteAddress(h, 0), h.memorySize) && ms[m].device < |devices|
      && devices[ms[m].device].Storage? &&
         ByteAddress(h, 0) + h.memorySize <= ms[m].base + |devices[ms[m].device].bytes|
  }

  /** What is demanded of a loadable program header. */
  ghost predicate SegmentOk(image: seq<byte>, ms: seq<Mapping>, devices: seq<Device>, h: ProgramHeader) {
    && h.fileSize <= h.memorySize && h.fileOffset + h.fileSize <= |image|
    && (h.alignment > 1 ==>
          (exists k: nat :: h.alignment == Pow2(k)) && h.virtualAddress % h.alignment == h.fileOffset % h.alignment)
    && ByteAddress(h, h.memorySize) < TWO64
    && (h.memorySize > 0 ==> Backed(ms, devices, h))
  }

  /** Byte k of device d is shown at an address of the segment. */
  ghost predicate Shows(ms: seq<Mapping>, h: ProgramHeader, d: nat, k: nat) {
    exists x: int :: ByteAddress(h, 0) <= x < ByteAddress(h, h.memorySize) && ShownAt(ms, x, d, k)
  }

  /** Two segments share an address or a device byte. */
  ghost predicate Collide(ms: seq<Mapping>, g: ProgramHeader, h: ProgramHeader) {
    || (ByteAddress(g, 0) < ByteAddress(h, h.memorySize) && ByteAddress(h, 0) < ByteAddress(g, g.memorySize))
    || exists d: nat, k: nat :: Shows(ms, g, d, k) && Shows(ms, h, d, k)
  }

  ghost predicate NoneCollide(ms: seq<Mapping>, hs: seq<ProgramHeader>) {
    forall i, j | 0 <= i < j < |hs| && Occupies(hs[i]) && Occupies(hs[j]) :: !Collide(ms, hs[i], hs[j])
  }

  lemma HeaderIsSegment(image: seq<byte>, ms: seq<Mapping>, devices: seq<Device>, h: ProgramHeader)
    requires SpaceOk(ms)
    ensures HeaderOk(image, ms, devices, h) <==> (h.kind == 1 ==> SegmentOk(image, ms, devices, h))
  {
    hide SpaceOk;
    if h.memorySize > 0 { LoadableIsBacked(ms, devices, h); }
  }

  lemma LoadableIsBacked(ms: seq<Mapping>, devices: seq<Device>, h: ProgramHeader)
    requires SpaceOk(ms) && h.memorySize > 0
    ensures Loadable(ms, devices, ByteAddress(h, 0), h.memorySize) <==> Backed(ms, devices, h)
  {
    hide Scan, SpaceOk;
    var a, n := ByteAddress(h, 0), h.memorySize;
    if m: nat :| m < |ms| && ms[m].Contains(a, n) && ms[m].device < |devices| && devices[ms[m].device].Storage? &&
                 a + n <= ms[m].base + |devices[ms[m].device].bytes| {
      ScanUnique(ms, a, n, m);
    }
    if Loadable(ms, devices, a, n) {
      var m := Scan(ms, a, n).value;
      assert ms[m].Contains(a, n);
    }
  }

  lemma ShowsIsCovers(ms: seq<Mapping>, image: seq<byte>, h: ProgramHeader, d: nat, k: nat)
    requires SpaceOk(ms) && h.fileOffset + h.fileSize <= |image|
    requires var c := ChunkFor(image, h); c.size > 0 && Scan(ms, c.address, c.size).Some?
    ensures Shows(ms, h, d, k) <==> Covers(ms, ChunkFor(image, h), d, k)
  {
    hide Scan;
    var c := ChunkFor(image, h);
    if Covers(ms, c, d, k) {
      var i := CoveredIsShown(ms, c, d, k);
      assert ShownAt(ms, c.address + i, d, k);
    }
    if x: int :| c.address <= x < c.address + c.size && ShownAt(ms, x, d, k) {
      var w: nat :| w < |ms| && ms[w].Contains(x, 1) && ms[w].device == d && x - ms[w].base == k;
      var m := Scan(ms, c.address, c.size).value;
      assert ms[m].Contains(x, 1);
      assert w == m;
    }
  }

  /** Chunks collide as their headers do. */
  ghost predicate Bump(ms: seq<Mapping>, a: Chunk, b: Chunk) {
    !Apart(Range(a.address, a.size), Range(b.address, b.size)) || Clash(ms, a, b)
  }

  lemma CollideIsBump(ms: seq<Mapping>, image: seq<byte>, g: ProgramHeader, h: ProgramHeader)
    requires SpaceOk(ms) && Occupies(g) && Occupies(h)
    requires g.fileOffset + g.fileSize <= |image| && h.fileOffset + h.fileSize <= |image|
    requires Scan(ms, ByteAddress(g, 0), g.memorySize).Some? && Scan(ms, ByteAddress(h, 0), h.memorySize).Some?
    ensures Collide(ms, g, h) <==> Bump(ms, ChunkFor(image, g), ChunkFor(image, h))
  {
    hide Scan, SpaceOk, Shows, Covers;
    forall d: nat, k: nat
      ensures Shows(ms, g, d, k) <==> Covers(ms, ChunkFor(image, g), d, k)
      ensures Shows(ms, h, d, k) <==> Covers(ms, ChunkFor(image, h), d, k)
    {
      ShowsIsCovers(ms, image, g, d, k);
      ShowsIsCovers(ms, image, h, d, k);
    }
    CoversNatural(ms, ChunkFor(image, g), ChunkFor(image, h));
  }

  lemma CoversNatural(ms: seq<Mapping>, a: Chunk, b: Chunk)
    ensures Clash(ms, a, b) <==> exists d: nat, k: nat :: Covers(ms, a, d, k) && Covers(ms, b, d, k)
  {
    hide Scan;
    if d, k :| Covers(ms, a, d, k) && Covers(ms, b, d, k) {
      assert Covers(ms, a, d as nat, k as nat);
    }
  }

  ghost predicate NoneBump(ms: seq<Mapping>, cs: seq<Chunk>) {
    forall i, j | 0 <= i < j < |cs| :: !Bump(ms, cs[i], cs[j])
  }

  lemma NoneBumpIs(ms: seq<Mapping>, cs: seq<Chunk>)
    ensures NoneBump(ms, cs) <==> PairwiseApart(Ranges(cs)) && NoClash(ms, cs)
  {
    hide Clash, Apart;
    var rs := Ranges(cs);
    forall i, j | 0 <= i < j < |cs|
      ensures Bump(ms, cs[i], cs[j]) <==> !Apart(rs[i], rs[j]) || Clash(ms, cs[j], cs[i])
    {
      ClashSymmetric(ms, cs[i], cs[j]);
    }
    if NoneBump(ms, cs) {
      forall i, j | 0 <= i < j < |rs| ensures Apart(rs[i], rs[j]) { assert !Bump(ms, cs[i], cs[j]); }
      forall i, j | 0 <= j < i < |cs| ensures !Clash(ms, cs[i], cs[j]) { assert !Bump(ms, cs[j], cs[i]); }
    }
    if PairwiseApart(rs) && NoClash(ms, cs) {
      forall i, j | 0 <= i < j < |cs| ensures !Bump(ms, cs[i], cs[j]) { assert Apart(rs[i], rs[j]); }
    }
  }

  ghost predicate SegmentsOk(image: seq<byte>, ms: seq<Mapping>, devices: seq<Device>, hs: seq<ProgramHeader>) {
    forall i | 0 <= i < |hs| && hs[i].kind == 1 :: SegmentOk(image, ms, devices, hs[i])
  }

  lemma NoneBumpPush(ms: seq<Mapping>, cs: seq<Chunk>, c: Chunk)
    ensures NoneBump(ms, cs + [c]) <==> NoneBump(ms, cs) && forall x | x in cs :: !Bump(ms, x, c)
  {
    hide Bump;
    var t := cs + [c];
    if NoneBump(ms, t) {
      forall i, j | 0 <= i < j < |cs| ensures !Bump(ms, cs[i], cs[j]) { assert !Bump(ms, t[i], t[j]); }
      forall x | x in cs ensures !Bump(ms, x, c) {
        var i :| 0 <= i < |cs| && cs[i] == x;
        assert !Bump(ms, t[i], t[|cs|]);
      }
    }
  }

  lemma NoneCollidePush(ms: seq<Mapping>, hs: seq<ProgramHeader>, h: ProgramHeader)
    ensures NoneCollide(ms, hs + [h]) <==>
            && NoneCollide(ms, hs)
            && forall i | 0 <= i < |hs| && Occupies(hs[i]) && Occupies(h) :: !Collide(ms, hs[i], h)
  {
    hide Collide, Occupies;
    var t := hs + [h];
    if NoneCollide(ms, t) {
      forall i, j | 0 <= i < j < |hs| && Occupies(hs[i]) && Occupies(hs[j]) ensures !Collide(ms, hs[i], hs[j]) {
        assert Occupies(t[i]) && Occupies(t[j]);
      }
      forall i | 0 <= i < |hs| && Occupies(hs[i]) && Occupies(h) ensures !Collide(ms, hs[i], h) {
        assert Occupies(t[i]) && Occupies(t[|hs|]);
      }
    }
  }

  lemma {:induction false} BumpsAreCollisions(image: seq<byte>, ms: seq<Mapping>, devices: seq<Device>,
                                              hs: seq<ProgramHeader>)
    requires SpaceOk(ms) && SegmentsOk(image, ms, devices, hs)
    ensures NoneBump(ms, ChunksOf(image, hs)) <==> NoneCollide(ms, hs)
    decreases |hs|
  {
    hide SpaceOk, Bump, Collide, NoneBump, NoneCollide, SegmentOk;
    if hs == [] {
      NothingBumps(ms);
    } else {
      var n := |hs| - 1;
      var rest, h := hs[..n], hs[n];
      assert hs == rest + [h];
      BumpsAreCollisions(image, ms, devices, rest);
      NoneCollidePush(ms, rest, h);
      if Occupies(h) {
        assert SegmentOk(image, ms, devices, h);
        SegmentScan(image, ms, devices, h);
        var c := ChunkFor(image, h);
        assert ChunksOf(image, hs) == ChunksOf(image, rest) + [c];
        NoneBumpPush(ms, ChunksOf(image, rest), c);
        LastBumps(image, ms, devices, rest, h);
      }
    }
  }

  lemma NothingBumps(ms: seq<Mapping>)
    ensures NoneBump(ms, []) && NoneCollide(ms, [])
  {}

  lemma SegmentScan(image: seq<byte>, ms: seq<Mapping>, devices: seq<Device>, h: ProgramHeader)
    requires SpaceOk(ms) && SegmentOk(image, ms, devices, h) && h.memorySize > 0
    ensures h.fileOffset + h.fileSize <= |image| && Scan(ms, ByteAddress(h, 0), h.memorySize).Some?
  {
    LoadableIsBacked(ms, devices, h);
  }

  lemma LastBumps(image: seq<byte>, ms: seq<Mapping>, devices: seq<Device>, hs: seq<ProgramHeader>, h: ProgramHeader)
    requires SpaceOk(ms) && SegmentsOk(image, ms, devices, hs) && Occupies(h) && SegmentOk(image, ms, devices, h)
    requires h.fileOffset + h.fileSize <= |image|
    ensures (forall x | x in ChunksOf(image, hs) :: !Bump(ms, x, ChunkFor(image, h))) <==>
            (forall i | 0 <= i < |hs| && Occupies(hs[i]) :: !Collide(ms, hs[i], h))
  {
    hide SpaceOk, Bump, Collide, SegmentOk, Scan, ChunksOf;
    var c := ChunkFor(image, h);
    SegmentScan(image, ms, devices, h);
    if forall i | 0 <= i < |hs| && Occupies(hs[i]) :: !Collide(ms, hs[i], h) {
      forall x | x in ChunksOf(image, hs) ensures !Bump(ms, x, c) {
        var i := HeaderOfChunk(image, hs, x);
        assert SegmentOk(image, ms, devices, hs[i]);
        SegmentScan(image, ms, devices, hs[i]);
        CollideIsBump(ms, image, hs[i], h);
      }
    }
    if forall x | x in ChunksOf(image, hs) :: !Bump(ms, x, c) {
      forall i | 0 <= i < |hs| && Occupies(hs[i]) ensures !Collide(ms, hs[i], h) {
        assert SegmentOk(image, ms, devices, hs[i]);
        SegmentScan(image, ms, devices, hs[i]);
        ChunkOfHeader(image, hs, i);
        CollideIsBump(ms, image, hs[i], h);
      }
    }
  }

  /**
    Acceptance, on the program headers: an image is loaded if and only if its header is
    readable, every loadable segment is well formed and backed by one loadable window,
    and no two segments share an address or a device byte.
   */
  lemma AcceptedExactly(image: seq<byte>, ms: seq<Mapping>, devices: seq<Device>)
    requires BoardOk(ms, devices)
    ensures AcceptsImage(image, ms, devices) && PlanOk(ms, devices, ImageChunks(image)) <==>
            && ParseHeader(image).Ok?
            && SegmentsOk(image, ms, devices, HeadersOf(image)) && NoneCollide(ms, HeadersOf(image))
  {
    hide ParseHeader, Entries, ChunksOf, NoneCollide, PairwiseApart, NoClash, Fits, SpaceOk, HeaderOk, SegmentOk;
    if ParseHeader(image).Ok? {
      var hs := HeadersOf(image);
      var cs := ChunksOf(image, hs);
      forall i | 0 <= i < |hs|
        ensures HeaderOk(image, ms, devices, hs[i]) <==> (hs[i].kind == 1 ==> SegmentOk(image, ms, devices, hs[i]))
      {
        HeaderIsSegment(image, ms, devices, hs[i]);
      }
      if SegmentsOk(image, ms, devices, hs) {
        ChunksFit(image, ms, devices, hs);
        BumpsAreCollisions(image, ms, devices, hs);
        NoneBumpIs(ms, cs);
      }
    }
  }

  lemma ChunksFit(image: seq<byte>, ms: seq<Mapping>, devices: seq<Device>, hs: seq<ProgramHeader>)
    requires SpaceOk(ms) && SegmentsOk(image, ms, devices, hs)
    ensures AllFit(ms, devices, ChunksOf(image, hs))
  {
    hide SpaceOk, ChunksOf, Loadable;
    var cs := ChunksOf(image, hs);
    forall i | 0 <= i < |cs| ensures Fits(ms, devices, cs[i]) {
      var n := HeaderOfChunk(image, hs, cs[i]);
      assert SegmentOk(image, ms, devices, hs[n]);
      LoadableIsBacked(ms, devices, hs[n]);
    }
  }

  /** The same for the file an encoder wrote, on the headers it was given. */
  lemma EncodedImageAccepted(wide: bool, entry: u64, hs: seq<ProgramHeader>, body: seq<byte>, ms: seq<Mapping>,
                             devices: seq<Device>)
    requires |hs| < 0xffff && (wide || entry < TWO32) && forall i | 0 <= i < |hs| :: Representable(wide, hs[i])
    requires BoardOk(ms, devices)
    ensures var image := EncodeImage(wide, entry, hs, body);
            AcceptsImage(image, ms, devices) && PlanOk(ms, devices, ImageChunks(image)) <==>
            SegmentsOk(image, ms, devices, hs) && NoneCollide(ms, hs)
  {
    hide EncodeImage, ParseHeader, Entries, ChunksOf, BoardOk, PairwiseApart, SegmentOk, Collide, AcceptsImage, PlanOk;
    var image := EncodeImage(wide, entry, hs, body);
    HeaderRoundTrip(wide, entry, hs, body);
    EntriesRoundTrip(wide, entry, hs, body, |hs|);
    AcceptedExactly(image, ms, devices);
    var es := HeadersOf(image);
    assert forall i | 0 <= i < |hs| :: hs[i].kind == 1 <==> es[i].kind == 1;
    assert forall i | 0 <= i < |hs| :: hs[i].kind == 1 ==> es[i] == hs[i];
    if SegmentsOk(image, ms, devices, hs) && NoneCollide(ms, hs) {
      forall i, j | 0 <= i < j < |es| && Occupies(es[i]) && Occupies(es[j]) ensures !Collide(ms, es[i], es[j]) {
        assert Occupies(hs[i]) && Occupies(hs[j]);
      }
    }
    if SegmentsOk(image, ms, devices, es) && NoneCollide(ms, es) {
      forall i, j | 0 <= i < j < |hs| && Occupies(hs[i]) && Occupies(hs[j]) ensures !Collide(ms, hs[i], hs[j]) {
        assert Occupies(es[i]) && Occupies(es[j]);
      }
    }
  }
}
