/** The image loader as the source runs it: chunks collected, validated, then applied. */
module ImageLoaderClass {
  import Arith
  import opened Axi
  import opened Bits
  import opened AddressMap
  import opened Images
  import opened Elf
  import opened ImageInstall

  // ---- x & (x - 1) --------------------------------------------------------------

  lemma {:induction false} AndSelf(x: nat)
    ensures And(x, x) == x
  {
    if x > 0 { AndSelf(x / 2); }
  }

  /** A positive number is a power of two exactly when x & (x - 1) is zero. */
  lemma {:induction false} PowerTest(x: nat)
    requires x > 0
    ensures And(x, x - 1) == 0 <==> PowerOfTwo(x)
  {
    if x == 1 {
      assert x == Pow2(0);
    } else if x % 2 == 1 {
      assert And(x, x - 1) == 2 * And(x / 2, x / 2);
      AndSelf(x / 2);
      OddPower(x);
    } else {
      assert And(x, x - 1) == 2 * And(x / 2, x / 2 - 1);
      PowerTest(x / 2);
      EvenPower(x);
    }
  }

  lemma OddPower(x: nat)
    requires x > 1 && x % 2 == 1
    ensures !PowerOfTwo(x)
  {
    forall k: nat ensures x != Pow2(k) { if k > 0 { assert Pow2(k) == 2 * Pow2(k - 1); } }
  }

  lemma EvenPower(x: nat)
    requires x > 1 && x % 2 == 0
    ensures PowerOfTwo(x) <==> PowerOfTwo(x / 2)
  {
    if PowerOfTwo(x / 2) {
      var k: nat :| x / 2 == Pow2(k);
      assert x == Pow2(k + 1);
    }
    if PowerOfTwo(x) {
      var k: nat :| x == Pow2(k);
      assert k > 0 && x / 2 == Pow2(k - 1);
    }
  }

  // ---- parts of a range -----------------------------------------------------------

  lemma SubRange(ms: seq<Mapping>, devices: seq<Device>, address: u64, size: u64, at: u64, count: u64)
    requires SpaceOk(ms) && Loadable(ms, devices, address, size)
    requires count > 0 && address <= at && at + count <= address + size
    ensures Loadable(ms, devices, at, count)
    ensures DeviceOf(ms, at, count) == DeviceOf(ms, address, size)
    ensures OffsetOf(ms, at, count) == OffsetOf(ms, address, size) + (at - address)
  {
    var i := Scan(ms, address, size).value;
    ScanUnique(ms, at, count, i);
  }

  lemma InsideSpace(ms: seq<Mapping>, devices: seq<Device>, address: u64, size: u64)
    requires SpaceOk(ms) && Loadable(ms, devices, address, size)
    ensures size > 0 && address + size < TWO64
  {}

  lemma FillMore(bytes: seq<byte>, off: nat, data: seq<byte>, size: nat, count: nat)
    requires |data| <= size
    ensures Fill(Fill(bytes, off, data, size), off + size, seq(count, _ => 0), count)
            == Fill(bytes, off, data, size + count)
  {}

  lemma FillNothing(bytes: seq<byte>, off: nat)
    ensures Fill(bytes, off, [], 0) == bytes
  {}

  datatype Outcome = Applied | BadTarget | Overlapping | DeviceRejected

  class ImageLoadPlan {
    const space: AddressSpace
    var devices: seq<Device>
    var chunks: seq<Chunk>

    ghost predicate Valid()
      reads this, space
    {
      space.Valid() && BoardOk(space.mappings, devices) && ChunksOk(chunks)
    }

    constructor (space: AddressSpace, devices: seq<Device>)
      requires space.Valid() && BoardOk(space.mappings, devices)
      ensures Valid() && this.space == space && this.devices == devices && chunks == []
    {
      this.space, this.devices, chunks := space, devices, [];
    }

    /** `AddressSpace::load`: all bytes or none. */
    method Load(address: u64, data: seq<byte>) returns (r: Response)
      requires Valid() && |data| < TWO64
      modifies this`devices
      ensures Valid() && SameDevices(old(devices), devices)
      ensures Success(r) <==> data == [] || Loadable(space.mappings, old(devices), address, |data|)
      ensures Success(r) && data != [] ==>
                && address + |data| < TWO64
                && devices == LoadChunk(space.mappings, old(devices), Chunk(address, |data|, data))
      ensures !Success(r) || data == [] ==> devices == old(devices)
    {
      if |data| == 0 { return Okay; }
      var at := space.Resolve(address, |data|);
      if at.None? {
        r := space.ResolutionError(address);
        return;
      }
      var m := space.mappings[at.value];
      var offset := address - m.base;
      if !devices[m.device].Storage? { return SlaveError; }
      var bytes := devices[m.device].bytes;
      if offset > |bytes| || |data| > |bytes| - offset { return SlaveError; }
      devices := devices[m.device := Storage(Fill(bytes, offset, data, |data|))];
      r := Okay;
    }

    /** `validate_load_target`. */
    method ValidateTarget(address: u64, size: u64) returns (ok: bool)
      requires Valid()
      ensures ok <==> Loadable(space.mappings, devices, address, size)
    {
      var at := space.Resolve(address, size);
      if at.None? { return false; }
      var m := space.mappings[at.value];
      if !devices[m.device].Storage? { return false; }
      var bytes := devices[m.device].bytes;
      var offset := address - m.base;
      ok := offset <= |bytes| && size <= |bytes| - offset;
    }

    /** Data, then zeros at most 4096 at a time; a validated chunk is never refused. */
    method ApplySegment(c: Chunk) returns (ok: bool)
      requires Valid() && ChunkOk(c) && Fits(space.mappings, devices, c)
      modifies this`devices
      ensures Valid() && ok
      ensures devices == LoadChunk(space.mappings, old(devices), c)
    {
      hide Loadable, Fill, BoardOk, Scan, SpaceOk;
      ghost var ms, start := space.mappings, devices;
      ghost var d, off := Landing(space, start, c);
      var fileSize := |c.data|;
      if fileSize != 0 {
        SubRange(ms, devices, c.address, c.size, c.address, fileSize);
        var r := Load(c.address, c.data);
        if !Success(r) { return false; }
      } else {
        FillNothing(start[d].bytes, off);
        assert devices == start[d := Storage(Fill(start[d].bytes, off, c.data, fileSize))];
      }
      var zeroAddress, remaining := c.address + fileSize, c.size - fileSize;
      while remaining != 0
        invariant 0 <= remaining <= c.size - fileSize && zeroAddress == c.address + c.size - remaining
        invariant Valid() && SameDevices(start, devices)
        invariant devices == start[d := Storage(Fill(start[d].bytes, off, c.data, c.size - remaining))]
      {
        var count := if remaining < 4096 then remaining else 4096;
        ghost var before := devices;
        FitsKept(ms, start, before, c.address, c.size);
        SubRange(ms, before, c.address, c.size, zeroAddress, count);
        var zeros := seq(count, _ => 0);
        var r := Load(zeroAddress, zeros);
        if !Success(r) { return false; }
        FillMore(start[d].bytes, off, c.data, c.size - remaining, count);
        zeroAddress, remaining := zeroAddress + count, remaining - count;
      }
      ok := true;
    }

    /**
      Validates every chunk against every earlier one before loading anything:
      a refused plan changes no byte, an accepted one loads exactly its chunks.
     */
    method Apply() returns (outcome: Outcome)
      requires Valid()
      modifies this`devices
      ensures Valid() && outcome != DeviceRejected
      ensures outcome == Applied <==> PlanOk(space.mappings, old(devices), chunks)
      ensures outcome != Applied ==> devices == old(devices)
      ensures outcome == Applied ==>
                && devices == LoadAll(space.mappings, old(devices), chunks)
                && Loaded(space.mappings, chunks, old(devices), devices)
    {
      hide BoardOk, Loadable, Clash, Overlaps, Scan, Loaded, LoadChunk;
      ghost var ms, start := space.mappings, devices;
      var i := 0;
      while i < |chunks|
        invariant 0 <= i <= |chunks| && devices == start && Valid()
        invariant AllFit(ms, start, chunks[..i]) && NoClash(ms, chunks[..i])
      {
        var good := Check(i);
        if good != Applied {
          Refused(ms, start, chunks, i);
          return good;
        }
        Admitted(ms, start, chunks, i);
        i := i + 1;
      }
      assert chunks[..i] == chunks;
      LoadAllLoads(ms, start, chunks);
      i := 0;
      assert chunks[..0] == [];
      while i < |chunks|
        invariant 0 <= i <= |chunks| && Valid() && SameDevices(start, devices)
        invariant AllFit(ms, start, chunks[..i])
        invariant devices == LoadAll(ms, start, chunks[..i])
      {
        assert Fits(ms, start, chunks[i]);
        FitsKept(ms, start, devices, chunks[i].address, chunks[i].size);
        var ok := ApplySegment(chunks[i]);
        if !ok { return DeviceRejected; }
        NextLoad(ms, start, chunks, i);
        i := i + 1;
      }
      assert chunks[..i] == chunks;
      outcome := Applied;
    }

    /** Chunk i fits, and meets no chunk before it. */
    method Check(i: nat) returns (outcome: Outcome)
      requires Valid() && i < |chunks| && AllFit(space.mappings, devices, chunks[..i])
      ensures outcome in {Applied, BadTarget, Overlapping}
      ensures outcome == BadTarget <==> !Fits(space.mappings, devices, chunks[i])
      ensures outcome == Overlapping ==> exists j | 0 <= j < i :: Clash(space.mappings, chunks[i], chunks[j])
      ensures outcome == Applied ==> forall j | 0 <= j < i :: !Clash(space.mappings, chunks[i], chunks[j])
    {
      hide BoardOk, Scan, Clash;
      var a := chunks[i];
      var ok := ValidateTarget(a.address, a.size);
      if !ok { return BadTarget; }
      var ma := space.Resolve(a.address, a.size);
      var j := 0;
      while j < i
        invariant 0 <= j <= i
        invariant forall k | 0 <= k < j :: !Clash(space.mappings, chunks[i], chunks[k])
      {
        var b := chunks[j];
        assert Fits(space.mappings, devices, chunks[..i][j]);
        var mb := space.Resolve(b.address, b.size);
        var wa, wb := space.mappings[ma.value], space.mappings[mb.value];
        var ao, bo := a.address - wa.base, b.address - wb.base;
        OverlapIsClash(space.mappings, a, b);
        if wa.device == wb.device && ao < bo + b.size && bo < ao + a.size {
          return Overlapping;
        }
        j := j + 1;
      }
      outcome := Applied;
    }

    /** A raw image is one chunk; an empty one is nothing. */
    method AddRaw(image: seq<byte>, address: u64) returns (ok: bool)
      requires Valid() && |image| < TWO64
      modifies this`chunks
      ensures Valid()
      ensures ok <==> image == [] || Loadable(space.mappings, devices, address, |image|)
      ensures chunks == if ok && image != [] then old(chunks) + [Chunk(address, |image|, image)] else old(chunks)
    {
      if |image| == 0 { return true; }
      if |image| > TWO64 - 1 - address {
        if Loadable(space.mappings, devices, address, |image|) {
          InsideSpace(space.mappings, devices, address, |image|);
        }
        return false;
      }
      ok := ValidateTarget(address, |image|);
      if ok {
        chunks := chunks + [Chunk(address, |image|, image)];
      }
    }

    /** `parse_program_header`, past the decoding of its fields. */
    method CheckHeader(image: seq<byte>, h: ProgramHeader) returns (ok: bool)
      requires Valid()
      ensures ok <==> HeaderOk(image, space.mappings, devices, h)
    {
      if h.kind != PT_LOAD { return true; }
      if h.fileSize > h.memorySize { return false; }
      if h.fileOffset > |image| || h.fileSize > |image| - h.fileOffset { return false; }
      if h.alignment > 1 {
        PowerTest(h.alignment);
        if And(h.alignment, h.alignment - 1) != 0 { return false; }
        if h.virtualAddress % h.alignment != h.fileOffset % h.alignment { return false; }
      }
      if h.memorySize > TWO64 - 1 - h.LoadAddress() { return false; }
      if h.memorySize == 0 { return true; }
      ok := ValidateTarget(h.LoadAddress(), h.memorySize);
    }

    /** Decodes and checks every program header; chunks of the loadable ones. */
    method CollectSegments(image: seq<byte>, h: Header) returns (ok: bool, additions: seq<Chunk>)
      requires Valid() && |image| < TWO64 && ParseHeader(image) == Ok(h)
      ensures ok <==> HeadersOk(image, space.mappings, devices, Entries(image, h, h.count))
      ensures ok ==> additions == ChunksOf(image, Entries(image, h, h.count)) && ChunksOk(additions)
    {
      hide HeaderOk, BoardOk, ParseHeader, ParseEntry, Entries, ChunksOf, HeadersOk, ChunkOk;
      additions := [];
      var i := 0;
      NoEntries(image, space.mappings, devices, h);
      while i < h.count
        invariant 0 <= i <= h.count && ChunksOk(additions)
        invariant HeadersOk(image, space.mappings, devices, Entries(image, h, i))
        invariant additions == ChunksOf(image, Entries(image, h, i))
      {
        EntriesReadable(image, i);
        var e := ParseEntry(image, h, i).value;
        NextEntry(image, space.mappings, devices, h, i, e);
        var good := CheckHeader(image, e);
        if !good {
          BadEntry(image, space.mappings, devices, h, i, e);
          return false, [];
        }
        if e.Loads() {
          Acceptable(image, space.mappings, devices, e);
          additions := additions +
            [Chunk(e.LoadAddress(), e.memorySize, image[e.fileOffset..e.fileOffset + e.fileSize])];
        }
        i := i + 1;
      }
      ok := true;
    }

    /** Adds all segments of an image or none; the result is the parsed header, or None. */
    method AddElf(image: seq<byte>) returns (r: Option<Header>)
      requires Valid() && |image| < TWO64
      modifies this`chunks
      ensures Valid()
      ensures r.Some? <==> AcceptsImage(image, space.mappings, devices)
      ensures r.Some? ==> ParseHeader(image) == Ok(r.value)
      ensures chunks == if r.Some? then old(chunks) + ImageChunks(image) else old(chunks)
    {
      hide ParseHeader;
      var parsed := ParseHeader(image);
      if parsed.Fail? { return None; }
      var h := parsed.value;
      var ok, additions := CollectSegments(image, h);
      if !ok { return None; }
      ok := ValidateNoOverlap(Ranges(additions));
      if !ok { return None; }
      chunks := chunks + additions;
      r := Some(h);
    }

    /** `load_elf` on a fresh plan: the whole image is loaded, or no byte changes. */
    method LoadElf(image: seq<byte>) returns (ok: bool)
      requires Valid() && |image| < TWO64 && chunks == []
      modifies this`chunks, this`devices
      ensures Valid()
      ensures ok <==> AcceptsImage(image, space.mappings, old(devices)) &&
                      PlanOk(space.mappings, old(devices), ImageChunks(image))
      ensures ok ==> Loaded(space.mappings, ImageChunks(image), old(devices), devices)
      ensures ok ==> ParseHeader(image).Ok? && Placed(image, space.mappings, old(devices), devices, HeadersOf(image))
      ensures !ok ==> devices == old(devices)
    {
      hide PlanOk, ImageChunks, Loaded, ParseHeader, Entries, HeadersOk, PairwiseApart, Placed;
      var header := AddElf(image);
      if header.None? { return false; }
      assert chunks == ImageChunks(image);
      var outcome := Apply();
      ok := outcome == Applied;
      if ok { ImagePlaced(image, space.mappings, old(devices), devices); }
    }

    /** Sort by address and compare neighbours. */
    method ValidateNoOverlap(rs: seq<Range>) returns (ok: bool)
      requires RangesOk(rs)
      ensures ok <==> PairwiseApart(rs)
    {
      var order := SortByAddress(rs);
      NeighboursDecide(rs, order);
      var k := 1;
      while k < |order|
        invariant 1 <= k
        invariant forall i | 1 <= i < k && i < |order| ::
                    rs[order[i - 1]].address + rs[order[i - 1]].size <= rs[order[i]].address
      {
        var previous, current := rs[order[k - 1]], rs[order[k]];
        if previous.address + previous.size > current.address { return false; }
        k := k + 1;
      }
      ok := true;
    }
  }

  /** Stands for the library sort of the indices by load address. */
  method SortByAddress(rs: seq<Range>) returns (order: seq<nat>)
    ensures SortedBy(rs, order) && Arrangement(order, |rs|)
  {
    order := [];
    var n := 0;
    while n < |rs|
      invariant 0 <= n <= |rs| && |order| == n
      invariant SortedBy(rs, order) && Arrangement(order, n)
    {
      var at := n;
      while at > 0 && rs[order[at - 1]].address > rs[n].address
        invariant 0 <= at <= n
        invariant forall k | at <= k < n :: rs[order[k]].address > rs[n].address
      {
        at := at - 1;
      }
      InsertIndex(rs, order, n, at);
      order := order[..at] + [n] + order[at..];
      n := n + 1;
    }
  }

  lemma InsertIndex(rs: seq<Range>, order: seq<nat>, n: nat, at: nat)
    requires n < |rs| && |order| == n && SortedBy(rs, order) && Arrangement(order, n) && at <= n
    requires forall k | at <= k < n :: rs[order[k]].address > rs[n].address
    requires at > 0 ==> rs[order[at - 1]].address <= rs[n].address
    ensures SortedBy(rs, order[..at] + [n] + order[at..])
    ensures Arrangement(order[..at] + [n] + order[at..], n + 1)
  {
    InsertSorts(rs, order, n, at);
    InsertArranges(order, n, at);
  }

  /** Where index k of the longer arrangement comes from. */
  function Before(order: seq<nat>, n: nat, at: nat, k: nat): nat
    requires at <= |order| && k <= |order|
  {
    if k < at then order[k] else if k == at then n else order[k - 1]
  }

  lemma InsertAt(order: seq<nat>, n: nat, at: nat, k: nat)
    requires at <= |order| && k <= |order|
    ensures (order[..at] + [n] + order[at..])[k] == Before(order, n, at, k)
  {}

  lemma InsertSorts(rs: seq<Range>, order: seq<nat>, n: nat, at: nat)
    requires n < |rs| && SortedBy(rs, order) && at <= |order|
    requires forall k | at <= k < |order| :: rs[order[k]].address > rs[n].address
    requires at > 0 ==> rs[order[at - 1]].address <= rs[n].address
    ensures SortedBy(rs, order[..at] + [n] + order[at..])
  {
    var r := order[..at] + [n] + order[at..];
    forall k | 0 <= k < |r| ensures r[k] < |rs| { InsertAt(order, n, at, k); }
    forall i, j | 0 <= i < j < |r| ensures rs[r[i]].address <= rs[r[j]].address {
      InsertAt(order, n, at, i);
      InsertAt(order, n, at, j);
      if i < at && j == at && i < at - 1 { assert rs[order[i]].address <= rs[order[at - 1]].address; }
    }
  }

  lemma InsertArranges(order: seq<nat>, n: nat, at: nat)
    requires |order| == n && Arrangement(order, n) && at <= n
    ensures Arrangement(order[..at] + [n] + order[at..], n + 1)
  {
    var r := order[..at] + [n] + order[at..];
    forall k | 0 <= k < |r| ensures r[k] < n + 1 { InsertAt(order, n, at, k); }
    forall i, j | 0 <= i < j < |r| ensures r[i] != r[j] {
      InsertAt(order, n, at, i);
      InsertAt(order, n, at, j);
    }
    forall x: nat | x < n + 1 ensures x in r {
      if x < n {
        assert x in order;
        var k :| 0 <= k < n && order[k] == x;
        InsertAt(order, n, at, if k < at then k else k + 1);
      } else {
        InsertAt(order, n, at, at);
      }
    }
  }

  /** Device and offset where a chunk lands. */
  lemma Landing(space: AddressSpace, devices: seq<Device>, c: Chunk) returns (d: nat, off: nat)
    requires ChunkOk(c) && Fits(space.mappings, devices, c)
    ensures Scan(space.mappings, c.address, c.size).Some?
    ensures d == DeviceOf(space.mappings, c.address, c.size) && off == OffsetOf(space.mappings, c.address, c.size)
    ensures d < |devices| && devices[d].Storage?
    ensures LoadChunk(space.mappings, devices, c) == devices[d := Storage(Fill(devices[d].bytes, off, c.data, c.size))]
  {
    d := DeviceOf(space.mappings, c.address, c.size);
    off := OffsetOf(space.mappings, c.address, c.size);
  }

  lemma Refused(ms: seq<Mapping>, devices: seq<Device>, chunks: seq<Chunk>, i: nat)
    requires i < |chunks|
    requires !Fits(ms, devices, chunks[i]) || exists j | 0 <= j < i :: Clash(ms, chunks[i], chunks[j])
    ensures !PlanOk(ms, devices, chunks)
  {
    hide Clash, Fits;
  }

  lemma Admitted(ms: seq<Mapping>, devices: seq<Device>, chunks: seq<Chunk>, i: nat)
    requires i < |chunks| && AllFit(ms, devices, chunks[..i]) && NoClash(ms, chunks[..i])
    requires Fits(ms, devices, chunks[i]) && forall j | 0 <= j < i :: !Clash(ms, chunks[i], chunks[j])
    ensures AllFit(ms, devices, chunks[..i + 1]) && NoClash(ms, chunks[..i + 1])
  {
    hide Clash, Fits;
    var all := chunks[..i + 1];
    assert forall k | 0 <= k < i :: all[k] == chunks[..i][k];
    forall k | 0 <= k < |all| ensures Fits(ms, devices, all[k]) {
      if k < i { assert Fits(ms, devices, chunks[..i][k]); }
    }
    forall x, y | 0 <= y < x < |all| ensures !Clash(ms, all[x], all[y]) {
      if x < i { assert !Clash(ms, chunks[..i][x], chunks[..i][y]); }
    }
  }

  lemma NextLoad(ms: seq<Mapping>, devices: seq<Device>, chunks: seq<Chunk>, i: nat)
    requires i < |chunks| && ChunksOk(chunks) && AllFit(ms, devices, chunks)
    ensures AllFit(ms, devices, chunks[..i]) && AllFit(ms, devices, chunks[..i + 1])
    ensures Fits(ms, LoadAll(ms, devices, chunks[..i]), chunks[i])
    ensures LoadAll(ms, devices, chunks[..i + 1]) == LoadChunk(ms, LoadAll(ms, devices, chunks[..i]), chunks[i])
  {
    hide LoadChunk, Loadable;
    assert chunks[..i + 1][..i] == chunks[..i];
    assert Fits(ms, devices, chunks[i]);
    FitsKept(ms, devices, LoadAll(ms, devices, chunks[..i]), chunks[i].address, chunks[i].size);
  }

  lemma Acceptable(image: seq<byte>, ms: seq<Mapping>, devices: seq<Device>, h: ProgramHeader)
    requires HeaderOk(image, ms, devices, h) && h.Loads()
    ensures h.fileOffset + h.fileSize <= |image|
    ensures ChunkOk(Chunk(h.LoadAddress(), h.memorySize, image[h.fileOffset..h.fileOffset + h.fileSize]))
  {}
}
