/**
  Image loading of `src/elf_loader.cpp`: what a plan of chunks means for the
  bytes of the devices, and when it may be applied.
 */
module Images {
  import opened Axi
  import opened AddressMap

  /** ROM and RAM hold loadable bytes; other devices cannot be loaded. */
  datatype Device = Storage(bytes: seq<byte>) | Peripheral

  /** `data` goes to `address`; zeros follow up to `size` bytes. */
  datatype Chunk = Chunk(address: u64, size: u64, data: seq<byte>)

  predicate ChunkOk(c: Chunk) {
    |c.data| <= c.size && c.size > 0 && c.address + c.size < TWO64
  }

  ghost predicate BoardOk(ms: seq<Mapping>, devices: seq<Device>) {
    SpaceOk(ms) && forall i | 0 <= i < |ms| :: ms[i].device < |devices|
  }

  // ---- where a chunk lands ----------------------------------------------------

  /** One device takes the whole range [address, address + size). */
  predicate Loadable(ms: seq<Mapping>, devices: seq<Device>, address: u64, size: u64) {
    var at := Scan(ms, address, size);
    && at.Some? && ms[at.value].device < |devices|
    && var m := ms[at.value];
       devices[m.device].Storage? && address - m.base + size <= |devices[m.device].bytes|
  }

  /** Device and first byte of a range that lies in one window. */
  function DeviceOf(ms: seq<Mapping>, address: u64, size: u64): nat
    requires Scan(ms, address, size).Some?
  {
    ms[Scan(ms, address, size).value].device
  }

  function OffsetOf(ms: seq<Mapping>, address: u64, size: u64): (r: nat)
    requires Scan(ms, address, size).Some?
  {
    address - ms[Scan(ms, address, size).value].base
  }

  /** Byte k of device d belongs to the chunk, whichever window it was reached through. */
  predicate Covers(ms: seq<Mapping>, c: Chunk, d: nat, k: nat) {
    Scan(ms, c.address, c.size).Some? && DeviceOf(ms, c.address, c.size) == d &&
    var off := OffsetOf(ms, c.address, c.size); off <= k < off + c.size
  }

  /** What the chunk puts there: file data, then zeros. */
  function ByteOf(ms: seq<Mapping>, c: Chunk, d: nat, k: nat): byte
    requires Covers(ms, c, d, k)
  {
    var i := k - OffsetOf(ms, c.address, c.size);
    if i < |c.data| then c.data[i] else 0
  }

  /** Two chunks meet in some byte of some device. */
  ghost predicate Clash(ms: seq<Mapping>, a: Chunk, b: Chunk) {
    exists d, k :: Covers(ms, a, d, k) && Covers(ms, b, d, k)
  }

  /** The comparison `apply` makes. */
  predicate Overlaps(ms: seq<Mapping>, a: Chunk, b: Chunk)
    requires Scan(ms, a.address, a.size).Some? && Scan(ms, b.address, b.size).Some?
  {
    var ao, bo := OffsetOf(ms, a.address, a.size), OffsetOf(ms, b.address, b.size);
    DeviceOf(ms, a.address, a.size) == DeviceOf(ms, b.address, b.size) && ao < bo + b.size && bo < ao + a.size
  }

  lemma OverlapIsClash(ms: seq<Mapping>, a: Chunk, b: Chunk)
    requires ChunkOk(a) && ChunkOk(b)
    requires Scan(ms, a.address, a.size).Some? && Scan(ms, b.address, b.size).Some?
    ensures Overlaps(ms, a, b) <==> Clash(ms, a, b)
  {
    if Overlaps(ms, a, b) {
      var ao, bo := OffsetOf(ms, a.address, a.size), OffsetOf(ms, b.address, b.size);
      var d, k := DeviceOf(ms, a.address, a.size), if ao < bo then bo else ao;
      assert Covers(ms, a, d, k) && Covers(ms, b, d, k);
    }
  }

  // ---- plans ----------------------------------------------------------------

  ghost predicate ChunksOk(chunks: seq<Chunk>) {
    forall i | 0 <= i < |chunks| :: ChunkOk(chunks[i])
  }

  predicate Fits(ms: seq<Mapping>, devices: seq<Device>, c: Chunk) {
    Loadable(ms, devices, c.address, c.size)
  }

  ghost predicate AllFit(ms: seq<Mapping>, devices: seq<Device>, chunks: seq<Chunk>) {
    forall i | 0 <= i < |chunks| :: Fits(ms, devices, chunks[i])
  }

  ghost predicate NoClash(ms: seq<Mapping>, chunks: seq<Chunk>) {
    forall i, j | 0 <= j < i < |chunks| :: !Clash(ms, chunks[i], chunks[j])
  }

  /** The plan may be applied. */
  ghost predicate PlanOk(ms: seq<Mapping>, devices: seq<Device>, chunks: seq<Chunk>) {
    AllFit(ms, devices, chunks) && NoClash(ms, chunks)
  }

  ghost predicate SameDevices(before: seq<Device>, after: seq<Device>) {
    |after| == |before| &&
    forall d | 0 <= d < |before| ::
      before[d].Storage? == after[d].Storage? &&
      (before[d].Storage? ==> |before[d].bytes| == |after[d].bytes|)
  }

  ghost predicate ByteLoaded(ms: seq<Mapping>, chunks: seq<Chunk>, before: seq<Device>, after: seq<Device>, d: nat,
                             k: nat)
    requires SameDevices(before, after) && d < |before| && before[d].Storage? && k < |before[d].bytes|
  {
    && (forall c | c in chunks && Covers(ms, c, d, k) :: after[d].bytes[k] == ByteOf(ms, c, d, k))
    && ((forall c | c in chunks :: !Covers(ms, c, d, k)) ==> after[d].bytes[k] == before[d].bytes[k])
  }

  /** Every chunk's bytes are its data then zeros, every other byte is untouched. */
  ghost predicate Loaded(ms: seq<Mapping>, chunks: seq<Chunk>, before: seq<Device>, after: seq<Device>) {
    && SameDevices(before, after)
    && forall d, k | 0 <= d < |before| && before[d].Storage? && 0 <= k < |before[d].bytes| ::
         ByteLoaded(ms, chunks, before, after, d, k)
  }

  /** One chunk written over a device. */
  function Fill(bytes: seq<byte>, off: nat, data: seq<byte>, size: nat): (r: seq<byte>)
    requires |data| <= size
    ensures |r| == |bytes|
  {
    seq(|bytes|, k requires 0 <= k < |bytes| =>
      if off <= k < off + |data| then data[k - off] else if off <= k < off + size then 0 else bytes[k])
  }

  function LoadChunk(ms: seq<Mapping>, devices: seq<Device>, c: Chunk): (r: seq<Device>)
    requires ChunkOk(c) && Fits(ms, devices, c)
    ensures SameDevices(devices, r)
  {
    var d := DeviceOf(ms, c.address, c.size);
    devices[d := Storage(Fill(devices[d].bytes, OffsetOf(ms, c.address, c.size), c.data, c.size))]
  }

  lemma FitsKept(ms: seq<Mapping>, before: seq<Device>, after: seq<Device>, address: u64, size: u64)
    requires SameDevices(before, after)
    ensures Loadable(ms, before, address, size) == Loadable(ms, after, address, size)
  {}

  /** Loading one more chunk that meets none of the chunks before it. */
  lemma LoadNext(ms: seq<Mapping>, chunks: seq<Chunk>, n: nat, start: seq<Device>, before: seq<Device>)
    requires ChunksOk(chunks) && n < |chunks| && NoClash(ms, chunks) && AllFit(ms, start, chunks)
    requires Loaded(ms, chunks[..n], start, before)
    ensures Fits(ms, before, chunks[n])
    ensures Loaded(ms, chunks[..n + 1], start, LoadChunk(ms, before, chunks[n]))
  {
    hide Scan, Loadable, Covers, Loaded, ByteLoaded;
    var c := chunks[n];
    assert SameDevices(start, before) by { LoadedShape(ms, chunks[..n], start, before); }
    FitsKept(ms, start, before, c.address, c.size);
    var after := LoadChunk(ms, before, c);
    assert SameDevices(start, after);
    var longer := chunks[..n + 1];
    forall d, k | 0 <= d < |start| && start[d].Storage? && 0 <= k < |start[d].bytes|
      ensures ByteLoaded(ms, longer, start, after, d, k)
    {
      LoadNextByte(ms, chunks, n, start, before, d, k);
    }
    LoadedIntro(ms, longer, start, after);
  }

  lemma LoadedShape(ms: seq<Mapping>, chunks: seq<Chunk>, before: seq<Device>, after: seq<Device>)
    requires Loaded(ms, chunks, before, after)
    ensures SameDevices(before, after)
  {}

  lemma LoadedIntro(ms: seq<Mapping>, chunks: seq<Chunk>, before: seq<Device>, after: seq<Device>)
    requires SameDevices(before, after)
    requires forall d, k | 0 <= d < |before| && before[d].Storage? && 0 <= k < |before[d].bytes| ::
               ByteLoaded(ms, chunks, before, after, d, k)
    ensures Loaded(ms, chunks, before, after)
  {}

  lemma LoadedOne(ms: seq<Mapping>, devices: seq<Device>, c: Chunk, d: nat, k: nat)
    requires ChunkOk(c) && Fits(ms, devices, c)
    requires d < |devices| && devices[d].Storage? && k < |devices[d].bytes|
    ensures LoadChunk(ms, devices, c)[d].bytes[k]
         == if Covers(ms, c, d, k) then ByteOf(ms, c, d, k) else devices[d].bytes[k]
  {}

  lemma LoadNextByte(ms: seq<Mapping>, chunks: seq<Chunk>, n: nat, start: seq<Device>, before: seq<Device>, d: nat,
                     k: nat)
    requires ChunksOk(chunks) && n < |chunks| && NoClash(ms, chunks)
    requires Loaded(ms, chunks[..n], start, before) && Fits(ms, before, chunks[n])
    requires d < |start| && start[d].Storage? && k < |start[d].bytes|
    ensures ByteLoaded(ms, chunks[..n + 1], start, LoadChunk(ms, before, chunks[n]), d, k)
  {
    hide Scan, Loadable, Covers, LoadChunk;
    var c := chunks[n];
    LoadedOne(ms, before, c, d, k);
    assert ByteLoaded(ms, chunks[..n], start, before, d, k);
    assert chunks[..n + 1] == chunks[..n] + [c];
    forall b | b in chunks[..n] && Covers(ms, b, d, k) ensures !Covers(ms, c, d, k) {
      var j :| 0 <= j < n && chunks[j] == b;
      assert !Clash(ms, chunks[n], chunks[j]);
    }
  }

  /** The chunks loaded in turn. */
  function LoadAll(ms: seq<Mapping>, devices: seq<Device>, chunks: seq<Chunk>): (r: seq<Device>)
    requires ChunksOk(chunks) && AllFit(ms, devices, chunks)
    ensures SameDevices(devices, r)
  {
    if chunks == [] then devices
    else
      var last := |chunks| - 1;
      var before := LoadAll(ms, devices, chunks[..last]);
      assert Fits(ms, devices, chunks[last]);
      FitsKept(ms, devices, before, chunks[last].address, chunks[last].size);
      LoadChunk(ms, before, chunks[last])
  }

  /** A plan that may be applied loads exactly the bytes of its chunks. */
  lemma {:induction false} LoadAllLoads(ms: seq<Mapping>, devices: seq<Device>, chunks: seq<Chunk>)
    requires ChunksOk(chunks) && PlanOk(ms, devices, chunks)
    ensures Loaded(ms, chunks, devices, LoadAll(ms, devices, chunks))
  {
    if chunks != [] {
      var last := |chunks| - 1;
      LoadAllLoads(ms, devices, chunks[..last]);
      LoadNext(ms, chunks, last, devices, LoadAll(ms, devices, chunks[..last]));
      assert chunks[..last + 1] == chunks;
    }
  }

  // ---- order --------------------------------------------------------------------

  /** The bytes do not depend on the order of the chunks. */
  lemma LoadedUnique(ms: seq<Mapping>, chunks: seq<Chunk>, chunks': seq<Chunk>,
                     before: seq<Device>, after: seq<Device>, after': seq<Device>)
    requires Loaded(ms, chunks, before, after) && Loaded(ms, chunks', before, after')
    requires forall c :: c in chunks <==> c in chunks'
    ensures after == after'
  {
    hide Covers, ByteOf;
    forall d | 0 <= d < |before| ensures after[d] == after'[d] {
      if before[d].Storage? {
        forall k | 0 <= k < |before[d].bytes| ensures after[d].bytes[k] == after'[d].bytes[k] {
          assert ByteLoaded(ms, chunks, before, after, d, k);
          assert ByteLoaded(ms, chunks', before, after', d, k);
        }
        assert after[d].bytes == after'[d].bytes;
      }
    }
  }

  lemma {:induction false} TwiceIn(chunks: seq<Chunk>, c: Chunk) returns (i: nat, j: nat)
    requires multiset(chunks)[c] >= 2
    ensures i < j < |chunks| && chunks[i] == c == chunks[j]
    decreases |chunks|
  {
    var last := |chunks| - 1;
    assert chunks == chunks[..last] + [chunks[last]];
    if multiset(chunks[..last])[c] >= 2 {
      i, j := TwiceIn(chunks[..last], c);
    } else {
      assert c in multiset(chunks[..last]);
      assert c in chunks[..last];
      i :| 0 <= i < last && chunks[i] == c;
      j := last;
    }
  }

  lemma TwoPlaces(chunks: seq<Chunk>, i: nat, j: nat)
    requires i < j < |chunks| && chunks[i] == chunks[j]
    ensures multiset(chunks)[chunks[i]] >= 2
  {
    assert chunks == chunks[..j] + [chunks[j]] + chunks[j + 1..];
    assert chunks[i] in chunks[..j];
  }

  /** Acceptance does not depend on the order either. */
  lemma PlanOkPermutes(ms: seq<Mapping>, devices: seq<Device>, chunks: seq<Chunk>, chunks': seq<Chunk>)
    requires ChunksOk(chunks) && PlanOk(ms, devices, chunks) && multiset(chunks) == multiset(chunks')
    ensures ChunksOk(chunks') && PlanOk(ms, devices, chunks')
  {
    hide Clash, ChunkOk, Fits;
    forall i | 0 <= i < |chunks'| ensures chunks'[i] in chunks {
      assert chunks'[i] in multiset(chunks');
    }
    forall i, j | 0 <= j < i < |chunks'| ensures !Clash(ms, chunks'[i], chunks'[j]) {
      var a, b := chunks'[i], chunks'[j];
      if a == b {
        TwoPlaces(chunks', j, i);
        var x, y := TwiceIn(chunks, a);
        assert !Clash(ms, chunks[y], chunks[x]);
      } else {
        assert a in chunks && b in chunks;
        var x :| 0 <= x < |chunks| && chunks[x] == a;
        var y :| 0 <= y < |chunks| && chunks[y] == b;
        ClashSymmetric(ms, a, b);
        assert if y < x then !Clash(ms, chunks[x], chunks[y]) else !Clash(ms, chunks[y], chunks[x]);
      }
    }
  }

  lemma ClashSymmetric(ms: seq<Mapping>, a: Chunk, b: Chunk)
    ensures Clash(ms, a, b) <==> Clash(ms, b, a)
  {}

  /** Any order of the same chunks is accepted alike and loads the same bytes. */
  lemma OrderIndependent(ms: seq<Mapping>, devices: seq<Device>, chunks: seq<Chunk>, chunks': seq<Chunk>)
    requires ChunksOk(chunks) && multiset(chunks) == multiset(chunks')
    ensures ChunksOk(chunks')
    ensures PlanOk(ms, devices, chunks) <==> PlanOk(ms, devices, chunks')
    ensures PlanOk(ms, devices, chunks) ==> LoadAll(ms, devices, chunks) == LoadAll(ms, devices, chunks')
  {
    hide ChunkOk, AllFit, NoClash, Loaded;
    forall i | 0 <= i < |chunks'| ensures ChunkOk(chunks'[i]) {
      assert chunks'[i] in multiset(chunks);
      assert chunks'[i] in chunks;
    }
    if PlanOk(ms, devices, chunks) { PlanOkPermutes(ms, devices, chunks, chunks'); }
    if PlanOk(ms, devices, chunks') { PlanOkPermutes(ms, devices, chunks', chunks); }
    if PlanOk(ms, devices, chunks) {
      LoadAllLoads(ms, devices, chunks);
      LoadAllLoads(ms, devices, chunks');
      assert forall c :: c in chunks <==> c in multiset(chunks);
      assert forall c :: c in chunks' <==> c in multiset(chunks');
      LoadedUnique(ms, chunks, chunks', devices, LoadAll(ms, devices, chunks), LoadAll(ms, devices, chunks'));
    }
  }

  // ---- overlap by sorting -------------------------------------------------------

  datatype Range = Range(address: u64, size: u64)

  ghost predicate RangesOk(rs: seq<Range>) {
    forall i | 0 <= i < |rs| :: rs[i].size > 0 && rs[i].address + rs[i].size < TWO64
  }

  ghost predicate Apart(a: Range, b: Range) {
    a.address + a.size <= b.address || b.address + b.size <= a.address
  }

  ghost predicate PairwiseApart(rs: seq<Range>) {
    forall i, j | 0 <= i < j < |rs| :: Apart(rs[i], rs[j])
  }

  predicate SortedBy(rs: seq<Range>, order: seq<nat>) {
    && (forall k | 0 <= k < |order| :: order[k] < |rs|)
    && forall i, j | 0 <= i < j < |order| :: rs[order[i]].address <= rs[order[j]].address
  }

  /** Each index of rs[..n] once. */
  ghost predicate Arrangement(order: seq<nat>, n: nat) {
    && (forall k | 0 <= k < |order| :: order[k] < n)
    && (forall i, j | 0 <= i < j < |order| :: order[i] != order[j])
    && (forall x: nat | x < n :: x in order)
  }

  ghost predicate NeighboursApart(rs: seq<Range>, order: seq<nat>)
    requires forall k | 0 <= k < |order| :: order[k] < |rs|
  {
    forall k | 1 <= k < |order| :: rs[order[k - 1]].address + rs[order[k - 1]].size <= rs[order[k]].address
  }

  lemma {:induction false} ChainApart(rs: seq<Range>, order: seq<nat>, i: nat, j: nat)
    requires forall k | 0 <= k < |order| :: order[k] < |rs|
    requires NeighboursApart(rs, order) && i < j < |order|
    ensures rs[order[i]].address + rs[order[i]].size <= rs[order[j]].address
  {
    if i + 1 < j { ChainApart(rs, order, i, j - 1); }
  }

  /** Comparing neighbours in address order decides all pairs. */
  lemma NeighboursDecide(rs: seq<Range>, order: seq<nat>)
    requires RangesOk(rs) && SortedBy(rs, order) && Arrangement(order, |rs|)
    ensures NeighboursApart(rs, order) <==> PairwiseApart(rs)
  {
    if NeighboursApart(rs, order) {
      forall a, b | 0 <= a < b < |rs| ensures Apart(rs[a], rs[b]) {
        assert a in order && b in order;
        var i :| 0 <= i < |order| && order[i] == a;
        var j :| 0 <= j < |order| && order[j] == b;
        if i < j { ChainApart(rs, order, i, j); } else { ChainApart(rs, order, j, i); }
      }
    }
    if PairwiseApart(rs) {
      forall k | 1 <= k < |order|
        ensures rs[order[k - 1]].address + rs[order[k - 1]].size <= rs[order[k]].address
      {
        var a, b := order[k - 1], order[k];
        assert Apart(rs[if a < b then a else b], rs[if a < b then b else a]);
      }
    }
  }
}
