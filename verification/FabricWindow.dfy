/** Where the accesses of a routed burst land, byte by byte. */
module FabricWindow {
  import opened Arith
  import opened Axi
  import opened Bursts
  import opened Memory
  import opened Fabric

  /** Every non-empty beat of a routed burst lies inside its one mapping. */
  lemma BeatInWindow(c: Config, r: Route, k: nat)
    requires RouteOk(c, r) && r.mapping.Some? && k < Beats(r.payload) && !EmptyBeat(r.payload, k)
    ensures Mapped(c, r)
    ensures MappingOf(c, r).base <= Lo(r.payload, k) && Hi(r.payload, k) <= MappingOf(c, r).End()
  {
    RouteFacts(c, r);
    assert Enabled(r.payload, k, Lo(r.payload, k)) && Enabled(r.payload, k, Hi(r.payload, k) - 1);
  }

  /** Addresses of one bus word differ by their lanes. */
  lemma LaneInWord(width: nat, lo: nat, a: nat)
    requires width > 0 && lo <= a && lo % width + (a - lo) < width
    ensures a % width == lo % width + (a - lo)
  {
    DivMod(lo, width);
    DivModUnique(a, width, lo / width, lo % width + (a - lo));
  }

  predicate WordByte(lo: nat, hi: nat, width: nat, strobe: seq<byte>, a: nat)
    requires |strobe| == width > 0
  {
    lo <= a < hi && strobe[a % width] != 0
  }

  /** Storing the lanes lo..hi of a bus word, seen at byte i of a memory at `base`. */
  lemma StoreWordAt(bytes: seq<byte>, base: nat, lo: nat, hi: nat, width: nat, data: seq<byte>, strobe: seq<byte>,
                    i: nat)
    requires |data| == |strobe| == width > 0 && base <= lo <= hi && lo % width + (hi - lo) <= width && i < |bytes|
    ensures var first, count := lo % width, hi - lo;
            Store(bytes, lo - base, data[first..first + count], Strobes(strobe)[first..first + count])[i] ==
            if WordByte(lo, hi, width, strobe, base + i) then data[(base + i) % width] else bytes[i]
  {
    var first, count := lo % width, hi - lo;
    var part, lanes := data[first..first + count], Strobes(strobe)[first..first + count];
    if lo <= base + i < hi {
      LaneInWord(width, lo, base + i);
      var j := base + i - lo;
      assert part[j] == data[first + j] && lanes[j] == (strobe[first + j] != 0);
    }
  }

  lemma StoreBeatFrame(c: Config, mem: Mem, r: Route, k: nat, st: Staged)
    requires Mapped(c, r) && MemOk(c, mem) && StagedOk(c, st)
    ensures StoreBeat(c, mem, r, k, st)
            == mem[MappingOf(c, r).device := StoreBeat(c, mem, r, k, st)[MappingOf(c, r).device]]
    ensures !Fits(c, r, Hi(r.payload, k)) ==> StoreBeat(c, mem, r, k, st) == mem
  {}

  ghost predicate BeatByte(c: Config, p: AddressPayload, k: nat, st: Staged, a: nat)
    requires c.width > 0 && StagedOk(c, st)
  {
    WordByte(Lo(p, k), Hi(p, k), c.width, st.strobe, a)
  }

  lemma LanesFit(c: Config, p: AddressPayload, k: nat)
    requires BusWidth(c.width) && ShapeOk(c.width, p)
    ensures Lo(p, k) % c.width + (Hi(p, k) - Lo(p, k)) <= c.width
  {
    BeatWindow(c.width, p, k);
  }

  /** One accepted beat, seen at byte i of its RAM. */
  lemma StoreBeatAt(c: Config, mem: Mem, r: Route, k: nat, st: Staged, i: nat)
    requires Mapped(c, r) && MemOk(c, mem) && StagedOk(c, st)
    requires MappingOf(c, r).base <= Lo(r.payload, k) && Fits(c, r, Hi(r.payload, k))
    requires i < |mem[MappingOf(c, r).device]|
    ensures var d, a := MappingOf(c, r).device, MappingOf(c, r).base + i;
            StoreBeat(c, mem, r, k, st)[d][i] ==
              if BeatByte(c, r.payload, k, st, a) then st.data[a % c.width] else mem[d][i]
  {
    var m, lo, hi := MappingOf(c, r), Lo(r.payload, k), Hi(r.payload, k);
    LanesFit(c, r.payload, k);
    StoreWordAt(mem[m.device], m.base, lo, hi, c.width, st.data, st.strobe, i);
  }

  // ---- exclusive bursts ------------------------------------------------------------------

  lemma PowerDivides(total: nat, bytes: nat, beats: nat, a: nat)
    requires bytes > 0 && total == beats * bytes && total > 0 && a % total == 0
    ensures a % bytes == 0
  {
    DivMod(a, total);
    assert a == total * (a / total);
    assert a == bytes * (beats * (a / total)) by {
      assert beats * bytes * (a / total) == bytes * (beats * (a / total));
    }
    DivModUnique(a, bytes, beats * (a / total), 0);
  }

  /** Beat k of a legal exclusive burst is the k-th slice of its byte range. */
  lemma ExclusiveBeat(p: AddressPayload, k: nat)
    requires ExclusiveShape(p)
    ensures Lo(p, k) == p.address + k * BeatBytes(p)
    ensures BeatEnd(p, k) == p.address + (k + 1) * BeatBytes(p)
    ensures k < Beats(p) ==> BeatEnd(p, k) <= p.address + Total(p)
    ensures EmptyBeat(p, k) <==> BeatEnd(p, k) == TWO64
  {
    PowerDivides(Total(p), BeatBytes(p), Beats(p), p.address);
    IncrementEnd(p, k);
    if k < Beats(p) { MulLe(k + 1, Beats(p), BeatBytes(p)); }
  }

  /** Byte number i of the range belongs to beat i / bytes. */
  lemma ExclusiveBeatOf(p: AddressPayload, k: nat, i: nat)
    requires ExclusiveShape(p)
    ensures BeatBytes(p) > 0
    ensures Lo(p, k) <= p.address + i < BeatEnd(p, k) <==> i / BeatBytes(p) == k
  {
    hide BeatAddress, BeatEnd, BeatBytes, Total, ExclusiveShape;
    ExclusiveBeat(p, k);
    SliceIndex(BeatBytes(p), k, i);
  }

  lemma SliceIndex(b: nat, k: nat, i: nat)
    requires b > 0
    ensures k * b <= i < (k + 1) * b <==> i / b == k
  {
    Distribute(k, 1, b);
    DivMod(i, b);
    Commute(b, i / b);
    if k * b <= i < k * b + b { DivModUnique(i, b, k, i - k * b); }
  }

  ghost function StoreBeats(c: Config, mem: Mem, r: Route, staged: seq<Staged>, n: nat): (m: Mem)
    requires Mapped(c, r) && MemOk(c, mem) && n <= |staged|
    requires forall k | 0 <= k < |staged| :: StagedOk(c, staged[k])
    ensures MemOk(c, m)
  {
    if n == 0 then mem
    else
      var m := StoreBeats(c, mem, r, staged, n - 1);
      if EmptyBeat(r.payload, n - 1) then m else StoreBeat(c, m, r, n - 1, staged[n - 1])
  }

  /** Only the RAM behind the mapping changes; other devices change nothing. */
  lemma {:induction false} StoreBeatsFrame(c: Config, mem: Mem, r: Route, staged: seq<Staged>, n: nat)
    requires RouteOk(c, r) && Mapped(c, r) && MemOk(c, mem) && n <= |staged| == Beats(r.payload)
    requires forall k | 0 <= k < |staged| :: StagedOk(c, staged[k])
    ensures var d := MappingOf(c, r).device;
            StoreBeats(c, mem, r, staged, n) == mem[d := StoreBeats(c, mem, r, staged, n)[d]]
    ensures !DeviceOf(c, r).Ram? ==> StoreBeats(c, mem, r, staged, n) == mem
  {
    if n > 0 {
      StoreBeatsFrame(c, mem, r, staged, n - 1);
      if !EmptyBeat(r.payload, n - 1) {
        StoreBeatFrame(c, StoreBeats(c, mem, r, staged, n - 1), r, n - 1, staged[n - 1]);
      }
    }
  }

  /** Address a gets a byte from one of the first n beats of the burst. */
  ghost predicate GatherHit(c: Config, p: AddressPayload, staged: seq<Staged>, n: nat, a: nat)
    requires c.width > 0 && AllStaged(c, p, staged)
  {
    p.address <= a < p.address + Total(p) &&
    (a - p.address) / BeatBytes(p) < n && GatherStrobe(c, p, staged)[a - p.address]
  }

  lemma GatherAt(c: Config, p: AddressPayload, staged: seq<Staged>, i: nat)
    requires c.width > 0 && AllStaged(c, p, staged) && i < Total(p)
    ensures 0 <= i / BeatBytes(p) < Beats(p)
    ensures var k := i / BeatBytes(p);
            && (GatherStrobe(c, p, staged)[i] <==> !EmptyBeat(p, k) && staged[k].strobe[(p.address + i) % c.width] != 0)
            && (!EmptyBeat(p, k) ==> GatherData(c, p, staged)[i] == staged[k].data[(p.address + i) % c.width])
  {
    GatherIndex(p, i);
  }

  /** The bytes of a non-empty beat are the slice of the range with its index. */
  lemma BeatByteIndex(c: Config, p: AddressPayload, k: nat, st: Staged, a: nat)
    requires c.width > 0 && StagedOk(c, st) && ExclusiveShape(p) && k < Beats(p) && !EmptyBeat(p, k)
    ensures BeatByte(c, p, k, st, a) <==>
            p.address <= a < p.address + Total(p) && (a - p.address) / BeatBytes(p) == k && st.strobe[a % c.width] != 0
  {
    ExclusiveBeat(p, k);
    MulNonNeg(k, BeatBytes(p));
    if p.address <= a { ExclusiveBeatOf(p, k, a - p.address); }
  }

  /** What beat k adds to the bytes hit by the first k beats. */
  lemma GatherStep(c: Config, p: AddressPayload, staged: seq<Staged>, k: nat, a: nat)
    requires c.width > 0 && AllStaged(c, p, staged) && ExclusiveShape(p) && k < Beats(p)
    ensures GatherHit(c, p, staged, k + 1, a) <==>
            GatherHit(c, p, staged, k, a) || (!EmptyBeat(p, k) && BeatByte(c, p, k, staged[k], a))
    ensures !EmptyBeat(p, k) && BeatByte(c, p, k, staged[k], a) ==>
            && p.address <= a < p.address + Total(p) && !GatherHit(c, p, staged, k, a)
            && GatherData(c, p, staged)[a - p.address] == staged[k].data[a % c.width]
  {
    hide EmptyBeat;
    if !EmptyBeat(p, k) { BeatByteIndex(c, p, k, staged[k], a); }
    if p.address <= a < p.address + Total(p) { GatherAt(c, p, staged, a - p.address); }
  }

  /** The first n beats of an exclusive burst, written one by one. */
  lemma {:induction false} ExclusiveBeatsAt(c: Config, mem: Mem, r: Route, staged: seq<Staged>, n: nat, i: nat)
    requires RouteOk(c, r) && Mapped(c, r) && r.payload.lock && MemOk(c, mem) && AllStaged(c, r.payload, staged)
    requires n <= Beats(r.payload) && Fits(c, r, r.payload.address + Total(r.payload))
    requires i < |mem[MappingOf(c, r).device]|
    ensures var d, a := MappingOf(c, r).device, MappingOf(c, r).base + i;
            StoreBeats(c, mem, r, staged, n)[d][i] ==
              if GatherHit(c, r.payload, staged, n, a) then GatherData(c, r.payload, staged)[a - r.payload.address]
              else mem[d][i]
  {
    hide Routed, InitRoute, BeatEnd, BeatAddress, ShapeOk, BurstOk, AlignDown;
    if n > 0 {
      RouteFacts(c, r);
      var k := n - 1;
      ExclusiveBeatsAt(c, mem, r, staged, k, i);
      GatherStep(c, r.payload, staged, k, MappingOf(c, r).base + i);
      ExclusiveBeat(r.payload, k);
      if !EmptyBeat(r.payload, k) {
        BeatInWindow(c, r, k);
        StoreBeatAt(c, StoreBeats(c, mem, r, staged, k), r, k, staged[k], i);
      }
    } else {
      GatherNone(c, r.payload, staged, MappingOf(c, r).base + i);
    }
  }

  lemma GatherNone(c: Config, p: AddressPayload, staged: seq<Staged>, a: nat)
    requires c.width > 0 && AllStaged(c, p, staged)
    ensures !GatherHit(c, p, staged, 0, a)
  {
    if p.address <= a { DivNonNeg(a - p.address, BeatBytes(p)); }
  }

  lemma GatherAll(c: Config, p: AddressPayload, staged: seq<Staged>, a: nat)
    requires c.width > 0 && AllStaged(c, p, staged)
    ensures GatherHit(c, p, staged, Beats(p), a) <==>
            p.address <= a < p.address + Total(p) && GatherStrobe(c, p, staged)[a - p.address]
  {
    if p.address <= a < p.address + Total(p) { GatherIndex(p, a - p.address); }
  }

  /** One gathered access equals the burst's beats written one after another. */
  lemma GatheredEqualsBeats(c: Config, mem: Mem, r: Route, staged: seq<Staged>)
    requires RouteOk(c, r) && Mapped(c, r) && r.payload.lock && MemOk(c, mem)
    requires AllStaged(c, r.payload, staged)
    requires DeviceOf(c, r).Ram? ==> Fits(c, r, r.payload.address + Total(r.payload))
    ensures StoreAt(c, mem, r, r.payload.address, GatherData(c, r.payload, staged), GatherStrobe(c, r.payload, staged))
            == StoreBeats(c, mem, r, staged, Beats(r.payload))
  {
    hide StoreBeats, GatherStrobe;
    var p, d := r.payload, MappingOf(c, r).device;
    var m1 := StoreAt(c, mem, r, p.address, GatherData(c, p, staged), GatherStrobe(c, p, staged));
    var m2 := StoreBeats(c, mem, r, staged, Beats(p));
    StoreBeatsFrame(c, mem, r, staged, Beats(p));
    if DeviceOf(c, r).Ram? {
      ExclusiveStart(c, r);
      forall i | 0 <= i < |mem[d]| ensures m1[d][i] == m2[d][i] {
        ExclusiveBeatsAt(c, mem, r, staged, Beats(p), i);
        GatherAll(c, p, staged, MappingOf(c, r).base + i);
      }
      assert m1[d] == m2[d];
    }
  }

  /** The first byte of a mapped exclusive burst is inside the mapping. */
  lemma ExclusiveStart(c: Config, r: Route)
    requires RouteOk(c, r) && r.mapping.Some? && r.payload.lock
    ensures Mapped(c, r) && MappingOf(c, r).base <= r.payload.address
    ensures !EmptyBeat(r.payload, 0)
  {
    RouteFacts(c, r);
    var p := r.payload;
    ExclusiveBeat(p, 0);
    if EmptyBeat(p, 0) {
      // the first beat ends at 2^64, so a second one could not be addressed
      if Beats(p) > 1 { ExclusiveBeat(p, 1); }
      assert false;
    }
    BeatInWindow(c, r, 0);
  }
}
