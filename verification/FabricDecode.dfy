/**
  When an access to unmapped space is answered DECERR.  An access is mapped when
  one window holds every byte of every beat.  The decoder overlooks beats that
  end at 2^64, whose lane mask is empty, and an exclusive access turns the decode
  error into SLVERR; these are the only exceptions.
 */
module FabricDecode {
  import opened Axi
  import opened Fabric
  import opened FabricRun
  import opened FabricAtomic
  import opened FabricCurrent

  /** Address a belongs to beat k. */
  ghost predicate InBeat(p: AddressPayload, k: nat, a: int) {
    k < Beats(p) && BeatAddress(p, k) <= a < BeatEnd(p, k)
  }

  /** Window m holds every byte of every beat. */
  ghost predicate Covers(c: Config, p: AddressPayload, m: nat) {
    m < |c.mappings| && forall k: nat, a :: InBeat(p, k, a) ==> c.mappings[m].Contains(a, 1)
  }

  ghost predicate Unmapped(c: Config, p: AddressPayload) { forall m: nat :: !Covers(c, p, m) }

  ghost predicate AtTop(p: AddressPayload, k: nat) { k < Beats(p) && BeatEnd(p, k) == TWO64 }

  ghost predicate ReachesTop(p: AddressPayload) { exists k: nat :: AtTop(p, k) }

  /** Some beat ends below 2^64, and window m holds every beat that does. */
  ghost predicate CoversBelowTop(c: Config, p: AddressPayload, m: nat) {
    && m < |c.mappings|
    && (exists k: nat :: k < Beats(p) && BeatEnd(p, k) != TWO64)
    && forall k: nat, a :: InBeat(p, k, a) && !AtTop(p, k) ==> c.mappings[m].Contains(a, 1)
  }

  /** An unmapped access that is decoded all the same: some beat ends at 2^64,
      another does not, and one window holds every beat that does not. */
  ghost predicate Escapes(c: Config, p: AddressPayload) {
    ReachesTop(p) && exists m: nat :: CoversBelowTop(c, p, m)
  }

  // ---- the decoder -------------------------------------------------------------------------------

  lemma RoutedIsBelowTop(c: Config, p: AddressPayload, m: nat)
    ensures Routed(c, p, m) <==> CoversBelowTop(c, p, m)
  {
    hide BeatAddress, BeatEnd;
    assert forall k: nat :: Lo(p, k) < Hi(p, k) <==> BeatEnd(p, k) != TWO64;
    assert forall k: nat, a :: k < Beats(p) ==> (Enabled(p, k, a) <==> InBeat(p, k, a) && !AtTop(p, k));
  }

  /** No window ends at 2^64, so a window that takes the rest of the burst covers
      it exactly if no beat ends there. */
  lemma CoversExactly(c: Config, p: AddressPayload, m: nat)
    requires ConfigOk(c)
    ensures Covers(c, p, m) <==> CoversBelowTop(c, p, m) && !ReachesTop(p)
  {
    hide BeatAddress, BeatEnd;
    if m < |c.mappings| {
      if k: nat :| AtTop(p, k) {
        assert InBeat(p, k, TWO64 - 1);
        assert !c.mappings[m].Contains(TWO64 - 1, 1);
      } else {
        assert BeatEnd(p, 0) != TWO64 by { assert !AtTop(p, 0); }
      }
    }
  }

  /** One window at most takes a burst. */
  lemma OneWindow(c: Config, p: AddressPayload, m: nat, n: nat)
    requires ConfigOk(c) && CoversBelowTop(c, p, m) && CoversBelowTop(c, p, n)
    ensures m == n
  {
    hide BeatAddress, BeatEnd;
    var k: nat :| k < Beats(p) && BeatEnd(p, k) != TWO64;
    var a := BeatAddress(p, k);
    assert InBeat(p, k, a);
    assert c.mappings[m].Contains(a, 1) && c.mappings[n].Contains(a, 1);
  }

  /** The forced response of a route in terms of its payload and the map. */
  lemma ForcedExactly(c: Config, r: Route)
    requires RouteOk(c, r)
    ensures Unmapped(c, r.payload) && !Escapes(c, r.payload) <==> r.mapping.None?
    ensures r.mapping.None? ==> r.forced == if r.payload.lock then SlaveError else DecodeError
    ensures forall m: nat | CoversBelowTop(c, r.payload, m) :: r.mapping == Some(m)
    ensures r.mapping.Some? ==> CoversBelowTop(c, r.payload, r.mapping.value) && r.mapping.value < |c.mappings|
    ensures r.mapping.Some? ==>
              var d := c.devices[c.mappings[r.mapping.value].device];
              r.forced == if (Beats(r.payload) > 1 && d.Peripheral? && !d.burst) ||
                             (r.payload.lock && !d.Ram? && !(d.Peripheral? && d.exclusive)) then SlaveError else Okay
  {
    hide Covers, CoversBelowTop, Routed, BurstOk;
    RouteFacts(c, r);
    var p := r.payload;
    forall m: nat ensures Covers(c, p, m) <==> Routed(c, p, m) && !ReachesTop(p)
                  ensures CoversBelowTop(c, p, m) <==> Routed(c, p, m)
    {
      RoutedIsBelowTop(c, p, m);
      CoversExactly(c, p, m);
    }
    forall m: nat | CoversBelowTop(c, p, m) ensures r.mapping == Some(m) { OneWindow(c, p, m, r.mapping.value); }
  }

  // ---- answers --------------------------------------------------------------------------------------

  /** A device other than RAM and ROM is asked and answers as it likes. */
  ghost predicate AsksPeripheral(c: Config, p: AddressPayload)
    requires ConfigOk(c)
  {
    exists m: nat :: CoversBelowTop(c, p, m) && c.devices[c.mappings[m].device].Peripheral?
  }

  /** The device that would take the access cannot: a write to ROM, a burst or an
      exclusive access the device does not support. */
  ghost predicate Unsupported(c: Config, p: AddressPayload, write: bool)
    requires ConfigOk(c)
  {
    exists m: nat ::
      && CoversBelowTop(c, p, m)
      && var d := c.devices[c.mappings[m].device];
         || (write && d.Rom?) || (Beats(p) > 1 && d.Peripheral? && !d.burst)
         || (p.lock && !d.Ram? && !(d.Peripheral? && d.exclusive))
  }

  /** The promise, as far as the code keeps it: DECERR for plain unmapped accesses
      that do not escape and for nothing else, SLVERR for exclusive ones and for
      accesses the device does not support. */
  ghost predicate DecodePromise(c: Config, p: AddressPayload, write: bool, answer: Response)
    requires ConfigOk(c)
  {
    && (Unmapped(c, p) && !Escapes(c, p) ==> answer == if p.lock then SlaveError else DecodeError)
    && (!AsksPeripheral(c, p) ==> (answer.DecodeError? <==> Unmapped(c, p) && !Escapes(c, p) && !p.lock))
    && (Unsupported(c, p, write) ==> answer.SlaveError?)
  }

  lemma UnsupportedForced(c: Config, r: Route, write: bool)
    requires RouteOk(c, r) && Unsupported(c, r.payload, write)
    ensures r.mapping.Some? && Mapped(c, r)
    ensures r.forced.SlaveError? || (r.forced.Okay? && write && DeviceOf(c, r).Rom?)
  {
    hide CoversBelowTop, Covers, Routed, BurstOk;
    ForcedExactly(c, r);
    RouteFacts(c, r);
  }

  lemma AskedDevice(c: Config, r: Route)
    requires RouteOk(c, r) && r.mapping.Some?
    ensures Mapped(c, r) && (AsksPeripheral(c, r.payload) <==> DeviceOf(c, r).Peripheral?)
  {
    hide CoversBelowTop, Covers, Routed, BurstOk;
    ForcedExactly(c, r);
    RouteFacts(c, r);
  }

  /** ROM takes no beat with bytes in it, and a routed burst has one. */
  lemma RomRefuses(c: Config, r: Route)
    requires RouteOk(c, r) && r.mapping.Some?
    ensures Mapped(c, r) && (DeviceOf(c, r).Rom? ==> exists k | 0 <= k < Beats(r.payload) :: !BeatFits(c, r, k))
  {
    hide BurstOk, BeatAddress, BeatEnd;
    RouteFacts(c, r);
    var k: nat :| k < Beats(r.payload) && Lo(r.payload, k) < Hi(r.payload, k);
    assert DeviceOf(c, r).Rom? ==> !BeatFits(c, r, k);
  }

  /** In every run every completed write answers as promised. */
  lemma WriteDecodeErrors(c: Config, mem: Mem, xs: seq<Stimulus>, i: nat)
    requires ConfigOk(c) && MemOk(c, mem) && StimuliOk(c, xs)
    requires Base(c, Init(c, mem)) && i < |Run(c, Init(c, mem), xs).s.h.done|
    ensures var h := Run(c, Init(c, mem), xs).s.h;
            i < |h.wgrants| && DecodePromise(c, h.wgrants[i].payload, true, h.done[i].response.response)
  {
    hide Cycle, Base, Run, CoversBelowTop, Covers, Routed, BurstOk, Unsupported, AsksPeripheral, Unmapped, Escapes,
         RouteOk, BeatFits, ConfigOk;
    WriteAnswers(c, mem, xs, i);
    var h := Run(c, Init(c, mem), xs).s.h;
    var r := h.wgrants[i];
    ForcedExactly(c, r);
    if Unsupported(c, r.payload, true) { UnsupportedForced(c, r, true); }
    if r.mapping.Some? {
      AskedDevice(c, r);
      RomRefuses(c, r);
      RouteFacts(c, r);
    }
  }

  /** And so does every read beat. */
  lemma ReadDecodeErrors(c: Config, mem: Mem, xs: seq<Stimulus>, i: nat)
    requires ConfigOk(c) && MemOk(c, mem) && StimuliOk(c, xs)
    requires Base(c, Init(c, mem)) && i < |Run(c, Init(c, mem), xs).s.h.served|
    ensures var x := Run(c, Init(c, mem), xs).s.h.served[i];
            DecodePromise(c, x.route.payload, false, x.out.response)
  {
    hide Cycle, Base, Run, CoversBelowTop, Covers, Routed, BurstOk, Unsupported, AsksPeripheral, Unmapped, Escapes,
         RouteOk, ConfigOk, CarriesMemory, BeatHeld, Replay;
    BurstAtomicity(c, mem, xs);
    var s := Run(c, Init(c, mem), xs).s;
    var x := s.h.served[i];
    assert SeesMemory(c, ReplayUpTo(c, s, x.after), x);
    ForcedExactly(c, x.route);
    if Unsupported(c, x.route.payload, false) { UnsupportedForced(c, x.route, false); }
    if x.route.mapping.Some? {
      AskedDevice(c, x.route);
      RouteFacts(c, x.route);
    }
  }
}
