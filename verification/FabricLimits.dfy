/**
  Runs that show where the promises of the fabric end, played cycle by cycle:
  an exclusive transfer that ends at 2^64, a RAM seen through two windows, a reset
  after WLAST, and two accesses to unmapped space that are not answered DECERR.
 */
module FabricLimits {
  import opened Axi
  import opened AddressMap
  import opened Bursts
  import opened Fabric
  import opened FabricRun
  import opened FabricSolo
  import opened FabricWindow
  import opened FabricAtomic
  import opened FabricExclusive
  import opened FabricExclusiveRun
  import opened FabricExclusiveExact
  import opened FabricAccess
  import opened FabricWrites
  import opened FabricDecode

  // ---- runs ----------------------------------------------------------------------------------------------

  ghost predicate RunsTo(c: Config, mem: Mem, xs: seq<Stimulus>) {
    ConfigOk(c) && MemOk(c, mem) && Base(c, Init(c, mem)) && StimuliOk(c, xs) && Run(c, Init(c, mem), xs).Done?
  }

  ghost function After(c: Config, mem: Mem, xs: seq<Stimulus>): Fabric
    requires RunsTo(c, mem, xs)
  {
    Run(c, Init(c, mem), xs).s
  }

  lemma StartRun(c: Config, mem: Mem)
    requires ConfigOk(c) && MemOk(c, mem)
    ensures RunsTo(c, mem, []) && After(c, mem, []) == Init(c, mem) && Ready(c, Init(c, mem))
  {
    InitReady(c, mem);
  }

  lemma Extend(c: Config, mem: Mem, xs: seq<Stimulus>, x: Stimulus)
    requires RunsTo(c, mem, xs) && Base(c, After(c, mem, xs)) && StimulusOk(c, x)
    requires Cycle(c, After(c, mem, xs), x).Done?
    ensures RunsTo(c, mem, xs + [x]) && After(c, mem, xs + [x]) == Cycle(c, After(c, mem, xs), x).s
  {
    hide Cycle, Base, MemOk, ConfigOk;
    assert (xs + [x])[..|xs|] == xs;
  }

  function Word(n: nat, b: byte): seq<byte> { seq(n, _ => b) }

  /** A beat that stores nothing, and one that stores `b` in every lane. */
  function Blank(n: nat, last: bool): WriteBeat { WriteBeat(Word(n, 0), Word(n, 0), last) }
  function Fill(n: nat, b: byte): WriteBeat { WriteBeat(Word(n, b), Word(n, 255), true) }

  lemma FillLegal(c: Config, p: AddressPayload, k: nat, b: byte)
    requires c.width > 0 && Lo(p, k) % c.width == 0 && Hi(p, k) == Lo(p, k) + c.width
    ensures StrobesLegal(c, p, k, Fill(c.width, b).strobe)
  {}

  // ---- routes --------------------------------------------------------------------------------------------

  /** A legal burst in one RAM window is routed there. */
  lemma RoutesTo(c: Config, p: AddressPayload, m: nat)
    requires ConfigOk(c) && BurstOk(c, p) && (p.lock ==> ExclusiveShape(p)) && !TooWide(c, p)
    requires Routed(c, p, m) && c.devices[c.mappings[m].device].Ram?
    ensures var r := Route(0, p, Some(m), Okay); RouteOk(c, r) && Mapped(c, r)
  {
    hide BurstOk, ExclusiveShape;
    forall n: nat | Routed(c, p, n) ensures n == m {
      RoutedIsBelowTop(c, p, m);
      RoutedIsBelowTop(c, p, n);
      OneWindow(c, p, m, n);
    }
  }

  lemma WideEnough(c: Config, p: AddressPayload)
    requires ConfigOk(c) && c.addressBits == 64 && BurstOk(c, p)
    ensures !TooWide(c, p)
  {
    hide BeatAddress, BeatEnd, ShapeOk;
    forall k: nat, a | k < Beats(p) && Enabled(p, k, a) ensures a <= AddressLimit(c) { BeatWindow(c.width, p, k); }
  }

  /** A single aligned beat inside window m, not crossing a page. */
  lemma WordRoutes(c: Config, p: AddressPayload, m: nat)
    requires ConfigOk(c) && c.addressBits == 64 && m < |c.mappings| && c.devices[c.mappings[m].device].Ram?
    requires p.size < 64 && p.burst.Increment? && Beats(p) == 1 && BeatBytes(p) <= c.width && ExclusiveShape(p)
    requires Lo(p, 0) < Hi(p, 0) && c.mappings[m].base <= Lo(p, 0) && Hi(p, 0) <= c.mappings[m].End()
    requires (BeatEnd(p, 0) - 1) / PAGE == p.address / PAGE
    ensures var r := Route(0, p, Some(m), Okay); RouteOk(c, r) && Mapped(c, r)
  {
    hide BeatAddress, BeatEnd, BeatBytes, Total, AlignDown, ExclusiveShape, Lo, Hi;
    assert ShapeOk(c.width, p);
    Within4KIsPageRule(c.width, p);
    assert Routed(c, p, m);
    WideEnough(c, p);
    RoutesTo(c, p, m);
  }

  // ---- the transfer that ends at 2^64 --------------------------------------------------------------------

  function TopConfig(): Config {
    Config(1, 64, 8, 1, 1, 4, 1, [Mapping(TWO64 - 4096, 4088, 0)], [Ram(4096)])
  }

  /** Two 8-byte beats, the second of which ends at 2^64 and is in no window. */
  function TopPayload(lock: bool): AddressPayload { AddressPayload(0, TWO64 - 16, 1, 3, Increment, lock, 0, 0) }

  /** A plain store to the first of them. */
  function TopStore(): AddressPayload { AddressPayload(0, TWO64 - 16, 0, 3, Increment, false, 0, 0) }

  lemma TopSize(lock: bool)
    ensures var p := TopPayload(lock); BeatBytes(p) == 8 && Total(p) == 16 && ExclusiveShape(p)
    ensures BeatBytes(TopStore()) == 8 && Total(TopStore()) == 8 && ExclusiveShape(TopStore())
  {
    assert Pow2(3) == 8 by { assert Pow2(1) == 2; }
    assert (TWO64 - 16) % 16 == 0 && (TWO64 - 16) % 8 == 0;
  }

  lemma TopBeats(lock: bool)
    ensures var p := TopPayload(lock);
            && Lo(p, 0) == TWO64 - 16 && Hi(p, 0) == TWO64 - 8 && Lo(p, 1) == Hi(p, 1)
            && BeatEnd(p, 0) == TWO64 - 8 && BeatEnd(p, 1) == TWO64
    ensures var q := TopStore(); Lo(q, 0) == TWO64 - 16 && Hi(q, 0) == TWO64 - 8
  {
    hide BeatAddress, BeatEnd, AlignDown, BeatBytes, Total, ExclusiveShape;
    TopSize(lock);
    ExclusiveBeat(TopPayload(lock), 0);
    ExclusiveBeat(TopPayload(lock), 1);
    ExclusiveBeat(TopStore(), 0);
  }

  ghost function TopRoute(lock: bool): Route { Route(0, TopPayload(lock), Some(0), Okay) }
  ghost function TopStoreRoute(): Route { Route(0, TopStore(), Some(0), Okay) }

  lemma TopRoutes(lock: bool)
    ensures ConfigOk(TopConfig())
    ensures RouteOk(TopConfig(), TopRoute(lock)) && Mapped(TopConfig(), TopRoute(lock))
    ensures RouteOk(TopConfig(), TopStoreRoute()) && Mapped(TopConfig(), TopStoreRoute())
  {
    hide BeatAddress, BeatEnd, BeatBytes, Total, Pow2, AlignDown;
    var c, p, q := TopConfig(), TopPayload(lock), TopStore();
    TopSize(lock);
    TopBeats(lock);
    assert SpaceOk(c.mappings);
    ExclusiveBeat(p, 1);
    ExclusiveBeat(q, 0);
    assert (TWO64 - 1) / PAGE == (TWO64 - 16) / PAGE == (TWO64 - 9) / PAGE;
    Within4KIsPageRule(8, p);
    forall k: nat, a: int | k < 2 && Enabled(p, k, a) ensures c.mappings[0].Contains(a, 1) { assert k == 0; }
    assert Lo(p, 0) < Hi(p, 0);
    assert Routed(c, p, 0);
    WideEnough(c, p);
    RoutesTo(c, p, 0);
    WordRoutes(c, q, 0);
  }

  function TopStart(): seq<Stimulus> { [] + [Solo(TopConfig(), None, None, Some(TopPayload(true)))] }
  function TopRead(): seq<Stimulus> { TopStart() + [Solo(TopConfig(), None, None, None)] }

  function TopUntilStore(b: byte): seq<Stimulus> {
    TopRead() + [Solo(TopConfig(), Some(TopStore()), Some(Fill(8, b)), None)]
  }

  function TopUntilStage(b: byte): seq<Stimulus> {
    TopUntilStore(b) + [Solo(TopConfig(), Some(TopPayload(true)), Some(Blank(8, false)), None)]
  }

  /** Exclusive read in two beats, plain store into its bytes, exclusive write in two beats. */
  function TopRun(b: byte): seq<Stimulus> {
    TopUntilStage(b) + [Solo(TopConfig(), None, Some(Blank(8, true)), None)]
  }

  lemma TopAfterRead(mem: Mem)
    requires MemOk(TopConfig(), mem)
    ensures RunsTo(TopConfig(), mem, TopRead())
    ensures var t := After(TopConfig(), mem, TopRead());
            && Ready(TopConfig(), t) && t.writeRoutes == [] && t.readRoutes == [] && t.h.done == []
            && t.h.events == [Reserve(0, TopPayload(true), mem, 0)]
  {
    hide Cycle, Ready, Run, InitRoute, RoutesOk, FifosOk, Solo;
    var c, r := TopConfig(), TopRoute(true);
    TopRoutes(true);
    StartRun(c, mem);
    ReserveCycle(c, mem, r);
    Extend(c, mem, [], Solo(c, None, None, Some(r.payload)));
    var s := After(c, mem, TopStart());
    ReadyBase(c, s);
    NextBeatCycle(c, s, r, 1);
    Extend(c, mem, TopStart(), Solo(c, None, None, None));
  }

  ghost function TopTouched(b: byte): set<int> {
    Touched(TopConfig(), TopStore(), 0, Staged(Word(8, b), Word(8, 255)))
  }

  lemma TopLegal(b: byte)
    ensures RamTakes(TopConfig(), TopStoreRoute(), 0) && LegalBeat(TopConfig(), TopStoreRoute(), 0, Fill(8, b))
  {
    hide StrobesLegal, InitRoute, BeatAddress, BeatEnd;
    TopRoutes(true);
    TopBeats(true);
    FillLegal(TopConfig(), TopStore(), 0, b);
  }

  lemma TopAfterStore(mem: Mem, b: byte)
    requires MemOk(TopConfig(), mem)
    ensures RunsTo(TopConfig(), mem, TopUntilStore(b))
    ensures var t := After(TopConfig(), mem, TopUntilStore(b));
            && Ready(TopConfig(), t) && t.writeRoutes == [] && t.readRoutes == [] && |t.h.done| == 1
            && t.h.events == [Reserve(0, TopPayload(true), mem, 0), BusWrite(TopTouched(b))]
  {
    hide Cycle, Run, InitRoute, RoutesOk, FifosOk, Touched, StoreBeat, MemOk, Solo, Ready, RamTakes, LegalBeat;
    var c := TopConfig();
    TopAfterRead(mem);
    TopLegal(b);
    var s := After(c, mem, TopRead());
    ReadyBase(c, s);
    StoreCycle(c, s, TopStoreRoute(), Fill(8, b));
    Extend(c, mem, TopRead(), Solo(c, Some(TopStore()), Some(Fill(8, b)), None));
  }

  lemma TopAfterStage(mem: Mem, b: byte)
    requires MemOk(TopConfig(), mem)
    ensures RunsTo(TopConfig(), mem, TopUntilStage(b))
    ensures var t := After(TopConfig(), mem, TopUntilStage(b));
            && Ready(TopConfig(), t) && t.h.events == [Reserve(0, TopPayload(true), mem, 0), BusWrite(TopTouched(b))]
            && t.writeRoutes == [WriteRoute(TopRoute(true), [Staged(Word(8, 0), Word(8, 0))], Okay, None, 0, false)]
            && |t.h.done| == 1
  {
    hide Cycle, Run, InitRoute, RoutesOk, FifosOk, TopTouched, MemOk, Hi, Lo, Solo, Ready;
    var c := TopConfig();
    TopAfterStore(mem, b);
    TopRoutes(true);
    var s := After(c, mem, TopUntilStore(b));
    ReadyBase(c, s);
    StageCycle(c, s, TopRoute(true), Blank(8, false));
    Extend(c, mem, TopUntilStore(b), Solo(c, Some(TopPayload(true)), Some(Blank(8, false)), None));
  }

  lemma TopDecided(mem: Mem, b: byte)
    requires MemOk(TopConfig(), mem)
    ensures RunsTo(TopConfig(), mem, TopRun(b))
    ensures var t := After(TopConfig(), mem, TopRun(b));
            && |t.h.events| > 2 && t.h.events[..2] == [Reserve(0, TopPayload(true), mem, 0), BusWrite(TopTouched(b))]
            && DecidesRam(TopConfig(), t, 2) && t.h.events[2].route == TopRoute(true)
            && t.h.events[2].index == 1 && |t.h.done| == 2
  {
    hide Cycle, Run, InitRoute, RoutesOk, FifosOk, TopTouched, MemOk, Hi, Lo, Solo, Ready;
    var c := TopConfig();
    TopAfterStage(mem, b);
    TopRoutes(true);
    var s := After(c, mem, TopUntilStage(b));
    ReadyBase(c, s);
    FinishCycle(c, s, TopRoute(true), s.writeRoutes[0].staged, Blank(8, true));
    Extend(c, mem, TopUntilStage(b), Solo(c, None, Some(Blank(8, true)), None));
  }

  /**
    The limit of `ExclusiveExact` is real: in this run a plain store hits the first
    byte of the reserved range between the exclusive read and the exclusive write,
    which answers EXOKAY all the same, and reaches past its window.
   */
  lemma TopReservationIgnoresStores(mem: Mem, b: byte)
    requires MemOk(TopConfig(), mem)
    ensures RunsTo(TopConfig(), mem, TopRun(b))
    ensures var es := After(TopConfig(), mem, TopRun(b)).h.events;
            && |es| > 2 && es[0] == Reserve(0, TopPayload(true), mem, 0) && es[1].BusWrite? &&
               TopPayload(true).address in es[1].touched
            && es[2].ExclusiveWrite? && es[2].route == TopRoute(true) && es[2].response == ExclusiveOkay
            && !Unbroken(es[..2], 0, TopPayload(true))
    ensures exists a :: a in After(TopConfig(), mem, TopRun(b)).h.accesses && a.DeviceWrite? &&
                        a.mapping == 0 && !InWindow(TopConfig(), a)
  {
    hide Cycle, Run, InitRoute, RoutesOk, FifosOk, TopTouched, MemOk, Hi, Lo, Ready, RouteOk, TopRun,
         Total, Mapped, ReplayUpTo, Solo;
    var c, p := TopConfig(), TopPayload(true);
    TopDecided(mem, b);
    var t := After(c, mem, TopRun(b));
    TopRoutes(true);
    TopSize(true);
    ExclusiveAtTop(c, mem, TopRun(b), 2);
    assert Latest(t.h.events[..2], 0, p, 0);
    assert FitsWhole(c, TopRoute(true));
    TopTouches(b);
    StoreDisturbs(p, mem, TopTouched(b));
    GatherLogged(c, mem, TopRun(b), 1);
  }

  /** The one access of a successful exclusive write is in the log. */
  lemma GatherLogged(c: Config, mem: Mem, xs: seq<Stimulus>, n: nat)
    requires RunsTo(c, mem, xs)
    requires var h := After(c, mem, xs).h;
             && n < |h.done| && n < |h.wgrants| && h.wgrants[n].payload.lock && h.wgrants[n].forced.Okay?
             && !h.done[n].response.response.Okay?
    ensures var h := After(c, mem, xs).h;
            && Mapped(c, h.wgrants[n])
            && exists a :: a in h.accesses && a.DeviceWrite? && a.mapping == h.wgrants[n].mapping.value &&
                           a.offset == h.wgrants[n].payload.address - MappingOf(c, h.wgrants[n]).base &&
                           |a.data| == Total(h.wgrants[n].payload)
  {
    hide Cycle, Run, Base, GatherAccess, Total, DoneLog, AccessesOf, Mapped, RouteOk, AllStaged, MemOk, ConfigOk;
    DeviceWritesExact(c, mem, xs, n);
    var h := After(c, mem, xs).h;
    var r, d := h.wgrants[n], h.done[n];
    LockedLog(c, n, r, d, AccessesOf(h.accesses, n));
    AccessesFromLog(h.accesses, n, GatherAccess(c, n, r, d.staged));
  }

  lemma LockedLog(c: Config, n: nat, r: Route, d: DoneWrite, log: seq<Access>)
    requires DoneLog(c, n, r, d, log) && r.payload.lock && r.forced.Okay? && !d.response.response.Okay?
    ensures Mapped(c, r) && AllStaged(c, r.payload, d.staged)
    ensures var a := GatherAccess(c, n, r, d.staged);
            && log == [a] && a.DeviceWrite? && a.mapping == r.mapping.value
            && a.offset == r.payload.address - MappingOf(c, r).base && |a.data| == Total(r.payload)
  {
    hide InitRoute, GatherData, GatherStrobe, Total;
    RouteFacts(c, r);
  }

  lemma {:induction false} AccessesFromLog(log: seq<Access>, n: nat, a: Access)
    requires a in AccessesOf(log, n)
    ensures a in log
  {
    var last := log[|log| - 1];
    if !(last.DeviceWrite? && last.write == n && last == a) { AccessesFromLog(log[..|log| - 1], n, a); }
  }

  /** A store to the first byte of a range disturbs every reservation of it. */
  lemma StoreDisturbs(p: AddressPayload, mem: Mem, touched: set<int>)
    requires p.address in touched
    ensures !Unbroken([Reserve(0, p, mem, 0), BusWrite(touched)], 0, p)
  {
    var es := [Reserve(0, p, mem, 0), BusWrite(touched)];
    assert InRange(p, p.address);
    forall j: nat ensures !Undisturbed(es, 0, p, j) { if j == 0 { assert es[1].BusWrite?; } }
  }

  lemma TopTouches(b: byte)
    ensures TopPayload(true).address in TopTouched(b)
  {
    TopBeats(true);
  }

  // ---- one RAM behind two windows ------------------------------------------------------------------------

  /** The single byte at address a. */
  function BytePayload(a: u64, lock: bool): AddressPayload { AddressPayload(0, a, 0, 0, Increment, lock, 0, 0) }

  ghost function ByteRoute(x: nat, a: u64, lock: bool): Route { Route(0, BytePayload(a, lock), Some(x), Okay) }

  lemma ByteBeat(a: u64, lock: bool)
    requires a + 1 < TWO64
    ensures var p := BytePayload(a, lock);
            && BeatBytes(p) == 1 && Total(p) == 1 && Beats(p) == 1 && ExclusiveShape(p)
            && BeatAddress(p, 0) == a && BeatEnd(p, 0) == a + 1 && Lo(p, 0) == a && Hi(p, 0) == a + 1
  {
    ExclusiveBeat(BytePayload(a, lock), 0);
  }

  /** Every RAM byte within the configured address width can be addressed by itself. */
  lemma ByteRoutes(c: Config, x: nat, a: u64, lock: bool)
    requires InRam(c, x, a) && a <= AddressLimit(c)
    ensures var r := ByteRoute(x, a, lock);
            RouteOk(c, r) && Mapped(c, r) && !EmptyBeat(r.payload, 0) && Fits(c, r, Hi(r.payload, 0)) && FitsWhole(c, r)
  {
    hide BeatAddress, BeatEnd, BeatBytes, Total, ExclusiveShape, Lo, Hi;
    var p := BytePayload(a, lock);
    ByteBeat(a, lock);
    assert BurstOk(c, p);
    assert Enabled(p, 0, a);
    assert Routed(c, p, x);
    RoutesTo(c, p, x);
  }

  /** A beat that stores v in one lane. */
  function OneLane(width: nat, lane: nat, v: byte): WriteBeat {
    WriteBeat(Word(width, v), seq(width, i => if i == lane then 255 else 0), true)
  }

  ghost function LaneStaged(width: nat, lane: nat, v: byte): Staged {
    Staged(OneLane(width, lane, v).data, OneLane(width, lane, v).strobe)
  }

  lemma OneLaneLegal(c: Config, y: nat, b: u64, v: byte)
    requires BusWidth(c.width) && b + 1 < TWO64
    ensures LegalBeat(c, ByteRoute(y, b, false), 0, OneLane(c.width, b % c.width, v))
  {
    hide BeatAddress, BeatEnd, BeatBytes, ExclusiveShape, Lo, Hi;
    ByteBeat(b, false);
  }

  lemma BlankLegal(c: Config, x: nat, a: u64)
    requires BusWidth(c.width)
    ensures LegalBeat(c, ByteRoute(x, a, true), 0, Blank(c.width, true))
  {}

  function AliasRead(c: Config, a: u64): seq<Stimulus> { [] + [Solo(c, None, None, Some(BytePayload(a, true)))] }

  function AliasUntilStore(c: Config, a: u64, b: u64, v: byte): seq<Stimulus>
    requires c.width > 0
  {
    AliasRead(c, a) + [Solo(c, Some(BytePayload(b, false)), Some(OneLane(c.width, b % c.width, v)), None)]
  }

  /** Exclusive read of a, plain store of v to b, exclusive write to a. */
  function AliasRun(c: Config, a: u64, b: u64, v: byte): seq<Stimulus>
    requires c.width > 0
  {
    AliasUntilStore(c, a, b, v) + [Solo(c, Some(BytePayload(a, true)), Some(Blank(c.width, true)), None)]
  }

  lemma AliasAfterRead(c: Config, mem: Mem, x: nat, a: u64)
    requires MemOk(c, mem) && InRam(c, x, a) && a <= AddressLimit(c)
    ensures RunsTo(c, mem, AliasRead(c, a))
    ensures var t := After(c, mem, AliasRead(c, a));
            && Ready(c, t) && t.writeRoutes == [] && t.readRoutes == [] && t.mem == mem
            && t.h.events == [Reserve(0, BytePayload(a, true), mem, 0)]
  {
    hide Cycle, Ready, Run, InitRoute, RoutesOk, FifosOk, Solo, MemOk, ConfigOk;
    ByteRoutes(c, x, a, true);
    StartRun(c, mem);
    ReserveCycle(c, mem, ByteRoute(x, a, true));
    Extend(c, mem, [], Solo(c, None, None, Some(BytePayload(a, true))));
  }

  ghost function AliasTouched(c: Config, b: u64, v: byte): set<int>
    requires c.width > 0
  {
    Touched(c, BytePayload(b, false), 0, LaneStaged(c.width, b % c.width, v))
  }

  lemma AliasAfterStore(c: Config, mem: Mem, x: nat, a: u64, y: nat, b: u64, v: byte)
    requires MemOk(c, mem) && InRam(c, x, a) && InRam(c, y, b) && a <= AddressLimit(c) && b <= AddressLimit(c)
    ensures c.width > 0 && RunsTo(c, mem, AliasUntilStore(c, a, b, v)) && Mapped(c, ByteRoute(y, b, false))
    ensures var t, st := After(c, mem, AliasUntilStore(c, a, b, v)), LaneStaged(c.width, b % c.width, v);
            && Ready(c, t) && t.writeRoutes == [] && t.readRoutes == []
            && t.mem == StoreBeat(c, mem, ByteRoute(y, b, false), 0, st)
            && t.h.events == [Reserve(0, BytePayload(a, true), mem, 0), BusWrite(AliasTouched(c, b, v))]
  {
    hide Cycle, Run, InitRoute, RoutesOk, FifosOk, Touched, StoreBeat, MemOk, Solo, Ready, LegalBeat, Hi, Lo, OneLane;
    AliasAfterRead(c, mem, x, a);
    ByteRoutes(c, y, b, false);
    OneLaneLegal(c, y, b, v);
    var s, r, w := After(c, mem, AliasRead(c, a)), ByteRoute(y, b, false), OneLane(c.width, b % c.width, v);
    ReadyBase(c, s);
    assert RamTakes(c, r, 0);
    StoreCycle(c, s, r, w);
    Extend(c, mem, AliasRead(c, a), Solo(c, Some(r.payload), Some(w), None));
  }

  lemma AliasDecided(c: Config, mem: Mem, x: nat, a: u64, y: nat, b: u64, v: byte)
    requires MemOk(c, mem) && InRam(c, x, a) && InRam(c, y, b) && a <= AddressLimit(c) && b <= AddressLimit(c)
    ensures c.width > 0 && RunsTo(c, mem, AliasRun(c, a, b, v)) && Mapped(c, ByteRoute(y, b, false))
    ensures var t, st := After(c, mem, AliasRun(c, a, b, v)), LaneStaged(c.width, b % c.width, v);
            && |t.h.events| > 2 && DecidesRam(c, t, 2) && t.h.events[2].route == ByteRoute(x, a, true)
            && t.h.events[2].mem == StoreBeat(c, mem, ByteRoute(y, b, false), 0, st)
            && t.h.events[..2] == [Reserve(0, BytePayload(a, true), mem, 0), BusWrite(AliasTouched(c, b, v))]
  {
    hide Cycle, Run, InitRoute, RoutesOk, FifosOk, AliasTouched, StoreBeat, MemOk, Solo, Ready, LegalBeat, OneLane;
    AliasAfterStore(c, mem, x, a, y, b, v);
    ByteRoutes(c, x, a, true);
    BlankLegal(c, x, a);
    var s := After(c, mem, AliasUntilStore(c, a, b, v));
    ReadyBase(c, s);
    LockCycle(c, s, ByteRoute(x, a, true), Blank(c.width, true));
    Extend(c, mem, AliasUntilStore(c, a, b, v), Solo(c, Some(BytePayload(a, true)), Some(Blank(c.width, true)), None));
  }

  /** A store outside a range leaves its reservation undisturbed. */
  lemma StoreElsewhere(p: AddressPayload, mem: Mem, touched: set<int>)
    requires forall a | a in touched :: !InRange(p, a)
    ensures Undisturbed([Reserve(0, p, mem, 0), BusWrite(touched)], 0, p, 0)
  {}

  /** The store reaches address b alone, and leaves v there. */
  lemma AliasByte(c: Config, mem: Mem, y: nat, b: u64, v: byte)
    requires MemOk(c, mem) && InRam(c, y, b) && b <= AddressLimit(c)
    ensures Mapped(c, ByteRoute(y, b, false)) && c.width > 0
    ensures AliasTouched(c, b, v) == {b}
    ensures ByteAt(c, StoreBeat(c, mem, ByteRoute(y, b, false), 0, LaneStaged(c.width, b % c.width, v)), y, b) == v
  {
    hide StoreBeat, InitRoute, BeatAddress, BeatEnd, AlignDown, BeatBytes, ExclusiveShape, Lo, Hi;
    ByteRoutes(c, y, b, false);
    ByteBeat(b, false);
    StoreBeatAt(c, mem, ByteRoute(y, b, false), 0, LaneStaged(c.width, b % c.width, v), b - c.mappings[y].base);
  }

  /** A held reservation and RAM enough: EXOKAY. */
  lemma HeldAnswer(c: Config, mem: Mem, xs: seq<Stimulus>, k: nat, j: nat)
    requires RunsTo(c, mem, xs) && DecidesRam(c, After(c, mem, xs), k)
    requires var e := After(c, mem, xs).h.events[k];
             && e.route.payload.address + Total(e.route.payload) < TWO64 && FitsWhole(c, e.route)
             && Undisturbed(After(c, mem, xs).h.events[..k], e.route.port, e.route.payload, j)
    ensures After(c, mem, xs).h.events[k].response == ExclusiveOkay
  {
    hide Cycle, Run, Base, Effective, Undisturbed, InRam, ByteKept, Unstored, Sole, Total, FitsWhole;
    ExclusiveExact(c, mem, xs, k);
    var e := After(c, mem, xs).h.events[k];
    assert Unbroken(After(c, mem, xs).h.events[..k], e.route.port, e.route.payload);
  }

  /** Another window shows byte a at b, and both can be addressed. */
  ghost predicate Aliased(c: Config, x: nat, a: int, y: nat, b: int) {
    InRam(c, x, a) && SameByte(c, x, a, y, b) && y != x && a <= AddressLimit(c) && b <= AddressLimit(c)
  }

  lemma AliasFacts(c: Config, x: nat, a: int, y: nat, b: int)
    requires Aliased(c, x, a, y, b)
    ensures InRam(c, y, b) && a != b && 0 <= a && a + 1 < TWO64 && 0 <= b && b + 1 < TWO64 && !Sole(c, x, a)
    ensures forall mem: Mem | MemOk(c, mem) :: ByteAt(c, mem, x, a) == ByteAt(c, mem, y, b)
  {}

  /**
    The condition on the bytes in `ExclusiveExact` is needed for every configuration
    and every RAM byte that a second window shows: reservations are kept by bus
    address, so a store through the other window goes unseen.  In this run no store
    hits the reserved address, the exclusive write answers EXOKAY, and yet the
    reserved byte is no longer what the read found.
   */
  lemma AliasedStoreUnseen(c: Config, mem: Mem, x: nat, a: u64, y: nat, b: u64, v: byte)
    requires Aliased(c, x, a, y, b) && MemOk(c, mem) && v != ByteAt(c, mem, x, a)
    ensures c.width > 0 && RunsTo(c, mem, AliasRun(c, a, b, v)) && InRange(BytePayload(a, true), a)
    ensures var es, p := After(c, mem, AliasRun(c, a, b, v)).h.events, BytePayload(a, true);
            && |es| > 2 && es[0].Reserve? && Undisturbed(es[..2], 0, p, 0)
            && es[2].ExclusiveWrite? && es[2].route == ByteRoute(x, a, true) && es[2].response == ExclusiveOkay
            && MemOk(c, es[0].mem) && MemOk(c, es[2].mem)
            && ByteAt(c, es[0].mem, x, a) != ByteAt(c, es[2].mem, x, a)
  {
    hide Cycle, Run, InitRoute, RoutesOk, FifosOk, AliasTouched, StoreBeat, RouteOk, Undisturbed, AliasRun,
         OneLane, ConfigOk, BeatBytes, ExclusiveShape;
    AliasFacts(c, x, a, y, b);
    AliasDecided(c, mem, x, a, y, b, v);
    AliasByte(c, mem, y, b, v);
    ByteRoutes(c, x, a, true);
    ByteBeat(a, true);
    var es, p := After(c, mem, AliasRun(c, a, b, v)).h.events, BytePayload(a, true);
    StoreElsewhere(p, mem, AliasTouched(c, b, v));
    HeldAnswer(c, mem, AliasRun(c, a, b, v), 2, 0);
    assert es[0] == es[..2][0];
  }

  /** In this run, exclusive write k answers EXOKAY on the undisturbed reservation j
      of a range that holds byte a, and yet that byte has changed since. */
  ghost predicate Surprises(c: Config, mem: Mem, xs: seq<Stimulus>, k: nat, j: nat, x: nat, a: int)
    requires InRam(c, x, a)
  {
    && RunsTo(c, mem, xs) && DecidesRam(c, After(c, mem, xs), k)
    && var es, e := After(c, mem, xs).h.events[..k], After(c, mem, xs).h.events[k];
       && e.route.mapping == Some(x) && e.route.payload.address + Total(e.route.payload) < TWO64
       && e.response == ExclusiveOkay && Undisturbed(es, e.route.port, e.route.payload, j)
       && InRange(e.route.payload, a) && MemOk(c, es[j].mem) && MemOk(c, e.mem)
       && ByteAt(c, es[j].mem, x, a) != ByteAt(c, e.mem, x, a)
  }

  lemma SoleNeverSurprises(c: Config, mem: Mem, xs: seq<Stimulus>, k: nat, j: nat, x: nat, a: int)
    requires InRam(c, x, a) && Sole(c, x, a)
    ensures !Surprises(c, mem, xs, k, j, x, a)
  {
    hide Cycle, Run, Base, Effective, Undisturbed, InRam, Unstored, Sole, Total, FitsWhole;
    if Surprises(c, mem, xs, k, j, x, a) {
      ExclusiveExact(c, mem, xs, k);
      assert false;
    }
  }

  lemma AliasSurprises(c: Config, mem: Mem, x: nat, a: u64, y: nat, b: u64, v: byte)
    requires Aliased(c, x, a, y, b) && MemOk(c, mem) && v != ByteAt(c, mem, x, a)
    ensures c.width > 0 && Surprises(c, mem, AliasRun(c, a, b, v), 2, 0, x, a)
  {
    hide Cycle, Run, InitRoute, RoutesOk, FifosOk, Undisturbed, AliasRun, BeatBytes, ExclusiveShape, SameByte, OneLane,
         StoreBeat, AliasTouched;
    AliasFacts(c, x, a, y, b);
    ByteBeat(a, true);
    AliasDecided(c, mem, x, a, y, b, v);
    AliasedStoreUnseen(c, mem, x, a, y, b, v);
  }

  /**
    When a held reservation vouches for a byte: in every configuration, from every
    memory, no run surprises if and only if no other window shows the byte.
   */
  lemma SoleExactly(c: Config, mem: Mem, x: nat, a: int)
    requires InRam(c, x, a) && a <= AddressLimit(c) && MemOk(c, mem)
    ensures Sole(c, x, a) <==> forall xs: seq<Stimulus>, k: nat, j: nat :: !Surprises(c, mem, xs, k, j, x, a)
  {
    hide Surprises, InRam;
    if Sole(c, x, a) {
      forall xs: seq<Stimulus>, k: nat, j: nat ensures !Surprises(c, mem, xs, k, j, x, a) {
        SoleNeverSurprises(c, mem, xs, k, j, x, a);
      }
    } else {
      var y: nat, b :| SameByte(c, x, a, y, b) && b <= AddressLimit(c) && y != x;
      AliasFacts(c, x, a, y, b);
      var v: byte := if ByteAt(c, mem, x, a) == 0 then 1 else 0;
      AliasSurprises(c, mem, x, a, y, b, v);
    }
  }

  // ---- a reset after WLAST -------------------------------------------------------------------------------

  /** One RAM at 0 and again at 8192, with a gap between. */
  function PairConfig(): Config {
    Config(1, 64, 4, 1, 1, 4, 1, [Mapping(0, 4096, 0), Mapping(8192, 4096, 0)], [Ram(4096)])
  }

  /** Two words at address 0. */
  function SplitPayload(): AddressPayload { AddressPayload(0, 0, 1, 2, Increment, false, 0, 0) }
  ghost function SplitRoute(): Route { Route(0, SplitPayload(), Some(0), Okay) }

  lemma SplitBeats(p: AddressPayload)
    requires p.address == 0 && BeatBytes(p) == 4 && Total(p) == 8 && ExclusiveShape(p)
    ensures Lo(p, 0) == 0 && Hi(p, 0) == 4 && Lo(p, 1) == 4 && Hi(p, 1) == 8 && BeatEnd(p, 1) == 8
  {
    hide BeatAddress, BeatEnd, AlignDown, BeatBytes, Total, ExclusiveShape;
    ExclusiveBeat(p, 0);
    ExclusiveBeat(p, 1);
  }

  lemma SplitSize()
    ensures var p := SplitPayload(); BeatBytes(p) == 4 && Total(p) == 8 && ExclusiveShape(p)
  {
    assert Pow2(2) == 4 by { assert Pow2(1) == 2; }
  }

  lemma SplitRoutes()
    ensures ConfigOk(PairConfig()) && RouteOk(PairConfig(), SplitRoute()) && Mapped(PairConfig(), SplitRoute())
  {
    hide BeatAddress, BeatEnd, BeatBytes, Total, Pow2, AlignDown, ExclusiveShape;
    var c, p := PairConfig(), SplitPayload();
    SplitSize();
    SplitBeats(SplitPayload());
    assert SpaceOk(c.mappings);
    Within4KIsPageRule(4, p);
    assert Lo(p, 0) < Hi(p, 0);
    forall k: nat, a: int | k < 2 && Enabled(p, k, a) ensures c.mappings[0].Contains(a, 1) { assert k == 0 || k == 1; }
    assert Routed(c, p, 0);
    WideEnough(c, p);
    RoutesTo(c, p, 0);
  }

  function SplitFirst(b: byte): WriteBeat { Fill(4, b).(last := false) }
  ghost function SplitStaged(b: byte): Staged { Staged(Word(4, b), Word(4, 255)) }

  function SplitUntilStage(b: byte): seq<Stimulus> {
    [] + [Solo(PairConfig(), Some(SplitPayload()), Some(SplitFirst(b)), None)]
  }

  /** Both beats of a two-beat store; the second arrives, the first is committed. */
  function SplitRun(b: byte): seq<Stimulus> {
    SplitUntilStage(b) + [Solo(PairConfig(), None, Some(Fill(4, b)), None)]
  }

  function ResetStimulus(): Stimulus { Solo(PairConfig(), None, None, None).(reset := true) }

  lemma SplitLegal(b: byte)
    ensures var c, r := PairConfig(), SplitRoute();
            RamTakes(c, r, 0) && LegalBeat(c, r, 0, SplitFirst(b)) && LegalBeat(c, r, 1, Fill(4, b))
  {
    hide StrobesLegal, BeatAddress, BeatEnd, Lo, Hi, InitRoute;
    SplitRoutes();
    SplitSize();
    SplitBeats(SplitPayload());
    FillLegal(PairConfig(), SplitPayload(), 0, b);
    FillLegal(PairConfig(), SplitPayload(), 1, b);
  }

  lemma SplitAfterStage(mem: Mem, b: byte)
    requires MemOk(PairConfig(), mem)
    ensures RunsTo(PairConfig(), mem, SplitUntilStage(b))
    ensures var t := After(PairConfig(), mem, SplitUntilStage(b));
            && Ready(PairConfig(), t) && t.mem == mem && t.h.done == []
            && t.writeRoutes == [WriteRoute(SplitRoute(), [SplitStaged(b)], Okay, None, 0, false)]
  {
    hide Cycle, Run, InitRoute, RoutesOk, FifosOk, MemOk, LegalBeat, Ready, Mapped, Solo;
    var c := PairConfig();
    SplitRoutes();
    SplitLegal(b);
    StartRun(c, mem);
    StageCycle(c, Init(c, mem), SplitRoute(), SplitFirst(b));
    Extend(c, mem, [], Solo(c, Some(SplitPayload()), Some(SplitFirst(b)), None));
  }

  lemma SplitAfterBegin(mem: Mem, b: byte)
    requires MemOk(PairConfig(), mem)
    ensures RunsTo(PairConfig(), mem, SplitRun(b)) && Mapped(PairConfig(), SplitRoute())
    ensures var t := After(PairConfig(), mem, SplitRun(b));
            && t.mem == StoreBeat(PairConfig(), mem, SplitRoute(), 0, SplitStaged(b)) && t.h.done == []
            && t.writeRoutes != [] && t.writeRoutes[0].dataComplete && t.writeRoutes[0].commitBeat == 1
            && !t.wasReset
  {
    hide Cycle, Run, InitRoute, RoutesOk, FifosOk, MemOk, StoreBeat, LegalBeat, RamTakes, Ready, Solo;
    var c := PairConfig();
    SplitAfterStage(mem, b);
    SplitRoutes();
    SplitLegal(b);
    var s := After(c, mem, SplitUntilStage(b));
    ReadyBase(c, s);
    BeginCycle(c, s, SplitRoute(), [SplitStaged(b)], Fill(4, b));
    Extend(c, mem, SplitUntilStage(b), Solo(c, None, Some(Fill(4, b)), None));
  }

  /**
    Why only a reset before WLAST is promised clean: in this run the reset comes one
    cycle after WLAST was accepted, and memory keeps the first word of the burst but
    not the second.
   */
  lemma ResetSplitsBurst(mem: Mem, b: byte)
    requires MemOk(PairConfig(), mem) && b != mem[0][0] && b != mem[0][4]
    ensures RunsTo(PairConfig(), mem, SplitRun(b))
    ensures var c, s := PairConfig(), After(PairConfig(), mem, SplitRun(b));
            && s.h.done == [] && s.writeRoutes != [] && s.writeRoutes[0].dataComplete
            && StimulusOk(c, ResetStimulus())
            && var t := Cycle(c, s, ResetStimulus()).s;
               t.writeRoutes == [] && t.mem[0][0] == b != mem[0][0] && t.mem[0][4] == mem[0][4] != b
  {
    hide Run, InitRoute, RoutesOk, FifosOk, Hi, Lo, StoreBeat, BeatAddress, BeatEnd;
    var c := PairConfig();
    SplitAfterBegin(mem, b);
    SplitRoutes();
    SplitSize();
    SplitBeats(SplitPayload());
    StoreBeatAt(c, mem, SplitRoute(), 0, SplitStaged(b), 0);
    StoreBeatAt(c, mem, SplitRoute(), 0, SplitStaged(b), 4);
    ResetClears(c, After(c, mem, SplitRun(b)));
  }

  lemma ResetClears(c: Config, s: Fabric)
    requires Base(c, s) && c.ports == 1 && !s.wasReset
    ensures StimulusOk(c, ResetStimulus())
    ensures var t := Cycle(c, s, ResetStimulus()).s; t.writeRoutes == [] && t.mem == s.mem
  {
    hide RoutesOk, FifosOk, MemOk, ConfigOk;
    DriveBase(c, s, true, ResetStimulus().stalls);
  }

  // ---- unmapped accesses that are not answered DECERR ----------------------------------------------------

  /** The word at 4096, between the two windows. */
  function GapPayload(lock: bool): AddressPayload { AddressPayload(0, 4096, 0, 2, Increment, lock, 0, 0) }

  ghost function GapRoute(lock: bool): Route {
    Route(0, GapPayload(lock), None, if lock then SlaveError else DecodeError)
  }

  lemma GapRoutes(lock: bool)
    ensures ConfigOk(PairConfig()) && RouteOk(PairConfig(), GapRoute(lock))
  {
    hide BeatAddress, BeatEnd, AlignDown;
    var c, p := PairConfig(), GapPayload(lock);
    assert Pow2(2) == 4 by { assert Pow2(1) == 2; }
    ExclusiveBeat(p, 0);
    assert SpaceOk(c.mappings);
    Within4KIsPageRule(4, p);
    WideEnough(c, p);
    forall m: nat ensures !Routed(c, p, m) { assert Enabled(p, 0, 4096); }
  }

  function GapRun(lock: bool): seq<Stimulus> { [] + [Solo(PairConfig(), None, None, Some(GapPayload(lock)))] }

  /** The exception for exclusive accesses is real: of two reads of the same unmapped
      word, the plain one is answered DECERR and the exclusive one SLVERR. */
  lemma UnmappedExclusive(mem: Mem, lock: bool)
    requires MemOk(PairConfig(), mem)
    ensures RunsTo(PairConfig(), mem, GapRun(lock))
    ensures var c, h := PairConfig(), After(PairConfig(), mem, GapRun(lock)).h;
            && |h.served| == 1 && h.served[0].route.payload == GapPayload(lock)
            && Unmapped(c, GapPayload(lock)) && !Escapes(c, GapPayload(lock))
            && h.served[0].out.response == if lock then SlaveError else DecodeError
  {
    hide Cycle, Run, InitRoute, RoutesOk, FifosOk, Ready, Solo, MemOk, Unmapped, Escapes, Unsupported, AsksPeripheral;
    var c, r := PairConfig(), GapRoute(lock);
    GapRoutes(lock);
    StartRun(c, mem);
    ReadCycle(c, Init(c, mem), r);
    Extend(c, mem, [], Solo(c, None, None, Some(r.payload)));
    ForcedExactly(c, r);
    ReadDecodeErrors(c, mem, GapRun(lock), 0);
  }

  function TopPlainStart(): seq<Stimulus> { [] + [Solo(TopConfig(), None, None, Some(TopPayload(false)))] }
  function TopPlainRun(): seq<Stimulus> { TopPlainStart() + [Solo(TopConfig(), None, None, None)] }

  lemma TopEscapes(lock: bool)
    ensures ConfigOk(TopConfig()) && Unmapped(TopConfig(), TopPayload(lock)) && Escapes(TopConfig(), TopPayload(lock))
  {
    hide BeatAddress, BeatEnd, CoversBelowTop, Covers, Routed, InitRoute;
    var c, p := TopConfig(), TopPayload(lock);
    TopRoutes(lock);
    TopBeats(lock);
    assert AtTop(p, 1);
    forall m: nat ensures !Covers(c, p, m) { CoversExactly(c, p, m); }
    RouteFacts(c, TopRoute(lock));
    RoutedIsBelowTop(c, p, 0);
  }

  lemma TopPlainServed(mem: Mem)
    requires MemOk(TopConfig(), mem)
    ensures RunsTo(TopConfig(), mem, TopPlainRun())
    ensures var served := After(TopConfig(), mem, TopPlainRun()).h.served;
            && |served| == 2 && served[0].route == served[1].route == TopRoute(false)
            && served[0].beat == 0 && served[1].beat == 1
  {
    hide Cycle, Ready, Run, InitRoute, RoutesOk, FifosOk, Solo, MemOk;
    var c, r := TopConfig(), TopRoute(false);
    TopRoutes(false);
    StartRun(c, mem);
    ReadCycle(c, Init(c, mem), r);
    Extend(c, mem, [], Solo(c, None, None, Some(r.payload)));
    var s := After(c, mem, TopPlainStart());
    ReadyBase(c, s);
    NextBeatCycle(c, s, r, 1);
    Extend(c, mem, TopPlainStart(), Solo(c, None, None, None));
  }

  /** The exception at 2^64 is real: a plain read whose second beat is in no window
      is answered OKAY on both beats. */
  lemma UnmappedAtTop(mem: Mem)
    requires MemOk(TopConfig(), mem)
    ensures RunsTo(TopConfig(), mem, TopPlainRun())
    ensures var c, h := TopConfig(), After(TopConfig(), mem, TopPlainRun()).h;
            && |h.served| == 2 && h.served[0].route.payload == h.served[1].route.payload == TopPayload(false)
            && Unmapped(c, TopPayload(false)) && Escapes(c, TopPayload(false))
            && h.served[0].out.response == h.served[1].out.response == Okay
  {
    hide Cycle, Run, InitRoute, RoutesOk, FifosOk, Ready, Solo, MemOk, Unmapped, Escapes, CarriesMemory, Replay,
         ReplayUpTo;
    var c := TopConfig();
    TopEscapes(false);
    TopPlainServed(mem);
    TopRoutes(false);
    TopBeats(false);
    BurstAtomicity(c, mem, TopPlainRun());
    var s := After(c, mem, TopPlainRun());
    assert forall i | 0 <= i < 2 :: SeesMemory(c, ReplayUpTo(c, s, s.h.served[i].after), s.h.served[i]);
  }
}
