/**
  Cycles in which port 0 alone makes requests, nothing is stalled and every
  response is taken, for any number of ports and any depths: whole runs are put
  together from them.
 */
module FabricSolo {
  import opened Axi
  import opened Fabric
  import opened FabricRun
  import opened FabricOrder
  import opened FabricErrors
  import opened FabricPhases
  import opened FabricFair
  import opened FabricStable
  import opened FabricDrain
  import opened FabricDrainFree

  function Solo(c: Config, aw: Option<AddressPayload>, w: Option<WriteBeat>, ar: Option<AddressPayload>): Stimulus {
    Stimulus(false, seq(c.ports, _ => Stall(false, false, false)),
             seq(c.ports, q => if q == 0 then Master(aw, w, true, ar, true) else Master(None, None, true, None, true)),
             Reply(Okay, [], 0))
  }

  function Queue<T>(x: Option<T>): seq<T> { if x.Some? then [x.value] else [] }

  /** These requests wait at a port that has room for responses. */
  ghost predicate Holds(c: Config, p: Port, aw: Option<AddressPayload>, w: Option<WriteBeat>,
                        ar: Option<AddressPayload>) {
    && p.aw == Queue(aw) && p.w == Queue(w) && p.ar == Queue(ar) && Unwatched(p)
    && |p.b| < c.responseDepth && |p.r| < c.responseDepth
  }

  ghost predicate Clear(p: Port) { p.aw == [] && p.w == [] && p.ar == [] && Unwatched(p) }

  /** Nothing waits at any port. */
  ghost predicate Ready(c: Config, s: Fabric) {
    Base(c, s) && Order(c, s) && forall q | 0 <= q < |s.ports| :: Clear(s.ports[q])
  }

  /** The requests of one cycle wait at port 0. */
  ghost predicate Waits(c: Config, s: Fabric, aw: Option<AddressPayload>, w: Option<WriteBeat>,
                        ar: Option<AddressPayload>) {
    && Base(c, s)
    && forall q | 0 <= q < |s.ports| ::
         if q == 0 then Holds(c, s.ports[0], aw, w, ar) else Holds(c, s.ports[q], None, None, None)
  }

  /** Only ports, their logs, outputs, the reset and exit flags differ. */
  ghost predicate Fed(s: Fabric, t: Fabric) {
    t == s.(ports := t.ports, outputs := t.outputs, wasReset := false, exit := t.exit,
            h := s.h.(logs := t.h.logs, retired := t.h.retired))
  }

  // ---- the first three phases -----------------------------------------------------------------------

  lemma IngressSucceeds(c: Config, s: Fabric, x: Stimulus)
    requires Ready(c, s) && StimulusOk(c, x) && !x.reset
    ensures AfterIngress(c, s, x).Done?
  {
    hide Ingress, Arbitrate, Process, Order, RoutesOk, FifosOk, OfferedFrom, RoomFrom;
    DriveBase(c, s, false, x.stalls);
    var d := Drive(c, s, false, x.stalls);
    DriveOffers(c, s, false, x.stalls);
    SameTrafficKeepsOrder(c, s, d);
    AwakeOrder(c, d);
    IngressOrder(c, Awake(c, d), x.inputs);
    UnstableExact(c, s, x);
    forall q | 0 <= q < c.ports ensures !PortBroken(s.ports[q], x.inputs[q]) { assert Clear(s.ports[q]); }
  }

  /** What port q holds after them. */
  lemma IngressHolds(c: Config, s: Fabric, x: Stimulus, q: nat)
    requires Ready(c, s) && StimulusOk(c, x) && !x.reset && q < c.ports && AfterIngress(c, s, x).Done?
    requires x.stalls[q] == Stall(false, false, false) && x.inputs[q].bReady && x.inputs[q].rReady
    ensures q < |AfterIngress(c, s, x).s.ports|
    ensures Holds(c, AfterIngress(c, s, x).s.ports[q], x.inputs[q].aw, x.inputs[q].w, x.inputs[q].ar)
  {
    hide RoutesOk, MemOk, Order, CheckStability;
    DriveBase(c, s, false, x.stalls);
    var d := Awake(c, Drive(c, s, false, x.stalls));
    assert Clear(s.ports[q]);
    assert d.outputs[q] == DrivePort(c, s.ports[q], x.stalls[q]);
    IngressAt(c, d, x.inputs, q);
    CheckBase(c, d, x.inputs, 0);
    CheckResult(c, d, x.inputs, 0);
  }

  lemma IngressSolo(c: Config, s: Fabric, aw: Option<AddressPayload>, w: Option<WriteBeat>, ar: Option<AddressPayload>)
    requires Ready(c, s) && (w.Some? ==> BeatSized(c, w.value))
    ensures var x := Solo(c, aw, w, ar);
            && StimulusOk(c, x) && AfterIngress(c, s, x).Done?
            && Waits(c, AfterIngress(c, s, x).s, aw, w, ar) && Fed(s, AfterIngress(c, s, x).s)
  {
    hide Ingress, RoutesOk, FifosOk, MemOk, Order, Holds, Clear, Ready, ConfigOk;
    assert Base(c, s) by { ReadyBase(c, s); }
    var x := Solo(c, aw, w, ar);
    IngressSucceeds(c, s, x);
    DriveBase(c, s, false, x.stalls);
    IngressPortsOnly(c, Awake(c, Drive(c, s, false, x.stalls)), x.inputs);
    forall q | 0 <= q < c.ports
      ensures Holds(c, AfterIngress(c, s, x).s.ports[q], x.inputs[q].aw, x.inputs[q].w, x.inputs[q].ar)
    {
      IngressHolds(c, s, x, q);
    }
  }

  lemma ReadyBase(c: Config, s: Fabric)
    requires Ready(c, s)
    ensures Base(c, s)
  {}

  // ---- arbitration --------------------------------------------------------------------------------------

  /** A port waiting alone is picked; if none waits, none is. */
  lemma PickAlone(s: Fabric, side: Side)
    requires |s.ports| > 0 && Next(s, side) < |s.ports|
    requires forall q | 1 <= q < |s.ports| :: Requests(s.ports[q], side) == []
    ensures Pick(Waiting(s, side), Next(s, side), 0) == if Requests(s.ports[0], side) == [] then None else Some(0)
  {
    hide Pick, Waiting, Next, Requests;
    var pick := Pick(Waiting(s, side), Next(s, side), 0);
    if pick.None? { NoPick(s, side); }
  }

  /** t is s after the write r left port 0 for the route queue. */
  ghost predicate TakesWrite(s: Fabric, t: Fabric, r: Route) {
    && |s.ports| > 0
    && t == s.(ports := s.ports[0 := s.ports[0].(aw := [])], nextAw := t.nextAw,
               writeRoutes := s.writeRoutes + [WriteRoute(r, [], Okay, None, 0, false)],
               h := s.h.(wgrants := s.h.wgrants + [r]))
  }

  ghost predicate TakesRead(s: Fabric, t: Fabric, r: Route) {
    && |s.ports| > 0
    && t == s.(ports := s.ports[0 := s.ports[0].(ar := [])], nextAr := t.nextAr,
               readRoutes := s.readRoutes + [ReadRoute(r, 0)], h := s.h.(rgrants := s.h.rgrants + [r]))
  }

  lemma GrantAlone(c: Config, s: Fabric, side: Side, r: Route)
    requires Base(c, s) && forall q | 1 <= q < |s.ports| :: Requests(s.ports[q], side) == []
    requires Requests(s.ports[0], side) != [] ==>
             && Requests(s.ports[0], side) == [r.payload] && InitRoute(c, 0, r.payload) == Routable(r)
             && |s.writeRoutes| < c.routeDepth && |s.readRoutes| < c.routeDepth
    ensures Requests(s.ports[0], side) == [] ==> (if side.Writes? then GrantWrite(c, s) else GrantRead(c, s)) == Done(s)
    ensures Requests(s.ports[0], side) != [] ==>
              if side.Writes? then GrantWrite(c, s).Done? && TakesWrite(s, GrantWrite(c, s).s, r)
              else GrantRead(c, s).Done? && TakesRead(s, GrantRead(c, s).s, r)
  {
    hide InitRoute, RoutesOk, MemOk, ConfigOk, Pick, FifosOk, AwWaiting, ArWaiting;
    assert c.ports > 0 by { SomePort(c); }
    PickAlone(s, side);
    assert [r.payload][1..] == [];
  }

  lemma SomePort(c: Config)
    requires ConfigOk(c)
    ensures c.ports > 0 && c.routeDepth > 0
  {}

  // ---- a cycle up to its last two phases -------------------------------------------------------------------

  /** The state in which `process_write_beat` starts. */
  ghost function Arbitrated(c: Config, s: Fabric, x: Stimulus): (o: Outcome)
    requires Base(c, s) && StimulusOk(c, x)
    ensures Base(c, o.s)
  {
    var o := AfterIngress(c, s, x);
    if o.Failed? then o else Arbitrate(c, o.s)
  }

  lemma SoloNothing(c: Config, s: Fabric, w: Option<WriteBeat>)
    requires Ready(c, s) && (w.Some? ==> BeatSized(c, w.value))
    ensures var x := Solo(c, None, w, None);
            && StimulusOk(c, x) && Arbitrated(c, s, x).Done? && Fed(s, Arbitrated(c, s, x).s)
            && Waits(c, Arbitrated(c, s, x).s, None, w, None)
  {
    hide RoutesOk, FifosOk, MemOk, Order, ConfigOk, GrantWrite, GrantRead, AfterIngress, InitRoute;
    var x := Solo(c, None, w, None);
    IngressSolo(c, s, None, w, None);
    var s1 := AfterIngress(c, s, x).s;
    var p: AddressPayload := AddressPayload(0, 0, 0, 0, Increment, false, 0, 0);
    GrantAlone(c, s1, Writes, Route(0, p, None, Okay));
    GrantAlone(c, s1, Reads, Route(0, p, None, Okay));
  }

  lemma SoloWrite(c: Config, s: Fabric, r: Route, w: WriteBeat)
    requires Ready(c, s) && BeatSized(c, w) && InitRoute(c, 0, r.payload) == Routable(r)
    requires |s.writeRoutes| < c.routeDepth && |s.readRoutes| < c.routeDepth
    ensures var x := Solo(c, Some(r.payload), Some(w), None);
            && StimulusOk(c, x) && Arbitrated(c, s, x).Done?
            && var t := Arbitrated(c, s, x).s;
               && Waits(c, t, None, Some(w), None)
               && t.writeRoutes == s.writeRoutes + [WriteRoute(r, [], Okay, None, 0, false)]
               && t.readRoutes == s.readRoutes && t.monitors == s.monitors && t.mem == s.mem
               && t.h == s.h.(logs := t.h.logs, retired := t.h.retired, wgrants := s.h.wgrants + [r])
  {
    hide RoutesOk, FifosOk, MemOk, Order, ConfigOk, GrantWrite, GrantRead, AfterIngress, InitRoute;
    var x := Solo(c, Some(r.payload), Some(w), None);
    IngressSolo(c, s, Some(r.payload), Some(w), None);
    var s1 := AfterIngress(c, s, x).s;
    GrantAlone(c, s1, Writes, r);
    var s2 := GrantWrite(c, s1).s;
    GrantWriteBase(c, s1);
    GrantAlone(c, s2, Reads, r);
  }

  lemma SoloRead(c: Config, s: Fabric, r: Route)
    requires Ready(c, s) && InitRoute(c, 0, r.payload) == Routable(r)
    requires |s.writeRoutes| < c.routeDepth && |s.readRoutes| < c.routeDepth
    ensures var x := Solo(c, None, None, Some(r.payload));
            && StimulusOk(c, x) && Arbitrated(c, s, x).Done?
            && var t := Arbitrated(c, s, x).s;
               && Waits(c, t, None, None, None) && t.readRoutes == s.readRoutes + [ReadRoute(r, 0)]
               && t.writeRoutes == s.writeRoutes && t.monitors == s.monitors && t.mem == s.mem
               && t.h == s.h.(logs := t.h.logs, retired := t.h.retired, rgrants := s.h.rgrants + [r])
  {
    hide RoutesOk, FifosOk, MemOk, Order, ConfigOk, GrantWrite, GrantRead, AfterIngress, InitRoute;
    var x := Solo(c, None, None, Some(r.payload));
    IngressSolo(c, s, None, None, Some(r.payload));
    var s1 := AfterIngress(c, s, x).s;
    GrantAlone(c, s1, Writes, r);
    GrantAlone(c, s1, Reads, r);
  }

  ghost predicate NoData(s: Fabric) { forall q | 0 <= q < |s.ports| :: s.ports[q].w == [] }

  /** The cycle as a whole, once its last phases have used up the W beat. */
  lemma SoloCycle(c: Config, s: Fabric, x: Stimulus, w: Option<WriteBeat>)
    requires Ready(c, s) && StimulusOk(c, x) && !x.reset && Arbitrated(c, s, x).Done?
    requires Waits(c, Arbitrated(c, s, x).s, None, w, None)
    requires Process(c, Arbitrated(c, s, x).s, x.reply).Done? && NoData(Process(c, Arbitrated(c, s, x).s, x.reply).s)
    ensures Cycle(c, s, x) == Done(Tick(c, Process(c, Arbitrated(c, s, x).s, x.reply).s))
    ensures Ready(c, Cycle(c, s, x).s)
  {
    hide RoutesOk, FifosOk, MemOk, Order, ConfigOk, Arbitrate, AfterIngress, Process, Cycle;
    CycleOf(c, s, x);
    CycleOrder(c, s, x);
    var s2 := Arbitrated(c, s, x).s;
    forall q | 0 <= q < c.ports ensures Clear(Process(c, s2, x.reply).s.ports[q]) {
      ProcessAt(c, s2, x.reply, q);
    }
  }

  // ---- reads -------------------------------------------------------------------------------------------------

  lemma InitReady(c: Config, mem: Mem)
    requires ConfigOk(c) && MemOk(c, mem)
    ensures Base(c, Init(c, mem)) && Ready(c, Init(c, mem)) && c.routeDepth > 0
  {
    InitBase(c, mem);
    FreshOrder(c, Init(c, mem));
  }

  /** The routes waiting behind a read that is served its beat k. */
  ghost function Rest(r: Route, k: nat): seq<ReadRoute> {
    if k + 1 == Beats(r.payload) then [] else [ReadRoute(r, k + 1)]
  }

  /** Beat k of read r is served, and nothing else happens. */
  ghost predicate ServesBeat(c: Config, s: Fabric, t: Fabric, r: Route, k: nat) {
    && t.writeRoutes == s.writeRoutes && t.readRoutes == Rest(r, k) && t.mem == s.mem
    && t.h.done == s.h.done && t.h.wgrants == s.h.wgrants
    && |t.h.served| == |s.h.served| + 1 && t.h.served[..|s.h.served|] == s.h.served
    && var x := t.h.served[|s.h.served|]; x.route == r && x.beat == k
  }

  lemma ServeQuietly(c: Config, s: Fabric, r: Route, k: nat, reply: Reply)
    requires Waits(c, s, None, None, None) && s.readRoutes == [ReadRoute(r, k)] && r.port == 0
    ensures var t := ServeRead(c, s, reply);
            ServesBeat(c, s, t, r, k) && NoData(t) && t.h.events == s.h.events && t.monitors == s.monitors
  {
    hide RoutesOk, FifosOk, MemOk, ConfigOk, ServedBeat, ReadAccess;
    FrontReadOk(c, s);
    assert s.readRoutes[1..] == [];
    assert s.readRoutes[0 := ReadRoute(r, k + 1)] == [ReadRoute(r, k + 1)];
  }

  lemma NoWriteStep(c: Config, s: Fabric, reply: Reply)
    requires Base(c, s) && s.writeRoutes == []
    ensures Process(c, s, reply) == ReadStep(c, Unsuppress(c, s), reply)
  {
    hide RoutesOk, FifosOk, MemOk, ConfigOk, ReadStep;
    WriteStepBase(c, Unsuppress(c, s), reply);
  }

  lemma ProcessServe(c: Config, s: Fabric, r: Route, k: nat, reply: Reply)
    requires Waits(c, s, None, None, None) && s.readRoutes == [ReadRoute(r, k)] && r.port == 0 && s.writeRoutes == []
    requires !(r.payload.lock && k == 0 && r.forced.Okay?)
    ensures var o := Process(c, s, reply);
            o.Done? && ServesBeat(c, s, o.s, r, k) && NoData(o.s) && o.s.h.events == s.h.events
  {
    hide RoutesOk, FifosOk, MemOk, ConfigOk, ServeRead, Process;
    var s0 := Unsuppress(c, s);
    NoWriteStep(c, s, reply);
    FrontReadOk(c, s0);
    assert c.ports > 0 by { SomePort(c); }
    ServeQuietly(c, s0, r, k, reply);
  }

  lemma ProcessReserve(c: Config, s: Fabric, r: Route, reply: Reply)
    requires Waits(c, s, None, None, None) && s.readRoutes == [ReadRoute(r, 0)] && r.port == 0 && s.writeRoutes == []
    requires r.payload.lock && r.forced.Okay? && s.monitors == seq(c.routeDepth, _ => Free)
    ensures var o := Process(c, s, reply);
            && o.Done? && ServesBeat(c, s, o.s, r, 0) && NoData(o.s)
            && o.s.h.events == s.h.events + [Reserve(0, r.payload, s.mem, |s.h.served|)]
  {
    hide RoutesOk, FifosOk, MemOk, ConfigOk, ServeRead, Process;
    var s0 := Unsuppress(c, s);
    NoWriteStep(c, s, reply);
    FrontReadOk(c, s0);
    assert c.ports > 0 && c.routeDepth > 0 by { SomePort(c); }
    assert FindMonitor(s0.monitors, r.port, r.payload.id, 0).None?;
    assert s0.monitors[0].Free?;
    var o := Establish(c, s0, r);
    EstablishBase(c, s0, r);
    ServeQuietly(c, o.s, r, 0, reply);
  }

  /** A read that reserves nothing is granted and served its first beat. */
  lemma ReadCycle(c: Config, s: Fabric, r: Route)
    requires Ready(c, s) && s.writeRoutes == [] && s.readRoutes == [] && RouteOk(c, r) && r.port == 0
    requires !(r.payload.lock && r.forced.Okay?)
    ensures var x := Solo(c, None, None, Some(r.payload));
            && StimulusOk(c, x) && Cycle(c, s, x).Done?
            && var t := Cycle(c, s, x).s; Ready(c, t) && ServesBeat(c, s, t, r, 0) && t.h.events == s.h.events
  {
    hide RoutesOk, FifosOk, MemOk, InitRoute, Process, Arbitrated, Cycle, Ready, Order;
    var x := Solo(c, None, None, Some(r.payload));
    ReadyBase(c, s);
    SoloRead(c, s, r);
    ProcessServe(c, Arbitrated(c, s, x).s, r, 0, x.reply);
    SoloCycle(c, s, x, None);
  }

  /** Its next beat follows by itself. */
  lemma NextBeatCycle(c: Config, s: Fabric, r: Route, k: nat)
    requires Ready(c, s) && s.writeRoutes == [] && s.readRoutes == [ReadRoute(r, k)] && r.port == 0 && k > 0
    ensures var x := Solo(c, None, None, None);
            && StimulusOk(c, x) && Cycle(c, s, x).Done?
            && var t := Cycle(c, s, x).s; Ready(c, t) && ServesBeat(c, s, t, r, k) && t.h.events == s.h.events
  {
    hide RoutesOk, FifosOk, MemOk, InitRoute, Process, Arbitrated, Cycle, Ready, Order;
    var x := Solo(c, None, None, None);
    ReadyBase(c, s);
    SoloNothing(c, s, None);
    ProcessServe(c, Arbitrated(c, s, x).s, r, k, x.reply);
    SoloCycle(c, s, x, None);
  }

  /** An exclusive read starts the run: its reservation is the first event. */
  lemma ReserveCycle(c: Config, mem: Mem, r: Route)
    requires MemOk(c, mem) && RouteOk(c, r) && r.port == 0 && r.payload.lock && r.forced.Okay?
    ensures Base(c, Init(c, mem))
    ensures var s, x := Init(c, mem), Solo(c, None, None, Some(r.payload));
            && StimulusOk(c, x) && Cycle(c, s, x).Done?
            && var t := Cycle(c, s, x).s;
               Ready(c, t) && ServesBeat(c, s, t, r, 0) && t.h.events == [Reserve(0, r.payload, mem, 0)]
  {
    hide RoutesOk, FifosOk, MemOk, InitRoute, Process, Arbitrated, Cycle, Ready, Order, ConfigOk;
    InitReady(c, mem);
    var s, x := Init(c, mem), Solo(c, None, None, Some(r.payload));
    SoloRead(c, s, r);
    ProcessReserve(c, Arbitrated(c, s, x).s, r, x.reply);
    SoloCycle(c, s, x, None);
  }

  // ---- writes ------------------------------------------------------------------------------------------------

  /** The oldest W beat of port 0 joins the front write. */
  lemma StagedNext(c: Config, s: Fabric, r: Route, staged: seq<Staged>, w: WriteBeat)
    requires Waits(c, s, None, Some(w), None) && s.writeRoutes == [WriteRoute(r, staged, Okay, None, 0, false)]
    requires r.port == 0
    ensures c.ports > 0 && s.ports[0].w == [w]
    ensures var t, all := StageBeat(c, s), staged + [Staged(w.data, w.strobe)];
            && t.writeRoutes == [WriteRoute(r, all, Okay, None, 0, |all| == Beats(r.payload))]
            && t == s.(ports := t.ports, writeRoutes := t.writeRoutes) && Waits(c, t, None, None, None)
  {
    hide RoutesOk, FifosOk, MemOk, ConfigOk;
    assert c.ports > 0 by { SomePort(c); }
    FrontWriteOk(c, s);
    StageBase(c, s);
    assert [w][1..] == [];
  }

  /** A W beat is legal and final, or legal and not final. */
  ghost predicate LegalBeat(c: Config, r: Route, n: nat, w: WriteBeat) {
    && BusWidth(c.width) && BeatSized(c, w) && (w.last <==> n + 1 == Beats(r.payload))
    && StrobesLegal(c, r.payload, n, w.strobe)
  }

  lemma WriteStepStages(c: Config, s: Fabric, r: Route, staged: seq<Staged>, w: WriteBeat, reply: Reply)
    requires Waits(c, s, None, Some(w), None) && s.writeRoutes == [WriteRoute(r, staged, Okay, None, 0, false)]
    requires r.port == 0 && LegalBeat(c, r, |staged|, w)
    ensures Base(c, StageBeat(c, s))
    ensures WriteStep(c, s, reply) ==
            Done(if |staged| + 1 == Beats(r.payload) then WriteCommit(c, StageBeat(c, s), reply) else StageBeat(c, s))
  {
    hide RoutesOk, FifosOk, MemOk, ConfigOk, WriteCommit, StageBeat, StrobesLegal;
    FrontWriteOk(c, s);
    StagedNext(c, s, r, staged, w);
  }

  /** The beat of the front write that is not its last only waits. */
  lemma ProcessStage(c: Config, s: Fabric, r: Route, staged: seq<Staged>, w: WriteBeat, reply: Reply)
    requires Waits(c, s, None, Some(w), None) && s.writeRoutes == [WriteRoute(r, staged, Okay, None, 0, false)]
    requires r.port == 0 && LegalBeat(c, r, |staged|, w) && !w.last && s.readRoutes == []
    ensures var o := Process(c, s, reply);
            && o.Done? && NoData(o.s) && o.s.mem == s.mem && o.s.h == s.h && o.s.readRoutes == []
            && o.s.writeRoutes == [WriteRoute(r, staged + [Staged(w.data, w.strobe)], Okay, None, 0, false)]
  {
    hide RoutesOk, FifosOk, MemOk, ConfigOk, StageBeat, StrobesLegal, WriteStep;
    var s0 := Unsuppress(c, s);
    WriteStepBase(c, s0, reply);
    WriteStepStages(c, s0, r, staged, w, reply);
    StagedNext(c, s0, r, staged, w);
  }

  /** RAM takes beat k of the plain write r. */
  ghost predicate RamTakes(c: Config, r: Route, k: nat) {
    && RouteOk(c, r) && Mapped(c, r) && r.port == 0 && r.forced.Okay? && !r.payload.lock
    && DeviceOf(c, r).Ram? && Fits(c, r, Hi(r.payload, k)) && !EmptyBeat(r.payload, k)
  }

  /** The first beat of a complete plain write is stored; a single one is answered too. */
  lemma CommitFirst(c: Config, s: Fabric, r: Route, staged: seq<Staged>, reply: Reply)
    requires Waits(c, s, None, None, None) && s.writeRoutes == [WriteRoute(r, staged, Okay, None, 0, true)]
    requires RamTakes(c, r, 0) && |staged| == Beats(r.payload) && StagedOk(c, staged[0])
    ensures var t := WriteCommit(c, s, reply);
            && t.mem == StoreBeat(c, s.mem, r, 0, staged[0]) && t.suppressRead && NoData(t)
            && t.readRoutes == s.readRoutes && t.h.served == s.h.served && t.wasReset == s.wasReset
            && t.h.events == s.h.events + [BusWrite(Touched(c, r.payload, 0, staged[0]))]
            && (if Beats(r.payload) == 1 then t.writeRoutes == [] && |t.h.done| == |s.h.done| + 1
                else t.h.done == s.h.done && t.writeRoutes == [WriteRoute(r, staged, Okay, None, 1, true)])
  {
    hide RoutesOk, FifosOk, MemOk, ConfigOk, StoreBeat, Touched, Lanes, Invalidate, Hi, Lo;
    FrontWriteOk(c, s);
    assert c.ports > 0 by { SomePort(c); }
    assert BeatAnswer(c, r, 0, reply) == Okay;
    assert s.writeRoutes[1..] == [];
  }

  lemma ProcessStore(c: Config, s: Fabric, r: Route, staged: seq<Staged>, w: WriteBeat, reply: Reply)
    requires Waits(c, s, None, Some(w), None) && s.writeRoutes == [WriteRoute(r, staged, Okay, None, 0, false)]
    requires RamTakes(c, r, 0) && LegalBeat(c, r, |staged|, w) && w.last
    requires forall k | 0 <= k < |staged| :: StagedOk(c, staged[k])
    ensures var o, all := Process(c, s, reply), staged + [Staged(w.data, w.strobe)];
            && o.Done? && NoData(o.s) && o.s.mem == StoreBeat(c, s.mem, r, 0, all[0])
            && o.s.readRoutes == s.readRoutes && o.s.h.served == s.h.served && o.s.wasReset == s.wasReset
            && o.s.h.events == s.h.events + [BusWrite(Touched(c, r.payload, 0, all[0]))]
            && (if Beats(r.payload) == 1 then o.s.writeRoutes == [] && |o.s.h.done| == |s.h.done| + 1
                else o.s.h.done == s.h.done && o.s.writeRoutes == [WriteRoute(r, all, Okay, None, 1, true)])
  {
    hide RoutesOk, FifosOk, MemOk, ConfigOk, StageBeat, StrobesLegal, WriteStep, WriteCommit, StoreBeat, Touched,
         RamTakes, Hi, Lo;
    assert r.port == 0 && Mapped(c, r) by { RamFacts(c, r, 0); }
    var s0 := Unsuppress(c, s);
    WriteStepBase(c, s0, reply);
    WriteStepStages(c, s0, r, staged, w, reply);
    StagedNext(c, s0, r, staged, w);
    CommitFirst(c, StageBeat(c, s0), r, staged + [Staged(w.data, w.strobe)], reply);
  }

  lemma RamFacts(c: Config, r: Route, k: nat)
    requires RamTakes(c, r, k)
    ensures RouteOk(c, r) && Mapped(c, r) && r.port == 0 && InitRoute(c, 0, r.payload) == Routable(r)
  {}

  /** A single plain beat is accepted, granted, checked, stored and answered. */
  lemma StoreCycle(c: Config, s: Fabric, r: Route, w: WriteBeat)
    requires Ready(c, s) && s.writeRoutes == [] && s.readRoutes == [] && Beats(r.payload) == 1
    requires RamTakes(c, r, 0) && LegalBeat(c, r, 0, w)
    ensures Mapped(c, r)
    ensures var x, st := Solo(c, Some(r.payload), Some(w), None), Staged(w.data, w.strobe);
            && StimulusOk(c, x) && Cycle(c, s, x).Done?
            && var t := Cycle(c, s, x).s;
               && Ready(c, t) && t.writeRoutes == [] && t.readRoutes == [] && |t.h.done| == |s.h.done| + 1
               && t.mem == StoreBeat(c, s.mem, r, 0, st)
               && t.h.events == s.h.events + [BusWrite(Touched(c, r.payload, 0, st))]
  {
    hide RoutesOk, FifosOk, MemOk, InitRoute, Process, Arbitrated, Cycle, Ready, Order, StoreBeat, Touched, RamTakes,
         StrobesLegal;
    RamFacts(c, r, 0);
    ReadyBase(c, s);
    SomePort(c);
    var x := Solo(c, Some(r.payload), Some(w), None);
    SoloWrite(c, s, r, w);
    ProcessStore(c, Arbitrated(c, s, x).s, r, [], w, x.reply);
    SoloCycle(c, s, x, Some(w));
  }

  /** The first of several beats of a write is accepted. */
  lemma StageCycle(c: Config, s: Fabric, r: Route, w: WriteBeat)
    requires Ready(c, s) && s.writeRoutes == [] && s.readRoutes == [] && RouteOk(c, r) && r.port == 0
    requires LegalBeat(c, r, 0, w) && !w.last
    ensures var x := Solo(c, Some(r.payload), Some(w), None);
            && StimulusOk(c, x) && Cycle(c, s, x).Done?
            && var t := Cycle(c, s, x).s;
               && Ready(c, t) && t.mem == s.mem && t.h.events == s.h.events && t.h.done == s.h.done
               && t.readRoutes == []
               && t.writeRoutes == [WriteRoute(r, [Staged(w.data, w.strobe)], Okay, None, 0, false)]
  {
    hide RoutesOk, FifosOk, MemOk, InitRoute, Process, Arbitrated, Cycle, Ready, Order, StrobesLegal;
    ReadyBase(c, s);
    SomePort(c);
    var x := Solo(c, Some(r.payload), Some(w), None);
    SoloWrite(c, s, r, w);
    ProcessStage(c, Arbitrated(c, s, x).s, r, [], w, x.reply);
    SoloCycle(c, s, x, Some(w));
    assert [] + [Staged(w.data, w.strobe)] == [Staged(w.data, w.strobe)];
  }

  /** The last beat of a plain burst arrives and its first beat is stored. */
  lemma BeginCycle(c: Config, s: Fabric, r: Route, staged: seq<Staged>, w: WriteBeat)
    requires Ready(c, s) && s.writeRoutes == [WriteRoute(r, staged, Okay, None, 0, false)] && Beats(r.payload) > 1
    requires RamTakes(c, r, 0) && LegalBeat(c, r, |staged|, w) && w.last
    requires forall k | 0 <= k < |staged| :: StagedOk(c, staged[k])
    ensures Mapped(c, r) && |staged| > 0
    ensures var x := Solo(c, None, Some(w), None);
            && StimulusOk(c, x) && Cycle(c, s, x).Done?
            && var t := Cycle(c, s, x).s;
               && t.mem == StoreBeat(c, s.mem, r, 0, staged[0]) && t.h.done == s.h.done && !t.wasReset
               && t.writeRoutes == [WriteRoute(r, staged + [Staged(w.data, w.strobe)], Okay, None, 1, true)]
  {
    hide RoutesOk, FifosOk, MemOk, InitRoute, Process, Arbitrated, Cycle, Ready, Order, StoreBeat, Touched, RamTakes,
         StrobesLegal;
    RamFacts(c, r, 0);
    ReadyBase(c, s);
    var x := Solo(c, None, Some(w), None);
    SoloNothing(c, s, Some(w));
    ProcessStore(c, Arbitrated(c, s, x).s, r, staged, w, x.reply);
    SoloCycle(c, s, x, Some(w));
    assert (staged + [Staged(w.data, w.strobe)])[0] == staged[0];
  }

  // ---- exclusive writes -----------------------------------------------------------------------------------------

  /** t begins where s left off by deciding the exclusive write r, which is then done. */
  ghost predicate Decides(s: Fabric, t: Fabric, r: Route) {
    && |s.h.events| < |t.h.events| && s.h.events == t.h.events[..|s.h.events|] && |t.h.done| == |s.h.done| + 1
    && var e := t.h.events[|s.h.events|];
       e.ExclusiveWrite? && e.route == r && e.mem == s.mem && e.index == |s.h.done|
  }

  lemma ProcessFinish(c: Config, s: Fabric, r: Route, staged: seq<Staged>, w: WriteBeat, reply: Reply)
    requires Waits(c, s, None, Some(w), None) && s.writeRoutes == [WriteRoute(r, staged, Okay, None, 0, false)]
    requires r.port == 0 && r.payload.lock && LegalBeat(c, r, |staged|, w) && w.last
    ensures Process(c, s, reply).Done? && Decides(s, Process(c, s, reply).s, r) && NoData(Process(c, s, reply).s)
  {
    hide RoutesOk, FifosOk, MemOk, ConfigOk, StageBeat, StrobesLegal, WriteStep, StoreAt, GatherData, GatherStrobe,
         GatherTouched, Invalidate, ClearMonitor, ExclusiveAnswer;
    var s0 := Unsuppress(c, s);
    WriteStepBase(c, s0, reply);
    WriteStepStages(c, s0, r, staged, w, reply);
    StagedNext(c, s0, r, staged, w);
    var s1 := StageBeat(c, s0);
    FrontWriteOk(c, s1);
    assert WriteCommit(c, s1, reply) == FinishExclusive(c, s1, reply);
  }

  /** An exclusive write of one beat. */
  lemma LockCycle(c: Config, s: Fabric, r: Route, w: WriteBeat)
    requires Ready(c, s) && s.writeRoutes == [] && s.readRoutes == [] && RouteOk(c, r) && r.port == 0
    requires r.payload.lock && LegalBeat(c, r, 0, w) && w.last
    ensures var x := Solo(c, Some(r.payload), Some(w), None);
            StimulusOk(c, x) && Cycle(c, s, x).Done? && Ready(c, Cycle(c, s, x).s) && Decides(s, Cycle(c, s, x).s, r)
  {
    hide RoutesOk, FifosOk, MemOk, InitRoute, Process, Arbitrated, Cycle, Ready, Order, StrobesLegal;
    ReadyBase(c, s);
    SomePort(c);
    var x := Solo(c, Some(r.payload), Some(w), None);
    SoloWrite(c, s, r, w);
    ProcessFinish(c, Arbitrated(c, s, x).s, r, [], w, x.reply);
    SoloCycle(c, s, x, Some(w));
  }

  /** The last beat of a longer one. */
  lemma FinishCycle(c: Config, s: Fabric, r: Route, staged: seq<Staged>, w: WriteBeat)
    requires Ready(c, s) && s.writeRoutes == [WriteRoute(r, staged, Okay, None, 0, false)] && r.port == 0
    requires r.payload.lock && LegalBeat(c, r, |staged|, w) && w.last
    ensures var x := Solo(c, None, Some(w), None);
            StimulusOk(c, x) && Cycle(c, s, x).Done? && Ready(c, Cycle(c, s, x).s) && Decides(s, Cycle(c, s, x).s, r)
  {
    hide RoutesOk, FifosOk, MemOk, InitRoute, Process, Arbitrated, Cycle, Ready, Order, StrobesLegal;
    ReadyBase(c, s);
    var x := Solo(c, None, Some(w), None);
    SoloNothing(c, s, Some(w));
    ProcessFinish(c, Arbitrated(c, s, x).s, r, staged, w, x.reply);
    SoloCycle(c, s, x, Some(w));
  }
}
