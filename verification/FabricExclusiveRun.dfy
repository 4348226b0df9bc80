/** Exclusive soundness and completeness over every run. */
module FabricExclusiveRun {
  import opened Arith
  import opened AddressMap
  import opened Axi
  import opened Fabric
  import opened FabricRun
  import opened FabricOrder
  import opened FabricErrors
  import opened FabricWindow
  import opened FabricExclusive

  /** Table, history and memory agree. */
  ghost predicate Trail(c: Config, ms: seq<Monitor>, es: seq<Event>, mem: Mem) {
    && TableOk(ms, es) && Decided(c, es) && MemOk(c, mem)
    && Kept(c, es, mem) && Vouched(c, es) && Narrow(c, es)
  }

  ghost predicate LockState(c: Config, s: Fabric) {
    && Trail(c, s.monitors, s.h.events, s.mem)
    && |s.h.done| <= |s.h.wgrants| && Reported(s.h.events, s.h.wgrants, s.h.done)
  }

  // ---- one event at a time -----------------------------------------------------------------

  lemma TrailStore(c: Config, ms: seq<Monitor>, es: seq<Event>, m1: Mem, m2: Mem, touched: set<int>)
    requires Trail(c, ms, es, m1) && MemOk(c, m2)
    requires OnlyStored(c, m1, m2, touched) && forall a | a in touched :: a <= AddressLimit(c)
    ensures Trail(c, Invalidate(ms, touched), es + [BusWrite(touched)], m2)
  {
    TableAfterStore(ms, es, touched);
    DecidedPush(c, es, BusWrite(touched));
    KeptPush(c, es, BusWrite(touched), m1, m2);
    VouchedPush(c, es, BusWrite(touched));
  }

  lemma TrailSpend(c: Config, ms: seq<Monitor>, es: seq<Event>, mem: Mem, e: Event)
    requires Trail(c, ms, es, mem) && e.ExclusiveWrite? && e.mem == mem && DecidedOk(c, es, e)
    ensures Trail(c, ClearMonitor(ms, e.route.port, e.route.payload.id), es + [e], mem)
  {
    TableAfterSpend(ms, es, e);
    DecidedPush(c, es, e);
    KeptPush(c, es, e, mem, mem);
    VouchedPush(c, es, e);
  }

  lemma TrailReserve(c: Config, ms: seq<Monitor>, es: seq<Event>, mem: Mem, slot: nat, e: Event)
    requires Trail(c, ms, es, mem) && e.Reserve? && e.mem == mem && slot < |ms|
    requires Keyed(ms[slot], e.port, e.payload.id) ||
             (ms[slot].Free? && forall i | 0 <= i < |ms| :: !Keyed(ms[i], e.port, e.payload.id))
    ensures Trail(c, ms[slot := Held(e.port, e.payload)], es + [e], mem)
  {
    TableAfterReserve(ms, es, slot, e);
    DecidedPush(c, es, e);
    KeptPush(c, es, e, mem, mem);
    VouchedPush(c, es, e);
  }

  // ---- write beats ------------------------------------------------------------------------------

  lemma TouchedNarrow(c: Config, r: Route, k: nat, st: Staged)
    requires RouteOk(c, r) && BusWidth(c.width) && StagedOk(c, st) && k < Beats(r.payload)
    ensures forall a | a in Touched(c, r.payload, k, st) :: a <= AddressLimit(c)
  {
    hide BurstOk, Lo, Hi;
    forall a | a in Touched(c, r.payload, k, st) ensures a <= AddressLimit(c) { assert Enabled(r.payload, k, a); }
  }

  lemma BeatTrail(c: Config, s: Fabric, reply: Reply)
    requires Base(c, s) && Committing(c, s) && Trail(c, s.monitors, s.h.events, s.mem)
    ensures var t := BeatEffect(c, s, reply); Trail(c, t.monitors, t.h.events, t.mem)
    ensures NoDecision(s.h.events, BeatEffect(c, s, reply).h.events)
  {
    CommittingFacts(c, s);
    var f, t := s.writeRoutes[0], BeatEffect(c, s, reply);
    var k, p := f.commitBeat, f.route.payload;
    if !EmptyBeat(p, k) {
      if Success(BeatAnswer(c, f.route, k, reply)) {
        BeatStores(c, s.mem, f.route, k, f.staged[k]);
        TouchedNarrow(c, f.route, k, f.staged[k]);
        TrailStore(c, s.monitors, s.h.events, s.mem, t.mem, Touched(c, p, k, f.staged[k]));
      } else {
        StoreBeatFrame(c, s.mem, f.route, k, f.staged[k]);
      }
    }
  }

  /** The history grew without deciding an exclusive write. */
  ghost predicate NoDecision(es: seq<Event>, es': seq<Event>) {
    es <= es' && forall k | |es| <= k < |es'| :: !es'[k].ExclusiveWrite?
  }

  lemma ReportedGrows(es: seq<Event>, es': seq<Event>, rs: seq<Route>, done: seq<DoneWrite>, done': seq<DoneWrite>)
    requires Reported(es, rs, done) && done <= done' && NoDecision(es, es')
    ensures Reported(es', rs, done')
  {}

  lemma CommitBeatLock(c: Config, s: Fabric, reply: Reply)
    requires Base(c, s) && Committing(c, s) && LockState(c, s) && WriteQueue(s)
    ensures LockState(c, CommitBeat(c, s, reply))
  {
    CommittingFacts(c, s);
    BeatTrail(c, s, reply);
    var t := CommitBeat(c, s, reply);
    ReportedGrows(s.h.events, t.h.events, s.h.wgrants, s.h.done, t.h.done);
  }

  // ---- exclusive writes ------------------------------------------------------------------------------

  ghost function Decision(c: Config, s: Fabric, reply: Reply): Event
    requires Finishing(c, s)
  {
    ExclusiveWrite(|s.h.done|, s.writeRoutes[0].route, ExclusiveAnswer(c, s, reply), s.mem)
  }

  lemma DecisionOk(c: Config, s: Fabric, reply: Reply)
    requires Base(c, s) && Finishing(c, s) && TableOk(s.monitors, s.h.events)
    ensures DecidedOk(c, s.h.events, Decision(c, s, reply))
  {
    FinishingFacts(c, s);
    var r := s.writeRoutes[0].route;
    RouteFacts(c, r);
    assert MonitorOf(s.monitors, r.port, r.payload.id) == CurrentPayload(s.h.events, r.port, r.payload.id);
  }

  lemma GatherCovers(p: AddressPayload, strobe: seq<bool>)
    ensures forall i | 0 <= i < |strobe| && strobe[i] :: p.address + i in GatherTouched(p, strobe)
  {
    forall i | 0 <= i < |strobe| && strobe[i] ensures p.address + i in GatherTouched(p, strobe) {
      assert StrobedAt(p, strobe, p.address + i);
    }
  }

  /** Every strobed byte of a gathered write lies in the window. */
  lemma GatherInWindow(c: Config, r: Route, staged: seq<Staged>)
    requires RouteOk(c, r) && Mapped(c, r) && r.payload.lock && AllStaged(c, r.payload, staged)
    ensures forall i | 0 <= i < Total(r.payload) && GatherStrobe(c, r.payload, staged)[i] ::
              MappingOf(c, r).Contains(r.payload.address + i, 1)
  {
    RouteFacts(c, r);
    var p := r.payload;
    forall i | 0 <= i < Total(p) && GatherStrobe(c, p, staged)[i] ensures MappingOf(c, r).Contains(p.address + i, 1) {
      GatherIndex(p, i);
      var k := i / BeatBytes(p);
      ExclusiveBeatOf(p, k, i);
      BeatInWindow(c, r, k);
    }
  }

  /** And within the address width. */
  lemma GatherNarrow(c: Config, r: Route, staged: seq<Staged>)
    requires RouteOk(c, r) && c.width > 0 && r.payload.lock && AllStaged(c, r.payload, staged)
    ensures forall a | a in GatherTouched(r.payload, GatherStrobe(c, r.payload, staged)) :: a <= AddressLimit(c)
  {
    hide BurstOk, Routed, AddressLimit;
    RouteFacts(c, r);
    var p := r.payload;
    forall a | a in GatherTouched(p, GatherStrobe(c, p, staged)) ensures a <= AddressLimit(c) {
      var i := a - p.address;
      GatherIndex(p, i);
      ExclusiveBeatOf(p, i / BeatBytes(p), i);
      assert Enabled(p, i / BeatBytes(p), a);
    }
  }

  lemma GatherStores(c: Config, s: Fabric)
    requires Base(c, s) && Finishing(c, s) && s.writeRoutes[0].route.forced.Okay?
    ensures var f := s.writeRoutes[0];
            && Mapped(c, f.route) && AllStaged(c, f.route.payload, f.staged)
            && var p := f.route.payload;
               var data, strobe := GatherData(c, p, f.staged), GatherStrobe(c, p, f.staged);
               OnlyStored(c, s.mem, StoreAt(c, s.mem, f.route, p.address, data, strobe), GatherTouched(p, strobe))
  {
    hide GatherTouched, OnlyStored, StoreAt, GatherStrobe, GatherData;
    FinishingFacts(c, s);
    var f := s.writeRoutes[0];
    var p := f.route.payload;
    var strobe := GatherStrobe(c, p, f.staged);
    GatherCovers(p, strobe);
    GatherInWindow(c, f.route, f.staged);
    StoreAtStores(c, s.mem, f.route, p.address, GatherData(c, p, f.staged), strobe, GatherTouched(p, strobe));
  }

  lemma RefusedKeepsMem(c: Config, mem: Mem, r: Route, lo: nat, data: seq<byte>, strobe: seq<bool>, reply: Reply)
    requires Mapped(c, r) && MemOk(c, mem) && |data| == |strobe|
    requires !Success(DeviceAnswer(c, r, lo + |data|, reply))
    ensures StoreAt(c, mem, r, lo, data, strobe) == mem
  {}

  lemma ExclusiveTrail(c: Config, s: Fabric, reply: Reply)
    requires Base(c, s) && Finishing(c, s) && Trail(c, s.monitors, s.h.events, s.mem)
    ensures var t := ExclusiveEffect(c, s, reply); Trail(c, t.monitors, t.h.events, t.mem)
    ensures var es := ExclusiveEffect(c, s, reply).h.events;
            || es == s.h.events + [Decision(c, s, reply)]
            || exists touched :: es == s.h.events + [Decision(c, s, reply)] + [BusWrite(touched)]
  {
    FinishingFacts(c, s);
    DecisionOk(c, s, reply);
    var f, t, e := s.writeRoutes[0], ExclusiveEffect(c, s, reply), Decision(c, s, reply);
    var p := f.route.payload;
    TrailSpend(c, s.monitors, s.h.events, s.mem, e);
    var ms1, es1 := ClearMonitor(s.monitors, f.route.port, p.id), s.h.events + [e];
    if Takes(s) {
      var data, strobe := GatherData(c, p, f.staged), GatherStrobe(c, p, f.staged);
      if ExclusiveAnswer(c, s, reply).ExclusiveOkay? {
        var touched := GatherTouched(p, strobe);
        GatherStores(c, s);
        GatherNarrow(c, f.route, f.staged);
        TrailStore(c, ms1, es1, s.mem, t.mem, touched);
        ClearInvalidateCommute(s.monitors, touched, f.route.port, p.id);
        assert t.h.events == s.h.events + [e] + [BusWrite(touched)];
      } else {
        RefusedKeepsMem(c, s.mem, f.route, p.address, data, strobe, reply);
        assert t.h.events == s.h.events + [e] + [];
        assert t.h.events == es1;
      }
    }
  }

  lemma FinishLock(c: Config, s: Fabric, reply: Reply)
    requires Base(c, s) && Finishing(c, s) && LockState(c, s) && WriteQueue(s)
    ensures LockState(c, FinishExclusive(c, s, reply))
  {
    FinishingFacts(c, s);
    ExclusiveTrail(c, s, reply);
    var t := FinishExclusive(c, s, reply);
    assert s.writeRoutes[0].route == s.h.wgrants[|s.h.done|];
    assert t.h.done[|s.h.done|].response.response == Decision(c, s, reply).response;
  }

  lemma WriteCommitLock(c: Config, s: Fabric, reply: Reply)
    requires Base(c, s) && LockState(c, s) && WriteQueue(s) && s.writeRoutes != [] && s.writeRoutes[0].dataComplete
    ensures LockState(c, WriteCommit(c, s, reply))
  {
    var f := s.writeRoutes[0];
    assert WriteOk(c, f);
    if |s.ports[f.route.port].b| == c.responseDepth {
    } else if f.route.payload.lock {
      FinishLock(c, s, reply);
    } else if !f.route.forced.Okay? {
      var t := WriteCommit(c, s, reply);
      ReportedGrows(s.h.events, t.h.events, s.h.wgrants, s.h.done, t.h.done);
    } else {
      CommitBeatLock(c, s, reply);
    }
  }

  lemma StageLock(c: Config, s: Fabric)
    requires Sized(c, s) && LockState(c, s) && WriteQueue(s) && s.writeRoutes != []
    requires s.writeRoutes[0].route.port < c.ports && s.ports[s.writeRoutes[0].route.port].w != []
    ensures LockState(c, StageBeat(c, s)) && WriteQueue(StageBeat(c, s))
  {}

  lemma WriteStepLock(c: Config, s: Fabric, reply: Reply)
    requires Base(c, s) && LockState(c, s) && WriteQueue(s)
    ensures LockState(c, WriteStep(c, s, reply).s)
  {
    if s.writeRoutes != [] {
      var f := s.writeRoutes[0];
      assert WriteOk(c, f);
      if f.dataComplete {
        WriteCommitLock(c, s, reply);
      } else if s.ports[f.route.port].w != [] {
        StageBase(c, s);
        StageLock(c, s);
        var s1 := StageBeat(c, s);
        if s1.writeRoutes[0].dataComplete { WriteCommitLock(c, s1, reply); }
      }
    }
  }

  // ---- reads -----------------------------------------------------------------------------------------------

  lemma EstablishLock(c: Config, s: Fabric, r: Route)
    requires Base(c, s) && LockState(c, s)
    ensures LockState(c, Establish(c, s, r).s)
  {
    var found := FindMonitor(s.monitors, r.port, r.payload.id, 0);
    var slot := if found.Some? then found else FindFree(s.monitors, 0);
    if slot.Some? {
      var e := Reserve(r.port, r.payload, s.mem, |s.h.served|);
      TrailReserve(c, s.monitors, s.h.events, s.mem, slot.value, e);
      ReportedGrows(s.h.events, s.h.events + [e], s.h.wgrants, s.h.done, s.h.done);
    }
  }

  lemma SameLock(c: Config, s: Fabric, t: Fabric)
    requires LockState(c, s) && Untouched(s, t) && t.h.done == s.h.done && s.h.wgrants <= t.h.wgrants
    ensures LockState(c, t)
  {}

  lemma ReadStepLock(c: Config, s: Fabric, reply: Reply)
    requires Base(c, s) && LockState(c, s)
    ensures LockState(c, ReadStep(c, s, reply).s)
  {
    if s.readRoutes != [] && |s.ports[s.readRoutes[0].route.port].r| != c.responseDepth {
      var f := s.readRoutes[0];
      if f.route.payload.lock && f.beat == 0 && f.route.forced.Okay? {
        EstablishLock(c, s, f.route);
        var o := Establish(c, s, f.route);
        assert Base(c, o.s);
        if o.Done? { ServeLock(c, o.s, reply); }
      } else {
        ServeLock(c, s, reply);
      }
    }
  }

  lemma ServeLock(c: Config, s: Fabric, reply: Reply)
    requires Base(c, s) && LockState(c, s) && s.readRoutes != []
    ensures LockState(c, ServeRead(c, s, reply))
  {
    var t := ServeRead(c, s, reply);
    assert t.mem == s.mem && t.monitors == s.monitors && t.h.events == s.h.events;
  }

  // ---- cycles and runs -----------------------------------------------------------------------------------------

  lemma ArbitrateLock(c: Config, s: Fabric)
    requires Base(c, s) && LockState(c, s)
    ensures LockState(c, Arbitrate(c, s).s)
  {
    ArbitrateUntouched(c, s);
    SameLock(c, s, Arbitrate(c, s).s);
  }

  lemma SameQueueLock(s: Fabric, t: Fabric)
    requires WriteQueue(s) && t.writeRoutes == s.writeRoutes && t.h == s.h
    ensures WriteQueue(t)
  {}

  lemma ProcessLock(c: Config, s: Fabric, reply: Reply)
    requires Base(c, s) && LockState(c, s) && WriteQueue(s)
    ensures LockState(c, Process(c, s, reply).s)
  {
    var s0 := Unsuppress(c, s);
    SameLock(c, s, s0);
    SameQueueLock(s, s0);
    WriteStepBase(c, s0, reply);
    WriteStepLock(c, s0, reply);
    var o := WriteStep(c, s0, reply);
    if o.Done? && !o.s.suppressRead { ReadStepLock(c, o.s, reply); }
  }

  lemma FreshLock(c: Config, s: Fabric)
    requires MemOk(c, s.mem) && s.monitors == seq(c.routeDepth, _ => Free) && s.h == FreshHistory(c, s.mem)
    ensures LockState(c, s)
  {
    TableEmpty(c.routeDepth);
  }

  lemma CommitLock(c: Config, s: Fabric, inputs: seq<Master>, reply: Reply)
    requires Base(c, s) && InputsOk(c, inputs) && LockState(c, s) && Order(c, s)
    requires OfferedFrom(c, s, 0) && RoomFrom(c, s, 0)
    ensures LockState(c, Commit(c, s, inputs, false, reply).s)
  {
    AwakeOrder(c, s);
    IngressOrder(c, Awake(c, s), inputs);
    IngressPortsOnly(c, Awake(c, s), inputs);
    var o1 := Ingress(c, Awake(c, s), inputs);
    SameLock(c, s, o1.s);
    if o1.Done? {
      ArbitrateOrder(c, o1.s);
      ArbitrateLock(c, o1.s);
      var o2 := Arbitrate(c, o1.s);
      if o2.Done? { ProcessLock(c, o2.s, reply); }
    }
  }

  lemma CycleLock(c: Config, s: Fabric, x: Stimulus)
    requires Base(c, s) && StimulusOk(c, x) && LockState(c, s) && Order(c, s)
    ensures LockState(c, Cycle(c, s, x).s)
  {
    hide RoutesOk, Base, Process, ReadQueue, PortBalance, FifosOk, Arbitrate, Ingress, WriteQueue, Offered,
         HasRoom, SpaceOk, Tick, OfferedFrom, Untouched, ConfigOk, Awake, RoomFrom, MemOk, InputsOk, Reported,
         BeatSized, FreshHistory, Sized, EmptyLog, IdleSlave, DrivePort;
    var d := Drive(c, s, x.reset, x.stalls);
    DriveBase(c, s, x.reset, x.stalls);
    DriveOffers(c, s, x.reset, x.stalls);
    SameTrafficKeepsOrder(c, s, d);
    SameLock(c, s, d);
    if x.reset {
      if d.wasReset { SameLock(c, d, ResetCycle(c, d)); } else { FreshLock(c, ResetCycle(c, d)); }
    } else {
      CommitLock(c, d, x.inputs, x.reply);
    }
  }

  lemma {:induction false} RunLock(c: Config, mem: Mem, xs: seq<Stimulus>)
    requires ConfigOk(c) && MemOk(c, mem) && StimuliOk(c, xs)
    ensures Base(c, Init(c, mem)) && LockState(c, Run(c, Init(c, mem), xs).s)
  {
    RunOrder(c, mem, xs);
    if xs == [] {
      FreshLock(c, Init(c, mem));
    } else {
      RunLock(c, mem, xs[..|xs| - 1]);
      RunOrder(c, mem, xs[..|xs| - 1]);
      var o := Run(c, Init(c, mem), xs[..|xs| - 1]);
      if o.Done? { CycleLock(c, o.s, xs[|xs| - 1]); }
    }
  }

  // ---- what it means on the bus ----------------------------------------------------------------------------------

  predicate InRange(p: AddressPayload, a: int) { p.address <= a < p.address + Total(p) }

  /** Event j is an exclusive read by `port` with exactly payload p; since then the
      key issued no exclusive read or write and nobody stored into p's bytes. */
  ghost predicate Undisturbed(es: seq<Event>, port: nat, p: AddressPayload, j: nat) {
    && j < |es| && es[j].Reserve? && es[j].port == port && es[j].payload == p
    && forall k | j < k < |es| ::
         && !Claims(es[k], port, p.id) && !Spends(es[k], port, p.id)
         && (es[k].BusWrite? ==> forall a | a in es[k].touched :: !InRange(p, a))
  }

  /** The guard of the source is the transfer's byte range except for a transfer
      that ends exactly at 2^64, whose guard is empty. */
  lemma GuardIsRange(c: Config, p: AddressPayload, a: int)
    requires ConfigOk(c) && BurstOk(c, p) && ExclusiveShape(p)
    ensures p.address + Total(p) <= TWO64
    ensures p.address + Total(p) < TWO64 ==> (Guards(p, a) <==> InRange(p, a))
    ensures p.address + Total(p) == TWO64 ==> !Guards(p, a)
  {
    var last := Beats(p) - 1;
    ExclusiveBeat(p, last);
    BeatWindow(c.width, p, last);
    assert BeatAddress(p, last) < TWO64;
    if p.address + Total(p) < TWO64 { ModSmall(p.address + Total(p), TWO64); }
  }

  lemma UndisturbedIsCurrent(c: Config, es: seq<Event>, port: nat, p: AddressPayload)
    requires ConfigOk(c) && BurstOk(c, p) && ExclusiveShape(p) && p.address + Total(p) < TWO64
    ensures CurrentPayload(es, port, p.id) == Some(p) <==> exists j: nat :: Undisturbed(es, port, p, j)
  {
    var cur := Current(es, port, p.id);
    if cur.Some? && es[cur.value].payload == p {
      CurrentIsStanding(es, port, p.id, cur.value);
      StandingUndisturbed(c, es, port, p, cur.value);
    }
    forall j: nat | Undisturbed(es, port, p, j) ensures cur == Some(j) {
      StandingUndisturbed(c, es, port, p, j);
      CurrentIsStanding(es, port, p.id, j);
    }
  }

  lemma StandingUndisturbed(c: Config, es: seq<Event>, port: nat, p: AddressPayload, j: nat)
    requires ConfigOk(c) && BurstOk(c, p) && ExclusiveShape(p) && p.address + Total(p) < TWO64
    requires j < |es| && es[j].Reserve? && es[j].port == port && es[j].payload == p
    ensures Undisturbed(es, port, p, j) <==> Standing(es, port, p.id, j)
  {
    forall k | j < k < |es| && es[k].BusWrite?
      ensures (forall a | a in es[k].touched :: !InRange(p, a)) <==> !Touches(es[k].touched, p)
    {
      forall a | a in es[k].touched ensures Guards(p, a) <==> InRange(p, a) { GuardIsRange(c, p, a); }
    }
  }
}
