/**
  What the master of an exclusive sequence was told: the data an exclusive read
  returned on the R channel is what the exclusive write finds in memory.
 */
module FabricExclusiveData {
  import opened Axi
  import opened Arith
  import opened Fabric
  import opened FabricRun
  import opened FabricOrder
  import opened FabricErrors
  import opened FabricWindow
  import opened FabricAtomic
  import opened FabricExclusive
  import opened FabricExclusiveRun
  import opened FabricExclusiveExact

  // ---- the invariant -----------------------------------------------------------------------------

  /** Read beat x is beat b of the exclusive read that made reservation j. */
  ghost predicate BeatOf(x: Served, e: Event, j: nat, b: nat)
    requires e.Reserve?
  {
    x.route.port == e.port && x.route.payload == e.payload && x.beat == b && j < x.seen
  }

  /** The read beats since reservation j are those of its read, in order, as far as
      they have been served; until all are, that read is the oldest one. */
  ghost predicate Paired(s: Fabric, j: nat)
    requires j < |s.h.events| && s.h.events[j].Reserve?
  {
    var e, n := s.h.events[j], |s.h.served|;
    && e.read <= n
    && (forall i | e.read <= i < n && i < e.read + Beats(e.payload) :: BeatOf(s.h.served[i], e, j, i - e.read))
    && (n < e.read + Beats(e.payload) ==>
          && s.readRoutes != []
          && var f := s.readRoutes[0];
             f.route.port == e.port && f.route.payload == e.payload && e.read + f.beat == n)
  }

  /** The beat shows some memory in which every byte not stored to since an earlier
      exclusive read holds what it held then. */
  ghost predicate Witnessed(c: Config, es: seq<Event>, x: Served) {
    RouteOk(c, x.route) && exists m: Mem :: MemOk(c, m) && Kept(c, es, m) && SeesMemory(c, m, x)
  }

  ghost predicate DataState(c: Config, s: Fabric) {
    && (forall j | 0 <= j < |s.h.events| && s.h.events[j].Reserve? :: Paired(s, j))
    && (forall i | 0 <= i < |s.h.served| ::
          s.h.served[i].seen <= |s.h.events| && Witnessed(c, s.h.events[..s.h.served[i].seen], s.h.served[i]))
  }

  // ---- steps -------------------------------------------------------------------------------------

  /** Events other than exclusive reads may have been added; the oldest read is as before. */
  ghost predicate ReadsSame(s: Fabric, t: Fabric) {
    && t.h.served == s.h.served && s.readRoutes <= t.readRoutes && s.h.events <= t.h.events
    && forall k | |s.h.events| <= k < |t.h.events| :: !t.h.events[k].Reserve?
  }

  lemma SameData(c: Config, s: Fabric, t: Fabric)
    requires DataState(c, s) && ReadsSame(s, t)
    ensures DataState(c, t)
  {
    hide Witnessed;
    forall j | 0 <= j < |t.h.events| && t.h.events[j].Reserve? ensures Paired(t, j) { assert Paired(s, j); }
    forall i | 0 <= i < |t.h.served|
      ensures t.h.served[i].seen <= |t.h.events| && Witnessed(c, t.h.events[..t.h.served[i].seen], t.h.served[i])
    {
      var n := s.h.served[i].seen;
      assert Witnessed(c, s.h.events[..n], s.h.served[i]);
      assert t.h.events[..n] == s.h.events[..n];
    }
  }

  lemma EstablishData(c: Config, s: Fabric, r: Route)
    requires Base(c, s) && DataState(c, s) && s.readRoutes != [] && s.readRoutes[0] == ReadRoute(r, 0)
    ensures DataState(c, Establish(c, s, r).s)
  {
    hide Witnessed, RoutesOk, FifosOk, MemOk, ConfigOk;
    var t := Establish(c, s, r).s;
    if Establish(c, s, r).Done? {
      forall j | 0 <= j < |t.h.events| && t.h.events[j].Reserve? ensures Paired(t, j) {
        if j < |s.h.events| { assert Paired(s, j); }
      }
      forall i | 0 <= i < |t.h.served|
        ensures t.h.served[i].seen <= |t.h.events| && Witnessed(c, t.h.events[..t.h.served[i].seen], t.h.served[i])
      {
        var n := s.h.served[i].seen;
        assert Witnessed(c, s.h.events[..n], s.h.served[i]);
        assert t.h.events[..n] == s.h.events[..n];
      }
    }
  }

  /** The oldest read is served one beat. */
  ghost predicate Advanced(s: Fabric, t: Fabric, x: Served) {
    && s.readRoutes != [] && t.h.events == s.h.events && t.h.served == s.h.served + [x]
    && var f := s.readRoutes[0];
       && x.route == f.route && x.beat == f.beat && x.seen == |s.h.events|
       && (f.beat + 1 < Beats(f.route.payload) ==>
             t.readRoutes != [] && t.readRoutes[0] == ReadRoute(f.route, f.beat + 1))
  }

  lemma AdvancedPaired(s: Fabric, t: Fabric, x: Served, j: nat)
    requires j < |s.h.events| && s.h.events[j].Reserve? && Paired(s, j) && Advanced(s, t, x)
    ensures Paired(t, j)
  {
    var e, n := s.h.events[j], |s.h.served|;
    forall i | e.read <= i < n + 1 && i < e.read + Beats(e.payload) ensures BeatOf(t.h.served[i], e, j, i - e.read) {
      if i < n { assert BeatOf(s.h.served[i], e, j, i - e.read); }
    }
  }

  lemma AdvancedData(c: Config, s: Fabric, t: Fabric, x: Served)
    requires DataState(c, s) && Advanced(s, t, x) && Witnessed(c, s.h.events, x)
    ensures DataState(c, t)
  {
    hide Witnessed, Paired;
    forall j | 0 <= j < |t.h.events| && t.h.events[j].Reserve? ensures Paired(t, j) { AdvancedPaired(s, t, x, j); }
    forall i | 0 <= i < |t.h.served|
      ensures t.h.served[i].seen <= |t.h.events| && Witnessed(c, t.h.events[..t.h.served[i].seen], t.h.served[i])
    {
      if i == |s.h.served| { assert s.h.events[..x.seen] == s.h.events; }
    }
  }

  lemma ServeData(c: Config, s: Fabric, reply: Reply)
    requires Base(c, s) && DataState(c, s) && LockState(c, s) && s.readRoutes != []
    ensures DataState(c, ServeRead(c, s, reply))
  {
    hide DataState, RoutesOk, FifosOk, MemOk, ConfigOk, ServedBeat, ReadAccess, Kept, TableOk, Decided, Vouched, Narrow,
         Reported, SeesMemory;
    FrontReadOk(c, s);
    var t := ServeRead(c, s, reply);
    var x := t.h.served[|s.h.served|];
    ServedSees(c, s.mem, x, reply);
    assert Witnessed(c, s.h.events, x);
    AdvancedData(c, s, t, x);
  }

  lemma ReadStepData(c: Config, s: Fabric, reply: Reply)
    requires Base(c, s) && DataState(c, s) && LockState(c, s)
    ensures DataState(c, ReadStep(c, s, reply).s)
  {
    hide DataState, LockState, RoutesOk, FifosOk, MemOk, ConfigOk, ServeRead, Establish;
    if s.readRoutes != [] {
      FrontReadOk(c, s);
      var f := s.readRoutes[0];
      if |s.ports[f.route.port].r| != c.responseDepth {
        if f.route.payload.lock && f.beat == 0 && f.route.forced.Okay? {
          EstablishBase(c, s, f.route);
          EstablishLock(c, s, f.route);
          EstablishData(c, s, f.route);
          EstablishReads(c, s, f.route);
          var o := Establish(c, s, f.route);
          if o.Done? { ServeData(c, o.s, reply); }
        } else {
          ServeData(c, s, reply);
        }
      }
    }
  }

  lemma EstablishReads(c: Config, s: Fabric, r: Route)
    requires Base(c, s)
    ensures Establish(c, s, r).s.readRoutes == s.readRoutes
  {}

  lemma CommitBeatReads(c: Config, s: Fabric, reply: Reply)
    requires Base(c, s) && Committing(c, s)
    ensures ReadsSame(s, CommitBeat(c, s, reply))
  {
    hide RoutesOk, FifosOk, MemOk, ConfigOk, StoreBeat, Invalidate, BeatAnswer, Touched, Lanes;
    CommittingFacts(c, s);
  }

  lemma FinishReads(c: Config, s: Fabric, reply: Reply)
    requires Base(c, s) && Finishing(c, s)
    ensures ReadsSame(s, FinishExclusive(c, s, reply))
  {
    hide RoutesOk, FifosOk, MemOk, ConfigOk, StoreAt, GatherData, GatherStrobe, GatherTouched, Invalidate, ClearMonitor,
         ExclusiveAnswer;
    FinishingFacts(c, s);
  }

  lemma WriteCommitReads(c: Config, s: Fabric, reply: Reply)
    requires Base(c, s) && s.writeRoutes != [] && s.writeRoutes[0].dataComplete
    ensures ReadsSame(s, WriteCommit(c, s, reply))
  {
    hide RoutesOk, FifosOk, MemOk, ConfigOk, CommitBeat, FinishExclusive;
    FrontWriteOk(c, s);
    var f := s.writeRoutes[0];
    if |s.ports[f.route.port].b| != c.responseDepth {
      if f.route.payload.lock { FinishReads(c, s, reply); }
      else if f.route.forced.Okay? { CommitBeatReads(c, s, reply); }
    }
  }

  lemma WriteStepReads(c: Config, s: Fabric, reply: Reply)
    requires Base(c, s)
    ensures ReadsSame(s, WriteStep(c, s, reply).s)
  {
    hide RoutesOk, FifosOk, MemOk, ConfigOk, WriteCommit, StrobesLegal;
    if s.writeRoutes != [] {
      FrontWriteOk(c, s);
      var f := s.writeRoutes[0];
      if f.dataComplete {
        WriteCommitReads(c, s, reply);
      } else if s.ports[f.route.port].w != [] {
        StageBase(c, s);
        if StageBeat(c, s).writeRoutes[0].dataComplete { WriteCommitReads(c, StageBeat(c, s), reply); }
      }
    }
  }

  lemma ProcessData(c: Config, s: Fabric, reply: Reply)
    requires Base(c, s) && DataState(c, s) && LockState(c, s) && WriteQueue(s)
    ensures DataState(c, Process(c, s, reply).s)
  {
    hide DataState, LockState, RoutesOk, FifosOk, MemOk, ConfigOk, WriteStep, ReadStep, WriteQueue;
    var s0 := Unsuppress(c, s);
    SameData(c, s, s0);
    SameLock(c, s, s0);
    SameQueueLock(s, s0);
    WriteStepBase(c, s0, reply);
    WriteStepReads(c, s0, reply);
    WriteStepLock(c, s0, reply);
    var o := WriteStep(c, s0, reply);
    SameData(c, s0, o.s);
    if o.Done? && !o.s.suppressRead { ReadStepData(c, o.s, reply); }
  }

  lemma ArbitrateReads(c: Config, s: Fabric)
    requires Base(c, s)
    ensures ReadsSame(s, Arbitrate(c, s).s)
  {
    hide RoutesOk, FifosOk, InitRoute, Pick;
  }

  lemma FreshData(c: Config, s: Fabric)
    requires s.h == FreshHistory(c, s.mem)
    ensures DataState(c, s)
  {}

  lemma CommitData(c: Config, s: Fabric, inputs: seq<Master>, reply: Reply)
    requires Base(c, s) && InputsOk(c, inputs) && LockState(c, s) && Order(c, s) && DataState(c, s)
    requires OfferedFrom(c, s, 0) && RoomFrom(c, s, 0)
    ensures DataState(c, Commit(c, s, inputs, false, reply).s)
  {
    hide DataState, LockState, RoutesOk, FifosOk, Ingress, Arbitrate, Process, OfferedFrom, RoomFrom, ReadQueue,
         PortBalance;
    AwakeOrder(c, s);
    IngressOrder(c, Awake(c, s), inputs);
    IngressPortsOnly(c, Awake(c, s), inputs);
    var o1 := Ingress(c, Awake(c, s), inputs);
    SameLock(c, s, o1.s);
    SameData(c, s, o1.s);
    if o1.Done? {
      ArbitrateOrder(c, o1.s);
      ArbitrateLock(c, o1.s);
      ArbitrateReads(c, o1.s);
      var o2 := Arbitrate(c, o1.s);
      SameData(c, o1.s, o2.s);
      if o2.Done? {
        ProcessData(c, o2.s, reply);
        var o3 := Process(c, o2.s, reply);
        if o3.Done? { SameData(c, o3.s, Tick(c, o3.s)); }
      }
    }
  }

  lemma CycleData(c: Config, s: Fabric, x: Stimulus)
    requires Base(c, s) && StimulusOk(c, x) && LockState(c, s) && Order(c, s) && DataState(c, s)
    ensures DataState(c, Cycle(c, s, x).s)
  {
    hide DataState, LockState, Commit, RoutesOk, FifosOk, Order, OfferedFrom, RoomFrom, MemOk, ConfigOk;
    var d := Drive(c, s, x.reset, x.stalls);
    DriveBase(c, s, x.reset, x.stalls);
    DriveOffers(c, s, x.reset, x.stalls);
    SameTrafficKeepsOrder(c, s, d);
    SameLock(c, s, d);
    SameData(c, s, d);
    if x.reset {
      ResetCommit(c, d, x.inputs, x.reply);
      if d.wasReset { SameData(c, d, ResetCycle(c, d)); } else { FreshData(c, ResetCycle(c, d)); }
    } else {
      CommitData(c, d, x.inputs, x.reply);
    }
  }

  lemma ResetCommit(c: Config, s: Fabric, inputs: seq<Master>, reply: Reply)
    requires Base(c, s) && InputsOk(c, inputs)
    ensures Commit(c, s, inputs, true, reply) == Done(ResetCycle(c, s))
  {}

  /** In every run: read beats are paired with the reservations they belong to, and
      each showed a memory that vouches for the earlier reservations. */
  lemma {:induction false} RunData(c: Config, mem: Mem, xs: seq<Stimulus>)
    requires ConfigOk(c) && MemOk(c, mem) && StimuliOk(c, xs)
    ensures Base(c, Init(c, mem)) && DataState(c, Run(c, Init(c, mem), xs).s)
  {
    hide DataState, Cycle, RoutesOk, FifosOk, LockState, Order;
    InitBase(c, mem);
    if xs == [] {
      FreshData(c, Init(c, mem));
    } else {
      RunData(c, mem, xs[..|xs| - 1]);
      RunLock(c, mem, xs[..|xs| - 1]);
      RunOrder(c, mem, xs[..|xs| - 1]);
      var o := Run(c, Init(c, mem), xs[..|xs| - 1]);
      if o.Done? { CycleData(c, o.s, xs[|xs| - 1]); }
    }
  }

  // ---- what the master was told ------------------------------------------------------------------

  lemma InRamByte(c: Config, r: Route, k: nat, a: nat)
    requires RouteOk(c, r) && Mapped(c, r) && k < Beats(r.payload) && Enabled(r.payload, k, a)
    requires DeviceOf(c, r).Ram? && Hi(r.payload, k) - MappingOf(c, r).base <= DeviceOf(c, r).size
    ensures 0 <= a % c.width < c.width && InRam(c, r.mapping.value, a)
    ensures AlignDown(BeatAddress(r.payload, k), c.width) + a % c.width == a
  {
    RouteFacts(c, r);
    BeatInWindow(c, r, k);
    LanesFit(c, r.payload, k);
    LaneInWord(c.width, Lo(r.payload, k), a);
  }

  lemma CarriedByte(c: Config, mem: Mem, x: Served, a: nat)
    requires RouteOk(c, x.route) && Mapped(c, x.route) && MemOk(c, mem)
    requires x.beat < Beats(x.route.payload) && Enabled(x.route.payload, x.beat, a) && DeviceOf(c, x.route).Ram?
    requires Hi(x.route.payload, x.beat) - MappingOf(c, x.route).base <= DeviceOf(c, x.route).size
    requires CarriesMemory(c, mem, x)
    ensures 0 <= a % c.width < |x.out.data| && InRam(c, x.route.mapping.value, a)
    ensures x.out.data[a % c.width] == ByteAt(c, mem, x.route.mapping.value, a)
  {
    hide InitRoute, BeatAddress, Lo, Hi, AlignDown;
    InRamByte(c, x.route, x.beat, a);
  }

  /** Beat b of the read behind reservation j: its R beat, if it has been served. */
  ghost predicate ServedFor(s: Fabric, j: nat, b: nat) {
    && j < |s.h.events| && s.h.events[j].Reserve?
    && b < Beats(s.h.events[j].payload) && s.h.events[j].read + b < |s.h.served|
  }

  ghost function BeatFor(s: Fabric, j: nat, b: nat): Served
    requires ServedFor(s, j, b)
  {
    s.h.served[s.h.events[j].read + b]
  }

  lemma SameRoute(c: Config, r: Route, u: Route)
    requires RouteOk(c, r) && RouteOk(c, u) && r.port == u.port && r.payload == u.payload
    ensures r == u
  {}

  lemma UnstoredBefore(c: Config, es: seq<Event>, n: nat, k: nat, j: nat, x: nat, a: int)
    requires n <= k <= |es| && Unstored(c, es[..k], j, x, a)
    ensures Unstored(c, es[..n], j, x, a)
  {
    forall i | j < i < n && es[..n][i].BusWrite? ensures !Stored(c, es[..n][i].touched, x, a) {
      assert es[..k][i] == es[..n][i];
    }
  }

  lemma CarriedWidth(c: Config, mem: Mem, x: Served)
    requires Mapped(c, x.route) && MemOk(c, mem) && !DeviceOf(c, x.route).Peripheral? && CarriesMemory(c, mem, x)
    ensures |x.out.data| == c.width
  {}

  /** A read beat shows every byte not stored to since reservation j as it was then. */
  lemma BeatShows(c: Config, es: seq<Event>, x: Served, j: nat, a: nat)
    requires Witnessed(c, es, x) && j < |es| && es[j].Reserve? && MemOk(c, es[j].mem)
    requires x.beat < Beats(x.route.payload) && Enabled(x.route.payload, x.beat, a)
    requires x.route.forced.Okay? && Mapped(c, x.route) && DeviceOf(c, x.route).Ram?
    requires Hi(x.route.payload, x.beat) - MappingOf(c, x.route).base <= DeviceOf(c, x.route).size
    requires Unstored(c, es, j, x.route.mapping.value, a)
    ensures InRam(c, x.route.mapping.value, a) && |x.out.data| == c.width && 0 <= a % c.width < c.width
    ensures x.out.data[a % c.width] == ByteAt(c, es[j].mem, x.route.mapping.value, a)
  {
    hide Unstored, InRam, InitRoute, Lo, Hi, BeatAddress, CarriesMemory;
    var m: Mem :| MemOk(c, m) && Kept(c, es, m) && SeesMemory(c, m, x);
    CarriedByte(c, m, x, a);
    CarriedWidth(c, m, x);
    assert ByteKept(c, es, m, j, x.route.mapping.value, a);
  }

  /** A beat of an exclusive read that RAM holds is answered EXOKAY. */
  lemma BeatAnswers(c: Config, es: seq<Event>, x: Served)
    requires Witnessed(c, es, x) && x.route.forced.Okay? && x.route.payload.lock
    requires Mapped(c, x.route) && DeviceOf(c, x.route).Ram?
    requires Hi(x.route.payload, x.beat) - MappingOf(c, x.route).base <= DeviceOf(c, x.route).size
    ensures x.out.response == ExclusiveOkay && |x.out.data| == c.width
  {
    hide InitRoute, Lo, Hi, BeatAddress, AlignDown, Kept;
    var m: Mem :| MemOk(c, m) && Kept(c, es, m) && SeesMemory(c, m, x);
  }

  /** RAM that takes the whole transfer holds each of its beats. */
  lemma HeldBeat(c: Config, r: Route, b: nat)
    requires RouteOk(c, r) && Mapped(c, r) && r.payload.lock && FitsWhole(c, r) && b < Beats(r.payload)
    ensures DeviceOf(c, r).Ram? && Hi(r.payload, b) - MappingOf(c, r).base <= DeviceOf(c, r).size
  {
    hide Total, BeatAddress;
    RouteFacts(c, r);
    ExclusiveBeat(r.payload, b);
  }

  /** The beat read and the write decided are of one route. */
  lemma ReadOfWrite(c: Config, mem: Mem, xs: seq<Stimulus>, k: nat, j: nat, b: nat)
    requires ConfigOk(c) && MemOk(c, mem) && StimuliOk(c, xs) && Base(c, Init(c, mem))
    requires DecidesRam(c, Run(c, Init(c, mem), xs).s, k)
    requires var s := Run(c, Init(c, mem), xs).s;
             var e := s.h.events[k];
             Undisturbed(s.h.events[..k], e.route.port, e.route.payload, j) && ServedFor(s, j, b)
    ensures var s := Run(c, Init(c, mem), xs).s;
            var e, x := s.h.events[k], BeatFor(s, j, b);
            && RouteOk(c, e.route) && e.route.payload.lock && x.route == e.route && x.beat == b && j < x.seen
            && b < Beats(e.route.payload) && x.seen <= |s.h.events| && Witnessed(c, s.h.events[..x.seen], x)
  {
    hide Cycle, Run, Base, Witnessed, InitRoute, Kept, TableOk, Vouched, Reported, MemOk, ConfigOk;
    var s := Run(c, Init(c, mem), xs).s;
    var e, x := s.h.events[k], BeatFor(s, j, b);
    RunData(c, mem, xs);
    RunLock(c, mem, xs);
    assert DecidedOk(c, s.h.events[..k], e);
    assert s.h.events[..k][j] == s.h.events[j];
    assert Paired(s, j) && BeatOf(x, s.h.events[j], j, b);
    assert Witnessed(c, s.h.events[..x.seen], x);
    WitnessedRoute(c, s.h.events[..x.seen], x);
    SameRoute(c, x.route, e.route);
  }

  lemma WitnessedRoute(c: Config, es: seq<Event>, x: Served)
    requires Witnessed(c, es, x)
    ensures RouteOk(c, x.route)
  {}

  lemma DecisionMem(c: Config, mem: Mem, xs: seq<Stimulus>, k: nat)
    requires ConfigOk(c) && MemOk(c, mem) && StimuliOk(c, xs) && Base(c, Init(c, mem))
    requires DecidesRam(c, Run(c, Init(c, mem), xs).s, k)
    ensures MemOk(c, Run(c, Init(c, mem), xs).s.h.events[k].mem)
  {
    hide Cycle, Run, Base;
    DecisionEffective(c, mem, xs, k);
  }

  /** The kept byte of `ExclusiveExact`, for a byte of a beat. */
  lemma KeptByte(c: Config, es: seq<Event>, mem: Mem, j: nat, r: Route, b: nat, a: nat)
    requires RouteOk(c, r) && Mapped(c, r) && r.payload.lock && b < Beats(r.payload) && Enabled(r.payload, b, a)
    requires InRam(c, r.mapping.value, a) && Undisturbed(es, r.port, r.payload, j)
    requires Unstored(c, es, j, r.mapping.value, a) && MemOk(c, mem)
    requires forall a | InRange(r.payload, a) && InRam(c, r.mapping.value, a) ::
               ByteKept(c, es, mem, j, r.mapping.value, a)
    ensures MemOk(c, es[j].mem)
    ensures ByteAt(c, es[j].mem, r.mapping.value, a) == ByteAt(c, mem, r.mapping.value, a)
  {
    hide InRam, Unstored, Total, BeatAddress, BeatEnd;
    RouteFacts(c, r);
    ExclusiveBeat(r.payload, b);
    MulNonNeg(b, BeatBytes(r.payload));
    assert InRange(r.payload, a);
    assert ByteKept(c, es, mem, j, r.mapping.value, a);
  }

  /**
    What the master read is what its write finds.  In every run, take an exclusive
    write to RAM, not ending at 2^64, that answers EXOKAY on the undisturbed
    reservation j, and any beat of that exclusive read returned before the decision:
    the R beat carries EXOKAY, and each byte in it that nobody stored to through
    another window is the byte in memory when the write is decided.
   */
  lemma ExclusiveReadData(c: Config, mem: Mem, xs: seq<Stimulus>, k: nat, j: nat, b: nat, a: nat)
    requires ConfigOk(c) && MemOk(c, mem) && StimuliOk(c, xs) && Base(c, Init(c, mem))
    requires DecidesRam(c, Run(c, Init(c, mem), xs).s, k)
    requires var s := Run(c, Init(c, mem), xs).s;
             var e := s.h.events[k];
             && e.route.payload.address + Total(e.route.payload) < TWO64 && e.response == ExclusiveOkay
             && Undisturbed(s.h.events[..k], e.route.port, e.route.payload, j)
             && ServedFor(s, j, b) && BeatFor(s, j, b).seen <= k && Enabled(e.route.payload, b, a)
    ensures var s := Run(c, Init(c, mem), xs).s;
            var e, x := s.h.events[k], BeatFor(s, j, b);
            && x.route == e.route && x.beat == b && x.out.response == ExclusiveOkay
            && InRam(c, e.route.mapping.value, a) && MemOk(c, e.mem)
            && |x.out.data| == c.width && 0 <= a % c.width < c.width
            && (Unstored(c, s.h.events[..k], j, e.route.mapping.value, a) ==>
                  x.out.data[a % c.width] == ByteAt(c, e.mem, e.route.mapping.value, a))
  {
    hide Cycle, Run, Base, Effective, InRam, Unstored, Sole, Total, Lo, Hi, Witnessed, InitRoute, Kept, Undisturbed,
         Unbroken, RouteOk, ConfigOk, MemOk, BurstOk, ByteKept;
    var s := Run(c, Init(c, mem), xs).s;
    var e, x, es := s.h.events[k], BeatFor(s, j, b), s.h.events[..k];
    ReadOfWrite(c, mem, xs, k, j, b);
    ExclusiveExact(c, mem, xs, k);
    HeldBeat(c, e.route, b);
    assert MemOk(c, e.mem) by { DecisionMem(c, mem, xs, k); }
    InRamByte(c, e.route, b, a);
    BeatAnswers(c, s.h.events[..x.seen], x);
    if Unstored(c, es, j, e.route.mapping.value, a) {
      UnstoredBefore(c, s.h.events, x.seen, k, j, e.route.mapping.value, a);
      KeptByte(c, es, e.mem, j, e.route, b, a);
      BeatShows(c, s.h.events[..x.seen], x, j, a);
    }
  }
}
