/**
  Draining succeeds: conditions on what is queued under which the drain of
  `FabricDrain` raises no error, so that it ends idle without being assumed to.
 */
module FabricDrainFree {
  import opened Axi
  import opened Fabric
  import opened FabricRun
  import opened FabricOrder
  import opened FabricErrors
  import opened FabricPhases
  import opened FabricStable
  import opened FabricFair
  import opened FabricDrain

  // ---- the W beats still to come ---------------------------------------------------------------

  /** Beats of a write from number `from` on. */
  function BeatPlan(p: AddressPayload, from: nat): seq<(AddressPayload, nat)>
    requires from <= Beats(p)
  {
    seq(Beats(p) - from, i requires 0 <= i < Beats(p) - from => (p, from + i))
  }

  /** What one route of the queue still expects from port q. */
  ghost function PlanOf(q: nat, w: WriteRoute): seq<(AddressPayload, nat)> {
    if w.route.port == q && |w.staged| <= Beats(w.route.payload) then BeatPlan(w.route.payload, |w.staged|) else []
  }

  ghost function RoutePlan(q: nat, ws: seq<WriteRoute>): seq<(AddressPayload, nat)> {
    if ws == [] then [] else PlanOf(q, ws[0]) + RoutePlan(q, ws[1..])
  }

  function QueuePlan(aw: seq<AddressPayload>): seq<(AddressPayload, nat)> {
    if aw == [] then [] else BeatPlan(aw[0], 0) + QueuePlan(aw[1..])
  }

  /** The W beats port q owes: those of its granted writes, then those of its queued ones. */
  ghost function Plan(s: Fabric, q: nat): seq<(AddressPayload, nat)>
    requires q < |s.ports|
  {
    RoutePlan(q, s.writeRoutes) + QueuePlan(s.ports[q].aw)
  }

  ghost predicate BeatLegal(c: Config, w: WriteBeat, due: (AddressPayload, nat)) {
    && c.width > 0 && BeatSized(c, w)
    && w.last == (due.1 + 1 == Beats(due.0)) && StrobesLegal(c, due.0, due.1, w.strobe)
  }

  ghost predicate BeatsLegal(c: Config, ws: seq<WriteBeat>, plan: seq<(AddressPayload, nat)>) {
    |ws| == |plan| && forall i | 0 <= i < |ws| :: BeatLegal(c, ws[i], plan[i])
  }

  /** Each port's W queue holds exactly the beats it owes, WLAST and strobes legal. */
  ghost predicate DataLegal(c: Config, s: Fabric) {
    forall q | 0 <= q < |s.ports| :: BeatsLegal(c, s.ports[q].w, Plan(s, q))
  }

  lemma {:induction false} RoutePlanLength(c: Config, q: nat, ws: seq<WriteRoute>)
    requires forall i | 0 <= i < |ws| :: WriteOk(c, ws[i])
    ensures |RoutePlan(q, ws)| == Sum(MissingBeats(q, ws))
  {
    if ws != [] {
      assert WriteOk(c, ws[0]);
      RoutePlanLength(c, q, ws[1..]);
      assert MissingBeats(q, ws)[1..] == MissingBeats(q, ws[1..]);
    }
  }

  lemma {:induction false} QueuePlanLength(aw: seq<AddressPayload>)
    ensures |QueuePlan(aw)| == Sum(BeatCounts(aw))
  {
    if aw != [] {
      QueuePlanLength(aw[1..]);
      assert BeatCounts(aw)[1..] == BeatCounts(aw[1..]);
    }
  }

  lemma LegalIsBalanced(c: Config, s: Fabric)
    requires Base(c, s) && DataLegal(c, s)
    ensures Balanced(s)
  {
    forall q | 0 <= q < |s.ports|
      ensures |s.ports[q].w| == Sum(MissingBeats(q, s.writeRoutes)) + Sum(BeatCounts(s.ports[q].aw))
    {
      assert BeatsLegal(c, s.ports[q].w, Plan(s, q));
      RoutePlanLength(c, q, s.writeRoutes);
      QueuePlanLength(s.ports[q].aw);
    }
  }

  // ---- monitors for the exclusive reads still to come ---------------------------------------------

  function FreeBits(ms: seq<Monitor>): seq<int> {
    seq(|ms|, i requires 0 <= i < |ms| => if ms[i].Free? then 1 else 0)
  }

  function LockBits(ar: seq<AddressPayload>): seq<int> {
    seq(|ar|, i requires 0 <= i < |ar| => if ar[i].lock then 1 else 0)
  }

  ghost function LocksQueued(ps: seq<Port>): seq<int> {
    seq(|ps|, i requires 0 <= i < |ps| => Sum(LockBits(ps[i].ar)))
  }

  ghost predicate WillReserve(r: ReadRoute) { r.beat == 0 && r.route.payload.lock && r.route.forced.Okay? }

  ghost function LocksRouted(rs: seq<ReadRoute>): seq<int> {
    seq(|rs|, i requires 0 <= i < |rs| => if WillReserve(rs[i]) then 1 else 0)
  }

  /** A free monitor for every exclusive read that has not started. */
  ghost predicate MonitorsSuffice(s: Fabric) {
    Sum(FreeBits(s.monitors)) >= Sum(LocksQueued(s.ports)) + Sum(LocksRouted(s.readRoutes))
  }

  // ---- the conditions -----------------------------------------------------------------------------

  ghost predicate Unwatched(p: Port) { p.awWatch == None && p.wWatch == None && p.arWatch == None }

  ghost predicate Routables(c: Config, q: nat, ps: seq<AddressPayload>)
    requires ConfigOk(c)
  {
    forall i | 0 <= i < |ps| :: InitRoute(c, q, ps[i]).Routable?
  }

  /** No stalled request, every queued request legal, every W beat legal, monitors enough. */
  ghost predicate Drainable(c: Config, s: Fabric) {
    && ConfigOk(c) && DataLegal(c, s) && MonitorsSuffice(s)
    && forall q | 0 <= q < |s.ports| ::
         Unwatched(s.ports[q]) && Routables(c, q, s.ports[q].aw) && Routables(c, q, s.ports[q].ar)
  }

  // ---- ingress -------------------------------------------------------------------------------------

  lemma QuietIngressSucceeds(c: Config, s: Fabric, x: Stimulus)
    requires Base(c, s) && StimulusOk(c, x) && Quiet(c, x) && Order(c, s) && Drainable(c, s)
    ensures AfterIngress(c, s, x).Done?
  {
    hide Ingress, Arbitrate, Process, Order, RoutesOk, FifosOk, DataLegal, MonitorsSuffice, Routables,
         OfferedFrom, RoomFrom;
    DriveBase(c, s, false, x.stalls);
    var d := Drive(c, s, false, x.stalls);
    DriveOffers(c, s, false, x.stalls);
    SameTrafficKeepsOrder(c, s, d);
    AwakeOrder(c, d);
    IngressOrder(c, Awake(c, d), x.inputs);
    UnstableExact(c, s, x);
    forall q | 0 <= q < c.ports ensures !PortBroken(s.ports[q], x.inputs[q]) { assert Unwatched(s.ports[q]); }
  }

  lemma QuietIngressUnwatched(c: Config, s: Fabric, x: Stimulus, q: nat)
    requires Base(c, s) && StimulusOk(c, x) && Quiet(c, x) && AfterIngress(c, s, x).Done? && q < c.ports
    ensures q < |AfterIngress(c, s, x).s.ports| && Unwatched(AfterIngress(c, s, x).s.ports[q])
  {
    hide RoutesOk, FifosOk, MemOk;
    DriveBase(c, s, false, x.stalls);
    var d := Awake(c, Drive(c, s, false, x.stalls));
    IngressAt(c, d, x.inputs, q);
    CheckBase(c, d, x.inputs, 0);
    CheckResult(c, d, x.inputs, 0);
    assert x.inputs[q] == Master(None, None, true, None, true);
  }

  lemma QuietIngressDrainable(c: Config, s: Fabric, x: Stimulus)
    requires Base(c, s) && StimulusOk(c, x) && Quiet(c, x) && AfterIngress(c, s, x).Done? && Drainable(c, s)
    ensures Drainable(c, AfterIngress(c, s, x).s)
  {
    hide Ingress, RoutesOk, FifosOk, MemOk, BeatsLegal, Routables, Unwatched;
    QuietIngress(c, s, x);
    DriveBase(c, s, false, x.stalls);
    IngressPortsOnly(c, Awake(c, Drive(c, s, false, x.stalls)), x.inputs);
    var t := AfterIngress(c, s, x).s;
    forall q | 0 <= q < |t.ports|
      ensures BeatsLegal(c, t.ports[q].w, Plan(t, q))
      ensures Unwatched(t.ports[q]) && Routables(c, q, t.ports[q].aw) && Routables(c, q, t.ports[q].ar)
    {
      assert Retires(s.ports[q], t.ports[q]);
      QuietIngressUnwatched(c, s, x, q);
      assert BeatsLegal(c, s.ports[q].w, Plan(s, q));
    }
    assert LocksQueued(t.ports) == LocksQueued(s.ports) by {
      forall q | 0 <= q < |s.ports| ensures t.ports[q].ar == s.ports[q].ar { assert Retires(s.ports[q], t.ports[q]); }
    }
  }

  // ---- arbitration -----------------------------------------------------------------------------------

  lemma {:induction false} RoutePlanPush(q: nat, ws: seq<WriteRoute>, w: WriteRoute)
    ensures RoutePlan(q, ws + [w]) == RoutePlan(q, ws) + PlanOf(q, w)
  {
    if ws == [] {
      assert ws + [w] == [w] && [w][1..] == [];
      assert RoutePlan(q, [w]) == PlanOf(q, w) + RoutePlan(q, []);
    } else {
      RoutePlanPush(q, ws[1..], w);
      assert (ws + [w])[1..] == ws[1..] + [w];
      assert (ws + [w])[0] == ws[0];
      Associates(PlanOf(q, ws[0]), RoutePlan(q, ws[1..]), PlanOf(q, w));
    }
  }

  lemma GrantedPlan(c: Config, s: Fabric, t: Fabric, p: nat, r: Route, q: nat)
    requires GrantedWrite(c, s, t, p, r) && q < c.ports
    ensures Plan(t, q) == Plan(s, q)
  {
    hide BeatPlan;
    var w := WriteRoute(r, [], Okay, None, 0, false);
    var aw := s.ports[q].aw;
    RoutePlanPush(q, s.writeRoutes, w);
    if q == p {
      assert PlanOf(q, w) == BeatPlan(aw[0], 0);
      assert QueuePlan(aw) == BeatPlan(aw[0], 0) + QueuePlan(aw[1..]);
      Associates(RoutePlan(q, s.writeRoutes), BeatPlan(aw[0], 0), QueuePlan(aw[1..]));
    } else {
      assert PlanOf(q, w) == [];
      assert RoutePlan(q, s.writeRoutes) + [] == RoutePlan(q, s.writeRoutes);
    }
  }

  lemma GrantedWriteDrainable(c: Config, s: Fabric, t: Fabric, p: nat, r: Route)
    requires GrantedWrite(c, s, t, p, r) && t.monitors == s.monitors && Drainable(c, s)
    ensures Drainable(c, t)
  {
    hide BeatsLegal, Plan, Unwatched, InitRoute;
    forall q | 0 <= q < |t.ports|
      ensures BeatsLegal(c, t.ports[q].w, Plan(t, q))
      ensures Unwatched(t.ports[q]) && Routables(c, q, t.ports[q].aw) && Routables(c, q, t.ports[q].ar)
    {
      GrantedPlan(c, s, t, p, r, q);
      assert BeatsLegal(c, s.ports[q].w, Plan(s, q));
      assert Unwatched(s.ports[q]) by { assert Routables(c, q, s.ports[q].aw); }
      SamePortBut(s.ports[q], t.ports[q]);
    }
    assert LocksQueued(t.ports) == LocksQueued(s.ports);
  }

  lemma SamePortBut(a: Port, b: Port)
    ensures b == a.(aw := b.aw, w := b.w, ar := b.ar, b := b.b, r := b.r) ==> (Unwatched(a) <==> Unwatched(b))
  {}

  lemma LockBitsTail(ar: seq<AddressPayload>)
    requires ar != []
    ensures Sum(LockBits(ar)) == (if ar[0].lock then 1 else 0) + Sum(LockBits(ar[1..]))
  {
    assert LockBits(ar)[1..] == LockBits(ar[1..]);
  }

  lemma GrantedReadDrainable(c: Config, s: Fabric, t: Fabric, p: nat, r: Route)
    requires GrantedRead(c, s, t, p, r) && t.monitors == s.monitors && Drainable(c, s)
    ensures Drainable(c, t)
  {
    hide BeatsLegal, Plan, Unwatched, InitRoute, Sum, LockBits;
    forall q | 0 <= q < |t.ports|
      ensures BeatsLegal(c, t.ports[q].w, Plan(t, q))
      ensures Unwatched(t.ports[q]) && Routables(c, q, t.ports[q].aw) && Routables(c, q, t.ports[q].ar)
    {
      SamePlan(s, t, q);
      assert BeatsLegal(c, s.ports[q].w, Plan(s, q));
      assert Routables(c, q, s.ports[q].ar);
      SamePortBut(s.ports[q], t.ports[q]);
    }
    var before, after := LocksQueued(s.ports), LocksQueued(t.ports);
    var ar := s.ports[p].ar;
    LockBitsTail(ar);
    SumUpdate(before, p, Sum(LockBits(ar[1..])));
    assert after == before[p := Sum(LockBits(ar[1..]))];
    var bit := if WillReserve(ReadRoute(r, 0)) then 1 else 0;
    SumPush(LocksRouted(s.readRoutes), bit);
    assert LocksRouted(t.readRoutes) == LocksRouted(s.readRoutes) + [bit];
  }

  lemma SamePlan(s: Fabric, t: Fabric, q: nat)
    requires q < |s.ports| && q < |t.ports| && t.writeRoutes == s.writeRoutes && t.ports[q].aw == s.ports[q].aw
    ensures Plan(t, q) == Plan(s, q)
  {}

  lemma GrantWriteSucceeds(c: Config, s: Fabric)
    requires Base(c, s) && Drainable(c, s)
    ensures GrantWrite(c, s).Done? && GrantWrite(c, s).s.monitors == s.monitors
  {
    hide InitRoute, RoutesOk, FifosOk, DataLegal, MonitorsSuffice;
    var pick := Pick(AwWaiting(s.ports), s.nextAw, 0);
    if pick.Some? { assert Routables(c, pick.value, s.ports[pick.value].aw); }
  }

  lemma GrantReadSucceeds(c: Config, s: Fabric)
    requires Base(c, s) && Drainable(c, s)
    ensures GrantRead(c, s).Done? && GrantRead(c, s).s.monitors == s.monitors
  {
    hide InitRoute, RoutesOk, FifosOk, DataLegal, MonitorsSuffice;
    var pick := Pick(ArWaiting(s.ports), s.nextAr, 0);
    if pick.Some? { assert Routables(c, pick.value, s.ports[pick.value].ar); }
  }

  lemma ArbitrateSucceeds(c: Config, s: Fabric)
    requires Base(c, s) && Drainable(c, s)
    ensures Arbitrate(c, s).Done? && Drainable(c, Arbitrate(c, s).s)
  {
    hide GrantWrite, GrantRead, Drainable, RoutesOk, FifosOk;
    GrantWriteSucceeds(c, s);
    GrantWriteBase(c, s);
    GrantWriteShape(c, s);
    var s1 := GrantWrite(c, s).s;
    if s1 != s {
      var p: nat, r :| RouteOk(c, r) && GrantedWrite(c, s, s1, p, r);
      GrantedWriteDrainable(c, s, s1, p, r);
    }
    GrantReadSucceeds(c, s1);
    GrantReadShape(c, s1);
    var s2 := GrantRead(c, s1).s;
    if s2 != s1 {
      var p: nat, r :| RouteOk(c, r) && GrantedRead(c, s1, s2, p, r);
      GrantedReadDrainable(c, s1, s2, p, r);
    }
  }

  // ---- writes ------------------------------------------------------------------------------------------

  /** The next W beat of a front write that is still collecting is legal. */
  lemma NextBeatLegal(c: Config, s: Fabric)
    requires Base(c, s) && DataLegal(c, s) && s.writeRoutes != [] && !s.writeRoutes[0].dataComplete
    ensures var f := s.writeRoutes[0];
            && f.route.port < c.ports && s.ports[f.route.port].w != []
            && BeatLegal(c, s.ports[f.route.port].w[0], (f.route.payload, |f.staged|))
  {
    hide FifosOk, BeatLegal;
    FrontWriteOk(c, s);
    var f := s.writeRoutes[0];
    var q := f.route.port;
    assert BeatsLegal(c, s.ports[q].w, Plan(s, q));
    assert PlanOf(q, f) == BeatPlan(f.route.payload, |f.staged|);
    assert Plan(s, q)[0] == (f.route.payload, |f.staged|);
  }

  lemma StagePlan(c: Config, s: Fabric, q: nat)
    requires Base(c, s) && s.writeRoutes != [] && !s.writeRoutes[0].dataComplete && q < c.ports
    requires s.writeRoutes[0].route.port < c.ports && s.ports[s.writeRoutes[0].route.port].w != []
    ensures Plan(StageBeat(c, s), q) == if q == s.writeRoutes[0].route.port then Plan(s, q)[1..] else Plan(s, q)
  {
    hide FifosOk, RoutesOk;
    FrontWriteOk(c, s);
    var f, t := s.writeRoutes[0], StageBeat(c, s);
    var ws := s.writeRoutes;
    assert t.writeRoutes[1..] == ws[1..];
    assert RoutePlan(q, ws) == PlanOf(q, ws[0]) + RoutePlan(q, ws[1..]);
    if q == f.route.port {
      assert PlanOf(q, t.writeRoutes[0]) == PlanOf(q, f)[1..];
    } else {
      assert PlanOf(q, t.writeRoutes[0]) == PlanOf(q, f) == [];
    }
  }

  lemma StageDrainable(c: Config, s: Fabric)
    requires Base(c, s) && Drainable(c, s) && s.writeRoutes != [] && !s.writeRoutes[0].dataComplete
    requires s.writeRoutes[0].route.port < c.ports && s.ports[s.writeRoutes[0].route.port].w != []
    ensures Drainable(c, StageBeat(c, s))
  {
    hide FifosOk, RoutesOk, BeatLegal, Plan, Unwatched, InitRoute;
    var t := StageBeat(c, s);
    forall q | 0 <= q < |t.ports|
      ensures BeatsLegal(c, t.ports[q].w, Plan(t, q))
      ensures Unwatched(t.ports[q]) && Routables(c, q, t.ports[q].aw) && Routables(c, q, t.ports[q].ar)
    {
      StagePlan(c, s, q);
      assert BeatsLegal(c, s.ports[q].w, Plan(s, q));
      assert Routables(c, q, s.ports[q].ar);
      SamePortBut(s.ports[q], t.ports[q]);
    }
    assert LocksQueued(t.ports) == LocksQueued(s.ports);
  }

  /** More monitors free, responses queued, the front write advanced or gone: nothing else changed. */
  ghost predicate WriteAdvanced(s: Fabric, t: Fabric) {
    && s.writeRoutes != [] && |t.ports| == |s.ports|
    && (forall q | 0 <= q < |s.ports| :: t.ports[q] == s.ports[q].(b := t.ports[q].b))
    && t.readRoutes == s.readRoutes && |t.monitors| == |s.monitors|
    && (forall i | 0 <= i < |s.monitors| && s.monitors[i].Free? :: t.monitors[i].Free?)
    && (|| t.writeRoutes == s.writeRoutes
        || (|s.writeRoutes[0].staged| == Beats(s.writeRoutes[0].route.payload) && t.writeRoutes == s.writeRoutes[1..])
        || (t.writeRoutes != [] && t.writeRoutes == s.writeRoutes[0 := t.writeRoutes[0]] &&
            t.writeRoutes[0].route == s.writeRoutes[0].route && t.writeRoutes[0].staged == s.writeRoutes[0].staged))
  }

  lemma AdvancedPlan(s: Fabric, t: Fabric, q: nat)
    requires WriteAdvanced(s, t) && q < |s.ports|
    ensures Plan(t, q) == Plan(s, q)
  {
    var ws := s.writeRoutes;
    if t.writeRoutes == ws[1..] && |ws[0].staged| == Beats(ws[0].route.payload) {
      assert PlanOf(q, ws[0]) == [];
      assert [] + RoutePlan(q, ws[1..]) == RoutePlan(q, ws[1..]);
    } else if t.writeRoutes != ws {
      assert t.writeRoutes[1..] == ws[1..];
      assert PlanOf(q, t.writeRoutes[0]) == PlanOf(q, ws[0]);
    }
  }

  lemma AdvancedDrainable(c: Config, s: Fabric, t: Fabric)
    requires WriteAdvanced(s, t) && Drainable(c, s)
    ensures Drainable(c, t)
  {
    hide BeatsLegal, Plan, Unwatched, InitRoute, Sum;
    forall q | 0 <= q < |t.ports|
      ensures BeatsLegal(c, t.ports[q].w, Plan(t, q))
      ensures Unwatched(t.ports[q]) && Routables(c, q, t.ports[q].aw) && Routables(c, q, t.ports[q].ar)
    {
      AdvancedPlan(s, t, q);
      assert BeatsLegal(c, s.ports[q].w, Plan(s, q));
      assert Routables(c, q, s.ports[q].ar);
      SamePortBut(s.ports[q], t.ports[q]);
    }
    assert LocksQueued(t.ports) == LocksQueued(s.ports);
    SumLe(FreeBits(s.monitors), FreeBits(t.monitors));
  }

  lemma WriteCommitAdvances(c: Config, s: Fabric, reply: Reply)
    requires Base(c, s) && s.writeRoutes != [] && s.writeRoutes[0].dataComplete
    ensures WriteAdvanced(s, WriteCommit(c, s, reply))
  {
    hide FifosOk, RoutesOk, MemOk, StoreAt, Lanes, Touched, DeviceAnswer, GatherData, GatherStrobe,
         GatherTouched, ConfigOk, Hi;
    FrontWriteOk(c, s);
    var f := s.writeRoutes[0];
    if |s.ports[f.route.port].b| == c.responseDepth {
    } else if f.route.payload.lock {
      FinishingFacts(c, s);
      var s1 := ExclusiveEffect(c, s, reply);
      CompleteAdvances(c, s, s1, f.(response := ExclusiveAnswer(c, s, reply)));
    } else if !f.route.forced.Okay? {
      CompleteAdvances(c, s, s, f.(response := Combine(f.response, f.route.forced)));
    } else {
      CommittingFacts(c, s);
      var s1, f1 := BeatEffect(c, s, reply), BeatFront(c, s, reply);
      if f1.commitBeat == Beats(f1.route.payload) { CompleteAdvances(c, s, s1, f1); }
    }
  }

  lemma CompleteAdvances(c: Config, s: Fabric, s1: Fabric, f: WriteRoute)
    requires Sized(c, s1) && s.writeRoutes != [] && f.route.port < c.ports
    requires |s.writeRoutes[0].staged| == Beats(s.writeRoutes[0].route.payload)
    requires s1.ports == s.ports && s1.readRoutes == s.readRoutes && s1.writeRoutes == s.writeRoutes
    requires |s1.monitors| == |s.monitors|
    requires forall i | 0 <= i < |s.monitors| && s.monitors[i].Free? :: s1.monitors[i].Free?
    ensures WriteAdvanced(s, CompleteWrite(c, s1, f))
  {}

  lemma WriteStepSucceeds(c: Config, s: Fabric, reply: Reply)
    requires Base(c, s) && Drainable(c, s)
    ensures WriteStep(c, s, reply).Done? && Drainable(c, WriteStep(c, s, reply).s)
  {
    hide FifosOk, RoutesOk, WriteCommit, StageBeat, MonitorsSuffice, Routables, Unwatched, WriteAdvanced;
    if s.writeRoutes != [] {
      FrontWriteOk(c, s);
      if s.writeRoutes[0].dataComplete {
        WriteCommitAdvances(c, s, reply);
        AdvancedDrainable(c, s, WriteCommit(c, s, reply));
      } else {
        NextBeatLegal(c, s);
        StageBase(c, s);
        StageDrainable(c, s);
        StagedComplete(c, s);
        var s1 := StageBeat(c, s);
        if s1.writeRoutes[0].dataComplete {
          WriteCommitAdvances(c, s1, reply);
          AdvancedDrainable(c, s1, WriteCommit(c, s1, reply));
        }
      }
    }
  }

  // ---- reads -------------------------------------------------------------------------------------------

  lemma SomeFree(ms: seq<Monitor>)
    requires Sum(FreeBits(ms)) > 0
    ensures exists i :: 0 <= i < |ms| && ms[i].Free?
  {
    var bits := FreeBits(ms);
    if forall i | 0 <= i < |ms| :: !ms[i].Free? {
      SumLe(bits, seq(|bits|, _ => 0));
      SumZeros(|bits|);
    }
  }

  lemma RoutedLocksPositive(rs: seq<ReadRoute>)
    ensures Sum(LocksRouted(rs)) >= 0
    ensures rs != [] ==> Sum(LocksRouted(rs)) == (if WillReserve(rs[0]) then 1 else 0) + Sum(LocksRouted(rs[1..]))
  {
    SumNonNeg(LocksRouted(rs));
    if rs != [] { assert LocksRouted(rs)[1..] == LocksRouted(rs[1..]); }
  }

  lemma QueuedLocksPositive(ps: seq<Port>)
    ensures Sum(LocksQueued(ps)) >= 0
  {
    forall i | 0 <= i < |ps| ensures LocksQueued(ps)[i] >= 0 { SumNonNeg(LockBits(ps[i].ar)); }
    SumNonNeg(LocksQueued(ps));
  }

  /** A monitor is there for the read that reserves now, and one fewer is needed afterwards. */
  lemma EstablishSucceeds(c: Config, s: Fabric, r: Route)
    requires Sized(c, s) && MonitorsSuffice(s) && s.readRoutes != [] && WillReserve(s.readRoutes[0])
    ensures var o := Establish(c, s, r);
            o.Done? && Sum(FreeBits(o.s.monitors)) >= Sum(FreeBits(s.monitors)) - 1
  {
    hide Sum;
    RoutedLocksPositive(s.readRoutes);
    RoutedLocksPositive(s.readRoutes[1..]);
    QueuedLocksPositive(s.ports);
    SomeFree(s.monitors);
    var found := FindMonitor(s.monitors, r.port, r.payload.id, 0);
    var slot := if found.Some? then found else FindFree(s.monitors, 0);
    assert slot.Some?;
    var ms := s.monitors[slot.value := Held(r.port, r.payload)];
    SumUpdate(FreeBits(s.monitors), slot.value, 0);
    assert FreeBits(ms) == FreeBits(s.monitors)[slot.value := 0];
  }

  /** One read beat served: its route has moved on, nothing else the drain needs has changed. */
  ghost predicate ReadAdvanced(s: Fabric, t: Fabric) {
    && s.readRoutes != [] && |t.ports| == |s.ports| && t.writeRoutes == s.writeRoutes
    && (forall q | 0 <= q < |s.ports| :: t.ports[q] == s.ports[q].(r := t.ports[q].r))
    && (|| t.readRoutes == s.readRoutes[1..]
        || (t.readRoutes != [] && t.readRoutes == s.readRoutes[0 := t.readRoutes[0]] && t.readRoutes[0].beat > 0))
    && Sum(FreeBits(t.monitors)) >=
         Sum(FreeBits(s.monitors)) - (if WillReserve(s.readRoutes[0]) then 1 else 0)
  }

  lemma ReadAdvancedDrainable(c: Config, s: Fabric, t: Fabric)
    requires ReadAdvanced(s, t) && Drainable(c, s)
    ensures Drainable(c, t)
  {
    hide BeatsLegal, Plan, Unwatched, InitRoute, Sum, FreeBits;
    forall q | 0 <= q < |t.ports|
      ensures BeatsLegal(c, t.ports[q].w, Plan(t, q))
      ensures Unwatched(t.ports[q]) && Routables(c, q, t.ports[q].aw) && Routables(c, q, t.ports[q].ar)
    {
      SamePlan(s, t, q);
      assert BeatsLegal(c, s.ports[q].w, Plan(s, q));
      assert Routables(c, q, s.ports[q].ar);
      SamePortBut(s.ports[q], t.ports[q]);
    }
    assert LocksQueued(t.ports) == LocksQueued(s.ports);
    RoutedLocksPositive(s.readRoutes);
    RoutedLocksPositive(t.readRoutes);
    if t.readRoutes != s.readRoutes[1..] { assert t.readRoutes[1..] == s.readRoutes[1..]; }
  }

  lemma ServeAdvances(c: Config, s: Fabric, s1: Fabric, reply: Reply)
    requires Base(c, s1) && s1.readRoutes != [] && s1.readRoutes == s.readRoutes
    requires s1.ports == s.ports && s1.writeRoutes == s.writeRoutes
    requires Sum(FreeBits(s1.monitors)) >= Sum(FreeBits(s.monitors)) - (if WillReserve(s.readRoutes[0]) then 1 else 0)
    ensures ReadAdvanced(s, ServeRead(c, s1, reply))
  {
    hide FifosOk, RoutesOk, ServedBeat, ReadAccess, Sum;
    FrontReadOk(c, s1);
  }

  lemma ReadStepSucceeds(c: Config, s: Fabric, reply: Reply)
    requires Base(c, s) && Drainable(c, s)
    ensures ReadStep(c, s, reply).Done? && Drainable(c, ReadStep(c, s, reply).s)
  {
    hide FifosOk, RoutesOk, ServeRead, DataLegal, Routables, Unwatched, ReadAdvanced, Sum, FreeBits;
    if s.readRoutes != [] {
      FrontReadOk(c, s);
      var f := s.readRoutes[0];
      if |s.ports[f.route.port].r| != c.responseDepth {
        var s1 := s;
        if WillReserve(f) {
          EstablishSucceeds(c, s, f.route);
          EstablishBase(c, s, f.route);
          s1 := Establish(c, s, f.route).s;
        }
        ServeAdvances(c, s, s1, reply);
        ReadAdvancedDrainable(c, s, ServeRead(c, s1, reply));
      }
    }
  }

  // ---- the drain ----------------------------------------------------------------------------------------

  lemma ProcessSucceeds(c: Config, s: Fabric, reply: Reply)
    requires Base(c, s) && Drainable(c, s)
    ensures Process(c, s, reply).Done? && Drainable(c, Process(c, s, reply).s)
  {
    hide WriteStep, ReadStep, FifosOk, RoutesOk, Drainable;
    var s0 := Unsuppress(c, s);
    SameDrainable(c, s, s0);
    WriteStepBase(c, s0, reply);
    WriteStepSucceeds(c, s0, reply);
    var o := WriteStep(c, s0, reply);
    if !o.s.suppressRead { ReadStepSucceeds(c, o.s, reply); }
  }

  lemma SameDrainable(c: Config, s: Fabric, t: Fabric)
    requires Drainable(c, s) && t.ports == s.ports && t.monitors == s.monitors
    requires t.writeRoutes == s.writeRoutes && t.readRoutes == s.readRoutes
    ensures Drainable(c, t)
  {
    forall q | 0 <= q < |t.ports| ensures BeatsLegal(c, t.ports[q].w, Plan(t, q)) {
      SamePlan(s, t, q);
      assert BeatsLegal(c, s.ports[q].w, Plan(s, q));
    }
  }

  /** A quiet cycle from a drainable state raises no error and leaves a drainable state. */
  lemma QuietCycleSucceeds(c: Config, s: Fabric, x: Stimulus)
    requires Base(c, s) && StimulusOk(c, x) && Quiet(c, x) && Order(c, s) && Drainable(c, s)
    ensures Cycle(c, s, x).Done? && Drainable(c, Cycle(c, s, x).s) && Order(c, Cycle(c, s, x).s)
  {
    hide Cycle, AfterIngress, Arbitrate, Process, Drainable, Order, Base;
    QuietIngressSucceeds(c, s, x);
    QuietIngressDrainable(c, s, x);
    var s1 := AfterIngress(c, s, x).s;
    ArbitrateSucceeds(c, s1);
    var s2 := Arbitrate(c, s1).s;
    ProcessSucceeds(c, s2, x.reply);
    var s3 := Process(c, s2, x.reply).s;
    CycleOf(c, s, x);
    SameDrainable(c, s3, Tick(c, s3));
    CycleOrder(c, s, x);
  }

  /**
    Draining succeeds: when nothing is stalled, every queued request is legal, the W
    queues hold exactly the legal beats that are owed, and there is a free monitor
    for every exclusive read to come, quiet cycles raise no error, whatever the
    stalls and the devices do, and after Work(s) of them the fabric is idle.
   */
  lemma {:induction false} DrainSucceeds(c: Config, s: Fabric, xs: seq<Stimulus>)
    requires Base(c, s) && Order(c, s) && Drainable(c, s) && StimuliOk(c, xs) && AllQuiet(c, xs)
    ensures Run(c, s, xs).Done? && Drainable(c, Run(c, s, xs).s) && Order(c, Run(c, s, xs).s)
    ensures |xs| >= Work(s) ==> Idle(Run(c, s, xs).s)
  {
    hide Cycle, Base, Drainable, Order, Idle, Work, Balanced;
    if xs != [] {
      var n := |xs| - 1;
      DrainSucceeds(c, s, xs[..n]);
      QuietCycleSucceeds(c, Run(c, s, xs[..n]).s, xs[n]);
    }
    DrainableData(c, s);
    LegalIsBalanced(c, s);
    DrainTerminates(c, s, xs);
  }

  lemma DrainableData(c: Config, s: Fabric)
    requires Drainable(c, s)
    ensures DataLegal(c, s)
  {}
}
