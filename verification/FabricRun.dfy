/**
  Whole cycles and runs of the fabric, and the invariant that makes every phase
  well defined: queues within capacity and well-formed routes.
 */
module FabricRun {
  import opened Axi
  import opened Fabric

  ghost predicate FifosOk(c: Config, s: Fabric) {
    forall p | 0 <= p < |s.ports| ::
      && |s.ports[p].aw| <= c.addressDepth && |s.ports[p].w| <= c.writeDepth && |s.ports[p].ar| <= c.addressDepth
      && |s.ports[p].b| <= c.responseDepth && |s.ports[p].r| <= c.responseDepth
  }

  ghost predicate Base(c: Config, s: Fabric) {
    ConfigOk(c) && Sized(c, s) && RoutesOk(c, s) && FifosOk(c, s)
  }

  lemma FrontWriteOk(c: Config, s: Fabric)
    requires RoutesOk(c, s) && s.writeRoutes != []
    ensures WriteOk(c, s.writeRoutes[0])
  {}

  lemma FrontReadOk(c: Config, s: Fabric)
    requires RoutesOk(c, s) && s.readRoutes != []
    ensures ReadOk(c, s.readRoutes[0])
  {}

  // ---- each phase keeps the base invariant ---------------------------------

  /** A change confined to one port's queues that keeps its W beats well sized. */
  lemma PortChangeKeepsBase(c: Config, s: Fabric, t: Fabric, p: nat)
    requires Base(c, s) && Sized(c, t) && p < c.ports
    requires t.readRoutes == s.readRoutes && t.writeRoutes == s.writeRoutes
    requires forall q | 0 <= q < c.ports && q != p :: t.ports[q] == s.ports[q]
    requires |t.ports[p].aw| <= c.addressDepth && |t.ports[p].w| <= c.writeDepth && |t.ports[p].ar| <= c.addressDepth
    requires |t.ports[p].b| <= c.responseDepth && |t.ports[p].r| <= c.responseDepth
    requires forall i | 0 <= i < |t.ports[p].w| :: BeatSized(c, t.ports[p].w[i])
    ensures Base(c, t)
  {
    forall q, i | 0 <= q < |t.ports| && 0 <= i < |t.ports[q].w| ensures BeatSized(c, t.ports[q].w[i]) {
      if q != p { assert t.ports[q] == s.ports[q]; }
    }
  }

  lemma CheckPortBase(c: Config, s: Fabric, inputs: seq<Master>, p: nat)
    requires Base(c, s) && |inputs| == c.ports && p < c.ports
    ensures Base(c, CheckPort(c, s, inputs, p).s)
  {
    PortChangeKeepsBase(c, s, CheckPort(c, s, inputs, p).s, p);
  }

  lemma CheckBase(c: Config, s: Fabric, inputs: seq<Master>, p: nat)
    requires Base(c, s) && |inputs| == c.ports && p <= c.ports
    ensures Base(c, CheckStability(c, s, inputs, p).s)
    decreases c.ports - p
  {
    if p < c.ports {
      CheckPortBase(c, s, inputs, p);
      var o := CheckPort(c, s, inputs, p);
      if o.Done? { CheckBase(c, o.s, inputs, p + 1); }
    }
  }

  lemma RetireBBase(c: Config, s: Fabric, inputs: seq<Master>, p: nat)
    requires Base(c, s) && |inputs| == c.ports && p < c.ports
    ensures Base(c, RetireB(c, s, inputs, p).s)
  {
    PortChangeKeepsBase(c, s, RetireB(c, s, inputs, p).s, p);
  }

  lemma RetireRBase(c: Config, s: Fabric, inputs: seq<Master>, p: nat)
    requires Base(c, s) && |inputs| == c.ports && p < c.ports
    ensures Base(c, RetireR(c, s, inputs, p).s)
  {
    PortChangeKeepsBase(c, s, RetireR(c, s, inputs, p).s, p);
  }

  lemma RetireBase(c: Config, s: Fabric, inputs: seq<Master>, p: nat)
    requires Base(c, s) && |inputs| == c.ports && p <= c.ports
    ensures Base(c, Retire(c, s, inputs, p).s)
    decreases c.ports - p
  {
    if p < c.ports {
      RetireBBase(c, s, inputs, p);
      var o := RetireB(c, s, inputs, p);
      if o.Done? {
        RetireRBase(c, o.s, inputs, p);
        var o2 := RetireR(c, o.s, inputs, p);
        if o2.Done? { RetireBase(c, o2.s, inputs, p + 1); }
      }
    }
  }

  lemma AcceptAwBase(c: Config, s: Fabric, inputs: seq<Master>, p: nat)
    requires Base(c, s) && InputsOk(c, inputs) && p < c.ports
    ensures Base(c, AcceptAw(c, s, inputs, p).s)
  {
    PortChangeKeepsBase(c, s, AcceptAw(c, s, inputs, p).s, p);
  }

  lemma AcceptWBase(c: Config, s: Fabric, inputs: seq<Master>, p: nat)
    requires Base(c, s) && InputsOk(c, inputs) && p < c.ports
    ensures Base(c, AcceptW(c, s, inputs, p).s)
  {
    PortChangeKeepsBase(c, s, AcceptW(c, s, inputs, p).s, p);
  }

  lemma AcceptArBase(c: Config, s: Fabric, inputs: seq<Master>, p: nat)
    requires Base(c, s) && InputsOk(c, inputs) && p < c.ports
    ensures Base(c, AcceptAr(c, s, inputs, p).s)
  {
    PortChangeKeepsBase(c, s, AcceptAr(c, s, inputs, p).s, p);
  }

  lemma AcceptBase(c: Config, s: Fabric, inputs: seq<Master>, p: nat)
    requires Base(c, s) && InputsOk(c, inputs) && p <= c.ports
    ensures Base(c, Accept(c, s, inputs, p).s)
    decreases c.ports - p
  {
    if p < c.ports {
      AcceptAwBase(c, s, inputs, p);
      var o := AcceptAw(c, s, inputs, p);
      if o.Done? {
        AcceptWBase(c, o.s, inputs, p);
        var o2 := AcceptW(c, o.s, inputs, p);
        if o2.Done? {
          AcceptArBase(c, o2.s, inputs, p);
          var o3 := AcceptAr(c, o2.s, inputs, p);
          if o3.Done? { AcceptBase(c, o3.s, inputs, p + 1); }
        }
      }
    }
  }

  lemma GrantWriteBase(c: Config, s: Fabric)
    requires Base(c, s)
    ensures Base(c, GrantWrite(c, s).s)
  {
    var o := GrantWrite(c, s);
    var pick := Pick(AwWaiting(s.ports), s.nextAw, 0);
    if o.Done? && |s.writeRoutes| != c.routeDepth && pick.Some? {
      var p := pick.value;
      var mid := o.s.(writeRoutes := s.writeRoutes);
      PortChangeKeepsBase(c, s, mid, p);
      var route := InitRoute(c, p, s.ports[p].aw[0]).route;
      assert WriteOk(c, WriteRoute(route, [], Okay, None, 0, false));
      assert o.s.writeRoutes == s.writeRoutes + [WriteRoute(route, [], Okay, None, 0, false)];
    }
  }

  lemma GrantReadBase(c: Config, s: Fabric)
    requires Base(c, s)
    ensures Base(c, GrantRead(c, s).s)
  {
    var o := GrantRead(c, s);
    var pick := Pick(ArWaiting(s.ports), s.nextAr, 0);
    if o.Done? && |s.readRoutes| != c.routeDepth && pick.Some? {
      var p := pick.value;
      var mid := o.s.(readRoutes := s.readRoutes);
      PortChangeKeepsBase(c, s, mid, p);
      var route := InitRoute(c, p, s.ports[p].ar[0]).route;
      assert ReadOk(c, ReadRoute(route, 0));
      assert o.s.readRoutes == s.readRoutes + [ReadRoute(route, 0)];
    }
  }

  /** Popping or updating the oldest write keeps the queue of routes in order. */
  lemma FrontWriteBase(c: Config, s: Fabric, t: Fabric)
    requires Base(c, s) && Sized(c, t) && s.writeRoutes != []
    requires t.readRoutes == s.readRoutes && t.ports == s.ports
    requires t.writeRoutes == s.writeRoutes[1..] ||
             (t.writeRoutes != [] && t.writeRoutes == s.writeRoutes[0 := t.writeRoutes[0]] &&
              WriteOk(c, t.writeRoutes[0]))
    ensures Base(c, t)
  {
    if t.writeRoutes == s.writeRoutes[1..] {
      forall i | 0 <= i < |t.writeRoutes| ensures t.writeRoutes[i] == s.writeRoutes[i + 1] {}
    }
  }

  lemma CompleteBase(c: Config, s: Fabric, f: WriteRoute)
    requires Base(c, s) && s.writeRoutes != [] && f.route == s.writeRoutes[0].route
    ensures f.route.port < c.ports && Base(c, CompleteWrite(c, s, f))
  {
    assert WriteOk(c, s.writeRoutes[0]);
    var t := CompleteWrite(c, s, f);
    var mid := s.(writeRoutes := s.writeRoutes[1..]);
    FrontWriteBase(c, s, mid);
    assert forall i | 0 <= i < |s.ports[f.route.port].w| :: BeatSized(c, s.ports[f.route.port].w[i]);
    PortChangeKeepsBase(c, mid, t, f.route.port);
  }

  lemma AccessBase(c: Config, s: Fabric, t: Fabric)
    requires Base(c, s) && AccessOnly(s, t) && Sized(c, t)
    ensures Base(c, t)
  {}

  lemma FinishBase(c: Config, s: Fabric, reply: Reply)
    requires Base(c, s) && Finishing(c, s)
    ensures Base(c, FinishExclusive(c, s, reply))
  {
    AccessBase(c, s, ExclusiveEffect(c, s, reply));
    CompleteBase(c, ExclusiveEffect(c, s, reply), s.writeRoutes[0].(response := ExclusiveAnswer(c, s, reply)));
  }

  lemma BeatFrontOk(c: Config, s: Fabric, reply: Reply)
    requires Base(c, s) && Committing(c, s)
    ensures var f1 := BeatFront(c, s, reply);
            f1.commitBeat <= Beats(f1.route.payload) && (f1.commitBeat < Beats(f1.route.payload) ==> WriteOk(c, f1))
  {
    CommittingFacts(c, s);
  }

  lemma CommitBeatBase(c: Config, s: Fabric, reply: Reply)
    requires Base(c, s) && Committing(c, s)
    ensures Base(c, CommitBeat(c, s, reply))
  {
    var s1, f1 := BeatEffect(c, s, reply), BeatFront(c, s, reply);
    AccessBase(c, s, s1);
    BeatFrontOk(c, s, reply);
    if f1.commitBeat == Beats(f1.route.payload) {
      CompleteBase(c, s1, f1);
    } else {
      FrontWriteBase(c, s1, s1.(writeRoutes := s1.writeRoutes[0 := f1]));
    }
  }

  lemma WriteCommitBase(c: Config, s: Fabric, reply: Reply)
    requires Base(c, s) && s.writeRoutes != [] && s.writeRoutes[0].dataComplete
    ensures Base(c, WriteCommit(c, s, reply))
  {
    var f := s.writeRoutes[0];
    if |s.ports[f.route.port].b| == c.responseDepth {
    } else if f.route.payload.lock {
      FinishBase(c, s, reply);
    } else if !f.route.forced.Okay? {
      CompleteBase(c, s, f.(response := Combine(f.response, f.route.forced)));
    } else {
      CommitBeatBase(c, s, reply);
    }
  }

  lemma StageBase(c: Config, s: Fabric)
    requires Base(c, s) && s.writeRoutes != [] && !s.writeRoutes[0].dataComplete
    requires s.ports[s.writeRoutes[0].route.port].w != []
    ensures Base(c, StageBeat(c, s))
  {
    StageKeepsRoutes(c, s);
  }

  lemma WriteStepBase(c: Config, s: Fabric, reply: Reply)
    requires Base(c, s)
    ensures Base(c, WriteStep(c, s, reply).s)
  {
    hide WriteCommit;
    if s.writeRoutes != [] {
      var f := s.writeRoutes[0];
      assert WriteOk(c, f);
      if f.dataComplete {
        WriteCommitBase(c, s, reply);
      } else if s.ports[f.route.port].w != [] {
        StageBase(c, s);
        var s1 := StageBeat(c, s);
        if s1.writeRoutes[0].dataComplete { WriteCommitBase(c, s1, reply); }
      }
    }
  }

  lemma EstablishBase(c: Config, s: Fabric, r: Route)
    requires Base(c, s)
    ensures Base(c, Establish(c, s, r).s)
  {}

  lemma ServeReadBase(c: Config, s: Fabric, reply: Reply)
    requires Base(c, s) && s.readRoutes != []
    ensures Base(c, ServeRead(c, s, reply))
  {
    var f := s.readRoutes[0];
    assert ReadOk(c, f);
    var t := ServeRead(c, s, reply);
    var mid := t.(readRoutes := s.readRoutes);
    assert forall i | 0 <= i < |s.ports[f.route.port].w| :: BeatSized(c, s.ports[f.route.port].w[i]);
    PortChangeKeepsBase(c, s, mid, f.route.port);
    forall i | 1 <= i < |s.readRoutes| ensures ReadOk(c, s.readRoutes[i]) && s.readRoutes[i].beat == 0 {}
  }

  lemma ReadStepBase(c: Config, s: Fabric, reply: Reply)
    requires Base(c, s)
    ensures Base(c, ReadStep(c, s, reply).s)
  {
    hide ServeRead;
    if s.readRoutes != [] {
      var f := s.readRoutes[0];
      assert ReadOk(c, f);
      if |s.ports[f.route.port].r| != c.responseDepth {
        var o := Establish(c, s, f.route);
        assert Base(c, o.s);
        ServeReadBase(c, o.s, reply);
        ServeReadBase(c, s, reply);
      }
    }
  }

  lemma ResetBase(c: Config, s: Fabric)
    requires Base(c, s)
    ensures Base(c, ResetState(c, s))
  {}

  // ---- commit, cycle, run ------------------------------------------------------

  /** `check_stability`, `retire_responses`, `accept_ingress`. */
  ghost function Ingress(c: Config, s: Fabric, inputs: seq<Master>): (o: Outcome)
    requires Base(c, s) && InputsOk(c, inputs)
    ensures Base(c, o.s)
  {
    CheckBase(c, s, inputs, 0);
    var o1 := CheckStability(c, s, inputs, 0);
    if o1.Failed? then o1
    else
      RetireBase(c, o1.s, inputs, 0);
      var o2 := Retire(c, o1.s, inputs, 0);
      if o2.Failed? then o2
      else
        AcceptBase(c, o2.s, inputs, 0);
        Accept(c, o2.s, inputs, 0)
  }

  /** `arbitrate_addresses`. */
  ghost function Arbitrate(c: Config, s: Fabric): (o: Outcome)
    requires Base(c, s)
    ensures Base(c, o.s)
  {
    GrantWriteBase(c, s);
    var o1 := GrantWrite(c, s);
    if o1.Failed? then o1
    else
      GrantReadBase(c, o1.s);
      GrantRead(c, o1.s)
  }

  ghost function Unsuppress(c: Config, s: Fabric): (r: Fabric)
    requires Base(c, s)
    ensures Base(c, r)
  {
    s.(suppressRead := false)
  }

  /** `process_write_beat`, then `process_read_beat` unless suppressed. */
  ghost function Process(c: Config, s: Fabric, reply: Reply): (o: Outcome)
    requires Base(c, s)
    ensures Base(c, o.s)
  {
    var s0 := Unsuppress(c, s);
    WriteStepBase(c, s0, reply);
    var o1 := WriteStep(c, s0, reply);
    if o1.Failed? || o1.s.suppressRead then o1
    else
      ReadStepBase(c, o1.s, reply);
      ReadStep(c, o1.s, reply)
  }

  /** Reset clears the fabric once, on the edge that asserts it. */
  ghost function ResetCycle(c: Config, s: Fabric): (r: Fabric)
    requires Base(c, s)
    ensures Base(c, r)
  {
    ResetBase(c, s);
    var s1 := if s.wasReset then s else ResetState(c, s);
    s1.(wasReset := true, cycle := s.cycle + 1)
  }

  ghost function Awake(c: Config, s: Fabric): (r: Fabric)
    requires Base(c, s)
    ensures Base(c, r)
  {
    s.(wasReset := false)
  }

  ghost function Tick(c: Config, s: Fabric): (r: Fabric)
    requires Base(c, s)
    ensures Base(c, r)
  {
    s.(cycle := s.cycle + 1)
  }

  ghost function Commit(c: Config, s: Fabric, inputs: seq<Master>, reset: bool, reply: Reply): (o: Outcome)
    requires Base(c, s) && InputsOk(c, inputs)
    ensures Base(c, o.s)
  {
    if reset then Done(ResetCycle(c, s))
    else
      var o1 := Ingress(c, Awake(c, s), inputs);
      if o1.Failed? then o1
      else
        var o2 := Arbitrate(c, o1.s);
        if o2.Failed? then o2
        else
          var o3 := Process(c, o2.s, reply);
          if o3.Failed? then o3 else Done(Tick(c, o3.s))
  }

  lemma DriveBase(c: Config, s: Fabric, reset: bool, stalls: seq<Stall>)
    requires Base(c, s) && |stalls| == c.ports
    ensures Base(c, Drive(c, s, reset, stalls))
  {}

  /** One simulated clock: drive the outputs, then commit the inputs. */
  ghost function Cycle(c: Config, s: Fabric, x: Stimulus): (o: Outcome)
    requires Base(c, s) && StimulusOk(c, x)
    ensures Base(c, o.s)
  {
    DriveBase(c, s, x.reset, x.stalls);
    Commit(c, Drive(c, s, x.reset, x.stalls), x.inputs, x.reset, x.reply)
  }

  ghost predicate StimuliOk(c: Config, xs: seq<Stimulus>) {
    forall i | 0 <= i < |xs| :: StimulusOk(c, xs[i])
  }

  /** The run stops at the first error, as the simulator does. */
  ghost function Run(c: Config, s: Fabric, xs: seq<Stimulus>): (o: Outcome)
    requires Base(c, s) && StimuliOk(c, xs)
    ensures Base(c, o.s)
  {
    if xs == [] then Done(s)
    else
      var o := Run(c, s, xs[..|xs| - 1]);
      if o.Failed? then o else Cycle(c, o.s, xs[|xs| - 1])
  }

  lemma InitBase(c: Config, mem: Mem)
    requires ConfigOk(c) && MemOk(c, mem)
    ensures Base(c, Init(c, mem))
  {}
}
