/** Every device access of every run stays inside the window it was decoded to. */
module FabricAccess {
  import opened Axi
  import opened Fabric
  import opened FabricRun
  import opened FabricErrors
  import opened FabricWindow
  import opened FabricExclusiveRun

  ghost function Length(a: Access): nat { if a.DeviceRead? then |a.enable| else |a.data| }

  ghost predicate InWindow(c: Config, a: Access)
    requires a.mapping < |c.mappings|
  {
    0 <= a.offset && a.offset + Length(a) <= c.mappings[a.mapping].size
  }

  ghost predicate EndsAtTop(c: Config, a: Access)
    requires a.mapping < |c.mappings|
  {
    c.mappings[a.mapping].base + a.offset + Length(a) == TWO64
  }

  /** Non-empty, every read lane enabled, lanes and data paired, and inside the window; only a gathered
      exclusive write whose transfer ends at 2^64 reaches past its window. */
  ghost predicate AccessOk(c: Config, a: Access) {
    && a.mapping < |c.mappings| && Length(a) > 0
    && (a.DeviceRead? ==> InWindow(c, a) && forall i | 0 <= i < |a.enable| :: a.enable[i])
    && (a.DeviceWrite? ==> |a.strobe| == |a.data| && (InWindow(c, a) <==> !EndsAtTop(c, a)))
  }

  ghost predicate AccessesOk(c: Config, as_: seq<Access>) {
    forall i | 0 <= i < |as_| :: AccessOk(c, as_[i])
  }

  lemma BeatAccessOk(c: Config, s: Fabric, reply: Reply)
    requires Base(c, s) && Committing(c, s) && AccessesOk(c, s.h.accesses)
    ensures AccessesOk(c, BeatEffect(c, s, reply).h.accesses)
  {
    CommittingFacts(c, s);
    var f := s.writeRoutes[0];
    if !EmptyBeat(f.route.payload, f.commitBeat) {
      BeatInWindow(c, f.route, f.commitBeat);
      var a := BeatEffect(c, s, reply).h.accesses[|s.h.accesses|];
      assert AccessOk(c, a);
    }
  }

  lemma ExclusiveInWindow(c: Config, r: Route)
    requires RouteOk(c, r) && r.payload.lock && r.mapping.Some?
    ensures Mapped(c, r) && MappingOf(c, r).base <= r.payload.address
    ensures r.payload.address + Total(r.payload) <= MappingOf(c, r).End() <==>
            r.payload.address + Total(r.payload) != TWO64
  {
    RouteFacts(c, r);
    ExclusiveStart(c, r);
    GuardIsRange(c, r.payload, 0);
    var last := Beats(r.payload) - 1;
    ExclusiveBeat(r.payload, last);
    if r.payload.address + Total(r.payload) != TWO64 { BeatInWindow(c, r, last); }
  }

  lemma ExclusiveAccessOk(c: Config, s: Fabric, reply: Reply)
    requires Base(c, s) && Finishing(c, s) && AccessesOk(c, s.h.accesses)
    ensures AccessesOk(c, ExclusiveEffect(c, s, reply).h.accesses)
  {
    FinishingFacts(c, s);
    var f := s.writeRoutes[0];
    if Takes(s) {
      RouteFacts(c, f.route);
      ExclusiveInWindow(c, f.route);
      var a := ExclusiveEffect(c, s, reply).h.accesses[|s.h.accesses|];
      assert AccessOk(c, a);
    }
  }

  lemma WriteCommitAccess(c: Config, s: Fabric, reply: Reply)
    requires Base(c, s) && s.writeRoutes != [] && s.writeRoutes[0].dataComplete && AccessesOk(c, s.h.accesses)
    ensures AccessesOk(c, WriteCommit(c, s, reply).h.accesses)
  {
    var f := s.writeRoutes[0];
    assert WriteOk(c, f);
    if |s.ports[f.route.port].b| == c.responseDepth || (!f.route.payload.lock && !f.route.forced.Okay?) {
    } else if f.route.payload.lock {
      ExclusiveAccessOk(c, s, reply);
    } else {
      BeatAccessOk(c, s, reply);
    }
  }

  lemma WriteStepAccess(c: Config, s: Fabric, reply: Reply)
    requires Base(c, s) && AccessesOk(c, s.h.accesses)
    ensures AccessesOk(c, WriteStep(c, s, reply).s.h.accesses)
  {
    hide WriteCommit;
    if s.writeRoutes != [] {
      var f := s.writeRoutes[0];
      assert WriteOk(c, f);
      if f.dataComplete {
        WriteCommitAccess(c, s, reply);
      } else if s.ports[f.route.port].w != [] {
        StageBase(c, s);
        if StageBeat(c, s).writeRoutes[0].dataComplete { WriteCommitAccess(c, StageBeat(c, s), reply); }
      }
    }
  }

  /** The lanes of a beat's extent are all enabled. */
  lemma ReadLanesEnabled(c: Config, p: AddressPayload, k: nat)
    requires ConfigOk(c) && BurstOk(c, p) && k < Beats(p)
    ensures forall i | 0 <= i < |Lanes(c, p, k, Mask(c.width, p, k))| :: Lanes(c, p, k, Mask(c.width, p, k))[i]
  {
    hide BeatAddress, BeatEnd, LaneEnabled;
    LanesFit(c, p, k);
    var lanes := Lanes(c, p, k, Mask(c.width, p, k));
    forall i | 0 <= i < |lanes| ensures lanes[i] {
      var lane := Lo(p, k) % c.width + i;
      assert BeatAddress(p, k) < TWO64;
      LaneMaskIsInterval(c.width, p, k, lane);
      assert AlignDown(BeatAddress(p, k), c.width) + lane == Lo(p, k) + i;
    }
  }

  lemma ServeAccess(c: Config, s: Fabric, reply: Reply)
    requires Base(c, s) && s.readRoutes != [] && AccessesOk(c, s.h.accesses)
    ensures AccessesOk(c, ServeRead(c, s, reply).h.accesses)
  {
    var f := s.readRoutes[0];
    assert ReadOk(c, f);
    RouteFacts(c, f.route);
    if f.route.forced.Okay? && !EmptyBeat(f.route.payload, f.beat) {
      BeatInWindow(c, f.route, f.beat);
      ReadLanesEnabled(c, f.route.payload, f.beat);
      assert AccessOk(c, ReadAccess(c, f.route, f.beat)[0]);
    }
  }

  lemma ReadStepAccess(c: Config, s: Fabric, reply: Reply)
    requires Base(c, s) && AccessesOk(c, s.h.accesses)
    ensures AccessesOk(c, ReadStep(c, s, reply).s.h.accesses)
  {
    if s.readRoutes != [] && |s.ports[s.readRoutes[0].route.port].r| != c.responseDepth {
      var f := s.readRoutes[0];
      if f.route.payload.lock && f.beat == 0 && f.route.forced.Okay? {
        var o := Establish(c, s, f.route);
        assert Base(c, o.s);
        if o.Done? { ServeAccess(c, o.s, reply); }
      } else {
        ServeAccess(c, s, reply);
      }
    }
  }

  lemma CycleAccess(c: Config, s: Fabric, x: Stimulus)
    requires Base(c, s) && StimulusOk(c, x) && AccessesOk(c, s.h.accesses)
    ensures AccessesOk(c, Cycle(c, s, x).s.h.accesses)
  {
    hide RoutesOk, FifosOk, WriteStep, ReadStep, Ingress, Arbitrate;
    DriveBase(c, s, x.reset, x.stalls);
    var d := Drive(c, s, x.reset, x.stalls);
    if !x.reset {
      IngressPortsOnly(c, Awake(c, d), x.inputs);
      var o1 := Ingress(c, Awake(c, d), x.inputs);
      if o1.Done? {
        ArbitrateUntouched(c, o1.s);
        var o2 := Arbitrate(c, o1.s);
        if o2.Done? {
          var s0 := Unsuppress(c, o2.s);
          WriteStepBase(c, s0, x.reply);
          WriteStepAccess(c, s0, x.reply);
          var o3 := WriteStep(c, s0, x.reply);
          if o3.Done? && !o3.s.suppressRead { ReadStepAccess(c, o3.s, x.reply); }
        }
      }
    }
  }

  /** In every run, every access is inside its window, except exactly the gathered
      exclusive writes that end at 2^64. */
  lemma {:induction false} AccessesStayInWindow(c: Config, mem: Mem, xs: seq<Stimulus>)
    requires ConfigOk(c) && MemOk(c, mem) && StimuliOk(c, xs)
    ensures Base(c, Init(c, mem)) && AccessesOk(c, Run(c, Init(c, mem), xs).s.h.accesses)
  {
    hide Cycle, RoutesOk;
    InitBase(c, mem);
    if xs != [] {
      AccessesStayInWindow(c, mem, xs[..|xs| - 1]);
      var o := Run(c, Init(c, mem), xs[..|xs| - 1]);
      if o.Done? { CycleAccess(c, o.s, xs[|xs| - 1]); }
    }
  }
}
