/** Read beats are served from the latest completed writes, and every write is answered truthfully. */
module FabricCurrent {
  import opened Axi
  import opened Fabric
  import opened FabricRun
  import opened FabricOrder
  import opened FabricErrors
  import opened FabricAtomic

  /** t continues the reads and writes of s; a new read beat counts every write completed by t. */
  ghost predicate Continues(s: Fabric, t: Fabric) {
    && s.h.done <= t.h.done && s.h.served <= t.h.served && |t.h.served| <= |s.h.served| + 1
    && (|t.h.served| > |s.h.served| ==> t.h.served[|s.h.served|].after == |t.h.done|)
  }

  ghost predicate SameProgress(s: Fabric, t: Fabric) {
    t.h.done == s.h.done && t.h.served == s.h.served
  }

  lemma ArbitrateKeeps(c: Config, s: Fabric)
    requires Base(c, s)
    ensures SameProgress(s, Arbitrate(c, s).s)
  {
    hide InitRoute, Pick, RoutesOk, FifosOk;
  }

  lemma ReadStepContinues(c: Config, s: Fabric, reply: Reply)
    requires Base(c, s)
    ensures Continues(s, ReadStep(c, s, reply).s) && ReadStep(c, s, reply).s.h.done == s.h.done
  {
    hide RoutesOk, FifosOk, ServedBeat, ReadAccess;
    if s.readRoutes != [] {
      assert ReadOk(c, s.readRoutes[0]) by { FrontReadOk(c, s); }
    }
  }

  lemma ProcessContinues(c: Config, s: Fabric, reply: Reply)
    requires Base(c, s)
    ensures Continues(s, Process(c, s, reply).s)
  {
    hide WriteStep, ReadStep, RoutesOk, FifosOk;
    var s0 := Unsuppress(c, s);
    WriteStepBase(c, s0, reply);
    WriteStepExtends(c, s0, reply);
    ReadStepContinues(c, WriteStep(c, s0, reply).s, reply);
  }

  /** In every cycle a read beat is served only after all writes completed so far, none older. */
  lemma ReadsAreCurrent(c: Config, s: Fabric, x: Stimulus)
    requires Base(c, s) && StimulusOk(c, x) && !x.reset && Cycle(c, s, x).Done?
    ensures Continues(s, Cycle(c, s, x).s)
  {
    hide Ingress, Arbitrate, Process, RoutesOk, FifosOk;
    DriveBase(c, s, x.reset, x.stalls);
    var s1 := Awake(c, Drive(c, s, x.reset, x.stalls));
    IngressPortsOnly(c, s1, x.inputs);
    var o1 := Ingress(c, s1, x.inputs);
    ArbitrateKeeps(c, o1.s);
    var o2 := Arbitrate(c, o1.s);
    ProcessContinues(c, o2.s, x.reply);
  }

  /**
    The answer of every completed write: a write that cannot be routed gets its
    forced response, and a plain write to RAM or ROM gets OKAY if and only if
    the device takes every beat, SLVERR otherwise.
   */
  lemma WriteAnswers(c: Config, mem: Mem, xs: seq<Stimulus>, i: nat)
    requires ConfigOk(c) && MemOk(c, mem) && StimuliOk(c, xs)
    requires Base(c, Init(c, mem)) && i < |Run(c, Init(c, mem), xs).s.h.done|
    ensures var h := Run(c, Init(c, mem), xs).s.h;
            && i < |h.wgrants| && RouteOk(c, h.wgrants[i])
            && var r, answer := h.wgrants[i], h.done[i].response;
               && answer.id == r.payload.id
               && (!r.forced.Okay? ==> answer.response == r.forced)
               && (r.forced.Okay? ==> Mapped(c, r))
               && (r.forced.Okay? && !r.payload.lock && !DeviceOf(c, r).Peripheral? ==>
                     answer.response == if forall k | 0 <= k < Beats(r.payload) :: BeatFits(c, r, k) then Okay
                                        else SlaveError)
               && (r.forced.Okay? && r.payload.lock && !DeviceOf(c, r).Peripheral? ==> !answer.response.DecodeError?)
  {
    hide Cycle, Base, Replay, ReadsWhole;
    RunAtomic(c, mem, xs);
    RunOrder(c, mem, xs);
    var s := Run(c, Init(c, mem), xs).s;
    assert ResponseOk(c, s.h.wgrants[i], s.h.done[i]);
    RouteFacts(c, s.h.wgrants[i]);
  }

  // ---- a burst once begun ----------------------------------------------------------------------

  /** t is s after the oldest write committed one more beat, or its last one. */
  ghost predicate Advances(s: Fabric, t: Fabric)
    requires s.writeRoutes != []
  {
    var f := s.writeRoutes[0];
    if t.h.done == s.h.done then
      t.writeRoutes != [] && t.writeRoutes[0].route == f.route && t.writeRoutes[0].staged == f.staged &&
      t.writeRoutes[0].commitBeat == f.commitBeat + 1
    else
      |t.h.done| == |s.h.done| + 1 && t.h.done[..|s.h.done|] == s.h.done && t.h.done[|s.h.done|].staged == f.staged
  }

  lemma CommitAdvances(c: Config, s: Fabric, reply: Reply)
    requires Base(c, s) && s.writeRoutes != [] && s.writeRoutes[0].commitBeat > 0
    requires s.writeRoutes[0].route.port < c.ports && |s.ports[s.writeRoutes[0].route.port].b| < c.responseDepth
    ensures var t := Process(c, s, reply).s;
            t.suppressRead && t.h.served == s.h.served && t.h.wgrants == s.h.wgrants && Advances(s, t)
  {
    hide RoutesOk, FifosOk, StoreAt, Lanes, Touched, Invalidate, DeviceAnswer, ReadStep;
    var s0 := Unsuppress(c, s);
    FrontWriteOk(c, s0);
    CommittingFacts(c, s0);
  }

  lemma ArbitrateFront(c: Config, s: Fabric)
    requires Base(c, s) && s.writeRoutes != []
    ensures var t := Arbitrate(c, s).s;
            && t.writeRoutes != [] && t.writeRoutes[0] == s.writeRoutes[0]
            && t.h.done == s.h.done && t.h.served == s.h.served && s.h.wgrants <= t.h.wgrants
  {
    hide InitRoute, Pick, RoutesOk, FifosOk, ConfigOk;
  }

  /**
    Once a burst has committed a beat nothing comes between its beats: whatever
    the masters do, every following cycle commits the next beat or completes the
    write, and serves no read.
   */
  lemma BurstContinues(c: Config, mem: Mem, xs: seq<Stimulus>, y: Stimulus)
    requires ConfigOk(c) && MemOk(c, mem) && StimuliOk(c, xs) && StimulusOk(c, y) && !y.reset
    requires Base(c, Init(c, mem)) && Run(c, Init(c, mem), xs).Done?
    requires var s := Run(c, Init(c, mem), xs).s; s.writeRoutes != [] && s.writeRoutes[0].commitBeat > 0
    requires Cycle(c, Run(c, Init(c, mem), xs).s, y).Done?
    ensures var s := Run(c, Init(c, mem), xs).s;
            var t := Cycle(c, s, y).s;
            t.suppressRead && t.h.served == s.h.served && Advances(s, t)
  {
    hide Ingress, Arbitrate, Process, RoutesOk, FifosOk, Committed, ReadsWhole, DoneOk;
    RunAtomic(c, mem, xs);
    var s := Run(c, Init(c, mem), xs).s;
    DriveBase(c, s, y.reset, y.stalls);
    var d := Drive(c, s, y.reset, y.stalls);
    SameAtomicState(c, s, d);
    var s1 := Awake(c, d);
    SameAtomicState(c, d, s1);
    IngressAtomic(c, s1, y.inputs);
    IngressPortsOnly(c, s1, y.inputs);
    var o1 := Ingress(c, s1, y.inputs);
    ArbitrateAtomic(c, o1.s);
    ArbitrateFront(c, o1.s);
    var o2 := Arbitrate(c, o1.s);
    CommitAdvances(c, o2.s, y.reply);
  }
}
