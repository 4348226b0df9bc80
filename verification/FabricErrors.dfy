/** A cycle that ends in an error has not touched any device. */
module FabricErrors {
  import opened Fabric
  import opened FabricRun

  /** t differs from s only in ports, their logs and the exit flag. */
  ghost predicate PortsOnly(s: Fabric, t: Fabric) {
    t == s.(ports := t.ports, exit := t.exit, h := s.h.(logs := t.h.logs, retired := t.h.retired))
  }

  lemma CheckPortsOnly(c: Config, s: Fabric, inputs: seq<Master>, p: nat)
    requires Sized(c, s) && |inputs| == c.ports && p <= c.ports
    ensures PortsOnly(s, CheckStability(c, s, inputs, p).s)
    decreases c.ports - p
  {
    if p < c.ports {
      var o := CheckPort(c, s, inputs, p);
      if o.Done? { CheckPortsOnly(c, o.s, inputs, p + 1); }
    }
  }

  lemma RetirePortsOnly(c: Config, s: Fabric, inputs: seq<Master>, p: nat)
    requires Sized(c, s) && |inputs| == c.ports && p <= c.ports
    ensures PortsOnly(s, Retire(c, s, inputs, p).s)
    decreases c.ports - p
  {
    if p < c.ports {
      var o := RetireB(c, s, inputs, p);
      assert PortsOnly(s, o.s);
      if o.Done? {
        var o2 := RetireR(c, o.s, inputs, p);
        assert PortsOnly(o.s, o2.s);
        if o2.Done? { RetirePortsOnly(c, o2.s, inputs, p + 1); }
      }
    }
  }

  lemma AcceptAwPortsOnly(c: Config, s: Fabric, inputs: seq<Master>, p: nat)
    requires Sized(c, s) && |inputs| == c.ports && p < c.ports
    ensures PortsOnly(s, AcceptAw(c, s, inputs, p).s)
  {}

  lemma AcceptWPortsOnly(c: Config, s: Fabric, inputs: seq<Master>, p: nat)
    requires Sized(c, s) && |inputs| == c.ports && p < c.ports
    ensures PortsOnly(s, AcceptW(c, s, inputs, p).s)
  {}

  lemma AcceptArPortsOnly(c: Config, s: Fabric, inputs: seq<Master>, p: nat)
    requires Sized(c, s) && |inputs| == c.ports && p < c.ports
    ensures PortsOnly(s, AcceptAr(c, s, inputs, p).s)
  {}

  lemma AcceptPortsOnly(c: Config, s: Fabric, inputs: seq<Master>, p: nat)
    requires Sized(c, s) && |inputs| == c.ports && p <= c.ports
    ensures PortsOnly(s, Accept(c, s, inputs, p).s)
    decreases c.ports - p
  {
    if p < c.ports {
      hide Sized, AcceptAw, AcceptW, AcceptAr;
      AcceptAwPortsOnly(c, s, inputs, p);
      var o := AcceptAw(c, s, inputs, p);
      if o.Done? {
        AcceptWPortsOnly(c, o.s, inputs, p);
        var o2 := AcceptW(c, o.s, inputs, p);
        if o2.Done? {
          AcceptArPortsOnly(c, o2.s, inputs, p);
          var o3 := AcceptAr(c, o2.s, inputs, p);
          if o3.Done? { AcceptPortsOnly(c, o3.s, inputs, p + 1); }
        }
      }
    }
  }

  lemma IngressPortsOnly(c: Config, s: Fabric, inputs: seq<Master>)
    requires Base(c, s) && InputsOk(c, inputs)
    ensures PortsOnly(s, Ingress(c, s, inputs).s)
  {
    CheckBase(c, s, inputs, 0);
    CheckPortsOnly(c, s, inputs, 0);
    var o1 := CheckStability(c, s, inputs, 0);
    if o1.Done? {
      RetireBase(c, o1.s, inputs, 0);
      RetirePortsOnly(c, o1.s, inputs, 0);
      var o2 := Retire(c, o1.s, inputs, 0);
      if o2.Done? { AcceptPortsOnly(c, o2.s, inputs, 0); }
    }
  }

  /** No device access, no change of memory, no change of reservations by stores. */
  ghost predicate Untouched(s: Fabric, t: Fabric) {
    t.mem == s.mem && t.h.accesses == s.h.accesses && t.monitors == s.monitors && t.h.events == s.h.events
  }

  lemma ArbitrateUntouched(c: Config, s: Fabric)
    requires Base(c, s)
    ensures Untouched(s, Arbitrate(c, s).s)
  {}

  /** A write phase that does not suppress the read has not used a device. */
  lemma WriteStepQuiet(c: Config, s: Fabric, reply: Reply)
    requires Base(c, s) && !s.suppressRead
    ensures WriteStep(c, s, reply).Failed? || !WriteStep(c, s, reply).s.suppressRead ==>
              Untouched(s, WriteStep(c, s, reply).s)
  {
    hide RoutesOk, FifosOk, MemOk, StrobesLegal, WriteCommit, ConfigOk;
    if s.writeRoutes != [] {
      FrontWriteOk(c, s);
      if !s.writeRoutes[0].dataComplete && s.ports[s.writeRoutes[0].route.port].w != [] {
        StageBase(c, s);
        if StageBeat(c, s).writeRoutes[0].dataComplete { WriteCommitQuiet(c, StageBeat(c, s), reply); }
      } else if s.writeRoutes[0].dataComplete {
        WriteCommitQuiet(c, s, reply);
      }
    }
  }

  lemma WriteCommitQuiet(c: Config, s: Fabric, reply: Reply)
    requires Base(c, s) && s.writeRoutes != [] && s.writeRoutes[0].dataComplete && !s.suppressRead
    ensures !WriteCommit(c, s, reply).suppressRead ==> Untouched(s, WriteCommit(c, s, reply))
  {
    hide RoutesOk, FifosOk, MemOk, BeatEffect, BeatFront, ExclusiveEffect, ExclusiveAnswer, InitRoute, ConfigOk;
    FrontWriteOk(c, s);
    if s.writeRoutes[0].route.forced.Okay? && !s.writeRoutes[0].route.payload.lock { CommittingFacts(c, s); }
  }

  lemma ReadStepFailure(c: Config, s: Fabric, reply: Reply)
    requires Base(c, s)
    ensures ReadStep(c, s, reply).Failed? ==> ReadStep(c, s, reply).s == s
  {}

  lemma ProcessFailure(c: Config, s: Fabric, reply: Reply)
    requires Base(c, s)
    ensures Process(c, s, reply).Failed? ==> Untouched(s, Process(c, s, reply).s)
  {
    var s0 := Unsuppress(c, s);
    WriteStepBase(c, s0, reply);
    WriteStepQuiet(c, s0, reply);
    var o := WriteStep(c, s0, reply);
    if o.Done? && !o.s.suppressRead { ReadStepFailure(c, o.s, reply); }
  }

  /** Whatever the error and wherever in the cycle it is raised, the cycle read no
      device, wrote no device and left every byte and reservation as it was. */
  lemma ErrorAtomicity(c: Config, s: Fabric, x: Stimulus)
    requires Base(c, s) && StimulusOk(c, x)
    ensures Cycle(c, s, x).Failed? ==> Untouched(s, Cycle(c, s, x).s)
  {
    DriveBase(c, s, x.reset, x.stalls);
    var d := Drive(c, s, x.reset, x.stalls);
    if !x.reset {
      IngressPortsOnly(c, Awake(c, d), x.inputs);
      var o1 := Ingress(c, Awake(c, d), x.inputs);
      if o1.Done? {
        ArbitrateUntouched(c, o1.s);
        var o2 := Arbitrate(c, o1.s);
        if o2.Done? { ProcessFailure(c, o2.s, x.reply); }
      }
    }
  }
}
