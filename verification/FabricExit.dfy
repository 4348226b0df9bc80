/** The exit code the simulator reports is the first one a master has taken. */
module FabricExit {
  import opened Axi
  import opened Fabric
  import opened FabricRun
  import opened FabricOrder
  import opened FabricErrors

  /** The exit code of the first response that has one. */
  function FirstExit(rs: seq<WriteResponse>): Option<nat> {
    if rs == [] then None else if rs[0].exit.Some? then rs[0].exit else FirstExit(rs[1..])
  }

  lemma {:induction false} FirstExitPush(rs: seq<WriteResponse>, r: WriteResponse)
    ensures FirstExit(rs + [r]) == if FirstExit(rs).Some? then FirstExit(rs) else r.exit
  {
    if rs == [] {
      assert ([] + [r])[1..] == [];
    } else {
      assert (rs + [r])[1..] == rs[1..] + [r];
      FirstExitPush(rs[1..], r);
    }
  }

  ghost predicate RetiredBy(logs: seq<PortLog>, r: WriteResponse) {
    exists p :: 0 <= p < |logs| && r in logs[p].b
  }

  /** The reported code, and the responses it is taken from: those of all ports. */
  ghost predicate ExitState(s: Fabric) {
    && s.exit == FirstExit(s.h.retired)
    && (forall r :: r in s.h.retired <==> RetiredBy(s.h.logs, r))
  }

  lemma RetireBExit(c: Config, s: Fabric, inputs: seq<Master>, p: nat)
    requires Sized(c, s) && |inputs| == c.ports && p < c.ports && ExitState(s) && Offered(s.ports[p], s.outputs[p])
    ensures ExitState(RetireB(c, s, inputs, p).s)
  {
    hide MemOk;
    var t := RetireB(c, s, inputs, p).s;
    if t.h.retired != s.h.retired {
      var r := s.ports[p].b[0];
      FirstExitPush(s.h.retired, r);
      assert t.h.logs[p].b == s.h.logs[p].b + [r];
      forall x ensures RetiredBy(t.h.logs, x) <==> RetiredBy(s.h.logs, x) || x == r {
        if q :| 0 <= q < |s.h.logs| && x in s.h.logs[q].b { assert x in t.h.logs[q].b; }
        if x == r { assert x in t.h.logs[p].b; }
      }
    }
  }

  /** Only ports and requests or read beats in the logs differ. */
  ghost predicate ExitSame(s: Fabric, t: Fabric) {
    && t.exit == s.exit && t.h.retired == s.h.retired && |t.h.logs| == |s.h.logs|
    && forall p | 0 <= p < |s.h.logs| :: t.h.logs[p].b == s.h.logs[p].b
  }

  lemma SameExit(s: Fabric, t: Fabric)
    requires ExitState(s) && ExitSame(s, t)
    ensures ExitState(t)
  {
    forall r ensures RetiredBy(t.h.logs, r) <==> RetiredBy(s.h.logs, r) {
      if p :| 0 <= p < |t.h.logs| && r in t.h.logs[p].b { assert r in s.h.logs[p].b; }
      if p :| 0 <= p < |s.h.logs| && r in s.h.logs[p].b { assert r in t.h.logs[p].b; }
    }
  }

  lemma {:induction false} RetireExit(c: Config, s: Fabric, inputs: seq<Master>, p: nat)
    requires Sized(c, s) && |inputs| == c.ports && p <= c.ports && ExitState(s) && OfferedFrom(c, s, p)
    ensures ExitState(Retire(c, s, inputs, p).s)
    decreases c.ports - p
  {
    hide ExitState, MemOk, RetireB, RetireR, Offered;
    if p < c.ports {
      RetireBExit(c, s, inputs, p);
      RetireBDriven(c, s, inputs, p);
      var o := RetireB(c, s, inputs, p);
      if o.Done? {
        RetireRExit(c, o.s, inputs, p);
        var o2 := RetireR(c, o.s, inputs, p);
        SameExit(o.s, o2.s);
        if o2.Done? { RetireExit(c, o2.s, inputs, p + 1); }
      }
    }
  }

  lemma RetireBDriven(c: Config, s: Fabric, inputs: seq<Master>, p: nat)
    requires Sized(c, s) && |inputs| == c.ports && p < c.ports && OfferedFrom(c, s, p)
    ensures OfferedFrom(c, RetireB(c, s, inputs, p).s, p + 1)
  {
    hide MemOk;
  }

  lemma RetireRExit(c: Config, s: Fabric, inputs: seq<Master>, p: nat)
    requires Sized(c, s) && |inputs| == c.ports && p < c.ports && OfferedFrom(c, s, p + 1)
    ensures ExitSame(s, RetireR(c, s, inputs, p).s) && OfferedFrom(c, RetireR(c, s, inputs, p).s, p + 1)
  {
    hide MemOk;
  }

  lemma {:induction false} AcceptExit(c: Config, s: Fabric, inputs: seq<Master>, p: nat)
    requires Sized(c, s) && |inputs| == c.ports && p <= c.ports
    ensures ExitSame(s, Accept(c, s, inputs, p).s)
    decreases c.ports - p
  {
    hide MemOk, AcceptAw, AcceptW, AcceptAr;
    if p < c.ports {
      AcceptAwExit(c, s, inputs, p);
      var o := AcceptAw(c, s, inputs, p);
      if o.Done? {
        AcceptWExit(c, o.s, inputs, p);
        var o2 := AcceptW(c, o.s, inputs, p);
        if o2.Done? {
          AcceptArExit(c, o2.s, inputs, p);
          var o3 := AcceptAr(c, o2.s, inputs, p);
          if o3.Done? { AcceptExit(c, o3.s, inputs, p + 1); }
        }
      }
    }
  }

  lemma AcceptAwExit(c: Config, s: Fabric, inputs: seq<Master>, p: nat)
    requires Sized(c, s) && |inputs| == c.ports && p < c.ports
    ensures ExitSame(s, AcceptAw(c, s, inputs, p).s)
  {
    hide MemOk;
  }

  lemma AcceptWExit(c: Config, s: Fabric, inputs: seq<Master>, p: nat)
    requires Sized(c, s) && |inputs| == c.ports && p < c.ports
    ensures ExitSame(s, AcceptW(c, s, inputs, p).s)
  {
    hide MemOk;
  }

  lemma AcceptArExit(c: Config, s: Fabric, inputs: seq<Master>, p: nat)
    requires Sized(c, s) && |inputs| == c.ports && p < c.ports
    ensures ExitSame(s, AcceptAr(c, s, inputs, p).s)
  {
    hide MemOk;
  }

  lemma IngressExit(c: Config, s: Fabric, inputs: seq<Master>)
    requires Base(c, s) && InputsOk(c, inputs) && ExitState(s) && OfferedFrom(c, s, 0)
    ensures ExitState(Ingress(c, s, inputs).s)
  {
    hide ExitState, MemOk, Retire, Accept, RoutesOk, FifosOk;
    CheckBase(c, s, inputs, 0);
    CheckAlike(c, s, inputs, 0);
    CheckPortsOnly(c, s, inputs, 0);
    var o1 := CheckStability(c, s, inputs, 0);
    CheckExit(c, s, inputs, 0);
    SameExit(s, o1.s);
    if o1.Done? {
      RetireBase(c, o1.s, inputs, 0);
      RetireExit(c, o1.s, inputs, 0);
      var o2 := Retire(c, o1.s, inputs, 0);
      if o2.Done? {
        AcceptExit(c, o2.s, inputs, 0);
        AcceptBase(c, o2.s, inputs, 0);
        SameExit(o2.s, Accept(c, o2.s, inputs, 0).s);
      }
    }
  }

  lemma {:induction false} CheckExit(c: Config, s: Fabric, inputs: seq<Master>, p: nat)
    requires Sized(c, s) && |inputs| == c.ports && p <= c.ports
    ensures var t := CheckStability(c, s, inputs, p).s; t.exit == s.exit && t.h == s.h && t.outputs == s.outputs
    decreases c.ports - p
  {
    if p < c.ports {
      var o := CheckPort(c, s, inputs, p);
      if o.Done? { CheckExit(c, o.s, inputs, p + 1); }
    }
  }

  /** Nothing the masters sent or took is logged anew. */
  ghost predicate MastersSame(s: Fabric, t: Fabric) {
    t.exit == s.exit && t.h.retired == s.h.retired && t.h.logs == s.h.logs
  }

  lemma ArbitrateExit(c: Config, s: Fabric)
    requires Base(c, s)
    ensures MastersSame(s, Arbitrate(c, s).s)
  {
    hide InitRoute, Pick, RoutesOk, FifosOk;
  }

  lemma WriteCommitExit(c: Config, s: Fabric, reply: Reply)
    requires Base(c, s) && s.writeRoutes != [] && s.writeRoutes[0].dataComplete
    ensures MastersSame(s, WriteCommit(c, s, reply))
  {
    hide RoutesOk, FifosOk, BeatEffect, BeatFront, ExclusiveEffect, ExclusiveAnswer, MemOk, InitRoute;
    FrontWriteOk(c, s);
    if s.writeRoutes[0].route.forced.Okay? && !s.writeRoutes[0].route.payload.lock { CommittingFacts(c, s); }
  }

  lemma WriteStepExit(c: Config, s: Fabric, reply: Reply)
    requires Base(c, s)
    ensures MastersSame(s, WriteStep(c, s, reply).s)
  {
    hide RoutesOk, FifosOk, WriteCommit, StrobesLegal, MemOk;
    if s.writeRoutes != [] {
      FrontWriteOk(c, s);
      var f := s.writeRoutes[0];
      if f.dataComplete {
        WriteCommitExit(c, s, reply);
      } else if s.ports[f.route.port].w != [] {
        StageBase(c, s);
        if StageBeat(c, s).writeRoutes[0].dataComplete { WriteCommitExit(c, StageBeat(c, s), reply); }
      }
    }
  }

  lemma ReadStepExit(c: Config, s: Fabric, reply: Reply)
    requires Base(c, s)
    ensures MastersSame(s, ReadStep(c, s, reply).s)
  {
    hide RoutesOk, FifosOk, MemOk, ServedBeat, ReadAccess, ConfigOk;
    if s.readRoutes != [] { FrontReadOk(c, s); }
  }

  lemma ProcessExit(c: Config, s: Fabric, reply: Reply)
    requires Base(c, s)
    ensures MastersSame(s, Process(c, s, reply).s)
  {
    hide RoutesOk, FifosOk, WriteStep, ReadStep, MemOk;
    var s0 := Unsuppress(c, s);
    WriteStepBase(c, s0, reply);
    WriteStepExit(c, s0, reply);
    var o := WriteStep(c, s0, reply);
    if o.Done? && !o.s.suppressRead { ReadStepExit(c, o.s, reply); }
  }

  lemma FreshExit(c: Config, s: Fabric)
    requires s.exit == None && s.h == FreshHistory(c, s.mem)
    ensures ExitState(s)
  {}

  lemma CycleExit(c: Config, s: Fabric, x: Stimulus)
    requires Base(c, s) && StimulusOk(c, x) && ExitState(s)
    ensures ExitState(Cycle(c, s, x).s)
  {
    hide ExitState, Ingress, Arbitrate, Process, RoutesOk, FifosOk, OfferedFrom, RoomFrom;
    DriveBase(c, s, x.reset, x.stalls);
    DriveOffers(c, s, x.reset, x.stalls);
    var d := Drive(c, s, x.reset, x.stalls);
    SameExit(s, d);
    if x.reset {
      if d.wasReset { SameExit(d, ResetCycle(c, d)); } else { FreshExit(c, ResetCycle(c, d)); }
    } else {
      var s1 := Awake(c, d);
      SameExit(d, s1);
      assert OfferedFrom(c, s1, 0) by { AwakeOffers(c, d); }
      IngressExit(c, s1, x.inputs);
      var o1 := Ingress(c, s1, x.inputs);
      if o1.Done? {
        ArbitrateExit(c, o1.s);
        var o2 := Arbitrate(c, o1.s);
        SameExit(o1.s, o2.s);
        if o2.Done? {
          ProcessExit(c, o2.s, x.reply);
          var o3 := Process(c, o2.s, x.reply);
          SameExit(o2.s, o3.s);
          if o3.Done? { SameExit(o3.s, Tick(c, o3.s)); }
        }
      }
    }
  }

  lemma AwakeOffers(c: Config, s: Fabric)
    requires Base(c, s) && OfferedFrom(c, s, 0)
    ensures OfferedFrom(c, Awake(c, s), 0)
  {}

  /** In every run the reported exit code is that of the first response with one that
      a master has taken since reset. */
  lemma {:induction false} ExitIsFirst(c: Config, mem: Mem, xs: seq<Stimulus>)
    requires ConfigOk(c) && MemOk(c, mem) && StimuliOk(c, xs)
    ensures Base(c, Init(c, mem)) && ExitState(Run(c, Init(c, mem), xs).s)
  {
    hide ExitState, Cycle, RoutesOk, FifosOk;
    InitBase(c, mem);
    if xs == [] {
      FreshExit(c, Init(c, mem));
    } else {
      ExitIsFirst(c, mem, xs[..|xs| - 1]);
      var o := Run(c, Init(c, mem), xs[..|xs| - 1]);
      if o.Done? { CycleExit(c, o.s, xs[|xs| - 1]); }
    }
  }
}
