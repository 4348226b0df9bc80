/** VALID/READY stability in both directions. */
module FabricStable {
  import opened Fabric
  import opened FabricRun
  import opened FabricOrder
  import opened FabricPhases

  // ---- the stability check itself -----------------------------------------------------------------

  ghost predicate PortBroken(port: Port, input: Master) {
    Broken(port.awWatch, input.aw) || Broken(port.wWatch, input.w) || Broken(port.arWatch, input.ar)
  }

  ghost predicate Watching(port: Port, input: Master, out: Slave) {
    && port.awWatch == NextWatch(input.aw, out.awReady)
    && port.wWatch == NextWatch(input.w, out.wReady)
    && port.arWatch == NextWatch(input.ar, out.arReady)
  }

  lemma CheckPortResult(c: Config, s: Fabric, inputs: seq<Master>, p: nat)
    requires Sized(c, s) && |inputs| == c.ports && p < c.ports
    ensures CheckPort(c, s, inputs, p).Failed? <==> PortBroken(s.ports[p], inputs[p])
    ensures var t := CheckPort(c, s, inputs, p).s;
            t.outputs == s.outputs && forall q | 0 <= q < c.ports && q != p :: t.ports[q] == s.ports[q]
    ensures CheckPort(c, s, inputs, p).Done? ==>
            Watching(CheckPort(c, s, inputs, p).s.ports[p], inputs[p], s.outputs[p])
  {}

  /** The check fails exactly if some port broke a watch; else all watches restart. */
  lemma CheckResult(c: Config, s: Fabric, inputs: seq<Master>, p: nat)
    requires Sized(c, s) && |inputs| == c.ports && p <= c.ports
    ensures CheckStability(c, s, inputs, p).Failed? <==>
            exists q :: p <= q < c.ports && PortBroken(s.ports[q], inputs[q])
    ensures CheckStability(c, s, inputs, p).Done? ==>
              forall q | p <= q < c.ports ::
                Watching(CheckStability(c, s, inputs, p).s.ports[q], inputs[q], s.outputs[q])
    ensures forall q | 0 <= q < p :: CheckStability(c, s, inputs, p).s.ports[q] == s.ports[q]
    decreases c.ports - p
  {
    if p < c.ports {
      CheckPortResult(c, s, inputs, p);
      var o := CheckPort(c, s, inputs, p);
      if o.Done? {
        CheckResult(c, o.s, inputs, p + 1);
        if q :| p <= q < c.ports && PortBroken(s.ports[q], inputs[q]) {
          assert p + 1 <= q && PortBroken(o.s.ports[q], inputs[q]);
        }
      }
    }
  }

  // ---- one cycle --------------------------------------------------------------------------------------

  /** Watches restarted, untaken responses kept. */
  ghost predicate Carried(a: Port, b: Port, input: Master, out: Slave) {
    && Watching(b, input, out)
    && (!input.bReady ==> a.b <= b.b) && (!input.rReady ==> a.r <= b.r)
  }

  lemma CommitAtPort(c: Config, s: Fabric, inputs: seq<Master>, reply: Reply, q: nat)
    requires Base(c, s) && InputsOk(c, inputs) && q < c.ports && Commit(c, s, inputs, false, reply).Done?
    ensures Carried(s.ports[q], Commit(c, s, inputs, false, reply).s.ports[q], inputs[q], s.outputs[q])
  {
    hide RoutesOk, Process, CheckStability, CheckPort, WriteStep, ReadStep, GrantRead, GrantWrite;
    var s0 := Awake(c, s);
    CheckResult(c, s0, inputs, 0);
    IngressAt(c, s0, inputs, q);
    var s3 := Ingress(c, s0, inputs).s;
    assert Carried(s.ports[q], s3.ports[q], inputs[q], s.outputs[q]);
    ArbitrateAt(c, s3, q);
    ProcessAt(c, Arbitrate(c, s3).s, reply, q);
  }

  /** What a successful cycle leaves at port q. */
  lemma CycleAtPort(c: Config, s: Fabric, x: Stimulus, q: nat)
    requires Base(c, s) && StimulusOk(c, x) && !x.reset && q < c.ports && Cycle(c, s, x).Done?
    ensures Carried(s.ports[q], Cycle(c, s, x).s.ports[q], x.inputs[q], Drive(c, s, false, x.stalls).outputs[q])
  {
    DriveBase(c, s, false, x.stalls);
    CommitAtPort(c, Drive(c, s, false, x.stalls), x.inputs, x.reply, q);
  }

  /** Fabric side: a B or R offered and not taken is offered again, unchanged. */
  lemma ResponsesStable(c: Config, s: Fabric, x: Stimulus, stalls: seq<Stall>, q: nat)
    requires Base(c, s) && StimulusOk(c, x) && !x.reset && q < c.ports && Cycle(c, s, x).Done?
    requires |stalls| == c.ports
    ensures var now := Drive(c, s, false, x.stalls).outputs[q];
            var next := Drive(c, Cycle(c, s, x).s, false, stalls).outputs[q];
            && (now.b.Some? && !x.inputs[q].bReady ==> next.b == now.b)
            && (now.r.Some? && !x.inputs[q].rReady ==> next.r == now.r)
  {
    CycleAtPort(c, s, x, q);
  }

  /** Master side: a request or W beat stalled in cycle x and not repeated in y. */
  ghost predicate Withdrawn(c: Config, s: Fabric, x: Stimulus, y: Stimulus, q: nat)
    requires Base(c, s) && StimulusOk(c, x) && StimulusOk(c, y) && q < c.ports
  {
    var out := Drive(c, s, false, x.stalls).outputs[q];
    || (x.inputs[q].aw.Some? && !out.awReady && y.inputs[q].aw != x.inputs[q].aw)
    || (x.inputs[q].w.Some? && !out.wReady && y.inputs[q].w != x.inputs[q].w)
    || (x.inputs[q].ar.Some? && !out.arReady && y.inputs[q].ar != x.inputs[q].ar)
  }

  lemma WithdrawnIsBroken(c: Config, s: Fabric, x: Stimulus, y: Stimulus, q: nat)
    requires Base(c, s) && StimulusOk(c, x) && StimulusOk(c, y) && !x.reset && Cycle(c, s, x).Done? && q < c.ports
    ensures PortBroken(Cycle(c, s, x).s.ports[q], y.inputs[q]) <==> Withdrawn(c, s, x, y, q)
  {
    CycleAtPort(c, s, x, q);
  }

  ghost predicate SomeWithdrawn(c: Config, s: Fabric, x: Stimulus, y: Stimulus)
    requires Base(c, s) && StimulusOk(c, x) && StimulusOk(c, y)
  {
    exists q: nat :: q < c.ports && Withdrawn(c, s, x, y, q)
  }

  lemma SomeBroken(c: Config, s: Fabric, x: Stimulus, y: Stimulus)
    requires Base(c, s) && StimulusOk(c, x) && StimulusOk(c, y) && !x.reset && Cycle(c, s, x).Done?
    ensures SomeWithdrawn(c, s, x, y) <==>
            exists q :: 0 <= q < c.ports && PortBroken(Cycle(c, s, x).s.ports[q], y.inputs[q])
  {
    var t := Cycle(c, s, x).s;
    if q :| 0 <= q < c.ports && PortBroken(t.ports[q], y.inputs[q]) { WithdrawnIsBroken(c, s, x, y, q); }
    if q: nat :| q < c.ports && Withdrawn(c, s, x, y, q) { WithdrawnIsBroken(c, s, x, y, q); }
  }

  /** Over two consecutive cycles, the second one reports instability exactly if a
      master dropped VALID or changed its payload while it was stalled. */
  lemma WatchesExact(c: Config, s: Fabric, x: Stimulus, y: Stimulus)
    requires Base(c, s) && StimulusOk(c, x) && StimulusOk(c, y) && !x.reset && !y.reset && Cycle(c, s, x).Done?
    ensures var o := Cycle(c, Cycle(c, s, x).s, y);
            (o.Failed? && o.error.Unstable?) <==> SomeWithdrawn(c, s, x, y)
  {
    UnstableExact(c, Cycle(c, s, x).s, y);
    SomeBroken(c, s, x, y);
  }

  /** Only the watches raise instability, and they do so before anything else. */
  lemma UnstableExact(c: Config, s: Fabric, y: Stimulus)
    requires Base(c, s) && StimulusOk(c, y) && !y.reset
    ensures var o := Cycle(c, s, y);
            (o.Failed? && o.error.Unstable?) <==> exists q :: 0 <= q < c.ports && PortBroken(s.ports[q], y.inputs[q])
  {
    DriveBase(c, s, false, y.stalls);
    var d := Awake(c, Drive(c, s, false, y.stalls));
    CheckBase(c, d, y.inputs, 0);
    CheckResult(c, d, y.inputs, 0);
    CheckAlike(c, d, y.inputs, 0);
    var o1 := CheckStability(c, d, y.inputs, 0);
    if o1.Done? {
      RetireBase(c, o1.s, y.inputs, 0);
      RetireErrors(c, o1.s, y.inputs, 0);
      var o2 := Retire(c, o1.s, y.inputs, 0);
      if o2.Done? {
        AcceptBase(c, o2.s, y.inputs, 0);
        AcceptErrors(c, o2.s, y.inputs, 0);
        var o3 := Accept(c, o2.s, y.inputs, 0);
        if o3.Done? {
          LaterErrors(c, o3.s, y.reply);
        }
      }
    }
  }

  lemma RetireErrors(c: Config, s: Fabric, inputs: seq<Master>, p: nat)
    requires Sized(c, s) && |inputs| == c.ports && p <= c.ports
    ensures Retire(c, s, inputs, p).Failed? ==> Retire(c, s, inputs, p).error.QueueEmpty?
    decreases c.ports - p
  {
    if p < c.ports {
      var o := RetireB(c, s, inputs, p);
      if o.Done? && RetireR(c, o.s, inputs, p).Done? { RetireErrors(c, RetireR(c, o.s, inputs, p).s, inputs, p + 1); }
    }
  }

  lemma AcceptErrors(c: Config, s: Fabric, inputs: seq<Master>, p: nat)
    requires Sized(c, s) && |inputs| == c.ports && p <= c.ports
    ensures Accept(c, s, inputs, p).Failed? ==> Accept(c, s, inputs, p).error.FifoOverflow?
    decreases c.ports - p
  {
    if p < c.ports {
      var o := AcceptAw(c, s, inputs, p);
      if o.Done? {
        var o2 := AcceptW(c, o.s, inputs, p);
        if o2.Done? && AcceptAr(c, o2.s, inputs, p).Done? {
          AcceptErrors(c, AcceptAr(c, o2.s, inputs, p).s, inputs, p + 1);
        }
      }
    }
  }

  lemma LaterErrors(c: Config, s: Fabric, reply: Reply)
    requires Base(c, s)
    ensures Arbitrate(c, s).Failed? ==> !Arbitrate(c, s).error.Unstable?
    ensures Arbitrate(c, s).Done? && Process(c, Arbitrate(c, s).s, reply).Failed? ==>
              !Process(c, Arbitrate(c, s).s, reply).error.Unstable?
  {
    if Arbitrate(c, s).Done? { ProcessNotUnstable(c, Arbitrate(c, s).s, reply); }
  }

  lemma ProcessNotUnstable(c: Config, s: Fabric, reply: Reply)
    requires Base(c, s)
    ensures Process(c, s, reply).Failed? ==> !Process(c, s, reply).error.Unstable?
  {
    WriteStepBase(c, Unsuppress(c, s), reply);
  }
}
