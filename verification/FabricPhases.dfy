/** What each phase of a cycle can do to one port, and to the arbiter. */
module FabricPhases {
  import opened Axi
  import opened Fabric
  import opened FabricRun
  import opened FabricOrder

  // ---- phase 2 ---------------------------------------------------------------------------------

  /** Responses leave only from the front and only if the master is ready. */
  ghost predicate RetiredPort(a: Port, b: Port, out: Slave, input: Master) {
    && b == a.(b := b.b, r := b.r)
    && b.b == (if out.b.Some? && input.bReady && a.b != [] then a.b[1..] else a.b)
    && b.r == (if out.r.Some? && input.rReady && a.r != [] then a.r[1..] else a.r)
  }

  lemma RetirePortAt(c: Config, s: Fabric, inputs: seq<Master>, p: nat, q: nat)
    requires Sized(c, s) && |inputs| == c.ports && p < c.ports && q < c.ports
    requires RetireB(c, s, inputs, p).Done? && RetireR(c, RetireB(c, s, inputs, p).s, inputs, p).Done?
    ensures var t := RetireR(c, RetireB(c, s, inputs, p).s, inputs, p).s;
            && t.outputs == s.outputs
            && (if q == p then RetiredPort(s.ports[q], t.ports[q], s.outputs[q], inputs[q])
                else t.ports[q] == s.ports[q])
  {
    hide MemOk, RetireB, RetireR;
    RetireBAt(c, s, inputs, p, q);
    RetireRAt(c, RetireB(c, s, inputs, p).s, inputs, p, q);
  }

  lemma RetireBAt(c: Config, s: Fabric, inputs: seq<Master>, p: nat, q: nat)
    requires Sized(c, s) && |inputs| == c.ports && p < c.ports && q < c.ports && RetireB(c, s, inputs, p).Done?
    ensures var t, a, out := RetireB(c, s, inputs, p).s, s.ports[q], s.outputs[q];
            && t.outputs == s.outputs
            && t.ports[q] == if q == p && out.b.Some? && inputs[q].bReady && a.b != [] then a.(b := a.b[1..]) else a
  {
    hide MemOk;
  }

  lemma RetireRAt(c: Config, s: Fabric, inputs: seq<Master>, p: nat, q: nat)
    requires Sized(c, s) && |inputs| == c.ports && p < c.ports && q < c.ports && RetireR(c, s, inputs, p).Done?
    ensures var t, a, out := RetireR(c, s, inputs, p).s, s.ports[q], s.outputs[q];
            && t.outputs == s.outputs
            && t.ports[q] == if q == p && out.r.Some? && inputs[q].rReady && a.r != [] then a.(r := a.r[1..]) else a
  {
    hide MemOk;
  }

  lemma RetireAt(c: Config, s: Fabric, inputs: seq<Master>, p: nat, q: nat)
    requires Sized(c, s) && |inputs| == c.ports && p <= c.ports && q < c.ports && Retire(c, s, inputs, p).Done?
    ensures var t := Retire(c, s, inputs, p).s;
            && t.outputs == s.outputs
            && (if q >= p then RetiredPort(s.ports[q], t.ports[q], s.outputs[q], inputs[q])
                else t.ports[q] == s.ports[q])
    decreases c.ports - p
  {
    hide Sized;
    if p < c.ports {
      RetirePortAt(c, s, inputs, p, q);
      RetireAt(c, RetireR(c, RetireB(c, s, inputs, p).s, inputs, p).s, inputs, p + 1, q);
    }
  }

  // ---- phase 3 ---------------------------------------------------------------------------------

  function Taken<T>(offered: Option<T>, ready: bool): seq<T> {
    if offered.Some? && ready then [offered.value] else []
  }

  /** What a port offered and saw accepted is appended to its queues. */
  ghost predicate AcceptedPort(a: Port, b: Port, out: Slave, input: Master) {
    b == a.(aw := a.aw + Taken(input.aw, out.awReady), w := a.w + Taken(input.w, out.wReady),
            ar := a.ar + Taken(input.ar, out.arReady))
  }

  lemma AcceptAwAt(c: Config, s: Fabric, inputs: seq<Master>, p: nat, q: nat)
    requires Sized(c, s) && |inputs| == c.ports && p < c.ports && q < c.ports && AcceptAw(c, s, inputs, p).Done?
    ensures var t := AcceptAw(c, s, inputs, p).s;
            && t.outputs == s.outputs
            && t.ports[q] ==
                 if q == p then s.ports[q].(aw := s.ports[q].aw + Taken(inputs[q].aw, s.outputs[q].awReady))
                 else s.ports[q]
  {}

  lemma AcceptWAt(c: Config, s: Fabric, inputs: seq<Master>, p: nat, q: nat)
    requires Sized(c, s) && |inputs| == c.ports && p < c.ports && q < c.ports && AcceptW(c, s, inputs, p).Done?
    ensures var t := AcceptW(c, s, inputs, p).s;
            && t.outputs == s.outputs
            && t.ports[q] == (if q == p then s.ports[q].(w := s.ports[q].w + Taken(inputs[q].w, s.outputs[q].wReady))
                              else s.ports[q])
  {}

  lemma AcceptArAt(c: Config, s: Fabric, inputs: seq<Master>, p: nat, q: nat)
    requires Sized(c, s) && |inputs| == c.ports && p < c.ports && q < c.ports && AcceptAr(c, s, inputs, p).Done?
    ensures var t := AcceptAr(c, s, inputs, p).s;
            && t.outputs == s.outputs
            && t.ports[q] ==
                 if q == p then s.ports[q].(ar := s.ports[q].ar + Taken(inputs[q].ar, s.outputs[q].arReady))
                 else s.ports[q]
  {}

  lemma AcceptAt(c: Config, s: Fabric, inputs: seq<Master>, p: nat, q: nat)
    requires Sized(c, s) && |inputs| == c.ports && p <= c.ports && q < c.ports && Accept(c, s, inputs, p).Done?
    ensures var t := Accept(c, s, inputs, p).s;
            && t.outputs == s.outputs
            && (if q >= p then AcceptedPort(s.ports[q], t.ports[q], s.outputs[q], inputs[q])
                else t.ports[q] == s.ports[q])
    decreases c.ports - p
  {
    if p < c.ports {
      hide AcceptAw, AcceptW, AcceptAr, Sized;
      var s1 := AcceptAw(c, s, inputs, p).s;
      var s2 := AcceptW(c, s1, inputs, p).s;
      AcceptAwAt(c, s, inputs, p, q);
      AcceptWAt(c, s1, inputs, p, q);
      AcceptArAt(c, s2, inputs, p, q);
      AcceptAt(c, AcceptAr(c, s2, inputs, p).s, inputs, p + 1, q);
    }
  }

  /** Queues of port q after the first three phases. */
  ghost predicate IngressPort(a: Port, b: Port, out: Slave, input: Master) {
    && b.aw == a.aw + Taken(input.aw, out.awReady)
    && b.w == a.w + Taken(input.w, out.wReady)
    && b.ar == a.ar + Taken(input.ar, out.arReady)
    && b.b == (if out.b.Some? && input.bReady && a.b != [] then a.b[1..] else a.b)
    && b.r == (if out.r.Some? && input.rReady && a.r != [] then a.r[1..] else a.r)
  }

  lemma IngressAt(c: Config, s: Fabric, inputs: seq<Master>, q: nat)
    requires Base(c, s) && InputsOk(c, inputs) && q < c.ports && Ingress(c, s, inputs).Done?
    ensures IngressPort(s.ports[q], Ingress(c, s, inputs).s.ports[q], s.outputs[q], inputs[q])
    ensures var s1 := CheckStability(c, s, inputs, 0).s;
            var t := Ingress(c, s, inputs).s.ports[q];
            q < |s1.ports| && t.awWatch == s1.ports[q].awWatch && t.wWatch == s1.ports[q].wWatch &&
              t.arWatch == s1.ports[q].arWatch
  {
    CheckBase(c, s, inputs, 0);
    CheckAlike(c, s, inputs, 0);
    var s1 := CheckStability(c, s, inputs, 0).s;
    assert SameQueues(s.ports[q], s1.ports[q]);
    RetireBase(c, s1, inputs, 0);
    RetireAt(c, s1, inputs, 0, q);
    AcceptAt(c, Retire(c, s1, inputs, 0).s, inputs, 0, q);
  }

  // ---- phase 4 ---------------------------------------------------------------------------------

  /** Arbitration only takes requests from the front of a port's queues. */
  ghost predicate GrantedPort(a: Port, b: Port) {
    && b == a.(aw := b.aw, ar := b.ar)
    && (b.aw == a.aw || (a.aw != [] && b.aw == a.aw[1..]))
    && (b.ar == a.ar || (a.ar != [] && b.ar == a.ar[1..]))
  }

  lemma GrantWriteAt(c: Config, s: Fabric, q: nat)
    requires Base(c, s) && q < c.ports
    ensures GrantedPort(s.ports[q], GrantWrite(c, s).s.ports[q]) && GrantWrite(c, s).s.ports[q].ar == s.ports[q].ar
  {}

  lemma GrantReadAt(c: Config, s: Fabric, q: nat)
    requires Base(c, s) && q < c.ports
    ensures GrantedPort(s.ports[q], GrantRead(c, s).s.ports[q]) && GrantRead(c, s).s.ports[q].aw == s.ports[q].aw
  {}

  lemma ArbitrateAt(c: Config, s: Fabric, q: nat)
    requires Base(c, s) && q < c.ports
    ensures GrantedPort(s.ports[q], Arbitrate(c, s).s.ports[q])
  {
    GrantWriteBase(c, s);
    GrantWriteAt(c, s, q);
    if GrantWrite(c, s).Done? { GrantReadAt(c, GrantWrite(c, s).s, q); }
  }

  // ---- phases 5 and 6 ------------------------------------------------------------------------------

  /** Processing takes W beats and appends responses; nothing else. */
  ghost predicate ProcessedPort(a: Port, b: Port) {
    && b == a.(w := b.w, b := b.b, r := b.r)
    && a.b <= b.b && a.r <= b.r
  }

  /** The arbiter and the grants are as before. */
  ghost predicate ArbiterSame(s: Fabric, t: Fabric) {
    && t.nextAw == s.nextAw && t.nextAr == s.nextAr
    && t.h.wgrants == s.h.wgrants && t.h.rgrants == s.h.rgrants
  }

  lemma CompleteAt(c: Config, s: Fabric, f: WriteRoute, q: nat)
    requires Sized(c, s) && s.writeRoutes != [] && f.route.port < c.ports && q < c.ports
    ensures ProcessedPort(s.ports[q], CompleteWrite(c, s, f).ports[q]) && ArbiterSame(s, CompleteWrite(c, s, f))
  {}

  lemma WriteCommitAt(c: Config, s: Fabric, reply: Reply, q: nat)
    requires Base(c, s) && s.writeRoutes != [] && s.writeRoutes[0].dataComplete && q < c.ports
    ensures ProcessedPort(s.ports[q], WriteCommit(c, s, reply).ports[q]) && ArbiterSame(s, WriteCommit(c, s, reply))
  {
    var f := s.writeRoutes[0];
    assert WriteOk(c, f);
    if |s.ports[f.route.port].b| == c.responseDepth {
    } else if f.route.payload.lock {
      CompleteAt(c, ExclusiveEffect(c, s, reply), f.(response := ExclusiveAnswer(c, s, reply)), q);
    } else if !f.route.forced.Okay? {
      CompleteAt(c, s, f.(response := Combine(f.response, f.route.forced)), q);
    } else {
      CompleteAt(c, BeatEffect(c, s, reply), BeatFront(c, s, reply), q);
    }
  }

  lemma StageAt(c: Config, s: Fabric, q: nat)
    requires Sized(c, s) && s.writeRoutes != [] && s.writeRoutes[0].route.port < c.ports && q < c.ports
    requires s.ports[s.writeRoutes[0].route.port].w != []
    ensures ProcessedPort(s.ports[q], StageBeat(c, s).ports[q]) && ArbiterSame(s, StageBeat(c, s))
  {}

  lemma WriteStepAt(c: Config, s: Fabric, reply: Reply, q: nat)
    requires Base(c, s) && q < c.ports
    ensures ProcessedPort(s.ports[q], WriteStep(c, s, reply).s.ports[q]) && ArbiterSame(s, WriteStep(c, s, reply).s)
  {
    hide WriteCommit, SetPort;
    if s.writeRoutes != [] {
      var f := s.writeRoutes[0];
      assert WriteOk(c, f);
      if f.dataComplete {
        WriteCommitAt(c, s, reply, q);
      } else if s.ports[f.route.port].w != [] {
        StageBase(c, s);
        StageAt(c, s, q);
        if StageBeat(c, s).writeRoutes[0].dataComplete { WriteCommitAt(c, StageBeat(c, s), reply, q); }
      }
    }
  }

  lemma ServeAt(c: Config, s: Fabric, reply: Reply, q: nat)
    requires Base(c, s) && s.readRoutes != [] && q < c.ports
    ensures ProcessedPort(s.ports[q], ServeRead(c, s, reply).ports[q]) && ArbiterSame(s, ServeRead(c, s, reply))
  {
    assert ReadOk(c, s.readRoutes[0]);
  }

  lemma ReadStepAt(c: Config, s: Fabric, reply: Reply, q: nat)
    requires Base(c, s) && q < c.ports
    ensures ProcessedPort(s.ports[q], ReadStep(c, s, reply).s.ports[q]) && ArbiterSame(s, ReadStep(c, s, reply).s)
  {
    if s.readRoutes != [] && |s.ports[s.readRoutes[0].route.port].r| != c.responseDepth {
      var f := s.readRoutes[0];
      if f.route.payload.lock && f.beat == 0 && f.route.forced.Okay? {
        var o := Establish(c, s, f.route);
        assert Base(c, o.s);
        if o.Done? { ServeAt(c, o.s, reply, q); }
      } else {
        ServeAt(c, s, reply, q);
      }
    }
  }

  lemma ProcessAt(c: Config, s: Fabric, reply: Reply, q: nat)
    requires Base(c, s) && q < c.ports
    ensures ProcessedPort(s.ports[q], Process(c, s, reply).s.ports[q]) && ArbiterSame(s, Process(c, s, reply).s)
  {
    var s0 := Unsuppress(c, s);
    WriteStepBase(c, s0, reply);
    WriteStepAt(c, s0, reply, q);
    var o := WriteStep(c, s0, reply);
    if o.Done? && !o.s.suppressRead { ReadStepAt(c, o.s, reply, q); }
  }
}
