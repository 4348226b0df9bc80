/** Round-robin arbitration: a waiting port is bypassed at most once by each other. */
module FabricFair {
  import opened Arith
  import opened Axi
  import opened Fabric
  import opened FabricRun
  import opened FabricErrors
  import opened FabricPhases

  // ---- the scan -----------------------------------------------------------------------------

  /** The scan finds the waiting port nearest to `next`, if any port waits. */
  lemma PickNearest(waiting: seq<bool>, next: nat, offset: nat, p: nat)
    requires next < |waiting| && offset <= |waiting| && p < |waiting| && waiting[p]
    requires offset <= StepsTo(next, p, |waiting|)
    ensures Pick(waiting, next, offset).Some?
    ensures var q := Pick(waiting, next, offset).value;
            StepsTo(next, q, |waiting|) <= StepsTo(next, p, |waiting|)
    decreases |waiting| - offset
  {
    var n := |waiting|;
    StepsToReaches(next, p, n, offset);
    var here := (next + offset) % n;
    DivMod(next + offset, n);
    StepsToReaches(next, here, n, offset);
    if !waiting[here] { PickNearest(waiting, next, offset + 1, p); }
  }

  lemma PickSelf(waiting: seq<bool>, next: nat, q: nat, p: nat)
    requires next < |waiting| && q < |waiting| && p < |waiting|
    requires StepsTo(next, q, |waiting|) == StepsTo(next, p, |waiting|)
    ensures q == p
  {}

  /** Distances measured from where the waiting started keep growing. */
  lemma FartherFromStart(start: nat, last: nat, q: nat, p: nat, n: nat)
    requires start < n && last < n && q < n && p < n
    requires StepsTo(start, last, n) < StepsTo(start, p, n)
    requires StepsTo((last + 1) % n, q, n) < StepsTo((last + 1) % n, p, n)
    ensures StepsTo(start, last, n) < StepsTo(start, q, n) < StepsTo(start, p, n)
  {
    if last + 1 == n { DivModUnique(last + 1, n, 1, 0); } else { ModSmall(last + 1, n); }
  }

  // ---- AW and AR arbitration share one description ------------------------------------------------

  datatype Side = Writes | Reads

  ghost function Requests(port: Port, side: Side): seq<AddressPayload> {
    if side.Writes? then port.aw else port.ar
  }

  ghost function Waiting(s: Fabric, side: Side): (w: seq<bool>)
    ensures |w| == |s.ports| && forall p | 0 <= p < |s.ports| :: w[p] <==> Requests(s.ports[p], side) != []
  {
    if side.Writes? then AwWaiting(s.ports) else ArWaiting(s.ports)
  }

  ghost function Next(s: Fabric, side: Side): nat { if side.Writes? then s.nextAw else s.nextAr }

  ghost function Grants(s: Fabric, side: Side): seq<Route> { if side.Writes? then s.h.wgrants else s.h.rgrants }

  /** No arbitration happens between s and t, and no request is dropped. */
  ghost predicate Idles(s: Fabric, t: Fabric, side: Side) {
    && Next(t, side) == Next(s, side) && Grants(t, side) == Grants(s, side)
    && |t.ports| == |s.ports|
    && forall p | 0 <= p < |s.ports| :: Requests(s.ports[p], side) <= Requests(t.ports[p], side)
  }

  /** Between s and t the arbiter granted nothing, or the nearest waiting port. */
  ghost predicate Arbitrates(s: Fabric, t: Fabric, side: Side) {
    || Idles(s, t, side)
    || (var pick := Pick(Waiting(s, side), Next(s, side), 0);
        && pick.Some? && |t.ports| == |s.ports|
        && (exists r :: Grants(t, side) == Grants(s, side) + [r] && r.port == pick.value)
        && Next(t, side) == (pick.value + 1) % |s.ports|
        && forall p | 0 <= p < |s.ports| && p != pick.value :: Requests(s.ports[p], side) <= Requests(t.ports[p], side))
  }

  lemma GrantWriteArbitrates(c: Config, s: Fabric)
    requires Base(c, s) && GrantWrite(c, s).Done?
    ensures Arbitrates(s, GrantWrite(c, s).s, Writes) && Idles(s, GrantWrite(c, s).s, Reads)
  {
    var t := GrantWrite(c, s).s;
    var pick := Pick(AwWaiting(s.ports), s.nextAw, 0);
    if |s.writeRoutes| != c.routeDepth && pick.Some? {
      var r := InitRoute(c, pick.value, s.ports[pick.value].aw[0]).route;
      assert Grants(t, Writes) == Grants(s, Writes) + [r] && r.port == pick.value;
    }
  }

  lemma GrantReadArbitrates(c: Config, s: Fabric)
    requires Base(c, s) && GrantRead(c, s).Done?
    ensures Arbitrates(s, GrantRead(c, s).s, Reads) && Idles(s, GrantRead(c, s).s, Writes)
  {
    var t := GrantRead(c, s).s;
    var pick := Pick(ArWaiting(s.ports), s.nextAr, 0);
    if |s.readRoutes| != c.routeDepth && pick.Some? {
      var r := InitRoute(c, pick.value, s.ports[pick.value].ar[0]).route;
      assert Grants(t, Reads) == Grants(s, Reads) + [r] && r.port == pick.value;
    }
  }

  // ---- the other phases ---------------------------------------------------------------------------

  lemma IngressIdles(c: Config, s: Fabric, inputs: seq<Master>, side: Side)
    requires Base(c, s) && InputsOk(c, inputs) && Ingress(c, s, inputs).Done?
    ensures Idles(s, Ingress(c, s, inputs).s, side)
  {
    IngressPortsOnly(c, s, inputs);
    var t := Ingress(c, s, inputs).s;
    forall p | 0 <= p < |s.ports| ensures Requests(s.ports[p], side) <= Requests(t.ports[p], side) {
      IngressAt(c, s, inputs, p);
    }
  }

  lemma ProcessIdles(c: Config, s: Fabric, reply: Reply, side: Side)
    requires Base(c, s)
    ensures Idles(s, Process(c, s, reply).s, side)
  {
    var t := Process(c, s, reply).s;
    ProcessAt(c, s, reply, 0);
    forall p | 0 <= p < |s.ports| ensures Requests(s.ports[p], side) <= Requests(t.ports[p], side) {
      ProcessAt(c, s, reply, p);
    }
  }

  // ---- bypass ------------------------------------------------------------------------------------------

  /** Ports granted since p began to wait, arbiter at `start` then: nearer to start
      than p, and ever farther from start. */
  ghost predicate Bypass(n: nat, start: nat, p: nat, g: seq<nat>) {
    && start < n && p < n
    && (forall i | 0 <= i < |g| :: g[i] < n && StepsTo(start, g[i], n) < StepsTo(start, p, n))
    && (forall i, j | 0 <= i < j < |g| :: StepsTo(start, g[i], n) < StepsTo(start, g[j], n))
  }

  ghost function PointerAfter(n: nat, start: nat, g: seq<nat>): nat
    requires n > 0
  {
    if g == [] then start else (g[|g| - 1] + 1) % n
  }

  lemma BypassStep(n: nat, start: nat, p: nat, g: seq<nat>, q: nat)
    requires Bypass(n, start, p, g) && q < n
    requires PointerAfter(n, start, g) < n
    requires StepsTo(PointerAfter(n, start, g), q, n) < StepsTo(PointerAfter(n, start, g), p, n)
    ensures Bypass(n, start, p, g + [q])
  {
    if g != [] { FartherFromStart(start, g[|g| - 1], q, p, n); }
  }

  /** Such a list names no port twice, never p, and has at most n - 1 entries. */
  lemma BypassBound(n: nat, start: nat, p: nat, g: seq<nat>)
    requires Bypass(n, start, p, g)
    ensures |g| <= n - 1
    ensures p !in g
    ensures forall i, j | 0 <= i < j < |g| :: g[i] != g[j]
  {
    BypassLength(n, start, p, g);
  }

  lemma {:induction false} BypassLength(n: nat, start: nat, p: nat, g: seq<nat>)
    requires Bypass(n, start, p, g)
    ensures g != [] ==> |g| <= StepsTo(start, g[|g| - 1], n) + 1
  {
    if |g| > 1 {
      BypassLength(n, start, p, g[..|g| - 1]);
      assert StepsTo(start, g[|g| - 2], n) < StepsTo(start, g[|g| - 1], n);
    }
  }

  ghost function PortsOf(rs: seq<Route>): seq<nat> { seq(|rs|, i requires 0 <= i < |rs| => rs[i].port) }

  /** Port p has waited since the arbiter stood at `start` after `from` grants. */
  ghost predicate Bypassed(c: Config, s: Fabric, side: Side, p: nat, start: nat, from: nat) {
    && c.ports > 0 && |s.ports| == c.ports && p < c.ports && from <= |Grants(s, side)|
    && Requests(s.ports[p], side) != []
    && var g := PortsOf(Grants(s, side)[from..]);
       Bypass(c.ports, start, p, g) && Next(s, side) == PointerAfter(c.ports, start, g)
  }

  lemma IdlesBypassed(c: Config, s: Fabric, t: Fabric, side: Side, p: nat, start: nat, from: nat)
    requires Bypassed(c, s, side, p, start, from) && Idles(s, t, side)
    ensures Bypassed(c, t, side, p, start, from)
  {
    assert Requests(s.ports[p], side) <= Requests(t.ports[p], side);
  }

  /** An arbitration either grants p or lets one more port pass in order. */
  lemma ArbitratesBypassed(c: Config, s: Fabric, t: Fabric, side: Side, p: nat, start: nat, from: nat)
    requires Bypassed(c, s, side, p, start, from) && Arbitrates(s, t, side) && Next(s, side) < c.ports
    requires forall i | |Grants(s, side)| <= i < |Grants(t, side)| :: Grants(t, side)[i].port != p
    ensures Bypassed(c, t, side, p, start, from)
  {
    hide Pick, Bypass, Next, ArWaiting, Grants;
    if Idles(s, t, side) {
      IdlesBypassed(c, s, t, side, p, start, from);
    } else {
      var n := c.ports;
      var pick := Pick(Waiting(s, side), Next(s, side), 0);
      var r :| Grants(t, side) == Grants(s, side) + [r] && r.port == pick.value;
      assert Grants(t, side)[|Grants(s, side)|] == r;
      PickNearest(Waiting(s, side), Next(s, side), 0, p);
      if StepsTo(Next(s, side), r.port, n) == StepsTo(Next(s, side), p, n) {
        PickSelf(Waiting(s, side), Next(s, side), r.port, p);
      }
      var g := PortsOf(Grants(s, side)[from..]);
      BypassStep(n, start, p, g, r.port);
      assert PortsOf(Grants(t, side)[from..]) == g + [r.port];
      assert Requests(s.ports[p], side) <= Requests(t.ports[p], side);
    }
  }

  // ---- cycles and runs ---------------------------------------------------------------------------------

  /** Grants since `from` that did not go to p. */
  ghost predicate NotGranted(s: Fabric, side: Side, p: nat, from: nat) {
    forall i | from <= i < |Grants(s, side)| :: Grants(s, side)[i].port != p
  }

  lemma ArbitrateBypassed(c: Config, s: Fabric, side: Side, p: nat, start: nat, from: nat)
    requires Base(c, s) && Bypassed(c, s, side, p, start, from) && Arbitrate(c, s).Done?
    requires NotGranted(Arbitrate(c, s).s, side, p, from)
    ensures Bypassed(c, Arbitrate(c, s).s, side, p, start, from)
  {
    GrantWriteBase(c, s);
    var t := GrantWrite(c, s).s;
    GrantWriteArbitrates(c, s);
    GrantReadArbitrates(c, t);
    if side.Writes? {
      ArbitratesBypassed(c, s, t, side, p, start, from);
      IdlesBypassed(c, t, GrantRead(c, t).s, side, p, start, from);
    } else {
      IdlesBypassed(c, s, t, side, p, start, from);
      ArbitratesBypassed(c, t, GrantRead(c, t).s, side, p, start, from);
    }
  }

  lemma GrantsAfterProcess(c: Config, s: Fabric, reply: Reply, side: Side)
    requires Base(c, s)
    ensures Grants(Process(c, s, reply).s, side) == Grants(s, side)
  {
    ProcessIdles(c, s, reply, side);
  }

  /** The rest of a cycle after ingress keeps the order of bypasses. */
  lemma EgressBypassed(c: Config, s: Fabric, reply: Reply, side: Side, p: nat, start: nat, from: nat)
    requires Base(c, s) && Bypassed(c, s, side, p, start, from)
    requires Arbitrate(c, s).Done? && Process(c, Arbitrate(c, s).s, reply).Done?
    requires NotGranted(Process(c, Arbitrate(c, s).s, reply).s, side, p, from)
    ensures Bypassed(c, Process(c, Arbitrate(c, s).s, reply).s, side, p, start, from)
  {
    var t := Arbitrate(c, s).s;
    GrantsAfterProcess(c, t, reply, side);
    ArbitrateBypassed(c, s, side, p, start, from);
    ProcessIdles(c, t, reply, side);
    IdlesBypassed(c, t, Process(c, t, reply).s, side, p, start, from);
  }

  ghost function AfterIngress(c: Config, s: Fabric, x: Stimulus): (o: Outcome)
    requires Base(c, s) && StimulusOk(c, x)
    ensures Base(c, o.s)
  {
    DriveBase(c, s, x.reset, x.stalls);
    Ingress(c, Awake(c, Drive(c, s, x.reset, x.stalls)), x.inputs)
  }

  /** A successful cycle in its three parts. */
  lemma CycleParts(c: Config, s: Fabric, x: Stimulus)
    requires Base(c, s) && StimulusOk(c, x) && !x.reset && Cycle(c, s, x).Done?
    ensures AfterIngress(c, s, x).Done?
    ensures var s1 := AfterIngress(c, s, x).s;
            && Arbitrate(c, s1).Done? && Process(c, Arbitrate(c, s1).s, x.reply).Done?
            && Cycle(c, s, x).s == Tick(c, Process(c, Arbitrate(c, s1).s, x.reply).s)
  {
    hide Ingress, Arbitrate, Process, Base;
    DriveBase(c, s, x.reset, x.stalls);
  }

  /** Three successful parts make a successful cycle. */
  lemma CycleOf(c: Config, s: Fabric, x: Stimulus)
    requires Base(c, s) && StimulusOk(c, x) && !x.reset && AfterIngress(c, s, x).Done?
    requires Arbitrate(c, AfterIngress(c, s, x).s).Done?
    requires Process(c, Arbitrate(c, AfterIngress(c, s, x).s).s, x.reply).Done?
    ensures Cycle(c, s, x) ==
            Done(Tick(c, Process(c, Arbitrate(c, AfterIngress(c, s, x).s).s, x.reply).s))
  {
    hide Ingress, Arbitrate, Process, Base;
    DriveBase(c, s, x.reset, x.stalls);
  }

  lemma AfterIngressIdles(c: Config, s: Fabric, x: Stimulus, side: Side)
    requires Base(c, s) && StimulusOk(c, x) && AfterIngress(c, s, x).Done?
    ensures Idles(s, AfterIngress(c, s, x).s, side)
  {
    hide Ingress;
    DriveBase(c, s, x.reset, x.stalls);
    IngressIdles(c, Awake(c, Drive(c, s, x.reset, x.stalls)), x.inputs, side);
  }

  lemma TickIdles(c: Config, s: Fabric, side: Side)
    requires Base(c, s)
    ensures Idles(s, Tick(c, s), side)
  {}

  lemma CycleBypassed(c: Config, s: Fabric, x: Stimulus, side: Side, p: nat, start: nat, from: nat)
    requires Base(c, s) && StimulusOk(c, x) && !x.reset && Cycle(c, s, x).Done?
    requires AfterIngress(c, s, x).Done? && Bypassed(c, AfterIngress(c, s, x).s, side, p, start, from)
    requires NotGranted(Cycle(c, s, x).s, side, p, from)
    ensures Bypassed(c, Cycle(c, s, x).s, side, p, start, from)
  {
    hide Cycle, AfterIngress, Arbitrate, Process, Base, Bypassed;
    CycleParts(c, s, x);
    var s1 := AfterIngress(c, s, x).s;
    TickIdles(c, Process(c, Arbitrate(c, s1).s, x.reply).s, side);
    EgressBypassed(c, s1, x.reply, side, p, start, from);
    IdlesBypassed(c, Process(c, Arbitrate(c, s1).s, x.reply).s, Cycle(c, s, x).s, side, p, start, from);
  }

  ghost predicate NoReset(xs: seq<Stimulus>) { forall i | 0 <= i < |xs| :: !xs[i].reset }

  lemma {:induction false} RunBypassed(c: Config, s: Fabric, xs: seq<Stimulus>, side: Side, p: nat, start: nat,
                                       from: nat)
    requires Base(c, s) && StimuliOk(c, xs) && NoReset(xs) && Run(c, s, xs).Done?
    requires Bypassed(c, s, side, p, start, from) && NotGranted(Run(c, s, xs).s, side, p, from)
    ensures Bypassed(c, Run(c, s, xs).s, side, p, start, from)
  {
    hide Cycle, AfterIngress, Bypassed;
    if xs != [] {
      var n := |xs| - 1;
      var t := Run(c, s, xs[..n]).s;
      GrantsOnlyGrow(c, t, xs[n], side);
      RunBypassed(c, s, xs[..n], side, p, start, from);
      CycleParts(c, t, xs[n]);
      AfterIngressIdles(c, t, xs[n], side);
      IdlesBypassed(c, t, AfterIngress(c, t, xs[n]).s, side, p, start, from);
      CycleBypassed(c, t, xs[n], side, p, start, from);
    }
  }

  lemma GrantsOnlyGrow(c: Config, s: Fabric, x: Stimulus, side: Side)
    requires Base(c, s) && StimulusOk(c, x) && !x.reset && Cycle(c, s, x).Done?
    ensures Grants(s, side) <= Grants(Cycle(c, s, x).s, side)
  {
    DriveBase(c, s, x.reset, x.stalls);
    var d := Awake(c, Drive(c, s, x.reset, x.stalls));
    IngressIdles(c, d, x.inputs, side);
    var s1 := Ingress(c, d, x.inputs).s;
    GrantWriteBase(c, s1);
    GrantWriteArbitrates(c, s1);
    GrantReadArbitrates(c, GrantWrite(c, s1).s);
    GrantsAfterProcess(c, Arbitrate(c, s1).s, x.reply, side);
  }

  /** A port that waits, on AW or AR, at the start of a run or from a request taken
      in its first cycle: while it is not granted, no other port is granted twice,
      so at most ports - 1 grants go by; for every arrival and stall pattern. */
  lemma BoundedBypass(c: Config, s: Fabric, xs: seq<Stimulus>, side: Side, p: nat)
    requires Base(c, s) && StimuliOk(c, xs) && NoReset(xs) && Run(c, s, xs).Done? && xs != [] && p < c.ports
    requires AfterIngress(c, s, xs[0]).Done? && Requests(AfterIngress(c, s, xs[0]).s.ports[p], side) != []
    requires NotGranted(Run(c, s, xs).s, side, p, |Grants(s, side)|)
    ensures Grants(s, side) <= Grants(Run(c, s, xs).s, side)
    ensures var g := PortsOf(Grants(Run(c, s, xs).s, side)[|Grants(s, side)|..]);
            |g| <= c.ports - 1 && forall i, j | 0 <= i < j < |g| :: g[i] != g[j]
  {
    hide Cycle, AfterIngress, Run, Base;
    var x, from, start := xs[0], |Grants(s, side)|, Next(s, side);
    RunSplit(c, s, xs);
    CycleParts(c, s, x);
    var t, s1 := Cycle(c, s, x).s, AfterIngress(c, s, x).s;
    GrantsOnlyGrow(c, s, x, side);
    RunGrantsGrow(c, t, xs[1..], side);
    AfterIngressIdles(c, s, x, side);
    FirstBypass(c, s, s1, side, p);
    CycleBypassed(c, s, x, side, p, start, from);
    RunBypassed(c, t, xs[1..], side, p, start, from);
    BypassBound(c.ports, start, p, PortsOf(Grants(Run(c, s, xs).s, side)[from..]));
  }

  /** The empty list of bypasses, as port p starts to wait. */
  lemma FirstBypass(c: Config, s: Fabric, t: Fabric, side: Side, p: nat)
    requires Base(c, s) && Idles(s, t, side) && p < c.ports && Requests(t.ports[p], side) != []
    ensures Bypassed(c, t, side, p, Next(s, side), |Grants(s, side)|)
  {
    assert Grants(t, side)[|Grants(s, side)|..] == [];
  }

  lemma {:induction false} RunSplit(c: Config, s: Fabric, xs: seq<Stimulus>)
    requires Base(c, s) && StimuliOk(c, xs) && xs != [] && Run(c, s, xs).Done?
    ensures Cycle(c, s, xs[0]).Done? && Run(c, s, xs) == Run(c, Cycle(c, s, xs[0]).s, xs[1..])
  {
    hide Cycle, Base;
    var n := |xs| - 1;
    if n == 0 {
      assert xs[..0] == [] && Run(c, s, xs[..0]) == Done(s);
      assert xs[1..] == [];
    } else {
      RunSplit(c, s, xs[..n]);
      assert xs[1..][..n - 1] == xs[..n][1..];
      assert xs[1..][n - 1] == xs[n];
    }
  }

  lemma {:induction false} RunGrantsGrow(c: Config, s: Fabric, xs: seq<Stimulus>, side: Side)
    requires Base(c, s) && StimuliOk(c, xs) && NoReset(xs) && Run(c, s, xs).Done?
    ensures Grants(s, side) <= Grants(Run(c, s, xs).s, side)
  {
    hide Cycle;
    if xs != [] {
      var n := |xs| - 1;
      RunGrantsGrow(c, s, xs[..n], side);
      GrantsOnlyGrow(c, Run(c, s, xs[..n]).s, xs[n], side);
    }
  }
}
