/** When the fabric is ready: exactly when there is room, and what is offered then is taken. */
module FabricReady {
  import opened Axi
  import opened Fabric
  import opened FabricRun
  import opened FabricOrder
  import opened FabricErrors
  import opened FabricPhases
  import opened FabricFair
  import opened FabricExit

  /** Requests of port p accepted and not yet granted, and W beats accepted and not
      yet staged, counted from the logs. */
  ghost predicate RoomForAw(c: Config, s: Fabric, p: nat)
    requires p < |s.h.logs|
  {
    |s.h.logs[p].aw| - |AwOf(p, s.h.wgrants)| < c.addressDepth
  }

  ghost predicate RoomForAr(c: Config, s: Fabric, p: nat)
    requires p < |s.h.logs|
  {
    |s.h.logs[p].ar| - |AwOf(p, s.h.rgrants)| < c.addressDepth
  }

  ghost predicate RoomForW(c: Config, s: Fabric, p: nat)
    requires p < |s.h.logs| && WriteQueue(s)
  {
    |s.h.logs[p].w| - |WOf(p, s.h.wgrants, Staging(s))| < c.writeDepth
  }

  /** The oldest response of port p that its master has not taken. */
  ghost function NextB(s: Fabric, p: nat): Option<WriteResponse>
    requires p < |s.h.logs| && WriteQueue(s)
  {
    var all, taken := BOf(p, s.h.wgrants, s.h.done), |s.h.logs[p].b|;
    if taken < |all| then Some(all[taken]) else None
  }

  ghost function NextR(s: Fabric, p: nat): Option<ReadBeat>
    requires p < |s.h.logs|
  {
    var all, taken := ROf(p, s.h.served), |s.h.logs[p].r|;
    if taken < |all| then Some(all[taken]) else None
  }

  /** The outputs of port p, in terms of what has been accepted, granted, finished and taken. */
  ghost predicate DrivenExactly(c: Config, s: Fabric, reset: bool, stalls: seq<Stall>, p: nat)
    requires p < c.ports == |s.ports| == |stalls| == |s.h.logs| && WriteQueue(s)
  {
    var out := Drive(c, s, reset, stalls).outputs[p];
    && (out.awReady <==> !reset && !stalls[p].aw && RoomForAw(c, s, p))
    && (out.wReady <==> !reset && !stalls[p].w && RoomForW(c, s, p))
    && (out.arReady <==> !reset && !stalls[p].ar && RoomForAr(c, s, p))
    && out.b == (if reset then None else NextB(s, p))
    && out.r == (if reset then None else NextR(s, p))
  }

  lemma DriveExact(c: Config, s: Fabric, reset: bool, stalls: seq<Stall>, p: nat)
    requires Base(c, s) && Order(c, s) && |stalls| == c.ports && p < c.ports
    ensures DrivenExactly(c, s, reset, stalls, p)
  {
    hide RoutesOk, WriteQueue, ReadQueue, AwOf, WOf, BOf, ROf, Staging, MemOk, ConfigOk;
    assert PortBalance(s, p);
    var port := s.ports[p];
    if port.b != [] { assert (s.h.logs[p].b + port.b)[|s.h.logs[p].b|] == port.b[0]; }
    if port.r != [] { assert (s.h.logs[p].r + port.r)[|s.h.logs[p].r|] == port.r[0]; }
  }

  /**
    In every run and in the next cycle of it: READY of a channel is high if and only
    if there is no reset, the channel is not stalled, and fewer of its requests or
    beats are waiting than the queue holds; and B and R offer the oldest response the
    master has not taken.
   */
  lemma ReadyExact(c: Config, mem: Mem, xs: seq<Stimulus>, reset: bool, stalls: seq<Stall>, p: nat)
    requires ConfigOk(c) && MemOk(c, mem) && StimuliOk(c, xs) && |stalls| == c.ports && p < c.ports
    requires Base(c, Init(c, mem))
    ensures var s := Run(c, Init(c, mem), xs).s;
            c.ports == |s.ports| == |s.h.logs| && WriteQueue(s) && DrivenExactly(c, s, reset, stalls, p)
  {
    hide Cycle, RoutesOk, FifosOk, DrivenExactly, PortBalance, WriteQueue, ReadQueue;
    RunOrder(c, mem, xs);
    DriveExact(c, Run(c, Init(c, mem), xs).s, reset, stalls, p);
  }

  /** What port p sends in a cycle joins its log exactly if the channel is not stalled
      and has room, and what it is offered exactly if it is ready. */
  ghost predicate AcceptsExactly(c: Config, s: Fabric, t: Fabric, x: Stimulus, p: nat)
    requires StimulusOk(c, x) && p < c.ports && p < |s.h.logs| && p < |t.h.logs| && WriteQueue(s)
  {
    && t.h.logs[p].aw == s.h.logs[p].aw + Taken(x.inputs[p].aw, !x.stalls[p].aw && RoomForAw(c, s, p))
    && t.h.logs[p].w == s.h.logs[p].w + Taken(x.inputs[p].w, !x.stalls[p].w && RoomForW(c, s, p))
    && t.h.logs[p].ar == s.h.logs[p].ar + Taken(x.inputs[p].ar, !x.stalls[p].ar && RoomForAr(c, s, p))
    && t.h.logs[p].b == s.h.logs[p].b + Taken(NextB(s, p), x.inputs[p].bReady)
    && t.h.logs[p].r == s.h.logs[p].r + Taken(NextR(s, p), x.inputs[p].rReady)
  }

  lemma Cancel<T>(a: seq<T>, b: seq<T>, more: seq<T>, all: seq<T>, all': seq<T>)
    requires a + b == all && a + (b + more) == all'
    ensures all' == all + more
  {}

  lemma CancelFront<T>(a: seq<T>, b: seq<T>, a': seq<T>, b': seq<T>, n: nat)
    requires a + b == a' + b' && n <= |b| && b' == b[n..]
    ensures a' == a + b[..n]
  {
    var all := a + b;
    assert |a'| == |a| + n;
    assert a' == all[..|a'|] && a + b[..n] == all[..|a| + n];
  }

  /** The first three phases of a cycle, seen from port p. */
  ghost predicate Entered(s: Fabric, t: Fabric, x: Stimulus, p: nat, out: Slave)
    requires p < |s.ports| && p < |t.ports| && p < |s.h.logs| && p < |t.h.logs| && p < |x.inputs|
  {
    && WriteQueue(s) && WriteQueue(t) && PortBalance(s, p) && PortBalance(t, p)
    && IngressPort(s.ports[p], t.ports[p], out, x.inputs[p])
    && t.h.wgrants == s.h.wgrants && t.h.rgrants == s.h.rgrants && t.h.done == s.h.done && t.h.served == s.h.served
    && t.writeRoutes == s.writeRoutes
  }

  lemma IngressEnters(c: Config, s: Fabric, x: Stimulus, p: nat)
    requires Base(c, s) && Order(c, s) && StimulusOk(c, x) && !x.reset && p < c.ports && AfterIngress(c, s, x).Done?
    ensures var t := AfterIngress(c, s, x).s;
            |t.ports| == |t.h.logs| == c.ports && Entered(s, t, x, p, DrivePort(c, s.ports[p], x.stalls[p]))
  {
    hide Ingress, RoutesOk, FifosOk, ReadQueue, WriteQueue, PortBalance, MemOk, ConfigOk, OfferedFrom, RoomFrom,
         IngressPort, DrivePort;
    DriveBase(c, s, false, x.stalls);
    var d := Drive(c, s, false, x.stalls);
    DriveOffers(c, s, false, x.stalls);
    SameTrafficKeepsOrder(c, s, d);
    AwakeOrder(c, d);
    var s1 := Awake(c, d);
    IngressOrder(c, s1, x.inputs);
    IngressPortsOnly(c, s1, x.inputs);
    IngressAt(c, s1, x.inputs, p);
  }

  lemma RequestsAccepted(c: Config, s: Fabric, t: Fabric, x: Stimulus, p: nat, out: Slave)
    requires p < |s.ports| && p < |t.ports| && p < |s.h.logs| && p < |t.h.logs| && p < |x.inputs|
    requires Entered(s, t, x, p, out)
    ensures t.h.logs[p].aw == s.h.logs[p].aw + Taken(x.inputs[p].aw, out.awReady)
    ensures t.h.logs[p].w == s.h.logs[p].w + Taken(x.inputs[p].w, out.wReady)
    ensures t.h.logs[p].ar == s.h.logs[p].ar + Taken(x.inputs[p].ar, out.arReady)
  {
    hide AwOf, WOf, BOf, ROf, Taken;
    SameStaging(s, t);
    Cancel(AwOf(p, s.h.wgrants), s.ports[p].aw, Taken(x.inputs[p].aw, out.awReady), s.h.logs[p].aw, t.h.logs[p].aw);
    Cancel(AwOf(p, s.h.rgrants), s.ports[p].ar, Taken(x.inputs[p].ar, out.arReady), s.h.logs[p].ar, t.h.logs[p].ar);
    Cancel(WOf(p, s.h.wgrants, Staging(s)), s.ports[p].w, Taken(x.inputs[p].w, out.wReady), s.h.logs[p].w,
           t.h.logs[p].w);
  }

  lemma ResponsesTaken(c: Config, s: Fabric, t: Fabric, x: Stimulus, p: nat, out: Slave)
    requires p < |s.ports| && p < |t.ports| && p < |s.h.logs| && p < |t.h.logs| && p < |x.inputs|
    requires Entered(s, t, x, p, out) && out.b == First(s.ports[p].b) && out.r == First(s.ports[p].r)
    ensures t.h.logs[p].b == s.h.logs[p].b + Taken(out.b, x.inputs[p].bReady)
    ensures t.h.logs[p].r == s.h.logs[p].r + Taken(out.r, x.inputs[p].rReady)
  {
    hide AwOf, WOf, BOf, ROf, WriteQueue, Staging;
    var b, r := s.ports[p].b, s.ports[p].r;
    CancelFront(s.h.logs[p].b, b, t.h.logs[p].b, t.ports[p].b, |Taken(out.b, x.inputs[p].bReady)|);
    CancelFront(s.h.logs[p].r, r, t.h.logs[p].r, t.ports[p].r, |Taken(out.r, x.inputs[p].rReady)|);
    if b != [] { assert b[..1] == [b[0]]; }
    if r != [] { assert r[..1] == [r[0]]; }
  }

  lemma IngressAccepts(c: Config, s: Fabric, x: Stimulus, p: nat)
    requires Base(c, s) && Order(c, s) && StimulusOk(c, x) && !x.reset && p < c.ports && AfterIngress(c, s, x).Done?
    ensures p < |AfterIngress(c, s, x).s.h.logs| && AcceptsExactly(c, s, AfterIngress(c, s, x).s, x, p)
  {
    hide AfterIngress, RoutesOk, FifosOk, ReadQueue, WriteQueue, PortBalance, MemOk, ConfigOk, Entered, RoomForAw,
         RoomForAr, RoomForW, NextB, NextR, Taken;
    DriveExact(c, s, false, x.stalls, p);
    IngressEnters(c, s, x, p);
    var t, out := AfterIngress(c, s, x).s, DrivePort(c, s.ports[p], x.stalls[p]);
    assert Drive(c, s, false, x.stalls).outputs[p] == out;
    RequestsAccepted(c, s, t, x, p, out);
    ResponsesTaken(c, s, t, x, p, out);
  }

  lemma SameStaging(s: Fabric, t: Fabric)
    requires t.h.done == s.h.done && t.writeRoutes == s.writeRoutes
    ensures Staging(t) == Staging(s)
  {}

  /**
    In every run, a cycle that raises no error accepts from each port exactly what is
    offered on a channel that is not stalled and has room, and retires exactly the
    oldest responses the master is ready for.
   */
  lemma HandshakesExact(c: Config, mem: Mem, xs: seq<Stimulus>, x: Stimulus, p: nat)
    requires ConfigOk(c) && MemOk(c, mem) && StimuliOk(c, xs) && StimulusOk(c, x) && !x.reset && p < c.ports
    requires Base(c, Init(c, mem)) && Run(c, Init(c, mem), xs).Done? && Cycle(c, Run(c, Init(c, mem), xs).s, x).Done?
    ensures var s := Run(c, Init(c, mem), xs).s;
            var t := Cycle(c, s, x).s;
            c.ports == |s.h.logs| == |t.h.logs| && WriteQueue(s) && AcceptsExactly(c, s, t, x, p)
  {
    hide Cycle, Arbitrate, Process, AfterIngress, RoutesOk, FifosOk, AcceptsExactly, PortBalance, WriteQueue, ReadQueue;
    RunOrder(c, mem, xs);
    var s := Run(c, Init(c, mem), xs).s;
    CycleParts(c, s, x);
    IngressAccepts(c, s, x, p);
    var s1 := AfterIngress(c, s, x).s;
    ArbitrateExit(c, s1);
    ProcessExit(c, Arbitrate(c, s1).s, x.reply);
    SameAccepts(c, s, s1, Cycle(c, s, x).s, x, p);
  }

  lemma SameAccepts(c: Config, s: Fabric, t: Fabric, t': Fabric, x: Stimulus, p: nat)
    requires StimulusOk(c, x) && p < c.ports && p < |s.h.logs| && p < |t.h.logs| && WriteQueue(s)
    requires AcceptsExactly(c, s, t, x, p) && t'.h.logs == t.h.logs
    ensures AcceptsExactly(c, s, t', x, p)
  {
    hide WriteQueue;
  }
}
