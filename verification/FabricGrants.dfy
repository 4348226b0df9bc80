/**
  Arbitration exactly: which request is granted in each cycle, when a request is
  refused, and with which error.
 */
module FabricGrants {
  import opened Arith
  import opened Axi
  import opened Bursts
  import opened Fabric
  import opened FabricRun
  import opened FabricOrder
  import opened FabricErrors
  import opened FabricPhases
  import opened FabricFair
  import opened FabricDrain

  // ---- which requests are legal -----------------------------------------------------------------

  /** The shape AXI4 allows: a transfer no wider than the bus; at most 16 beats FIXED;
      2, 4, 8 or 16 beats WRAP from an aligned address; INCR within one 4 KiB page. */
  ghost predicate LegalBurst(width: nat, p: AddressPayload) {
    && p.burst != Reserved && Pow2(p.size) <= width
    && (p.burst.Fixed? ==> p.length < 16)
    && (p.burst.Wrap? ==> p.length in {1, 3, 7, 15} && p.address % Pow2(p.size) == 0)
    && (p.burst.Increment? ==>
          var first := p.address - p.address % Pow2(p.size);
          (first + (p.length + 1) * Pow2(p.size) - 1) / 4096 == p.address / 4096)
  }

  /** Address a belongs to beat k, which does not end at 2^64. */
  ghost predicate ByteOfBeat(p: AddressPayload, k: nat, a: int) {
    k <= p.length && BeatAddress(p, k) <= a < BeatEnd(p, k) && BeatEnd(p, k) != TWO64
  }

  /** Some such byte has an address the bus cannot carry. */
  ghost predicate BeyondWidth(c: Config, p: AddressPayload) {
    exists k: nat, a :: ByteOfBeat(p, k, a) && a >= if c.addressBits == 32 then 0x1_0000_0000 else TWO64
  }

  /** The shape of an exclusive transfer: INCR, at most 16 beats, a power of two of at
      most 128 bytes in all, aligned to that. */
  ghost predicate LegalExclusive(p: AddressPayload) {
    && p.burst.Increment? && p.length < 16
    && var total := (p.length + 1) * Pow2(p.size);
       PowerBelow256(total) && p.address % total == 0
  }

  /** The error a request raises when it is granted, if any. */
  ghost function Refusal(c: Config, p: AddressPayload): Option<Error> {
    if !LegalBurst(c.width, p) then Some(BadBurst)
    else if BeyondWidth(c, p) then Some(AddressWidth)
    else if p.lock && !LegalExclusive(p) then Some(BadExclusive)
    else None
  }

  lemma LegalIsOk(c: Config, p: AddressPayload)
    requires ConfigOk(c)
    ensures LegalBurst(c.width, p) <==> BurstOk(c, p)
  {
    hide BeatAddress, BeatEnd, Within4K, Total;
    if Pow2(p.size) <= c.width { SizeBelow64(c.width, p); }
    if ShapeOk(c.width, p) {
      Within4KIsPageRule(c.width, p);
      if p.burst.Increment? { IncrementEnd(p, Beats(p) - 1); }
    }
  }

  lemma SizeBelow64(width: nat, p: AddressPayload)
    requires BusWidth(width) && Pow2(p.size) <= width
    ensures p.size < 64
  {
    if p.size >= 5 { Pow2AtLeast(p.size, 5); }
  }

  lemma WidthIsLimit(c: Config, p: AddressPayload)
    requires ConfigOk(c)
    ensures BeyondWidth(c, p) <==> TooWide(c, p)
  {
    hide BeatAddress, BeatEnd;
    if k: nat, a :| ByteOfBeat(p, k, a) && a >= if c.addressBits == 32 then 0x1_0000_0000 else TWO64 {
      assert Enabled(p, k, a);
    }
    if k: nat, a :| k < Beats(p) && Enabled(p, k, a) && a > AddressLimit(c) {
      assert ByteOfBeat(p, k, a);
    }
  }

  lemma ExclusiveIsLegal(p: AddressPayload)
    ensures LegalExclusive(p) <==> ExclusiveShape(p)
  {
    hide Pow2, PowerTo128;
    PowersTo128(Total(p));
    assert Total(p) == (p.length + 1) * Pow2(p.size);
  }

  ghost predicate PowerBelow256(n: nat) { exists k: nat :: k <= 7 && n == Pow2(k) }

  lemma PowersTo128(n: nat)
    ensures PowerBelow256(n) <==> PowerTo128(n)
  {
    hide Pow2;
    SmallPowers();
    if PowerTo128(n) {
      var k: nat := if n == 1 then 0 else if n == 2 then 1 else if n == 4 then 2 else if n == 8 then 3
                    else if n == 16 then 4 else if n == 32 then 5 else if n == 64 then 6 else 7;
      assert n == Pow2(k);
    }
  }

  lemma SmallPowers()
    ensures Pow2(0) == 1 && Pow2(1) == 2 && Pow2(2) == 4 && Pow2(3) == 8
    ensures Pow2(4) == 16 && Pow2(5) == 32 && Pow2(6) == 64 && Pow2(7) == 128
  {
    assert Pow2(4) == 16;
    assert Pow2(7) == 8 * Pow2(4);
  }

  /** A request is routed exactly if it is legal; a 32-bit fabric refuses exactly the
      bursts with a byte at or above 2^32. */
  lemma RefusedExactly(c: Config, port: nat, p: AddressPayload)
    requires ConfigOk(c)
    ensures InitRoute(c, port, p).Refused? <==> Refusal(c, p).Some?
    ensures InitRoute(c, port, p).Refused? ==> Refusal(c, p) == Some(InitRoute(c, port, p).error)
    ensures InitRoute(c, port, p).Routable? ==>
              InitRoute(c, port, p).route.port == port && InitRoute(c, port, p).route.payload == p
  {
    hide LegalBurst, BurstOk, BeyondWidth, TooWide, LegalExclusive, ExclusiveShape, Decode, Forced;
    LegalIsOk(c, p);
    WidthIsLimit(c, p);
    ExclusiveIsLegal(p);
  }

  // ---- which request is next ----------------------------------------------------------------------

  /** Where the round starts: after the port granted last. */
  ghost function Turn(c: Config, grants: seq<Route>): nat
    requires c.ports > 0
  {
    if grants == [] then 0 else (grants[|grants| - 1].port + 1) % c.ports
  }

  ghost function Sent(log: PortLog, side: Side): seq<AddressPayload> { if side.Writes? then log.aw else log.ar }

  /** Requests of port p granted so far. */
  ghost function GrantedTo(s: Fabric, side: Side, p: nat): nat { |AwOf(p, Grants(s, side))| }

  ghost predicate Asks(s: Fabric, side: Side, p: nat)
    requires p < |s.h.logs|
  {
    GrantedTo(s, side, p) < |Sent(s.h.logs[p], side)|
  }

  /** Port p asks, and no port nearer to the turn does. */
  ghost predicate IsNext(c: Config, s: Fabric, side: Side, p: nat)
    requires c.ports == |s.h.logs| > 0 && Turn(c, Grants(s, side)) < c.ports
  {
    && p < c.ports && Asks(s, side, p)
    && forall q: nat | q < c.ports && Asks(s, side, q) ::
         StepsTo(Turn(c, Grants(s, side)), p, c.ports) <= StepsTo(Turn(c, Grants(s, side)), q, c.ports)
  }

  ghost function Flying(s: Fabric, side: Side): nat { if side.Writes? then |s.writeRoutes| else |s.readRoutes| }

  /** The pointers of the arbiter stand at the turn. */
  ghost predicate Pointed(c: Config, s: Fabric) {
    c.ports > 0 && s.nextAw == Turn(c, s.h.wgrants) && s.nextAr == Turn(c, s.h.rgrants)
  }

  lemma AsksIsWaiting(c: Config, s: Fabric, side: Side, p: nat)
    requires Order(c, s) && p < c.ports
    ensures Asks(s, side, p) <==> Requests(s.ports[p], side) != []
    ensures Asks(s, side, p) ==> Requests(s.ports[p], side)[0] == Sent(s.h.logs[p], side)[GrantedTo(s, side, p)]
  {
    hide AwOf, WOf, BOf, ROf, Staging, WriteQueue, ReadQueue;
    assert PortBalance(s, p);
  }

  lemma PickIsNext(c: Config, s: Fabric, side: Side)
    requires Base(c, s) && Order(c, s) && Pointed(c, s)
    ensures c.ports == |s.h.logs| > 0 && Turn(c, Grants(s, side)) == Next(s, side) < c.ports
    ensures var pick := Pick(Waiting(s, side), Next(s, side), 0);
            && (pick.Some? ==> IsNext(c, s, side, pick.value))
            && (pick.None? ==> forall p: nat | p < c.ports :: !Asks(s, side, p))
  {
    hide Pick, Asks, RoutesOk, FifosOk, PortBalance, WriteQueue, ReadQueue, MemOk, ConfigOk, StepsTo, Waiting;
    var pick := Pick(Waiting(s, side), Next(s, side), 0);
    if pick.Some? {
      AsksIsWaiting(c, s, side, pick.value);
      forall q: nat | q < c.ports && Asks(s, side, q)
        ensures StepsTo(Next(s, side), pick.value, c.ports) <= StepsTo(Next(s, side), q, c.ports)
      {
        AsksIsWaiting(c, s, side, q);
        PickNearest(Waiting(s, side), Next(s, side), 0, q);
      }
    } else {
      NoPick(s, side);
      forall p: nat | p < c.ports ensures !Asks(s, side, p) { AsksIsWaiting(c, s, side, p); }
    }
  }

  // ---- what is granted ----------------------------------------------------------------------------

  /** Port p is next and there is a free route. */
  ghost predicate Chosen(c: Config, s: Fabric, side: Side, p: nat)
    requires c.ports == |s.h.logs| > 0 && Turn(c, Grants(s, side)) < c.ports
  {
    IsNext(c, s, side, p) && Flying(s, side) < c.routeDepth
  }

  /** Its oldest request not yet granted. */
  ghost function Wanted(s: Fabric, side: Side, p: nat): AddressPayload
    requires p < |s.h.logs| && Asks(s, side, p)
  {
    Sent(s.h.logs[p], side)[GrantedTo(s, side, p)]
  }

  /** From s to t the request of the chosen port was granted, if there is one. */
  ghost predicate GrantsChosen(c: Config, s: Fabric, t: Fabric, side: Side)
    requires c.ports == |s.h.logs| > 0 && Turn(c, Grants(s, side)) < c.ports
  {
    if exists p: nat :: Chosen(c, s, side, p) then
      exists p: nat, r: Route ::
        Chosen(c, s, side, p) && r.port == p && r.payload == Wanted(s, side, p) && RouteOk(c, r) &&
        Grants(t, side) == Grants(s, side) + [r]
    else Grants(t, side) == Grants(s, side)
  }

  /** The chosen request is illegal. */
  ghost predicate Offends(c: Config, s: Fabric, side: Side, e: Error)
    requires c.ports == |s.h.logs| > 0 && Turn(c, Grants(s, side)) < c.ports
  {
    exists p: nat :: Chosen(c, s, side, p) && Refusal(c, Wanted(s, side, p)) == Some(e)
  }

  lemma OneChosen(c: Config, s: Fabric, side: Side, p: nat, q: nat)
    requires c.ports == |s.h.logs| > 0 && Turn(c, Grants(s, side)) < c.ports
    requires Chosen(c, s, side, p) && Chosen(c, s, side, q)
    ensures p == q
  {
    hide Asks, Turn, Grants;
  }

  /** The grant phase of one side, on the pick of the scan. */
  ghost predicate GrantStep(c: Config, s: Fabric, o: Outcome, side: Side)
    requires Base(c, s)
  {
    var pick := Pick(Waiting(s, side), Next(s, side), 0);
    if Flying(s, side) >= c.routeDepth || pick.None? then o == Done(s)
    else
      var want := Requests(s.ports[pick.value], side)[0];
      var init := InitRoute(c, pick.value, want);
      if init.Refused? then o == Failed(s, init.error)
      else
        && o.Done? && Grants(o.s, side) == Grants(s, side) + [init.route]
        && Next(o.s, side) == (pick.value + 1) % c.ports
  }

  lemma GrantSteps(c: Config, s: Fabric)
    requires Base(c, s)
    ensures GrantStep(c, s, GrantWrite(c, s), Writes) && GrantStep(c, s, GrantRead(c, s), Reads)
  {
    hide InitRoute, Pick, FifosOk, MemOk, AwWaiting, ArWaiting;
  }

  lemma StepIsExact(c: Config, s: Fabric, o: Outcome, side: Side)
    requires Base(c, s) && Order(c, s) && Pointed(c, s) && GrantStep(c, s, o, side)
    ensures c.ports == |s.h.logs| > 0 && Turn(c, Grants(s, side)) < c.ports
    ensures o.Failed? <==> exists e :: Offends(c, s, side, e)
    ensures o.Failed? ==> Offends(c, s, side, o.error)
    ensures o.Done? ==> GrantsChosen(c, s, o.s, side) && Next(o.s, side) == Turn(c, Grants(o.s, side))
  {
    hide InitRoute, Pick, FifosOk, MemOk, Waiting, RoutesOk, Order, Asks, ConfigOk, Refusal, IsNext, Grants, Next, Sent;
    PickIsNext(c, s, side);
    var pick := Pick(Waiting(s, side), Next(s, side), 0);
    if Flying(s, side) >= c.routeDepth {
    } else if pick.None? {
      forall p: nat ensures !Chosen(c, s, side, p) { NobodyNext(c, s, side, p); }
    } else {
      var p := pick.value;
      assert Chosen(c, s, side, p);
      NextAsks(c, s, side, p);
      AsksIsWaiting(c, s, side, p);
      RefusedExactly(c, p, Wanted(s, side, p));
      forall q: nat | Chosen(c, s, side, q) ensures q == p { OneChosen(c, s, side, p, q); }
      if o.Failed? { assert Offends(c, s, side, o.error); }
    }
  }

  lemma NobodyNext(c: Config, s: Fabric, side: Side, p: nat)
    requires c.ports == |s.h.logs| > 0 && Turn(c, Grants(s, side)) < c.ports
    requires forall q: nat | q < c.ports :: !Asks(s, side, q)
    ensures !Chosen(c, s, side, p)
  {
    hide Asks, Turn, Grants;
  }

  lemma NextAsks(c: Config, s: Fabric, side: Side, p: nat)
    requires c.ports == |s.h.logs| > 0 && Turn(c, Grants(s, side)) < c.ports && IsNext(c, s, side, p)
    ensures p < c.ports && Asks(s, side, p)
  {
    hide Asks, Turn, Grants;
  }

  // ---- runs ------------------------------------------------------------------------------------------

  lemma SamePointed(c: Config, s: Fabric, t: Fabric)
    requires Pointed(c, s) && t.nextAw == s.nextAw && t.nextAr == s.nextAr
    requires t.h.wgrants == s.h.wgrants && t.h.rgrants == s.h.rgrants
    ensures Pointed(c, t)
  {}

  /** GrantWrite leaves the read side alone. */
  lemma WriteGrantApart(c: Config, s: Fabric)
    requires Base(c, s)
    ensures var t := GrantWrite(c, s).s;
            && t.h.rgrants == s.h.rgrants && t.nextAr == s.nextAr && t.readRoutes == s.readRoutes
            && t.h.logs == s.h.logs && t.h.served == s.h.served
  {
    hide InitRoute, Pick, RoutesOk, FifosOk, MemOk;
  }

  lemma ReadGrantApart(c: Config, s: Fabric)
    requires Base(c, s)
    ensures var t := GrantRead(c, s).s;
            t.h.wgrants == s.h.wgrants && t.nextAw == s.nextAw && t.writeRoutes == s.writeRoutes && t.h.logs == s.h.logs
  {
    hide InitRoute, Pick, RoutesOk, FifosOk, MemOk;
  }

  lemma SameOffence(c: Config, s: Fabric, t: Fabric, e: Error)
    requires c.ports == |s.h.logs| > 0 && Turn(c, Grants(s, Reads)) < c.ports
    requires t.h.rgrants == s.h.rgrants && t.readRoutes == s.readRoutes && t.h.logs == s.h.logs
    ensures Offends(c, t, Reads, e) <==> Offends(c, s, Reads, e)
  {
    hide Refusal, AwOf, StepsTo;
    forall p: nat ensures Chosen(c, t, Reads, p) <==> Chosen(c, s, Reads, p) {}
    forall p: nat | Chosen(c, s, Reads, p) ensures Wanted(t, Reads, p) == Wanted(s, Reads, p) {}
  }

  lemma SameReadGrants(c: Config, s: Fabric, t: Fabric, u: Fabric)
    requires c.ports == |s.h.logs| > 0 && Turn(c, Grants(s, Reads)) < c.ports
    requires t.h.rgrants == s.h.rgrants && t.readRoutes == s.readRoutes && t.h.logs == s.h.logs
    requires GrantsChosen(c, t, u, Reads)
    ensures GrantsChosen(c, s, u, Reads)
  {
    hide RouteOk, AwOf, StepsTo;
    forall p: nat ensures Chosen(c, t, Reads, p) <==> Chosen(c, s, Reads, p) {}
    forall p: nat | Chosen(c, s, Reads, p) ensures Wanted(t, Reads, p) == Wanted(s, Reads, p) {}
  }

  /** The outcome of arbitration: an error exactly if a chosen request is illegal, that
      of AW before that of AR; otherwise both chosen requests are granted. */
  ghost predicate Arbitrated(c: Config, s: Fabric, o: Outcome)
    requires c.ports == |s.h.logs| > 0 && Turn(c, Grants(s, Writes)) < c.ports && Turn(c, Grants(s, Reads)) < c.ports
  {
    && (o.Failed? <==> exists e :: Offends(c, s, Writes, e) || Offends(c, s, Reads, e))
    && (o.Failed? ==> Offends(c, s, Writes, o.error) ||
                      ((forall e :: !Offends(c, s, Writes, e)) && Offends(c, s, Reads, o.error)))
    && (o.Done? ==> GrantsChosen(c, s, o.s, Writes) && GrantsChosen(c, s, o.s, Reads))
  }

  /** Arbitration as a whole: the write side first, then the read side. */
  lemma ArbitrateExact(c: Config, s: Fabric)
    requires Base(c, s) && Order(c, s) && Pointed(c, s)
    ensures c.ports == |s.h.logs| > 0 && Turn(c, s.h.wgrants) < c.ports && Turn(c, s.h.rgrants) < c.ports
    ensures var o := Arbitrate(c, s);
            Arbitrated(c, s, o) && (o.Done? ==> Pointed(c, o.s))
  {
    hide GrantWrite, GrantRead, RoutesOk, FifosOk, MemOk, Order, GrantStep, GrantsChosen, Offends, ConfigOk, Turn;
    GrantSteps(c, s);
    StepIsExact(c, s, GrantWrite(c, s), Writes);
    assert Turn(c, s.h.rgrants) < c.ports by { PickIsNext(c, s, Reads); }
    GrantWriteBase(c, s);
    WriteGrantApart(c, s);
    var o1 := GrantWrite(c, s);
    if o1.Done? {
      var t := o1.s;
      GrantWriteKeepsOrder(c, s);
      assert Pointed(c, t);
      GrantSteps(c, t);
      StepIsExact(c, t, GrantRead(c, t), Reads);
      ReadGrantApart(c, t);
      forall e ensures Offends(c, t, Reads, e) <==> Offends(c, s, Reads, e) { SameOffence(c, s, t, e); }
      if GrantRead(c, t).Done? {
        SameReadGrants(c, s, t, GrantRead(c, t).s);
        SameWriteGrants(c, s, t, GrantRead(c, t).s);
      }
    }
  }

  lemma SameWriteGrants(c: Config, s: Fabric, t: Fabric, u: Fabric)
    requires c.ports == |s.h.logs| > 0 && Turn(c, Grants(s, Writes)) < c.ports
    requires GrantsChosen(c, s, t, Writes) && u.h.wgrants == t.h.wgrants
    ensures GrantsChosen(c, s, u, Writes)
  {
    hide RouteOk, Chosen, Wanted;
  }

  lemma GrantWriteKeepsOrder(c: Config, s: Fabric)
    requires Base(c, s) && Order(c, s) && GrantWrite(c, s).Done?
    ensures Order(c, GrantWrite(c, s).s)
  {
    hide Order, GrantWrite, RoutesOk, FifosOk;
    GrantWriteShape(c, s);
    var o := GrantWrite(c, s);
    if o.s != s {
      var p: nat, r :| RouteOk(c, r) && GrantedWrite(c, s, o.s, p, r);
      GrantedWriteOrder(c, s, o.s, p, r);
    }
  }

  lemma ProcessPointed(c: Config, s: Fabric, reply: Reply)
    requires Base(c, s) && Pointed(c, s)
    ensures Pointed(c, Process(c, s, reply).s)
  {
    hide Process, RoutesOk, FifosOk;
    ProcessAt(c, s, reply, 0);
    SamePointed(c, s, Process(c, s, reply).s);
  }

  lemma CyclePointed(c: Config, s: Fabric, x: Stimulus)
    requires Base(c, s) && StimulusOk(c, x) && Order(c, s) && Pointed(c, s)
    requires Cycle(c, s, x).Done?
    ensures Pointed(c, Cycle(c, s, x).s)
  {
    hide Arbitrate, Process, AfterIngress, RoutesOk, FifosOk, Order, Pointed, Arbitrated;
    DriveBase(c, s, x.reset, x.stalls);
    var d := Drive(c, s, x.reset, x.stalls);
    SamePointed(c, s, d);
    if x.reset {
      ResetPointed(c, d);
    } else {
      CycleParts(c, s, x);
      IngressKeeps(c, s, x);
      var s1 := AfterIngress(c, s, x).s;
      SamePointed(c, s, s1);
      ArbitrateExact(c, s1);
      ProcessPointed(c, Arbitrate(c, s1).s, x.reply);
      SamePointed(c, Process(c, Arbitrate(c, s1).s, x.reply).s, Cycle(c, s, x).s);
    }
  }

  lemma ResetPointed(c: Config, s: Fabric)
    requires Base(c, s) && Pointed(c, s)
    ensures Pointed(c, ResetCycle(c, s))
  {}

  /** The first three phases grant nothing and keep the queues in order. */
  lemma IngressKeeps(c: Config, s: Fabric, x: Stimulus)
    requires Base(c, s) && Order(c, s) && StimulusOk(c, x) && !x.reset && AfterIngress(c, s, x).Done?
    ensures var t := AfterIngress(c, s, x).s;
            && Order(c, t) && t.nextAw == s.nextAw && t.nextAr == s.nextAr
            && t.h.wgrants == s.h.wgrants && t.h.rgrants == s.h.rgrants
  {
    hide Ingress, RoutesOk, FifosOk, Order, OfferedFrom, RoomFrom;
    DriveBase(c, s, false, x.stalls);
    var d := Drive(c, s, false, x.stalls);
    DriveOffers(c, s, false, x.stalls);
    SameTrafficKeepsOrder(c, s, d);
    AwakeOrder(c, d);
    IngressOrder(c, Awake(c, d), x.inputs);
    IngressPortsOnly(c, Awake(c, d), x.inputs);
  }

  lemma {:induction false} RunPointed(c: Config, mem: Mem, xs: seq<Stimulus>)
    requires ConfigOk(c) && MemOk(c, mem) && StimuliOk(c, xs) && Base(c, Init(c, mem)) && Run(c, Init(c, mem), xs).Done?
    ensures Pointed(c, Run(c, Init(c, mem), xs).s) && Order(c, Run(c, Init(c, mem), xs).s)
  {
    hide Cycle, RoutesOk, FifosOk, Order;
    RunOrder(c, mem, xs);
    if xs != [] {
      RunPointed(c, mem, xs[..|xs| - 1]);
      CyclePointed(c, Run(c, Init(c, mem), xs[..|xs| - 1]).s, xs[|xs| - 1]);
    }
  }

  /**
    In every run and every further cycle, once its requests are accepted: if some port
    asks and a route is free, the asking port nearest after the one granted last is
    granted its oldest request, AW and AR apart; nothing else is granted; and the
    cycle stops with an error exactly if such a request is illegal, with the error
    that says how.
   */
  lemma GrantsExact(c: Config, mem: Mem, xs: seq<Stimulus>, x: Stimulus)
    requires ConfigOk(c) && MemOk(c, mem) && StimuliOk(c, xs) && StimulusOk(c, x) && !x.reset
    requires Base(c, Init(c, mem)) && Run(c, Init(c, mem), xs).Done?
    requires AfterIngress(c, Run(c, Init(c, mem), xs).s, x).Done?
    ensures var s := AfterIngress(c, Run(c, Init(c, mem), xs).s, x).s;
            var o := Arbitrate(c, s);
            && c.ports == |s.h.logs| > 0 && Turn(c, s.h.wgrants) < c.ports && Turn(c, s.h.rgrants) < c.ports
            && Arbitrated(c, s, o)
  {
    hide Cycle, Arbitrate, AfterIngress, RoutesOk, FifosOk, Order, Pointed, Arbitrated, Turn, Run;
    RunPointed(c, mem, xs);
    var s := Run(c, Init(c, mem), xs).s;
    IngressKeeps(c, s, x);
    SamePointed(c, s, AfterIngress(c, s, x).s);
    ArbitrateExact(c, AfterIngress(c, s, x).s);
  }
}
