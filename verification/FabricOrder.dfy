/**
  Conservation and order: nothing a port sends is lost, duplicated or reordered.
  Everything accepted since reset is accounted for by what was granted, staged,
  finished, queued and retired.
 */
module FabricOrder {
  import opened Axi
  import opened Fabric
  import opened FabricRun

  // ---- projections of the global queues onto one port --------------------------

  /** Payloads of the routes of port p, in grant order. */
  ghost function AwOf(p: nat, rs: seq<Route>): seq<AddressPayload> {
    if rs == [] then []
    else AwOf(p, rs[..|rs| - 1]) + (if rs[|rs| - 1].port == p then [rs[|rs| - 1].payload] else [])
  }

  /** W beats as the master sent them: WLAST on beat number n exactly. */
  ghost function BeatsOf(staged: seq<Staged>, n: nat): seq<WriteBeat> {
    seq(|staged|, i requires 0 <= i < |staged| => WriteBeat(staged[i].data, staged[i].strobe, i + 1 == n))
  }

  /** W beats of port p consumed by the first |st| routes, st[i] by route i. */
  ghost function WOf(p: nat, rs: seq<Route>, st: seq<seq<Staged>>): seq<WriteBeat>
    requires |st| <= |rs|
    decreases |st|
  {
    if st == [] then []
    else
      var n := |st| - 1;
      WOf(p, rs, st[..n]) + (if rs[n].port == p then BeatsOf(st[n], Beats(rs[n].payload)) else [])
  }

  /** Write responses of port p, in completion order. */
  ghost function BOf(p: nat, rs: seq<Route>, done: seq<DoneWrite>): seq<WriteResponse>
    requires |done| <= |rs|
    decreases |done|
  {
    if done == [] then []
    else
      var n := |done| - 1;
      BOf(p, rs, done[..n]) + (if rs[n].port == p then [done[n].response] else [])
  }

  /** Read beats of port p, in service order. */
  ghost function ROf(p: nat, served: seq<Served>): seq<ReadBeat> {
    if served == [] then []
    else
      var last := served[|served| - 1];
      ROf(p, served[..|served| - 1]) + (if last.route.port == p then [last.out] else [])
  }

  /** (route, beat number) of the first n beats of one read. */
  ghost function BeatsUpTo(r: Route, n: nat): seq<(Route, nat)> { seq(n, i requires 0 <= i < n => (r, i)) }

  /** All beats of the first k routes, route after route. */
  ghost function Expand(rs: seq<Route>, k: nat): seq<(Route, nat)>
    requires k <= |rs|
  {
    if k == 0 then [] else Expand(rs, k - 1) + BeatsUpTo(rs[k - 1], Beats(rs[k - 1].payload))
  }

  ghost function KeysOf(served: seq<Served>): seq<(Route, nat)> {
    seq(|served|, i requires 0 <= i < |served| => (served[i].route, served[i].beat))
  }

  ghost function StagedOf(done: seq<DoneWrite>): seq<seq<Staged>> {
    seq(|done|, i requires 0 <= i < |done| => done[i].staged)
  }

  /** Staging areas of all routes that have consumed W beats. */
  ghost function Staging(s: Fabric): seq<seq<Staged>> {
    StagedOf(s.h.done) + (if s.writeRoutes == [] then [] else [s.writeRoutes[0].staged])
  }

  // ---- the invariant ---------------------------------------------------------------

  ghost predicate WriteQueue(s: Fabric) {
    && |s.h.done| + |s.writeRoutes| == |s.h.wgrants|
    && (forall i | 0 <= i < |s.writeRoutes| :: s.writeRoutes[i].route == s.h.wgrants[|s.h.done| + i])
    && (forall i | 0 <= i < |s.h.done| ::
          && |s.h.done[i].staged| == Beats(s.h.wgrants[i].payload)
          && s.h.done[i].response.id == s.h.wgrants[i].payload.id)
  }

  ghost predicate ReadRoutesGranted(s: Fabric) {
    && |s.readRoutes| <= |s.h.rgrants|
    && (forall i | 0 <= i < |s.readRoutes| :: s.readRoutes[i].route == s.h.rgrants[|s.h.rgrants| - |s.readRoutes| + i])
  }

  /** Beats of the oldest read already served. */
  ghost function Partial(routes: seq<ReadRoute>): seq<(Route, nat)> {
    if routes == [] then [] else BeatsUpTo(routes[0].route, routes[0].beat)
  }

  ghost predicate ServedInOrder(s: Fabric)
    requires |s.readRoutes| <= |s.h.rgrants|
  {
    KeysOf(s.h.served) == Expand(s.h.rgrants, |s.h.rgrants| - |s.readRoutes|) + Partial(s.readRoutes)
  }

  predicate WellServed(x: Served) {
    x.out.id == x.route.payload.id && (x.out.last <==> x.beat + 1 == Beats(x.route.payload))
  }

  ghost predicate ReadQueue(s: Fabric) {
    && ReadRoutesGranted(s) && ServedInOrder(s)
    && (forall i | 0 <= i < |s.h.served| :: WellServed(s.h.served[i]))
  }

  ghost predicate PortBalance(s: Fabric, p: nat)
    requires p < |s.ports| && p < |s.h.logs| && WriteQueue(s)
  {
    && AwOf(p, s.h.wgrants) + s.ports[p].aw == s.h.logs[p].aw
    && WOf(p, s.h.wgrants, Staging(s)) + s.ports[p].w == s.h.logs[p].w
    && BOf(p, s.h.wgrants, s.h.done) == s.h.logs[p].b + s.ports[p].b
    && AwOf(p, s.h.rgrants) + s.ports[p].ar == s.h.logs[p].ar
    && ROf(p, s.h.served) == s.h.logs[p].r + s.ports[p].r
  }

  ghost predicate Order(c: Config, s: Fabric) {
    && |s.ports| == c.ports == |s.h.logs|
    && WriteQueue(s) && ReadQueue(s)
    && forall p | 0 <= p < c.ports :: PortBalance(s, p)
  }

  // ---- outputs agree with the queues they were driven from ----------------------------

  ghost predicate Offered(port: Port, out: Slave) {
    && (out.b.Some? ==> port.b != [] && out.b.value == port.b[0])
    && (out.r.Some? ==> port.r != [] && out.r.value == port.r[0])
  }

  ghost predicate HasRoom(c: Config, port: Port, out: Slave) {
    && (out.awReady ==> |port.aw| < c.addressDepth)
    && (out.wReady ==> |port.w| < c.writeDepth)
    && (out.arReady ==> |port.ar| < c.addressDepth)
  }

  ghost predicate OfferedFrom(c: Config, s: Fabric, p: nat) {
    && |s.ports| == c.ports == |s.outputs|
    && forall q | p <= q < c.ports :: Offered(s.ports[q], s.outputs[q])
  }

  ghost predicate RoomFrom(c: Config, s: Fabric, p: nat) {
    && |s.ports| == c.ports == |s.outputs|
    && forall q | p <= q < c.ports :: HasRoom(c, s.ports[q], s.outputs[q])
  }

  lemma DriveOffers(c: Config, s: Fabric, reset: bool, stalls: seq<Stall>)
    requires Base(c, s) && |stalls| == c.ports
    ensures OfferedFrom(c, Drive(c, s, reset, stalls), 0) && RoomFrom(c, Drive(c, s, reset, stalls), 0)
  {}

  // ---- phase 1 changes no queue -------------------------------------------------------

  ghost predicate SameQueues(a: Port, b: Port) {
    a.aw == b.aw && a.w == b.w && a.ar == b.ar && a.b == b.b && a.r == b.r
  }

  /** Two states that differ only in watches, outputs and flags. */
  ghost predicate Alike(s: Fabric, t: Fabric) {
    && |t.ports| == |s.ports|
    && (forall p | 0 <= p < |s.ports| :: SameQueues(s.ports[p], t.ports[p]))
    && t.readRoutes == s.readRoutes && t.writeRoutes == s.writeRoutes
    && t.h == s.h && t.mem == s.mem && t.monitors == s.monitors
  }

  lemma CheckPortAlike(c: Config, s: Fabric, inputs: seq<Master>, p: nat)
    requires Sized(c, s) && |inputs| == c.ports && p < c.ports
    ensures Alike(s, CheckPort(c, s, inputs, p).s)
    ensures CheckPort(c, s, inputs, p).s.outputs == s.outputs
    ensures CheckPort(c, s, inputs, p).Failed? ==> CheckPort(c, s, inputs, p).error.Unstable?
  {
    hide MemOk;
  }

  lemma CheckAlike(c: Config, s: Fabric, inputs: seq<Master>, p: nat)
    requires Sized(c, s) && |inputs| == c.ports && p <= c.ports
    ensures Alike(s, CheckStability(c, s, inputs, p).s)
    ensures CheckStability(c, s, inputs, p).s.outputs == s.outputs
    ensures CheckStability(c, s, inputs, p).Failed? ==> CheckStability(c, s, inputs, p).error.Unstable?
    decreases c.ports - p
  {
    if p < c.ports {
      CheckPortAlike(c, s, inputs, p);
      var o := CheckPort(c, s, inputs, p);
      if o.Done? { CheckAlike(c, o.s, inputs, p + 1); }
    }
  }

  /** Two states with the same queues, routes and transaction history. */
  ghost predicate SameTraffic(s: Fabric, t: Fabric) {
    && |t.ports| == |s.ports|
    && (forall p | 0 <= p < |s.ports| :: SameQueues(s.ports[p], t.ports[p]))
    && t.readRoutes == s.readRoutes && t.writeRoutes == s.writeRoutes
    && t.h == s.h.(events := t.h.events, accesses := t.h.accesses, replies := t.h.replies)
  }

  lemma SameTrafficKeepsOrder(c: Config, s: Fabric, t: Fabric)
    requires Order(c, s) && SameTraffic(s, t)
    ensures Order(c, t)
  {
    assert Staging(t) == Staging(s);
    forall p | 0 <= p < c.ports ensures PortBalance(t, p) {
      assert PortBalance(s, p) && SameQueues(s.ports[p], t.ports[p]);
    }
  }

  lemma AlikeKeepsDriven(c: Config, s: Fabric, t: Fabric)
    requires Alike(s, t) && OfferedFrom(c, s, 0) && RoomFrom(c, s, 0) && t.outputs == s.outputs
    ensures OfferedFrom(c, t, 0) && RoomFrom(c, t, 0)
  {
    forall q | 0 <= q < c.ports ensures Offered(t.ports[q], t.outputs[q]) && HasRoom(c, t.ports[q], t.outputs[q]) {
      assert SameQueues(s.ports[q], t.ports[q]);
      assert Offered(s.ports[q], s.outputs[q]) && HasRoom(c, s.ports[q], s.outputs[q]);
    }
  }

  // ---- phases 2 and 3 move one port's elements between queue and log -------------------

  /** t differs from s only in port p's queues and log. */
  ghost predicate OnlyPort(c: Config, s: Fabric, t: Fabric, p: nat) {
    && |t.ports| == |s.ports| == c.ports && |t.h.logs| == |s.h.logs| == c.ports && p < c.ports
    && (forall q | 0 <= q < c.ports && q != p :: t.ports[q] == s.ports[q] && t.h.logs[q] == s.h.logs[q])
    && t.readRoutes == s.readRoutes && t.writeRoutes == s.writeRoutes
    && t.h == s.h.(logs := t.h.logs, retired := t.h.retired)
    && t.outputs == s.outputs && t.mem == s.mem && t.monitors == s.monitors
  }

  lemma OnlyPortKeepsOrder(c: Config, s: Fabric, t: Fabric, p: nat)
    requires Order(c, s) && OnlyPort(c, s, t, p)
    requires WriteQueue(t) ==> PortBalance(t, p)
    ensures Order(c, t)
  {
    assert Staging(t) == Staging(s);
    forall q | 0 <= q < c.ports ensures PortBalance(t, q) {
      assert PortBalance(s, q);
    }
  }

  lemma Associates<T>(a: seq<T>, b: seq<T>, c: seq<T>)
    ensures (a + b) + c == a + (b + c)
  {}

  lemma AppendBoth<T>(a: seq<T>, q: seq<T>, all: seq<T>, x: T)
    requires a + q == all
    ensures a + (q + [x]) == all + [x]
  {}

  lemma MoveFront<T>(all: seq<T>, gone: seq<T>, q: seq<T>)
    requires q != [] && all == gone + q
    ensures all == (gone + [q[0]]) + q[1..]
  {
    assert q == [q[0]] + q[1..];
  }

  lemma RetireBOrder(c: Config, s: Fabric, inputs: seq<Master>, p: nat)
    requires Sized(c, s) && |inputs| == c.ports && p < c.ports
    requires Order(c, s) && Offered(s.ports[p], s.outputs[p])
    ensures RetireB(c, s, inputs, p).Done?
    ensures OnlyPort(c, s, RetireB(c, s, inputs, p).s, p) && Order(c, RetireB(c, s, inputs, p).s)
    ensures RetireB(c, s, inputs, p).s.ports[p] == s.ports[p].(b := RetireB(c, s, inputs, p).s.ports[p].b)
  {
    var t := RetireB(c, s, inputs, p).s;
    assert PortBalance(s, p);
    if s.outputs[p].b.Some? && inputs[p].bReady {
      MoveFront(BOf(p, s.h.wgrants, s.h.done), s.h.logs[p].b, s.ports[p].b);
    }
    assert Staging(t) == Staging(s);
    OnlyPortKeepsOrder(c, s, t, p);
  }

  lemma RetireROrder(c: Config, s: Fabric, inputs: seq<Master>, p: nat)
    requires Sized(c, s) && |inputs| == c.ports && p < c.ports
    requires Order(c, s) && (s.outputs[p].r.Some? ==> s.ports[p].r != [] && s.outputs[p].r.value == s.ports[p].r[0])
    ensures RetireR(c, s, inputs, p).Done?
    ensures OnlyPort(c, s, RetireR(c, s, inputs, p).s, p) && Order(c, RetireR(c, s, inputs, p).s)
    ensures RetireR(c, s, inputs, p).s.ports[p] == s.ports[p].(r := RetireR(c, s, inputs, p).s.ports[p].r)
  {
    hide ReadQueue, WriteQueue;
    var t := RetireR(c, s, inputs, p).s;
    assert PortBalance(s, p);
    if s.outputs[p].r.Some? && inputs[p].rReady {
      MoveFront(ROf(p, s.h.served), s.h.logs[p].r, s.ports[p].r);
    }
    assert Staging(t) == Staging(s);
    OnlyPortKeepsOrder(c, s, t, p);
  }

  lemma RetireOrder(c: Config, s: Fabric, inputs: seq<Master>, p: nat)
    requires Sized(c, s) && |inputs| == c.ports && p <= c.ports
    requires Order(c, s) && OfferedFrom(c, s, p) && RoomFrom(c, s, 0)
    ensures Retire(c, s, inputs, p).Done?
    ensures Order(c, Retire(c, s, inputs, p).s) && RoomFrom(c, Retire(c, s, inputs, p).s, 0)
    decreases c.ports - p
  {
    if p < c.ports {
      assert Offered(s.ports[p], s.outputs[p]);
      RetireBOrder(c, s, inputs, p);
      var s1 := RetireB(c, s, inputs, p).s;
      RetireROrder(c, s1, inputs, p);
      var s2 := RetireR(c, s1, inputs, p).s;
      RoomKept(c, s, s1, p);
      RoomKept(c, s1, s2, p);
      forall q | p + 1 <= q < c.ports ensures Offered(s2.ports[q], s2.outputs[q]) {
        assert Offered(s.ports[q], s.outputs[q]);
      }
      RetireOrder(c, s2, inputs, p + 1);
    }
  }

  lemma RoomKept(c: Config, s: Fabric, t: Fabric, p: nat)
    requires RoomFrom(c, s, 0) && OnlyPort(c, s, t, p)
    requires t.ports[p] == s.ports[p].(b := t.ports[p].b) || t.ports[p] == s.ports[p].(r := t.ports[p].r)
    ensures RoomFrom(c, t, 0)
  {
    forall q | 0 <= q < c.ports ensures HasRoom(c, t.ports[q], t.outputs[q]) {
      assert HasRoom(c, s.ports[q], s.outputs[q]);
    }
  }

  lemma AcceptAwOrder(c: Config, s: Fabric, inputs: seq<Master>, p: nat)
    requires Sized(c, s) && |inputs| == c.ports && p < c.ports
    requires Order(c, s) && (s.outputs[p].awReady ==> |s.ports[p].aw| < c.addressDepth)
    ensures AcceptAw(c, s, inputs, p).Done?
    ensures OnlyPort(c, s, AcceptAw(c, s, inputs, p).s, p) && Order(c, AcceptAw(c, s, inputs, p).s)
    ensures AcceptAw(c, s, inputs, p).s.ports[p] == s.ports[p].(aw := AcceptAw(c, s, inputs, p).s.ports[p].aw)
  {
    hide WriteQueue, ReadQueue, AwOf, WOf;
    var t := AcceptAw(c, s, inputs, p).s;
    assert PortBalance(s, p);
    if inputs[p].aw.Some? && s.outputs[p].awReady {
      AppendBoth(AwOf(p, s.h.wgrants), s.ports[p].aw, s.h.logs[p].aw, inputs[p].aw.value);
    }
    assert Staging(t) == Staging(s);
    OnlyPortKeepsOrder(c, s, t, p);
  }

  lemma AcceptWOrder(c: Config, s: Fabric, inputs: seq<Master>, p: nat)
    requires Sized(c, s) && |inputs| == c.ports && p < c.ports
    requires Order(c, s) && (s.outputs[p].wReady ==> |s.ports[p].w| < c.writeDepth)
    ensures AcceptW(c, s, inputs, p).Done?
    ensures OnlyPort(c, s, AcceptW(c, s, inputs, p).s, p) && Order(c, AcceptW(c, s, inputs, p).s)
    ensures AcceptW(c, s, inputs, p).s.ports[p] == s.ports[p].(w := AcceptW(c, s, inputs, p).s.ports[p].w)
  {
    hide WOf, AwOf, ReadQueue;
    var t := AcceptW(c, s, inputs, p).s;
    assert PortBalance(s, p);
    if inputs[p].w.Some? && s.outputs[p].wReady {
      AppendBoth(WOf(p, s.h.wgrants, Staging(s)), s.ports[p].w, s.h.logs[p].w, inputs[p].w.value);
    }
    assert Staging(t) == Staging(s);
    OnlyPortKeepsOrder(c, s, t, p);
  }

  lemma AcceptArOrder(c: Config, s: Fabric, inputs: seq<Master>, p: nat)
    requires Sized(c, s) && |inputs| == c.ports && p < c.ports
    requires Order(c, s) && (s.outputs[p].arReady ==> |s.ports[p].ar| < c.addressDepth)
    ensures AcceptAr(c, s, inputs, p).Done?
    ensures OnlyPort(c, s, AcceptAr(c, s, inputs, p).s, p) && Order(c, AcceptAr(c, s, inputs, p).s)
  {
    var t := AcceptAr(c, s, inputs, p).s;
    assert PortBalance(s, p);
    if inputs[p].ar.Some? && s.outputs[p].arReady {
      AppendBoth(AwOf(p, s.h.rgrants), s.ports[p].ar, s.h.logs[p].ar, inputs[p].ar.value);
    }
    assert Staging(t) == Staging(s);
    OnlyPortKeepsOrder(c, s, t, p);
  }

  lemma AcceptOrder(c: Config, s: Fabric, inputs: seq<Master>, p: nat)
    requires Sized(c, s) && |inputs| == c.ports && p <= c.ports
    requires Order(c, s) && RoomFrom(c, s, p)
    ensures Accept(c, s, inputs, p).Done?
    ensures Order(c, Accept(c, s, inputs, p).s)
    decreases c.ports - p
  {
    if p < c.ports {
      assert HasRoom(c, s.ports[p], s.outputs[p]);
      AcceptAwOrder(c, s, inputs, p);
      var s1 := AcceptAw(c, s, inputs, p).s;
      AcceptWOrder(c, s1, inputs, p);
      var s2 := AcceptW(c, s1, inputs, p).s;
      AcceptArOrder(c, s2, inputs, p);
      var s3 := AcceptAr(c, s2, inputs, p).s;
      forall q | p + 1 <= q < c.ports ensures HasRoom(c, s3.ports[q], s3.outputs[q]) {
        assert HasRoom(c, s.ports[q], s.outputs[q]);
      }
      AcceptOrder(c, s3, inputs, p + 1);
    }
  }

  // ---- how the projections grow -----------------------------------------------------------

  lemma AwOfPush(p: nat, rs: seq<Route>, r: Route)
    ensures AwOf(p, rs + [r]) == AwOf(p, rs) + (if r.port == p then [r.payload] else [])
  {
    assert (rs + [r])[..|rs|] == rs;
  }

  lemma WOfPush(p: nat, rs: seq<Route>, st: seq<seq<Staged>>, x: seq<Staged>)
    requires |st| < |rs|
    ensures WOf(p, rs, st + [x]) ==
            WOf(p, rs, st) + (if rs[|st|].port == p then BeatsOf(x, Beats(rs[|st|].payload)) else [])
  {
    assert (st + [x])[..|st|] == st;
  }

  lemma {:induction false} WOfMoreRoutes(p: nat, rs: seq<Route>, r: Route, st: seq<seq<Staged>>)
    requires |st| <= |rs|
    ensures WOf(p, rs + [r], st) == WOf(p, rs, st)
    decreases |st|
  {
    if st != [] { WOfMoreRoutes(p, rs, r, st[..|st| - 1]); }
  }

  lemma BOfPush(p: nat, rs: seq<Route>, done: seq<DoneWrite>, d: DoneWrite)
    requires |done| < |rs|
    ensures BOf(p, rs, done + [d]) == BOf(p, rs, done) + (if rs[|done|].port == p then [d.response] else [])
  {
    assert (done + [d])[..|done|] == done;
  }

  lemma {:induction false} BOfMoreRoutes(p: nat, rs: seq<Route>, r: Route, done: seq<DoneWrite>)
    requires |done| <= |rs|
    ensures BOf(p, rs + [r], done) == BOf(p, rs, done)
    decreases |done|
  {
    if done != [] { BOfMoreRoutes(p, rs, r, done[..|done| - 1]); }
  }

  lemma ROfPush(p: nat, served: seq<Served>, x: Served)
    ensures ROf(p, served + [x]) == ROf(p, served) + (if x.route.port == p then [x.out] else [])
  {
    assert (served + [x])[..|served|] == served;
  }

  lemma {:induction false} ExpandMoreRoutes(rs: seq<Route>, r: Route, k: nat)
    requires k <= |rs|
    ensures Expand(rs + [r], k) == Expand(rs, k)
  {
    if k > 0 { ExpandMoreRoutes(rs, r, k - 1); }
  }

  // ---- phase 4: a grant moves the oldest request into the routes -----------------------------

  /** One more write route r from the front of port p's AW queue. */
  ghost predicate GrantedWrite(c: Config, s: Fabric, t: Fabric, p: nat, r: Route) {
    && p < c.ports && |s.ports| == c.ports && s.ports[p].aw != []
    && r.port == p && r.payload == s.ports[p].aw[0]
    && t.ports == s.ports[p := s.ports[p].(aw := s.ports[p].aw[1..])]
    && t.writeRoutes == s.writeRoutes + [WriteRoute(r, [], Okay, None, 0, false)]
    && t.readRoutes == s.readRoutes
    && t.h == s.h.(wgrants := s.h.wgrants + [r])
  }

  lemma GrantWriteShape(c: Config, s: Fabric)
    requires Base(c, s)
    ensures var o := GrantWrite(c, s);
            o.Done? ==> o.s == s || exists p: nat, r :: RouteOk(c, r) && GrantedWrite(c, s, o.s, p, r)
  {
    var o := GrantWrite(c, s);
    var pick := Pick(AwWaiting(s.ports), s.nextAw, 0);
    if o.Done? && |s.writeRoutes| != c.routeDepth && pick.Some? {
      var r := InitRoute(c, pick.value, s.ports[pick.value].aw[0]).route;
      assert RouteOk(c, r) && GrantedWrite(c, s, o.s, pick.value, r);
    }
  }

  lemma GrantedWriteQueue(c: Config, s: Fabric, t: Fabric, p: nat, r: Route)
    requires Order(c, s) && GrantedWrite(c, s, t, p, r)
    ensures WriteQueue(t) && ReadQueue(t)
    ensures Staging(t) == Staging(s) || Staging(t) == Staging(s) + [[]]
  {}

  lemma GrantedWriteOrder(c: Config, s: Fabric, t: Fabric, p: nat, r: Route)
    requires Order(c, s) && GrantedWrite(c, s, t, p, r)
    ensures Order(c, t)
  {
    hide ReadQueue, ServedInOrder, AwOf, WOf, BOf, WellServed;
    GrantedWriteQueue(c, s, t, p, r);
    forall q | 0 <= q < c.ports ensures PortBalance(t, q) {
      assert PortBalance(s, q);
      AwOfPush(q, s.h.wgrants, r);
      WOfMoreRoutes(q, s.h.wgrants, r, Staging(s));
      if Staging(t) == Staging(s) + [[]] { WOfPush(q, t.h.wgrants, Staging(s), []); }
      BOfMoreRoutes(q, s.h.wgrants, r, s.h.done);
    }
  }

  ghost predicate GrantedRead(c: Config, s: Fabric, t: Fabric, p: nat, r: Route) {
    && p < c.ports && |s.ports| == c.ports && s.ports[p].ar != []
    && r.port == p && r.payload == s.ports[p].ar[0]
    && t.ports == s.ports[p := s.ports[p].(ar := s.ports[p].ar[1..])]
    && t.readRoutes == s.readRoutes + [ReadRoute(r, 0)]
    && t.writeRoutes == s.writeRoutes
    && t.h == s.h.(rgrants := s.h.rgrants + [r])
  }

  lemma GrantReadShape(c: Config, s: Fabric)
    requires Base(c, s)
    ensures var o := GrantRead(c, s);
            o.Done? ==> o.s == s || exists p: nat, r :: RouteOk(c, r) && GrantedRead(c, s, o.s, p, r)
  {
    var o := GrantRead(c, s);
    var pick := Pick(ArWaiting(s.ports), s.nextAr, 0);
    if o.Done? && |s.readRoutes| != c.routeDepth && pick.Some? {
      var r := InitRoute(c, pick.value, s.ports[pick.value].ar[0]).route;
      assert RouteOk(c, r) && GrantedRead(c, s, o.s, pick.value, r);
    }
  }

  lemma GrantedReadQueue(c: Config, s: Fabric, t: Fabric, p: nat, r: Route)
    requires ReadQueue(s) && GrantedRead(c, s, t, p, r)
    ensures ReadQueue(t)
  {
    ExpandMoreRoutes(s.h.rgrants, r, |s.h.rgrants| - |s.readRoutes|);
    assert BeatsUpTo(r, 0) == [];
    assert Partial(t.readRoutes) == Partial(s.readRoutes);
  }

  lemma GrantedReadOrder(c: Config, s: Fabric, t: Fabric, p: nat, r: Route)
    requires Order(c, s) && GrantedRead(c, s, t, p, r)
    ensures Order(c, t)
  {
    hide ReadQueue;
    GrantedReadQueue(c, s, t, p, r);
    assert Staging(t) == Staging(s);
    forall q | 0 <= q < c.ports ensures PortBalance(t, q) {
      assert PortBalance(s, q);
      AwOfPush(q, s.h.rgrants, r);
    }
  }

  lemma ArbitrateOrder(c: Config, s: Fabric)
    requires Base(c, s) && Order(c, s)
    ensures Order(c, Arbitrate(c, s).s)
  {
    GrantWriteBase(c, s);
    GrantWriteShape(c, s);
    var o := GrantWrite(c, s);
    if o.Done? {
      if o.s != s {
        var p: nat, r :| RouteOk(c, r) && GrantedWrite(c, s, o.s, p, r);
        GrantedWriteOrder(c, s, o.s, p, r);
      }
      GrantReadShape(c, o.s);
      var o2 := GrantRead(c, o.s);
      if o2.Done? && o2.s != o.s {
        var p: nat, r :| RouteOk(c, r) && GrantedRead(c, o.s, o2.s, p, r);
        GrantedReadOrder(c, o.s, o2.s, p, r);
      }
    }
  }

  // ---- phase 5: staging and completion -----------------------------------------------------

  /** The oldest W beat carries the WLAST the burst calls for. */
  ghost predicate LastAgrees(s: Fabric)
    requires s.writeRoutes != [] && s.writeRoutes[0].route.port < |s.ports|
  {
    var f := s.writeRoutes[0];
    var w := s.ports[f.route.port].w;
    w != [] && (w[0].last <==> |f.staged| + 1 == Beats(f.route.payload))
  }

  /** Staging one beat, seen from port q. */
  lemma StagePort(s: Fabric, t: Fabric, q: nat)
    requires WriteQueue(s) && WriteQueue(t) && s.writeRoutes != [] && t.writeRoutes != []
    requires s.writeRoutes[0].route.port < |s.ports| && LastAgrees(s)
    requires q < |s.ports| == |t.ports| && q < |s.h.logs| && t.h == s.h
    requires t.writeRoutes[0].staged == s.writeRoutes[0].staged +
               [Staged(s.ports[s.writeRoutes[0].route.port].w[0].data,
                       s.ports[s.writeRoutes[0].route.port].w[0].strobe)]
    requires t.ports[q] == if q == s.writeRoutes[0].route.port then s.ports[q].(w := s.ports[q].w[1..]) else s.ports[q]
    requires PortBalance(s, q)
    ensures PortBalance(t, q)
  {
    hide WOf, BOf, ROf, AwOf, BeatsOf, ReadQueue;
    var f := s.writeRoutes[0];
    var w := s.ports[f.route.port].w;
    var more, n := t.writeRoutes[0].staged, Beats(f.route.payload);
    var before := StagedOf(s.h.done);
    assert Staging(s) == before + [f.staged] && Staging(t) == before + [more];
    BeatsOfPush(f.staged, w[0], n);
    WOfPush(q, s.h.wgrants, before, f.staged);
    WOfPush(q, s.h.wgrants, before, more);
    if q == f.route.port {
      assert w == [w[0]] + w[1..];
      var consumed := WOf(q, s.h.wgrants, before);
      Associates(consumed + BeatsOf(f.staged, n), [w[0]], w[1..]);
      Associates(consumed, BeatsOf(f.staged, n), [w[0]]);
    }
  }

  lemma BeatsOfPush(staged: seq<Staged>, w: WriteBeat, n: nat)
    requires w.last <==> |staged| + 1 == n
    ensures BeatsOf(staged + [Staged(w.data, w.strobe)], n) == BeatsOf(staged, n) + [w]
  {}

  lemma StageOrder(c: Config, s: Fabric)
    requires Sized(c, s) && Order(c, s) && s.writeRoutes != []
    requires s.writeRoutes[0].route.port < c.ports && LastAgrees(s)
    ensures Order(c, StageBeat(c, s))
  {
    var t := StageBeat(c, s);
    assert WriteQueue(t) && ReadQueue(t);
    forall q | 0 <= q < c.ports ensures PortBalance(t, q) {
      assert PortBalance(s, q);
      StagePort(s, t, q);
    }
  }

  lemma CompleteQueue(c: Config, s: Fabric, f: WriteRoute)
    requires Base(c, s) && Order(c, s) && s.writeRoutes != []
    requires f.route == s.writeRoutes[0].route && f.staged == s.writeRoutes[0].staged
    requires |f.staged| == Beats(f.route.payload) && f.route.port < c.ports
    ensures WriteQueue(CompleteWrite(c, s, f)) && ReadQueue(CompleteWrite(c, s, f))
    ensures var t := CompleteWrite(c, s, f);
            Staging(t) == Staging(s) || (Staging(t) == Staging(s) + [[]] && |Staging(s)| < |s.h.wgrants|)
  {
    hide ConfigOk, BusWidth, Beats, Sized;
    var t := CompleteWrite(c, s, f);
    forall i | 0 <= i < |t.writeRoutes| ensures t.writeRoutes[i] == s.writeRoutes[i + 1] {}
    assert StagedOf(t.h.done) == StagedOf(s.h.done) + [f.staged];
    if |s.writeRoutes| > 1 { assert s.writeRoutes[1].staged == []; }
  }

  /** Completing the oldest write, seen from port q. */
  lemma CompletePort(s: Fabric, t: Fabric, q: nat, d: DoneWrite)
    requires WriteQueue(s) && WriteQueue(t) && |s.h.done| < |s.h.wgrants|
    requires q < |s.ports| && q < |t.ports| && q < |s.h.logs|
    requires t.h == s.h.(done := s.h.done + [d])
    requires Staging(t) == Staging(s) || (Staging(t) == Staging(s) + [[]] && |Staging(s)| < |s.h.wgrants|)
    requires t.ports[q] == if s.h.wgrants[|s.h.done|].port == q then s.ports[q].(b := s.ports[q].b + [d.response])
                           else s.ports[q]
    requires PortBalance(s, q)
    ensures PortBalance(t, q)
  {
    hide BOf, WriteQueue, Staging;
    if Staging(t) == Staging(s) + [[]] { WOfPush(q, s.h.wgrants, Staging(s), []); }
    BOfPush(q, s.h.wgrants, s.h.done, d);
  }

  lemma CompleteOrder(c: Config, s: Fabric, f: WriteRoute)
    requires Base(c, s) && Order(c, s) && s.writeRoutes != []
    requires f.route == s.writeRoutes[0].route && f.staged == s.writeRoutes[0].staged
    requires |f.staged| == Beats(f.route.payload) && f.route.port < c.ports
    requires |s.ports[f.route.port].b| < c.responseDepth
    ensures Order(c, CompleteWrite(c, s, f))
  {
    var t := CompleteWrite(c, s, f);
    CompleteQueue(c, s, f);
    forall q | 0 <= q < c.ports ensures PortBalance(t, q) {
      assert PortBalance(s, q);
      CompletePort(s, t, q, t.h.done[|s.h.done|]);
    }
  }

  lemma AccessSameTraffic(s: Fabric, t: Fabric)
    requires AccessOnly(s, t)
    ensures SameTraffic(s, t)
  {}

  lemma CommitBeatOrder(c: Config, s: Fabric, reply: Reply)
    requires Base(c, s) && Order(c, s) && Committing(c, s)
    requires |s.ports[s.writeRoutes[0].route.port].b| < c.responseDepth
    ensures Order(c, CommitBeat(c, s, reply))
  {
    CommittingFacts(c, s);
    var s1, f1 := BeatEffect(c, s, reply), BeatFront(c, s, reply);
    AccessSameTraffic(s, s1);
    SameTrafficKeepsOrder(c, s, s1);
    AccessBase(c, s, s1);
    if f1.commitBeat == Beats(f1.route.payload) {
      CompleteOrder(c, s1, f1);
    } else {
      FrontRewritten(c, s1, f1);
    }
  }

  /** Rewriting the front route's progress leaves all accounts unchanged. */
  lemma FrontRewritten(c: Config, s: Fabric, f: WriteRoute)
    requires Order(c, s) && s.writeRoutes != []
    requires f.route == s.writeRoutes[0].route && f.staged == s.writeRoutes[0].staged
    ensures Order(c, s.(writeRoutes := s.writeRoutes[0 := f]))
  {
    var t := s.(writeRoutes := s.writeRoutes[0 := f]);
    assert Staging(t) == Staging(s);
    forall q | 0 <= q < c.ports ensures PortBalance(t, q) { assert PortBalance(s, q); }
  }

  lemma FinishOrder(c: Config, s: Fabric, reply: Reply)
    requires Base(c, s) && Order(c, s) && Finishing(c, s)
    requires |s.ports[s.writeRoutes[0].route.port].b| < c.responseDepth
    ensures Order(c, FinishExclusive(c, s, reply))
  {
    FinishingFacts(c, s);
    var s1 := ExclusiveEffect(c, s, reply);
    AccessSameTraffic(s, s1);
    SameTrafficKeepsOrder(c, s, s1);
    AccessBase(c, s, s1);
    CompleteOrder(c, s1, s.writeRoutes[0].(response := ExclusiveAnswer(c, s, reply)));
  }

  lemma WriteCommitOrder(c: Config, s: Fabric, reply: Reply)
    requires Base(c, s) && Order(c, s) && s.writeRoutes != [] && s.writeRoutes[0].dataComplete
    ensures Order(c, WriteCommit(c, s, reply))
  {
    var f := s.writeRoutes[0];
    assert WriteOk(c, f);
    if |s.ports[f.route.port].b| == c.responseDepth {
    } else if f.route.payload.lock {
      FinishOrder(c, s, reply);
    } else if !f.route.forced.Okay? {
      CompleteOrder(c, s, f.(response := Combine(f.response, f.route.forced)));
    } else {
      CommitBeatOrder(c, s, reply);
    }
  }

  lemma WriteStepOrder(c: Config, s: Fabric, reply: Reply)
    requires Base(c, s) && Order(c, s)
    ensures Order(c, WriteStep(c, s, reply).s)
  {
    var o := WriteStep(c, s, reply);
    if s.writeRoutes != [] {
      var f := s.writeRoutes[0];
      assert WriteOk(c, f);
      if f.dataComplete {
        WriteCommitOrder(c, s, reply);
      } else if s.ports[f.route.port].w != [] && o.Done? {
        StageBase(c, s);
        StageOrder(c, s);
        var s1 := StageBeat(c, s);
        if s1.writeRoutes[0].dataComplete { WriteCommitOrder(c, s1, reply); }
      }
    }
  }

  // ---- phase 6: one read beat --------------------------------------------------------------

  lemma ServedKeysContinue(rs: seq<Route>, k: nat, served: seq<Served>, x: Served)
    requires k < |rs| && x.route == rs[k]
    requires KeysOf(served) == Expand(rs, k) + BeatsUpTo(x.route, x.beat)
    ensures KeysOf(served + [x]) == Expand(rs, k) + BeatsUpTo(x.route, x.beat + 1)
    ensures x.beat + 1 == Beats(x.route.payload) ==> KeysOf(served + [x]) == Expand(rs, k + 1) + []
  {
    var e := Expand(rs, k);
    assert KeysOf(served + [x]) == KeysOf(served) + [(x.route, x.beat)];
    assert BeatsUpTo(x.route, x.beat) + [(x.route, x.beat)] == BeatsUpTo(x.route, x.beat + 1);
    assert (e + BeatsUpTo(x.route, x.beat)) + [(x.route, x.beat)]
           == e + (BeatsUpTo(x.route, x.beat) + [(x.route, x.beat)]);
  }

  /** The served list grows by the next beat of the oldest read. */
  lemma ServeQueue(s: Fabric, t: Fabric, x: Served)
    requires ReadQueue(s) && s.readRoutes != []
    requires |s.readRoutes| > 1 ==> s.readRoutes[1].beat == 0
    requires x.route == s.readRoutes[0].route && x.beat == s.readRoutes[0].beat < Beats(x.route.payload)
    requires WellServed(x)
    requires t.h.rgrants == s.h.rgrants && t.h.served == s.h.served + [x]
    requires t.readRoutes == if x.beat + 1 == Beats(x.route.payload) then s.readRoutes[1..]
                             else s.readRoutes[0 := ReadRoute(x.route, x.beat + 1)]
    ensures ReadQueue(t)
  {
    hide Expand, WellServed, KeysOf, Beats, BeatsUpTo, ReadRoutesGranted;
    ReadsStayGranted(s, t);
    FirstGranted(s);
    var k := |s.h.rgrants| - |s.readRoutes|;
    ServedKeysContinue(s.h.rgrants, k, s.h.served, x);
    if x.beat + 1 == Beats(x.route.payload) {
      NextUnserved(s.readRoutes);
      assert |t.readRoutes| == |s.readRoutes| - 1 && Partial(t.readRoutes) == [];
    } else {
      assert Partial(t.readRoutes) == BeatsUpTo(x.route, x.beat + 1);
    }
  }

  lemma FirstGranted(s: Fabric)
    requires ReadRoutesGranted(s) && s.readRoutes != []
    ensures |s.readRoutes| <= |s.h.rgrants|
    ensures s.readRoutes[0].route == s.h.rgrants[|s.h.rgrants| - |s.readRoutes|]
  {}

  lemma NextUnserved(rs: seq<ReadRoute>)
    requires rs != [] && (|rs| > 1 ==> rs[1].beat == 0)
    ensures Partial(rs[1..]) == []
  {}

  /** Dropping or advancing the oldest read leaves the others granted. */
  lemma ReadsStayGranted(s: Fabric, t: Fabric)
    requires ReadRoutesGranted(s) && s.readRoutes != [] && t.h.rgrants == s.h.rgrants
    requires || t.readRoutes == s.readRoutes[1..]
             || (t.readRoutes != [] && t.readRoutes == s.readRoutes[0 := t.readRoutes[0]] &&
                 t.readRoutes[0].route == s.readRoutes[0].route)
    ensures ReadRoutesGranted(t)
  {
    if t.readRoutes == s.readRoutes[1..] {
      forall i | 0 <= i < |t.readRoutes|
        ensures t.readRoutes[i].route == t.h.rgrants[|t.h.rgrants| - |t.readRoutes| + i]
      {
        assert t.readRoutes[i] == s.readRoutes[i + 1];
      }
    }
  }

  lemma ServePort(s: Fabric, t: Fabric, q: nat, x: Served)
    requires WriteQueue(s) && WriteQueue(t)
    requires q < |s.ports| && q < |t.ports| && q < |s.h.logs|
    requires t.h == s.h.(served := s.h.served + [x], accesses := t.h.accesses, replies := t.h.replies)
    requires Staging(t) == Staging(s)
    requires t.ports[q] == if x.route.port == q then s.ports[q].(r := s.ports[q].r + [x.out]) else s.ports[q]
    requires PortBalance(s, q)
    ensures PortBalance(t, q)
  {
    ROfPush(q, s.h.served, x);
  }

  /** t is s after the oldest read delivered beat x. */
  ghost predicate Serves(c: Config, s: Fabric, t: Fabric, x: Served) {
    && s.readRoutes != []
    && x.route == s.readRoutes[0].route && x.beat == s.readRoutes[0].beat
    && x.after == |s.h.done| && x.seen == |s.h.events|
    && x.route.port < |s.ports| && x.beat < Beats(x.route.payload) && WellServed(x)
    && (|s.readRoutes| > 1 ==> s.readRoutes[1].beat == 0)
    && t.h == s.h.(served := s.h.served + [x], accesses := t.h.accesses, replies := t.h.replies)
    && t.readRoutes == (if x.beat + 1 == Beats(x.route.payload) then s.readRoutes[1..]
                        else s.readRoutes[0 := ReadRoute(x.route, x.beat + 1)])
    && t.writeRoutes == s.writeRoutes && t.mem == s.mem && t.monitors == s.monitors
    && var port := s.ports[x.route.port];
       t.ports == s.ports[x.route.port := port.(r := Push(port.r, c.responseDepth, x.out))]
  }

  lemma ServeReadShape(c: Config, s: Fabric, reply: Reply) returns (x: Served)
    requires Base(c, s) && s.readRoutes != []
    ensures RouteOk(c, x.route) && Serves(c, s, ServeRead(c, s, reply), x)
    ensures x.reply == reply && x.out == ServedBeat(c, s.mem, x.route, x.beat, reply)
  {
    assert ReadOk(c, s.readRoutes[0]);
    x := ServeRead(c, s, reply).h.served[|s.h.served|];
  }

  lemma ServesOrder(c: Config, s: Fabric, t: Fabric, x: Served)
    requires Order(c, s) && Serves(c, s, t, x) && |s.ports[x.route.port].r| < c.responseDepth
    ensures Order(c, t)
  {
    ServeQueue(s, t, x);
    assert Staging(t) == Staging(s) && WriteQueue(t);
    forall q | 0 <= q < c.ports ensures PortBalance(t, q) {
      assert PortBalance(s, q);
      ServePort(s, t, q, x);
    }
  }

  lemma ServeOrder(c: Config, s: Fabric, reply: Reply)
    requires Base(c, s) && Order(c, s) && s.readRoutes != []
    requires |s.ports[s.readRoutes[0].route.port].r| < c.responseDepth
    ensures Order(c, ServeRead(c, s, reply))
  {
    var x := ServeReadShape(c, s, reply);
    ServesOrder(c, s, ServeRead(c, s, reply), x);
  }

  lemma ReadStepOrder(c: Config, s: Fabric, reply: Reply)
    requires Base(c, s) && Order(c, s)
    ensures Order(c, ReadStep(c, s, reply).s)
  {
    hide Order, PortBalance, WriteQueue, ServeRead, ReadQueue, Beats, FindFree, ServedBeat, FindMonitor, Push,
         SetPort, ConfigOk, ReadAccess;
    if s.readRoutes != [] {
      var f := s.readRoutes[0];
      assert ReadOk(c, f);
      if |s.ports[f.route.port].r| != c.responseDepth {
        var o := Establish(c, s, f.route);
        assert SameTraffic(s, o.s) && Base(c, o.s);
        SameTrafficKeepsOrder(c, s, o.s);
        if f.route.payload.lock && f.beat == 0 && f.route.forced.Okay? {
          if o.Done? { ServeOrder(c, o.s, reply); }
        } else {
          ServeOrder(c, s, reply);
        }
      }
    }
  }

  // ---- whole cycles ------------------------------------------------------------------------

  /** Ingress can only fail because a master broke VALID stability. */
  lemma IngressOrder(c: Config, s: Fabric, inputs: seq<Master>)
    requires Base(c, s) && InputsOk(c, inputs) && Order(c, s)
    requires OfferedFrom(c, s, 0) && RoomFrom(c, s, 0)
    ensures Order(c, Ingress(c, s, inputs).s)
    ensures Ingress(c, s, inputs).Failed? ==> Ingress(c, s, inputs).error.Unstable?
  {
    CheckBase(c, s, inputs, 0);
    CheckAlike(c, s, inputs, 0);
    var o1 := CheckStability(c, s, inputs, 0);
    SameTrafficKeepsOrder(c, s, o1.s);
    if o1.Done? {
      AlikeKeepsDriven(c, s, o1.s);
      RetireBase(c, o1.s, inputs, 0);
      RetireOrder(c, o1.s, inputs, 0);
      AcceptOrder(c, Retire(c, o1.s, inputs, 0).s, inputs, 0);
    }
  }

  lemma ProcessOrder(c: Config, s: Fabric, reply: Reply)
    requires Base(c, s) && Order(c, s)
    ensures Order(c, Process(c, s, reply).s)
  {
    hide RoutesOk, Order, ReadQueue;
    var s0 := Unsuppress(c, s);
    SameTrafficKeepsOrder(c, s, s0);
    WriteStepBase(c, s0, reply);
    WriteStepOrder(c, s0, reply);
    var o := WriteStep(c, s0, reply);
    if o.Done? && !o.s.suppressRead { ReadStepOrder(c, o.s, reply); }
  }

  lemma FreshOrder(c: Config, s: Fabric)
    requires |s.ports| == c.ports && (forall p | 0 <= p < c.ports :: s.ports[p] == EmptyPort())
    requires s.writeRoutes == [] && s.readRoutes == [] && s.h == FreshHistory(c, s.h.base)
    ensures Order(c, s)
  {
    assert Staging(s) == [];
    assert KeysOf(s.h.served) == [];
    assert WriteQueue(s) && ReadQueue(s);
    forall p | 0 <= p < c.ports ensures PortBalance(s, p) {
      assert s.h.logs[p] == EmptyLog() && s.ports[p] == EmptyPort();
      assert AwOf(p, []) == [] && WOf(p, [], []) == [] && BOf(p, [], []) == [] && ROf(p, []) == [];
    }
  }

  /** An internal fault of the fabric rather than a protocol violation. */
  predicate InternalError(e: Error) { e.FifoOverflow? || e.QueueEmpty? }

  lemma ArbitrateErrors(c: Config, s: Fabric)
    requires Base(c, s)
    ensures Arbitrate(c, s).Failed? ==> !InternalError(Arbitrate(c, s).error)
  {}

  lemma ProcessErrors(c: Config, s: Fabric, reply: Reply)
    requires Base(c, s)
    ensures Process(c, s, reply).Failed? ==> !InternalError(Process(c, s, reply).error)
  {
    WriteStepBase(c, Unsuppress(c, s), reply);
  }

  lemma ResetOrder(c: Config, s: Fabric)
    requires Base(c, s) && Order(c, s)
    ensures Order(c, ResetCycle(c, s))
  {
    if s.wasReset { SameTrafficKeepsOrder(c, s, ResetCycle(c, s)); } else { FreshOrder(c, ResetCycle(c, s)); }
  }

  lemma AwakeOrder(c: Config, s: Fabric)
    requires Base(c, s) && Order(c, s) && OfferedFrom(c, s, 0) && RoomFrom(c, s, 0)
    ensures Order(c, Awake(c, s)) && OfferedFrom(c, Awake(c, s), 0) && RoomFrom(c, Awake(c, s), 0)
  {
    SameTrafficKeepsOrder(c, s, Awake(c, s));
    AlikeKeepsDriven(c, s, Awake(c, s));
  }

  lemma TickOrder(c: Config, s: Fabric)
    requires Base(c, s) && Order(c, s)
    ensures Order(c, Tick(c, s))
  {
    SameTrafficKeepsOrder(c, s, Tick(c, s));
  }

  lemma CommitOrder(c: Config, s: Fabric, inputs: seq<Master>, reply: Reply)
    requires Base(c, s) && InputsOk(c, inputs) && Order(c, s)
    requires OfferedFrom(c, s, 0) && RoomFrom(c, s, 0)
    ensures Order(c, Commit(c, s, inputs, false, reply).s)
    ensures Commit(c, s, inputs, false, reply).Failed? ==> !InternalError(Commit(c, s, inputs, false, reply).error)
  {
    AwakeOrder(c, s);
    IngressOrder(c, Awake(c, s), inputs);
    var o1 := Ingress(c, Awake(c, s), inputs);
    if o1.Done? {
      ArbitrateOrder(c, o1.s);
      ArbitrateErrors(c, o1.s);
      var o2 := Arbitrate(c, o1.s);
      if o2.Done? {
        ProcessOrder(c, o2.s, reply);
        ProcessErrors(c, o2.s, reply);
        var o3 := Process(c, o2.s, reply);
        if o3.Done? { TickOrder(c, o3.s); }
      }
    }
  }

  lemma CycleOrder(c: Config, s: Fabric, x: Stimulus)
    requires Base(c, s) && StimulusOk(c, x) && Order(c, s)
    ensures Order(c, Cycle(c, s, x).s)
    ensures Cycle(c, s, x).Failed? ==> !InternalError(Cycle(c, s, x).error)
  {
    var d := Drive(c, s, x.reset, x.stalls);
    DriveBase(c, s, x.reset, x.stalls);
    DriveOffers(c, s, x.reset, x.stalls);
    SameTrafficKeepsOrder(c, s, d);
    if x.reset { ResetOrder(c, d); } else { CommitOrder(c, d, x.inputs, x.reply); }
  }

  /** In every run, at every cycle and at every error, all accounts balance; the
      fabric never overflows a FIFO or reads an empty one. */
  lemma {:induction false} RunOrder(c: Config, mem: Mem, xs: seq<Stimulus>)
    requires ConfigOk(c) && MemOk(c, mem) && StimuliOk(c, xs)
    ensures Base(c, Init(c, mem)) && Order(c, Run(c, Init(c, mem), xs).s)
    ensures Run(c, Init(c, mem), xs).Failed? ==> !InternalError(Run(c, Init(c, mem), xs).error)
  {
    InitBase(c, mem);
    if xs == [] {
      FreshOrder(c, Init(c, mem));
    } else {
      RunOrder(c, mem, xs[..|xs| - 1]);
      var o := Run(c, Init(c, mem), xs[..|xs| - 1]);
      if o.Done? { CycleOrder(c, o.s, xs[|xs| - 1]); }
    }
  }
}
