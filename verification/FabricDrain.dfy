/** Once the masters stop asking and keep taking responses, the fabric goes idle. */
module FabricDrain {
  import opened Axi
  import opened Fabric
  import opened FabricRun
  import opened FabricOrder
  import opened FabricErrors
  import opened FabricPhases
  import opened FabricFair

  // ---- sums -----------------------------------------------------------------------------------

  function Sum(xs: seq<int>): int {
    if xs == [] then 0 else xs[0] + Sum(xs[1..])
  }

  lemma {:induction false} SumConcat(a: seq<int>, b: seq<int>)
    ensures Sum(a + b) == Sum(a) + Sum(b)
  {
    if a == [] {
      assert a + b == b;
    } else {
      SumConcat(a[1..], b);
      assert (a + b)[1..] == a[1..] + b;
    }
  }

  lemma SumPush(a: seq<int>, x: int)
    ensures Sum(a + [x]) == Sum(a) + x
  {
    SumConcat(a, [x]);
    assert Sum([x]) == x + Sum([]);
  }

  lemma SumFirst(a: seq<int>)
    requires a != []
    ensures Sum(a) == a[0] + Sum(a[1..])
  {}

  lemma SumUpdate(a: seq<int>, i: nat, x: int)
    requires i < |a|
    ensures Sum(a[i := x]) == Sum(a) - a[i] + x
  {
    SumConcat(a[..i], a[i..]);
    SumConcat(a[..i], [x] + a[i + 1..]);
    SumFirst(a[i..]);
    SumFirst([x] + a[i + 1..]);
    assert a == a[..i] + a[i..] && a[i := x] == a[..i] + ([x] + a[i + 1..]);
  }

  lemma {:induction false} SumLe(a: seq<int>, b: seq<int>)
    requires |a| == |b| && forall i | 0 <= i < |a| :: a[i] <= b[i]
    ensures Sum(a) <= Sum(b)
    ensures (exists i :: 0 <= i < |a| && a[i] < b[i]) ==> Sum(a) < Sum(b)
  {
    if a != [] {
      SumLe(a[1..], b[1..]);
      if i :| 0 <= i < |a| && a[i] < b[i] {
        if i > 0 { assert a[1..][i - 1] < b[1..][i - 1]; }
      }
    }
  }

  lemma {:induction false} SumNonNeg(a: seq<int>)
    requires forall i | 0 <= i < |a| :: a[i] >= 0
    ensures Sum(a) >= 0
    ensures forall i | 0 <= i < |a| :: a[i] <= Sum(a)
  {
    if a != [] {
      SumNonNeg(a[1..]);
      forall i | 0 <= i < |a| ensures a[i] <= Sum(a) {
        if i > 0 { assert a[1..][i - 1] == a[i]; }
      }
    }
  }

  // ---- remaining work ------------------------------------------------------------------------------

  function AwCosts(q: seq<AddressPayload>): seq<int> { seq(|q|, i requires 0 <= i < |q| => Beats(q[i]) + 3) }
  function ArCosts(q: seq<AddressPayload>): seq<int> { seq(|q|, i requires 0 <= i < |q| => 2 * Beats(q[i]) + 2) }

  ghost function PortWork(p: Port): int { Sum(AwCosts(p.aw)) + |p.w| + Sum(ArCosts(p.ar)) + |p.b| + |p.r| }

  ghost function WriteCost(w: WriteRoute): int { Beats(w.route.payload) - w.commitBeat + 2 }
  ghost function ReadCost(r: ReadRoute): int { 2 * (Beats(r.route.payload) - r.beat) + 1 }

  ghost function PortCosts(ps: seq<Port>): seq<int> { seq(|ps|, i requires 0 <= i < |ps| => PortWork(ps[i])) }
  ghost function WriteCosts(ws: seq<WriteRoute>): seq<int> { seq(|ws|, i requires 0 <= i < |ws| => WriteCost(ws[i])) }
  ghost function ReadCosts(rs: seq<ReadRoute>): seq<int> { seq(|rs|, i requires 0 <= i < |rs| => ReadCost(rs[i])) }

  /** Steps still to be taken: grants, W beats, commits, read beats, retirements. */
  ghost function Work(s: Fabric): int {
    Sum(PortCosts(s.ports)) + Sum(WriteCosts(s.writeRoutes)) + Sum(ReadCosts(s.readRoutes))
  }

  ghost predicate PortIdle(p: Port) { p.aw == [] && p.w == [] && p.ar == [] && p.b == [] && p.r == [] }

  /** `idle()` of the source. */
  ghost predicate Idle(s: Fabric) {
    s.readRoutes == [] && s.writeRoutes == [] && forall p | 0 <= p < |s.ports| :: PortIdle(s.ports[p])
  }

  lemma PortWorkZero(p: Port)
    ensures PortWork(p) >= 0
    ensures PortWork(p) == 0 <==> PortIdle(p)
  {
    SumNonNeg(AwCosts(p.aw));
    SumNonNeg(ArCosts(p.ar));
    if p.aw != [] { assert AwCosts(p.aw)[0] > 0; }
    if p.ar != [] { assert ArCosts(p.ar)[0] > 0; }
  }

  lemma RouteCostsPositive(c: Config, s: Fabric)
    requires RoutesOk(c, s)
    ensures Sum(WriteCosts(s.writeRoutes)) >= 0 && Sum(ReadCosts(s.readRoutes)) >= 0
    ensures s.writeRoutes != [] ==> Sum(WriteCosts(s.writeRoutes)) > 0
    ensures s.readRoutes != [] ==> Sum(ReadCosts(s.readRoutes)) > 0
  {
    var ws, rs := WriteCosts(s.writeRoutes), ReadCosts(s.readRoutes);
    forall i | 0 <= i < |ws| ensures ws[i] > 0 { assert WriteOk(c, s.writeRoutes[i]); }
    forall i | 0 <= i < |rs| ensures rs[i] > 0 { assert ReadOk(c, s.readRoutes[i]); }
    SumNonNeg(ws);
    SumNonNeg(rs);
    if s.writeRoutes != [] { assert ws[0] > 0; }
    if s.readRoutes != [] { assert rs[0] > 0; }
  }

  /** No work remains exactly when the fabric is idle. */
  lemma WorkZero(c: Config, s: Fabric)
    requires Base(c, s)
    ensures Work(s) >= 0
    ensures Work(s) == 0 <==> Idle(s)
  {
    var costs := PortCosts(s.ports);
    forall i | 0 <= i < |costs| ensures costs[i] >= 0 { PortWorkZero(s.ports[i]); }
    SumNonNeg(costs);
    RouteCostsPositive(c, s);
    if Work(s) == 0 {
      forall p | 0 <= p < |s.ports| ensures PortIdle(s.ports[p]) {
        assert costs[p] <= Sum(costs);
        PortWorkZero(s.ports[p]);
      }
    }
    if Idle(s) {
      forall i | 0 <= i < |costs| ensures costs[i] == 0 { PortWorkZero(s.ports[i]); }
      SumLe(costs, seq(|costs|, _ => 0));
      SumZeros(|costs|);
    }
  }

  lemma {:induction false} SumZeros(n: nat)
    ensures Sum(seq(n, _ => 0)) == 0
  {
    if n > 0 {
      SumZeros(n - 1);
      assert seq(n, _ => 0)[1..] == seq(n - 1, _ => 0);
    }
  }

  // ---- W beats match what the pending writes need ------------------------------------------------------

  ghost function Missing(p: nat, w: WriteRoute): int {
    if w.route.port == p then Beats(w.route.payload) - |w.staged| else 0
  }

  ghost function MissingBeats(p: nat, ws: seq<WriteRoute>): seq<int> {
    seq(|ws|, i requires 0 <= i < |ws| => Missing(p, ws[i]))
  }

  ghost function BeatCounts(q: seq<AddressPayload>): seq<int> { seq(|q|, i requires 0 <= i < |q| => Beats(q[i])) }

  /** The W queue of each port holds exactly the beats its pending writes need. */
  ghost predicate Balanced(s: Fabric) {
    forall p | 0 <= p < |s.ports| ::
      |s.ports[p].w| == Sum(MissingBeats(p, s.writeRoutes)) + Sum(BeatCounts(s.ports[p].aw))
  }

  // ---- ingress ------------------------------------------------------------------------------------------

  /** No request offered, every response taken. */
  ghost predicate Quiet(c: Config, x: Stimulus) {
    !x.reset && |x.inputs| == c.ports &&
    forall p | 0 <= p < c.ports :: x.inputs[p] == Master(None, None, true, None, true)
  }

  ghost predicate SomeResponse(s: Fabric) {
    exists p :: 0 <= p < |s.ports| && (s.ports[p].b != [] || s.ports[p].r != [])
  }

  /** A quiet ingress only retires responses. */
  ghost predicate Retires(a: Port, b: Port) {
    && b.aw == a.aw && b.w == a.w && b.ar == a.ar
    && b.b == (if a.b == [] then [] else a.b[1..]) && b.r == (if a.r == [] then [] else a.r[1..])
  }

  lemma RetiresWork(a: Port, b: Port)
    requires Retires(a, b)
    ensures PortWork(b) <= PortWork(a) && (a.b != [] || a.r != [] ==> PortWork(b) < PortWork(a))
  {}

  lemma IngressWork(s: Fabric, t: Fabric)
    requires |t.ports| == |s.ports| && (forall q | 0 <= q < |s.ports| :: Retires(s.ports[q], t.ports[q]))
    requires t.writeRoutes == s.writeRoutes && t.readRoutes == s.readRoutes
    ensures Work(t) <= Work(s) && (SomeResponse(s) ==> Work(t) < Work(s))
    ensures Balanced(s) ==> Balanced(t)
    ensures !SomeResponse(s) ==> !SomeResponse(t)
  {
    var a, b := PortCosts(s.ports), PortCosts(t.ports);
    forall q | 0 <= q < |a| ensures b[q] <= a[q] { RetiresWork(s.ports[q], t.ports[q]); }
    if q :| 0 <= q < |s.ports| && (s.ports[q].b != [] || s.ports[q].r != []) {
      RetiresWork(s.ports[q], t.ports[q]);
      assert b[q] < a[q];
    }
    SumLe(b, a);
  }

  lemma QuietIngress(c: Config, s: Fabric, x: Stimulus)
    requires Base(c, s) && StimulusOk(c, x) && Quiet(c, x)
    requires (DriveBase(c, s, false, x.stalls); Ingress(c, Awake(c, Drive(c, s, false, x.stalls)), x.inputs).Done?)
    ensures (DriveBase(c, s, false, x.stalls);
             var t := Ingress(c, Awake(c, Drive(c, s, false, x.stalls)), x.inputs).s;
             && |t.ports| == |s.ports| && (forall q | 0 <= q < |s.ports| :: Retires(s.ports[q], t.ports[q]))
             && t.writeRoutes == s.writeRoutes && t.readRoutes == s.readRoutes)
  {
    DriveBase(c, s, false, x.stalls);
    var d := Awake(c, Drive(c, s, false, x.stalls));
    IngressPortsOnly(c, d, x.inputs);
    forall q | 0 <= q < |s.ports| ensures Retires(s.ports[q], Ingress(c, d, x.inputs).s.ports[q]) {
      IngressAt(c, d, x.inputs, q);
      assert x.inputs[q] == Master(None, None, true, None, true);
    }
  }

  // ---- arbitration -----------------------------------------------------------------------------------------

  lemma AwCostsTail(q: seq<AddressPayload>)
    requires q != []
    ensures Sum(AwCosts(q)) == Beats(q[0]) + 3 + Sum(AwCosts(q[1..]))
    ensures Sum(BeatCounts(q)) == Beats(q[0]) + Sum(BeatCounts(q[1..]))
  {
    assert AwCosts(q)[1..] == AwCosts(q[1..]);
    assert BeatCounts(q)[1..] == BeatCounts(q[1..]);
  }

  lemma ArCostsTail(q: seq<AddressPayload>)
    requires q != []
    ensures Sum(ArCosts(q)) == 2 * Beats(q[0]) + 2 + Sum(ArCosts(q[1..]))
  {
    assert ArCosts(q)[1..] == ArCosts(q[1..]);
  }

  lemma PortReplaced(ps: seq<Port>, p: nat, x: Port)
    requires p < |ps|
    ensures Sum(PortCosts(ps[p := x])) == Sum(PortCosts(ps)) - PortWork(ps[p]) + PortWork(x)
  {
    SumUpdate(PortCosts(ps), p, PortWork(x));
    assert PortCosts(ps[p := x]) == PortCosts(ps)[p := PortWork(x)];
  }

  lemma GrantedWriteWork(c: Config, s: Fabric, t: Fabric, p: nat, r: Route)
    requires GrantedWrite(c, s, t, p, r)
    ensures Work(t) == Work(s) - 1
    ensures Balanced(s) ==> Balanced(t)
  {
    hide Sum;
    var q := s.ports[p].aw;
    AwCostsTail(q);
    PortReplaced(s.ports, p, s.ports[p].(aw := q[1..]));
    SumPush(WriteCosts(s.writeRoutes), Beats(r.payload) + 2);
    assert WriteCosts(t.writeRoutes) == WriteCosts(s.writeRoutes) + [Beats(r.payload) + 2];
    forall x: nat | x < |s.ports|
      ensures Sum(MissingBeats(x, t.writeRoutes))
              == Sum(MissingBeats(x, s.writeRoutes)) + (if x == p then Beats(r.payload) else 0)
    {
      var more := if x == p then Beats(r.payload) else 0;
      SumPush(MissingBeats(x, s.writeRoutes), more);
      assert MissingBeats(x, t.writeRoutes) == MissingBeats(x, s.writeRoutes) + [more];
    }
  }

  lemma GrantedReadWork(c: Config, s: Fabric, t: Fabric, p: nat, r: Route)
    requires GrantedRead(c, s, t, p, r)
    ensures Work(t) == Work(s) - 1
    ensures Balanced(s) ==> Balanced(t)
  {
    var q := s.ports[p].ar;
    ArCostsTail(q);
    PortReplaced(s.ports, p, s.ports[p].(ar := q[1..]));
    SumPush(ReadCosts(s.readRoutes), 2 * Beats(r.payload) + 1);
    assert ReadCosts(t.readRoutes) == ReadCosts(s.readRoutes) + [2 * Beats(r.payload) + 1];
  }

  // ---- processing --------------------------------------------------------------------------------------------

  lemma StageWork(c: Config, s: Fabric)
    requires Sized(c, s) && s.writeRoutes != [] && s.writeRoutes[0].route.port < c.ports
    requires s.ports[s.writeRoutes[0].route.port].w != []
    ensures Work(StageBeat(c, s)) == Work(s) - 1
    ensures Balanced(s) ==> Balanced(StageBeat(c, s))
  {
    var t, f := StageBeat(c, s), s.writeRoutes[0];
    var q := f.route.port;
    PortReplaced(s.ports, q, t.ports[q]);
    assert WriteCosts(t.writeRoutes) == WriteCosts(s.writeRoutes);
    forall x: nat | x < |s.ports|
      ensures Sum(MissingBeats(x, t.writeRoutes)) == Sum(MissingBeats(x, s.writeRoutes)) - (if x == q then 1 else 0)
    {
      SumUpdate(MissingBeats(x, s.writeRoutes), 0, Missing(x, t.writeRoutes[0]));
      assert MissingBeats(x, t.writeRoutes) == MissingBeats(x, s.writeRoutes)[0 := Missing(x, t.writeRoutes[0])];
    }
  }

  lemma CompleteWork(c: Config, s: Fabric, f: WriteRoute)
    requires Sized(c, s) && s.writeRoutes != [] && f.route == s.writeRoutes[0].route && f.route.port < c.ports
    requires s.writeRoutes[0].commitBeat < Beats(f.route.payload)
    requires |s.writeRoutes[0].staged| == Beats(f.route.payload)
    ensures Work(CompleteWrite(c, s, f)) < Work(s)
    ensures Balanced(s) ==> Balanced(CompleteWrite(c, s, f))
  {
    var t := CompleteWrite(c, s, f);
    var q := f.route.port;
    PortReplaced(s.ports, q, t.ports[q]);
    SumFirst(WriteCosts(s.writeRoutes));
    assert WriteCosts(t.writeRoutes) == WriteCosts(s.writeRoutes)[1..];
    forall x: nat | x < |s.ports| ensures Sum(MissingBeats(x, t.writeRoutes)) == Sum(MissingBeats(x, s.writeRoutes)) {
      SumFirst(MissingBeats(x, s.writeRoutes));
      assert MissingBeats(x, t.writeRoutes) == MissingBeats(x, s.writeRoutes)[1..];
    }
  }

  lemma SameQueuesWork(s: Fabric, t: Fabric)
    requires t.ports == s.ports && t.writeRoutes == s.writeRoutes && t.readRoutes == s.readRoutes
    ensures Work(t) == Work(s) && (Balanced(s) ==> Balanced(t))
  {}

  lemma AdvanceWork(s: Fabric, f: WriteRoute)
    requires s.writeRoutes != [] && f.route == s.writeRoutes[0].route && f.staged == s.writeRoutes[0].staged
    requires f.commitBeat > s.writeRoutes[0].commitBeat
    ensures Work(s.(writeRoutes := s.writeRoutes[0 := f])) < Work(s)
    ensures Balanced(s) ==> Balanced(s.(writeRoutes := s.writeRoutes[0 := f]))
  {
    var t := s.(writeRoutes := s.writeRoutes[0 := f]);
    SumUpdate(WriteCosts(s.writeRoutes), 0, WriteCost(f));
    assert WriteCosts(t.writeRoutes) == WriteCosts(s.writeRoutes)[0 := WriteCost(f)];
    forall x: nat | x < |s.ports| ensures MissingBeats(x, t.writeRoutes) == MissingBeats(x, s.writeRoutes) {}
  }

  /** A complete burst with room for its response always makes progress. */
  lemma WriteCommitWork(c: Config, s: Fabric, reply: Reply)
    requires Base(c, s) && s.writeRoutes != [] && s.writeRoutes[0].dataComplete
    ensures var t := WriteCommit(c, s, reply);
            && Work(t) <= Work(s) && (Balanced(s) ==> Balanced(t))
            && (|s.ports[s.writeRoutes[0].route.port].b| < c.responseDepth ==> Work(t) < Work(s))
  {
    var f := s.writeRoutes[0];
    assert WriteOk(c, f);
    if |s.ports[f.route.port].b| == c.responseDepth {
    } else if f.route.payload.lock {
      var s1 := ExclusiveEffect(c, s, reply);
      SameQueuesWork(s, s1);
      CompleteWork(c, s1, f.(response := ExclusiveAnswer(c, s, reply)));
    } else if !f.route.forced.Okay? {
      CompleteWork(c, s, f.(response := Combine(f.response, f.route.forced)));
    } else {
      var s1, f1 := BeatEffect(c, s, reply), BeatFront(c, s, reply);
      SameQueuesWork(s, s1);
      if f1.commitBeat == Beats(f1.route.payload) { CompleteWork(c, s1, f1); } else { AdvanceWork(s1, f1); }
    }
  }

  /** The oldest write can move: it waits for neither B room nor a W beat. */
  ghost predicate WriteReady(c: Config, s: Fabric)
    requires Base(c, s)
  {
    s.writeRoutes != [] &&
    var f := s.writeRoutes[0];
    assert WriteOk(c, f);
    if f.dataComplete then |s.ports[f.route.port].b| < c.responseDepth else s.ports[f.route.port].w != []
  }

  lemma WriteStepWork(c: Config, s: Fabric, reply: Reply)
    requires Base(c, s) && WriteStep(c, s, reply).Done?
    ensures var t := WriteStep(c, s, reply).s;
            Work(t) <= Work(s) && (Balanced(s) ==> Balanced(t)) && (WriteReady(c, s) ==> Work(t) < Work(s))
  {
    hide Sum, SetPort, Work, WriteCommit;
    if s.writeRoutes != [] {
      var f := s.writeRoutes[0];
      assert WriteOk(c, f);
      if f.dataComplete {
        WriteCommitWork(c, s, reply);
      } else if s.ports[f.route.port].w != [] {
        StageBase(c, s);
        StageWork(c, s);
        var s1 := StageBeat(c, s);
        if s1.writeRoutes[0].dataComplete { WriteCommitWork(c, s1, reply); }
      }
    }
  }

  lemma ServesWork(c: Config, s: Fabric, t: Fabric, x: Served)
    requires Serves(c, s, t, x)
    ensures Work(t) < Work(s)
    ensures Balanced(s) ==> Balanced(t)
  {
    var q := x.route.port;
    PortReplaced(s.ports, q, t.ports[q]);
    if x.beat + 1 == Beats(x.route.payload) {
      SumFirst(ReadCosts(s.readRoutes));
      assert ReadCosts(t.readRoutes) == ReadCosts(s.readRoutes)[1..];
    } else {
      SumUpdate(ReadCosts(s.readRoutes), 0, ReadCost(t.readRoutes[0]));
      assert ReadCosts(t.readRoutes) == ReadCosts(s.readRoutes)[0 := ReadCost(t.readRoutes[0])];
    }
  }

  lemma ServeWork(c: Config, s: Fabric, reply: Reply)
    requires Base(c, s) && s.readRoutes != []
    ensures Work(ServeRead(c, s, reply)) < Work(s) && (Balanced(s) ==> Balanced(ServeRead(c, s, reply)))
  {
    var x := ServeReadShape(c, s, reply);
    ServesWork(c, s, ServeRead(c, s, reply), x);
  }

  ghost predicate ReadReady(c: Config, s: Fabric)
    requires Base(c, s)
  {
    s.readRoutes != [] && (assert ReadOk(c, s.readRoutes[0]); |s.ports[s.readRoutes[0].route.port].r| < c.responseDepth)
  }

  lemma ReadStepWork(c: Config, s: Fabric, reply: Reply)
    requires Base(c, s) && ReadStep(c, s, reply).Done?
    ensures var t := ReadStep(c, s, reply).s;
            Work(t) <= Work(s) && (Balanced(s) ==> Balanced(t)) && (ReadReady(c, s) ==> Work(t) < Work(s))
  {
    hide ServeRead, RoutesOk, FifosOk, Work, Balanced, MemOk, ConfigOk;
    if s.readRoutes != [] {
      var f := s.readRoutes[0];
      FrontReadOk(c, s);
      if |s.ports[f.route.port].r| != c.responseDepth {
        if f.route.payload.lock && f.beat == 0 && f.route.forced.Okay? {
          var o := Establish(c, s, f.route);
          EstablishBase(c, s, f.route);
          SameQueuesWork(s, o.s);
          ServeWork(c, o.s, reply);
        } else {
          ServeWork(c, s, reply);
        }
      }
    }
  }

  // ---- who is stuck ----------------------------------------------------------------------------------------------

  ghost predicate NoneWaits(s: Fabric, side: Side) {
    forall p | 0 <= p < |s.ports| :: Requests(s.ports[p], side) == []
  }

  lemma NoPick(s: Fabric, side: Side)
    requires |s.ports| > 0 && Next(s, side) < |s.ports| && Pick(Waiting(s, side), Next(s, side), 0).None?
    ensures NoneWaits(s, side)
  {
    forall p | 0 <= p < |s.ports| ensures Requests(s.ports[p], side) == [] {
      if Requests(s.ports[p], side) != [] { PickNearest(Waiting(s, side), Next(s, side), 0, p); }
    }
  }

  lemma GrantWriteWork(c: Config, s: Fabric)
    requires Base(c, s) && GrantWrite(c, s).Done?
    ensures var t := GrantWrite(c, s).s;
            && (Balanced(s) ==> Balanced(t))
            && (Work(t) < Work(s) || (t == s && (|s.writeRoutes| == c.routeDepth || NoneWaits(s, Writes))))
  {
    GrantWriteShape(c, s);
    var t := GrantWrite(c, s).s;
    if t != s {
      var p: nat, r :| RouteOk(c, r) && GrantedWrite(c, s, t, p, r);
      GrantedWriteWork(c, s, t, p, r);
    } else if |s.writeRoutes| != c.routeDepth {
      assert Waiting(s, Writes) == AwWaiting(s.ports);
      NoPick(s, Writes);
    }
  }

  lemma GrantReadWork(c: Config, s: Fabric)
    requires Base(c, s) && GrantRead(c, s).Done?
    ensures var t := GrantRead(c, s).s;
            && (Balanced(s) ==> Balanced(t))
            && (Work(t) < Work(s) || (t == s && (|s.readRoutes| == c.routeDepth || NoneWaits(s, Reads))))
  {
    GrantReadShape(c, s);
    var t := GrantRead(c, s).s;
    if t != s {
      var p: nat, r :| RouteOk(c, r) && GrantedRead(c, s, t, p, r);
      GrantedReadWork(c, s, t, p, r);
    } else if |s.readRoutes| != c.routeDepth {
      assert Waiting(s, Reads) == ArWaiting(s.ports);
      NoPick(s, Reads);
    }
  }

  /** Whoever still waits does so because the route queue is not empty. */
  ghost predicate Stuck(s: Fabric) {
    (s.writeRoutes == [] ==> NoneWaits(s, Writes)) && (s.readRoutes == [] ==> NoneWaits(s, Reads))
  }

  lemma ArbitrateWork(c: Config, s: Fabric)
    requires Base(c, s) && Arbitrate(c, s).Done?
    ensures var t := Arbitrate(c, s).s;
            (Balanced(s) ==> Balanced(t)) && (Work(t) < Work(s) || (t == s && Stuck(s)))
  {
    GrantWriteBase(c, s);
    GrantWriteWork(c, s);
    GrantReadWork(c, GrantWrite(c, s).s);
  }

  /** A burst still collecting data finds a beat in its port's W queue. */
  lemma BeatAvailable(c: Config, s: Fabric)
    requires Base(c, s) && Balanced(s) && s.writeRoutes != [] && !s.writeRoutes[0].dataComplete
    ensures s.writeRoutes[0].route.port < c.ports && s.ports[s.writeRoutes[0].route.port].w != []
  {
    var f := s.writeRoutes[0];
    assert WriteOk(c, f);
    var q := f.route.port;
    var missing, counts := MissingBeats(q, s.writeRoutes), BeatCounts(s.ports[q].aw);
    forall i | 0 <= i < |missing| ensures missing[i] >= 0 { assert WriteOk(c, s.writeRoutes[i]); }
    SumNonNeg(missing);
    SumNonNeg(counts);
    assert missing[0] > 0;
  }

  lemma NothingBuffered(s: Fabric, p: nat)
    requires Balanced(s) && s.writeRoutes == [] && NoneWaits(s, Writes) && p < |s.ports|
    ensures s.ports[p].w == []
  {
    assert Requests(s.ports[p], Writes) == [];
    assert MissingBeats(p, s.writeRoutes) == [] && BeatCounts(s.ports[p].aw) == [];
  }

  /** Nothing granted, nothing waiting, nothing queued. */
  lemma EmptyIsIdle(s: Fabric)
    requires Balanced(s) && !SomeResponse(s) && Stuck(s) && s.writeRoutes == [] && s.readRoutes == []
    ensures Idle(s)
  {
    forall p | 0 <= p < |s.ports| ensures PortIdle(s.ports[p]) {
      NothingBuffered(s, p);
      assert Requests(s.ports[p], Writes) == [] && Requests(s.ports[p], Reads) == [];
    }
  }

  lemma WriteFrontReady(c: Config, s: Fabric)
    requires Base(c, s) && Balanced(s) && !SomeResponse(s) && s.writeRoutes != []
    ensures WriteReady(c, s)
  {
    var f := s.writeRoutes[0];
    assert WriteOk(c, f);
    if f.dataComplete { assert s.ports[f.route.port].b == []; } else { BeatAvailable(c, s); }
  }

  lemma ReadFrontReady(c: Config, s: Fabric)
    requires Base(c, s) && !SomeResponse(s) && s.readRoutes != []
    ensures ReadReady(c, s)
  {
    assert ReadOk(c, s.readRoutes[0]);
  }

  lemma ProcessWork(c: Config, s: Fabric, reply: Reply)
    requires Base(c, s) && Process(c, s, reply).Done?
    ensures var t := Process(c, s, reply).s;
            && Work(t) <= Work(s) && (Balanced(s) ==> Balanced(t))
            && (Work(t) == Work(s) ==>
                  !WriteReady(c, s) && (s.writeRoutes == [] ==> !ReadReady(c, s)))
  {
    hide WriteStep, ReadStep, Work, Balanced, RoutesOk, FifosOk;
    var s0 := Unsuppress(c, s);
    SameQueuesWork(s, s0);
    WriteStepBase(c, s0, reply);
    WriteStepWork(c, s0, reply);
    EmptyWriteStep(c, s0, reply);
    var o := WriteStep(c, s0, reply);
    if !o.s.suppressRead { ReadStepWork(c, o.s, reply); }
  }

  lemma EmptyWriteStep(c: Config, s: Fabric, reply: Reply)
    requires Base(c, s)
    ensures s.writeRoutes == [] ==> WriteStep(c, s, reply) == Done(s)
  {}

  /** With every response queue empty and nothing to grant, a beat moves. */
  lemma ProcessMoves(c: Config, s: Fabric, reply: Reply)
    requires Base(c, s) && Process(c, s, reply).Done? && Balanced(s) && !SomeResponse(s) && Stuck(s) && !Idle(s)
    ensures Work(Process(c, s, reply).s) < Work(s)
  {
    hide Process, Work, Balanced;
    ProcessWork(c, s, reply);
    if s.writeRoutes != [] {
      WriteFrontReady(c, s);
    } else if s.readRoutes != [] {
      ReadFrontReady(c, s);
    } else {
      EmptyIsIdle(s);
    }
  }

  // ---- draining ---------------------------------------------------------------------------------------------------

  /** Every quiet cycle that raises no error does work, as long as there is some. */
  lemma QuietCycle(c: Config, s: Fabric, x: Stimulus)
    requires Base(c, s) && StimulusOk(c, x) && Quiet(c, x) && Balanced(s) && Cycle(c, s, x).Done?
    ensures Balanced(Cycle(c, s, x).s)
    ensures Work(Cycle(c, s, x).s) <= Work(s) && (!Idle(s) ==> Work(Cycle(c, s, x).s) < Work(s))
  {
    hide Cycle, Process, Arbitrate, Ingress, Balanced, Idle, SomeResponse, Stuck, Work, Base;
    CycleParts(c, s, x);
    QuietAfterIngress(c, s, x);
    var s1 := AfterIngress(c, s, x).s;
    ArbitrateWork(c, s1);
    var s2 := Arbitrate(c, s1).s;
    ProcessWork(c, s2, x.reply);
    if Balanced(s2) && !SomeResponse(s2) && Stuck(s2) && !Idle(s2) { ProcessMoves(c, s2, x.reply); }
    TickWork(c, Process(c, s2, x.reply).s);
  }

  lemma TickWork(c: Config, s: Fabric)
    requires Base(c, s)
    ensures Work(Tick(c, s)) == Work(s) && (Balanced(s) ==> Balanced(Tick(c, s)))
  {
    SameQueuesWork(s, Tick(c, s));
  }

  lemma QuietAfterIngress(c: Config, s: Fabric, x: Stimulus)
    requires Base(c, s) && StimulusOk(c, x) && Quiet(c, x) && AfterIngress(c, s, x).Done?
    ensures var t := AfterIngress(c, s, x).s;
            && Work(t) <= Work(s) && (Balanced(s) ==> Balanced(t))
            && (Work(t) == Work(s) ==> !SomeResponse(t) && (Idle(t) ==> Idle(s)))
  {
    QuietIngress(c, s, x);
    var t := AfterIngress(c, s, x).s;
    IngressWork(s, t);
    if Work(t) == Work(s) && Idle(t) {
      forall p | 0 <= p < |s.ports| ensures PortIdle(s.ports[p]) {
        assert Retires(s.ports[p], t.ports[p]) && PortIdle(t.ports[p]);
      }
    }
  }

  ghost predicate AllQuiet(c: Config, xs: seq<Stimulus>) { forall i | 0 <= i < |xs| :: Quiet(c, xs[i]) }

  /** Draining terminates: from a balanced state, after at least Work(s) quiet
      cycles without an error the fabric is idle, and it stays so. */
  lemma {:induction false} DrainTerminates(c: Config, s: Fabric, xs: seq<Stimulus>)
    requires Base(c, s) && StimuliOk(c, xs) && AllQuiet(c, xs) && Balanced(s) && Run(c, s, xs).Done?
    ensures Balanced(Run(c, s, xs).s)
    ensures Work(Run(c, s, xs).s) <= Work(s)
    ensures |xs| >= Work(s) ==> Idle(Run(c, s, xs).s)
    ensures Idle(Run(c, s, xs).s) || Work(Run(c, s, xs).s) + |xs| <= Work(s)
  {
    hide Cycle, Base, Balanced, Idle, Work;
    if xs != [] {
      var n := |xs| - 1;
      var t := Run(c, s, xs[..n]).s;
      DrainTerminates(c, s, xs[..n]);
      QuietCycle(c, t, xs[n]);
      WorkZero(c, t);
      WorkZero(c, Cycle(c, t, xs[n]).s);
    } else {
      WorkZero(c, s);
    }
  }
}
