/** What the balance of `FabricOrder` means to the masters on the bus. */
module FabricConservation {
  import opened Axi
  import opened Fabric
  import opened FabricRun
  import opened FabricOrder

  function Ids(ps: seq<AddressPayload>): seq<u64> { seq(|ps|, i requires 0 <= i < |ps| => ps[i].id) }

  function BIds(bs: seq<WriteResponse>): seq<u64> { seq(|bs|, i requires 0 <= i < |bs| => bs[i].id) }

  ghost function InFlight(s: Fabric): seq<Route> {
    seq(|s.writeRoutes|, i requires 0 <= i < |s.writeRoutes| => s.writeRoutes[i].route)
  }

  lemma {:induction false} AwOfConcat(p: nat, a: seq<Route>, b: seq<Route>)
    ensures AwOf(p, a + b) == AwOf(p, a) + AwOf(p, b)
    decreases |b|
  {
    if b == [] {
      assert a + b == a && AwOf(p, b) == [];
    } else {
      AwOfConcat(p, a, b[..|b| - 1]);
      AwOfConcatStep(p, a, b[..|b| - 1], b[|b| - 1]);
      assert b[..|b| - 1] + [b[|b| - 1]] == b;
    }
  }

  lemma AwOfConcatStep(p: nat, a: seq<Route>, b: seq<Route>, r: Route)
    requires AwOf(p, a + b) == AwOf(p, a) + AwOf(p, b)
    ensures AwOf(p, a + (b + [r])) == AwOf(p, a) + AwOf(p, b + [r])
  {
    hide AwOf;
    Associates(a, b, [r]);
    AwOfPush(p, a + b, r);
    AwOfPush(p, b, r);
    Associates(AwOf(p, a), AwOf(p, b), if r.port == p then [r.payload] else []);
  }

  lemma AwOfSplit(p: nat, rs: seq<Route>, k: nat)
    requires k <= |rs|
    ensures AwOf(p, rs) == AwOf(p, rs[..k]) + AwOf(p, rs[k..])
  {
    hide AwOf;
    assert rs[..k] + rs[k..] == rs;
    AwOfConcat(p, rs[..k], rs[k..]);
  }

  lemma {:induction false} BOfIds(p: nat, rs: seq<Route>, done: seq<DoneWrite>)
    requires |done| <= |rs|
    requires forall i | 0 <= i < |done| :: done[i].response.id == rs[i].payload.id
    ensures BIds(BOf(p, rs, done)) == Ids(AwOf(p, rs[..|done|]))
    decreases |done|
  {
    if done != [] {
      var n := |done| - 1;
      BOfIds(p, rs, done[..n]);
      assert rs[..n + 1] == rs[..n] + [rs[n]];
      AwOfPush(p, rs[..n], rs[n]);
      var b, a := BOf(p, rs, done[..n]), AwOf(p, rs[..n]);
      if rs[n].port == p {
        BIdsConcat(b, [done[n].response]);
        IdsConcat(a, [rs[n].payload]);
      } else {
        assert b + [] == b && a + [] == a;
      }
    }
  }

  lemma IdsConcat(a: seq<AddressPayload>, b: seq<AddressPayload>)
    ensures Ids(a + b) == Ids(a) + Ids(b)
  {}

  lemma BIdsConcat(a: seq<WriteResponse>, b: seq<WriteResponse>)
    ensures BIds(a + b) == BIds(a) + BIds(b)
  {}

  lemma PortWrites(c: Config, s: Fabric, p: nat)
    requires Order(c, s) && p < c.ports
    ensures BIds(s.h.logs[p].b) + BIds(s.ports[p].b) + Ids(AwOf(p, InFlight(s))) + Ids(s.ports[p].aw)
            == Ids(s.h.logs[p].aw)
  {
    assert PortBalance(s, p);
    var k := |s.h.done|;
    assert InFlight(s) == s.h.wgrants[k..];
    AwOfSplit(p, s.h.wgrants, k);
    BOfIds(p, s.h.wgrants, s.h.done);
    BIdsConcat(s.h.logs[p].b, s.ports[p].b);
    IdsConcat(AwOf(p, s.h.wgrants[..k]), AwOf(p, s.h.wgrants[k..]));
    IdsConcat(AwOf(p, s.h.wgrants), s.ports[p].aw);
  }

  /** Since the last reset, the IDs of a port's retired, queued, in-flight and
      buffered writes are, in that order, the IDs of its accepted AWs. */
  lemma WritesConserved(c: Config, mem: Mem, xs: seq<Stimulus>, p: nat)
    requires ConfigOk(c) && MemOk(c, mem) && StimuliOk(c, xs) && p < c.ports
    ensures Base(c, Init(c, mem))
    ensures var s := Run(c, Init(c, mem), xs).s;
            BIds(s.h.logs[p].b) + BIds(s.ports[p].b) + Ids(AwOf(p, InFlight(s))) + Ids(s.ports[p].aw)
            == Ids(s.h.logs[p].aw)
  {
    RunOrder(c, mem, xs);
    PortWrites(c, Run(c, Init(c, mem), xs).s, p);
  }

  // ---- the k-th WLAST-delimited burst belongs to the k-th AW ------------------------------

  /** Data of port p's finished writes, burst by burst. */
  ghost function BurstsOf(p: nat, rs: seq<Route>, done: seq<DoneWrite>): seq<seq<Staged>>
    requires |done| <= |rs|
    decreases |done|
  {
    if done == [] then []
    else
      var n := |done| - 1;
      BurstsOf(p, rs, done[..n]) + (if rs[n].port == p then [done[n].staged] else [])
  }

  /** The beats of whole bursts, each with WLAST on its last beat only. */
  ghost function Flatten(bursts: seq<seq<Staged>>): seq<WriteBeat> {
    if bursts == [] then []
    else
      var last := bursts[|bursts| - 1];
      Flatten(bursts[..|bursts| - 1]) + BeatsOf(last, |last|)
  }

  lemma FlattenPush(bursts: seq<seq<Staged>>, x: seq<Staged>)
    ensures Flatten(bursts + [x]) == Flatten(bursts) + BeatsOf(x, |x|)
  {
    assert (bursts + [x])[..|bursts|] == bursts;
  }

  lemma {:induction false} BurstsMatchRequests(p: nat, rs: seq<Route>, done: seq<DoneWrite>)
    requires |done| <= |rs|
    requires forall i | 0 <= i < |done| :: |done[i].staged| == Beats(rs[i].payload)
    ensures |BurstsOf(p, rs, done)| == |AwOf(p, rs[..|done|])|
    ensures forall k | 0 <= k < |BurstsOf(p, rs, done)| :: |BurstsOf(p, rs, done)[k]| == Beats(AwOf(p, rs[..|done|])[k])
    ensures Flatten(BurstsOf(p, rs, done)) == WOf(p, rs, StagedOf(done))
    decreases |done|
  {
    if done != [] {
      var n := |done| - 1;
      BurstsMatchRequests(p, rs, done[..n]);
      assert rs[..n + 1] == rs[..n] + [rs[n]];
      AwOfPush(p, rs[..n], rs[n]);
      assert StagedOf(done) == StagedOf(done[..n]) + [done[n].staged];
      WOfPush(p, rs, StagedOf(done[..n]), done[n].staged);
      if rs[n].port == p {
        FlattenPush(BurstsOf(p, rs, done[..n]), done[n].staged);
      } else {
        assert BurstsOf(p, rs, done) == BurstsOf(p, rs, done[..n]);
        assert WOf(p, rs, StagedOf(done)) == WOf(p, rs, StagedOf(done[..n]));
      }
    }
  }

  /** In every run, a port's finished writes took their data from its W stream in
      order: burst k has the length its k-th AW asked for, and the bursts laid
      end to end, WLAST on each last beat only, are what the port sent first. */
  lemma BurstsBelongToRequests(c: Config, mem: Mem, xs: seq<Stimulus>, p: nat)
    requires ConfigOk(c) && MemOk(c, mem) && StimuliOk(c, xs) && p < c.ports
    ensures Base(c, Init(c, mem)) && WriteQueue(Run(c, Init(c, mem), xs).s)
    ensures var s := Run(c, Init(c, mem), xs).s;
            var bursts := BurstsOf(p, s.h.wgrants, s.h.done);
            && |bursts| <= |s.h.logs[p].aw|
            && (forall k | 0 <= k < |bursts| :: |bursts[k]| == Beats(s.h.logs[p].aw[k]))
            && Flatten(bursts) <= s.h.logs[p].w
  {
    hide Cycle, RoutesOk, FifosOk, Run, AwOf, BurstsOf, Flatten, WOf, BOf, ReadQueue;
    RunOrder(c, mem, xs);
    var s := Run(c, Init(c, mem), xs).s;
    assert PortBalance(s, p);
    BurstsMatchRequests(p, s.h.wgrants, s.h.done);
    AwOfSplit(p, s.h.wgrants, |s.h.done|);
    if s.writeRoutes != [] { WOfPush(p, s.h.wgrants, StagedOf(s.h.done), s.writeRoutes[0].staged); }
    else { assert Staging(s) == StagedOf(s.h.done); }
  }

  // ---- reads --------------------------------------------------------------------------------

  datatype Shape = Shape(id: u64, last: bool)

  function Shapes(beats: seq<ReadBeat>): seq<Shape> {
    seq(|beats|, i requires 0 <= i < |beats| => Shape(beats[i].id, beats[i].last))
  }

  /** First n beats of the answer to one AR: LAST on the final beat only. */
  function AnswerTo(p: AddressPayload, n: nat): seq<Shape> {
    seq(n, i requires 0 <= i < n => Shape(p.id, i + 1 == Beats(p)))
  }

  /** Answers to a list of ARs, one burst after another. */
  function Answers(ars: seq<AddressPayload>): seq<Shape> {
    if ars == [] then []
    else Answers(ars[..|ars| - 1]) + AnswerTo(ars[|ars| - 1], Beats(ars[|ars| - 1]))
  }

  /** Shapes of the beats in `keys` that belong to port p. */
  ghost function KeyShapes(p: nat, keys: seq<(Route, nat)>): seq<Shape> {
    if keys == [] then []
    else
      var (r, k) := keys[|keys| - 1];
      KeyShapes(p, keys[..|keys| - 1]) + (if r.port == p then [Shape(r.payload.id, k + 1 == Beats(r.payload))] else [])
  }

  lemma {:induction false} ServedShapes(p: nat, served: seq<Served>)
    requires forall i | 0 <= i < |served| :: WellServed(served[i])
    ensures Shapes(ROf(p, served)) == KeyShapes(p, KeysOf(served))
  {
    if served != [] {
      var n := |served| - 1;
      ServedShapes(p, served[..n]);
      assert KeysOf(served)[..n] == KeysOf(served[..n]);
      assert WellServed(served[n]);
    }
  }

  lemma {:induction false} KeyShapesConcat(p: nat, a: seq<(Route, nat)>, b: seq<(Route, nat)>)
    ensures KeyShapes(p, a + b) == KeyShapes(p, a) + KeyShapes(p, b)
    decreases |b|
  {
    if b == [] {
      assert a + b == a;
    } else {
      var n := |b| - 1;
      KeyShapesConcat(p, a, b[..n]);
      assert (a + b)[..|a| + n] == a + b[..n];
    }
  }

  lemma {:induction false} OneReadShapes(p: nat, r: Route, n: nat)
    ensures KeyShapes(p, BeatsUpTo(r, n)) == if r.port == p then AnswerTo(r.payload, n) else []
  {
    if n > 0 {
      OneReadShapes(p, r, n - 1);
      assert BeatsUpTo(r, n)[..n - 1] == BeatsUpTo(r, n - 1);
    }
  }

  lemma AnswersPush(ars: seq<AddressPayload>, x: AddressPayload)
    ensures Answers(ars + [x]) == Answers(ars) + AnswerTo(x, Beats(x))
  {
    assert (ars + [x])[..|ars|] == ars;
  }

  lemma {:induction false} ExpandShapes(p: nat, rs: seq<Route>, k: nat)
    requires k <= |rs|
    ensures KeyShapes(p, Expand(rs, k)) == Answers(AwOf(p, rs[..k]))
  {
    if k > 0 {
      ExpandShapes(p, rs, k - 1);
      assert rs[..k] == rs[..k - 1] + [rs[k - 1]];
      NextReadShapes(p, Expand(rs, k - 1), rs[..k - 1], rs[k - 1]);
    }
  }

  /** One more read adds its answer, if it belongs to the port. */
  lemma NextReadShapes(p: nat, keys: seq<(Route, nat)>, rs: seq<Route>, r: Route)
    requires KeyShapes(p, keys) == Answers(AwOf(p, rs))
    ensures KeyShapes(p, keys + BeatsUpTo(r, Beats(r.payload))) == Answers(AwOf(p, rs + [r]))
  {
    hide KeyShapes, Answers, AnswerTo, BeatsUpTo, AwOf;
    var ars := AwOf(p, rs);
    KeyShapesConcat(p, keys, BeatsUpTo(r, Beats(r.payload)));
    OneReadShapes(p, r, Beats(r.payload));
    AwOfPush(p, rs, r);
    if r.port == p {
      AnswersPush(ars, r.payload);
    } else {
      assert Answers(ars) + [] == Answers(ars) && ars + [] == ars;
    }
  }

  lemma {:induction false} AnswersPrefix(a: seq<AddressPayload>, b: seq<AddressPayload>)
    ensures Answers(a) <= Answers(a + b)
    decreases |b|
  {
    if b == [] {
      assert a + b == a;
    } else {
      var n := |b| - 1;
      AnswersPrefix(a, b[..n]);
      AnswersPush(a + b[..n], b[n]);
      assert a + b == (a + b[..n]) + [b[n]];
    }
  }

  lemma AnswerToPrefix(p: AddressPayload, n: nat)
    requires n <= Beats(p)
    ensures AnswerTo(p, n) <= AnswerTo(p, Beats(p))
  {}

  /** Shapes of everything read for port p: finished reads, then the oldest one. */
  lemma PortReadShapes(c: Config, s: Fabric, p: nat)
    requires Order(c, s) && p < c.ports
    ensures var k := |s.h.rgrants| - |s.readRoutes|;
            Shapes(s.h.logs[p].r + s.ports[p].r) == Answers(AwOf(p, s.h.rgrants[..k])) +
              (if s.readRoutes != [] && s.readRoutes[0].route.port == p
               then AnswerTo(s.readRoutes[0].route.payload, s.readRoutes[0].beat) else [])
  {
    hide Expand, KeyShapes, Answers, AnswerTo, AwOf, Shapes, ROf, KeysOf, BeatsUpTo, WriteQueue, WOf, BOf, Staging;
    var k := |s.h.rgrants| - |s.readRoutes|;
    assert PortBalance(s, p);
    ServedShapes(p, s.h.served);
    KeyShapesConcat(p, Expand(s.h.rgrants, k), Partial(s.readRoutes));
    ExpandShapes(p, s.h.rgrants, k);
    if s.readRoutes != [] { OneReadShapes(p, s.readRoutes[0].route, s.readRoutes[0].beat); }
    else { NoShapes(p); }
  }

  lemma NoShapes(p: nat)
    ensures KeyShapes(p, []) == []
  {}

  /** The finished reads and part of the next one are a prefix of all answers. */
  lemma AnswersSoFar(p: nat, rs: seq<Route>, k: nat, beat: nat, waiting: seq<AddressPayload>)
    requires k < |rs| && beat <= Beats(rs[k].payload)
    ensures Answers(AwOf(p, rs[..k])) + (if rs[k].port == p then AnswerTo(rs[k].payload, beat) else [])
            <= Answers(AwOf(p, rs) + waiting)
  {
    hide AwOf, Answers, AnswerTo;
    var r := rs[k];
    var head, after := AwOf(p, rs[..k]), AwOf(p, rs[k + 1..]);
    AwOfSplit(p, rs, k + 1);
    assert rs[..k + 1] == rs[..k] + [r];
    AwOfPush(p, rs[..k], r);
    if r.port == p {
      Associates(head + [r.payload], after, waiting);
      AnswersPrefix(head + [r.payload], after + waiting);
      AnswersPush(head, r.payload);
      AnswerToPrefix(r.payload, beat);
      PrefixOfSum(Answers(head), AnswerTo(r.payload, beat), AnswerTo(r.payload, Beats(r.payload)));
    } else {
      assert head + [] == head && Answers(head) + [] == Answers(head);
      Associates(head, after, waiting);
      AnswersPrefix(head, after + waiting);
    }
  }

  lemma PrefixOfSum<T>(a: seq<T>, b: seq<T>, c: seq<T>)
    requires b <= c
    ensures a + b <= a + c
  {}

  lemma PortReads(c: Config, s: Fabric, p: nat)
    requires RoutesOk(c, s) && Order(c, s) && p < c.ports
    ensures Shapes(s.h.logs[p].r + s.ports[p].r) <= Answers(s.h.logs[p].ar)
    ensures s.readRoutes == [] && s.ports[p].ar == [] ==>
              Shapes(s.h.logs[p].r + s.ports[p].r) == Answers(s.h.logs[p].ar)
  {
    hide WriteQueue, AnswerTo, BOf, Shapes, RouteOk, WriteOk;
    var rs, k := s.h.rgrants, |s.h.rgrants| - |s.readRoutes|;
    PortReadShapes(c, s, p);
    assert PortBalance(s, p);
    if s.readRoutes == [] {
      assert rs[..k] == rs;
      var done := AwOf(p, rs);
      assert Answers(done) + [] == Answers(done);
      AnswersPrefix(done, s.ports[p].ar);
      if s.ports[p].ar == [] { assert done + s.ports[p].ar == done; }
    } else {
      assert ReadOk(c, s.readRoutes[0]) && s.readRoutes[0].route == rs[k];
      AnswersSoFar(p, rs, k, s.readRoutes[0].beat, s.ports[p].ar);
    }
  }

  /** In every run, the R beats of a port (retired, then queued) are the in-order
      expansion of its accepted ARs, LAST on each final beat only; all of it once
      no read is pending. */
  lemma ReadsConserved(c: Config, mem: Mem, xs: seq<Stimulus>, p: nat)
    requires ConfigOk(c) && MemOk(c, mem) && StimuliOk(c, xs) && p < c.ports
    ensures Base(c, Init(c, mem))
    ensures var s := Run(c, Init(c, mem), xs).s;
            && Shapes(s.h.logs[p].r + s.ports[p].r) <= Answers(s.h.logs[p].ar)
            && (s.readRoutes == [] && s.ports[p].ar == [] ==>
                  Shapes(s.h.logs[p].r + s.ports[p].r) == Answers(s.h.logs[p].ar))
  {
    RunOrder(c, mem, xs);
    PortReads(c, Run(c, Init(c, mem), xs).s, p);
  }
}
