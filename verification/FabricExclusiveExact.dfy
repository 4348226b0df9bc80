/**
  Exclusive writes in every run: when they succeed, what they do to memory, and
  what the bytes they guard have been through.
 */
module FabricExclusiveExact {
  import opened Axi
  import opened Fabric
  import opened FabricRun
  import opened FabricErrors
  import opened FabricWindow
  import opened FabricAtomic
  import opened FabricExclusive
  import opened FabricExclusiveRun

  // ---- the memory an exclusive write was decided on ------------------------------------------

  lemma {:induction false} ReplayLongerRoutes(c: Config, base: Mem, rs: seq<Route>, rs': seq<Route>,
                                              done: seq<DoneWrite>)
    requires HistoryOk(c, rs, done) && HistoryOk(c, rs', done) && rs <= rs' && MemOk(c, base)
    ensures Replay(c, base, rs', done) == Replay(c, base, rs, done)
    decreases |done|
  {
    if done != [] { ReplayLongerRoutes(c, base, rs, rs', done[..|done| - 1]); }
  }

  /** Decision k was taken on the memory that the writes before it had left. */
  ghost predicate TimedAt(c: Config, s: Fabric, k: nat)
    requires k < |s.h.events| && s.h.events[k].ExclusiveWrite?
    requires HistoryOk(c, s.h.wgrants, s.h.done) && MemOk(c, s.h.base)
  {
    s.h.events[k].index < |s.h.done| && s.h.events[k].mem == ReplayUpTo(c, s, s.h.events[k].index)
  }

  ghost predicate Timed(c: Config, s: Fabric) {
    && HistoryOk(c, s.h.wgrants, s.h.done) && MemOk(c, s.h.base)
    && forall k | 0 <= k < |s.h.events| && s.h.events[k].ExclusiveWrite? :: TimedAt(c, s, k)
  }

  lemma TimedKept(c: Config, s: Fabric, t: Fabric, k: nat)
    requires Timed(c, s) && HistoryOk(c, t.h.wgrants, t.h.done) && t.h.base == s.h.base
    requires s.h.done <= t.h.done && s.h.wgrants <= t.h.wgrants
    requires k < |s.h.events| <= |t.h.events| && t.h.events[k] == s.h.events[k] && s.h.events[k].ExclusiveWrite?
    ensures TimedAt(c, t, k)
  {
    assert TimedAt(c, s, k);
    var n := s.h.events[k].index;
    assert t.h.done[..n] == s.h.done[..n];
    ReplayLongerRoutes(c, s.h.base, s.h.wgrants, t.h.wgrants, s.h.done[..n]);
  }

  lemma TimedGrows(c: Config, s: Fabric, t: Fabric)
    requires Timed(c, s) && HistoryOk(c, t.h.wgrants, t.h.done) && t.h.base == s.h.base
    requires s.h.done <= t.h.done && s.h.wgrants <= t.h.wgrants && NoDecision(s.h.events, t.h.events)
    ensures Timed(c, t)
  {
    hide TimedAt;
    forall k | 0 <= k < |t.h.events| && t.h.events[k].ExclusiveWrite? ensures TimedAt(c, t, k) {
      TimedKept(c, s, t, k);
    }
  }

  /** A decision in its own moment: the memory is whole, and the write is the next one done. */
  lemma TimedDecides(c: Config, s: Fabric, t: Fabric, e: Event)
    requires Timed(c, s) && HistoryOk(c, t.h.wgrants, t.h.done) && t.h.base == s.h.base
    requires t.h.wgrants == s.h.wgrants && |t.h.done| == |s.h.done| + 1 && t.h.done[..|s.h.done|] == s.h.done
    requires e.ExclusiveWrite? && e.index == |s.h.done|
    requires e.mem == Replay(c, s.h.base, s.h.wgrants, s.h.done)
    requires NoDecision(s.h.events + [e], t.h.events)
    ensures Timed(c, t)
  {
    hide TimedAt;
    forall k | 0 <= k < |t.h.events| && t.h.events[k].ExclusiveWrite? ensures TimedAt(c, t, k) {
      if k < |s.h.events| {
        assert t.h.events[k] == (s.h.events + [e])[k];
        TimedKept(c, s, t, k);
      } else {
        assert t.h.events[k] == (s.h.events + [e])[k] == e;
        DecidedNow(c, s, t, k, e);
      }
    }
  }

  lemma DecidedNow(c: Config, s: Fabric, t: Fabric, k: nat, e: Event)
    requires Timed(c, s) && HistoryOk(c, t.h.wgrants, t.h.done) && t.h.base == s.h.base && t.h.wgrants == s.h.wgrants
    requires |t.h.done| == |s.h.done| + 1 && t.h.done[..|s.h.done|] == s.h.done
    requires k < |t.h.events| && t.h.events[k] == e && e.ExclusiveWrite? && e.index == |s.h.done|
    requires e.mem == Replay(c, s.h.base, s.h.wgrants, s.h.done)
    ensures TimedAt(c, t, k)
  {}

  // ---- phases ---------------------------------------------------------------------------------------

  lemma FinishTimed(c: Config, s: Fabric, reply: Reply)
    requires Base(c, s) && Finishing(c, s) && AtomicState(c, s) && Timed(c, s)
    requires HistoryOk(c, FinishExclusive(c, s, reply).h.wgrants, FinishExclusive(c, s, reply).h.done)
    ensures Timed(c, FinishExclusive(c, s, reply))
  {
    hide RoutesOk, FifosOk, Replay, ReadsWhole, DoneOk, GatherData, GatherStrobe, GatherTouched, StoreAt, Invalidate,
         DeviceAnswer, Takes, HistoryOk, TimedAt;
    FinishingFacts(c, s);
    var t, e := FinishExclusive(c, s, reply), Decision(c, s, reply);
    assert s.mem == Replay(c, s.h.base, s.h.wgrants, s.h.done);
    assert s.h.events + [e] + [] == s.h.events + [e];
    TimedDecides(c, s, t, e);
  }

  lemma CommitBeatDecidesNothing(c: Config, s: Fabric, reply: Reply)
    requires Base(c, s) && Committing(c, s)
    ensures var t := CommitBeat(c, s, reply);
            && NoDecision(s.h.events, t.h.events) && t.h.base == s.h.base && t.h.wgrants == s.h.wgrants
            && s.h.done <= t.h.done
  {
    hide RoutesOk, FifosOk, StoreAt, Lanes, Touched, Invalidate, DeviceAnswer;
    CommittingFacts(c, s);
  }

  lemma WriteCommitTimed(c: Config, s: Fabric, reply: Reply)
    requires Base(c, s) && AtomicState(c, s) && Timed(c, s) && s.writeRoutes != [] && s.writeRoutes[0].dataComplete
    ensures Timed(c, WriteCommit(c, s, reply))
  {
    hide RoutesOk, FifosOk, Replay, ReadsWhole, Timed, CommitBeat, FinishExclusive, FrontOk, Committed;
    FrontWriteOk(c, s);
    WriteCommitAtomic(c, s, reply);
    var f, t := s.writeRoutes[0], WriteCommit(c, s, reply);
    if |s.ports[f.route.port].b| == c.responseDepth {
    } else if f.route.payload.lock {
      FinishTimed(c, s, reply);
    } else if !f.route.forced.Okay? {
      TimedGrows(c, s, t);
    } else {
      CommitBeatDecidesNothing(c, s, reply);
      TimedGrows(c, s, t);
    }
  }

  lemma SameTimed(c: Config, s: Fabric, t: Fabric)
    requires Timed(c, s) && t.h.base == s.h.base && t.h.done == s.h.done && t.h.wgrants == s.h.wgrants
    requires NoDecision(s.h.events, t.h.events)
    ensures Timed(c, t)
  {
    TimedGrows(c, s, t);
  }

  lemma WriteStepTimed(c: Config, s: Fabric, reply: Reply)
    requires Base(c, s) && AtomicState(c, s) && Timed(c, s)
    ensures Timed(c, WriteStep(c, s, reply).s)
  {
    hide RoutesOk, FifosOk, Replay, ReadsWhole, Timed, WriteCommit, StrobesLegal, FrontOk, Committed;
    if s.writeRoutes != [] {
      FrontWriteOk(c, s);
      var f := s.writeRoutes[0];
      if f.dataComplete {
        WriteCommitTimed(c, s, reply);
      } else if s.ports[f.route.port].w != [] && WriteStep(c, s, reply).Done? {
        StageBase(c, s);
        StageAtomic(c, s);
        var s1 := StageBeat(c, s);
        SameReadsWhole(c, s, s1);
        SameTimed(c, s, s1);
        if s1.writeRoutes[0].dataComplete { WriteCommitTimed(c, s1, reply); }
      }
    }
  }

  lemma ReadStepTimed(c: Config, s: Fabric, reply: Reply)
    requires Base(c, s) && Timed(c, s)
    ensures Timed(c, ReadStep(c, s, reply).s)
  {
    hide RoutesOk, FifosOk, Timed, ServedBeat, ReadAccess;
    if s.readRoutes != [] { FrontReadOk(c, s); }
    SameTimed(c, s, ReadStep(c, s, reply).s);
  }

  lemma ProcessTimed(c: Config, s: Fabric, reply: Reply)
    requires Base(c, s) && AtomicState(c, s) && Timed(c, s)
    ensures Timed(c, Process(c, s, reply).s)
  {
    hide RoutesOk, FifosOk, Timed, WriteStep, ReadStep, Atomic, ReadsWhole;
    var s0 := Unsuppress(c, s);
    SameTimed(c, s, s0);
    SameAtomicState(c, s, s0);
    WriteStepBase(c, s0, reply);
    WriteStepTimed(c, s0, reply);
    var o := WriteStep(c, s0, reply);
    if o.Done? && !o.s.suppressRead { ReadStepTimed(c, o.s, reply); }
  }

  lemma ArbitrateTimed(c: Config, s: Fabric)
    requires Base(c, s) && AtomicState(c, s) && Timed(c, s)
    ensures Timed(c, Arbitrate(c, s).s)
  {
    hide RoutesOk, FifosOk, Timed, Arbitrate, ReadsWhole, FrontOk, Committed;
    ArbitrateAtomic(c, s);
    ArbitrateUntouched(c, s);
    ArbitrateGrants(c, s);
    TimedGrows(c, s, Arbitrate(c, s).s);
  }

  lemma ArbitrateGrants(c: Config, s: Fabric)
    requires Base(c, s)
    ensures var t := Arbitrate(c, s).s;
            t.h.base == s.h.base && t.h.done == s.h.done && s.h.wgrants <= t.h.wgrants
  {
    hide RoutesOk, FifosOk, InitRoute, Pick;
  }

  lemma FreshTimed(c: Config, s: Fabric)
    requires MemOk(c, s.mem) && s.h == FreshHistory(c, s.mem)
    ensures Timed(c, s)
  {}

  lemma CycleTimed(c: Config, s: Fabric, x: Stimulus)
    requires Base(c, s) && StimulusOk(c, x) && AtomicState(c, s) && Timed(c, s)
    ensures Timed(c, Cycle(c, s, x).s)
  {
    hide Timed, Ingress, Arbitrate, Process, RoutesOk, FifosOk, Atomic, ReadsWhole;
    DriveBase(c, s, x.reset, x.stalls);
    var d := Drive(c, s, x.reset, x.stalls);
    SameTimed(c, s, d);
    SameAtomicState(c, s, d);
    if x.reset {
      if d.wasReset { SameTimed(c, d, ResetCycle(c, d)); } else { FreshTimed(c, ResetCycle(c, d)); }
    } else {
      var s1 := Awake(c, d);
      SameTimed(c, d, s1);
      SameAtomicState(c, d, s1);
      IngressAtomic(c, s1, x.inputs);
      IngressPortsOnly(c, s1, x.inputs);
      var o1 := Ingress(c, s1, x.inputs);
      SameTimed(c, s1, o1.s);
      if o1.Done? {
        ArbitrateAtomic(c, o1.s);
        ArbitrateTimed(c, o1.s);
        var o2 := Arbitrate(c, o1.s);
        if o2.Done? {
          ProcessTimed(c, o2.s, x.reply);
          var o3 := Process(c, o2.s, x.reply);
          if o3.Done? { SameTimed(c, o3.s, Tick(c, o3.s)); }
        }
      }
    }
  }

  lemma {:induction false} RunTimed(c: Config, mem: Mem, xs: seq<Stimulus>)
    requires ConfigOk(c) && MemOk(c, mem) && StimuliOk(c, xs)
    ensures Base(c, Init(c, mem)) && Timed(c, Run(c, Init(c, mem), xs).s)
  {
    hide Timed, Cycle, RoutesOk, FifosOk, AtomicState;
    InitBase(c, mem);
    if xs == [] {
      FreshTimed(c, Init(c, mem));
    } else {
      RunTimed(c, mem, xs[..|xs| - 1]);
      RunAtomic(c, mem, xs[..|xs| - 1]);
      var o := Run(c, Init(c, mem), xs[..|xs| - 1]);
      if o.Done? { CycleTimed(c, o.s, xs[|xs| - 1]); }
    }
  }

  // ---- what an exclusive write promises ---------------------------------------------------------------

  /** The k-th event of a run is an exclusive write that RAM may take. */
  ghost predicate DecidesRam(c: Config, s: Fabric, k: nat) {
    && k < |s.h.events| && s.h.events[k].ExclusiveWrite?
    && var r := s.h.events[k].route; Mapped(c, r) && r.forced.Okay? && DeviceOf(c, r).Ram?
  }

  /** RAM that backs every byte of the window it is mapped at. */
  ghost predicate BackedByRam(c: Config, r: Route)
    requires Mapped(c, r)
  {
    DeviceOf(c, r).Ram? && MappingOf(c, r).size <= DeviceOf(c, r).size
  }

  lemma BackedFits(c: Config, r: Route)
    requires RouteOk(c, r) && r.payload.lock && r.mapping.Some? && Mapped(c, r) && BackedByRam(c, r)
    requires r.payload.address + Total(r.payload) < TWO64
    ensures FitsWhole(c, r)
  {
    RouteFacts(c, r);
    var last := Beats(r.payload) - 1;
    ExclusiveBeat(r.payload, last);
    BeatInWindow(c, r, last);
  }

  /** The answer promised to a write that found its reservation, or did not. */
  ghost function Promised(c: Config, r: Route, held: bool): Response
    requires Mapped(c, r)
  {
    if !held then Okay else if FitsWhole(c, r) then ExclusiveOkay else SlaveError
  }

  /** Some exclusive read of the same port with the same payload is undisturbed. */
  ghost predicate Unbroken(es: seq<Event>, port: nat, p: AddressPayload) {
    exists j: nat :: Undisturbed(es, port, p, j)
  }

  /**
    The decision is the B response of its write, and all it did to memory: EXOKAY
    stores every beat of the burst on the memory the writes before it left, any
    other answer stores nothing.
   */
  ghost predicate Effective(c: Config, s: Fabric, e: Event)
    requires e.ExclusiveWrite?
  {
    && HistoryOk(c, s.h.wgrants, s.h.done) && MemOk(c, s.h.base) && MemOk(c, e.mem)
    && e.index < |s.h.done| && s.h.wgrants[e.index] == e.route && Mapped(c, e.route)
    && var d := s.h.done[e.index];
       && d.response.response == e.response
       && e.mem == ReplayUpTo(c, s, e.index)
       && ReplayUpTo(c, s, e.index + 1) ==
            if e.response == ExclusiveOkay
            then StoreBeats(c, e.mem, e.route, d.staged, Beats(e.route.payload)) else e.mem
  }

  lemma DecisionEffective(c: Config, mem: Mem, xs: seq<Stimulus>, k: nat)
    requires ConfigOk(c) && MemOk(c, mem) && StimuliOk(c, xs) && Base(c, Init(c, mem))
    requires DecidesRam(c, Run(c, Init(c, mem), xs).s, k)
    ensures Effective(c, Run(c, Init(c, mem), xs).s, Run(c, Init(c, mem), xs).s.h.events[k])
  {
    hide Cycle, RoutesOk, FifosOk, TableOk, Kept, Vouched, StoreBeats, Leading;
    RunTimed(c, mem, xs);
    RunLock(c, mem, xs);
    var s := Run(c, Init(c, mem), xs).s;
    var e := s.h.events[k];
    assert TimedAt(c, s, k);
    assert DecidedOk(c, s.h.events[..k], e);
    assert s.h.wgrants[e.index] == e.route && s.h.done[e.index].response.response == e.response;
    StepOfReplay(c, s, e.index);
  }

  lemma StepOfReplay(c: Config, s: Fabric, n: nat)
    requires HistoryOk(c, s.h.wgrants, s.h.done) && MemOk(c, s.h.base) && n < |s.h.done|
    ensures ReplayUpTo(c, s, n + 1) == ApplyWrite(c, ReplayUpTo(c, s, n), s.h.wgrants[n], s.h.done[n])
  {
    hide ApplyWrite;
    assert s.h.done[..n + 1][..n] == s.h.done[..n];
  }

  /** A guarded byte that no other window shows cannot have been stored to. */
  lemma SoleUnstored(c: Config, es: seq<Event>, port: nat, p: AddressPayload, j: nat, x: nat, a: int)
    requires Undisturbed(es, port, p, j) && InRange(p, a) && Sole(c, x, a) && Narrow(c, es)
    ensures Unstored(c, es, j, x, a)
  {
    forall k | j < k < |es| && es[k].BusWrite? ensures !Stored(c, es[k].touched, x, a) {
      forall y: nat, b | SameByte(c, x, a, y, b) ensures b !in es[k].touched {
        if b <= AddressLimit(c) { assert y == x && b == a; }
      }
    }
  }

  /**
    Soundness and completeness, in every run: an exclusive write to RAM that does
    not end at 2^64 finds its reservation exactly when some exclusive read of the
    same port with the same payload is undisturbed.  It then answers EXOKAY, or
    SLVERR if the RAM is too small for the transfer, which backed RAM never is;
    otherwise it answers OKAY.  The answer is its whole effect on memory.  And every
    byte of the range that nobody stored to through another window, in particular
    every byte no other window shows, still holds what the read found.
   */
  lemma ExclusiveExact(c: Config, mem: Mem, xs: seq<Stimulus>, k: nat)
    requires ConfigOk(c) && MemOk(c, mem) && StimuliOk(c, xs) && Base(c, Init(c, mem))
    requires DecidesRam(c, Run(c, Init(c, mem), xs).s, k)
    requires var p := Run(c, Init(c, mem), xs).s.h.events[k].route.payload; p.address + Total(p) < TWO64
    ensures var s := Run(c, Init(c, mem), xs).s;
            var e := s.h.events[k];
            var es, p := s.h.events[..k], e.route.payload;
            && e.response == Promised(c, e.route, Unbroken(es, e.route.port, p))
            && (BackedByRam(c, e.route) ==> FitsWhole(c, e.route))
            && Effective(c, s, e)
            && forall j: nat, a | Undisturbed(es, e.route.port, p, j) && InRange(p, a) &&
                                  InRam(c, e.route.mapping.value, a) ::
                 && (Sole(c, e.route.mapping.value, a) ==> Unstored(c, es, j, e.route.mapping.value, a))
                 && ByteKept(c, es, e.mem, j, e.route.mapping.value, a)
  {
    hide Cycle, RoutesOk, FifosOk, TableOk, InRam, Effective, Sole, ByteKept;
    RunLock(c, mem, xs);
    var s := Run(c, Init(c, mem), xs).s;
    var e := s.h.events[k];
    var es, p, x := s.h.events[..k], e.route.payload, e.route.mapping.value;
    assert DecidedOk(c, es, e);
    RouteFacts(c, e.route);
    if BackedByRam(c, e.route) { BackedFits(c, e.route); }
    UndisturbedIsCurrent(c, es, e.route.port, p);
    DecisionEffective(c, mem, xs, k);
    assert Kept(c, es, e.mem);
    forall j: nat, a | Undisturbed(es, e.route.port, p, j) && InRange(p, a) && InRam(c, x, a)
      ensures (Sole(c, x, a) ==> Unstored(c, es, j, x, a)) && ByteKept(c, es, e.mem, j, x, a)
    {
      if Sole(c, x, a) { SoleUnstored(c, es, e.route.port, p, j, x, a); }
    }
  }

  /** Whatever the device: an exclusive write that is routed and does not end at 2^64
      is withheld and answered OKAY if and only if no exclusive read of the same port
      with the same payload is undisturbed. */
  lemma ExclusiveWithheld(c: Config, mem: Mem, xs: seq<Stimulus>, k: nat)
    requires ConfigOk(c) && MemOk(c, mem) && StimuliOk(c, xs) && Base(c, Init(c, mem))
    requires var es := Run(c, Init(c, mem), xs).s.h.events;
             && k < |es| && es[k].ExclusiveWrite? && es[k].route.forced.Okay?
             && es[k].route.payload.address + Total(es[k].route.payload) < TWO64
    ensures var es := Run(c, Init(c, mem), xs).s.h.events;
            es[k].response.Okay? <==> !Unbroken(es[..k], es[k].route.port, es[k].route.payload)
  {
    hide Cycle, RoutesOk, FifosOk, TableOk, Kept, Vouched, Undisturbed;
    RunLock(c, mem, xs);
    var es := Run(c, Init(c, mem), xs).s.h.events;
    var e := es[k];
    assert DecidedOk(c, es[..k], e);
    RouteFacts(c, e.route);
    UndisturbedIsCurrent(c, es[..k], e.route.port, e.route.payload);
  }

  // ---- the transfer that ends at 2^64 -------------------------------------------------------------------

  /** Event j is an exclusive read by `port` with exactly payload p, and the key has
      issued no exclusive read or write since, whatever was stored. */
  ghost predicate Latest(es: seq<Event>, port: nat, p: AddressPayload, j: nat) {
    && j < |es| && es[j].Reserve? && es[j].port == port && es[j].payload == p
    && forall k | j < k < |es| :: !Claims(es[k], port, p.id) && !Spends(es[k], port, p.id)
  }

  lemma LatestStanding(c: Config, es: seq<Event>, port: nat, p: AddressPayload, j: nat)
    requires ConfigOk(c) && BurstOk(c, p) && ExclusiveShape(p) && p.address + Total(p) == TWO64
    requires j < |es| && es[j].Reserve? && es[j].payload == p
    ensures Latest(es, port, p, j) <==> Standing(es, port, p.id, j)
  {
    forall k | j < k < |es| && es[k].BusWrite? ensures !Touches(es[k].touched, p) {
      forall a | a in es[k].touched ensures !Guards(p, a) { GuardIsRange(c, p, a); }
    }
  }

  lemma LatestIsCurrent(c: Config, es: seq<Event>, port: nat, p: AddressPayload)
    requires ConfigOk(c) && BurstOk(c, p) && ExclusiveShape(p) && p.address + Total(p) == TWO64
    ensures CurrentPayload(es, port, p.id) == Some(p) <==> exists j: nat :: Latest(es, port, p, j)
  {
    var cur := Current(es, port, p.id);
    if cur.Some? && es[cur.value].payload == p {
      CurrentIsStanding(es, port, p.id, cur.value);
      LatestStanding(c, es, port, p, cur.value);
    }
    forall j: nat | Latest(es, port, p, j) ensures cur == Some(j) {
      LatestStanding(c, es, port, p, j);
      CurrentIsStanding(es, port, p.id, j);
    }
  }

  lemma LatestUnique(es: seq<Event>, port: nat, p: AddressPayload, i: nat, j: nat)
    requires Latest(es, port, p, i) && Latest(es, port, p, j)
    ensures i == j
  {}

  lemma UndisturbedIsLatest(es: seq<Event>, port: nat, p: AddressPayload, j: nat)
    ensures Undisturbed(es, port, p, j) ==> Latest(es, port, p, j)
  {}

  /**
    A transfer that ends at 2^64 guards no byte, so stores do not count: in every
    run the write finds its reservation exactly when the key's latest exclusive
    access is a read with the same payload.  The promise of `ExclusiveExact` is
    broken exactly when that read has been disturbed by a store into the range.
   */
  lemma ExclusiveAtTop(c: Config, mem: Mem, xs: seq<Stimulus>, k: nat)
    requires ConfigOk(c) && MemOk(c, mem) && StimuliOk(c, xs) && Base(c, Init(c, mem))
    requires DecidesRam(c, Run(c, Init(c, mem), xs).s, k)
    requires var p := Run(c, Init(c, mem), xs).s.h.events[k].route.payload; p.address + Total(p) == TWO64
    ensures var s := Run(c, Init(c, mem), xs).s;
            var e := s.h.events[k];
            var es, p := s.h.events[..k], e.route.payload;
            && e.response == Promised(c, e.route, exists j: nat :: Latest(es, e.route.port, p, j))
            && Effective(c, s, e)
            && (e.response != Promised(c, e.route, Unbroken(es, e.route.port, p)) <==>
                  exists j: nat :: Latest(es, e.route.port, p, j) && !Undisturbed(es, e.route.port, p, j))
  {
    hide Cycle, RoutesOk, FifosOk, TableOk, Effective, Kept, Undisturbed, Latest, FitsWhole;
    RunLock(c, mem, xs);
    var s := Run(c, Init(c, mem), xs).s;
    var e := s.h.events[k];
    var es, p, port := s.h.events[..k], e.route.payload, e.route.port;
    assert DecidedOk(c, es, e);
    RouteFacts(c, e.route);
    LatestIsCurrent(c, es, port, p);
    DecisionEffective(c, mem, xs, k);
    forall j: nat ensures Undisturbed(es, port, p, j) ==> Latest(es, port, p, j) {
      UndisturbedIsLatest(es, port, p, j);
    }
    forall i: nat, j: nat | Latest(es, port, p, i) && Latest(es, port, p, j) ensures i == j {
      LatestUnique(es, port, p, i, j);
    }
  }
}
