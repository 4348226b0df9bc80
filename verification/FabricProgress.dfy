/**
  The last two phases of a cycle exactly: when a W beat is taken or refused, when
  the oldest write moves on, when a read beat is served, and with which errors.
 */
module FabricProgress {
  import opened Axi
  import opened Fabric
  import opened FabricRun

  // ---- the oldest write ---------------------------------------------------------------------------

  /** A beat of W data waits for the oldest write. */
  ghost predicate BeatWaits(c: Config, s: Fabric)
    requires Base(c, s)
  {
    && s.writeRoutes != [] && |s.writeRoutes[0].staged| < Beats(s.writeRoutes[0].route.payload)
    && s.writeRoutes[0].route.port < c.ports && s.ports[s.writeRoutes[0].route.port].w != []
  }

  /** Some strobed lane of the bus word is no byte of the beat; a beat that ends at 2^64 has none. */
  ghost predicate StrayStrobe(c: Config, p: AddressPayload, k: nat, w: WriteBeat)
    requires c.width > 0 && |w.strobe| == c.width
  {
    exists lane | 0 <= lane < c.width ::
      w.strobe[lane] != 0 &&
      var a := AlignDown(BeatAddress(p, k), c.width) + lane;
      !(BeatAddress(p, k) <= a < BeatEnd(p, k)) || BeatEnd(p, k) == TWO64
  }

  /** What is wrong with that beat: WLAST in the wrong place, or a stray strobe. */
  ghost function BeatFault(c: Config, s: Fabric): Option<Error>
    requires Base(c, s) && BeatWaits(c, s)
  {
    var f := s.writeRoutes[0];
    var n, w := |f.staged|, s.ports[f.route.port].w[0];
    assert BeatSized(c, w);
    if w.last && n + 1 < Beats(f.route.payload) then Some(LastEarly)
    else if !w.last && n + 1 == Beats(f.route.payload) then Some(LastMissing)
    else if StrayStrobe(c, f.route.payload, n, w) then Some(BadStrobe)
    else None
  }

  /** Beats of the oldest write that are in once the waiting one is taken. */
  ghost function StagedThen(c: Config, s: Fabric): nat
    requires Base(c, s) && s.writeRoutes != []
  {
    |s.writeRoutes[0].staged| + if BeatWaits(c, s) then 1 else 0
  }

  /** All its data is in and its port has room for the response: it moves on. */
  ghost predicate Moves(c: Config, s: Fabric)
    requires Base(c, s)
  {
    && s.writeRoutes != [] && StagedThen(c, s) == Beats(s.writeRoutes[0].route.payload)
    && s.writeRoutes[0].route.port < c.ports && |s.ports[s.writeRoutes[0].route.port].b| < c.responseDepth
  }

  /** It moves on by using a device or deciding an exclusive access, which keeps reads out. */
  ghost predicate KeepsReadsOut(c: Config, s: Fabric)
    requires Base(c, s)
  {
    Moves(c, s) && (s.writeRoutes[0].route.payload.lock || s.writeRoutes[0].route.forced.Okay?)
  }

  /** From s to t the oldest write, with its data complete, finished or committed one more beat. */
  ghost predicate MovedOn(s: Fabric, t: Fabric, all: seq<Staged>)
    requires s.writeRoutes != []
  {
    var f := s.writeRoutes[0];
    if t.h.done == s.h.done then
      && t.writeRoutes != [] && t.writeRoutes[0].route == f.route && t.writeRoutes[0].staged == all
      && t.writeRoutes[0].commitBeat == f.commitBeat + 1 && t.writeRoutes[1..] == s.writeRoutes[1..]
    else
      && |t.h.done| == |s.h.done| + 1 && t.h.done[..|s.h.done|] == s.h.done && t.h.done[|s.h.done|].staged == all
      && t.writeRoutes == s.writeRoutes[1..]
  }

  /** Its data once the waiting beat is taken. */
  ghost function DataThen(c: Config, s: Fabric): seq<Staged>
    requires Base(c, s) && s.writeRoutes != []
  {
    var f := s.writeRoutes[0];
    if BeatWaits(c, s) then
      var w := s.ports[f.route.port].w[0];
      f.staged + [Staged(w.data, w.strobe)]
    else f.staged
  }

  /** From s to t the oldest write took its waiting beat, if one waits, and moved on, if it can. */
  ghost predicate WriteMoves(c: Config, s: Fabric, t: Fabric)
    requires Base(c, s)
  {
    if s.writeRoutes == [] then t.writeRoutes == [] && t.h.done == s.h.done
    else if Moves(c, s) then MovedOn(s, t, DataThen(c, s))
    else
      var f, all := s.writeRoutes[0], DataThen(c, s);
      && t.h.done == s.h.done && t.writeRoutes != []
      && t.writeRoutes[0] == f.(staged := all, dataComplete := |all| == Beats(f.route.payload))
      && t.writeRoutes[1..] == s.writeRoutes[1..]
  }

  /** Reads in flight, read beats and responses waiting on R are as before. */
  ghost predicate ReadSideSame(s: Fabric, t: Fabric) {
    && t.readRoutes == s.readRoutes && t.h.served == s.h.served && |t.ports| == |s.ports|
    && forall p | 0 <= p < |s.ports| :: t.ports[p].r == s.ports[p].r
  }

  lemma StrayIsIllegal(c: Config, p: AddressPayload, k: nat, w: WriteBeat)
    requires c.width > 0 && |w.strobe| == c.width
    ensures StrayStrobe(c, p, k, w) <==> !StrobesLegal(c, p, k, w.strobe)
  {
    hide BeatAddress, BeatEnd, AlignDown;
  }

  lemma CommitMoves(c: Config, s: Fabric, reply: Reply)
    requires Base(c, s) && s.writeRoutes != [] && s.writeRoutes[0].dataComplete && !s.suppressRead
    ensures var f, t := s.writeRoutes[0], WriteCommit(c, s, reply);
            && f.route.port < c.ports && ReadSideSame(s, t) && (!t.suppressRead ==> t.monitors == s.monitors)
            && if |s.ports[f.route.port].b| < c.responseDepth then
                 MovedOn(s, t, f.staged) && (t.suppressRead <==> f.route.payload.lock || f.route.forced.Okay?)
               else t == s
  {
    hide RoutesOk, MemOk, CommitBeat, FinishExclusive, ConfigOk;
    FrontWriteOk(c, s);
    var f := s.writeRoutes[0];
    if |s.ports[f.route.port].b| < c.responseDepth {
      if f.route.payload.lock {
        FinishMoves(c, s, reply);
      } else if f.route.forced.Okay? {
        BeatMoves(c, s, reply);
      }
    }
  }

  lemma FinishMoves(c: Config, s: Fabric, reply: Reply)
    requires Base(c, s) && Finishing(c, s)
    ensures var t := FinishExclusive(c, s, reply);
            MovedOn(s, t, s.writeRoutes[0].staged) && ReadSideSame(s, t) && t.suppressRead
  {
    hide RoutesOk, FifosOk, MemOk, StoreAt, GatherData, GatherStrobe, GatherTouched, Invalidate, ClearMonitor,
         ExclusiveAnswer;
    FinishingFacts(c, s);
  }

  lemma BeatMoves(c: Config, s: Fabric, reply: Reply)
    requires Base(c, s) && Committing(c, s)
    ensures var t := CommitBeat(c, s, reply);
            MovedOn(s, t, s.writeRoutes[0].staged) && ReadSideSame(s, t) && t.suppressRead
  {
    hide RoutesOk, FifosOk, MemOk, StoreBeat, Touched, Lanes, Invalidate, BeatAnswer, ConfigOk;
    CommittingFacts(c, s);
  }

  /** The write phase: which beat is refused and how, and what becomes of the oldest write. */
  lemma WriteStepExact(c: Config, s: Fabric, reply: Reply)
    requires Base(c, s) && !s.suppressRead
    ensures var o := WriteStep(c, s, reply);
            && (o.Failed? <==> BeatWaits(c, s) && BeatFault(c, s).Some?)
            && (o.Failed? ==> o.s == s && BeatFault(c, s) == Some(o.error))
            && (o.Done? ==>
                  && WriteMoves(c, s, o.s) && ReadSideSame(s, o.s) && (o.s.suppressRead <==> KeepsReadsOut(c, s))
                  && (!o.s.suppressRead ==> o.s.monitors == s.monitors))
  {
    hide RoutesOk, FifosOk, MemOk, WriteCommit, StrobesLegal, StrayStrobe, ConfigOk, StageBeat;
    if s.writeRoutes != [] {
      FrontWriteOk(c, s);
      var f := s.writeRoutes[0];
      if f.dataComplete {
        CommitMoves(c, s, reply);
      } else if s.ports[f.route.port].w != [] {
        var w := s.ports[f.route.port].w[0];
        WaitingSized(c, s, f.route.port);
        StrayIsIllegal(c, f.route.payload, |f.staged|, w);
        StageBase(c, s);
        StageIs(c, s);
        if StageBeat(c, s).writeRoutes[0].dataComplete { CommitMoves(c, StageBeat(c, s), reply); }
      }
    }
  }

  lemma WaitingSized(c: Config, s: Fabric, p: nat)
    requires Base(c, s) && p < c.ports && s.ports[p].w != []
    ensures BeatSized(c, s.ports[p].w[0]) && c.width > 0
  {}

  lemma StageIs(c: Config, s: Fabric)
    requires Base(c, s) && s.writeRoutes != [] && s.writeRoutes[0].route.port < c.ports
    requires s.ports[s.writeRoutes[0].route.port].w != []
    ensures var f, t := s.writeRoutes[0], StageBeat(c, s);
            var w := s.ports[f.route.port].w[0];
            var all := f.staged + [Staged(w.data, w.strobe)];
            && t.writeRoutes == s.writeRoutes[0 := f.(staged := all, dataComplete := |all| == Beats(f.route.payload))]
            && ReadSideSame(s, t) && t.h == s.h && t.suppressRead == s.suppressRead && t.monitors == s.monitors
            && forall p | 0 <= p < c.ports :: t.ports[p].b == s.ports[p].b
  {
    hide RoutesOk, FifosOk, MemOk, ConfigOk;
  }

  // ---- the oldest read --------------------------------------------------------------------------------

  /** A read is in flight and the R queue of its port has room. */
  ghost predicate ReadDue(c: Config, s: Fabric)
    requires Base(c, s)
  {
    && s.readRoutes != [] && s.readRoutes[0].route.port < c.ports
    && |s.ports[s.readRoutes[0].route.port].r| < c.responseDepth
  }

  /** It starts a reservation for which there is no monitor: its key has none and all are held. */
  ghost predicate NoMonitorLeft(c: Config, s: Fabric)
    requires Base(c, s) && s.readRoutes != []
  {
    var f := s.readRoutes[0];
    && f.route.payload.lock && f.beat == 0 && f.route.forced.Okay?
    && forall i | 0 <= i < |s.monitors| ::
         s.monitors[i].Held? && !(s.monitors[i].port == f.route.port && s.monitors[i].payload.id == f.route.payload.id)
  }

  /** From s to t the oldest read is served one beat. */
  ghost predicate ReadMoves(s: Fabric, t: Fabric)
    requires s.readRoutes != []
  {
    var f, n := s.readRoutes[0], |s.h.served|;
    && |t.h.served| == n + 1 && t.h.served[..n] == s.h.served
    && t.h.served[n].route == f.route && t.h.served[n].beat == f.beat
    && t.readRoutes == (if f.beat + 1 == Beats(f.route.payload) then s.readRoutes[1..]
                        else s.readRoutes[0 := ReadRoute(f.route, f.beat + 1)])
  }

  lemma ServeMoves(c: Config, s: Fabric, reply: Reply)
    requires Base(c, s) && s.readRoutes != []
    ensures ReadMoves(s, ServeRead(c, s, reply))
  {
    hide RoutesOk, FifosOk, MemOk, ServedBeat, ReadAccess, ConfigOk;
    FrontReadOk(c, s);
  }

  lemma ReadStepExact(c: Config, s: Fabric, reply: Reply)
    requires Base(c, s)
    ensures var o := ReadStep(c, s, reply);
            && (o.Failed? <==> ReadDue(c, s) && NoMonitorLeft(c, s))
            && (o.Failed? ==> o == Failed(s, MonitorsFull))
            && (o.Done? ==> if ReadDue(c, s) then ReadMoves(s, o.s)
                            else o.s.h.served == s.h.served && o.s.readRoutes == s.readRoutes)
  {
    hide RoutesOk, MemOk, ServeRead, ConfigOk;
    if s.readRoutes != [] {
      FrontReadOk(c, s);
      var f := s.readRoutes[0];
      if |s.ports[f.route.port].r| < c.responseDepth {
        if f.route.payload.lock && f.beat == 0 && f.route.forced.Okay? {
          EstablishBase(c, s, f.route);
          if Establish(c, s, f.route).Done? { ServeMoves(c, Establish(c, s, f.route).s, reply); }
        } else {
          ServeMoves(c, s, reply);
        }
      }
    }
  }

  // ---- both ---------------------------------------------------------------------------------------------

  /**
    From any state: the cycle stops with a W error exactly if the waiting beat has WLAST
    in the wrong place or a stray strobe.  Otherwise the oldest write takes the beat,
    and moves on whenever its data is complete and B has room.  Unless that uses a
    device or decides an exclusive access, the oldest read is served a beat whenever
    R has room, and the cycle stops exactly if that needs a monitor and none is left.
   */
  lemma ProcessExact(c: Config, s: Fabric, reply: Reply)
    requires Base(c, s)
    ensures var o := Process(c, s, reply);
            var faulty := BeatWaits(c, s) && BeatFault(c, s).Some?;
            var serves := !KeepsReadsOut(c, s) && ReadDue(c, s);
            && (o.Failed? <==> faulty || (serves && NoMonitorLeft(c, s)))
            && (o.Failed? ==> Some(o.error) == if faulty then BeatFault(c, s) else Some(MonitorsFull))
            && (o.Done? ==>
                  && WriteMoves(c, s, o.s)
                  && if serves then ReadMoves(s, o.s) else o.s.h.served == s.h.served && o.s.readRoutes == s.readRoutes)
  {
    hide RoutesOk, FifosOk, MemOk, WriteStep, ReadStep, BeatFault, ConfigOk;
    var s0 := Unsuppress(c, s);
    WriteStepBase(c, s0, reply);
    WriteStepExact(c, s0, reply);
    assert BeatWaits(c, s) ==> BeatFault(c, s) == BeatFault(c, s0) by { SameFault(c, s, s0); }
    var o := WriteStep(c, s0, reply);
    if o.Done? && !o.s.suppressRead {
      ReadStepExact(c, o.s, reply);
      ReadStepWrites(c, o.s, reply);
    }
  }

  lemma SameFault(c: Config, s: Fabric, t: Fabric)
    requires Base(c, s) && Base(c, t) && t.ports == s.ports && t.writeRoutes == s.writeRoutes
    ensures BeatWaits(c, t) <==> BeatWaits(c, s)
    ensures BeatWaits(c, s) ==> BeatFault(c, t) == BeatFault(c, s)
  {
    hide RoutesOk, FifosOk, MemOk, StrayStrobe;
    if BeatWaits(c, s) { WaitingSized(c, s, s.writeRoutes[0].route.port); }
  }

  lemma ReadStepWrites(c: Config, s: Fabric, reply: Reply)
    requires Base(c, s)
    ensures var t := ReadStep(c, s, reply).s; t.writeRoutes == s.writeRoutes && t.h.done == s.h.done
  {
    hide RoutesOk, FifosOk, MemOk, ServedBeat, ReadAccess, ConfigOk;
    if s.readRoutes != [] { FrontReadOk(c, s); }
  }
}
