/**
  Accesses and what follows from them: the device reads are those of the read
  beats, and the stores that break reservations are the device writes that
  succeeded, each with exactly its strobed bytes.
 */
module FabricStores {
  import opened Axi
  import opened Fabric
  import opened FabricRun
  import opened FabricErrors
  import opened FabricWindow
  import opened FabricAccess

  /** The lane of address x is strobed, the lanes starting at address `first`. */
  predicate LaneStrobed(strobe: seq<bool>, first: int, x: int) {
    first <= x < first + |strobe| && strobe[x - first]
  }

  /** Bus addresses of the strobed bytes of a device write. */
  ghost function StrobedBytes(c: Config, a: Access): set<int>
    requires a.DeviceWrite? && a.mapping < |c.mappings|
  {
    var first := c.mappings[a.mapping].base + a.offset;
    set x | first <= x < first + |a.strobe| && LaneStrobed(a.strobe, first, x)
  }

  /** Did the device take the write?  RAM does if it fits, ROM never, others as they reply. */
  ghost predicate Succeeds(c: Config, a: Access, reply: Reply)
    requires a.DeviceWrite? && a.mapping < |c.mappings| && c.mappings[a.mapping].device < |c.devices|
  {
    match c.devices[c.mappings[a.mapping].device]
    case Ram(size) => a.offset + |a.data| <= size
    case Rom(_) => false
    case Peripheral(_, _, _) => reply.response.Okay? || reply.response.ExclusiveOkay?
  }

  ghost predicate Placed(c: Config, log: seq<Access>) {
    forall i | 0 <= i < |log| :: log[i].mapping < |c.mappings| && c.mappings[log[i].mapping].device < |c.devices|
  }

  /** The strobed bytes of the successful writes, in order. */
  ghost function StoresOf(c: Config, log: seq<Access>, replies: seq<Reply>): seq<set<int>>
    requires |replies| == |log| && Placed(c, log)
  {
    if log == [] then []
    else
      var i := |log| - 1;
      StoresOf(c, log[..i], replies[..i]) +
      (if log[i].DeviceWrite? && Succeeds(c, log[i], replies[i]) then [StrobedBytes(c, log[i])] else [])
  }

  /** The stores among the events, in order. */
  ghost function TouchesOf(es: seq<Event>): seq<set<int>> {
    if es == [] then []
    else
      var i := |es| - 1;
      TouchesOf(es[..i]) + (if es[i].BusWrite? then [es[i].touched] else [])
  }

  /** The device reads, in order. */
  ghost function ReadsOf(log: seq<Access>): seq<Access> {
    if log == [] then []
    else
      var i := |log| - 1;
      ReadsOf(log[..i]) + (if log[i].DeviceRead? then [log[i]] else [])
  }

  /** What beat k of a read asks: every byte of the beat, from its first one, unless the
      response is forced or the beat ends at 2^64. */
  ghost function AskedBy(c: Config, r: Route, k: nat): seq<Access> {
    if !r.forced.Okay? || r.mapping.None? || r.mapping.value >= |c.mappings| || BeatEnd(r.payload, k) == TWO64 then []
    else [DeviceRead(r.mapping.value, BeatAddress(r.payload, k) - c.mappings[r.mapping.value].base,
                     seq(BeatEnd(r.payload, k) - BeatAddress(r.payload, k), _ => true))]
  }

  ghost function AskedFor(c: Config, served: seq<Served>): seq<Access> {
    if served == [] then []
    else
      var i := |served| - 1;
      AskedFor(c, served[..i]) + AskedBy(c, served[i].route, served[i].beat)
  }

  ghost predicate Explained(c: Config, s: Fabric) {
    && |s.h.replies| == |s.h.accesses| && Placed(c, s.h.accesses)
    && TouchesOf(s.h.events) == StoresOf(c, s.h.accesses, s.h.replies)
    && ReadsOf(s.h.accesses) == AskedFor(c, s.h.served)
  }

  lemma ReadsPush(log: seq<Access>, a: Access)
    ensures ReadsOf(log + [a]) == ReadsOf(log) + (if a.DeviceRead? then [a] else [])
  {
    assert (log + [a])[..|log|] == log;
  }

  lemma AskedPush(c: Config, served: seq<Served>, x: Served)
    ensures AskedFor(c, served + [x]) == AskedFor(c, served) + AskedBy(c, x.route, x.beat)
  {
    assert (served + [x])[..|served|] == served;
  }

  lemma ReadAccessIs(c: Config, r: Route, k: nat)
    requires RouteOk(c, r) && k < Beats(r.payload)
    ensures ReadAccess(c, r, k) == AskedBy(c, r, k)
  {
    hide InitRoute, BeatAddress, BeatEnd, Lanes, Mask;
    RouteFacts(c, r);
    if r.forced.Okay? && !EmptyBeat(r.payload, k) {
      ReadLanesEnabled(c, r.payload, k);
      var lanes := Lanes(c, r.payload, k, Mask(c.width, r.payload, k));
      assert lanes == seq(BeatEnd(r.payload, k) - BeatAddress(r.payload, k), _ => true);
    }
  }

  lemma StoresPush(c: Config, log: seq<Access>, replies: seq<Reply>, a: Access, reply: Reply)
    requires |replies| == |log| && Placed(c, log)
    requires a.mapping < |c.mappings| && c.mappings[a.mapping].device < |c.devices|
    ensures Placed(c, log + [a])
    ensures StoresOf(c, log + [a], replies + [reply]) ==
            StoresOf(c, log, replies) + (if a.DeviceWrite? && Succeeds(c, a, reply) then [StrobedBytes(c, a)] else [])
  {
    assert (log + [a])[..|log|] == log && (replies + [reply])[..|log|] == replies;
  }

  lemma TouchesPush(es: seq<Event>, e: Event)
    ensures TouchesOf(es + [e]) == TouchesOf(es) + (if e.BusWrite? then [e.touched] else [])
  {
    assert (es + [e])[..|es|] == es;
  }

  lemma SameExplained(c: Config, s: Fabric, t: Fabric)
    requires Explained(c, s) && t.h.events == s.h.events && t.h.accesses == s.h.accesses && t.h.replies == s.h.replies
    requires t.h.served == s.h.served
    ensures Explained(c, t)
  {}

  // ---- steps ------------------------------------------------------------------------------------------

  /** From s to t one access was made, and the monitors were told of it if it was a successful write. */
  ghost predicate Told(c: Config, s: Fabric, t: Fabric, a: Access, reply: Reply, before: seq<Event>)
    requires a.mapping < |c.mappings| && c.mappings[a.mapping].device < |c.devices|
  {
    && t.h.accesses == s.h.accesses + [a] && t.h.replies == s.h.replies + [reply]
    && TouchesOf(before) == TouchesOf(s.h.events)
    && t.h.events == if a.DeviceWrite? && Succeeds(c, a, reply) then before + [BusWrite(StrobedBytes(c, a))] else before
  }

  lemma ToldExplained(c: Config, s: Fabric, t: Fabric, a: Access, reply: Reply, before: seq<Event>)
    requires Explained(c, s) && a.mapping < |c.mappings| && c.mappings[a.mapping].device < |c.devices|
    requires Told(c, s, t, a, reply, before) && AskedFor(c, t.h.served) ==
               AskedFor(c, s.h.served) + if a.DeviceRead? then [a] else []
    ensures Explained(c, t)
  {
    hide StoresOf, TouchesOf, Succeeds, StrobedBytes, ReadsOf, AskedFor;
    ReadsPush(s.h.accesses, a);
    StoresPush(c, s.h.accesses, s.h.replies, a, reply);
    if a.DeviceWrite? && Succeeds(c, a, reply) { TouchesPush(before, BusWrite(StrobedBytes(c, a))); }
  }

  lemma BeatBytesStrobed(c: Config, r: Route, k: nat, st: Staged, a: Access)
    requires Mapped(c, r) && StagedOk(c, st) && a.DeviceWrite? && a.mapping == r.mapping.value
    requires a.offset == Lo(r.payload, k) - MappingOf(c, r).base
    requires a.strobe == Lanes(c, r.payload, k, Strobes(st.strobe))
    ensures StrobedBytes(c, a) == Touched(c, r.payload, k, st)
  {
    hide Lo, Hi;
    LanesFit(c, r.payload, k);
    forall x: nat | Lo(r.payload, k) <= x < Hi(r.payload, k)
      ensures a.strobe[x - Lo(r.payload, k)] <==> st.strobe[x % c.width] != 0
    {
      LaneInWord(c.width, Lo(r.payload, k), x);
    }
  }

  lemma BeatTold(c: Config, s: Fabric, reply: Reply)
    requires Base(c, s) && Committing(c, s) && Explained(c, s)
    ensures Explained(c, BeatEffect(c, s, reply))
  {
    hide RoutesOk, FifosOk, StoreBeat, Lanes, Touched, Invalidate, MemOk, Explained, TouchesOf, StrobedBytes, Lo, Hi,
         InitRoute, AskedFor;
    CommittingFacts(c, s);
    var f, t := s.writeRoutes[0], BeatEffect(c, s, reply);
    var k, p := f.commitBeat, f.route.payload;
    if EmptyBeat(p, k) {
      SameExplained(c, s, t);
    } else {
      var a := t.h.accesses[|s.h.accesses|];
      BeatBytesStrobed(c, f.route, k, f.staged[k], a);
      assert Succeeds(c, a, reply) <==> Success(BeatAnswer(c, f.route, k, reply));
      assert Told(c, s, t, a, reply, s.h.events);
      assert AskedFor(c, s.h.served) + [] == AskedFor(c, s.h.served);
      ToldExplained(c, s, t, a, reply, s.h.events);
    }
  }

  lemma FinishTold(c: Config, s: Fabric, reply: Reply)
    requires Base(c, s) && Finishing(c, s) && Explained(c, s)
    ensures Explained(c, ExclusiveEffect(c, s, reply))
  {
    hide RoutesOk, FifosOk, StoreAt, GatherData, GatherStrobe, Invalidate, MemOk, Explained, TouchesOf, ClearMonitor,
         InitRoute, AskedFor;
    FinishingFacts(c, s);
    var f, t := s.writeRoutes[0], ExclusiveEffect(c, s, reply);
    var e := ExclusiveWrite(|s.h.done|, f.route, ExclusiveAnswer(c, s, reply), s.mem);
    TouchesPush(s.h.events, e);
    assert TouchesOf(s.h.events) + [] == TouchesOf(s.h.events);
    if Takes(s) {
      var a, p := t.h.accesses[|s.h.accesses|], f.route.payload;
      assert StrobedBytes(c, a) == GatherTouched(p, GatherStrobe(c, p, f.staged));
      assert s.h.events + [e] + [] == s.h.events + [e];
      assert Told(c, s, t, a, reply, s.h.events + [e]);
      assert AskedFor(c, s.h.served) + [] == AskedFor(c, s.h.served);
      ToldExplained(c, s, t, a, reply, s.h.events + [e]);
    } else {
      OneMoreEvent(c, s, t, e);
    }
  }

  lemma OneMoreEvent(c: Config, s: Fabric, t: Fabric, e: Event)
    requires Explained(c, s) && !e.BusWrite? && t.h.events == s.h.events + [e]
    requires t.h.accesses == s.h.accesses && t.h.replies == s.h.replies && t.h.served == s.h.served
    ensures Explained(c, t)
  {
    hide StoresOf, TouchesOf, ReadsOf, AskedFor;
    TouchesPush(s.h.events, e);
    assert TouchesOf(s.h.events) + [] == TouchesOf(s.h.events);
  }

  lemma WriteCommitTold(c: Config, s: Fabric, reply: Reply)
    requires Base(c, s) && Explained(c, s) && s.writeRoutes != [] && s.writeRoutes[0].dataComplete
    ensures Explained(c, WriteCommit(c, s, reply))
  {
    hide RoutesOk, FifosOk, BeatEffect, BeatFront, ExclusiveEffect, ExclusiveAnswer, MemOk, Explained, InitRoute;
    FrontWriteOk(c, s);
    var f, t := s.writeRoutes[0], WriteCommit(c, s, reply);
    if |s.ports[f.route.port].b| == c.responseDepth {
    } else if f.route.payload.lock {
      FinishTold(c, s, reply);
      SameExplained(c, ExclusiveEffect(c, s, reply), t);
    } else if !f.route.forced.Okay? {
      SameExplained(c, s, t);
    } else {
      CommittingFacts(c, s);
      BeatTold(c, s, reply);
      SameExplained(c, BeatEffect(c, s, reply), t);
    }
  }

  lemma WriteStepTold(c: Config, s: Fabric, reply: Reply)
    requires Base(c, s) && Explained(c, s)
    ensures Explained(c, WriteStep(c, s, reply).s)
  {
    hide RoutesOk, FifosOk, WriteCommit, StrobesLegal, MemOk, Explained;
    if s.writeRoutes != [] {
      FrontWriteOk(c, s);
      var f := s.writeRoutes[0];
      if f.dataComplete {
        WriteCommitTold(c, s, reply);
      } else if s.ports[f.route.port].w != [] {
        StageBase(c, s);
        SameExplained(c, s, StageBeat(c, s));
        if StageBeat(c, s).writeRoutes[0].dataComplete { WriteCommitTold(c, StageBeat(c, s), reply); }
      }
    }
  }

  lemma ServeTold(c: Config, s: Fabric, reply: Reply)
    requires Base(c, s) && Explained(c, s) && s.readRoutes != []
    ensures Explained(c, ServeRead(c, s, reply))
  {
    hide RoutesOk, FifosOk, ServedBeat, ReadAccess, MemOk, InitRoute, AskedFor, AskedBy, StoresOf, TouchesOf, ReadsOf;
    FrontReadOk(c, s);
    var f, t := s.readRoutes[0], ServeRead(c, s, reply);
    RouteFacts(c, f.route);
    ReadAccessIs(c, f.route, f.beat);
    AskedPush(c, s.h.served, t.h.served[|s.h.served|]);
    ReadAccessShape(c, f.route, f.beat);
    if ReadAccess(c, f.route, f.beat) == [] {
      assert AskedFor(c, s.h.served) + [] == AskedFor(c, s.h.served);
      assert t.h.accesses == s.h.accesses && t.h.replies == s.h.replies;
    } else {
      var a := ReadAccess(c, f.route, f.beat)[0];
      assert ReadAccess(c, f.route, f.beat) == [a];
      ToldExplained(c, s, t, a, reply, s.h.events);
    }
  }

  lemma ReadAccessShape(c: Config, r: Route, k: nat)
    requires RouteOk(c, r)
    ensures |ReadAccess(c, r, k)| <= 1
    ensures ReadAccess(c, r, k) != [] ==>
              var a := ReadAccess(c, r, k)[0];
              a.DeviceRead? && a.mapping < |c.mappings| && c.mappings[a.mapping].device < |c.devices|
  {
    hide InitRoute, Lanes, Mask;
    RouteFacts(c, r);
  }

  lemma ReadStepTold(c: Config, s: Fabric, reply: Reply)
    requires Base(c, s) && Explained(c, s)
    ensures Explained(c, ReadStep(c, s, reply).s)
  {
    hide RoutesOk, FifosOk, ServeRead, MemOk, ConfigOk, Explained;
    if s.readRoutes != [] {
      FrontReadOk(c, s);
      var f := s.readRoutes[0];
      if |s.ports[f.route.port].r| != c.responseDepth {
        if f.route.payload.lock && f.beat == 0 && f.route.forced.Okay? {
          EstablishBase(c, s, f.route);
          var o := Establish(c, s, f.route);
          if o.Done? {
            OneMoreEvent(c, s, o.s, Reserve(f.route.port, f.route.payload, s.mem, |s.h.served|));
            ServeTold(c, o.s, reply);
          }
        } else {
          ServeTold(c, s, reply);
        }
      }
    }
  }

  lemma ProcessTold(c: Config, s: Fabric, reply: Reply)
    requires Base(c, s) && Explained(c, s)
    ensures Explained(c, Process(c, s, reply).s)
  {
    hide RoutesOk, FifosOk, WriteStep, ReadStep, Explained;
    var s0 := Unsuppress(c, s);
    SameExplained(c, s, s0);
    WriteStepBase(c, s0, reply);
    WriteStepTold(c, s0, reply);
    var o := WriteStep(c, s0, reply);
    if o.Done? && !o.s.suppressRead { ReadStepTold(c, o.s, reply); }
  }

  lemma FreshTold(c: Config, s: Fabric)
    requires s.h == FreshHistory(c, s.mem)
    ensures Explained(c, s)
  {}

  lemma ArbitrateTold(c: Config, s: Fabric)
    requires Base(c, s) && Explained(c, s)
    ensures Explained(c, Arbitrate(c, s).s)
  {
    hide InitRoute, Pick, RoutesOk, FifosOk, Explained;
    SameExplained(c, s, Arbitrate(c, s).s);
  }

  lemma CycleTold(c: Config, s: Fabric, x: Stimulus)
    requires Base(c, s) && StimulusOk(c, x) && Explained(c, s)
    ensures Explained(c, Cycle(c, s, x).s)
  {
    hide Explained, Ingress, Arbitrate, Process, RoutesOk, FifosOk;
    DriveBase(c, s, x.reset, x.stalls);
    var d := Drive(c, s, x.reset, x.stalls);
    SameExplained(c, s, d);
    if x.reset {
      if d.wasReset { SameExplained(c, d, ResetCycle(c, d)); } else { FreshTold(c, ResetCycle(c, d)); }
    } else {
      var s1 := Awake(c, d);
      IngressPortsOnly(c, s1, x.inputs);
      var o1 := Ingress(c, s1, x.inputs);
      SameExplained(c, d, o1.s);
      if o1.Done? {
        ArbitrateTold(c, o1.s);
        var o2 := Arbitrate(c, o1.s);
        if o2.Done? {
          ProcessTold(c, o2.s, x.reply);
          var o3 := Process(c, o2.s, x.reply);
          if o3.Done? { SameExplained(c, o3.s, Tick(c, o3.s)); }
        }
      }
    }
  }

  /** In every run the device reads are, in order, those of the read beats, each of all
      bytes of its beat; and the stores that count against reservations are, in order,
      the device writes that succeeded, each with exactly its strobed bytes. */
  lemma {:induction false} AccessesExplained(c: Config, mem: Mem, xs: seq<Stimulus>)
    requires ConfigOk(c) && MemOk(c, mem) && StimuliOk(c, xs)
    ensures Base(c, Init(c, mem)) && Explained(c, Run(c, Init(c, mem), xs).s)
  {
    hide Explained, Cycle, RoutesOk, FifosOk;
    InitBase(c, mem);
    if xs == [] {
      FreshTold(c, Init(c, mem));
    } else {
      AccessesExplained(c, mem, xs[..|xs| - 1]);
      var o := Run(c, Init(c, mem), xs[..|xs| - 1]);
      if o.Done? { CycleTold(c, o.s, xs[|xs| - 1]); }
    }
  }
}
