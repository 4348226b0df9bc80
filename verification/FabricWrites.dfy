/**
  What devices are sent: the device writes of each write burst are its beats, in
  order, each once, up to the first refusal; and a cycle uses at most one device.
 */
module FabricWrites {
  import opened Axi
  import opened Fabric
  import opened FabricRun
  import opened FabricOrder
  import opened FabricErrors
  import opened FabricAtomic
  import opened FabricValidated

  /** The device writes that belong to write n. */
  ghost function AccessesOf(log: seq<Access>, n: nat): seq<Access> {
    if log == [] then []
    else
      var a := log[|log| - 1];
      AccessesOf(log[..|log| - 1], n) + (if a.DeviceWrite? && a.write == n then [a] else [])
  }

  lemma AccessesPush(log: seq<Access>, a: Access, n: nat)
    ensures AccessesOf(log + [a], n) ==
            AccessesOf(log, n) + (if a.DeviceWrite? && a.write == n then [a] else [])
  {
    assert (log + [a])[..|log|] == log;
  }

  /** Beat k of write n: the enabled lanes of its bus word with their strobes. */
  ghost function BeatAccess(c: Config, n: nat, r: Route, k: nat, st: Staged): Access
    requires Mapped(c, r) && StagedOk(c, st)
  {
    DeviceWrite(n, r.mapping.value, Lo(r.payload, k) - MappingOf(c, r).base,
                Lanes(c, r.payload, k, st.data), Lanes(c, r.payload, k, Strobes(st.strobe)))
  }

  /** The non-empty ones of the first m beats. */
  ghost function BeatAccesses(c: Config, n: nat, r: Route, staged: seq<Staged>, m: nat): seq<Access>
    requires Mapped(c, r) && m <= |staged| && forall k | 0 <= k < |staged| :: StagedOk(c, staged[k])
  {
    if m == 0 then []
    else
      BeatAccesses(c, n, r, staged, m - 1) +
      (if EmptyBeat(r.payload, m - 1) then [] else [BeatAccess(c, n, r, m - 1, staged[m - 1])])
  }

  /** The one access of an exclusive write. */
  ghost function GatherAccess(c: Config, n: nat, r: Route, staged: seq<Staged>): Access
    requires Mapped(c, r) && AllStaged(c, r.payload, staged)
  {
    DeviceWrite(n, r.mapping.value, r.payload.address - MappingOf(c, r).base,
                GatherData(c, r.payload, staged), GatherStrobe(c, r.payload, staged))
  }

  /** m beats were tried; if not all, the last one was refused.  RAM and ROM refuse
      a beat exactly if it does not fit. */
  ghost predicate Tried(c: Config, n: nat, r: Route, d: DoneWrite, log: seq<Access>, m: nat)
    requires Mapped(c, r) && AllStaged(c, r.payload, d.staged)
  {
    && 1 <= m <= Beats(r.payload) && log == BeatAccesses(c, n, r, d.staged, m)
    && (m < Beats(r.payload) ==> !Success(d.response.response))
    && (!DeviceOf(c, r).Peripheral? ==>
          (forall j | 0 <= j < m - 1 :: BeatFits(c, r, j)) && (m < Beats(r.payload) ==> !BeatFits(c, r, m - 1)))
  }

  /** What a finished write has sent to its device. */
  ghost predicate DoneLog(c: Config, n: nat, r: Route, d: DoneWrite, log: seq<Access>) {
    && RouteOk(c, r) && AllStaged(c, r.payload, d.staged)
    && (!r.forced.Okay? ==> log == [])
    && (r.forced.Okay? ==>
          (RouteFacts(c, r);
           if r.payload.lock then log == (if d.response.response.Okay? then [] else [GatherAccess(c, n, r, d.staged)])
           else exists m: nat :: Tried(c, n, r, d, log, m)))
  }

  /** What the oldest unfinished write has sent: the beats it has committed. */
  ghost predicate FrontLog(c: Config, n: nat, f: WriteRoute, log: seq<Access>) {
    && (f.commitBeat == 0 ==> log == [])
    && (f.commitBeat > 0 ==>
          && WriteOk(c, f) && Mapped(c, f.route) && f.commitBeat <= |f.staged|
          && log == BeatAccesses(c, n, f.route, f.staged, f.commitBeat)
          && (!DeviceOf(c, f.route).Peripheral? ==> forall j | 0 <= j < f.commitBeat :: BeatFits(c, f.route, j)))
  }

  ghost predicate Logged(c: Config, s: Fabric) {
    && Linked(s.h.wgrants, s.h.done, s.writeRoutes)
    && (forall n | 0 <= n < |s.h.done| :: DoneLog(c, n, s.h.wgrants[n], s.h.done[n], AccessesOf(s.h.accesses, n)))
    && (s.writeRoutes != [] ==> FrontLog(c, |s.h.done|, s.writeRoutes[0], AccessesOf(s.h.accesses, |s.h.done|)))
    && (s.writeRoutes == [] ==> AccessesOf(s.h.accesses, |s.h.done|) == [])
    && (forall n: nat | n > |s.h.done| :: AccessesOf(s.h.accesses, n) == [])
  }

  lemma SameLogged(c: Config, s: Fabric, t: Fabric)
    requires Logged(c, s) && t.writeRoutes == s.writeRoutes && t.h.wgrants == s.h.wgrants && t.h.done == s.h.done
    requires t.h.accesses == s.h.accesses
    ensures Logged(c, t)
  {}

  // ---- grants and staging ------------------------------------------------------------------------

  lemma GrantedLogged(c: Config, s: Fabric, t: Fabric, r: Route)
    requires Logged(c, s) && t.writeRoutes == s.writeRoutes + [WriteRoute(r, [], Okay, None, 0, false)]
    requires t.h == s.h.(wgrants := s.h.wgrants + [r])
    ensures Logged(c, t)
  {
    hide DoneLog, AccessesOf;
  }

  lemma ArbitrateLogged(c: Config, s: Fabric)
    requires Base(c, s) && Logged(c, s)
    ensures Logged(c, Arbitrate(c, s).s)
  {
    hide Logged, GrantWrite, GrantRead, RoutesOk, FifosOk;
    GrantWriteBase(c, s);
    GrantWriteShape(c, s);
    GrantWriteFailure(c, s);
    var o := GrantWrite(c, s);
    if o.Done? {
      if o.s != s {
        var p: nat, r :| RouteOk(c, r) && GrantedWrite(c, s, o.s, p, r);
        GrantedLogged(c, s, o.s, r);
      }
      GrantReadBase(c, o.s);
      GrantReadShape(c, o.s);
      GrantReadFailure(c, o.s);
      var o2 := GrantRead(c, o.s);
      if o2.Done? && o2.s != o.s {
        var p: nat, r :| RouteOk(c, r) && GrantedRead(c, o.s, o2.s, p, r);
        SameLogged(c, o.s, o2.s);
      }
    }
  }

  lemma StageLogged(c: Config, s: Fabric)
    requires Base(c, s) && Logged(c, s) && s.writeRoutes != [] && !s.writeRoutes[0].dataComplete
    requires s.writeRoutes[0].route.port < c.ports && s.ports[s.writeRoutes[0].route.port].w != []
    ensures Logged(c, StageBeat(c, s))
  {
    hide DoneLog, AccessesOf, RoutesOk, FifosOk, BeatAccesses;
    FrontWriteOk(c, s);
  }

  // ---- commits --------------------------------------------------------------------------------------

  /** The front write logs some accesses of its own. */
  ghost predicate FrontLogs(s: Fabric, t: Fabric, more: seq<Access>) {
    && t.writeRoutes == s.writeRoutes && t.h.wgrants == s.h.wgrants && t.h.done == s.h.done
    && t.h.accesses == s.h.accesses + more && |more| <= 1
    && (more != [] ==> more[0].DeviceWrite? && more[0].write == |s.h.done|)
  }

  lemma FrontLogsOf(s: Fabric, t: Fabric, more: seq<Access>, n: nat)
    requires FrontLogs(s, t, more)
    ensures AccessesOf(t.h.accesses, n) == AccessesOf(s.h.accesses, n) + (if n == |s.h.done| then more else [])
  {
    hide AccessesOf;
    if more == [] {
      assert s.h.accesses + more == s.h.accesses;
    } else {
      assert more == [more[0]];
      AccessesPush(s.h.accesses, more[0], n);
    }
  }

  /** The front write is finished with what it has logged. */
  lemma CompleteLogged(c: Config, s: Fabric, s1: Fabric, more: seq<Access>, f: WriteRoute)
    requires Logged(c, s) && s.writeRoutes != [] && FrontLogs(s, s1, more) && Sized(c, s1) && f.route.port < c.ports
    requires f.route == s.writeRoutes[0].route && f.staged == s.writeRoutes[0].staged
    requires |s.writeRoutes| > 1 ==> s.writeRoutes[1].commitBeat == 0
    requires var d := DoneWrite(f.staged, WriteResponse(f.route.payload.id, f.response, f.exit));
             DoneLog(c, |s.h.done|, f.route, d, AccessesOf(s.h.accesses, |s.h.done|) + more)
    ensures Logged(c, CompleteWrite(c, s1, f))
  {
    hide DoneLog, AccessesOf, MemOk;
    var t := CompleteWrite(c, s1, f);
    forall n: nat ensures
      AccessesOf(t.h.accesses, n) == AccessesOf(s.h.accesses, n) + (if n == |s.h.done| then more else [])
    {
      FrontLogsOf(s, s1, more, n);
    }
    forall n | 0 <= n < |t.h.done|
      ensures DoneLog(c, n, t.h.wgrants[n], t.h.done[n], AccessesOf(t.h.accesses, n))
    {
      if n < |s.h.done| {
        assert DoneLog(c, n, s.h.wgrants[n], s.h.done[n], AccessesOf(s.h.accesses, n));
        assert AccessesOf(s.h.accesses, n) + [] == AccessesOf(s.h.accesses, n);
      }
    }
  }

  /** The front write goes on, with the beat it has logged. */
  lemma AdvanceLogged(c: Config, s: Fabric, s1: Fabric, more: seq<Access>, f: WriteRoute)
    requires Logged(c, s) && s.writeRoutes != [] && FrontLogs(s, s1, more) && f.route == s.writeRoutes[0].route
    requires FrontLog(c, |s.h.done|, f, AccessesOf(s.h.accesses, |s.h.done|) + more)
    ensures Logged(c, s1.(writeRoutes := s.writeRoutes[0 := f]))
  {
    hide DoneLog, AccessesOf, FrontLog;
    var t := s1.(writeRoutes := s.writeRoutes[0 := f]);
    forall n: nat ensures
      AccessesOf(t.h.accesses, n) == AccessesOf(s.h.accesses, n) + (if n == |s.h.done| then more else [])
    {
      FrontLogsOf(s, s1, more, n);
    }
    forall n | 0 <= n < |t.h.done|
      ensures DoneLog(c, n, t.h.wgrants[n], t.h.done[n], AccessesOf(t.h.accesses, n))
    {
      assert DoneLog(c, n, s.h.wgrants[n], s.h.done[n], AccessesOf(s.h.accesses, n));
      assert AccessesOf(s.h.accesses, n) + [] == AccessesOf(s.h.accesses, n);
    }
  }

  /** What the next beat adds to the log. */
  ghost function NextAccess(c: Config, n: nat, f: WriteRoute): seq<Access>
    requires Mapped(c, f.route) && f.commitBeat < |f.staged| && StagedOk(c, f.staged[f.commitBeat])
  {
    if EmptyBeat(f.route.payload, f.commitBeat) then []
    else [BeatAccess(c, n, f.route, f.commitBeat, f.staged[f.commitBeat])]
  }

  lemma BeatLogs(c: Config, s: Fabric, reply: Reply)
    requires Base(c, s) && Committing(c, s)
    ensures var f := s.writeRoutes[0];
            && Mapped(c, f.route) && f.commitBeat < |f.staged| && StagedOk(c, f.staged[f.commitBeat])
            && FrontLogs(s, BeatEffect(c, s, reply), NextAccess(c, |s.h.done|, f))
  {
    hide RoutesOk, FifosOk, StoreAt, Lanes, Touched, Invalidate, DeviceAnswer;
    CommittingFacts(c, s);
    assert s.h.accesses + [] == s.h.accesses;
  }

  /** The front's log after its next beat, whatever the answer. */
  lemma NextTried(c: Config, n: nat, f: WriteRoute, log: seq<Access>)
    requires WriteOk(c, f) && FrontLog(c, n, f, log) && f.dataComplete && Mapped(c, f.route)
    ensures f.commitBeat < |f.staged| == Beats(f.route.payload)
    ensures log + NextAccess(c, n, f) == BeatAccesses(c, n, f.route, f.staged, f.commitBeat + 1)
    ensures !DeviceOf(c, f.route).Peripheral? ==> forall j | 0 <= j < f.commitBeat :: BeatFits(c, f.route, j)
  {
    hide BeatAccess, InitRoute;
    assert BeatAccesses(c, n, f.route, f.staged, 0) == [];
  }

  lemma BeatRefused(c: Config, r: Route, k: nat, reply: Reply)
    requires Mapped(c, r)
    ensures !DeviceOf(c, r).Peripheral? ==> (Success(BeatAnswer(c, r, k, reply)) <==> BeatFits(c, r, k))
  {}

  lemma CombineFails(a: Response, b: Response)
    ensures !Success(b) ==> !Success(Combine(a, b))
  {}

  lemma CommitBeatLogged(c: Config, s: Fabric, reply: Reply)
    requires Base(c, s) && Committing(c, s) && Logged(c, s)
    ensures Logged(c, CommitBeat(c, s, reply))
  {
    hide RoutesOk, FifosOk, BeatEffect, CompleteWrite, Logged, BeatAccesses, BeatFits, BeatAnswer, NextAccess,
         InitRoute;
    CommittingFacts(c, s);
    var f, n := s.writeRoutes[0], |s.h.done|;
    var log := AccessesOf(s.h.accesses, n);
    FrontOf(c, s);
    BeatLogs(c, s, reply);
    NextTried(c, n, f, log);
    var answer := BeatAnswer(c, f.route, f.commitBeat, reply);
    BeatRefused(c, f.route, f.commitBeat, reply);
    CombineFails(f.response, answer);
    var s1, f1 := BeatEffect(c, s, reply), BeatFront(c, s, reply);
    var more := NextAccess(c, n, f);
    if f1.commitBeat == Beats(f1.route.payload) {
      var d := DoneWrite(f1.staged, WriteResponse(f1.route.payload.id, f1.response, f1.exit));
      assert Tried(c, n, f.route, d, log + more, f.commitBeat + 1);
      CompleteLogged(c, s, s1, more, f1);
    } else {
      assert FrontLog(c, n, f1, log + more);
      AdvanceLogged(c, s, s1, more, f1);
      assert s1.(writeRoutes := s.writeRoutes[0 := f1]) == CommitBeat(c, s, reply);
    }
  }

  lemma FrontOf(c: Config, s: Fabric)
    requires Base(c, s) && Logged(c, s) && s.writeRoutes != []
    ensures FrontLog(c, |s.h.done|, s.writeRoutes[0], AccessesOf(s.h.accesses, |s.h.done|))
    ensures WriteOk(c, s.writeRoutes[0])
    ensures |s.writeRoutes| > 1 ==> s.writeRoutes[1].commitBeat == 0
  {
    hide DoneLog, AccessesOf, FrontLog;
  }

  lemma ExclusiveLogs(c: Config, s: Fabric, reply: Reply) returns (more: seq<Access>)
    requires Base(c, s) && Finishing(c, s)
    ensures FrontLogs(s, ExclusiveEffect(c, s, reply), more)
    ensures var f := s.writeRoutes[0];
            && AllStaged(c, f.route.payload, f.staged)
            && (!f.route.forced.Okay? ==> more == [] && ExclusiveAnswer(c, s, reply) == f.route.forced)
            && (f.route.forced.Okay? ==>
                  Mapped(c, f.route) &&
                  more == if ExclusiveAnswer(c, s, reply).Okay? then []
                          else [GatherAccess(c, |s.h.done|, f.route, f.staged)])
  {
    hide RoutesOk, FifosOk, StoreAt, GatherData, GatherStrobe, GatherTouched, Invalidate;
    FinishingFacts(c, s);
    more := if Takes(s) then [GatherAccess(c, |s.h.done|, s.writeRoutes[0].route, s.writeRoutes[0].staged)] else [];
    assert s.h.accesses + [] == s.h.accesses;
  }

  lemma FinishLogged(c: Config, s: Fabric, reply: Reply)
    requires Base(c, s) && Finishing(c, s) && Logged(c, s)
    ensures Logged(c, FinishExclusive(c, s, reply))
  {
    hide RoutesOk, FifosOk, ExclusiveEffect, ExclusiveAnswer, CompleteWrite, Logged, AccessesOf, GatherAccess;
    FinishingFacts(c, s);
    FrontOf(c, s);
    var more := ExclusiveLogs(c, s, reply);
    var f := s.writeRoutes[0].(response := ExclusiveAnswer(c, s, reply));
    assert AccessesOf(s.h.accesses, |s.h.done|) + more == more;
    CompleteLogged(c, s, ExclusiveEffect(c, s, reply), more, f);
  }

  lemma WriteCommitLogged(c: Config, s: Fabric, reply: Reply)
    requires Base(c, s) && Logged(c, s) && s.writeRoutes != [] && s.writeRoutes[0].dataComplete
    ensures Logged(c, WriteCommit(c, s, reply))
  {
    hide RoutesOk, FifosOk, Logged, AccessesOf, CommitBeat, FinishExclusive, CompleteWrite;
    FrontOf(c, s);
    var f := s.writeRoutes[0];
    if |s.ports[f.route.port].b| == c.responseDepth {
    } else if f.route.payload.lock {
      FinishLogged(c, s, reply);
    } else if !f.route.forced.Okay? {
      assert s.h.accesses + [] == s.h.accesses;
      assert AccessesOf(s.h.accesses, |s.h.done|) + [] == [];
      CompleteLogged(c, s, s, [], f.(response := Combine(f.response, f.route.forced)));
    } else {
      CommitBeatLogged(c, s, reply);
    }
  }

  lemma WriteStepLogged(c: Config, s: Fabric, reply: Reply)
    requires Base(c, s) && Logged(c, s)
    ensures Logged(c, WriteStep(c, s, reply).s)
  {
    hide Logged, WriteCommit, StageBeat, FifosOk, RoutesOk, StrobesLegal;
    if s.writeRoutes != [] {
      FrontWriteOk(c, s);
      var f := s.writeRoutes[0];
      if f.dataComplete {
        WriteCommitLogged(c, s, reply);
      } else if s.ports[f.route.port].w != [] && WriteStep(c, s, reply).Done? {
        StageBase(c, s);
        StageLogged(c, s);
        StagedComplete(c, s);
        var s1 := StageBeat(c, s);
        if s1.writeRoutes[0].dataComplete { WriteCommitLogged(c, s1, reply); }
      }
    }
  }

  // ---- reads, cycles and runs ---------------------------------------------------------------------------

  /** A read logs at most one access, which is no write. */
  lemma ReadStepLogs(c: Config, s: Fabric, reply: Reply) returns (more: seq<Access>)
    requires Base(c, s)
    ensures var t := ReadStep(c, s, reply).s;
            && t.writeRoutes == s.writeRoutes && t.h.wgrants == s.h.wgrants && t.h.done == s.h.done
            && t.h.accesses == s.h.accesses + more && |more| <= 1 && (more != [] ==> more[0].DeviceRead?)
  {
    hide RoutesOk, FifosOk, ServedBeat, Lanes, Mask;
    if s.readRoutes != [] { FrontReadOk(c, s); }
    assert s.h.accesses + [] == s.h.accesses;
    more := ReadStep(c, s, reply).s.h.accesses[|s.h.accesses|..];
  }

  lemma ReadStepLogged(c: Config, s: Fabric, reply: Reply)
    requires Base(c, s) && Logged(c, s)
    ensures Logged(c, ReadStep(c, s, reply).s)
  {
    hide ReadStep, RoutesOk, FifosOk, AccessesOf, DoneLog, FrontLog;
    var more := ReadStepLogs(c, s, reply);
    var t := ReadStep(c, s, reply).s;
    forall n: nat ensures AccessesOf(t.h.accesses, n) == AccessesOf(s.h.accesses, n) {
      if more == [] {
        assert s.h.accesses + more == s.h.accesses;
      } else {
        assert more == [more[0]];
        AccessesPush(s.h.accesses, more[0], n);
      }
    }
    forall n | 0 <= n < |t.h.done|
      ensures DoneLog(c, n, t.h.wgrants[n], t.h.done[n], AccessesOf(t.h.accesses, n))
    {
      assert DoneLog(c, n, s.h.wgrants[n], s.h.done[n], AccessesOf(s.h.accesses, n));
    }
  }

  lemma ProcessLogged(c: Config, s: Fabric, reply: Reply)
    requires Base(c, s) && Logged(c, s)
    ensures Logged(c, Process(c, s, reply).s)
  {
    hide Logged, WriteStep, ReadStep, RoutesOk, FifosOk;
    var s0 := Unsuppress(c, s);
    SameLogged(c, s, s0);
    WriteStepBase(c, s0, reply);
    WriteStepLogged(c, s0, reply);
    var o := WriteStep(c, s0, reply);
    if o.Done? && !o.s.suppressRead { ReadStepLogged(c, o.s, reply); }
  }

  lemma FreshLogged(c: Config, s: Fabric)
    requires s.writeRoutes == [] && s.h == FreshHistory(c, s.mem)
    ensures Logged(c, s)
  {}

  lemma CycleLogged(c: Config, s: Fabric, x: Stimulus)
    requires Base(c, s) && StimulusOk(c, x) && Logged(c, s)
    ensures Logged(c, Cycle(c, s, x).s)
  {
    hide Logged, Ingress, Arbitrate, Process, RoutesOk, FifosOk;
    DriveBase(c, s, x.reset, x.stalls);
    var d := Drive(c, s, x.reset, x.stalls);
    SameLogged(c, s, d);
    if x.reset {
      if d.wasReset { SameLogged(c, d, ResetCycle(c, d)); } else { FreshLogged(c, ResetCycle(c, d)); }
    } else {
      var s1 := Awake(c, d);
      IngressPortsOnly(c, s1, x.inputs);
      var o1 := Ingress(c, s1, x.inputs);
      SameLogged(c, d, o1.s);
      if o1.Done? {
        ArbitrateLogged(c, o1.s);
        var o2 := Arbitrate(c, o1.s);
        if o2.Done? {
          ProcessLogged(c, o2.s, x.reply);
          var o3 := Process(c, o2.s, x.reply);
          if o3.Done? { SameLogged(c, o3.s, Tick(c, o3.s)); }
        }
      }
    }
  }

  lemma {:induction false} RunLogged(c: Config, mem: Mem, xs: seq<Stimulus>)
    requires ConfigOk(c) && MemOk(c, mem) && StimuliOk(c, xs)
    ensures Base(c, Init(c, mem)) && Logged(c, Run(c, Init(c, mem), xs).s)
  {
    hide Logged, Cycle, RoutesOk, FifosOk;
    InitBase(c, mem);
    if xs == [] {
      FreshLogged(c, Init(c, mem));
    } else {
      RunLogged(c, mem, xs[..|xs| - 1]);
      var o := Run(c, Init(c, mem), xs[..|xs| - 1]);
      if o.Done? { CycleLogged(c, o.s, xs[|xs| - 1]); }
    }
  }

  /**
    In every run, for every kind of device: a finished write has sent its non-empty
    beats in order, each once, with the data and strobes of its enabled lanes, all of
    them if it succeeded and up to the refused one otherwise; an exclusive write has
    sent its gathered transfer once unless it answered OKAY; a write answered without
    a device has sent nothing.
   */
  lemma DeviceWritesExact(c: Config, mem: Mem, xs: seq<Stimulus>, n: nat)
    requires ConfigOk(c) && MemOk(c, mem) && StimuliOk(c, xs) && Base(c, Init(c, mem))
    requires n < |Run(c, Init(c, mem), xs).s.h.done|
    ensures var h := Run(c, Init(c, mem), xs).s.h;
            n < |h.wgrants| && DoneLog(c, n, h.wgrants[n], h.done[n], AccessesOf(h.accesses, n))
  {
    hide Cycle, DoneLog, RoutesOk, FifosOk;
    RunLogged(c, mem, xs);
  }

  // ---- one device access per cycle -------------------------------------------------------------------------

  /** t continues the access log of s by at most one entry. */
  ghost predicate OneMore(s: Fabric, t: Fabric) {
    s.h.accesses <= t.h.accesses && |t.h.accesses| <= |s.h.accesses| + 1
  }

  lemma WriteCommitOne(c: Config, s: Fabric, reply: Reply)
    requires Base(c, s) && s.writeRoutes != [] && s.writeRoutes[0].dataComplete
    ensures OneMore(s, WriteCommit(c, s, reply))
  {
    hide RoutesOk, FifosOk, BeatEffect, ExclusiveEffect, NextAccess;
    FrontWriteOk(c, s);
    var f := s.writeRoutes[0];
    if |s.ports[f.route.port].b| == c.responseDepth || (!f.route.payload.lock && !f.route.forced.Okay?) {
    } else if f.route.payload.lock {
      var more := ExclusiveLogs(c, s, reply);
    } else {
      BeatLogs(c, s, reply);
    }
  }

  lemma WriteStepOne(c: Config, s: Fabric, reply: Reply)
    requires Base(c, s)
    ensures OneMore(s, WriteStep(c, s, reply).s)
  {
    hide WriteCommit, FifosOk, RoutesOk, StrobesLegal;
    if s.writeRoutes != [] {
      FrontWriteOk(c, s);
      var f := s.writeRoutes[0];
      if f.dataComplete {
        WriteCommitOne(c, s, reply);
      } else if s.ports[f.route.port].w != [] && WriteStep(c, s, reply).Done? {
        StageBase(c, s);
        var s1 := StageBeat(c, s);
        if s1.writeRoutes[0].dataComplete { WriteCommitOne(c, s1, reply); }
      }
    }
  }

  lemma ProcessOne(c: Config, s: Fabric, reply: Reply)
    requires Base(c, s)
    ensures OneMore(s, Process(c, s, reply).s)
  {
    hide WriteStep, ReadStep, RoutesOk, FifosOk;
    var s0 := Unsuppress(c, s);
    WriteStepBase(c, s0, reply);
    WriteStepOne(c, s0, reply);
    WriteStepQuiet(c, s0, reply);
    var o := WriteStep(c, s0, reply);
    if o.Done? && !o.s.suppressRead { var more := ReadStepLogs(c, o.s, reply); }
  }

  /** A cycle without reset uses at most one device, so one answer per cycle is enough. */
  lemma OneAccessPerCycle(c: Config, s: Fabric, x: Stimulus)
    requires Base(c, s) && StimulusOk(c, x) && !x.reset
    ensures OneMore(s, Cycle(c, s, x).s)
  {
    hide Ingress, Arbitrate, Process, RoutesOk, FifosOk;
    DriveBase(c, s, x.reset, x.stalls);
    var s1 := Awake(c, Drive(c, s, x.reset, x.stalls));
    IngressPortsOnly(c, s1, x.inputs);
    var o1 := Ingress(c, s1, x.inputs);
    if o1.Done? {
      ArbitrateUntouched(c, o1.s);
      var o2 := Arbitrate(c, o1.s);
      if o2.Done? { ProcessOne(c, o2.s, x.reply); }
    }
  }
}
