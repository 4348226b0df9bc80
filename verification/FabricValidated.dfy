/**
  Devices see only validated bursts: every device write of every run belongs to
  a write whose W beats have all been received, WLAST on the last one only and
  every strobe on an enabled lane.
 */
module FabricValidated {
  import opened Axi
  import opened Fabric
  import opened FabricRun
  import opened FabricOrder
  import opened FabricErrors
  import opened FabricAtomic

  /** The staged beats passed the strobe check, beat by beat. */
  ghost predicate LegalStaged(c: Config, p: AddressPayload, staged: seq<Staged>) {
    forall k | 0 <= k < |staged| :: c.width > 0 && StagedOk(c, staged[k]) && StrobesLegal(c, p, k, staged[k].strobe)
  }

  /** The whole burst was received and checked. */
  ghost predicate Validated(c: Config, p: AddressPayload, staged: seq<Staged>) {
    |staged| == Beats(p) && LegalStaged(c, p, staged)
  }

  /** Write n is finished, or is the oldest one and complete; either way it was validated. */
  ghost predicate WriteValidated(c: Config, rs: seq<Route>, done: seq<DoneWrite>, ws: seq<WriteRoute>, n: nat) {
    && n < |rs|
    && if n < |done| then Validated(c, rs[n].payload, done[n].staged)
       else n == |done| && ws != [] && ws[0].dataComplete && Validated(c, rs[n].payload, ws[0].staged)
  }

  ghost predicate AccessValidated(c: Config, rs: seq<Route>, done: seq<DoneWrite>, ws: seq<WriteRoute>, a: Access) {
    a.DeviceWrite? ==> WriteValidated(c, rs, done, ws, a.write) && rs[a.write].mapping == Some(a.mapping)
  }

  ghost predicate Linked(rs: seq<Route>, done: seq<DoneWrite>, ws: seq<WriteRoute>) {
    && |done| + |ws| == |rs|
    && forall i | 0 <= i < |ws| :: ws[i].route == rs[|done| + i]
  }

  ghost predicate AllChecked(c: Config, rs: seq<Route>, done: seq<DoneWrite>, ws: seq<WriteRoute>) {
    && Linked(rs, done, ws)
    && (forall i | 0 <= i < |ws| :: LegalStaged(c, ws[i].route.payload, ws[i].staged))
    && (forall i | 0 <= i < |done| :: Validated(c, rs[i].payload, done[i].staged))
  }

  ghost predicate AllValidated(c: Config, rs: seq<Route>, done: seq<DoneWrite>, ws: seq<WriteRoute>, log: seq<Access>) {
    forall i | 0 <= i < |log| :: AccessValidated(c, rs, done, ws, log[i])
  }

  /** The invariant: staged beats are legal everywhere, and the access log holds validated writes only. */
  ghost predicate Checked(c: Config, s: Fabric) {
    && AllChecked(c, s.h.wgrants, s.h.done, s.writeRoutes)
    && AllValidated(c, s.h.wgrants, s.h.done, s.writeRoutes, s.h.accesses)
  }

  lemma SameChecked(c: Config, s: Fabric, t: Fabric)
    requires Checked(c, s) && t.writeRoutes == s.writeRoutes && t.h.wgrants == s.h.wgrants && t.h.done == s.h.done
    requires t.h.accesses == s.h.accesses
    ensures Checked(c, t)
  {}

  // ---- grants -----------------------------------------------------------------------------

  lemma GrantedChecked(c: Config, s: Fabric, t: Fabric, r: Route)
    requires Checked(c, s) && t.writeRoutes == s.writeRoutes + [WriteRoute(r, [], Okay, None, 0, false)]
    requires t.h == s.h.(wgrants := s.h.wgrants + [r])
    ensures Checked(c, t)
  {
    hide Validated, LegalStaged;
    assert LegalStaged(c, r.payload, []) by { NothingStaged(c, r.payload); }
    forall i | 0 <= i < |t.h.accesses|
      ensures AccessValidated(c, t.h.wgrants, t.h.done, t.writeRoutes, t.h.accesses[i])
    {
      assert AccessValidated(c, s.h.wgrants, s.h.done, s.writeRoutes, s.h.accesses[i]);
    }
  }

  lemma NothingStaged(c: Config, p: AddressPayload)
    ensures LegalStaged(c, p, [])
  {}

  lemma ArbitrateChecked(c: Config, s: Fabric)
    requires Base(c, s) && Checked(c, s)
    ensures Checked(c, Arbitrate(c, s).s)
  {
    hide Checked, GrantWrite, GrantRead, RoutesOk, FifosOk;
    GrantWriteBase(c, s);
    GrantWriteShape(c, s);
    GrantWriteFailure(c, s);
    var o := GrantWrite(c, s);
    if o.Done? {
      if o.s != s {
        var p: nat, r :| RouteOk(c, r) && GrantedWrite(c, s, o.s, p, r);
        GrantedChecked(c, s, o.s, r);
      }
      GrantReadBase(c, o.s);
      GrantReadShape(c, o.s);
      GrantReadFailure(c, o.s);
      var o2 := GrantRead(c, o.s);
      if o2.Done? && o2.s != o.s {
        var p: nat, r :| RouteOk(c, r) && GrantedRead(c, o.s, o2.s, p, r);
        SameChecked(c, o.s, o2.s);
      }
    }
  }

  lemma GrantWriteFailure(c: Config, s: Fabric)
    requires Base(c, s)
    ensures GrantWrite(c, s).Failed? ==> GrantWrite(c, s).s == s
  {}

  lemma GrantReadFailure(c: Config, s: Fabric)
    requires Base(c, s)
    ensures GrantRead(c, s).Failed? ==> GrantRead(c, s).s == s
  {}

  // ---- staging and committing -----------------------------------------------------------------

  /** The front write takes one more legal beat; no device has seen it yet. */
  lemma StageChecked(c: Config, s: Fabric)
    requires Base(c, s) && Checked(c, s) && s.writeRoutes != [] && !s.writeRoutes[0].dataComplete
    requires s.writeRoutes[0].route.port < c.ports && s.ports[s.writeRoutes[0].route.port].w != []
    requires var f := s.writeRoutes[0];
             var beat := s.ports[f.route.port].w[0];
             BeatSized(c, beat) && StrobesLegal(c, f.route.payload, |f.staged|, beat.strobe)
    ensures Checked(c, StageBeat(c, s))
  {
    hide StrobesLegal, RoutesOk, FifosOk;
    var f, t := s.writeRoutes[0], StageBeat(c, s);
    forall i | 0 <= i < |t.h.accesses|
      ensures AccessValidated(c, t.h.wgrants, t.h.done, t.writeRoutes, t.h.accesses[i])
    {
      assert AccessValidated(c, s.h.wgrants, s.h.done, s.writeRoutes, s.h.accesses[i]);
    }
  }

  /** The front write, complete, accesses its device. */
  lemma AccessedChecked(c: Config, s: Fabric, t: Fabric, log: seq<Access>)
    requires Checked(c, s) && s.writeRoutes != [] && s.writeRoutes[0].dataComplete
    requires |s.writeRoutes[0].staged| == Beats(s.writeRoutes[0].route.payload)
    requires t.writeRoutes == s.writeRoutes && t.h.wgrants == s.h.wgrants && t.h.done == s.h.done
    requires t.h.accesses == s.h.accesses + log
    requires forall i | 0 <= i < |log| ::
               log[i].DeviceWrite? && log[i].write == |s.h.done| &&
                 s.writeRoutes[0].route.mapping == Some(log[i].mapping)
    ensures Checked(c, t)
  {
    hide LegalStaged;
    forall i | 0 <= i < |t.h.accesses|
      ensures AccessValidated(c, t.h.wgrants, t.h.done, t.writeRoutes, t.h.accesses[i])
    {
      if i < |s.h.accesses| {
        assert AccessValidated(c, s.h.wgrants, s.h.done, s.writeRoutes, s.h.accesses[i]);
      } else {
        assert t.h.accesses[i] == log[i - |s.h.accesses|];
      }
    }
  }

  /** The front route advances or leaves the queue; its beats stay what they are. */
  lemma FrontChecked(c: Config, s: Fabric, f: WriteRoute)
    requires Checked(c, s) && s.writeRoutes != [] && f.route == s.writeRoutes[0].route
    requires f.staged == s.writeRoutes[0].staged && f.dataComplete == s.writeRoutes[0].dataComplete
    ensures Checked(c, s.(writeRoutes := s.writeRoutes[0 := f]))
  {
    hide LegalStaged;
    var t := s.(writeRoutes := s.writeRoutes[0 := f]);
    forall i | 0 <= i < |t.h.accesses|
      ensures AccessValidated(c, t.h.wgrants, t.h.done, t.writeRoutes, t.h.accesses[i])
    {
      assert AccessValidated(c, s.h.wgrants, s.h.done, s.writeRoutes, s.h.accesses[i]);
    }
  }

  lemma CompleteChecked(c: Config, s: Fabric, f: WriteRoute)
    requires Sized(c, s) && Checked(c, s) && s.writeRoutes != [] && f.route.port < c.ports
    requires f.route == s.writeRoutes[0].route && f.staged == s.writeRoutes[0].staged
    requires |f.staged| == Beats(f.route.payload)
    ensures Checked(c, CompleteWrite(c, s, f))
  {
    hide LegalStaged;
    var t := CompleteWrite(c, s, f);
    forall i | 0 <= i < |t.h.done| ensures Validated(c, t.h.wgrants[i].payload, t.h.done[i].staged) {
      if i == |s.h.done| { assert s.writeRoutes[0].route == s.h.wgrants[i]; }
    }
    forall i | 0 <= i < |t.h.accesses|
      ensures AccessValidated(c, t.h.wgrants, t.h.done, t.writeRoutes, t.h.accesses[i])
    {
      assert AccessValidated(c, s.h.wgrants, s.h.done, s.writeRoutes, s.h.accesses[i]);
    }
  }

  lemma BeatAccesses(c: Config, s: Fabric, reply: Reply) returns (log: seq<Access>)
    requires Base(c, s) && Committing(c, s)
    ensures BeatEffect(c, s, reply).h.accesses == s.h.accesses + log
    ensures forall i | 0 <= i < |log| ::
              log[i].DeviceWrite? && log[i].write == |s.h.done| &&
                s.writeRoutes[0].route.mapping == Some(log[i].mapping)
  {
    hide RoutesOk, FifosOk, StoreAt, Lanes, Touched, Invalidate, DeviceAnswer;
    CommittingFacts(c, s);
    log := BeatEffect(c, s, reply).h.accesses[|s.h.accesses|..];
  }

  lemma ExclusiveAccesses(c: Config, s: Fabric, reply: Reply) returns (log: seq<Access>)
    requires Base(c, s) && Finishing(c, s)
    ensures ExclusiveEffect(c, s, reply).h.accesses == s.h.accesses + log
    ensures forall i | 0 <= i < |log| ::
              log[i].DeviceWrite? && log[i].write == |s.h.done| &&
                s.writeRoutes[0].route.mapping == Some(log[i].mapping)
  {
    hide RoutesOk, FifosOk, StoreAt, GatherData, GatherStrobe, GatherTouched, Invalidate, DeviceAnswer;
    FinishingFacts(c, s);
    if !Takes(s) { assert s.h.accesses + [] == s.h.accesses; }
    log := ExclusiveEffect(c, s, reply).h.accesses[|s.h.accesses|..];
  }

  lemma WriteCommitChecked(c: Config, s: Fabric, reply: Reply)
    requires Base(c, s) && Checked(c, s) && s.writeRoutes != [] && s.writeRoutes[0].dataComplete
    ensures Checked(c, WriteCommit(c, s, reply))
  {
    hide Checked, BeatEffect, BeatFront, ExclusiveEffect, CompleteWrite, RoutesOk, FifosOk;
    FrontComplete(c, s);
    var f := s.writeRoutes[0];
    if |s.ports[f.route.port].b| == c.responseDepth {
    } else if f.route.payload.lock {
      var log := ExclusiveAccesses(c, s, reply);
      var s1 := ExclusiveEffect(c, s, reply);
      AccessedChecked(c, s, s1, log);
      CompleteChecked(c, s1, f.(response := ExclusiveAnswer(c, s, reply)));
    } else if !f.route.forced.Okay? {
      CompleteChecked(c, s, f.(response := Combine(f.response, f.route.forced)));
    } else {
      var log := BeatAccesses(c, s, reply);
      var s1, f1 := BeatEffect(c, s, reply), BeatFront(c, s, reply);
      AccessedChecked(c, s, s1, log);
      BeatFrontComplete(c, s, reply);
      if f1.commitBeat == Beats(f1.route.payload) { CompleteChecked(c, s1, f1); } else { FrontChecked(c, s1, f1); }
    }
  }

  lemma BeatFrontComplete(c: Config, s: Fabric, reply: Reply)
    requires Committing(c, s)
    ensures BeatFront(c, s, reply).dataComplete
  {}

  lemma FrontComplete(c: Config, s: Fabric)
    requires Base(c, s) && s.writeRoutes != []
    ensures WriteOk(c, s.writeRoutes[0]) && s.writeRoutes[0].route.port < c.ports
    ensures s.writeRoutes[0].dataComplete <==> |s.writeRoutes[0].staged| == Beats(s.writeRoutes[0].route.payload)
  {}

  lemma WriteStepChecked(c: Config, s: Fabric, reply: Reply)
    requires Base(c, s) && Checked(c, s)
    ensures Checked(c, WriteStep(c, s, reply).s)
  {
    hide Checked, WriteCommit, StageBeat, FifosOk, StrobesLegal;
    if s.writeRoutes != [] {
      FrontComplete(c, s);
      var f := s.writeRoutes[0];
      if f.dataComplete {
        WriteCommitChecked(c, s, reply);
      } else if s.ports[f.route.port].w != [] && WriteStep(c, s, reply).Done? {
        assert BeatSized(c, s.ports[f.route.port].w[0]);
        StageBase(c, s);
        StageChecked(c, s);
        StagedComplete(c, s);
        var s1 := StageBeat(c, s);
        if s1.writeRoutes[0].dataComplete { WriteCommitChecked(c, s1, reply); }
      }
    }
  }

  // ---- the read phase ----------------------------------------------------------------------------

  lemma ReadStepChecked(c: Config, s: Fabric, reply: Reply)
    requires Base(c, s) && Checked(c, s)
    ensures Checked(c, ReadStep(c, s, reply).s)
  {
    hide Checked, ServeRead, RoutesOk, FifosOk;
    if s.readRoutes != [] {
      var f := s.readRoutes[0];
      assert ReadOk(c, f) by { FrontReadOk(c, s); }
      if |s.ports[f.route.port].r| != c.responseDepth {
        if f.route.payload.lock && f.beat == 0 && f.route.forced.Okay? {
          var o := Establish(c, s, f.route);
          SameChecked(c, s, o.s);
          EstablishBase(c, s, f.route);
          if o.Done? { ServeChecked(c, o.s, reply); }
        } else {
          ServeChecked(c, s, reply);
        }
      }
    }
  }

  lemma ServeChecked(c: Config, s: Fabric, reply: Reply)
    requires Base(c, s) && Checked(c, s) && s.readRoutes != []
    ensures Checked(c, ServeRead(c, s, reply))
  {
    hide ServedBeat, RoutesOk, FifosOk, AllChecked;
    FrontReadOk(c, s);
    var t := ServeRead(c, s, reply);
    forall i | 0 <= i < |t.h.accesses|
      ensures AccessValidated(c, t.h.wgrants, t.h.done, t.writeRoutes, t.h.accesses[i])
    {
      if i < |s.h.accesses| {
        assert AccessValidated(c, s.h.wgrants, s.h.done, s.writeRoutes, s.h.accesses[i]);
      }
    }
  }

  // ---- cycles and runs ------------------------------------------------------------------------------

  lemma ProcessChecked(c: Config, s: Fabric, reply: Reply)
    requires Base(c, s) && Checked(c, s)
    ensures Checked(c, Process(c, s, reply).s)
  {
    hide Checked, WriteStep, ReadStep, RoutesOk, FifosOk;
    var s0 := Unsuppress(c, s);
    SameChecked(c, s, s0);
    WriteStepBase(c, s0, reply);
    WriteStepChecked(c, s0, reply);
    var o := WriteStep(c, s0, reply);
    if o.Done? && !o.s.suppressRead { ReadStepChecked(c, o.s, reply); }
  }

  lemma FreshChecked(c: Config, s: Fabric)
    requires s.writeRoutes == [] && s.h == FreshHistory(c, s.mem)
    ensures Checked(c, s)
  {}

  lemma CycleChecked(c: Config, s: Fabric, x: Stimulus)
    requires Base(c, s) && StimulusOk(c, x) && Checked(c, s)
    ensures Checked(c, Cycle(c, s, x).s)
  {
    hide Checked, Ingress, Arbitrate, Process, RoutesOk, FifosOk;
    DriveBase(c, s, x.reset, x.stalls);
    var d := Drive(c, s, x.reset, x.stalls);
    SameChecked(c, s, d);
    if x.reset {
      if d.wasReset { SameChecked(c, d, ResetCycle(c, d)); } else { FreshChecked(c, ResetCycle(c, d)); }
    } else {
      var s1 := Awake(c, d);
      IngressPortsOnly(c, s1, x.inputs);
      var o1 := Ingress(c, s1, x.inputs);
      SameChecked(c, d, o1.s);
      if o1.Done? {
        ArbitrateChecked(c, o1.s);
        var o2 := Arbitrate(c, o1.s);
        if o2.Done? {
          ProcessChecked(c, o2.s, x.reply);
          var o3 := Process(c, o2.s, x.reply);
          if o3.Done? { SameChecked(c, o3.s, Tick(c, o3.s)); }
        }
      }
    }
  }

  lemma {:induction false} RunChecked(c: Config, mem: Mem, xs: seq<Stimulus>)
    requires ConfigOk(c) && MemOk(c, mem) && StimuliOk(c, xs)
    ensures Base(c, Init(c, mem)) && Checked(c, Run(c, Init(c, mem), xs).s)
  {
    hide Checked, Cycle, RoutesOk, FifosOk;
    InitBase(c, mem);
    if xs == [] {
      FreshChecked(c, Init(c, mem));
    } else {
      RunChecked(c, mem, xs[..|xs| - 1]);
      var o := Run(c, Init(c, mem), xs[..|xs| - 1]);
      if o.Done? { CycleChecked(c, o.s, xs[|xs| - 1]); }
    }
  }

  // ---- what the masters sent ----------------------------------------------------------------------------

  lemma {:induction false} WOfPrefix(p: nat, rs: seq<Route>, st: seq<seq<Staged>>, n: nat)
    requires n <= |st| <= |rs|
    ensures WOf(p, rs, st[..n]) <= WOf(p, rs, st)
    decreases |st|
  {
    if n == |st| {
      assert st[..n] == st;
    } else {
      var m := |st| - 1;
      WOfPrefix(p, rs, st[..m], n);
      assert st[..m][..n] == st[..n];
    }
  }

  /** Where the beats of write n stand in the W stream of its port. */
  lemma BurstInStream(rs: seq<Route>, st: seq<seq<Staged>>, n: nat) returns (at: nat)
    requires n < |st| <= |rs|
    ensures var p, beats := rs[n].port, BeatsOf(st[n], Beats(rs[n].payload));
            at + |beats| <= |WOf(p, rs, st)| && WOf(p, rs, st)[at..at + |beats|] == beats
  {
    var p := rs[n].port;
    WOfPrefix(p, rs, st, n + 1);
    assert st[..n + 1][..n] == st[..n];
    at := |WOf(p, rs, st[..n])|;
  }

  /** The W beats of write n, all received: finished writes, then the oldest unfinished one. */
  ghost function BeatsOfWrite(s: Fabric, n: nat): seq<Staged>
    requires n < |s.h.done| || (n == |s.h.done| && s.writeRoutes != [])
  {
    if n < |s.h.done| then s.h.done[n].staged else s.writeRoutes[0].staged
  }

  /** Beats `at` and on of the accepted W stream are exactly this burst, WLAST on its last beat only. */
  ghost predicate SentAt(stream: seq<WriteBeat>, at: nat, staged: seq<Staged>) {
    at + |staged| <= |stream| && stream[at..at + |staged|] == BeatsOf(staged, |staged|)
  }

  /**
    In every run and for every kind of device: a device write belongs to a granted
    write whose beats have all arrived on the W channel, WLAST on the last beat
    only and no strobe outside the enabled lanes, and it goes to that write's device.
   */
  lemma DeviceWritesValidated(c: Config, mem: Mem, xs: seq<Stimulus>, i: nat)
    requires ConfigOk(c) && MemOk(c, mem) && StimuliOk(c, xs) && Base(c, Init(c, mem))
    requires i < |Run(c, Init(c, mem), xs).s.h.accesses|
    requires Run(c, Init(c, mem), xs).s.h.accesses[i].DeviceWrite?
    ensures var s := Run(c, Init(c, mem), xs).s;
            var a := s.h.accesses[i];
            && a.write < |s.h.wgrants|
            && (a.write < |s.h.done| ||
                (a.write == |s.h.done| && s.writeRoutes != [] && s.writeRoutes[0].dataComplete))
            && var r, staged := s.h.wgrants[a.write], BeatsOfWrite(s, a.write);
               && r.mapping == Some(a.mapping)
               && Validated(c, r.payload, staged)
               && r.port < |s.h.logs| && exists at: nat :: SentAt(s.h.logs[r.port].w, at, staged)
  {
    hide Cycle, RoutesOk, FifosOk, LegalStaged;
    RunChecked(c, mem, xs);
    RunOrder(c, mem, xs);
    var s := Run(c, Init(c, mem), xs).s;
    var a := s.h.accesses[i];
    assert AccessValidated(c, s.h.wgrants, s.h.done, s.writeRoutes, a);
    var n, r := a.write, s.h.wgrants[a.write];
    GrantedPort(c, mem, xs, n);
    var at := BurstInStream(s.h.wgrants, Staging(s), n);
    assert PortBalance(s, r.port);
    assert Staging(s)[n] == BeatsOfWrite(s, n);
    assert SentAt(s.h.logs[r.port].w, at, BeatsOfWrite(s, n));
  }

  lemma GrantedPort(c: Config, mem: Mem, xs: seq<Stimulus>, n: nat)
    requires ConfigOk(c) && MemOk(c, mem) && StimuliOk(c, xs) && Base(c, Init(c, mem))
    requires n < |Run(c, Init(c, mem), xs).s.h.wgrants|
    ensures Run(c, Init(c, mem), xs).s.h.wgrants[n].port < c.ports
  {
    hide Cycle;
    RunAtomic(c, mem, xs);
  }
}
