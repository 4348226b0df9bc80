/**
  Devices speak for themselves: every read beat and every write answered by a
  device other than RAM and ROM carries the replies that device gave.
 */
module FabricAnswers {
  import opened Axi
  import opened Fabric
  import opened FabricRun
  import opened FabricOrder
  import opened FabricErrors
  import opened FabricAtomic
  import opened FabricDecode
  import opened FabricValidated

  // ---- the replies of a write -----------------------------------------------------------------

  /** The replies to the device writes of write n. */
  ghost function RepliesOf(log: seq<Access>, replies: seq<Reply>, n: nat): seq<Reply>
    requires |replies| == |log|
  {
    if log == [] then []
    else
      var i := |log| - 1;
      RepliesOf(log[..i], replies[..i], n) + (if log[i].DeviceWrite? && log[i].write == n then [replies[i]] else [])
  }

  lemma RepliesPush(log: seq<Access>, replies: seq<Reply>, a: Access, reply: Reply, n: nat)
    requires |replies| == |log|
    ensures RepliesOf(log + [a], replies + [reply], n) ==
            RepliesOf(log, replies, n) + (if a.DeviceWrite? && a.write == n then [reply] else [])
  {
    assert (log + [a])[..|log|] == log && (replies + [reply])[..|log|] == replies;
  }

  /** The responses combined in order, as the fabric does. */
  function Merge(rs: seq<Reply>): Response {
    if rs == [] then Okay else Combine(Merge(rs[..|rs| - 1]), rs[|rs| - 1].response)
  }

  ghost predicate Among(rs: seq<Reply>, r: Response) { exists i :: 0 <= i < |rs| && rs[i].response == r }

  /** The combined response is the worst one: DECERR, then SLVERR, then EXOKAY, then OKAY. */
  lemma {:induction false} MergeIsWorst(rs: seq<Reply>)
    ensures Merge(rs) == if Among(rs, DecodeError) then DecodeError
                         else if Among(rs, SlaveError) then SlaveError
                         else if Among(rs, ExclusiveOkay) then ExclusiveOkay else Okay
  {
    if rs != [] {
      var n := |rs| - 1;
      MergeIsWorst(rs[..n]);
      forall r: Response ensures Among(rs, r) <==> Among(rs[..n], r) || rs[n].response == r { AmongPush(rs, r); }
    }
  }

  lemma AmongPush(rs: seq<Reply>, r: Response)
    requires rs != []
    ensures Among(rs, r) <==> Among(rs[..|rs| - 1], r) || rs[|rs| - 1].response == r
  {
    var n := |rs| - 1;
    if i :| 0 <= i < n && rs[..n][i].response == r { assert rs[i].response == r; }
    if i :| 0 <= i < |rs| && rs[i].response == r && i < n { assert rs[..n][i].response == r; }
  }

  /** The exit code of the last successful one. */
  function LastExit(rs: seq<Reply>): Option<nat> {
    if rs == [] then None
    else if Success(rs[|rs| - 1].response) then Some(rs[|rs| - 1].exitCode) else LastExit(rs[..|rs| - 1])
  }

  // ---- the invariant ---------------------------------------------------------------------------

  /** How the answer of a finished write comes from the replies it got. */
  ghost predicate DoneReply(c: Config, r: Route, d: DoneWrite, rs: seq<Reply>) {
    && RouteOk(c, r)
    && (!r.forced.Okay? ==> d.response.exit == None)
    && (r.forced.Okay? ==>
          (RouteFacts(c, r);
           var device := DeviceOf(c, r);
           && (!device.Peripheral? ==> d.response.exit == None)
           && (device.Peripheral? && r.payload.lock ==>
                 && d.response.exit == None && |rs| <= 1
                 && d.response.response == (if rs == [] then Okay
                                            else if Success(rs[0].response) then ExclusiveOkay else rs[0].response))
           && (device.Peripheral? && !r.payload.lock ==>
                 && d.response.response == Merge(rs)
                 && d.response.exit == if device.exit then LastExit(rs) else None)))
  }

  /** The same for the oldest unfinished write. */
  ghost predicate FrontReply(c: Config, f: WriteRoute, rs: seq<Reply>) {
    && (f.commitBeat == 0 ==> rs == [] && f.response.Okay? && f.exit == None)
    && (f.commitBeat > 0 ==>
          && Mapped(c, f.route)
          && var device := DeviceOf(c, f.route);
             && (!device.Peripheral? ==> f.exit == None)
             && (device.Peripheral? ==>
                   f.response == Merge(rs) && f.exit == if device.exit then LastExit(rs) else None))
  }

  ghost predicate Replied(c: Config, s: Fabric) {
    && |s.h.replies| == |s.h.accesses| && |s.h.done| <= |s.h.wgrants|
    && (s.writeRoutes != [] ==> |s.h.done| < |s.h.wgrants| && s.h.wgrants[|s.h.done|] == s.writeRoutes[0].route)
    && (forall n | 0 <= n < |s.h.done| ::
          DoneReply(c, s.h.wgrants[n], s.h.done[n], RepliesOf(s.h.accesses, s.h.replies, n)))
    && (s.writeRoutes != [] ==>
          FrontReply(c, s.writeRoutes[0], RepliesOf(s.h.accesses, s.h.replies, |s.h.done|)))
    && (s.writeRoutes == [] ==> RepliesOf(s.h.accesses, s.h.replies, |s.h.done|) == [])
    && (forall n: nat | n > |s.h.done| :: RepliesOf(s.h.accesses, s.h.replies, n) == [])
  }

  lemma SameReplied(c: Config, s: Fabric, t: Fabric)
    requires Replied(c, s) && t.writeRoutes == s.writeRoutes && t.h.wgrants == s.h.wgrants && t.h.done == s.h.done
    requires t.h.accesses == s.h.accesses && t.h.replies == s.h.replies
    ensures Replied(c, t)
  {}

  // ---- grants and staging -------------------------------------------------------------------------

  lemma GrantedReplied(c: Config, s: Fabric, t: Fabric, r: Route)
    requires Replied(c, s) && WriteQueue(s)
    requires t.writeRoutes == s.writeRoutes + [WriteRoute(r, [], Okay, None, 0, false)]
    requires t.h == s.h.(wgrants := s.h.wgrants + [r])
    ensures Replied(c, t)
  {
    hide DoneReply, RepliesOf;
    if s.writeRoutes == [] { assert |s.h.wgrants| == |s.h.done|; }
  }

  lemma ArbitrateReplied(c: Config, s: Fabric)
    requires Base(c, s) && Replied(c, s) && WriteQueue(s)
    ensures Replied(c, Arbitrate(c, s).s)
  {
    hide Replied, GrantWrite, GrantRead, RoutesOk, FifosOk, WriteQueue;
    GrantWriteBase(c, s);
    GrantWriteShape(c, s);
    GrantWriteFailure(c, s);
    var o := GrantWrite(c, s);
    if o.Done? {
      if o.s != s {
        var p: nat, r :| RouteOk(c, r) && GrantedWrite(c, s, o.s, p, r);
        GrantedReplied(c, s, o.s, r);
      }
      GrantReadBase(c, o.s);
      GrantReadShape(c, o.s);
      GrantReadFailure(c, o.s);
      var o2 := GrantRead(c, o.s);
      if o2.Done? && o2.s != o.s {
        var p: nat, r :| RouteOk(c, r) && GrantedRead(c, o.s, o2.s, p, r);
        SameReplied(c, o.s, o2.s);
      }
    }
  }

  lemma StageReplied(c: Config, s: Fabric)
    requires Base(c, s) && Replied(c, s) && s.writeRoutes != [] && !s.writeRoutes[0].dataComplete
    requires s.writeRoutes[0].route.port < c.ports && s.ports[s.writeRoutes[0].route.port].w != []
    ensures Replied(c, StageBeat(c, s))
  {
    hide DoneReply, RepliesOf, RoutesOk, FifosOk;
    FrontWriteOk(c, s);
  }

  // ---- commits ---------------------------------------------------------------------------------------

  /** The front write got these replies. */
  ghost predicate FrontHears(s: Fabric, t: Fabric, more: seq<Reply>) {
    && t.writeRoutes == s.writeRoutes && t.h.wgrants == s.h.wgrants && t.h.done == s.h.done
    && t.h.replies == s.h.replies + more && |more| <= 1
    && |t.h.accesses| == |s.h.accesses| + |more| && t.h.accesses[..|s.h.accesses|] == s.h.accesses
    && (more != [] ==> var a := t.h.accesses[|s.h.accesses|]; a.DeviceWrite? && a.write == |s.h.done|)
  }

  lemma FrontHearsOf(s: Fabric, t: Fabric, more: seq<Reply>, n: nat)
    requires FrontHears(s, t, more) && |s.h.replies| == |s.h.accesses|
    ensures |t.h.replies| == |t.h.accesses|
    ensures RepliesOf(t.h.accesses, t.h.replies, n) ==
            RepliesOf(s.h.accesses, s.h.replies, n) + (if n == |s.h.done| then more else [])
  {
    hide RepliesOf;
    if more == [] {
      assert t.h.accesses == s.h.accesses && t.h.replies == s.h.replies;
    } else {
      assert more == [more[0]];
      assert t.h.accesses == s.h.accesses + [t.h.accesses[|s.h.accesses|]];
      RepliesPush(s.h.accesses, s.h.replies, t.h.accesses[|s.h.accesses|], more[0], n);
    }
  }

  lemma CompleteReplied(c: Config, s: Fabric, s1: Fabric, more: seq<Reply>, f: WriteRoute)
    requires Replied(c, s) && RoutesOk(c, s) && WriteQueue(s) && s.writeRoutes != [] && FrontHears(s, s1, more)
    requires Sized(c, s1) && f.route.port < c.ports && f.route == s.writeRoutes[0].route
    requires var d := DoneWrite(f.staged, WriteResponse(f.route.payload.id, f.response, f.exit));
             DoneReply(c, f.route, d, RepliesOf(s.h.accesses, s.h.replies, |s.h.done|) + more)
    ensures Replied(c, CompleteWrite(c, s1, f))
  {
    hide DoneReply, RepliesOf, MemOk, RoutesOk;
    var t := CompleteWrite(c, s1, f);
    forall n: nat ensures |t.h.replies| == |t.h.accesses| &&
      RepliesOf(t.h.accesses, t.h.replies, n) ==
      RepliesOf(s.h.accesses, s.h.replies, n) + (if n == |s.h.done| then more else [])
    {
      FrontHearsOf(s, s1, more, n);
    }
    FrontHearsOf(s, s1, more, 0);
    forall n | 0 <= n < |t.h.done|
      ensures DoneReply(c, t.h.wgrants[n], t.h.done[n], RepliesOf(t.h.accesses, t.h.replies, n))
    {
      if n < |s.h.done| {
        assert DoneReply(c, s.h.wgrants[n], s.h.done[n], RepliesOf(s.h.accesses, s.h.replies, n));
        assert RepliesOf(s.h.accesses, s.h.replies, n) + [] == RepliesOf(s.h.accesses, s.h.replies, n);
      }
    }
    if |s.writeRoutes| > 1 {
      SecondIsFresh(c, s);
      assert t.writeRoutes[0] == s.writeRoutes[1];
    }
    QueueAfter(s);
  }

  /** The routes in flight are the grants not yet finished. */
  lemma QueueAfter(s: Fabric)
    requires WriteQueue(s) && s.writeRoutes != []
    ensures |s.h.wgrants| == |s.h.done| + |s.writeRoutes|
    ensures |s.writeRoutes| > 1 ==> s.h.wgrants[|s.h.done| + 1] == s.writeRoutes[1].route
  {}

  lemma AdvanceReplied(c: Config, s: Fabric, s1: Fabric, more: seq<Reply>, f: WriteRoute)
    requires Replied(c, s) && s.writeRoutes != [] && FrontHears(s, s1, more) && f.route == s.writeRoutes[0].route
    requires FrontReply(c, f, RepliesOf(s.h.accesses, s.h.replies, |s.h.done|) + more)
    ensures Replied(c, s1.(writeRoutes := s.writeRoutes[0 := f]))
  {
    hide DoneReply, RepliesOf, FrontReply;
    var t := s1.(writeRoutes := s.writeRoutes[0 := f]);
    forall n: nat ensures |t.h.replies| == |t.h.accesses| &&
      RepliesOf(t.h.accesses, t.h.replies, n) ==
      RepliesOf(s.h.accesses, s.h.replies, n) + (if n == |s.h.done| then more else [])
    {
      FrontHearsOf(s, s1, more, n);
    }
    FrontHearsOf(s, s1, more, 0);
    forall n | 0 <= n < |t.h.done|
      ensures DoneReply(c, t.h.wgrants[n], t.h.done[n], RepliesOf(t.h.accesses, t.h.replies, n))
    {
      assert DoneReply(c, s.h.wgrants[n], s.h.done[n], RepliesOf(s.h.accesses, s.h.replies, n));
      assert RepliesOf(s.h.accesses, s.h.replies, n) + [] == RepliesOf(s.h.accesses, s.h.replies, n);
    }
  }

  /** The next beat asks its device unless it has no lanes. */
  ghost function NextReply(f: WriteRoute, reply: Reply): seq<Reply> {
    if EmptyBeat(f.route.payload, f.commitBeat) then [] else [reply]
  }

  lemma BeatHears(c: Config, s: Fabric, reply: Reply)
    requires Base(c, s) && Committing(c, s)
    ensures FrontHears(s, BeatEffect(c, s, reply), NextReply(s.writeRoutes[0], reply))
  {
    hide RoutesOk, FifosOk, StoreBeat, Lanes, Touched, Invalidate, BeatAnswer, MemOk, ConfigOk;
    CommittingFacts(c, s);
    assert s.h.replies + [] == s.h.replies;
  }

  /** What a beat does to the response and the exit code it leaves with. */
  lemma BeatReply(c: Config, s: Fabric, reply: Reply, rs: seq<Reply>)
    requires Base(c, s) && Committing(c, s) && FrontReply(c, s.writeRoutes[0], rs)
    ensures var f, f1 := s.writeRoutes[0], BeatFront(c, s, reply);
            var all, device := rs + NextReply(f, reply), DeviceOf(c, f.route);
            && Mapped(c, f.route) && f1.commitBeat > 0
            && (!device.Peripheral? ==> f1.exit == None)
            && (device.Peripheral? ==>
                  f1.response == Merge(all) && f1.exit == if device.exit then LastExit(all) else None)
  {
    hide RoutesOk, FifosOk, MemOk, InitRoute, EmptyBeat;
    CommittingFacts(c, s);
    var f := s.writeRoutes[0];
    if f.commitBeat == 0 { assert Merge(rs) == Okay && LastExit(rs) == None; }
    if EmptyBeat(f.route.payload, f.commitBeat) {
      assert rs + [] == rs;
      assert Combine(f.response, Okay) == f.response;
    } else {
      assert (rs + [reply])[..|rs|] == rs;
    }
  }

  lemma CommitBeatReplied(c: Config, s: Fabric, reply: Reply)
    requires Base(c, s) && Committing(c, s) && Replied(c, s) && WriteQueue(s)
    ensures Replied(c, CommitBeat(c, s, reply))
  {
    hide FifosOk, BeatEffect, BeatFront, CompleteWrite, Replied, RepliesOf, Merge, LastExit, NextReply, InitRoute,
         MemOk;
    CommittingFacts(c, s);
    FrontReplied(c, s);
    var rs := RepliesOf(s.h.accesses, s.h.replies, |s.h.done|);
    var s1, f1 := BeatEffect(c, s, reply), BeatFront(c, s, reply);
    var more := NextReply(s.writeRoutes[0], reply);
    BeatHears(c, s, reply);
    BeatReply(c, s, reply, rs);
    if f1.commitBeat == Beats(f1.route.payload) {
      CompleteReplied(c, s, s1, more, f1);
    } else {
      AdvanceReplied(c, s, s1, more, f1);
      assert s1.(writeRoutes := s.writeRoutes[0 := f1]) == CommitBeat(c, s, reply);
    }
  }

  lemma FrontReplied(c: Config, s: Fabric)
    requires Replied(c, s) && s.writeRoutes != []
    ensures |s.h.replies| == |s.h.accesses|
    ensures FrontReply(c, s.writeRoutes[0], RepliesOf(s.h.accesses, s.h.replies, |s.h.done|))
  {
    hide DoneReply, RepliesOf, FrontReply;
  }

  lemma ExclusiveHears(c: Config, s: Fabric, reply: Reply) returns (more: seq<Reply>)
    requires Base(c, s) && Finishing(c, s)
    ensures FrontHears(s, ExclusiveEffect(c, s, reply), more)
    ensures var f, answer := s.writeRoutes[0], ExclusiveAnswer(c, s, reply);
            && (!f.route.forced.Okay? ==> more == [])
            && (f.route.forced.Okay? ==>
                  && Mapped(c, f.route)
                  && (DeviceOf(c, f.route).Peripheral? ==>
                        answer == if more == [] then Okay
                                  else if Success(more[0].response) then ExclusiveOkay else more[0].response))
  {
    hide RoutesOk, FifosOk, StoreAt, GatherData, GatherStrobe, GatherTouched, Invalidate, MemOk, ClearMonitor;
    FinishingFacts(c, s);
    more := if Takes(s) then [reply] else [];
    assert s.h.replies + [] == s.h.replies;
  }

  lemma FinishReplied(c: Config, s: Fabric, reply: Reply)
    requires Base(c, s) && Finishing(c, s) && Replied(c, s) && WriteQueue(s)
    ensures Replied(c, FinishExclusive(c, s, reply))
  {
    hide FifosOk, ExclusiveEffect, ExclusiveAnswer, CompleteWrite, Replied, RepliesOf, InitRoute, MemOk;
    FinishingFacts(c, s);
    FrontReplied(c, s);
    var more := ExclusiveHears(c, s, reply);
    var f := s.writeRoutes[0].(response := ExclusiveAnswer(c, s, reply));
    assert [] + more == more;
    CompleteReplied(c, s, ExclusiveEffect(c, s, reply), more, f);
  }

  lemma WriteCommitReplied(c: Config, s: Fabric, reply: Reply)
    requires Base(c, s) && Replied(c, s) && WriteQueue(s) && s.writeRoutes != [] && s.writeRoutes[0].dataComplete
    ensures Replied(c, WriteCommit(c, s, reply))
  {
    hide FifosOk, Replied, RepliesOf, CommitBeat, FinishExclusive, CompleteWrite, InitRoute, MemOk;
    FrontWriteOk(c, s);
    FrontReplied(c, s);
    var f := s.writeRoutes[0];
    if |s.ports[f.route.port].b| == c.responseDepth {
    } else if f.route.payload.lock {
      FinishReplied(c, s, reply);
    } else if !f.route.forced.Okay? {
      assert s.h.replies + [] == s.h.replies;
      assert RepliesOf(s.h.accesses, s.h.replies, |s.h.done|) + [] == [];
      CompleteReplied(c, s, s, [], f.(response := Combine(f.response, f.route.forced)));
    } else {
      CommitBeatReplied(c, s, reply);
    }
  }

  lemma WriteStepReplied(c: Config, s: Fabric, reply: Reply)
    requires Base(c, s) && Replied(c, s) && WriteQueue(s)
    ensures Replied(c, WriteStep(c, s, reply).s)
  {
    hide Replied, WriteCommit, FifosOk, RoutesOk, StrobesLegal, WriteQueue, MemOk;
    if s.writeRoutes != [] {
      FrontWriteOk(c, s);
      var f := s.writeRoutes[0];
      if f.dataComplete {
        WriteCommitReplied(c, s, reply);
      } else if s.ports[f.route.port].w != [] && WriteStep(c, s, reply).Done? {
        StageBase(c, s);
        StageReplied(c, s);
        StagedQueue(c, s);
        if StageBeat(c, s).writeRoutes[0].dataComplete { WriteCommitReplied(c, StageBeat(c, s), reply); }
      }
    }
  }

  lemma StagedQueue(c: Config, s: Fabric)
    requires Sized(c, s) && WriteQueue(s) && s.writeRoutes != [] && s.writeRoutes[0].route.port < c.ports
    requires s.ports[s.writeRoutes[0].route.port].w != []
    ensures WriteQueue(StageBeat(c, s)) && StageBeat(c, s).writeRoutes != []
  {
    hide MemOk;
  }

  // ---- reads, cycles and runs ------------------------------------------------------------------------

  /** A phase that adds these accesses, none of them a write, with these replies. */
  ghost predicate Listens(s: Fabric, t: Fabric, more: seq<Access>, heard: seq<Reply>) {
    && t.writeRoutes == s.writeRoutes && t.h.wgrants == s.h.wgrants && t.h.done == s.h.done
    && t.h.accesses == s.h.accesses + more && t.h.replies == s.h.replies + heard
    && |more| == |heard| <= 1 && (more != [] ==> more[0].DeviceRead?)
  }

  lemma ReadStepListens(c: Config, s: Fabric, reply: Reply) returns (more: seq<Access>, heard: seq<Reply>)
    requires Base(c, s)
    ensures Listens(s, ReadStep(c, s, reply).s, more, heard) && (heard != [] ==> heard[0] == reply)
  {
    hide RoutesOk, FifosOk, ServeRead, MemOk, ConfigOk;
    assert s.h.accesses + [] == s.h.accesses && s.h.replies + [] == s.h.replies;
    more, heard := [], [];
    if s.readRoutes != [] {
      FrontReadOk(c, s);
      var f := s.readRoutes[0];
      if |s.ports[f.route.port].r| != c.responseDepth {
        var s1 := s;
        if f.route.payload.lock && f.beat == 0 && f.route.forced.Okay? {
          EstablishBase(c, s, f.route);
          if Establish(c, s, f.route).Failed? { return; }
          s1 := Establish(c, s, f.route).s;
        }
        more, heard := ServeListens(c, s1, reply);
      }
    }
  }

  lemma ServeListens(c: Config, s: Fabric, reply: Reply) returns (more: seq<Access>, heard: seq<Reply>)
    requires Base(c, s) && s.readRoutes != []
    ensures Listens(s, ServeRead(c, s, reply), more, heard) && (heard != [] ==> heard[0] == reply)
    ensures var t := ServeRead(c, s, reply).h.served;
            |t| == |s.h.served| + 1 && s.h.served <= t && t[|s.h.served|].reply == reply
  {
    hide RoutesOk, FifosOk, ServedBeat, Lanes, Mask, MemOk, ConfigOk;
    FrontReadOk(c, s);
    assert s.h.accesses + [] == s.h.accesses && s.h.replies + [] == s.h.replies;
    var f := s.readRoutes[0];
    more := ReadAccess(c, f.route, f.beat);
    heard := if more == [] then [] else [reply];
  }

  lemma ListensReplied(c: Config, s: Fabric, t: Fabric, more: seq<Access>, heard: seq<Reply>)
    requires Replied(c, s) && Listens(s, t, more, heard)
    ensures Replied(c, t)
  {
    hide RepliesOf, DoneReply, FrontReply;
    forall n: nat ensures RepliesOf(t.h.accesses, t.h.replies, n) == RepliesOf(s.h.accesses, s.h.replies, n) {
      if more == [] {
        assert t.h.accesses == s.h.accesses && t.h.replies == s.h.replies;
      } else {
        assert more == [more[0]] && heard == [heard[0]];
        RepliesPush(s.h.accesses, s.h.replies, more[0], heard[0], n);
      }
    }
    forall n | 0 <= n < |t.h.done|
      ensures DoneReply(c, t.h.wgrants[n], t.h.done[n], RepliesOf(t.h.accesses, t.h.replies, n))
    {
      assert DoneReply(c, s.h.wgrants[n], s.h.done[n], RepliesOf(s.h.accesses, s.h.replies, n));
    }
  }

  lemma ProcessReplied(c: Config, s: Fabric, reply: Reply)
    requires Base(c, s) && Replied(c, s) && WriteQueue(s)
    ensures Replied(c, Process(c, s, reply).s)
  {
    hide Replied, WriteStep, ReadStep, RoutesOk, FifosOk, Listens;
    var s0 := Unsuppress(c, s);
    SameReplied(c, s, s0);
    WriteStepBase(c, s0, reply);
    WriteStepReplied(c, s0, reply);
    var o := WriteStep(c, s0, reply);
    if o.Done? && !o.s.suppressRead {
      var more, heard := ReadStepListens(c, o.s, reply);
      ListensReplied(c, o.s, ReadStep(c, o.s, reply).s, more, heard);
    }
  }

  lemma FreshReplied(c: Config, s: Fabric)
    requires s.writeRoutes == [] && s.h == FreshHistory(c, s.mem)
    ensures Replied(c, s)
  {}

  lemma CycleReplied(c: Config, s: Fabric, x: Stimulus)
    requires Base(c, s) && StimulusOk(c, x) && AtomicState(c, s) && Replied(c, s)
    ensures Replied(c, Cycle(c, s, x).s)
  {
    hide Replied, Ingress, Arbitrate, Process, RoutesOk, FifosOk, ReadsWhole, FrontOk, Committed, DoneOk;
    DriveBase(c, s, x.reset, x.stalls);
    var d := Drive(c, s, x.reset, x.stalls);
    SameReplied(c, s, d);
    SameAtomicState(c, s, d);
    if x.reset {
      if d.wasReset { SameReplied(c, d, ResetCycle(c, d)); } else { FreshReplied(c, ResetCycle(c, d)); }
    } else {
      var s1 := Awake(c, d);
      SameAtomicState(c, d, s1);
      IngressAtomic(c, s1, x.inputs);
      IngressPortsOnly(c, s1, x.inputs);
      var o1 := Ingress(c, s1, x.inputs);
      SameReplied(c, d, o1.s);
      if o1.Done? {
        ArbitrateAtomic(c, o1.s);
        ArbitrateReplied(c, o1.s);
        var o2 := Arbitrate(c, o1.s);
        if o2.Done? {
          ProcessReplied(c, o2.s, x.reply);
          var o3 := Process(c, o2.s, x.reply);
          if o3.Done? { SameReplied(c, o3.s, Tick(c, o3.s)); }
        }
      }
    }
  }

  lemma {:induction false} RunReplied(c: Config, mem: Mem, xs: seq<Stimulus>)
    requires ConfigOk(c) && MemOk(c, mem) && StimuliOk(c, xs)
    ensures Base(c, Init(c, mem)) && Replied(c, Run(c, Init(c, mem), xs).s)
  {
    hide Replied, Cycle, RoutesOk, FifosOk, AtomicState;
    InitBase(c, mem);
    if xs == [] {
      FreshReplied(c, Init(c, mem));
    } else {
      RunReplied(c, mem, xs[..|xs| - 1]);
      RunAtomic(c, mem, xs[..|xs| - 1]);
      var o := Run(c, Init(c, mem), xs[..|xs| - 1]);
      if o.Done? { CycleReplied(c, o.s, xs[|xs| - 1]); }
    }
  }

  // ---- the logged replies are those of the cycle -------------------------------------------------------

  /** Every access and every read beat added from s to t is logged with this reply. */
  ghost predicate Hears(s: Fabric, t: Fabric, reply: Reply) {
    && s.h.replies <= t.h.replies && |t.h.replies| - |s.h.replies| == |t.h.accesses| - |s.h.accesses|
    && s.h.accesses <= t.h.accesses && s.h.served <= t.h.served
    && (forall i | |s.h.replies| <= i < |t.h.replies| :: t.h.replies[i] == reply)
    && (forall i | |s.h.served| <= i < |t.h.served| :: t.h.served[i].reply == reply)
  }

  lemma WriteCommitHears(c: Config, s: Fabric, reply: Reply)
    requires Base(c, s) && s.writeRoutes != [] && s.writeRoutes[0].dataComplete
    ensures Hears(s, WriteCommit(c, s, reply), reply)
  {
    hide RoutesOk, FifosOk, CommitBeat, FinishExclusive, MemOk;
    FrontWriteOk(c, s);
    var f := s.writeRoutes[0];
    if |s.ports[f.route.port].b| != c.responseDepth {
      if f.route.payload.lock {
        FinishHears(c, s, reply);
      } else if f.route.forced.Okay? {
        CommitBeatHears(c, s, reply);
      }
    }
  }

  lemma FinishHears(c: Config, s: Fabric, reply: Reply)
    requires Base(c, s) && Finishing(c, s)
    ensures Hears(s, FinishExclusive(c, s, reply), reply)
  {
    hide RoutesOk, FifosOk, StoreAt, GatherData, GatherStrobe, GatherTouched, Invalidate, MemOk, ClearMonitor,
         ExclusiveAnswer;
    FinishingFacts(c, s);
  }

  lemma CommitBeatHears(c: Config, s: Fabric, reply: Reply)
    requires Base(c, s) && Committing(c, s)
    ensures Hears(s, CommitBeat(c, s, reply), reply)
  {
    hide RoutesOk, FifosOk, StoreBeat, Lanes, Touched, Invalidate, BeatAnswer, MemOk, ConfigOk;
    CommittingFacts(c, s);
  }

  lemma ProcessHears(c: Config, s: Fabric, reply: Reply)
    requires Base(c, s)
    ensures Hears(s, Process(c, s, reply).s, reply)
  {
    hide RoutesOk, FifosOk, WriteStep, ReadStep, MemOk;
    var s0 := Unsuppress(c, s);
    WriteStepBase(c, s0, reply);
    WriteStepHears(c, s0, reply);
    var o := WriteStep(c, s0, reply);
    if o.Done? && !o.s.suppressRead { ReadStepHears(c, o.s, reply); }
  }

  lemma WriteStepHears(c: Config, s: Fabric, reply: Reply)
    requires Base(c, s)
    ensures Hears(s, WriteStep(c, s, reply).s, reply)
  {
    hide RoutesOk, FifosOk, WriteCommit, StrobesLegal, MemOk;
    if s.writeRoutes != [] {
      FrontWriteOk(c, s);
      var f := s.writeRoutes[0];
      if f.dataComplete {
        WriteCommitHears(c, s, reply);
      } else if s.ports[f.route.port].w != [] {
        StageBase(c, s);
        if StageBeat(c, s).writeRoutes[0].dataComplete { WriteCommitHears(c, StageBeat(c, s), reply); }
      }
    }
  }

  lemma ReadStepHears(c: Config, s: Fabric, reply: Reply)
    requires Base(c, s)
    ensures Hears(s, ReadStep(c, s, reply).s, reply)
  {
    hide RoutesOk, FifosOk, ServeRead, MemOk, ConfigOk;
    if s.readRoutes != [] {
      FrontReadOk(c, s);
      var f := s.readRoutes[0];
      if |s.ports[f.route.port].r| != c.responseDepth {
        var s1 := s;
        if f.route.payload.lock && f.beat == 0 && f.route.forced.Okay? {
          EstablishBase(c, s, f.route);
          if Establish(c, s, f.route).Failed? { return; }
          s1 := Establish(c, s, f.route).s;
        }
        var more, heard := ServeListens(c, s1, reply);
      }
    }
  }

  /** The replies in the log are the ones the devices gave: in every cycle, each new
      access and each new read beat is logged with the reply of that cycle. */
  lemma RepliesAreCurrent(c: Config, s: Fabric, x: Stimulus)
    requires Base(c, s) && StimulusOk(c, x) && !x.reset && Cycle(c, s, x).Done?
    ensures Hears(s, Cycle(c, s, x).s, x.reply)
  {
    hide Ingress, Arbitrate, Process, RoutesOk, FifosOk;
    DriveBase(c, s, x.reset, x.stalls);
    var s1 := Awake(c, Drive(c, s, x.reset, x.stalls));
    IngressPortsOnly(c, s1, x.inputs);
    var o1 := Ingress(c, s1, x.inputs);
    ArbitrateSilent(c, o1.s);
    ProcessHears(c, Arbitrate(c, o1.s).s, x.reply);
  }

  lemma ArbitrateSilent(c: Config, s: Fabric)
    requires Base(c, s)
    ensures var t := Arbitrate(c, s).s;
            t.h.served == s.h.served && t.h.accesses == s.h.accesses && t.h.replies == s.h.replies
  {
    hide InitRoute, Pick, RoutesOk, FifosOk;
  }

  // ---- the theorems ------------------------------------------------------------------------------------

  /** Some device other than RAM and ROM takes the access: one window holds every beat
      that does not end at 2^64, and its device supports what is asked. */
  ghost predicate TakenBy(c: Config, p: AddressPayload, d: Device) {
    && d.Peripheral? && (Beats(p) > 1 ==> d.burst) && (p.lock ==> d.exclusive)
    && exists m: nat :: CoversBelowTop(c, p, m) && c.mappings[m].device < |c.devices| &&
                        c.devices[c.mappings[m].device] == d
  }

  lemma TakenUnforced(c: Config, r: Route, d: Device)
    requires RouteOk(c, r) && TakenBy(c, r.payload, d)
    ensures r.forced.Okay? && Mapped(c, r) && DeviceOf(c, r) == d && d.Peripheral?
  {
    hide CoversBelowTop, BurstOk;
    RouteFacts(c, r);
    ForcedExactly(c, r);
  }

  /**
    In every run a read beat of an access that a device other than RAM and ROM takes
    carries what the device replied: its response, OKAY turned into EXOKAY for an
    exclusive read, and its bytes on the lanes of the beat with zeros elsewhere.
   */
  lemma ReadsAnswered(c: Config, mem: Mem, xs: seq<Stimulus>, i: nat, d: Device)
    requires ConfigOk(c) && MemOk(c, mem) && StimuliOk(c, xs)
    requires Base(c, Init(c, mem)) && i < |Run(c, Init(c, mem), xs).s.h.served|
    requires TakenBy(c, Run(c, Init(c, mem), xs).s.h.served[i].route.payload, d)
    ensures CarriesReply(c, Run(c, Init(c, mem), xs).s.h.served[i])
  {
    hide Cycle, Base, Run, TakenBy, RouteOk, ConfigOk, CarriesReply, Replay;
    BurstAtomicity(c, mem, xs);
    var s := Run(c, Init(c, mem), xs).s;
    var x := s.h.served[i];
    assert SeesMemory(c, ReplayUpTo(c, s, x.after), x);
    TakenUnforced(c, x.route, d);
  }

  /**
    In every run a completed plain write that such a device takes answers the worst
    of the replies to its device writes, and reports the exit code of the last
    successful one if the device is an exit device.  An exclusive write that reached
    the device answers EXOKAY if the reply was a success and the reply otherwise;
    one that did not answers OKAY.
   */
  lemma WritesAnswered(c: Config, mem: Mem, xs: seq<Stimulus>, n: nat, d: Device)
    requires ConfigOk(c) && MemOk(c, mem) && StimuliOk(c, xs)
    requires Base(c, Init(c, mem)) && n < |Run(c, Init(c, mem), xs).s.h.done|
    requires n < |Run(c, Init(c, mem), xs).s.h.wgrants|
    requires TakenBy(c, Run(c, Init(c, mem), xs).s.h.wgrants[n].payload, d)
    ensures var h := Run(c, Init(c, mem), xs).s.h;
            && |h.replies| == |h.accesses|
            && var p, answer, rs := h.wgrants[n].payload, h.done[n].response, RepliesOf(h.accesses, h.replies, n);
               && (!p.lock ==>
                     && answer.response == (if Among(rs, DecodeError) then DecodeError
                                            else if Among(rs, SlaveError) then SlaveError
                                            else if Among(rs, ExclusiveOkay) then ExclusiveOkay else Okay)
                     && answer.exit == (if d.exit then LastExit(rs) else None))
               && (p.lock ==>
                     && |rs| <= 1 && answer.exit == None
                     && answer.response == (if rs == [] then Okay
                                            else if Success(rs[0].response) then ExclusiveOkay else rs[0].response))
  {
    hide Cycle, Base, Run, TakenBy, RepliesOf, Merge, LastExit, Among, FrontReply;
    RunReplied(c, mem, xs);
    var h := Run(c, Init(c, mem), xs).s.h;
    assert DoneReply(c, h.wgrants[n], h.done[n], RepliesOf(h.accesses, h.replies, n));
    TakenUnforced(c, h.wgrants[n], d);
    MergeIsWorst(RepliesOf(h.accesses, h.replies, n));
  }
}
