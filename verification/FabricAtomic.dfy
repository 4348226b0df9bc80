/**
  Bursts are atomic to readers: the fabric, which commits a burst one beat per
  cycle, refines a memory to which whole write bursts are applied one after
  another in AW-grant order.
 */
module FabricAtomic {
  import opened Axi
  import opened Fabric
  import opened FabricRun
  import opened FabricOrder
  import opened FabricErrors
  import opened FabricWindow

  // ---- the atomic memory ------------------------------------------------------------------

  /** Does the device behind r take beat k?  For RAM and ROM this is fixed. */
  ghost predicate BeatFits(c: Config, r: Route, k: nat)
    requires Mapped(c, r)
  {
    EmptyBeat(r.payload, k) || DeviceOf(c, r).Peripheral? || Fits(c, r, Hi(r.payload, k))
  }

  /** Beats before the first refused one, counting from k. */
  ghost function Leading(c: Config, r: Route, k: nat): (n: nat)
    requires Mapped(c, r) && k <= Beats(r.payload)
    ensures k <= n <= Beats(r.payload)
    ensures n < Beats(r.payload) ==> !BeatFits(c, r, n)
    ensures forall j | k <= j < n :: BeatFits(c, r, j)
    decreases Beats(r.payload) - k
  {
    if k == Beats(r.payload) || !BeatFits(c, r, k) then k else Leading(c, r, k + 1)
  }

  lemma {:induction false} LeadingIs(c: Config, r: Route, k: nat, n: nat)
    requires Mapped(c, r) && k <= n <= Beats(r.payload)
    requires forall j | k <= j < n :: BeatFits(c, r, j)
    requires n < Beats(r.payload) ==> !BeatFits(c, r, n)
    ensures Leading(c, r, k) == n
    decreases n - k
  {
    if k < n { LeadingIs(c, r, k + 1, n); }
  }

  ghost predicate HistoryOk(c: Config, rs: seq<Route>, done: seq<DoneWrite>) {
    && |done| <= |rs|
    && (forall i | 0 <= i < |rs| :: RouteOk(c, rs[i]))
    && (forall i | 0 <= i < |done| :: AllStaged(c, rs[i].payload, done[i].staged))
  }

  /** A whole write applied at once.  Unmapped or unsupported writes and failed
      exclusives change nothing; a burst stops at the first refused beat. */
  ghost function ApplyWrite(c: Config, mem: Mem, r: Route, d: DoneWrite): (m: Mem)
    requires RouteOk(c, r) && AllStaged(c, r.payload, d.staged) && MemOk(c, mem)
    ensures MemOk(c, m)
  {
    RouteFacts(c, r);
    if !r.forced.Okay? then mem
    else if r.payload.lock then
      (if d.response.response.ExclusiveOkay? then StoreBeats(c, mem, r, d.staged, Beats(r.payload)) else mem)
    else StoreBeats(c, mem, r, d.staged, Leading(c, r, 0))
  }

  ghost function Replay(c: Config, base: Mem, rs: seq<Route>, done: seq<DoneWrite>): (m: Mem)
    requires HistoryOk(c, rs, done) && MemOk(c, base)
    ensures MemOk(c, m)
    decreases |done|
  {
    if done == [] then base
    else
      var n := |done| - 1;
      ApplyWrite(c, Replay(c, base, rs, done[..n]), rs[n], done[n])
  }

  lemma ReplayPush(c: Config, base: Mem, rs: seq<Route>, done: seq<DoneWrite>, d: DoneWrite)
    requires HistoryOk(c, rs, done + [d]) && MemOk(c, base)
    ensures HistoryOk(c, rs, done)
    ensures Replay(c, base, rs, done + [d]) == ApplyWrite(c, Replay(c, base, rs, done), rs[|done|], d)
  {
    assert (done + [d])[..|done|] == done;
    forall i | 0 <= i < |done| ensures AllStaged(c, rs[i].payload, done[i].staged) {
      assert (done + [d])[i] == done[i];
    }
  }

  lemma {:induction false} ReplayMoreRoutes(c: Config, base: Mem, rs: seq<Route>, r: Route, done: seq<DoneWrite>)
    requires HistoryOk(c, rs, done) && RouteOk(c, r) && MemOk(c, base)
    ensures HistoryOk(c, rs + [r], done)
    ensures Replay(c, base, rs + [r], done) == Replay(c, base, rs, done)
    decreases |done|
  {
    if done != [] { ReplayMoreRoutes(c, base, rs, r, done[..|done| - 1]); }
  }

  // ---- the invariant -----------------------------------------------------------------------

  /** How the answer of a finished write relates to what it did. */
  ghost predicate ResponseOk(c: Config, r: Route, d: DoneWrite)
    requires RouteOk(c, r)
  {
    && (!r.forced.Okay? ==> d.response.response == r.forced)
    && (r.forced.Okay? ==>
          (RouteFacts(c, r);
           !DeviceOf(c, r).Peripheral? ==>
             if r.payload.lock then !d.response.response.DecodeError?
             else d.response.response == if Leading(c, r, 0) == Beats(r.payload) then Okay else SlaveError))
  }

  /** RAM or ROM holds all of beat k. */
  ghost predicate BeatHeld(c: Config, r: Route, k: nat)
    requires Mapped(c, r) && !DeviceOf(c, r).Peripheral?
  {
    EmptyBeat(r.payload, k) || Hi(r.payload, k) - MappingOf(c, r).base <= DeviceOf(c, r).size
  }

  /** A beat read from a device other than RAM and ROM carries the device's reply: its
      response, EXOKAY for OKAY if the read is exclusive, and its bytes on the lanes
      of the beat.  A beat without lanes asks nobody. */
  ghost predicate CarriesReply(c: Config, x: Served) {
    var p, k := x.route.payload, x.beat;
    var answer := if EmptyBeat(p, k) then Okay else x.reply.response;
    && x.out.response == (if p.lock && answer.Okay? then ExclusiveOkay else answer)
    && |x.out.data| == c.width && c.width > 0
    && forall lane | 0 <= lane < c.width ::
         var i := AlignDown(BeatAddress(p, k), c.width) + lane - BeatAddress(p, k);
         x.out.data[lane] == if 0 <= i < |x.reply.data| && i < Hi(p, k) - Lo(p, k) then x.reply.data[i] else 0
  }

  /** A beat read from RAM or ROM carries the bytes of memory on the lanes of the beat if
      the device holds all of it, and zeros elsewhere. */
  ghost predicate CarriesMemory(c: Config, mem: Mem, x: Served)
    requires Mapped(c, x.route) && MemOk(c, mem) && !DeviceOf(c, x.route).Peripheral?
  {
    var p, k := x.route.payload, x.beat;
    var bytes, base := mem[MappingOf(c, x.route).device], MappingOf(c, x.route).base;
    && |x.out.data| == c.width
    && forall lane | 0 <= lane < c.width ::
         var a := AlignDown(BeatAddress(p, k), c.width) + lane;
         x.out.data[lane] ==
           if Lo(p, k) <= a < Hi(p, k) && BeatHeld(c, x.route, k) && 0 <= a - base < |bytes| then bytes[a - base] else 0
  }

  /** What a read must return when the memory is `mem`: data and response. */
  ghost predicate SeesMemory(c: Config, mem: Mem, x: Served)
    requires RouteOk(c, x.route) && MemOk(c, mem)
  {
    && (!x.route.forced.Okay? ==> x.out.response == x.route.forced && x.out.data == seq(c.width, _ => 0))
    && (x.route.forced.Okay? ==>
          (RouteFacts(c, x.route);
           if DeviceOf(c, x.route).Peripheral? then CarriesReply(c, x)
           else
             && CarriesMemory(c, mem, x)
             && x.out.response == (if !BeatHeld(c, x.route, x.beat) then SlaveError
                                   else if x.route.payload.lock then ExclusiveOkay else Okay)))
  }

  /** Progress of the oldest write: beats committed so far, all accepted, and room
      for its response so that the commit continues in the very next cycle. */
  ghost predicate FrontOk(c: Config, s: Fabric) {
    s.writeRoutes != [] ==>
      var f := s.writeRoutes[0];
      && (f.commitBeat == 0 ==> f.response.Okay?)
      && (f.commitBeat > 0 ==>
            && f.route.port < |s.ports| && |s.ports[f.route.port].b| < c.responseDepth
            && Mapped(c, f.route)
            && (forall j | 0 <= j < f.commitBeat :: BeatFits(c, f.route, j))
            && (!DeviceOf(c, f.route).Peripheral? ==> f.response.Okay?))
  }

  ghost function Committed(c: Config, s: Fabric): Mem
    requires HistoryOk(c, s.h.wgrants, s.h.done) && MemOk(c, s.h.base) && RoutesOk(c, s) && FrontOk(c, s)
  {
    var m := Replay(c, s.h.base, s.h.wgrants, s.h.done);
    if s.writeRoutes == [] || s.writeRoutes[0].commitBeat == 0 then m
    else
      assert WriteOk(c, s.writeRoutes[0]);
      StoreBeats(c, m, s.writeRoutes[0].route, s.writeRoutes[0].staged, s.writeRoutes[0].commitBeat)
  }

  ghost predicate DoneOk(c: Config, rs: seq<Route>, done: seq<DoneWrite>) {
    && HistoryOk(c, rs, done)
    && (forall i | 0 <= i < |done| :: ResponseOk(c, rs[i], done[i]))
  }

  ghost predicate Atomic(c: Config, s: Fabric) {
    && MemOk(c, s.h.base) && RoutesOk(c, s) && WriteQueue(s)
    && DoneOk(c, s.h.wgrants, s.h.done) && FrontOk(c, s)
    && s.mem == Committed(c, s)
  }

  /** Every read beat so far saw the memory after some number of whole writes,
      a number that never decreases. */
  ghost predicate ReadsWhole(c: Config, s: Fabric)
    requires HistoryOk(c, s.h.wgrants, s.h.done) && MemOk(c, s.h.base)
  {
    && (forall i | 0 <= i < |s.h.served| ::
          && RouteOk(c, s.h.served[i].route) && s.h.served[i].after <= |s.h.done|
          && SeesMemory(c, ReplayUpTo(c, s, s.h.served[i].after), s.h.served[i]))
    && (forall i, j | 0 <= i < j < |s.h.served| :: s.h.served[i].after <= s.h.served[j].after)
  }

  ghost function ReplayUpTo(c: Config, s: Fabric, n: nat): (m: Mem)
    requires HistoryOk(c, s.h.wgrants, s.h.done) && MemOk(c, s.h.base) && n <= |s.h.done|
    ensures MemOk(c, m)
  {
    Replay(c, s.h.base, s.h.wgrants, s.h.done[..n])
  }

  // ---- phases that leave writes alone ----------------------------------------------------------

  ghost predicate SameWrites(s: Fabric, t: Fabric) {
    && t.writeRoutes == s.writeRoutes && t.mem == s.mem
    && t.h.base == s.h.base && t.h.wgrants == s.h.wgrants && t.h.done == s.h.done
    && |t.ports| == |s.ports|
    && forall p | 0 <= p < |s.ports| :: |t.ports[p].b| <= |s.ports[p].b|
  }

  lemma SameWritesFront(c: Config, s: Fabric, t: Fabric)
    requires FrontOk(c, s) && SameWrites(s, t)
    ensures FrontOk(c, t)
  {}

  lemma SameWriteQueue(s: Fabric, t: Fabric)
    requires WriteQueue(s) && t.writeRoutes == s.writeRoutes && t.h.wgrants == s.h.wgrants && t.h.done == s.h.done
    ensures WriteQueue(t)
  {}

  lemma SameCommitted(c: Config, s: Fabric, t: Fabric)
    requires HistoryOk(c, s.h.wgrants, s.h.done) && MemOk(c, s.h.base) && RoutesOk(c, s) && FrontOk(c, s)
    requires SameWrites(s, t) && RoutesOk(c, t) && FrontOk(c, t)
    ensures Committed(c, t) == Committed(c, s)
  {}

  lemma SameWritesAtomic(c: Config, s: Fabric, t: Fabric)
    requires Atomic(c, s) && SameWrites(s, t) && RoutesOk(c, t)
    ensures Atomic(c, t)
  {
    SameWritesFront(c, s, t);
    SameWriteQueue(s, t);
    SameCommitted(c, s, t);
  }

  lemma SameReadsWhole(c: Config, s: Fabric, t: Fabric)
    requires HistoryOk(c, s.h.wgrants, s.h.done) && MemOk(c, s.h.base) && ReadsWhole(c, s)
    requires t.h.base == s.h.base && t.h.wgrants == s.h.wgrants && t.h.done == s.h.done && t.h.served == s.h.served
    ensures ReadsWhole(c, t)
  {
    forall i | 0 <= i < |s.h.served| ensures SeesMemory(c, ReplayUpTo(c, t, t.h.served[i].after), t.h.served[i]) {
      assert SeesMemory(c, ReplayUpTo(c, s, s.h.served[i].after), s.h.served[i]);
    }
  }

  lemma RetireBShorter(c: Config, s: Fabric, inputs: seq<Master>, p: nat, q: nat)
    requires Sized(c, s) && |inputs| == c.ports && p < c.ports && q < c.ports
    ensures |RetireB(c, s, inputs, p).s.ports[q].b| <= |s.ports[q].b|
  {}

  lemma RetireRShorter(c: Config, s: Fabric, inputs: seq<Master>, p: nat, q: nat)
    requires Sized(c, s) && |inputs| == c.ports && p < c.ports && q < c.ports
    ensures |RetireR(c, s, inputs, p).s.ports[q].b| <= |s.ports[q].b|
  {}

  lemma RetireShorter(c: Config, s: Fabric, inputs: seq<Master>, p: nat, q: nat)
    requires Sized(c, s) && |inputs| == c.ports && p <= c.ports && q < c.ports
    ensures |Retire(c, s, inputs, p).s.ports[q].b| <= |s.ports[q].b|
    decreases c.ports - p
  {
    if p < c.ports {
      RetireBShorter(c, s, inputs, p, q);
      var o := RetireB(c, s, inputs, p);
      if o.Done? {
        RetireRShorter(c, o.s, inputs, p, q);
        var o2 := RetireR(c, o.s, inputs, p);
        if o2.Done? { RetireShorter(c, o2.s, inputs, p + 1, q); }
      }
    }
  }

  lemma AcceptAwSameB(c: Config, s: Fabric, inputs: seq<Master>, p: nat, q: nat)
    requires Sized(c, s) && |inputs| == c.ports && p < c.ports && q < c.ports
    ensures AcceptAw(c, s, inputs, p).s.ports[q].b == s.ports[q].b
  {
    hide MemOk;
  }

  lemma AcceptWSameB(c: Config, s: Fabric, inputs: seq<Master>, p: nat, q: nat)
    requires Sized(c, s) && |inputs| == c.ports && p < c.ports && q < c.ports
    ensures AcceptW(c, s, inputs, p).s.ports[q].b == s.ports[q].b
  {
    hide MemOk;
  }

  lemma AcceptArSameB(c: Config, s: Fabric, inputs: seq<Master>, p: nat, q: nat)
    requires Sized(c, s) && |inputs| == c.ports && p < c.ports && q < c.ports
    ensures AcceptAr(c, s, inputs, p).s.ports[q].b == s.ports[q].b
  {
    hide MemOk;
  }

  lemma AcceptSameB(c: Config, s: Fabric, inputs: seq<Master>, p: nat, q: nat)
    requires Sized(c, s) && |inputs| == c.ports && p <= c.ports && q < c.ports
    ensures Accept(c, s, inputs, p).s.ports[q].b == s.ports[q].b
    decreases c.ports - p
  {
    if p < c.ports {
      AcceptAwSameB(c, s, inputs, p, q);
      var o := AcceptAw(c, s, inputs, p);
      if o.Done? {
        AcceptWSameB(c, o.s, inputs, p, q);
        var o2 := AcceptW(c, o.s, inputs, p);
        if o2.Done? {
          AcceptArSameB(c, o2.s, inputs, p, q);
          var o3 := AcceptAr(c, o2.s, inputs, p);
          if o3.Done? { AcceptSameB(c, o3.s, inputs, p + 1, q); }
        }
      }
    }
  }

  /** Ingress never lengthens a response queue, whether it succeeds or fails. */
  lemma IngressShorter(c: Config, s: Fabric, inputs: seq<Master>, q: nat)
    requires Base(c, s) && InputsOk(c, inputs) && q < c.ports
    ensures |Ingress(c, s, inputs).s.ports[q].b| <= |s.ports[q].b|
  {
    CheckBase(c, s, inputs, 0);
    CheckAlike(c, s, inputs, 0);
    var o1 := CheckStability(c, s, inputs, 0);
    assert SameQueues(s.ports[q], o1.s.ports[q]);
    if o1.Done? {
      RetireBase(c, o1.s, inputs, 0);
      RetireShorter(c, o1.s, inputs, 0, q);
      var o2 := Retire(c, o1.s, inputs, 0);
      if o2.Done? { AcceptSameB(c, o2.s, inputs, 0, q); }
    }
  }

  lemma MoreRoutesDone(c: Config, rs: seq<Route>, r: Route, done: seq<DoneWrite>)
    requires DoneOk(c, rs, done) && RouteOk(c, r)
    ensures DoneOk(c, rs + [r], done)
  {
    forall i | 0 <= i < |done| ensures ResponseOk(c, (rs + [r])[i], done[i]) { assert ResponseOk(c, rs[i], done[i]); }
  }

  lemma GrantedFront(c: Config, s: Fabric, t: Fabric, p: nat, r: Route)
    requires FrontOk(c, s) && GrantedWrite(c, s, t, p, r)
    ensures FrontOk(c, t)
  {}

  lemma GrantedQueue(c: Config, s: Fabric, t: Fabric, p: nat, r: Route)
    requires WriteQueue(s) && GrantedWrite(c, s, t, p, r)
    ensures WriteQueue(t)
  {}

  lemma GrantedCommitted(c: Config, s: Fabric, t: Fabric, p: nat, r: Route)
    requires HistoryOk(c, s.h.wgrants, s.h.done) && MemOk(c, s.h.base) && RoutesOk(c, s) && FrontOk(c, s)
    requires GrantedWrite(c, s, t, p, r) && RouteOk(c, r) && RoutesOk(c, t) && FrontOk(c, t)
    ensures HistoryOk(c, t.h.wgrants, t.h.done) && Committed(c, t) == Committed(c, s)
  {
    ReplayMoreRoutes(c, s.h.base, s.h.wgrants, r, s.h.done);
  }

  lemma GrantedWriteAtomic(c: Config, s: Fabric, t: Fabric, p: nat, r: Route)
    requires Atomic(c, s) && GrantedWrite(c, s, t, p, r) && RouteOk(c, r) && RoutesOk(c, t) && t.mem == s.mem
    ensures Atomic(c, t)
  {
    GrantedFront(c, s, t, p, r);
    GrantedQueue(c, s, t, p, r);
    MoreRoutesDone(c, s.h.wgrants, r, s.h.done);
    GrantedCommitted(c, s, t, p, r);
  }

  lemma GrantedWriteReads(c: Config, s: Fabric, t: Fabric, p: nat, r: Route)
    requires MemOk(c, s.h.base) && HistoryOk(c, s.h.wgrants, s.h.done) && HistoryOk(c, t.h.wgrants, t.h.done)
    requires GrantedWrite(c, s, t, p, r) && RouteOk(c, r) && ReadsWhole(c, s)
    ensures ReadsWhole(c, t)
  {
    forall i | 0 <= i < |s.h.served|
      ensures SeesMemory(c, ReplayUpTo(c, t, t.h.served[i].after), t.h.served[i])
    {
      assert SeesMemory(c, ReplayUpTo(c, s, s.h.served[i].after), s.h.served[i]);
      PrefixHistory(c, s.h.wgrants, s.h.done, s.h.served[i].after);
      ReplayMoreRoutes(c, s.h.base, s.h.wgrants, r, s.h.done[..s.h.served[i].after]);
    }
  }

  lemma PrefixHistory(c: Config, rs: seq<Route>, done: seq<DoneWrite>, n: nat)
    requires HistoryOk(c, rs, done) && n <= |done|
    ensures HistoryOk(c, rs, done[..n])
  {}

  // ---- phase 5 ----------------------------------------------------------------------------------

  lemma StageAtomic(c: Config, s: Fabric)
    requires Base(c, s) && Atomic(c, s) && s.writeRoutes != [] && !s.writeRoutes[0].dataComplete
    requires s.writeRoutes[0].route.port < c.ports && s.ports[s.writeRoutes[0].route.port].w != []
    ensures Atomic(c, StageBeat(c, s))
  {
    hide RouteOk;
    StageBase(c, s);
    assert WriteOk(c, s.writeRoutes[0]);
  }

  lemma DoneGrows(c: Config, base: Mem, rs: seq<Route>, done: seq<DoneWrite>, d: DoneWrite)
    requires DoneOk(c, rs, done) && MemOk(c, base) && |done| < |rs|
    requires AllStaged(c, rs[|done|].payload, d.staged) && ResponseOk(c, rs[|done|], d)
    ensures DoneOk(c, rs, done + [d])
    ensures Replay(c, base, rs, done + [d]) == ApplyWrite(c, Replay(c, base, rs, done), rs[|done|], d)
  {
    hide ApplyWrite, Replay, RouteOk, AllStaged, ResponseOk, MemOk;
    var t := done + [d];
    forall i | 0 <= i < |t| ensures AllStaged(c, rs[i].payload, t[i].staged) && ResponseOk(c, rs[i], t[i]) {
      if i < |done| { assert t[i] == done[i] && ResponseOk(c, rs[i], done[i]); }
    }
    ReplayPush(c, base, rs, done, d);
  }

  lemma PopQueue(s: Fabric, t: Fabric, d: DoneWrite)
    requires WriteQueue(s) && s.writeRoutes != []
    requires t.writeRoutes == s.writeRoutes[1..] && t.h.wgrants == s.h.wgrants && t.h.done == s.h.done + [d]
    requires |d.staged| == Beats(s.writeRoutes[0].route.payload) && d.response.id == s.writeRoutes[0].route.payload.id
    ensures WriteQueue(t)
  {
    assert forall i | 0 <= i < |t.writeRoutes| :: t.writeRoutes[i] == s.writeRoutes[i + 1];
  }

  ghost function DoneOf(f: WriteRoute): DoneWrite {
    DoneWrite(f.staged, WriteResponse(f.route.payload.id, f.response, f.exit))
  }

  /** A finished write extends the replay, if memory is as the atomic write leaves it. */
  lemma CompleteAtomic(c: Config, s: Fabric, t: Fabric, f: WriteRoute)
    requires s.writeRoutes != [] && WriteQueue(s) && MemOk(c, s.h.base)
    requires DoneOk(c, s.h.wgrants, s.h.done)
    requires f.route == s.writeRoutes[0].route && RouteOk(c, f.route) && AllStaged(c, f.route.payload, f.staged)
    requires |s.writeRoutes| > 1 ==> s.writeRoutes[1].commitBeat == 0 && s.writeRoutes[1].response.Okay?
    requires t.writeRoutes == s.writeRoutes[1..] && t.mem == s.mem && RoutesOk(c, t)
    requires t.h.base == s.h.base && t.h.wgrants == s.h.wgrants && t.h.done == s.h.done + [DoneOf(f)]
    requires ResponseOk(c, f.route, DoneOf(f))
    requires s.mem == ApplyWrite(c, Replay(c, s.h.base, s.h.wgrants, s.h.done), f.route, DoneOf(f))
    ensures Atomic(c, t)
  {
    assert f.route == s.h.wgrants[|s.h.done|];
    DoneGrows(c, s.h.base, s.h.wgrants, s.h.done, DoneOf(f));
    PopQueue(s, t, DoneOf(f));
    assert FrontOk(c, t);
  }

  lemma SecondIsFresh(c: Config, s: Fabric)
    requires RoutesOk(c, s) && |s.writeRoutes| > 1
    ensures s.writeRoutes[1].commitBeat == 0 && s.writeRoutes[1].response.Okay? && s.writeRoutes[1].exit == None
  {}

  /** The same for a write completed right after its device access. */
  lemma AccessThenComplete(c: Config, s: Fabric, s1: Fabric, f: WriteRoute)
    requires Base(c, s1) && WriteQueue(s) && s.writeRoutes != [] && MemOk(c, s.h.base)
    requires DoneOk(c, s.h.wgrants, s.h.done)
    requires AccessOnly(s, s1) || s1 == s
    requires f.route == s.writeRoutes[0].route && AllStaged(c, f.route.payload, f.staged)
    requires RouteOk(c, f.route) && ResponseOk(c, f.route, DoneOf(f))
    requires s1.mem == ApplyWrite(c, Replay(c, s.h.base, s.h.wgrants, s.h.done), f.route, DoneOf(f))
    ensures Atomic(c, CompleteWrite(c, s1, f))
  {
    hide ApplyWrite, ResponseOk, RouteOk, Replay, DoneOk, Atomic;
    CompleteBase(c, s1, f);
    if |s1.writeRoutes| > 1 { SecondIsFresh(c, s1); }
    CompleteAtomic(c, s1, CompleteWrite(c, s1, f), f);
  }

  lemma ForcedAtomic(c: Config, s: Fabric)
    requires Base(c, s) && Atomic(c, s) && s.writeRoutes != [] && s.writeRoutes[0].dataComplete
    requires !s.writeRoutes[0].route.forced.Okay? && !s.writeRoutes[0].route.payload.lock
    ensures s.writeRoutes[0].route.port < c.ports
    ensures var f := s.writeRoutes[0];
            Atomic(c, CompleteWrite(c, s, f.(response := Combine(f.response, f.route.forced))))
  {
    var f := s.writeRoutes[0];
    assert WriteOk(c, f);
    AccessThenComplete(c, s, s, f.(response := Combine(f.response, f.route.forced)));
  }

  /** One device access of the oldest burst, in terms of the atomic memory. */
  lemma BeatEffectMem(c: Config, s: Fabric, reply: Reply)
    requires Base(c, s) && Committing(c, s)
    ensures var f := s.writeRoutes[0];
            Mapped(c, f.route) && f.commitBeat < |f.staged| &&
            StagedOk(c, f.staged[f.commitBeat]) &&
            BeatEffect(c, s, reply).mem == (if EmptyBeat(f.route.payload, f.commitBeat) then s.mem
                                            else StoreBeat(c, s.mem, f.route, f.commitBeat, f.staged[f.commitBeat]))
    ensures var f := s.writeRoutes[0];
            !BeatFits(c, f.route, f.commitBeat) ==> BeatEffect(c, s, reply).mem == s.mem
    ensures var f := s.writeRoutes[0];
            !DeviceOf(c, f.route).Peripheral? ==>
              BeatAnswer(c, f.route, f.commitBeat, reply) ==
                if BeatFits(c, f.route, f.commitBeat) then Okay else SlaveError
  {
    CommittingFacts(c, s);
    var f := s.writeRoutes[0];
    StoreBeatFrame(c, s.mem, f.route, f.commitBeat, f.staged[f.commitBeat]);
  }

  /** Memory with k beats of the front burst committed. */
  ghost function FrontMem(c: Config, s: Fabric, k: nat): Mem
    requires Atomic(c, s) && s.writeRoutes != [] && Mapped(c, s.writeRoutes[0].route)
    requires k <= |s.writeRoutes[0].staged|
  {
    assert WriteOk(c, s.writeRoutes[0]);
    StoreBeats(c, Replay(c, s.h.base, s.h.wgrants, s.h.done), s.writeRoutes[0].route, s.writeRoutes[0].staged, k)
  }

  lemma BeatAdvances(c: Config, s: Fabric, reply: Reply)
    requires Base(c, s) && Atomic(c, s) && Committing(c, s)
    ensures var f := s.writeRoutes[0];
            && Mapped(c, f.route) && f.commitBeat < |f.staged|
            && s.mem == FrontMem(c, s, f.commitBeat)
            && BeatEffect(c, s, reply).mem ==
                 (if BeatFits(c, f.route, f.commitBeat) then FrontMem(c, s, f.commitBeat + 1) else s.mem)
  {
    BeatEffectMem(c, s, reply);
  }

  /** A burst to a peripheral leaves RAM and ROM alone, wherever it stops. */
  lemma PeripheralMem(c: Config, s: Fabric, k: nat)
    requires Atomic(c, s) && Committing(c, s) && Mapped(c, s.writeRoutes[0].route)
    requires DeviceOf(c, s.writeRoutes[0].route).Peripheral? && k <= |s.writeRoutes[0].staged|
    ensures FrontMem(c, s, k) == Replay(c, s.h.base, s.h.wgrants, s.h.done)
  {
    var f := s.writeRoutes[0];
    assert WriteOk(c, f);
    StoreBeatsFrame(c, Replay(c, s.h.base, s.h.wgrants, s.h.done), f.route, f.staged, k);
  }

  /** Where the burst stops, and what it answers, for RAM and ROM. */
  lemma BurstStops(c: Config, s: Fabric, reply: Reply)
    requires Base(c, s) && Committing(c, s) && FrontOk(c, s) && Mapped(c, s.writeRoutes[0].route)
    requires !DeviceOf(c, s.writeRoutes[0].route).Peripheral?
    requires BeatFront(c, s, reply).commitBeat == Beats(s.writeRoutes[0].route.payload)
    ensures var f := s.writeRoutes[0];
            && Leading(c, f.route, 0) == (if BeatFits(c, f.route, f.commitBeat) then f.commitBeat + 1 else f.commitBeat)
            && BeatFront(c, s, reply).response
               == (if Leading(c, f.route, 0) == Beats(f.route.payload) then Okay else SlaveError)
  {
    CommittingFacts(c, s);
    BeatEffectMem(c, s, reply);
    var f := s.writeRoutes[0];
    LeadingIs(c, f.route, 0, if BeatFits(c, f.route, f.commitBeat) then f.commitBeat + 1 else f.commitBeat);
  }

  /** The last beat, or the first refused one, leaves memory as the whole write does. */
  lemma BurstEnds(c: Config, s: Fabric, reply: Reply)
    requires Base(c, s) && Atomic(c, s) && Committing(c, s)
    requires BeatFront(c, s, reply).commitBeat == Beats(s.writeRoutes[0].route.payload)
    ensures var f1 := BeatFront(c, s, reply);
            && RouteOk(c, f1.route) && AllStaged(c, f1.route.payload, f1.staged)
            && ResponseOk(c, f1.route, DoneOf(f1))
            && BeatEffect(c, s, reply).mem ==
                 ApplyWrite(c, Replay(c, s.h.base, s.h.wgrants, s.h.done), f1.route, DoneOf(f1))
  {
    CommittingFacts(c, s);
    BeatAdvances(c, s, reply);
    var f := s.writeRoutes[0];
    if DeviceOf(c, f.route).Peripheral? {
      PeripheralMem(c, s, f.commitBeat);
      PeripheralMem(c, s, f.commitBeat + 1);
      PeripheralMem(c, s, Leading(c, f.route, 0));
    } else {
      BurstStops(c, s, reply);
    }
  }

  lemma CommitBeatAtomic(c: Config, s: Fabric, reply: Reply)
    requires Base(c, s) && Atomic(c, s) && Committing(c, s)
    requires |s.ports[s.writeRoutes[0].route.port].b| < c.responseDepth
    ensures Atomic(c, CommitBeat(c, s, reply))
  {
    var s1, f1 := BeatEffect(c, s, reply), BeatFront(c, s, reply);
    AccessBase(c, s, s1);
    BeatFrontOk(c, s, reply);
    if f1.commitBeat == Beats(f1.route.payload) {
      BurstEnds(c, s, reply);
      AccessThenComplete(c, s, s1, f1);
    } else {
      BurstGoesOn(c, s, reply);
    }
  }

  lemma BurstGoesOn(c: Config, s: Fabric, reply: Reply)
    requires Base(c, s) && Atomic(c, s) && Committing(c, s)
    requires |s.ports[s.writeRoutes[0].route.port].b| < c.responseDepth
    requires BeatFront(c, s, reply).commitBeat < Beats(s.writeRoutes[0].route.payload)
    ensures Atomic(c, CommitBeat(c, s, reply))
  {
    hide StoreBeats, EmptyBeat, Hi, WriteQueue, Replay, RoutesOk, Lanes, MemOk;
    CommittingFacts(c, s);
    CommitBeatBase(c, s, reply);
    BeatAdvances(c, s, reply);
    BeatEffectMem(c, s, reply);
    BeatContinues(c, s, CommitBeat(c, s, reply), BeatFront(c, s, reply));
  }

  lemma FrontSwapQueue(s: Fabric, t: Fabric, f: WriteRoute)
    requires WriteQueue(s) && s.writeRoutes != [] && f.route == s.writeRoutes[0].route
    requires t.writeRoutes == s.writeRoutes[0 := f] && t.h.wgrants == s.h.wgrants && t.h.done == s.h.done
    ensures WriteQueue(t)
  {}

  /** The burst continues: one more accepted beat in memory, room for B untouched. */
  lemma BeatContinues(c: Config, s: Fabric, t: Fabric, f: WriteRoute)
    requires Atomic(c, s) && s.writeRoutes != [] && f.route == s.writeRoutes[0].route &&
             f.staged == s.writeRoutes[0].staged
    requires f.commitBeat == s.writeRoutes[0].commitBeat + 1 <= |f.staged|
    requires Mapped(c, f.route) && BeatFits(c, f.route, f.commitBeat - 1)
    requires !DeviceOf(c, f.route).Peripheral? ==> f.response.Okay?
    requires f.route.port < |t.ports| && |t.ports[f.route.port].b| < c.responseDepth
    requires t.writeRoutes == s.writeRoutes[0 := f] && RoutesOk(c, t)
    requires t.h.base == s.h.base && t.h.wgrants == s.h.wgrants && t.h.done == s.h.done
    requires t.mem == FrontMem(c, s, f.commitBeat)
    ensures Atomic(c, t)
  {
    hide StoreBeats, RoutesOk, Hi;
    FrontSwapQueue(s, t, f);
    assert FrontOk(c, t);
  }

  lemma FinishAtomic(c: Config, s: Fabric, reply: Reply)
    requires Base(c, s) && Atomic(c, s) && Finishing(c, s)
    ensures Atomic(c, FinishExclusive(c, s, reply))
  {
    var s1 := ExclusiveEffect(c, s, reply);
    AccessBase(c, s, s1);
    ExclusiveEffectMem(c, s, reply);
    AccessThenComplete(c, s, s1, s.writeRoutes[0].(response := ExclusiveAnswer(c, s, reply)));
  }

  /** An exclusive write is all of its beats or nothing, as its answer says. */
  lemma ExclusiveEffectMem(c: Config, s: Fabric, reply: Reply)
    requires Base(c, s) && Atomic(c, s) && Finishing(c, s)
    ensures var f := s.writeRoutes[0];
            var d := DoneOf(f.(response := ExclusiveAnswer(c, s, reply)));
            && RouteOk(c, f.route) && AllStaged(c, f.route.payload, f.staged)
            && ExclusiveEffect(c, s, reply).mem == ApplyWrite(c, Replay(c, s.h.base, s.h.wgrants, s.h.done), f.route, d)
            && ResponseOk(c, f.route, d)
  {
    FinishingFacts(c, s);
    var f := s.writeRoutes[0];
    assert s.mem == Replay(c, s.h.base, s.h.wgrants, s.h.done);
    if Takes(s) && ExclusiveAnswer(c, s, reply).ExclusiveOkay? {
      GatheredEqualsBeats(c, s.mem, f.route, f.staged);
    }
  }

  lemma WriteCommitAtomic(c: Config, s: Fabric, reply: Reply)
    requires Base(c, s) && Atomic(c, s) && s.writeRoutes != [] && s.writeRoutes[0].dataComplete
    ensures Atomic(c, WriteCommit(c, s, reply))
  {
    var f := s.writeRoutes[0];
    assert WriteOk(c, f);
    if |s.ports[f.route.port].b| == c.responseDepth {
    } else if f.route.payload.lock {
      FinishAtomic(c, s, reply);
    } else if !f.route.forced.Okay? {
      ForcedAtomic(c, s);
    } else {
      CommitBeatAtomic(c, s, reply);
    }
  }

  lemma WriteStepAtomic(c: Config, s: Fabric, reply: Reply)
    requires Base(c, s) && Atomic(c, s)
    ensures Atomic(c, WriteStep(c, s, reply).s)
  {
    hide Atomic, WriteQueue, WriteCommit, DoneOk, ConfigOk, FinishExclusive, Committed, FrontOk;
    if s.writeRoutes != [] {
      var f := s.writeRoutes[0];
      assert WriteOk(c, f);
      if f.dataComplete {
        WriteCommitAtomic(c, s, reply);
      } else if s.ports[f.route.port].w != [] {
        StageBase(c, s);
        StageAtomic(c, s);
        if StageBeat(c, s).writeRoutes[0].dataComplete { WriteCommitAtomic(c, StageBeat(c, s), reply); }
      }
    }
  }

  // ---- reads ------------------------------------------------------------------------------------

  /** A write phase that leaves the read phase running has left no burst half done. */
  lemma NotMidBurst(c: Config, s: Fabric, reply: Reply)
    requires Base(c, s) && FrontOk(c, s) && !s.suppressRead
    ensures var o := WriteStep(c, s, reply);
            o.Done? && !o.s.suppressRead ==> o.s.writeRoutes == [] || o.s.writeRoutes[0].commitBeat == 0
  {
    if s.writeRoutes != [] {
      var f := s.writeRoutes[0];
      assert WriteOk(c, f);
      if |s.writeRoutes| > 1 { SecondIsFresh(c, s); }
      if f.dataComplete {
        CommitNotMidBurst(c, s, reply);
      } else if s.ports[f.route.port].w != [] {
        StageBase(c, s);
        if StageBeat(c, s).writeRoutes[0].dataComplete { CommitNotMidBurst(c, StageBeat(c, s), reply); }
      }
    }
  }

  lemma CommitNotMidBurst(c: Config, s: Fabric, reply: Reply)
    requires Base(c, s) && FrontOk(c, s) && !s.suppressRead && s.writeRoutes != [] && s.writeRoutes[0].dataComplete
    ensures var t := WriteCommit(c, s, reply);
            !t.suppressRead ==> t.writeRoutes == [] || t.writeRoutes[0].commitBeat == 0
  {
    assert WriteOk(c, s.writeRoutes[0]);
    if |s.writeRoutes| > 1 { SecondIsFresh(c, s); }
  }

  lemma ServedSees(c: Config, mem: Mem, x: Served, reply: Reply)
    requires RouteOk(c, x.route) && MemOk(c, mem) && x.reply == reply && x.beat < Beats(x.route.payload)
    requires x.out == ServedBeat(c, mem, x.route, x.beat, reply)
    ensures SeesMemory(c, mem, x)
  {
    hide InitRoute, BeatAddress, BeatEnd;
    RouteFacts(c, x.route);
    if x.route.forced.Okay? && !EmptyBeat(x.route.payload, x.beat) { BeatInWindow(c, x.route, x.beat); }
  }

  /** History of reads stays valid while finished writes are only appended. */
  ghost predicate DoneExtends(s: Fabric, t: Fabric) {
    && t.h.base == s.h.base && t.h.wgrants == s.h.wgrants && t.h.served == s.h.served
    && s.h.done <= t.h.done
  }

  lemma DoneExtendsReads(c: Config, s: Fabric, t: Fabric)
    requires HistoryOk(c, s.h.wgrants, s.h.done) && HistoryOk(c, t.h.wgrants, t.h.done) && MemOk(c, s.h.base)
    requires ReadsWhole(c, s) && DoneExtends(s, t)
    ensures ReadsWhole(c, t)
  {
    forall i | 0 <= i < |s.h.served| ensures SeesMemory(c, ReplayUpTo(c, t, t.h.served[i].after), t.h.served[i]) {
      var n := s.h.served[i].after;
      assert SeesMemory(c, ReplayUpTo(c, s, n), s.h.served[i]);
      assert t.h.done[..n] == s.h.done[..n];
    }
  }

  lemma WriteCommitExtends(c: Config, s: Fabric, reply: Reply)
    requires Base(c, s) && s.writeRoutes != [] && s.writeRoutes[0].dataComplete
    ensures DoneExtends(s, WriteCommit(c, s, reply))
  {
    hide RoutesOk, FifosOk, MemOk, BeatEffect, BeatFront, ExclusiveEffect, ExclusiveAnswer, InitRoute, ConfigOk;
    FrontWriteOk(c, s);
    if s.writeRoutes[0].route.forced.Okay? && !s.writeRoutes[0].route.payload.lock { CommittingFacts(c, s); }
  }

  lemma WriteStepExtends(c: Config, s: Fabric, reply: Reply)
    requires Base(c, s)
    ensures DoneExtends(s, WriteStep(c, s, reply).s)
  {
    hide RoutesOk, FifosOk, MemOk, StrobesLegal, WriteCommit, ConfigOk;
    if s.writeRoutes != [] {
      var f := s.writeRoutes[0];
      FrontWriteOk(c, s);
      if f.dataComplete {
        WriteCommitExtends(c, s, reply);
      } else if s.ports[f.route.port].w != [] {
        StageBase(c, s);
        if StageBeat(c, s).writeRoutes[0].dataComplete { WriteCommitExtends(c, StageBeat(c, s), reply); }
      }
    }
  }

  lemma ServedReads(c: Config, s: Fabric, t: Fabric, x: Served, reply: Reply)
    requires HistoryOk(c, s.h.wgrants, s.h.done) && MemOk(c, s.h.base) && ReadsWhole(c, s)
    requires Serves(c, s, t, x) && RouteOk(c, x.route) && MemOk(c, s.mem)
    requires s.mem == Replay(c, s.h.base, s.h.wgrants, s.h.done)
    requires x.reply == reply && x.out == ServedBeat(c, s.mem, x.route, x.beat, reply)
    ensures ReadsWhole(c, t)
  {
    hide SeesMemory, RouteOk, MemOk, AllStaged, ServedBeat, Replay;
    ServedSees(c, s.mem, x, reply);
    assert s.h.done[..|s.h.done|] == s.h.done;
    assert SeesMemory(c, ReplayUpTo(c, t, x.after), x);
    forall i | 0 <= i < |s.h.served| ensures SeesMemory(c, ReplayUpTo(c, t, t.h.served[i].after), t.h.served[i]) {
      assert SeesMemory(c, ReplayUpTo(c, s, s.h.served[i].after), s.h.served[i]);
    }
  }

  // ---- whole cycles and runs ----------------------------------------------------------------------

  ghost predicate AtomicState(c: Config, s: Fabric) { Atomic(c, s) && ReadsWhole(c, s) }

  lemma SameAtomicState(c: Config, s: Fabric, t: Fabric)
    requires AtomicState(c, s) && SameWrites(s, t) && RoutesOk(c, t) && t.h.served == s.h.served
    ensures AtomicState(c, t)
  {
    SameWritesAtomic(c, s, t);
    SameReadsWhole(c, s, t);
  }

  lemma ServeWhole(c: Config, s: Fabric, reply: Reply)
    requires Base(c, s) && AtomicState(c, s) && s.readRoutes != []
    requires s.writeRoutes == [] || s.writeRoutes[0].commitBeat == 0
    ensures AtomicState(c, ServeRead(c, s, reply))
  {
    ServeReadBase(c, s, reply);
    var x := ServeReadShape(c, s, reply);
    ServedReads(c, s, ServeRead(c, s, reply), x, reply);
    SameWritesAtomic(c, s, ServeRead(c, s, reply));
  }

  lemma EstablishWhole(c: Config, s: Fabric, r: Route)
    requires Base(c, s) && AtomicState(c, s)
    ensures var t := Establish(c, s, r).s;
            Base(c, t) && AtomicState(c, t) && t.readRoutes == s.readRoutes && t.writeRoutes == s.writeRoutes
  {
    SameAtomicState(c, s, Establish(c, s, r).s);
  }

  lemma ReadStepWhole(c: Config, s: Fabric, reply: Reply)
    requires Base(c, s) && AtomicState(c, s)
    requires s.writeRoutes == [] || s.writeRoutes[0].commitBeat == 0
    ensures AtomicState(c, ReadStep(c, s, reply).s)
  {
    if s.readRoutes != [] && |s.ports[s.readRoutes[0].route.port].r| != c.responseDepth {
      var f := s.readRoutes[0];
      if f.route.payload.lock && f.beat == 0 && f.route.forced.Okay? {
        EstablishWhole(c, s, f.route);
        var o := Establish(c, s, f.route);
        if o.Done? { ServeWhole(c, o.s, reply); }
      } else {
        ServeWhole(c, s, reply);
      }
    }
  }

  lemma IngressAtomic(c: Config, s: Fabric, inputs: seq<Master>)
    requires Base(c, s) && InputsOk(c, inputs) && AtomicState(c, s)
    ensures AtomicState(c, Ingress(c, s, inputs).s)
  {
    IngressPortsOnly(c, s, inputs);
    forall q | 0 <= q < |s.ports| ensures |Ingress(c, s, inputs).s.ports[q].b| <= |s.ports[q].b| {
      IngressShorter(c, s, inputs, q);
    }
    SameAtomicState(c, s, Ingress(c, s, inputs).s);
  }

  lemma GrantWriteAtomic(c: Config, s: Fabric)
    requires Base(c, s) && AtomicState(c, s)
    ensures AtomicState(c, GrantWrite(c, s).s)
  {
    GrantWriteBase(c, s);
    GrantWriteShape(c, s);
    var o := GrantWrite(c, s);
    if o.Done? && o.s != s {
      var p: nat, r :| RouteOk(c, r) && GrantedWrite(c, s, o.s, p, r);
      GrantedWriteAtomic(c, s, o.s, p, r);
      GrantedWriteReads(c, s, o.s, p, r);
    }
  }

  lemma GrantReadAtomic(c: Config, s: Fabric)
    requires Base(c, s) && AtomicState(c, s)
    ensures AtomicState(c, GrantRead(c, s).s)
  {
    hide AtomicState, Atomic, InitRoute, Pick;
    GrantReadBase(c, s);
    assert SameWrites(s, GrantRead(c, s).s);
    SameAtomicState(c, s, GrantRead(c, s).s);
  }

  lemma ArbitrateAtomic(c: Config, s: Fabric)
    requires Base(c, s) && AtomicState(c, s)
    ensures AtomicState(c, Arbitrate(c, s).s)
  {
    GrantWriteBase(c, s);
    GrantWriteAtomic(c, s);
    if GrantWrite(c, s).Done? { GrantReadAtomic(c, GrantWrite(c, s).s); }
  }

  lemma ProcessAtomic(c: Config, s: Fabric, reply: Reply)
    requires Base(c, s) && AtomicState(c, s)
    ensures AtomicState(c, Process(c, s, reply).s)
  {
    hide MemOk, StrobesLegal, SeesMemory, RoutesOk, ReadsWhole, Committed, WriteStep, WriteOk, HistoryOk,
         WriteQueue, FrontOk, AllStaged, Mapped, ServeRead, StageBeat, ReadOk, DoneExtends, DeviceOf,
         BeatSized, Beats, SameWrites, ReplayUpTo, BeatFits, WriteCommit, FifosOk, Establish, RouteOk,
         ReadStep, ConfigOk;
    var s0 := Unsuppress(c, s);
    SameAtomicState(c, s, s0);
    WriteStepBase(c, s0, reply);
    WriteStepAtomic(c, s0, reply);
    WriteStepExtends(c, s0, reply);
    var o := WriteStep(c, s0, reply);
    DoneExtendsReads(c, s0, o.s);
    if o.Done? && !o.s.suppressRead {
      NotMidBurst(c, s0, reply);
      ReadStepWhole(c, o.s, reply);
    }
  }

  lemma FreshAtomic(c: Config, s: Fabric)
    requires RoutesOk(c, s) && MemOk(c, s.mem) && s.writeRoutes == [] && s.h == FreshHistory(c, s.mem)
    ensures AtomicState(c, s)
  {}

  lemma ResetAtomic(c: Config, s: Fabric)
    requires Base(c, s) && AtomicState(c, s)
    ensures AtomicState(c, ResetCycle(c, s))
  {
    if s.wasReset { SameAtomicState(c, s, ResetCycle(c, s)); } else { FreshAtomic(c, ResetCycle(c, s)); }
  }

  lemma CommitAtomic(c: Config, s: Fabric, inputs: seq<Master>, reply: Reply)
    requires Base(c, s) && InputsOk(c, inputs) && AtomicState(c, s)
    ensures AtomicState(c, Commit(c, s, inputs, false, reply).s)
  {
    SameAtomicState(c, s, Awake(c, s));
    IngressAtomic(c, Awake(c, s), inputs);
    var o1 := Ingress(c, Awake(c, s), inputs);
    if o1.Done? {
      ArbitrateAtomic(c, o1.s);
      var o2 := Arbitrate(c, o1.s);
      if o2.Done? {
        ProcessAtomic(c, o2.s, reply);
        var o3 := Process(c, o2.s, reply);
        if o3.Done? { SameAtomicState(c, o3.s, Tick(c, o3.s)); }
      }
    }
  }

  lemma CycleAtomic(c: Config, s: Fabric, x: Stimulus)
    requires Base(c, s) && StimulusOk(c, x) && AtomicState(c, s)
    ensures AtomicState(c, Cycle(c, s, x).s)
  {
    var d := Drive(c, s, x.reset, x.stalls);
    DriveBase(c, s, x.reset, x.stalls);
    SameAtomicState(c, s, d);
    if x.reset { ResetAtomic(c, d); } else { CommitAtomic(c, d, x.inputs, x.reply); }
  }

  lemma {:induction false} RunAtomic(c: Config, mem: Mem, xs: seq<Stimulus>)
    requires ConfigOk(c) && MemOk(c, mem) && StimuliOk(c, xs)
    ensures Base(c, Init(c, mem)) && AtomicState(c, Run(c, Init(c, mem), xs).s)
  {
    InitBase(c, mem);
    if xs == [] {
      FreshAtomic(c, Init(c, mem));
    } else {
      RunAtomic(c, mem, xs[..|xs| - 1]);
      var o := Run(c, Init(c, mem), xs[..|xs| - 1]);
      if o.Done? { CycleAtomic(c, o.s, xs[|xs| - 1]); }
    }
  }

  /** The refinement, for every run and every moment of it, errors included:
      every read beat of RAM or ROM returned memory as left by the first `after`
      writes applied whole, in AW-grant order, and `after` never decreases; and
      memory now is the replay of the finished writes unless the oldest write has
      all its data and has started to commit. */
  lemma BurstAtomicity(c: Config, mem: Mem, xs: seq<Stimulus>)
    requires ConfigOk(c) && MemOk(c, mem) && StimuliOk(c, xs)
    ensures Base(c, Init(c, mem))
    ensures var s := Run(c, Init(c, mem), xs).s;
            && HistoryOk(c, s.h.wgrants, s.h.done) && MemOk(c, s.h.base)
            && (forall i | 0 <= i < |s.h.served| ::
                  && RouteOk(c, s.h.served[i].route) && s.h.served[i].after <= |s.h.done|
                  && SeesMemory(c, ReplayUpTo(c, s, s.h.served[i].after), s.h.served[i]))
            && (forall i, j | 0 <= i < j < |s.h.served| :: s.h.served[i].after <= s.h.served[j].after)
            && (s.writeRoutes == [] || !s.writeRoutes[0].dataComplete || s.writeRoutes[0].commitBeat == 0 ==>
                  s.mem == Replay(c, s.h.base, s.h.wgrants, s.h.done))
  {
    RunAtomic(c, mem, xs);
    var s := Run(c, Init(c, mem), xs).s;
    if s.writeRoutes != [] { assert WriteOk(c, s.writeRoutes[0]); }
  }
}
