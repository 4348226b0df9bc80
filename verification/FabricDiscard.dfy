/** A write burst that never completes leaves no trace in memory. */
module FabricDiscard {
  import opened Fabric
  import opened FabricRun
  import opened FabricErrors
  import opened FabricAtomic
  import opened FabricValidated

  /** The oldest write has not yet been received up to WLAST with all its strobes checked. */
  ghost predicate FrontIncomplete(s: Fabric) {
    s.writeRoutes == [] || !s.writeRoutes[0].dataComplete
  }

  lemma ResetKeepsMem(c: Config, s: Fabric, x: Stimulus)
    requires Base(c, s) && StimulusOk(c, x) && x.reset
    ensures Cycle(c, s, x).s.mem == s.mem
  {}

  /**
    A reset or a protocol error that strikes before WLAST of the oldest write
    leaves memory as the completed bursts left it, as if the others never existed:
    every device write made so far, to whatever device, belongs to a completed burst.
   */
  lemma DiscardedBeforeLast(c: Config, mem: Mem, xs: seq<Stimulus>, y: Stimulus)
    requires ConfigOk(c) && MemOk(c, mem) && StimuliOk(c, xs) && StimulusOk(c, y)
    requires Base(c, Init(c, mem)) && Run(c, Init(c, mem), xs).Done?
    requires FrontIncomplete(Run(c, Init(c, mem), xs).s)
    requires y.reset || Cycle(c, Run(c, Init(c, mem), xs).s, y).Failed?
    ensures var s := Run(c, Init(c, mem), xs).s;
            && HistoryOk(c, s.h.wgrants, s.h.done) && MemOk(c, s.h.base)
            && Cycle(c, s, y).s.mem == Replay(c, s.h.base, s.h.wgrants, s.h.done)
            && (forall i | 0 <= i < |s.h.accesses| && s.h.accesses[i].DeviceWrite? ::
                  s.h.accesses[i].write < |s.h.done| &&
                  Validated(c, s.h.wgrants[s.h.accesses[i].write].payload, s.h.done[s.h.accesses[i].write].staged))
            && (!y.reset ==> Cycle(c, s, y).s.h.accesses == s.h.accesses)
  {
    hide Cycle;
    BurstAtomicity(c, mem, xs);
    var s := Run(c, Init(c, mem), xs).s;
    RunChecked(c, mem, xs);
    forall i | 0 <= i < |s.h.accesses| && s.h.accesses[i].DeviceWrite?
      ensures s.h.accesses[i].write < |s.h.done| &&
              Validated(c, s.h.wgrants[s.h.accesses[i].write].payload, s.h.done[s.h.accesses[i].write].staged)
    {
      assert AccessValidated(c, s.h.wgrants, s.h.done, s.writeRoutes, s.h.accesses[i]);
    }
    if y.reset { ResetKeepsMem(c, s, y); } else { ErrorAtomicity(c, s, y); }
  }

  /**
    What any reset leaves: the completed bursts, and of the oldest unfinished one
    exactly the beats it had committed, which is none before WLAST.
   */
  lemma ResetLeavesCommitted(c: Config, mem: Mem, xs: seq<Stimulus>, y: Stimulus)
    requires ConfigOk(c) && MemOk(c, mem) && StimuliOk(c, xs) && StimulusOk(c, y) && y.reset && Base(c, Init(c, mem))
    ensures var s := Run(c, Init(c, mem), xs).s;
            && HistoryOk(c, s.h.wgrants, s.h.done) && MemOk(c, s.h.base) && RoutesOk(c, s) && FrontOk(c, s)
            && Cycle(c, s, y).s.mem == Committed(c, s)
            && (FrontIncomplete(s) || s.writeRoutes[0].commitBeat == 0 ==>
                  Committed(c, s) == Replay(c, s.h.base, s.h.wgrants, s.h.done))
  {
    hide Cycle, ReadsWhole, Replay;
    RunAtomic(c, mem, xs);
    var s := Run(c, Init(c, mem), xs).s;
    ResetKeepsMem(c, s, y);
    if s.writeRoutes != [] { FrontWriteOk(c, s); }
  }
}
