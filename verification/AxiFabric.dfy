/**
  The imperative fabric: `AxiFabric` of `src/fabric.hpp` with its loops and its
  in-place updates, each method proved equal to the phase function of module
  Fabric.  The theorems about those functions are thereby theorems about this
  object.
 */
module AxiFabricClass {
  import opened Arith
  import opened Axi
  import opened AddressMap
  import opened Bursts
  import opened Memory
  import opened Fabric
  import opened FabricRun
  import opened FabricWindow
  import F = Fabric
  import R = FabricRun

  /** A method's error result is the error of the outcome it computes. */
  ghost predicate Reports(error: Option<Error>, o: Outcome) {
    error == if o.Done? then None else Some(o.error)
  }

  class AxiFabric {
    /** Template parameters, and the frozen address map with its devices. */
    const c: Config

    var ports: seq<Port>
    var outputs: seq<Slave>
    var readRoutes: seq<ReadRoute>
    var writeRoutes: seq<WriteRoute>
    var monitors: seq<Monitor>
    var nextAw: nat
    var nextAr: nat
    var cycle: nat
    var wasReset: bool
    var suppressRead: bool
    var exit: Option<nat>
    /** Contents of the RAM and ROM devices behind the address map. */
    var mem: Mem
    ghost var h: History

    ghost function State(): Fabric
      reads this
    {
      F.Fabric.Fabric(ports, outputs, readRoutes, writeRoutes, monitors, nextAw, nextAr, cycle, wasReset,
                      suppressRead, exit, mem, h)
    }

    ghost predicate Valid()
      reads this
    {
      Base(c, State())
    }

    constructor (config: Config, contents: Mem)
      requires ConfigOk(config) && MemOk(config, contents)
      ensures c == config && State() == Init(config, contents) && Valid()
    {
      c := config;
      ports := seq(config.ports, _ => EmptyPort());
      outputs := seq(config.ports, _ => IdleSlave());
      readRoutes, writeRoutes := [], [];
      monitors := seq(config.routeDepth, _ => Free);
      nextAw, nextAr, cycle, wasReset, suppressRead := 0, 0, 0, false, false;
      exit, mem := None, contents;
      h := FreshHistory(config, contents);
      new;
      InitBase(config, contents);
    }

    /** `drive` */
    method Drive(reset: bool, stalls: seq<Stall>)
      requires Valid() && |stalls| == c.ports
      modifies this`outputs
      ensures State() == F.Drive(c, old(State()), reset, stalls) && Valid()
    {
      DriveBase(c, State(), reset, stalls);
      outputs := seq(c.ports, _ => IdleSlave());
      if !reset {
        var port := 0;
        while port < c.ports
          invariant 0 <= port <= c.ports == |outputs|
          invariant forall q | 0 <= q < port :: outputs[q] == DrivePort(c, ports[q], stalls[q])
        {
          outputs := outputs[port := DrivePort(c, ports[port], stalls[port])];
          port := port + 1;
        }
      }
      assert outputs == F.Drive(c, old(State()), reset, stalls).outputs;
    }

    // ---- phase 1 -------------------------------------------------------------------------------

    method CheckStability(inputs: seq<Master>) returns (error: Option<Error>)
      requires Sized(c, State()) && |inputs| == c.ports
      modifies this`ports
      ensures State() == F.CheckStability(c, old(State()), inputs, 0).s
      ensures Reports(error, F.CheckStability(c, old(State()), inputs, 0))
    {
      ghost var want := F.CheckStability(c, State(), inputs, 0);
      var port := 0;
      while port < c.ports
        invariant 0 <= port <= c.ports && Sized(c, State())
        invariant F.CheckStability(c, State(), inputs, port) == want
        invariant unchanged(`outputs)
      {
        var state, input, out := ports[port], inputs[port], outputs[port];
        if Broken(state.awWatch, input.aw) {
          return Some(Unstable(port, AW));
        }
        ghost var before := State();
        state := state.(awWatch := NextWatch(input.aw, out.awReady));
        if Broken(state.wWatch, input.w) {
          ports := ports[port := state];
          return Some(Unstable(port, W));
        }
        state := state.(wWatch := NextWatch(input.w, out.wReady));
        if Broken(state.arWatch, input.ar) {
          ports := ports[port := state];
          return Some(Unstable(port, AR));
        }
        state := state.(arWatch := NextWatch(input.ar, out.arReady));
        ports := ports[port := state];
        assert State() == CheckPort(c, before, inputs, port).s;
        port := port + 1;
      }
      error := None;
    }

    // ---- phase 2 -------------------------------------------------------------------------------

    method RetireResponses(inputs: seq<Master>) returns (error: Option<Error>)
      requires Sized(c, State()) && |inputs| == c.ports
      modifies this`ports, this`exit, this`h
      ensures State() == Retire(c, old(State()), inputs, 0).s
      ensures Reports(error, Retire(c, old(State()), inputs, 0))
    {
      ghost var want := Retire(c, State(), inputs, 0);
      var port := 0;
      while port < c.ports
        invariant 0 <= port <= c.ports && Sized(c, State())
        invariant Retire(c, State(), inputs, port) == want
      {
        error := RetireWrite(inputs, port);
        if error.Some? {
          return;
        }
        error := RetireRead(inputs, port);
        if error.Some? {
          return;
        }
        port := port + 1;
      }
      error := None;
    }

    /** B handshake of one port; the first exit response taken is remembered. */
    method RetireWrite(inputs: seq<Master>, port: nat) returns (error: Option<Error>)
      requires Sized(c, State()) && |inputs| == c.ports && port < c.ports
      modifies this`ports, this`exit, this`h
      ensures State() == RetireB(c, old(State()), inputs, port).s && Sized(c, State())
      ensures Reports(error, RetireB(c, old(State()), inputs, port))
    {
      if outputs[port].b.Some? && inputs[port].bReady {
        var state := ports[port];
        if state.b == [] {
          return Some(QueueEmpty);
        }
        if exit.None? {
          exit := state.b[0].exit;
        }
        ports := ports[port := state.(b := state.b[1..])];
        h := h.(logs := h.logs[port := h.logs[port].(b := h.logs[port].b + [outputs[port].b.value])],
                retired := h.retired + [state.b[0]]);
      }
      error := None;
    }

    method RetireRead(inputs: seq<Master>, port: nat) returns (error: Option<Error>)
      requires Sized(c, State()) && |inputs| == c.ports && port < c.ports
      modifies this`ports, this`h
      ensures State() == RetireR(c, old(State()), inputs, port).s && Sized(c, State())
      ensures Reports(error, RetireR(c, old(State()), inputs, port))
    {
      if outputs[port].r.Some? && inputs[port].rReady {
        var state := ports[port];
        if state.r == [] {
          return Some(QueueEmpty);
        }
        ports := ports[port := state.(r := state.r[1..])];
        h := h.(logs := h.logs[port := h.logs[port].(r := h.logs[port].r + [outputs[port].r.value])]);
      }
      error := None;
    }

    // ---- phase 3 -------------------------------------------------------------------------------

    method AcceptIngress(inputs: seq<Master>) returns (error: Option<Error>)
      requires Sized(c, State()) && |inputs| == c.ports
      modifies this`ports, this`h
      ensures State() == Accept(c, old(State()), inputs, 0).s
      ensures Reports(error, Accept(c, old(State()), inputs, 0))
    {
      ghost var want := Accept(c, State(), inputs, 0);
      var port := 0;
      while port < c.ports
        invariant 0 <= port <= c.ports && Sized(c, State())
        invariant Accept(c, State(), inputs, port) == want
      {
        error := AcceptPort(inputs, port);
        if error.Some? {
          return;
        }
        port := port + 1;
      }
      error := None;
    }

    /** One port of `accept_ingress`; a refused push is an internal overflow. */
    method AcceptPort(inputs: seq<Master>, port: nat) returns (error: Option<Error>)
      requires Sized(c, State()) && |inputs| == c.ports && port < c.ports
      modifies this`ports, this`h
      ensures Sized(c, State())
      ensures var o := AcceptAw(c, old(State()), inputs, port);
              if o.Failed? then Reports(error, o) && State() == o.s
              else var o2 := AcceptW(c, o.s, inputs, port);
                   if o2.Failed? then Reports(error, o2) && State() == o2.s
                   else var o3 := AcceptAr(c, o2.s, inputs, port);
                        Reports(error, o3) && State() == o3.s
    {
      hide F.MemOk;
      var input := inputs[port];
      if input.aw.Some? && outputs[port].awReady {
        if |ports[port].aw| == c.addressDepth {
          return Some(FifoOverflow(port, AW));
        }
        ports := ports[port := ports[port].(aw := ports[port].aw + [input.aw.value])];
        h := h.(logs := h.logs[port := h.logs[port].(aw := h.logs[port].aw + [input.aw.value])]);
      }
      ghost var s1 := State();
      assert s1 == AcceptAw(c, old(State()), inputs, port).s;
      if input.w.Some? && outputs[port].wReady {
        if |ports[port].w| == c.writeDepth {
          return Some(FifoOverflow(port, W));
        }
        ports := ports[port := ports[port].(w := ports[port].w + [input.w.value])];
        h := h.(logs := h.logs[port := h.logs[port].(w := h.logs[port].w + [input.w.value])]);
      }
      ghost var s2 := State();
      assert s2 == AcceptW(c, s1, inputs, port).s;
      if input.ar.Some? && outputs[port].arReady {
        if |ports[port].ar| == c.addressDepth {
          return Some(FifoOverflow(port, AR));
        }
        ports := ports[port := ports[port].(ar := ports[port].ar + [input.ar.value])];
        h := h.(logs := h.logs[port := h.logs[port].(ar := h.logs[port].ar + [input.ar.value])]);
      }
      assert State() == AcceptAr(c, s2, inputs, port).s;
      error := None;
    }

    // ---- phase 4 -------------------------------------------------------------------------------

    /** The scan of `arbitrate_addresses` over one channel. */
    method RoundRobin(waiting: seq<bool>, next: nat) returns (pick: Option<nat>)
      ensures pick == Pick(waiting, next, 0)
    {
      var offset := 0;
      while offset < |waiting|
        invariant 0 <= offset <= |waiting|
        invariant Pick(waiting, next, 0) == Pick(waiting, next, offset)
      {
        var port := (next + offset) % |waiting|;
        if waiting[port] {
          return Some(port);
        }
        offset := offset + 1;
      }
      pick := None;
    }

    method ArbitrateAddresses() returns (error: Option<Error>)
      requires Valid()
      modifies this`ports, this`readRoutes, this`writeRoutes, this`nextAw, this`nextAr, this`h
      ensures State() == Arbitrate(c, old(State())).s && Valid()
      ensures Reports(error, Arbitrate(c, old(State())))
    {
      hide GrantWrite, GrantRead, RoutesOk, FifosOk, Sized;
      GrantWriteBase(c, State());
      error := ArbitrateWrites();
      if error.Some? {
        return;
      }
      GrantReadBase(c, State());
      error := ArbitrateReads();
    }

    method ArbitrateWrites() returns (error: Option<Error>)
      requires ConfigOk(c) && Sized(c, State())
      modifies this`ports, this`writeRoutes, this`nextAw, this`h
      ensures State() == GrantWrite(c, old(State())).s
      ensures Reports(error, GrantWrite(c, old(State())))
    {
      hide InitRoute, Pick, MemOk;
      if |writeRoutes| != c.routeDepth {
        var pick := RoundRobin(AwWaiting(ports), nextAw);
        if pick.Some? {
          var init := InitializeRoute(pick.value, ports[pick.value].aw[0]);
          if init.Refused? {
            return Some(init.error);
          }
          ports := ports[pick.value := ports[pick.value].(aw := ports[pick.value].aw[1..])];
          writeRoutes := Push(writeRoutes, c.routeDepth, WriteRoute(init.route, [], Okay, None, 0, false));
          nextAw := (pick.value + 1) % c.ports;
          h := h.(wgrants := h.wgrants + [init.route]);
        }
      }
      error := None;
    }

    method ArbitrateReads() returns (error: Option<Error>)
      requires ConfigOk(c) && Sized(c, State())
      modifies this`ports, this`readRoutes, this`nextAr, this`h
      ensures State() == GrantRead(c, old(State())).s
      ensures Reports(error, GrantRead(c, old(State())))
    {
      hide InitRoute, Pick, MemOk;
      if |readRoutes| != c.routeDepth {
        var pick := RoundRobin(ArWaiting(ports), nextAr);
        if pick.Some? {
          var init := InitializeRoute(pick.value, ports[pick.value].ar[0]);
          if init.Refused? {
            return Some(init.error);
          }
          ports := ports[pick.value := ports[pick.value].(ar := ports[pick.value].ar[1..])];
          readRoutes := Push(readRoutes, c.routeDepth, ReadRoute(init.route, 0));
          nextAr := (pick.value + 1) % c.ports;
          h := h.(rgrants := h.rgrants + [init.route]);
        }
      }
      error := None;
    }

    /** `initialize_route`: shape, page, width and exclusive checks, and a decode
        that looks at every enabled byte of the burst. */
    method InitializeRoute(port: nat, payload: AddressPayload) returns (r: RouteResult)
      requires ConfigOk(c)
      ensures r == InitRoute(c, port, payload)
    {
      if !ShapeOk(c.width, payload) {
        return Refused(BadBurst);
      }
      var inPage := Validate4K(c.width, payload);
      if !inPage {
        return Refused(BadBurst);
      }
      var tooWide, mapping := DecodeBurst(payload);
      if tooWide {
        return Refused(AddressWidth);
      }
      if payload.lock && !ExclusiveShape(payload) {
        return Refused(BadExclusive);
      }
      var forced := Okay;
      if mapping.None? {
        forced := DecodeError;
      } else if Beats(payload) > 1 && !SupportsBurst(c.devices[c.mappings[mapping.value].device]) {
        forced := SlaveError;
      }
      if payload.lock &&
         (mapping.None? || !SupportsExclusive(c.devices[c.mappings[mapping.value].device])) {
        forced := SlaveError;
      }
      r := Routable(Route(port, payload, mapping, forced));
    }

    /** The decode loop of `initialize_route` over every enabled byte. */
    method DecodeBurst(p: AddressPayload) returns (tooWide: bool, mapping: Option<nat>)
      requires ConfigOk(c) && BurstOk(c, p)
      ensures tooWide <==> TooWide(c, p)
      ensures !tooWide ==> mapping == Decode(c, p)
    {
      hide Decoding, Saw, Decode, Scan, Lo, Hi;
      mapping := None;
      var failed := false;
      ghost var seen: set<int> := {};
      DecodeStart(c, p);
      var beat := 0;
      while beat < Beats(p)
        invariant 0 <= beat <= Beats(p)
        invariant Decoding(c, seen, mapping, failed) && Saw(p, beat, seen)
      {
        BeatWindow(c.width, p, beat);
        var base := AlignDown(BeatAddress(p, beat), c.width);
        var mask := LaneMask(c.width, p, beat);
        var lane := 0;
        while lane < c.width
          invariant 0 <= lane <= c.width
          invariant Decoding(c, seen, mapping, failed) && Saw(p, beat, seen)
          invariant forall a | Lo(p, beat) <= a < Hi(p, beat) && a < base + lane :: a in seen
        {
          if mask[lane] {
            if base + lane > AddressLimit(c) {
              assert Enabled(p, beat, base + lane);
              return true, None;
            }
            var current := Scan(c.mappings, base + lane, 1);
            DecodeNext(c, seen, base + lane, mapping, failed);
            SawNext(p, beat, seen, base + lane);
            seen := seen + {base + lane};
            if current.None? || (mapping.Some? && current != mapping) {
              failed := true;
            } else if mapping.None? {
              mapping := current;
            }
          }
          lane := lane + 1;
        }
        SawBeat(p, beat, seen);
        beat := beat + 1;
      }
      tooWide := false;
      DecodeDone(c, p, seen, mapping, failed);
      if failed {
        mapping := None;
      }
    }

    // ---- phase 5 -------------------------------------------------------------------------------

    method ProcessWriteBeat(reply: Reply) returns (error: Option<Error>)
      requires Valid()
      modifies this`ports, this`writeRoutes, this`mem, this`monitors, this`suppressRead, this`h
      ensures State() == WriteStep(c, old(State()), reply).s
      ensures Reports(error, WriteStep(c, old(State()), reply))
    {
      hide WriteCommit;
      if writeRoutes == [] {
        return None;
      }
      var f := writeRoutes[0];
      assert WriteOk(c, f);
      RouteFacts(c, f.route);
      if f.dataComplete {
        ProcessWriteCommit(reply);
        return None;
      }
      var payload, beatIndex := f.route.payload, |f.staged|;
      var final := beatIndex + 1 == Beats(payload);
      var source := ports[f.route.port].w;
      if source == [] {
        return None;
      }
      var beat := source[0];
      assert BeatSized(c, beat);
      if beat.last != final {
        return Some(if final then LastMissing else LastEarly);
      }
      var legal := CheckStrobes(payload, beatIndex, beat.strobe);
      if !legal {
        return Some(BadStrobe);
      }
      StageBase(c, State());
      ports := ports[f.route.port := ports[f.route.port].(w := source[1..])];
      writeRoutes := writeRoutes[0 := f.(staged := f.staged + [Staged(beat.data, beat.strobe)], dataComplete := final)];
      assert State() == StageBeat(c, old(State()));
      if final {
        ProcessWriteCommit(reply);
      }
      error := None;
    }

    method CheckStrobes(p: AddressPayload, k: nat, strobe: seq<byte>) returns (legal: bool)
      requires ConfigOk(c) && BurstOk(c, p) && k < Beats(p) && |strobe| == c.width
      ensures legal <==> StrobesLegal(c, p, k, strobe)
    {
      var lanes := LaneMask(c.width, p, k);
      var lane := 0;
      while lane < c.width
        invariant 0 <= lane <= c.width
        invariant forall l | 0 <= l < lane && strobe[l] != 0 :: lanes[l]
      {
        if strobe[lane] != 0 && !lanes[lane] {
          return false;
        }
        lane := lane + 1;
      }
      legal := true;
    }

    method ProcessWriteCommit(reply: Reply)
      requires Valid() && writeRoutes != [] && writeRoutes[0].dataComplete
      modifies this`ports, this`writeRoutes, this`mem, this`monitors, this`suppressRead, this`h
      ensures State() == WriteCommit(c, old(State()), reply)
    {
      hide BeatEffect, BeatFront, ExclusiveEffect, ExclusiveAnswer, CompleteWrite, RoutesOk;
      FrontWriteOk(c, State());
      var f := writeRoutes[0];
      if |ports[f.route.port].b| == c.responseDepth {
        return;
      }
      if f.route.payload.lock {
        FinishExclusiveWrite(reply);
        return;
      }
      if !f.route.forced.Okay? {
        CompleteWriteRoute(f.(response := Combine(f.response, f.route.forced)));
        return;
      }
      CommitOneBeat(reply);
    }

    method CommitOneBeat(reply: Reply)
      requires Valid() && Committing(c, State())
      modifies this`ports, this`writeRoutes, this`mem, this`monitors, this`suppressRead, this`h
      ensures State() == CommitBeat(c, old(State()), reply)
    {
      hide BeatEffect, CompleteWrite, RoutesOk, FifosOk;
      CommittingFacts(c, State());
      var f := writeRoutes[0];
      var response := WriteDeviceBeat(reply);
      var device := c.devices[c.mappings[f.route.mapping.value].device];
      var used := Lo(f.route.payload, f.commitBeat) != Hi(f.route.payload, f.commitBeat);
      var f1 := f.(
        response := Combine(f.response, response),
        exit := if used && Success(response) && device.Peripheral? && device.exit then Some(reply.exitCode) else f.exit,
        commitBeat := if Success(response) then f.commitBeat + 1 else Beats(f.route.payload));
      assert f1 == BeatFront(c, old(State()), reply);
      if f1.commitBeat == Beats(f.route.payload) {
        CompleteWriteRoute(f1);
      } else {
        writeRoutes := writeRoutes[0 := f1];
      }
    }

    method CompleteWriteRoute(f: WriteRoute)
      requires Sized(c, State()) && writeRoutes != [] && f.route.port < c.ports
      modifies this`ports, this`writeRoutes, this`h
      ensures State() == CompleteWrite(c, old(State()), f)
    {
      var response := WriteResponse(f.route.payload.id, f.response, f.exit);
      var port := ports[f.route.port];
      ports := ports[f.route.port := port.(b := Push(port.b, c.responseDepth, response))];
      writeRoutes := writeRoutes[1..];
      h := h.(done := h.done + [DoneWrite(f.staged, response)]);
    }

    /** `write_device_beat`: the enabled lanes of the beat go to the device in one call. */
    method WriteDeviceBeat(reply: Reply) returns (response: Response)
      requires Committing(c, State())
      modifies this`mem, this`monitors, this`suppressRead, this`h
      ensures State() == BeatEffect(c, old(State()), reply)
      ensures Mapped(c, writeRoutes[0].route) &&
              response == BeatAnswer(c, writeRoutes[0].route, writeRoutes[0].commitBeat, reply)
    {
      hide RoutesOk, FifosOk, Lanes, Touched, StoreAt, DeviceAnswer, Invalidate, ConfigOk, MemOk, Beats,
           BeatAddress, BeatEnd, F.InitRoute;
      CommittingFacts(c, State());
      suppressRead := true;
      var f := writeRoutes[0];
      var k, p := f.commitBeat, f.route.payload;
      var st := f.staged[k];
      var lo, data, strobe := BeatLanes(p, k, st);
      if |data| == 0 {
        return Okay;
      }
      BeatInWindow(c, f.route, k);
      ghost var access := DeviceWrite(|h.done|, f.route.mapping.value, lo - c.mappings[f.route.mapping.value].base,
                                      data, strobe);
      response := WriteToDevice(f.route, lo, data, strobe, reply);
      assert response == BeatAnswer(c, f.route, k, reply) && mem == StoreBeat(c, old(mem), f.route, k, st);
      if Success(response) {
        InvalidateRange(lo, strobe, Touched(c, p, k, st));
        h := h.(events := h.events + [BusWrite(Touched(c, p, k, st))], accesses := h.accesses + [access],
                replies := h.replies + [reply]);
      } else {
        h := h.(accesses := h.accesses + [access], replies := h.replies + [reply]);
      }
    }

    /** First address, data and strobes of the enabled lanes of a staged beat. */
    method BeatLanes(p: AddressPayload, k: nat, st: Staged) returns (lo: nat, data: seq<byte>, strobe: seq<bool>)
      requires ConfigOk(c) && BurstOk(c, p) && k < Beats(p) && StagedOk(c, st)
      ensures |data| == |strobe| == Hi(p, k) - Lo(p, k)
      ensures |data| > 0 ==>
                lo == Lo(p, k) && data == Lanes(c, p, k, st.data) && strobe == Lanes(c, p, k, Strobes(st.strobe))
      ensures |data| > 0 ==> forall a :: a in Touched(c, p, k, st) <==> lo <= a < lo + |strobe| && strobe[a - lo]
    {
      hide BeatAddress, BeatEnd, Lanes, Touched, Lo, Hi, AlignDown, SpaceOk;
      var lanes := LaneMask(c.width, p, k);
      var first, count := EnabledExtent(lanes);
      ExtentOfBeat(c.width, p, k, lanes, first, count);
      lo, data, strobe := 0, [], [];
      if count > 0 {
        var effective := EffectiveStrobes(lanes, st.strobe);
        LanesOfExtent(c, p, k, first, count, st, lanes, effective);
        lo := AlignDown(BeatAddress(p, k), c.width) + first;
        data, strobe := st.data[first..first + count], effective[first..first + count];
      }
    }

    method EffectiveStrobes(lanes: seq<bool>, strobe: seq<byte>) returns (effective: seq<bool>)
      requires |lanes| == |strobe|
      ensures |effective| == |lanes|
      ensures forall i | 0 <= i < |lanes| :: effective[i] <==> lanes[i] && strobe[i] != 0
    {
      effective := [];
      var lane := 0;
      while lane < |lanes|
        invariant 0 <= lane <= |lanes| && |effective| == lane
        invariant forall i | 0 <= i < lane :: effective[i] <==> lanes[i] && strobe[i] != 0
      {
        effective := effective + [lanes[lane] && strobe[lane] != 0];
        lane := lane + 1;
      }
    }

    /** One `Device::write` through r's mapping, at bus address `lo`. */
    method WriteToDevice(r: Route, lo: nat, data: seq<byte>, strobe: seq<bool>, reply: Reply)
      returns (response: Response)
      requires Mapped(c, r) && MemOk(c, mem) && |data| == |strobe| && c.mappings[r.mapping.value].base <= lo
      modifies this`mem
      ensures mem == StoreAt(c, old(mem), r, lo, data, strobe)
      ensures response == DeviceAnswer(c, r, lo + |data|, reply)
    {
      var m := c.mappings[r.mapping.value];
      var offset := lo - m.base;
      match c.devices[m.device]
      case Ram(size) =>
        if offset + |data| <= size {
          mem := mem[m.device := Store(mem[m.device], offset, data, strobe)];
          response := Okay;
        } else {
          response := SlaveError;
        }
      case Rom(_) =>
        response := SlaveError;
      case Peripheral(_, _, _) =>
        response := reply.response;
    }

    /** `invalidate_monitors` for one byte. */
    method InvalidateMonitors(byteAddress: int)
      modifies this`monitors
      ensures monitors == Invalidate(old(monitors), {byteAddress})
    {
      var i := 0;
      ghost var before := monitors;
      while i < |monitors|
        invariant 0 <= i <= |monitors| == |before|
        invariant forall j | 0 <= j < i :: monitors[j] == Invalidate(before, {byteAddress})[j]
        invariant forall j | i <= j < |monitors| :: monitors[j] == before[j]
      {
        if monitors[i].Held? && Guards(monitors[i].payload, byteAddress) {
          assert byteAddress in {byteAddress};
          monitors := monitors[i := Free];
        }
        i := i + 1;
      }
      assert monitors == Invalidate(before, {byteAddress});
    }

    /** Breaks every reservation that covers a strobed byte of [lo, lo + |strobe|). */
    method InvalidateRange(lo: nat, strobe: seq<bool>, ghost touched: set<int>)
      requires forall a :: a in touched <==> lo <= a < lo + |strobe| && strobe[a - lo]
      modifies this`monitors
      ensures monitors == Invalidate(old(monitors), touched)
    {
      ghost var before := monitors;
      ghost var broken: set<int> := {};
      InvalidateNone(before);
      var i := 0;
      while i < |strobe|
        invariant 0 <= i <= |strobe|
        invariant monitors == Invalidate(before, broken)
        invariant forall a :: a in broken <==> a in touched && a < lo + i
      {
        if strobe[i] {
          InvalidateTwice(before, broken, {lo + i});
          InvalidateMonitors(lo + i);
          broken := broken + {lo + i};
        }
        i := i + 1;
      }
      forall a ensures a in broken <==> a in touched {}
    }

    // ---- exclusive writes ----------------------------------------------------------------------

    method FindMonitorSlot(port: nat, id: u64) returns (slot: Option<nat>)
      ensures slot == FindMonitor(monitors, port, id, 0)
    {
      var i := 0;
      while i < |monitors|
        invariant 0 <= i <= |monitors|
        invariant FindMonitor(monitors, port, id, 0) == FindMonitor(monitors, port, id, i)
      {
        if monitors[i].Held? && monitors[i].port == port && monitors[i].payload.id == id {
          return Some(i);
        }
        i := i + 1;
      }
      slot := None;
    }

    method ClearKey(port: nat, id: u64)
      modifies this`monitors
      ensures monitors == ClearMonitor(old(monitors), port, id)
    {
      var slot := FindMonitorSlot(port, id);
      if slot.Some? {
        monitors := monitors[slot.value := Free];
      }
    }

    method FinishExclusiveWrite(reply: Reply)
      requires Valid() && Finishing(c, State())
      modifies this`ports, this`writeRoutes, this`mem, this`monitors, this`suppressRead, this`h
      ensures State() == FinishExclusive(c, old(State()), reply)
    {
      hide CompleteWrite, RoutesOk, FifosOk, ExclusiveEffect, ExclusiveAnswer;
      FinishingFacts(c, State());
      var f := writeRoutes[0];
      var response := DecideExclusive(reply);
      CompleteWriteRoute(f.(response := response));
    }

    /** The reservation is looked up, the gathered write made if it stands, and the
        key's monitor cleared in every case. */
    method DecideExclusive(reply: Reply) returns (response: Response)
      requires Finishing(c, State())
      modifies this`mem, this`monitors, this`suppressRead, this`h
      ensures State() == ExclusiveEffect(c, old(State()), reply)
      ensures response == ExclusiveAnswer(c, old(State()), reply)
    {
      hide RoutesOk, FifosOk, GatherData, GatherStrobe, GatherTouched, StoreAt, DeviceAnswer, FindMonitor,
           Invalidate, ConfigOk, MemOk, ClearMonitor, Beats, Total, BeatBytes, F.InitRoute, F.BurstOk;
      FinishingFacts(c, State());
      var f := writeRoutes[0];
      var p := f.route.payload;
      suppressRead := true;
      var slot := FindMonitorSlot(f.route.port, p.id);
      if f.route.forced.Okay? && slot.Some? && monitors[slot.value].payload == p {
        response := GatheredWrite(f, reply);
      } else {
        response := f.route.forced;
        h := h.(events := h.events + [ExclusiveWrite(|h.done|, f.route, response, mem)]);
      }
      ClearKey(f.route.port, p.id);
    }

    /** One device write of the whole transfer, and the reservations it breaks. */
    method GatheredWrite(f: WriteRoute, reply: Reply) returns (response: Response)
      requires MemOk(c, mem) && RouteOk(c, f.route) && f.route.forced.Okay? && f.route.payload.lock
      requires Mapped(c, f.route) && AllStaged(c, f.route.payload, f.staged)
      modifies this`mem, this`monitors, this`h
      ensures var p := f.route.payload;
              var data, strobe := GatherData(c, p, f.staged), GatherStrobe(c, p, f.staged);
              var answer := DeviceAnswer(c, f.route, p.address + Total(p), reply);
              && response == (if Success(answer) then ExclusiveOkay else answer)
              && mem == StoreAt(c, old(mem), f.route, p.address, data, strobe)
              && monitors == (if Success(answer) then Invalidate(old(monitors), GatherTouched(p, strobe))
                              else old(monitors))
              && h == old(h).(
                   events := old(h).events + [ExclusiveWrite(|old(h).done|, f.route, response, old(mem))]
                             + (if Success(answer) then [BusWrite(GatherTouched(p, strobe))] else []),
                   accesses := old(h).accesses + [DeviceWrite(|old(h).done|, f.route.mapping.value,
                                                  p.address - MappingOf(c, f.route).base, data, strobe)],
                   replies := old(h).replies + [reply])
    {
      hide GatherData, GatherStrobe, GatherTouched, StoreAt, DeviceAnswer, Invalidate, MemOk;
      var p := f.route.payload;
      RouteFacts(c, f.route);
      ExclusiveStart(c, f.route);
      var data, strobe := Gather(p, f.staged);
      ghost var access := DeviceWrite(|h.done|, f.route.mapping.value,
                                      p.address - c.mappings[f.route.mapping.value].base, data, strobe);
      var answer := WriteToDevice(f.route, p.address, data, strobe, reply);
      response := if Success(answer) then ExclusiveOkay else answer;
      ghost var decided := h.events + [ExclusiveWrite(|h.done|, f.route, response, old(mem))];
      if Success(answer) {
        TouchedMembers(p, strobe);
        InvalidateRange(p.address, strobe, GatherTouched(p, strobe));
        h := h.(events := decided + [BusWrite(GatherTouched(p, strobe))], accesses := h.accesses + [access],
                replies := h.replies + [reply]);
      } else {
        h := h.(events := decided + [], accesses := h.accesses + [access], replies := h.replies + [reply]);
      }
    }

    /** Collects the staged beats into one contiguous transfer. */
    method Gather(p: AddressPayload, staged: seq<Staged>) returns (data: seq<byte>, strobe: seq<bool>)
      requires ConfigOk(c) && BurstOk(c, p) && ExclusiveShape(p) && AllStaged(c, p, staged)
      ensures data == GatherData(c, p, staged) && strobe == GatherStrobe(c, p, staged)
    {
      hide SpaceOk, BeatAddress, Hi;
      data := seq(Total(p), _ => 0);
      strobe := seq(Total(p), _ => false);
      var beat := 0;
      forall i | 0 <= i < Total(p) ensures !GatheredBefore(p, 0, 0, i) { DivNonNeg(i, BeatBytes(p)); }
      while beat < Beats(p)
        invariant 0 <= beat <= Beats(p)
        invariant |data| == |strobe| == Total(p)
        invariant Gathered(c, p, staged, beat, 0, data, strobe)
      {
        BeatWindow(c.width, p, beat);
        var base := AlignDown(BeatAddress(p, beat), c.width);
        var lanes := LaneMask(c.width, p, beat);
        GatherBeatStart(c, p, staged, beat, base, data, strobe);
        var lane := 0;
        while lane < c.width
          invariant 0 <= lane <= c.width
          invariant |data| == |strobe| == Total(p)
          invariant Gathered(c, p, staged, beat, base + lane, data, strobe)
        {
          GatherLane(c, p, staged, beat, lane, data, strobe);
          if lanes[lane] {
            var index := base + lane - p.address;
            data := data[index := staged[beat].data[lane]];
            strobe := strobe[index := staged[beat].strobe[lane] != 0];
          }
          lane := lane + 1;
        }
        GatherBeatEnd(c, p, staged, beat, base + c.width, data, strobe);
        beat := beat + 1;
      }
      GatherComplete(c, p, staged, data, strobe);
    }

    // ---- phase 6 -------------------------------------------------------------------------------

    method ProcessReadBeat(reply: Reply) returns (error: Option<Error>)
      requires Valid()
      modifies this`ports, this`readRoutes, this`monitors, this`h
      ensures State() == ReadStep(c, old(State()), reply).s
      ensures Reports(error, ReadStep(c, old(State()), reply))
    {
      hide ServeRead, Establish;
      if readRoutes == [] {
        return None;
      }
      var f := readRoutes[0];
      assert ReadOk(c, f);
      if |ports[f.route.port].r| == c.responseDepth {
        return None;
      }
      if f.route.payload.lock && f.beat == 0 && f.route.forced.Okay? {
        EstablishBase(c, State(), f.route);
        error := EstablishMonitor(f.route);
        if error.Some? {
          return;
        }
      }
      ServeReadBeat(reply);
      error := None;
    }

    method EstablishMonitor(r: Route) returns (error: Option<Error>)
      requires Sized(c, State())
      modifies this`monitors, this`h
      ensures State() == Establish(c, old(State()), r).s
      ensures Reports(error, Establish(c, old(State()), r))
    {
      var slot := FindMonitorSlot(r.port, r.payload.id);
      if slot.None? {
        var i := 0;
        while i < |monitors|
          invariant 0 <= i <= |monitors|
          invariant FindFree(monitors, 0) == FindFree(monitors, i)
          invariant slot == None
        {
          if monitors[i].Free? {
            slot := Some(i);
            break;
          }
          i := i + 1;
        }
        assert slot == FindFree(monitors, 0);
      }
      if slot.None? {
        return Some(MonitorsFull);
      }
      monitors := monitors[slot.value := Held(r.port, r.payload)];
      h := h.(events := h.events + [Reserve(r.port, r.payload, mem, |h.served|)]);
      error := None;
    }

    method ServeReadBeat(reply: Reply)
      requires Sized(c, State()) && RoutesOk(c, State()) && readRoutes != []
      modifies this`ports, this`readRoutes, this`h
      ensures State() == ServeRead(c, old(State()), reply)
    {
      hide ServedBeat, ReadAccess, FifosOk, RoutesOk, MemOk, ConfigOk, InitRoute, Push, Beats, ShapeOk, F.Decode,
           F.SupportsBurst, F.Mapped, F.Routed, F.BurstOk, F.Forced, BusWidth;
      FrontReadOk(c, State());
      var f := readRoutes[0];
      RouteFacts(c, f.route);
      var p := f.route.payload;
      var out, access := ReadOneBeat(f.route, f.beat, reply);
      h := h.(served := h.served + [Served(f.route, f.beat, |h.done|, |h.events|, reply, out)],
              accesses := h.accesses + access, replies := h.replies + if access == [] then [] else [reply]);
      var port := ports[f.route.port];
      ports := ports[f.route.port := port.(r := Push(port.r, c.responseDepth, out))];
      readRoutes := if f.beat + 1 == Beats(p) then readRoutes[1..] else readRoutes[0 := f.(beat := f.beat + 1)];
    }

    /** The response of one read beat; a forced response reads no device. */
    method ReadOneBeat(r: Route, k: nat, reply: Reply) returns (out: ReadBeat, ghost access: seq<Access>)
      requires RouteOk(c, r) && MemOk(c, mem) && k < Beats(r.payload)
      ensures out == ServedBeat(c, mem, r, k, reply) && access == ReadAccess(c, r, k)
    {
      hide ReadWord, ReadAnswer, Lanes, Mask;
      RouteFacts(c, r);
      access := [];
      out := ReadBeat(r.payload.id, seq(c.width, _ => 0), r.forced, k + 1 == Beats(r.payload));
      if r.forced.Okay? {
        var response, word, used := ReadDevice(r, k, reply);
        access := used;
        out := out.(data := word, response := if r.payload.lock && response.Okay? then ExclusiveOkay else response);
      }
    }

    /** The device read of one beat: only the extent of enabled lanes is filled. */
    method ReadDevice(r: Route, k: nat, reply: Reply)
      returns (response: Response, word: seq<byte>, ghost access: seq<Access>)
      requires RouteOk(c, r) && Mapped(c, r) && MemOk(c, mem) && k < Beats(r.payload) && r.forced.Okay?
      ensures response == ReadAnswer(c, r, k, reply) && word == ReadWord(c, mem, r, k, reply)
      ensures access == ReadAccess(c, r, k)
    {
      hide ReadWord, Lanes, Mask, InitRoute, BeatAddress, BeatEnd, AlignDown, ShapeOk, SpaceOk, Hi;
      var p, m := r.payload, c.mappings[r.mapping.value];
      word := seq(c.width, _ => 0);
      var lanes := LaneMask(c.width, p, k);
      var first, count := EnabledExtent(lanes);
      ExtentOfBeat(c.width, p, k, lanes, first, count);
      if count == 0 {
        ReadWordEmpty(c, mem, r, k, reply);
        assert word == ReadWord(c, mem, r, k, reply);
        return Okay, word, [];
      }
      BeatInWindow(c, r, k);
      var offset := AlignDown(BeatAddress(p, k), c.width) + first - m.base;
      access := [DeviceRead(r.mapping.value, offset, lanes[first..first + count])];
      ReadLanesAre(c, p, k, lanes, first, count);
      var device := c.devices[m.device];
      response := if device.Peripheral? then reply.response
                  else if offset + count <= device.size then Okay else SlaveError;
      var source := if device.Peripheral? then Padded(reply.data, count)
                    else if response.Okay? then mem[m.device][offset..offset + count] else seq(count, _ => 0);
      ReadWordIs(c, mem, r, k, reply, first, source);
      var i := 0;
      while i < count
        invariant 0 <= i <= count && |word| == c.width
        invariant forall lane | 0 <= lane < c.width ::
                  word[lane] == if first <= lane < first + i then source[lane - first] else 0
      {
        word := word[first + i := source[i]];
        i := i + 1;
      }
      assert word == ReadWord(c, mem, r, k, reply);
    }

    // ---- commit --------------------------------------------------------------------------------

    method Reset()
      requires Valid()
      modifies this
      ensures State() == ResetState(c, old(State())) && Valid()
    {
      ResetBase(c, State());
      ports := seq(c.ports, _ => EmptyPort());
      readRoutes, writeRoutes := [], [];
      monitors := seq(c.routeDepth, _ => Free);
      nextAw, nextAr, suppressRead, exit := 0, 0, false, None;
      h := FreshHistory(c, mem);
    }

    /** The three phases that talk to the masters. */
    method Ingest(inputs: seq<Master>) returns (error: Option<Error>)
      requires Valid() && InputsOk(c, inputs)
      modifies this`ports, this`exit, this`h
      ensures State() == Ingress(c, old(State()), inputs).s && Valid()
      ensures Reports(error, Ingress(c, old(State()), inputs))
    {
      hide F.CheckStability, Retire, Accept, RoutesOk, FifosOk;
      CheckBase(c, State(), inputs, 0);
      error := CheckStability(inputs);
      if error.Some? { return; }
      RetireBase(c, State(), inputs, 0);
      error := RetireResponses(inputs);
      if error.Some? { return; }
      AcceptBase(c, State(), inputs, 0);
      error := AcceptIngress(inputs);
    }

    /** At most one write beat, then at most one read beat unless suppressed. */
    method ProcessBeats(reply: Reply) returns (error: Option<Error>)
      requires Valid()
      modifies this`ports, this`readRoutes, this`writeRoutes, this`mem, this`monitors, this`suppressRead, this`h
      ensures State() == Process(c, old(State()), reply).s && Valid()
      ensures Reports(error, Process(c, old(State()), reply))
    {
      hide WriteStep, ReadStep, RoutesOk, FifosOk;
      suppressRead := false;
      assert State() == Unsuppress(c, old(State()));
      WriteStepBase(c, State(), reply);
      error := ProcessWriteBeat(reply);
      if error.Some? { return; }
      if !suppressRead {
        ReadStepBase(c, State(), reply);
        error := ProcessReadBeat(reply);
      }
    }

    /** `commit`: the whole cycle, stopping at the first error. */
    method Commit(inputs: seq<Master>, reset: bool, reply: Reply) returns (error: Option<Error>)
      requires Valid() && InputsOk(c, inputs)
      modifies this
      ensures State() == R.Commit(c, old(State()), inputs, reset, reply).s && Valid()
      ensures Reports(error, R.Commit(c, old(State()), inputs, reset, reply))
    {
      hide Ingress, Process, Arbitrate, RoutesOk, FifosOk;
      if reset {
        ResetTo();
        return None;
      }
      wasReset := false;
      assert State() == Awake(c, old(State()));
      error := Ingest(inputs);
      if error.Some? { return; }
      error := ArbitrateAddresses();
      if error.Some? { return; }
      error := ProcessBeats(reply);
      if error.Some? { return; }
      ghost var processed := State();
      cycle := cycle + 1;
      assert State() == Tick(c, processed);
    }

    method ResetTo()
      requires Valid()
      modifies this
      ensures State() == ResetCycle(c, old(State())) && Valid()
    {
      if !wasReset {
        Reset();
      }
      wasReset := true;
      cycle := cycle + 1;
    }
  }

  // ---- monitors ----------------------------------------------------------------------------------

  lemma InvalidateNone(ms: seq<Monitor>)
    ensures Invalidate(ms, {}) == ms
  {}

  lemma InvalidateTwice(ms: seq<Monitor>, a: set<int>, b: set<int>)
    ensures Invalidate(Invalidate(ms, a), b) == Invalidate(ms, a + b)
  {
    forall i | 0 <= i < |ms| ensures Invalidate(Invalidate(ms, a), b)[i] == Invalidate(ms, a + b)[i] {
      if Hit(ms[i], a) {
        var x :| x in a && Guards(ms[i].payload, x);
        assert x in a + b;
      } else if Hit(ms[i], b) {
        var x :| x in b && Guards(ms[i].payload, x);
        assert x in a + b;
      }
    }
  }

  lemma TouchedMembers(p: AddressPayload, strobe: seq<bool>)
    ensures forall a :: a in GatherTouched(p, strobe) <==>
            p.address <= a < p.address + |strobe| && strobe[a - p.address]
  {
    forall a ensures a in GatherTouched(p, strobe) <==> StrobedAt(p, strobe, a) {}
  }

  lemma TouchedIff(c: Config, p: AddressPayload, k: nat, st: Staged, a: int)
    requires BusWidth(c.width) && ShapeOk(c.width, p) && StagedOk(c, st)
    ensures a in Touched(c, p, k, st) <==>
            Lo(p, k) <= a < Hi(p, k) && Lo(p, k) % c.width + (a - Lo(p, k)) < c.width &&
            st.strobe[Lo(p, k) % c.width + (a - Lo(p, k))] != 0
  {
    hide BeatAddress, BeatEnd;
    LanesFit(c, p, k);
    if Lo(p, k) <= a < Hi(p, k) { LaneInWord(c.width, Lo(p, k), a); }
  }

  /** The lanes of the extent are the lanes of the beat, with their strobes. */
  lemma LanesOfExtent(c: Config, p: AddressPayload, k: nat, first: nat, count: nat, st: Staged, lanes: seq<bool>,
                      effective: seq<bool>)
    requires BusWidth(c.width) && ShapeOk(c.width, p) && StagedOk(c, st)
    requires |lanes| == |effective| == c.width && count == Hi(p, k) - Lo(p, k) && first + count <= c.width
    requires AlignDown(BeatAddress(p, k), c.width) + first == Lo(p, k)
    requires forall i | first <= i < first + count :: lanes[i]
    requires forall i | 0 <= i < c.width :: effective[i] <==> lanes[i] && st.strobe[i] != 0
    ensures st.data[first..first + count] == Lanes(c, p, k, st.data)
    ensures effective[first..first + count] == Lanes(c, p, k, Strobes(st.strobe))
    ensures forall a :: a in Touched(c, p, k, st) <==>
            Lo(p, k) <= a < Lo(p, k) + count && effective[first + (a - Lo(p, k))]
  {
    hide BeatAddress, BeatEnd, Touched, Hi, BusWidth;
    LanesFit(c, p, k);
    assert first == Lo(p, k) % c.width;
    forall a
      ensures a in Touched(c, p, k, st) <==> Lo(p, k) <= a < Lo(p, k) + count && effective[first + (a - Lo(p, k))]
    {
      TouchedIff(c, p, k, st, a);
    }
  }

  // ---- read data -----------------------------------------------------------------------------------

  function Padded(data: seq<byte>, count: nat): (r: seq<byte>)
    ensures |r| == count
  {
    seq(count, i requires 0 <= i < count => if i < |data| then data[i] else 0)
  }

  /** The lanes handed to the device are the lanes of the beat. */
  lemma ReadLanesAre(c: Config, p: AddressPayload, k: nat, lanes: seq<bool>, first: nat, count: nat)
    requires ConfigOk(c) && BurstOk(c, p) && k < Beats(p) && |lanes| == c.width
    requires forall lane | 0 <= lane < c.width ::
               lanes[lane] <==> Lo(p, k) <= AlignDown(BeatAddress(p, k), c.width) + lane < Hi(p, k)
    requires AlignDown(BeatAddress(p, k), c.width) + first == Lo(p, k) && count == Hi(p, k) - Lo(p, k)
    requires first + count <= c.width
    ensures lanes[first..first + count] == Lanes(c, p, k, Mask(c.width, p, k))
  {
    hide BeatAddress, BeatEnd, Hi, LaneEnabled;
    assert BeatAddress(p, k) < TWO64;
    var mask := Mask(c.width, p, k);
    forall lane | 0 <= lane < c.width ensures lanes[lane] == mask[lane] { LaneMaskIsInterval(c.width, p, k, lane); }
    assert lanes == mask;
    assert first == Lo(p, k) % c.width;
  }

  lemma ReadWordEmpty(c: Config, mem: Mem, r: Route, k: nat, reply: Reply)
    requires Mapped(c, r) && MemOk(c, mem) && EmptyBeat(r.payload, k)
    ensures ReadWord(c, mem, r, k, reply) == seq(c.width, _ => 0)
  {}

  /** The word on the bus: the device's bytes on the extent, zero elsewhere. */
  lemma ReadWordIs(c: Config, mem: Mem, r: Route, k: nat, reply: Reply, first: nat, source: seq<byte>)
    requires Mapped(c, r) && MemOk(c, mem) && MappingOf(c, r).base <= Lo(r.payload, k)
    requires AlignDown(BeatAddress(r.payload, k), c.width) + first == Lo(r.payload, k)
    requires |source| == Hi(r.payload, k) - Lo(r.payload, k)
    requires var offset := Lo(r.payload, k) - MappingOf(c, r).base;
             var d := MappingOf(c, r).device;
             source == if DeviceOf(c, r).Peripheral? then Padded(reply.data, |source|)
                       else if offset + |source| <= |mem[d]| then mem[d][offset..offset + |source|]
                       else seq(|source|, _ => 0)
    ensures forall lane | 0 <= lane < c.width ::
              ReadWord(c, mem, r, k, reply)[lane] ==
                if first <= lane < first + |source| then source[lane - first] else 0
  {
    hide BeatAddress, BeatEnd, Hi, AlignDown, Within4K, ShapeOk, SpaceOk;
    forall lane | 0 <= lane < c.width
      ensures ReadWord(c, mem, r, k, reply)[lane] ==
              if first <= lane < first + |source| then source[lane - first] else 0
    {}
  }

  // ---- the gather loop -----------------------------------------------------------------------------

  /** Index i of the transfer belongs to an earlier beat, or to an address below limit. */
  ghost predicate GatheredBefore(p: AddressPayload, beat: nat, limit: int, i: nat) {
    i / BeatBytes(p) < beat || (i / BeatBytes(p) == beat && p.address + i < limit)
  }

  ghost predicate Gathered(c: Config, p: AddressPayload, staged: seq<Staged>, beat: nat, limit: int, data: seq<byte>,
                           strobe: seq<bool>)
    requires c.width > 0 && AllStaged(c, p, staged) && |data| == |strobe| == Total(p)
  {
    forall i | 0 <= i < Total(p) ::
      && data[i] == (if GatheredBefore(p, beat, limit, i) then GatherData(c, p, staged)[i] else 0)
      && strobe[i] == (if GatheredBefore(p, beat, limit, i) then GatherStrobe(c, p, staged)[i] else false)
  }

  lemma GatherBeatStart(c: Config, p: AddressPayload, staged: seq<Staged>, beat: nat, base: nat, data: seq<byte>,
                        strobe: seq<bool>)
    requires c.width > 0 && AllStaged(c, p, staged) && |data| == |strobe| == Total(p) && ExclusiveShape(p)
    requires base <= Lo(p, beat) && Gathered(c, p, staged, beat, 0, data, strobe)
    ensures Gathered(c, p, staged, beat, base, data, strobe)
  {
    forall i | 0 <= i < Total(p) ensures GatheredBefore(p, beat, base, i) <==> GatheredBefore(p, beat, 0, i) {
      ExclusiveBeatOf(p, beat, i);
    }
  }

  lemma GatherBeatEnd(c: Config, p: AddressPayload, staged: seq<Staged>, beat: nat, limit: nat, data: seq<byte>,
                      strobe: seq<bool>)
    requires c.width > 0 && AllStaged(c, p, staged) && |data| == |strobe| == Total(p) && ExclusiveShape(p)
    requires BeatEnd(p, beat) <= limit && Gathered(c, p, staged, beat, limit, data, strobe)
    ensures Gathered(c, p, staged, beat + 1, 0, data, strobe)
  {
    forall i | 0 <= i < Total(p) ensures GatheredBefore(p, beat + 1, 0, i) <==> GatheredBefore(p, beat, limit, i) {
      ExclusiveBeatOf(p, beat, i);
    }
  }

  /** One more lane of the beat: which index of the transfer it is, if any. */
  lemma GatherLimit(p: AddressPayload, beat: nat, a: nat, i: nat)
    requires ExclusiveShape(p)
    ensures GatheredBefore(p, beat, a + 1, i) <==>
            GatheredBefore(p, beat, a, i) || (p.address + i == a && Lo(p, beat) <= a < BeatEnd(p, beat))
  {
    ExclusiveBeatOf(p, beat, i);
  }

  lemma GatherByte(c: Config, p: AddressPayload, staged: seq<Staged>, beat: nat, lane: nat)
    requires ConfigOk(c) && BurstOk(c, p) && AllStaged(c, p, staged) && ExclusiveShape(p) && beat < Beats(p) &&
             lane < c.width
    ensures var a := AlignDown(BeatAddress(p, beat), c.width) + lane;
            Lo(p, beat) <= a < BeatEnd(p, beat) ==>
              && 0 <= a - p.address < Total(p)
              && (if a < Hi(p, beat) then
                    && GatherData(c, p, staged)[a - p.address] == staged[beat].data[lane]
                    && GatherStrobe(c, p, staged)[a - p.address] == (staged[beat].strobe[lane] != 0)
                  else GatherData(c, p, staged)[a - p.address] == 0 && !GatherStrobe(c, p, staged)[a - p.address])
  {
    hide BeatAddress, BeatEnd, AlignDown, GatherData, GatherStrobe;
    var a := AlignDown(BeatAddress(p, beat), c.width) + lane;
    if Lo(p, beat) <= a < BeatEnd(p, beat) {
      ExclusiveBeat(p, beat);
      MulNonNeg(beat, BeatBytes(p));
      ExclusiveBeatOf(p, beat, a - p.address);
      GatherAt(c, p, staged, a - p.address);
      LaneOfBase(c.width, BeatAddress(p, beat), lane);
      if a >= Hi(p, beat) { EmptyGather(c, p, staged, a - p.address); }
    }
  }

  /** What one more lane adds. */
  lemma GatherLane(c: Config, p: AddressPayload, staged: seq<Staged>, beat: nat, lane: nat, data: seq<byte>,
                   strobe: seq<bool>)
    requires ConfigOk(c) && BurstOk(c, p) && AllStaged(c, p, staged) && |data| == |strobe| == Total(p) &&
             ExclusiveShape(p)
    requires beat < Beats(p) && lane < c.width
    requires var base := AlignDown(BeatAddress(p, beat), c.width);
             Gathered(c, p, staged, beat, base + lane, data, strobe)
    ensures var a := AlignDown(BeatAddress(p, beat), c.width) + lane;
            if Lo(p, beat) <= a < Hi(p, beat) then
              && 0 <= a - p.address < Total(p)
              && Gathered(c, p, staged, beat, a + 1, data[a - p.address := staged[beat].data[lane]],
                          strobe[a - p.address := staged[beat].strobe[lane] != 0])
            else Gathered(c, p, staged, beat, a + 1, data, strobe)
  {
    hide GatherData, GatherStrobe, GatheredBefore, Lo, Hi, BeatEnd, AlignDown;
    var a := AlignDown(BeatAddress(p, beat), c.width) + lane;
    HiBelowEnd(p, beat);
    GatherByte(c, p, staged, beat, lane);
    forall i | 0 <= i < Total(p)
      ensures GatheredBefore(p, beat, a + 1, i) <==>
              GatheredBefore(p, beat, a, i) || (p.address + i == a && Lo(p, beat) <= a < BeatEnd(p, beat))
    {
      GatherLimit(p, beat, a, i);
    }
  }

  lemma HiBelowEnd(p: AddressPayload, k: nat)
    ensures Hi(p, k) <= BeatEnd(p, k)
  {}

  lemma EmptyGather(c: Config, p: AddressPayload, staged: seq<Staged>, i: nat)
    requires c.width > 0 && AllStaged(c, p, staged) && i < Total(p)
    requires 0 <= i / BeatBytes(p) && EmptyBeat(p, i / BeatBytes(p))
    ensures GatherData(c, p, staged)[i] == 0 && !GatherStrobe(c, p, staged)[i]
  {}

  lemma LaneOfBase(width: nat, a: nat, lane: nat)
    requires width > 0 && lane < width
    ensures (AlignDown(a, width) + lane) % width == lane
  {
    DivMod(a, width);
    DivModUnique(AlignDown(a, width) + lane, width, a / width, lane);
  }

  lemma GatherComplete(c: Config, p: AddressPayload, staged: seq<Staged>, data: seq<byte>, strobe: seq<bool>)
    requires c.width > 0 && AllStaged(c, p, staged) && |data| == |strobe| == Total(p)
    requires Gathered(c, p, staged, Beats(p), 0, data, strobe)
    ensures data == GatherData(c, p, staged) && strobe == GatherStrobe(c, p, staged)
  {
    forall i | 0 <= i < Total(p) ensures GatheredBefore(p, Beats(p), 0, i) { GatherIndex(p, i); }
  }

  // ---- the decode loop ---------------------------------------------------------------------------

  /** What the loop knows after looking at the bytes in `seen`. */
  ghost predicate Decoding(c: Config, seen: set<int>, mapping: Option<nat>, failed: bool) {
    && (mapping.Some? ==>
          mapping.value < |c.mappings| && exists a :: a in seen && c.mappings[mapping.value].Contains(a, 1))
    && (!failed ==> forall a | a in seen :: mapping.Some? && c.mappings[mapping.value].Contains(a, 1))
    && (failed ==> exists a :: a in seen && Clashes(c, a, mapping))
    && (forall a | a in seen :: a <= AddressLimit(c))
  }

  ghost predicate Clashes(c: Config, a: int, mapping: Option<nat>) {
    Scan(c.mappings, a, 1).None? || (mapping.Some? && Scan(c.mappings, a, 1) != mapping)
  }

  /** `seen` holds all enabled bytes of the beats before `beat`, and only enabled ones. */
  ghost predicate Saw(p: AddressPayload, beat: nat, seen: set<int>) {
    && (forall k: nat, a: int :: k < beat && Enabled(p, k, a) ==> a in seen)
    && (forall a | a in seen :: EnabledSomewhere(p, a))
  }

  ghost predicate EnabledSomewhere(p: AddressPayload, a: int) { exists k: nat :: k < Beats(p) && Enabled(p, k, a) }

  lemma SawNext(p: AddressPayload, beat: nat, seen: set<int>, a: int)
    requires Saw(p, beat, seen) && beat < Beats(p) && Enabled(p, beat, a)
    ensures Saw(p, beat, seen + {a})
  {
    assert EnabledSomewhere(p, a);
  }

  lemma SawBeat(p: AddressPayload, beat: nat, seen: set<int>)
    requires Saw(p, beat, seen) && forall a | Lo(p, beat) <= a < Hi(p, beat) :: a in seen
    ensures Saw(p, beat + 1, seen)
  {}

  lemma DecodeStart(c: Config, p: AddressPayload)
    ensures Decoding(c, {}, None, false) && Saw(p, 0, {})
  {}

  lemma DecodeNext(c: Config, seen: set<int>, a: int, mapping: Option<nat>, failed: bool)
    requires Decoding(c, seen, mapping, failed) && a <= AddressLimit(c)
    ensures var current := Scan(c.mappings, a, 1);
            if current.None? || (mapping.Some? && current != mapping) then Decoding(c, seen + {a}, mapping, true)
            else Decoding(c, seen + {a}, if mapping.None? then current else mapping, failed)
  {
    var current := Scan(c.mappings, a, 1);
    var more := seen + {a};
    assert a in more;
    if mapping.Some? {
      var b :| b in seen && c.mappings[mapping.value].Contains(b, 1);
      assert b in more;
    }
    if failed {
      var b :| b in seen && Clashes(c, b, mapping);
      assert b in more && Clashes(c, b, mapping);
      if mapping.None? { assert Clashes(c, b, current); }
    } else if current.None? || (mapping.Some? && current != mapping) {
      assert Clashes(c, a, mapping);
    }
  }

  lemma WindowUnique(c: Config, m: nat, n: nat, a: int)
    requires ConfigOk(c) && m < |c.mappings| && n < |c.mappings|
    requires c.mappings[m].Contains(a, 1) && c.mappings[n].Contains(a, 1)
    ensures m == n
  {
    ScanUnique(c.mappings, a, 1, m);
    ScanUnique(c.mappings, a, 1, n);
  }

  /** After the last beat the loop's answer is the decode of the burst. */
  lemma DecodeDone(c: Config, p: AddressPayload, seen: set<int>, mapping: Option<nat>, failed: bool)
    requires ConfigOk(c) && Decoding(c, seen, mapping, failed) && Saw(p, Beats(p), seen)
    ensures !TooWide(c, p)
    ensures Decode(c, p) == if failed then None else mapping
  {
    if failed {
      var a :| a in seen && Clashes(c, a, mapping);
      forall m: nat ensures !Routed(c, p, m) { DecodeClash(c, p, seen, mapping, a, m); }
    } else if mapping.None? {
      forall m: nat ensures !Routed(c, p, m) {
        if Routed(c, p, m) {
          var k: nat :| k < Beats(p) && Lo(p, k) < Hi(p, k);
          assert Enabled(p, k, Lo(p, k));
        }
      }
    } else {
      var a :| a in seen && c.mappings[mapping.value].Contains(a, 1);
      assert EnabledSomewhere(p, a);
      var k: nat :| k < Beats(p) && Enabled(p, k, a);
      assert Lo(p, k) < Hi(p, k);
      assert Routed(c, p, mapping.value);
      WindowUnique(c, mapping.value, Decode(c, p).value, a);
    }
  }

  lemma DecodeClash(c: Config, p: AddressPayload, seen: set<int>, mapping: Option<nat>, a: int, m: nat)
    requires ConfigOk(c) && Decoding(c, seen, mapping, true) && Saw(p, Beats(p), seen) && a in seen &&
             Clashes(c, a, mapping)
    ensures !Routed(c, p, m)
  {
    if Routed(c, p, m) {
      assert EnabledSomewhere(p, a);
      ScanUnique(c.mappings, a, 1, m);
      var b :| b in seen && c.mappings[mapping.value].Contains(b, 1);
      assert EnabledSomewhere(p, b);
      WindowUnique(c, m, mapping.value, b);
    }
  }
}
