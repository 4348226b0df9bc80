/**
  Value-level meaning of `AxiFabric` in `src/fabric.hpp`: its state and every
  phase of `drive` and `commit` as a function from state to outcome.

  - A queue is the contents of its ring buffer, oldest first.
  - VALID with a payload is `Some(payload)`; a stability watch is the payload it
    holds while blocked.
  - A thrown error is `Failed` with the state at the throw.
  - RAM and ROM contents are `mem`; every other device is a `Peripheral` whose
    answer to the access of this cycle is the free input `Reply`.
  - `History` is instrumentation: what was accepted, granted, accessed, finished
    and retired since the last reset.  No phase reads it.
 */
module Fabric {
  import opened Axi
  import opened AddressMap
  import opened Memory
  import opened Arith

  // ---- configuration -----------------------------------------------------

  datatype Device = Ram(size: nat) | Rom(size: nat) | Peripheral(burst: bool, exclusive: bool, exit: bool)

  predicate SupportsBurst(d: Device) { d.Peripheral? ==> d.burst }
  predicate SupportsExclusive(d: Device) { d.Ram? || (d.Peripheral? && d.exclusive) }

  datatype Config = Config(
    ports: nat, addressBits: nat, width: nat,
    addressDepth: nat, writeDepth: nat, responseDepth: nat, routeDepth: nat,
    mappings: seq<Mapping>, devices: seq<Device>)

  ghost predicate ConfigOk(c: Config) {
    && c.ports > 0 && BusWidth(c.width) && (c.addressBits == 32 || c.addressBits == 64)
    && c.addressDepth > 0 && c.writeDepth > 0 && c.responseDepth > 0 && c.routeDepth > 0
    && SpaceOk(c.mappings)
    && forall i | 0 <= i < |c.mappings| :: c.mappings[i].device < |c.devices|
  }

  type Mem = seq<seq<byte>>

  ghost predicate MemOk(c: Config, mem: Mem) {
    && |mem| == |c.devices|
    && forall d | 0 <= d < |mem| :: !c.devices[d].Peripheral? ==> |mem[d]| == c.devices[d].size
  }

  // ---- state -------------------------------------------------------------

  datatype Master = Master(
    aw: Option<AddressPayload>, w: Option<WriteBeat>, bReady: bool,
    ar: Option<AddressPayload>, rReady: bool)

  datatype Slave = Slave(
    awReady: bool, wReady: bool, b: Option<WriteResponse>, arReady: bool, r: Option<ReadBeat>)

  datatype Port = Port(
    aw: seq<AddressPayload>, w: seq<WriteBeat>, ar: seq<AddressPayload>,
    b: seq<WriteResponse>, r: seq<ReadBeat>,
    awWatch: Option<AddressPayload>, wWatch: Option<WriteBeat>, arWatch: Option<AddressPayload>)

  /** What arbitration fixes about a transaction. */
  datatype Route = Route(port: nat, payload: AddressPayload, mapping: Option<nat>, forced: Response)

  datatype Staged = Staged(data: seq<byte>, strobe: seq<byte>)

  datatype ReadRoute = ReadRoute(route: Route, beat: nat)

  /** The source's `beat` counter is |staged|. */
  datatype WriteRoute = WriteRoute(
    route: Route, staged: seq<Staged>, response: Response, exit: Option<nat>,
    commitBeat: nat, dataComplete: bool)

  datatype Monitor = Free | Held(port: nat, payload: AddressPayload)

  /** A device access; a write also carries the number of the write it belongs to,
      counted from zero in grant order. */
  datatype Access =
    | DeviceRead(mapping: nat, offset: int, enable: seq<bool>)
    | DeviceWrite(write: nat, mapping: nat, offset: int, data: seq<byte>, strobe: seq<bool>)

  /** What matters to reservations, in order: an exclusive read starts, a device
      accepts a write of some bytes, an exclusive write is decided.  `mem` is the
      memory at that moment, `index` the number of writes finished before, `read`
      the number of read beats served before. */
  datatype Event =
    | Reserve(port: nat, payload: AddressPayload, mem: Mem, read: nat)
    | BusWrite(touched: set<int>)
    | ExclusiveWrite(index: nat, route: Route, response: Response, mem: Mem)

  datatype PortLog = PortLog(
    aw: seq<AddressPayload>, w: seq<WriteBeat>, ar: seq<AddressPayload>,
    b: seq<WriteResponse>, r: seq<ReadBeat>)

  datatype DoneWrite = DoneWrite(staged: seq<Staged>, response: WriteResponse)

  /** One read beat; `after` counts the writes finished when it was served, `seen`
      the events; `reply` is what a device asked in that cycle would answer. */
  datatype Served = Served(route: Route, beat: nat, after: nat, seen: nat, reply: Reply, out: ReadBeat)

  /** `replies` has the reply of the cycle for each access; `retired` is the B
      responses taken by the masters of all ports, in order. */
  datatype History = History(
    logs: seq<PortLog>, base: Mem,
    wgrants: seq<Route>, done: seq<DoneWrite>,
    rgrants: seq<Route>, served: seq<Served>,
    events: seq<Event>, accesses: seq<Access>, replies: seq<Reply>, retired: seq<WriteResponse>)

  datatype Fabric = Fabric(
    ports: seq<Port>, outputs: seq<Slave>,
    readRoutes: seq<ReadRoute>, writeRoutes: seq<WriteRoute>, monitors: seq<Monitor>,
    nextAw: nat, nextAr: nat, cycle: nat, wasReset: bool, suppressRead: bool,
    exit: Option<nat>, mem: Mem, h: History)

  datatype Channel = AW | W | AR

  datatype Error =
    | Unstable(port: nat, channel: Channel)
    | FifoOverflow(port: nat, channel: Channel)
    | QueueEmpty
    | BadBurst | AddressWidth | BadExclusive
    | LastMissing | LastEarly | BadStrobe | MonitorsFull

  datatype Outcome = Done(s: Fabric) | Failed(s: Fabric, error: Error)

  datatype Reply = Reply(response: Response, data: seq<byte>, exitCode: nat)

  datatype Stall = Stall(aw: bool, w: bool, ar: bool)

  /** Everything the outside decides in one cycle. */
  datatype Stimulus = Stimulus(reset: bool, stalls: seq<Stall>, inputs: seq<Master>, reply: Reply)

  ghost predicate BeatSized(c: Config, w: WriteBeat) {
    |w.data| == c.width && |w.strobe| == c.width
  }

  ghost predicate InputsOk(c: Config, inputs: seq<Master>) {
    && |inputs| == c.ports
    && forall p | 0 <= p < c.ports :: inputs[p].w.Some? ==> BeatSized(c, inputs[p].w.value)
  }

  ghost predicate StimulusOk(c: Config, x: Stimulus) {
    |x.stalls| == c.ports && InputsOk(c, x.inputs)
  }

  /** The array sizes the types of the source fix. */
  ghost predicate Sized(c: Config, s: Fabric) {
    && |s.ports| == c.ports && |s.outputs| == c.ports && |s.h.logs| == c.ports
    && |s.monitors| == c.routeDepth
    && s.nextAw < c.ports && s.nextAr < c.ports
    && MemOk(c, s.mem)
  }

  function EmptyPort(): Port { Port([], [], [], [], [], None, None, None) }
  function EmptyLog(): PortLog { PortLog([], [], [], [], []) }
  function IdleSlave(): Slave { Slave(false, false, None, false, None) }

  ghost function FreshHistory(c: Config, mem: Mem): History {
    History(seq(c.ports, _ => EmptyLog()), mem, [], [], [], [], [], [], [], [])
  }

  /** `reset_state`: queues, routes, watches, monitors and exit flag cleared. */
  ghost function ResetState(c: Config, s: Fabric): Fabric {
    s.(ports := seq(c.ports, _ => EmptyPort()), readRoutes := [], writeRoutes := [],
       monitors := seq(c.routeDepth, _ => Free), nextAw := 0, nextAr := 0,
       suppressRead := false, exit := None, h := FreshHistory(c, s.mem))
  }

  ghost function Init(c: Config, mem: Mem): Fabric {
    Fabric(seq(c.ports, _ => EmptyPort()), seq(c.ports, _ => IdleSlave()), [], [],
           seq(c.routeDepth, _ => Free), 0, 0, 0, false, false, None, mem, FreshHistory(c, mem))
  }

  function Push<T>(q: seq<T>, capacity: nat, x: T): seq<T> {
    if |q| < capacity then q + [x] else q
  }

  ghost function SetPort(s: Fabric, p: nat, port: Port): (r: Fabric)
    requires p < |s.ports|
  {
    s.(ports := s.ports[p := port])
  }

  ghost function SetLog(s: Fabric, p: nat, log: PortLog): (r: Fabric)
    requires p < |s.h.logs|
  {
    s.(h := s.h.(logs := s.h.logs[p := log]))
  }

  // ---- drive ---------------------------------------------------------------

  function First<T>(q: seq<T>): Option<T> { if |q| == 0 then None else Some(q[0]) }

  function DrivePort(c: Config, port: Port, stall: Stall): Slave {
    Slave(|port.aw| != c.addressDepth && !stall.aw, |port.w| != c.writeDepth && !stall.w, First(port.b),
          |port.ar| != c.addressDepth && !stall.ar, First(port.r))
  }

  ghost function Drive(c: Config, s: Fabric, reset: bool, stalls: seq<Stall>): Fabric
    requires |s.ports| == c.ports == |stalls|
  {
    s.(outputs := seq(c.ports, p requires 0 <= p < c.ports =>
      if reset then IdleSlave() else DrivePort(c, s.ports[p], stalls[p])))
  }

  // ---- phase 1: VALID stability ---------------------------------------------

  predicate Broken<T(==)>(watch: Option<T>, offered: Option<T>) { watch.Some? && offered != watch }

  function NextWatch<T>(offered: Option<T>, ready: bool): Option<T> { if ready then None else offered }

  ghost function CheckPort(c: Config, s: Fabric, inputs: seq<Master>, p: nat): (o: Outcome)
    requires Sized(c, s) && |inputs| == c.ports && p < c.ports
    ensures Sized(c, o.s)
  {
    var port, out, input := s.ports[p], s.outputs[p], inputs[p];
    if Broken(port.awWatch, input.aw) then Failed(s, Unstable(p, AW))
    else
      var port1 := port.(awWatch := NextWatch(input.aw, out.awReady));
      if Broken(port.wWatch, input.w) then Failed(SetPort(s, p, port1), Unstable(p, W))
      else
        var port2 := port1.(wWatch := NextWatch(input.w, out.wReady));
        if Broken(port.arWatch, input.ar) then Failed(SetPort(s, p, port2), Unstable(p, AR))
        else Done(SetPort(s, p, port2.(arWatch := NextWatch(input.ar, out.arReady))))
  }

  ghost function CheckStability(c: Config, s: Fabric, inputs: seq<Master>, p: nat): (o: Outcome)
    requires Sized(c, s) && |inputs| == c.ports && p <= c.ports
    ensures Sized(c, o.s)
    decreases c.ports - p
  {
    if p == c.ports then Done(s)
    else
      var o := CheckPort(c, s, inputs, p);
      if o.Failed? then o else CheckStability(c, o.s, inputs, p + 1)
  }

  // ---- phase 2: retire responses ---------------------------------------------

  ghost function RetireB(c: Config, s: Fabric, inputs: seq<Master>, p: nat): (o: Outcome)
    requires Sized(c, s) && |inputs| == c.ports && p < c.ports
    ensures Sized(c, o.s)
  {
    var port, out := s.ports[p], s.outputs[p];
    if out.b.Some? && inputs[p].bReady then
      if port.b == [] then Failed(s, QueueEmpty)
      else
        var s1 := s.(exit := if s.exit.None? then port.b[0].exit else s.exit,
                     h := s.h.(retired := s.h.retired + [port.b[0]]));
        var s2 := SetPort(s1, p, port.(b := port.b[1..]));
        Done(SetLog(s2, p, s2.h.logs[p].(b := s2.h.logs[p].b + [out.b.value])))
    else Done(s)
  }

  ghost function RetireR(c: Config, s: Fabric, inputs: seq<Master>, p: nat): (o: Outcome)
    requires Sized(c, s) && |inputs| == c.ports && p < c.ports
    ensures Sized(c, o.s)
  {
    var port, out := s.ports[p], s.outputs[p];
    if out.r.Some? && inputs[p].rReady then
      if port.r == [] then Failed(s, QueueEmpty)
      else
        var s1 := SetPort(s, p, port.(r := port.r[1..]));
        Done(SetLog(s1, p, s1.h.logs[p].(r := s1.h.logs[p].r + [out.r.value])))
    else Done(s)
  }

  ghost function Retire(c: Config, s: Fabric, inputs: seq<Master>, p: nat): (o: Outcome)
    requires Sized(c, s) && |inputs| == c.ports && p <= c.ports
    ensures Sized(c, o.s)
    decreases c.ports - p
  {
    if p == c.ports then Done(s)
    else
      var o := RetireB(c, s, inputs, p);
      if o.Failed? then o
      else
        var o2 := RetireR(c, o.s, inputs, p);
        if o2.Failed? then o2 else Retire(c, o2.s, inputs, p + 1)
  }

  // ---- phase 3: accept requests -----------------------------------------------

  ghost function AcceptAw(c: Config, s: Fabric, inputs: seq<Master>, p: nat): (o: Outcome)
    requires Sized(c, s) && |inputs| == c.ports && p < c.ports
    ensures Sized(c, o.s)
  {
    var port := s.ports[p];
    if inputs[p].aw.Some? && s.outputs[p].awReady then
      if |port.aw| == c.addressDepth then Failed(s, FifoOverflow(p, AW))
      else
        var s1 := SetPort(s, p, port.(aw := port.aw + [inputs[p].aw.value]));
        Done(SetLog(s1, p, s1.h.logs[p].(aw := s1.h.logs[p].aw + [inputs[p].aw.value])))
    else Done(s)
  }

  ghost function AcceptW(c: Config, s: Fabric, inputs: seq<Master>, p: nat): (o: Outcome)
    requires Sized(c, s) && |inputs| == c.ports && p < c.ports
    ensures Sized(c, o.s)
  {
    var port := s.ports[p];
    if inputs[p].w.Some? && s.outputs[p].wReady then
      if |port.w| == c.writeDepth then Failed(s, FifoOverflow(p, W))
      else
        var s1 := SetPort(s, p, port.(w := port.w + [inputs[p].w.value]));
        Done(SetLog(s1, p, s1.h.logs[p].(w := s1.h.logs[p].w + [inputs[p].w.value])))
    else Done(s)
  }

  ghost function AcceptAr(c: Config, s: Fabric, inputs: seq<Master>, p: nat): (o: Outcome)
    requires Sized(c, s) && |inputs| == c.ports && p < c.ports
    ensures Sized(c, o.s)
  {
    var port := s.ports[p];
    if inputs[p].ar.Some? && s.outputs[p].arReady then
      if |port.ar| == c.addressDepth then Failed(s, FifoOverflow(p, AR))
      else
        var s1 := SetPort(s, p, port.(ar := port.ar + [inputs[p].ar.value]));
        Done(SetLog(s1, p, s1.h.logs[p].(ar := s1.h.logs[p].ar + [inputs[p].ar.value])))
    else Done(s)
  }

  ghost function Accept(c: Config, s: Fabric, inputs: seq<Master>, p: nat): (o: Outcome)
    requires Sized(c, s) && |inputs| == c.ports && p <= c.ports
    ensures Sized(c, o.s)
    decreases c.ports - p
  {
    if p == c.ports then Done(s)
    else
      var o := AcceptAw(c, s, inputs, p);
      if o.Failed? then o
      else
        var o2 := AcceptW(c, o.s, inputs, p);
        if o2.Failed? then o2
        else
          var o3 := AcceptAr(c, o2.s, inputs, p);
          if o3.Failed? then o3 else Accept(c, o3.s, inputs, p + 1)
  }

  // ---- phase 4: arbitration ----------------------------------------------------

  /** Round-robin scan: the first requesting port at or after `next`. */
  function Pick(waiting: seq<bool>, next: nat, offset: nat): (r: Option<nat>)
    requires offset <= |waiting|
    ensures r.Some? ==> r.value < |waiting| && waiting[r.value]
    decreases |waiting| - offset
  {
    if offset == |waiting| then None
    else
      var port := (next + offset) % |waiting|;
      if waiting[port] then Some(port) else Pick(waiting, next, offset + 1)
  }

  function AwWaiting(ports: seq<Port>): (w: seq<bool>)
    ensures |w| == |ports|
  {
    seq(|ports|, i requires 0 <= i < |ports| => ports[i].aw != [])
  }

  function ArWaiting(ports: seq<Port>): (w: seq<bool>)
    ensures |w| == |ports|
  {
    seq(|ports|, i requires 0 <= i < |ports| => ports[i].ar != [])
  }

  function AddressLimit(c: Config): int { if c.addressBits < 64 then 0x1_0000_0000 - 1 else TWO64 - 1 }

  predicate Enabled(p: AddressPayload, k: nat, a: int) { Lo(p, k) <= a < Hi(p, k) }

  /** Some enabled byte of the burst lies above the configured address width. */
  ghost predicate TooWide(c: Config, p: AddressPayload) {
    exists k: nat, a :: k < Beats(p) && Enabled(p, k, a) && a > AddressLimit(c)
  }

  /** The burst has enabled bytes and mapping m holds all of them. */
  ghost predicate Routed(c: Config, p: AddressPayload, m: nat) {
    && m < |c.mappings|
    && (exists k: nat :: k < Beats(p) && Lo(p, k) < Hi(p, k))
    && (forall k: nat, a :: k < Beats(p) && Enabled(p, k, a) ==> c.mappings[m].Contains(a, 1))
  }

  ghost function Decode(c: Config, p: AddressPayload): (r: Option<nat>)
    ensures r.Some? ==> Routed(c, p, r.value)
    ensures r.None? ==> forall m: nat :: !Routed(c, p, m)
  {
    if exists m: nat :: Routed(c, p, m) then
      var m: nat :| Routed(c, p, m); Some(m)
    else None
  }

  predicate PowerTo128(n: nat) { PowerTo16(n) || n == 32 || n == 64 || n == 128 }

  predicate ExclusiveShape(p: AddressPayload) {
    && p.burst.Increment? && Beats(p) <= 16
    && PowerTo128(Total(p)) && p.address % Total(p) == 0
  }

  ghost predicate BurstOk(c: Config, p: AddressPayload) { ShapeOk(c.width, p) && Within4K(p) }

  ghost function DeviceOf(c: Config, r: Route): Device
    requires ConfigOk(c) && r.mapping.Some? && r.mapping.value < |c.mappings|
  {
    c.devices[c.mappings[r.mapping.value].device]
  }

  ghost function Forced(c: Config, p: AddressPayload, mapping: Option<nat>): Response
    requires ConfigOk(c) && (mapping.Some? ==> mapping.value < |c.mappings|)
  {
    if mapping.None? then (if p.lock then SlaveError else DecodeError)
    else
      var d := c.devices[c.mappings[mapping.value].device];
      if (Beats(p) > 1 && !SupportsBurst(d)) || (p.lock && !SupportsExclusive(d)) then SlaveError else Okay
  }

  datatype RouteResult = Routable(route: Route) | Refused(error: Error)

  ghost function InitRoute(c: Config, port: nat, p: AddressPayload): (r: RouteResult)
    requires ConfigOk(c)
  {
    if !BurstOk(c, p) then Refused(BadBurst)
    else if TooWide(c, p) then Refused(AddressWidth)
    else if p.lock && !ExclusiveShape(p) then Refused(BadExclusive)
    else
      var mapping := Decode(c, p);
      Routable(Route(port, p, mapping, Forced(c, p, mapping)))
  }

  ghost function GrantWrite(c: Config, s: Fabric): (o: Outcome)
    requires ConfigOk(c) && Sized(c, s)
    ensures Sized(c, o.s)
  {
    var pick := Pick(AwWaiting(s.ports), s.nextAw, 0);
    if |s.writeRoutes| == c.routeDepth || pick.None? then Done(s)
    else
      var p := pick.value;
      var port := s.ports[p];
      var init := InitRoute(c, p, port.aw[0]);
      if init.Refused? then Failed(s, init.error)
      else
        var s1 := SetPort(s, p, port.(aw := port.aw[1..]));
        Done(s1.(writeRoutes := Push(s.writeRoutes, c.routeDepth, WriteRoute(init.route, [], Okay, None, 0, false)),
                 nextAw := (p + 1) % c.ports,
                 h := s1.h.(wgrants := s1.h.wgrants + [init.route])))
  }

  ghost function GrantRead(c: Config, s: Fabric): (o: Outcome)
    requires ConfigOk(c) && Sized(c, s)
    ensures Sized(c, o.s)
  {
    var pick := Pick(ArWaiting(s.ports), s.nextAr, 0);
    if |s.readRoutes| == c.routeDepth || pick.None? then Done(s)
    else
      var p := pick.value;
      var port := s.ports[p];
      var init := InitRoute(c, p, port.ar[0]);
      if init.Refused? then Failed(s, init.error)
      else
        var s1 := SetPort(s, p, port.(ar := port.ar[1..]));
        Done(s1.(readRoutes := Push(s.readRoutes, c.routeDepth, ReadRoute(init.route, 0)),
                 nextAr := (p + 1) % c.ports,
                 h := s1.h.(rgrants := s1.h.rgrants + [init.route])))
  }

  // ---- exclusive monitors --------------------------------------------------------

  predicate Keyed(m: Monitor, port: nat, id: u64) { m.Held? && m.port == port && m.payload.id == id }

  /** The bytes a monitor guards, with the 64-bit sum of the source. */
  predicate Guards(p: AddressPayload, a: int) { p.address <= a < (p.address + Total(p)) % TWO64 }

  function FindMonitor(ms: seq<Monitor>, port: nat, id: u64, i: nat): (r: Option<nat>)
    requires i <= |ms|
    ensures r.Some? ==> i <= r.value < |ms| && Keyed(ms[r.value], port, id)
    ensures r.None? ==> forall j | i <= j < |ms| :: !Keyed(ms[j], port, id)
    decreases |ms| - i
  {
    if i == |ms| then None
    else if Keyed(ms[i], port, id) then Some(i)
    else FindMonitor(ms, port, id, i + 1)
  }

  function FindFree(ms: seq<Monitor>, i: nat): (r: Option<nat>)
    requires i <= |ms|
    ensures r.Some? ==> i <= r.value < |ms| && ms[r.value].Free?
    ensures r.None? ==> forall j | i <= j < |ms| :: ms[j].Held?
    decreases |ms| - i
  {
    if i == |ms| then None
    else if ms[i].Free? then Some(i)
    else FindFree(ms, i + 1)
  }

  function ClearMonitor(ms: seq<Monitor>, port: nat, id: u64): (r: seq<Monitor>)
    ensures |r| == |ms|
  {
    var i := FindMonitor(ms, port, id, 0);
    if i.Some? then ms[i.value := Free] else ms
  }

  ghost predicate Hit(m: Monitor, touched: set<int>) { m.Held? && exists a :: a in touched && Guards(m.payload, a) }

  ghost function Invalidate(ms: seq<Monitor>, touched: set<int>): (r: seq<Monitor>)
    ensures |r| == |ms|
  {
    seq(|ms|, i requires 0 <= i < |ms| => if Hit(ms[i], touched) then Free else ms[i])
  }

  // ---- device accesses --------------------------------------------------------------

  /** A route whose burst passed the checks and that decodes to one mapping. */
  ghost predicate Mapped(c: Config, r: Route) {
    && ConfigOk(c) && BurstOk(c, r.payload)
    && r.mapping.Some? && r.mapping.value < |c.mappings|
  }

  ghost function MappingOf(c: Config, r: Route): Mapping
    requires Mapped(c, r)
  {
    c.mappings[r.mapping.value]
  }

  ghost predicate StagedOk(c: Config, st: Staged) { |st.data| == c.width == |st.strobe| }

  /** The lanes of a bus word that beat k uses. */
  ghost function Lanes<T>(c: Config, p: AddressPayload, k: nat, word: seq<T>): (r: seq<T>)
    requires BusWidth(c.width) && ShapeOk(c.width, p) && |word| == c.width
    ensures |r| == Hi(p, k) - Lo(p, k)
  {
    BeatWindow(c.width, p, k);
    word[Lo(p, k) % c.width..Lo(p, k) % c.width + (Hi(p, k) - Lo(p, k))]
  }

  /** The lane mask of beat k, lane by lane as the source computes it. */
  function Mask(width: nat, p: AddressPayload, k: nat): (r: seq<bool>)
    requires width > 0
    ensures |r| == width
  {
    seq(width, lane requires 0 <= lane < width => LaneEnabled(width, p, k, lane))
  }

  ghost function Strobes(strobe: seq<byte>): (r: seq<bool>)
    ensures |r| == |strobe|
  {
    seq(|strobe|, i requires 0 <= i < |strobe| => strobe[i] != 0)
  }

  ghost function Touched(c: Config, p: AddressPayload, k: nat, st: Staged): set<int>
    requires c.width > 0 && StagedOk(c, st)
  {
    set a | Lo(p, k) <= a < Hi(p, k) && st.strobe[a % c.width] != 0
  }

  /** Does RAM or ROM accept a write of bytes [lo, hi) through this mapping? */
  ghost predicate Fits(c: Config, r: Route, hi: int)
    requires Mapped(c, r)
  {
    DeviceOf(c, r).Ram? && hi - MappingOf(c, r).base <= DeviceOf(c, r).size
  }

  ghost function DeviceAnswer(c: Config, r: Route, hi: int, reply: Reply): Response
    requires Mapped(c, r)
  {
    if DeviceOf(c, r).Peripheral? then reply.response
    else if Fits(c, r, hi) then Okay else SlaveError
  }

  /** Memory after the device at r's mapping took `data` for address `lo`. */
  ghost function StoreAt(c: Config, mem: Mem, r: Route, lo: int, data: seq<byte>, strobe: seq<bool>): (m: Mem)
    requires Mapped(c, r) && MemOk(c, mem) && |data| == |strobe|
    ensures MemOk(c, m)
  {
    var d := MappingOf(c, r).device;
    var offset := lo - MappingOf(c, r).base;
    if offset >= 0 && Fits(c, r, lo + |data|) then mem[d := Store(mem[d], offset, data, strobe)] else mem
  }

  ghost function StoreBeat(c: Config, mem: Mem, r: Route, k: nat, st: Staged): (m: Mem)
    requires Mapped(c, r) && MemOk(c, mem) && StagedOk(c, st)
    ensures MemOk(c, m)
  {
    StoreAt(c, mem, r, Lo(r.payload, k), Lanes(c, r.payload, k, st.data), Lanes(c, r.payload, k, Strobes(st.strobe)))
  }

  ghost predicate EmptyBeat(p: AddressPayload, k: nat) { Lo(p, k) == Hi(p, k) }

  ghost function BeatAnswer(c: Config, r: Route, k: nat, reply: Reply): Response
    requires Mapped(c, r)
  {
    if EmptyBeat(r.payload, k) then Okay else DeviceAnswer(c, r, Hi(r.payload, k), reply)
  }

  ghost function ReadWord(c: Config, mem: Mem, r: Route, k: nat, reply: Reply): (word: seq<byte>)
    requires Mapped(c, r) && MemOk(c, mem)
    ensures |word| == c.width
  {
    var d := MappingOf(c, r).device;
    var lo, hi, base := Lo(r.payload, k), Hi(r.payload, k), MappingOf(c, r).base;
    var bus := AlignDown(lo, c.width);
    seq(c.width, lane requires 0 <= lane < c.width =>
      if !(lo <= bus + lane < hi) then 0
      else if DeviceOf(c, r).Peripheral? then
        (if bus + lane - lo < |reply.data| then reply.data[bus + lane - lo] else 0)
      else if base <= lo && hi - base <= |mem[d]| then mem[d][bus + lane - base] else 0)
  }

  ghost function ReadAnswer(c: Config, r: Route, k: nat, reply: Reply): Response
    requires Mapped(c, r)
  {
    if EmptyBeat(r.payload, k) then Okay
    else if DeviceOf(c, r).Peripheral? then reply.response
    else if Hi(r.payload, k) - MappingOf(c, r).base <= DeviceOf(c, r).size then Okay else SlaveError
  }

  // ---- phase 5: write beats -----------------------------------------------------------

  ghost predicate RouteOk(c: Config, r: Route) {
    ConfigOk(c) && r.port < c.ports && InitRoute(c, r.port, r.payload) == Routable(r)
  }

  /** Per-route shape: what the fabric has collected and committed so far. */
  ghost predicate WriteOk(c: Config, w: WriteRoute) {
    && RouteOk(c, w.route)
    && |w.staged| <= Beats(w.route.payload)
    && (w.dataComplete <==> |w.staged| == Beats(w.route.payload))
    && (forall i | 0 <= i < |w.staged| :: StagedOk(c, w.staged[i]))
    && w.commitBeat < Beats(w.route.payload)
    && (w.commitBeat > 0 ==> w.dataComplete && !w.route.payload.lock && w.route.forced.Okay?)
  }

  ghost predicate ReadOk(c: Config, r: ReadRoute) {
    RouteOk(c, r.route) && r.beat < Beats(r.route.payload)
  }

  /** Routes in flight are well formed; only the oldest has made progress. */
  ghost predicate RoutesOk(c: Config, s: Fabric) {
    && |s.writeRoutes| <= c.routeDepth && |s.readRoutes| <= c.routeDepth
    && (forall i | 0 <= i < |s.writeRoutes| :: WriteOk(c, s.writeRoutes[i]))
    && (forall i | 1 <= i < |s.writeRoutes| ::
        s.writeRoutes[i] == WriteRoute(s.writeRoutes[i].route, [], Okay, None, 0, false))
    && (forall i | 0 <= i < |s.readRoutes| :: ReadOk(c, s.readRoutes[i]))
    && (forall i | 1 <= i < |s.readRoutes| :: s.readRoutes[i].beat == 0)
    && (forall p, i | 0 <= p < |s.ports| && 0 <= i < |s.ports[p].w| :: BeatSized(c, s.ports[p].w[i]))
  }

  lemma RouteFacts(c: Config, r: Route)
    requires RouteOk(c, r)
    ensures BurstOk(c, r.payload)
    ensures r.payload.lock ==> ExclusiveShape(r.payload)
    ensures r.mapping == Decode(c, r.payload)
    ensures r.mapping.Some? ==> Mapped(c, r) && Routed(c, r.payload, r.mapping.value)
    ensures r.forced == Forced(c, r.payload, r.mapping)
    ensures r.forced.Okay? ==> r.mapping.Some?
  {}

  ghost function CompleteWrite(c: Config, s: Fabric, f: WriteRoute): (r: Fabric)
    requires Sized(c, s) && s.writeRoutes != [] && f.route.port < c.ports
    ensures Sized(c, r)
  {
    var response := WriteResponse(f.route.payload.id, f.response, f.exit);
    var port := s.ports[f.route.port];
    var s1 := SetPort(s, f.route.port, port.(b := Push(port.b, c.responseDepth, response)));
    s1.(writeRoutes := s.writeRoutes[1..], h := s1.h.(done := s1.h.done + [DoneWrite(f.staged, response)]))
  }

  /** `r` differs from `s` only by what a device access and its bookkeeping change. */
  ghost predicate AccessOnly(s: Fabric, r: Fabric) {
    r == s.(mem := r.mem, monitors := r.monitors, suppressRead := true,
            h := s.h.(events := r.h.events, accesses := r.h.accesses, replies := r.h.replies))
  }

  /** The front route is complete, unlocked and mapped: its beats go to a device. */
  ghost predicate Committing(c: Config, s: Fabric) {
    && Sized(c, s) && RoutesOk(c, s)
    && s.writeRoutes != [] && s.writeRoutes[0].dataComplete
    && !s.writeRoutes[0].route.payload.lock && s.writeRoutes[0].route.forced.Okay?
  }

  lemma CommittingFacts(c: Config, s: Fabric)
    requires Committing(c, s)
    ensures var f := s.writeRoutes[0]; WriteOk(c, f) && Mapped(c, f.route) && f.commitBeat < |f.staged|
    ensures StagedOk(c, s.writeRoutes[0].staged[s.writeRoutes[0].commitBeat])
  {
    assert WriteOk(c, s.writeRoutes[0]);
    RouteFacts(c, s.writeRoutes[0].route);
  }

  /** `write_device_beat`: the access itself and the reservations it breaks. */
  ghost function BeatEffect(c: Config, s: Fabric, reply: Reply): (r: Fabric)
    requires Committing(c, s)
    ensures AccessOnly(s, r) && Sized(c, r)
  {
    CommittingFacts(c, s);
    var f := s.writeRoutes[0];
    var k, p := f.commitBeat, f.route.payload;
    var st := f.staged[k];
    if EmptyBeat(p, k) then s.(suppressRead := true)
    else
      var access := DeviceWrite(|s.h.done|, f.route.mapping.value, Lo(p, k) - MappingOf(c, f.route).base,
                                Lanes(c, p, k, st.data), Lanes(c, p, k, Strobes(st.strobe)));
      var ok := Success(BeatAnswer(c, f.route, k, reply));
      s.(suppressRead := true,
         mem := StoreBeat(c, s.mem, f.route, k, st),
         monitors := if ok then Invalidate(s.monitors, Touched(c, p, k, st)) else s.monitors,
         h := s.h.(
           events := if ok then s.h.events + [BusWrite(Touched(c, p, k, st))] else s.h.events,
           accesses := s.h.accesses + [access], replies := s.h.replies + [reply]))
  }

  /** The front route after its beat was answered; an error ends the burst. */
  ghost function BeatFront(c: Config, s: Fabric, reply: Reply): (f1: WriteRoute)
    requires Committing(c, s)
    ensures f1.route == s.writeRoutes[0].route && f1.staged == s.writeRoutes[0].staged
  {
    CommittingFacts(c, s);
    var f := s.writeRoutes[0];
    var answer := BeatAnswer(c, f.route, f.commitBeat, reply);
    var d := DeviceOf(c, f.route);
    f.(response := Combine(f.response, answer),
       exit := if !EmptyBeat(f.route.payload, f.commitBeat) && Success(answer) && d.Peripheral? && d.exit
               then Some(reply.exitCode) else f.exit,
       commitBeat := if Success(answer) then f.commitBeat + 1 else Beats(f.route.payload))
  }

  ghost function CommitBeat(c: Config, s: Fabric, reply: Reply): (r: Fabric)
    requires Committing(c, s)
    ensures Sized(c, r)
  {
    CommittingFacts(c, s);
    var s1, f1 := BeatEffect(c, s, reply), BeatFront(c, s, reply);
    if f1.commitBeat == Beats(f1.route.payload) then CompleteWrite(c, s1, f1)
    else s1.(writeRoutes := s.writeRoutes[0 := f1])
  }

  // The gathered data of an exclusive write: index i belongs to beat i / bytes.
  ghost predicate GatherEnabled(p: AddressPayload, i: nat) {
    DivNonNeg(i, BeatBytes(p));
    !EmptyBeat(p, i / BeatBytes(p))
  }

  ghost predicate AllStaged(c: Config, p: AddressPayload, staged: seq<Staged>) {
    && |staged| == Beats(p)
    && forall k | 0 <= k < |staged| :: StagedOk(c, staged[k])
  }

  lemma GatherIndex(p: AddressPayload, i: nat)
    requires i < Total(p)
    ensures 0 <= i / BeatBytes(p) < Beats(p)
  {
    DivMod(i, BeatBytes(p));
    DivNonNeg(i, BeatBytes(p));
    var q := i / BeatBytes(p);
    if q >= Beats(p) { MulLe(Beats(p), q, BeatBytes(p)); }
  }

  ghost function GatherData(c: Config, p: AddressPayload, staged: seq<Staged>): (r: seq<byte>)
    requires c.width > 0 && AllStaged(c, p, staged)
    ensures |r| == Total(p)
  {
    seq(Total(p), i requires 0 <= i < Total(p) =>
      GatherIndex(p, i);
      if GatherEnabled(p, i) then staged[i / BeatBytes(p)].data[(p.address + i) % c.width] else 0)
  }

  ghost function GatherStrobe(c: Config, p: AddressPayload, staged: seq<Staged>): (r: seq<bool>)
    requires c.width > 0 && AllStaged(c, p, staged)
    ensures |r| == Total(p)
  {
    seq(Total(p), i requires 0 <= i < Total(p) =>
      GatherIndex(p, i);
      GatherEnabled(p, i) && staged[i / BeatBytes(p)].strobe[(p.address + i) % c.width] != 0)
  }

  predicate StrobedAt(p: AddressPayload, strobe: seq<bool>, a: int) {
    p.address <= a < p.address + |strobe| && strobe[a - p.address]
  }

  ghost function GatherTouched(p: AddressPayload, strobe: seq<bool>): set<int> {
    set a | p.address <= a < p.address + |strobe| && StrobedAt(p, strobe, a)
  }

  /** Does this exclusive write find its reservation? */
  ghost predicate Reserved(ms: seq<Monitor>, r: Route) {
    var i := FindMonitor(ms, r.port, r.payload.id, 0);
    i.Some? && ms[i.value].payload == r.payload
  }

  /** The front route is a complete exclusive write. */
  ghost predicate Finishing(c: Config, s: Fabric) {
    && Sized(c, s) && RoutesOk(c, s)
    && s.writeRoutes != [] && s.writeRoutes[0].dataComplete && s.writeRoutes[0].route.payload.lock
  }

  lemma FinishingFacts(c: Config, s: Fabric)
    requires Finishing(c, s)
    ensures var f := s.writeRoutes[0];
            WriteOk(c, f) && AllStaged(c, f.route.payload, f.staged) && (f.route.forced.Okay? ==> Mapped(c, f.route))
  {
    assert WriteOk(c, s.writeRoutes[0]);
    RouteFacts(c, s.writeRoutes[0].route);
  }

  /** The exclusive write reaches its device: mapped, supported and reserved. */
  ghost predicate Takes(s: Fabric)
    requires s.writeRoutes != []
  {
    s.writeRoutes[0].route.forced.Okay? && Reserved(s.monitors, s.writeRoutes[0].route)
  }

  ghost function ExclusiveAnswer(c: Config, s: Fabric, reply: Reply): Response
    requires Finishing(c, s)
  {
    FinishingFacts(c, s);
    var r := s.writeRoutes[0].route;
    if !Takes(s) then r.forced
    else
      var answer := DeviceAnswer(c, r, r.payload.address + Total(r.payload), reply);
      if Success(answer) then ExclusiveOkay else answer
  }

  /** `finish_exclusive_write`: one gathered access, then the key's monitor is cleared. */
  ghost function ExclusiveEffect(c: Config, s: Fabric, reply: Reply): (r: Fabric)
    requires Finishing(c, s)
    ensures AccessOnly(s, r) && Sized(c, r)
  {
    FinishingFacts(c, s);
    var f := s.writeRoutes[0];
    var p := f.route.payload;
    var finish := [ExclusiveWrite(|s.h.done|, f.route, ExclusiveAnswer(c, s, reply), s.mem)];
    if !Takes(s) then
      s.(suppressRead := true, monitors := ClearMonitor(s.monitors, f.route.port, p.id),
         h := s.h.(events := s.h.events + finish))
    else
      var data, strobe := GatherData(c, p, f.staged), GatherStrobe(c, p, f.staged);
      var ok := ExclusiveAnswer(c, s, reply).ExclusiveOkay?;
      var touched := GatherTouched(p, strobe);
      var access := DeviceWrite(|s.h.done|, f.route.mapping.value, p.address - MappingOf(c, f.route).base,
                                data, strobe);
      s.(suppressRead := true,
         mem := StoreAt(c, s.mem, f.route, p.address, data, strobe),
         monitors := ClearMonitor(if ok then Invalidate(s.monitors, touched) else s.monitors, f.route.port, p.id),
         h := s.h.(events := s.h.events + finish + (if ok then [BusWrite(touched)] else []),
                   accesses := s.h.accesses + [access], replies := s.h.replies + [reply]))
  }

  ghost function FinishExclusive(c: Config, s: Fabric, reply: Reply): (r: Fabric)
    requires Finishing(c, s)
    ensures Sized(c, r)
  {
    FinishingFacts(c, s);
    CompleteWrite(c, ExclusiveEffect(c, s, reply), s.writeRoutes[0].(response := ExclusiveAnswer(c, s, reply)))
  }

  ghost function WriteCommit(c: Config, s: Fabric, reply: Reply): (r: Fabric)
    requires Sized(c, s) && RoutesOk(c, s)
    requires s.writeRoutes != [] && s.writeRoutes[0].dataComplete
    ensures Sized(c, r)
  {
    var f := s.writeRoutes[0];
    if |s.ports[f.route.port].b| == c.responseDepth then s
    else if f.route.payload.lock then FinishExclusive(c, s, reply)
    else if !f.route.forced.Okay? then CompleteWrite(c, s, f.(response := Combine(f.response, f.route.forced)))
    else CommitBeat(c, s, reply)
  }

  /** Every strobed lane of the beat is enabled. */
  ghost predicate StrobesLegal(c: Config, p: AddressPayload, k: nat, strobe: seq<byte>)
    requires c.width > 0 && |strobe| == c.width
  {
    forall lane | 0 <= lane < c.width && strobe[lane] != 0 ::
      Lo(p, k) <= AlignDown(BeatAddress(p, k), c.width) + lane < Hi(p, k)
  }

  /** Moves the oldest W beat of the front route's port into its staging area. */
  ghost function StageBeat(c: Config, s: Fabric): (r: Fabric)
    requires Sized(c, s) && s.writeRoutes != [] && s.writeRoutes[0].route.port < c.ports
    requires s.ports[s.writeRoutes[0].route.port].w != []
    ensures Sized(c, r)
  {
    var f := s.writeRoutes[0];
    var port := s.ports[f.route.port];
    var beat := port.w[0];
    var f1 := f.(staged := f.staged + [Staged(beat.data, beat.strobe)],
                 dataComplete := |f.staged| + 1 == Beats(f.route.payload));
    SetPort(s, f.route.port, port.(w := port.w[1..])).(writeRoutes := s.writeRoutes[0 := f1])
  }

  lemma StagedComplete(c: Config, s: Fabric)
    requires Sized(c, s) && s.writeRoutes != [] && s.writeRoutes[0].route.port < c.ports
    requires s.ports[s.writeRoutes[0].route.port].w != []
    ensures var t := StageBeat(c, s);
            t.writeRoutes != [] &&
            t.writeRoutes[0].dataComplete == (|s.writeRoutes[0].staged| + 1 == Beats(s.writeRoutes[0].route.payload))
  {}

  lemma StageKeepsRoutes(c: Config, s: Fabric)
    requires Sized(c, s) && RoutesOk(c, s) && s.writeRoutes != [] && !s.writeRoutes[0].dataComplete
    requires s.ports[s.writeRoutes[0].route.port].w != []
    ensures RoutesOk(c, StageBeat(c, s))
  {
    var f := s.writeRoutes[0];
    var q := f.route.port;
    var t := StageBeat(c, s);
    assert BeatSized(c, s.ports[q].w[0]);
    forall p, i | 0 <= p < |t.ports| && 0 <= i < |t.ports[p].w| ensures BeatSized(c, t.ports[p].w[i]) {
      if p == q { assert t.ports[p].w[i] == s.ports[q].w[i + 1]; } else { assert t.ports[p] == s.ports[p]; }
    }
    forall i | 0 <= i < |t.writeRoutes[0].staged| ensures StagedOk(c, t.writeRoutes[0].staged[i]) {
      if i < |f.staged| { assert StagedOk(c, f.staged[i]); }
    }
    assert WriteOk(c, f);
    assert WriteOk(c, t.writeRoutes[0]);
  }

  ghost function WriteStep(c: Config, s: Fabric, reply: Reply): (o: Outcome)
    requires Sized(c, s) && RoutesOk(c, s)
    ensures Sized(c, o.s)
  {
    if s.writeRoutes == [] then Done(s)
    else
      var f := s.writeRoutes[0];
      if f.dataComplete then Done(WriteCommit(c, s, reply))
      else if s.ports[f.route.port].w == [] then Done(s)
      else
        var beat := s.ports[f.route.port].w[0];
        var final := |f.staged| + 1 == Beats(f.route.payload);
        assert BeatSized(c, beat);
        if beat.last != final then Failed(s, if final then LastMissing else LastEarly)
        else if !StrobesLegal(c, f.route.payload, |f.staged|, beat.strobe) then Failed(s, BadStrobe)
        else
          StageKeepsRoutes(c, s);
          var s1 := StageBeat(c, s);
          Done(if final then WriteCommit(c, s1, reply) else s1)
  }

  // ---- phase 6: read beats ---------------------------------------------------------------

  ghost function Establish(c: Config, s: Fabric, r: Route): (o: Outcome)
    requires Sized(c, s)
    ensures Sized(c, o.s)
  {
    var found := FindMonitor(s.monitors, r.port, r.payload.id, 0);
    var slot := if found.Some? then found else FindFree(s.monitors, 0);
    if slot.None? then Failed(s, MonitorsFull)
    else Done(s.(monitors := s.monitors[slot.value := Held(r.port, r.payload)],
                 h := s.h.(events := s.h.events + [Reserve(r.port, r.payload, s.mem, |s.h.served|)])))
  }

  ghost function ServedBeat(c: Config, mem: Mem, r: Route, k: nat, reply: Reply): ReadBeat
    requires RouteOk(c, r) && MemOk(c, mem)
  {
    RouteFacts(c, r);
    var last := k + 1 == Beats(r.payload);
    if r.forced.Okay? then
      var answer := ReadAnswer(c, r, k, reply);
      ReadBeat(r.payload.id, ReadWord(c, mem, r, k, reply),
               if r.payload.lock && answer.Okay? then ExclusiveOkay else answer, last)
    else ReadBeat(r.payload.id, seq(c.width, _ => 0), r.forced, last)
  }

  /** The device read of one beat, unless its response is forced or it has no lanes. */
  ghost function ReadAccess(c: Config, r: Route, k: nat): seq<Access>
    requires RouteOk(c, r)
  {
    RouteFacts(c, r);
    if !r.forced.Okay? || EmptyBeat(r.payload, k) then []
    else [DeviceRead(r.mapping.value, Lo(r.payload, k) - MappingOf(c, r).base,
                     Lanes(c, r.payload, k, Mask(c.width, r.payload, k)))]
  }

  ghost function ServeRead(c: Config, s: Fabric, reply: Reply): (r: Fabric)
    requires Sized(c, s) && RoutesOk(c, s) && s.readRoutes != []
    ensures Sized(c, r)
  {
    var f := s.readRoutes[0];
    RouteFacts(c, f.route);
    var p := f.route.payload;
    var out := ServedBeat(c, s.mem, f.route, f.beat, reply);
    var port := s.ports[f.route.port];
    var s1 := SetPort(s, f.route.port, port.(r := Push(port.r, c.responseDepth, out)));
    s1.(readRoutes := if f.beat + 1 == Beats(p) then s.readRoutes[1..] else s.readRoutes[0 := f.(beat := f.beat + 1)],
        h := s1.h.(
          served := s1.h.served + [Served(f.route, f.beat, |s1.h.done|, |s1.h.events|, reply, out)],
          accesses := s1.h.accesses + ReadAccess(c, f.route, f.beat),
          replies := s1.h.replies + if ReadAccess(c, f.route, f.beat) == [] then [] else [reply]))
  }

  ghost function ReadStep(c: Config, s: Fabric, reply: Reply): (o: Outcome)
    requires Sized(c, s) && RoutesOk(c, s)
    ensures Sized(c, o.s)
  {
    if s.readRoutes == [] then Done(s)
    else
      var f := s.readRoutes[0];
      if |s.ports[f.route.port].r| == c.responseDepth then Done(s)
      else if f.route.payload.lock && f.beat == 0 && f.route.forced.Okay? then
        var o := Establish(c, s, f.route);
        if o.Failed? then o else Done(ServeRead(c, o.s, reply))
      else Done(ServeRead(c, s, reply))
  }
}
