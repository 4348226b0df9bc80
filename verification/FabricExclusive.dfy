/**
  Exclusive accesses: the monitor table decides exactly what the history of the
  bus says it should, and a successful exclusive write proves that nobody wrote
  the guarded bytes in between.
 */
module FabricExclusive {
  import opened Axi
  import opened Fabric
  import opened FabricWindow

  // ---- reservations as the history defines them ---------------------------------------------

  ghost predicate Touches(touched: set<int>, p: AddressPayload) { exists a :: a in touched && Guards(p, a) }

  predicate Claims(e: Event, port: nat, id: u64) { e.Reserve? && e.port == port && e.payload.id == id }

  predicate Spends(e: Event, port: nat, id: u64) {
    e.ExclusiveWrite? && e.route.port == port && e.route.payload.id == id
  }

  /** Event j is an exclusive read of {port,id}, and since then there was no other
      one, no exclusive write of that key and no accepted write to its bytes. */
  ghost predicate Standing(es: seq<Event>, port: nat, id: u64, j: nat) {
    && j < |es| && Claims(es[j], port, id)
    && forall k | j < k < |es| ::
         && !Claims(es[k], port, id) && !Spends(es[k], port, id)
         && (es[k].BusWrite? ==> !Touches(es[k].touched, es[j].payload))
  }

  /** The standing reservation of a key, computed from the end of the history. */
  ghost function Current(es: seq<Event>, port: nat, id: u64): (r: Option<nat>)
    ensures r.Some? ==> r.value < |es| && Claims(es[r.value], port, id)
  {
    if es == [] then None
    else
      var n := |es| - 1;
      var before := Current(es[..n], port, id);
      if Claims(es[n], port, id) then Some(n)
      else if Spends(es[n], port, id) then None
      else if es[n].BusWrite? && before.Some? && Touches(es[n].touched, es[before.value].payload) then None
      else before
  }

  /** The computed reservation is the standing one, and there is only one. */
  lemma {:induction false} CurrentIsStanding(es: seq<Event>, port: nat, id: u64, j: nat)
    ensures Current(es, port, id) == Some(j) <==> Standing(es, port, id, j)
  {
    if es != [] {
      var n := |es| - 1;
      CurrentIsStanding(es[..n], port, id, j);
      var before := Current(es[..n], port, id);
      if before.Some? { CurrentIsStanding(es[..n], port, id, before.value); }
      if Standing(es, port, id, j) && j < n { assert Standing(es[..n], port, id, j); }
    }
  }

  ghost function CurrentPayload(es: seq<Event>, port: nat, id: u64): Option<AddressPayload> {
    var j := Current(es, port, id);
    if j.Some? then Some(es[j.value].payload) else None
  }

  lemma CurrentPush(es: seq<Event>, e: Event, port: nat, id: u64)
    ensures CurrentPayload(es + [e], port, id) ==
            if Claims(e, port, id) then Some(e.payload)
            else if Spends(e, port, id) then None
            else if e.BusWrite? && CurrentPayload(es, port, id).Some? &&
                    Touches(e.touched, CurrentPayload(es, port, id).value) then None
            else CurrentPayload(es, port, id)
  {
    assert (es + [e])[..|es|] == es;
  }

  // ---- the monitor table -----------------------------------------------------------------------

  ghost predicate Unique(ms: seq<Monitor>) {
    forall i, j | 0 <= i < j < |ms| && ms[i].Held? && ms[j].Held? ::
      ms[i].port != ms[j].port || ms[i].payload.id != ms[j].payload.id
  }

  ghost function MonitorOf(ms: seq<Monitor>, port: nat, id: u64): Option<AddressPayload> {
    var i := FindMonitor(ms, port, id, 0);
    if i.Some? then Some(ms[i.value].payload) else None
  }

  lemma MonitorAt(ms: seq<Monitor>, port: nat, id: u64, i: nat)
    requires Unique(ms) && i < |ms| && Keyed(ms[i], port, id)
    ensures MonitorOf(ms, port, id) == Some(ms[i].payload)
  {
    var f := FindMonitor(ms, port, id, 0);
    assert Keyed(ms[f.value], port, id);
  }

  lemma NoMonitor(ms: seq<Monitor>, port: nat, id: u64)
    requires forall i | 0 <= i < |ms| :: !Keyed(ms[i], port, id)
    ensures MonitorOf(ms, port, id) == None
  {}

  lemma ClearKeeps(ms: seq<Monitor>, port: nat, id: u64, q: nat, j: u64)
    requires Unique(ms)
    ensures Unique(ClearMonitor(ms, port, id))
    ensures MonitorOf(ClearMonitor(ms, port, id), q, j) ==
            if q == port && j == id then None else MonitorOf(ms, q, j)
  {
    var t := ClearMonitor(ms, port, id);
    var f := FindMonitor(ms, q, j, 0);
    if q == port && j == id {
      NoMonitor(t, q, j);
    } else if f.Some? {
      MonitorAt(ms, q, j, f.value);
      MonitorAt(t, q, j, f.value);
    } else {
      NoMonitor(t, q, j);
    }
  }

  lemma InvalidateKeeps(ms: seq<Monitor>, touched: set<int>, q: nat, j: u64)
    requires Unique(ms)
    ensures Unique(Invalidate(ms, touched))
    ensures var m := MonitorOf(ms, q, j);
            MonitorOf(Invalidate(ms, touched), q, j) == if m.Some? && Touches(touched, m.value) then None else m
  {
    var t := Invalidate(ms, touched);
    var f := FindMonitor(ms, q, j, 0);
    if f.Some? {
      MonitorAt(ms, q, j, f.value);
      if Touches(touched, ms[f.value].payload) {
        assert t[f.value].Free?;
        NoMonitor(t, q, j);
      } else {
        MonitorAt(t, q, j, f.value);
      }
    } else {
      NoMonitor(t, q, j);
    }
  }

  lemma HoldKeeps(ms: seq<Monitor>, slot: nat, port: nat, p: AddressPayload, q: nat, j: u64)
    requires Unique(ms) && slot < |ms|
    requires Keyed(ms[slot], port, p.id) || (ms[slot].Free? && forall i | 0 <= i < |ms| :: !Keyed(ms[i], port, p.id))
    ensures Unique(ms[slot := Held(port, p)])
    ensures MonitorOf(ms[slot := Held(port, p)], q, j) ==
            if q == port && j == p.id then Some(p) else MonitorOf(ms, q, j)
  {
    var t := ms[slot := Held(port, p)];
    var f := FindMonitor(ms, q, j, 0);
    if q == port && j == p.id {
      MonitorAt(t, q, j, slot);
    } else if f.Some? {
      MonitorAt(ms, q, j, f.value);
      MonitorAt(t, q, j, f.value);
    } else {
      NoMonitor(t, q, j);
    }
  }

  /** The table holds exactly the standing reservations, at most one per key. */
  ghost predicate TableOk(ms: seq<Monitor>, es: seq<Event>) {
    && Unique(ms)
    && forall port: nat, id: u64 :: MonitorOf(ms, port, id) == CurrentPayload(es, port, id)
  }

  lemma TableAfterStore(ms: seq<Monitor>, es: seq<Event>, touched: set<int>)
    requires TableOk(ms, es)
    ensures TableOk(Invalidate(ms, touched), es + [BusWrite(touched)])
  {
    InvalidateKeeps(ms, touched, 0, 0);
    forall port: nat, id: u64
      ensures MonitorOf(Invalidate(ms, touched), port, id) == CurrentPayload(es + [BusWrite(touched)], port, id)
    {
      InvalidateKeeps(ms, touched, port, id);
      CurrentPush(es, BusWrite(touched), port, id);
    }
  }

  lemma TableAfterSpend(ms: seq<Monitor>, es: seq<Event>, e: Event)
    requires TableOk(ms, es) && e.ExclusiveWrite?
    ensures TableOk(ClearMonitor(ms, e.route.port, e.route.payload.id), es + [e])
  {
    var port, id := e.route.port, e.route.payload.id;
    ClearKeeps(ms, port, id, 0, 0);
    forall q: nat, j: u64
      ensures MonitorOf(ClearMonitor(ms, port, id), q, j) == CurrentPayload(es + [e], q, j)
    {
      ClearKeeps(ms, port, id, q, j);
      CurrentPush(es, e, q, j);
    }
  }

  /** Invalidation and clearing touch different reasons, so their order is free. */
  lemma ClearInvalidateCommute(ms: seq<Monitor>, touched: set<int>, port: nat, id: u64)
    requires Unique(ms)
    ensures ClearMonitor(Invalidate(ms, touched), port, id) == Invalidate(ClearMonitor(ms, port, id), touched)
  {
    var f := FindMonitor(ms, port, id, 0);
    var inv := Invalidate(ms, touched);
    var g := FindMonitor(inv, port, id, 0);
    if g.Some? {
      assert Keyed(ms[g.value], port, id);
      assert Keyed(ms[f.value], port, id);
    } else if f.Some? {
      assert inv[f.value].Free?;
    }
    assert ClearMonitor(inv, port, id) == Invalidate(ClearMonitor(ms, port, id), touched);
  }

  lemma TableAfterReserve(ms: seq<Monitor>, es: seq<Event>, slot: nat, e: Event)
    requires TableOk(ms, es) && e.Reserve? && slot < |ms|
    requires Keyed(ms[slot], e.port, e.payload.id) ||
             (ms[slot].Free? && forall i | 0 <= i < |ms| :: !Keyed(ms[i], e.port, e.payload.id))
    ensures TableOk(ms[slot := Held(e.port, e.payload)], es + [e])
  {
    HoldKeeps(ms, slot, e.port, e.payload, 0, 0);
    forall q: nat, j: u64
      ensures MonitorOf(ms[slot := Held(e.port, e.payload)], q, j) == CurrentPayload(es + [e], q, j)
    {
      HoldKeeps(ms, slot, e.port, e.payload, q, j);
      CurrentPush(es, e, q, j);
    }
  }

  lemma TableEmpty(n: nat)
    ensures TableOk(seq(n, _ => Free), [])
  {
    var ms := seq(n, _ => Free);
    forall port: nat, id: u64 ensures MonitorOf(ms, port, id) == CurrentPayload([], port, id) {
      NoMonitor(ms, port, id);
    }
  }

  // ---- every exclusive write was decided by the reservation standing at that moment ----------------

  /** The RAM behind the route holds the whole transfer. */
  ghost predicate FitsWhole(c: Config, r: Route)
    requires Mapped(c, r)
  {
    Fits(c, r, r.payload.address + Total(r.payload))
  }

  /** The answer an exclusive write got, given the history before it. */
  ghost predicate DecidedOk(c: Config, before: seq<Event>, e: Event)
    requires e.ExclusiveWrite?
  {
    && RouteOk(c, e.route) && e.route.payload.lock
    && (!e.route.forced.Okay? ==> e.response == e.route.forced)
    && (e.route.forced.Okay? ==>
          (RouteFacts(c, e.route);
           if CurrentPayload(before, e.route.port, e.route.payload.id) != Some(e.route.payload) then e.response == Okay
           else if DeviceOf(c, e.route).Ram? then
             e.response == (if FitsWhole(c, e.route) then ExclusiveOkay else SlaveError)
           else !e.response.Okay?))
  }

  ghost predicate Decided(c: Config, es: seq<Event>) {
    forall k | 0 <= k < |es| && es[k].ExclusiveWrite? :: DecidedOk(c, es[..k], es[k])
  }

  /** Each decision is the one the write's B response reports. */
  ghost predicate Reported(es: seq<Event>, rs: seq<Route>, done: seq<DoneWrite>) {
    forall k | 0 <= k < |es| && es[k].ExclusiveWrite? ::
      && es[k].index < |done| && es[k].index < |rs|
      && rs[es[k].index] == es[k].route && done[es[k].index].response.response == es[k].response
  }

  lemma DecidedPush(c: Config, es: seq<Event>, e: Event)
    requires Decided(c, es) && (e.ExclusiveWrite? ==> DecidedOk(c, es, e))
    ensures Decided(c, es + [e])
  {
    var t := es + [e];
    forall k | 0 <= k < |t| && t[k].ExclusiveWrite? ensures DecidedOk(c, t[..k], t[k]) {
      if k < |es| { assert t[..k] == es[..k]; } else { assert t[..k] == es; }
    }
  }

  // ---- bytes nobody stored to keep their value ----------------------------------------------------------

  ghost predicate InRam(c: Config, x: nat, a: int) {
    && ConfigOk(c) && x < |c.mappings| && c.mappings[x].Contains(a, 1)
    && c.devices[c.mappings[x].device].Ram? && a - c.mappings[x].base < c.devices[c.mappings[x].device].size
  }

  ghost function ByteAt(c: Config, mem: Mem, x: nat, a: int): byte
    requires InRam(c, x, a) && MemOk(c, mem)
  {
    mem[c.mappings[x].device][a - c.mappings[x].base]
  }

  /** Address b of window y is the byte that address a of window x is: an alias, or itself. */
  ghost predicate SameByte(c: Config, x: nat, a: int, y: nat, b: int) {
    && x < |c.mappings| && y < |c.mappings| && c.mappings[x].device == c.mappings[y].device
    && c.mappings[y].Contains(b, 1) && b - c.mappings[y].base == a - c.mappings[x].base
  }

  /** A write of these bus addresses reached that byte, through whichever window. */
  ghost predicate Stored(c: Config, touched: set<int>, x: nat, a: int) {
    exists y: nat, b :: b in touched && SameByte(c, x, a, y, b)
  }

  /** Since event j nobody stored to that byte. */
  ghost predicate Unstored(c: Config, es: seq<Event>, j: nat, x: nat, a: int) {
    forall k | j < k < |es| && es[k].BusWrite? :: !Stored(c, es[k].touched, x, a)
  }

  /** No other window shows that byte at an address the bus can carry. */
  ghost predicate Sole(c: Config, x: nat, a: int) {
    forall y: nat, b :: SameByte(c, x, a, y, b) && b <= AddressLimit(c) ==> y == x
  }

  /** Stores use only addresses the bus can carry. */
  ghost predicate Narrow(c: Config, es: seq<Event>) {
    forall k | 0 <= k < |es| && es[k].BusWrite? :: forall a | a in es[k].touched :: a <= AddressLimit(c)
  }

  /** Memory changes only at the bytes stored to. */
  ghost predicate OnlyStored(c: Config, m1: Mem, m2: Mem, touched: set<int>) {
    && MemOk(c, m1) && MemOk(c, m2)
    && forall x: nat, a: int | InRam(c, x, a) && !Stored(c, touched, x, a) :: ByteAt(c, m1, x, a) == ByteAt(c, m2, x, a)
  }

  ghost predicate ByteKept(c: Config, es: seq<Event>, mem: Mem, j: nat, x: nat, a: int)
    requires j < |es| && es[j].Reserve? && InRam(c, x, a)
  {
    Unstored(c, es, j, x, a) ==>
      MemOk(c, es[j].mem) && MemOk(c, mem) && ByteAt(c, es[j].mem, x, a) == ByteAt(c, mem, x, a)
  }

  /** Every byte not stored to since an exclusive read holds what it held then. */
  ghost predicate Kept(c: Config, es: seq<Event>, mem: Mem) {
    forall j: nat, x: nat, a: int | j < |es| && es[j].Reserve? && InRam(c, x, a) :: ByteKept(c, es, mem, j, x, a)
  }

  /** The same at the moment of every exclusive write. */
  ghost predicate Vouched(c: Config, es: seq<Event>) {
    forall k | 0 <= k < |es| && es[k].ExclusiveWrite? :: Kept(c, es[..k], es[k].mem)
  }

  lemma KeptPush(c: Config, es: seq<Event>, e: Event, m1: Mem, m2: Mem)
    requires Kept(c, es, m1) && MemOk(c, m1) && MemOk(c, m2)
    requires if e.BusWrite? then OnlyStored(c, m1, m2, e.touched) else m2 == m1
    requires e.Reserve? ==> e.mem == m1
    ensures Kept(c, es + [e], m2)
  {
    hide InRam, Stored;
    var t := es + [e];
    forall j: nat, x: nat, a: int | j < |t| && t[j].Reserve? && InRam(c, x, a) ensures ByteKept(c, t, m2, j, x, a) {
      if j < |es| && Unstored(c, t, j, x, a) {
        forall k | j < k < |es| && es[k].BusWrite? ensures !Stored(c, es[k].touched, x, a) { assert t[k] == es[k]; }
        assert ByteKept(c, es, m1, j, x, a);
        if e.BusWrite? { assert !Stored(c, t[|es|].touched, x, a); }
      }
    }
  }

  lemma VouchedPush(c: Config, es: seq<Event>, e: Event)
    requires Vouched(c, es)
    requires e.ExclusiveWrite? ==> Kept(c, es, e.mem)
    ensures Vouched(c, es + [e])
  {
    hide Kept;
    var t := es + [e];
    forall k | 0 <= k < |t| && t[k].ExclusiveWrite? ensures Kept(c, t[..k], t[k].mem) {
      if k < |es| { assert t[..k] == es[..k]; } else { assert t[..k] == es; }
    }
  }

  // ---- what one access does to memory --------------------------------------------------------------------

  /** Writing through r's window changes only the bytes behind the strobed addresses. */
  lemma StoreAtStores(c: Config, mem: Mem, r: Route, lo: nat, data: seq<byte>, strobe: seq<bool>, touched: set<int>)
    requires Mapped(c, r) && MemOk(c, mem) && |data| == |strobe|
    requires forall i | 0 <= i < |strobe| && strobe[i] :: lo + i in touched && MappingOf(c, r).Contains(lo + i, 1)
    ensures OnlyStored(c, mem, StoreAt(c, mem, r, lo, data, strobe), touched)
  {
    var m2, m := StoreAt(c, mem, r, lo, data, strobe), MappingOf(c, r);
    forall x: nat, a: int | InRam(c, x, a) && !Stored(c, touched, x, a)
      ensures ByteAt(c, mem, x, a) == ByteAt(c, m2, x, a)
    {
      var b := m.base + (a - c.mappings[x].base);
      if c.mappings[x].device == m.device && lo <= b < lo + |strobe| && strobe[b - lo] {
        assert SameByte(c, x, a, r.mapping.value, b);
      }
    }
  }

  lemma TouchedCovers(c: Config, p: AddressPayload, k: nat, st: Staged)
    requires BusWidth(c.width) && ShapeOk(c.width, p) && StagedOk(c, st)
    ensures var strobe := Lanes(c, p, k, Strobes(st.strobe));
            forall i | 0 <= i < |strobe| && strobe[i] :: Lo(p, k) + i in Touched(c, p, k, st)
  {
    LanesFit(c, p, k);
    var strobe := Lanes(c, p, k, Strobes(st.strobe));
    forall i | 0 <= i < |strobe| && strobe[i] ensures Lo(p, k) + i in Touched(c, p, k, st) {
      LaneInWord(c.width, Lo(p, k), Lo(p, k) + i);
    }
  }

  lemma BeatStores(c: Config, mem: Mem, r: Route, k: nat, st: Staged)
    requires RouteOk(c, r) && Mapped(c, r) && MemOk(c, mem) && StagedOk(c, st) && k < Beats(r.payload)
    requires !EmptyBeat(r.payload, k)
    ensures OnlyStored(c, mem, StoreBeat(c, mem, r, k, st), Touched(c, r.payload, k, st))
  {
    hide StoreAt, Touched, OnlyStored, InitRoute;
    TouchedCovers(c, r.payload, k, st);
    BeatInWindow(c, r, k);
    StoreAtStores(c, mem, r, Lo(r.payload, k), Lanes(c, r.payload, k, st.data),
                  Lanes(c, r.payload, k, Strobes(st.strobe)), Touched(c, r.payload, k, st));
  }
}
