/**
  The platform of `src/platform.cpp`: checks and records the sideband
  connections, orders the devices, and settles them once per change.
 */
module Platforms {
  import opened Topology

  /** A port of a device; ports are numbered. */
  datatype Endpoint = Endpoint(device: nat, port: nat)

  datatype Connection = Connection(source: Endpoint, destination: Endpoint)

  datatype Outcome =
    Connected | UnknownDevice | UnknownInput | MultipleDrivers | UnknownOutput | WidthMismatch | SidebandCycle

  function Edges(cs: seq<Connection>): (r: seq<Edge>)
    ensures |r| == |cs|
    ensures forall k | 0 <= k < |cs| :: r[k] == Edge(cs[k].source.device, cs[k].destination.device)
  {
    seq(|cs|, k requires 0 <= k < |cs| => Edge(cs[k].source.device, cs[k].destination.device))
  }

  /** The ports of the devices, with their widths. */
  datatype Ports = Ports(devices: nat, inputs: map<Endpoint, nat>, outputs: map<Endpoint, nat>)

  /** Connection k taken after the connections before it. */
  ghost predicate DrivenBefore(cs: seq<Connection>, k: nat)
    requires k < |cs|
  {
    exists j :: 0 <= j < k && cs[j].destination == cs[k].destination
  }

  ghost function Fault(p: Ports, cs: seq<Connection>, k: nat): Outcome
    requires k < |cs|
  {
    var c := cs[k];
    if c.source.device >= p.devices || c.destination.device >= p.devices then UnknownDevice
    else if c.destination !in p.inputs then UnknownInput
    else if DrivenBefore(cs, k) then MultipleDrivers
    else if c.source !in p.outputs then UnknownOutput
    else if p.outputs[c.source] != p.inputs[c.destination] || !(1 <= p.inputs[c.destination] <= 64) then WidthMismatch
    else Connected
  }

  /** The first n connections are free of faults. */
  ghost predicate Legal(p: Ports, cs: seq<Connection>, n: nat)
    requires n <= |cs|
  {
    forall k | 0 <= k < n :: Fault(p, cs, k) == Connected
  }

  /** Each connected input reads the output it was connected to. */
  ghost predicate Sourced(cs: seq<Connection>, n: nat, source: map<Endpoint, Endpoint>)
    requires n <= |cs|
  {
    && (forall e | e in source :: exists k :: 0 <= k < n && cs[k].destination == e)
    && (forall k | 0 <= k < n :: cs[k].destination in source && source[cs[k].destination] == cs[k].source)
  }

  lemma LegalWiring(p: Ports, cs: seq<Connection>)
    requires Legal(p, cs, |cs|)
    ensures Wiring(p.devices, Edges(cs))
  {
    forall k | 0 <= k < |cs|
      ensures Edges(cs)[k].source < p.devices && Edges(cs)[k].target < p.devices
    {
      assert Fault(p, cs, k) == Connected;
    }
  }

  lemma NextEdge(cs: seq<Connection>, k: nat, d: nat)
    requires k < |cs|
    ensures var edges := Edges(cs);
            && Successors(edges[..k + 1], d)
               == Successors(edges[..k], d) + (if d == cs[k].source.device then [cs[k].destination.device] else [])
            && Waiting(edges[..k + 1], {}, d)
               == Waiting(edges[..k], {}, d) + if d == cs[k].destination.device then 1 else 0
  {
    var edges := Edges(cs);
    assert edges[..k + 1][..k] == edges[..k];
    assert edges[..k + 1][k] == edges[k];
  }

  lemma Unwired(p: Ports, cs: seq<Connection>)
    ensures Legal(p, cs, 0) && Sourced(cs, 0, map[])
    ensures forall d: nat :: Successors(Edges(cs)[..0], d) == [] && Waiting(Edges(cs)[..0], {}, d) == 0
  {}

  lemma DrivenIsSourced(cs: seq<Connection>, k: nat, source: map<Endpoint, Endpoint>)
    requires k < |cs| && Sourced(cs, k, source)
    ensures cs[k].destination in source <==> DrivenBefore(cs, k)
  {}

  lemma Recorded(p: Ports, cs: seq<Connection>, k: nat, source: map<Endpoint, Endpoint>)
    requires k < |cs| && Sourced(cs, k, source) && Legal(p, cs, k) && Fault(p, cs, k) == Connected
    ensures Legal(p, cs, k + 1)
    ensures Sourced(cs, k + 1, source[cs[k].destination := cs[k].source])
  {
    DrivenIsSourced(cs, k, source);
  }

  // ---- settling -----------------------------------------------------------

  /** Two states of the platform that device d cannot tell apart. */
  ghost predicate Alike<S(!new)>(edges: seq<Edge>, d: nat, s: seq<S>, t: seq<S>) {
    && |s| == |t| && d < |s| && s[d] == t[d]
    && forall a: nat | a < |s| && Drives(edges, a, d) :: s[a] == t[a]
  }

  /** A device sees itself and the outputs that drive it, nothing else. */
  ghost predicate Local<S(!new)>(settle: (nat, seq<S>) -> S, edges: seq<Edge>) {
    forall d: nat, s, t | Alike(edges, d, s, t) :: settle(d, s) == settle(d, t)
  }

  /** Settling twice under the same inputs is settling once. */
  ghost predicate Idempotent<S(!new)>(settle: (nat, seq<S>) -> S) {
    forall d: nat, s | d < |s| :: settle(d, s[d := settle(d, s)]) == settle(d, s)
  }

  ghost predicate Settled<S(!new)>(settle: (nat, seq<S>) -> S, d: nat, s: seq<S>) {
    d < |s| && settle(d, s) == s[d]
  }

  predicate Within(order: seq<nat>, n: nat) {
    forall k | 0 <= k < |order| :: order[k] < n
  }

  /** The devices of `order` settled one after another. */
  function Pass<S>(settle: (nat, seq<S>) -> S, order: seq<nat>, s: seq<S>): (r: seq<S>)
    requires Within(order, |s|)
    ensures |r| == |s|
    ensures forall d | 0 <= d < |s| && d !in order :: r[d] == s[d]
  {
    if order == [] then s
    else
      var last := |order| - 1;
      var before := Pass(settle, order[..last], s);
      before[order[last] := settle(order[last], before)]
  }

  lemma {:induction false} PassSettles<S(!new)>(settle: (nat, seq<S>) -> S, edges: seq<Edge>, order: seq<nat>,
                                                s: seq<S>, d: nat)
    requires Local(settle, edges) && Idempotent(settle)
    requires Distinct(order) && DriversFirst(edges, order)
    requires Within(order, |s|)
    requires d in order
    ensures Settled(settle, d, Pass(settle, order, s))
  {
    var last := |order| - 1;
    var u, rest := order[last], order[..last];
    var before := Pass(settle, rest, s);
    var after := Pass(settle, order, s);
    if d != u {
      assert d in rest;
      PrefixOrdered(edges, order);
      PassSettles(settle, edges, rest, s, d);
      assert Alike(edges, d, before, after) by { LaterIsNoDriver(edges, order, d); }
    }
  }

  lemma PrefixOrdered(edges: seq<Edge>, order: seq<nat>)
    requires Distinct(order) && DriversFirst(edges, order) && order != []
    ensures Distinct(order[..|order| - 1]) && DriversFirst(edges, order[..|order| - 1])
  {
    var rest := order[..|order| - 1];
    forall k, a | 0 <= k < |rest| && Drives(edges, a, rest[k]) ensures a in rest[..k] {
      assert Drives(edges, a, order[k]);
      assert rest[..k] == order[..k];
    }
  }

  lemma LaterIsNoDriver(edges: seq<Edge>, order: seq<nat>, d: nat)
    requires Distinct(order) && DriversFirst(edges, order) && order != []
    requires d in order[..|order| - 1]
    ensures !Drives(edges, order[|order| - 1], d)
  {
    var k :| 0 <= k < |order| - 1 && order[k] == d;
    assert order[|order| - 1] !in order[..k];
    assert !Drives(edges, order[|order| - 1], order[k]);
  }

  lemma OrderWithin(n: nat, edges: seq<Edge>, order: seq<nat>)
    requires TopologicalOrder(n, edges, order)
    ensures Within(order, n)
  {
    forall k | 0 <= k < |order| ensures order[k] < n { assert order[k] in order; }
  }

  /** One pass along a topological order settles every device at once. */
  lemma OnePassIsFixpoint<S(!new)>(settle: (nat, seq<S>) -> S, n: nat, edges: seq<Edge>, order: seq<nat>, s: seq<S>)
    requires |s| == n && TopologicalOrder(n, edges, order)
    requires Local(settle, edges) && Idempotent(settle)
    ensures Within(order, n)
    ensures forall d | 0 <= d < n :: Settled(settle, d, Pass(settle, order, s))
    ensures Pass(settle, order, Pass(settle, order, s)) == Pass(settle, order, s)
  {
    OrderWithin(n, edges, order);
    var r := Pass(settle, order, s);
    forall d | 0 <= d < n ensures Settled(settle, d, r) {
      PassSettles(settle, edges, order, s, d);
    }
    NothingToDo(settle, order, r);
  }

  lemma {:induction false} NothingToDo<S(!new)>(settle: (nat, seq<S>) -> S, order: seq<nat>, s: seq<S>)
    requires Within(order, |s|) && forall d | d in order :: Settled(settle, d, s)
    ensures Pass(settle, order, s) == s
  {
    if order != [] {
      NothingToDo(settle, order[..|order| - 1], s);
      assert Settled(settle, order[|order| - 1], s);
    }
  }

  /** What a pass gives a device: its own step from the final state of its drivers. */
  lemma {:induction false} PassValue<S(!new)>(settle: (nat, seq<S>) -> S, edges: seq<Edge>, order: seq<nat>,
                                              s: seq<S>, d: nat)
    requires Local(settle, edges) && Distinct(order) && DriversFirst(edges, order)
    requires Within(order, |s|)
    requires d in order
    ensures var r := Pass(settle, order, s); r[d] == settle(d, r[d := s[d]])
  {
    var last := |order| - 1;
    var u, rest := order[last], order[..last];
    var before := Pass(settle, rest, s);
    var after := Pass(settle, order, s);
    assert order == rest + [u];
    if d != u {
      assert d in rest;
      PrefixOrdered(edges, order);
      PassValue(settle, edges, rest, s, d);
      LaterIsNoDriver(edges, order, d);
      assert Alike(edges, d, before[d := s[d]], after[d := s[d]]);
    } else {
      assert u !in rest;
      assert before[d] == s[d];
      assert after[d := s[d]] == before;
    }
  }

  /** Any two topological orders settle the platform to the same state. */
  lemma OrderDoesNotMatter<S(!new)>(settle: (nat, seq<S>) -> S, n: nat, edges: seq<Edge>,
                                    order: seq<nat>, order': seq<nat>, s: seq<S>)
    requires |s| == n && Local(settle, edges) && Wiring(n, edges)
    requires TopologicalOrder(n, edges, order) && TopologicalOrder(n, edges, order')
    ensures Within(order, n) && Within(order', n)
    ensures Pass(settle, order, s) == Pass(settle, order', s)
  {
    OrderWithin(n, edges, order);
    OrderWithin(n, edges, order');
    var r, r' := Pass(settle, order, s), Pass(settle, order', s);
    forall d | 0 <= d < n ensures r[d] == r'[d] {
      assert d in order;
      var k :| 0 <= k < |order| && order[k] == d;
      SameUpTo(settle, n, edges, order, order', s, k);
    }
  }

  lemma {:induction false} SameUpTo<S(!new)>(settle: (nat, seq<S>) -> S, n: nat, edges: seq<Edge>,
                                             order: seq<nat>, order': seq<nat>, s: seq<S>, k: nat)
    requires |s| == n && Local(settle, edges) && k < |order|
    requires TopologicalOrder(n, edges, order) && TopologicalOrder(n, edges, order')
    ensures Within(order, n) && Within(order', n)
    ensures Pass(settle, order, s)[order[k]] == Pass(settle, order', s)[order[k]]
    decreases k
  {
    OrderWithin(n, edges, order);
    OrderWithin(n, edges, order');
    var r, r' := Pass(settle, order, s), Pass(settle, order', s);
    var d := order[k];
    assert d in order && d in order';
    PassValue(settle, edges, order, s, d);
    PassValue(settle, edges, order', s, d);
    forall a: nat | a < n && a != d && Drives(edges, a, d) ensures r[a] == r'[a] {
      assert Drives(edges, a, order[k]);
      var i :| 0 <= i < k && order[i] == a;
      SameUpTo(settle, n, edges, order, order', s, i);
    }
    assert Alike(edges, d, r[d := s[d]], r'[d := s[d]]);
  }

  // ---- the platform ---------------------------------------------------------

  class Platform<S(!new)> {
    const ports: Ports
    const behaviour: (nat, seq<S>) -> S
    var source: map<Endpoint, Endpoint>
    var order: seq<nat>
    var state: seq<S>

    constructor (ports: Ports, behaviour: (nat, seq<S>) -> S, state: seq<S>)
      requires |state| == ports.devices
      ensures this.ports == ports && this.behaviour == behaviour && this.state == state
      ensures source == map[] && order == []
    {
      this.ports, this.behaviour, this.state := ports, behaviour, state;
      source, order := map[], [];
    }

    /** Checks and records the connections in turn, stopping at the first fault. */
    method Wire(cs: seq<Connection>) returns (outcome: Outcome, successors: seq<seq<nat>>, indegree: seq<nat>)
      requires source == map[]
      modifies this`source
      ensures outcome == Connected ==> Legal(ports, cs, |cs|) && Sourced(cs, |cs|, source)
      ensures outcome != Connected ==>
                exists k | 0 <= k < |cs| :: Legal(ports, cs, k) && Fault(ports, cs, k) == outcome
      ensures outcome != SidebandCycle
      ensures outcome == Connected ==>
                && |successors| == |indegree| == ports.devices
                && (forall d | 0 <= d < ports.devices ::
                      successors[d] == Successors(Edges(cs), d) && indegree[d] == Waiting(Edges(cs), {}, d))
    {
      hide Waiting, Successors, Legal, Sourced;
      var n := ports.devices;
      successors, indegree := seq(n, _ => []), seq(n, _ => 0);
      ghost var edges := Edges(cs);
      Unwired(ports, cs);
      var k := 0;
      while k < |cs|
        invariant 0 <= k <= |cs| && |successors| == |indegree| == n
        invariant Legal(ports, cs, k) && Sourced(cs, k, source) && edges == Edges(cs)
        invariant forall d | 0 <= d < n ::
                    successors[d] == Successors(edges[..k], d) && indegree[d] == Waiting(edges[..k], {}, d)
      {
        var c := cs[k];
        ghost var fault := Fault(ports, cs, k);
        if c.source.device >= n || c.destination.device >= n {
          assert fault == UnknownDevice;
          return UnknownDevice, successors, indegree;
        }
        if c.destination !in ports.inputs {
          assert fault == UnknownInput;
          return UnknownInput, successors, indegree;
        }
        DrivenIsSourced(cs, k, source);
        if c.destination in source {
          assert fault == MultipleDrivers;
          return MultipleDrivers, successors, indegree;
        }
        if c.source !in ports.outputs {
          assert fault == UnknownOutput;
          return UnknownOutput, successors, indegree;
        }
        var width := ports.inputs[c.destination];
        if ports.outputs[c.source] != width || width == 0 || width > 64 {
          assert fault == WidthMismatch;
          return WidthMismatch, successors, indegree;
        }
        Recorded(ports, cs, k, source);
        source := source[c.destination := c.source];
        forall d ensures
          && Successors(edges[..k + 1], d) ==
             Successors(edges[..k], d) + (if d == c.source.device then [c.destination.device] else [])
          && Waiting(edges[..k + 1], {}, d) == Waiting(edges[..k], {}, d) + if d == c.destination.device then 1 else 0
        {
          NextEdge(cs, k, d);
        }
        var from, to := c.source.device, c.destination.device;
        successors := successors[from := successors[from] + [to]];
        indegree := indegree[to := indegree[to] + 1];
        k := k + 1;
      }
      assert edges[..k] == edges;
      outcome := Connected;
    }

    /** Devices without drivers, in the order they were declared. */
    method Seed(edges: seq<Edge>, indegree: seq<nat>) returns (r: seq<nat>)
      requires |indegree| == ports.devices
      requires forall d | 0 <= d < ports.devices :: indegree[d] == Waiting(edges, {}, d)
      ensures Progress(ports.devices, edges, r, indegree, [], [])
    {
      r := [];
      var d := 0;
      while d < ports.devices
        invariant 0 <= d <= ports.devices
        invariant Distinct(r) && forall x: nat :: x in r <==> x < d && indegree[x] == 0
      {
        if indegree[d] == 0 {
          r := r + [d];
        }
        d := d + 1;
      }
      forall k | 0 <= k < |r| ensures forall a: nat :: !Drives(edges, a, r[k]) {
        assert r[k] in r;
        NoneWaiting(edges, {}, r[k]);
      }
      assert Elements([]) == {};
    }

    /** Walks the worklist; every connection is answered once. */
    method Drain(edges: seq<Edge>, successors: seq<seq<nat>>, indegree0: seq<nat>, seed: seq<nat>)
      returns (r: seq<nat>, indegree: seq<nat>)
      requires Wiring(ports.devices, edges) && |successors| == ports.devices
      requires forall d | 0 <= d < ports.devices :: successors[d] == Successors(edges, d)
      requires Progress(ports.devices, edges, seed, indegree0, [], [])
      ensures Progress(ports.devices, edges, r, indegree, r, [])
    {
      hide DriversFirst, Waiting, Successors;
      var n := ports.devices;
      r, indegree := seed, indegree0;
      var i := 0;
      assert r[..0] == [];
      while i < |r|
        invariant 0 <= i <= |r|
        invariant Progress(n, edges, r, indegree, r[..i], [])
        decreases n - i
      {
        OrderFits(n, r);
        assert r[i] in r;
        var next := successors[r[i]];
        var j := 0;
        ghost var base := r;
        assert next[..0] == [];
        while j < |next|
          invariant 0 <= j <= |next| && i < |r| && r[i] == base[i] && r[..i] == base[..i]
          invariant next == Successors(edges, r[i])
          invariant Progress(n, edges, r, indegree, r[..i], next[..j])
        {
          ghost var d := Announce(n, edges, r, i, j, indegree);
          var at := next[j];
          indegree := indegree[at := indegree[at] - 1];
          if indegree[at] == 0 {
            assert (r + [at])[..i] == r[..i];
            r := r + [at];
          }
          j := j + 1;
        }
        assert next[..j] == next;
        Finished(n, edges, r, i, indegree);
        i := i + 1;
      }
      assert r[..i] == r;
    }

    /** Accepts exactly the fault-free acyclic wirings, and orders the devices. */
    method Connect(cs: seq<Connection>) returns (outcome: Outcome)
      requires source == map[] && order == []
      modifies this`source, this`order
      ensures outcome == Connected <==> Legal(ports, cs, |cs|) && !Cyclic(Edges(cs))
      ensures outcome == SidebandCycle <==> Legal(ports, cs, |cs|) && Cyclic(Edges(cs))
      ensures outcome == Connected ==> TopologicalOrder(ports.devices, Edges(cs), order) && Sourced(cs, |cs|, source)
      ensures outcome !in {Connected, SidebandCycle} ==>
                exists k | 0 <= k < |cs| :: Legal(ports, cs, k) && Fault(ports, cs, k) == outcome
    {
      hide Fault, Waiting, Successors, Cyclic, TopologicalOrder;
      var wired, successors, indegree := Wire(cs);
      if wired != Connected {
        FirstFault(ports, cs, wired);
        return wired;
      }
      LegalWiring(ports, cs);
      var seed := Seed(Edges(cs), indegree);
      var sorted, left := Drain(Edges(cs), successors, indegree, seed);
      order := sorted;
      Verdict(ports.devices, Edges(cs), sorted, left);
      if |order| != ports.devices {
        return SidebandCycle;
      }
      outcome := Connected;
    }

    /** One pass: afterwards every well-behaved device is settled. */
    method Settle(ghost edges: seq<Edge>)
      requires TopologicalOrder(|state|, edges, order)
      modifies this`state
      ensures Within(order, |old(state)|) && state == Pass(behaviour, order, old(state))
      ensures Local(behaviour, edges) && Idempotent(behaviour) ==>
                forall d | 0 <= d < |state| :: Settled(behaviour, d, state)
    {
      var i := 0;
      assert order[..0] == [];
      ghost var n := |state|;
      OrderWithin(n, edges, order);
      while i < |order|
        invariant 0 <= i <= |order| && |state| == n
        invariant state == Pass(behaviour, order[..i], old(state))
      {
        var d := order[i];
        assert order[..i + 1][..i] == order[..i];
        state := state[d := behaviour(d, state)];
        i := i + 1;
      }
      assert order[..i] == order;
      if Local(behaviour, edges) && Idempotent(behaviour) {
        OnePassIsFixpoint(behaviour, n, edges, order, old(state));
      }
    }
  }

  lemma FirstFault(p: Ports, cs: seq<Connection>, fault: Outcome)
    requires fault != Connected
    requires exists k | 0 <= k < |cs| :: Legal(p, cs, k) && Fault(p, cs, k) == fault
    ensures !Legal(p, cs, |cs|)
  {}
}
