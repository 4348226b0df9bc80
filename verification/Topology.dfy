/**
  Sideband wiring of `src/platform.cpp`: a stable topological order of the
  devices by Kahn's algorithm, and one settling pass along it.
 */
module Topology {
  /** Devices are numbered; several connections may join the same two. */
  datatype Edge = Edge(source: nat, target: nat)

  ghost predicate Wiring(n: nat, edges: seq<Edge>) {
    forall k | 0 <= k < |edges| :: edges[k].source < n && edges[k].target < n
  }

  ghost predicate Drives(edges: seq<Edge>, a: nat, b: nat) {
    Edge(a, b) in edges
  }

  ghost predicate Path(edges: seq<Edge>, p: seq<nat>) {
    forall i | 0 <= i < |p| - 1 :: Drives(edges, p[i], p[i + 1])
  }

  ghost predicate IsCycle(edges: seq<Edge>, p: seq<nat>) {
    |p| >= 2 && p[0] == p[|p| - 1] && Path(edges, p)
  }

  ghost predicate Cyclic(edges: seq<Edge>) {
    exists p :: IsCycle(edges, p)
  }

  ghost predicate Distinct(s: seq<nat>) {
    forall i, j | 0 <= i < j < |s| :: s[i] != s[j]
  }

  /** Everything driving s[k] stands before position k. */
  ghost predicate DriversFirst(edges: seq<Edge>, s: seq<nat>) {
    forall k, a | 0 <= k < |s| && Drives(edges, a, s[k]) :: a in s[..k]
  }

  /** Each device once, after all its drivers. */
  ghost predicate TopologicalOrder(n: nat, edges: seq<Edge>, order: seq<nat>) {
    && Distinct(order) && DriversFirst(edges, order)
    && (forall d: nat :: d in order <==> d < n)
  }

  // ---- counting connections ------------------------------------------------

  /** Connections into d whose source is not in `done`. */
  function Waiting(edges: seq<Edge>, done: set<nat>, d: nat): nat {
    if edges == [] then 0
    else
      var e := edges[|edges| - 1];
      Waiting(edges[..|edges| - 1], done, d) + if e.target == d && e.source !in done then 1 else 0
  }

  /** Targets of the connections out of a, in order, with repetitions. */
  function Successors(edges: seq<Edge>, a: nat): seq<nat> {
    if edges == [] then []
    else
      var e := edges[|edges| - 1];
      Successors(edges[..|edges| - 1], a) + if e.source == a then [e.target] else []
  }

  function Count(s: seq<nat>, d: nat): nat {
    if s == [] then 0 else Count(s[..|s| - 1], d) + if s[|s| - 1] == d then 1 else 0
  }

  lemma {:induction false} CountAppend(s: seq<nat>, x: nat, d: nat)
    ensures Count(s + [x], d) == Count(s, d) + if x == d then 1 else 0
  {
    assert (s + [x])[..|s|] == s;
  }

  lemma {:induction false} CountPrefix(s: seq<nat>, j: nat, d: nat)
    requires j <= |s|
    ensures Count(s[..j], d) <= Count(s, d)
    decreases |s|
  {
    if j == |s| {
      assert s[..j] == s;
    } else {
      CountPrefix(s[..|s| - 1], j, d);
      assert s[..|s| - 1][..j] == s[..j];
    }
  }

  /** Marking a as done answers exactly its own connections. */
  lemma {:induction false} MarkDone(edges: seq<Edge>, done: set<nat>, a: nat, d: nat)
    requires a !in done
    ensures Waiting(edges, done, d) == Waiting(edges, done + {a}, d) + Count(Successors(edges, a), d)
  {
    if edges != [] {
      var rest, e := edges[..|edges| - 1], edges[|edges| - 1];
      MarkDone(rest, done, a, d);
      if e.source == a {
        CountAppend(Successors(rest, a), e.target, d);
      } else {
        assert Successors(edges, a) == Successors(rest, a);
      }
    }
  }

  lemma {:induction false} NoneWaiting(edges: seq<Edge>, done: set<nat>, d: nat)
    ensures Waiting(edges, done, d) == 0 <==> forall a | Drives(edges, a, d) :: a in done
  {
    if edges != [] {
      var rest, e := edges[..|edges| - 1], edges[|edges| - 1];
      NoneWaiting(rest, done, d);
      assert edges == rest + [e];
      assert forall x :: x in edges <==> x in rest || x == e;
      if Waiting(edges, done, d) == 0 {
        forall a | Drives(edges, a, d) ensures a in done {
          assert Edge(a, d) == e || Drives(rest, a, d);
        }
      } else if Waiting(rest, done, d) != 0 {
        var a :| Drives(rest, a, d) && a !in done;
        assert Drives(edges, a, d);
      } else {
        assert Drives(edges, e.source, d);
      }
    }
  }

  lemma {:induction false} SuccessorsBounded(n: nat, edges: seq<Edge>, a: nat)
    requires Wiring(n, edges)
    ensures forall k | 0 <= k < |Successors(edges, a)| :: Successors(edges, a)[k] < n
  {
    if edges != [] { SuccessorsBounded(n, edges[..|edges| - 1], a); }
  }

  // ---- cycles ---------------------------------------------------------------

  ghost function Position(s: seq<nat>, x: nat): (i: nat)
    requires x in s
    ensures i < |s| && s[i] == x
  {
    var i :| 0 <= i < |s| && s[i] == x; i
  }

  lemma {:induction false} PathAscends(n: nat, edges: seq<Edge>, order: seq<nat>, p: seq<nat>)
    requires TopologicalOrder(n, edges, order) && Wiring(n, edges) && Path(edges, p) && |p| >= 2
    ensures p[0] in order && p[|p| - 1] in order
    ensures Position(order, p[0]) < Position(order, p[|p| - 1])
    decreases |p|
  {
    var a, b := p[0], p[1];
    assert Drives(edges, a, b);
    EdgeAscends(n, edges, order, a, b);
    if |p| > 2 {
      PathAscends(n, edges, order, p[1..]);
    }
  }

  lemma EdgeAscends(n: nat, edges: seq<Edge>, order: seq<nat>, a: nat, b: nat)
    requires TopologicalOrder(n, edges, order) && Wiring(n, edges) && Drives(edges, a, b)
    ensures a in order && b in order && Position(order, a) < Position(order, b)
  {
    var k :| 0 <= k < |edges| && edges[k] == Edge(a, b);
    assert b < n && a < n;
    var at := Position(order, b);
    assert Drives(edges, a, order[at]);
    assert a in order[..at];
    var i :| 0 <= i < at && order[i] == a;
  }

  /** An order with every driver first leaves no room for a cycle. */
  lemma OrderedIsAcyclic(n: nat, edges: seq<Edge>, order: seq<nat>)
    requires TopologicalOrder(n, edges, order) && Wiring(n, edges)
    ensures !Cyclic(edges)
  {
    if Cyclic(edges) {
      var p :| IsCycle(edges, p);
      PathAscends(n, edges, order, p);
    }
  }

  ghost predicate DrivenFrom(edges: seq<Edge>, stuck: set<nat>, d: nat) {
    exists a :: a in stuck && Drives(edges, a, d)
  }

  /** Every member of a set has a driver in the set. */
  ghost predicate Closed(edges: seq<Edge>, stuck: set<nat>) {
    forall d | d in stuck :: DrivenFrom(edges, stuck, d)
  }

  lemma Driver(edges: seq<Edge>, stuck: set<nat>, d: nat) returns (a: nat)
    requires DrivenFrom(edges, stuck, d)
    ensures a in stuck && Drives(edges, a, d)
  {
    a :| a in stuck && Drives(edges, a, d);
  }

  /** Walk against the wires: a path of any length ending at d. */
  lemma {:induction false} WalkBack(edges: seq<Edge>, stuck: set<nat>, d: nat, length: nat) returns (p: seq<nat>)
    requires Closed(edges, stuck) && d in stuck
    ensures |p| == length + 1 && Path(edges, p) && p[length] == d
    ensures forall i | 0 <= i < |p| :: p[i] in stuck
  {
    hide DrivenFrom;
    if length == 0 {
      p := [d];
    } else {
      var q := WalkBack(edges, stuck, d, length - 1);
      var a := Driver(edges, stuck, q[0]);
      p := [a] + q;
      forall i | 0 <= i < |p| - 1 ensures Drives(edges, p[i], p[i + 1]) {
        if i > 0 { assert p[i] == q[i - 1] && p[i + 1] == q[i]; }
      }
    }
  }

  /** More places than values: two places agree. */
  lemma {:induction false} Pigeonhole(s: seq<nat>, values: set<nat>) returns (i: nat, j: nat)
    requires |s| > |values| && forall k | 0 <= k < |s| :: s[k] in values
    ensures i < j < |s| && s[i] == s[j]
    decreases |s|
  {
    var last := |s| - 1;
    if k :| 0 <= k < last && s[k] == s[last] {
      i, j := k, last;
    } else {
      i, j := Pigeonhole(s[..last], values - {s[last]});
    }
  }

  lemma StuckIsCyclic(edges: seq<Edge>, stuck: set<nat>)
    requires Closed(edges, stuck) && stuck != {}
    ensures Cyclic(edges)
  {
    hide DrivenFrom;
    var d :| d in stuck;
    var p := WalkBack(edges, stuck, d, |stuck|);
    var i, j := Pigeonhole(p, stuck);
    var c := p[i..j + 1];
    forall k | 0 <= k < |c| - 1 ensures Drives(edges, c[k], c[k + 1]) {
      assert c[k] == p[i + k] && c[k + 1] == p[i + k + 1];
    }
    assert IsCycle(edges, c);
  }

  // ---- Kahn's algorithm -----------------------------------------------------

  ghost function Elements(s: seq<nat>): set<nat> { set x | x in s }

  /**
    What holds while the connections out of order[i] are being walked: the first
    j of them are already answered.
   */
  ghost predicate Progress(n: nat, edges: seq<Edge>, order: seq<nat>, indegree: seq<nat>,
                           done: seq<nat>, answered: seq<nat>) {
    && |indegree| == n && Distinct(order) && DriversFirst(edges, order)
    && (forall d: nat :: d in order <==> d < n && indegree[d] == 0)
    && (forall d | 0 <= d < n :: indegree[d] == Waiting(edges, Elements(done), d) - Count(answered, d))
  }

  lemma Announce(n: nat, edges: seq<Edge>, order: seq<nat>, i: nat, j: nat, indegree: seq<nat>)
    returns (d: nat)
    requires Wiring(n, edges) && i < |order| && j < |Successors(edges, order[i])|
    requires Progress(n, edges, order, indegree, order[..i], Successors(edges, order[i])[..j])
    ensures d == Successors(edges, order[i])[j] && d < n && indegree[d] > 0
    ensures var next := indegree[d := indegree[d] - 1];
            var longer := if next[d] == 0 then order + [d] else order;
            Progress(n, edges, longer, next, order[..i], Successors(edges, order[i])[..j + 1])
  {
    var a := order[i];
    var out := Successors(edges, a);
    d := out[j];
    SuccessorsBounded(n, edges, a);
    assert a !in order[..i];
    MarkDone(edges, Elements(order[..i]), a, d);
    assert out[..j + 1] == out[..j] + [d];
    CountAppend(out[..j], d, d);
    CountPrefix(out, j + 1, d);
    var next := indegree[d := indegree[d] - 1];
    forall x | 0 <= x < n
      ensures next[x] == Waiting(edges, Elements(order[..i]), x) - Count(out[..j + 1], x)
    {
      CountAppend(out[..j], d, x);
    }
    if next[d] == 0 {
      NoneWaiting(edges, Elements(order[..i]) + {a}, d);
      Extended(edges, order, i, d);
    }
  }

  lemma Extended(edges: seq<Edge>, order: seq<nat>, i: nat, d: nat)
    requires Distinct(order) && DriversFirst(edges, order) && i < |order| && d !in order
    requires forall a | Drives(edges, a, d) :: a in Elements(order[..i]) + {order[i]}
    ensures Distinct(order + [d]) && DriversFirst(edges, order + [d])
  {
    var longer := order + [d];
    forall k, a | 0 <= k < |longer| && Drives(edges, a, longer[k]) ensures a in longer[..k] {
      if k < |order| {
        assert Drives(edges, a, order[k]);
        assert longer[..k] == order[..k];
      } else {
        assert longer[..k] == order;
        assert a in order[..i] || a == order[i];
      }
    }
  }

  /** All connections out of order[i] are answered: it is done. */
  lemma Finished(n: nat, edges: seq<Edge>, order: seq<nat>, i: nat, indegree: seq<nat>)
    requires i < |order| && Distinct(order)
    requires Progress(n, edges, order, indegree, order[..i], Successors(edges, order[i]))
    ensures Progress(n, edges, order, indegree, order[..i + 1], [])
  {
    var a := order[i];
    assert Elements(order[..i + 1]) == Elements(order[..i]) + {a};
    assert a !in order[..i];
    forall d | 0 <= d < n ensures indegree[d] == Waiting(edges, Elements(order[..i + 1]), d) {
      MarkDone(edges, Elements(order[..i]), a, d);
    }
  }

  lemma {:induction false} DistinctSize(s: seq<nat>)
    requires Distinct(s)
    ensures |Elements(s)| == |s|
  {
    if s != [] {
      var rest := s[..|s| - 1];
      DistinctSize(rest);
      assert Elements(s) == Elements(rest) + {s[|s| - 1]};
      assert s[|s| - 1] !in rest;
    }
  }

  ghost function Below(n: nat): (r: set<nat>)
    ensures |r| == n && forall d: nat :: d in r <==> d < n
  {
    if n == 0 then {} else Below(n - 1) + {n - 1}
  }

  lemma OrderFits(n: nat, order: seq<nat>)
    requires Distinct(order) && forall d | d in order :: d < n
    ensures |order| <= n
    ensures |order| == n ==> forall d: nat | d < n :: d in order
  {
    DistinctSize(order);
    assert Elements(order) <= Below(n);
    SubsetSize(Elements(order), Below(n));
    if |order| == n {
      forall d: nat | d < n ensures d in order { assert d in Below(n); }
    }
  }

  lemma {:induction false} SubsetSize(a: set<nat>, b: set<nat>)
    requires a <= b
    ensures |a| <= |b|
    ensures |a| == |b| ==> a == b
  {
    if a != {} {
      var x :| x in a;
      SubsetSize(a - {x}, b - {x});
    }
  }

  /** When the worklist is exhausted its length tells whether there is a cycle. */
  lemma Verdict(n: nat, edges: seq<Edge>, order: seq<nat>, indegree: seq<nat>)
    requires Wiring(n, edges) && Progress(n, edges, order, indegree, order, [])
    ensures |order| == n <==> !Cyclic(edges)
    ensures |order| == n ==> TopologicalOrder(n, edges, order)
  {
    OrderFits(n, order);
    if |order| == n {
      OrderedIsAcyclic(n, edges, order);
    } else {
      var stuck := Below(n) - Elements(order);
      forall d | d in stuck ensures DrivenFrom(edges, stuck, d) {
        NoneWaiting(edges, Elements(order), d);
        var a :| Drives(edges, a, d) && a !in Elements(order);
        var k :| 0 <= k < |edges| && edges[k] == Edge(a, d);
        assert a in stuck;
      }
      assert stuck != {} by {
        if Below(n) <= Elements(order) {
          SubsetSize(Below(n), Elements(order));
          DistinctSize(order);
        }
      }
      StuckIsCyclic(edges, stuck);
    }
  }
}
