/** Breadth-first search over an arbitrary neighbour function, as a theory: what a run
    of the queue discovers, and why it is in order of true shortest distance.
    Nothing here knows the store: the order in which neighbours are listed is free. */
module Bfs {
  type Graph = int -> seq<int>

  /** The neighbours of `x`, in the order the graph lists them. */
  function Next(g: Graph, x: int): seq<int> {
    g(x)
  }

  /** A discovered node together with the hop count it was queued with. */
  datatype Visit = Visit(id: int, hops: nat)

  function Seen(trace: seq<Visit>): set<int> {
    set v | v in trace :: v.id
  }

  lemma SeenAppend(trace: seq<Visit>, v: Visit)
    ensures Seen(trace + [v]) == Seen(trace) + {v.id}
  {
    forall w ensures w in trace + [v] <==> w in trace || w == v {}
    assert v in trace + [v];
  }

  /** Queues, in listing order, the neighbours `ns` of a node at `hops` that were not seen before. */
  function Discover(trace: seq<Visit>, ns: seq<int>, hops: nat): (r: seq<Visit>)
    ensures trace <= r
    decreases |ns|
  {
    if ns == [] then trace
    else Discover(if ns[0] in Seen(trace) then trace else trace + [Visit(ns[0], hops + 1)], ns[1..], hops)
  }

  lemma {:induction false} DiscoverSeen(trace: seq<Visit>, ns: seq<int>, hops: nat)
    ensures var r := Discover(trace, ns, hops);
            Seen(r) == Seen(trace) + (set n | n in ns) && (|r| > |trace| ==> Seen(trace) < Seen(r))
    decreases |ns|
  {
    if ns != [] {
      var v := Visit(ns[0], hops + 1);
      SeenAppend(trace, v);
      assert forall n :: n in ns <==> n == ns[0] || n in ns[1..];
      if ns[0] in Seen(trace) { DiscoverSeen(trace, ns[1..], hops); }
      else { DiscoverSeen(trace + [v], ns[1..], hops); }
    }
  }

  /** One turn of the queue: position `k` of the trace is popped. */
  function Pop(g: Graph, depth: int, trace: seq<Visit>, k: nat): (r: seq<Visit>)
    requires k < |trace|
    ensures trace <= r
  {
    if trace[k].hops >= depth then trace else Discover(trace, Next(g, trace[k].id), trace[k].hops)
  }

  ghost predicate Closed(g: Graph, universe: set<int>) {
    forall x, n :: x in universe && n in Next(g, x) ==> n in universe
  }

  lemma PopSeen(g: Graph, universe: set<int>, depth: int, trace: seq<Visit>, k: nat)
    requires Closed(g, universe) && Seen(trace) <= universe && k < |trace|
    ensures var r := Pop(g, depth, trace, k);
            Seen(trace) <= Seen(r) <= universe && (|r| > |trace| ==> Seen(trace) < Seen(r))
  {
    assert trace[k].id in Seen(trace);
    DiscoverSeen(trace, Next(g, trace[k].id), trace[k].hops);
  }

  /** The whole unbudgeted search: `trace[..k]` is processed, `trace[k..]` is the queue. */
  ghost function Run(g: Graph, universe: set<int>, depth: int, trace: seq<Visit>, k: nat): (r: seq<Visit>)
    requires Closed(g, universe) && Seen(trace) <= universe && k <= |trace|
    ensures trace <= r && Seen(r) <= universe
    decreases universe - Seen(trace), |trace| - k
  {
    if k == |trace| then trace
    else
      PopSeen(g, universe, depth, trace, k);
      Run(g, universe, depth, Pop(g, depth, trace, k), k + 1)
  }

  lemma RunStep(g: Graph, universe: set<int>, depth: int, trace: seq<Visit>, k: nat)
    requires Closed(g, universe) && Seen(trace) <= universe && k < |trace|
    ensures var next := Pop(g, depth, trace, k);
            && Seen(trace) <= Seen(next) <= universe && (|next| > |trace| ==> Seen(trace) < Seen(next))
            && Run(g, universe, depth, trace, k) == Run(g, universe, depth, next, k + 1)
  {
    PopSeen(g, universe, depth, trace, k);
  }

  ghost function Search(g: Graph, universe: set<int>, depth: int, start: int): (r: seq<Visit>)
    requires Closed(g, universe) && start in universe
  {
    Run(g, universe, depth, [Visit(start, 0)], 0)
  }

  // ---------------------------------------------------------------- distance

  /** Some walk of exactly `n` hops leads from `a` to `b`. */
  ghost predicate Walk(g: Graph, a: int, b: int, n: nat)
    decreases n
  {
    if n == 0 then a == b else exists m :: Walk(g, a, m, n - 1) && b in Next(g, m)
  }

  /** `n` is the length of a shortest walk from `a` to `b`. */
  ghost predicate Distance(g: Graph, a: int, b: int, n: nat) {
    Walk(g, a, b, n) && forall m: nat :: m < n ==> !Walk(g, a, b, m)
  }

  ghost predicate Within(g: Graph, a: int, b: int, k: nat) {
    exists n: nat :: n <= k && Walk(g, a, b, n)
  }

  /** `p` lists the nodes of a path of `n` hops from `a` to `b`. */
  ghost predicate IsPath(g: Graph, p: seq<int>, a: int, b: int, n: nat) {
    && |p| == n + 1 && p[0] == a && p[n] == b
    && forall i {:trigger Next(g, p[i])} :: 0 <= i < n ==> p[i + 1] in Next(g, p[i])
  }

  lemma {:induction false} PathOfWalk(g: Graph, a: int, b: int, n: nat) returns (p: seq<int>)
    requires Walk(g, a, b, n)
    ensures IsPath(g, p, a, b, n)
    decreases n
  {
    if n == 0 {
      p := [a];
    } else {
      var m :| Walk(g, a, m, n - 1) && b in Next(g, m);
      p := PathOfWalk(g, a, m, n - 1);
      p := p + [b];
    }
  }

  lemma {:induction false} WalkOfPath(g: Graph, p: seq<int>, a: int, b: int, n: nat)
    requires IsPath(g, p, a, b, n)
    ensures Walk(g, a, b, n)
    decreases n
  {
    if n > 0 {
      WalkOfPath(g, p[..n], a, p[n - 1], n - 1);
      assert b in Next(g, p[n - 1]);
    }
  }

  /** Walks are exactly what node sequences linked hop by hop witness. */
  lemma WalkIsPath(g: Graph, a: int, b: int, n: nat)
    ensures Walk(g, a, b, n) <==> exists p :: IsPath(g, p, a, b, n)
  {
    if Walk(g, a, b, n) { var p := PathOfWalk(g, a, b, n); }
    if p :| IsPath(g, p, a, b, n) { WalkOfPath(g, p, a, b, n); }
  }

  // ---------------------------------------------------------------- exactness

  ghost predicate Unique(trace: seq<Visit>) {
    forall i, j :: 0 <= i < j < |trace| ==> trace[i].id != trace[j].id
  }

  ghost predicate Sorted(trace: seq<Visit>) {
    forall i, j :: 0 <= i < j < |trace| ==> trace[i].hops <= trace[j].hops
  }

  ghost predicate Exact(g: Graph, s: int, trace: seq<Visit>) {
    forall i :: 0 <= i < |trace| ==> Distance(g, s, trace[i].id, trace[i].hops)
  }

  ghost predicate Bounded(trace: seq<Visit>, hops: int) {
    forall i :: 0 <= i < |trace| ==> trace[i].hops <= hops
  }

  /** Every neighbour of the node at position `i` is in the trace. */
  ghost predicate Expanded(g: Graph, trace: seq<Visit>, i: nat)
    requires i < |trace|
  {
    forall n :: n in Next(g, trace[i].id) ==> n in Seen(trace)
  }

  ghost predicate Processed(g: Graph, depth: int, trace: seq<Visit>, k: nat) {
    forall i :: 0 <= i < k && i < |trace| && trace[i].hops < depth ==> Expanded(g, trace, i)
  }

  /** What every turn of the queue keeps. */
  ghost predicate Layered(g: Graph, s: int, depth: int, trace: seq<Visit>, k: nat) {
    && 0 < |trace| && k <= |trace|
    && trace[0] == Visit(s, 0)
    && Unique(trace) && Sorted(trace) && Exact(g, s, trace) && Bounded(trace, depth)
    && Processed(g, depth, trace, k)
    && (k < |trace| ==> Bounded(trace, trace[k].hops + 1))
  }

  lemma SeenAt(trace: seq<Visit>, x: int) returns (i: nat)
    requires x in Seen(trace)
    ensures i < |trace| && trace[i].id == x
  {
    var v :| v in trace && v.id == x;
    i :| 0 <= i < |trace| && trace[i] == v;
  }

  ghost predicate Covered(g: Graph, s: int, d: int, trace: seq<Visit>) {
    forall x, n: nat :: n <= d && Walk(g, s, x, n) ==> x in Seen(trace)
  }

  /** Once all nodes nearer than `d` are processed, everything within `d` hops is seen. */
  lemma {:induction false} LayerSeen(g: Graph, s: int, depth: int, trace: seq<Visit>, k: nat, d: nat)
    requires 0 < |trace| && trace[0] == Visit(s, 0) && d <= depth
    requires Exact(g, s, trace) && Processed(g, depth, trace, k)
    requires forall i :: k <= i < |trace| ==> trace[i].hops >= d
    ensures Covered(g, s, d, trace)
    decreases d
  {
    if d == 0 {
      assert trace[0] in trace;
    } else {
      LayerSeen(g, s, depth, trace, k, d - 1);
      forall x | Walk(g, s, x, d) ensures x in Seen(trace) {
        var m :| Walk(g, s, m, d - 1) && x in Next(g, m);
        var i := SeenAt(trace, m);
        assert Distance(g, s, m, trace[i].hops);
        assert Expanded(g, trace, i);
      }
    }
  }

  /** Appending the unseen neighbours of a node in layer `h` keeps identities unique
      and puts every newcomer exactly in layer `h + 1`. */
  lemma {:induction false} DiscoverKeeps(g: Graph, s: int, trace: seq<Visit>, ns: seq<int>, h: nat)
    requires Unique(trace) && Sorted(trace) && Exact(g, s, trace) && Bounded(trace, h + 1)
    requires Covered(g, s, h, trace)
    requires forall i :: 0 <= i < |ns| ==> Walk(g, s, ns[i], h + 1)
    ensures var r := Discover(trace, ns, h);
            Unique(r) && Sorted(r) && Exact(g, s, r) && Bounded(r, h + 1)
    decreases |ns|
  {
    if ns == [] {
    } else if ns[0] in Seen(trace) {
      DiscoverKeeps(g, s, trace, ns[1..], h);
    } else {
      var grown := trace + [Visit(ns[0], h + 1)];
      assert Distance(g, s, ns[0], h + 1);
      forall i | 0 <= i < |trace| ensures trace[i].id != ns[0] { assert trace[i] in trace; }
      SeenAppend(trace, Visit(ns[0], h + 1));
      DiscoverKeeps(g, s, grown, ns[1..], h);
    }
  }

  lemma PopExpands(g: Graph, depth: int, trace: seq<Visit>, k: nat)
    requires Processed(g, depth, trace, k) && k < |trace|
    ensures Processed(g, depth, Pop(g, depth, trace, k), k + 1)
  {
    var r := Pop(g, depth, trace, k);
    DiscoverSeen(trace, Next(g, trace[k].id), trace[k].hops);
    forall i | 0 <= i < k + 1 && r[i].hops < depth ensures Expanded(g, r, i) {
      if i < k { assert Expanded(g, trace, i); }
    }
  }

  lemma PopExact(g: Graph, s: int, depth: int, trace: seq<Visit>, k: nat)
    requires Layered(g, s, depth, trace, k) && k < |trace| && trace[k].hops < depth
    ensures var r := Pop(g, depth, trace, k);
            Unique(r) && Sorted(r) && Exact(g, s, r) && Bounded(r, trace[k].hops + 1)
  {
    var h, ns := trace[k].hops, Next(g, trace[k].id);
    LayerSeen(g, s, depth, trace, k, h);
    forall i | 0 <= i < |ns| ensures Walk(g, s, ns[i], h + 1) {
      assert Distance(g, s, trace[k].id, h) && ns[i] in ns;
    }
    DiscoverKeeps(g, s, trace, ns, h);
  }

  lemma PopKeeps(g: Graph, s: int, depth: int, trace: seq<Visit>, k: nat)
    requires Layered(g, s, depth, trace, k) && k < |trace|
    ensures Layered(g, s, depth, Pop(g, depth, trace, k), k + 1)
  {
    if trace[k].hops < depth { PopExact(g, s, depth, trace, k); }
    PopExpands(g, depth, trace, k);
    var r := Pop(g, depth, trace, k);
    if k + 1 < |r| { assert r[k].hops <= r[k + 1].hops; }
  }

  lemma {:induction false} RunKeeps(g: Graph, universe: set<int>, s: int, depth: int, trace: seq<Visit>, k: nat)
    requires Closed(g, universe) && Seen(trace) <= universe && Layered(g, s, depth, trace, k)
    ensures var r := Run(g, universe, depth, trace, k); Layered(g, s, depth, r, |r|)
    decreases universe - Seen(trace), |trace| - k
  {
    if k < |trace| {
      var next := Pop(g, depth, trace, k);
      RunStep(g, universe, depth, trace, k);
      assert Layered(g, s, depth, next, k + 1) by { PopKeeps(g, s, depth, trace, k); }
      RunKeeps(g, universe, s, depth, next, k + 1);
    }
  }

  /** Main theorem: the search lists each node within `depth` hops exactly once and no
      other node, each with its true shortest distance, nearest first. */
  lemma SearchExact(g: Graph, universe: set<int>, depth: nat, s: int)
    requires Closed(g, universe) && s in universe
    ensures var r := Search(g, universe, depth, s);
            && Unique(r) && Sorted(r) && 0 < |r| && r[0] == Visit(s, 0)
            && (forall x :: x in Seen(r) <==> Within(g, s, x, depth))
            && (forall i :: 0 <= i < |r| ==> Distance(g, s, r[i].id, r[i].hops))
  {
    var init := [Visit(s, 0)];
    assert Seen(init) == {s};
    RunKeeps(g, universe, s, depth, init, 0);
    var r := Search(g, universe, depth, s);
    LayerSeen(g, s, depth, r, |r|, depth);
    forall x | x in Seen(r) ensures Within(g, s, x, depth) {
      var i := SeenAt(r, x);
    }
  }
}
