/** The order in which a breadth-first run lists what it finds: by the first neighbour list that
    names a node, and by the place of the name in it. With Bfs.SearchExact this leaves one list. */
module BfsOrder {
  import opened Bfs

  /** A place in the neighbour list of the node at a position of the trace. */
  datatype Spot = Spot(node: nat, place: nat)

  predicate Before(a: Spot, b: Spot) {
    a.node < b.node || (a.node == b.node && a.place < b.place)
  }

  /** A node nearer than `depth` lists `x` at this spot. */
  ghost predicate Names(g: Graph, depth: int, trace: seq<Visit>, at: Spot, x: int) {
    && at.node < |trace| && trace[at.node].hops < depth
    && at.place < |Next(g, trace[at.node].id)| && Next(g, trace[at.node].id)[at.place] == x
  }

  ghost predicate FirstNamed(g: Graph, depth: int, trace: seq<Visit>, at: Spot, x: int) {
    Names(g, depth, trace, at, x) && forall b :: Names(g, depth, trace, b, x) ==> !Before(b, at)
  }

  /** `births` are the spots the nodes of the trace come from; all spots before `end` are dealt with. */
  ghost predicate Ordered(g: Graph, depth: int, trace: seq<Visit>, births: seq<Spot>, end: Spot) {
    && |births| == |trace|
    && (forall i :: 0 < i < |trace| ==> Born(g, depth, trace, births[i], i) && Before(births[i], end))
    && (forall i, j :: 0 < i < j < |trace| ==> Before(births[i], births[j]))
    && (forall b, x :: Names(g, depth, trace, b, x) && Before(b, end) ==> x in Seen(trace))
  }

  /** The node at position `i` was first named at `at`, by a node listed before it. */
  ghost predicate Born(g: Graph, depth: int, trace: seq<Visit>, at: Spot, i: nat)
    requires i < |trace|
  {
    at.node < i && FirstNamed(g, depth, trace, at, trace[i].id)
  }

  ghost predicate HasSpot(g: Graph, depth: int, trace: seq<Visit>, i: nat)
    requires i < |trace|
  {
    exists at :: Born(g, depth, trace, at, i)
  }

  lemma BornStays(g: Graph, depth: int, trace: seq<Visit>, v: Visit, at: Spot, i: nat)
    requires i < |trace| && Born(g, depth, trace, at, i)
    ensures Born(g, depth, trace + [v], at, i)
  {
    var grown, x := trace + [v], trace[i].id;
    forall b | Names(g, depth, grown, b, x) ensures !Before(b, at) {
      if Before(b, at) { assert Names(g, depth, trace, b, x); }
    }
  }

  /** A name met for the first time at `end` is appended. */
  lemma OrderedAppend(g: Graph, depth: int, trace: seq<Visit>, births: seq<Spot>, end: Spot, v: Visit, next: Spot)
    requires Ordered(g, depth, trace, births, end) && Names(g, depth, trace, end, v.id) && v.id !in Seen(trace)
    requires next == Spot(end.node, end.place + 1)
    ensures Ordered(g, depth, trace + [v], births + [end], next)
  {
    var grown := trace + [v];
    SeenAppend(trace, v);
    forall i | 0 < i < |trace| ensures Born(g, depth, grown, births[i], i) {
      BornStays(g, depth, trace, v, births[i], i);
    }
    forall b | Names(g, depth, grown, b, v.id) ensures !Before(b, end) {
      if Before(b, end) { assert Names(g, depth, trace, b, v.id); }
    }
    assert Born(g, depth, grown, end, |trace|) by { assert Names(g, depth, grown, end, v.id); }
    OrderedSeen(g, depth, trace, births, end, grown, next, v.id);
  }

  /** Dealing with the name at `end` deals with all spots before the next one. */
  lemma OrderedSeen(g: Graph, depth: int, trace: seq<Visit>, births: seq<Spot>, end: Spot, grown: seq<Visit>,
                    next: Spot, x: int)
    requires Ordered(g, depth, trace, births, end) && Names(g, depth, trace, end, x) && trace <= grown
    requires next == Spot(end.node, end.place + 1) && x in Seen(grown) && Seen(trace) <= Seen(grown)
    ensures forall b, y :: Names(g, depth, grown, b, y) && Before(b, next) ==> y in Seen(grown)
  {
    forall b, y | Names(g, depth, grown, b, y) && Before(b, next) ensures y in Seen(grown) {
      assert Names(g, depth, trace, b, y);
      if !Before(b, end) { assert b == end; }
    }
  }

  /** The trace after one more name. */
  function OneMore(trace: seq<Visit>, v: Visit): seq<Visit> {
    if v.id in Seen(trace) then trace else trace + [v]
  }

  lemma OneMoreKeeps(trace: seq<Visit>, v: Visit, k: nat)
    requires k < |trace|
    ensures k < |OneMore(trace, v)| && OneMore(trace, v)[k] == trace[k]
  {}

  lemma DiscoverOne(trace: seq<Visit>, ns: seq<int>, h: nat, q: nat, next: nat)
    requires q < |ns| && next == q + 1
    ensures Discover(trace, ns[q..], h) == Discover(OneMore(trace, Visit(ns[q], h + 1)), ns[next..], h)
  {
    assert ns[q..][0] == ns[q] && ns[q..][1..] == ns[next..];
  }

  lemma OneMoreOrdered(g: Graph, depth: int, trace: seq<Visit>, births: seq<Spot>, end: Spot, v: Visit, next: Spot)
    returns (more: seq<Spot>)
    requires Ordered(g, depth, trace, births, end) && Names(g, depth, trace, end, v.id)
    requires next == Spot(end.node, end.place + 1)
    ensures Ordered(g, depth, OneMore(trace, v), more, next)
  {
    if v.id in Seen(trace) {
      more := births;
      OrderedSeen(g, depth, trace, births, end, trace, next, v.id);
    } else {
      more := births + [end];
      OrderedAppend(g, depth, trace, births, end, v, next);
    }
  }

  lemma DiscoverTurn(g: Graph, depth: int, trace: seq<Visit>, births: seq<Spot>, node: Visit, k: nat, q: nat,
                     next: seq<Visit>) returns (more: seq<Spot>)
    requires k < |trace| && trace[k] == node && node.hops < depth && q < |Next(g, node.id)|
    requires Ordered(g, depth, trace, births, Spot(k, q))
    requires next == OneMore(trace, Visit(Next(g, node.id)[q], node.hops + 1))
    ensures k < |next| && next[k] == node && Ordered(g, depth, next, more, Spot(k, q + 1))
  {
    var v := Visit(Next(g, node.id)[q], node.hops + 1);
    assert Names(g, depth, trace, Spot(k, q), v.id);
    OneMoreKeeps(trace, v, k);
    more := OneMoreOrdered(g, depth, trace, births, Spot(k, q), v, Spot(k, q + 1));
  }

  lemma {:induction false} DiscoverOrder(g: Graph, depth: int, trace: seq<Visit>, births: seq<Spot>, node: Visit,
                                         k: nat, q: nat) returns (more: seq<Spot>)
    requires k < |trace| && trace[k] == node && node.hops < depth && q <= |Next(g, node.id)|
    requires Ordered(g, depth, trace, births, Spot(k, q))
    ensures Ordered(g, depth, Discover(trace, Next(g, node.id)[q..], node.hops), more, Spot(k, |Next(g, node.id)|))
    decreases |Next(g, node.id)| - q
  {
    if q < |Next(g, node.id)| {
      var next := OneMore(trace, Visit(Next(g, node.id)[q], node.hops + 1));
      more := DiscoverTurn(g, depth, trace, births, node, k, q, next);
      DiscoverOne(trace, Next(g, node.id), node.hops, q, q + 1);
      more := DiscoverOrder(g, depth, next, more, node, k, q + 1);
    } else {
      more := births;
      assert Next(g, node.id)[q..] == [];
    }
  }

  /** The spots of a node are exhausted, or were never any. */
  lemma NextNode(g: Graph, depth: int, trace: seq<Visit>, births: seq<Spot>, k: nat, q: nat)
    requires k < |trace| && Ordered(g, depth, trace, births, Spot(k, q))
    requires trace[k].hops >= depth || q == |Next(g, trace[k].id)|
    ensures Ordered(g, depth, trace, births, Spot(k + 1, 0))
  {
    forall b, x | Names(g, depth, trace, b, x) && Before(b, Spot(k + 1, 0)) ensures Before(b, Spot(k, q)) {}
  }

  lemma PopOrder(g: Graph, depth: int, trace: seq<Visit>, births: seq<Spot>, k: nat) returns (more: seq<Spot>)
    requires k < |trace| && Ordered(g, depth, trace, births, Spot(k, 0))
    ensures Ordered(g, depth, Pop(g, depth, trace, k), more, Spot(k + 1, 0))
  {
    more := births;
    var q := 0;
    if trace[k].hops < depth {
      assert Next(g, trace[k].id)[0..] == Next(g, trace[k].id);
      more := DiscoverOrder(g, depth, trace, births, trace[k], k, 0);
      q := |Next(g, trace[k].id)|;
    }
    NextNode(g, depth, Pop(g, depth, trace, k), more, k, q);
  }

  lemma {:induction false} RunOrder(g: Graph, universe: set<int>, depth: int, trace: seq<Visit>, births: seq<Spot>,
                                    k: nat) returns (all: seq<Spot>)
    requires Closed(g, universe) && Seen(trace) <= universe && k <= |trace|
    requires Ordered(g, depth, trace, births, Spot(k, 0))
    ensures var r := Run(g, universe, depth, trace, k); Ordered(g, depth, r, all, Spot(|r|, 0))
    decreases universe - Seen(trace), |trace| - k
  {
    if k < |trace| {
      RunStep(g, universe, depth, trace, k);
      var more := PopOrder(g, depth, trace, births, k);
      all := RunOrder(g, universe, depth, Pop(g, depth, trace, k), more, k + 1);
    } else {
      all := births;
    }
  }

  /** A node has one first spot. */
  lemma OneFirstSpot(g: Graph, depth: int, trace: seq<Visit>, a: Spot, b: Spot, x: int)
    requires FirstNamed(g, depth, trace, a, x) && FirstNamed(g, depth, trace, b, x)
    ensures a == b
  {}

  /** Main theorem: every node found is first named by a node listed before it, and the nodes are
      listed in the order of the spots that first name them. */
  lemma SearchOrder(g: Graph, universe: set<int>, depth: int, s: int)
    requires Closed(g, universe) && s in universe
    ensures var r := Search(g, universe, depth, s);
            && (forall i :: 0 < i < |r| ==> HasSpot(g, depth, r, i))
            && (forall i, j, a, b :: 0 < i < j < |r| && Born(g, depth, r, a, i) && Born(g, depth, r, b, j) ==>
                                       Before(a, b))
  {
    var init := [Visit(s, 0)];
    assert Seen(init) == {s};
    var r := Search(g, universe, depth, s);
    var births := RunOrder(g, universe, depth, init, [Spot(0, 0)], 0);
    forall i | 0 < i < |r| ensures HasSpot(g, depth, r, i) { assert Born(g, depth, r, births[i], i); }
    forall i, j, a, b | 0 < i < j < |r| && Born(g, depth, r, a, i) && Born(g, depth, r, b, j) ensures Before(a, b) {
      OneFirstSpot(g, depth, r, a, births[i], r[i].id);
      OneFirstSpot(g, depth, r, b, births[j], r[j].id);
    }
  }
}
