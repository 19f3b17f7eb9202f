/** The two breadth-first expansions of the symbol graph, proved against the theory in Bfs. */
module GraphQuery {
  import opened Prelude
  import opened GraphStore
  import opened Bfs
  import opened BfsOrder

  const CALL_EDGE_TYPES: seq<string> := ["calls", "call_graph"]
  const IMPORT_EDGE_TYPES: seq<string> := ["imports"]
  const REFERENCE_EDGE_TYPES: seq<string> := ["references"]

  function Ids(rows: seq<Node>): seq<int> {
    Map(rows, (n: Node) => n.id)
  }

  // ------------------------------------------------------------ the two graphs

  function Undirected(t: Tables): Graph {
    (id: int) => Ids(Neighbors(t, id, Both, []))
  }

  /** The rows of `rows` whose id occurs for the first time, given the ids seen before. */
  function FirstOccurrences(rows: seq<Node>, seen: set<int>): seq<Node> {
    if rows == [] then []
    else if rows[0].id in seen then FirstOccurrences(rows[1..], seen)
    else [rows[0]] + FirstOccurrences(rows[1..], seen + {rows[0].id})
  }

  lemma {:induction false} FirstOccurrencesIds(rows: seq<Node>, seen: set<int>)
    ensures NodeIds(FirstOccurrences(rows, seen)) == NodeIds(rows) - seen
    ensures forall n :: n in FirstOccurrences(rows, seen) ==> n in rows
    decreases |rows|
  {
    if rows != [] {
      assert rows == [rows[0]] + rows[1..];
      NodeIdsAppend([rows[0]], rows[1..]);
      if rows[0].id in seen {
        FirstOccurrencesIds(rows[1..], seen);
      } else {
        FirstOccurrencesIds(rows[1..], seen + {rows[0].id});
        NodeIdsAppend([rows[0]], FirstOccurrences(rows[1..], seen + {rows[0].id}));
      }
    }
  }

  function DependencyRows(t: Tables, id: int): seq<Node> {
    Neighbors(t, id, In, CALL_EDGE_TYPES) + Neighbors(t, id, Out, CALL_EDGE_TYPES)
    + Neighbors(t, id, Out, IMPORT_EDGE_TYPES) + Neighbors(t, id, In, REFERENCE_EDGE_TYPES)
  }

  function DependencyNeighbors(t: Tables, id: int): seq<Node> {
    FirstOccurrences(DependencyRows(t, id), {})
  }

  function Dependencies(t: Tables): Graph {
    (id: int) => Ids(DependencyNeighbors(t, id))
  }

  /** Callers, callees, imports and referrers, joined by an admitted edge; no other rows. */
  ghost predicate DependsOn(e: Edge, id: int, other: int) {
    || ((e.edgeType == "calls" || e.edgeType == "call_graph") && e.target == id && e.source == other)
    || ((e.edgeType == "calls" || e.edgeType == "call_graph") && e.source == id && e.target == other)
    || (e.edgeType == "imports" && e.source == id && e.target == other)
    || (e.edgeType == "references" && e.target == id && e.source == other)
  }

  lemma InIds(rows: seq<Node>, x: int)
    ensures x in Ids(rows) <==> x in NodeIds(rows)
  {
    if x in Ids(rows) {
      var i :| 0 <= i < |rows| && Ids(rows)[i] == x;
      assert rows[i] in rows;
    }
    if n :| n in rows && n.id == x {
      var i :| 0 <= i < |rows| && rows[i] == n;
      assert Ids(rows)[i] == x;
    }
  }

  /** A hop of `expand_neighbors` is a stored edge read in either direction. */
  lemma UndirectedHop(t: Tables, a: int, b: int)
    ensures b in Next(Undirected(t), a) <==>
            Live(t, b) && exists e :: e in t.edges && ((e.source == a && e.target == b)
                                                       || (e.target == a && e.source == b))
  {
    var rows := Neighbors(t, a, Both, []);
    InIds(rows, b);
    FilterMembers(t.nodes, AdjacentTo(t.edges, a, Both, []));
    if e :| e in t.edges && ((e.source == a && e.target == b) || (e.target == a && e.source == b)) && Live(t, b) {
      assert Leads(e, a, b, Both, []);
      var n :| n in t.nodes && n.id == b;
      assert n in rows;
    }
  }

  lemma DependencyRow(t: Tables, a: int, n: Node)
    ensures n in DependencyRows(t, a) <==> n in t.nodes && exists e :: e in t.edges && DependsOn(e, a, n.id)
  {
    var calls, imports, refs := CALL_EDGE_TYPES, IMPORT_EDGE_TYPES, REFERENCE_EDGE_TYPES;
    NeighborsAreJoined(t, a, In, calls, n);
    NeighborsAreJoined(t, a, Out, calls, n);
    NeighborsAreJoined(t, a, Out, imports, n);
    NeighborsAreJoined(t, a, In, refs, n);
    if n in t.nodes {
      forall e | e in t.edges
        ensures DependsOn(e, a, n.id) <==>
                Leads(e, a, n.id, In, calls) || Leads(e, a, n.id, Out, calls)
                || Leads(e, a, n.id, Out, imports) || Leads(e, a, n.id, In, refs)
      {}
    }
  }

  lemma NeighborsStored(t: Tables, a: int, dir: Direction, types: seq<string>)
    ensures forall n :: n in Neighbors(t, a, dir, types) ==> n in t.nodes
  {
    FilterMembers(t.nodes, AdjacentTo(t.edges, a, dir, types));
  }

  lemma DependencyRowsStored(t: Tables, a: int)
    ensures forall n :: n in DependencyNeighbors(t, a) ==> n in t.nodes
  {
    FirstOccurrencesIds(DependencyRows(t, a), {});
    forall n | n in DependencyRows(t, a) ensures n in t.nodes { DependencyRow(t, a, n); }
  }

  /** A hop of `expand_symbol_dependencies` is a call edge in either direction, an outgoing
      import or an incoming reference. */
  lemma DependencyHop(t: Tables, a: int, b: int)
    ensures b in Next(Dependencies(t), a) <==> Live(t, b) && exists e :: e in t.edges && DependsOn(e, a, b)
  {
    InIds(DependencyNeighbors(t, a), b);
    FirstOccurrencesIds(DependencyRows(t, a), {});
    if b in NodeIds(DependencyRows(t, a)) {
      var n :| n in DependencyRows(t, a) && n.id == b;
      DependencyRow(t, a, n);
    }
    if Live(t, b) {
      var n :| n in t.nodes && n.id == b;
      DependencyRow(t, a, n);
    }
  }

  // ------------------------------------------------------------ the order of the neighbours

  /** A stored edge of one of two types leads from `a` to `b`. */
  ghost predicate EdgeOfType(t: Tables, a: int, b: int, x: string, y: string) {
    exists e :: e in t.edges && e.source == a && e.target == b && (e.edgeType == x || e.edgeType == y)
  }

  /** What `other` is to `id`: 0 for a caller, else 1 for a callee, else 2 for an import, else 3. */
  ghost function LinkRank(t: Tables, id: int, other: int): nat {
    if EdgeOfType(t, other, id, "calls", "call_graph") then 0
    else if EdgeOfType(t, id, other, "calls", "call_graph") then 1
    else if EdgeOfType(t, id, other, "imports", "imports") then 2
    else 3
  }

  /** Each id once, and callers before callees, callees before imports, imports before referrers. */
  ghost predicate ByKind(t: Tables, id: int, rows: seq<Node>) {
    && (forall i, j :: 0 <= i < j < |rows| ==> rows[i].id != rows[j].id)
    && (forall i, j :: 0 <= i < j < |rows| ==> LinkRank(t, id, rows[i].id) <= LinkRank(t, id, rows[j].id))
  }

  lemma {:induction false} FirstOccurrencesAppend(a: seq<Node>, b: seq<Node>, seen: set<int>)
    ensures FirstOccurrences(a + b, seen) == FirstOccurrences(a, seen) + FirstOccurrences(b, seen + NodeIds(a))
    decreases |a|
  {
    if a == [] {
      assert a + b == b && seen + NodeIds(a) == seen;
    } else {
      var more := seen + {a[0].id};
      assert (a + b)[1..] == a[1..] + b && a == [a[0]] + a[1..];
      NodeIdsAppend([a[0]], a[1..]);
      FirstOccurrencesAppend(a[1..], b, if a[0].id in seen then seen else more);
      assert more + NodeIds(a[1..]) == seen + NodeIds(a);
      if a[0].id in seen { assert seen + NodeIds(a[1..]) == seen + NodeIds(a); }
    }
  }

  lemma {:induction false} FirstOccurrencesApart(rows: seq<Node>, seen: set<int>)
    ensures var r := FirstOccurrences(rows, seen); forall i, j :: 0 <= i < j < |r| ==> r[i].id != r[j].id
    decreases |rows|
  {
    if rows == [] {
    } else if rows[0].id in seen {
      FirstOccurrencesApart(rows[1..], seen);
      assert FirstOccurrences(rows, seen) == FirstOccurrences(rows[1..], seen);
    } else {
      var rest := FirstOccurrences(rows[1..], seen + {rows[0].id});
      FirstOccurrencesApart(rows[1..], seen + {rows[0].id});
      FirstOccurrencesIds(rows[1..], seen + {rows[0].id});
      forall n | n in rest ensures n.id != rows[0].id { assert n.id in NodeIds(rest); }
    }
  }

  /** The rows of `rows` have one rank. */
  ghost predicate Ranked(t: Tables, id: int, rows: seq<Node>, rank: nat) {
    forall n :: n in rows ==> LinkRank(t, id, n.id) == rank
  }

  /** The rows of one kind that no earlier list holds are of that very rank. */
  lemma PartRanked(t: Tables, id: int, earlier: seq<Node>, rows: seq<Node>, rank: nat, part: seq<Node>)
    requires part == FirstOccurrences(rows, {} + NodeIds(earlier))
    requires forall m :: m in rows ==> m in t.nodes && LinkRank(t, id, m.id) <= rank
    requires forall m :: m in t.nodes && LinkRank(t, id, m.id) < rank ==> m in earlier
    ensures Ranked(t, id, part, rank)
  {
    FirstOccurrencesIds(rows, {} + NodeIds(earlier));
    forall n | n in part ensures n.id !in NodeIds(earlier) { assert n.id in NodeIds(part); }
  }

  lemma RankedAppend(t: Tables, id: int, a: seq<Node>, b: seq<Node>, low: nat, high: nat)
    requires forall n :: n in a ==> LinkRank(t, id, n.id) <= low
    requires forall i, j :: 0 <= i < j < |a| ==> LinkRank(t, id, a[i].id) <= LinkRank(t, id, a[j].id)
    requires Ranked(t, id, b, high) && low <= high
    ensures forall n :: n in a + b ==> LinkRank(t, id, n.id) <= high
    ensures var r := a + b; forall i, j :: 0 <= i < j < |r| ==> LinkRank(t, id, r[i].id) <= LinkRank(t, id, r[j].id)
  {
    forall n | n in a + b ensures LinkRank(t, id, n.id) <= high { assert n in a || n in b; }
    forall i, j | 0 <= i < j < |a + b| ensures LinkRank(t, id, (a + b)[i].id) <= LinkRank(t, id, (a + b)[j].id) {
      if i < |a| { assert (a + b)[i] in a; } else { assert (a + b)[i] in b; }
      if j >= |a| { assert (a + b)[j] in b; }
    }
  }

  /** Which rows each of the four lists holds. */
  lemma FourLists(t: Tables, id: int, n: Node)
    ensures n in Neighbors(t, id, In, CALL_EDGE_TYPES) <==> n in t.nodes && LinkRank(t, id, n.id) == 0
    ensures n in Neighbors(t, id, Out, CALL_EDGE_TYPES)
            <==> n in t.nodes && EdgeOfType(t, id, n.id, "calls", "call_graph")
    ensures n in Neighbors(t, id, Out, IMPORT_EDGE_TYPES)
            <==> n in t.nodes && EdgeOfType(t, id, n.id, "imports", "imports")
    ensures n in Neighbors(t, id, In, REFERENCE_EDGE_TYPES) ==> n in t.nodes
  {
    NeighborsAreJoined(t, id, In, CALL_EDGE_TYPES, n);
    NeighborsAreJoined(t, id, Out, CALL_EDGE_TYPES, n);
    NeighborsAreJoined(t, id, Out, IMPORT_EDGE_TYPES, n);
    NeighborsAreJoined(t, id, In, REFERENCE_EDGE_TYPES, n);
    forall e ensures Leads(e, id, n.id, In, CALL_EDGE_TYPES)
                     <==> e.source == n.id && e.target == id && (e.edgeType == "calls" || e.edgeType == "call_graph") {}
    forall e ensures Leads(e, id, n.id, Out, CALL_EDGE_TYPES)
                     <==> e.source == id && e.target == n.id && (e.edgeType == "calls" || e.edgeType == "call_graph") {}
    forall e ensures Leads(e, id, n.id, Out, IMPORT_EDGE_TYPES)
                     <==> e.source == id && e.target == n.id && e.edgeType == "imports" {}
  }

  /** The first occurrences over the four lists, list by list. */
  lemma FourParts(t: Tables, id: int, a: seq<Node>, b: seq<Node>, c: seq<Node>, d: seq<Node>)
    ensures FirstOccurrences(a + b + c + d, {})
            == FirstOccurrences(a, {}) + FirstOccurrences(b, {} + NodeIds(a))
               + FirstOccurrences(c, {} + NodeIds(a + b)) + FirstOccurrences(d, {} + NodeIds(a + b + c))
  {
    FirstOccurrencesAppend(a + b + c, d, {});
    FirstOccurrencesAppend(a + b, c, {});
    FirstOccurrencesAppend(a, b, {});
  }

  /** The four parts one behind the other. */
  lemma PartsByKind(t: Tables, id: int, w: seq<Node>, x: seq<Node>, y: seq<Node>, z: seq<Node>)
    requires Ranked(t, id, w, 0) && Ranked(t, id, x, 1) && Ranked(t, id, y, 2) && Ranked(t, id, z, 3)
    ensures var r := w + x + y + z;
            forall i, j :: 0 <= i < j < |r| ==> LinkRank(t, id, r[i].id) <= LinkRank(t, id, r[j].id)
  {
    RankedAppend(t, id, w, x, 0, 1);
    RankedAppend(t, id, w + x, y, 1, 2);
    RankedAppend(t, id, w + x + y, z, 2, 3);
  }

  /** The neighbours come by kind, whatever the order within a kind. */
  lemma NeighborsByKind(t: Tables, id: int)
    ensures ByKind(t, id, DependencyNeighbors(t, id))
  {
    var a, b := Neighbors(t, id, In, CALL_EDGE_TYPES), Neighbors(t, id, Out, CALL_EDGE_TYPES);
    var c, d := Neighbors(t, id, Out, IMPORT_EDGE_TYPES), Neighbors(t, id, In, REFERENCE_EDGE_TYPES);
    forall n { FourLists(t, id, n); }
    FourParts(t, id, a, b, c, d);
    var w, x := FirstOccurrences(a, {} + NodeIds([])), FirstOccurrences(b, {} + NodeIds(a));
    var y, z := FirstOccurrences(c, {} + NodeIds(a + b)), FirstOccurrences(d, {} + NodeIds(a + b + c));
    PartRanked(t, id, [], a, 0, w);
    PartRanked(t, id, a, b, 1, x);
    PartRanked(t, id, a + b, c, 2, y);
    PartRanked(t, id, a + b + c, d, 3, z);
    PartsByKind(t, id, w, x, y, z);
    assert {} + NodeIds([]) == {};
    FirstOccurrencesApart(DependencyRows(t, id), {});
  }

  ghost function Universe(t: Tables, start: int): set<int> {
    NodeIds(t.nodes) + {start}
  }

  lemma UndirectedClosed(t: Tables, start: int)
    ensures Closed(Undirected(t), Universe(t, start))
  {
    forall x, n | n in Next(Undirected(t), x) ensures n in Universe(t, start) { UndirectedHop(t, x, n); }
  }

  lemma DependenciesClosed(t: Tables, start: int)
    ensures Closed(Dependencies(t), Universe(t, start))
  {
    forall x, n | n in Next(Dependencies(t), x) ensures n in Universe(t, start) { DependencyHop(t, x, n); }
  }

  // ------------------------------------------------------------ specifications

  function VisitIds(trace: seq<Visit>): seq<int> {
    Map(trace, (v: Visit) => v.id)
  }

  /** Each node within `depth` hops exactly once, no other node, nearest first. */
  ghost predicate NearestFirst(g: Graph, s: int, depth: nat, ids: seq<int>) {
    && (forall i, j :: 0 <= i < j < |ids| ==> ids[i] != ids[j])
    && (forall x :: x in ids <==> Within(g, s, x, depth))
    && (forall i, j, m: nat, n: nat ::
          0 <= i < j < |ids| && Distance(g, s, ids[i], m) && Distance(g, s, ids[j], n) ==> m <= n)
  }

  lemma SearchIsNearestFirst(g: Graph, universe: set<int>, s: int, depth: nat)
    requires Closed(g, universe) && s in universe
    ensures NearestFirst(g, s, depth, VisitIds(Search(g, universe, depth, s)))
  {
    var r := Search(g, universe, depth, s);
    SearchExact(g, universe, depth, s);
    VisitIdsSeen(r);
    VisitIdsApart(r);
    SortedByDistance(g, s, r);
  }

  lemma VisitIdsSeen(r: seq<Visit>)
    ensures forall x :: x in VisitIds(r) <==> x in Seen(r)
  {
    var ids := VisitIds(r);
    forall x ensures x in ids <==> x in Seen(r) {
      if x in Seen(r) { var i := SeenAt(r, x); assert ids[i] == x; }
      if x in ids { var i :| 0 <= i < |ids| && ids[i] == x; assert r[i] in r; }
    }
  }

  lemma VisitIdsApart(r: seq<Visit>)
    requires Unique(r)
    ensures forall i, j :: 0 <= i < j < |VisitIds(r)| ==> VisitIds(r)[i] != VisitIds(r)[j]
  {}

  lemma SortedByDistance(g: Graph, s: int, r: seq<Visit>)
    requires Sorted(r) && forall i :: 0 <= i < |r| ==> Distance(g, s, r[i].id, r[i].hops)
    ensures forall i, j, m: nat, n: nat ::
              0 <= i < j < |r| && Distance(g, s, VisitIds(r)[i], m) && Distance(g, s, VisitIds(r)[j], n) ==> m <= n
  {
    forall i, j, m: nat, n: nat
      | 0 <= i < j < |r| && Distance(g, s, VisitIds(r)[i], m) && Distance(g, s, VisitIds(r)[j], n) ensures m <= n {
      assert Distance(g, s, r[i].id, r[i].hops) && Distance(g, s, r[j].id, r[j].hops);
    }
  }

  /** What the unbudgeted dependency search lists. */
  ghost function FullExpansion(t: Tables, depth: int, start: int): seq<Visit> {
    DependenciesClosed(t, start);
    Search(Dependencies(t), Universe(t, start), depth, start)
  }

  /** What the undirected search lists. */
  ghost function PlainExpansion(t: Tables, depth: int, start: int): seq<Visit> {
    UndirectedClosed(t, start);
    Search(Undirected(t), Universe(t, start), depth, start)
  }

  // ------------------------------------------------------------ expand_neighbors

  /** The loops' bookkeeping: the queue is the unprocessed part of the trace, `visited` its
      ids, and the listed rows are the stored rows of the trace (from `skip` on). */
  ghost predicate Tracks(t: Tables, universe: set<int>, trace: seq<Visit>, k: nat, skip: nat,
                         queue: seq<Visit>, visited: set<int>, result: seq<Node>) {
    && k <= |trace| && skip <= |trace|
    && queue == trace[k..]
    && visited == Seen(trace) && visited <= universe
    && Ids(result) == VisitIds(trace)[skip..]
    && forall n :: n in result ==> n in t.nodes
  }

  lemma TracksAppend(t: Tables, universe: set<int>, trace: seq<Visit>, k: nat, skip: nat,
                     queue: seq<Visit>, visited: set<int>, result: seq<Node>, n: Node, v: Visit)
    requires Tracks(t, universe, trace, k, skip, queue, visited, result)
    requires n in t.nodes && NodeIds(t.nodes) <= universe && v.id == n.id
    ensures Tracks(t, universe, trace + [v], k, skip, queue + [v], visited + {n.id}, result + [n])
  {
    SeenAppend(trace, v);
    assert VisitIds(trace + [v]) == VisitIds(trace) + [n.id];
    assert Ids(result + [n]) == Ids(result) + [n.id];
  }

  lemma TracksPop(t: Tables, universe: set<int>, trace: seq<Visit>, k: nat, skip: nat,
                  queue: seq<Visit>, visited: set<int>, result: seq<Node>)
    requires Tracks(t, universe, trace, k, skip, queue, visited, result) && queue != []
    ensures k < |trace| && queue[0] == trace[k]
    ensures Tracks(t, universe, trace, k + 1, skip, queue[1..], visited, result)
  {}

  lemma Shrinks(universe: set<int>, before: set<int>, after: set<int>)
    requires before <= after <= universe
    ensures before == after || universe - after < universe - before
  {
    if x :| x in after && x !in before {
      assert x in universe - before && x !in universe - after;
    }
  }

  /** One turn of the inner loop, at position `j` of a popped node's neighbours. */
  lemma DiscoverStep(trace: seq<Visit>, neighbors: seq<Node>, j: nat, hops: nat, v: Visit)
    requires j < |neighbors| && v == Visit(neighbors[j].id, hops + 1)
    ensures Discover(trace, Ids(neighbors)[j..], hops)
            == Discover(if v.id in Seen(trace) then trace else trace + [v], Ids(neighbors)[j + 1..], hops)
  {
    assert Ids(neighbors)[j..][1..] == Ids(neighbors)[j + 1..];
  }

  /** The inner loop: queue the neighbours not visited yet. */
  method EnqueueUnseen(neighbors: seq<Node>, hops: nat, visited0: set<int>, result0: seq<Node>, queue0: seq<Visit>,
                       ghost t: Tables, ghost universe: set<int>, ghost ids: seq<int>, ghost trace0: seq<Visit>,
                       ghost k: nat, ghost skip: nat)
    returns (visited: set<int>, result: seq<Node>, queue: seq<Visit>, ghost trace: seq<Visit>)
    requires Tracks(t, universe, trace0, k, skip, queue0, visited0, result0)
    requires NodeIds(t.nodes) <= universe && forall n :: n in neighbors ==> n in t.nodes
    requires ids == Ids(neighbors)
    ensures Tracks(t, universe, trace, k, skip, queue, visited, result)
    ensures trace == Discover(trace0, ids, hops)
    ensures visited0 <= visited && (visited0 == visited ==> queue == queue0)
  {
    visited, result, queue, trace := visited0, result0, queue0, trace0;
    assert Ids(neighbors)[0..] == ids;
    for j := 0 to |neighbors|
      invariant Tracks(t, universe, trace, k, skip, queue, visited, result)
      invariant Discover(trace, Ids(neighbors)[j..], hops) == Discover(trace0, ids, hops)
      invariant visited0 <= visited && (visited0 == visited ==> queue == queue0)
    {
      var n := neighbors[j];
      var v := Visit(n.id, hops + 1);
      assert n in neighbors;
      DiscoverStep(trace, neighbors, j, hops, v);
      if n.id !in visited {
        TracksAppend(t, universe, trace, k, skip, queue, visited, result, n, v);
        visited, result, queue, trace := visited + {n.id}, result + [n], queue + [v], trace + [v];
      }
    }
  }

  /** The outer loop's state: from here the search runs on to all it lists. */
  ghost predicate Expanding(g: Graph, universe: set<int>, depth: int, start: int, trace: seq<Visit>, k: nat) {
    && Closed(g, universe) && start in universe && Seen(trace) <= universe && k <= |trace|
    && Run(g, universe, depth, trace, k) == Search(g, universe, depth, start)
  }

  lemma ExpandingStart(t: Tables, depth: int, start: int)
    ensures Expanding(Undirected(t), Universe(t, start), depth, start, [Visit(start, 0)], 0)
    ensures Seen([Visit(start, 0)]) == {start} && VisitIds([Visit(start, 0)]) == [start]
  {
    UndirectedClosed(t, start);
    assert Seen([Visit(start, 0)]) == {start};
  }

  lemma ExpandingStep(g: Graph, universe: set<int>, depth: int, start: int, trace: seq<Visit>, k: nat)
    requires Expanding(g, universe, depth, start, trace, k) && k < |trace|
    ensures Expanding(g, universe, depth, start, Pop(g, depth, trace, k), k + 1)
  {
    RunStep(g, universe, depth, trace, k);
  }

  /** Both: the loop's variables and the search they stand for. */
  ghost predicate Listing(t: Tables, depth: int, start: int, trace: seq<Visit>, k: nat, skip: nat,
                          queue: seq<Visit>, visited: set<int>, result: seq<Node>) {
    && Tracks(t, Universe(t, start), trace, k, skip, queue, visited, result)
    && Expanding(Undirected(t), Universe(t, start), depth, start, trace, k)
  }

  /** Before the first turn the start is listed if it has a row. */
  lemma TracksStart(t: Tables, start: int, row: Option<Node>, skip: nat, result: seq<Node>)
    requires skip == (if row.Some? then 0 else 1) && result == (if row.Some? then [row.value] else [])
    requires row.Some? ==> row.value in t.nodes && row.value.id == start
    ensures Tracks(t, Universe(t, start), [Visit(start, 0)], 0, skip, [Visit(start, 0)], {start}, result)
  {
    ExpandingStart(t, 0, start);
    assert Ids(result) == [start][skip..];
  }

  lemma ListingStart(t: Tables, depth: int, start: int, row: Option<Node>, skip: nat, result: seq<Node>)
    requires skip == (if row.Some? then 0 else 1) && result == (if row.Some? then [row.value] else [])
    requires row.Some? ==> row.value in t.nodes && row.value.id == start
    ensures Listing(t, depth, start, [Visit(start, 0)], 0, skip, [Visit(start, 0)], {start}, result)
  {
    ExpandingStart(t, depth, start);
    TracksStart(t, start, row, skip, result);
  }

  /** A popped node at the depth limit. */
  lemma ListingSkips(t: Tables, depth: int, start: int, trace: seq<Visit>, k: nat, next: nat, skip: nat,
                     queue: seq<Visit>, visited: set<int>, result: seq<Node>)
    requires Listing(t, depth, start, trace, k, skip, queue, visited, result) && next == k + 1
    requires queue != [] && queue[0].hops >= depth
    ensures Listing(t, depth, start, trace, next, skip, queue[1..], visited, result)
  {
    TracksPop(t, Universe(t, start), trace, k, skip, queue, visited, result);
    ExpandingStep(Undirected(t), Universe(t, start), depth, start, trace, k);
  }

  lemma ListingEnds(t: Tables, depth: nat, start: int, trace: seq<Visit>, k: nat, skip: nat,
                    visited: set<int>, result: seq<Node>)
    requires Listing(t, depth, start, trace, k, skip, [], visited, result) && skip <= 1
    ensures forall n :: n in result ==> n in t.nodes
    ensures VisitIds(PlainExpansion(t, depth, start)) != []
    ensures Ids(result) == VisitIds(PlainExpansion(t, depth, start))[skip..]
    ensures skip == 0 ==> NearestFirst(Undirected(t), start, depth, Ids(result))
  {
    assert VisitIds(trace)[0..] == VisitIds(trace);
    SearchIsNearestFirst(Undirected(t), Universe(t, start), start, depth);
    SearchExact(Undirected(t), Universe(t, start), depth, start);
  }

  /** A popped node inside the depth limit. */
  method ExpandAround(storage: GraphStorage, visited0: set<int>, result0: seq<Node>, queue0: seq<Visit>,
                      ghost t: Tables, ghost depth: int, ghost start: int, ghost trace0: seq<Visit>, ghost at: nat,
                      ghost k: nat, ghost skip: nat)
    returns (visited: set<int>, result: seq<Node>, queue: seq<Visit>, ghost trace: seq<Visit>)
    requires t == storage.Contents() && k == at + 1
    requires Listing(t, depth, start, trace0, at, skip, queue0, visited0, result0)
    requires queue0 != [] && queue0[0].hops < depth
    ensures Listing(t, depth, start, trace, k, skip, queue, visited, result)
    ensures visited0 <= visited <= Universe(t, start) && (visited0 == visited ==> queue == queue0[1..])
  {
    TracksPop(t, Universe(t, start), trace0, at, skip, queue0, visited0, result0);
    ExpandingStep(Undirected(t), Universe(t, start), depth, start, trace0, at);
    var node := queue0[0];
    var neighbors := storage.GetNeighbors(node.id, Both, []);
    NeighborsStored(t, node.id, Both, []);
    visited, result, queue, trace :=
      EnqueueUnseen(neighbors, node.hops, visited0, result0, queue0[1..], t, Universe(t, start),
                    Next(Undirected(t), node.id), trace0, k, skip);
  }

  method ExpandNeighbors(symbolId: int, depth: int, storage: GraphStorage?) returns (result: seq<Node>)
    ensures storage == null || depth < 1 ==> result == []
    ensures storage != null ==> forall n :: n in result ==> n in storage.nodes
    ensures storage != null && depth >= 1 && Live(storage.Contents(), symbolId) ==>
              NearestFirst(Undirected(storage.Contents()), symbolId, depth, Ids(result))
    ensures storage != null && depth >= 1 ==>
              var all := VisitIds(PlainExpansion(storage.Contents(), depth, symbolId));
              all != [] && Ids(result) == if Live(storage.Contents(), symbolId) then all else all[1..]
  {
    result := [];
    if storage == null || depth < 1 {
      return;
    }
    ghost var t := storage.Contents();
    var visited: set<int> := {symbolId};
    var start := storage.GetSymbol(symbolId);
    if start.Some? {
      result := [start.value];
    }
    ghost var skip := if start.Some? then 0 else 1;
    ghost var trace, k := [Visit(symbolId, 0)], 0;
    var queue := [Visit(symbolId, 0)];
    ListingStart(t, depth, symbolId, start, skip, result);
    while queue != []
      invariant Listing(t, depth, symbolId, trace, k, skip, queue, visited, result)
      decreases Universe(t, symbolId) - visited, |queue|
    {
      ghost var at := k;
      k := k + 1;
      if queue[0].hops >= depth {
        ListingSkips(t, depth, symbolId, trace, at, k, skip, queue, visited, result);
        queue := queue[1..];
        continue;
      }
      ghost var before := visited;
      visited, result, queue, trace :=
        ExpandAround(storage, visited, result, queue, t, depth, symbolId, trace, at, k, skip);
      Shrinks(Universe(t, symbolId), before, visited);
    }
    ListingEnds(t, depth, symbolId, trace, k, skip, visited, result);
    assert VisitIds(PlainExpansion(t, depth, symbolId))[0..] == VisitIds(PlainExpansion(t, depth, symbolId));
  }

  // ------------------------------------------------------------ expand_symbol_dependencies

  /** The loop of `_get_all_dependency_neighbors`: keep each id's first row. */
  method GetAllDependencyNeighbors(symbolId: int, storage: GraphStorage) returns (result: seq<Node>)
    ensures result == DependencyNeighbors(storage.Contents(), symbolId)
    ensures ByKind(storage.Contents(), symbolId, result)
    ensures forall n :: n in result ==> n in storage.nodes
    ensures forall n, e :: n in storage.nodes && e in storage.edges && DependsOn(e, symbolId, n.id) ==>
              n.id in NodeIds(result)
  {
    var rows := storage.GetNeighbors(symbolId, In, CALL_EDGE_TYPES)
                + storage.GetNeighbors(symbolId, Out, CALL_EDGE_TYPES)
                + storage.GetNeighbors(symbolId, Out, IMPORT_EDGE_TYPES)
                + storage.GetNeighbors(symbolId, In, REFERENCE_EDGE_TYPES);
    result := KeepFirst(rows);
    NeighborsByKind(storage.Contents(), symbolId);
    DependencyRowsStored(storage.Contents(), symbolId);
    forall n, e | n in storage.nodes && e in storage.edges && DependsOn(e, symbolId, n.id)
      ensures n.id in NodeIds(result) {
      DependencyHop(storage.Contents(), symbolId, n.id);
      InIds(result, n.id);
    }
  }

  method KeepFirst(rows: seq<Node>) returns (result: seq<Node>)
    ensures result == FirstOccurrences(rows, {})
  {
    var seen: set<int> := {};
    result := [];
    for i := 0 to |rows|
      invariant result + FirstOccurrences(rows[i..], seen) == FirstOccurrences(rows, {})
    {
      var neighbor := rows[i];
      assert rows[i..][1..] == rows[i + 1..];
      if neighbor.id !in seen {
        assert result + FirstOccurrences(rows[i..], seen)
            == (result + [neighbor]) + FirstOccurrences(rows[i + 1..], seen + {neighbor.id});
        seen := seen + {neighbor.id};
        result := result + [neighbor];
      }
    }
  }

  /** How many nodes the two budgets leave room for. */
  function Cap(maxNodes: int, maxSymbolExpansions: int): int {
    Min(maxNodes, 1 + maxSymbolExpansions)
  }

  /** The inner loop under the two budgets: it stops right after the node that spends one. */
  method EnqueueWithin(neighbors: seq<Node>, hops: nat, maxNodes: int, maxSymbolExpansions: int,
                       visited0: set<int>, result0: seq<Node>, queue0: seq<Visit>, expansions0: nat,
                       ghost t: Tables, ghost universe: set<int>, ghost ids: seq<int>, ghost trace0: seq<Visit>,
                       ghost k: nat)
    returns (visited: set<int>, result: seq<Node>, queue: seq<Visit>, expansions: nat, ghost trace: seq<Visit>)
    requires Tracks(t, universe, trace0, k, 0, queue0, visited0, result0)
    requires NodeIds(t.nodes) <= universe && forall n :: n in neighbors ==> n in t.nodes
    requires ids == Ids(neighbors) && expansions0 + 1 == |trace0| < Cap(maxNodes, maxSymbolExpansions)
    ensures Tracks(t, universe, trace, k, 0, queue, visited, result)
    ensures trace <= Discover(trace0, ids, hops)
    ensures expansions + 1 == |trace| <= Cap(maxNodes, maxSymbolExpansions)
    ensures trace == Discover(trace0, ids, hops) || |trace| == Cap(maxNodes, maxSymbolExpansions)
    ensures visited0 <= visited && (visited0 == visited ==> queue == queue0)
  {
    visited, result, queue, expansions, trace := visited0, result0, queue0, expansions0, trace0;
    assert Ids(neighbors)[0..] == ids;
    for j := 0 to |neighbors|
      invariant Tracks(t, universe, trace, k, 0, queue, visited, result)
      invariant Discover(trace, Ids(neighbors)[j..], hops) == Discover(trace0, ids, hops)
      invariant expansions + 1 == |trace| < Cap(maxNodes, maxSymbolExpansions)
      invariant visited0 <= visited && (visited0 == visited ==> queue == queue0)
    {
      var n := neighbors[j];
      var v := Visit(n.id, hops + 1);
      assert n in neighbors;
      DiscoverStep(trace, neighbors, j, hops, v);
      if n.id !in visited {
        TracksAppend(t, universe, trace, k, 0, queue, visited, result, n, v);
        visited, result, queue, trace := visited + {n.id}, result + [n], queue + [v], trace + [v];
        expansions := expansions + 1;
        if |result| >= maxNodes || expansions >= maxSymbolExpansions {
          break;
        }
      }
    }
  }

  /** The outer loop's state while no budget is spent: the search still runs as unbudgeted. */
  ghost predicate OnCourse(t: Tables, depth: int, start: int, trace: seq<Visit>, k: nat) {
    Expanding(Dependencies(t), Universe(t, start), depth, start, trace, k)
  }

  lemma Starts(t: Tables, depth: nat, start: int)
    ensures OnCourse(t, depth, start, [Visit(start, 0)], 0)
    ensures [Visit(start, 0)] <= FullExpansion(t, depth, start)
    ensures Seen([Visit(start, 0)]) == {start}
  {
    DependenciesClosed(t, start);
    assert Seen([Visit(start, 0)]) == {start};
  }

  /** A popped node at the depth limit leaves the trace alone. */
  lemma Skips(t: Tables, depth: int, start: int, trace: seq<Visit>, k: nat)
    requires OnCourse(t, depth, start, trace, k) && k < |trace| && trace[k].hops >= depth
    ensures OnCourse(t, depth, start, trace, k + 1)
  {
    RunStep(Dependencies(t), Universe(t, start), depth, trace, k);
  }

  /** A popped node inside the limit. */
  lemma Advances(t: Tables, depth: int, start: int, trace: seq<Visit>, k: nat, node: Visit)
    requires OnCourse(t, depth, start, trace, k) && k < |trace| && trace[k] == node && node.hops < depth
    ensures var next := Discover(trace, Next(Dependencies(t), node.id), node.hops);
            OnCourse(t, depth, start, next, k + 1) && next <= FullExpansion(t, depth, start)
  {
    RunStep(Dependencies(t), Universe(t, start), depth, trace, k);
  }

  lemma PrefixTransitive(a: seq<Visit>, b: seq<Visit>, c: seq<Visit>)
    requires a <= b <= c
    ensures a <= c
  {}

  /** What the outer loop leaves: all of the search, or as much as the budgets admit. */
  lemma Finishes(t: Tables, depth: int, start: int, trace: seq<Visit>, k: nat, cap: int,
                 queue: seq<Visit>, visited: set<int>, result: seq<Node>)
    requires Tracks(t, Universe(t, start), trace, k, 0, queue, visited, result)
    requires 0 < |trace| <= Max(1, cap) && trace <= FullExpansion(t, depth, start)
    requires |trace| >= cap || (queue == [] && OnCourse(t, depth, start, trace, k))
    ensures var full := FullExpansion(t, depth, start);
            Ids(result) == VisitIds(full)[..Min(|full|, Max(1, cap))]
  {
    assert Ids(result) == VisitIds(trace);
  }

  /** One popped node inside the depth limit, while both budgets have room. */
  method ExpandNode(node: Visit, storage: GraphStorage, maxNodes: int, maxSymbolExpansions: int,
                    visited0: set<int>, result0: seq<Node>, queue0: seq<Visit>, expansions0: nat,
                    ghost t: Tables, ghost universe: set<int>, ghost depth: int, ghost start: int,
                    ghost trace0: seq<Visit>, ghost at: nat, ghost k: nat)
    returns (visited: set<int>, result: seq<Node>, queue: seq<Visit>, expansions: nat, ghost trace: seq<Visit>)
    requires t == storage.Contents() && universe == Universe(t, start) && k == at + 1
    requires Tracks(t, universe, trace0, k, 0, queue0, visited0, result0)
    requires expansions0 + 1 == |trace0| < Cap(maxNodes, maxSymbolExpansions)
    requires OnCourse(t, depth, start, trace0, at) && at < |trace0| && trace0[at] == node && node.hops < depth
    ensures Tracks(t, universe, trace, k, 0, queue, visited, result)
    ensures expansions + 1 == |trace| <= Cap(maxNodes, maxSymbolExpansions)
    ensures trace <= FullExpansion(t, depth, start)
    ensures |trace| == Cap(maxNodes, maxSymbolExpansions) || OnCourse(t, depth, start, trace, k)
    ensures visited0 <= visited && (visited0 == visited ==> queue == queue0)
  {
    var neighbors := GetAllDependencyNeighbors(node.id, storage);
    ghost var ids := Next(Dependencies(t), node.id);
    Advances(t, depth, start, trace0, at, node);
    DependencyRowsStored(t, node.id);
    visited, result, queue, expansions, trace :=
      EnqueueWithin(neighbors, node.hops, maxNodes, maxSymbolExpansions, visited0, result0, queue0, expansions0,
                    t, universe, ids, trace0, k);
    PrefixTransitive(trace, Discover(trace0, ids, node.hops), FullExpansion(t, depth, start));
  }

  /** The state of the queue loop: the trace is a part of the search, all that was processed of it
      while no budget is spent. */
  ghost predicate Searching(t: Tables, depth: int, start: int, cap: int, expansions: nat, trace: seq<Visit>, k: nat,
                            queue: seq<Visit>, visited: set<int>, result: seq<Node>) {
    && Tracks(t, Universe(t, start), trace, k, 0, queue, visited, result)
    && expansions + 1 == |trace| <= Max(1, cap)
    && trace <= FullExpansion(t, depth, start)
    && (|trace| >= cap || OnCourse(t, depth, start, trace, k))
  }

  lemma SearchingStart(t: Tables, depth: nat, start: Node, cap: int)
    requires start in t.nodes
    ensures Searching(t, depth, start.id, cap, 0, [Visit(start.id, 0)], 0, [Visit(start.id, 0)], {start.id}, [start])
  {
    Starts(t, depth, start.id);
    TracksStart(t, start.id, Some(start), 0, [start]);
  }

  /** A popped node at the depth limit. */
  lemma SearchingSkips(t: Tables, depth: int, start: int, cap: int, expansions: nat, trace: seq<Visit>,
                       k: nat, next: nat, queue: seq<Visit>, visited: set<int>, result: seq<Node>)
    requires Searching(t, depth, start, cap, expansions, trace, k, queue, visited, result) && next == k + 1
    requires queue != [] && queue[0].hops >= depth
    ensures Searching(t, depth, start, cap, expansions, trace, next, queue[1..], visited, result)
  {
    TracksPop(t, Universe(t, start), trace, k, 0, queue, visited, result);
    if |trace| < cap { Skips(t, depth, start, trace, k); }
  }

  lemma SearchingSize(t: Tables, depth: int, start: int, cap: int, expansions: nat, trace: seq<Visit>, k: nat,
                      queue: seq<Visit>, visited: set<int>, result: seq<Node>)
    requires Searching(t, depth, start, cap, expansions, trace, k, queue, visited, result)
    ensures |result| == |trace| == expansions + 1
  {
    assert |Ids(result)| == |VisitIds(trace)[0..]|;
  }

  lemma SearchingEnds(t: Tables, depth: int, start: int, cap: int, expansions: nat, trace: seq<Visit>, k: nat,
                      queue: seq<Visit>, visited: set<int>, result: seq<Node>)
    requires Searching(t, depth, start, cap, expansions, trace, k, queue, visited, result)
    requires queue == [] || |trace| >= cap
    ensures var full := FullExpansion(t, depth, start); Ids(result) == VisitIds(full)[..Min(|full|, Max(1, cap))]
    ensures forall n :: n in result ==> n in t.nodes
  {
    Finishes(t, depth, start, trace, k, cap, queue, visited, result);
  }

  /** A popped node inside the limit, both budgets having room. */
  method ExpandTurn(storage: GraphStorage, maxNodes: int, maxSymbolExpansions: int,
                    visited0: set<int>, result0: seq<Node>, queue0: seq<Visit>, expansions0: nat,
                    ghost t: Tables, ghost depth: int, ghost start: int, ghost cap: int,
                    ghost trace0: seq<Visit>, ghost at: nat, ghost k: nat)
    returns (visited: set<int>, result: seq<Node>, queue: seq<Visit>, expansions: nat, ghost trace: seq<Visit>)
    requires t == storage.Contents() && k == at + 1 && cap == Cap(maxNodes, maxSymbolExpansions)
    requires Searching(t, depth, start, cap, expansions0, trace0, at, queue0, visited0, result0)
    requires queue0 != [] && queue0[0].hops < depth && |trace0| < cap
    ensures Searching(t, depth, start, cap, expansions, trace, k, queue, visited, result)
    ensures visited0 <= visited <= Universe(t, start) && (visited0 == visited ==> queue == queue0[1..])
  {
    TracksPop(t, Universe(t, start), trace0, at, 0, queue0, visited0, result0);
    visited, result, queue, expansions, trace :=
      ExpandNode(queue0[0], storage, maxNodes, maxSymbolExpansions, visited0, result0, queue0[1..], expansions0,
                 t, Universe(t, start), depth, start, trace0, at, k);
  }

  /** The queue loop, from a stored start row. */
  method ExpandFrom(start: Node, storage: GraphStorage, depth: nat, maxNodes: int, maxSymbolExpansions: int)
    returns (result: seq<Node>)
    requires start in storage.nodes
    ensures var full := FullExpansion(storage.Contents(), depth, start.id);
            Ids(result) == VisitIds(full)[..Min(|full|, Max(1, Cap(maxNodes, maxSymbolExpansions)))]
    ensures forall n :: n in result ==> n in storage.nodes
  {
    var visited, queue := {start.id}, [Visit(start.id, 0)];
    var expansions: nat := 0;
    result := [start];
    ghost var t, cap := storage.Contents(), Cap(maxNodes, maxSymbolExpansions);
    ghost var trace, k := [Visit(start.id, 0)], 0;
    SearchingStart(t, depth, start, cap);
    while queue != []
      invariant t == storage.Contents()
      invariant Searching(t, depth, start.id, cap, expansions, trace, k, queue, visited, result)
      decreases Universe(t, start.id) - visited, |queue|
    {
      ghost var at := k;
      k := k + 1;
      if queue[0].hops >= depth {
        SearchingSkips(t, depth, start.id, cap, expansions, trace, at, k, queue, visited, result);
        queue := queue[1..];
        continue;
      }
      SearchingSize(t, depth, start.id, cap, expansions, trace, at, queue, visited, result);
      if |result| >= maxNodes || expansions >= maxSymbolExpansions {
        k := at;
        break;
      }
      ghost var before := visited;
      visited, result, queue, expansions, trace :=
        ExpandTurn(storage, maxNodes, maxSymbolExpansions, visited, result, queue, expansions,
                   t, depth, start.id, cap, trace, at, k);
      Shrinks(Universe(t, start.id), before, visited);
    }
    SearchingEnds(t, depth, start.id, cap, expansions, trace, k, queue, visited, result);
  }

  /** Budgets cut the unbudgeted search to an exact prefix; the start row is always kept. */
  method ExpandSymbolDependencies(symbolId: int, storage: GraphStorage?, depth: int, maxNodes: int,
                                  maxSymbolExpansions: int)
    returns (result: seq<Node>)
    ensures storage == null || depth < 1 || !Live(storage.Contents(), symbolId) ==> result == []
    ensures storage != null && depth >= 1 && Live(storage.Contents(), symbolId) ==>
              var full := FullExpansion(storage.Contents(), depth, symbolId);
              Ids(result) == VisitIds(full)[..Min(|full|, Max(1, Min(maxNodes, 1 + maxSymbolExpansions)))]
    ensures storage != null ==> forall n :: n in result ==> n in storage.nodes
  {
    if storage == null || depth < 1 {
      return [];
    }
    var start := storage.GetSymbol(symbolId);
    if start.None? {
      return [];
    }
    result := ExpandFrom(start.value, storage, depth, maxNodes, maxSymbolExpansions);
  }

  /** The unbudgeted list is in order of true distance along dependency edges ... */
  lemma FullExpansionExact(t: Tables, depth: nat, start: int)
    ensures NearestFirst(Dependencies(t), start, depth, VisitIds(FullExpansion(t, depth, start)))
  {
    DependenciesClosed(t, start);
    SearchIsNearestFirst(Dependencies(t), Universe(t, start), start, depth);
  }

  /** ... and at equal distance in the order of the spots that first name the rows, with each
      node's neighbours listed by kind; so no other list is meant. */
  lemma FullExpansionOrder(t: Tables, depth: nat, start: int)
    ensures var g, full := Dependencies(t), FullExpansion(t, depth, start);
            && (forall i :: 0 < i < |full| ==> HasSpot(g, depth, full, i))
            && (forall i, j, a, b :: 0 < i < j < |full| && Born(g, depth, full, a, i) && Born(g, depth, full, b, j) ==>
                                       Before(a, b))
    ensures forall id :: ByKind(t, id, DependencyNeighbors(t, id)) && Next(Dependencies(t), id)
                                                                    == Ids(DependencyNeighbors(t, id))
  {
    DependenciesClosed(t, start);
    SearchOrder(Dependencies(t), Universe(t, start), depth, start);
    forall id { NeighborsByKind(t, id); }
  }

  /** ... so that a budgeted list is a nearest part of it: nothing left out is nearer. */
  lemma PrefixIsNearest(g: Graph, s: int, depth: nat, ids: seq<int>, size: nat, x: int, y: int, m: nat, n: nat)
    requires NearestFirst(g, s, depth, ids) && size <= |ids|
    requires x in ids[..size] && Distance(g, s, x, m)
    requires y !in ids[..size] && Distance(g, s, y, n)
    ensures m <= n
  {
    if n <= depth {
      assert y in ids;
      var i :| 0 <= i < size && ids[i] == x;
      assert ids == ids[..size] + ids[size..] && y in ids[size..];
      var j :| size <= j < |ids| && ids[j] == y;
    } else {
      assert x in ids && Within(g, s, x, depth);
    }
  }
}
