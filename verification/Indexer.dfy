/** The incremental update of the index for one file (repo_index/indexer.py). */
module Indexer {
  import opened Prelude
  import opened Text
  import opened GraphStore
  import opened GraphBuilder
  import opened SymbolExtractor
  import opened DependencyExtractor

  /** symbols.json beside the two tables. */
  datatype Snapshot = Snapshot(symbols: seq<Symbol>, tables: Tables)

  function OtherFile(path: string): Symbol -> bool {
    (s: Symbol) => s.file != path
  }

  // ------------------------------------------------------------ the update as a function

  /** The names of the updated file only; no module.short keys here. */
  function LocalNames(symbols: seq<Symbol>, base: nat, n: nat): NameIndex
    requires n <= |symbols|
  {
    if n == 0 then map[]
    else
      var s := symbols[n - 1];
      SetDefault(LocalNames(symbols, base, n - 1)[s.name := base + n], LastSegment(s.name), base + n)
  }

  function NoModule(): string -> string {
    (file: string) => ""
  }

  /** Within the file the priority is that of a build, short of the module.short keys. */
  lemma {:induction false} LocalPriority(symbols: seq<Symbol>, base: nat, n: nat, x: string)
    requires n <= |symbols| && forall i :: 0 <= i < |symbols| ==> symbols[i].name != ""
    ensures Get(LocalNames(symbols, base, n), x)
            == match Winner(symbols, NoModule(), x, n) case None => None case Some(i) => Some(base + i + 1)
    decreases n
  {
    if n > 0 {
      var m := n - 1;
      LocalPriority(symbols, base, m, x);
      WinnerStep(symbols, NoModule(), x, m, n);
    }
  }

  /** The file's own names first, then the first row of the whole table with that name. */
  function ResolveLocally(name: string, names: NameIndex, nodes: seq<Node>): Option<int> {
    if name in names then Some(names[name])
    else if LastSegment(name) in names then Some(names[LastSegment(name)])
    else
      var exact := FirstNamed(nodes, name);
      var row := if exact.None? && '.' in name then FirstNamed(nodes, LastSegment(name)) else exact;
      if row.Some? then Some(row.value.id) else None
  }

  /** `x` is a name or short name of the file's own symbols; `id` is the row it means. */
  ghost predicate OwnMeans(symbols: seq<Symbol>, base: nat, x: string, id: int) {
    id > base && Means(symbols, NoModule(), x, id - base - 1)
  }

  ghost predicate OwnName(symbols: seq<Symbol>, x: string) {
    exists s :: s in symbols && (x == s.name || x == LastSegment(s.name))
  }

  /** What an edge end means to an update: the file's own names first, full text before last
      segment, then the first row of the table so called, again full text before last segment. */
  ghost predicate UpdateMeans(symbols: seq<Symbol>, base: nat, nodes: seq<Node>, name: string, id: int) {
    var short := LastSegment(name);
    if OwnName(symbols, name) then OwnMeans(symbols, base, name, id)
    else if OwnName(symbols, short) then OwnMeans(symbols, base, short, id)
    else FirstRow(nodes, name, id)
         || ('.' in name && (forall n :: n in nodes ==> n.record.name != name) && FirstRow(nodes, short, id))
  }

  lemma OwnNameMeans(symbols: seq<Symbol>, base: nat, x: string, id: int)
    requires forall i :: 0 <= i < |symbols| ==> symbols[i].name != ""
    ensures x in LocalNames(symbols, base, |symbols|) <==> OwnName(symbols, x)
    ensures Get(LocalNames(symbols, base, |symbols|), x) == Some(id) <==> OwnMeans(symbols, base, x, id)
  {
    LocalPriority(symbols, base, |symbols|, x);
    var full, alias := LastFull(symbols, x, |symbols|), FirstAlias(symbols, NoModule(), x, |symbols|);
    forall s | s in symbols
      ensures FullName(s, x) || Alias(s, NoModule(), x) <==> x == s.name || x == LastSegment(s.name) {
      var i :| 0 <= i < |symbols| && symbols[i] == s;
    }
    if full.Some? { assert symbols[full.value] in symbols; }
    if alias.Some? { assert symbols[alias.value] in symbols; }
    if id > base { WinnerMeans(symbols, NoModule(), x, id - base - 1); }
  }

  lemma ResolveLocallyMeans(symbols: seq<Symbol>, base: nat, nodes: seq<Node>, name: string, id: int)
    requires forall i :: 0 <= i < |symbols| ==> symbols[i].name != ""
    ensures ResolveLocally(name, LocalNames(symbols, base, |symbols|), nodes) == Some(id)
            <==> UpdateMeans(symbols, base, nodes, name, id)
  {
    OwnNameMeans(symbols, base, name, id);
    OwnNameMeans(symbols, base, LastSegment(name), id);
    FirstNamedIsFirst(nodes, name, id);
    FirstNamedIsFirst(nodes, LastSegment(name), id);
  }

  function UpdateEdgeOf(d: Dep, names: NameIndex, nodes: seq<Node>): Option<Edge> {
    Joined(ResolveLocally(d.source, names, nodes), ResolveLocally(d.target, names, nodes), d.relation)
  }

  function UpdateEdges(deps: seq<Dep>, names: NameIndex, nodes: seq<Node>): seq<Edge> {
    if deps == [] then []
    else
      match UpdateEdgeOf(deps[0], names, nodes)
      case None => UpdateEdges(deps[1..], names, nodes)
      case Some(e) => [e] + UpdateEdges(deps[1..], names, nodes)
  }

  /** Main theorem: an update adds an edge exactly if some dependency of the file means its two
      different ends. */
  lemma {:induction false} UpdateEdgesExact(symbols: seq<Symbol>, base: nat, nodes: seq<Node>, deps: seq<Dep>, e: Edge)
    requires forall i :: 0 <= i < |symbols| ==> symbols[i].name != ""
    ensures e in UpdateEdges(deps, LocalNames(symbols, base, |symbols|), nodes)
            <==> exists d :: d in deps && UpdateEdgeMeans(symbols, base, nodes, d, e)
    decreases |deps|
  {
    if deps != [] {
      UpdateEdgesExact(symbols, base, nodes, deps[1..], e);
      UpdateEdgeOfMeans(symbols, base, nodes, deps[0], e);
      UpdateFirst(deps, LocalNames(symbols, base, |symbols|), nodes, e);
      assert forall d :: d in deps <==> d == deps[0] || d in deps[1..];
    }
  }

  lemma UpdateFirst(deps: seq<Dep>, names: NameIndex, nodes: seq<Node>, e: Edge)
    requires deps != []
    ensures e in UpdateEdges(deps, names, nodes)
            <==> UpdateEdgeOf(deps[0], names, nodes) == Some(e) || e in UpdateEdges(deps[1..], names, nodes)
  {}

  lemma UpdateEdgeOfMeans(symbols: seq<Symbol>, base: nat, nodes: seq<Node>, d: Dep, e: Edge)
    requires forall i :: 0 <= i < |symbols| ==> symbols[i].name != ""
    ensures UpdateEdgeOf(d, LocalNames(symbols, base, |symbols|), nodes) == Some(e)
            <==> UpdateEdgeMeans(symbols, base, nodes, d, e)
  {
    var names := LocalNames(symbols, base, |symbols|);
    ResolveLocallyMeans(symbols, base, nodes, d.source, e.source);
    ResolveLocallyMeans(symbols, base, nodes, d.target, e.target);
    JoinedIs(ResolveLocally(d.source, names, nodes), ResolveLocally(d.target, names, nodes), d, e);
  }

  /** `e` joins the rows the two ends of `d` mean to the update. */
  ghost predicate UpdateEdgeMeans(symbols: seq<Symbol>, base: nat, nodes: seq<Node>, d: Dep, e: Edge) {
    && UpdateMeans(symbols, base, nodes, d.source, e.source) && UpdateMeans(symbols, base, nodes, d.target, e.target)
    && e.source != 0 && e.target != 0 && e.source != e.target && e.edgeType == d.relation
  }

  lemma JoinedIs(a: Option<int>, b: Option<int>, d: Dep, e: Edge)
    ensures Joined(a, b, d.relation) == Some(e)
            <==> a == Some(e.source) && b == Some(e.target) && e.source != 0 && e.target != 0 && e.source != e.target
                 && e.edgeType == d.relation
  {}

  function AddRows(t: Tables, symbols: seq<Symbol>): Tables {
    t.(nodes := t.nodes + Rows(symbols, t.lastId), lastId := t.lastId + |symbols|)
  }

  /** The edges an update adds, given the tables before it. */
  function AddedEdges(t: Tables, path: string, symbols: seq<Symbol>, deps: seq<Dep>): seq<Edge> {
    UpdateEdges(deps, LocalNames(symbols, t.lastId, |symbols|), AddRows(RemoveFile(t, path), symbols).nodes)
  }

  lemma AddedEdgesExact(t: Tables, path: string, symbols: seq<Symbol>, deps: seq<Dep>, e: Edge)
    requires forall i :: 0 <= i < |symbols| ==> symbols[i].name != ""
    ensures var nodes := Filter(t.nodes, OutsideFile(path)) + Rows(symbols, t.lastId);
            e in AddedEdges(t, path, symbols, deps)
            <==> exists d :: d in deps && UpdateEdgeMeans(symbols, t.lastId, nodes, d, e)
  {
    UpdateEdgesExact(symbols, t.lastId, AddRows(RemoveFile(t, path), symbols).nodes, deps, e);
  }

  function UpdatedTables(t: Tables, path: string, symbols: seq<Symbol>, deps: seq<Dep>): Tables {
    var rows := AddRows(RemoveFile(t, path), symbols);
    rows.(edges := rows.edges + AddedEdges(t, path, symbols, deps))
  }

  // ------------------------------------------------------------ the method

  class RepoIndex {
    var symbols: seq<Symbol>
    var storage: GraphStorage?

    constructor (symbols: seq<Symbol>, storage: GraphStorage?)
      ensures this.symbols == symbols && this.storage == storage
    {
      this.symbols, this.storage := symbols, storage;
    }

    /** `src` is None when the file is missing, unparsable or outside an index. */
    method UpdateIndexForFile(src: Option<Source>) returns (updated: nat)
      modifies this, storage
      ensures storage == old(storage)
      ensures src.None? ==> updated == 0 && symbols == old(symbols)
                            && (storage != null ==> storage.Contents() == old(storage.Contents()))
      ensures src.Some? ==> updated == |Extract(src.value)|
      ensures src.Some? ==> symbols == Filter(old(symbols), OtherFile(src.value.path)) + Extract(src.value)
      ensures src.Some? && storage != null ==>
                storage.Contents() == UpdatedTables(old(storage.Contents()), src.value.path, Extract(src.value),
                                                    Collected(src.value, Extract(src.value), src.value.root))
    {
      if src.None? {
        return 0;
      }
      var path := src.value.path;
      var newSymbols := ExtractSymbols(src.value);
      symbols := Filter(symbols, OtherFile(path)) + newSymbols;
      updated := |newSymbols|;
      if storage == null {
        return;
      }
      var edges := ExtractEdgesForFile(src.value, newSymbols);
      ExtractedFromFile(src.value);
      UpdateGraph(storage, path, newSymbols, edges);
    }
  }

  method UpdateGraph(storage: GraphStorage, path: string, newSymbols: seq<Symbol>, deps: seq<Dep>)
    requires forall s :: s in newSymbols ==> s.name != ""
    modifies storage
    ensures storage.Contents() == UpdatedTables(old(storage.Contents()), path, newSymbols, deps)
  {
    var _ := storage.RemoveNodesForFile(path);
    var names := AddFileSymbols(storage, newSymbols);
    AddFileEdges(storage, deps, names);
  }

  method AddFileEdges(storage: GraphStorage, deps: seq<Dep>, names: NameIndex)
    modifies storage
    ensures storage.nodes == old(storage.nodes) && storage.lastId == old(storage.lastId)
    ensures storage.edges == old(storage.edges) + UpdateEdges(deps, names, old(storage.nodes))
  {
    ghost var nodes, before, rest := storage.nodes, storage.edges, UpdateEdges(deps, names, storage.nodes);
    for i := 0 to |deps|
      invariant storage.nodes == nodes && storage.lastId == old(storage.lastId)
      invariant rest == UpdateEdges(deps[i..], names, nodes)
      invariant storage.edges + rest == before + UpdateEdges(deps, names, nodes)
    {
      var d := deps[i];
      UpdateStep(deps, i, i + 1, names, nodes);
      rest := UpdateEdges(deps[i + 1..], names, nodes);
      var edge := Joined(ResolveLocally(d.source, names, storage.nodes),
                         ResolveLocally(d.target, names, storage.nodes), d.relation);
      if edge.Some? {
        Associative(storage.edges, [edge.value], rest);
        storage.AddEdge(edge.value.source, edge.value.target, edge.value.edgeType);
      }
    }
  }

  lemma UpdateStep(deps: seq<Dep>, i: nat, j: nat, names: NameIndex, nodes: seq<Node>)
    requires j == i + 1 <= |deps|
    ensures var e := UpdateEdgeOf(deps[i], names, nodes); var rest := UpdateEdges(deps[j..], names, nodes);
            UpdateEdges(deps[i..], names, nodes) == if e.Some? then [e.value] + rest else rest
  {
    assert deps[i..][0] == deps[i] && deps[i..][1..] == deps[j..];
  }

  lemma LocalNamesStep(symbols: seq<Symbol>, base: nat, i: nat, j: nat)
    requires j == i + 1 <= |symbols|
    ensures var s := symbols[i];
            LocalNames(symbols, base, j)
            == SetDefault(LocalNames(symbols, base, i)[s.name := base + j], LastSegment(s.name), base + j)
  {}

  /** A record without a name would be passed over; the extractor emits none. */
  method AddFileSymbols(storage: GraphStorage, symbols: seq<Symbol>) returns (names: NameIndex)
    requires forall s :: s in symbols ==> s.name != ""
    modifies storage
    ensures storage.Contents() == AddRows(old(storage.Contents()), symbols)
    ensures names == LocalNames(symbols, old(storage.lastId), |symbols|)
  {
    ghost var base, nodes := storage.lastId, storage.nodes;
    names := map[];
    for i := 0 to |symbols|
      invariant storage.nodes == nodes + Rows(symbols[..i], base) && storage.edges == old(storage.edges)
                && storage.lastId == base + i
      invariant names == LocalNames(symbols, base, i)
    {
      var s := symbols[i];
      AppendRow(nodes, symbols, i, i + 1, base, storage.nodes);
      LocalNamesStep(symbols, base, i, i + 1);
      var id := storage.AddNode(s);
      names := SetDefault(names[s.name := id], LastSegment(s.name), id);
    }
    assert symbols[..|symbols|] == symbols;
  }
}
