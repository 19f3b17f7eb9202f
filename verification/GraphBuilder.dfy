/** Building the graph from symbol records and dependency edges (repo_graph/graph_builder.py). */
module GraphBuilder {
  import opened Prelude
  import opened Text
  import opened GraphStore

  /** An extracted dependency between two names. */
  datatype Dep = Dep(source: string, target: string, relation: string)

  type NameIndex = map<string, int>

  // ------------------------------------------------------------ the name index

  /** The key `module.short` a record is also entered under; `stem` is `Path(file).stem`. */
  function ModuleKey(s: Symbol, stem: string -> string): Option<string> {
    if s.file == "" || stem(s.file) == "" || stem(s.file) == "__init__" then None
    else if LastSegment(s.name) != s.name then Some(stem(s.file) + "." + LastSegment(s.name))
    else Some(s.name)
  }

  function SetDefault(index: NameIndex, x: string, id: int): NameIndex {
    if x in index then index else index[x := id]
  }

  function AddNames(index: NameIndex, s: Symbol, id: int, stem: string -> string): NameIndex {
    if s.name == "" then index
    else
      var named := SetDefault(index[s.name := id], LastSegment(s.name), id);
      match ModuleKey(s, stem)
      case None => named
      case Some(k) => SetDefault(named, k, id)
  }

  /** The index after the first `n` symbols of a fresh store, whose ids are 1, 2, ... */
  function IndexAfter(symbols: seq<Symbol>, stem: string -> string, n: nat): NameIndex
    requires n <= |symbols|
  {
    if n == 0 then map[] else AddNames(IndexAfter(symbols, stem, n - 1), symbols[n - 1], n, stem)
  }

  lemma IndexStep(symbols: seq<Symbol>, stem: string -> string, i: nat, j: nat)
    requires j == i + 1 <= |symbols|
    ensures IndexAfter(symbols, stem, j) == AddNames(IndexAfter(symbols, stem, i), symbols[i], j, stem)
  {}

  predicate FullName(s: Symbol, x: string) {
    s.name == x && x != ""
  }

  /** `x` is the short name of the record, or, for a dotted name, the file's stem and the short name. */
  predicate Alias(s: Symbol, stem: string -> string, x: string) {
    && s.name != ""
    && (x == LastSegment(s.name)
        || ('.' in s.name && s.file != "" && stem(s.file) !in {"", "__init__"}
            && x == stem(s.file) + "." + LastSegment(s.name)))
  }

  lemma AliasKeys(s: Symbol, stem: string -> string, x: string)
    requires s.name != ""
    ensures Alias(s, stem, x) || x == s.name
            <==> x == LastSegment(s.name) || x == s.name || ModuleKey(s, stem) == Some(x)
  {
    LastSegmentSplits(s.name);
    if '.' !in s.name { NoDot(s.name); }
  }

  /** The last of the first `n` symbols whose full name is `x`. */
  function LastFull(symbols: seq<Symbol>, x: string, n: nat): (r: Option<nat>)
    requires n <= |symbols|
    ensures r.Some? ==> r.value < n && FullName(symbols[r.value], x)
                        && forall j :: r.value < j < n ==> !FullName(symbols[j], x)
    ensures r.None? ==> forall j :: 0 <= j < n ==> !FullName(symbols[j], x)
  {
    if n == 0 then None else if FullName(symbols[n - 1], x) then Some(n - 1) else LastFull(symbols, x, n - 1)
  }

  /** The first of the first `n` symbols that has `x` as short name or as module.short. */
  function FirstAlias(symbols: seq<Symbol>, stem: string -> string, x: string, n: nat): (r: Option<nat>)
    requires n <= |symbols|
    ensures r.Some? ==> r.value < n && Alias(symbols[r.value], stem, x)
                        && forall j :: 0 <= j < r.value ==> !Alias(symbols[j], stem, x)
    ensures r.None? ==> forall j :: 0 <= j < n ==> !Alias(symbols[j], stem, x)
  {
    if n == 0 then None
    else
      var earlier := FirstAlias(symbols, stem, x, n - 1);
      if earlier.Some? then earlier else if Alias(symbols[n - 1], stem, x) then Some(n - 1) else None
  }

  lemma AddNamesLookup(index: NameIndex, s: Symbol, id: int, stem: string -> string, x: string)
    ensures Get(AddNames(index, s, id, stem), x)
            == if FullName(s, x) then Some(id)
               else if x in index then Some(index[x])
               else if Alias(s, stem, x) then Some(id)
               else None
  {
    if s.name != "" { AliasKeys(s, stem, x); }
  }

  /** The symbol a name stands for. */
  function Winner(symbols: seq<Symbol>, stem: string -> string, x: string, n: nat): Option<nat>
    requires n <= |symbols|
  {
    if LastFull(symbols, x, n).Some? then LastFull(symbols, x, n) else FirstAlias(symbols, stem, x, n)
  }

  function IdOf(i: Option<nat>): Option<int> {
    if i.Some? then Some(i.value + 1) else None
  }

  lemma {:induction false} IndexPriority(symbols: seq<Symbol>, stem: string -> string, n: nat, x: string)
    requires n <= |symbols|
    ensures Get(IndexAfter(symbols, stem, n), x) == IdOf(Winner(symbols, stem, x, n))
    decreases n
  {
    if n > 0 {
      var m := n - 1;
      IndexPriority(symbols, stem, m, x);
      IndexStep(symbols, stem, m, n);
      LookupStep(IndexAfter(symbols, stem, m), symbols[m], n, stem, x, Winner(symbols, stem, x, m));
      WinnerStep(symbols, stem, x, m, n);
    }
  }

  lemma LookupStep(index: NameIndex, s: Symbol, n: nat, stem: string -> string, x: string, winner: Option<nat>)
    requires 0 < n && Get(index, x) == IdOf(winner)
    ensures Get(AddNames(index, s, n, stem), x)
            == IdOf(if FullName(s, x) then Some(n - 1)
                    else if winner.Some? then winner
                    else if Alias(s, stem, x) then Some(n - 1)
                    else None)
  {
    AddNamesLookup(index, s, n, stem, x);
  }

  lemma WinnerStep(symbols: seq<Symbol>, stem: string -> string, x: string, m: nat, n: nat)
    requires n == m + 1 <= |symbols|
    ensures Winner(symbols, stem, x, n)
            == if FullName(symbols[m], x) then Some(m)
               else if Winner(symbols, stem, x, m).Some? then Winner(symbols, stem, x, m)
               else if Alias(symbols[m], stem, x) then Some(m) else None
  {
    assert LastFull(symbols, x, n) == if FullName(symbols[m], x) then Some(m) else LastFull(symbols, x, m);
    assert FirstAlias(symbols, stem, x, n)
        == if FirstAlias(symbols, stem, x, m).Some? then FirstAlias(symbols, stem, x, m)
           else if Alias(symbols[m], stem, x) then Some(m) else None;
  }

  /** `x` means the symbol at `i`: the last one so called or, if none is, the first with that alias. */
  ghost predicate Means(symbols: seq<Symbol>, stem: string -> string, x: string, i: nat) {
    && i < |symbols|
    && if exists k :: 0 <= k < |symbols| && FullName(symbols[k], x)
       then FullName(symbols[i], x) && forall j :: i < j < |symbols| ==> !FullName(symbols[j], x)
       else Alias(symbols[i], stem, x) && forall j :: 0 <= j < i ==> !Alias(symbols[j], stem, x)
  }

  lemma WinnerMeans(symbols: seq<Symbol>, stem: string -> string, x: string, i: nat)
    ensures Winner(symbols, stem, x, |symbols|) == Some(i) <==> Means(symbols, stem, x, i)
  {
    var full, alias := LastFull(symbols, x, |symbols|), FirstAlias(symbols, stem, x, |symbols|);
    if full.Some? { assert FullName(symbols[full.value], x); }
  }

  /** Some symbol has `x` as name or alias. */
  ghost predicate Known(symbols: seq<Symbol>, stem: string -> string, x: string) {
    exists s :: s in symbols && (FullName(s, x) || Alias(s, stem, x))
  }

  lemma WinnerKnown(symbols: seq<Symbol>, stem: string -> string, x: string)
    ensures Winner(symbols, stem, x, |symbols|).Some? <==> Known(symbols, stem, x)
  {
    var full, alias := LastFull(symbols, x, |symbols|), FirstAlias(symbols, stem, x, |symbols|);
    if full.Some? { assert symbols[full.value] in symbols; }
    if alias.Some? { assert symbols[alias.value] in symbols; }
  }

  /** Main theorem: a name that is some symbol's full name stands for the last such symbol,
      and any other name for the first symbol having it as short name or as module.short. */
  lemma IndexMeans(symbols: seq<Symbol>, stem: string -> string, x: string, i: nat, id: int)
    requires id == i + 1
    ensures Get(IndexAfter(symbols, stem, |symbols|), x) == Some(id) <==> Means(symbols, stem, x, i)
    ensures x in IndexAfter(symbols, stem, |symbols|) ==> 1 <= IndexAfter(symbols, stem, |symbols|)[x] <= |symbols|
  {
    IndexPriority(symbols, stem, |symbols|, x);
    WinnerMeans(symbols, stem, x, i);
    IdOfIs(Winner(symbols, stem, x, |symbols|), i, id);
  }

  lemma IdOfIs(w: Option<nat>, i: nat, id: int)
    requires id == i + 1
    ensures IdOf(w) == Some(id) <==> w == Some(i)
  {}

  // ------------------------------------------------------------ edges

  function ResolveSymbolToId(name: string, index: NameIndex): Option<int> {
    var stripped := Strip(name);
    if stripped == "" then None
    else if stripped in index then Some(index[stripped])
    else Get(index, LastSegment(stripped))
  }

  /** The symbol an edge end names: its full text first, else its last segment. */
  function StandsFor(symbols: seq<Symbol>, stem: string -> string, name: string): Option<nat> {
    var full := Strip(name);
    if full == "" then None
    else if Winner(symbols, stem, full, |symbols|).Some? then Winner(symbols, stem, full, |symbols|)
    else Winner(symbols, stem, LastSegment(full), |symbols|)
  }

  lemma EndStandsFor(symbols: seq<Symbol>, stem: string -> string, name: string)
    ensures ResolveSymbolToId(name, IndexAfter(symbols, stem, |symbols|)) == IdOf(StandsFor(symbols, stem, name))
  {
    IndexPriority(symbols, stem, |symbols|, Strip(name));
    IndexPriority(symbols, stem, |symbols|, LastSegment(Strip(name)));
  }

  /** An edge end means a symbol by its full text or, if that means none, by its last segment. */
  ghost predicate EndMeans(symbols: seq<Symbol>, stem: string -> string, name: string, i: nat) {
    var full := Strip(name);
    && full != ""
    && Means(symbols, stem, if Known(symbols, stem, full) then full else LastSegment(full), i)
  }

  lemma StandsForMeans(symbols: seq<Symbol>, stem: string -> string, name: string, i: nat)
    ensures StandsFor(symbols, stem, name) == Some(i) <==> EndMeans(symbols, stem, name, i)
  {
    var full := Strip(name);
    WinnerKnown(symbols, stem, full);
    WinnerMeans(symbols, stem, if Known(symbols, stem, full) then full else LastSegment(full), i);
  }

  /** The edge stored between two resolved ends, if both are there and differ. */
  function Joined(source: Option<int>, target: Option<int>, relation: string): Option<Edge> {
    if source.Some? && target.Some? && source.value != 0 && target.value != 0 && source.value != target.value
    then Some(Edge(source.value, target.value, relation)) else None
  }

  function EdgeOf(d: Dep, index: NameIndex): Option<Edge> {
    Joined(ResolveSymbolToId(d.source, index), ResolveSymbolToId(d.target, index), d.relation)
  }

  function StoredEdges(deps: seq<Dep>, index: NameIndex): seq<Edge> {
    if deps == [] then []
    else
      match EdgeOf(deps[0], index)
      case None => StoredEdges(deps[1..], index)
      case Some(e) => [e] + StoredEdges(deps[1..], index)
  }

  function Rows(symbols: seq<Symbol>, base: nat): (r: seq<Node>)
    ensures |r| == |symbols| && forall i :: 0 <= i < |r| ==> r[i] == Node(base + i + 1, symbols[i])
  {
    seq(|symbols|, i requires 0 <= i < |symbols| => Node(base + i + 1, symbols[i]))
  }

  lemma RowsStep(symbols: seq<Symbol>, i: nat, j: nat, base: nat)
    requires j == i + 1 <= |symbols|
    ensures Rows(symbols[..j], base) == Rows(symbols[..i], base) + [Node(base + i + 1, symbols[i])]
  {}

  lemma AppendRow(nodes: seq<Node>, symbols: seq<Symbol>, i: nat, j: nat, base: nat, grown: seq<Node>)
    requires j == i + 1 <= |symbols| && grown == nodes + Rows(symbols[..i], base)
    ensures grown + [Node(base + i + 1, symbols[i])] == nodes + Rows(symbols[..j], base)
  {
    RowsStep(symbols, i, j, base);
  }

  function Built(symbols: seq<Symbol>, deps: seq<Dep>, stem: string -> string): Tables {
    Tables(Rows(symbols, 0), StoredEdges(deps, IndexAfter(symbols, stem, |symbols|)), |symbols|)
  }

  function Nameless(): Dep -> bool {
    (d: Dep) => d.source == "" && d.target == ""
  }

  datatype Counts = Counts(nodes: nat, edgesExtracted: nat, edgesStored: nat, unresolved: nat)

  method AddSymbols(storage: GraphStorage, symbols: seq<Symbol>, stem: string -> string) returns (index: NameIndex)
    requires storage.Contents() == EMPTY
    modifies storage
    ensures storage.Contents() == Tables(Rows(symbols, 0), [], |symbols|)
    ensures index == IndexAfter(symbols, stem, |symbols|)
  {
    index := map[];
    ghost var rows: seq<Node> := [];
    for i := 0 to |symbols|
      invariant rows == Rows(symbols[..i], 0) && storage.nodes == rows && storage.edges == [] && storage.lastId == i
      invariant index == IndexAfter(symbols, stem, i)
    {
      RowsStep(symbols, i, i + 1, 0);
      IndexStep(symbols, stem, i, i + 1);
      var id := storage.AddNode(symbols[i]);
      index := AddNames(index, symbols[i], id, stem);
      rows := rows + [Node(id, symbols[i])];
    }
    assert symbols[..|symbols|] == symbols;
  }

  /** Every extracted edge is stored, reported unresolved, or has no names at all. */
  method BuildGraph(symbols: seq<Symbol>, deps: seq<Dep>, stem: string -> string)
      returns (storage: GraphStorage, counts: Counts)
    ensures fresh(storage) && storage.Contents() == Built(symbols, deps, stem)
    ensures counts.nodes == |storage.nodes| && counts.edgesExtracted == |deps| && counts.edgesStored == |storage.edges|
    ensures counts.edgesStored + counts.unresolved + |Filter(deps, Nameless())| == counts.edgesExtracted
  {
    storage := new GraphStorage();
    var index := AddSymbols(storage, symbols, stem);
    ghost var all, rest := StoredEdges(deps, index), StoredEdges(deps, index);
    var edgeCount, unresolved := 0, 0;
    for i := 0 to |deps|
      invariant storage.nodes == Rows(symbols, 0) && storage.lastId == |symbols|
      invariant storage.edges + rest == all && rest == StoredEdges(deps[i..], index) && edgeCount == |storage.edges|
      invariant edgeCount + unresolved + |Filter(deps, Nameless())| == i + |Filter(deps[i..], Nameless())|
    {
      var d := deps[i];
      var edge := EdgeOf(d, index);
      DepStep(deps, i, i + 1, index);
      rest := StoredEdges(deps[i + 1..], index);
      if edge.Some? {
        NamelessUnresolved(d, index);
        Associative(storage.edges, [edge.value], rest);
        storage.AddEdge(edge.value.source, edge.value.target, edge.value.edgeType);
        edgeCount := edgeCount + 1;
      } else if d.source != "" || d.target != "" {
        unresolved := unresolved + 1;
      }
    }
    counts := Counts(|symbols|, |deps|, edgeCount, unresolved);
  }

  lemma DepStep(deps: seq<Dep>, i: nat, j: nat, index: NameIndex)
    requires j == i + 1 <= |deps|
    ensures var e := EdgeOf(deps[i], index); var rest := StoredEdges(deps[j..], index);
            StoredEdges(deps[i..], index) == if e.Some? then [e.value] + rest else rest
    ensures |Filter(deps[i..], Nameless())| == |Filter(deps[j..], Nameless())| + if Nameless()(deps[i]) then 1 else 0
  {
    assert deps[i..][0] == deps[i] && deps[i..][1..] == deps[j..];
  }

  lemma NamelessUnresolved(d: Dep, index: NameIndex)
    requires EdgeOf(d, index).Some?
    ensures !Nameless()(d)
  {}

  // ------------------------------------------------------------ what a build yields

  lemma IndexInRange(symbols: seq<Symbol>, stem: string -> string, x: string)
    ensures var r := Get(IndexAfter(symbols, stem, |symbols|), x); r.Some? ==> 1 <= r.value <= |symbols|
  {
    IndexPriority(symbols, stem, |symbols|, x);
  }

  lemma {:induction false} StoredEdgesJoin(deps: seq<Dep>, symbols: seq<Symbol>, stem: string -> string)
    ensures forall e :: e in StoredEdges(deps, IndexAfter(symbols, stem, |symbols|)) ==>
              1 <= e.source <= |symbols| && 1 <= e.target <= |symbols| && e.source != e.target
  {
    if deps != [] {
      StoredEdgesJoin(deps[1..], symbols, stem);
      IndexInRange(symbols, stem, Strip(deps[0].source));
      IndexInRange(symbols, stem, LastSegment(Strip(deps[0].source)));
      IndexInRange(symbols, stem, Strip(deps[0].target));
      IndexInRange(symbols, stem, LastSegment(Strip(deps[0].target)));
    }
  }

  /** The edge between the rows of two different symbols. */
  function EdgeBetween(a: Option<nat>, b: Option<nat>, relation: string): Option<Edge> {
    if a.Some? && b.Some? && a.value != b.value then Some(Edge(a.value + 1, b.value + 1, relation)) else None
  }

  /** The edge between the rows of the two different symbols a dependency names. */
  function EdgeNamed(symbols: seq<Symbol>, stem: string -> string, d: Dep): Option<Edge> {
    EdgeBetween(StandsFor(symbols, stem, d.source), StandsFor(symbols, stem, d.target), d.relation)
  }

  lemma JoinedRows(a: Option<nat>, b: Option<nat>, relation: string)
    ensures Joined(IdOf(a), IdOf(b), relation) == EdgeBetween(a, b, relation)
  {}

  function EdgesNamed(symbols: seq<Symbol>, stem: string -> string, deps: seq<Dep>): seq<Edge> {
    if deps == [] then []
    else
      var e := EdgeNamed(symbols, stem, deps[0]);
      (if e.Some? then [e.value] else []) + EdgesNamed(symbols, stem, deps[1..])
  }

  lemma EdgeOfIs(symbols: seq<Symbol>, stem: string -> string, d: Dep)
    ensures EdgeOf(d, IndexAfter(symbols, stem, |symbols|)) == EdgeNamed(symbols, stem, d)
  {
    EndStandsFor(symbols, stem, d.source);
    EndStandsFor(symbols, stem, d.target);
    JoinedRows(StandsFor(symbols, stem, d.source), StandsFor(symbols, stem, d.target), d.relation);
  }

  /** Main theorem: the stored edges are, in the order of the dependencies and as often, those
      between the different symbols the dependencies name. */
  lemma {:induction false} StoredEdgesInOrder(symbols: seq<Symbol>, deps: seq<Dep>, stem: string -> string)
    ensures StoredEdges(deps, IndexAfter(symbols, stem, |symbols|)) == EdgesNamed(symbols, stem, deps)
    decreases |deps|
  {
    if deps != [] {
      StoredEdgesInOrder(symbols, deps[1..], stem);
      EdgeOfIs(symbols, stem, deps[0]);
      StoredFirst(deps, IndexAfter(symbols, stem, |symbols|));
    }
  }

  lemma StoredFirst(deps: seq<Dep>, index: NameIndex)
    requires deps != []
    ensures var e := EdgeOf(deps[0], index);
            StoredEdges(deps, index) == (if e.Some? then [e.value] else []) + StoredEdges(deps[1..], index)
  {}

  /** The two ends of `d` mean the two different symbols at `a` and `b`. */
  ghost predicate EndsMean(symbols: seq<Symbol>, stem: string -> string, d: Dep, a: nat, b: nat) {
    a != b && EndMeans(symbols, stem, d.source, a) && EndMeans(symbols, stem, d.target, b)
  }

  lemma EdgeBetweenIs(x: Option<nat>, y: Option<nat>, relation: string, a: nat, b: nat, e: Edge)
    requires e.source == a + 1 && e.target == b + 1
    ensures EdgeBetween(x, y, relation) == Some(e) <==> a != b && x == Some(a) && y == Some(b) && e.edgeType == relation
  {}

  lemma EdgeNamedMeans(symbols: seq<Symbol>, stem: string -> string, d: Dep, a: nat, b: nat, e: Edge)
    requires e.source == a + 1 && e.target == b + 1
    ensures EdgeNamed(symbols, stem, d) == Some(e) <==> EndsMean(symbols, stem, d, a, b) && e.edgeType == d.relation
  {
    EdgeBetweenIs(StandsFor(symbols, stem, d.source), StandsFor(symbols, stem, d.target), d.relation, a, b, e);
    StandsForMeans(symbols, stem, d.source, a);
    StandsForMeans(symbols, stem, d.target, b);
  }

  /** ... so that an edge is stored exactly if some dependency names its two ends. */
  lemma {:induction false} StoredEdgesExact(symbols: seq<Symbol>, deps: seq<Dep>, stem: string -> string,
                                            a: nat, b: nat, e: Edge)
    requires e.source == a + 1 && e.target == b + 1
    ensures e in StoredEdges(deps, IndexAfter(symbols, stem, |symbols|))
            <==> exists d :: d in deps && d.relation == e.edgeType && EndsMean(symbols, stem, d, a, b)
    decreases |deps|
  {
    if deps != [] {
      StoredEdgesExact(symbols, deps[1..], stem, a, b, e);
      EdgeOfIs(symbols, stem, deps[0]);
      EdgeNamedMeans(symbols, stem, deps[0], a, b, e);
      StoredFirst(deps, IndexAfter(symbols, stem, |symbols|));
      assert forall d :: d in deps <==> d == deps[0] || d in deps[1..];
    }
  }

  lemma RowIds(symbols: seq<Symbol>, base: nat, id: int)
    ensures id in NodeIds(Rows(symbols, base)) <==> base < id <= base + |symbols|
  {
    var rows := Rows(symbols, base);
    if base < id <= base + |symbols| { assert rows[id - base - 1] in rows; }
    if n :| n in rows && n.id == id { var i :| 0 <= i < |rows| && rows[i] == n; }
  }

  /** A fresh build is well-formed: unique ids, and edges between two different live nodes. */
  lemma BuiltWellFormed(symbols: seq<Symbol>, deps: seq<Dep>, stem: string -> string)
    ensures WellFormed(Built(symbols, deps, stem))
  {
    var t := Built(symbols, deps, stem);
    StoredEdgesJoin(deps, symbols, stem);
    forall e | e in t.edges ensures Joins(t, e) {
      RowIds(symbols, 0, e.source);
      RowIds(symbols, 0, e.target);
    }
    forall n | n in t.nodes ensures 1 <= n.id <= t.lastId { var i :| 0 <= i < |t.nodes| && t.nodes[i] == n; }
  }
}
