/** Re-indexing a file that has not changed, compared with the graph as it was. */
module Reindex {
  import opened Prelude
  import opened Text
  import opened GraphStore
  import opened GraphBuilder
  import opened SymbolExtractor
  import opened Indexer
  import opened IndexTheory
  import opened Idempotence
  import opened FileUpdate

  // ------------------------------------------------------------ the fresh ids

  function FileRows(t: Tables, path: string): seq<Node> {
    Filter(t.nodes, InsideFile(path))
  }

  /** The stored rows of the file say what its records say. */
  ghost predicate Unchanged(t: Tables, u: Update) {
    RecordsOf(FileRows(t, u.path)) == u.symbols
  }

  /** The k-th row of the file gets the k-th fresh id. */
  function Moved(rows: seq<Node>, base: nat, id: int): int {
    if rows == [] then id
    else if rows[|rows| - 1].id == id then base + |rows|
    else Moved(rows[..|rows| - 1], base, id)
  }

  function MoveId(rows: seq<Node>, base: nat, r: Option<int>): Option<int> {
    match r case None => None case Some(id) => Some(Moved(rows, base, id))
  }

  function MoveEdge(rows: seq<Node>, base: nat): Edge -> Edge {
    (e: Edge) => Edge(Moved(rows, base, e.source), Moved(rows, base, e.target), e.edgeType)
  }

  function MoveNode(rows: seq<Node>, base: nat): Node -> Node {
    (n: Node) => Node(Moved(rows, base, n.id), n.record)
  }

  function RowAt(rows: seq<Node>, i: int): int {
    if 1 <= i <= |rows| then rows[i - 1].id else 0
  }

  /** The way back from a fresh id. */
  function Back(rows: seq<Node>, base: nat, id: int): int {
    if id > base then RowAt(rows, id - base) else id
  }

  function BackEdge(rows: seq<Node>, base: nat): Edge -> Edge {
    (e: Edge) => Edge(Back(rows, base, e.source), Back(rows, base, e.target), e.edgeType)
  }

  lemma {:induction false} MovedAt(rows: seq<Node>, base: nat, k: nat)
    requires Ascending(rows) && k < |rows|
    ensures Moved(rows, base, rows[k].id) == base + k + 1
    decreases |rows|
  {
    if k < |rows| - 1 { MovedAt(rows[..|rows| - 1], base, k); }
  }

  lemma {:induction false} MovedElsewhere(rows: seq<Node>, base: nat, id: int)
    requires id !in NodeIds(rows)
    ensures Moved(rows, base, id) == id
    decreases |rows|
  {
    if rows != [] {
      assert rows[|rows| - 1] in rows;
      MovedElsewhere(rows[..|rows| - 1], base, id);
    }
  }

  lemma MovedBack(rows: seq<Node>, base: nat, id: int)
    requires Ascending(rows) && id <= base
    ensures Back(rows, base, Moved(rows, base, id)) == id
    ensures Moved(rows, base, id) > base <==> id in NodeIds(rows)
  {
    if id in NodeIds(rows) {
      var n :| n in rows && n.id == id;
      var k :| 0 <= k < |rows| && rows[k] == n;
      MovedAt(rows, base, k);
    } else {
      MovedElsewhere(rows, base, id);
    }
  }

  ghost predicate OldEdges(es: seq<Edge>, base: nat) {
    forall e :: e in es ==> e.source <= base && e.target <= base
  }

  lemma EdgesBack(rows: seq<Node>, base: nat, es: seq<Edge>)
    requires Ascending(rows) && OldEdges(es, base)
    ensures Map(Map(es, MoveEdge(rows, base)), BackEdge(rows, base)) == es
  {
    forall i | 0 <= i < |es| ensures BackEdge(rows, base)(MoveEdge(rows, base)(es[i])) == es[i] {
      assert es[i] in es;
      MovedBack(rows, base, es[i].source);
      MovedBack(rows, base, es[i].target);
    }
  }

  /** Moving to fresh ids loses nothing. */
  lemma MovedAlike(rows: seq<Node>, base: nat, a: seq<Edge>, b: seq<Edge>)
    requires Ascending(rows) && OldEdges(a, base) && OldEdges(b, base)
    ensures multiset(Map(a, MoveEdge(rows, base))) == multiset(Map(b, MoveEdge(rows, base)))
            <==> multiset(a) == multiset(b)
  {
    if multiset(a) == multiset(b) { MapPermutes(a, b, MoveEdge(rows, base)); }
    if multiset(Map(a, MoveEdge(rows, base))) == multiset(Map(b, MoveEdge(rows, base))) {
      MapPermutes(Map(a, MoveEdge(rows, base)), Map(b, MoveEdge(rows, base)), BackEdge(rows, base));
      EdgesBack(rows, base, a);
      EdgesBack(rows, base, b);
    }
  }

  // ------------------------------------------------------------ resolution in place

  /** What the update will resolve a name to, read off the tables as they stand: one of the
      file's own rows by its own name index, else a row of another file. */
  function ResolveInPlace(name: string, symbols: seq<Symbol>, rows: seq<Node>, kept: seq<Node>): Option<int> {
    var names := LocalNames(symbols, 0, |symbols|);
    if name in names then Some(RowAt(rows, names[name]))
    else if LastSegment(name) in names then Some(RowAt(rows, names[LastSegment(name)]))
    else ForeignRow(kept, name)
  }

  function EdgeInPlace(d: Dep, symbols: seq<Symbol>, rows: seq<Node>, kept: seq<Node>): Option<Edge> {
    Joined(ResolveInPlace(d.source, symbols, rows, kept), ResolveInPlace(d.target, symbols, rows, kept), d.relation)
  }

  function EdgesInPlace(deps: seq<Dep>, symbols: seq<Symbol>, rows: seq<Node>, kept: seq<Node>): seq<Edge> {
    if deps == [] then []
    else
      match EdgeInPlace(deps[0], symbols, rows, kept)
      case None => EdgesInPlace(deps[1..], symbols, rows, kept)
      case Some(e) => [e] + EdgesInPlace(deps[1..], symbols, rows, kept)
  }

  /** The file's dependencies, resolved now. */
  function Resolved(t: Tables, u: Update): seq<Edge> {
    EdgesInPlace(u.deps, u.symbols, FileRows(t, u.path), RemoveFile(t, u.path).nodes)
  }

  /** Rows of the file and rows of other files, apart and handed out. */
  ghost predicate Parted(symbols: seq<Symbol>, rows: seq<Node>, kept: seq<Node>, base: nat) {
    && |rows| == |symbols| && Ascending(rows)
    && (forall n :: n in rows ==> 1 <= n.id <= base)
    && (forall n :: n in kept ==> 1 <= n.id <= base && n.id !in NodeIds(rows))
  }

  lemma ResolvesInPlace(symbols: seq<Symbol>, rows: seq<Node>, kept: seq<Node>, base: nat, name: string)
    requires Parted(symbols, rows, kept, base)
    ensures var r := ResolveInPlace(name, symbols, rows, kept);
            && ResolveLocally(name, LocalNames(symbols, base, |symbols|), kept + Rows(symbols, base))
               == MoveId(rows, base, r)
            && (r.Some? ==> 1 <= r.value <= base && (Own(symbols, name) <==> r.value in NodeIds(rows)))
  {
    if Own(symbols, name) {
      OwnInPlace(symbols, rows, kept, base, name);
    } else {
      OthersInPlace(symbols, rows, kept, name);
      OwnResolves(kept, symbols, base, name);
      if ForeignRow(kept, name).Some? { MovedElsewhere(rows, base, ForeignRow(kept, name).value); }
    }
  }

  lemma OwnInPlace(symbols: seq<Symbol>, rows: seq<Node>, kept: seq<Node>, base: nat, name: string)
    requires |rows| == |symbols| && Ascending(rows) && (forall n :: n in rows ==> 1 <= n.id <= base)
             && Own(symbols, name)
    ensures var r := ResolveInPlace(name, symbols, rows, kept);
            && r.Some? && 1 <= r.value <= base && r.value in NodeIds(rows)
            && ResolveLocally(name, LocalNames(symbols, base, |symbols|), kept + Rows(symbols, base))
               == MoveId(rows, base, r)
  {
    LocalNamesAre(symbols, 0, |symbols|, name);
    LocalNamesAre(symbols, 0, |symbols|, LastSegment(name));
    PositionMoves(symbols, rows, base, name);
    PositionMoves(symbols, rows, base, LastSegment(name));
  }

  /** A name of the file stands for the row at its position, before and after. */
  lemma PositionMoves(symbols: seq<Symbol>, rows: seq<Node>, base: nat, x: string)
    requires |rows| == |symbols| && Ascending(rows) && (forall n :: n in rows ==> 1 <= n.id <= base)
    ensures x in LocalNames(symbols, 0, |symbols|) <==> x in LocalNames(symbols, base, |symbols|)
    ensures x in LocalNames(symbols, 0, |symbols|) ==>
              var id := RowAt(rows, LocalNames(symbols, 0, |symbols|)[x]);
              1 <= id <= base && id in NodeIds(rows) && LocalNames(symbols, base, |symbols|)[x] == Moved(rows, base, id)
  {
    LocalNamesShift(symbols, 0, base, base, |symbols|);
    LocalNamesInRange(symbols, 0, |symbols|);
    if x in LocalNames(symbols, 0, |symbols|) {
      var k := LocalNames(symbols, 0, |symbols|)[x] - 1;
      assert rows[k] in rows;
      MovedAt(rows, base, k);
    }
  }

  lemma OthersInPlace(symbols: seq<Symbol>, rows: seq<Node>, kept: seq<Node>, name: string)
    requires !Own(symbols, name)
    ensures ResolveInPlace(name, symbols, rows, kept) == ForeignRow(kept, name)
  {
    LocalNamesAre(symbols, 0, |symbols|, name);
    LocalNamesAre(symbols, 0, |symbols|, LastSegment(name));
  }

  lemma JoinedMoves(rows: seq<Node>, base: nat, a: Option<int>, b: Option<int>, relation: string)
    requires Ascending(rows) && (a.Some? ==> 1 <= a.value <= base) && (b.Some? ==> 1 <= b.value <= base)
    ensures Joined(MoveId(rows, base, a), MoveId(rows, base, b), relation)
            == match Joined(a, b, relation) case None => None case Some(e) => Some(MoveEdge(rows, base)(e))
  {
    if a.Some? { MovedBack(rows, base, a.value); }
    if b.Some? { MovedBack(rows, base, b.value); }
  }

  lemma EdgeMoves(symbols: seq<Symbol>, rows: seq<Node>, kept: seq<Node>, base: nat, d: Dep)
    requires Parted(symbols, rows, kept, base)
    ensures var e := EdgeInPlace(d, symbols, rows, kept);
            && UpdateEdgeOf(d, LocalNames(symbols, base, |symbols|), kept + Rows(symbols, base))
               == (if e.Some? then Some(MoveEdge(rows, base)(e.value)) else None)
            && (e.Some? ==> e.value.source <= base && e.value.target <= base)
  {
    ResolvesInPlace(symbols, rows, kept, base, d.source);
    ResolvesInPlace(symbols, rows, kept, base, d.target);
    var a, b := ResolveInPlace(d.source, symbols, rows, kept), ResolveInPlace(d.target, symbols, rows, kept);
    JoinedMoves(rows, base, a, b, d.relation);
  }

  lemma {:induction false} EdgesMove(symbols: seq<Symbol>, rows: seq<Node>, kept: seq<Node>, base: nat, deps: seq<Dep>)
    requires Parted(symbols, rows, kept, base)
    ensures UpdateEdges(deps, LocalNames(symbols, base, |symbols|), kept + Rows(symbols, base))
            == Map(EdgesInPlace(deps, symbols, rows, kept), MoveEdge(rows, base))
    ensures OldEdges(EdgesInPlace(deps, symbols, rows, kept), base)
    decreases |deps|
  {
    if deps != [] {
      var d := deps[0];
      EdgeMoves(symbols, rows, kept, base, d);
      EdgesMove(symbols, rows, kept, base, deps[1..]);
      var e, rest := EdgeInPlace(d, symbols, rows, kept), EdgesInPlace(deps[1..], symbols, rows, kept);
      if e.Some? { MapAppend([e.value], rest, MoveEdge(rows, base)); }
    }
  }

  // ------------------------------------------------------------ the theorems

  lemma FileParted(t: Tables, u: Update)
    requires WellFormed(t) && Unchanged(t, u)
    ensures Parted(u.symbols, FileRows(t, u.path), RemoveFile(t, u.path).nodes, t.lastId)
  {
    var rows, kept := FileRows(t, u.path), RemoveFile(t, u.path).nodes;
    FilterAscending(t.nodes, InsideFile(u.path));
    FilterMembers(t.nodes, InsideFile(u.path));
    FilterMembers(t.nodes, OutsideFile(u.path));
    forall n | n in kept ensures n.id !in NodeIds(rows) { RowSurvives(t, u.path, n); }
  }

  lemma AddedIsResolved(t: Tables, u: Update)
    requires WellFormed(t) && Unchanged(t, u)
    ensures Added(t, u) == Map(Resolved(t, u), MoveEdge(FileRows(t, u.path), t.lastId))
            && OldEdges(Resolved(t, u), t.lastId)
  {
    FileParted(t, u);
    EdgesMove(u.symbols, FileRows(t, u.path), RemoveFile(t, u.path).nodes, t.lastId, u.deps);
  }

  /** The stored edges with an end in the file. */
  function Touching(t: Tables, path: string): seq<Edge> {
    Filter(t.edges, Not(Avoids(FileIds(t, path))))
  }

  lemma StoredAreOld(t: Tables)
    requires WellFormed(t)
    ensures OldEdges(t.edges, t.lastId)
  {
    forall e | e in t.edges ensures e.source <= t.lastId && e.target <= t.lastId { assert Joins(t, e); }
  }

  lemma KeptStay(t: Tables, u: Update)
    requires WellFormed(t)
    ensures Map(RemoveFile(t, u.path).edges, MoveEdge(FileRows(t, u.path), t.lastId)) == RemoveFile(t, u.path).edges
  {
    var rows, kept := FileRows(t, u.path), RemoveFile(t, u.path).edges;
    FilterMembers(t.edges, Avoids(FileIds(t, u.path)));
    forall i | 0 <= i < |kept| ensures MoveEdge(rows, t.lastId)(kept[i]) == kept[i] {
      assert kept[i] in kept;
      MovedElsewhere(rows, t.lastId, kept[i].source);
      MovedElsewhere(rows, t.lastId, kept[i].target);
    }
  }

  lemma MovedStored(t: Tables, u: Update)
    requires WellFormed(t)
    ensures multiset(Map(t.edges, MoveEdge(FileRows(t, u.path), t.lastId)))
            == multiset(RemoveFile(t, u.path).edges)
               + multiset(Map(Touching(t, u.path), MoveEdge(FileRows(t, u.path), t.lastId)))
  {
    var kept, touching, f := RemoveFile(t, u.path).edges, Touching(t, u.path), MoveEdge(FileRows(t, u.path), t.lastId);
    FilterSplits(t.edges, Avoids(FileIds(t, u.path)));
    MapPermutes(t.edges, kept + touching, f);
    MapAppend(kept, touching, f);
    KeptStay(t, u);
  }

  lemma NodesMove(t: Tables, u: Update)
    requires WellFormed(t) && OfOneFile(u) && Unchanged(t, u)
    ensures multiset(After(t, u).nodes) == multiset(Map(t.nodes, MoveNode(FileRows(t, u.path), t.lastId)))
  {
    var rows, kept, f := FileRows(t, u.path), RemoveFile(t, u.path).nodes, MoveNode(FileRows(t, u.path), t.lastId);
    FileParted(t, u);
    UpdateParts(t, u);
    FilterSplits(t.nodes, OutsideFile(u.path));
    FilterAgrees(t.nodes, Not(OutsideFile(u.path)), InsideFile(u.path));
    MapPermutes(t.nodes, kept + rows, f);
    MapAppend(kept, rows, f);
    KeptNodesStay(kept, rows, t.lastId);
    RowsMove(rows, u.symbols, t.lastId);
  }

  lemma KeptNodesStay(kept: seq<Node>, rows: seq<Node>, base: nat)
    requires forall n :: n in kept ==> n.id !in NodeIds(rows)
    ensures Map(kept, MoveNode(rows, base)) == kept
  {
    forall i | 0 <= i < |kept| ensures MoveNode(rows, base)(kept[i]) == kept[i] {
      assert kept[i] in kept;
      MovedElsewhere(rows, base, kept[i].id);
    }
  }

  lemma RowsMove(rows: seq<Node>, symbols: seq<Symbol>, base: nat)
    requires Ascending(rows) && RecordsOf(rows) == symbols
    ensures Map(rows, MoveNode(rows, base)) == Rows(symbols, base)
  {
    forall i | 0 <= i < |rows| ensures MoveNode(rows, base)(rows[i]) == Rows(symbols, base)[i] {
      MovedAt(rows, base, i);
      assert RecordsOf(rows)[i] == rows[i].record;
    }
  }

  /** Main theorem: re-indexing an unchanged file gives back the graph it found, up to the fresh
      ids of the file's rows, if and only if the file's dependencies, resolved now, are the
      stored edges with an end in the file. */
  lemma SameGraphIff(t: Tables, u: Update)
    requires WellFormed(t) && OfOneFile(u) && Unchanged(t, u)
    ensures var rows := FileRows(t, u.path);
            && multiset(After(t, u).nodes) == multiset(Map(t.nodes, MoveNode(rows, t.lastId)))
            && (multiset(After(t, u).edges) == multiset(Map(t.edges, MoveEdge(rows, t.lastId)))
                <==> multiset(Resolved(t, u)) == multiset(Touching(t, u.path)))
  {
    var rows, kept, touching := FileRows(t, u.path), RemoveFile(t, u.path).edges, Touching(t, u.path);
    var f := MoveEdge(rows, t.lastId);
    NodesMove(t, u);
    UpdateParts(t, u);
    FileParted(t, u);
    AddedIsResolved(t, u);
    MovedStored(t, u);
    StoredAreOld(t);
    FilterMembers(t.edges, Not(Avoids(FileIds(t, u.path))));
    MovedAlike(rows, t.lastId, Resolved(t, u), touching);
    Cancel(kept, Map(Resolved(t, u), f), Map(touching, f));
  }

  lemma Cancel(kept: seq<Edge>, a: seq<Edge>, b: seq<Edge>)
    ensures multiset(kept + a) == multiset(kept) + multiset(b) <==> multiset(a) == multiset(b)
  {
    assert multiset(kept + a) == multiset(kept) + multiset(a);
    if multiset(kept) + multiset(a) == multiset(kept) + multiset(b) {
      forall e ensures multiset(a)[e] == multiset(b)[e] {
        assert (multiset(kept) + multiset(a))[e] == (multiset(kept) + multiset(b))[e];
      }
    }
  }

  function StartsIn(ids: set<int>): Edge -> bool {
    (e: Edge) => e.source in ids
  }

  /** No stored edge leads into the file from another one. */
  ghost predicate NothingEnters(t: Tables, path: string) {
    forall e :: e in t.edges && e.target in FileIds(t, path) ==> e.source in FileIds(t, path)
  }

  lemma TouchingStarts(t: Tables, path: string)
    requires NothingEnters(t, path)
    ensures Touching(t, path) == Filter(t.edges, StartsIn(FileIds(t, path)))
  {
    FilterAgrees(t.edges, Not(Avoids(FileIds(t, path))), StartsIn(FileIds(t, path)));
  }

  lemma StartInPlace(symbols: seq<Symbol>, rows: seq<Node>, kept: seq<Node>, base: nat, d: Dep)
    requires Parted(symbols, rows, kept, base)
    requires Own(symbols, d.source) || ForeignRow(kept, d.source).None?
    ensures var e := EdgeInPlace(d, symbols, rows, kept); e.Some? ==> e.value.source in NodeIds(rows)
  {
    if Own(symbols, d.source) {
      OwnInPlace(symbols, rows, kept, base, d.source);
    } else {
      OthersInPlace(symbols, rows, kept, d.source);
    }
  }

  lemma DependencyStartsInFile(t: Tables, src: Source, d: Dep)
    requires WellFormed(t) && Indexable(src) && StemFree(t, src) && Unchanged(t, UpdateOf(src))
             && d in UpdateOf(src).deps
    ensures var e := EdgeInPlace(d, Extract(src), FileRows(t, src.path), RemoveFile(t, src.path).nodes);
            e.Some? ==> e.value.source in FileIds(t, src.path)
  {
    FileParted(t, UpdateOf(src));
    UnownedFindsNothing(t, src, d);
    StartInPlace(Extract(src), FileRows(t, src.path), RemoveFile(t, src.path).nodes, t.lastId, d);
  }

  lemma {:induction false} ResolvedStartInFile(t: Tables, src: Source, deps: seq<Dep>)
    requires WellFormed(t) && Indexable(src) && StemFree(t, src) && Unchanged(t, UpdateOf(src))
    requires forall d :: d in deps ==> d in UpdateOf(src).deps
    ensures forall e :: e in EdgesInPlace(deps, Extract(src), FileRows(t, src.path), RemoveFile(t, src.path).nodes) ==>
                          e.source in FileIds(t, src.path)
    decreases |deps|
  {
    if deps != [] {
      assert deps[0] in deps;
      DependencyStartsInFile(t, src, deps[0]);
      ResolvedStartInFile(t, src, deps[1..]);
    }
  }

  /** If the touching edges are edges that start in the file, none enters it. */
  lemma TouchingFromFile(t: Tables, path: string, resolved: seq<Edge>)
    requires multiset(resolved) == multiset(Touching(t, path))
    requires forall e :: e in resolved ==> e.source in FileIds(t, path)
    ensures NothingEnters(t, path)
  {
    FilterMembers(t.edges, Not(Avoids(FileIds(t, path))));
    forall e | e in t.edges && e.target in FileIds(t, path) ensures e.source in FileIds(t, path) {
      assert e in multiset(Touching(t, path));
      assert e in multiset(resolved);
    }
  }

  /** Main theorem: re-indexing an unchanged parsed file gives back the graph it found, up to
      fresh ids, if and only if no stored edge enters the file from another one and the file's
      dependencies, resolved among its own names first, are the edges that start in it. */
  lemma ReindexNeutralIff(t: Tables, src: Source)
    requires WellFormed(t) && Indexable(src) && StemFree(t, src) && Unchanged(t, UpdateOf(src))
    ensures var u, rows := UpdateOf(src), FileRows(t, src.path);
            && multiset(After(t, u).nodes) == multiset(Map(t.nodes, MoveNode(rows, t.lastId)))
            && (multiset(After(t, u).edges) == multiset(Map(t.edges, MoveEdge(rows, t.lastId)))
                <==> (NothingEnters(t, src.path)
                      && multiset(Resolved(t, u)) == multiset(Filter(t.edges, StartsIn(FileIds(t, src.path))))))
  {
    var u := UpdateOf(src);
    ExtractedFromFile(src);
    SameGraphIff(t, u);
    ResolvedStartInFile(t, src, u.deps);
    if multiset(Resolved(t, u)) == multiset(Touching(t, src.path)) { TouchingFromFile(t, src.path, Resolved(t, u)); }
    if NothingEnters(t, src.path) { TouchingStarts(t, src.path); }
  }

  function InFile(path: string): Symbol -> bool {
    (s: Symbol) => s.file == path
  }

  lemma {:induction false} FileRecords(nodes: seq<Node>, path: string)
    ensures RecordsOf(Filter(nodes, InsideFile(path))) == Filter(RecordsOf(nodes), InFile(path))
  {
    if nodes != [] {
      FileRecords(nodes[1..], path);
      assert RecordsOf(nodes)[1..] == RecordsOf(nodes[1..]);
      if nodes[0].record.file == path {
        var rest := Filter(nodes[1..], InsideFile(path));
        assert RecordsOf([nodes[0]] + rest) == [nodes[0].record] + RecordsOf(rest);
      }
    }
  }

  /** ... in particular, re-indexing a file right after a full build gives the build back exactly
      under that condition. */
  lemma RebuildIff(symbols: seq<Symbol>, deps: seq<Dep>, stem: string -> string, src: Source)
    requires Indexable(src) && Filter(symbols, InFile(src.path)) == Extract(src)
    requires src.stem == "" || src.stem == "__init__" ==> forall s :: s in symbols ==> s.name != src.stem
    ensures var t, u := Built(symbols, deps, stem), UpdateOf(src); var rows := FileRows(t, src.path);
            multiset(After(t, u).edges) == multiset(Map(t.edges, MoveEdge(rows, t.lastId)))
            <==> (NothingEnters(t, src.path)
                  && multiset(Resolved(t, u)) == multiset(Filter(t.edges, StartsIn(FileIds(t, src.path)))))
  {
    var t := Built(symbols, deps, stem);
    BuiltWellFormed(symbols, deps, stem);
    FileRecords(t.nodes, src.path);
    assert RecordsOf(t.nodes) == symbols;
    forall n | n in t.nodes ensures n.record in symbols { var i :| 0 <= i < |t.nodes| && t.nodes[i] == n; }
    ReindexNeutralIff(t, src);
  }

  /** An old edge is still there after an update exactly if neither end lies in the file. */
  lemma EdgeSurvivesIff(t: Tables, u: Update, e: Edge)
    requires WellFormed(t) && OfOneFile(u) && e in t.edges
    ensures e in After(t, u).edges <==> e.source !in FileIds(t, u.path) && e.target !in FileIds(t, u.path)
  {
    UpdateParts(t, u);
    FilterMembers(t.edges, Avoids(FileIds(t, u.path)));
    assert Joins(t, e);
    if e in After(t, u).edges {
      assert Joins(After(t, u), e);
      OldRowSurvives(t, u, e.source);
      OldRowSurvives(t, u, e.target);
    }
  }

  lemma OldRowSurvives(t: Tables, u: Update, id: int)
    requires WellFormed(t) && OfOneFile(u) && Live(t, id) && Live(After(t, u), id)
    ensures id !in FileIds(t, u.path)
  {
    UpdateParts(t, u);
    var old_ :| old_ in t.nodes && old_.id == id;
    var n :| n in After(t, u).nodes && n.id == id;
    assert n in RemoveFile(t, u.path).nodes;
    FilterMembers(t.nodes, OutsideFile(u.path));
    UniqueRow(t, old_, n);
    RowSurvives(t, u.path, n);
  }
}
