/** What every run of the index keeps, and what an update does to the graph. */
module IndexTheory {
  import opened Prelude
  import opened GraphStore
  import opened GraphBuilder
  import opened Indexer

  // ------------------------------------------------------------ runs

  /** One successful update: a file, its fresh records and its fresh dependencies. */
  datatype Update = Update(path: string, symbols: seq<Symbol>, deps: seq<Dep>)

  /** The extractor records every symbol under its file and with a name. */
  ghost predicate OfOneFile(u: Update) {
    forall s :: s in u.symbols ==> s.file == u.path && s.name != ""
  }

  function Apply(s: Snapshot, u: Update): Snapshot {
    Snapshot(Filter(s.symbols, OtherFile(u.path)) + u.symbols, UpdatedTables(s.tables, u.path, u.symbols, u.deps))
  }

  function Run(s: Snapshot, us: seq<Update>): Snapshot
    decreases |us|
  {
    if us == [] then s else Run(Apply(s, us[0]), us[1..])
  }

  function Initial(symbols: seq<Symbol>, deps: seq<Dep>, stem: string -> string): Snapshot {
    Snapshot(symbols, Built(symbols, deps, stem))
  }

  function RecordsOf(nodes: seq<Node>): seq<Symbol> {
    Map(nodes, (n: Node) => n.record)
  }

  /** The graph is well-formed, and its rows are the records of symbols.json, in order. */
  ghost predicate Consistent(s: Snapshot) {
    WellFormed(s.tables) && RecordsOf(s.tables.nodes) == s.symbols
  }

  // ------------------------------------------------------------ one update

  lemma {:induction false} FilterRecords(nodes: seq<Node>, path: string)
    ensures RecordsOf(Filter(nodes, OutsideFile(path))) == Filter(RecordsOf(nodes), OtherFile(path))
  {
    if nodes != [] {
      FilterRecords(nodes[1..], path);
      assert RecordsOf(nodes)[1..] == RecordsOf(nodes[1..]);
      if nodes[0].record.file != path {
        var kept := Filter(nodes[1..], OutsideFile(path));
        assert RecordsOf([nodes[0]] + kept) == [nodes[0].record] + RecordsOf(kept);
      }
    }
  }

  lemma RecordsWithRows(nodes: seq<Node>, symbols: seq<Symbol>, base: nat)
    ensures RecordsOf(nodes + Rows(symbols, base)) == RecordsOf(nodes) + symbols
  {}

  lemma AddRowsLive(t: Tables, symbols: seq<Symbol>)
    ensures forall id :: Live(AddRows(t, symbols), id) <==> Live(t, id) || t.lastId < id <= t.lastId + |symbols|
  {
    var rows := Rows(symbols, t.lastId);
    NodeIdsAppend(t.nodes, rows);
    forall id ensures id in NodeIds(rows) <==> t.lastId < id <= t.lastId + |symbols| { RowIds(symbols, t.lastId, id); }
  }

  lemma AddRowsKeeps(t: Tables, symbols: seq<Symbol>)
    requires WellFormed(t)
    ensures WellFormed(AddRows(t, symbols))
  {
    AddRowsLive(t, symbols);
    forall i | 0 <= i < |t.nodes| ensures 1 <= t.nodes[i].id <= t.lastId { assert t.nodes[i] in t.nodes; }
    RowsAscend(t.nodes, symbols, t.lastId);
    RowBounds(symbols, t.lastId);
  }

  lemma RowBounds(symbols: seq<Symbol>, base: nat)
    ensures forall n :: n in Rows(symbols, base) ==> base < n.id <= base + |symbols|
  {}

  lemma RowsAscend(nodes: seq<Node>, symbols: seq<Symbol>, base: nat)
    requires Ascending(nodes) && forall i :: 0 <= i < |nodes| ==> nodes[i].id <= base
    ensures Ascending(nodes + Rows(symbols, base))
  {}

  /** Names of the updated file stand for rows of that file. */
  lemma {:induction false} LocalNamesInRange(symbols: seq<Symbol>, base: nat, n: nat)
    requires n <= |symbols|
    ensures forall x :: x in LocalNames(symbols, base, n) ==> base < LocalNames(symbols, base, n)[x] <= base + n
  {
    if n > 0 { LocalNamesInRange(symbols, base, n - 1); }
  }

  lemma ResolvedIsLive(t: Tables, symbols: seq<Symbol>, name: string)
    requires WellFormed(t)
    ensures var u := AddRows(t, symbols);
            var r := ResolveLocally(name, LocalNames(symbols, t.lastId, |symbols|), u.nodes);
            r.Some? ==> Live(u, r.value)
  {
    AddRowsLive(t, symbols);
    LocalNamesInRange(symbols, t.lastId, |symbols|);
  }

  lemma {:induction false} UpdateEdgesJoin(t: Tables, symbols: seq<Symbol>, deps: seq<Dep>)
    requires WellFormed(t)
    ensures var u := AddRows(t, symbols);
            forall e :: e in UpdateEdges(deps, LocalNames(symbols, t.lastId, |symbols|), u.nodes) ==> Joins(u, e)
    decreases |deps|
  {
    if deps != [] {
      UpdateEdgesJoin(t, symbols, deps[1..]);
      ResolvedIsLive(t, symbols, deps[0].source);
      ResolvedIsLive(t, symbols, deps[0].target);
    }
  }

  lemma UpdatedWellFormed(t: Tables, u: Update)
    requires WellFormed(t)
    ensures WellFormed(UpdatedTables(t, u.path, u.symbols, u.deps))
  {
    var removed := RemoveFile(t, u.path);
    RemoveFileKeeps(t, u.path);
    AddRowsKeeps(removed, u.symbols);
    UpdateEdgesJoin(removed, u.symbols, u.deps);
    var rows, after := AddRows(removed, u.symbols), UpdatedTables(t, u.path, u.symbols, u.deps);
    forall e | e in after.edges ensures Joins(after, e) { assert Joins(rows, e); }
  }

  /** Main theorem: an update keeps the graph well-formed and symbols.json equal to its rows. */
  lemma UpdateKeepsConsistent(s: Snapshot, u: Update)
    requires Consistent(s)
    ensures Consistent(Apply(s, u))
  {
    UpdatedWellFormed(s.tables, u);
    FilterRecords(s.tables.nodes, u.path);
    RecordsWithRows(Filter(s.tables.nodes, OutsideFile(u.path)), u.symbols, s.tables.lastId);
  }

  lemma InitialConsistent(symbols: seq<Symbol>, deps: seq<Dep>, stem: string -> string)
    ensures Consistent(Initial(symbols, deps, stem))
  {
    BuiltWellFormed(symbols, deps, stem);
  }

  lemma {:induction false} RunKeepsConsistent(s: Snapshot, us: seq<Update>)
    requires Consistent(s)
    ensures Consistent(Run(s, us))
    decreases |us|
  {
    if us != [] {
      UpdateKeepsConsistent(s, us[0]);
      RunKeepsConsistent(Apply(s, us[0]), us[1..]);
    }
  }

  /** Main theorem: whatever is indexed and however often files are updated, every edge joins
      two different live rows, ids are unique, and rows and symbols.json say the same. */
  lemma EveryRunConsistent(symbols: seq<Symbol>, deps: seq<Dep>, stem: string -> string, us: seq<Update>)
    ensures var s := Run(Initial(symbols, deps, stem), us);
            && WellFormed(s.tables)
            && RecordsOf(s.tables.nodes) == s.symbols
            && multiset(RecordsOf(s.tables.nodes)) == multiset(s.symbols)
  {
    InitialConsistent(symbols, deps, stem);
    RunKeepsConsistent(Initial(symbols, deps, stem), us);
  }

  // ------------------------------------------------------------ identity of rows

  /** What an update leaves alone: rows of other files keep ids and values, every other row is
      new, and an old edge survives exactly if both its ends lie in other files. */
  lemma UpdateIsLocal(s: Snapshot, u: Update)
    requires Consistent(s) && OfOneFile(u)
    ensures var before, after := s.tables, Apply(s, u).tables;
            && Filter(after.nodes, OutsideFile(u.path)) == Filter(before.nodes, OutsideFile(u.path))
            && (forall n :: n in after.nodes && n.record.file == u.path ==> n.id > before.lastId)
            && after.edges == Filter(before.edges, Avoids(FileIds(before, u.path)))
                              + AddedEdges(before, u.path, u.symbols, u.deps)
            && (forall n :: n in before.nodes ==> (n.id in FileIds(before, u.path) <==> n.record.file == u.path))
            && after.lastId == before.lastId + |u.symbols|
  {
    var before := s.tables;
    var kept, rows := Filter(before.nodes, OutsideFile(u.path)), Rows(u.symbols, before.lastId);
    FilterMembers(before.nodes, OutsideFile(u.path));
    FilterAppend(kept, rows, OutsideFile(u.path));
    FilterAll(kept, OutsideFile(u.path));
    forall n | n in rows ensures n.id > before.lastId && n.record.file == u.path {
      var i :| 0 <= i < |rows| && rows[i] == n;
      assert u.symbols[i] in u.symbols;
    }
    FilterNone(rows, OutsideFile(u.path));
    forall n | n in before.nodes ensures n.id in FileIds(before, u.path) <==> n.record.file == u.path {
      RowSurvives(before, u.path, n);
    }
  }

  /** Main theorem: over any run, a row whose id was handed out before is still the same row,
      so an id that is gone never comes back. */
  lemma {:induction false} IdsNeverReused(s: Snapshot, us: seq<Update>, n: Node)
    requires Consistent(s) && n in Run(s, us).tables.nodes
    ensures n in s.tables.nodes || n.id > s.tables.lastId
    ensures s.tables.lastId <= Run(s, us).tables.lastId
    decreases |us|
  {
    if us != [] {
      var next, u := Apply(s, us[0]), us[0];
      UpdateKeepsConsistent(s, u);
      IdsNeverReused(next, us[1..], n);
      FilterMembers(s.tables.nodes, OutsideFile(u.path));
      if n in next.tables.nodes && n !in RemoveFile(s.tables, u.path).nodes {
        var rows := Rows(u.symbols, s.tables.lastId);
        var i :| 0 <= i < |rows| && rows[i] == n;
      }
    }
  }
}
