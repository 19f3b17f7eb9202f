/** Updating an unchanged file a second time. */
module Idempotence {
  import opened Prelude
  import opened Text
  import opened GraphStore
  import opened GraphBuilder
  import opened Indexer
  import opened IndexTheory

  // ------------------------------------------------------------ renaming

  /** Ids above `base` move up by `shift`. */
  function Renamed(id: int, base: nat, shift: nat): int {
    if id > base then id + shift else id
  }

  function RenamedId(r: Option<int>, base: nat, shift: nat): Option<int> {
    match r case None => None case Some(id) => Some(Renamed(id, base, shift))
  }

  function RenamedEdge(e: Edge, base: nat, shift: nat): Edge {
    Edge(Renamed(e.source, base, shift), Renamed(e.target, base, shift), e.edgeType)
  }

  function RenamedEdges(es: seq<Edge>, base: nat, shift: nat): (r: seq<Edge>)
    ensures |r| == |es|
  {
    if es == [] then [] else [RenamedEdge(es[0], base, shift)] + RenamedEdges(es[1..], base, shift)
  }

  function RenamedNodes(nodes: seq<Node>, base: nat, shift: nat): seq<Node> {
    Map(nodes, (n: Node) => Node(Renamed(n.id, base, shift), n.record))
  }

  lemma {:induction false} RenamedAppend(a: seq<Edge>, b: seq<Edge>, base: nat, shift: nat)
    ensures RenamedEdges(a + b, base, shift) == RenamedEdges(a, base, shift) + RenamedEdges(b, base, shift)
  {
    if a == [] {
      assert a + b == b;
    } else {
      assert (a + b)[1..] == a[1..] + b;
      RenamedAppend(a[1..], b, base, shift);
    }
  }

  lemma {:induction false} OldEdgesKeep(es: seq<Edge>, base: nat, shift: nat)
    requires forall e :: e in es ==> e.source <= base && e.target <= base
    ensures RenamedEdges(es, base, shift) == es
  {
    if es != [] { OldEdgesKeep(es[1..], base, shift); }
  }

  // ------------------------------------------------------------ resolution commutes with renaming

  lemma {:induction false} LocalNamesShift(symbols: seq<Symbol>, base: nat, shift: nat, later: nat, n: nat)
    requires n <= |symbols| && later == base + shift
    ensures LocalNames(symbols, later, n).Keys == LocalNames(symbols, base, n).Keys
    ensures forall x :: x in LocalNames(symbols, base, n) ==>
            LocalNames(symbols, later, n)[x] == LocalNames(symbols, base, n)[x] + shift
    ensures forall i :: 0 <= i < n ==> symbols[i].name in LocalNames(symbols, base, n)
  {
    if n > 0 { LocalNamesShift(symbols, base, shift, later, n - 1); }
  }

  lemma {:induction false} FirstNamedAppend(a: seq<Node>, b: seq<Node>, name: string)
    ensures FirstNamed(a + b, name) == if FirstNamed(a, name).Some? then FirstNamed(a, name) else FirstNamed(b, name)
  {
    if a == [] {
      assert a + b == b;
    } else {
      assert (a + b)[1..] == a[1..] + b;
      FirstNamedAppend(a[1..], b, name);
    }
  }

  /** A name that is none of the file's own is looked up among the other rows only. */
  lemma ForeignLookup(kept: seq<Node>, symbols: seq<Symbol>, base: nat, name: string)
    requires name !in LocalNames(symbols, base, |symbols|)
    ensures FirstNamed(kept + Rows(symbols, base), name) == FirstNamed(kept, name)
  {
    var rows := Rows(symbols, base);
    LocalNamesShift(symbols, base, 0, base, |symbols|);
    FirstNamedAppend(kept, rows, name);
    forall n | n in rows ensures n.record.name in LocalNames(symbols, base, |symbols|) {
      var i :| 0 <= i < |rows| && rows[i] == n;
    }
  }

  /** Resolution after the second update is resolution after the first, renamed. */
  lemma ResolutionShifts(kept: seq<Node>, symbols: seq<Symbol>, base: nat, shift: nat, later: nat, name: string)
    requires later == base + shift && forall n :: n in kept ==> 1 <= n.id <= base
    ensures var r := ResolveLocally(name, LocalNames(symbols, base, |symbols|), kept + Rows(symbols, base));
            && ResolveLocally(name, LocalNames(symbols, later, |symbols|), kept + Rows(symbols, later))
               == RenamedId(r, base, shift)
            && (r.Some? ==> r.value >= 1)
  {
    LocalNamesShift(symbols, base, shift, later, |symbols|);
    LocalNamesInRange(symbols, base, |symbols|);
    var short := LastSegment(name);
    if name !in LocalNames(symbols, base, |symbols|) && short !in LocalNames(symbols, base, |symbols|) {
      ForeignLookup(kept, symbols, base, name);
      ForeignLookup(kept, symbols, later, name);
      ForeignLookup(kept, symbols, base, short);
      ForeignLookup(kept, symbols, later, short);
    }
  }

  lemma JoinedShifts(a: Option<int>, b: Option<int>, relation: string, base: nat, shift: nat)
    requires (a.Some? ==> a.value >= 1) && (b.Some? ==> b.value >= 1)
    ensures Joined(RenamedId(a, base, shift), RenamedId(b, base, shift), relation)
            == match Joined(a, b, relation) case None => None case Some(e) => Some(RenamedEdge(e, base, shift))
  {}

  lemma {:induction false} EdgesShift(kept: seq<Node>, symbols: seq<Symbol>, base: nat, shift: nat,
                                      later: nat, deps: seq<Dep>)
    requires later == base + shift && forall n :: n in kept ==> 1 <= n.id <= base
    ensures UpdateEdges(deps, LocalNames(symbols, later, |symbols|), kept + Rows(symbols, later))
            == RenamedEdges(UpdateEdges(deps, LocalNames(symbols, base, |symbols|), kept + Rows(symbols, base)),
                            base, shift)
    decreases |deps|
  {
    if deps != [] {
      var d, names, nodes := deps[0], LocalNames(symbols, base, |symbols|), kept + Rows(symbols, base);
      ResolutionShifts(kept, symbols, base, shift, later, d.source);
      ResolutionShifts(kept, symbols, base, shift, later, d.target);
      JoinedShifts(ResolveLocally(d.source, names, nodes), ResolveLocally(d.target, names, nodes),
                   d.relation, base, shift);
      EdgesShift(kept, symbols, base, shift, later, deps[1..]);
      var rest := UpdateEdges(deps[1..], names, nodes);
      var e := UpdateEdgeOf(d, names, nodes);
      if e.Some? { assert ([e.value] + rest)[1..] == rest; }
    }
  }

  // ------------------------------------------------------------ the second removal

  function After(t: Tables, u: Update): Tables {
    UpdatedTables(t, u.path, u.symbols, u.deps)
  }

  function Added(t: Tables, u: Update): seq<Edge> {
    AddedEdges(t, u.path, u.symbols, u.deps)
  }

  lemma UpdateParts(t: Tables, u: Update)
    requires WellFormed(t) && OfOneFile(u)
    ensures var removed, rows := RemoveFile(t, u.path), Rows(u.symbols, t.lastId);
            && WellFormed(removed) && WellFormed(After(t, u))
            && (forall n :: n in removed.nodes ==> n.record.file != u.path && 1 <= n.id <= t.lastId)
            && (forall n :: n in rows ==> n.record.file == u.path && n.id > t.lastId)
            && After(t, u).nodes == removed.nodes + rows
            && After(t, u).edges == removed.edges + Added(t, u)
  {
    RemoveFileKeeps(t, u.path);
    UpdatedWellFormed(t, u);
    var rows := Rows(u.symbols, t.lastId);
    forall n | n in rows ensures n.record.file == u.path && n.id > t.lastId {
      var i :| 0 <= i < |rows| && rows[i] == n;
      assert u.symbols[i] in u.symbols;
    }
  }

  lemma FileIdsAreNew(t: Tables, u: Update, id: int)
    requires WellFormed(t) && OfOneFile(u) && Live(After(t, u), id)
    ensures id in FileIds(After(t, u), u.path) <==> id > t.lastId
  {
    UpdateParts(t, u);
    var n :| n in After(t, u).nodes && n.id == id;
    RowSurvives(After(t, u), u.path, n);
  }

  /** An edge between rows of other files only. */
  function Foreign(base: nat): Edge -> bool {
    (e: Edge) => e.source <= base && e.target <= base
  }

  lemma SecondRemovalNodes(t: Tables, u: Update)
    requires WellFormed(t) && OfOneFile(u)
    ensures RemoveFile(After(t, u), u.path).nodes == RemoveFile(t, u.path).nodes
  {
    UpdateParts(t, u);
    FilterAgain(t.nodes, Rows(u.symbols, t.lastId), OutsideFile(u.path));
  }

  lemma SecondRemovalEdges(t: Tables, u: Update)
    requires WellFormed(t) && OfOneFile(u)
    ensures RemoveFile(After(t, u), u.path).edges
            == RemoveFile(t, u.path).edges + Filter(Added(t, u), Foreign(t.lastId))
    ensures forall e :: e in RemoveFile(t, u.path).edges ==> Foreign(t.lastId)(e)
  {
    UpdateParts(t, u);
    var kept, added, gone := RemoveFile(t, u.path).edges, Added(t, u), FileIds(After(t, u), u.path);
    forall e | e in kept ensures Foreign(t.lastId)(e) { assert Joins(RemoveFile(t, u.path), e); }
    forall e | e in kept + added ensures Avoids(gone)(e) == Foreign(t.lastId)(e) {
      assert Joins(After(t, u), e);
      FileIdsAreNew(t, u, e.source);
      FileIdsAreNew(t, u, e.target);
    }
    FilterAgrees(kept + added, Avoids(gone), Foreign(t.lastId));
    FilterAppend(kept, added, Foreign(t.lastId));
    FilterAll(kept, Foreign(t.lastId));
  }

  // ------------------------------------------------------------ the theorems

  lemma RenamedRows(kept: seq<Node>, symbols: seq<Symbol>, base: nat, shift: nat, later: nat)
    requires later == base + shift && forall i :: 0 <= i < |kept| ==> kept[i].id <= base
    ensures RenamedNodes(kept + Rows(symbols, base), base, shift) == kept + Rows(symbols, later)
  {
    var before, after := RenamedNodes(kept + Rows(symbols, base), base, shift), kept + Rows(symbols, later);
    forall i | 0 <= i < |after| ensures before[i] == after[i] {}
  }

  lemma NodesComeBack(t: Tables, u: Update)
    requires WellFormed(t) && OfOneFile(u)
    ensures After(After(t, u), u).nodes == RenamedNodes(After(t, u).nodes, t.lastId, |u.symbols|)
  {
    var kept, once := RemoveFile(t, u.path).nodes, After(t, u);
    UpdateParts(t, u);
    SecondRemovalNodes(t, u);
    forall i | 0 <= i < |kept| ensures kept[i].id <= t.lastId { assert kept[i] in kept; }
    RenamedRows(kept, u.symbols, t.lastId, |u.symbols|, once.lastId);
  }

  lemma AddedComeBack(t: Tables, u: Update)
    requires WellFormed(t) && OfOneFile(u)
    ensures Added(After(t, u), u) == RenamedEdges(Added(t, u), t.lastId, |u.symbols|)
  {
    var kept := RemoveFile(t, u.path).nodes;
    UpdateParts(t, u);
    SecondRemovalNodes(t, u);
    EdgesShift(kept, u.symbols, t.lastId, |u.symbols|, After(t, u).lastId, u.deps);
  }

  /** Main theorem: a second, identical update brings the file's rows back under fresh ids and
      the added edges back renamed; but added edges between rows of other files are not taken
      out in between, and so are there twice. */
  lemma SecondUpdate(t: Tables, u: Update)
    requires WellFormed(t) && OfOneFile(u)
    ensures var base, shift, once, twice := t.lastId, |u.symbols|, After(t, u), After(After(t, u), u);
            var kept := RemoveFile(t, u.path).edges;
            && twice.nodes == RenamedNodes(once.nodes, base, shift)
            && once.edges == kept + Added(t, u)
            && twice.edges == (kept + Filter(Added(t, u), Foreign(base))) + RenamedEdges(Added(t, u), base, shift)
  {
    NodesComeBack(t, u);
    AddedComeBack(t, u);
    SecondRemovalEdges(t, u);
  }

  /** Main theorem: the second update gives the same graph, up to the fresh ids of the file's
      rows, with the same multiset of edges, if and only if every edge the update adds has an
      end in the file. */
  lemma IdempotentIff(t: Tables, u: Update)
    requires WellFormed(t) && OfOneFile(u)
    ensures After(After(t, u), u).nodes == RenamedNodes(After(t, u).nodes, t.lastId, |u.symbols|)
    ensures multiset(After(After(t, u), u).edges) == multiset(RenamedEdges(After(t, u).edges, t.lastId, |u.symbols|))
            <==> forall e :: e in Added(t, u) ==> e.source > t.lastId || e.target > t.lastId
  {
    var base, shift, added, kept := t.lastId, |u.symbols|, Added(t, u), RemoveFile(t, u.path).edges;
    var again := Filter(added, Foreign(base));
    SecondUpdate(t, u);
    assert RenamedEdges(After(t, u).edges, base, shift) == kept + RenamedEdges(added, base, shift) by {
      SecondRemovalEdges(t, u);
      RenamedAppend(kept, added, base, shift);
      OldEdgesKeep(kept, base, shift);
    }
    MoreEdges(kept, again, RenamedEdges(added, base, shift));
    NoneForeign(added, base);
  }

  lemma NoneForeign(added: seq<Edge>, base: nat)
    ensures Filter(added, Foreign(base)) == [] <==> forall e :: e in added ==> e.source > base || e.target > base
  {
    var again := Filter(added, Foreign(base));
    FilterMembers(added, Foreign(base));
    if again == [] {
      forall e | e in added ensures e.source > base || e.target > base { assert e !in again; }
    } else {
      assert again[0] in again;
    }
  }

  lemma MoreEdges(a: seq<Edge>, extra: seq<Edge>, b: seq<Edge>)
    ensures multiset((a + extra) + b) == multiset(a + b) <==> extra == []
  {
    assert |multiset((a + extra) + b)| == |a| + |extra| + |b| && |multiset(a + b)| == |a| + |b|;
    if extra == [] { assert a + extra == a; }
  }

  /** ... and symbols.json is the same list after the second update as after the first. */
  lemma SymbolsIdempotent(s: Snapshot, u: Update)
    requires OfOneFile(u)
    ensures Apply(Apply(s, u), u).symbols == Apply(s, u).symbols
  {
    FilterAgain(s.symbols, u.symbols, OtherFile(u.path));
  }

  // ------------------------------------------------------------ the condition on the dependencies

  /** `name`, or its last segment, is the full or the short name of one of the symbols. */
  predicate Own(symbols: seq<Symbol>, name: string) {
    NameTaken(symbols, name) || NameTaken(symbols, LastSegment(name))
  }

  /** Some symbol has `x` as its full or its short name. */
  predicate NameTaken(symbols: seq<Symbol>, x: string) {
    exists i :: 0 <= i < |symbols| && (symbols[i].name == x || LastSegment(symbols[i].name) == x)
  }

  /** The first row of another file with that name, or with its last segment. */
  function ForeignRow(kept: seq<Node>, name: string): Option<int> {
    var exact := FirstNamed(kept, name);
    var row := if exact.None? && '.' in name then FirstNamed(kept, LastSegment(name)) else exact;
    if row.Some? then Some(row.value.id) else None
  }

  /** Neither end of the dependency is the file's own, and both are found, apart, in other files. */
  predicate Detached(kept: seq<Node>, symbols: seq<Symbol>, d: Dep) {
    && !Own(symbols, d.source) && !Own(symbols, d.target)
    && Joined(ForeignRow(kept, d.source), ForeignRow(kept, d.target), d.relation).Some?
  }

  lemma {:induction false} LocalNamesAre(symbols: seq<Symbol>, base: nat, n: nat, x: string)
    requires n <= |symbols|
    ensures x in LocalNames(symbols, base, n) <==>
            exists i :: 0 <= i < n && (symbols[i].name == x || LastSegment(symbols[i].name) == x)
    decreases n
  {
    if n > 0 { LocalNamesAre(symbols, base, n - 1, x); }
  }

  /** An own name resolves into the file, any other to a row of another file, if at all. */
  lemma OwnResolves(kept: seq<Node>, symbols: seq<Symbol>, base: nat, name: string)
    ensures var r := ResolveLocally(name, LocalNames(symbols, base, |symbols|), kept + Rows(symbols, base));
            if Own(symbols, name) then r.Some? && r.value > base else r == ForeignRow(kept, name)
  {
    LocalNamesInRange(symbols, base, |symbols|);
    LocalNamesAre(symbols, base, |symbols|, name);
    LocalNamesAre(symbols, base, |symbols|, LastSegment(name));
    if !Own(symbols, name) {
      ForeignLookup(kept, symbols, base, name);
      ForeignLookup(kept, symbols, base, LastSegment(name));
    }
  }

  lemma ForeignRowOld(kept: seq<Node>, base: nat, name: string)
    requires forall n :: n in kept ==> n.id <= base
    ensures ForeignRow(kept, name).Some? ==> ForeignRow(kept, name).value <= base
  {}

  lemma ForeignIffDetached(kept: seq<Node>, symbols: seq<Symbol>, base: nat, d: Dep)
    requires forall n :: n in kept ==> n.id <= base
    ensures var e := UpdateEdgeOf(d, LocalNames(symbols, base, |symbols|), kept + Rows(symbols, base));
            Detached(kept, symbols, d) <==> e.Some? && e.value.source <= base && e.value.target <= base
  {
    OwnResolves(kept, symbols, base, d.source);
    OwnResolves(kept, symbols, base, d.target);
    ForeignRowOld(kept, base, d.source);
    ForeignRowOld(kept, base, d.target);
  }

  lemma {:induction false} ForeignEdgesAreDetached(kept: seq<Node>, symbols: seq<Symbol>, base: nat, deps: seq<Dep>)
    requires forall n :: n in kept ==> n.id <= base
    ensures (exists e :: e in UpdateEdges(deps, LocalNames(symbols, base, |symbols|), kept + Rows(symbols, base))
                         && e.source <= base && e.target <= base)
            <==> exists d :: d in deps && Detached(kept, symbols, d)
    decreases |deps|
  {
    if deps != [] {
      ForeignIffDetached(kept, symbols, base, deps[0]);
      ForeignEdgesAreDetached(kept, symbols, base, deps[1..]);
      assert forall d :: d in deps <==> d == deps[0] || d in deps[1..];
    }
  }

  /** Main theorem: told from the input alone: an update is idempotent exactly if none of the
      file's dependencies joins two symbols of other files. */
  lemma IdempotentIffAnchored(t: Tables, u: Update)
    requires WellFormed(t) && OfOneFile(u)
    ensures multiset(After(After(t, u), u).edges) == multiset(RenamedEdges(After(t, u).edges, t.lastId, |u.symbols|))
            <==> forall d :: d in u.deps ==> !Detached(RemoveFile(t, u.path).nodes, u.symbols, d)
  {
    IdempotentIff(t, u);
    UpdateParts(t, u);
    ForeignEdgesAreDetached(RemoveFile(t, u.path).nodes, u.symbols, t.lastId, u.deps);
  }
}
