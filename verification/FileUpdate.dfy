/** Updating the index from a parsed file: the extractors and the updater together. */
module FileUpdate {
  import opened Prelude
  import opened Text
  import opened Syntax
  import opened GraphStore
  import opened GraphBuilder
  import opened SymbolExtractor
  import opened SymbolFinder
  import opened IndexCoverage
  import opened DependencyExtractor
  import opened Indexer
  import opened IndexTheory
  import opened Idempotence

  /** What one call of the updater on a parsed file does. */
  function UpdateOf(src: Source): Update {
    Update(src.path, Extract(src), Collected(src, Extract(src), src.root))
  }

  /** Files whose definitions are all indexed. */
  ghost predicate Indexable(src: Source) {
    !IsDef(src.root) && WellShaped(src.text, src.root) && HidesNothing(src.text, src.root.children)
  }

  lemma RecordIsOwn(src: Source, i: nat, name: string)
    requires i < |Extract(src)|
             && (Extract(src)[i].name == name || LastSegment(Extract(src)[i].name) == LastSegment(name))
    ensures Own(Extract(src), name)
  {}

  lemma IndexedClassIsOwn(src: Source, n: Tree)
    requires Indexable(src) && n in PreOrder(src.root) && Named(n, src.text)
    ensures Own(Extract(src), DefName(n, src.text))
  {
    var i := IndexedAt(src, n);
    EmissionName(src, i);
    RecordIsOwn(src, |ModuleRecords(src)| + i, DefName(n, src.text));
  }

  lemma IndexedAt(src: Source, n: Tree) returns (i: nat)
    requires Indexable(src) && n in PreOrder(src.root) && Named(n, src.text)
    ensures i < |Definitions(src)| && Definitions(src)[i].node == n
  {
    var es := Definitions(src);
    IndexIsCompleteIff(src);
    FilterMembers(PreOrders(src.root.children), NamedIn(src.text));
    assert n in PreOrders(src.root.children);
    assert n in NodesOf(es);
    i :| 0 <= i < |NodesOf(es)| && NodesOf(es)[i] == n;
  }

  lemma EmissionName(src: Source, i: nat)
    requires i < |Definitions(src)|
    ensures var e := Definitions(src)[i]; LastSegment(e.record.name) == LastSegment(DefName(e.node, src.text))
  {
    var e := Definitions(src)[i];
    EmitAllFromNodes(src, src.root.children, "");
    assert e in Definitions(src);
    var parent :| e.record.name == QualifiedName(parent, DefName(e.node, src.text));
    LastSegmentOfSuffix(parent, DefName(e.node, src.text));
  }

  lemma EnclosingIsOwn(src: Source, line: int)
    ensures Enclosing(src, Extract(src), line) != "" ==> Own(Extract(src), Enclosing(src, Extract(src), line))
  {
    var found := Containment.FindContaining(line, src.path, Extract(src));
    if found.Some? {
      FilterMembers(Extract(src), Containment.CoveringInFile(src.path, line));
      var i :| 0 <= i < |Extract(src)| && Extract(src)[i] == found.value;
      RecordIsOwn(src, i, found.value.name);
    }
  }

  lemma ModuleIsOwn(src: Source)
    requires src.stem != "" && src.stem != "__init__"
    ensures Own(Extract(src), src.stem)
  {
    RecordIsOwn(src, 0, src.stem);
  }

  /** Every extracted edge starts at a symbol of the file, or at the module. */
  lemma SourceIsOwn(src: Source, d: Dep)
    requires Indexable(src) && d in UpdateOf(src).deps
    ensures Own(Extract(src), d.source) || d.source == src.stem
  {
    var n := CollectedStart(src, Extract(src), src.root, d);
    if d.relation == "inherits" { IndexedClassIsOwn(src, n); } else { EnclosingIsOwn(src, n.startLine); }
  }

  /** A file without a module record, whose edges may start at no symbol of its own, finds no
      row that happens to be called like it. */
  ghost predicate StemFree(t: Tables, src: Source) {
    src.stem == "" || src.stem == "__init__" ==> forall n :: n in t.nodes ==> n.record.name != src.stem
  }

  lemma UnownedFindsNothing(t: Tables, src: Source, d: Dep)
    requires Indexable(src) && StemFree(t, src) && d in UpdateOf(src).deps
    ensures !Own(Extract(src), d.source) ==> ForeignRow(RemoveFile(t, src.path).nodes, d.source) == None
  {
    SourceIsOwn(src, d);
    if !Own(Extract(src), d.source) {
      if src.stem != "" && src.stem != "__init__" { ModuleIsOwn(src); }
      FilterMembers(t.nodes, OutsideFile(src.path));
      assert '.' !in d.source;
    }
  }

  lemma NoneDetached(t: Tables, src: Source, d: Dep)
    requires Indexable(src) && StemFree(t, src) && d in UpdateOf(src).deps
    ensures !Detached(RemoveFile(t, src.path).nodes, Extract(src), d)
  {
    UnownedFindsNothing(t, src, d);
  }

  /** Main theorem: re-indexing an unchanged parsed file a second time gives the same
      symbols.json and the same graph up to fresh ids for the file's rows, unless the file is
      a package's `__init__` and some row is called just that. */
  lemma FileUpdateIdempotent(s: Snapshot, src: Source)
    requires Consistent(s) && Indexable(src) && StemFree(s.tables, src)
    ensures var u := UpdateOf(src); var once := Apply(s, u); var twice := Apply(once, u);
            && twice.symbols == once.symbols
            && twice.tables.nodes == RenamedNodes(once.tables.nodes, s.tables.lastId, |u.symbols|)
            && multiset(twice.tables.edges) == multiset(RenamedEdges(once.tables.edges, s.tables.lastId, |u.symbols|))
  {
    var u := UpdateOf(src);
    ExtractedFromFile(src);
    SymbolsIdempotent(s, u);
    IdempotentIff(s.tables, u);
    IdempotentIffAnchored(s.tables, u);
    forall d | d in u.deps ensures !Detached(RemoveFile(s.tables, u.path).nodes, u.symbols, d) {
      NoneDetached(s.tables, src, d);
    }
  }
}
