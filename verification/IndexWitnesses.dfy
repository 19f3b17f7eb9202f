/** Concrete files, with the trees of their parses, on which the plain reading of an update fails. */
module IndexWitnesses {
  import opened Prelude
  import opened Text
  import opened Syntax
  import opened GraphStore
  import opened GraphBuilder
  import opened SymbolExtractor
  import opened SymbolFinder
  import opened DependencyExtractor
  import opened Indexer
  import opened IndexTheory
  import opened Idempotence
  import opened FileUpdate
  import opened Reindex
  import Containment

  function Leaf(kind: string, at: nat, end: nat): Tree {
    Tree(kind, at, end, 1, 1, map[], [])
  }

  function Function(name: string, file: string): Symbol {
    Symbol(name, "function", file, 1, 1, "", "{}", "")
  }


  // ------------------------------------------------------------ an import of a package file

  const IMPORT := "import g"

  function ImportStatement(): Tree {
    Tree("import_statement", 0, 8, 1, 1, map[], [Leaf("dotted_name", 7, 8)])
  }

  function PackageFile(details: Details): Source {
    Source("p", "__init__", IMPORT, Tree("module", 0, 8, 1, 1, map[], [ImportStatement()]), details)
  }

  lemma PackageFileRead(details: Details)
    ensures var src := PackageFile(details);
            Indexable(src) && Extract(src) == [] && Collected(src, [], src.root) == [Dep("__init__", "g", "imports")]
  {
    var src, import_, name := PackageFile(details), ImportStatement(), Leaf("dotted_name", 7, 8);
    assert import_.children[1..] == [] && src.root.children[1..] == [];
    assert EmitAll(src, [name], "") == [] && EmitAll(src, [import_], "") == [];
    assert IMPORT[7] == 'g' && TextOf(src, name) == "g";
    ImportEdge(src, import_, name);
    PackageFileShape(src, import_, name);
  }

  lemma ImportEdge(src: Source, import_: Tree, name: Tree)
    requires name == Leaf("dotted_name", 7, 8) && import_ == ImportStatement() && TextOf(src, name) == "g"
    requires src.stem == "__init__" && src.root == Tree("module", 0, 8, 1, 1, map[], [import_])
    ensures Collected(src, [], src.root) == [Dep("__init__", "g", "imports")]
  {
    assert DottedNames(src, [name], "") == ["g"] by { assert [name][1..] == []; }
    assert EdgesTo("__init__", ["g"], "imports") == [Dep("__init__", "g", "imports")] by { assert ["g"][1..] == []; }
    assert NodeEdges(src, [], import_) == [Dep("__init__", "g", "imports")];
    SilentKinds();
    SilentNode(src, [], name);
    assert [name][1..] == [] && CollectedIn(src, [], [name]) == [];
    OnlyChild(src, [], src.root, import_, [Dep("__init__", "g", "imports")]);
  }

  lemma PackageFileShape(src: Source, import_: Tree, name: Tree)
    requires name == Leaf("dotted_name", 7, 8) && import_ == ImportStatement()
             && src.root == Tree("module", 0, 8, 1, 1, map[], [import_])
    ensures Indexable(src)
  {
    assert PreOrders([name]) == [name] by { assert [name][1..] == []; }
    assert PreOrders([import_]) == [import_, name] by { assert [import_][1..] == []; }
    assert WellShaped(src.text, name) && WellShaped(src.text, import_) && WellShaped(src.text, src.root);
  }

  /** A function called `__init__` and one called `g`, in another file. */
  function TwoFunctions(): Tables {
    Tables([Node(1, Function("__init__", "m")), Node(2, Function("g", "m"))], [], 2)
  }

  lemma PackageEdge(t: Tables, u: Update)
    requires t == TwoFunctions() && u == Update("p", [], [Dep("__init__", "g", "imports")])
    ensures RemoveFile(t, "p") == t && Added(t, u) == [Edge(1, 2, "imports")] && WellFormed(t)
  {
    FilterAll(t.nodes, OutsideFile("p"));
    assert Rows([], 2) == [] && t.nodes + [] == t.nodes;
    assert AddRows(t, []).nodes == t.nodes;
    assert t.nodes[0].record.name == "__init__" && t.nodes[1..][0].record.name == "g";
    assert FirstNamed(t.nodes, "__init__") == Some(t.nodes[0]) && FirstNamed(t.nodes, "g") == Some(t.nodes[1]);
    assert UpdateEdgeOf(u.deps[0], map[], t.nodes) == Some(Edge(1, 2, "imports"));
    assert u.deps[1..] == [];
  }

  lemma PackageEdgeTwice(t: Tables, u: Update, e: Edge)
    requires t == TwoFunctions() && u == Update("p", [], [Dep("__init__", "g", "imports")])
             && e == Edge(1, 2, "imports")
    ensures After(t, u).edges == [e] && After(After(t, u), u).edges == [e, e]
  {
    PackageEdge(t, u);
    SecondUpdate(t, u);
    FilterAll([e], Foreign(2));
    assert RenamedEdges([e], 2, 0) == [e] by { assert [e][1..] == []; }
    assert [] + [e] == [e] && [e] + [e] == [e, e];
  }

  /** Indexing a package file that imports `g` twice doubles an edge between two rows of another
      file, one of which happens to be called `__init__`. */
  lemma PackageEdgeDoubles(details: Details)
    ensures var u := UpdateOf(PackageFile(details));
            && Indexable(PackageFile(details))
            && After(TwoFunctions(), u).edges == [Edge(1, 2, "imports")]
            && After(After(TwoFunctions(), u), u).edges == [Edge(1, 2, "imports"), Edge(1, 2, "imports")]
  {
    PackageFileRead(details);
    PackageEdgeTwice(TwoFunctions(), UpdateOf(PackageFile(details)), Edge(1, 2, "imports"));
  }

  // ------------------------------------------------------------ a call into the file

  const CALLEE := "def g():0"

  function CalleeDef(): Tree {
    Tree("function_definition", 0, 9, 1, 1, map["name" := 0, "body" := 1],
         [Leaf("identifier", 4, 5), Leaf("block", 8, 9)])
  }

  function CalleeFile(details: Details): Source {
    Source("n", "n", CALLEE, Tree("module", 0, 9, 1, 1, map[], [CalleeDef()]), details)
  }

  const CALLER := "def f():\n g()"

  function CallNode(): Tree {
    Tree("call", 10, 13, 2, 2, map["function" := 0], [Tree("identifier", 10, 11, 2, 2, map[], [])])
  }

  function CallerBody(): Tree {
    Tree("block", 10, 13, 2, 2, map[], [Tree("expression_statement", 10, 13, 2, 2, map[], [CallNode()])])
  }

  function CallerDef(): Tree {
    Tree("function_definition", 0, 13, 1, 2, map["name" := 0, "body" := 1], [Leaf("identifier", 4, 5), CallerBody()])
  }

  function CallerFile(details: Details): Source {
    Source("m", "m", CALLER, Tree("module", 0, 13, 1, 2, map[], [CallerDef()]), details)
  }

  /** The records of the two files. */
  function BothFiles(details: Details): seq<Symbol> {
    Extract(CallerFile(details)) + Extract(CalleeFile(details))
  }

  /** The edges of the two files, collected over the records of both. */
  function BothEdges(details: Details): seq<Dep> {
    var caller, callee, all := CallerFile(details), CalleeFile(details), BothFiles(details);
    Collected(caller, all, caller.root) + Collected(callee, all, callee.root)
  }

  function Same(): string -> string {
    (file: string) => file
  }

  lemma CallerRecorded(src: Source, def: Tree, body: Tree)
    requires src.text == CALLER && src.stem == "m" && src.path == "m" && def == CallerDef() && body == CallerBody()
    requires src.root == Tree("module", 0, 13, 1, 2, map[], [def])
    ensures |Extract(src)| == 2
    ensures var m, f := Extract(src)[0], Extract(src)[1];
            m.name == m.file == "m" && m.startLine == m.endLine == 1
            && f.name == "f" && f.file == "m" && f.startLine == 1 && f.endLine == 2
  {
    assert CALLER[4] == 'f' && DefName(def, CALLER) == "f";
    assert [def][1..] == [] && EmitAll(src, [], "f") == [];
    NothingEmitted(src, body, "f");
    assert Emit(src, def, "") == [Emission(Record(src, def, ""), def)];
    assert EmitAll(src, [def], "") == [Emission(Record(src, def, ""), def)];
  }

  lemma NothingEmitted(src: Source, body: Tree, scope: string)
    requires body == CallerBody()
    ensures EmitAll(src, body.children, scope) == []
  {
    var statement, call := body.children[0], CallNode();
    var callee := call.children[0];
    assert [callee][1..] == [] && [call][1..] == [] && [statement][1..] == [];
    assert EmitAll(src, [callee], scope) == [];
    assert EmitAll(src, [call], scope) == [];
    assert EmitAll(src, [statement], scope) == [];
  }

  /** On the line of the call only `f` is around it. */
  lemma CallEnclosed(src: Source, all: seq<Symbol>)
    requires src.path == "m" && |all| == 4 && all[1].name == "f"
    requires all[0].file == "m" && all[0].endLine == 1 && all[1].file == "m" && all[1].startLine == 1
             && all[1].endLine == 2
    requires all[2].file == "n" && all[3].file == "n"
    ensures EnclosingOrModule(src, all, 2) == "f"
  {
    var here := Containment.CoveringInFile("m", 2);
    FilterNone([all[0]], here);
    FilterAll([all[1]], here);
    FilterNone(all[2..], here);
    FilterAppend([all[0]], [all[1]], here);
    FilterAppend([all[0]] + [all[1]], all[2..], here);
    assert all == [all[0]] + [all[1]] + all[2..];
    assert Filter(all, here) == [all[1]];
  }

  lemma CallCollected(src: Source, all: seq<Symbol>, def: Tree, body: Tree)
    requires src.text == CALLER && def == CallerDef() && body == CallerBody()
             && src.root == Tree("module", 0, 13, 1, 2, map[], [def])
    requires EnclosingOrModule(src, all, 2) == "f"
    ensures Collected(src, all, src.root) == [Dep("f", "g", "calls"), Dep("f", "g", "call_graph")]
  {
    var name, statement, call := def.children[0], body.children[0], CallNode();
    var both := [Dep("f", "g", "calls"), Dep("f", "g", "call_graph")];
    SilentKinds();
    CallEdges(src, all, call, call.children[0]);
    OnlyChild(src, all, statement, call, both);
    OnlyChild(src, all, body, statement, both);
    SilentNode(src, all, name);
    assert [name, body][1..] == [body] && [body][1..] == [];
    assert CollectedIn(src, all, [body]) == both && CollectedIn(src, all, [name, body]) == both;
    SilentNode(src, all, def);
    OnlyChild(src, all, src.root, def, both);
  }

  lemma CallEdges(src: Source, all: seq<Symbol>, call: Tree, callee: Tree)
    requires src.text == CALLER && call == CallNode() && callee == call.children[0]
             && EnclosingOrModule(src, all, 2) == "f"
    ensures Collected(src, all, call) == [Dep("f", "g", "calls"), Dep("f", "g", "call_graph")]
  {
    assert CALLER[10] == 'g' && TextOf(src, callee) == "g";
    assert CallTargets(src, call) == ["g"] && ["g"][1..] == [];
    assert EdgesTo("f", ["g"], "calls") == [Dep("f", "g", "calls")]
           && EdgesTo("f", ["g"], "call_graph") == [Dep("f", "g", "call_graph")];
    SilentKinds();
    SilentNode(src, all, callee);
    assert [callee][1..] == [] && CollectedIn(src, all, [callee]) == [];
  }

  /** A node without edges of its own and with one child. */
  lemma OnlyChild(src: Source, all: seq<Symbol>, t: Tree, child: Tree, edges: seq<Dep>)
    requires !Speaks(t.kind) && t.children == [child] && Collected(src, all, child) == edges
    ensures Collected(src, all, t) == edges
  {
    assert [child][1..] == [] && CollectedIn(src, all, [child]) == edges + [];
    SilentNode(src, all, t);
  }

  /** The kinds of node that give rise to edges. */
  predicate Speaks(kind: string) {
    || kind == "import_statement" || kind == "import_from_statement" || kind == "call" || kind == "class_definition"
    || kind == "if_statement" || kind == "while_statement" || kind == "for_statement"
    || kind == "assignment" || kind == "augmented_assignment" || kind == "attribute"
  }

  lemma SilentKinds()
    ensures !Speaks("module") && !Speaks("block") && !Speaks("identifier")
    ensures !Speaks("function_definition") && !Speaks("expression_statement") && !Speaks("dotted_name")
  {
    assert "function_definition"[0] != "augmented_assignment"[0];
  }

  lemma CalleeRecorded(details: Details)
    ensures var src := CalleeFile(details);
            && |Extract(src)| == 2 && Extract(src)[0].name == "n" && Extract(src)[1].name == "g"
            && Extract(src)[0].file == Extract(src)[1].file == "n"
  {
    var src, def := CalleeFile(details), CalleeDef();
    assert CALLEE[4] == 'g' && DefName(def, CALLEE) == "g";
    assert src.root.children[1..] == [];
    assert EmitAll(src, [], "g") == [] && Emit(src, def, "") == [Emission(Record(src, def, ""), def)];
    assert EmitAll(src, [def], "") == [Emission(Record(src, def, ""), def)];
  }

  lemma SilentNode(src: Source, symbols: seq<Symbol>, t: Tree)
    requires !Speaks(t.kind)
    ensures Collected(src, symbols, t) == CollectedIn(src, symbols, t.children)
  {}

  lemma CalleeDependsOnNothing(src: Source, symbols: seq<Symbol>, def: Tree, name: Tree, block: Tree)
    requires def == CalleeDef() && name == def.children[0] && block == def.children[1]
    requires src.root == Tree("module", 0, 9, 1, 1, map[], [def])
    ensures Collected(src, symbols, src.root) == []
  {
    SilentKinds();
    SilentNode(src, symbols, name);
    SilentNode(src, symbols, block);
    assert [def][1..] == [] && [name, block][1..] == [block] && [block][1..] == [];
    assert CollectedIn(src, symbols, [block]) == [];
    assert CollectedIn(src, symbols, [name, block]) == [];
    SilentNode(src, symbols, def);
    assert CollectedIn(src, symbols, [def]) == [];
    SilentNode(src, symbols, src.root);
  }

  lemma CalleeShape(details: Details)
    ensures Indexable(CalleeFile(details))
  {
    var src, def, name, block := CalleeFile(details), CalleeDef(), Leaf("identifier", 4, 5), Leaf("block", 8, 9);
    assert CALLEE[4] == 'g' && DefName(def, CALLEE) == "g";
    assert PreOrder(name) == [name] && PreOrder(block) == [block];
    assert def.children[1..] == [block] && [block][1..] == [] && [def][1..] == [];
    assert PreOrders(def.children) == [name, block] && PreOrders([def]) == [def, name, block];
    assert NoNamedDef(CALLEE, name) && WellShaped(CALLEE, name) && WellShaped(CALLEE, block);
    assert forall c :: c in def.children ==> c == name || c == block;
    assert BodyHoldsDefs(CALLEE, def);
    assert WellShaped(CALLEE, def) && WellShaped(CALLEE, src.root);
  }

  lemma CallNames(symbols: seq<Symbol>)
    requires |symbols| == 4
    requires symbols[0].name == "m" && symbols[1].name == "f" && symbols[2].name == "n" && symbols[3].name == "g"
    ensures StandsFor(symbols, Same(), "f") == Some(1) && StandsFor(symbols, Same(), "g") == Some(3)
  {
    assert Strip("f") == "f" by { assert Lstrip("f") == "f" && Rstrip("f") == "f"; }
    assert Strip("g") == "g" by { assert Lstrip("g") == "g" && Rstrip("g") == "g"; }
    assert LastFull(symbols, "g", 4) == Some(3);
    assert LastFull(symbols, "f", 2) == Some(1) && LastFull(symbols, "f", 3) == Some(1)
           && LastFull(symbols, "f", 4) == Some(1);
  }

  lemma CallsStored(symbols: seq<Symbol>, deps: seq<Dep>)
    requires StandsFor(symbols, Same(), "f") == Some(1) && StandsFor(symbols, Same(), "g") == Some(3)
    requires deps == [Dep("f", "g", "calls"), Dep("f", "g", "call_graph")]
    ensures Built(symbols, deps, Same()).edges == [Edge(2, 4, "calls"), Edge(2, 4, "call_graph")]
  {
    StoredEdgesInOrder(symbols, deps, Same());
    assert deps[1..] == [deps[1]] && [deps[1]][1..] == [];
    assert EdgesNamed(symbols, Same(), [deps[1]]) == [Edge(2, 4, "call_graph")];
  }

  lemma BothRead(details: Details)
    ensures var all := BothFiles(details);
            && |all| == 4 && all[0].file == all[1].file == "m" && all[2].file == all[3].file == "n"
            && StandsFor(all, Same(), "f") == Some(1) && StandsFor(all, Same(), "g") == Some(3)
    ensures BothEdges(details) == [Dep("f", "g", "calls"), Dep("f", "g", "call_graph")]
  {
    var caller, callee, all := CallerFile(details), CalleeFile(details), BothFiles(details);
    CallerRecorded(caller, CallerDef(), CallerBody());
    CalleeRecorded(details);
    CallNames(all);
    CallEnclosed(caller, all);
    CallCollected(caller, all, CallerDef(), CallerBody());
    CalleeDependsOnNothing(callee, all, CalleeDef(), CalleeDef().children[0], CalleeDef().children[1]);
  }

  /** `f` in one file calls `g` in another: the build over both files stores the call, and
      re-indexing the unchanged file of `g` loses it. */
  lemma IncomingCallLost(details: Details)
    ensures var t, src := Built(BothFiles(details), BothEdges(details), Same()), CalleeFile(details);
            && Indexable(src) && Filter(BothFiles(details), InFile("n")) == Extract(src)
            && t.edges == [Edge(2, 4, "calls"), Edge(2, 4, "call_graph")]
            && After(t, UpdateOf(src)).edges == []
            && !NothingEnters(t, "n")
  {
    var t, src := Built(BothFiles(details), BothEdges(details), Same()), CalleeFile(details);
    BothRead(details);
    CallsStored(BothFiles(details), BothEdges(details));
    BuiltWellFormed(BothFiles(details), BothEdges(details), Same());
    CallsEnter(t);
    CalleeShape(details);
    CalleeRecords(details);
    CalleeDependsOnNothing(src, Extract(src), CalleeDef(), CalleeDef().children[0], CalleeDef().children[1]);
    NothingAdded(t, UpdateOf(src));
  }

  lemma NothingAdded(t: Tables, u: Update)
    requires u.deps == []
    ensures After(t, u).edges == RemoveFile(t, u.path).edges
  {}

  lemma CallsEnter(t: Tables)
    requires WellFormed(t) && |t.nodes| == 4 && t.edges == [Edge(2, 4, "calls"), Edge(2, 4, "call_graph")]
    requires t.nodes[1].id == 2 && t.nodes[1].record.file == "m" && t.nodes[3].id == 4 && t.nodes[3].record.file == "n"
    ensures RemoveFile(t, "n").edges == [] && !NothingEnters(t, "n")
  {
    assert t.nodes[1] in t.nodes && t.nodes[3] in t.nodes;
    RowSurvives(t, "n", t.nodes[1]);
    RowSurvives(t, "n", t.nodes[3]);
    FilterNone(t.edges, Avoids(FileIds(t, "n")));
    assert t.edges[0] in t.edges;
  }

  lemma CalleeRecords(details: Details)
    ensures Filter(BothFiles(details), InFile("n")) == Extract(CalleeFile(details))
  {
    var caller, callee := Extract(CallerFile(details)), Extract(CalleeFile(details));
    ExtractedFromFile(CallerFile(details));
    ExtractedFromFile(CalleeFile(details));
    FilterAppend(caller, callee, InFile("n"));
    FilterAll(callee, InFile("n"));
    FilterNone(caller, InFile("n"));
  }
}
