/** Indexing the definitions of a parsed file (repo_index/symbol_extractor.py). */
module SymbolExtractor {
  import opened Prelude
  import opened Syntax
  import opened GraphStore

  /** What the record of a definition says beyond name and span; read off by foreign helpers. */
  datatype Details = Details(docstring: Tree -> string, typeInfo: Tree -> string, signature: (Tree, string) -> string)

  /** One parsed file: its resolved path, its stem, its text and its root node. */
  datatype Source = Source(path: string, stem: string, text: string, root: Tree, details: Details)

  /** A record together with the node it was made from. */
  datatype Emission = Emission(record: Symbol, node: Tree)

  function QualifiedName(parent: string, name: string): string {
    if parent == "" then name else parent + "." + name
  }

  function Record(src: Source, t: Tree, parent: string): Symbol {
    var name := DefName(t, src.text);
    var function_ := t.kind == "function_definition";
    Symbol(QualifiedName(parent, name),
           if !function_ then "class" else if parent == "" then "function" else "method",
           src.path, t.startLine, t.endLine, src.details.docstring(t),
           if function_ then src.details.typeInfo(t) else "{}",
           if function_ then src.details.signature(t, name) else "")
  }

  /** The definitions below `t`: those of a definition are looked for in its body only, and a
      definition without a name hides everything below it. */
  function Emit(src: Source, t: Tree, parent: string): seq<Emission>
    decreases t, 1
  {
    if !IsDef(t) then EmitAll(src, t.children, parent)
    else if DefName(t, src.text) == "" then []
    else [Emission(Record(src, t, parent), t)] + EmitBody(src, t, QualifiedName(parent, DefName(t, src.text)))
  }

  function EmitBody(src: Source, t: Tree, scope: string): seq<Emission>
    decreases t, 0
  {
    match Field(t, "body")
    case None => []
    case Some(b) => assert b < t; EmitAll(src, b.children, scope)
  }

  function EmitAll(src: Source, ts: seq<Tree>, parent: string): seq<Emission>
    decreases ts, 0
  {
    if ts == [] then [] else Emit(src, ts[0], parent) + EmitAll(src, ts[1..], parent)
  }

  function Records(es: seq<Emission>): seq<Symbol> {
    Map(es, (e: Emission) => e.record)
  }

  function ModuleRecords(src: Source): seq<Symbol> {
    if src.stem == "" || src.stem == "__init__" then []
    else [Symbol(src.stem, "module", src.path, 1, 1, "", "{}", "")]
  }

  function Definitions(src: Source): seq<Emission> {
    EmitAll(src, src.root.children, "")
  }

  function Extract(src: Source): seq<Symbol> {
    ModuleRecords(src) + Records(Definitions(src))
  }

  lemma RecordsCons(e: Emission, es: seq<Emission>)
    ensures Records([e] + es) == [e.record] + Records(es)
  {}

  lemma RecordsNamed(src: Source, t: Tree, parent: string)
    requires Named(t, src.text)
    ensures Records(Emit(src, t, parent))
            == [Record(src, t, parent)]
               + match Field(t, "body")
                 case None => []
                 case Some(b) => Records(EmitAll(src, b.children, QualifiedName(parent, DefName(t, src.text))))
  {
    RecordsCons(Emission(Record(src, t, parent), t), EmitBody(src, t, QualifiedName(parent, DefName(t, src.text))));
    assert Records([]) == [];
  }

  /** The walk appends to one shared list. */
  class SymbolList {
    var symbols: seq<Symbol>

    constructor (symbols: seq<Symbol>)
      ensures this.symbols == symbols
    {
      this.symbols := symbols;
    }

    method Visit(src: Source, t: Tree, parent: string)
      modifies this
      ensures symbols == old(symbols) + Records(Emit(src, t, parent))
      decreases t, 1
    {
      ghost var before := symbols;
      if IsDef(t) {
        var name := DefName(t, src.text);
        if name != "" {
          ghost var own := [Record(src, t, parent)];
          RecordsNamed(src, t, parent);
          symbols := symbols + [Record(src, t, parent)];
          var body := Field(t, "body");
          if body.Some? {
            VisitAll(src, body.value.children, QualifiedName(parent, name));
            Associative(before, own, Records(EmitAll(src, body.value.children, QualifiedName(parent, name))));
          } else {
            Associative(before, own, []);
          }
        } else {
          assert before + [] == before;
        }
      } else {
        VisitAll(src, t.children, parent);
      }
    }

    method VisitAll(src: Source, ts: seq<Tree>, parent: string)
      modifies this
      ensures symbols == old(symbols) + Records(EmitAll(src, ts, parent))
      decreases ts, 0
    {
      ghost var before := symbols;
      if ts != [] {
        Visit(src, ts[0], parent);
        VisitAll(src, ts[1..], parent);
        assert Records(EmitAll(src, ts, parent)) == Records(Emit(src, ts[0], parent))
               + Records(EmitAll(src, ts[1..], parent));
      }
    }
  }

  method ExtractSymbols(src: Source) returns (symbols: seq<Symbol>)
    ensures symbols == Extract(src)
  {
    var list := new SymbolList(ModuleRecords(src));
    list.VisitAll(src, src.root.children, "");
    symbols := list.symbols;
  }

  // ------------------------------------------------------------ facts about the records

  /** Every emission is a named definition node of the tree, recorded under its own lines, a
      name that ends in its own, a kind that tells classes, functions and methods apart, and
      what the helpers read off that very node. */
  ghost predicate FromNode(src: Source, nodes: seq<Tree>, e: Emission) {
    && e.node in nodes && Named(e.node, src.text)
    && e.record.file == src.path && e.record.startLine == e.node.startLine && e.record.endLine == e.node.endLine
    && (e.record.kind == "class" <==> e.node.kind == "class_definition")
    && (e.record.kind == "function"
        <==> e.node.kind == "function_definition" && e.record.name == DefName(e.node, src.text))
    && (e.record.kind == "method"
        <==> e.node.kind == "function_definition" && e.record.name != DefName(e.node, src.text))
    && e.record.docstring == src.details.docstring(e.node)
    && (e.node.kind == "class_definition" ==> e.record.typeInfo == "{}" && e.record.signature == "")
    && (e.node.kind == "function_definition" ==>
          && e.record.typeInfo == src.details.typeInfo(e.node)
          && e.record.signature == src.details.signature(e.node, DefName(e.node, src.text)))
    && exists parent :: e.record.name == QualifiedName(parent, DefName(e.node, src.text))
  }

  lemma DefinitionFromNode(src: Source, t: Tree, parent: string)
    requires Named(t, src.text)
    ensures FromNode(src, PreOrder(t), Emission(Record(src, t, parent), t))
  {
    var name, r := DefName(t, src.text), Record(src, t, parent);
    assert r.name == QualifiedName(parent, name);
    assert r.name == name <==> parent == "" by { assert parent != "" ==> |r.name| > |name|; }
  }

  lemma {:induction false} EmitFromNodes(src: Source, t: Tree, parent: string)
    ensures forall e :: e in Emit(src, t, parent) ==> FromNode(src, PreOrder(t), e)
    decreases t, 1
  {
    if !IsDef(t) {
      EmitAllFromNodes(src, t.children, parent);
    } else if Named(t, src.text) {
      var scope := QualifiedName(parent, DefName(t, src.text));
      var first := Emission(Record(src, t, parent), t);
      DefinitionFromNode(src, t, parent);
      match Field(t, "body")
      case None =>
      case Some(b) =>
        assert b < t;
        EmitAllFromNodes(src, b.children, scope);
        ChildBelow(t, b);
        var below := EmitAll(src, b.children, scope);
        assert Emit(src, t, parent) == [first] + below;
        forall e | e in below ensures FromNode(src, PreOrder(t), e) { assert FromNode(src, PreOrders(b.children), e); }
    }
  }

  lemma {:induction false} EmitAllFromNodes(src: Source, ts: seq<Tree>, parent: string)
    ensures forall e :: e in EmitAll(src, ts, parent) ==> FromNode(src, PreOrders(ts), e)
    decreases ts, 0
  {
    if ts != [] {
      EmitFromNodes(src, ts[0], parent);
      EmitAllFromNodes(src, ts[1..], parent);
    }
  }

  lemma {:induction false} InPreOrders(ts: seq<Tree>, c: Tree)
    requires c in ts
    ensures forall n :: n in PreOrder(c) ==> n in PreOrders(ts)
    decreases |ts|
  {
    if c != ts[0] { InPreOrders(ts[1..], c); }
  }

  /** What lies below a child lies below its parent. */
  lemma ChildBelow(t: Tree, c: Tree)
    requires c in t.children
    ensures forall n :: n in PreOrders(c.children) ==> n in PreOrder(t)
  {
    InPreOrders(t.children, c);
  }

  /** The module's own record comes first, unless the file has no stem or is a package's `__init__`. */
  lemma ModuleRecordFirst(src: Source)
    ensures src.stem !in {"", "__init__"} ==>
              Extract(src) != [] && Extract(src)[0] == Symbol(src.stem, "module", src.path, 1, 1, "", "{}", "")
    ensures forall i :: 0 <= i < |Extract(src)| && Extract(src)[i].kind == "module" ==>
              i == 0 && src.stem !in {"", "__init__"}
  {
    EmitAllFromNodes(src, src.root.children, "");
    forall s | s in Records(Definitions(src)) ensures s.kind != "module" {
      var i :| 0 <= i < |Definitions(src)| && Records(Definitions(src))[i] == s;
      assert Definitions(src)[i] in Definitions(src);
    }
    forall i | 0 <= i < |Records(Definitions(src))| ensures Records(Definitions(src))[i].kind != "module" {
      assert Records(Definitions(src))[i] in Records(Definitions(src));
    }
  }

  lemma ExtractedFromFile(src: Source)
    ensures forall s :: s in Extract(src) ==> s.file == src.path && s.name != ""
  {
    EmitAllFromNodes(src, src.root.children, "");
    forall s | s in Records(Definitions(src)) ensures s.file == src.path && s.name != "" {
      var i :| 0 <= i < |Definitions(src)| && Records(Definitions(src))[i] == s;
      assert Definitions(src)[i] in Definitions(src);
    }
  }
}
