/** Collecting the dependency edges of a parsed file (repo_index/dependency_extractor.py). */
module DependencyExtractor {
  import opened Prelude
  import opened Text
  import opened Syntax
  import opened GraphStore
  import opened GraphBuilder
  import opened SymbolExtractor
  import opened Containment

  function TextOf(src: Source, t: Tree): string {
    Slice(src.text, t.startByte, t.endByte)
  }

  function FieldText(src: Source, t: Tree, field: string): string {
    match Field(t, field) case None => "" case Some(n) => TextOf(src, n)
  }

  /** The name of the innermost record around a line; empty if there is none. */
  function Enclosing(src: Source, symbols: seq<Symbol>, line: int): string {
    match FindContaining(line, src.path, symbols) case None => "" case Some(s) => s.name
  }

  function EnclosingOrModule(src: Source, symbols: seq<Symbol>, line: int): string {
    if Enclosing(src, symbols, line) != "" then Enclosing(src, symbols, line) else src.stem
  }

  function EdgesTo(source: string, targets: seq<string>, relation: string): seq<Dep> {
    if targets == [] then [] else [Dep(source, targets[0], relation)] + EdgesTo(source, targets[1..], relation)
  }

  function NonEmpty(s: string): seq<string> {
    if s == "" then [] else [s]
  }

  // ------------------------------------------------------------ targets by kind of node

  /** The texts of the dotted names among `ts` that are neither empty nor `module`. */
  function DottedNames(src: Source, ts: seq<Tree>, module_: string): seq<string> {
    if ts == [] then []
    else (if ts[0].kind == "dotted_name" && TextOf(src, ts[0]) != "" && TextOf(src, ts[0]) != module_ then
            [TextOf(src, ts[0])] else [])
         + DottedNames(src, ts[1..], module_)
  }

  function Qualified(names: seq<string>, module_: string): seq<string> {
    if names == [] then []
    else [if module_ != "" then module_ + "." + names[0] else names[0]] + Qualified(names[1..], module_)
  }

  function ImportTargets(src: Source, t: Tree): seq<string> {
    if t.kind == "import_statement" then DottedNames(src, t.children, "")
    else
      var module_ := FieldText(src, t, "module_name");
      var targets := Qualified(DottedNames(src, t.children, module_), module_);
      if module_ != "" && !exists x :: x in targets && module_ <= x then targets + [module_] else targets
  }

  function CallTargets(src: Source, t: Tree): seq<string> {
    match Field(t, "function")
    case None => []
    case Some(f) =>
      if f.kind == "identifier" then NonEmpty(TextOf(src, f))
      else if f.kind == "attribute" then NonEmpty(FieldText(src, f, "attribute"))
      else []
  }

  /** The identifiers and called names anywhere in a condition. */
  function ConditionTargets(src: Source, t: Tree): seq<string>
    decreases t, 1
  {
    var called := Field(t, "function");
    (if t.kind == "identifier" then NonEmpty(TextOf(src, t))
     else if t.kind == "call" && called.Some? && called.value.kind == "identifier" then
       NonEmpty(TextOf(src, called.value))
     else []) + ConditionTargetsIn(src, t.children)
  }

  function ConditionTargetsIn(src: Source, ts: seq<Tree>): seq<string>
    decreases ts, 0
  {
    if ts == [] then [] else ConditionTargets(src, ts[0]) + ConditionTargetsIn(src, ts[1..])
  }

  function ControlTargets(src: Source, t: Tree): seq<string> {
    match Field(t, if t.kind == "for_statement" then "iterable" else "condition")
    case None => []
    case Some(c) => ConditionTargets(src, c)
  }

  function AssignmentTargets(src: Source, t: Tree): seq<string> {
    match Field(t, "left")
    case None => []
    case Some(n) =>
      if n.kind == "identifier" then NonEmpty(TextOf(src, n))
      else if n.kind == "pattern" && n.children != [] && n.children[0].kind == "identifier" then
        NonEmpty(TextOf(src, n.children[0]))
      else []
  }

  function BaseTargets(src: Source, ts: seq<Tree>): seq<string> {
    if ts == [] then []
    else
      (if ts[0].kind in ["identifier", "dotted_name", "attribute"] then NonEmpty(TextOf(src, ts[0])) else [])
      + BaseTargets(src, ts[1..])
  }

  function InheritanceTargets(src: Source, t: Tree): seq<string> {
    match Field(t, "superclasses") case None => [] case Some(b) => BaseTargets(src, b.children)
  }

  // ------------------------------------------------------------ the walk

  /** Edges whose source may be empty are dropped when it is. */
  function EdgesIfNamed(source: string, targets: seq<string>, relation: string): seq<Dep> {
    if source == "" then [] else EdgesTo(source, targets, relation)
  }

  function BothCalls(source: string, targets: seq<string>): seq<Dep> {
    EdgesTo(source, targets, "calls") + EdgesTo(source, targets, "call_graph")
  }

  /** The edges a single node gives rise to. */
  function NodeEdges(src: Source, symbols: seq<Symbol>, t: Tree): seq<Dep> {
    var inside := Enclosing(src, symbols, t.startLine);
    var source := EnclosingOrModule(src, symbols, t.startLine);
    if t.kind == "import_statement" || t.kind == "import_from_statement" then
      EdgesTo(source, ImportTargets(src, t), "imports")
    else if t.kind == "call" then BothCalls(source, CallTargets(src, t))
    else if t.kind == "class_definition" then EdgesIfNamed(DefName(t, src.text), InheritanceTargets(src, t), "inherits")
    else if t.kind in ["if_statement", "while_statement", "for_statement"] then
      EdgesTo(source, ControlTargets(src, t), "control_flow")
    else if t.kind == "assignment" || t.kind == "augmented_assignment" then
      EdgesIfNamed(inside, AssignmentTargets(src, t), "data_flow")
    else if t.kind == "attribute" then EdgesIfNamed(inside, NonEmpty(FieldText(src, t, "attribute")), "references")
    else []
  }

  function Collected(src: Source, symbols: seq<Symbol>, t: Tree): seq<Dep>
    decreases t, 1
  {
    NodeEdges(src, symbols, t) + CollectedIn(src, symbols, t.children)
  }

  function CollectedIn(src: Source, symbols: seq<Symbol>, ts: seq<Tree>): seq<Dep>
    decreases ts, 0
  {
    if ts == [] then [] else Collected(src, symbols, ts[0]) + CollectedIn(src, symbols, ts[1..])
  }

  /** The walk extends one shared list. */
  class EdgeList {
    var edges: seq<Dep>

    constructor ()
      ensures edges == []
    {
      edges := [];
    }

    method Walk(src: Source, symbols: seq<Symbol>, t: Tree)
      modifies this
      ensures edges == old(edges) + Collected(src, symbols, t)
      decreases t, 1
    {
      ghost var before, own, below := edges, NodeEdges(src, symbols, t), CollectedIn(src, symbols, t.children);
      edges := edges + NodeEdges(src, symbols, t);
      WalkAll(src, symbols, t.children);
      Associative(before, own, below);
    }

    method WalkAll(src: Source, symbols: seq<Symbol>, ts: seq<Tree>)
      modifies this
      ensures edges == old(edges) + CollectedIn(src, symbols, ts)
      decreases ts, 0
    {
      if ts != [] {
        ghost var before, first, rest := edges, Collected(src, symbols, ts[0]), CollectedIn(src, symbols, ts[1..]);
        Walk(src, symbols, ts[0]);
        WalkAll(src, symbols, ts[1..]);
        Associative(before, first, rest);
      }
    }
  }

  method ExtractEdgesForFile(src: Source, symbols: seq<Symbol>) returns (edges: seq<Dep>)
    ensures edges == Collected(src, symbols, src.root)
  {
    var list := new EdgeList();
    list.Walk(src, symbols, src.root);
    edges := list.edges;
  }

  // ------------------------------------------------------------ where edges start

  /** `d` is an edge of node `n`: it starts at the class itself, or at the innermost record
      around the node's first line, or at the module if there is no such record. */
  predicate StartsAt(src: Source, symbols: seq<Symbol>, n: Tree, d: Dep) {
    if d.relation == "inherits" then
      n.kind == "class_definition" && Named(n, src.text) && d.source == DefName(n, src.text)
    else d.source == EnclosingOrModule(src, symbols, n.startLine)
  }

  lemma {:induction false} EdgesFrom(source: string, targets: seq<string>, relation: string)
    ensures forall d :: d in EdgesTo(source, targets, relation) ==> d.source == source && d.relation == relation
  {
    if targets != [] { EdgesFrom(source, targets[1..], relation); }
  }

  lemma NodeEdgesStart(src: Source, symbols: seq<Symbol>, t: Tree, d: Dep)
    requires d in NodeEdges(src, symbols, t)
    ensures StartsAt(src, symbols, t, d)
  {
    var inside, source := Enclosing(src, symbols, t.startLine), EnclosingOrModule(src, symbols, t.startLine);
    EdgesFrom(source, ImportTargets(src, t), "imports");
    EdgesFrom(source, CallTargets(src, t), "calls");
    EdgesFrom(source, CallTargets(src, t), "call_graph");
    EdgesFrom(DefName(t, src.text), InheritanceTargets(src, t), "inherits");
    EdgesFrom(source, ControlTargets(src, t), "control_flow");
    EdgesFrom(inside, AssignmentTargets(src, t), "data_flow");
    EdgesFrom(inside, NonEmpty(FieldText(src, t, "attribute")), "references");
  }

  lemma {:induction false} CollectedStart(src: Source, symbols: seq<Symbol>, t: Tree, d: Dep) returns (n: Tree)
    requires d in Collected(src, symbols, t)
    ensures n in PreOrder(t) && StartsAt(src, symbols, n, d)
    decreases t, 1
  {
    if d in NodeEdges(src, symbols, t) {
      n := t;
      NodeEdgesStart(src, symbols, t, d);
    } else {
      n := CollectedInStart(src, symbols, t.children, d);
    }
  }

  lemma {:induction false} CollectedInStart(src: Source, symbols: seq<Symbol>, ts: seq<Tree>, d: Dep) returns (n: Tree)
    requires d in CollectedIn(src, symbols, ts)
    ensures n in PreOrders(ts) && StartsAt(src, symbols, n, d)
    decreases ts, 0
  {
    if d in Collected(src, symbols, ts[0]) {
      n := CollectedStart(src, symbols, ts[0], d);
    } else {
      n := CollectedInStart(src, symbols, ts[1..], d);
    }
  }

  /** The record `r` is the innermost of its file around `line`, the first listed if several share its span. */
  ghost predicate Innermost(src: Source, r: Symbol, line: int) {
    && r in Extract(src) && Covers(r, line)
    && (forall s :: s in Extract(src) && Covers(s, line) ==> Inside(r, s))
    && FirstOfSpan(Extract(src), src.path, line, r)
  }

  /** Main theorem: every edge but inheritance starts at the innermost record around the line
      of the node it was read from, and at the module exactly if no record covers that line. */
  lemma EdgeStartsInnermost(src: Source, d: Dep) returns (n: Tree)
    requires LinesNested(src.root) && src.root.startLine >= 1 && SiblingsApart(src.text, src.root.children)
    requires d in Collected(src, Extract(src), src.root) && d.relation != "inherits"
    ensures n in PreOrder(src.root)
    ensures (exists r :: Innermost(src, r, n.startLine) && d.source == r.name)
            || (d.source == src.stem && forall s :: s in Extract(src) ==> !Covers(s, n.startLine))
  {
    n := CollectedStart(src, Extract(src), src.root, d);
    InnermostInFile(src, [], n.startLine);
    assert [] + Extract(src) == Extract(src);
    ExtractedFromFile(src);
    var r := FindContaining(n.startLine, src.path, Extract(src));
    if r.Some? { assert Innermost(src, r.value, n.startLine); }
  }
}
