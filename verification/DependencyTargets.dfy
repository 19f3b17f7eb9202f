/** What the collected edges lead to: the nodes they are read from, told by kinds and fields. */
module DependencyTargets {
  import opened Prelude
  import opened Text
  import opened Syntax
  import opened GraphStore
  import opened GraphBuilder
  import opened SymbolExtractor
  import opened DependencyExtractor

  // ------------------------------------------------------------ nodes and their targets

  predicate Reads(src: Source, t: Tree, x: string) {
    x != "" && Slice(src.text, t.startByte, t.endByte) == x
  }

  predicate FieldReads(src: Source, t: Tree, field: string, x: string) {
    Field(t, field).Some? && Reads(src, Field(t, field).value, x)
  }

  /** A call of `x(..)` or of `a.x(..)`. */
  predicate Calls(src: Source, n: Tree, x: string) {
    && n.kind == "call" && Field(n, "function").Some?
    && var f := Field(n, "function").value;
       (f.kind == "identifier" && Reads(src, f, x)) || (f.kind == "attribute" && FieldReads(src, f, "attribute", x))
  }

  /** A class with `x` among its bases. */
  predicate Inherits(src: Source, n: Tree, x: string) {
    && n.kind == "class_definition" && Field(n, "superclasses").Some?
    && exists c :: c in Field(n, "superclasses").value.children
                   && c.kind in {"identifier", "dotted_name", "attribute"} && Reads(src, c, x)
  }

  /** `x` is an identifier anywhere in the condition of an `if` or `while`, or in the iterable of a `for`. */
  predicate Tests(src: Source, n: Tree, x: string) {
    || (n.kind in {"if_statement", "while_statement"} && Field(n, "condition").Some?
        && Mentions(src, Field(n, "condition").value, x))
    || (n.kind == "for_statement" && Field(n, "iterable").Some? && Mentions(src, Field(n, "iterable").value, x))
  }

  predicate Mentions(src: Source, t: Tree, x: string) {
    exists m :: m in PreOrder(t) && m.kind == "identifier" && Reads(src, m, x)
  }

  /** An assignment to `x`, or to a pattern that starts with it. */
  predicate Assigns(src: Source, n: Tree, x: string) {
    && n.kind in {"assignment", "augmented_assignment"} && Field(n, "left").Some?
    && var l := Field(n, "left").value;
       || (l.kind == "identifier" && Reads(src, l, x))
       || (l.kind == "pattern" && l.children != [] && l.children[0].kind == "identifier"
           && Reads(src, l.children[0], x))
  }

  /** The module of a `from` import; empty for a relative one without a name. */
  function ModuleOf(src: Source, n: Tree): string {
    match Field(n, "module_name") case None => "" case Some(m) => Slice(src.text, m.startByte, m.endByte)
  }

  /** `y` is one of the names of an import; the module of a `from` import is not. */
  predicate ImportsName(src: Source, n: Tree, y: string) {
    && (n.kind == "import_from_statement" ==> y != ModuleOf(src, n))
    && exists c :: c in n.children && c.kind == "dotted_name" && Reads(src, c, y)
  }

  /** `import x`, `from m import y` for `m.y`, or a `from m import ..` without names for `m` itself. */
  ghost predicate Imports(src: Source, n: Tree, x: string) {
    || (n.kind == "import_statement" && ImportsName(src, n, x))
    || (n.kind == "import_from_statement" && ModuleOf(src, n) == "" && ImportsName(src, n, x))
    || (n.kind == "import_from_statement" && ModuleOf(src, n) != ""
        && exists y :: ImportsName(src, n, y) && x == ModuleOf(src, n) + "." + y)
    || (n.kind == "import_from_statement" && ModuleOf(src, n) != "" && x == ModuleOf(src, n)
        && forall y :: !ImportsName(src, n, y))
  }

  /** `d` is an edge read from `n`: where it leads by the kind of the edge, where it starts by the line. */
  ghost predicate Gives(src: Source, symbols: seq<Symbol>, n: Tree, d: Dep) {
    if d.relation == "inherits" then Inherits(src, n, d.target) && FieldReads(src, n, "name", d.source)
    else if d.relation in {"data_flow", "references"} then
      && d.source == Enclosing(src, symbols, n.startLine) && d.source != ""
      && if d.relation == "data_flow" then Assigns(src, n, d.target)
         else n.kind == "attribute" && FieldReads(src, n, "attribute", d.target)
    else
      && d.source == EnclosingOrModule(src, symbols, n.startLine)
      && if d.relation == "imports" then Imports(src, n, d.target)
         else if d.relation == "control_flow" then Tests(src, n, d.target)
         else d.relation in {"calls", "call_graph"} && Calls(src, n, d.target)
  }

  // ------------------------------------------------------------ lists

  lemma {:induction false} EdgesToMembers(source: string, targets: seq<string>, relation: string, d: Dep)
    ensures d in EdgesTo(source, targets, relation)
            <==> d.source == source && d.relation == relation && d.target in targets
  {
    if targets != [] { EdgesToMembers(source, targets[1..], relation, d); }
  }

  lemma {:induction false} EdgesToMap(source: string, targets: seq<string>, relation: string)
    ensures EdgesTo(source, targets, relation) == Map(targets, (x: string) => Dep(source, x, relation))
  {
    if targets != [] { EdgesToMap(source, targets[1..], relation); }
  }

  function Reading(src: Source): Tree -> string {
    (c: Tree) => TextOf(src, c)
  }

  function DottedName(src: Source, module_: string): Tree -> bool {
    (c: Tree) => c.kind == "dotted_name" && TextOf(src, c) != "" && TextOf(src, c) != module_
  }

  lemma {:induction false} DottedNamesMap(src: Source, ts: seq<Tree>, module_: string)
    ensures DottedNames(src, ts, module_) == Map(Filter(ts, DottedName(src, module_)), Reading(src))
  {
    if ts != [] { DottedNamesMap(src, ts[1..], module_); }
  }

  lemma {:induction false} QualifiedMap(names: seq<string>, module_: string)
    ensures Qualified(names, module_)
            == Map(names, (y: string) => if module_ == "" then y else module_ + "." + y)
  {
    if names != [] { QualifiedMap(names[1..], module_); }
  }

  function Base(src: Source): Tree -> bool {
    (c: Tree) => c.kind in {"identifier", "dotted_name", "attribute"} && TextOf(src, c) != ""
  }

  lemma {:induction false} BaseTargetsMap(src: Source, ts: seq<Tree>)
    ensures BaseTargets(src, ts) == Map(Filter(ts, Base(src)), Reading(src))
  {
    if ts != [] { BaseTargetsMap(src, ts[1..]); }
  }

  lemma MapMembers<T, U>(s: seq<T>, f: T -> U, y: U)
    ensures y in Map(s, f) <==> exists x :: x in s && f(x) == y
  {
    if y in Map(s, f) {
      var i :| 0 <= i < |s| && Map(s, f)[i] == y;
      assert s[i] in s;
    }
    if x :| x in s && f(x) == y {
      var i :| 0 <= i < |s| && s[i] == x;
      assert Map(s, f)[i] == y;
    }
  }

  /** The names a node of a condition adds: an identifier its own, a call that of its callee. */
  function NamesAt(src: Source): Tree -> seq<string> {
    (m: Tree) =>
      if m.kind == "identifier" then if TextOf(src, m) == "" then [] else [TextOf(src, m)]
      else if m.kind != "call" then []
      else
        match Field(m, "function")
        case None => []
        case Some(f) => if f.kind == "identifier" && TextOf(src, f) != "" then [TextOf(src, f)] else []
  }

  lemma {:induction false} FlattenMapAppend<T, U>(a: seq<T>, b: seq<T>, f: T -> seq<U>)
    ensures Flatten(Map(a + b, f)) == Flatten(Map(a, f)) + Flatten(Map(b, f))
  {
    if a == [] {
      assert a + b == b && Map(a, f) == [];
    } else {
      assert (a + b)[1..] == a[1..] + b;
      assert Map(a, f)[1..] == Map(a[1..], f) && Map(a + b, f)[1..] == Map(a[1..] + b, f);
      FlattenMapAppend(a[1..], b, f);
    }
  }

  lemma FlattenMapOne<T, U>(x: T, f: T -> seq<U>)
    ensures Flatten(Map([x], f)) == f(x)
  {
    assert Map([x], f) == [f(x)] && [f(x)][1..] == [];
  }

  lemma {:induction false} ConditionInOrder(src: Source, t: Tree)
    ensures ConditionTargets(src, t) == Flatten(Map(PreOrder(t), NamesAt(src)))
    decreases t, 1
  {
    ConditionsInOrder(src, t.children);
    OwnNames(src, t);
    FlattenMapAppend([t], PreOrders(t.children), NamesAt(src));
    FlattenMapOne(t, NamesAt(src));
  }

  lemma OwnNames(src: Source, t: Tree)
    ensures ConditionTargets(src, t) == NamesAt(src)(t) + ConditionTargetsIn(src, t.children)
  {}

  lemma {:induction false} ConditionsInOrder(src: Source, ts: seq<Tree>)
    ensures ConditionTargetsIn(src, ts) == Flatten(Map(PreOrders(ts), NamesAt(src)))
    decreases ts, 0
  {
    if ts != [] {
      ConditionInOrder(src, ts[0]);
      ConditionsInOrder(src, ts[1..]);
      FlattenMapAppend(PreOrder(ts[0]), PreOrders(ts[1..]), NamesAt(src));
    }
  }

  lemma {:induction false} InFlattenMap<T(!new), U>(s: seq<T>, f: T -> seq<U>, y: U)
    ensures y in Flatten(Map(s, f)) <==> exists x :: x in s && y in f(x)
  {
    if s != [] {
      assert Map(s, f)[1..] == Map(s[1..], f);
      InFlattenMap(s[1..], f, y);
      assert forall x :: x in s <==> x == s[0] || x in s[1..];
    }
  }

  /** A called name is an identifier below the call, so calls add no name of their own. */
  lemma ConditionMentions(src: Source, t: Tree, x: string)
    ensures x in ConditionTargets(src, t) <==> Mentions(src, t, x)
  {
    ConditionInOrder(src, t);
    InFlattenMap(PreOrder(t), NamesAt(src), x);
    forall m | m in PreOrder(t) && x in NamesAt(src)(m) ensures Mentions(src, t, x) { NamedBelow(src, t, m, x); }
    forall m | m in PreOrder(t) && m.kind == "identifier" && Reads(src, m, x) ensures x in NamesAt(src)(m) {}
  }

  lemma NamedBelow(src: Source, t: Tree, m: Tree, x: string)
    requires m in PreOrder(t) && x in NamesAt(src)(m)
    ensures Mentions(src, t, x)
  {
    if m.kind == "identifier" {
      assert Reads(src, m, x);
    } else {
      var f := Field(m, "function").value;
      assert Reads(src, f, x) && f.kind == "identifier";
      InPreOrders(m.children, f);
      assert f in PreOrder(f);
      BelowBelow(t, m, f);
    }
  }

  lemma {:induction false} BelowBelow(t: Tree, m: Tree, f: Tree)
    requires m in PreOrder(t) && f in PreOrder(m)
    ensures f in PreOrder(t)
    decreases t, 1
  {
    if m != t { BelowAll(t.children, m, f); }
  }

  lemma {:induction false} BelowAll(ts: seq<Tree>, m: Tree, f: Tree)
    requires m in PreOrders(ts) && f in PreOrder(m)
    ensures f in PreOrders(ts)
    decreases ts, 0
  {
    if m in PreOrder(ts[0]) { BelowBelow(ts[0], m, f); } else { BelowAll(ts[1..], m, f); }
  }

  // ------------------------------------------------------------ what an edge leads to

  lemma CallTargetsExact(src: Source, n: Tree, x: string)
    requires n.kind == "call"
    ensures x in CallTargets(src, n) <==> Calls(src, n, x)
    ensures |CallTargets(src, n)| <= 1
  {}

  lemma AssignmentTargetsExact(src: Source, n: Tree, x: string)
    requires n.kind == "assignment" || n.kind == "augmented_assignment"
    ensures x in AssignmentTargets(src, n) <==> Assigns(src, n, x)
    ensures |AssignmentTargets(src, n)| <= 1
  {}

  lemma InheritanceTargetsExact(src: Source, n: Tree, x: string)
    requires n.kind == "class_definition"
    ensures x in InheritanceTargets(src, n) <==> Inherits(src, n, x)
  {
    match Field(n, "superclasses")
    case None =>
    case Some(b) =>
      BaseTargetsMap(src, b.children);
      MapMembers(Filter(b.children, Base(src)), Reading(src), x);
      FilterMembers(b.children, Base(src));
  }

  lemma ControlTargetsExact(src: Source, n: Tree, x: string)
    requires n.kind in ["if_statement", "while_statement", "for_statement"]
    ensures x in ControlTargets(src, n) <==> Tests(src, n, x)
  {
    match Field(n, if n.kind == "for_statement" then "iterable" else "condition")
    case None =>
    case Some(c) => ConditionMentions(src, c, x);
  }

  lemma DottedNamesExact(src: Source, n: Tree, y: string)
    requires n.kind == "import_statement" || n.kind == "import_from_statement"
    ensures y in DottedNames(src, n.children, if n.kind == "import_statement" then "" else ModuleOf(src, n))
            <==> ImportsName(src, n, y)
  {
    var module_ := if n.kind == "import_statement" then "" else ModuleOf(src, n);
    DottedNamesMap(src, n.children, module_);
    MapMembers(Filter(n.children, DottedName(src, module_)), Reading(src), y);
    FilterMembers(n.children, DottedName(src, module_));
  }

  lemma QualifiedExact(names: seq<string>, module_: string, x: string)
    ensures x in Qualified(names, module_)
            <==> exists y :: y in names && x == if module_ == "" then y else module_ + "." + y
  {
    QualifiedMap(names, module_);
    MapMembers(names, (y: string) => if module_ == "" then y else module_ + "." + y, x);
  }

  /** Every qualified name begins with the module, so the module stands alone only for no names. */
  lemma ModuleAlone(src: Source, n: Tree)
    requires n.kind == "import_from_statement"
    ensures var m := ModuleOf(src, n); var names := DottedNames(src, n.children, m);
            ImportTargets(src, n) == if m != "" && names == [] then [m] else Qualified(names, m)
  {
    var m := ModuleOf(src, n);
    var names := DottedNames(src, n.children, m);
    if m != "" && names != [] {
      var first := m + "." + names[0];
      assert first in Qualified(names, m) && m <= first;
    }
  }

  lemma ImportTargetsExact(src: Source, n: Tree, x: string)
    requires n.kind == "import_statement" || n.kind == "import_from_statement"
    ensures x in ImportTargets(src, n) <==> Imports(src, n, x)
  {
    forall y { DottedNamesExact(src, n, y); }
    if n.kind == "import_from_statement" {
      var m := ModuleOf(src, n);
      var names := DottedNames(src, n.children, m);
      ModuleAlone(src, n);
      QualifiedExact(names, m, x);
      if names != [] { assert ImportsName(src, n, names[0]) by { assert names[0] in names; } }
    }
  }

  // Which branch of the walk a kind of node takes.

  lemma ImportNode(src: Source, symbols: seq<Symbol>, n: Tree)
    requires n.kind == "import_statement" || n.kind == "import_from_statement"
    ensures NodeEdges(src, symbols, n)
            == EdgesTo(EnclosingOrModule(src, symbols, n.startLine), ImportTargets(src, n), "imports")
  {}

  lemma ControlNode(src: Source, symbols: seq<Symbol>, n: Tree)
    requires n.kind in ["if_statement", "while_statement", "for_statement"]
    ensures NodeEdges(src, symbols, n)
            == EdgesTo(EnclosingOrModule(src, symbols, n.startLine), ControlTargets(src, n), "control_flow")
  {}

  lemma CallNode(src: Source, symbols: seq<Symbol>, n: Tree)
    requires n.kind == "call"
    ensures NodeEdges(src, symbols, n)
            == BothCalls(EnclosingOrModule(src, symbols, n.startLine), CallTargets(src, n))
  {}

  lemma GivesImport(src: Source, symbols: seq<Symbol>, n: Tree, d: Dep)
    requires n.kind == "import_statement" || n.kind == "import_from_statement"
    ensures Gives(src, symbols, n, d)
            <==> d.relation == "imports" && d.source == EnclosingOrModule(src, symbols, n.startLine)
                 && Imports(src, n, d.target)
  {}

  lemma GivesCall(src: Source, symbols: seq<Symbol>, n: Tree, d: Dep)
    requires n.kind == "call"
    ensures Gives(src, symbols, n, d)
            <==> d.relation in {"calls", "call_graph"} && d.source == EnclosingOrModule(src, symbols, n.startLine)
                 && Calls(src, n, d.target)
  {}

  lemma GivesTest(src: Source, symbols: seq<Symbol>, n: Tree, d: Dep)
    requires n.kind in ["if_statement", "while_statement", "for_statement"]
    ensures Gives(src, symbols, n, d)
            <==> d.relation == "control_flow" && d.source == EnclosingOrModule(src, symbols, n.startLine)
                 && Tests(src, n, d.target)
  {}

  lemma ImportEdgesExact(src: Source, symbols: seq<Symbol>, n: Tree, d: Dep)
    requires n.kind == "import_statement" || n.kind == "import_from_statement"
    ensures d in NodeEdges(src, symbols, n) <==> Gives(src, symbols, n, d)
  {
    ImportNode(src, symbols, n);
    GivesImport(src, symbols, n, d);
    EdgesToMembers(EnclosingOrModule(src, symbols, n.startLine), ImportTargets(src, n), "imports", d);
    ImportTargetsExact(src, n, d.target);
  }

  lemma CallEdgesExact(src: Source, symbols: seq<Symbol>, n: Tree, d: Dep)
    requires n.kind == "call"
    ensures d in NodeEdges(src, symbols, n) <==> Gives(src, symbols, n, d)
  {
    var source := EnclosingOrModule(src, symbols, n.startLine);
    CallNode(src, symbols, n);
    GivesCall(src, symbols, n, d);
    EdgesToMembers(source, CallTargets(src, n), "calls", d);
    EdgesToMembers(source, CallTargets(src, n), "call_graph", d);
    CallTargetsExact(src, n, d.target);
  }

  lemma ClassEdgesExact(src: Source, symbols: seq<Symbol>, n: Tree, d: Dep)
    requires n.kind == "class_definition"
    ensures d in NodeEdges(src, symbols, n) <==> Gives(src, symbols, n, d)
  {
    EdgesToMembers(DefName(n, src.text), InheritanceTargets(src, n), "inherits", d);
    InheritanceTargetsExact(src, n, d.target);
  }

  lemma ControlEdgesExact(src: Source, symbols: seq<Symbol>, n: Tree, d: Dep)
    requires n.kind in ["if_statement", "while_statement", "for_statement"]
    ensures d in NodeEdges(src, symbols, n) <==> Gives(src, symbols, n, d)
  {
    ControlNode(src, symbols, n);
    GivesTest(src, symbols, n, d);
    EdgesToMembers(EnclosingOrModule(src, symbols, n.startLine), ControlTargets(src, n), "control_flow", d);
    ControlTargetsExact(src, n, d.target);
  }

  lemma AssignmentEdgesExact(src: Source, symbols: seq<Symbol>, n: Tree, d: Dep)
    requires n.kind == "assignment" || n.kind == "augmented_assignment"
    ensures d in NodeEdges(src, symbols, n) <==> Gives(src, symbols, n, d)
  {
    EdgesToMembers(Enclosing(src, symbols, n.startLine), AssignmentTargets(src, n), "data_flow", d);
    AssignmentTargetsExact(src, n, d.target);
  }

  lemma AttributeEdgesExact(src: Source, symbols: seq<Symbol>, n: Tree, d: Dep)
    requires n.kind == "attribute"
    ensures d in NodeEdges(src, symbols, n) <==> Gives(src, symbols, n, d)
  {
    EdgesToMembers(Enclosing(src, symbols, n.startLine), NonEmpty(FieldText(src, n, "attribute")), "references", d);
  }

  predicate GivesEdges(kind: string) {
    || kind == "import_statement" || kind == "import_from_statement" || kind == "call" || kind == "class_definition"
    || kind in ["if_statement", "while_statement", "for_statement"]
    || kind == "assignment" || kind == "augmented_assignment" || kind == "attribute"
  }

  lemma SilentEdgesExact(src: Source, symbols: seq<Symbol>, n: Tree, d: Dep)
    requires !GivesEdges(n.kind)
    ensures d !in NodeEdges(src, symbols, n) && !Gives(src, symbols, n, d)
  {}

  /** One node: which edges are read from it. */
  lemma NodeEdgesExact(src: Source, symbols: seq<Symbol>, n: Tree, d: Dep)
    ensures d in NodeEdges(src, symbols, n) <==> Gives(src, symbols, n, d)
  {
    if !GivesEdges(n.kind) { SilentEdgesExact(src, symbols, n, d); }
    else if n.kind == "import_statement" || n.kind == "import_from_statement" { ImportEdgesExact(src, symbols, n, d); }
    else if n.kind == "call" { CallEdgesExact(src, symbols, n, d); }
    else if n.kind == "class_definition" { ClassEdgesExact(src, symbols, n, d); }
    else if n.kind == "attribute" { AttributeEdgesExact(src, symbols, n, d); }
    else if n.kind == "assignment" || n.kind == "augmented_assignment" { AssignmentEdgesExact(src, symbols, n, d); }
    else { ControlEdgesExact(src, symbols, n, d); }
  }

  /** Main theorem: the edges of a file are exactly those its nodes give. */
  lemma {:induction false} CollectedExact(src: Source, symbols: seq<Symbol>, t: Tree, d: Dep)
    ensures d in Collected(src, symbols, t) <==> exists n :: n in PreOrder(t) && Gives(src, symbols, n, d)
    decreases t, 1
  {
    NodeEdgesExact(src, symbols, t, d);
    CollectedInExact(src, symbols, t.children, d);
  }

  lemma {:induction false} CollectedInExact(src: Source, symbols: seq<Symbol>, ts: seq<Tree>, d: Dep)
    ensures d in CollectedIn(src, symbols, ts) <==> exists n :: n in PreOrders(ts) && Gives(src, symbols, n, d)
    decreases ts, 0
  {
    if ts != [] {
      CollectedExact(src, symbols, ts[0], d);
      CollectedInExact(src, symbols, ts[1..], d);
    }
  }

  // ------------------------------------------------------------ in which order, and how often

  function EdgesOf(src: Source, symbols: seq<Symbol>): Tree -> seq<Dep> {
    (n: Tree) => NodeEdges(src, symbols, n)
  }

  /** ... node by node, parents before children ... */
  lemma {:induction false} CollectedInOrder(src: Source, symbols: seq<Symbol>, t: Tree)
    ensures Collected(src, symbols, t) == Flatten(Map(PreOrder(t), EdgesOf(src, symbols)))
    decreases t, 1
  {
    ChildrenInOrder(src, symbols, t.children);
    FlattenMapAppend([t], PreOrders(t.children), EdgesOf(src, symbols));
    FlattenMapOne(t, EdgesOf(src, symbols));
  }

  lemma {:induction false} ChildrenInOrder(src: Source, symbols: seq<Symbol>, ts: seq<Tree>)
    ensures CollectedIn(src, symbols, ts) == Flatten(Map(PreOrders(ts), EdgesOf(src, symbols)))
    decreases ts, 0
  {
    if ts != [] {
      CollectedInOrder(src, symbols, ts[0]);
      ChildrenInOrder(src, symbols, ts[1..]);
      FlattenMapAppend(PreOrder(ts[0]), PreOrders(ts[1..]), EdgesOf(src, symbols));
    }
  }

  function Edges(source: string, targets: seq<string>, relation: string): seq<Dep> {
    Map(targets, (x: string) => Dep(source, x, relation))
  }

  /** ... and within a node in the order of its children: an import once per imported name ... */
  lemma ImportEdgesInOrder(src: Source, symbols: seq<Symbol>, n: Tree)
    requires n.kind == "import_statement" || n.kind == "import_from_statement"
    ensures var m := if n.kind == "import_statement" then "" else ModuleOf(src, n);
            var names := Map(Filter(n.children, DottedName(src, m)), Reading(src));
            NodeEdges(src, symbols, n)
            == Edges(EnclosingOrModule(src, symbols, n.startLine),
                     if m == "" then names else if names == [] then [m] else Map(names, Prefixed(m)), "imports")
  {
    var m := if n.kind == "import_statement" then "" else ModuleOf(src, n);
    var names := DottedNames(src, n.children, m);
    DottedNamesMap(src, n.children, m);
    ImportNode(src, symbols, n);
    EdgesToMap(EnclosingOrModule(src, symbols, n.startLine), ImportTargets(src, n), "imports");
    if n.kind == "import_from_statement" {
      ModuleAlone(src, n);
      QualifiedMap(names, m);
      assert Qualified(names, m) == if m == "" then names else Map(names, Prefixed(m));
    }
  }

  function Prefixed(m: string): string -> string {
    (y: string) => m + "." + y
  }

  /** ... a class once per base ... */
  lemma ClassEdgesInOrder(src: Source, symbols: seq<Symbol>, n: Tree)
    requires n.kind == "class_definition"
    ensures NodeEdges(src, symbols, n)
            == if Field(n, "superclasses").None? || DefName(n, src.text) == "" then []
               else Edges(DefName(n, src.text),
                          Map(Filter(Field(n, "superclasses").value.children, Base(src)), Reading(src)), "inherits")
  {
    EdgesToMap(DefName(n, src.text), InheritanceTargets(src, n), "inherits");
    if Field(n, "superclasses").Some? { BaseTargetsMap(src, Field(n, "superclasses").value.children); }
  }

  /** ... a condition once per identifier and once more per called one ... */
  lemma ControlEdgesInOrder(src: Source, symbols: seq<Symbol>, n: Tree)
    requires n.kind in ["if_statement", "while_statement", "for_statement"]
    ensures var c := Field(n, if n.kind == "for_statement" then "iterable" else "condition");
            NodeEdges(src, symbols, n)
            == if c.None? then []
               else Edges(EnclosingOrModule(src, symbols, n.startLine),
                          Flatten(Map(PreOrder(c.value), NamesAt(src))), "control_flow")
  {
    ControlNode(src, symbols, n);
    EdgesToMap(EnclosingOrModule(src, symbols, n.startLine), ControlTargets(src, n), "control_flow");
    var c := Field(n, if n.kind == "for_statement" then "iterable" else "condition");
    if c.Some? { ConditionInOrder(src, c.value); }
  }

  /** ... and a call twice. */
  lemma CallEdgesInOrder(src: Source, symbols: seq<Symbol>, n: Tree, x: string)
    requires Calls(src, n, x)
    ensures var source := EnclosingOrModule(src, symbols, n.startLine);
            NodeEdges(src, symbols, n) == [Dep(source, x, "calls"), Dep(source, x, "call_graph")]
  {
    CallNode(src, symbols, n);
    CallTargetsExact(src, n, x);
    assert CallTargets(src, n) == [x];
    EdgesToMap(EnclosingOrModule(src, symbols, n.startLine), [x], "calls");
    EdgesToMap(EnclosingOrModule(src, symbols, n.startLine), [x], "call_graph");
  }
}
