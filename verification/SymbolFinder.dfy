/** Locating a definition for patching (editing/ast_patcher.py, _find_symbol_node) and its
    agreement with the index. */
module SymbolFinder {
  import opened Prelude
  import opened Text
  import opened Syntax
  import opened SymbolExtractor

  /** The test on a definition called `name` in the scope `parent`. */
  predicate Hit(symbol: string, parent: string, name: string) {
    symbol == QualifiedName(parent, name) || symbol == name || EndsWith(symbol, "." + name)
  }

  /** The search as written: body first, then all children, the body's again among them. */
  function Find(source: string, t: Tree, parent: string, symbol: string): Option<Tree>
    decreases t, 2
  {
    var name := DefName(t, source);
    if !Named(t, source) then FindAmong(source, t.children, parent, symbol)
    else if Hit(symbol, parent, name) then Some(t)
    else
      var inBody := FindInBody(source, t, QualifiedName(parent, name), symbol);
      if inBody.Some? then inBody else FindAmong(source, t.children, parent, symbol)
  }

  function FindInBody(source: string, t: Tree, scope: string, symbol: string): Option<Tree>
    decreases t, 1
  {
    match Field(t, "body")
    case None => None
    case Some(b) => assert b < t; FindAmong(source, b.children, scope, symbol)
  }

  function FindAmong(source: string, ts: seq<Tree>, parent: string, symbol: string): Option<Tree>
    decreases ts, 0
  {
    if ts == [] then None
    else
      var found := Find(source, ts[0], parent, symbol);
      if found.Some? then found else FindAmong(source, ts[1..], parent, symbol)
  }

  function FindSymbol(source: string, root: Tree, symbol: string): Option<Tree> {
    FindAmong(source, root.children, "", symbol)
  }

  // ------------------------------------------------------------ a search by last segment

  /** `n` is a definition whose own name is what `symbol` asks for; scopes play no part. */
  predicate Wanted(source: string, n: Tree, symbol: string) {
    Named(n, source) && (symbol == DefName(n, source) || EndsWith(symbol, "." + DefName(n, source)))
  }

  lemma HitIgnoresScope(source: string, n: Tree, parent: string, symbol: string)
    requires Named(n, source)
    ensures Hit(symbol, parent, DefName(n, source)) <==> Wanted(source, n, symbol)
  {
    var name := DefName(n, source);
    if symbol == QualifiedName(parent, name) && parent != "" {
      assert symbol == parent + ("." + name);
    }
  }

  /** For definition names without a dot, being wanted is having the last segment as name. */
  lemma WantedIsLastSegment(source: string, n: Tree, symbol: string)
    requires Named(n, source) && '.' !in DefName(n, source)
    ensures Wanted(source, n, symbol) <==> DefName(n, source) == LastSegment(symbol)
  {
    var name := DefName(n, source);
    if symbol == name { NoDot(symbol); }
    if EndsWith(symbol, "." + name) {
      var a := symbol[..|symbol| - |"." + name|];
      assert symbol == a + "." + name;
      LastSegmentOfSuffix(a, name);
      NoDot(name);
    }
    LastSegmentSplits(symbol);
  }

  function FirstWanted(source: string, nodes: seq<Tree>, symbol: string): Option<Tree> {
    if nodes == [] then None
    else if Wanted(source, nodes[0], symbol) then Some(nodes[0])
    else FirstWanted(source, nodes[1..], symbol)
  }

  lemma {:induction false} FirstWantedAppend(source: string, a: seq<Tree>, b: seq<Tree>, symbol: string)
    ensures FirstWanted(source, a + b, symbol)
            == if FirstWanted(source, a, symbol).Some? then FirstWanted(source, a, symbol)
               else FirstWanted(source, b, symbol)
    decreases |a|
  {
    if a == [] {
      assert a + b == b;
    } else {
      assert (a + b)[1..] == a[1..] + b;
      FirstWantedAppend(source, a[1..], b, symbol);
    }
  }

  lemma {:induction false} FirstWantedMembers(source: string, nodes: seq<Tree>, symbol: string)
    ensures var r := FirstWanted(source, nodes, symbol);
            && (r.Some? ==> r.value in nodes && Wanted(source, r.value, symbol))
            && (r.None? ==> forall n :: n in nodes ==> !Wanted(source, n, symbol))
  {
    if nodes != [] { FirstWantedMembers(source, nodes[1..], symbol); }
  }

  // ------------------------------------------------------------ the grammar's shape

  ghost predicate NoNamedDef(source: string, t: Tree) {
    forall n :: n in PreOrder(t) ==> !Named(n, source)
  }

  /** A definition keeps its inner definitions in its body, and the body is a block. */
  ghost predicate WellShaped(source: string, t: Tree) {
    && (forall c :: c in t.children ==> WellShaped(source, c))
    && (Named(t, source) ==> BodyHoldsDefs(source, t))
  }

  ghost predicate BodyHoldsDefs(source: string, t: Tree) {
    match Field(t, "body")
    case None => forall c :: c in t.children ==> NoNamedDef(source, c)
    case Some(b) =>
      && !IsDef(b)
      && forall i :: 0 <= i < |t.children| && i != t.fields["body"] ==> NoNamedDef(source, t.children[i])
  }

  function NamedIn(source: string): Tree -> bool {
    (t: Tree) => Named(t, source)
  }

  lemma NoneNamed(source: string, nodes: seq<Tree>)
    ensures Filter(nodes, NamedIn(source)) == [] <==> forall n :: n in nodes ==> !Named(n, source)
  {
    FilterMembers(nodes, NamedIn(source));
    if Filter(nodes, NamedIn(source)) != [] { assert Filter(nodes, NamedIn(source))[0] in nodes; }
    else { forall n | n in nodes ensures !Named(n, source) { assert n !in Filter(nodes, NamedIn(source)); } }
  }

  lemma {:induction false} NoChildNamed(source: string, ts: seq<Tree>)
    requires forall c :: c in ts ==> NoNamedDef(source, c)
    ensures Filter(PreOrders(ts), NamedIn(source)) == []
    decreases |ts|
  {
    if ts != [] {
      assert NoNamedDef(source, ts[0]);
      NoneNamed(source, PreOrder(ts[0]));
      NoChildNamed(source, ts[1..]);
      FilterAppend(PreOrder(ts[0]), PreOrders(ts[1..]), NamedIn(source));
    }
  }

  /** Only child `k` counts, if the others hold no named definition. */
  lemma {:induction false} OneChildNamed(source: string, ts: seq<Tree>, k: nat)
    requires k < |ts| && forall i :: 0 <= i < |ts| && i != k ==> NoNamedDef(source, ts[i])
    ensures Filter(PreOrders(ts), NamedIn(source)) == Filter(PreOrder(ts[k]), NamedIn(source))
    decreases |ts|
  {
    FilterAppend(PreOrder(ts[0]), PreOrders(ts[1..]), NamedIn(source));
    if k == 0 {
      NoChildNamed(source, ts[1..]);
    } else {
      NoneNamed(source, PreOrder(ts[0]));
      OneChildNamed(source, ts[1..], k - 1);
    }
  }

  lemma {:induction false} OnlyNamedWanted(source: string, nodes: seq<Tree>, symbol: string)
    ensures FirstWanted(source, nodes, symbol) == FirstWanted(source, Filter(nodes, NamedIn(source)), symbol)
  {
    if nodes != [] {
      OnlyNamedWanted(source, nodes[1..], symbol);
      var rest := Filter(nodes[1..], NamedIn(source));
      if Named(nodes[0], source) { assert ([nodes[0]] + rest)[1..] == rest; }
    }
  }

  lemma OnlyOneCounts(source: string, ts: seq<Tree>, k: nat, symbol: string)
    requires k < |ts| && forall i :: 0 <= i < |ts| && i != k ==> NoNamedDef(source, ts[i])
    ensures FirstWanted(source, PreOrders(ts), symbol) == FirstWanted(source, PreOrder(ts[k]), symbol)
  {
    OneChildNamed(source, ts, k);
    OnlyNamedWanted(source, PreOrders(ts), symbol);
    OnlyNamedWanted(source, PreOrder(ts[k]), symbol);
  }

  // ------------------------------------------------------------ the theorems

  lemma {:induction false} FindIsPreOrder(source: string, t: Tree, parent: string, symbol: string)
    requires WellShaped(source, t)
    ensures Find(source, t, parent, symbol) == FirstWanted(source, PreOrder(t), symbol)
    decreases t, 1
  {
    FindAmongIsPreOrder(source, t.children, parent, symbol);
    assert PreOrder(t)[1..] == PreOrders(t.children);
    if Named(t, source) {
      HitIgnoresScope(source, t, parent, symbol);
      match Field(t, "body")
      case None =>
      case Some(b) =>
        assert b < t;
        FindAmongIsPreOrder(source, b.children, QualifiedName(parent, DefName(t, source)), symbol);
        OnlyOneCounts(source, t.children, t.fields["body"], symbol);
        assert PreOrder(b)[1..] == PreOrders(b.children);
    }
  }

  lemma {:induction false} FindAmongIsPreOrder(source: string, ts: seq<Tree>, parent: string, symbol: string)
    requires forall c :: c in ts ==> WellShaped(source, c)
    ensures FindAmong(source, ts, parent, symbol) == FirstWanted(source, PreOrders(ts), symbol)
    decreases ts, 0
  {
    if ts != [] {
      FindIsPreOrder(source, ts[0], parent, symbol);
      FindAmongIsPreOrder(source, ts[1..], parent, symbol);
      FirstWantedAppend(source, PreOrder(ts[0]), PreOrders(ts[1..]), symbol);
    }
  }

  /** Main theorem: visiting bodies twice changes nothing: the search is one pre-order walk
      for the first definition called like the last segment of the symbol. */
  lemma FindSymbolIsPreOrder(source: string, root: Tree, symbol: string)
    requires WellShaped(source, root)
    ensures FindSymbol(source, root, symbol) == FirstWanted(source, PreOrders(root.children), symbol)
  {
    FindAmongIsPreOrder(source, root.children, "", symbol);
  }

  lemma {:induction false} FindSearchesAll(source: string, t: Tree, parent: string, symbol: string)
    ensures var r := Find(source, t, parent, symbol);
            && (r.Some? ==> r.value in PreOrder(t) && Wanted(source, r.value, symbol))
            && (r.None? ==> forall n :: n in PreOrder(t) ==> !Wanted(source, n, symbol))
    decreases t, 1
  {
    FindAmongSearchesAll(source, t.children, parent, symbol);
    if Named(t, source) {
      HitIgnoresScope(source, t, parent, symbol);
      match Field(t, "body")
      case None =>
      case Some(b) =>
        assert b < t;
        FindAmongSearchesAll(source, b.children, QualifiedName(parent, DefName(t, source)), symbol);
        ChildBelow(t, b);
    }
  }

  lemma {:induction false} FindAmongSearchesAll(source: string, ts: seq<Tree>, parent: string, symbol: string)
    ensures var r := FindAmong(source, ts, parent, symbol);
            && (r.Some? ==> r.value in PreOrders(ts) && Wanted(source, r.value, symbol))
            && (r.None? ==> forall n :: n in PreOrders(ts) ==> !Wanted(source, n, symbol))
    decreases ts, 0
  {
    if ts != [] {
      FindSearchesAll(source, ts[0], parent, symbol);
      FindAmongSearchesAll(source, ts[1..], parent, symbol);
    }
  }

  lemma IndexedIsWanted(src: Source, e: Emission)
    requires e in Definitions(src)
    ensures e.node in PreOrders(src.root.children) && Wanted(src.text, e.node, e.record.name)
  {
    EmitAllFromNodes(src, src.root.children, "");
    assert FromNode(src, PreOrders(src.root.children), e);
    var parent :| e.record.name == QualifiedName(parent, DefName(e.node, src.text));
    HitIgnoresScope(src.text, e.node, parent, e.record.name);
  }

  /** Main theorem: looking up any indexed definition finds a definition of the file with its
      last segment, and finds that very node if no other definition shares the segment. */
  lemma IndexedIsFound(src: Source, e: Emission)
    requires e in Definitions(src)
    ensures var found := FindSymbol(src.text, src.root, e.record.name);
            && found.Some? && found.value in PreOrders(src.root.children)
            && Wanted(src.text, found.value, e.record.name)
            && ((forall n :: n in PreOrders(src.root.children) && Wanted(src.text, n, e.record.name) ==> n == e.node)
                ==> found.value == e.node)
  {
    IndexedIsWanted(src, e);
    FindAmongSearchesAll(src.text, src.root.children, "", e.record.name);
  }

  /** `n` stands at position `k`, and nothing before it is wanted. */
  ghost predicate FirstAt(source: string, nodes: seq<Tree>, symbol: string, n: Tree, k: nat) {
    k < |nodes| && nodes[k] == n && forall i :: 0 <= i < k ==> !Wanted(source, nodes[i], symbol)
  }

  /** Exactly when the patcher edits the indexed node: no definition met earlier in the file
      has the same last segment. */
  lemma IndexedIsFoundIff(src: Source, e: Emission)
    requires WellShaped(src.text, src.root) && e in Definitions(src)
    ensures FindSymbol(src.text, src.root, e.record.name) == Some(e.node)
            <==> exists k :: FirstAt(src.text, PreOrders(src.root.children), e.record.name, e.node, k)
  {
    var nodes, name := PreOrders(src.root.children), e.record.name;
    IndexedIsWanted(src, e);
    FindSymbolIsPreOrder(src.text, src.root, name);
    if FirstWanted(src.text, nodes, name) == Some(e.node) { var k := WantedPosition(src.text, nodes, name, e.node); }
    if k :| FirstAt(src.text, nodes, name, e.node, k) { FirstIsWanted(src.text, nodes, name, e.node, k); }
  }

  lemma {:induction false} WantedPosition(source: string, nodes: seq<Tree>, symbol: string, n: Tree) returns (k: nat)
    requires FirstWanted(source, nodes, symbol) == Some(n)
    ensures FirstAt(source, nodes, symbol, n, k)
    decreases |nodes|
  {
    if Wanted(source, nodes[0], symbol) {
      k := 0;
    } else {
      var later := WantedPosition(source, nodes[1..], symbol, n);
      k := later + 1;
      forall i | 0 <= i < k ensures !Wanted(source, nodes[i], symbol) {
        if i > 0 { assert nodes[i] == nodes[1..][i - 1]; }
      }
    }
  }

  lemma {:induction false} FirstIsWanted(source: string, nodes: seq<Tree>, symbol: string, n: Tree, k: nat)
    requires FirstAt(source, nodes, symbol, n, k) && Wanted(source, n, symbol)
    ensures FirstWanted(source, nodes, symbol) == Some(n)
    decreases k
  {
    if k > 0 {
      var rest, before := nodes[1..], k - 1;
      assert rest[before] == n;
      forall i | 0 <= i < before ensures !Wanted(source, rest[i], symbol) { assert rest[i] == nodes[i + 1]; }
      assert !Wanted(source, nodes[0], symbol);
      FirstIsWanted(source, rest, symbol, n, before);
    }
  }
}
