/** Which definitions of a file the index records, and how their names nest. */
module IndexCoverage {
  import opened Prelude
  import opened Syntax
  import opened SymbolExtractor
  import opened SymbolFinder
  import opened SemanticDiff

  function NodesOf(es: seq<Emission>): seq<Tree> {
    Map(es, (e: Emission) => e.node)
  }

  lemma NodesAppend(a: seq<Emission>, b: seq<Emission>)
    ensures NodesOf(a + b) == NodesOf(a) + NodesOf(b)
  {}

  lemma NodesOne(e: Emission)
    ensures NodesOf([e]) == [e.node]
  {}

  // ------------------------------------------------------------ coverage

  /** A definition without a name that has named ones below it. */
  ghost predicate Hides(source: string, t: Tree) {
    IsDef(t) && !Named(t, source) && !NoNamedDef(source, t)
  }

  ghost predicate HidesNothing(source: string, ts: seq<Tree>) {
    forall n :: n in PreOrders(ts) ==> !Hides(source, n)
  }

  lemma {:induction false} BelowIsBelow(t: Tree, n: Tree, m: Tree)
    requires n in PreOrder(t) && m in PreOrder(n)
    ensures m in PreOrder(t)
    decreases t, 1
  {
    if n != t { BelowAmong(t.children, n, m); }
  }

  lemma {:induction false} BelowAmong(ts: seq<Tree>, n: Tree, m: Tree)
    requires n in PreOrders(ts) && m in PreOrder(n)
    ensures m in PreOrders(ts)
    decreases ts, 0
  {
    if n in PreOrder(ts[0]) { BelowIsBelow(ts[0], n, m); } else { BelowAmong(ts[1..], n, m); }
  }

  /** A tree without named definitions hides none. */
  lemma NothingToHide(source: string, t: Tree)
    requires NoNamedDef(source, t)
    ensures forall n :: n in PreOrder(t) ==> !Hides(source, n)
  {
    forall n | n in PreOrder(t) ensures !Hides(source, n) {
      forall m | m in PreOrder(n) ensures !Named(m, source) { BelowIsBelow(t, n, m); }
    }
  }

  /** The emitted nodes of `es` are all named nodes of `nodes`, or fewer. */
  ghost predicate Accounts(source: string, es: seq<Emission>, nodes: seq<Tree>, all: bool) {
    var wanted := Filter(nodes, NamedIn(source));
    |es| <= |wanted| && (NodesOf(es) == wanted <==> all)
  }

  lemma AccountsAppend(source: string, a: seq<Emission>, b: seq<Emission>, xs: seq<Tree>,
                       ys: seq<Tree>, p: bool, q: bool)
    requires Accounts(source, a, xs, p) && Accounts(source, b, ys, q)
    ensures Accounts(source, a + b, xs + ys, p && q)
  {
    var wx, wy := Filter(xs, NamedIn(source)), Filter(ys, NamedIn(source));
    FilterAppend(xs, ys, NamedIn(source));
    NodesAppend(a, b);
    if NodesOf(a) + NodesOf(b) == wx + wy {
      assert |a| == |wx| && |b| == |wy|;
      assert NodesOf(a) == (NodesOf(a) + NodesOf(b))[..|a|] == (wx + wy)[..|wx|] == wx;
      assert NodesOf(b) == (NodesOf(a) + NodesOf(b))[|a|..] == (wx + wy)[|wx|..] == wy;
    }
  }

  lemma {:induction false} OneChildHides(source: string, ts: seq<Tree>, k: nat)
    requires k < |ts| && forall i :: 0 <= i < |ts| && i != k ==> NoNamedDef(source, ts[i])
    ensures HidesNothing(source, ts) <==> forall n :: n in PreOrder(ts[k]) ==> !Hides(source, n)
    decreases |ts|
  {
    if k == 0 {
      NoChildHides(source, ts[1..]);
    } else {
      NothingToHide(source, ts[0]);
      OneChildHides(source, ts[1..], k - 1);
    }
  }

  lemma {:induction false} NoChildHides(source: string, ts: seq<Tree>)
    requires forall c :: c in ts ==> NoNamedDef(source, c)
    ensures HidesNothing(source, ts)
    decreases |ts|
  {
    if ts != [] {
      NothingToHide(source, ts[0]);
      NoChildHides(source, ts[1..]);
    }
  }

  lemma NamelessCovers(source: string, t: Tree)
    requires IsDef(t) && !Named(t, source)
    ensures Accounts(source, [], PreOrder(t), HidesNothing(source, [t]))
  {
    assert PreOrders([t]) == PreOrder(t) && PreOrder(t)[0] == t;
    NoneNamed(source, PreOrder(t));
    if NoNamedDef(source, t) { NothingToHide(source, t); } else { assert Hides(source, t); }
    assert NodesOf([]) == [];
  }

  lemma {:induction false} EmitCovers(src: Source, t: Tree, parent: string)
    requires WellShaped(src.text, t)
    ensures Accounts(src.text, Emit(src, t, parent), PreOrder(t), HidesNothing(src.text, [t]))
    decreases t, 1
  {
    var kids := t.children;
    assert PreOrders([t]) == PreOrder(t) == [t] + PreOrders(kids);
    if !IsDef(t) {
      EmitAllCovers(src, kids, parent);
      assert PreOrder(t)[1..] == PreOrders(kids);
    } else if DefName(t, src.text) == "" {
      NamelessCovers(src.text, t);
    } else {
      var below := EmitBody(src, t, QualifiedName(parent, DefName(t, src.text)));
      BodyCovers(src, t, QualifiedName(parent, DefName(t, src.text)));
      WithDefinition(src, t, parent, below);
    }
  }

  lemma WithDefinition(src: Source, t: Tree, parent: string, below: seq<Emission>)
    requires Named(t, src.text) && Accounts(src.text, below, PreOrders(t.children), HidesNothing(src.text, t.children))
    ensures Accounts(src.text, [Emission(Record(src, t, parent), t)] + below, PreOrder(t), HidesNothing(src.text, [t]))
  {
    var first := Emission(Record(src, t, parent), t);
    assert PreOrders([t]) == PreOrder(t) == [t] + PreOrders(t.children);
    NodesOne(first);
    assert NamedIn(src.text)(t) && [t][1..] == [];
    assert Filter([t], NamedIn(src.text)) == [t] + Filter([], NamedIn(src.text));
    assert Filter([t], NamedIn(src.text)) == [t];
    AccountsAppend(src.text, [first], below, [t], PreOrders(t.children), true, HidesNothing(src.text, t.children));
  }

  lemma {:induction false} BodyCovers(src: Source, t: Tree, scope: string)
    requires WellShaped(src.text, t) && Named(t, src.text)
    ensures Accounts(src.text, EmitBody(src, t, scope), PreOrders(t.children), HidesNothing(src.text, t.children))
    decreases t, 0
  {
    match Field(t, "body")
    case None =>
      NoChildNamed(src.text, t.children);
      NoChildHides(src.text, t.children);
      assert NodesOf([]) == [];
    case Some(b) =>
      assert b < t;
      EmitAllCovers(src, b.children, scope);
      OneChildNamed(src.text, t.children, t.fields["body"]);
      OneChildHides(src.text, t.children, t.fields["body"]);
      assert PreOrder(b) == [b] + PreOrders(b.children) && PreOrder(b)[1..] == PreOrders(b.children);
  }

  lemma {:induction false} EmitAllCovers(src: Source, ts: seq<Tree>, parent: string)
    requires forall c :: c in ts ==> WellShaped(src.text, c)
    ensures Accounts(src.text, EmitAll(src, ts, parent), PreOrders(ts), HidesNothing(src.text, ts))
    decreases ts, 0
  {
    if ts != [] {
      var first, rest := ts[0], ts[1..];
      EmitCovers(src, first, parent);
      EmitAllCovers(src, rest, parent);
      assert PreOrders([first]) == PreOrder(first);
      AccountsAppend(src.text, Emit(src, first, parent), EmitAll(src, rest, parent), PreOrder(first), PreOrders(rest),
                   HidesNothing(src.text, [first]), HidesNothing(src.text, rest));
    } else {
      assert NodesOf([]) == [];
    }
  }

  /** Main theorem: the index records every named definition of the file exactly once and in
      source order, if and only if no definition without a name has named ones below it. */
  lemma IndexIsCompleteIff(src: Source)
    requires WellShaped(src.text, src.root)
    ensures NodesOf(Definitions(src)) == Filter(PreOrders(src.root.children), NamedIn(src.text))
            <==> HidesNothing(src.text, src.root.children)
  {
    EmitAllCovers(src, src.root.children, "");
  }

  // ------------------------------------------------------------ names nest like definitions

  lemma {:induction false} EmittedInside(src: Source, t: Tree, parent: string)
    requires parent != ""
    ensures forall e :: e in Emit(src, t, parent) ==> parent + "." <= e.record.name
    decreases t, 1
  {
    if !IsDef(t) {
      EmittedAllInside(src, t.children, parent);
    } else if Named(t, src.text) {
      var scope := QualifiedName(parent, DefName(t, src.text));
      match Field(t, "body")
      case None =>
      case Some(b) =>
        assert b < t;
        EmittedAllInside(src, b.children, scope);
    }
  }

  lemma {:induction false} EmittedAllInside(src: Source, ts: seq<Tree>, parent: string)
    requires parent != ""
    ensures forall e :: e in EmitAll(src, ts, parent) ==> parent + "." <= e.record.name
    decreases ts, 0
  {
    if ts != [] {
      EmittedInside(src, ts[0], parent);
      EmittedAllInside(src, ts[1..], parent);
    }
  }

  /** Main theorem: everything recorded from inside a definition overlaps it by name, so that
      changes to a definition and to one nested in it are reported as a semantic overlap. */
  lemma NestedDefinitionsOverlap(src: Source, t: Tree, parent: string, e: Emission)
    requires Named(t, src.text)
    requires e in EmitBody(src, t, QualifiedName(parent, DefName(t, src.text)))
    ensures Record(src, t, parent).name + "." <= e.record.name
    ensures SymbolsOverlap(Record(src, t, parent).name, e.record.name)
    ensures Segments(Record(src, t, parent).name) < Segments(e.record.name)
  {
    var outer := Record(src, t, parent).name;
    match Field(t, "body")
    case None =>
    case Some(b) =>
      EmittedAllInside(src, b.children, outer);
      NestedNames(outer, e.record.name);
  }

  lemma NestedNames(outer: string, inner: string)
    requires outer != "" && outer + "." <= inner
    ensures SymbolsOverlap(outer, inner) && Segments(outer) < Segments(inner)
  {
    var rest := inner[|outer| + 1..];
    assert inner == outer + "." + rest;
    SegmentsAppend(outer, rest);
  }

  // ------------------------------------------------------------ qualified names

  /** Named definitions, each in the body of the one before; the last is `n`. */
  ghost predicate Chain(source: string, chain: seq<Tree>, n: Tree) {
    && chain != [] && chain[|chain| - 1] == n && (forall c :: c in chain ==> Named(c, source))
    && forall i :: 0 <= i < |chain| - 1 ==> InBody(chain[i], chain[i + 1])
  }

  predicate InBody(t: Tree, n: Tree) {
    match Field(t, "body") case None => false case Some(b) => n in PreOrders(b.children)
  }

  /** The names along a chain, joined by dots. */
  function ScopedName(source: string, chain: seq<Tree>): string
    requires chain != []
  {
    DefName(chain[0], source) + if |chain| == 1 then "" else "." + ScopedName(source, chain[1..])
  }

  /** A record is called after the definitions around its node, from outside in. */
  ghost predicate NamedAlong(source: string, nodes: seq<Tree>, parent: string, e: Emission) {
    exists chain :: Chain(source, chain, e.node) && chain[0] in nodes
                    && e.record.name == QualifiedName(parent, ScopedName(source, chain))
  }

  lemma ChainLonger(source: string, t: Tree, body: Tree, chain: seq<Tree>, n: Tree, longer: seq<Tree>)
    requires Named(t, source) && Field(t, "body") == Some(body) && Chain(source, chain, n)
    requires chain[0] in PreOrders(body.children) && longer == [t] + chain
    ensures Chain(source, longer, n)
    ensures ScopedName(source, longer) == DefName(t, source) + ("." + ScopedName(source, chain))
  {
    assert longer[1..] == chain;
    forall i | 0 <= i < |longer| - 1 ensures InBody(longer[i], longer[i + 1]) {
      if i > 0 { assert InBody(chain[i - 1], chain[i]); }
    }
    forall c | c in longer ensures Named(c, source) { assert c == t || c in chain; }
  }

  lemma QualifiedTwice(parent: string, name: string, rest: string)
    requires name != ""
    ensures QualifiedName(QualifiedName(parent, name), rest) == QualifiedName(parent, name + ("." + rest))
  {
    if parent != "" { Associative(parent + ".", name, "." + rest); }
  }

  lemma NamedAlongLonger(source: string, t: Tree, body: Tree, parent: string, e: Emission)
    requires Named(t, source) && Field(t, "body") == Some(body)
    requires NamedAlong(source, PreOrders(body.children), QualifiedName(parent, DefName(t, source)), e)
    ensures NamedAlong(source, PreOrder(t), parent, e)
  {
    var chain :| Chain(source, chain, e.node) && chain[0] in PreOrders(body.children)
                 && e.record.name
                    == QualifiedName(QualifiedName(parent, DefName(t, source)), ScopedName(source, chain));
    var longer := [t] + chain;
    ChainLonger(source, t, body, chain, e.node, longer);
    QualifiedTwice(parent, DefName(t, source), ScopedName(source, chain));
    assert longer[0] in PreOrder(t);
  }

  lemma {:induction false} EmitNamedAlong(src: Source, t: Tree, parent: string)
    ensures forall e :: e in Emit(src, t, parent) ==> NamedAlong(src.text, PreOrder(t), parent, e)
    decreases t, 1
  {
    if !IsDef(t) {
      EmitAllNamedAlong(src, t.children, parent);
      assert forall n :: n in PreOrders(t.children) ==> n in PreOrder(t);
    } else if Named(t, src.text) {
      var scope := QualifiedName(parent, DefName(t, src.text));
      var first := Emission(Record(src, t, parent), t);
      assert Chain(src.text, [t], t) && ScopedName(src.text, [t]) == DefName(t, src.text);
      match Field(t, "body")
      case None =>
      case Some(b) =>
        assert b < t;
        EmitAllNamedAlong(src, b.children, scope);
        assert Emit(src, t, parent) == [first] + EmitAll(src, b.children, scope);
        forall e | e in EmitAll(src, b.children, scope) ensures NamedAlong(src.text, PreOrder(t), parent, e) {
          NamedAlongLonger(src.text, t, b, parent, e);
        }
    }
  }

  lemma {:induction false} EmitAllNamedAlong(src: Source, ts: seq<Tree>, parent: string)
    ensures forall e :: e in EmitAll(src, ts, parent) ==> NamedAlong(src.text, PreOrders(ts), parent, e)
    decreases ts, 0
  {
    if ts != [] {
      EmitNamedAlong(src, ts[0], parent);
      EmitAllNamedAlong(src, ts[1..], parent);
    }
  }

  /** Main theorem: every record is called after the definitions its node lies in, from outside in. */
  lemma NamesAreScopes(src: Source, e: Emission)
    requires e in Definitions(src)
    ensures NamedAlong(src.text, PreOrders(src.root.children), "", e)
  {
    EmitAllNamedAlong(src, src.root.children, "");
  }
}
