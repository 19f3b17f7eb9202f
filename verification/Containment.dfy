/** Innermost-enclosing lookup over the indexed spans (repo_index/dependency_extractor.py). */
module Containment {
  import opened Prelude
  import opened Syntax
  import opened GraphStore
  import opened SymbolExtractor

  predicate Covers(s: Symbol, line: int) {
    s.startLine <= line <= s.endLine
  }

  /** The span of `a` lies inside the span of `b`. */
  predicate Inside(a: Symbol, b: Symbol) {
    b.startLine <= a.startLine && a.endLine <= b.endLine
  }

  predicate Apart(a: Symbol, b: Symbol) {
    a.endLine < b.startLine || b.endLine < a.startLine
  }

  /** Sort key: the size of the span, then its start. */
  predicate KeyLess(a: Symbol, b: Symbol) {
    a.endLine - a.startLine < b.endLine - b.startLine
    || (a.endLine - a.startLine == b.endLine - b.startLine && a.startLine < b.startLine)
  }

  function CoveringInFile(path: string, line: int): Symbol -> bool {
    (s: Symbol) => s.file == path && Covers(s, line)
  }

  /** First element of the stable sort by key. */
  function FirstSorted(cs: seq<Symbol>): (r: Symbol)
    requires cs != []
    ensures r in cs && forall c :: c in cs ==> !KeyLess(c, r)
  {
    if |cs| == 1 then cs[0]
    else
      var rest := FirstSorted(cs[1..]);
      assert forall c :: c in cs <==> c == cs[0] || c in cs[1..];
      if KeyLess(rest, cs[0]) then rest else cs[0]
  }

  /** The symbol whose name `_find_containing_symbol` returns. */
  function FindContaining(line: int, path: string, symbols: seq<Symbol>): Option<Symbol> {
    var candidates := Filter(symbols, CoveringInFile(path, line));
    if candidates == [] then None else Some(FirstSorted(candidates))
  }

  ghost predicate Laminar(symbols: seq<Symbol>, path: string) {
    forall a, b :: a in symbols && b in symbols && a.file == path && b.file == path ==>
                     Inside(a, b) || Inside(b, a) || Apart(a, b)
  }

  /** Of several records with its span, `r` is the one listed first. */
  ghost predicate FirstOfSpan(symbols: seq<Symbol>, path: string, line: int, r: Symbol) {
    exists i :: 0 <= i < |symbols| && symbols[i] == r
                && forall j :: 0 <= j < i && symbols[j].file == path && Covers(symbols[j], line) ==>
                                 !Inside(symbols[j], r)
  }

  /** The sort is stable: what stands before the first of the sorted list has a greater key. */
  lemma {:induction false} FirstSortedIsFirst(cs: seq<Symbol>) returns (i: nat)
    requires cs != []
    ensures i < |cs| && cs[i] == FirstSorted(cs) && forall j :: 0 <= j < i ==> KeyLess(cs[i], cs[j])
    decreases |cs|
  {
    i := 0;
    if |cs| > 1 {
      var rest := FirstSorted(cs[1..]);
      if KeyLess(rest, cs[0]) {
        i := FirstSortedIsFirst(cs[1..]);
        i := i + 1;
      }
    }
  }

  /** Selection keeps the order. */
  lemma {:induction false} PositionOfSelected(symbols: seq<Symbol>, p: Symbol -> bool, k: nat) returns (i: nat)
    requires k < |Filter(symbols, p)|
    ensures i < |symbols| && symbols[i] == Filter(symbols, p)[k]
    ensures forall j :: 0 <= j < i && p(symbols[j]) ==> symbols[j] in Filter(symbols, p)[..k]
    decreases |symbols|
  {
    var all, rest := Filter(symbols, p), Filter(symbols[1..], p);
    if p(symbols[0]) && k == 0 {
      i := 0;
    } else if p(symbols[0]) {
      var at := PositionOfSelected(symbols[1..], p, k - 1);
      i := at + 1;
      forall j | 0 <= j < i && p(symbols[j]) ensures symbols[j] in all[..k] {
        assert all[..k][0] == symbols[0] && all[..k][1..] == rest[..k - 1];
        if j > 0 { assert symbols[j] == symbols[1..][j - 1]; }
      }
    } else {
      var at := PositionOfSelected(symbols[1..], p, k);
      i := at + 1;
      forall j | 0 <= j < i && p(symbols[j]) ensures symbols[j] in all[..k] {
        if j > 0 { assert symbols[j] == symbols[1..][j - 1]; }
      }
    }
  }

  lemma LookupIsFirstOfSpan(line: int, path: string, symbols: seq<Symbol>)
    ensures var r := FindContaining(line, path, symbols);
            r.Some? ==> FirstOfSpan(symbols, path, line, r.value)
  {
    var p := CoveringInFile(path, line);
    var candidates := Filter(symbols, p);
    if candidates != [] {
      var k := FirstSortedIsFirst(candidates);
      var i := PositionOfSelected(symbols, p, k);
      forall j | 0 <= j < i && p(symbols[j]) ensures !Inside(symbols[j], symbols[i]) {
        var m :| 0 <= m < k && candidates[..k][m] == symbols[j];
        assert KeyLess(candidates[k], candidates[m]);
      }
    }
  }

  /** On spans that are pairwise nested or disjoint the lookup is the innermost one. */
  lemma LaminarLookup(line: int, path: string, symbols: seq<Symbol>)
    requires Laminar(symbols, path)
    ensures var r := FindContaining(line, path, symbols);
            && (r.None? <==> forall s :: s in symbols && s.file == path ==> !Covers(s, line))
            && (r.Some? ==>
                  && r.value in symbols && r.value.file == path && Covers(r.value, line)
                  && (forall s :: s in symbols && s.file == path && Covers(s, line) ==> Inside(r.value, s))
                  && FirstOfSpan(symbols, path, line, r.value))
  {
    LookupIsFirstOfSpan(line, path, symbols);
    FilterMembers(symbols, CoveringInFile(path, line));
    var candidates := Filter(symbols, CoveringInFile(path, line));
    if candidates == [] {
      forall s | s in symbols && s.file == path ensures !Covers(s, line) { assert s !in candidates; }
    }
  }

  // ------------------------------------------------------------ spans of a parsed file

  ghost predicate HasDef(source: string, t: Tree) {
    exists n :: n in PreOrder(t) && Named(n, source)
  }

  /** Children lie within the lines of their parent. */
  predicate LinesNested(t: Tree) {
    t.startLine <= t.endLine
    && forall c :: c in t.children ==> t.startLine <= c.startLine && c.endLine <= t.endLine && LinesNested(c)
  }

  /** Sibling subtrees that both hold definitions do not share a line. */
  ghost predicate SiblingsApart(source: string, ts: seq<Tree>) {
    && (forall i, j :: 0 <= i < j < |ts| && HasDef(source, ts[i]) && HasDef(source, ts[j]) ==>
                         ts[i].endLine < ts[j].startLine)
    && (forall c :: c in ts ==> SiblingsApart(source, c.children))
  }

  ghost predicate Within(es: seq<Emission>, low: int, high: int) {
    forall e :: e in es ==> low <= e.record.startLine <= e.record.endLine <= high
  }

  ghost predicate LaminarEmissions(es: seq<Emission>) {
    forall a, b :: a in es && b in es ==>
      Inside(a.record, b.record) || Inside(b.record, a.record) || Apart(a.record, b.record)
  }

  lemma {:induction false} EmitWithin(src: Source, t: Tree, parent: string)
    requires LinesNested(t)
    ensures Within(Emit(src, t, parent), t.startLine, t.endLine)
    decreases t, 1
  {
    if !IsDef(t) {
      EmitAllWithin(src, t.children, parent, t.startLine, t.endLine);
    } else {
      match Field(t, "body")
      case None =>
      case Some(b) =>
        assert b < t;
        EmitAllWithin(src, b.children, QualifiedName(parent, DefName(t, src.text)), t.startLine, t.endLine);
    }
  }

  lemma {:induction false} EmitAllWithin(src: Source, ts: seq<Tree>, parent: string, low: int, high: int)
    requires forall c :: c in ts ==> LinesNested(c) && low <= c.startLine && c.endLine <= high
    ensures Within(EmitAll(src, ts, parent), low, high)
    decreases ts, 0
  {
    if ts != [] {
      EmitWithin(src, ts[0], parent);
      EmitAllWithin(src, ts[1..], parent, low, high);
    }
  }

  lemma EmitNeedsDef(src: Source, t: Tree, parent: string, e: Emission)
    requires e in Emit(src, t, parent)
    ensures HasDef(src.text, t)
  {
    EmitFromNodes(src, t, parent);
    assert FromNode(src, PreOrder(t), e);
  }

  lemma {:induction false} EmitLaminar(src: Source, t: Tree, parent: string)
    requires LinesNested(t) && SiblingsApart(src.text, t.children)
    ensures LaminarEmissions(Emit(src, t, parent))
    decreases t, 1
  {
    if !IsDef(t) {
      EmitAllLaminar(src, t.children, parent);
    } else if Named(t, src.text) {
      var scope := QualifiedName(parent, DefName(t, src.text));
      match Field(t, "body")
      case None =>
      case Some(b) =>
        assert b < t;
        EmitAllLaminar(src, b.children, scope);
        EmitAllWithin(src, b.children, scope, t.startLine, t.endLine);
    }
  }

  lemma {:induction false} EmitAllLaminar(src: Source, ts: seq<Tree>, parent: string)
    requires SiblingsApart(src.text, ts) && forall c :: c in ts ==> LinesNested(c)
    ensures LaminarEmissions(EmitAll(src, ts, parent))
    decreases ts, 0
  {
    if ts != [] {
      var first, rest := Emit(src, ts[0], parent), EmitAll(src, ts[1..], parent);
      EmitLaminar(src, ts[0], parent);
      EmitAllLaminar(src, ts[1..], parent);
      EmitWithin(src, ts[0], parent);
      forall a, b | a in first && b in rest ensures Apart(a.record, b.record) {
        EmitNeedsDef(src, ts[0], parent, a);
        LaterStartsLater(src, ts[1..], ts[0].endLine, parent, b);
      }
    }
  }

  /** Siblings that start below `bound` wherever they hold definitions emit below `bound`. */
  lemma {:induction false} LaterStartsLater(src: Source, ts: seq<Tree>, bound: int, parent: string, b: Emission)
    requires forall c :: c in ts ==> LinesNested(c) && (HasDef(src.text, c) ==> bound < c.startLine)
    requires b in EmitAll(src, ts, parent)
    ensures bound < b.record.startLine
    decreases |ts|
  {
    if b in Emit(src, ts[0], parent) {
      EmitNeedsDef(src, ts[0], parent, b);
      EmitWithin(src, ts[0], parent);
    } else {
      LaterStartsLater(src, ts[1..], bound, parent, b);
    }
  }

  /** Main theorem: with the records of a parsed file among them, in which sibling
      definitions do not share a line, the lookup returns nothing exactly when no record of
      the file covers the line, and otherwise a record that does and whose span lies inside
      every other such span. The module record, on line 1, is no exception. */
  lemma InnermostInFile(src: Source, others: seq<Symbol>, line: int)
    requires LinesNested(src.root) && src.root.startLine >= 1 && SiblingsApart(src.text, src.root.children)
    requires forall s :: s in others ==> s.file != src.path
    ensures var symbols := others + Extract(src); var r := FindContaining(line, src.path, symbols);
            && (r.None? <==> forall s :: s in Extract(src) ==> !Covers(s, line))
            && (r.Some? ==>
                  && r.value in Extract(src) && Covers(r.value, line)
                  && (forall s :: s in Extract(src) && Covers(s, line) ==> Inside(r.value, s))
                  && FirstOfSpan(symbols, src.path, line, r.value))
  {
    var symbols := others + Extract(src);
    EmitAllLaminar(src, src.root.children, "");
    EmitAllWithin(src, src.root.children, "", 1, src.root.endLine);
    ExtractedFromFile(src);
    forall a, b | a in Extract(src) && b in Extract(src) ensures Inside(a, b) || Inside(b, a) || Apart(a, b) {
      RecordOrigin(src, a);
      RecordOrigin(src, b);
    }
    LaminarLookup(line, src.path, symbols);
  }

  lemma RecordOrigin(src: Source, s: Symbol)
    requires s in Extract(src)
    ensures s in ModuleRecords(src) || exists e :: e in Definitions(src) && e.record == s
  {
    if s !in ModuleRecords(src) {
      var i :| 0 <= i < |Definitions(src)| && Records(Definitions(src))[i] == s;
      assert Definitions(src)[i] in Definitions(src);
    }
  }
}
