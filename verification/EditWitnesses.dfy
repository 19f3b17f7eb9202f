/** Concrete sources, with the trees of their parses, on which the plain reading of an edit fails. */
module EditWitnesses {
  import opened Prelude
  import opened Text
  import opened Syntax
  import opened Plan
  import opened SymbolExtractor
  import opened SymbolFinder
  import opened Rename
  import opened AstPatcher
  import Containment

  function Leaf(kind: string, at: nat, end: nat, line: nat): Tree {
    Tree(kind, at, end, line, line, map[], [])
  }

  // ------------------------------------------------------------ a body on its header's line

  const ONE_LINE := "def f():x"

  function OneLineBody(): Tree {
    Tree("block", 8, 9, 1, 1, map[], [Leaf("expression_statement", 8, 9, 1)])
  }

  function OneLineDef(): Tree {
    Tree("function_definition", 0, 9, 1, 1, map["name" := 0, "body" := 1], [Leaf("identifier", 4, 5, 1), OneLineBody()])
  }

  function OneLineRoot(): Tree {
    Tree("module", 0, 9, 1, 1, map[], [OneLineDef()])
  }

  function BodyPatch(action: string, target: string, code: string): Patch {
    Patch("f", action, Some(target), code, "", "", 2, 0, "", "")
  }

  lemma OneLineFound()
    ensures FindSymbol(ONE_LINE, OneLineRoot(), "f") == Some(OneLineDef())
            && Field(OneLineDef(), "body") == Some(OneLineBody())
    ensures BytesNested(OneLineRoot())
  {
    assert ONE_LINE[4..5] == "f";
    assert DefName(OneLineDef(), ONE_LINE) == "f";
    NestedPair(Leaf("identifier", 4, 5, 1), OneLineBody(), 0, 9);
    NestedOne(Leaf("expression_statement", 8, 9, 1), 8, 9);
    NestedOne(OneLineDef(), 0, 9);
  }

  lemma NestedOne(c: Tree, low: nat, high: nat)
    requires BytesNested(c) && low <= c.startByte && c.endByte <= high
    ensures BytesNestedIn([c], low, high)
  {
    assert [c][1..] == [];
  }

  lemma NestedPair(c: Tree, d: Tree, low: nat, high: nat)
    requires BytesNested(c) && (BytesNestedIn(d.children, d.startByte, d.endByte) ==> BytesNested(d))
    requires low <= c.startByte && c.endByte <= d.startByte && d.endByte <= high
    ensures BytesNested(d) ==> BytesNestedIn([c, d], low, high)
  {
    assert [c, d][1..] == [d] && [d][1..] == [];
  }

  lemma OneLineStart()
    ensures LineStart(ONE_LINE, 8) == 0
  {
    assert forall i :: 0 <= i < 9 ==> ONE_LINE[i] != '\n';
    NoNewline(ONE_LINE, 8);
  }

  lemma {:induction false} NoNewline(s: string, pos: nat)
    requires pos <= |s| && forall i :: 0 <= i < pos ==> s[i] != '\n'
    ensures LineStart(s, pos) == 0
    decreases pos
  {
    if pos > 0 { NoNewline(s, pos - 1); }
  }

  /** Replacing the body of a one-line definition loses the definition's header, and inserting at
      its start puts the code in front of the header. */
  lemma HeaderLost(layout: Layout, code: string)
    ensures BytesNested(OneLineRoot())
    ensures ApplyPatch(layout, ONE_LINE, OneLineRoot(), BodyPatch("replace", "function_body", code))
            == Ok(layout.indentCode(code, layout.baseIndent(ONE_LINE, OneLineBody())))
    ensures ApplyPatch(layout, ONE_LINE, OneLineRoot(), BodyPatch("insert", "function_body_start", code))
            == Ok(layout.insertLines(code, layout.baseIndent(ONE_LINE, OneLineBody())) + ONE_LINE)
  {
    OneLineFound();
    OneLineStart();
    BodyRoute(layout, ONE_LINE, OneLineRoot(), BodyPatch("replace", "function_body", code), OneLineDef(),
              OneLineBody());
    BodyRoute(layout, ONE_LINE, OneLineRoot(), BodyPatch("insert", "function_body_start", code), OneLineDef(),
              OneLineBody());
    var put := layout.indentCode(code, layout.baseIndent(ONE_LINE, OneLineBody()));
    assert ReplaceRange(ONE_LINE, 0, 9, put) == put;
    var lines := layout.insertLines(code, layout.baseIndent(ONE_LINE, OneLineBody()));
    assert ReplaceRange(ONE_LINE, 0, 0, lines) == lines + ONE_LINE;
  }

  // ------------------------------------------------------------ two statements on one line

  const JOINED := "def f():\n a;b"

  function JoinedBody(): Tree {
    Tree("block", 10, 13, 2, 2, map[],
         [Leaf("expression_statement", 10, 11, 2), Leaf(";", 11, 12, 2), Leaf("expression_statement", 12, 13, 2)])
  }

  function JoinedDef(): Tree {
    Tree("function_definition", 0, 13, 1, 2, map["name" := 0, "body" := 1], [Leaf("identifier", 4, 5, 1), JoinedBody()])
  }

  function JoinedRoot(): Tree {
    Tree("module", 0, 13, 1, 2, map[], [JoinedDef()])
  }

  lemma JoinedNested()
    ensures BytesNested(JoinedRoot())
  {
    var a, semi, b := JoinedBody().children[0], JoinedBody().children[1], JoinedBody().children[2];
    NestedOne(b, 12, 13);
    assert [semi, b][1..] == [b] && [a, semi, b][1..] == [semi, b];
    assert BytesNestedIn([semi, b], 11, 13);
    assert BytesNested(JoinedBody());
    NestedPair(Leaf("identifier", 4, 5, 1), JoinedBody(), 0, 13);
    NestedOne(JoinedDef(), 0, 13);
  }

  lemma JoinedStart()
    ensures LineStart(JOINED, 12) == 9
  {
    assert JOINED[11] == ';' && JOINED[10] == 'a' && JOINED[9] == ' ' && JOINED[8] == '\n';
    assert LineStart(JOINED, 9) == 9 && LineStart(JOINED, 10) == 9 && LineStart(JOINED, 11) == 9;
  }

  /** Deleting the second of two statements on a line deletes the first as well. */
  lemma NeighbourDeleted(layout: Layout)
    ensures BytesNested(JoinedRoot())
    ensures ApplyPatch(layout, JOINED, JoinedRoot(), BodyPatch("delete", "statement", "")) == Ok("def f():\n")
  {
    JoinedNested();
    JoinedFound();
    var p := BodyPatch("delete", "statement", "");
    StatementRoute(layout, JOINED, JoinedRoot(), p, JoinedDef(), JoinedBody());
    LastStatementDeleted(layout, JOINED, JoinedBody(), JoinedBody().children[2], p);
    assert JOINED[..9] == "def f():\n";
  }

  lemma JoinedFound()
    ensures FindSymbol(JOINED, JoinedRoot(), "f") == Some(JoinedDef())
            && Field(JoinedDef(), "body") == Some(JoinedBody())
    ensures LineStart(JOINED, 12) == 9 && |JOINED| == 13
  {
    JoinedStart();
    LetterAt(JOINED, 4, 'f');
    assert DefName(JoinedDef(), JOINED) == "f";
  }

  lemma LastStatementDeleted(layout: Layout, source: string, body: Tree, stmt: Tree, p: Patch)
    requires p == BodyPatch("delete", "statement", "") && |body.children| == 3 && stmt == body.children[2]
    requires stmt.startByte == 12 && stmt.endByte == 13 == |source| && LineStart(source, 12) == 9
    ensures ApplyToStatement(layout, source, body, "statement", p) == Ok(source[..9])
  {
    assert ReplaceRange(source, 9, 13, "") == source[..9];
  }

  // ------------------------------------------------------------ two methods of one name

  const TWO_CLASSES := "class A:\n def r():0\nclass B:\n def r():0"

  function MethodR(at: nat, line: nat): Tree {
    Tree("function_definition", at, at + 9, line, line, map["name" := 0, "body" := 1],
         [Leaf("identifier", at + 4, at + 5, line), Leaf("block", at + 8, at + 9, line)])
  }

  function ClassBody(at: nat, line: nat): Tree {
    Tree("block", at + 10, at + 19, line + 1, line + 1, map[], [MethodR(at + 10, line + 1)])
  }

  function ClassAt(at: nat, line: nat): Tree {
    Tree("class_definition", at, at + 19, line, line + 1, map["name" := 0, "body" := 1],
         [Leaf("identifier", at + 6, at + 7, line), ClassBody(at, line)])
  }

  function TwoClasses(path: string, details: Details): Source {
    Source(path, "m", TWO_CLASSES, Tree("module", 0, 39, 1, 4, map[], [ClassAt(0, 1), ClassAt(20, 3)]), details)
  }

  lemma ClassNested(at: nat, line: nat)
    ensures BytesNested(ClassAt(at, line))
  {
    var r := MethodR(at + 10, line + 1);
    NestedPair(Leaf("identifier", at + 14, at + 15, line + 1), Leaf("block", at + 18, at + 19, line + 1),
               at + 10, at + 19);
    assert BytesNested(r);
    NestedOne(r, at + 10, at + 19);
    NestedPair(Leaf("identifier", at + 6, at + 7, line), ClassBody(at, line), at, at + 19);
  }

  lemma TwoClassesNested(root: Tree, first: Tree, second: Tree)
    requires first == ClassAt(0, 1) && second == ClassAt(20, 3)
             && root == Tree("module", 0, 39, 1, 4, map[], [first, second])
    ensures BytesNested(root) && Containment.LinesNested(root)
  {
    TwoClassesBytes(first, second);
    ClassLines(0, 1);
    ClassLines(20, 3);
  }

  lemma TwoClassesBytes(first: Tree, second: Tree)
    requires first == ClassAt(0, 1) && second == ClassAt(20, 3)
    ensures BytesNestedIn([first, second], 0, 39)
  {
    ClassNested(0, 1);
    ClassNested(20, 3);
    NestedPair(first, second, 0, 39);
  }

  lemma ClassLines(at: nat, line: nat)
    ensures Containment.LinesNested(ClassAt(at, line))
  {
    var r := MethodR(at + 10, line + 1);
    assert Containment.LinesNested(r.children[0]) && Containment.LinesNested(r.children[1]);
    assert forall c :: c in r.children ==> c == r.children[0] || c == r.children[1];
    assert Containment.LinesNested(r);
    assert Containment.LinesNested(ClassBody(at, line));
  }

  lemma LetterAt(s: string, i: nat, c: char)
    requires i < |s| && s[i] == c
    ensures Slice(s, i, i + 1) == [c]
  {}

  lemma MethodNamed(at: nat, line: nat)
    requires at == 10 || at == 30
    ensures DefName(MethodR(at, line), TWO_CLASSES) == "r" && Wanted(TWO_CLASSES, MethodR(at, line), "B.r")
  {
    LetterAt(TWO_CLASSES, 14, 'r');
    LetterAt(TWO_CLASSES, 34, 'r');
    assert EndsWith("B.r", ".r");
  }

  lemma FirstMethodFound(first: Tree)
    requires first == ClassAt(0, 1)
    ensures SymbolFinder.Find(TWO_CLASSES, first, "", "B.r") == Some(MethodR(10, 2))
  {
    MethodNamed(10, 2);
    LetterAt(TWO_CLASSES, 6, 'A');
    assert DefName(first, TWO_CLASSES) == "A" && !EndsWith("B.r", ".A");
    HitIgnoresScope(TWO_CLASSES, MethodR(10, 2), "A", "B.r");
    assert FindAmong(TWO_CLASSES, ClassBody(0, 1).children, "A", "B.r") == Some(MethodR(10, 2));
    assert Field(first, "body") == Some(ClassBody(0, 1));
  }

  lemma SecondMethodEmitted(src: Source, second: Tree, e: Emission)
    requires src.text == TWO_CLASSES && second == ClassAt(20, 3)
             && e == Emission(Record(src, MethodR(30, 4), "B"), MethodR(30, 4))
    ensures e in Emit(src, second, "") && e.record.name == "B.r"
  {
    MethodNamed(30, 4);
    LetterAt(TWO_CLASSES, 26, 'B');
    assert DefName(second, TWO_CLASSES) == "B" && "B" + "." + "r" == "B.r";
    assert Field(second, "body") == Some(ClassBody(20, 3));
    assert e in Emit(src, MethodR(30, 4), "B");
    assert e in EmitAll(src, ClassBody(20, 3).children, "B");
  }

  /** The index tells `A.r` and `B.r` apart, the patcher does not: asked for `B.r`, it edits `A.r`. */
  lemma QualifiedNameNotHonoured(path: string, details: Details)
    ensures var src := TwoClasses(path, details);
            && BytesNested(src.root) && Containment.LinesNested(src.root)
            && (exists e :: e in Definitions(src) && e.record.name == "B.r" && e.node == MethodR(30, 4))
            && FindSymbol(src.text, src.root, "B.r") == Some(MethodR(10, 2))
  {
    var src := TwoClasses(path, details);
    var first, second := ClassAt(0, 1), ClassAt(20, 3);
    TwoClassesNested(src.root, first, second);
    FirstMethodFound(first);
    var e := Emission(Record(src, MethodR(30, 4), "B"), MethodR(30, 4));
    SecondMethodEmitted(src, second, e);
    assert src.root.children[1..] == [second];
    assert e in EmitAll(src, [second], "");
  }

  // ------------------------------------------------------------ a name already there

  const CAPTURED := "def f(a):b"
  const CAPTURING := "def f(b):b"
  const BOTH := "def f(a):a"

  /** The tree of `CAPTURED`, and of every such definition with other one-letter names. */
  function ParameterList(): Tree {
    Tree("parameters", 5, 8, 1, 1, map[], [Leaf("identifier", 6, 7, 1)])
  }

  function CapturedBody(): Tree {
    Tree("block", 9, 10, 1, 1, map[],
         [Tree("expression_statement", 9, 10, 1, 1, map[], [Leaf("identifier", 9, 10, 1)])])
  }

  function CapturedDef(): Tree {
    Tree("function_definition", 0, 10, 1, 1, map["name" := 0, "parameters" := 1, "body" := 2],
         [Leaf("identifier", 4, 5, 1), ParameterList(), CapturedBody()])
  }

  function CapturedRoot(): Tree {
    Tree("module", 0, 10, 1, 1, map[], [CapturedDef()])
  }

  function RenamePatch(oldName: string, newName: string): Patch {
    Patch("f", "rename", None, "", "", "", 0, 0, oldName, newName)
  }

  lemma CapturedNested()
    ensures BytesNested(CapturedRoot())
  {
    var name, parameters, body := Leaf("identifier", 4, 5, 1), ParameterList(), CapturedBody();
    NestedOne(Leaf("identifier", 6, 7, 1), 5, 8);
    NestedOne(Leaf("identifier", 9, 10, 1), 9, 10);
    NestedOne(body.children[0], 9, 10);
    assert BytesNested(parameters) && BytesNested(body);
    NestedPair(parameters, body, 5, 10);
    assert [name, parameters, body][1..] == [parameters, body];
    assert BytesNestedIn([name, parameters, body], 0, 10);
    NestedOne(CapturedDef(), 0, 10);
  }

  lemma CapturedFound(source: string)
    requires |source| == 10 && source[4] == 'f'
    ensures FindSymbol(source, CapturedRoot(), "f") == Some(CapturedDef())
            && Field(CapturedDef(), "body") == Some(CapturedBody())
  {
    LetterAt(source, 4, 'f');
    assert DefName(CapturedDef(), source) == "f";
  }

  /** The identifiers of the definition are its name, its parameter and the one in its body. */
  lemma CapturedIdentifiers()
    ensures Identifiers(CapturedDef()) == [Range(4, 5), Range(6, 7), Range(9, 10)]
  {
    var name, parameter, use := Leaf("identifier", 4, 5, 1), Leaf("identifier", 6, 7, 1), Leaf("identifier", 9, 10, 1);
    var statement := CapturedBody().children[0];
    assert IdentifiersIn([parameter]) == [Range(6, 7)] && IdentifiersIn([use]) == [Range(9, 10)];
    assert Identifiers(statement) == [Range(9, 10)] && IdentifiersIn([statement]) == [Range(9, 10)];
    assert Identifiers(CapturedBody()) == [Range(9, 10)] && IdentifiersIn([CapturedBody()]) == [Range(9, 10)];
    assert [name, ParameterList(), CapturedBody()][1..] == [ParameterList(), CapturedBody()];
    assert [ParameterList(), CapturedBody()][1..] == [CapturedBody()];
    assert IdentifiersIn([ParameterList(), CapturedBody()]) == [Range(6, 7), Range(9, 10)];
  }

  lemma SpliceLetter(s: string, i: nat, c: char, t: string)
    requires i < |s| && t == s[i := c]
    ensures Splice(s, Range(i, i + 1), [c]) == t
  {}

  /** The occurrences of a one-letter name other than `f`'s own. */
  lemma OccurrencesOf(source: string, name: char)
    requires |source| == 10 && source[4] != name
    ensures Occurrences(source, CapturedDef(), [name])
            == (if source[6] == name then [Range(6, 7)] else []) + (if source[9] == name then [Range(9, 10)] else [])
  {
    var third: seq<Range> := [Range(9, 10)];
    var later: seq<Range> := [Range(6, 7), Range(9, 10)];
    CapturedIdentifiers();
    OccurrencesAreIdentifiers(source, CapturedDef(), [name]);
    LetterAt(source, 4, source[4]);
    LetterAt(source, 6, source[6]);
    LetterAt(source, 9, source[9]);
    assert third[1..] == [] && later[1..] == third && ([Range(4, 5)] + later)[1..] == later;
    assert Filter(third, Reading(source, [name])) == if source[9] == name then third else [];
    assert Filter(later, Reading(source, [name]))
           == (if source[6] == name then [Range(6, 7)] else []) + if source[9] == name then third else [];
  }

  lemma SpliceOne(text: string, r: Range, with_: string)
    ensures SpliceAll(text, SortDescending([r]), with_) == Splice(text, r, with_)
  {
    SortedOne(r);
    assert [r][1..] == [];
    assert SpliceAll(Splice(text, r, with_), [], with_) == Splice(text, r, with_);
  }

  lemma SpliceTwo(text: string, r: Range, later: Range, with_: string)
    requires r.start < later.start
    ensures SpliceAll(text, SortDescending([r, later]), with_) == Splice(Splice(text, later, with_), r, with_)
  {
    SortedPair(r, later);
    SortedOne(r);
    SpliceOne(Splice(text, later, with_), r, with_);
    assert [later, r][1..] == [r];
  }

  lemma ParameterRenamed(source: string, x: char, y: char, renamed: string)
    requires |source| == 10 && source[4] != x && source[6] == x && source[9] != x && x != y && renamed == source[6 := y]
    ensures RenameIn(source, CapturedDef(), [x], [y]) == renamed
  {
    OccurrencesOf(source, x);
    assert [x] != [y] by { assert [x][0] != [y][0]; }
    assert Occurrences(source, CapturedDef(), [x]) == [Range(6, 7)];
    SpliceOne(source, Range(6, 7), [y]);
    SpliceLetter(source, 6, y, renamed);
  }

  lemma BothRenamed(source: string, x: char, y: char, between: string, renamed: string)
    requires |source| == 10 && source[4] != x && source[6] == x && source[9] == x && x != y
    requires between == source[9 := y] && renamed == between[6 := y]
    ensures RenameIn(source, CapturedDef(), [x], [y]) == renamed
  {
    OccurrencesOf(source, x);
    assert [x] != [y] by { assert [x][0] != [y][0]; }
    assert Occurrences(source, CapturedDef(), [x]) == [Range(6, 7), Range(9, 10)];
    SpliceTwo(source, Range(6, 7), Range(9, 10), [y]);
    SpliceLetter(source, 9, y, between);
    SpliceLetter(between, 6, y, renamed);
  }

  lemma SortedOne(r: Range)
    ensures SortDescending([r]) == [r]
  {
    assert [r][1..] == [] && SortDescending([]) == [];
    InsertLast(r, []);
  }

  lemma SortedPair(r: Range, later: Range)
    requires r.start < later.start
    ensures SortDescending([r, later]) == [later, r]
  {
    var both := [r, later];
    assert both[0] == r && both[1..] == [later];
    SortedOne(later);
    InsertLast(r, [later]);
    assert SortDescending(both) == InsertDescending(r, SortDescending(both[1..]));
  }

  lemma RenameReaches(layout: Layout, source: string, oldName: string, newName: string)
    requires |source| == 10 && source[4] == 'f'
    ensures ApplyPatch(layout, source, CapturedRoot(), RenamePatch(oldName, newName))
            == Ok(RenameIn(source, CapturedDef(), oldName, newName))
  {
    CapturedFound(source);
  }

  lemma Captured()
    ensures RenameIn(CAPTURED, CapturedDef(), "a", "b") == CAPTURING
  {
    assert CAPTURED[6 := 'b'] == CAPTURING;
    ParameterRenamed(CAPTURED, 'a', 'b', CAPTURING);
  }

  lemma CapturedBack()
    ensures RenameIn(CAPTURING, CapturedDef(), "b", "a") == BOTH
  {
    var between := "def f(b):a";
    assert CAPTURING[9 := 'a'] == between && between[6 := 'a'] == BOTH;
    BothRenamed(CAPTURING, 'b', 'a', between, BOTH);
  }

  /** Renaming the parameter of `f` to the name its body already uses, and back, renames that use
      as well. */
  lemma NameAlreadyThere(layout: Layout)
    ensures BytesNested(CapturedRoot())
    ensures ApplyPatch(layout, CAPTURED, CapturedRoot(), RenamePatch("a", "b")) == Ok(CAPTURING)
    ensures ApplyPatch(layout, CAPTURING, CapturedRoot(), RenamePatch("b", "a")) == Ok(BOTH)
    ensures BOTH != CAPTURED
  {
    CapturedNested();
    RenameReaches(layout, CAPTURED, "a", "b");
    RenameReaches(layout, CAPTURING, "b", "a");
    Captured();
    CapturedBack();
    assert BOTH[9] != CAPTURED[9];
  }
}
