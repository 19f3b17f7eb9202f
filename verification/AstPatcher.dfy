/** Structured edits of one source (editing/ast_patcher.py, apply_patch) and what they leave alone. */
module AstPatcher {
  import opened Prelude
  import opened Text
  import opened Syntax
  import opened SymbolFinder
  import opened Plan
  import opened Rename

  /** Indentation helpers whose output only fills the edited stretch. */
  datatype Layout = Layout(baseIndent: (string, Tree) -> string, indentCode: (string, string) -> string,
                           insertLines: (string, string) -> string)

  datatype PatchError = AppendUnsupported | EmptyPatch | SymbolNotFound | NoBody | BlockNotFound | IndexOutOfRange
                      | Unsupported

  const BLOCK_TARGETS: seq<string> := ["if_block", "try_block", "with_block", "for_block"]

  // ------------------------------------------------------------ blocks by type

  /** The inner block of a statement, if the statement is of the kind asked for. */
  function InnerBlock(stmt: Tree, blockType: string): Option<Tree> {
    if blockType == "if_block" && stmt.kind == "if_statement" then Field(stmt, "consequence")
    else if blockType == "try_block" && stmt.kind == "try_statement" then Field(stmt, "body")
    else if blockType == "with_block" && stmt.kind == "with_statement" then Field(stmt, "body")
    else if blockType == "for_block" && stmt.kind == "for_statement" then Field(stmt, "body")
    else None
  }

  /** All inner blocks of the kind asked for, in order. */
  function Blocks(stmts: seq<Tree>, blockType: string): seq<Tree> {
    if stmts == [] then []
    else (match InnerBlock(stmts[0], blockType) case None => [] case Some(b) => [b]) + Blocks(stmts[1..], blockType)
  }

  function FindBlockByType(body: Tree, blockType: string, blockIndex: int): Option<Tree> {
    var blocks := Blocks(body.children, blockType);
    if 0 <= blockIndex < |blocks| then Some(blocks[blockIndex]) else None
  }

  /** `b` is the consequence of an `if`, or the body of a `try`, `with` or `for`, as the target asks. */
  ghost predicate IsBlockOf(blockType: string, stmt: Tree, b: Tree) {
    || (blockType == "if_block" && stmt.kind == "if_statement" && Field(stmt, "consequence") == Some(b))
    || (blockType == "try_block" && stmt.kind == "try_statement" && Field(stmt, "body") == Some(b))
    || (blockType == "with_block" && stmt.kind == "with_statement" && Field(stmt, "body") == Some(b))
    || (blockType == "for_block" && stmt.kind == "for_statement" && Field(stmt, "body") == Some(b))
  }

  /** Statements with a block of the kind asked for. */
  ghost function WithBlock(blockType: string): Tree -> bool {
    (stmt: Tree) => exists b :: IsBlockOf(blockType, stmt, b)
  }

  /** Some statement has block `b`, and exactly `blockIndex` earlier ones have a block of that kind. */
  ghost predicate BlockAt(stmts: seq<Tree>, blockType: string, blockIndex: int, b: Tree) {
    exists k :: 0 <= k < |stmts| && IsBlockOf(blockType, stmts[k], b)
                && |Filter(stmts[..k], WithBlock(blockType))| == blockIndex
  }

  lemma InnerBlockIs(stmt: Tree, blockType: string)
    ensures forall b :: InnerBlock(stmt, blockType) == Some(b) <==> IsBlockOf(blockType, stmt, b)
    ensures InnerBlock(stmt, blockType).Some? <==> WithBlock(blockType)(stmt)
  {}

  lemma BlockAtFront(stmts: seq<Tree>, blockType: string, blockIndex: int, b: Tree)
    requires stmts != [] && 0 <= blockIndex
    ensures BlockAt(stmts, blockType, blockIndex, b)
            <==> if !WithBlock(blockType)(stmts[0]) then BlockAt(stmts[1..], blockType, blockIndex, b)
                 else if blockIndex == 0 then IsBlockOf(blockType, stmts[0], b)
                 else BlockAt(stmts[1..], blockType, blockIndex - 1, b)
  {
    var p, rest := WithBlock(blockType), stmts[1..];
    forall k | 0 < k <= |stmts|
      ensures |Filter(stmts[..k], p)| == |Filter(rest[..k - 1], p)| + if p(stmts[0]) then 1 else 0 {
      assert stmts[..k][0] == stmts[0] && stmts[..k][1..] == rest[..k - 1];
    }
    if k :| 0 <= k < |stmts| && IsBlockOf(blockType, stmts[k], b) && |Filter(stmts[..k], p)| == blockIndex {
      if k > 0 { assert rest[k - 1] == stmts[k]; }
    }
    var before := if p(stmts[0]) then blockIndex - 1 else blockIndex;
    if k :| 0 <= k < |rest| && IsBlockOf(blockType, rest[k], b) && |Filter(rest[..k], p)| == before {
      var at := k + 1;
      assert stmts[at] == rest[k] && at - 1 == k;
    }
    if p(stmts[0]) && blockIndex == 0 && IsBlockOf(blockType, stmts[0], b) { assert stmts[..0] == []; }
  }

  /** The block found is the one of the index asked for. */
  lemma {:induction false} BlocksAt(stmts: seq<Tree>, blockType: string, blockIndex: int, b: Tree)
    ensures 0 <= blockIndex < |Blocks(stmts, blockType)| && Blocks(stmts, blockType)[blockIndex] == b
            <==> BlockAt(stmts, blockType, blockIndex, b)
    decreases |stmts|
  {
    if stmts != [] && 0 <= blockIndex {
      InnerBlockIs(stmts[0], blockType);
      BlockAtFront(stmts, blockType, blockIndex, b);
      BlocksFront(stmts, blockType, blockIndex, b);
      BlocksAt(stmts[1..], blockType, if WithBlock(blockType)(stmts[0]) then blockIndex - 1 else blockIndex, b);
    }
  }

  lemma BlocksFront(stmts: seq<Tree>, blockType: string, blockIndex: int, b: Tree)
    requires stmts != [] && 0 <= blockIndex
    ensures var all, rest := Blocks(stmts, blockType), Blocks(stmts[1..], blockType);
            var first := InnerBlock(stmts[0], blockType);
            blockIndex < |all| && all[blockIndex] == b
            <==> if first.None? then blockIndex < |rest| && rest[blockIndex] == b
                 else if blockIndex == 0 then first == Some(b)
                 else blockIndex - 1 < |rest| && rest[blockIndex - 1] == b
  {
    var rest, first := Blocks(stmts[1..], blockType), InnerBlock(stmts[0], blockType);
    if first.Some? {
      assert Blocks(stmts, blockType) == [first.value] + rest;
    } else {
      assert Blocks(stmts, blockType) == [] + rest && [] + rest == rest;
    }
  }

  /** The counting loop finds the block of the given index, and nothing for an index out of range. */
  method FindBlock(body: Tree, blockType: string, blockIndex: int) returns (found: Option<Tree>)
    ensures found == FindBlockByType(body, blockType, blockIndex)
    ensures forall b :: found == Some(b) <==> BlockAt(body.children, blockType, blockIndex, b)
  {
    forall b { BlocksAt(body.children, blockType, blockIndex, b); }
    var stmts, count := body.children, 0;
    ghost var all := Blocks(stmts, blockType);
    for i := 0 to |stmts|
      invariant 0 <= count <= |all| && Blocks(stmts[i..], blockType) == all[count..]
      invariant !(0 <= blockIndex < count)
    {
      assert stmts[i..][0] == stmts[i] && stmts[i..][1..] == stmts[i + 1..];
      var inner := InnerBlock(stmts[i], blockType);
      if inner.Some? {
        assert all[count..][0] == inner.value && all[count..][1..] == all[count + 1..];
        if count == blockIndex {
          return inner;
        }
        count := count + 1;
      }
    }
    return None;
  }

  // ------------------------------------------------------------ apply_patch

  /** `source.rfind("\n", 0, pos) + 1` */
  function LineStart(source: string, pos: nat): (r: nat)
    ensures r <= pos
    ensures r == 0 || (r <= |source| && source[r - 1] == '\n')
    ensures forall i :: r <= i < pos && i < |source| ==> source[i] != '\n'
    decreases pos
  {
    if pos == 0 then 0
    else if pos <= |source| && source[pos - 1] == '\n' then pos
    else LineStart(source, pos - 1)
  }

  function ApplyAppend(source: string, p: Patch): Result<string, PatchError> {
    if p.action != "insert" then Err(AppendUnsupported)
    else if Blank(p.code) then Err(EmptyPatch)
    else Ok(Rstrip(source) + ("\n\n" + Strip(p.code) + "\n"))
  }

  function ApplyToBlock(layout: Layout, source: string, body: Tree, target: string, p: Patch)
      : Result<string, PatchError> {
    match FindBlockByType(body, target, p.blockIndex)
    case None => Err(BlockNotFound)
    case Some(b) =>
      var indent := layout.baseIndent(source, b);
      if p.action == "replace" then Ok(ReplaceRange(source, b.startByte, b.endByte, layout.indentCode(p.code, indent)))
      else if p.action == "delete" then Ok(ReplaceRange(source, b.startByte, b.endByte, indent + "pass\n"))
      else Err(Unsupported)
  }

  function ApplyToStatement(layout: Layout, source: string, body: Tree, target: string, p: Patch)
      : Result<string, PatchError> {
    if p.statementIndex < 0 || p.statementIndex >= |body.children| then Err(IndexOutOfRange)
    else
      var stmt := body.children[p.statementIndex];
      var indent := layout.baseIndent(source, stmt);
      if p.action == "insert" && target == "statement_after" then
        Ok(ReplaceRange(source, stmt.endByte, stmt.endByte, "\n" + layout.insertLines(p.code, indent)))
      else if p.action == "replace" && target == "statement" then
        Ok(ReplaceRange(source, LineStart(source, stmt.startByte), stmt.endByte, layout.indentCode(p.code, indent)))
      else if p.action == "delete" && target == "statement" then
        var end := if stmt.endByte < |source| && source[stmt.endByte] == '\n' then stmt.endByte + 1 else stmt.endByte;
        Ok(ReplaceRange(source, LineStart(source, stmt.startByte), end, ""))
      else Err(Unsupported)
  }

  function ApplyToBody(layout: Layout, source: string, body: Tree, target: string, p: Patch)
      : Result<string, PatchError> {
    var indent := layout.baseIndent(source, body);
    var lineStart := LineStart(source, body.startByte);
    if p.action == "insert" then
      if target == "function_body_start" || target == "class_body_start" then
        Ok(ReplaceRange(source, lineStart, lineStart, layout.insertLines(p.code, indent)))
      else Err(Unsupported)
    else if p.action == "replace" then
      if target == "function_body" || target == "class_body" then
        Ok(ReplaceRange(source, lineStart, body.endByte, layout.indentCode(p.code, indent)))
      else Err(Unsupported)
    else if p.action == "delete" then Ok(ReplaceRange(source, body.startByte, body.endByte, indent + "pass\n"))
    else Err(Unsupported)
  }

  function Target(p: Patch): string {
    if p.targetNode.Some? then p.targetNode.value else "function_body_start"
  }

  function ApplyPatch(layout: Layout, source: string, root: Tree, p: Patch): Result<string, PatchError> {
    var target := Target(p);
    if target == "module_append" then ApplyAppend(source, p)
    else
      match FindSymbol(source, root, p.symbol)
      case None => Err(SymbolNotFound)
      case Some(node) =>
        match Field(node, "body")
        case None => Err(NoBody)
        case Some(body) =>
          if p.action == "rename" then Ok(RenameIn(source, node, p.oldName, p.newName))
          else if target in BLOCK_TARGETS then ApplyToBlock(layout, source, body, target, p)
          else if target == "statement" || target == "statement_after" then
            ApplyToStatement(layout, source, body, target, p)
          else ApplyToBody(layout, source, body, target, p)
  }

  /** Statement targets go to the statement editor, targets without a branch of their own to the
      body editor. */
  lemma StatementRoute(layout: Layout, source: string, root: Tree, p: Patch, node: Tree, body: Tree)
    requires FindSymbol(source, root, p.symbol) == Some(node) && Field(node, "body") == Some(body)
    requires Target(p) == "statement" && p.action != "rename"
    ensures ApplyPatch(layout, source, root, p) == ApplyToStatement(layout, source, body, "statement", p)
  {
    assert "statement" !in BLOCK_TARGETS && "statement" != "module_append";
  }

  lemma BodyRoute(layout: Layout, source: string, root: Tree, p: Patch, node: Tree, body: Tree)
    requires FindSymbol(source, root, p.symbol) == Some(node) && Field(node, "body") == Some(body)
    requires Target(p) in ["function_body", "function_body_start"] && p.action != "rename"
    ensures ApplyPatch(layout, source, root, p) == ApplyToBody(layout, source, body, Target(p), p)
  {
    assert "function_body" !in BLOCK_TARGETS && "function_body_start" !in BLOCK_TARGETS;
  }

  // ------------------------------------------------------------ effect

  /** The node a patch addresses inside the body of its symbol. */
  function Addressed(body: Tree, p: Patch): Option<Tree> {
    if Target(p) in BLOCK_TARGETS then FindBlockByType(body, Target(p), p.blockIndex)
    else if Target(p) == "statement" || Target(p) == "statement_after" then
      if 0 <= p.statementIndex < |body.children| then Some(body.children[p.statementIndex]) else None
    else Some(body)
  }

  /** The same without the search: a block by its place among the blocks of its kind, a statement by
      its index, or the body itself. */
  ghost predicate Addresses(body: Tree, p: Patch, n: Tree) {
    if Target(p) in {"if_block", "try_block", "with_block", "for_block"} then
      BlockAt(body.children, Target(p), p.blockIndex, n)
    else if Target(p) in {"statement", "statement_after"} then
      0 <= p.statementIndex < |body.children| && n == body.children[p.statementIndex]
    else n == body
  }

  lemma AddressedIs(body: Tree, p: Patch)
    ensures forall n :: Addressed(body, p) == Some(n) <==> Addresses(body, p, n)
  {
    forall n { BlocksAt(body.children, Target(p), p.blockIndex, n); }
  }

  /** Which actions a target takes; deleting anything but a block or a statement deletes the body. */
  predicate Supported(action: string, target: string) {
    if target in {"if_block", "try_block", "with_block", "for_block", "statement"} then action in {"replace", "delete"}
    else if target == "statement_after" then action == "insert"
    else
      || action == "delete"
      || (action == "insert" && target in {"function_body_start", "class_body_start"})
      || (action == "replace" && target in {"function_body", "class_body"})
  }

  /** Main theorem: when a symbol-targeted patch applies, and which error it ends in otherwise. */
  lemma ApplyPatchIff(layout: Layout, source: string, root: Tree, p: Patch)
    requires Target(p) != "module_append"
    ensures Target(p) == match p.targetNode case None => "function_body_start" case Some(t) => t
    ensures var r, found := ApplyPatch(layout, source, root, p), FindSymbol(source, root, p.symbol);
            if found.None? then r == Err(SymbolNotFound)
            else if Field(found.value, "body").None? then r == Err(NoBody)
            else if p.action == "rename" then r == Ok(RenameIn(source, found.value, p.oldName, p.newName))
            else if !exists n :: Addresses(Field(found.value, "body").value, p, n) then
              r == Err(if Target(p) in {"statement", "statement_after"} then IndexOutOfRange else BlockNotFound)
            else if Supported(p.action, Target(p)) then r.Ok?
            else r == Err(Unsupported)
  {
    var found := FindSymbol(source, root, p.symbol);
    if found.Some? && Field(found.value, "body").Some? {
      var body := Field(found.value, "body").value;
      AddressedIs(body, p);
      if Addressed(body, p).Some? { assert Addresses(body, p, Addressed(body, p).value); }
      AcceptedEdit(layout, source, body, p);
    }
  }

  /** The three editors, as one table of targets and actions. */
  lemma AcceptedEdit(layout: Layout, source: string, body: Tree, p: Patch)
    ensures var target := Target(p);
            var r := if target in BLOCK_TARGETS then ApplyToBlock(layout, source, body, target, p)
                     else if target == "statement" || target == "statement_after" then
                       ApplyToStatement(layout, source, body, target, p)
                     else ApplyToBody(layout, source, body, target, p);
            if Addressed(body, p).None? then
              r == Err(if target == "statement" || target == "statement_after" then IndexOutOfRange else BlockNotFound)
            else if Supported(p.action, target) then r.Ok?
            else r == Err(Unsupported)
  {}

  /** The edits that reach back to the start of the node's line. */
  predicate LineBased(p: Patch) {
    || (Target(p) == "statement" && (p.action == "replace" || p.action == "delete"))
    || ((Target(p) == "function_body" || Target(p) == "class_body") && p.action == "replace")
  }

  /** Where the replaced stretch begins, per target and action. */
  function StretchStart(source: string, n: Tree, p: Patch): nat {
    if p.action == "insert" then if Target(p) == "statement_after" then n.endByte else LineStart(source, n.startByte)
    else if LineBased(p) then LineStart(source, n.startByte)
    else n.startByte
  }

  /** Where it ends: insertions replace nothing, and deleting a statement takes its newline along. */
  function StretchEnd(source: string, n: Tree, p: Patch): nat {
    if p.action == "insert" then StretchStart(source, n, p)
    else if p.action == "delete" && Target(p) == "statement" && n.endByte < |source| && source[n.endByte] == '\n' then
      n.endByte + 1
    else n.endByte
  }

  /** What is put there. */
  function Put(layout: Layout, source: string, n: Tree, p: Patch): string {
    var indent := layout.baseIndent(source, n);
    if p.action == "insert" then
      (if Target(p) == "statement_after" then "\n" else "") + layout.insertLines(p.code, indent)
    else if p.action == "replace" then layout.indentCode(p.code, indent)
    else if Target(p) == "statement" then ""
    else indent + "pass\n"
  }

  /** `put` takes the place of the stretch from `a` to `b`. */
  predicate Puts(source: string, edited: string, a: nat, b: nat, put: string) {
    a <= b <= |source| && edited == source[..a] + put + source[b..]
  }

  predicate Effect(layout: Layout, source: string, edited: string, n: Tree, p: Patch) {
    Puts(source, edited, StretchStart(source, n, p), StretchEnd(source, n, p), Put(layout, source, n, p))
  }

  lemma ReplacePuts(source: string, a: nat, b: nat, with_: string)
    requires a <= b <= |source|
    ensures Puts(source, ReplaceRange(source, a, b, with_), a, b, with_)
  {}

  /** Only the node goes, with the blank text in front of it: `put` stands in its place, up to `end`. */
  ghost predicate RemovesOnly(source: string, edited: string, n: Tree, end: nat, put: string) {
    exists a: nat :: a <= n.startByte && BlankFrom(source, a, n.startByte) && Puts(source, edited, a, end, put)
  }

  predicate BlankFrom(source: string, a: nat, b: nat) {
    a <= b <= |source| && Blank(source[a..b])
  }

  // ------------------------------------------------------------ locality

  /** `edited` differs from `source` only between `low` and `high`. */
  ghost predicate LocalEdit(source: string, edited: string, low: nat, high: nat) {
    low <= high <= |source| && exists mid :: edited == source[..low] + mid + source[high..]
  }

  /** The end of a symbol, or one newline further. */
  predicate EndOf(source: string, node: Tree, high: nat) {
    high == node.endByte || (high == node.endByte + 1 && node.endByte < |source| && source[node.endByte] == '\n')
  }

  /** `edited` keeps all text before the first line of `node` and after its end, up to one newline. */
  ghost predicate StaysInside(source: string, edited: string, node: Tree) {
    exists high :: EndOf(source, node, high) && LocalEdit(source, edited, LineStart(source, node.startByte), high)
  }

  lemma PutIsLocal(source: string, edited: string, a: nat, b: nat, put: string, low: nat, high: nat)
    requires Puts(source, edited, a, b, put) && low <= a && b <= high <= |source|
    ensures LocalEdit(source, edited, low, high)
  {
    var mid := source[low..a] + put + source[b..high];
    assert source[..a] == source[..low] + source[low..a];
    assert source[b..] == source[b..high] + source[high..];
    assert edited == source[..low] + mid + source[high..];
  }

  lemma {:induction false} LineStartMonotone(source: string, a: nat, b: nat)
    requires a <= b <= |source|
    ensures LineStart(source, a) <= LineStart(source, b)
    decreases b
  {
    if a < b { LineStartMonotone(source, a, b - 1); }
  }

  lemma {:induction false} ChildNested(ts: seq<Tree>, low: nat, high: nat, c: Tree)
    requires BytesNestedIn(ts, low, high) && c in ts
    ensures BytesNested(c) && low <= c.startByte <= c.endByte <= high
    decreases |ts|
  {
    NestedBounds(ts[1..], ts[0].endByte, high);
    if c != ts[0] { ChildNested(ts[1..], ts[0].endByte, high, c); }
  }

  lemma {:induction false} NestedBounds(ts: seq<Tree>, low: nat, high: nat)
    requires BytesNestedIn(ts, low, high)
    ensures low <= high
    decreases |ts|
  {
    if ts != [] { NestedBounds(ts[1..], ts[0].endByte, high); }
  }

  lemma {:induction false} DescendantNested(t: Tree, n: Tree)
    requires BytesNested(t) && n in PreOrder(t)
    ensures BytesNested(n) && t.startByte <= n.startByte <= n.endByte <= t.endByte
    decreases t, 1
  {
    if n != t { DescendantsNested(t.children, t.startByte, t.endByte, n); }
  }

  lemma {:induction false} DescendantsNested(ts: seq<Tree>, low: nat, high: nat, n: Tree)
    requires BytesNestedIn(ts, low, high) && n in PreOrders(ts)
    ensures BytesNested(n) && low <= n.startByte <= n.endByte <= high
    decreases ts, 0
  {
    NestedBounds(ts[1..], ts[0].endByte, high);
    if n in PreOrder(ts[0]) { DescendantNested(ts[0], n); } else { DescendantsNested(ts[1..], ts[0].endByte, high, n); }
  }

  lemma {:induction false} InBlocks(stmts: seq<Tree>, blockType: string, b: Tree)
    requires b in Blocks(stmts, blockType)
    ensures exists s :: s in stmts && b in s.children
    decreases |stmts|
  {
    if InnerBlock(stmts[0], blockType) == Some(b) {
      assert stmts[0] in stmts;
    } else {
      InBlocks(stmts[1..], blockType, b);
    }
  }

  lemma ChildOf(t: Tree, c: Tree)
    requires BytesNested(t) && c in t.children
    ensures BytesNested(c) && t.startByte <= c.startByte <= c.endByte <= t.endByte
  {
    ChildNested(t.children, t.startByte, t.endByte, c);
  }

  /** Everything behind the scope survives a substitution inside it. */
  lemma {:induction false} RestKeepsTail(text: string, from: nat, ids: seq<Range>, name: string, with_: string,
                                         high: nat) returns (mid: string)
    requires InOrder(ids, from, high) && high <= |text|
    ensures InOrder(ids, from, |text|)
    ensures Rest(text, from, ids, name, with_) == mid + text[high..]
    decreases |ids|
  {
    InOrderHigher(ids, from, high, |text|);
    InOrderBounds(ids, from, high);
    if ids == [] {
      mid := text[from..high];
    } else {
      var tail := RestKeepsTail(text, ids[0].end, ids[1..], name, with_, high);
      mid := PrependTail(text, from, ids, name, with_, high, tail);
    }
  }

  lemma PrependTail(text: string, from: nat, ids: seq<Range>, name: string, with_: string, high: nat, tail: string)
      returns (mid: string)
    requires InOrder(ids, from, |text|) && ids != [] && high <= |text|
    requires Rest(text, ids[0].end, ids[1..], name, with_) == tail + text[high..]
    ensures Rest(text, from, ids, name, with_) == mid + text[high..]
  {
    RestStep(text, from, ids, name, with_);
    var word := text[ids[0].start..ids[0].end];
    var head := text[from..ids[0].start] + if word == name then with_ else word;
    mid := head + tail;
    Associative(head, tail, text[high..]);
  }

  lemma RenameIsLocal(source: string, node: Tree, oldName: string, newName: string)
    requires ScopeOf(source, node)
    ensures LocalEdit(source, RenameIn(source, node, oldName, newName), node.startByte, node.endByte)
  {
    var low, high, ids := node.startByte, node.endByte, Identifiers(node);
    if oldName == "" || oldName == newName {
      assert source == source[..low] + source[low..high] + source[high..];
    } else {
      IdentifiersInOrder(node);
      OccurrencesAreIdentifiers(source, node, oldName);
      var mid := RestKeepsTail(source, low, ids, oldName, newName, high);
      SpliceIsSubstitution(source, low, ids, oldName, newName);
      assert source[..low] + (mid + source[high..]) == source[..low] + mid + source[high..];
    }
  }

  lemma Widen(source: string, edited: string, low: nat, high: nat, lower: nat)
    requires LocalEdit(source, edited, low, high) && lower <= low
    ensures LocalEdit(source, edited, lower, high)
  {
    var mid :| edited == source[..low] + mid + source[high..];
    assert edited == source[..lower] + (source[lower..low] + mid) + source[high..];
  }

  /** The symbol and its body, as found in a nested tree. */
  ghost predicate BodyOf(source: string, node: Tree, body: Tree) {
    node.startByte <= body.startByte <= body.endByte <= node.endByte <= |source| && BytesNested(body)
  }

  // ------------------------------------------------------------ effect of the three kinds of edit

  lemma AddressedNested(source: string, node: Tree, body: Tree, p: Patch)
    requires BodyOf(source, node, body) && Addressed(body, p).Some?
    ensures var n := Addressed(body, p).value; body.startByte <= n.startByte <= n.endByte <= body.endByte
  {
    var n := Addressed(body, p).value;
    if Target(p) in BLOCK_TARGETS {
      InBlocks(body.children, Target(p), n);
      var s :| s in body.children && n in s.children;
      ChildOf(body, s);
      ChildOf(s, n);
    } else if n in body.children {
      ChildOf(body, n);
    }
  }

  lemma BlockEffect(layout: Layout, source: string, n: Tree, body: Tree, p: Patch)
    requires n.startByte <= n.endByte <= |source| && FindBlockByType(body, Target(p), p.blockIndex) == Some(n)
    requires Target(p) in BLOCK_TARGETS && ApplyToBlock(layout, source, body, Target(p), p).Ok?
    ensures Effect(layout, source, ApplyToBlock(layout, source, body, Target(p), p).value, n, p)
  {
    ReplacePuts(source, n.startByte, n.endByte, Put(layout, source, n, p));
  }

  lemma StatementEffect(layout: Layout, source: string, n: Tree, body: Tree, p: Patch)
    requires 0 <= p.statementIndex < |body.children| && n == body.children[p.statementIndex]
    requires Target(p) == "statement" || Target(p) == "statement_after"
    requires n.startByte <= n.endByte <= |source| && ApplyToStatement(layout, source, body, Target(p), p).Ok?
    ensures Effect(layout, source, ApplyToStatement(layout, source, body, Target(p), p).value, n, p)
  {
    ReplacePuts(source, StretchStart(source, n, p), StretchEnd(source, n, p), Put(layout, source, n, p));
  }

  lemma BodyEffect(layout: Layout, source: string, body: Tree, p: Patch)
    requires Target(p) !in BLOCK_TARGETS && Target(p) != "statement" && Target(p) != "statement_after"
    requires body.startByte <= body.endByte <= |source| && ApplyToBody(layout, source, body, Target(p), p).Ok?
    ensures Effect(layout, source, ApplyToBody(layout, source, body, Target(p), p).value, body, p)
  {
    assert "" + layout.insertLines(p.code, layout.baseIndent(source, body))
           == layout.insertLines(p.code, layout.baseIndent(source, body));
    ReplacePuts(source, StretchStart(source, body, p), StretchEnd(source, body, p), Put(layout, source, body, p));
  }

  /** `n` lies inside `node`. */
  predicate Within(source: string, node: Tree, n: Tree) {
    node.startByte <= n.startByte <= n.endByte <= node.endByte <= |source|
  }

  /** Every symbol-targeted edit replaces the stretch named for its target and action. */
  lemma EditEffect(layout: Layout, source: string, root: Tree, p: Patch)
    requires BytesNested(root) && root.endByte <= |source|
    requires Target(p) != "module_append" && p.action != "rename" && ApplyPatch(layout, source, root, p).Ok?
    ensures FindSymbol(source, root, p.symbol).Some? && Field(FindSymbol(source, root, p.symbol).value, "body").Some?
    ensures var n := Addressed(Field(FindSymbol(source, root, p.symbol).value, "body").value, p);
            && n.Some? && Within(source, FindSymbol(source, root, p.symbol).value, n.value)
            && Addresses(Field(FindSymbol(source, root, p.symbol).value, "body").value, p, n.value)
            && Effect(layout, source, ApplyPatch(layout, source, root, p).value, n.value, p)
  {
    var node := FindSymbol(source, root, p.symbol).value;
    var body := Field(node, "body").value;
    FindAmongSearchesAll(source, root.children, "", p.symbol);
    DescendantsNested(root.children, root.startByte, root.endByte, node);
    ChildOf(node, body);
    AddressedNested(source, node, body, p);
    AddressedIs(body, p);
    var n := Addressed(body, p).value;
    if Target(p) in BLOCK_TARGETS {
      BlockEffect(layout, source, n, body, p);
    } else if Target(p) == "statement" || Target(p) == "statement_after" {
      StatementEffect(layout, source, n, body, p);
    } else {
      BodyEffect(layout, source, body, p);
    }
  }

  lemma StartDetermined(source: string, edited: string, a: nat, b: nat, end: nat, put: string)
    requires Puts(source, edited, a, end, put) && Puts(source, edited, b, end, put)
    ensures a == b
  {
    assert |edited| == a + |put| + |source| - end;
    assert |edited| == b + |put| + |source| - end;
  }

  /** Main theorem: a replacement or deletion removes no more than the addressed node, the blank
      text in front of it and, for a deleted statement, one newline, if and only if it is not
      line-based or nothing but blanks stands before the node on its line. */
  lemma RemovesOnlyIff(layout: Layout, source: string, root: Tree, p: Patch)
    requires BytesNested(root) && root.endByte <= |source|
    requires Target(p) != "module_append" && (p.action == "replace" || p.action == "delete")
    requires ApplyPatch(layout, source, root, p).Ok?
    ensures FindSymbol(source, root, p.symbol).Some? && Field(FindSymbol(source, root, p.symbol).value, "body").Some?
    ensures var n := Addressed(Field(FindSymbol(source, root, p.symbol).value, "body").value, p);
            n.Some?
            && (RemovesOnly(source, ApplyPatch(layout, source, root, p).value, n.value,
                            StretchEnd(source, n.value, p), Put(layout, source, n.value, p))
                <==> (!LineBased(p)
                      || BlankFrom(source, LineStart(source, n.value.startByte), n.value.startByte)))
  {
    EditEffect(layout, source, root, p);
    var n := Addressed(Field(FindSymbol(source, root, p.symbol).value, "body").value, p).value;
    var edited, start := ApplyPatch(layout, source, root, p).value, StretchStart(source, n, p);
    var end, put := StretchEnd(source, n, p), Put(layout, source, n, p);
    if a: nat :| a <= n.startByte && BlankFrom(source, a, n.startByte) && Puts(source, edited, a, end, put) {
      StartDetermined(source, edited, a, start, end, put);
    }
    if BlankFrom(source, start, n.startByte) { assert Puts(source, edited, start, end, put); }
    if !LineBased(p) { assert BlankFrom(source, start, n.startByte); }
  }

  lemma EffectStaysInside(layout: Layout, source: string, edited: string, node: Tree, n: Tree, p: Patch)
    requires Within(source, node, n) && Effect(layout, source, edited, n, p)
    ensures StaysInside(source, edited, node)
  {
    var a, b := StretchStart(source, n, p), StretchEnd(source, n, p);
    var low, high := LineStart(source, node.startByte), Max(b, node.endByte);
    LineStartMonotone(source, node.startByte, n.startByte);
    PutIsLocal(source, edited, a, b, Put(layout, source, n, p), low, high);
    assert EndOf(source, node, high);
  }

  /** Main theorem: every symbol-targeted edit keeps all text before the first line of the
      symbol, and all text after its end up to at most one newline. */
  lemma EditIsLocal(layout: Layout, source: string, root: Tree, p: Patch)
    requires BytesNested(root) && root.endByte <= |source|
    requires Target(p) != "module_append" && ApplyPatch(layout, source, root, p).Ok?
    ensures FindSymbol(source, root, p.symbol).Some?
    ensures StaysInside(source, ApplyPatch(layout, source, root, p).value, FindSymbol(source, root, p.symbol).value)
  {
    var node := FindSymbol(source, root, p.symbol).value;
    var edited := ApplyPatch(layout, source, root, p).value;
    if p.action == "rename" {
      FindAmongSearchesAll(source, root.children, "", p.symbol);
      DescendantsNested(root.children, root.startByte, root.endByte, node);
      RenameIsLocal(source, node, p.oldName, p.newName);
      Widen(source, edited, node.startByte, node.endByte, LineStart(source, node.startByte));
      assert EndOf(source, node, node.endByte);
    } else {
      EditEffect(layout, source, root, p);
      EffectStaysInside(layout, source, edited, node, Addressed(Field(node, "body").value, p).value, p);
    }
  }
}
