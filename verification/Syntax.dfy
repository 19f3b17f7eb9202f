/** The shape of a parsed file, as the foreign parser hands it over. */
module Syntax {
  import opened Prelude
  import opened Text

  /** A syntax node: byte range, 1-based lines, its children in order, and which of the
      children carry a field name (`name`, `body`, `consequence`). */
  datatype Tree = Tree(kind: string, startByte: nat, endByte: nat, startLine: nat, endLine: nat,
                       fields: map<string, nat>, children: seq<Tree>)

  /** `node.child_by_field_name(name)` */
  function Field(t: Tree, name: string): (r: Option<Tree>)
    ensures r.Some? ==> r.value in t.children
  {
    if name in t.fields && t.fields[name] < |t.children| then Some(t.children[t.fields[name]]) else None
  }

  predicate IsDef(t: Tree) {
    t.kind == "function_definition" || t.kind == "class_definition"
  }

  /** The name a definition node carries in `source`; empty if it has none. */
  function DefName(t: Tree, source: string): string {
    match Field(t, "name")
    case None => ""
    case Some(n) => Slice(source, n.startByte, n.endByte)
  }

  predicate Named(t: Tree, source: string) {
    IsDef(t) && DefName(t, source) != ""
  }

  /** Every node of the tree exactly once, parents before children, children in order. */
  function PreOrder(t: Tree): seq<Tree>
    decreases t, 1
  {
    [t] + PreOrders(t.children)
  }

  function PreOrders(ts: seq<Tree>): seq<Tree>
    decreases ts, 0
  {
    if ts == [] then [] else PreOrder(ts[0]) + PreOrders(ts[1..])
  }
}
