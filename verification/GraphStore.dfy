/** The two tables of the symbol graph, as a value and as the mutable store. */
module GraphStore {
  import opened Prelude

  /** One symbol record, as written to symbols.json and to a row of `nodes`. */
  datatype Symbol = Symbol(name: string, kind: string, file: string, startLine: int, endLine: int,
                           docstring: string, typeInfo: string, signature: string)

  datatype Node = Node(id: int, record: Symbol)

  datatype Edge = Edge(source: int, target: int, edgeType: string)

  datatype Direction = Out | In | Both

  /** `lastId` is the AUTOINCREMENT counter: the largest id ever handed out. */
  datatype Tables = Tables(nodes: seq<Node>, edges: seq<Edge>, lastId: nat)

  const EMPTY := Tables([], [], 0)

  function NodeIds(nodes: seq<Node>): set<int> {
    set n | n in nodes :: n.id
  }

  lemma NodeIdsAppend(a: seq<Node>, b: seq<Node>)
    ensures NodeIds(a + b) == NodeIds(a) + NodeIds(b)
  {
    forall n ensures n in a + b <==> n in a || n in b {}
  }

  predicate Live(t: Tables, id: int) {
    id in NodeIds(t.nodes)
  }

  ghost predicate Ascending(nodes: seq<Node>) {
    forall i, j :: 0 <= i < j < |nodes| ==> nodes[i].id < nodes[j].id
  }

  predicate Joins(t: Tables, e: Edge) {
    Live(t, e.source) && Live(t, e.target) && e.source != e.target
  }

  /** Ids are unique and were handed out; every edge joins two different live nodes. */
  ghost predicate WellFormed(t: Tables) {
    && Ascending(t.nodes)
    && (forall n :: n in t.nodes ==> 1 <= n.id <= t.lastId)
    && (forall e :: e in t.edges ==> Joins(t, e))
  }

  // ------------------------------------------------------------ the statements

  function Insert(t: Tables, s: Symbol): Tables {
    t.(nodes := t.nodes + [Node(t.lastId + 1, s)], lastId := t.lastId + 1)
  }

  function Connect(t: Tables, e: Edge): Tables {
    t.(edges := t.edges + [e])
  }

  function OutsideFile(path: string): Node -> bool {
    (n: Node) => n.record.file != path
  }

  function InsideFile(path: string): Node -> bool {
    (n: Node) => n.record.file == path
  }

  function Avoids(ids: set<int>): Edge -> bool {
    (e: Edge) => e.source !in ids && e.target !in ids
  }

  function FileIds(t: Tables, path: string): set<int> {
    NodeIds(Filter(t.nodes, InsideFile(path)))
  }

  function RemoveFile(t: Tables, path: string): Tables {
    t.(nodes := Filter(t.nodes, OutsideFile(path)),
       edges := Filter(t.edges, Avoids(FileIds(t, path))))
  }

  function FirstNamed(nodes: seq<Node>, name: string): (r: Option<Node>)
    ensures r.Some? ==> r.value in nodes && r.value.record.name == name
    ensures r.None? ==> forall n :: n in nodes ==> n.record.name != name
  {
    if nodes == [] then None
    else if nodes[0].record.name == name then Some(nodes[0])
    else FirstNamed(nodes[1..], name)
  }

  /** `id` is that of the first row called `name`. */
  ghost predicate FirstRow(nodes: seq<Node>, name: string, id: int) {
    exists k :: 0 <= k < |nodes| && nodes[k].record.name == name && nodes[k].id == id
                && forall j :: 0 <= j < k ==> nodes[j].record.name != name
  }

  lemma {:induction false} FirstNamedIsFirst(nodes: seq<Node>, name: string, id: int)
    ensures FirstRow(nodes, name, id) <==> FirstNamed(nodes, name).Some? && FirstNamed(nodes, name).value.id == id
    decreases |nodes|
  {
    if nodes != [] && nodes[0].record.name != name {
      var rest := nodes[1..];
      FirstNamedIsFirst(rest, name, id);
      if k :| 0 <= k < |rest| && rest[k].record.name == name && rest[k].id == id
              && forall j :: 0 <= j < k ==> rest[j].record.name != name {
        var at := k + 1;
        assert nodes[at] == rest[k];
        forall j | 0 <= j < at ensures nodes[j].record.name != name { if j > 0 { assert nodes[j] == rest[j - 1]; } }
      }
      if k :| 0 <= k < |nodes| && nodes[k].record.name == name && nodes[k].id == id
              && forall j :: 0 <= j < k ==> nodes[j].record.name != name {
        var at := k - 1;
        assert rest[at] == nodes[k];
        forall j | 0 <= j < at ensures rest[j].record.name != name { assert rest[j] == nodes[j + 1]; }
      }
    }
  }

  function RowById(nodes: seq<Node>, id: int): (r: Option<Node>)
    ensures r.Some? ==> r.value in nodes && r.value.id == id
    ensures r.Some? <==> id in NodeIds(nodes)
  {
    if nodes == [] then None
    else if nodes[0].id == id then assert nodes[0] in nodes; Some(nodes[0])
    else
      assert forall n :: n in nodes <==> n == nodes[0] || n in nodes[1..];
      RowById(nodes[1..], id)
  }

  /** Does `e` lead from `id` to `other` in the given direction and with an admitted type? */
  predicate Leads(e: Edge, id: int, other: int, dir: Direction, types: seq<string>) {
    && (types == [] || e.edgeType in types)
    && match dir
       case Out => e.source == id && e.target == other
       case In => e.target == id && e.source == other
       case Both => (e.source == id && e.target == other) || (e.target == id && e.source == other)
  }

  function AdjacentTo(edges: seq<Edge>, id: int, dir: Direction, types: seq<string>): Node -> bool {
    (n: Node) => exists e :: e in edges && Leads(e, id, n.id, dir, types)
  }

  /** The distinct rows joined to `id`; SQL leaves their order open, this model takes row order. */
  function Neighbors(t: Tables, id: int, dir: Direction, types: seq<string>): seq<Node> {
    Filter(t.nodes, AdjacentTo(t.edges, id, dir, types))
  }

  // ------------------------------------------------------------ the store

  class GraphStorage {
    var nodes: seq<Node>
    var edges: seq<Edge>
    var lastId: nat

    function Contents(): Tables
      reads this
    {
      Tables(nodes, edges, lastId)
    }

    constructor ()
      ensures Contents() == EMPTY
    {
      nodes, edges, lastId := [], [], 0;
    }

    method AddNode(s: Symbol) returns (id: int)
      modifies this
      ensures Contents() == Insert(old(Contents()), s)
      ensures id == old(lastId) + 1 && Node(id, s) in nodes
    {
      lastId := lastId + 1;
      nodes := nodes + [Node(lastId, s)];
      id := lastId;
    }

    method AddEdge(source: int, target: int, edgeType: string)
      modifies this
      ensures Contents() == Connect(old(Contents()), Edge(source, target, edgeType))
    {
      edges := edges + [Edge(source, target, edgeType)];
    }

    method RemoveNodesForFile(path: string) returns (ids: seq<int>)
      modifies this
      ensures Contents() == RemoveFile(old(Contents()), path)
      ensures forall id :: id in ids <==> id in old(FileIds(Contents(), path))
    {
      var rows := Filter(nodes, InsideFile(path));
      ids := Map(rows, (n: Node) => n.id);
      forall id ensures id in ids <==> id in FileIds(Contents(), path) {
        if id in ids { var i :| 0 <= i < |ids| && ids[i] == id; assert rows[i] in rows; }
        if id in FileIds(Contents(), path) {
          var n :| n in rows && n.id == id;
          var i :| 0 <= i < |rows| && rows[i] == n;
          assert ids[i] == id;
        }
      }
      var gone := set id | id in ids;
      FilterMembers(nodes, InsideFile(path));
      assert gone == FileIds(Contents(), path);
      if ids == [] {
        FilterAll(nodes, OutsideFile(path));
        FilterAll(edges, Avoids(gone));
        return;
      }
      edges := Filter(edges, Avoids(gone));
      nodes := Filter(nodes, OutsideFile(path));
    }

    function GetSymbol(id: int): Option<Node>
      reads this
    {
      RowById(nodes, id)
    }

    function GetNeighbors(id: int, dir: Direction, types: seq<string>): seq<Node>
      reads this
    {
      Neighbors(Contents(), id, dir, types)
    }
  }

  // ------------------------------------------------------------ what statements keep

  lemma InsertKeeps(t: Tables, s: Symbol)
    requires WellFormed(t)
    ensures WellFormed(Insert(t, s))
  {
    var u, n := Insert(t, s), Node(t.lastId + 1, s);
    NodeIdsAppend(t.nodes, [n]);
    forall i | 0 <= i < |t.nodes| ensures t.nodes[i].id < n.id { assert t.nodes[i] in t.nodes; }
  }

  lemma {:induction false} FilterAscending(nodes: seq<Node>, p: Node -> bool)
    requires Ascending(nodes)
    ensures Ascending(Filter(nodes, p))
  {
    if nodes != [] {
      FilterAscending(nodes[1..], p);
      FilterMembers(nodes[1..], p);
      var rest := Filter(nodes[1..], p);
      forall i | 0 <= i < |rest| ensures nodes[0].id < rest[i].id {
        assert rest[i] in nodes[1..];
      }
    }
  }

  /** Removing a file leaves no dangling edge, and keeps exactly the rows of other files
      and the edges whose two ends lie in other files. */
  lemma RemoveFileKeeps(t: Tables, path: string)
    requires WellFormed(t)
    ensures var u := RemoveFile(t, path);
            && WellFormed(u)
            && (forall n :: n in u.nodes <==> n in t.nodes && n.record.file != path)
            && (forall e :: e in u.edges <==> e in t.edges && Live(u, e.source) && Live(u, e.target))
  {
    var u := RemoveFile(t, path);
    FilterAscending(t.nodes, OutsideFile(path));
    FilterMembers(t.nodes, OutsideFile(path));
    FilterMembers(t.edges, Avoids(FileIds(t, path)));
    forall n | n in t.nodes ensures Live(u, n.id) <==> n.id !in FileIds(t, path) {
      RowSurvives(t, path, n);
    }
  }

  lemma RowSurvives(t: Tables, path: string, n: Node)
    requires Ascending(t.nodes) && n in t.nodes
    ensures n.id in FileIds(t, path) <==> n.record.file == path
    ensures Live(RemoveFile(t, path), n.id) <==> n.record.file != path
  {
    var inside, outside := Filter(t.nodes, InsideFile(path)), Filter(t.nodes, OutsideFile(path));
    FilterMembers(t.nodes, InsideFile(path));
    FilterMembers(t.nodes, OutsideFile(path));
    assert n in inside || n in outside;
    forall m | m in t.nodes && m.id == n.id ensures m == n { UniqueRow(t, m, n); }
  }

  lemma UniqueRow(t: Tables, a: Node, b: Node)
    requires Ascending(t.nodes) && a in t.nodes && b in t.nodes && a.id == b.id
    ensures a == b
  {}

  /** Neighbours are the live nodes at the other end of some admitted edge. */
  lemma NeighborsAreJoined(t: Tables, id: int, dir: Direction, types: seq<string>, n: Node)
    ensures n in Neighbors(t, id, dir, types) <==>
            n in t.nodes && exists e :: e in t.edges && Leads(e, id, n.id, dir, types)
  {
    FilterMembers(t.nodes, AdjacentTo(t.edges, id, dir, types));
  }
}
