/** The module-level map of the repository and its dependency quotient (repo_graph/repo_map_builder.py). */
module RepoMap {
  import opened Prelude
  import opened GraphStore

  datatype SymbolInfo = SymbolInfo(file: string, kind: string, line: int, mod: string)

  datatype ModuleData = ModuleData(files: seq<string>, symbols: seq<string>)

  datatype CodeMap = CodeMap(modules: map<string, ModuleData>, symbols: map<string, SymbolInfo>,
                             calls: map<string, seq<string>>)

  datatype ModuleEntry = ModuleEntry(name: string, files: seq<string>, keySymbols: seq<string>,
                                     dependencies: seq<string>)

  /** How the map names files: `moduleOf` gives the module of a file, `relative` its path under the root. */
  datatype Naming = Naming(moduleOf: string -> string, relative: string -> string)

  const KEY_SYMBOLS := 20

  // ------------------------------------------------------------ what the map should say

  /** The last row carrying `name`. */
  function LastNamed(nodes: seq<Node>, name: string): Option<Node> {
    if nodes == [] then None
    else
      var last := nodes[|nodes| - 1];
      if last.record.name == name then Some(last) else LastNamed(nodes[..|nodes| - 1], name)
  }

  function InfoOf(naming: Naming, n: Node): SymbolInfo {
    SymbolInfo(naming.relative(n.record.file), n.record.kind, n.record.startLine, naming.moduleOf(n.record.file))
  }

  /** The module a name is recorded in: that of its last row; empty if it has none. */
  function ModuleOfName(naming: Naming, nodes: seq<Node>, name: string): string {
    if name == "" then ""
    else match LastNamed(nodes, name) case None => "" case Some(n) => naming.moduleOf(n.record.file)
  }

  /** `e` joins two named rows called `a` and `b`. */
  ghost predicate Links(nodes: seq<Node>, e: Edge, a: string, b: string) {
    a != "" && b != "" && (exists m :: m in nodes && m.id == e.source && m.record.name == a)
    && (exists n :: n in nodes && n.id == e.target && n.record.name == b)
  }

  /** Module `m` depends on module `n` through some stored edge. */
  ghost predicate DependsOnModule(naming: Naming, t: Tables, m: string, n: string) {
    m != "" && n != "" && m != n
    && exists e, a, b :: e in t.edges && Links(t.nodes, e, a, b)
                         && ModuleOfName(naming, t.nodes, a) == m && ModuleOfName(naming, t.nodes, b) == n
  }

  // ------------------------------------------------------------ rows

  function AddId(byId: map<int, Node>, n: Node): map<int, Node> {
    if n.record.name == "" then byId else byId[n.id := n]
  }

  function AddSymbol(naming: Naming, symbols: map<string, SymbolInfo>, n: Node): map<string, SymbolInfo> {
    if n.record.name == "" then symbols else symbols[n.record.name := InfoOf(naming, n)]
  }

  function AddToModule(naming: Naming, modules: map<string, ModuleData>, n: Node): map<string, ModuleData> {
    if n.record.name == "" then modules
    else
      var m := naming.moduleOf(n.record.file);
      var data := if m in modules then modules[m] else ModuleData([], []);
      modules[m := ModuleData(AppendOnce(data.files, naming.relative(n.record.file)),
                              AppendOnce(data.symbols, n.record.name))]
  }

  function Ids(nodes: seq<Node>): map<int, Node> {
    if nodes == [] then map[] else AddId(Ids(nodes[..|nodes| - 1]), nodes[|nodes| - 1])
  }

  function Symbols(naming: Naming, nodes: seq<Node>): map<string, SymbolInfo> {
    if nodes == [] then map[] else AddSymbol(naming, Symbols(naming, nodes[..|nodes| - 1]), nodes[|nodes| - 1])
  }

  function Modules(naming: Naming, nodes: seq<Node>): map<string, ModuleData> {
    if nodes == [] then map[] else AddToModule(naming, Modules(naming, nodes[..|nodes| - 1]), nodes[|nodes| - 1])
  }

  method CollectRows(naming: Naming, nodes: seq<Node>)
    returns (byId: map<int, Node>, modules: map<string, ModuleData>, symbols: map<string, SymbolInfo>)
    ensures byId == Ids(nodes) && modules == Modules(naming, nodes) && symbols == Symbols(naming, nodes)
  {
    byId, modules, symbols := map[], map[], map[];
    for i := 0 to |nodes|
      invariant byId == Ids(nodes[..i]) && modules == Modules(naming, nodes[..i])
                && symbols == Symbols(naming, nodes[..i])
    {
      var n := nodes[i];
      assert nodes[..i + 1][..i] == nodes[..i];
      if n.record.name == "" {
        continue;
      }
      byId := AddId(byId, n);
      symbols := AddSymbol(naming, symbols, n);
      modules := AddToModule(naming, modules, n);
    }
    assert nodes[..|nodes|] == nodes;
  }

  /** A name stands for its last row. */
  lemma {:induction false} SymbolIsLastRow(naming: Naming, nodes: seq<Node>, x: string)
    ensures Get(Symbols(naming, nodes), x)
            == if x == "" then None
               else match LastNamed(nodes, x) case None => None case Some(n) => Some(InfoOf(naming, n))
    decreases |nodes|
  {
    if nodes != [] { SymbolIsLastRow(naming, nodes[..|nodes| - 1], x); }
  }

  /** Row `k` is the last one called `x`. */
  ghost predicate LastAt(nodes: seq<Node>, x: string, k: nat) {
    k < |nodes| && nodes[k].record.name == x && forall j :: k < j < |nodes| ==> nodes[j].record.name != x
  }

  lemma {:induction false} LastNamedAt(nodes: seq<Node>, x: string, k: nat)
    requires LastAt(nodes, x, k)
    ensures LastNamed(nodes, x) == Some(nodes[k])
    decreases |nodes|
  {
    if k < |nodes| - 1 { LastNamedAt(nodes[..|nodes| - 1], x, k); }
  }

  lemma {:induction false} LastNamedNone(nodes: seq<Node>, x: string)
    ensures LastNamed(nodes, x).None? <==> forall n :: n in nodes ==> n.record.name != x
    decreases |nodes|
  {
    if nodes != [] {
      LastNamedNone(nodes[..|nodes| - 1], x);
      assert nodes == nodes[..|nodes| - 1] + [nodes[|nodes| - 1]];
    }
  }

  /** A name is recorded exactly if some row carries it ... */
  lemma SymbolIsRecorded(naming: Naming, nodes: seq<Node>, x: string)
    ensures x in Symbols(naming, nodes) <==> x != "" && exists n :: n in nodes && n.record.name == x
  {
    SymbolIsLastRow(naming, nodes, x);
    LastNamedNone(nodes, x);
  }

  /** ... with what the last such row says. */
  lemma LastRowRecorded(naming: Naming, nodes: seq<Node>, x: string, k: nat)
    requires x != "" && LastAt(nodes, x, k)
    ensures var s, symbols := nodes[k].record, Symbols(naming, nodes);
            && x in symbols && symbols[x].line == s.startLine && symbols[x].kind == s.kind
            && symbols[x].file == naming.relative(s.file) && symbols[x].mod == naming.moduleOf(s.file)
  {
    SymbolIsLastRow(naming, nodes, x);
    LastNamedAt(nodes, x, k);
  }

  lemma {:induction false} IdIsRow(nodes: seq<Node>, id: int, name: string)
    requires Ascending(nodes)
    ensures (id in Ids(nodes) && Ids(nodes)[id].record.name == name)
            <==> name != "" && exists n :: n in nodes && n.id == id && n.record.name == name
    decreases |nodes|
  {
    if nodes != [] {
      var before, last := nodes[..|nodes| - 1], nodes[|nodes| - 1];
      IdIsRow(before, id, name);
      assert nodes == before + [last];
      LastRowLast(nodes, id);
    }
  }

  lemma LastRowLast(nodes: seq<Node>, id: int)
    requires Ascending(nodes) && nodes != []
    ensures var last := nodes[|nodes| - 1];
            id == last.id ==> forall n :: n in nodes && n.id == id ==> n == last
  {}

  /** The named rows of a module. */
  function OfModule(naming: Naming, m: string): Node -> bool {
    (n: Node) => n.record.name != "" && naming.moduleOf(n.record.file) == m
  }

  function NamesOf(naming: Naming, nodes: seq<Node>, m: string): seq<string> {
    Map(Filter(nodes, OfModule(naming, m)), (n: Node) => n.record.name)
  }

  function FilesOf(naming: Naming, nodes: seq<Node>, m: string): seq<string> {
    Map(Filter(nodes, OfModule(naming, m)), (n: Node) => naming.relative(n.record.file))
  }

  /** A module exists exactly if it has a named row, and lists the names and the files of its rows,
      each once, in the order in which they first occur. */
  lemma {:induction false} ModuleListsItsRows(naming: Naming, nodes: seq<Node>, m: string)
    ensures m in Modules(naming, nodes) <==> NamesOf(naming, nodes, m) != []
    ensures m in Modules(naming, nodes) ==>
              && FirstSeen(NamesOf(naming, nodes, m), Modules(naming, nodes)[m].symbols)
              && FirstSeen(FilesOf(naming, nodes, m), Modules(naming, nodes)[m].files)
    decreases |nodes|
  {
    if nodes != [] {
      var before, last := nodes[..|nodes| - 1], nodes[|nodes| - 1];
      ModuleListsItsRows(naming, before, m);
      RowAdded(naming, before, last, m);
      assert nodes == before + [last];
      AddToModuleLists(naming, Modules(naming, before), last, m, NamesOf(naming, before, m),
                       FilesOf(naming, before, m));
    }
  }

  lemma RowAdded(naming: Naming, nodes: seq<Node>, n: Node, m: string)
    ensures var names, files := NamesOf(naming, nodes, m), FilesOf(naming, nodes, m);
            && NamesOf(naming, nodes + [n], m) == (if OfModule(naming, m)(n) then names + [n.record.name] else names)
            && FilesOf(naming, nodes + [n], m)
               == if OfModule(naming, m)(n) then files + [naming.relative(n.record.file)] else files
  {
    FilterAppend(nodes, [n], OfModule(naming, m));
  }

  /** One more row, told apart by whether it is one of the module's. */
  lemma AddToModuleLists(naming: Naming, modules: map<string, ModuleData>, n: Node, m: string,
                         names: seq<string>, files: seq<string>)
    requires m in modules <==> names != []
    requires |files| == |names|
    requires m in modules ==> FirstSeen(names, modules[m].symbols) && FirstSeen(files, modules[m].files)
    ensures var more := AddToModule(naming, modules, n);
            if OfModule(naming, m)(n) then
              m in more && FirstSeen(names + [n.record.name], more[m].symbols)
              && FirstSeen(files + [naming.relative(n.record.file)], more[m].files)
            else (m in more <==> m in modules) && (m in modules ==> more[m] == modules[m])
  {
    if OfModule(naming, m)(n) {
      var data := if m in modules then modules[m] else ModuleData([], []);
      FirstSeenStep(names, data.symbols, n.record.name);
      FirstSeenStep(files, data.files, naming.relative(n.record.file));
    }
  }

  // ------------------------------------------------------------ calls

  function AddCall(calls: map<string, seq<string>>, byId: map<int, Node>, e: Edge): map<string, seq<string>> {
    if e.source in byId && e.target in byId then
      var a, b := byId[e.source].record.name, byId[e.target].record.name;
      calls[a := AppendOnce(if a in calls then calls[a] else [], b)]
    else calls
  }

  function Calls(byId: map<int, Node>, edges: seq<Edge>): map<string, seq<string>> {
    if edges == [] then map[] else AddCall(Calls(byId, edges[..|edges| - 1]), byId, edges[|edges| - 1])
  }

  method CollectCalls(byId: map<int, Node>, edges: seq<Edge>) returns (calls: map<string, seq<string>>)
    ensures calls == Calls(byId, edges)
  {
    calls := map[];
    for i := 0 to |edges|
      invariant calls == Calls(byId, edges[..i])
    {
      assert edges[..i + 1][..i] == edges[..i];
      calls := AddCall(calls, byId, edges[i]);
    }
    assert edges[..|edges|] == edges;
  }

  predicate Called(calls: map<string, seq<string>>, a: string, b: string) {
    a in calls && b in calls[a]
  }

  lemma {:induction false} CallsAreLinks(nodes: seq<Node>, edges: seq<Edge>, a: string, b: string)
    requires Ascending(nodes)
    ensures Called(Calls(Ids(nodes), edges), a, b) <==> exists e :: e in edges && Links(nodes, e, a, b)
    decreases |edges|
  {
    if edges != [] {
      var before, last := edges[..|edges| - 1], edges[|edges| - 1];
      CallsAreLinks(nodes, before, a, b);
      CallIsLink(nodes, Calls(Ids(nodes), before), last, a, b);
      assert edges == before + [last];
    }
  }

  lemma CallIsLink(nodes: seq<Node>, calls: map<string, seq<string>>, e: Edge, a: string, b: string)
    requires Ascending(nodes)
    ensures Called(AddCall(calls, Ids(nodes), e), a, b) <==> Called(calls, a, b) || Links(nodes, e, a, b)
  {
    IdIsRow(nodes, e.source, a);
    IdIsRow(nodes, e.target, b);
    var byId := Ids(nodes);
    assert Links(nodes, e, a, b) <==>
           e.source in byId && byId[e.source].record.name == a && e.target in byId && byId[e.target].record.name == b;
  }

  /** The edges from rows called `a` to named rows. */
  function EdgesFrom(byId: map<int, Node>, a: string): Edge -> bool {
    (e: Edge) => e.source in byId && e.target in byId && byId[e.source].record.name == a
  }

  function NameOf(byId: map<int, Node>, id: int): string {
    match Get(byId, id) case None => "" case Some(n) => n.record.name
  }

  function CalledFrom(byId: map<int, Node>, edges: seq<Edge>, a: string): seq<string> {
    Map(Filter(edges, EdgesFrom(byId, a)), (e: Edge) => NameOf(byId, e.target))
  }

  /** A name lists what its rows lead to, each once, in the order in which the edges first do. */
  lemma {:induction false} CallsInOrder(byId: map<int, Node>, edges: seq<Edge>, a: string)
    ensures a in Calls(byId, edges) <==> CalledFrom(byId, edges, a) != []
    ensures a in Calls(byId, edges) ==> FirstSeen(CalledFrom(byId, edges, a), Calls(byId, edges)[a])
    decreases |edges|
  {
    if edges != [] {
      var before, last := edges[..|edges| - 1], edges[|edges| - 1];
      CallsInOrder(byId, before, a);
      assert edges == before + [last];
      FilterAppend(before, [last], EdgesFrom(byId, a));
      CallAdded(byId, Calls(byId, before), last, a, CalledFrom(byId, before, a));
      if EdgesFrom(byId, a)(last) {
        assert CalledFrom(byId, edges, a) == CalledFrom(byId, before, a) + [byId[last.target].record.name];
      } else {
        assert CalledFrom(byId, edges, a) == CalledFrom(byId, before, a);
      }
    }
  }

  lemma CallAdded(byId: map<int, Node>, calls: map<string, seq<string>>, e: Edge, a: string, called: seq<string>)
    requires (a in calls <==> called != []) && (a in calls ==> FirstSeen(called, calls[a]))
    ensures var more := AddCall(calls, byId, e);
            if EdgesFrom(byId, a)(e) then
              a in more && FirstSeen(called + [byId[e.target].record.name], more[a])
            else (a in more <==> a in calls) && (a in calls ==> more[a] == calls[a])
  {
    if EdgesFrom(byId, a)(e) {
      FirstSeenStep(called, if a in calls then calls[a] else [], byId[e.target].record.name);
    }
  }

  method BuildRepoMapFromStorage(naming: Naming, t: Tables) returns (r: CodeMap)
    ensures r == CodeMap(Modules(naming, t.nodes), Symbols(naming, t.nodes), Calls(Ids(t.nodes), t.edges))
  {
    var byId, modules, symbols := CollectRows(naming, t.nodes);
    var calls := CollectCalls(byId, t.edges);
    r := CodeMap(modules, symbols, calls);
  }

  // ------------------------------------------------------------ the dependency quotient

  function ModOf(r: CodeMap, x: string): string {
    if x in r.symbols then r.symbols[x].mod else ""
  }

  function TargetModules(r: CodeMap, m: string, targets: seq<string>): set<string> {
    set b | b in targets && ModOf(r, b) != "" && ModOf(r, b) != m :: ModOf(r, b)
  }

  /** Which modules `m` depends on, over the callers in `sources`. */
  function DepsOver(r: CodeMap, sources: set<string>, m: string): set<string> {
    set a, n | a in sources && a in r.calls && ModOf(r, a) == m && m != "" && n in TargetModules(r, m, r.calls[a]) :: n
  }

  function Deps(r: CodeMap, m: string): set<string> {
    DepsOver(r, r.calls.Keys, m)
  }

  /** The loop over `calls` that fills `mod_deps`; an absent module counts as the empty set. */
  method ModuleDependencies(r: CodeMap) returns (deps: map<string, set<string>>)
    ensures forall m :: (if m in deps then deps[m] else {}) == Deps(r, m)
  {
    deps := map[];
    var rest := r.calls.Keys;
    ghost var done: set<string> := {};
    while rest != {}
      invariant done + rest == r.calls.Keys && done !! rest
      invariant forall m :: (if m in deps then deps[m] else {}) == DepsOver(r, done, m)
    {
      var a :| a in rest;
      rest := rest - {a};
      var m := ModOf(r, a);
      OneMoreSource(r, done, a);
      done := done + {a};
      if m == "" {
        continue;
      }
      deps := deps[m := (if m in deps then deps[m] else {}) + TargetModules(r, m, r.calls[a])];
    }
    assert done == r.calls.Keys;
  }

  lemma OneMoreSource(r: CodeMap, done: set<string>, a: string)
    requires a in r.calls
    ensures forall m :: DepsOver(r, done + {a}, m)
                        == DepsOver(r, done, m)
                           + if ModOf(r, a) == m && m != "" then TargetModules(r, m, r.calls[a]) else {}
  {}

  /** Main theorem: the computed dependencies are the quotient of the stored graph. */
  lemma DepsAreQuotient(naming: Naming, t: Tables, m: string, n: string)
    requires Ascending(t.nodes)
    ensures var r := CodeMap(Modules(naming, t.nodes), Symbols(naming, t.nodes), Calls(Ids(t.nodes), t.edges));
            n in Deps(r, m) <==> DependsOnModule(naming, t, m, n)
  {
    var r := CodeMap(Modules(naming, t.nodes), Symbols(naming, t.nodes), Calls(Ids(t.nodes), t.edges));
    forall x ensures ModOf(r, x) == ModuleOfName(naming, t.nodes, x) { SymbolIsLastRow(naming, t.nodes, x); }
    forall a, b ensures Called(r.calls, a, b) <==> exists e :: e in t.edges && Links(t.nodes, e, a, b) {
      CallsAreLinks(t.nodes, t.edges, a, b);
    }
    if n in Deps(r, m) {
      var a :| a in r.calls && ModOf(r, a) == m && m != "" && n in TargetModules(r, m, r.calls[a]);
      var b :| b in r.calls[a] && ModOf(r, b) == n && n != "" && n != m;
      assert Called(r.calls, a, b);
    }
    if DependsOnModule(naming, t, m, n) {
      var e, a, b :| e in t.edges && Links(t.nodes, e, a, b)
                     && ModuleOfName(naming, t.nodes, a) == m && ModuleOfName(naming, t.nodes, b) == n;
      assert Called(r.calls, a, b);
      assert n in TargetModules(r, m, r.calls[a]);
    }
  }

  // ------------------------------------------------------------ sorted lists

  /** Lexicographic order of strings. */
  predicate Less(a: string, b: string) {
    b != "" && (a == "" || a[0] < b[0] || (a[0] == b[0] && Less(a[1..], b[1..])))
  }

  /** `a` is a proper prefix of `b`, or is smaller where the two first differ. */
  lemma {:induction false} LessIff(a: string, b: string)
    ensures Less(a, b) <==>
              exists k :: 0 <= k <= |a| && k < |b| && a[..k] == b[..k] && (k == |a| || a[k] < b[k])
  {
    if b == "" {
    } else if a == "" || a[0] != b[0] {
      assert a[..0] == b[..0];
      forall k | 0 < k <= |a| && k < |b| ensures a[..k] != b[..k] { assert a[..k][0] != b[..k][0]; }
    } else {
      var c, d := a[1..], b[1..];
      LessIff(c, d);
      if k :| 0 <= k <= |c| && k < |d| && c[..k] == d[..k] && (k == |c| || c[k] < d[k]) {
        var at := k + 1;
        assert a[..at] == [a[0]] + c[..k] && b[..at] == [b[0]] + d[..k];
        assert at == |a| || a[at] < b[at];
      }
      if k :| 0 <= k <= |a| && k < |b| && a[..k] == b[..k] && (k == |a| || a[k] < b[k]) {
        var at := k - 1;
        assert a[..k][1..] == b[..k][1..];
        assert c[..at] == a[..k][1..] && d[..at] == b[..k][1..];
        assert at == |c| || c[at] < d[at];
      }
    }
  }

  lemma {:induction false} LessTransitive(a: string, b: string, c: string)
    requires Less(a, b) && Less(b, c)
    ensures Less(a, c)
  {
    if a != "" && a[0] == b[0] && b[0] == c[0] { LessTransitive(a[1..], b[1..], c[1..]); }
  }

  lemma {:induction false} LessTotal(a: string, b: string)
    ensures Less(a, b) || a == b || Less(b, a)
  {
    if a != "" && b != "" && a[0] == b[0] {
      LessTotal(a[1..], b[1..]);
      assert a == [a[0]] + a[1..] && b == [b[0]] + b[1..];
    }
  }

  lemma {:induction false} LessIrreflexive(a: string)
    ensures !Less(a, a)
  {
    if a != "" { LessIrreflexive(a[1..]); }
  }

  ghost predicate Sorted(s: seq<string>) {
    forall i, j :: 0 <= i < j < |s| ==> Less(s[i], s[j])
  }

  function Insert(x: string, s: seq<string>): seq<string> {
    if s == [] || Less(x, s[0]) then [x] + s else [s[0]] + Insert(x, s[1..])
  }

  lemma {:induction false} InsertSorted(x: string, s: seq<string>)
    requires Sorted(s) && x !in s
    ensures Sorted(Insert(x, s)) && forall y :: y in Insert(x, s) <==> y == x || y in s
    decreases |s|
  {
    if s == [] {
    } else if Less(x, s[0]) {
      forall j | 0 < j < |s| ensures Less(x, s[j]) { LessTransitive(x, s[0], s[j]); }
    } else {
      LessTotal(x, s[0]);
      InsertSorted(x, s[1..]);
      var rest := Insert(x, s[1..]);
      assert forall y :: y in s <==> y == s[0] || y in s[1..];
      forall j | 0 <= j < |rest| ensures Less(s[0], rest[j]) {
        assert rest[j] in rest;
        if rest[j] != x {
          var k :| 0 <= k < |s[1..]| && s[1..][k] == rest[j];
          assert rest[j] == s[k + 1];
        }
      }
    }
  }

  /** `sorted(names)` of a set: ascending, and so without duplicates. */
  method SortNames(names: set<string>) returns (s: seq<string>)
    ensures Sorted(s) && Distinct(s) && forall x :: x in s <==> x in names
  {
    s := [];
    var rest := names;
    while rest != {}
      invariant rest <= names && Sorted(s) && forall x :: x in s <==> x in names && x !in rest
    {
      var x :| x in rest;
      InsertSorted(x, s);
      s := Insert(x, s);
      rest := rest - {x};
    }
    forall i, j | 0 <= i < j < |s| ensures s[i] != s[j] { LessIrreflexive(s[i]); }
  }

  // ------------------------------------------------------------ the legacy list

  /** An entry of the module list says what the stored graph says about its module. */
  ghost predicate EntryOf(naming: Naming, t: Tables, entry: ModuleEntry) {
    var modules := Modules(naming, t.nodes);
    && entry.name in modules
    && entry.files == modules[entry.name].files
    && entry.keySymbols == modules[entry.name].symbols[..Min(20, |modules[entry.name].symbols|)]
    && Sorted(entry.dependencies) && Distinct(entry.dependencies)
    && forall n :: n in entry.dependencies <==> DependsOnModule(naming, t, entry.name, n)
  }

  /** Main theorem: one entry per module, ascending by name, each listing exactly the modules
      its own depends on, sorted and without duplicates. */
  method BuildModuleList(naming: Naming, t: Tables) returns (entries: seq<ModuleEntry>)
    requires Ascending(t.nodes)
    ensures forall entry :: entry in entries ==> EntryOf(naming, t, entry)
    ensures forall m :: m in Modules(naming, t.nodes) <==> exists i :: 0 <= i < |entries| && entries[i].name == m
    ensures forall i, j :: 0 <= i < j < |entries| ==> Less(entries[i].name, entries[j].name)
  {
    var r := BuildRepoMapFromStorage(naming, t);
    var deps := ModuleDependencies(r);
    var names := SortNames(r.modules.Keys);
    entries := [];
    for i := 0 to |names|
      invariant |entries| == i
                && forall k :: 0 <= k < i ==> entries[k].name == names[k] && EntryOf(naming, t, entries[k])
    {
      var m := names[i];
      assert m in names;
      var dependencies := SortNames(if m in deps then deps[m] else {});
      forall n ensures n in dependencies <==> DependsOnModule(naming, t, m, n) { DepsAreQuotient(naming, t, m, n); }
      var symbols := r.modules[m].symbols;
      entries := entries + [ModuleEntry(m, r.modules[m].files, symbols[..Min(KEY_SYMBOLS, |symbols|)], dependencies)];
    }
    forall m | m in Modules(naming, t.nodes) ensures exists i :: 0 <= i < |entries| && entries[i].name == m {
      assert m in names;
      var i :| 0 <= i < |names| && names[i] == m;
      assert entries[i].name == m;
    }
  }
}
