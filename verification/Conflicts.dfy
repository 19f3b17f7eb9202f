/** Conflict detection in a patch plan (editing/conflict_resolver.py). */
module Conflicts {
  import opened Prelude
  import opened Plan
  import opened SemanticDiff

  // ------------------------------------------------------------ what a conflict is

  datatype Key = SymbolKey(file: string, symbol: string) | FileKey(path: string)

  datatype Kind = SameSymbol | SameFile | SemanticOverlap

  datatype Conflict = Conflict(kind: Kind, file: string, symbol: string, indices: seq<nat>)

  predicate Hits(c: Change, k: Key) {
    match k
    case SymbolKey(f, s) => c.file == f && c.symbol == s
    case FileKey(f) => c.file == f
  }

  /** Positions below `n` of the changes that hit `k`, ascending. */
  function Indices(cs: seq<Change>, k: Key, n: nat): (r: seq<nat>)
    requires n <= |cs|
    ensures forall i :: i in r <==> 0 <= i < n && Hits(cs[i], k)
  {
    if n == 0 then [] else Indices(cs, k, n - 1) + if Hits(cs[n - 1], k) then [n - 1] else []
  }

  function Rank(cs: seq<Change>, k: Key, i: nat): nat
    requires i <= |cs|
  {
    |Indices(cs, k, i)|
  }

  /** `k` is a key that changes are counted under in the pass by symbol, or in the pass by file. */
  predicate Counted(k: Key, bySymbol: bool) {
    match k
    case SymbolKey(f, s) => bySymbol && !(f == "" && s == "")
    case FileKey(f) => !bySymbol && f != ""
  }

  function KeyOf(c: Change, bySymbol: bool): Key {
    if bySymbol then SymbolKey(c.file, c.symbol) else FileKey(c.file)
  }

  function KeyConflict(k: Key, indices: seq<nat>): Conflict {
    match k
    case SymbolKey(f, s) => Conflict(SameSymbol, f, s, indices)
    case FileKey(f) => Conflict(SameFile, f, "", indices)
  }

  /** All changes hitting one counted key, when there are several. */
  ghost predicate IsKeyConflict(cs: seq<Change>, bySymbol: bool, c: Conflict) {
    exists k :: Counted(k, bySymbol) && |Indices(cs, k, |cs|)| > 1 && c == KeyConflict(k, Indices(cs, k, |cs|))
  }

  function OverlapConflict(cs: seq<Change>, i: nat, j: nat): Conflict
    requires i < |cs| && j < |cs|
  {
    Conflict(SemanticOverlap, cs[i].file, cs[i].symbol + " / " + cs[j].symbol, [i, j])
  }

  predicate Overlapping(cs: seq<Change>, i: nat, j: nat)
    requires i < |cs| && j < |cs|
  {
    i < j && cs[i].file != "" && cs[j].file == cs[i].file && SymbolsOverlap(cs[i].symbol, cs[j].symbol)
  }

  ghost predicate IsOverlap(cs: seq<Change>, c: Conflict) {
    exists i: nat, j: nat :: i < |cs| && j < |cs| && Overlapping(cs, i, j) && c == OverlapConflict(cs, i, j)
  }

  ghost predicate IsConflict(cs: seq<Change>, c: Conflict) {
    IsKeyConflict(cs, true, c) || IsKeyConflict(cs, false, c) || IsOverlap(cs, c)
  }

  ghost predicate Complete(cs: seq<Change>, conflicts: seq<Conflict>) {
    forall c :: c in conflicts <==> IsConflict(cs, c)
  }

  // ------------------------------------------------------------ what a conflict says

  ghost predicate Increasing(s: seq<nat>) {
    forall i, j :: 0 <= i < j < |s| ==> s[i] < s[j]
  }

  /** Two or more positions, ascending: all those of changes to this symbol or to this file; or two
      positions of changes to one named file, one of whose symbols lies within the other. */
  ghost predicate Says(cs: seq<Change>, c: Conflict) {
    match c.kind
    case SameSymbol =>
      && (c.file != "" || c.symbol != "") && |c.indices| > 1 && Increasing(c.indices)
      && forall i: nat :: i in c.indices <==> i < |cs| && cs[i].file == c.file && cs[i].symbol == c.symbol
    case SameFile =>
      && c.file != "" && c.symbol == "" && |c.indices| > 1 && Increasing(c.indices)
      && forall i: nat :: i in c.indices <==> i < |cs| && cs[i].file == c.file
    case SemanticOverlap =>
      exists i: nat, j: nat :: i < j < |cs| && c.indices == [i, j] && OverlapSays(cs[i], cs[j], c)
  }

  predicate OverlapSays(a: Change, b: Change, c: Conflict) {
    && a.file == c.file && b.file == c.file && c.file != "" && a.symbol != "" && b.symbol != ""
    && (Segments(a.symbol) <= Segments(b.symbol) || Segments(b.symbol) <= Segments(a.symbol))
    && c.symbol == a.symbol + " / " + b.symbol
  }

  lemma {:induction false} IndicesIncrease(cs: seq<Change>, k: Key, n: nat)
    requires n <= |cs|
    ensures Increasing(Indices(cs, k, n))
    decreases n
  {
    if n > 0 {
      var before := Indices(cs, k, n - 1);
      IndicesIncrease(cs, k, n - 1);
      forall i | 0 <= i < |before| ensures before[i] < n - 1 { assert before[i] in before; }
    }
  }

  /** An ascending list is told by its members. */
  lemma {:induction false} IncreasingUnique(a: seq<nat>, b: seq<nat>)
    requires Increasing(a) && Increasing(b) && forall x: nat :: x in a <==> x in b
    ensures a == b
    decreases |a|
  {
    assert (a != [] ==> a[0] in a) && (b != [] ==> b[0] in b);
    if a != [] && b != [] {
      var x, y := a[|a| - 1], b[|b| - 1];
      assert x in b && y in a;
      var c, d := a[..|a| - 1], b[..|b| - 1];
      forall z: nat ensures z in c <==> z in d {
        assert z in a <==> z in c || z == x;
        assert z in b <==> z in d || z == y;
      }
      IncreasingUnique(c, d);
    }
  }

  lemma KeyConflictSays(cs: seq<Change>, bySymbol: bool, c: Conflict)
    ensures IsKeyConflict(cs, bySymbol, c) <==> c.kind == (if bySymbol then SameSymbol else SameFile) && Says(cs, c)
  {
    var k := if bySymbol then SymbolKey(c.file, c.symbol) else FileKey(c.file);
    IndicesIncrease(cs, k, |cs|);
    if c.kind == (if bySymbol then SameSymbol else SameFile) && Says(cs, c) {
      IncreasingUnique(c.indices, Indices(cs, k, |cs|));
    }
    if IsKeyConflict(cs, bySymbol, c) {
      var x :| Counted(x, bySymbol) && |Indices(cs, x, |cs|)| > 1 && c == KeyConflict(x, Indices(cs, x, |cs|));
      assert x == k;
    }
  }

  /** Main theorem: what is reported, in terms of the changes alone. */
  lemma ConflictSays(cs: seq<Change>, c: Conflict)
    ensures IsConflict(cs, c) <==> Says(cs, c)
  {
    KeyConflictSays(cs, true, c);
    KeyConflictSays(cs, false, c);
    forall i: nat, j: nat | i < j < |cs| && cs[i].symbol != "" && cs[j].symbol != ""
      ensures SymbolsOverlap(cs[i].symbol, cs[j].symbol)
              <==> Segments(cs[i].symbol) <= Segments(cs[j].symbol)
                   || Segments(cs[j].symbol) <= Segments(cs[i].symbol) {
      OverlapIsNesting(cs[i].symbol, cs[j].symbol);
    }
    if IsOverlap(cs, c) {
      var i: nat, j: nat :| i < |cs| && j < |cs| && Overlapping(cs, i, j) && c == OverlapConflict(cs, i, j);
      assert OverlapSays(cs[i], cs[j], c);
    }
    if c.kind == SemanticOverlap && Says(cs, c) {
      var i: nat, j: nat :| i < j < |cs| && c.indices == [i, j] && OverlapSays(cs[i], cs[j], c);
      assert Overlapping(cs, i, j) && c == OverlapConflict(cs, i, j);
    }
  }

  // ------------------------------------------------------------ the order of the report

  function KindRank(k: Kind): nat {
    match k case SameSymbol => 0 case SameFile => 1 case SemanticOverlap => 2
  }

  predicate LexLess(a: seq<nat>, b: seq<nat>) {
    |a| > 1 && |b| > 1 && (a[0] < b[0] || (a[0] == b[0] && a[1] < b[1]))
  }

  /** By kind, and within a kind by the first positions. */
  predicate Precedes(a: Conflict, b: Conflict) {
    KindRank(a.kind) < KindRank(b.kind) || (a.kind == b.kind && LexLess(a.indices, b.indices))
  }

  ghost predicate InReportOrder(conflicts: seq<Conflict>) {
    forall i, j :: 0 <= i < j < |conflicts| ==> Precedes(conflicts[i], conflicts[j])
  }

  /** Each key was hit before the next one was. */
  ghost predicate KeysInOrder(cs: seq<Change>, keys: seq<Key>, n: nat)
    requires n <= |cs|
  {
    && (forall k :: k in keys ==> Indices(cs, k, n) != [])
    && forall a, b :: 0 <= a < b < |keys| ==> FirstHit(cs, keys[a], n) < FirstHit(cs, keys[b], n)
  }

  function FirstHit(cs: seq<Change>, k: Key, n: nat): nat
    requires n <= |cs|
  {
    if Indices(cs, k, n) == [] then n else Indices(cs, k, n)[0]
  }

  lemma FirstHitStays(cs: seq<Change>, k: Key, i: nat, j: nat)
    requires j == i + 1 <= |cs| && Indices(cs, k, i) != []
    ensures Indices(cs, k, j) != [] && FirstHit(cs, k, j) == FirstHit(cs, k, i) < i
  {
    IndicesStep(cs, k, i, j);
    assert Indices(cs, k, i)[0] in Indices(cs, k, i);
  }

  lemma FirstHitNow(cs: seq<Change>, k: Key, i: nat, j: nat)
    requires j == i + 1 <= |cs| && Indices(cs, k, i) == [] && Hits(cs[i], k)
    ensures Indices(cs, k, j) != [] && FirstHit(cs, k, j) == i
  {
    IndicesStep(cs, k, i, j);
  }

  lemma KeysInOrderStep(cs: seq<Change>, keys: seq<Key>, key: Key, i: nat, j: nat)
    requires j == i + 1 <= |cs| && KeysInOrder(cs, keys, i) && Hits(cs[i], key)
    requires key in keys <==> Indices(cs, key, i) != []
    ensures KeysInOrder(cs, if key in keys then keys else keys + [key], j)
  {
    KeysInOrderIdle(cs, keys, i, j);
    if key !in keys {
      FirstHitNow(cs, key, i, j);
      forall k | k in keys ensures FirstHit(cs, k, j) < i { FirstHitStays(cs, k, i, j); }
      KeysInOrderMore(cs, keys, key, j);
    }
  }

  lemma KeysInOrderMore(cs: seq<Change>, keys: seq<Key>, key: Key, n: nat)
    requires n <= |cs| && KeysInOrder(cs, keys, n) && Indices(cs, key, n) != []
    requires forall k :: k in keys ==> FirstHit(cs, k, n) < FirstHit(cs, key, n)
    ensures KeysInOrder(cs, keys + [key], n)
  {
    var more := keys + [key];
    forall k | k in more ensures Indices(cs, k, n) != [] { assert k in keys || k == key; }
    forall a, b | 0 <= a < b < |more| ensures FirstHit(cs, more[a], n) < FirstHit(cs, more[b], n) {
      assert more[a] == keys[a] && keys[a] in keys;
    }
  }

  lemma KeysInOrderIdle(cs: seq<Change>, keys: seq<Key>, i: nat, j: nat)
    requires j == i + 1 <= |cs| && KeysInOrder(cs, keys, i)
    ensures KeysInOrder(cs, keys, j)
  {
    forall k | k in keys ensures Indices(cs, k, j) != [] && FirstHit(cs, k, j) == FirstHit(cs, k, i) {
      FirstHitStays(cs, k, i, j);
    }
    forall a, b | 0 <= a < b < |keys| ensures FirstHit(cs, keys[a], j) < FirstHit(cs, keys[b], j) {
      assert keys[a] in keys && keys[b] in keys;
    }
  }

  // ------------------------------------------------------------ detection

  /** `counts` holds the positions of `k` among the first `n` changes, if there are any. */
  predicate CountOf(cs: seq<Change>, k: Key, n: nat, counts: map<Key, seq<nat>>)
    requires n <= |cs|
  {
    Get(counts, k) == if Indices(cs, k, n) == [] then None else Some(Indices(cs, k, n))
  }

  /** `counts` is the dictionary from key to positions after the first `n` changes. */
  ghost predicate CountsOf(cs: seq<Change>, bySymbol: bool, n: nat, counts: map<Key, seq<nat>>)
    requires n <= |cs|
  {
    && (forall k :: k in counts ==> Counted(k, bySymbol))
    && forall k :: Counted(k, bySymbol) ==> CountOf(cs, k, n, counts)
  }

  /** The keys of the dictionary, as listed. */
  ghost predicate Lists(keys: seq<Key>, counts: map<Key, seq<nat>>) {
    forall k :: k in keys <==> k in counts
  }

  lemma ListsMore(keys: seq<Key>, counts: map<Key, seq<nat>>, key: Key, positions: seq<nat>)
    requires Lists(keys, counts)
    ensures Lists(if key in counts then keys else keys + [key], counts[key := positions])
  {}

  /** One counting pass: a dictionary with its keys in insertion order. */
  method CountKeys(cs: seq<Change>, bySymbol: bool) returns (keys: seq<Key>, counts: map<Key, seq<nat>>)
    ensures Lists(keys, counts) && CountsOf(cs, bySymbol, |cs|, counts) && KeysInOrder(cs, keys, |cs|)
  {
    keys, counts := [], map[];
    for i := 0 to |cs|
      invariant Lists(keys, counts) && CountsOf(cs, bySymbol, i, counts) && KeysInOrder(cs, keys, i)
    {
      keys, counts := CountChange(cs, bySymbol, i, i + 1, keys, counts);
    }
  }

  /** One turn of the pass. */
  method CountChange(cs: seq<Change>, bySymbol: bool, i: nat, ghost j: nat, keys0: seq<Key>,
                     counts0: map<Key, seq<nat>>) returns (keys: seq<Key>, counts: map<Key, seq<nat>>)
    requires j == i + 1 <= |cs| && Lists(keys0, counts0) && CountsOf(cs, bySymbol, i, counts0)
    requires KeysInOrder(cs, keys0, i)
    ensures Lists(keys, counts) && CountsOf(cs, bySymbol, j, counts) && KeysInOrder(cs, keys, j)
  {
    keys, counts := keys0, counts0;
    var key := KeyOf(cs[i], bySymbol);
    if !Counted(key, bySymbol) {
      UncountedStep(cs, bySymbol, i, j, counts, key);
      KeysInOrderIdle(cs, keys, i, j);
      return;
    }
    assert CountOf(cs, key, i, counts);
    KeysInOrderStep(cs, keys, key, i, j);
    var positions := if key in counts then counts[key] else [];
    if key !in counts {
      keys := keys + [key];
    }
    counts := counts[key := positions + [i]];
    CountStep(cs, bySymbol, i, j, counts0, key, positions, counts);
    ListsMore(keys0, counts0, key, positions + [i]);
  }

  lemma IndicesStep(cs: seq<Change>, k: Key, i: nat, j: nat)
    requires j == i + 1 <= |cs|
    ensures Indices(cs, k, j) == if Hits(cs[i], k) then Indices(cs, k, i) + [i] else Indices(cs, k, i)
  {}

  /** A change hits no counted key but its own. */
  lemma HitsItsKey(c: Change, k: Key, bySymbol: bool)
    requires Counted(k, bySymbol)
    ensures Hits(c, k) <==> k == KeyOf(c, bySymbol)
  {}

  lemma CountStep(cs: seq<Change>, bySymbol: bool, i: nat, j: nat, counts: map<Key, seq<nat>>,
                  key: Key, positions: seq<nat>, next: map<Key, seq<nat>>)
    requires j == i + 1 <= |cs| && key == KeyOf(cs[i], bySymbol) && Counted(key, bySymbol)
    requires CountsOf(cs, bySymbol, i, counts) && positions == (if key in counts then counts[key] else [])
    requires next == counts[key := positions + [i]]
    ensures CountsOf(cs, bySymbol, j, next)
  {
    forall k | Counted(k, bySymbol) ensures CountOf(cs, k, j, next) {
      assert CountOf(cs, k, i, counts);
      HitsItsKey(cs[i], k, bySymbol);
      IndicesStep(cs, k, i, j);
    }
  }

  lemma UncountedStep(cs: seq<Change>, bySymbol: bool, i: nat, j: nat, counts: map<Key, seq<nat>>, key: Key)
    requires j == i + 1 <= |cs| && key == KeyOf(cs[i], bySymbol) && !Counted(key, bySymbol)
    requires CountsOf(cs, bySymbol, i, counts)
    ensures CountsOf(cs, bySymbol, j, counts)
  {
    forall k | Counted(k, bySymbol) ensures CountOf(cs, k, j, counts) {
      assert CountOf(cs, k, i, counts);
      HitsItsKey(cs[i], k, bySymbol);
      IndicesStep(cs, k, i, j);
    }
  }

  /** `c` is the conflict of one of `keys`. */
  ghost predicate IsReported(cs: seq<Change>, keys: seq<Key>, c: Conflict) {
    exists k :: k in keys && Reports(cs, k, c)
  }

  predicate Reports(cs: seq<Change>, k: Key, c: Conflict) {
    |Indices(cs, k, |cs|)| > 1 && c == KeyConflict(k, Indices(cs, k, |cs|))
  }

  lemma ReportStep(cs: seq<Change>, keys: seq<Key>, k: Key, c: Conflict)
    ensures IsReported(cs, keys + [k], c) <==> IsReported(cs, keys, c) || Reports(cs, k, c)
  {
    var more := keys + [k];
    if IsReported(cs, keys, c) {
      var x :| x in keys && Reports(cs, x, c);
      assert x in more;
    }
    assert k in more;
  }

  lemma ReportsAll(cs: seq<Change>, bySymbol: bool, keys: seq<Key>, counts: map<Key, seq<nat>>, c: Conflict)
    requires CountsOf(cs, bySymbol, |cs|, counts) && Lists(keys, counts)
    ensures IsReported(cs, keys, c) <==> IsKeyConflict(cs, bySymbol, c)
  {
    if IsKeyConflict(cs, bySymbol, c) {
      var k :| Counted(k, bySymbol) && |Indices(cs, k, |cs|)| > 1 && c == KeyConflict(k, Indices(cs, k, |cs|));
      assert CountOf(cs, k, |cs|, counts);
    }
  }

  /** The conflicts of the keys, in the order of the keys. */
  function ReportOf(cs: seq<Change>, keys: seq<Key>): seq<Conflict> {
    if keys == [] then []
    else
      var k := keys[|keys| - 1];
      ReportOf(cs, keys[..|keys| - 1])
      + if |Indices(cs, k, |cs|)| > 1 then [KeyConflict(k, Indices(cs, k, |cs|))] else []
  }

  lemma ReportOfStep(cs: seq<Change>, keys: seq<Key>, k: Key)
    ensures ReportOf(cs, keys + [k])
            == if |Indices(cs, k, |cs|)| > 1 then ReportOf(cs, keys) + [KeyConflict(k, Indices(cs, k, |cs|))]
               else ReportOf(cs, keys)
  {
    assert (keys + [k])[..|keys|] == keys;
  }

  lemma ReportOrderMore(conflicts: seq<Conflict>, c: Conflict)
    requires InReportOrder(conflicts) && forall x :: x in conflicts ==> Precedes(x, c)
    ensures InReportOrder(conflicts + [c])
  {
    forall i | 0 <= i < |conflicts| ensures Precedes(conflicts[i], c) { assert conflicts[i] in conflicts; }
  }

  /** `c` reports one of the keys, by its first hit. */
  ghost predicate OfKeys(cs: seq<Change>, bySymbol: bool, keys: seq<Key>, c: Conflict) {
    && c.kind == (if bySymbol then SameSymbol else SameFile) && |c.indices| > 1
    && exists k :: k in keys && c.indices[0] == FirstHit(cs, k, |cs|)
  }

  lemma {:induction false} ReportInOrder(cs: seq<Change>, bySymbol: bool, keys: seq<Key>)
    requires KeysInOrder(cs, keys, |cs|) && forall k :: k in keys ==> Counted(k, bySymbol)
    ensures InReportOrder(ReportOf(cs, keys))
    ensures forall c :: c in ReportOf(cs, keys) ==> OfKeys(cs, bySymbol, keys, c)
    decreases |keys|
  {
    if keys != [] {
      var before, k := keys[..|keys| - 1], keys[|keys| - 1];
      assert keys == before + [k];
      KeysPrefix(cs, before, k, |cs|);
      ReportInOrder(cs, bySymbol, before);
      NextKeyReport(cs, bySymbol, before, k);
    }
  }

  /** The report of the next key comes behind those of the keys before it. */
  lemma NextKeyReport(cs: seq<Change>, bySymbol: bool, before: seq<Key>, k: Key)
    requires KeysInOrder(cs, before + [k], |cs|) && Counted(k, bySymbol) && InReportOrder(ReportOf(cs, before))
    requires forall c :: c in ReportOf(cs, before) ==> OfKeys(cs, bySymbol, before, c)
    ensures InReportOrder(ReportOf(cs, before + [k]))
    ensures forall c :: c in ReportOf(cs, before + [k]) ==> OfKeys(cs, bySymbol, before + [k], c)
  {
    var keys := before + [k];
    ReportOfStep(cs, before, k);
    forall x | x in ReportOf(cs, before)
      ensures OfKeys(cs, bySymbol, keys, x)
      ensures |Indices(cs, k, |cs|)| > 1 ==> Precedes(x, KeyConflict(k, Indices(cs, k, |cs|))) {
      OfKeysMore(cs, bySymbol, before, k, x);
    }
    if |Indices(cs, k, |cs|)| > 1 {
      OwnOfKeys(cs, bySymbol, before, k);
      ReportOrderMore(ReportOf(cs, before), KeyConflict(k, Indices(cs, k, |cs|)));
    }
  }

  lemma OwnOfKeys(cs: seq<Change>, bySymbol: bool, before: seq<Key>, k: Key)
    requires Counted(k, bySymbol) && |Indices(cs, k, |cs|)| > 1
    ensures OfKeys(cs, bySymbol, before + [k], KeyConflict(k, Indices(cs, k, |cs|)))
  {
    assert k in before + [k];
  }

  lemma KeysPrefix(cs: seq<Change>, before: seq<Key>, k: Key, n: nat)
    requires n <= |cs| && KeysInOrder(cs, before + [k], n)
    ensures KeysInOrder(cs, before, n)
  {
    var keys := before + [k];
    forall x | x in before ensures x in keys {}
    forall a, b | 0 <= a < b < |before| ensures FirstHit(cs, before[a], n) < FirstHit(cs, before[b], n) {
      assert keys[a] == before[a] && keys[b] == before[b];
    }
  }

  lemma OfKeysMore(cs: seq<Change>, bySymbol: bool, before: seq<Key>, k: Key, x: Conflict)
    requires KeysInOrder(cs, before + [k], |cs|) && Counted(k, bySymbol) && OfKeys(cs, bySymbol, before, x)
    ensures OfKeys(cs, bySymbol, before + [k], x)
    ensures |Indices(cs, k, |cs|)| > 1 ==> Precedes(x, KeyConflict(k, Indices(cs, k, |cs|)))
  {
    var keys := before + [k];
    var y :| y in before && x.indices[0] == FirstHit(cs, y, |cs|);
    var i :| 0 <= i < |before| && before[i] == y;
    assert keys[i] == y && keys[|before|] == k && y in keys;
  }

  lemma MembersStep(cs: seq<Change>, before: seq<Key>, k: Key, c: Conflict)
    requires c in ReportOf(cs, before) <==> IsReported(cs, before, c)
    ensures c in ReportOf(cs, before + [k]) <==> IsReported(cs, before + [k], c)
  {
    ReportStep(cs, before, k, c);
    ReportOfStep(cs, before, k);
  }

  lemma {:induction false} ReportOfMembers(cs: seq<Change>, keys: seq<Key>, c: Conflict)
    ensures c in ReportOf(cs, keys) <==> IsReported(cs, keys, c)
    decreases |keys|
  {
    if keys != [] {
      var before, k := keys[..|keys| - 1], keys[|keys| - 1];
      assert keys == before + [k];
      ReportOfMembers(cs, before, c);
      MembersStep(cs, before, k, c);
    }
  }

  method KeyConflicts(cs: seq<Change>, bySymbol: bool) returns (conflicts: seq<Conflict>)
    ensures forall c :: c in conflicts <==> IsKeyConflict(cs, bySymbol, c)
    ensures InReportOrder(conflicts)
    ensures forall c :: c in conflicts ==> c.kind == if bySymbol then SameSymbol else SameFile
  {
    var keys, counts := CountKeys(cs, bySymbol);
    conflicts := [];
    for n := 0 to |keys|
      invariant conflicts == ReportOf(cs, keys[..n])
    {
      var key := keys[n];
      assert key in keys;
      var indices := counts[key];
      assert indices == Indices(cs, key, |cs|) by { assert CountOf(cs, key, |cs|, counts); }
      assert keys[..n + 1][..n] == keys[..n];
      if |indices| > 1 {
        conflicts := conflicts + [KeyConflict(key, indices)];
      }
    }
    assert keys[..|keys|] == keys;
    forall c ensures c in conflicts <==> IsKeyConflict(cs, bySymbol, c) {
      ReportOfMembers(cs, keys, c);
      ReportsAll(cs, bySymbol, keys, counts, c);
    }
    ReportInOrder(cs, bySymbol, keys);
  }

  /** The overlap found next comes behind those found before. */
  lemma OverlapNext(cs: seq<Change>, overlaps: seq<Conflict>, i: nat, j: nat)
    requires i < |cs| && j < |cs| && InReportOrder(overlaps)
    requires forall c :: c in overlaps ==>
               exists a: nat, b: nat :: a <= i && b < |cs| && (a < i || b < j) && Overlapping(cs, a, b)
                                        && c == OverlapConflict(cs, a, b)
    ensures InReportOrder(overlaps + [OverlapConflict(cs, i, j)])
  {
    var next := OverlapConflict(cs, i, j);
    forall k | 0 <= k < |overlaps| ensures Precedes(overlaps[k], next) {
      assert overlaps[k] in overlaps;
      var a: nat, b: nat :| a <= i && b < |cs| && (a < i || b < j) && Overlapping(cs, a, b)
                            && overlaps[k] == OverlapConflict(cs, a, b);
    }
  }

  method DetectSemanticOverlaps(cs: seq<Change>) returns (overlaps: seq<Conflict>)
    ensures forall c :: c in overlaps <==> IsOverlap(cs, c)
    ensures InReportOrder(overlaps)
  {
    overlaps := [];
    for i := 0 to |cs|
      invariant InReportOrder(overlaps)
      invariant forall c :: c in overlaps <==>
                            exists a: nat, b: nat :: a < i && b < |cs| && Overlapping(cs, a, b)
                                                     && c == OverlapConflict(cs, a, b)
    {
      if cs[i].file == "" {
        continue;
      }
      for j := 0 to |cs|
        invariant InReportOrder(overlaps)
        invariant forall c :: c in overlaps <==>
                    exists a: nat, b: nat :: a <= i && b < |cs| && (a < i || b < j) && Overlapping(cs, a, b)
                                             && c == OverlapConflict(cs, a, b)
      {
        if i >= j || cs[j].file != cs[i].file {
          continue;
        }
        if SymbolsOverlap(cs[i].symbol, cs[j].symbol) {
          assert Overlapping(cs, i, j);
          OverlapNext(cs, overlaps, i, j);
          overlaps := overlaps + [OverlapConflict(cs, i, j)];
        }
      }
    }
  }
}
