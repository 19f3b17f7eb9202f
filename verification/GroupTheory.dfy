/** What the grouping guarantees: conflicts are separated, nothing is lost, and the changes
    to one file keep their order. */
module GroupTheory {
  import opened Prelude
  import opened Plan
  import opened Conflicts
  import opened Grouping

  /** The widest key that can put a change in conflict: its file, or, for a change without
      a file, its symbol. A change with neither conflicts with nothing. */
  datatype Lane = File(path: string) | Orphan(symbol: string) | Loose

  function LaneOf(c: Change): Lane {
    if c.file != "" then File(c.file) else if c.symbol != "" then Orphan(c.symbol) else Loose
  }

  function LaneKey(lane: Lane): Key {
    match lane
    case File(f) => FileKey(f)
    case Orphan(s) => SymbolKey("", s)
    case Loose => SymbolKey("", "")
  }

  // ------------------------------------------------------------ ranks

  lemma {:induction false} RankMonotone(cs: seq<Change>, k: Key, i: nat, j: nat)
    requires i <= j <= |cs|
    ensures Indices(cs, k, i) <= Indices(cs, k, j)
    decreases j
  {
    if i < j { RankMonotone(cs, k, i, j - 1); }
  }

  lemma RankGrows(cs: seq<Change>, k: Key, i: nat, j: nat)
    requires i < j <= |cs| && Hits(cs[i], k)
    ensures Rank(cs, k, i) < Rank(cs, k, j)
  {
    var next := i + 1;
    IndicesStep(cs, k, i, next);
    RankMonotone(cs, k, next, j);
  }

  /** The position of a hit in its list is the number of earlier hits. */
  lemma {:induction false} PositionIsRank(cs: seq<Change>, k: Key, n: nat, order: nat)
    requires n <= |cs| && order < |Indices(cs, k, n)|
    ensures var i := Indices(cs, k, n)[order]; i < n && Hits(cs[i], k) && order == Rank(cs, k, i)
    decreases n
  {
    if order < |Indices(cs, k, n - 1)| { PositionIsRank(cs, k, n - 1, order); }
  }

  lemma {:induction false} SymbolRankBelowFileRank(cs: seq<Change>, file: string, symbol: string, i: nat)
    requires i <= |cs|
    ensures Rank(cs, SymbolKey(file, symbol), i) <= Rank(cs, FileKey(file), i)
  {
    if i > 0 { SymbolRankBelowFileRank(cs, file, symbol, i - 1); }
  }

  // ------------------------------------------------------------ group number = rank

  lemma {:induction false} OrderInBounds(indices: seq<nat>, i: nat, n: nat, bound: nat)
    requires n <= |indices|
    requires forall order :: 0 <= order < n && indices[order] == i ==> order + 1 <= bound
    ensures OrderIn(indices, i, n) <= bound
  {
    if n > 0 { OrderInBounds(indices, i, n - 1, bound); }
  }

  lemma {:induction false} OrderInReaches(indices: seq<nat>, i: nat, n: nat, order: nat)
    requires order < n <= |indices| && indices[order] == i
    ensures OrderIn(indices, i, n) >= order + 1
    decreases n
  {
    if order < n - 1 { OrderInReaches(indices, i, n - 1, order); }
  }

  lemma {:induction false} AssignedBounds(conflicts: seq<Conflict>, i: nat, m: nat, bound: nat)
    requires m <= |conflicts|
    requires forall c :: c in conflicts ==> OrderIn(c.indices, i, |c.indices|) <= bound
    ensures Assigned(conflicts, i, m) <= bound
  {
    if m > 0 { AssignedBounds(conflicts, i, m - 1, bound); assert conflicts[m - 1] in conflicts; }
  }

  lemma {:induction false} AssignedReaches(conflicts: seq<Conflict>, i: nat, m: nat, at: nat)
    requires at < m <= |conflicts|
    ensures Assigned(conflicts, i, m) >= OrderIn(conflicts[at].indices, i, |conflicts[at].indices|)
    decreases m
  {
    if at < m - 1 { AssignedReaches(conflicts, i, m - 1, at); }
  }

  /** No conflict places a change later than its rank in its lane does. */
  lemma ConflictBelowRank(cs: seq<Change>, c: Conflict, order: nat)
    requires IsConflict(cs, c) && order < |c.indices|
    ensures var i := c.indices[order];
            i < |cs| && LaneOf(cs[i]) != Loose && order <= Rank(cs, LaneKey(LaneOf(cs[i])), i)
    ensures var i := c.indices[order]; Rank(cs, LaneKey(LaneOf(cs[i])), |cs|) > 1
  {
    if IsKeyConflict(cs, true, c) || IsKeyConflict(cs, false, c) {
      var bySymbol := IsKeyConflict(cs, true, c);
      var k :| Counted(k, bySymbol) && |Indices(cs, k, |cs|)| > 1 && c == KeyConflict(k, Indices(cs, k, |cs|));
      KeyBelowRank(cs, k, order);
    } else {
      var a: nat, b: nat :| a < |cs| && b < |cs| && Overlapping(cs, a, b) && c == OverlapConflict(cs, a, b);
      var k := FileKey(cs[a].file);
      RankGrows(cs, k, a, b);
      RankGrows(cs, k, b, |cs|);
    }
  }

  lemma KeyBelowRank(cs: seq<Change>, k: Key, order: nat)
    requires Counted(k, k.SymbolKey?) && order < |Indices(cs, k, |cs|)| && |Indices(cs, k, |cs|)| > 1
    ensures var i := Indices(cs, k, |cs|)[order];
            && i < |cs| && LaneOf(cs[i]) != Loose
            && order <= Rank(cs, LaneKey(LaneOf(cs[i])), i)
            && Rank(cs, LaneKey(LaneOf(cs[i])), |cs|) > 1
  {
    PositionIsRank(cs, k, |cs|, order);
    var i := Indices(cs, k, |cs|)[order];
    if k.SymbolKey? && k.file != "" {
      SymbolRankBelowFileRank(cs, k.file, k.symbol, i);
      SymbolRankBelowFileRank(cs, k.file, k.symbol, |cs|);
    }
  }

  /** The group of a change is 0 if it is alone in its lane, and its rank there plus one
      otherwise: the file lists dominate all the other conflicts. */
  lemma GroupIsRank(cs: seq<Change>, conflicts: seq<Conflict>, i: nat)
    requires Complete(cs, conflicts) && i < |cs|
    ensures var k := LaneKey(LaneOf(cs[i]));
            GroupNumbers(cs, conflicts)[i]
            == if LaneOf(cs[i]) == Loose || Rank(cs, k, |cs|) < 2 then 0 else Rank(cs, k, i) + 1
  {
    var lane := LaneOf(cs[i]);
    var k := LaneKey(lane);
    var bound := if lane == Loose || Rank(cs, k, |cs|) < 2 then 0 else Rank(cs, k, i) + 1;
    forall c | c in conflicts ensures OrderIn(c.indices, i, |c.indices|) <= bound {
      forall order | 0 <= order < |c.indices| && c.indices[order] == i ensures order + 1 <= bound {
        ConflictBelowRank(cs, c, order);
      }
      OrderInBounds(c.indices, i, |c.indices|, bound);
    }
    AssignedBounds(conflicts, i, |conflicts|, bound);
    if bound > 0 { LaneConflictReaches(cs, conflicts, i, k); }
  }

  lemma LaneConflictReaches(cs: seq<Change>, conflicts: seq<Conflict>, i: nat, k: Key)
    requires Complete(cs, conflicts) && i < |cs|
    requires Counted(k, k.SymbolKey?) && Hits(cs[i], k) && Rank(cs, k, |cs|) > 1
    ensures Assigned(conflicts, i, |conflicts|) >= Rank(cs, k, i) + 1
  {
    var indices := Indices(cs, k, |cs|);
    var c := KeyConflict(k, indices);
    assert IsKeyConflict(cs, k.SymbolKey?, c);
    assert c in conflicts;
    var at :| 0 <= at < |conflicts| && conflicts[at] == c;
    assert i in indices;
    var order :| 0 <= order < |indices| && indices[order] == i;
    PositionIsRank(cs, k, |cs|, order);
    OrderInReaches(indices, i, |indices|, order);
    AssignedReaches(conflicts, i, |conflicts|, at);
  }

  /** Group numbers never fall along a lane, and rise strictly where changes can conflict. */
  ghost predicate LaneOrdered(cs: seq<Change>, group: seq<nat>) {
    && |group| == |cs|
    && forall i, j :: 0 <= i < j < |cs| && LaneOf(cs[i]) == LaneOf(cs[j]) ==>
         group[i] <= group[j] && (LaneOf(cs[i]) != Loose ==> group[i] < group[j])
  }

  lemma GroupsFollowLanes(cs: seq<Change>, conflicts: seq<Conflict>)
    requires Complete(cs, conflicts)
    ensures LaneOrdered(cs, GroupNumbers(cs, conflicts))
  {
    var group := GroupNumbers(cs, conflicts);
    forall i, j | 0 <= i < j < |cs| && LaneOf(cs[i]) == LaneOf(cs[j])
      ensures group[i] <= group[j] && (LaneOf(cs[i]) != Loose ==> group[i] < group[j])
    {
      GroupIsRank(cs, conflicts, i);
      GroupIsRank(cs, conflicts, j);
      var k := LaneKey(LaneOf(cs[i]));
      RankGrows(cs, k, i, j);
      RankGrows(cs, k, j, |cs|);
    }
  }

  /** Main theorem: the positions of any one conflict lie in pairwise different groups. */
  lemma ConflictsSeparated(cs: seq<Change>, conflicts: seq<Conflict>, c: Conflict, a: nat, b: nat)
    requires Complete(cs, conflicts) && c in conflicts && a < b < |c.indices|
    ensures c.indices[a] < |cs| && c.indices[b] < |cs|
    ensures GroupNumbers(cs, conflicts)[c.indices[a]] != GroupNumbers(cs, conflicts)[c.indices[b]]
  {
    GroupsFollowLanes(cs, conflicts);
    ConflictInOneLane(cs, c, a, b);
  }

  /** A conflict lists its positions in ascending order, all in one lane. */
  lemma ConflictInOneLane(cs: seq<Change>, c: Conflict, a: nat, b: nat)
    requires IsConflict(cs, c) && a < b < |c.indices|
    ensures var i, j := c.indices[a], c.indices[b];
            i < j < |cs| && LaneOf(cs[i]) == LaneOf(cs[j]) && LaneOf(cs[i]) != Loose
  {
    if IsKeyConflict(cs, true, c) || IsKeyConflict(cs, false, c) {
      var bySymbol := IsKeyConflict(cs, true, c);
      var k :| Counted(k, bySymbol) && |Indices(cs, k, |cs|)| > 1 && c == KeyConflict(k, Indices(cs, k, |cs|));
      KeyInOneLane(cs, k, a, b);
    }
  }

  lemma KeyInOneLane(cs: seq<Change>, k: Key, a: nat, b: nat)
    requires Counted(k, k.SymbolKey?) && a < b < |Indices(cs, k, |cs|)|
    ensures var i, j := Indices(cs, k, |cs|)[a], Indices(cs, k, |cs|)[b];
            i < j < |cs| && LaneOf(cs[i]) == LaneOf(cs[j]) && LaneOf(cs[i]) != Loose
  {
    PositionIsRank(cs, k, |cs|, a);
    PositionIsRank(cs, k, |cs|, b);
    var i, j := Indices(cs, k, |cs|)[a], Indices(cs, k, |cs|)[b];
    if j < i { RankMonotone(cs, k, j, i); }
  }

  /** Without dominating file lists the running maximum does not separate: these two
      conflicts leave changes 0 and 1, which conflict, in one group. */
  lemma ArbitraryConflictsNotSeparated(cs: seq<Change>)
    requires |cs| == 3
    ensures var first := Conflict(SameFile, "a", "", [0, 1]);
            var second := Conflict(SameFile, "b", "", [2, 0]);
            GroupNumbers(cs, [first, second])[0] == GroupNumbers(cs, [first, second])[1]
  {
    var first, second := Conflict(SameFile, "a", "", [0, 1]), Conflict(SameFile, "b", "", [2, 0]);
    var both := [first, second];
    assert OrderIn([0, 1], 0, 0) == 0 && OrderIn([0, 1], 1, 0) == 0 && OrderIn([2, 0], 0, 0) == 0
           && OrderIn([2, 0], 1, 0) == 0;
    assert OrderIn([0, 1], 0, 1) == 1 && OrderIn([0, 1], 1, 1) == 0 && OrderIn([2, 0], 0, 1) == 0
           && OrderIn([2, 0], 1, 1) == 0;
    assert OrderIn([0, 1], 0, 2) == 1 && OrderIn([0, 1], 1, 2) == 2 && OrderIn([2, 0], 0, 2) == 2
           && OrderIn([2, 0], 1, 2) == 0;
    assert Assigned(both, 0, 0) == 0 && Assigned(both, 1, 0) == 0;
    assert Assigned(both, 0, 1) == 1 && Assigned(both, 1, 1) == 2;
    assert Assigned(both, 0, 2) == 2 && Assigned(both, 1, 2) == 2;
  }

  // ------------------------------------------------------------ contents of the groups

  function OfLane(lane: Lane): Change -> bool {
    (c: Change) => LaneOf(c) == lane
  }

  /** No lane but Loose occurs twice. */
  ghost predicate Separated(g: seq<Change>) {
    forall p, q :: 0 <= p < q < |g| ==> LaneOf(g[p]) != LaneOf(g[q]) || LaneOf(g[p]) == Loose
  }

  lemma {:induction false} KeyHitsOnce(g: seq<Change>, k: Key, n: nat)
    requires Separated(g) && Counted(k, k.SymbolKey?) && n <= |g|
    ensures |Indices(g, k, n)| <= 1
    decreases n
  {
    if n > 0 {
      KeyHitsOnce(g, k, n - 1);
      var before := Indices(g, k, n - 1);
      if before != [] {
        var i := before[0];
        assert i in before && (LaneOf(g[i]) != LaneOf(g[n - 1]) || LaneOf(g[i]) == Loose);
      }
    }
  }

  /** A plan whose lanes do not repeat has no conflict. */
  lemma SeparatedHasNoConflict(g: seq<Change>, c: Conflict)
    requires Separated(g)
    ensures !IsConflict(g, c)
  {
    forall k: Key | Counted(k, k.SymbolKey?) ensures |Indices(g, k, |g|)| <= 1 { KeyHitsOnce(g, k, |g|); }
  }

  /** Detection is exact: a plan is valid if and only if no lane repeats. */
  lemma ValidIffSeparated(g: seq<Change>)
    ensures (forall c :: !IsConflict(g, c)) <==> Separated(g)
  {
    if Separated(g) {
      forall c ensures !IsConflict(g, c) { SeparatedHasNoConflict(g, c); }
    } else {
      var p, q :| 0 <= p < q < |g| && LaneOf(g[p]) == LaneOf(g[q]) && LaneOf(g[p]) != Loose;
      var k := LaneKey(LaneOf(g[p]));
      RankGrows(g, k, p, q);
      RankGrows(g, k, q, |g|);
      var c := KeyConflict(k, Indices(g, k, |g|));
      assert Counted(k, k.SymbolKey?) && IsKeyConflict(g, k.SymbolKey?, c);
      assert IsConflict(g, c);
    }
  }

  lemma {:induction false} FlattenAppend<T>(a: seq<seq<T>>, b: seq<seq<T>>)
    ensures Flatten(a + b) == Flatten(a) + Flatten(b)
  {
    if a == [] {
      assert a + b == b;
    } else {
      var ab := a + b;
      assert ab[0] == a[0] && ab[1..] == a[1..] + b;
      FlattenAppend(a[1..], b);
    }
  }

  /** Adding to bucket `g` inserts behind all buckets up to `g`. */
  lemma FlattenInsert(before: seq<seq<Change>>, g: nat, c: Change)
    requires g < |before|
    ensures Flatten(before) == Flatten(before[..g + 1]) + Flatten(before[g + 1..])
    ensures Flatten(before[g := before[g] + [c]]) == Flatten(before[..g + 1]) + [c] + Flatten(before[g + 1..])
  {
    var low, high := before[..g], before[g + 1..];
    FlattenAppend(before[..g + 1], high);
    assert before == before[..g + 1] + high && before[..g + 1] == low + [before[g]];
    FlattenAppend(low, [before[g]]);
    assert Flatten([before[g]]) == before[g];
    var grown := before[g] + [c];
    assert before[g := grown] == low + ([grown] + high);
    FlattenAppend(low, [grown] + high);
    assert ([grown] + high)[1..] == high;
    assert Flatten([grown] + high) == grown + Flatten(high);
  }

  lemma {:induction false} InFlatten<T>(groups: seq<seq<T>>, x: T)
    ensures x in Flatten(groups) <==> exists h :: 0 <= h < |groups| && x in groups[h]
  {
    if groups != [] {
      InFlatten(groups[1..], x);
      if x in Flatten(groups[1..]) {
        var h :| 0 <= h < |groups[1..]| && x in groups[1..][h];
        assert x in groups[h + 1];
      }
      if h :| 0 < h < |groups| && x in groups[h] { assert x in groups[1..][h - 1]; }
    }
  }

  /** A bucket holds changes of its own number only. */
  lemma {:induction false} BucketMembers(cs: seq<Change>, group: seq<nat>, size: nat, n: nat, h: nat, x: Change)
    requires n <= |cs| == |group| && forall i :: 0 <= i < |group| ==> group[i] < size
    requires h < size && x in Buckets(cs, group, size, n)[h]
    ensures exists i :: 0 <= i < n && cs[i] == x && group[i] == h
  {
    if n > 0 {
      var before := Buckets(cs, group, size, n - 1);
      if x in before[h] { BucketMembers(cs, group, size, n - 1, h, x); }
    }
  }

  /** Group numbers never fall along the changes that `q` selects. */
  ghost predicate Monotone(cs: seq<Change>, group: seq<nat>, q: Change -> bool) {
    && |group| == |cs|
    && forall i, j :: 0 <= i < j < |cs| && q(cs[i]) && q(cs[j]) ==> group[i] <= group[j]
  }

  lemma LaterBucketsFree(cs: seq<Change>, group: seq<nat>, size: nat, n: nat, q: Change -> bool)
    requires n < |cs| && q(cs[n]) && Monotone(cs, group, q) && forall i :: 0 <= i < |group| ==> group[i] < size
    ensures Filter(Flatten(Buckets(cs, group, size, n)[group[n] + 1..]), q) == []
  {
    var high := Buckets(cs, group, size, n)[group[n] + 1..];
    forall x | x in Flatten(high) ensures !q(x) {
      InFlatten(high, x);
      var h :| 0 <= h < |high| && x in high[h];
      BucketMembers(cs, group, size, n, group[n] + 1 + h, x);
    }
    FilterNone(Flatten(high), q);
  }

  lemma BucketsStep(cs: seq<Change>, group: seq<nat>, size: nat, m: nat, n: nat)
    requires n == m + 1 <= |cs| == |group| && forall i :: 0 <= i < |group| ==> group[i] < size
    ensures var before := Buckets(cs, group, size, m);
            Buckets(cs, group, size, n) == before[group[m] := before[group[m]] + [cs[m]]]
  {}

  lemma InsertKeepsOrder(before: seq<seq<Change>>, g: nat, c: Change, q: Change -> bool)
    requires g < |before|
    requires q(c) ==> Filter(Flatten(before[g + 1..]), q) == []
    ensures Filter(Flatten(before[g := before[g] + [c]]), q) == Filter(Flatten(before), q) + Filter([c], q)
  {
    var low, high := Flatten(before[..g + 1]), Flatten(before[g + 1..]);
    FlattenInsert(before, g, c);
    FilterAppend(low, high, q);
    FilterAppend(low + [c], high, q);
    FilterAppend(low, [c], q);
    if !q(c) { FilterNone([c], q); }
  }

  lemma {:induction false} BucketsKeepOrder(cs: seq<Change>, group: seq<nat>, size: nat, n: nat, q: Change -> bool)
    requires n <= |cs| && Monotone(cs, group, q) && forall i :: 0 <= i < |group| ==> group[i] < size
    ensures Filter(Flatten(Buckets(cs, group, size, n)), q) == Filter(cs[..n], q)
    decreases n
  {
    if n == 0 {
      InFlattenEmpty(size);
    } else {
      var m := n - 1;
      BucketsKeepOrder(cs, group, size, m, q);
      BucketsStep(cs, group, size, m, n);
      if q(cs[m]) { LaterBucketsFree(cs, group, size, m, q); }
      InsertKeepsOrder(Buckets(cs, group, size, m), group[m], cs[m], q);
      assert cs[..n] == cs[..m] + [cs[m]];
      FilterAppend(cs[..m], [cs[m]], q);
    }
  }

  lemma {:induction false} InFlattenEmpty(size: nat)
    ensures Flatten(seq<seq<Change>>(size, _ => [])) == []
  {
    if size > 0 {
      assert seq<seq<Change>>(size, _ => [])[1..] == seq<seq<Change>>(size - 1, _ => []);
      InFlattenEmpty(size - 1);
    }
  }

  lemma {:induction false} BucketsKeepAll(cs: seq<Change>, group: seq<nat>, size: nat, n: nat)
    requires n <= |cs| == |group| && forall i :: 0 <= i < |group| ==> group[i] < size
    ensures multiset(Flatten(Buckets(cs, group, size, n))) == multiset(cs[..n])
    decreases n
  {
    if n == 0 {
      InFlattenEmpty(size);
    } else {
      var m := n - 1;
      BucketsKeepAll(cs, group, size, m);
      BucketsStep(cs, group, size, m, n);
      InsertCounts(Buckets(cs, group, size, m), group[m], cs[m]);
      PrefixCounts(cs, m, n);
    }
  }

  lemma PrefixCounts(cs: seq<Change>, m: nat, n: nat)
    requires n == m + 1 <= |cs|
    ensures multiset(cs[..n]) == multiset(cs[..m]) + multiset{cs[m]}
  {
    assert cs[..n] == cs[..m] + [cs[m]];
  }

  lemma InsertCounts(before: seq<seq<Change>>, g: nat, c: Change)
    requires g < |before|
    ensures multiset(Flatten(before[g := before[g] + [c]])) == multiset(Flatten(before)) + multiset{c}
  {
    var low, high := Flatten(before[..g + 1]), Flatten(before[g + 1..]);
    FlattenInsert(before, g, c);
    assert multiset(low + [c] + high) == multiset(low) + multiset{c} + multiset(high);
  }

  lemma {:induction false} BucketSeparated(cs: seq<Change>, group: seq<nat>, size: nat, n: nat, h: nat)
    requires n <= |cs| && LaneOrdered(cs, group) && h < size && forall i :: 0 <= i < |group| ==> group[i] < size
    ensures Separated(Buckets(cs, group, size, n)[h])
    decreases n
  {
    if n > 0 {
      var m := n - 1;
      var before := Buckets(cs, group, size, m)[h];
      BucketSeparated(cs, group, size, m, h);
      if group[m] == h {
        forall p | 0 <= p < |before| ensures LaneOf(before[p]) != LaneOf(cs[m]) || LaneOf(before[p]) == Loose {
          BucketMembers(cs, group, size, m, h, before[p]);
        }
      }
    }
  }

  lemma {:induction false} FlattenNonEmpty(buckets: seq<seq<Change>>)
    ensures Flatten(Filter(buckets, NonEmpty())) == Flatten(buckets)
  {
    if buckets != [] {
      var rest := buckets[1..];
      var kept := Filter(rest, NonEmpty());
      FlattenNonEmpty(rest);
      if buckets[0] == [] {
        assert Filter(buckets, NonEmpty()) == kept;
        assert [] + Flatten(rest) == Flatten(rest);
      } else {
        assert Filter(buckets, NonEmpty()) == [buckets[0]] + kept;
        assert ([buckets[0]] + kept)[1..] == kept;
      }
    }
  }

  // ------------------------------------------------------------ the theorems

  lemma FlatGroups(cs: seq<Change>, group: seq<nat>)
    requires |cs| == |group|
    ensures Flatten(Groups(cs, group)) == Flatten(Buckets(cs, group, Greatest(group) + 1, |cs|))
  {
    FlattenNonEmpty(Buckets(cs, group, Greatest(group) + 1, |cs|));
  }

  lemma GroupsKeepOrder(cs: seq<Change>, group: seq<nat>, q: Change -> bool)
    requires Monotone(cs, group, q)
    ensures Filter(Flatten(Groups(cs, group)), q) == Filter(cs, q)
  {
    var size := Greatest(group) + 1;
    BucketsKeepOrder(cs, group, size, |cs|, q);
    FlatGroups(cs, group);
    assert cs[..|cs|] == cs;
  }

  lemma GroupsKeepAll(cs: seq<Change>, group: seq<nat>)
    requires |cs| == |group|
    ensures multiset(Flatten(Groups(cs, group))) == multiset(cs)
  {
    BucketsKeepAll(cs, group, Greatest(group) + 1, |cs|);
    FlatGroups(cs, group);
    assert cs[..|cs|] == cs;
  }

  /** Main theorem: the groups hold every change exactly once, and run in order they meet
      the changes of each file (and of each file-less symbol) in their original order. */
  lemma GroupsPreservePlan(cs: seq<Change>, conflicts: seq<Conflict>, lane: Lane)
    requires Complete(cs, conflicts)
    ensures var flat := Flatten(Groups(cs, GroupNumbers(cs, conflicts)));
            && multiset(flat) == multiset(cs)
            && Filter(flat, OfLane(lane)) == Filter(cs, OfLane(lane))
  {
    GroupsFollowLanes(cs, conflicts);
    GroupsKeepAll(cs, GroupNumbers(cs, conflicts));
    GroupsKeepOrder(cs, GroupNumbers(cs, conflicts), OfLane(lane));
  }

  // ------------------------------------------------------------ several lanes at once

  /** How many of the first `n` changes lie in `lane` and in a group up to `g`. */
  function CountLow(cs: seq<Change>, group: seq<nat>, n: nat, g: nat, lane: Lane): nat
    requires n <= |cs| == |group|
  {
    if n == 0 then 0
    else CountLow(cs, group, n - 1, g, lane) + if LaneOf(cs[n - 1]) == lane && group[n - 1] <= g then 1 else 0
  }

  lemma LowStep(before: seq<seq<Change>>, h: nat, c: Change, g: nat, lane: Lane)
    requires h < |before| && g < |before|
    ensures |Filter(Flatten(before[h := before[h] + [c]][..g + 1]), OfLane(lane))|
            == |Filter(Flatten(before[..g + 1]), OfLane(lane))| + if LaneOf(c) == lane && h <= g then 1 else 0
  {
    var after := before[h := before[h] + [c]];
    if h <= g {
      var low := before[..g + 1];
      assert after[..g + 1] == low[h := low[h] + [c]];
      FlattenInsert(low, h, c);
      var a, b := Flatten(low[..h + 1]), Flatten(low[h + 1..]);
      FilterAppend(a, b, OfLane(lane));
      FilterAppend(a + [c], b, OfLane(lane));
      FilterAppend(a, [c], OfLane(lane));
    } else {
      assert after[..g + 1] == before[..g + 1];
    }
  }

  lemma {:induction false} LowBuckets(cs: seq<Change>, group: seq<nat>, size: nat, n: nat, g: nat, lane: Lane)
    requires n <= |cs| == |group| && g < size && forall i :: 0 <= i < |group| ==> group[i] < size
    ensures |Filter(Flatten(Buckets(cs, group, size, n)[..g + 1]), OfLane(lane))| == CountLow(cs, group, n, g, lane)
    decreases n
  {
    if n == 0 {
      assert Buckets(cs, group, size, 0)[..g + 1] == seq<seq<Change>>(g + 1, _ => []);
      InFlattenEmpty(g + 1);
    } else {
      var m := n - 1;
      LowBuckets(cs, group, size, m, g, lane);
      BucketsStep(cs, group, size, m, n);
      LowStep(Buckets(cs, group, size, m), group[m], cs[m], g, lane);
    }
  }

  /** If the lane's changes from `k` on lie above `g`, only those below `k` count. */
  lemma {:induction false} CountLowAtMost(cs: seq<Change>, group: seq<nat>, n: nat, g: nat, lane: Lane, k: nat)
    requires n <= |cs| == |group| && k <= |cs|
    requires forall x :: k <= x < |cs| && LaneOf(cs[x]) == lane ==> group[x] > g
    ensures CountLow(cs, group, n, g, lane) <= |Filter(cs[..Min(n, k)], OfLane(lane))|
    decreases n
  {
    if n > 0 {
      CountLowAtMost(cs, group, n - 1, g, lane, k);
      if n <= k { OneMore(cs, n - 1, n, lane); }
    }
  }

  /** If the lane's changes below `k` lie up to `g`, they all count. */
  lemma {:induction false} CountLowAtLeast(cs: seq<Change>, group: seq<nat>, n: nat, g: nat, lane: Lane, k: nat)
    requires n <= |cs| == |group| && k <= |cs|
    requires forall x :: 0 <= x < k && LaneOf(cs[x]) == lane ==> group[x] <= g
    ensures CountLow(cs, group, n, g, lane) >= |Filter(cs[..Min(n, k)], OfLane(lane))|
    decreases n
  {
    if n > 0 {
      CountLowAtLeast(cs, group, n - 1, g, lane, k);
      if n <= k { OneMore(cs, n - 1, n, lane); }
    }
  }

  lemma OneMore(cs: seq<Change>, m: nat, n: nat, lane: Lane)
    requires n == m + 1 <= |cs|
    ensures |Filter(cs[..n], OfLane(lane))| == |Filter(cs[..m], OfLane(lane))| + if LaneOf(cs[m]) == lane then 1 else 0
  {
    assert cs[..n] == cs[..m] + [cs[m]];
    FilterAppend(cs[..m], [cs[m]], OfLane(lane));
  }

  /** `q` selects whole lanes. */
  ghost predicate LaneWise(q: Change -> bool) {
    forall a, b :: LaneOf(a) == LaneOf(b) ==> q(a) == q(b)
  }

  /** In a list, changes of lane `A` come up to some point more than `a` times and those of `B` at
      most `b` times; in another, at some point `B` more than `b` times and `A` at most `a` times:
      then the lists differ. */
  lemma CutsDiffer(p: seq<Change>, q: seq<Change>, p1: seq<Change>, q1: seq<Change>, laneA: Lane,
                   laneB: Lane, a: nat, b: nat)
    requires p1 <= p && q1 <= q
    requires |Filter(p1, OfLane(laneA))| > a && |Filter(p1, OfLane(laneB))| <= b
    requires |Filter(q1, OfLane(laneB))| > b && |Filter(q1, OfLane(laneA))| <= a
    ensures p != q
  {
    if p != q {
    } else if |p1| <= |q1| { FilterPrefix(p1, q1, OfLane(laneA)); } else { FilterPrefix(q1, p1, OfLane(laneB)); }
  }

  /** The cut of the plan right behind change `i`. */
  lemma PlanCut(cs: seq<Change>, q: Change -> bool, i: nat, j: nat) returns (p1: seq<Change>)
    requires LaneWise(q) && i < j < |cs| && q(cs[i]) && q(cs[j]) && LaneOf(cs[i]) != LaneOf(cs[j])
    ensures p1 <= Filter(cs, q)
    ensures |Filter(p1, OfLane(LaneOf(cs[i])))| > |Filter(cs[..i], OfLane(LaneOf(cs[i])))|
    ensures |Filter(p1, OfLane(LaneOf(cs[j])))| <= |Filter(cs[..j], OfLane(LaneOf(cs[j])))|
  {
    var laneA, laneB := OfLane(LaneOf(cs[i])), OfLane(LaneOf(cs[j]));
    var k := i + 1;
    p1 := Filter(cs[..k], q);
    assert cs == cs[..k] + cs[k..] && cs[..k] == cs[..i] + [cs[i]];
    FilterAppend(cs[..k], cs[k..], q);
    FilterNested(cs[..k], q, laneA);
    FilterNested(cs[..k], q, laneB);
    FilterAppend(cs[..i], [cs[i]], laneA);
    FilterPrefix(cs[..k], cs[..j], laneB);
  }

  /** The cut of the grouped plan right behind the group of change `j`. */
  lemma GroupCut(cs: seq<Change>, group: seq<nat>, q: Change -> bool, i: nat, j: nat) returns (q1: seq<Change>)
    requires LaneOrdered(cs, group) && LaneWise(q) && i < j < |cs| && q(cs[i]) && q(cs[j]) && group[j] < group[i]
    ensures q1 <= Filter(Flatten(Groups(cs, group)), q)
    ensures |Filter(q1, OfLane(LaneOf(cs[j])))| > |Filter(cs[..j], OfLane(LaneOf(cs[j])))|
    ensures |Filter(q1, OfLane(LaneOf(cs[i])))| <= |Filter(cs[..i], OfLane(LaneOf(cs[i])))|
  {
    var size, end := Greatest(group) + 1, group[j] + 1;
    var low := Flatten(Buckets(cs, group, size, |cs|)[..end]);
    q1 := Filter(low, q);
    LowPrefix(cs, group, q, size, end);
    LaneInside(low, q, cs[i]);
    LaneInside(low, q, cs[j]);
    LowGroupHas(cs, group, size, j, end);
    LowGroupLacks(cs, group, size, i, end);
  }

  lemma LaneInside(cs: seq<Change>, q: Change -> bool, c: Change)
    requires LaneWise(q) && q(c)
    ensures Filter(Filter(cs, q), OfLane(LaneOf(c))) == Filter(cs, OfLane(LaneOf(c)))
  {
    FilterNested(cs, q, OfLane(LaneOf(c)));
  }

  lemma LowPrefix(cs: seq<Change>, group: seq<nat>, q: Change -> bool, size: nat, g: nat)
    requires |group| == |cs| && size == Greatest(group) + 1 && g <= size
    ensures Filter(Flatten(Buckets(cs, group, size, |cs|)[..g]), q) <= Filter(Flatten(Groups(cs, group)), q)
  {
    var buckets := Buckets(cs, group, size, |cs|);
    FlatGroups(cs, group);
    assert buckets == buckets[..g] + buckets[g..];
    FlattenAppend(buckets[..g], buckets[g..]);
    FilterAppend(Flatten(buckets[..g]), Flatten(buckets[g..]), q);
  }

  lemma LowGroupHas(cs: seq<Change>, group: seq<nat>, size: nat, j: nat, end: nat)
    requires LaneOrdered(cs, group) && j < |cs| && forall k :: 0 <= k < |group| ==> group[k] < size
    requires end == group[j] + 1
    ensures var low := Flatten(Buckets(cs, group, size, |cs|)[..end]);
            |Filter(low, OfLane(LaneOf(cs[j])))| > |Filter(cs[..j], OfLane(LaneOf(cs[j])))|
  {
    var k := j + 1;
    LowBuckets(cs, group, size, |cs|, group[j], LaneOf(cs[j]));
    CountLowAtLeast(cs, group, |cs|, group[j], LaneOf(cs[j]), k);
    OneMore(cs, j, k, LaneOf(cs[j]));
  }

  lemma LowGroupLacks(cs: seq<Change>, group: seq<nat>, size: nat, i: nat, end: nat)
    requires LaneOrdered(cs, group) && i < |cs| && forall k :: 0 <= k < |group| ==> group[k] < size
    requires 0 < end <= group[i]
    ensures var low := Flatten(Buckets(cs, group, size, |cs|)[..end]);
            |Filter(low, OfLane(LaneOf(cs[i])))| <= |Filter(cs[..i], OfLane(LaneOf(cs[i])))|
  {
    LowBuckets(cs, group, size, |cs|, end - 1, LaneOf(cs[i]));
    CountLowAtMost(cs, group, |cs|, end - 1, LaneOf(cs[i]), i);
  }

  /** Main theorem: the grouped plan meets the changes of several lanes in their original
      order if and only if the group numbers never fall along them. */
  lemma OrderKeptIff(cs: seq<Change>, group: seq<nat>, q: Change -> bool)
    requires LaneOrdered(cs, group) && LaneWise(q)
    ensures Filter(Flatten(Groups(cs, group)), q) == Filter(cs, q) <==> Monotone(cs, group, q)
  {
    if Monotone(cs, group, q) {
      GroupsKeepOrder(cs, group, q);
    } else {
      var i, j :| 0 <= i < j < |cs| && q(cs[i]) && q(cs[j]) && group[j] < group[i];
      var p1 := PlanCut(cs, q, i, j);
      var q1 := GroupCut(cs, group, q, i, j);
      CutsDiffer(Filter(cs, q), Filter(Flatten(Groups(cs, group)), q), p1, q1, LaneOf(cs[i]), LaneOf(cs[j]),
                 |Filter(cs[..i], OfLane(LaneOf(cs[i])))|, |Filter(cs[..j], OfLane(LaneOf(cs[j])))|);
    }
  }

  /** The changes of one group number, in plan order. */
  function Numbered(cs: seq<Change>, group: seq<nat>, h: nat): seq<Change>
    requires |cs| == |group|
  {
    if cs == [] then []
    else
      var n := |cs| - 1;
      Numbered(cs[..n], group[..n], h) + if group[n] == h then [cs[n]] else []
  }

  lemma {:induction false} BucketIsNumbered(cs: seq<Change>, group: seq<nat>, size: nat, n: nat, h: nat)
    requires n <= |cs| == |group| && h < size && forall i :: 0 <= i < |group| ==> group[i] < size
    ensures Buckets(cs, group, size, n)[h] == Numbered(cs[..n], group[..n], h)
    decreases n
  {
    if n > 0 {
      BucketIsNumbered(cs, group, size, n - 1, h);
      assert cs[..n][..n - 1] == cs[..n - 1] && group[..n][..n - 1] == group[..n - 1];
    }
  }

  lemma {:induction false} NumberedEmptyIff(cs: seq<Change>, group: seq<nat>, h: nat)
    requires |cs| == |group|
    ensures Numbered(cs, group, h) != [] <==> h in group
    decreases |cs|
  {
    if cs != [] {
      var n := |cs| - 1;
      NumberedEmptyIff(cs[..n], group[..n], h);
      assert group == group[..n] + [group[n]];
    }
  }

  /** `numbers` are the group numbers in use, ascending. */
  ghost predicate InUse(group: seq<nat>, numbers: seq<nat>) {
    (forall i, j :: 0 <= i < j < |numbers| ==> numbers[i] < numbers[j]) && forall h :: h in numbers <==> h in group
  }

  /** Main theorem: there is one group for every number in use, in ascending order, and it holds the
      changes of that number in plan order. */
  lemma GroupsByNumber(cs: seq<Change>, group: seq<nat>) returns (numbers: seq<nat>)
    requires |cs| == |group|
    ensures InUse(group, numbers) && |numbers| == |Groups(cs, group)|
    ensures forall i :: 0 <= i < |numbers| ==>
              Groups(cs, group)[i] == Numbered(cs, group, numbers[i]) && Groups(cs, group)[i] != []
  {
    var size := Greatest(group) + 1;
    var buckets := Buckets(cs, group, size, |cs|);
    BucketsNumbered(cs, group, size, buckets);
    assert buckets[..size] == buckets;
    numbers := NonEmptyNumbers(cs, group, buckets, size);
    NumbersInUse(group, numbers, size);
  }

  lemma NumbersInUse(group: seq<nat>, numbers: seq<nat>, size: nat)
    requires forall i :: 0 <= i < |group| ==> group[i] < size
    requires forall i, j :: 0 <= i < j < |numbers| ==> numbers[i] < numbers[j]
    requires forall h :: h in numbers <==> 0 <= h < size && h in group
    ensures InUse(group, numbers)
  {
    forall h | h in group ensures h < size { var i :| 0 <= i < |group| && group[i] == h; }
  }

  lemma BucketsNumbered(cs: seq<Change>, group: seq<nat>, size: nat, buckets: seq<seq<Change>>)
    requires |cs| == |group| && forall i :: 0 <= i < |group| ==> group[i] < size
    requires buckets == Buckets(cs, group, size, |cs|)
    ensures forall h :: 0 <= h < size ==> buckets[h] == Numbered(cs, group, h)
  {
    assert cs[..|cs|] == cs && group[..|group|] == group;
    forall h | 0 <= h < size ensures buckets[h] == Numbered(cs, group, h) {
      BucketIsNumbered(cs, group, size, |cs|, h);
    }
  }

  lemma {:induction false} NonEmptyNumbers(cs: seq<Change>, group: seq<nat>, buckets: seq<seq<Change>>, n: nat)
    returns (numbers: seq<nat>)
    requires |cs| == |group| && n <= |buckets|
    requires forall h :: 0 <= h < |buckets| ==> buckets[h] == Numbered(cs, group, h)
    ensures (forall i, j :: 0 <= i < j < |numbers| ==> numbers[i] < numbers[j])
    ensures forall h :: h in numbers <==> 0 <= h < n && h in group
    ensures |numbers| == |Filter(buckets[..n], NonEmpty())|
    ensures forall i :: 0 <= i < |numbers| ==>
              Filter(buckets[..n], NonEmpty())[i] == Numbered(cs, group, numbers[i])
              && Filter(buckets[..n], NonEmpty())[i] != []
    decreases n
  {
    numbers := [];
    if n > 0 {
      var m := n - 1;
      numbers := NonEmptyNumbers(cs, group, buckets, m);
      NumberedEmptyIff(cs, group, m);
      assert buckets[..n] == buckets[..m] + [buckets[m]];
      FilterAppend(buckets[..m], [buckets[m]], NonEmpty());
      forall i | 0 <= i < |numbers| ensures numbers[i] < m { assert numbers[i] in numbers; }
      if m in group { numbers := numbers + [m]; }
    }
  }

  /** The bucket a group comes from. */
  lemma GroupAt(cs: seq<Change>, group: seq<nat>, g: seq<Change>) returns (h: nat)
    requires |cs| == |group| && g in Groups(cs, group)
    ensures h <= Greatest(group) && Buckets(cs, group, Greatest(group) + 1, |cs|)[h] == g
  {
    var buckets := Buckets(cs, group, Greatest(group) + 1, |cs|);
    FilterMembers(buckets, NonEmpty());
    assert g in buckets;
    h :| 0 <= h < |buckets| && buckets[h] == g;
  }

  lemma GroupMembers(cs: seq<Change>, group: seq<nat>, g: seq<Change>, x: Change)
    requires |cs| == |group| && g in Groups(cs, group) && x in g
    ensures x in cs
  {
    var h := GroupAt(cs, group, g);
    BucketMembers(cs, group, Greatest(group) + 1, |cs|, h, x);
  }

  lemma GroupSeparated(cs: seq<Change>, conflicts: seq<Conflict>, g: seq<Change>)
    requires Complete(cs, conflicts) && g in Groups(cs, GroupNumbers(cs, conflicts))
    ensures Separated(g)
  {
    var group := GroupNumbers(cs, conflicts);
    var h := GroupAt(cs, group, g);
    GroupsFollowLanes(cs, conflicts);
    BucketSeparated(cs, group, Greatest(group) + 1, |cs|, h);
  }

  /** Main theorem: a single group, fed back to the resolver, is valid. */
  lemma GroupsAreConflictFree(cs: seq<Change>, conflicts: seq<Conflict>, g: seq<Change>, c: Conflict)
    requires Complete(cs, conflicts) && g in Groups(cs, GroupNumbers(cs, conflicts))
    ensures !IsConflict(g, c)
  {
    GroupSeparated(cs, conflicts, g);
    SeparatedHasNoConflict(g, c);
  }
}
