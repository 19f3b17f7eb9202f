/** Splitting a conflicting plan into sequential groups (editing/conflict_resolver.py). */
module Grouping {
  import opened Prelude
  import opened Plan
  import opened Conflicts

  // ------------------------------------------------------------ group numbers

  /** The largest `order + 1` at which `i` occurs among the first `n` of `indices`; 0 if nowhere. */
  function OrderIn(indices: seq<nat>, i: nat, n: nat): nat
    requires n <= |indices|
  {
    if n == 0 then 0
    else Max(OrderIn(indices, i, n - 1), if indices[n - 1] == i then n else 0)
  }

  /** The group number the first `m` conflicts give change `i`. */
  function Assigned(conflicts: seq<Conflict>, i: nat, m: nat): nat
    requires m <= |conflicts|
  {
    if m == 0 then 0
    else Max(Assigned(conflicts, i, m - 1), OrderIn(conflicts[m - 1].indices, i, |conflicts[m - 1].indices|))
  }

  function GroupNumbers(cs: seq<Change>, conflicts: seq<Conflict>): (r: seq<nat>)
    ensures |r| == |cs| && forall i :: 0 <= i < |cs| ==> r[i] == Assigned(conflicts, i, |conflicts|)
  {
    seq(|cs|, i requires 0 <= i < |cs| => Assigned(conflicts, i, |conflicts|))
  }

  /** The changes below position `n`, each appended to the bucket of its number. */
  function Buckets(cs: seq<Change>, group: seq<nat>, size: nat, n: nat): (r: seq<seq<Change>>)
    requires n <= |cs| == |group| && forall i :: 0 <= i < |group| ==> group[i] < size
    ensures |r| == size
  {
    if n == 0 then seq(size, _ => [])
    else
      var before := Buckets(cs, group, size, n - 1);
      before[group[n - 1] := before[group[n - 1]] + [cs[n - 1]]]
  }

  function NonEmpty(): seq<Change> -> bool {
    (g: seq<Change>) => g != []
  }

  function Greatest(group: seq<nat>): (m: nat)
    ensures forall i :: 0 <= i < |group| ==> group[i] <= m
  {
    if group == [] then 0
    else
      var rest := Greatest(group[1..]);
      assert forall i :: 0 < i < |group| ==> group[i] == group[1..][i - 1];
      Max(group[0], rest)
  }

  function Groups(cs: seq<Change>, group: seq<nat>): seq<seq<Change>>
    requires |cs| == |group|
  {
    Filter(Buckets(cs, group, Greatest(group) + 1, |cs|), NonEmpty())
  }

  // ------------------------------------------------------------ the methods

  /** `change_to_group` after all conflicts, computed by a running maximum. */
  method AssignGroups(cs: seq<Change>, conflicts: seq<Conflict>) returns (group: seq<nat>)
    ensures group == GroupNumbers(cs, conflicts)
  {
    group := seq(|cs|, _ => 0);
    for m := 0 to |conflicts|
      invariant |group| == |cs| && forall i :: 0 <= i < |cs| ==> group[i] == Assigned(conflicts, i, m)
    {
      var indices := conflicts[m].indices;
      for order := 0 to |indices|
        invariant |group| == |cs|
        invariant forall i :: 0 <= i < |cs| ==> group[i] == Max(Assigned(conflicts, i, m), OrderIn(indices, i, order))
      {
        var idx := indices[order];
        if idx < |cs| {
          group := group[idx := Max(group[idx], order + 1)];
        }
      }
    }
  }

  method BuildSequentialGroups(cs: seq<Change>, conflicts: seq<Conflict>) returns (groups: seq<seq<Change>>)
    ensures groups == Groups(cs, GroupNumbers(cs, conflicts))
  {
    var group := AssignGroups(cs, conflicts);
    var maxGroup := Greatest(group);
    var result: seq<seq<Change>> := seq(maxGroup + 1, _ => []);
    for i := 0 to |cs|
      invariant result == Buckets(cs, group, maxGroup + 1, i)
    {
      result := result[group[i] := result[group[i]] + [cs[i]]];
    }
    groups := Filter(result, NonEmpty());
  }

  datatype Resolution = Valid | Split(conflicts: seq<Conflict>, groups: seq<seq<Change>>)

  method ResolveConflicts(changes: seq<Change>) returns (r: Resolution)
    ensures r.Valid? <==> forall c :: !IsConflict(changes, c)
    ensures r.Split? ==> Complete(changes, r.conflicts) && InReportOrder(r.conflicts)
                         && r.groups == Groups(changes, GroupNumbers(changes, r.conflicts))
  {
    if changes == [] {
      return Valid;
    }
    var bySymbol := KeyConflicts(changes, true);
    var byFile := KeyConflicts(changes, false);
    var conflicts := bySymbol + byFile;
    var semantic := DetectSemanticOverlaps(changes);
    for n := 0 to |semantic|
      invariant conflicts == bySymbol + byFile + semantic[..n]
    {
      var overlap := semantic[n];
      NotReportedYet(changes, bySymbol + byFile, semantic, n);
      if !exists c :: c in conflicts && SameOverlap(c, overlap) {
        conflicts := conflicts + [overlap];
      }
      assert semantic[..n + 1] == semantic[..n] + [overlap];
    }
    assert semantic[..|semantic|] == semantic;
    PassesInOrder(bySymbol, byFile, semantic);
    forall c ensures c in conflicts <==> IsConflict(changes, c) {
      assert c in conflicts <==> c in bySymbol || c in byFile || c in semantic;
    }
    if conflicts == [] {
      return Valid;
    }
    var groups := BuildSequentialGroups(changes, conflicts);
    assert IsConflict(changes, conflicts[0]) by { assert conflicts[0] in conflicts; }
    return Split(conflicts, groups);
  }

  /** An earlier semantic overlap with the same set of positions. */
  predicate SameOverlap(c: Conflict, overlap: Conflict) {
    c.kind == SemanticOverlap && (set i | i in c.indices) == (set i | i in overlap.indices)
  }

  /** No overlap is ever suppressed: none with its positions was reported before. */
  lemma NotReportedYet(cs: seq<Change>, byKey: seq<Conflict>, semantic: seq<Conflict>, n: nat)
    requires n < |semantic| && InReportOrder(semantic) && forall c :: c in semantic <==> IsOverlap(cs, c)
    requires forall c :: c in byKey ==> c.kind != SemanticOverlap
    ensures forall c :: c in byKey + semantic[..n] ==> !SameOverlap(c, semantic[n])
  {
    assert semantic[n] in semantic;
    forall c | c in byKey + semantic[..n] ensures !SameOverlap(c, semantic[n]) {
      if c !in byKey {
        var i :| 0 <= i < n && semantic[i] == c;
        assert semantic[i] in semantic;
        if SameOverlap(c, semantic[n]) { OverlapDetermined(cs, c, semantic[n]); }
      }
    }
  }

  /** The three passes one behind the other. */
  lemma PassesInOrder(bySymbol: seq<Conflict>, byFile: seq<Conflict>, semantic: seq<Conflict>)
    requires InReportOrder(bySymbol) && InReportOrder(byFile) && InReportOrder(semantic)
    requires forall c :: c in bySymbol ==> c.kind == SameSymbol
    requires forall c :: c in byFile ==> c.kind == SameFile
    requires forall c :: c in semantic ==> c.kind == SemanticOverlap
    ensures InReportOrder(bySymbol + byFile + semantic)
  {
    forall i | 0 <= i < |bySymbol| ensures bySymbol[i].kind == SameSymbol { assert bySymbol[i] in bySymbol; }
    forall i | 0 <= i < |byFile| ensures byFile[i].kind == SameFile { assert byFile[i] in byFile; }
    forall i | 0 <= i < |semantic| ensures semantic[i].kind == SemanticOverlap { assert semantic[i] in semantic; }
  }

  lemma OverlapDetermined(cs: seq<Change>, a: Conflict, b: Conflict)
    requires IsOverlap(cs, a) && IsOverlap(cs, b) && SameOverlap(a, b)
    ensures a == b
  {
    var i: nat, j: nat :| i < |cs| && j < |cs| && Overlapping(cs, i, j) && a == OverlapConflict(cs, i, j);
    var p: nat, q: nat :| p < |cs| && q < |cs| && Overlapping(cs, p, q) && b == OverlapConflict(cs, p, q);
    var s := set x | x in a.indices;
    assert i in s && j in s;
    assert p in (set x | x in b.indices) && q in (set x | x in b.indices);
  }
}
