/** Renaming identifiers by splicing from the end (editing/ast_patcher.py). */
module Rename {
  import opened Prelude
  import opened Text
  import opened Syntax

  datatype Range = Range(start: nat, end: nat)

  // ------------------------------------------------------------ what the code does

  function Occurrences(source: string, t: Tree, name: string): seq<Range>
    decreases t, 1
  {
    (if t.kind == "identifier" && Slice(source, t.startByte, t.endByte) == name then
       [Range(t.startByte, t.endByte)] else [])
    + OccurrencesIn(source, t.children, name)
  }

  function OccurrencesIn(source: string, ts: seq<Tree>, name: string): seq<Range>
    decreases ts, 0
  {
    if ts == [] then [] else Occurrences(source, ts[0], name) + OccurrencesIn(source, ts[1..], name)
  }

  /** Stable insertion into a list that descends by start. */
  function InsertDescending(r: Range, rs: seq<Range>): seq<Range> {
    if rs == [] || rs[0].start <= r.start then [r] + rs else [rs[0]] + InsertDescending(r, rs[1..])
  }

  function SortDescending(rs: seq<Range>): seq<Range> {
    if rs == [] then [] else InsertDescending(rs[0], SortDescending(rs[1..]))
  }

  /** `text[start:end] = with` */
  function Splice(text: string, r: Range, with_: string): string {
    ReplaceRange(text, r.start, Max(r.start, r.end), with_)
  }

  function SpliceAll(text: string, rs: seq<Range>, with_: string): string
    decreases |rs|
  {
    if rs == [] then text else SpliceAll(Splice(text, rs[0], with_), rs[1..], with_)
  }

  function RenameIn(source: string, scope: Tree, oldName: string, newName: string): string {
    if oldName == "" || oldName == newName then source
    else SpliceAll(source, SortDescending(Occurrences(source, scope, oldName)), newName)
  }

  method RenameIdentifiersInScope(source: string, scope: Tree, oldName: string, newName: string)
      returns (result: string)
    ensures result == RenameIn(source, scope, oldName, newName)
  {
    if oldName == "" || oldName == newName {
      return source;
    }
    var ranges := Occurrences(source, scope, oldName);
    if ranges == [] {
      return source;
    }
    ranges := SortDescending(ranges);
    result := source;
    for i := 0 to |ranges|
      invariant SpliceAll(result, ranges[i..], newName) == SpliceAll(source, ranges, newName)
    {
      assert ranges[i..][1..] == ranges[i + 1..];
      result := Splice(result, ranges[i], newName);
    }
  }

  // ------------------------------------------------------------ simultaneous substitution

  /** Ranges in order, disjoint, between `low` and `high`. */
  predicate InOrder(rs: seq<Range>, low: nat, high: nat) {
    if rs == [] then low <= high
    else low <= rs[0].start <= rs[0].end && InOrder(rs[1..], rs[0].end, high)
  }

  /** The stretches of text between the ranges. */
  function Gaps(text: string, from: nat, rs: seq<Range>): (r: seq<string>)
    requires InOrder(rs, from, |text|)
    ensures |r| == |rs| + 1
    decreases |rs|
  {
    InOrderBounds(rs, from, |text|);
    if rs == [] then [text[from..]] else [text[from..rs[0].start]] + Gaps(text, rs[0].end, rs[1..])
  }

  /** The texts of the ranges. */
  function Words(text: string, from: nat, rs: seq<Range>): (r: seq<string>)
    requires InOrder(rs, from, |text|)
    ensures |r| == |rs|
    decreases |rs|
  {
    InOrderBounds(rs, from, |text|);
    if rs == [] then [] else [text[rs[0].start..rs[0].end]] + Words(text, rs[0].end, rs[1..])
  }

  lemma {:induction false} InOrderBounds(rs: seq<Range>, low: nat, high: nat)
    requires InOrder(rs, low, high)
    ensures low <= high && (rs != [] ==> rs[0].end <= high)
  {
    if rs != [] { InOrderBounds(rs[1..], rs[0].end, high); }
  }

  /** The gaps with `words` in between. */
  function Weave(gaps: seq<string>, words: seq<string>): string
    requires |gaps| == |words| + 1
  {
    if words == [] then gaps[0] else gaps[0] + words[0] + Weave(gaps[1..], words[1..])
  }

  function Substituted(words: seq<string>, a: string, b: string): (r: seq<string>)
    ensures |r| == |words|
  {
    if words == [] then [] else [if words[0] == a then b else words[0]] + Substituted(words[1..], a, b)
  }

  function Count(words: seq<string>, a: string): nat {
    if words == [] then 0 else Count(words[1..], a) + if words[0] == a then 1 else 0
  }

  lemma {:induction false} WeaveRestores(text: string, from: nat, rs: seq<Range>)
    requires InOrder(rs, from, |text|)
    ensures from <= |text| && Weave(Gaps(text, from, rs), Words(text, from, rs)) == text[from..]
    decreases |rs|
  {
    if rs != [] {
      InOrderBounds(rs, from, |text|);
      WeaveRestores(text, rs[0].end, rs[1..]);
      assert text[from..] == text[from..rs[0].start] + text[rs[0].start..rs[0].end] + text[rs[0].end..];
    }
  }

  // ------------------------------------------------------------ identifiers of a scope

  /** All identifier ranges of the scope, in reading order. */
  function Identifiers(t: Tree): seq<Range>
    decreases t, 1
  {
    (if t.kind == "identifier" then [Range(t.startByte, t.endByte)] else []) + IdentifiersIn(t.children)
  }

  function IdentifiersIn(ts: seq<Tree>): seq<Range>
    decreases ts, 0
  {
    if ts == [] then [] else Identifiers(ts[0]) + IdentifiersIn(ts[1..])
  }

  /** Children follow each other inside their parent, and identifiers are leaves. */
  predicate BytesNested(t: Tree)
    decreases t, 1
  {
    t.startByte <= t.endByte
    && (t.kind == "identifier" ==> t.children == [])
    && BytesNestedIn(t.children, t.startByte, t.endByte)
  }

  predicate BytesNestedIn(ts: seq<Tree>, low: nat, high: nat)
    decreases ts, 0
  {
    if ts == [] then low <= high
    else low <= ts[0].startByte && BytesNested(ts[0]) && BytesNestedIn(ts[1..], ts[0].endByte, high)
  }

  lemma {:induction false} InOrderAppend(a: seq<Range>, b: seq<Range>, low: nat, mid: nat, high: nat)
    requires InOrder(a, low, mid) && InOrder(b, mid, high)
    ensures InOrder(a + b, low, high)
    decreases |a|
  {
    if a == [] {
      assert a + b == b;
      InOrderLower(b, low, mid, high);
    } else {
      assert (a + b)[1..] == a[1..] + b;
      InOrderAppend(a[1..], b, a[0].end, mid, high);
    }
  }

  lemma InOrderLower(rs: seq<Range>, low: nat, mid: nat, high: nat)
    requires low <= mid && InOrder(rs, mid, high)
    ensures InOrder(rs, low, high)
  {}

  lemma {:induction false} IdentifiersInOrder(t: Tree)
    requires BytesNested(t)
    ensures InOrder(Identifiers(t), t.startByte, t.endByte)
    decreases t, 1
  {
    if t.kind == "identifier" {
      assert Identifiers(t) == [Range(t.startByte, t.endByte)];
      assert Identifiers(t)[1..] == [];
    } else {
      IdentifiersInInOrder(t.children, t.startByte, t.endByte);
      assert Identifiers(t) == IdentifiersIn(t.children);
    }
  }

  lemma {:induction false} IdentifiersInInOrder(ts: seq<Tree>, low: nat, high: nat)
    requires BytesNestedIn(ts, low, high)
    ensures InOrder(IdentifiersIn(ts), low, high)
    decreases ts, 0
  {
    if ts != [] {
      IdentifiersInOrder(ts[0]);
      InOrderLower(Identifiers(ts[0]), low, ts[0].startByte, ts[0].endByte);
      IdentifiersInInOrder(ts[1..], ts[0].endByte, high);
      InOrderAppend(Identifiers(ts[0]), IdentifiersIn(ts[1..]), low, ts[0].endByte, high);
    }
  }

  function Reading(source: string, name: string): Range -> bool {
    (r: Range) => Slice(source, r.start, r.end) == name
  }

  /** The collected ranges are the identifiers that read `name`. */
  lemma {:induction false} OccurrencesAreIdentifiers(source: string, t: Tree, name: string)
    ensures Occurrences(source, t, name) == Filter(Identifiers(t), Reading(source, name))
    decreases t, 1
  {
    OccurrencesInAreIdentifiers(source, t.children, name);
    var r, rest := Range(t.startByte, t.endByte), IdentifiersIn(t.children);
    if t.kind == "identifier" {
      assert Identifiers(t) == [r] + rest && ([r] + rest)[1..] == rest;
    } else {
      assert Identifiers(t) == rest;
    }
  }

  lemma {:induction false} OccurrencesInAreIdentifiers(source: string, ts: seq<Tree>, name: string)
    ensures OccurrencesIn(source, ts, name) == Filter(IdentifiersIn(ts), Reading(source, name))
    decreases ts, 0
  {
    if ts != [] {
      OccurrencesAreIdentifiers(source, ts[0], name);
      OccurrencesInAreIdentifiers(source, ts[1..], name);
      FilterAppend(Identifiers(ts[0]), IdentifiersIn(ts[1..]), Reading(source, name));
    }
  }

  // ------------------------------------------------------------ splicing equals substitution

  lemma {:induction false} InsertMembers(r: Range, rs: seq<Range>)
    ensures forall x :: x in InsertDescending(r, rs) ==> x == r || x in rs
  {
    if rs != [] && rs[0].start > r.start { InsertMembers(r, rs[1..]); }
  }

  lemma {:induction false} SortMembers(rs: seq<Range>)
    ensures forall x :: x in SortDescending(rs) ==> x in rs
  {
    if rs != [] {
      SortMembers(rs[1..]);
      InsertMembers(rs[0], SortDescending(rs[1..]));
    }
  }

  lemma {:induction false} InsertLast(r: Range, rs: seq<Range>)
    requires forall x :: x in rs ==> x.start > r.start
    ensures InsertDescending(r, rs) == rs + [r]
  {
    if rs != [] { InsertLast(r, rs[1..]); }
  }

  lemma {:induction false} SpliceLast(text: string, rs: seq<Range>, r: Range, with_: string)
    ensures SpliceAll(text, rs + [r], with_) == Splice(SpliceAll(text, rs, with_), r, with_)
    decreases |rs|
  {
    if rs != [] {
      assert (rs + [r])[1..] == rs[1..] + [r];
      SpliceLast(Splice(text, rs[0], with_), rs[1..], r, with_);
    } else {
      assert [r][1..] == [];
    }
  }

  lemma {:induction false} InOrderStarts(rs: seq<Range>, low: nat, high: nat)
    requires InOrder(rs, low, high)
    ensures forall x :: x in rs ==> low <= x.start <= x.end <= high
    decreases |rs|
  {
    InOrderBounds(rs, low, high);
    if rs != [] { InOrderStarts(rs[1..], rs[0].end, high); }
  }

  lemma SpliceAt(text: string, from: nat, r: Range, woven: string, with_: string)
    requires from <= r.start <= r.end <= |text|
    ensures Splice(text[..r.end] + woven, r, with_) == text[..from] + (text[from..r.start] + with_ + woven)
  {}

  lemma KeepAt(text: string, from: nat, r: Range, woven: string)
    requires from <= r.start <= r.end <= |text|
    ensures text[..r.end] + woven == text[..from] + (text[from..r.start] + text[r.start..r.end] + woven)
  {}

  /** The text from `from` on, with the identifiers reading `name` replaced at once. */
  function Rest(text: string, from: nat, ids: seq<Range>, name: string, with_: string): string
    requires InOrder(ids, from, |text|)
  {
    Weave(Gaps(text, from, ids), Substituted(Words(text, from, ids), name, with_))
  }

  lemma RestStep(text: string, from: nat, ids: seq<Range>, name: string, with_: string)
    requires InOrder(ids, from, |text|) && ids != []
    ensures from <= ids[0].start <= ids[0].end <= |text|
    ensures var word := text[ids[0].start..ids[0].end];
            Rest(text, from, ids, name, with_)
            == text[from..ids[0].start] + (if word == name then with_ else word)
               + Rest(text, ids[0].end, ids[1..], name, with_)
  {
    InOrderBounds(ids, from, |text|);
    var words := Words(text, from, ids);
    assert words[1..] == Words(text, ids[0].end, ids[1..]);
    assert Substituted(words, name, with_)[1..] == Substituted(words[1..], name, with_);
    assert Gaps(text, from, ids)[1..] == Gaps(text, ids[0].end, ids[1..]);
  }

  /** Splicing the ranges that read `name`, last one first, leaves the text before `from` and
      substitutes in all the rest at once. */
  lemma {:induction false} SpliceIsSubstitution(text: string, from: nat, ids: seq<Range>, name: string, with_: string)
    requires InOrder(ids, from, |text|) && name != ""
    ensures from <= |text|
    ensures SpliceAll(text, SortDescending(Filter(ids, Reading(text, name))), with_)
            == text[..from] + Rest(text, from, ids, name, with_)
    decreases |ids|
  {
    InOrderBounds(ids, from, |text|);
    if ids != [] {
      var r, rest := ids[0], ids[1..];
      var woven := Rest(text, r.end, rest, name, with_);
      SpliceIsSubstitution(text, r.end, rest, name, with_);
      RestStep(text, from, ids, name, with_);
      if text[r.start..r.end] == name {
        RangeGoesLast(text, from, ids, name);
        SpliceLast(text, SortDescending(Filter(rest, Reading(text, name))), r, with_);
        SpliceAt(text, from, r, woven, with_);
      } else {
        KeepAt(text, from, r, woven);
      }
    } else {
      assert text == text[..from] + text[from..];
    }
  }

  lemma RangeGoesLast(text: string, from: nat, ids: seq<Range>, name: string)
    requires InOrder(ids, from, |text|) && ids != [] && name != ""
    requires ids[0].end <= |text| && text[ids[0].start..ids[0].end] == name
    ensures SortDescending(Filter(ids, Reading(text, name)))
            == SortDescending(Filter(ids[1..], Reading(text, name))) + [ids[0]]
  {
    var later := Filter(ids[1..], Reading(text, name));
    FilterMembers(ids[1..], Reading(text, name));
    InOrderStarts(ids[1..], ids[0].end, |text|);
    SortMembers(later);
    InsertLast(ids[0], SortDescending(later));
    assert ([ids[0]] + later)[1..] == later;
  }

  ghost predicate ScopeOf(source: string, scope: Tree) {
    BytesNested(scope) && scope.endByte <= |source|
  }

  lemma ScopeInOrder(source: string, scope: Tree)
    requires ScopeOf(source, scope)
    ensures InOrder(Identifiers(scope), 0, |source|)
  {
    IdentifiersInOrder(scope);
    InOrderLower(Identifiers(scope), 0, scope.startByte, scope.endByte);
    InOrderHigher(Identifiers(scope), 0, scope.endByte, |source|);
  }

  lemma {:induction false} InOrderHigher(rs: seq<Range>, low: nat, mid: nat, high: nat)
    requires mid <= high && InOrder(rs, low, mid)
    ensures InOrder(rs, low, high)
    decreases |rs|
  {
    if rs != [] { InOrderHigher(rs[1..], rs[0].end, mid, high); }
  }

  /** Main theorem: the renamed text is the source with every identifier of the scope that
      reads `oldName` replaced at once, and with all other text kept in order. */
  lemma RenameIsSubstitution(source: string, scope: Tree, oldName: string, newName: string)
    requires ScopeOf(source, scope)
    ensures InOrder(Identifiers(scope), 0, |source|)
    ensures var gaps, words := Gaps(source, 0, Identifiers(scope)), Words(source, 0, Identifiers(scope));
            && source == Weave(gaps, words)
            && RenameIn(source, scope, oldName, newName)
               == Weave(gaps, if oldName == "" then words else Substituted(words, oldName, newName))
  {
    ScopeInOrder(source, scope);
    var ids := Identifiers(scope);
    WeaveRestores(source, 0, ids);
    assert source[0..] == source && forall x: string :: source[..0] + x == x;
    if oldName != "" && oldName != newName {
      OccurrencesAreIdentifiers(source, scope, oldName);
      SpliceIsSubstitution(source, 0, ids, oldName, newName);
    } else if oldName != "" {
      SubstituteSelf(Words(source, 0, ids), oldName);
    }
  }

  lemma {:induction false} SubstituteSelf(words: seq<string>, a: string)
    ensures Substituted(words, a, a) == words
  {
    if words != [] { SubstituteSelf(words[1..], a); }
  }

  lemma {:induction false} SubstitutedLength(gaps: seq<string>, words: seq<string>, a: string, b: string)
    requires |gaps| == |words| + 1
    ensures |Weave(gaps, Substituted(words, a, b))| == |Weave(gaps, words)| + Count(words, a) * (|b| - |a|)
    decreases |words|
  {
    if words != [] {
      SubstitutedLength(gaps[1..], words[1..], a, b);
      FirstWordLength(gaps, words, a, b);
      Times(Count(words[1..], a), |b| - |a|);
    }
  }

  lemma FirstWordLength(gaps: seq<string>, words: seq<string>, a: string, b: string)
    requires |gaps| == |words| + 1 && words != []
    ensures |Weave(gaps, Substituted(words, a, b))| - |Weave(gaps[1..], Substituted(words[1..], a, b))|
            == |Weave(gaps, words)| - |Weave(gaps[1..], words[1..])| + if words[0] == a then |b| - |a| else 0
  {
    assert Substituted(words, a, b)[1..] == Substituted(words[1..], a, b);
  }

  lemma Times(n: int, d: int)
    ensures (n + 1) * d == n * d + d
  {}

  /** The length changes by the number of renamed identifiers times the difference of the names. */
  lemma RenameLength(source: string, scope: Tree, oldName: string, newName: string)
    requires ScopeOf(source, scope) && oldName != ""
    ensures InOrder(Identifiers(scope), 0, |source|)
    ensures |RenameIn(source, scope, oldName, newName)|
            == |source| + Count(Words(source, 0, Identifiers(scope)), oldName) * (|newName| - |oldName|)
  {
    RenameIsSubstitution(source, scope, oldName, newName);
    SubstitutedLength(Gaps(source, 0, Identifiers(scope)), Words(source, 0, Identifiers(scope)), oldName, newName);
  }

  // ------------------------------------------------------------ renaming back

  lemma {:induction false} SubstituteBack(words: seq<string>, a: string, b: string)
    requires a != b
    ensures Substituted(Substituted(words, a, b), b, a) == Substituted(words, b, a)
    decreases |words|
  {
    if words != [] {
      SubstituteBack(words[1..], a, b);
      assert Substituted(words, a, b)[1..] == Substituted(words[1..], a, b);
    }
  }

  lemma {:induction false} CountIn(words: seq<string>, a: string)
    ensures Count(words, a) > 0 <==> a in words
    ensures a !in words ==> forall b :: Substituted(words, a, b) == words
  {
    if words != [] { CountIn(words[1..], a); }
  }

  /** Replacing a word that occurs by a different one shows in the text. */
  lemma {:induction false} SubstitutionShows(gaps: seq<string>, words: seq<string>, a: string, b: string)
    requires |gaps| == |words| + 1 && a != b && |a| == |b| && a in words
    ensures Weave(gaps, Substituted(words, a, b)) != Weave(gaps, words)
    decreases |words|
  {
    var rest := words[1..];
    var was, now := Weave(gaps[1..], rest), Weave(gaps[1..], Substituted(rest, a, b));
    assert Substituted(words, a, b)[1..] == Substituted(rest, a, b);
    var g := gaps[0];
    if words[0] == a {
      assert (g + a + was)[|g|..|g| + |a|] == a && (g + b + now)[|g|..|g| + |a|] == b;
    } else {
      SubstitutionShows(gaps[1..], rest, a, b);
      var head := g + words[0];
      assert (head + was)[|head|..] == was && (head + now)[|head|..] == now;
    }
  }

  lemma SubstitutionChanges(gaps: seq<string>, words: seq<string>, a: string, b: string)
    requires |gaps| == |words| + 1 && a != b
    ensures Weave(gaps, Substituted(words, a, b)) == Weave(gaps, words) <==> a !in words
  {
    CountIn(words, a);
    if a in words {
      if |a| == |b| {
        SubstitutionShows(gaps, words, a, b);
      } else {
        SubstitutedLength(gaps, words, a, b);
        NonZeroProduct(Count(words, a), |b| - |a|);
      }
    }
  }

  lemma NonZeroProduct(n: int, d: int)
    requires n > 0 && d != 0
    ensures n * d != 0
  {}

  /** `again` parses the renamed text with the same identifiers between the same gaps. */
  ghost predicate ReparseOf(renamed: string, again: Tree, gaps: seq<string>, words: seq<string>) {
    && ScopeOf(renamed, again)
    && InOrder(Identifiers(again), 0, |renamed|)
    && Gaps(renamed, 0, Identifiers(again)) == gaps
    && Words(renamed, 0, Identifiers(again)) == words
  }

  /** Main theorem: renaming to a non-empty, different name and back restores the source if
      and only if the new name did not already occur as an identifier in the scope. */
  lemma RoundTripIff(source: string, scope: Tree, again: Tree, oldName: string, newName: string)
    requires ScopeOf(source, scope) && oldName != "" && newName != "" && oldName != newName
    requires InOrder(Identifiers(scope), 0, |source|)
    requires ReparseOf(RenameIn(source, scope, oldName, newName), again, Gaps(source, 0, Identifiers(scope)),
                       Substituted(Words(source, 0, Identifiers(scope)), oldName, newName))
    ensures RenameIn(RenameIn(source, scope, oldName, newName), again, newName, oldName) == source
            <==> newName !in Words(source, 0, Identifiers(scope))
  {
    var gaps, words := Gaps(source, 0, Identifiers(scope)), Words(source, 0, Identifiers(scope));
    RenameIsSubstitution(source, scope, oldName, newName);
    RenameIsSubstitution(RenameIn(source, scope, oldName, newName), again, newName, oldName);
    SubstituteBack(words, oldName, newName);
    SubstitutionChanges(gaps, words, newName, oldName);
  }
}
