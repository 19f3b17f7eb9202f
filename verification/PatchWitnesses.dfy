/** Concrete plans on which the plain reading of the patch engine fails. */
module PatchWitnesses {
  import opened Prelude
  import opened Text
  import opened Syntax
  import opened Plan
  import opened PlanFold
  import opened Effectiveness
  import opened Executor
  import opened DryRun
  import opened Conflicts
  import opened Grouping
  import opened GroupTheory
  import opened PatchTheory
  import opened Regrouping

  function Substitution(file: string, old_: string, new_: string): Change {
    Change(file, "", Some(Patch("", "text_sub", None, "", old_, new_, 0, 0, "", "")))
  }

  /** Every path is a permitted text file. */
  function PermissiveEnv(): Env {
    Env(p => p, _ => true, _ => false, _ => false, _ => false, _ => ".txt",
        _ => None, (_, _, _) => SymbolMiss, _ => true, (_, _) => true, (_, _) => true, (_, _) => [])
  }

  /** ... up to naming, suffixes and the syntax check. */
  ghost predicate Permissive(env: Env) {
    env == PermissiveEnv().(resolve := env.resolve, suffix := env.suffix, syntaxOk := env.syntaxOk)
  }

  lemma FindsAtStart(s: string, old_: string, new_: string)
    requires old_ <= s
    ensures Contains(s, old_) && ReplaceFirst(s, old_, new_) == new_ + s[|old_|..]
  {
    assert At(s, old_, 0);
    assert s[..0] == [];
  }

  lemma SubstitutionAtStart(env: Env, files: Texts, file: string, old_: string, new_: string, current: Option<string>)
    requires Permissive(env) && env.resolve(file) in files && env.suffix(env.resolve(file)) != ".py"
    requires !Blank(old_) && old_ != new_
    requires old_ <= TextSubSource(files[env.resolve(file)], current)
    ensures var source := TextSubSource(files[env.resolve(file)], current);
            Execute(env, files, Substitution(file, old_, new_), current) == Write(new_ + source[|old_|..])
  {
    var source := TextSubSource(files[env.resolve(file)], current);
    FindsAtStart(source, old_, new_);
    TextSubRejectsExactly(source, old_, new_, env.opcodes);
  }

  /** Replacing the whole of a one-letter text. */
  lemma LetterReplaced(env: Env, files: Texts, file: string, x: string, y: string, current: Option<string>)
    requires Permissive(env) && env.resolve(file) in files && env.suffix(env.resolve(file)) != ".py"
    requires |x| == 1 && !IsSpace(x[0]) && x != y && TextSubSource(files[env.resolve(file)], current) == x
    ensures Execute(env, files, Substitution(file, x, y), current) == Write(y)
  {
    SubstitutionAtStart(env, files, file, x, y, current);
    assert y + x[1..] == y;
  }

  lemma SmallPlan(cs: seq<Change>, names: set<string>)
    requires forall c :: c in cs ==> c.file in names && ChangeGuard(c).None?
    requires |names| <= MAX_FILES_PER_EDIT
    ensures Safeguard(cs).None?
  {
    FirstGuardNone(cs);
    SubsetSize(FilesOf(cs), names);
  }

  // ------------------------------------------------------------ an emptied file

  /** The executor's run of a plan that empties the file and then substitutes in it. */
  lemma RunFromEmptied(files: Texts, first: Change, second: Change, cs: seq<Change>)
    requires files == map["f" := "ab"] && cs == [first, second]
    requires first == Substitution("f", "ab", "") && second == Substitution("f", "a", "c")
    ensures Fold(PermissiveEnv().resolve, ExecStep(PermissiveEnv(), files), cs, map[]) == Ok(map["f" := "cb"])
    ensures !NeverFromEmpty(PermissiveEnv(), files, cs, map[])
  {
    var env, emptied: Texts := PermissiveEnv(), map["f" := ""];
    var step := ExecStep(env, files);
    assert !IsSpace("ab"[0]) && !IsSpace("a"[0]);
    SubstitutionAtStart(env, files, "f", "ab", "", None);
    SubstitutionAtStart(env, files, "f", "a", "c", Some(""));
    assert step(first, None) == Write("") && step(second, Some("")) == Write("cb");
    assert cs[1..] == [second] && emptied["f" := "cb"] == map["f" := "cb"];
    assert Fold(env.resolve, step, [second], emptied) == Ok(map["f" := "cb"]);
    assert !NeverFromEmpty(env, files, [second], emptied);
  }

  /** Emptying a file and then substituting in it: the executor silently restarts from the
      original text, where the fold of the patches has nothing to substitute in. */
  lemma EmptiedFileRestarts()
    ensures var files := map["f" := "ab"];
            var cs := [Substitution("f", "ab", ""), Substitution("f", "a", "c")];
            && Outcome(PermissiveEnv(), files, cs) == Ok(map["f" := "cb"])
            && Fold(PermissiveEnv().resolve, PlainStep(PermissiveEnv(), files), cs, map[]).Err?
  {
    var files := map["f" := "ab"];
    var first, second := Substitution("f", "ab", ""), Substitution("f", "a", "c");
    RunFromEmptied(files, first, second, [first, second]);
    PlainFoldIff(PermissiveEnv(), files, [first, second], map[]);
    SmallPlan([first, second], {"f"});
  }

  // ------------------------------------------------------------ a change undone

  lemma OneStep(route: string -> string, step: (Change, Option<string>) -> Step<Failure>, c: Change,
                p: string, m: Texts, y: string)
    requires c.file != "" && route(c.file) == p && step(c, Get(m, p)) == Write(y)
    ensures Fold(route, step, [c], m) == Ok(m[p := y])
  {
    assert [c][1..] == [];
  }

  /** `n` substitutions that lead from `x` back to `x`. */
  function Cycle(n: nat): (cs: seq<Change>)
    requires n >= 2
    ensures |cs| == n
  {
    if n == 2 then [Substitution("f", "x", "y"), Substitution("f", "y", "x")]
    else if n == 3 then [Substitution("f", "x", "y"), Substitution("f", "y", "z"), Substitution("f", "z", "x")]
    else Cycle(2) + Cycle(n - 2)
  }

  lemma {:induction false} CycleMembers(n: nat)
    requires n >= 2
    ensures forall c :: c in Cycle(n) ==> c.file == "f" && ChangeGuard(c).None? && Applies(PermissiveEnv())(c)
    decreases n
  {
    if n > 3 { CycleMembers(n - 2); }
  }

  lemma TwoFrom(route: string -> string, step: (Change, Option<string>) -> Step<Failure>, first: Change, second: Change,
                p: string, m: Texts, x: string, y: string)
    requires first.file != "" && second.file != "" && route(first.file) == route(second.file) == p
    requires step(first, Get(m, p)) == Write(x) && step(second, Some(x)) == Write(y)
    ensures Fold(route, step, [first, second], m) == Ok(m[p := y])
  {
    var mx := m[p := x];
    OneStep(route, step, first, p, m, x);
    OneStep(route, step, second, p, mx, y);
    assert mx[p := y] == m[p := y] && [first, second] == [first] + [second];
    FoldAppend(route, step, [first], [second], m);
  }

  lemma ThreeFrom(route: string -> string, step: (Change, Option<string>) -> Step<Failure>,
                  first: Change, second: Change, third: Change, p: string, m: Texts, x: string, y: string, z: string)
    requires first.file != "" && second.file != "" && third.file != ""
    requires route(first.file) == route(second.file) == route(third.file) == p
    requires step(first, Get(m, p)) == Write(x) && step(second, Some(x)) == Write(y) && step(third, Some(y)) == Write(z)
    ensures Fold(route, step, [first, second, third], m) == Ok(m[p := z])
  {
    var my := m[p := y];
    TwoFrom(route, step, first, second, p, m, x, y);
    OneStep(route, step, third, p, my, z);
    assert my[p := z] == m[p := z] && [first, second, third] == [first, second] + [third];
    FoldAppend(route, step, [first, second], [third], m);
  }

  /** The file is as it was, or not yet touched. */
  predicate AtX(m: Texts) {
    Get(m, "f") == None || Get(m, "f") == Some("x")
  }

  lemma PairBack(env: Env, files: Texts, m: Texts)
    requires env == PermissiveEnv() && files == map["f" := "x"] && AtX(m)
    ensures Fold(env.resolve, ExecStep(env, files), Cycle(2), m) == Ok(m["f" := "x"])
  {
    LetterReplaced(env, files, "f", "x", "y", Get(m, "f"));
    LetterReplaced(env, files, "f", "y", "x", Some("y"));
    TwoFrom(env.resolve, ExecStep(env, files), Cycle(2)[0], Cycle(2)[1], "f", m, "y", "x");
  }

  lemma TripleBack(env: Env, files: Texts, m: Texts)
    requires env == PermissiveEnv() && files == map["f" := "x"] && AtX(m)
    ensures Fold(env.resolve, ExecStep(env, files), Cycle(3), m) == Ok(m["f" := "x"])
  {
    LetterReplaced(env, files, "f", "x", "y", Get(m, "f"));
    LetterReplaced(env, files, "f", "y", "z", Some("y"));
    LetterReplaced(env, files, "f", "z", "x", Some("z"));
    ThreeFrom(env.resolve, ExecStep(env, files), Cycle(3)[0], Cycle(3)[1], Cycle(3)[2], "f", m, "y", "z", "x");
  }

  lemma Onward(env: Env, files: Texts, m: Texts, head: seq<Change>, tail: seq<Change>)
    requires Fold(env.resolve, ExecStep(env, files), head, m) == Ok(m["f" := "x"])
    requires Fold(env.resolve, ExecStep(env, files), tail, m["f" := "x"]) == Ok(m["f" := "x"]["f" := "x"])
    ensures Fold(env.resolve, ExecStep(env, files), head + tail, m) == Ok(m["f" := "x"])
  {
    FoldAppend(env.resolve, ExecStep(env, files), head, tail, m);
    assert m["f" := "x"]["f" := "x"] == m["f" := "x"];
  }

  lemma {:induction false} CycleBack(env: Env, files: Texts, m: Texts, n: nat)
    requires n >= 2 && env == PermissiveEnv() && files == map["f" := "x"] && AtX(m)
    ensures Fold(env.resolve, ExecStep(env, files), Cycle(n), m) == Ok(m["f" := "x"])
    decreases n
  {
    if n == 2 {
      PairBack(env, files, m);
    } else if n == 3 {
      TripleBack(env, files, m);
    } else {
      PairBack(env, files, m);
      CycleBack(env, files, m["f" := "x"], n - 2);
      Onward(env, files, m, Cycle(2), Cycle(n - 2));
    }
  }

  /** For every number of applied changes from two on, some plan leaves the file listed as modified
      with its text unchanged. */
  lemma UndoneChangesAreListed(n: nat)
    requires n >= 2
    ensures Outcome(PermissiveEnv(), map["f" := "x"], Cycle(n)) == Ok(map["f" := "x"])
    ensures |AppliedTo(PermissiveEnv(), Cycle(n), "f")| == n
  {
    var env, m: Texts := PermissiveEnv(), map[];
    CycleBack(env, map["f" := "x"], m, n);
    CycleMembers(n);
    SmallPlan(Cycle(n), {"f"});
    FilterAll(Cycle(n), OnPath(env.resolve, "f"));
    FilterAll(Cycle(n), Applies(env));
    assert m["f" := "x"] == map["f" := "x"];
  }

  // ------------------------------------------------------------ a stub that does not parse

  function StubEnv(): Env {
    PermissiveEnv().(suffix := _ => ".pyi", syntaxOk := text => text != "(")
  }

  /** A substitution that breaks a `.pyi` file: the executor writes it, the dry run refuses it. */
  lemma BrokenStubIsWritten()
    ensures var cs := [Substitution("f", "x", "(")];
            && Outcome(StubEnv(), map["f" := "x"], cs) == Ok(map["f" := "("])
            && Validate(StubEnv(), map[], map["f" := "x"], cs).Err?
            && !CleanRun(StubEnv(), map["f" := "x"], cs, map[])
  {
    var env, files, c := StubEnv(), map["f" := "x"], Substitution("f", "x", "(");
    LetterReplaced(env, files, "f", "x", "(", None);
    SmallPlan([c], {"f"});
    OneStep(env.resolve, ExecStep(env, files), c, "f", map[], "(");
    assert !CleanStep(env, files, c, None, "(");
    assert map[]["f" := "("] == map["f" := "("];
    AcceptedPlanValidatesIff(env, map[], files, [c]);
  }

  // ------------------------------------------------------------ a patch passed over

  /** A change without a patch: the executor passes it over, the dry run refuses the plan. */
  lemma MissingPatchIsRefused(env: Env, snapshot: Texts, files: Texts)
    ensures var cs := [Change("f", "", None)];
            && Outcome(env, files, cs) == Ok(map[])
            && Validate(env, snapshot, files, cs).Err?
            && !CleanRun(env, files, cs, map[])
  {
    var c := Change("f", "", None);
    assert [c][1..] == [];
    SmallPlan([c], {"f"});
  }

  /** Texts that parse as an empty tree, with a patcher that replaces them by `y`. */
  function PatchableEnv(): Env {
    PermissiveEnv().(parse := _ => Some(Tree("module", 0, 0, 1, 1, map[], [])), apply := (_, _, _) => Applied("y"))
  }

  /** A structured patch for a file that is not Python: the executor passes it over, the dry run
      counts it in. */
  lemma StructuredPatchIsSkipped()
    ensures var p := Patch("s", "replace", Some("function_body"), "y", "", "", 0, 0, "", "");
            var cs := [Change("f", "s", Some(p))];
            && Outcome(PatchableEnv(), map["f" := "x"], cs) == Ok(map[])
            && Validate(PatchableEnv(), map[], map["f" := "x"], cs) == Ok(map["f" := "y"])
  {
    var p := Patch("s", "replace", Some("function_body"), "y", "", "", 0, 0, "", "");
    var c, env, files := Change("f", "s", Some(p)), PatchableEnv(), map["f" := "x"];
    assert [c][1..] == [] && !IsSpace("y"[0]);
    assert Newlines("y") == 0 by { assert "y"[1..] == ""; }
    SmallPlan([c], {"f"});
    assert Execute(env, files, c, None) == Skip;
    assert Check(env, map[], files, c, None) == Write("y");
    assert map[]["f" := "y"] == map["f" := "y"];
  }

  // ------------------------------------------------------------ two names for one file

  /** Two changes to one file and one to another: the lone change goes first. */
  lemma LoneChangeGoesFirst(cs: seq<Change>, conflicts: seq<Conflict>)
    requires |cs| == 3 && cs[0].file == cs[1].file == "a" && cs[2].file == "b" && Complete(cs, conflicts)
    ensures Flat(cs, conflicts) == [cs[2], cs[0], cs[1]]
    ensures GroupNumbers(cs, conflicts) == [1, 2, 0]
  {
    var group := GroupNumbers(cs, conflicts);
    var a, b := FileKey("a"), FileKey("b");
    assert Indices(cs, a, 0) == [] && Indices(cs, a, 1) == [0] && Indices(cs, a, 2) == [0, 1]
           && Indices(cs, a, 3) == [0, 1];
    assert Indices(cs, b, 0) == [] && Indices(cs, b, 1) == [] && Indices(cs, b, 2) == [] && Indices(cs, b, 3) == [2];
    GroupIsRank(cs, conflicts, 0);
    GroupIsRank(cs, conflicts, 1);
    GroupIsRank(cs, conflicts, 2);
    assert group == [1, 2, 0];
    ThreeBuckets(cs, group);
  }

  lemma ThreeBuckets(cs: seq<Change>, group: seq<nat>)
    requires |cs| == 3 && group == [1, 2, 0]
    ensures Flatten(Groups(cs, group)) == [cs[2], cs[0], cs[1]]
  {
    assert [0][1..] == [] && [2, 0][1..] == [0] && group[1..] == [2, 0];
    assert Greatest([0]) == 0 && Greatest([2, 0]) == 2 && Greatest(group) == 2;
    assert group[0] == 1 && group[1] == 2 && group[2] == 0;
    var none: seq<Change> := [];
    assert forall c: Change :: none + [c] == [c];
    BucketsStep(cs, group, 3, 0, 1);
    BucketsStep(cs, group, 3, 1, 2);
    BucketsStep(cs, group, 3, 2, 3);
    var b0 := Buckets(cs, group, 3, 0);
    assert b0 == [none, none, none];
    assert b0[1 := none + [cs[0]]] == [none, [cs[0]], none];
    assert [none, [cs[0]], none][2 := none + [cs[1]]] == [none, [cs[0]], [cs[1]]];
    assert [none, [cs[0]], [cs[1]]][0 := none + [cs[2]]] == [[cs[2]], [cs[0]], [cs[1]]];
    assert Buckets(cs, group, 3, 3) == [[cs[2]], [cs[0]], [cs[1]]];
    FlattenNonEmpty([[cs[2]], [cs[0]], [cs[1]]]);
    FlattenThree([cs[2]], [cs[0]], [cs[1]]);
  }

  lemma FlattenThree(a: seq<Change>, b: seq<Change>, c: seq<Change>)
    ensures Flatten([a, b, c]) == a + b + c
  {
    assert [a, b, c][1..] == [b, c] && [b, c][1..] == [c] && [c][1..] == [];
    assert Flatten([c]) == c && Flatten([b, c]) == b + c;
  }

  function AliasEnv(): Env {
    PermissiveEnv().(resolve := _ => "f")
  }

  lemma ListedSteps(env: Env, files: Texts, first: Change, second: Change, third: Change)
    requires env == AliasEnv() && files == map["f" := "x"] && first == Substitution("a", "x", "y")
    requires second == Substitution("a", "y", "z") && third == Substitution("b", "z", "w")
    ensures Execute(env, files, first, None) == Write("y")
    ensures Execute(env, files, second, Some("y")) == Write("z")
    ensures Execute(env, files, third, Some("z")) == Write("w")
  {
    LetterReplaced(env, files, "a", "x", "y", None);
    LetterReplaced(env, files, "a", "y", "z", Some("y"));
    LetterReplaced(env, files, "b", "z", "w", Some("z"));
  }

  lemma ListedOrderRuns(files: Texts, first: Change, second: Change, third: Change)
    requires files == map["f" := "x"] && first == Substitution("a", "x", "y")
    requires second == Substitution("a", "y", "z") && third == Substitution("b", "z", "w")
    ensures Fold(AliasEnv().resolve, ExecStep(AliasEnv(), files), [first, second, third], map[]) == Ok(map["f" := "w"])
  {
    ListedSteps(AliasEnv(), files, first, second, third);
    ThreeFrom(AliasEnv().resolve, ExecStep(AliasEnv(), files), first, second, third, "f", map[], "y", "z", "w");
    assert map[]["f" := "w"] == map["f" := "w"];
  }

  lemma LoneFirstFails(files: Texts, first: Change, second: Change, third: Change)
    requires files == map["f" := "x"] && third == Substitution("b", "z", "w")
    ensures Fold(AliasEnv().resolve, ExecStep(AliasEnv(), files), [third, first, second], map[]).Err?
  {
    var env := AliasEnv();
    assert !Contains("x", "z") by { assert "x"[0..1] == "x" && "x" != "z"; }
    TextSubWritesIff(env, "f", "x", third.patch.value);
    assert Execute(env, files, third, None).Fail?;
  }

  /** If two of the plan's names stand for one file, regrouping can turn a good plan into a
      failing one: changes to that file change places. */
  lemma AliasedFilesRegroupBadly(conflicts: seq<Conflict>)
    ensures var cs := [Substitution("a", "x", "y"), Substitution("a", "y", "z"), Substitution("b", "z", "w")];
            Complete(cs, conflicts) ==>
              && Outcome(AliasEnv(), map["f" := "x"], cs) == Ok(map["f" := "w"])
              && Outcome(AliasEnv(), map["f" := "x"], Flat(cs, conflicts)).Err?
              && !PathsOrdered(AliasEnv().resolve, cs, GroupNumbers(cs, conflicts))
  {
    var first, second, third := Substitution("a", "x", "y"), Substitution("a", "y", "z"), Substitution("b", "z", "w");
    var cs := [first, second, third];
    if Complete(cs, conflicts) {
      var files := map["f" := "x"];
      LoneChangeGoesFirst(cs, conflicts);
      ListedOrderRuns(files, first, second, third);
      LoneFirstFails(files, first, second, third);
      SmallPlan(cs, {"a", "b"});
      SmallPlan([third, first, second], {"a", "b"});
      assert cs[0].file != "" && cs[2].file != "";
    }
  }

  /** Two names for one file need not hurt: nothing moves where no two changes conflict. */
  lemma AliasedFilesMayRegroup(a: Change, b: Change)
    requires a.file == "a" && b.file == "b"
    ensures Complete([a, b], []) && !NamesDistinct(AliasEnv().resolve, [a, b])
            && PathsOrdered(AliasEnv().resolve, [a, b], GroupNumbers([a, b], []))
  {
    var cs := [a, b];
    assert Separated(cs) by { assert LaneOf(a) != LaneOf(b); }
    ValidIffSeparated(cs);
    assert a in cs && b in cs;
  }

  // ------------------------------------------------------------ a plan over six files

  /** Two changes to `a`, one to each of five other files. */
  function SixFiles(): seq<Change> {
    [Substitution("a", "x", "y"), Substitution("a", "y", "z")] + FiveFiles()
  }

  function FiveFiles(): seq<Change> {
    [Substitution("b", "x", "y"), Substitution("c", "x", "y"), Substitution("d", "x", "y"),
     Substitution("e", "x", "y"), Substitution("g", "x", "y")]
  }

  const OTHERS := {"b", "c", "d", "e", "g"}

  lemma FiveNames()
    ensures |OTHERS| == 5 && |OTHERS + {"a"}| == 6
    ensures forall c :: c in FiveFiles() ==> c == Substitution(c.file, "x", "y") && c.file in OTHERS
    ensures forall i, j :: 0 <= i < j < 5 ==> FiveFiles()[i].file != FiveFiles()[j].file
  {
    assert "b" != "c" && "b" != "d" && "b" != "e" && "b" != "g" && "c" != "d" && "c" != "e"
           && "c" != "g" && "d" != "e" && "d" != "g" && "e" != "g";
  }

  lemma {:induction false} SubstitutedEverywhere(files: Texts, cs: seq<Change>, m: Texts)
    requires forall i, j :: 0 <= i < j < |cs| ==> cs[i].file != cs[j].file
    requires forall c :: c in cs ==> c == Substitution(c.file, "x", "y") && c.file != ""
                                     && c.file in files && files[c.file] == "x" && c.file !in m
    ensures Fold(PermissiveEnv().resolve, ExecStep(PermissiveEnv(), files), cs, m).Ok?
    ensures Fold(PermissiveEnv().resolve, PlainStep(PermissiveEnv(), files), cs, m).Ok?
    decreases |cs|
  {
    if cs != [] {
      var c := cs[0];
      assert c in cs;
      LetterReplaced(PermissiveEnv(), files, c.file, "x", "y", None);
      PlainStepAgrees(PermissiveEnv(), files, c, None);
      forall d | d in cs[1..] ensures d.file != c.file && d in cs {
        var j :| 0 <= j < |cs[1..]| && cs[1..][j] == d;
        assert cs[j + 1] == d;
      }
      SubstitutedEverywhere(files, cs[1..], m[c.file := "y"]);
    }
  }

  lemma PairFold(env: Env, files: Texts, first: Change, second: Change)
    requires env == PermissiveEnv() && "a" in files && files["a"] == "x"
    requires first == Substitution("a", "x", "y") && second == Substitution("a", "y", "z")
    ensures Fold(env.resolve, PlainStep(env, files), [first, second], map[]) == Ok(map["a" := "z"])
  {
    LetterReplaced(env, files, "a", "x", "y", None);
    LetterReplaced(env, files, "a", "y", "z", Some("y"));
    PlainStepAgrees(env, files, first, None);
    PlainStepAgrees(env, files, second, Some("y"));
    TwoFrom(env.resolve, PlainStep(env, files), first, second, "a", map[], "y", "z");
    assert map[]["a" := "z"] == map["a" := "z"];
  }

  lemma FiveFold(env: Env, files: Texts, five: seq<Change>, m: Texts)
    requires env == PermissiveEnv() && m == map["a" := "z"]
    requires forall i, j :: 0 <= i < j < |five| ==> five[i].file != five[j].file
    requires forall c :: c in five ==> c == Substitution(c.file, "x", "y") && c.file in OTHERS
    requires files.Keys == OTHERS + {"a"} && forall p :: p in files ==> files[p] == "x"
    ensures Fold(env.resolve, PlainStep(env, files), five, m).Ok?
  {
    assert forall p :: p in OTHERS ==> p != "" && p !in m && p in files;
    SubstitutedEverywhere(files, five, m);
  }

  lemma SixFilesFold(files: Texts)
    requires files.Keys == OTHERS + {"a"} && forall p :: p in files ==> files[p] == "x"
    ensures Fold(PermissiveEnv().resolve, PlainStep(PermissiveEnv(), files), SixFiles(), map[]).Ok?
  {
    var env, five, m: Texts := PermissiveEnv(), FiveFiles(), map["a" := "z"];
    var pair := [Substitution("a", "x", "y"), Substitution("a", "y", "z")];
    PairFold(env, files, pair[0], pair[1]);
    FiveNames();
    FiveFold(env, files, five, m);
    FoldAppend(env.resolve, PlainStep(env, files), pair, five, map[]);
  }

  /** The single groups hold five files or one. */
  lemma SixFilesGroups(conflicts: seq<Conflict>, g: seq<Change>)
    requires Complete(SixFiles(), conflicts) && g in Groups(SixFiles(), GroupNumbers(SixFiles(), conflicts))
    ensures Safeguard(g).None?
  {
    var cs := SixFiles();
    var group := GroupNumbers(cs, conflicts);
    var size := Greatest(group) + 1;
    FiveNames();
    var h := GroupAt(cs, group, g);
    forall x | x in g ensures ChangeGuard(x).None? && (if h == 0 then x.file in OTHERS else x.file == "a") {
      BucketMembers(cs, group, size, |cs|, h, x);
      var i :| 0 <= i < |cs| && cs[i] == x && group[i] == h;
      SixFilesNumber(conflicts, i);
    }
    if h == 0 { SmallPlan(g, OTHERS); } else { SmallPlan(g, {"a"}); }
  }

  lemma SixFilesNumber(conflicts: seq<Conflict>, i: nat)
    requires Complete(SixFiles(), conflicts) && i < |SixFiles()|
    ensures SixFiles()[i].file == "a" <==> GroupNumbers(SixFiles(), conflicts)[i] != 0
    ensures SixFiles()[i].file == "a" || SixFiles()[i] in FiveFiles()
  {
    var cs := SixFiles();
    GroupIsRank(cs, conflicts, i);
    FiveNames();
    if i >= 2 {
      assert cs[i] == FiveFiles()[i - 2];
      LoneFile(cs, i);
    } else {
      RankGrows(cs, FileKey("a"), 0, 1);
      RankGrows(cs, FileKey("a"), 1, |cs|);
    }
  }

  lemma LoneFile(cs: seq<Change>, i: nat)
    requires cs == SixFiles() && 2 <= i < |cs|
    ensures Rank(cs, FileKey(cs[i].file), |cs|) < 2
  {
    FiveNames();
    forall j | 0 <= j < |cs| && j != i ensures !Hits(cs[j], FileKey(cs[i].file)) {
      assert cs[i] == FiveFiles()[i - 2];
      if j >= 2 { assert cs[j] == FiveFiles()[j - 2]; }
    }
    OneHit(cs, FileKey(cs[i].file), i, |cs|);
  }

  /** A key hit at one position only. */
  lemma {:induction false} OneHit(cs: seq<Change>, k: Key, i: nat, n: nat)
    requires n <= |cs| && forall j :: 0 <= j < |cs| && j != i ==> !Hits(cs[j], k)
    ensures |Indices(cs, k, n)| <= if n <= i then 0 else 1
    decreases n
  {
    if n > 0 { OneHit(cs, k, i, n - 1); }
  }

  lemma SixFilesNames()
    ensures FilesOf(SixFiles()) == OTHERS + {"a"} && |FilesOf(SixFiles())| == 6
  {
    var cs := SixFiles();
    FiveNames();
    assert cs[0] in cs && cs[2] in cs && cs[3] in cs && cs[4] in cs && cs[5] in cs && cs[6] in cs;
    forall c | c in cs ensures c.file in OTHERS + {"a"} {
      var i :| 0 <= i < |cs| && cs[i] == c;
      if i >= 2 { assert c == FiveFiles()[i - 2]; }
    }
  }

  lemma SixFilesRegrouped(files: Texts, conflicts: seq<Conflict>)
    requires files.Keys == OTHERS + {"a"} && forall p :: p in files ==> files[p] == "x"
    requires Complete(SixFiles(), conflicts)
    ensures Fold(PermissiveEnv().resolve, PlainStep(PermissiveEnv(), files), Flat(SixFiles(), conflicts), map[]).Ok?
  {
    var route := PermissiveEnv().resolve;
    SixFilesFold(files);
    DistinctNamesOrdered(route, SixFiles(), conflicts);
    PathOrderIff(route, SixFiles(), conflicts);
    SameFileOrderSameRun(route, PlainStep(PermissiveEnv(), files), Flat(SixFiles(), conflicts), SixFiles(), map[]);
  }

  lemma SixFilesRefused(env: Env, files: Texts)
    ensures Outcome(env, files, SixFiles()) == Err(Failure(SafeguardExceeded, false))
  {
    SixFilesNames();
  }

  lemma SixFilesByGroups(env: Env, files: Texts, groups: seq<seq<Change>>)
    requires forall g :: g in groups ==> Safeguard(g).None?
    requires Fold(env.resolve, PlainStep(env, files), Flatten(groups), map[]).Ok?
    ensures RunGroups(env, files, groups).failure.None?
  {
    assert files + map[] == files;
    SeparateCalls(env, files, files, groups, map[]);
  }

  /** A plan over six files is refused as one call, and runs group by group: the limit is
      counted per call. */
  lemma SixFilesOnlyByGroups(files: Texts, conflicts: seq<Conflict>)
    requires files.Keys == OTHERS + {"a"} && forall p :: p in files ==> files[p] == "x"
    requires Complete(SixFiles(), conflicts)
    ensures Outcome(PermissiveEnv(), files, SixFiles()) == Err(Failure(SafeguardExceeded, false))
    ensures RunGroups(PermissiveEnv(), files, Groups(SixFiles(), GroupNumbers(SixFiles(), conflicts))).failure.None?
  {
    var env := PermissiveEnv();
    var groups := Groups(SixFiles(), GroupNumbers(SixFiles(), conflicts));
    SixFilesRefused(env, files);
    SixFilesRegrouped(files, conflicts);
    forall g | g in groups ensures Safeguard(g).None? { SixFilesGroups(conflicts, g); }
    SixFilesByGroups(env, files, groups);
  }
}
