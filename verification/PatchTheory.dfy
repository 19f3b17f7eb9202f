/** What the executor guarantees about an accepted plan, and how it relates to the plain
    fold of the patches and to the dry run. */
module PatchTheory {
  import opened Prelude
  import opened Text
  import opened Plan
  import opened PlanFold
  import opened Effectiveness
  import opened Executor
  import opened DryRun

  // ------------------------------------------------------------ which files change

  /** Main theorem: a file is rewritten only if a change of the plan names it and that change
      passed every admission check: an existing, permitted source file under the root. */
  lemma {:induction false} ModifiedWasAdmitted(env: Env, files: Texts, cs: seq<Change>, m: Texts, p: string)
    requires var r := Fold(env.resolve, ExecStep(env, files), cs, m); r.Ok? && p in r.value && p !in m
    ensures p in files
    ensures exists c :: c in cs && c.file != "" && env.resolve(c.file) == p && c.patch.Some?
                        && Admit(env, files, c).None?
    decreases |cs|
  {
    var c := cs[0];
    if c.file == "" {
      ModifiedWasAdmitted(env, files, cs[1..], m, p);
    } else {
      var q := env.resolve(c.file);
      var s := Execute(env, files, c, Get(m, q));
      StepShape(env, files, c, Get(m, q));
      if s.Write? && q == p {
        assert c in cs && Admit(env, files, c).None?;
      } else {
        ModifiedWasAdmitted(env, files, cs[1..], if s.Write? then m[q := s.text] else m, p);
      }
    }
  }

  function Routed(route: string -> string, names: set<string>): set<string> {
    set f | f in names :: route(f)
  }

  lemma {:induction false} RoutedSize(route: string -> string, names: set<string>)
    ensures |Routed(route, names)| <= |names|
    decreases |names|
  {
    if names != {} {
      var f :| f in names;
      var rest := names - {f};
      RoutedSize(route, rest);
      assert names == rest + {f};
      assert Routed(route, names) == Routed(route, rest) + {route(f)};
    }
  }

  lemma SubsetSize(a: set<string>, b: set<string>)
    requires a <= b
    ensures |a| <= |b|
  {
    assert b == a + (b - a);
  }

  lemma {:induction false} FirstGuardNone(cs: seq<Change>)
    ensures FirstGuard(cs).None? <==> forall c :: c in cs ==> ChangeGuard(c).None?
  {
    if cs != [] { FirstGuardNone(cs[1..]); }
  }

  lemma {:induction false} NewlinesCounted(s: string)
    ensures Newlines(s) == multiset(s)['\n']
    decreases |s|
  {
    if s != "" {
      assert s == [s[0]] + s[1..];
      NewlinesCounted(s[1..]);
    }
  }

  /** A patch of two hundred lines or more, or a deletion that names no target. */
  predicate Oversized(c: Change) {
    c.patch.Some? && multiset(c.patch.value.code)['\n'] >= 200
  }

  predicate Untargeted(c: Change) {
    c.patch.Some? && c.patch.value.action == "delete" && c.patch.value.targetNode in {None, Some("")}
  }

  /** The change at `k` is the first to break a limit. */
  ghost predicate FirstToBreak(cs: seq<Change>, k: nat) {
    && k < |cs| && (Oversized(cs[k]) || Untargeted(cs[k]))
    && forall j :: 0 <= j < k ==> !Oversized(cs[j]) && !Untargeted(cs[j])
  }

  lemma {:induction false} FirstGuardIff(cs: seq<Change>)
    ensures FirstGuard(cs).None? <==> forall c :: c in cs ==> !Oversized(c) && !Untargeted(c)
    ensures forall k: nat :: FirstToBreak(cs, k) ==>
              FirstGuard(cs) == Some(if Oversized(cs[k]) then SafeguardExceeded else ForbiddenDelete)
    decreases |cs|
  {
    if cs != [] {
      FirstGuardIff(cs[1..]);
      if cs[0].patch.Some? { NewlinesCounted(cs[0].patch.value.code); }
      forall k: nat | FirstToBreak(cs, k)
        ensures FirstGuard(cs) == Some(if Oversized(cs[k]) then SafeguardExceeded else ForbiddenDelete) {
        if k > 0 {
          var before := k - 1;
          assert cs[1..][before] == cs[k];
          assert FirstToBreak(cs[1..], before);
        }
      }
    }
  }

  /** Main theorem: a plan is turned away before any change is looked at exactly if it names more
      than five files, or some patch is oversized or an untargeted deletion; the first such patch
      gives the reason. */
  lemma SafeguardIff(cs: seq<Change>)
    ensures var files := |set c | c in cs && c.file != "" :: c.file|;
            && (Safeguard(cs).None? <==> files <= 5 && forall c :: c in cs ==> !Oversized(c) && !Untargeted(c))
            && (files > 5 ==> Safeguard(cs) == Some(SafeguardExceeded))
            && forall k: nat :: files <= 5 && FirstToBreak(cs, k) ==>
                                  Safeguard(cs) == Some(if Oversized(cs[k]) then SafeguardExceeded else ForbiddenDelete)
  {
    FirstGuardIff(cs);
  }

  /** An accepted plan rewrites no more files than the limit, and applies no oversized patch
      and no deletion without a target. */
  lemma AcceptedWithinLimits(env: Env, files: Texts, cs: seq<Change>)
    requires Outcome(env, files, cs).Ok?
    ensures |Outcome(env, files, cs).value| <= MAX_FILES_PER_EDIT
    ensures forall c :: c in cs && c.patch.Some? ==>
              Newlines(c.patch.value.code) < MAX_PATCH_LINES
              && (c.patch.value.action == "delete" ==> c.patch.value.targetNode.Some?)
  {
    var texts := Outcome(env, files, cs).value;
    if cs != [] {
      FirstGuardNone(cs);
      forall p | p in texts.Keys ensures p in Routed(env.resolve, FilesOf(cs)) {
        ModifiedWasAdmitted(env, files, cs, map[], p);
      }
      SubsetSize(texts.Keys, Routed(env.resolve, FilesOf(cs)));
      RoutedSize(env.resolve, FilesOf(cs));
    }
    assert |texts| == |texts.Keys|;
  }

  // ------------------------------------------------------------ what is written

  /** A substitution is written exactly if it finds its text and changes it into one that, for
      `.py`, is blank or parses; every other rejection of the code is unreachable. */
  lemma TextSubWritesIff(env: Env, path: string, source: string, p: Patch)
    ensures var text := ReplaceFirst(source, p.oldText, p.newText);
            && (TextSub(env, path, source, p).Write?
                <==> !Blank(p.oldText) && p.oldText != p.newText && Contains(source, p.oldText)
                     && (env.suffix(path) == ".py" ==> Blank(text) || env.syntaxOk(text)))
            && (TextSub(env, path, source, p).Write? ==> TextSub(env, path, source, p).text == text && text != source)
  {
    TextSubRejectsExactly(source, p.oldText, p.newText, env.opcodes);
  }

  /** A structured edit is written exactly if it can be made, changes the text, appends only
      something new, and passes the syntax check and the validator. */
  lemma StructuredWritesIff(env: Env, path: string, source: string, p: Patch)
    ensures Structured(env, path, source, p).Write?
            <==> env.parse(source).Some? && Attempt(env, env.parse(source).value, source, p).Ok?
                 && var (text, append) := Attempt(env, env.parse(source).value, source, p).value;
                    && text != source && (append.Some? ==> env.appendMeaningful(append.value, source))
                    && (env.suffix(path) == ".py" ==> text == "" || env.syntaxOk(text)) && env.validate(path, text)
    ensures Structured(env, path, source, p).Write? ==>
              Structured(env, path, source, p).text == Attempt(env, env.parse(source).value, source, p).value.0
  {
    if env.parse(source).Some? && Attempt(env, env.parse(source).value, source, p).Ok? {
      var attempt := Attempt(env, env.parse(source).value, source, p).value;
      StructuredRejectsExactly(source, attempt.0, attempt.1, env.appendMeaningful, env.opcodes);
    }
  }

  /** No single change is a no-op: each written text differs from the one the change read. */
  lemma WritesChangeText(env: Env, files: Texts, c: Change, current: Option<string>)
    requires c.patch.Some? && Execute(env, files, c, current).Write?
    ensures env.resolve(c.file) in files
    ensures var original := files[env.resolve(c.file)];
            Execute(env, files, c, current).text
            != if c.patch.value.action == "text_sub" then TextSubSource(original, current)
               else StructuredSource(original, current)
  {
    var path, p := env.resolve(c.file), c.patch.value;
    TextSubWritesIff(env, path, TextSubSource(files[path], current), p);
    StructuredWritesIff(env, path, StructuredSource(files[path], current), p);
  }

  predicate NoneApplies(env: Env, own: seq<Change>) {
    forall i :: 0 <= i < |own| ==> !Applies(env)(own[i])
  }

  /** The last applied change of a file's list writes the file's final text. */
  lemma {:induction false} LastWrite(env: Env, files: Texts, own: seq<Change>, current: Option<string>) returns (k: nat)
    requires (forall c :: c in own ==> c.file != "") && !NoneApplies(env, own)
    requires FileFold(ExecStep(env, files), own, current).Ok?
    ensures k < |own| && Applies(env)(own[k]) && NoneApplies(env, own[k + 1..])
    ensures var before := FileFold(ExecStep(env, files), own[..k], current);
            before.Ok? && Execute(env, files, own[k], before.value).Write?
            && FileFold(ExecStep(env, files), own, current) == Ok(Some(Execute(env, files, own[k], before.value).text))
    decreases |own|
  {
    var c, rest := own[0], own[1..];
    var s := Execute(env, files, c, current);
    StepShape(env, files, c, current);
    var next := if s.Write? then Some(s.text) else current;
    if NoneApplies(env, rest) {
      k := 0;
      NothingApplied(env, files, rest, next);
    } else {
      k := LastWrite(env, files, rest, next);
      assert own[..k + 1][0] == c && own[..k + 1][1..] == rest[..k];
      assert own[k + 2..] == rest[k + 1..];
      k := k + 1;
    }
  }

  lemma {:induction false} NothingApplied(env: Env, files: Texts, own: seq<Change>, current: Option<string>)
    requires (forall c :: c in own ==> c.file != "") && NoneApplies(env, own)
    requires FileFold(ExecStep(env, files), own, current).Ok?
    ensures FileFold(ExecStep(env, files), own, current) == Ok(current)
    decreases |own|
  {
    if own != [] {
      StepShape(env, files, own[0], current);
      assert !Applies(env)(own[0]);
      forall i | 0 <= i < |own[1..]| ensures !Applies(env)(own[1..][i]) { assert own[1..][i] == own[i + 1]; }
      NothingApplied(env, files, own[1..], current);
    }
  }

  /** A file listed as modified has its text from the last change applied to it; if that is the
      original again, an earlier change was applied to the file as well. */
  lemma ListedUnchangedIff(env: Env, files: Texts, cs: seq<Change>, p: string) returns (k: nat)
    requires Outcome(env, files, cs).Ok? && p in Outcome(env, files, cs).value
    ensures p in files
    ensures var own, text := Filter(cs, OnPath(env.resolve, p)), Outcome(env, files, cs).value[p];
            && k < |own| && Applies(env)(own[k]) && NoneApplies(env, own[k + 1..])
            && FileFold(ExecStep(env, files), own[..k], None).Ok?
            && (text == files[p] <==>
                  Execute(env, files, own[k], FileFold(ExecStep(env, files), own[..k], None).value) == Write(files[p]))
            && (text == files[p] ==> !NoneApplies(env, own[..k]))
  {
    var own := Filter(cs, OnPath(env.resolve, p));
    ModifiedWasAdmitted(env, files, cs, map[], p);
    AcceptedIsFileFold(env.resolve, ExecStep(env, files), cs, map[], p);
    FilterMembers(cs, OnPath(env.resolve, p));
    if NoneApplies(env, own) { NothingApplied(env, files, own, None); }
    k := LastWrite(env, files, own, None);
    forall c | c in own[..k] ensures c.file != "" { assert c in own; }
    if NoneApplies(env, own[..k]) {
      NothingApplied(env, files, own[..k], None);
      assert own[k] in own;
      WritesChangeText(env, files, own[k], None);
    }
  }

  /** The applied changes of a plan to one path. */
  function AppliedTo(env: Env, cs: seq<Change>, p: string): seq<Change> {
    Filter(Filter(cs, OnPath(env.resolve, p)), Applies(env))
  }

  lemma TwoApplied(env: Env, own: seq<Change>, k: nat)
    requires k < |own| && Applies(env)(own[k]) && !NoneApplies(env, own[..k])
    ensures |Filter(own, Applies(env))| >= 2
  {
    var i :| 0 <= i < k && Applies(env)(own[..k][i]);
    FilterMembers(own[..k], Applies(env));
    FilterMembers(own[k..], Applies(env));
    assert own[..k][i] in own[..k] && own[k] in own[k..] by { assert own[k..][0] == own[k]; }
    FilterAppend(own[..k], own[k..], Applies(env));
    assert own == own[..k] + own[k..];
  }

  /** Main theorem: a file that is listed as modified after at most one applied change to it has
      a new text. */
  lemma OneChangeShows(env: Env, files: Texts, cs: seq<Change>, p: string)
    requires Outcome(env, files, cs).Ok? && p in Outcome(env, files, cs).value && |AppliedTo(env, cs, p)| <= 1
    ensures p in files && Outcome(env, files, cs).value[p] != files[p]
  {
    var k := ListedUnchangedIff(env, files, cs, p);
    var own := Filter(cs, OnPath(env.resolve, p));
    if !NoneApplies(env, own[..k]) { TwoApplied(env, own, k); }
  }

  // ------------------------------------------------------------ the plain fold

  /** The run in which every patch is applied to the accumulated text, empty or not. */
  function PlainExecute(env: Env, files: Texts, c: Change, current: Option<string>): Step<Failure> {
    if c.patch.None? then Skip
    else
      var path, p := env.resolve(c.file), c.patch.value;
      var refused := Admit(env, files, c);
      if refused.Some? then Fail(Failure(refused.value, false))
      else if !IsPython(env.suffix(path)) && p.action != "text_sub" then Skip
      else
        var source := if current.Some? then current.value else files[path];
        if p.action == "text_sub" then TextSub(env, path, source, p) else Structured(env, path, source, p)
  }

  function PlainStep(env: Env, files: Texts): (Change, Option<string>) -> Step<Failure> {
    (c: Change, current: Option<string>) => PlainExecute(env, files, c, current)
  }

  /** A text substitution about to read an accumulated text that has become empty. */
  predicate FromEmpty(env: Env, c: Change, current: Option<string>) {
    c.patch.Some? && c.patch.value.action == "text_sub" && current == Some("")
  }

  /** No step of the executor's run is a substitution from an empty text. */
  predicate NeverFromEmpty(env: Env, files: Texts, cs: seq<Change>, m: Texts) {
    if cs == [] then true
    else if cs[0].file == "" then NeverFromEmpty(env, files, cs[1..], m)
    else
      var p := env.resolve(cs[0].file);
      match Execute(env, files, cs[0], Get(m, p))
      case Skip => NeverFromEmpty(env, files, cs[1..], m)
      case Fail(_) => true
      case Write(t) => !FromEmpty(env, cs[0], Get(m, p)) && NeverFromEmpty(env, files, cs[1..], m[p := t])
  }

  lemma PlainStepAgrees(env: Env, files: Texts, c: Change, current: Option<string>)
    requires c.file != "" && !Execute(env, files, c, current).Fail?
    ensures Execute(env, files, c, current).Skip? ==> PlainExecute(env, files, c, current).Skip?
    ensures Execute(env, files, c, current).Write? && FromEmpty(env, c, current) ==>
              PlainExecute(env, files, c, current).Fail?
    ensures Execute(env, files, c, current).Write? && !FromEmpty(env, c, current) ==>
              PlainExecute(env, files, c, current) == Execute(env, files, c, current)
  {
    if c.patch.Some? && FromEmpty(env, c, current) && Execute(env, files, c, current).Write? {
      NothingInEmpty(c.patch.value.oldText);
    }
  }

  lemma NothingInEmpty(old_: string)
    requires !Blank(old_)
    ensures !Contains("", old_)
  {}

  /** Main theorem: an accepted plan leaves in each file the in-order fold of its patches if
      and only if no text substitution starts from an accumulated text that became empty. */
  lemma {:induction false} PlainFoldIff(env: Env, files: Texts, cs: seq<Change>, m: Texts)
    requires Fold(env.resolve, ExecStep(env, files), cs, m).Ok?
    ensures NeverFromEmpty(env, files, cs, m) <==> Fold(env.resolve, PlainStep(env, files), cs, m).Ok?
    ensures NeverFromEmpty(env, files, cs, m) ==>
              Fold(env.resolve, PlainStep(env, files), cs, m).value
              == Fold(env.resolve, ExecStep(env, files), cs, m).value
    decreases |cs|
  {
    if cs != [] {
      var c, rest := cs[0], cs[1..];
      if c.file == "" {
        PlainFoldIff(env, files, rest, m);
      } else {
        var p := env.resolve(c.file);
        var s := Execute(env, files, c, Get(m, p));
        PlainStepAgrees(env, files, c, Get(m, p));
        PlainFoldIff(env, files, rest, if s.Write? then m[p := s.text] else m);
      }
    }
  }

  // ------------------------------------------------------------ executor and dry run

  /** A patch that is a substitution or goes to a Python file; other structured patches are passed
      over by the executor and tried by the dry run. */
  predicate Comparable(env: Env, c: Change) {
    c.patch.Some? ==> IsPython(env.suffix(env.resolve(c.file))) || c.patch.value.action == "text_sub"
  }

  /** The executor's step does nothing the dry run does not do: it does not restart from the
      original, does not fall back to a module append, and its result parses if the plan names
      a Python file. */
  predicate CleanStep(env: Env, files: Texts, c: Change, current: Option<string>, text: string)
    requires c.patch.Some?
  {
    var p, path := c.patch.value, env.resolve(c.file);
    && (IsPython(env.suffix(c.file)) ==> env.syntaxOk(text))
    && if p.action == "text_sub" then current != Some("")
       else path in files && var source := StructuredSource(files[path], current);
            env.parse(source).Some? && env.apply(env.parse(source).value, source, p).Applied?
  }

  /** Every change has a patch, and every written step is clean. */
  predicate CleanRun(env: Env, files: Texts, cs: seq<Change>, m: Texts) {
    if cs == [] then true
    else if cs[0].file == "" then CleanRun(env, files, cs[1..], m)
    else
      var p := env.resolve(cs[0].file);
      && cs[0].patch.Some?
      && match Execute(env, files, cs[0], Get(m, p))
         case Write(t) => CleanStep(env, files, cs[0], Get(m, p), t) && CleanRun(env, files, cs[1..], m[p := t])
         case _ => CleanRun(env, files, cs[1..], m)
  }

  ghost predicate SnapshotOf(snapshot: Texts, files: Texts) {
    forall p :: p in snapshot ==> p in files && snapshot[p] == files[p]
  }

  /** One written change: the dry run writes the same text if the step is clean, and refuses
      the change otherwise. */
  lemma DryStepAgrees(env: Env, snapshot: Texts, files: Texts, c: Change, current: Option<string>)
    requires SnapshotOf(snapshot, files) && c.file != "" && Comparable(env, c)
    requires Execute(env, files, c, current).Write?
    ensures var text := Execute(env, files, c, current).text;
            if CleanStep(env, files, c, current, text) then Check(env, snapshot, files, c, current) == Write(text)
            else Check(env, snapshot, files, c, current).Fail?
  {
    var p, path := c.patch.value, env.resolve(c.file);
    StepShape(env, files, c, current);
    if p.action == "text_sub" {
      var source := TextSubSource(files[path], current);
      TextSubRejectsExactly(source, p.oldText, p.newText, env.opcodes);
      if current == Some("") { NothingInEmpty(p.oldText); }
    }
  }

  /** Main theorem: for a plan the executor accepts, the dry run accepts it too, with the
      same text for every file, if and only if no patch is missing and every step is clean. */
  lemma {:induction false} DryRunAgreesIff(env: Env, snapshot: Texts, files: Texts, cs: seq<Change>, m: Texts)
    requires SnapshotOf(snapshot, files) && forall c :: c in cs && c.file != "" ==> Comparable(env, c)
    requires Fold(env.resolve, ExecStep(env, files), cs, m).Ok?
    ensures var executed, checked := Fold(env.resolve, ExecStep(env, files), cs, m),
            Fold(env.resolve, DryStep(env, snapshot, files), cs, m);
            (checked.Ok? <==> CleanRun(env, files, cs, m)) && (checked.Ok? ==> checked.value == executed.value)
    decreases |cs|
  {
    if cs != [] {
      var c, rest := cs[0], cs[1..];
      if c.file == "" {
        DryRunAgreesIff(env, snapshot, files, rest, m);
      } else {
        assert c in cs;
        var p := env.resolve(c.file);
        var s := Execute(env, files, c, Get(m, p));
        StepShape(env, files, c, Get(m, p));
        if s.Write? {
          DryStepAgrees(env, snapshot, files, c, Get(m, p));
          DryRunAgreesIff(env, snapshot, files, rest, m[p := s.text]);
        } else {
          assert Check(env, snapshot, files, c, Get(m, p)).Fail?;
        }
      }
    }
  }

  /** ... in terms of whole plans. */
  lemma AcceptedPlanValidatesIff(env: Env, snapshot: Texts, files: Texts, cs: seq<Change>)
    requires SnapshotOf(snapshot, files) && forall c :: c in cs && c.file != "" ==> Comparable(env, c)
    requires Outcome(env, files, cs).Ok?
    ensures Validate(env, snapshot, files, cs).Ok? <==> CleanRun(env, files, cs, map[])
    ensures Validate(env, snapshot, files, cs).Ok? ==>
              Validate(env, snapshot, files, cs).value == Outcome(env, files, cs).value
  {
    DryRunAgreesIff(env, snapshot, files, cs, map[]);
  }

  /** Python only, no symbol-miss fallback, no blank text: what makes every step clean. */
  predicate PlainPythonRun(env: Env, files: Texts, cs: seq<Change>, m: Texts) {
    if cs == [] then true
    else if cs[0].file == "" then PlainPythonRun(env, files, cs[1..], m)
    else
      var p := env.resolve(cs[0].file);
      && cs[0].patch.Some?
      && match Execute(env, files, cs[0], Get(m, p))
      case Write(t) =>
        && env.suffix(p) == ".py" && !Blank(t)
        && (cs[0].patch.value.action == "text_sub"
            || (p in files && var source := StructuredSource(files[p], Get(m, p));
                env.parse(source).Some? && env.apply(env.parse(source).value, source, cs[0].patch.value).Applied?))
        && PlainPythonRun(env, files, cs[1..], m[p := t])
      case _ => PlainPythonRun(env, files, cs[1..], m)
  }

  lemma {:induction false} PlainPythonRunIsClean(env: Env, files: Texts, cs: seq<Change>, m: Texts)
    requires PlainPythonRun(env, files, cs, m) && forall p :: p in m ==> !Blank(m[p])
    requires Fold(env.resolve, ExecStep(env, files), cs, m).Ok?
    ensures CleanRun(env, files, cs, m)
    decreases |cs|
  {
    if cs != [] {
      if cs[0].file == "" {
        PlainPythonRunIsClean(env, files, cs[1..], m);
      } else {
        var c, p := cs[0], env.resolve(cs[0].file);
        var s := Execute(env, files, c, Get(m, p));
        if s.Write? { WrittenPythonParses(env, files, c, Get(m, p)); }
        PlainPythonRunIsClean(env, files, cs[1..], if s.Write? then m[p := s.text] else m);
      }
    }
  }

  /** The executor writes no non-blank `.py` text that does not parse. */
  lemma WrittenPythonParses(env: Env, files: Texts, c: Change, current: Option<string>)
    requires c.file != "" && env.suffix(env.resolve(c.file)) == ".py"
    requires var s := Execute(env, files, c, current); s.Write? && !Blank(s.text)
    ensures env.syntaxOk(Execute(env, files, c, current).text)
  {}
}
