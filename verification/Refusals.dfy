/** Which reason a refused change is given (editing/patch_executor.py): the checks as a list, in
    the order in which a change meets them. */
module Refusals {
  import opened Prelude
  import opened Text
  import opened Plan
  import opened PlanFold
  import opened Syntax
  import opened SymbolFinder
  import opened Executor
  import opened Pipeline
  import AstPatcher
  import Effect = Effectiveness

  datatype Check = Check(passed: bool, code: Code)

  /** The code of the first check that is not passed. */
  function FirstFailed(checks: seq<Check>): Option<Code> {
    if checks == [] then None else if checks[0].passed then FirstFailed(checks[1..]) else Some(checks[0].code)
  }

  lemma FourChecks(a: Check, b: Check, c: Check, d: Check)
    ensures FirstFailed([a, b, c, d])
            == if !a.passed then Some(a.code) else if !b.passed then Some(b.code)
               else if !c.passed then Some(c.code) else if !d.passed then Some(d.code) else None
  {
    assert [a, b, c, d][1..] == [b, c, d] && [b, c, d][1..] == [c, d] && [c, d][1..] == [d] && [d][1..] == [];
    assert FirstFailed([d]) == if !d.passed then Some(d.code) else None;
    assert FirstFailed([c, d]) == if !c.passed then Some(c.code) else FirstFailed([d]);
  }

  lemma {:induction false} FirstFailedAppend(x: seq<Check>, y: seq<Check>)
    ensures FirstFailed(x + y) == if FirstFailed(x).Some? then FirstFailed(x) else FirstFailed(y)
  {
    if x == [] { assert x + y == y; } else { assert (x + y)[1..] == x[1..] + y; FirstFailedAppend(x[1..], y); }
  }

  /** What is asked of a change before its file is read. */
  function AdmissionChecks(env: Env, files: Texts, c: Change): seq<Check>
    requires c.patch.Some?
  {
    var p, path := c.patch.value, env.resolve(c.file);
    var edit := p.action in {"insert", "replace", "delete"};
    [ Check(!env.forbidden(c.file), NonSourceTarget),
      Check(env.inside(path), TargetNotFound),
      Check(edit || p.action == "text_sub", InvalidPatchSyntax),
      Check(!Blank(if p.action == "text_sub" then p.oldText else p.code) || p.action == "delete",
            Ineffective(Effect.EmptyPatch)),
      Check(edit ==> KnownTarget(p), InvalidPatchSyntax),
      Check(path in files || env.isDir(path), TargetNotFound),
      Check(!env.isDir(path), TargetIsDirectory),
      Check(!env.nonSource(path), NonSourceTarget) ]
  }

  lemma AdmitIsFirstFailed(env: Env, files: Texts, c: Change)
    requires c.patch.Some?
    ensures Admit(env, files, c) == FirstFailed(AdmissionChecks(env, files, c))
  {
    var p := c.patch.value;
    if p.targetNode.Some? { KnownTargets(p.targetNode.value); }
    var checks := AdmissionChecks(env, files, c);
    assert checks == checks[..4] + checks[4..];
    FirstFailedAppend(checks[..4], checks[4..]);
    FourChecks(checks[0], checks[1], checks[2], checks[3]);
    FourChecks(checks[4], checks[5], checks[6], checks[7]);
    assert checks[..4] == [checks[0], checks[1], checks[2], checks[3]];
    assert checks[4..] == [checks[4], checks[5], checks[6], checks[7]];
  }

  function SubstitutionChecks(env: Env, path: string, source: string, p: Patch, text: string): seq<Check> {
    [ Check(!Blank(p.oldText), Ineffective(Effect.EmptyPatch)),
      Check(p.oldText != p.newText, Ineffective(Effect.NoEffectChange)),
      Check(Contains(source, p.oldText), TargetNotFound),
      Check(env.suffix(path) == ".py" ==> Blank(text) || env.syntaxOk(text), InvalidPatchSyntax) ]
  }

  /** A substitution is refused for the first of these reasons, without a rollback. */
  lemma SubstitutionRefused(env: Env, path: string, source: string, p: Patch)
    ensures var text := ReplaceFirst(source, p.oldText, p.newText);
            TextSub(env, path, source, p)
            == match FirstFailed(SubstitutionChecks(env, path, source, p, text))
               case None => Write(text)
               case Some(code) => Fail(Failure(code, false))
  {
    var checks := SubstitutionChecks(env, path, source, p, ReplaceFirst(source, p.oldText, p.newText));
    FourChecks(checks[0], checks[1], checks[2], checks[3]);
    assert checks == [checks[0], checks[1], checks[2], checks[3]];
    Effect.TextSubRejectsExactly(source, p.oldText, p.newText, env.opcodes);
  }

  function EditChecks(env: Env, path: string, source: string, p: Patch, text: string, append: bool): seq<Check> {
    [ Check(text != source, Ineffective(Effect.UnchangedTargetRegion)),
      Check(append ==> env.appendMeaningful(p.code, source), Ineffective(Effect.NoMeaningfulDiff)),
      Check(env.suffix(path) == ".py" ==> text == "" || env.syntaxOk(text), InvalidPatchSyntax),
      Check(env.validate(path, text), PatchApplyConflict) ]
  }

  /** An edit that can be made is refused for the first of these reasons; the originals are written
      back only when the validator refuses it. */
  lemma EditRefused(env: Env, layout: AstPatcher.Layout, path: string, source: string, p: Patch, text: string,
                    append: bool)
    requires env.apply == Patcher(layout) && p.targetNode.Some? && env.parse(source).Some?
    requires Makes(layout, source, env.parse(source).value, p, text, append)
    ensures Structured(env, path, source, p)
            == match FirstFailed(EditChecks(env, path, source, p, text, append))
               case None => Write(text)
               case Some(code) => Fail(Failure(code, code == PatchApplyConflict))
  {
    var checks := EditChecks(env, path, source, p, text, append);
    FourChecks(checks[0], checks[1], checks[2], checks[3]);
    assert checks == [checks[0], checks[1], checks[2], checks[3]];
    AttemptMakes(env, layout, env.parse(source).value, source, p, text, if append then Some(p.code) else None);
  }

  /** An edit that cannot be made ends in a rollback. A missing symbol is never the reason. */
  lemma ImpossibleEditRefused(env: Env, layout: AstPatcher.Layout, path: string, source: string, p: Patch)
    requires env.apply == Patcher(layout) && p.targetNode.Some? && env.parse(source).Some?
    requires forall text, append :: !Makes(layout, source, env.parse(source).value, p, text, append)
    ensures var root, target := env.parse(source).value, p.targetNode.value;
            var found := FindSymbol(source, root, p.symbol);
            Structured(env, path, source, p)
            == Fail(Failure(if target == "module_append" && p.action != "insert" then PatchApplyConflict
                            else if target == "module_append" || found.None? then Ineffective(Effect.EmptyPatch)
                            else if target in {"if_block", "try_block", "with_block", "for_block"}
                                    && Field(found.value, "body").Some?
                                    && (forall n :: !AstPatcher.Addresses(Field(found.value, "body").value, p, n))
                            then AnchorNotFound
                            else PatchApplyConflict, true))
  {
    var root := env.parse(source).value;
    if p.targetNode != Some("module_append") {
      AstPatcher.ApplyPatchIff(layout, source, root, p);
    }
    NotMade(env, layout, root, source, p);
  }

  /** The code an attempt fails with, by the patcher's error. */
  lemma NotMade(env: Env, layout: AstPatcher.Layout, root: Tree, source: string, p: Patch)
    requires env.apply == Patcher(layout) && p.targetNode.Some?
    requires forall text, append :: !Makes(layout, source, root, p, text, append)
    ensures Attempt(env, root, source, p).Err?
    ensures var error := AstPatcher.ApplyPatch(layout, source, root, p);
            Attempt(env, root, source, p).error
            == if error == Err(AstPatcher.SymbolNotFound) then Ineffective(Effect.EmptyPatch) else CodeOf(error.error)
  {
    assert env.apply(root, source, p) == Patcher(layout)(root, source, p);
    assert env.apply(root, source, AppendPatch(p)) == Patcher(layout)(root, source, AppendPatch(p));
    if Attempt(env, root, source, p).Ok? {
      var (t, code) := Attempt(env, root, source, p).value;
      AttemptMakes(env, layout, root, source, p, t, code);
    }
  }

  /** The fallback takes every missing symbol: no change is refused because its symbol is missing. */
  lemma MissingSymbolNeverRefuses(env: Env, layout: AstPatcher.Layout, files: Texts, c: Change, current: Option<string>)
    requires env.apply == Patcher(layout) && Execute(env, files, c, current).Fail?
    ensures Execute(env, files, c, current).error.code != SymbolNotFound
  {
    var path, p := env.resolve(c.file), c.patch.value;
    AdmittedIff(env, files, c);
    if Admissible(env, files, c) && p.action != "text_sub" {
      var source := StructuredSource(files[path], current);
      if env.parse(source).Some? { AttemptNeverMisses(env, layout, env.parse(source).value, source, p); }
    }
  }

  lemma AttemptNeverMisses(env: Env, layout: AstPatcher.Layout, root: Tree, source: string, p: Patch)
    requires env.apply == Patcher(layout)
    ensures Attempt(env, root, source, p) != Err(SymbolNotFound)
  {
    assert env.apply(root, source, p) == Patcher(layout)(root, source, p);
    assert env.apply(root, source, AppendPatch(p)) == Patcher(layout)(root, source, AppendPatch(p));
  }
}
