/** The patch executor as a transaction over a file map (editing/patch_executor.py). */
module Executor {
  import opened Prelude
  import opened Text
  import opened Plan
  import opened Syntax
  import opened PlanFold
  import opened Effectiveness

  const MAX_FILES_PER_EDIT := 5
  const MAX_PATCH_LINES := 200

  const TARGET_NODES: seq<string> := [
    "function_body_start", "function_body", "class_body_start", "class_body",
    "statement", "statement_after", "if_block", "try_block", "with_block", "for_block"]

  /** failure_reason_code / patch_reject_reason. */
  datatype Code = SafeguardExceeded | ForbiddenDelete | NonSourceTarget | TargetNotFound | TargetIsDirectory
                | InvalidPatchSyntax | PatchApplyConflict | SymbolNotFound | AnchorNotFound
                | Ineffective(reason: Reason)

  /** `rollback` marks the failures on whose way out the originals are written back. */
  datatype Failure = Failure(code: Code, rollback: bool)

  /** What `apply_patch` does with one source: new text, the symbol-miss error, or another one. */
  datatype ApplyResult = Applied(text: string) | SymbolMiss | Refused(code: Code)

  /** Everything the editing code asks of code outside this model. */
  datatype Env = Env(
    resolve: string -> string, inside: string -> bool, forbidden: string -> bool, nonSource: string -> bool,
    isDir: string -> bool, suffix: string -> string,
    parse: string -> Option<Tree>, apply: (Tree, string, Patch) -> ApplyResult,
    syntaxOk: string -> bool, validate: (string, string) -> bool,
    appendMeaningful: (string, string) -> bool, opcodes: (string, string) -> seq<Opcode>)

  predicate IsPython(suffix: string) {
    suffix == ".py" || suffix == ".pyi"
  }

  // ------------------------------------------------------------ checks before any reading

  function Newlines(s: string): nat {
    if s == "" then 0 else Newlines(s[1..]) + if s[0] == '\n' then 1 else 0
  }

  function FilesOf(cs: seq<Change>): set<string> {
    set c | c in cs && c.file != "" :: c.file
  }

  function ChangeGuard(c: Change): Option<Code> {
    match c.patch
    case None => None
    case Some(p) =>
      if Newlines(p.code) >= MAX_PATCH_LINES then Some(SafeguardExceeded)
      else if p.action == "delete" && (p.targetNode == None || p.targetNode == Some("")) then Some(ForbiddenDelete)
      else None
  }

  function FirstGuard(cs: seq<Change>): Option<Code> {
    if cs == [] then None
    else if ChangeGuard(cs[0]).Some? then ChangeGuard(cs[0])
    else FirstGuard(cs[1..])
  }

  function Safeguard(cs: seq<Change>): Option<Code> {
    if |FilesOf(cs)| > MAX_FILES_PER_EDIT then Some(SafeguardExceeded) else FirstGuard(cs)
  }

  function Preflight(p: Patch): Option<Code> {
    if p.action == "" then Some(InvalidPatchSyntax)
    else if p.action == "text_sub" then
      if Blank(p.oldText) then Some(Ineffective(EmptyPatch)) else None
    else if p.action == "insert" || p.action == "replace" || p.action == "delete" then
      if p.action != "delete" && Blank(p.code) then Some(Ineffective(EmptyPatch))
      else if p.targetNode == Some("module_append") then None
      else if p.targetNode.None? || p.targetNode.value !in TARGET_NODES then Some(InvalidPatchSyntax)
      else None
    else Some(InvalidPatchSyntax)
  }

  // ------------------------------------------------------------ one change

  /** `patched_content.get(p) or originals[p]`: an accumulated text that became empty counts as absent. */
  function TextSubSource(original: string, current: Option<string>): string {
    if current.Some? && current.value != "" then current.value else original
  }

  function StructuredSource(original: string, current: Option<string>): string {
    if current.Some? then current.value else original
  }

  function TextSub(env: Env, path: string, source: string, p: Patch): Step<Failure> {
    if Blank(p.oldText) then Fail(Failure(Ineffective(EmptyPatch), false))
    else
      match AssessTextSub(source, p.oldText, p.newText, env.opcodes)
      case Rejected(reason) => Fail(Failure(Ineffective(reason), false))
      case Passed(newSource) =>
        if !Contains(source, p.oldText) then Fail(Failure(TargetNotFound, false))
        else
          var text := if newSource.Some? then newSource.value else ReplaceFirst(source, p.oldText, p.newText);
          if env.suffix(path) == ".py" && !Blank(text) && !env.syntaxOk(text) then
            Fail(Failure(InvalidPatchSyntax, false))
          else Write(text)
  }

  function AppendPatch(p: Patch): Patch {
    Patch("", "insert", Some("module_append"), p.code, "", "", 0, 0, "", "")
  }

  /** The edit itself, with the fallback to a module append when the symbol is missing;
      the second part is the appended code, if the edit was an append. */
  function Attempt(env: Env, tree: Tree, source: string, p: Patch): Result<(string, Option<string>), Code> {
    var append := p.targetNode == Some("module_append");
    match env.apply(tree, source, p)
    case Applied(text) => Ok((text, if append then Some(p.code) else None))
    case Refused(code) => Err(code)
    case SymbolMiss =>
      if append then Err(SymbolNotFound)
      else
        match env.apply(tree, source, AppendPatch(p))
        case Applied(text) => Ok((text, Some(p.code)))
        case Refused(code) => Err(code)
        case SymbolMiss => Err(SymbolNotFound)
  }

  function Structured(env: Env, path: string, source: string, p: Patch): Step<Failure> {
    match env.parse(source)
    case None => Fail(Failure(InvalidPatchSyntax, false))
    case Some(tree) =>
      match Attempt(env, tree, source, p)
      case Err(code) => Fail(Failure(code, true))
      case Ok((text, appendCode)) =>
        match AssessAfterChange(source, text, appendCode, env.appendMeaningful, env.opcodes)
        case Some(reason) => Fail(Failure(Ineffective(reason), false))
        case None =>
          if env.suffix(path) == ".py" && text != "" && !env.syntaxOk(text) then
            Fail(Failure(InvalidPatchSyntax, false))
          else if !env.validate(path, text) then Fail(Failure(PatchApplyConflict, true))
          else Write(text)
  }

  /** The checks every change passes before its file is read. */
  function Admit(env: Env, files: Texts, c: Change): Option<Code>
    requires c.patch.Some?
  {
    var path := env.resolve(c.file);
    if env.forbidden(c.file) then Some(NonSourceTarget)
    else if !env.inside(path) then Some(TargetNotFound)
    else if Preflight(c.patch.value).Some? then Preflight(c.patch.value)
    else if path !in files && !env.isDir(path) then Some(TargetNotFound)
    else if env.isDir(path) then Some(TargetIsDirectory)
    else if env.nonSource(path) then Some(NonSourceTarget)
    else None
  }

  function Execute(env: Env, files: Texts, c: Change, current: Option<string>): Step<Failure> {
    if c.patch.None? then Skip
    else
      var path, p := env.resolve(c.file), c.patch.value;
      var refused := Admit(env, files, c);
      if refused.Some? then Fail(Failure(refused.value, false))
      else if !IsPython(env.suffix(path)) && p.action != "text_sub" then Skip
      else if p.action == "text_sub" then TextSub(env, path, TextSubSource(files[path], current), p)
      else Structured(env, path, StructuredSource(files[path], current), p)
  }

  function ExecStep(env: Env, files: Texts): (Change, Option<string>) -> Step<Failure> {
    (c: Change, current: Option<string>) => Execute(env, files, c, current)
  }

  // ------------------------------------------------------------ the transaction

  /** What a plan does to a file map: refused, or a set of new texts. */
  function Outcome(env: Env, files: Texts, cs: seq<Change>): Result<Texts, Failure> {
    if cs == [] then Ok(map[])
    else
      match Safeguard(cs)
      case Some(code) => Err(Failure(code, false))
      case None => Fold(env.resolve, ExecStep(env, files), cs, map[])
  }

  /** Changes that an accepted plan applies; the others are passed over. */
  function Applies(env: Env): Change -> bool {
    (c: Change) => c.file != "" && c.patch.Some?
                   && (IsPython(env.suffix(env.resolve(c.file))) || c.patch.value.action == "text_sub")
  }

  datatype ExecResult = Success(filesModified: seq<string>, patchesApplied: nat) | Failed(failure: Failure)

  /** The paths a plan is applied to, change by change. */
  function Uses(env: Env, cs: seq<Change>): seq<string> {
    Map(Filter(cs, Applies(env)), (c: Change) => env.resolve(c.file))
  }

  lemma UsesStep(env: Env, cs: seq<Change>, i: nat, j: nat)
    requires j == i + 1 <= |cs|
    ensures Uses(env, cs[..j])
            == if Applies(env)(cs[i]) then Uses(env, cs[..i]) + [env.resolve(cs[i].file)] else Uses(env, cs[..i])
  {
    assert cs[..j] == cs[..i] + [cs[i]];
    FilterAppend(cs[..i], [cs[i]], Applies(env));
    MapAppend(Filter(cs[..i], Applies(env)), Filter([cs[i]], Applies(env)), (c: Change) => env.resolve(c.file));
  }

  class FileSystem {
    var files: Texts

    constructor (files: Texts)
      ensures this.files == files
    {
      this.files := files;
    }

    method WriteText(path: string, text: string)
      modifies this
      ensures files == old(files)[path := text]
    {
      files := files[path := text];
    }
  }

  /** Writes back texts that are already there. */
  method Rollback(fs: FileSystem, originals: Texts)
    requires forall p :: p in originals ==> p in fs.files && fs.files[p] == originals[p]
    modifies fs
    ensures fs.files == old(fs.files)
  {
    var keys := originals.Keys;
    while keys != {}
      invariant keys <= originals.Keys && fs.files == old(fs.files)
    {
      var p :| p in keys;
      fs.WriteText(p, originals[p]);
      keys := keys - {p};
    }
  }

  method WriteAll(fs: FileSystem, order: seq<string>, texts: Texts)
    requires forall p :: p in order <==> p in texts
    modifies fs
    ensures fs.files == old(fs.files) + texts
  {
    ghost var before := fs.files;
    for i := 0 to |order|
      invariant forall p :: Get(fs.files, p) == if p in order[..i] then Some(texts[p]) else Get(before, p)
    {
      assert order[i] in order;
      fs.WriteText(order[i], texts[order[i]]);
      assert order[..i + 1] == order[..i] + [order[i]];
    }
    assert order[..|order|] == order;
    forall p ensures Get(fs.files, p) == Get(before + texts, p) {}
    SameTexts(fs.files, before + texts);
  }

  /** All or nothing: a refused plan leaves every file as it was, whatever change fails and
      whether or not the originals are written back; an accepted one replaces exactly the
      texts of the run. */
  method ExecutePatch(fs: FileSystem, env: Env, changes: seq<Change>) returns (r: ExecResult)
    modifies fs
    ensures r.Failed? <==> Outcome(env, old(fs.files), changes).Err?
    ensures r.Failed? ==> fs.files == old(fs.files) && r.failure == Outcome(env, old(fs.files), changes).error
    ensures r.Success? ==>
              && fs.files == old(fs.files) + Outcome(env, old(fs.files), changes).value
              && (forall p :: p in r.filesModified <==> p in Outcome(env, old(fs.files), changes).value)
              && FirstSeen(Uses(env, changes), r.filesModified) && r.patchesApplied == |Uses(env, changes)|
  {
    if changes == [] {
      return Success([], 0);
    }
    var guarded := Safeguard(changes);
    if guarded.Some? {
      return Failed(Failure(guarded.value, false));
    }
    ghost var before := fs.files;
    var originals: Texts, patched: Texts, order: seq<string>, applied: nat := map[], map[], [], 0;
    for i := 0 to |changes|
      invariant fs.files == before
      invariant Underway(env, before, changes, i, patched, order, applied)
      invariant forall p :: p in originals ==> p in before && before[p] == originals[p]
    {
      var c := changes[i];
      if c.file == "" {
        PassOver(env, before, changes, i, i + 1, patched, order, applied);
        continue;
      }
      var path := env.resolve(c.file);
      var step := Execute(env, fs.files, c, Get(patched, path));
      StepShape(env, before, c, Get(patched, path));
      match step
      case Skip =>
        PassOver(env, before, changes, i, i + 1, patched, order, applied);
      case Fail(failure) =>
        FailAt(env, before, changes, i, patched, order, applied);
        if failure.rollback {
          originals := originals[path := fs.files[path]];
          Rollback(fs, originals);
        }
        return Failed(failure);
      case Write(text) =>
        WriteOne(env, before, changes, i, i + 1, patched, order, applied, text);
        if path !in originals {
          originals := originals[path := fs.files[path]];
        }
        if path !in patched {
          order := order + [path];
        }
        patched := patched[path := text];
        applied := applied + 1;
    }
    AllDone(env, before, changes, patched, order, applied);
    WriteAll(fs, order, patched);
    return Success(order, applied);
  }

  /** The loop's state before change `i`. */
  ghost predicate Underway(env: Env, files: Texts, cs: seq<Change>, i: nat, patched: Texts, order: seq<string>,
                           applied: nat) {
    && i <= |cs|
    && Fold(env.resolve, ExecStep(env, files), cs[i..], patched) == Fold(env.resolve, ExecStep(env, files), cs, map[])
    && (forall p :: p in order <==> p in patched)
    && FirstSeen(Uses(env, cs[..i]), order) && applied == |Uses(env, cs[..i])|
  }

  lemma PassOver(env: Env, files: Texts, cs: seq<Change>, i: nat, j: nat, patched: Texts, order: seq<string>,
                 applied: nat)
    requires Underway(env, files, cs, i, patched, order, applied) && j == i + 1 <= |cs|
    requires cs[i].file == "" || Execute(env, files, cs[i], Get(patched, env.resolve(cs[i].file))).Skip?
    ensures Underway(env, files, cs, j, patched, order, applied)
  {
    assert cs[i..][1..] == cs[j..];
    UsesStep(env, cs, i, j);
    if cs[i].file != "" { StepShape(env, files, cs[i], Get(patched, env.resolve(cs[i].file))); }
  }

  lemma WriteOne(env: Env, files: Texts, cs: seq<Change>, i: nat, j: nat, patched: Texts, order: seq<string>,
                 applied: nat, text: string)
    requires Underway(env, files, cs, i, patched, order, applied) && j == i + 1 <= |cs| && cs[i].file != ""
    requires Execute(env, files, cs[i], Get(patched, env.resolve(cs[i].file))) == Write(text)
    ensures var path := env.resolve(cs[i].file);
            Underway(env, files, cs, j, patched[path := text], AppendOnce(order, path), applied + 1)
  {
    assert cs[i..][1..] == cs[j..];
    UsesStep(env, cs, i, j);
    StepShape(env, files, cs[i], Get(patched, env.resolve(cs[i].file)));
    FirstSeenStep(Uses(env, cs[..i]), order, env.resolve(cs[i].file));
  }

  lemma FailAt(env: Env, files: Texts, cs: seq<Change>, i: nat, patched: Texts, order: seq<string>, applied: nat)
    requires Underway(env, files, cs, i, patched, order, applied) && i < |cs| && cs[i].file != ""
    requires Execute(env, files, cs[i], Get(patched, env.resolve(cs[i].file))).Fail?
    ensures Fold(env.resolve, ExecStep(env, files), cs, map[])
            == Err(Execute(env, files, cs[i], Get(patched, env.resolve(cs[i].file))).error)
  {}

  lemma AllDone(env: Env, files: Texts, cs: seq<Change>, patched: Texts, order: seq<string>, applied: nat)
    requires Underway(env, files, cs, |cs|, patched, order, applied)
    ensures Fold(env.resolve, ExecStep(env, files), cs, map[]) == Ok(patched)
    ensures FirstSeen(Uses(env, cs), order) && applied == |Uses(env, cs)|
  {
    assert cs[..|cs|] == cs;
  }

  /** A change is written, or fails with a rollback, only after its file was found; and a
      change that is not refused is passed over exactly when it does not apply. */
  lemma StepShape(env: Env, files: Texts, c: Change, current: Option<string>)
    requires c.file != ""
    ensures var s := Execute(env, files, c, current);
            && (s.Write? || (s.Fail? && s.error.rollback) ==> env.resolve(c.file) in files)
            && (s.Skip? ==> !Applies(env)(c))
            && (s.Write? ==> Applies(env)(c))
  {}
}
