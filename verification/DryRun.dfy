/** The in-memory syntax check of a plan (editing/syntax_validation.py). */
module DryRun {
  import opened Prelude
  import opened Text
  import opened Plan
  import opened PlanFold
  import opened Executor

  datatype Refusal = PatchApplyFailed | SyntaxError

  function ApplyPatchInMemory(env: Env, c: Change, content: Option<string>): Option<string> {
    match c.patch
    case None => None
    case Some(p) =>
      if p.action == "text_sub" then
        if content.None? || !Contains(content.value, p.oldText) then None
        else Some(ReplaceFirst(content.value, p.oldText, p.newText))
      else if p.action == "insert" || p.action == "replace" || p.action == "delete" then
        var source := if content.Some? then content.value else "";
        match env.parse(source)
        case None => None
        case Some(tree) =>
          match env.apply(tree, source, p)
          case Applied(text) => Some(text)
          case _ => None
      else None
  }

  /** Accumulated text first, then the snapshot, then the disk. */
  function Content(env: Env, snapshot: Texts, files: Texts, path: string, current: Option<string>): Option<string> {
    if current.Some? then current
    else if path in snapshot then Some(snapshot[path])
    else if path in files then Some(files[path])
    else if env.isDir(path) then Some("")
    else None
  }

  function Check(env: Env, snapshot: Texts, files: Texts, c: Change, current: Option<string>): Step<Refusal> {
    match ApplyPatchInMemory(env, c, Content(env, snapshot, files, env.resolve(c.file), current))
    case None => Fail(PatchApplyFailed)
    case Some(patched) =>
      if !IsPython(env.suffix(c.file)) || env.syntaxOk(patched) then Write(patched) else Fail(SyntaxError)
  }

  function DryStep(env: Env, snapshot: Texts, files: Texts): (Change, Option<string>) -> Step<Refusal> {
    (c: Change, current: Option<string>) => Check(env, snapshot, files, c, current)
  }

  function Validate(env: Env, snapshot: Texts, files: Texts, cs: seq<Change>): Result<Texts, Refusal> {
    Fold(env.resolve, DryStep(env, snapshot, files), cs, map[])
  }

  /** The loop over the plan; `contentMap` holds each file's text after its changes so far. */
  method ValidateSyntaxPlan(env: Env, snapshot: Texts, files: Texts, changes: seq<Change>)
    returns (valid: bool, refusal: Option<Refusal>, contentMap: Texts)
    ensures valid <==> Validate(env, snapshot, files, changes).Ok?
    ensures valid ==> refusal.None? && contentMap == Validate(env, snapshot, files, changes).value
    ensures !valid ==> refusal == Some(Validate(env, snapshot, files, changes).error)
  {
    contentMap := map[];
    for i := 0 to |changes|
      invariant Fold(env.resolve, DryStep(env, snapshot, files), changes[i..], contentMap)
                == Validate(env, snapshot, files, changes)
    {
      var c := changes[i];
      assert changes[i..][1..] == changes[i + 1..];
      if c.file == "" {
        continue;
      }
      var path := env.resolve(c.file);
      var patched := ApplyPatchInMemory(env, c, Content(env, snapshot, files, path, Get(contentMap, path)));
      if patched.None? {
        return false, Some(PatchApplyFailed), contentMap;
      }
      if !IsPython(env.suffix(c.file)) {
        contentMap := contentMap[path := patched.value];
        continue;
      }
      if !env.syntaxOk(patched.value) {
        return false, Some(SyntaxError), contentMap;
      }
      contentMap := contentMap[path := patched.value];
    }
    return true, None, contentMap;
  }

  // ------------------------------------------------------------ what one change does, exactly

  /** The text a change starts from: the accumulated one, else the snapshot's, else the disk's. */
  ghost predicate Reads(env: Env, snapshot: Texts, files: Texts, path: string, current: Option<string>,
                        source: string) {
    || current == Some(source)
    || (current.None?
        && if path in snapshot then snapshot[path] == source
           else if path in files then files[path] == source
           else env.isDir(path) && source == "")
  }

  /** The text a change makes in memory. A structured patch takes a file that is not there for an
      empty one; a substitution does not. */
  ghost predicate MakesInMemory(env: Env, snapshot: Texts, files: Texts, c: Change, current: Option<string>,
                                text: string) {
    var path := env.resolve(c.file);
    && c.patch.Some?
    && var p := c.patch.value;
       if p.action == "text_sub" then
         exists source :: Reads(env, snapshot, files, path, current, source)
                          && ReplacesFirst(source, p.oldText, p.newText, text)
       else
         p.action in {"insert", "replace", "delete"}
         && exists source :: (Reads(env, snapshot, files, path, current, source)
                              || (source == "" && forall x :: !Reads(env, snapshot, files, path, current, x)))
                             && env.parse(source).Some?
                             && env.apply(env.parse(source).value, source, p) == Applied(text)
  }

  lemma ContentReads(env: Env, snapshot: Texts, files: Texts, path: string, current: Option<string>)
    ensures forall source :: Reads(env, snapshot, files, path, current, source)
                             <==> Content(env, snapshot, files, path, current) == Some(source)
  {}

  lemma InMemoryIff(env: Env, snapshot: Texts, files: Texts, c: Change, current: Option<string>, text: string)
    ensures ApplyPatchInMemory(env, c, Content(env, snapshot, files, env.resolve(c.file), current)) == Some(text)
            <==> MakesInMemory(env, snapshot, files, c, current, text)
  {
    ContentReads(env, snapshot, files, env.resolve(c.file), current);
    var content := Content(env, snapshot, files, env.resolve(c.file), current);
    if c.patch.Some? && content.Some? {
      ReplaceFirstIs(content.value, c.patch.value.oldText, c.patch.value.newText, text);
    }
  }

  /** Main theorem: a change passes with the text it makes if that parses or is not meant to, ends
      the check with a syntax error if it should and does not, and as not applicable otherwise. */
  lemma ChecksIff(env: Env, snapshot: Texts, files: Texts, c: Change, current: Option<string>, text: string)
    ensures Check(env, snapshot, files, c, current) == Write(text) <==>
              MakesInMemory(env, snapshot, files, c, current, text)
              && (env.suffix(c.file) in {".py", ".pyi"} ==> env.syntaxOk(text))
    ensures Check(env, snapshot, files, c, current) == Fail(SyntaxError) <==>
              exists t :: MakesInMemory(env, snapshot, files, c, current, t)
                          && env.suffix(c.file) in {".py", ".pyi"} && !env.syntaxOk(t)
    ensures Check(env, snapshot, files, c, current) == Fail(PatchApplyFailed) <==>
              forall t :: !MakesInMemory(env, snapshot, files, c, current, t)
  {
    forall t { InMemoryIff(env, snapshot, files, c, current, t); }
    var made := ApplyPatchInMemory(env, c, Content(env, snapshot, files, env.resolve(c.file), current));
    if made.Some? { assert MakesInMemory(env, snapshot, files, c, current, made.value); }
  }
}
