/** The executor running the structured patcher: what one structured change can do to a file. */
module Pipeline {
  import opened Prelude
  import opened Text
  import opened Plan
  import opened PlanFold
  import opened Syntax
  import opened SymbolFinder
  import opened Executor
  import opened PatchTheory
  import AstPatcher
  import Effect = Effectiveness
  import Rename

  function CodeOf(e: AstPatcher.PatchError): Code {
    match e
    case SymbolNotFound => SymbolNotFound
    case BlockNotFound => AnchorNotFound
    case EmptyPatch => Ineffective(Effect.EmptyPatch)
    case _ => PatchApplyConflict
  }

  function Patcher(layout: AstPatcher.Layout): (Tree, string, Patch) -> ApplyResult {
    (tree: Tree, source: string, p: Patch) =>
      match AstPatcher.ApplyPatch(layout, source, tree, p)
      case Ok(text) => Applied(text)
      case Err(e) => if e == AstPatcher.SymbolNotFound then SymbolMiss else Refused(CodeOf(e))
  }

  /** What a written text is made from: the patch as given, or the fallback append. */
  lemma WrittenFromAttempt(env: Env, files: Texts, c: Change, current: Option<string>)
    requires c.patch.Some? && c.patch.value.action != "text_sub" && Execute(env, files, c, current).Write?
    ensures env.resolve(c.file) in files && c.patch.value.targetNode == Some(AstPatcher.Target(c.patch.value))
    ensures var source, text := StructuredSource(files[env.resolve(c.file)], current),
            Execute(env, files, c, current).text;
            && env.parse(source).Some?
            && Attempt(env, env.parse(source).value, source, c.patch.value).Ok?
            && Attempt(env, env.parse(source).value, source, c.patch.value).value.0 == text
  {}

  /** The attempt in terms of the patcher. */
  lemma AttemptIsPatchOrAppend(env: Env, layout: AstPatcher.Layout, root: Tree, source: string, p: Patch)
    requires env.apply == Patcher(layout) && p.targetNode == Some(AstPatcher.Target(p))
    requires Attempt(env, root, source, p).Ok?
    ensures var text := Attempt(env, root, source, p).value.0;
            if AstPatcher.Target(p) != "module_append" && FindSymbol(source, root, p.symbol).Some?
            then AstPatcher.ApplyPatch(layout, source, root, p) == Ok(text)
            else text == Rstrip(source) + ("\n\n" + Strip(p.code) + "\n")
  {
    assert env.apply(root, source, p) == Patcher(layout)(root, source, p);
    assert env.apply(root, source, AppendPatch(p)) == Patcher(layout)(root, source, AppendPatch(p));
  }

  /** Main theorem: a structured change the executor writes either stays between the first
      line of its symbol and the symbol's end, up to one newline, or, when the symbol is
      missing or an append was asked for, keeps all but trailing whitespace and appends. */
  lemma StructuredWriteIsLocalOrAppends(env: Env, layout: AstPatcher.Layout, files: Texts,
                                        c: Change, current: Option<string>)
    requires env.apply == Patcher(layout)
    requires c.patch.Some? && c.patch.value.action != "text_sub" && Execute(env, files, c, current).Write?
    ensures env.resolve(c.file) in files
    ensures var source, p, text := StructuredSource(files[env.resolve(c.file)], current),
            c.patch.value, Execute(env, files, c, current).text;
            && env.parse(source).Some?
            && var root := env.parse(source).value;
               if AstPatcher.Target(p) != "module_append" && FindSymbol(source, root, p.symbol).Some? then
                 var node := FindSymbol(source, root, p.symbol).value;
                 Rename.BytesNested(root) && root.endByte <= |source| ==> AstPatcher.StaysInside(source, text, node)
               else text == Rstrip(source) + ("\n\n" + Strip(p.code) + "\n")
  {
    WrittenFromAttempt(env, files, c, current);
    var source, p := StructuredSource(files[env.resolve(c.file)], current), c.patch.value;
    var root := env.parse(source).value;
    AttemptIsPatchOrAppend(env, layout, root, source, p);
    if AstPatcher.Target(p) != "module_append" && FindSymbol(source, root, p.symbol).Some?
       && Rename.BytesNested(root) && root.endByte <= |source| {
      AstPatcher.EditIsLocal(layout, source, root, p);
    }
  }

  // ------------------------------------------------------------ what one change writes, exactly

  /** The path and the target of a change are permitted, and its patch is complete. */
  predicate Admissible(env: Env, files: Texts, c: Change) {
    && c.patch.Some?
    && !env.forbidden(c.file) && env.inside(env.resolve(c.file))
    && env.resolve(c.file) in files && !env.isDir(env.resolve(c.file)) && !env.nonSource(env.resolve(c.file))
    && CompletePatch(c.patch.value)
  }

  predicate CompletePatch(p: Patch) {
    || (p.action == "text_sub" && !Blank(p.oldText))
    || (p.action in {"insert", "replace"} && !Blank(p.code) && KnownTarget(p))
    || (p.action == "delete" && KnownTarget(p))
  }

  predicate KnownTarget(p: Patch) {
    && p.targetNode.Some?
    && p.targetNode.value in {"module_append", "function_body_start", "function_body", "class_body_start", "class_body",
                              "statement", "statement_after", "if_block", "try_block", "with_block", "for_block"}
  }

  lemma AdmittedIff(env: Env, files: Texts, c: Change)
    requires c.patch.Some?
    ensures Admit(env, files, c).None? <==> Admissible(env, files, c)
  {
    var p := c.patch.value;
    if p.targetNode.Some? { KnownTargets(p.targetNode.value); }
  }

  lemma KnownTargets(target: string)
    ensures target in TARGET_NODES || target == "module_append"
            <==> target in {"module_append", "function_body_start", "function_body", "class_body_start", "class_body",
                            "statement", "statement_after", "if_block", "try_block", "with_block", "for_block"}
  {}

  /** The text with the code behind it, two newlines apart. */
  function Appended(source: string, code: string): string {
    Rstrip(source) + ("\n\n" + Strip(code) + "\n")
  }

  /** What a structured patch makes of a source: the module append asked for, the module append that
      stands in for a missing symbol, or the edit of the symbol. */
  predicate Makes(layout: AstPatcher.Layout, source: string, root: Tree, p: Patch, text: string, append: bool) {
    if p.targetNode == Some("module_append") then
      append && p.action == "insert" && !Blank(p.code) && text == Appended(source, p.code)
    else if FindSymbol(source, root, p.symbol).None? then append && !Blank(p.code) && text == Appended(source, p.code)
    else !append && AstPatcher.ApplyPatch(layout, source, root, p) == Ok(text)
  }

  lemma AttemptMakes(env: Env, layout: AstPatcher.Layout, root: Tree, source: string, p: Patch, text: string,
                     code: Option<string>)
    requires env.apply == Patcher(layout) && p.targetNode.Some?
    ensures Attempt(env, root, source, p) == Ok((text, code))
            <==> Makes(layout, source, root, p, text, code.Some?) && (code.Some? ==> code.value == p.code)
  {
    assert env.apply(root, source, p) == Patcher(layout)(root, source, p);
    assert env.apply(root, source, AppendPatch(p)) == Patcher(layout)(root, source, AppendPatch(p));
  }

  /** The text a substitution leaves, if it is one to be written. */
  ghost predicate Substitutes(env: Env, path: string, source: string, p: Patch, text: string) {
    && ReplacesFirst(source, p.oldText, p.newText, text) && p.oldText != p.newText
    && (env.suffix(path) == ".py" ==> Blank(text) || env.syntaxOk(text))
  }

  /** The text a structured patch makes, if it is a change, says something new and passes both checks. */
  ghost predicate Edits(env: Env, layout: AstPatcher.Layout, path: string, source: string, p: Patch, text: string) {
    && env.parse(source).Some? && text != source
    && (|| Makes(layout, source, env.parse(source).value, p, text, false)
        || (Makes(layout, source, env.parse(source).value, p, text, true) && env.appendMeaningful(p.code, source)))
    && (env.suffix(path) == ".py" ==> text == "" || env.syntaxOk(text))
    && env.validate(path, text)
  }

  lemma SubstitutesIff(env: Env, path: string, source: string, p: Patch, text: string)
    requires !Blank(p.oldText)
    ensures TextSub(env, path, source, p) == Write(text) <==> Substitutes(env, path, source, p, text)
  {
    TextSubWritesIff(env, path, source, p);
    ReplaceFirstIs(source, p.oldText, p.newText, text);
  }

  lemma EditsIff(env: Env, layout: AstPatcher.Layout, path: string, source: string, p: Patch, text: string)
    requires env.apply == Patcher(layout) && p.targetNode.Some?
    ensures Structured(env, path, source, p) == Write(text) <==> Edits(env, layout, path, source, p, text)
  {
    StructuredWritesIff(env, path, source, p);
    if env.parse(source).Some? {
      var root := env.parse(source).value;
      AttemptMakes(env, layout, root, source, p, text, None);
      AttemptMakes(env, layout, root, source, p, text, Some(p.code));
      if Attempt(env, root, source, p).Ok? {
        var (t, code) := Attempt(env, root, source, p).value;
        AttemptMakes(env, layout, root, source, p, t, code);
      }
    }
  }

  /** Main theorem: what one change writes. A substitution starts from the file's accumulated text
      unless that is empty; a structured patch is made at its symbol, or, with the symbol missing,
      behind the last line; anything else is refused or passed over. */
  lemma ExecutesIff(env: Env, layout: AstPatcher.Layout, files: Texts, c: Change, current: Option<string>, text: string)
    requires env.apply == Patcher(layout)
    ensures Execute(env, files, c, current) == Write(text) <==>
              Admissible(env, files, c)
              && var path, p := env.resolve(c.file), c.patch.value;
                 if p.action == "text_sub" then
                   Substitutes(env, path, if current in {None, Some("")} then files[path] else current.value, p, text)
                 else
                   env.suffix(path) in {".py", ".pyi"}
                   && Edits(env, layout, path, if current.None? then files[path] else current.value, p, text)
    ensures Execute(env, files, c, current).Skip? <==>
              c.patch.None?
              || (Admissible(env, files, c) && c.patch.value.action != "text_sub"
                  && env.suffix(env.resolve(c.file)) !in {".py", ".pyi"})
  {
    if c.patch.Some? {
      var path, p := env.resolve(c.file), c.patch.value;
      AdmittedIff(env, files, c);
      if Admissible(env, files, c) {
        if p.action == "text_sub" {
          SubstitutesIff(env, path, TextSubSource(files[path], current), p, text);
        } else {
          EditsIff(env, layout, path, StructuredSource(files[path], current), p, text);
        }
      }
    }
  }
}
