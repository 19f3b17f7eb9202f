/** Running a plan by its sequential groups: as one run over the groups in order, and by one
    executor call per group. */
module Regrouping {
  import opened Prelude
  import opened Plan
  import opened PlanFold
  import opened Executor
  import opened DryRun
  import opened Conflicts
  import opened Grouping
  import opened GroupTheory
  import opened PatchTheory
  import opened Text

  // ------------------------------------------------------------ one run over the groups in order

  function Flat(cs: seq<Change>, conflicts: seq<Conflict>): seq<Change> {
    Flatten(Groups(cs, GroupNumbers(cs, conflicts)))
  }

  /** Group numbers never fall along the changes to one path. */
  ghost predicate PathsOrdered(route: string -> string, cs: seq<Change>, group: seq<nat>)
    requires |group| == |cs|
  {
    forall i, j :: 0 <= i < j < |cs| && cs[i].file != "" && cs[j].file != "" && route(cs[i].file) == route(cs[j].file)
                   ==> group[i] <= group[j]
  }

  /** Distinct file strings of the plan name distinct files. */
  ghost predicate NamesDistinct(route: string -> string, cs: seq<Change>) {
    forall a, b :: a in cs && b in cs && a.file != "" && b.file != "" && route(a.file) == route(b.file) ==>
                     a.file == b.file
  }

  lemma DistinctNamesOrdered(route: string -> string, cs: seq<Change>, conflicts: seq<Conflict>)
    requires Complete(cs, conflicts) && NamesDistinct(route, cs)
    ensures PathsOrdered(route, cs, GroupNumbers(cs, conflicts))
  {
    var group := GroupNumbers(cs, conflicts);
    GroupsFollowLanes(cs, conflicts);
    forall i, j | 0 <= i < j < |cs| && cs[i].file != "" && cs[j].file != "" && route(cs[i].file) == route(cs[j].file)
      ensures group[i] <= group[j]
    {
      assert cs[i] in cs && cs[j] in cs;
      assert LaneOf(cs[i]) == LaneOf(cs[j]);
    }
  }

  /** Main theorem: the grouped plan meets the changes of every path in their original order
      if and only if the group numbers never fall along a path. */
  lemma PathOrderIff(route: string -> string, cs: seq<Change>, conflicts: seq<Conflict>)
    requires Complete(cs, conflicts)
    ensures (forall p :: Filter(Flat(cs, conflicts), OnPath(route, p)) == Filter(cs, OnPath(route, p)))
            <==> PathsOrdered(route, cs, GroupNumbers(cs, conflicts))
  {
    var group := GroupNumbers(cs, conflicts);
    GroupsFollowLanes(cs, conflicts);
    forall p
      ensures Filter(Flat(cs, conflicts), OnPath(route, p)) == Filter(cs, OnPath(route, p))
              <==> Monotone(cs, group, OnPath(route, p)) {
      assert LaneWise(OnPath(route, p));
      OrderKeptIff(cs, group, OnPath(route, p));
    }
    MonotoneOnPaths(route, cs, group);
  }

  lemma MonotoneOnPaths(route: string -> string, cs: seq<Change>, group: seq<nat>)
    requires |group| == |cs|
    ensures (forall p :: Monotone(cs, group, OnPath(route, p))) <==> PathsOrdered(route, cs, group)
  {
    if forall p :: Monotone(cs, group, OnPath(route, p)) {
      forall i, j | 0 <= i < j < |cs| && cs[i].file != "" && cs[j].file != "" && route(cs[i].file) == route(cs[j].file)
        ensures group[i] <= group[j]
      {
        assert Monotone(cs, group, OnPath(route, route(cs[i].file)));
      }
    }
  }

  /** Main theorem: regrouping is invisible to every editing step if and only if the group
      numbers never fall along a path. */
  lemma RegroupedRunIff<E(!new)>(route: string -> string, cs: seq<Change>, conflicts: seq<Conflict>, e: E)
    requires Complete(cs, conflicts)
    ensures (forall step: (Change, Option<string>) -> Step<E>, m ::
               SameOutcome(Fold(route, step, Flat(cs, conflicts), m), Fold(route, step, cs, m)))
            <==> PathsOrdered(route, cs, GroupNumbers(cs, conflicts))
  {
    SameRunsIff(route, Flat(cs, conflicts), cs, e);
    PathOrderIff(route, cs, conflicts);
  }

  lemma SafeguardOrderFree(a: seq<Change>, b: seq<Change>)
    requires multiset(a) == multiset(b)
    ensures Safeguard(a).None? <==> Safeguard(b).None?
  {
    forall x ensures x in a <==> x in b { assert x in multiset(a) <==> x in multiset(b); }
    assert FilesOf(a) == FilesOf(b);
    FirstGuardNone(a);
    FirstGuardNone(b);
  }

  /** ... in particular to the executor, run once over the concatenated groups ... */
  lemma RegroupedExecution(env: Env, files: Texts, cs: seq<Change>, conflicts: seq<Conflict>)
    requires Complete(cs, conflicts) && PathsOrdered(env.resolve, cs, GroupNumbers(cs, conflicts))
    ensures var flat := Flat(cs, conflicts);
            && (Outcome(env, files, flat).Ok? <==> Outcome(env, files, cs).Ok?)
            && (Outcome(env, files, cs).Ok? ==> Outcome(env, files, flat).value == Outcome(env, files, cs).value)
  {
    var flat := Flat(cs, conflicts);
    GroupsPreservePlan(cs, conflicts, Loose);
    assert |flat| == |multiset(flat)| == |multiset(cs)| == |cs|;
    SafeguardOrderFree(flat, cs);
    PathOrderIff(env.resolve, cs, conflicts);
    SameFileOrderSameRun(env.resolve, ExecStep(env, files), flat, cs, map[]);
  }

  /** ... and to the dry run over them. */
  lemma RegroupedValidation(env: Env, snapshot: Texts, files: Texts, cs: seq<Change>, conflicts: seq<Conflict>)
    requires Complete(cs, conflicts) && PathsOrdered(env.resolve, cs, GroupNumbers(cs, conflicts))
    ensures var flat := Flat(cs, conflicts);
            && (Validate(env, snapshot, files, flat).Ok? <==> Validate(env, snapshot, files, cs).Ok?)
            && (Validate(env, snapshot, files, cs).Ok? ==>
                  Validate(env, snapshot, files, flat).value == Validate(env, snapshot, files, cs).value)
  {
    PathOrderIff(env.resolve, cs, conflicts);
    SameFileOrderSameRun(env.resolve, DryStep(env, snapshot, files), Flat(cs, conflicts), cs, map[]);
  }

  // ------------------------------------------------------------ one call per group

  /** The files after the calls so far, and the failure of the call that stopped them. */
  datatype GroupsRun = GroupsRun(files: Texts, failure: Option<Failure>)

  /** One executor call per group, each reading the files the earlier ones wrote. */
  function RunGroups(env: Env, files: Texts, groups: seq<seq<Change>>): GroupsRun
    decreases |groups|
  {
    if groups == [] then GroupsRun(files, None)
    else
      match Outcome(env, files, groups[0])
      case Err(e) => GroupsRun(files, Some(e))
      case Ok(texts) => RunGroups(env, files + texts, groups[1..])
  }

  /** No two changes of a group go to one path. */
  ghost predicate PathsApart(route: string -> string, g: seq<Change>) {
    forall i, j :: 0 <= i < j < |g| && g[i].file != "" && g[j].file != "" ==> route(g[i].file) != route(g[j].file)
  }

  ghost predicate AllApart(route: string -> string, groups: seq<seq<Change>>) {
    forall g :: g in groups ==> PathsApart(route, g)
  }

  /** The resolver's groups are such, where distinct names are distinct files. */
  lemma ResolvedGroupsApart(route: string -> string, cs: seq<Change>, conflicts: seq<Conflict>)
    requires Complete(cs, conflicts) && NamesDistinct(route, cs)
    ensures AllApart(route, Groups(cs, GroupNumbers(cs, conflicts)))
  {
    forall g | g in Groups(cs, GroupNumbers(cs, conflicts)) ensures PathsApart(route, g) {
      GroupSeparated(cs, conflicts, g);
      forall x | x in g ensures x in cs { GroupMembers(cs, GroupNumbers(cs, conflicts), g, x); }
      SeparatedApart(route, cs, g);
    }
  }

  lemma SeparatedApart(route: string -> string, cs: seq<Change>, g: seq<Change>)
    requires NamesDistinct(route, cs) && Separated(g) && forall x :: x in g ==> x in cs
    ensures PathsApart(route, g)
  {
    forall i, j | 0 <= i < j < |g| && g[i].file != "" && g[j].file != "" ensures route(g[i].file) != route(g[j].file) {
      assert g[i] in cs && g[j] in cs;
      assert LaneOf(g[i]) != LaneOf(g[j]);
    }
  }

  /** No call starts a substitution from a text that an earlier change of its own group emptied. */
  predicate NoCallRestarts(env: Env, files: Texts, groups: seq<seq<Change>>)
    decreases |groups|
  {
    if groups == [] then true
    else
      && NeverFromEmpty(env, files, groups[0], map[])
      && (Outcome(env, files, groups[0]).Ok? ==>
            NoCallRestarts(env, files + Outcome(env, files, groups[0]).value, groups[1..]))
  }

  lemma {:induction false} ApartNeverFromEmpty(env: Env, files: Texts, g: seq<Change>, x: Texts)
    requires PathsApart(env.resolve, g) && forall c :: c in g && c.file != "" ==> env.resolve(c.file) !in x
    ensures NeverFromEmpty(env, files, g, x)
    decreases |g|
  {
    if g != [] {
      assert PathsApart(env.resolve, g[1..]) by { assert forall i :: 0 <= i < |g[1..]| ==> g[1..][i] == g[i + 1]; }
      if g[0].file == "" {
        ApartNeverFromEmpty(env, files, g[1..], x);
      } else {
        assert g[0] in g;
        var s := Execute(env, files, g[0], None);
        FreshRest(env, g, x, if s.Write? then s.text else "");
        ApartNeverFromEmpty(env, files, g[1..], if s.Write? then x[env.resolve(g[0].file) := s.text] else x);
      }
    }
  }

  lemma FreshRest(env: Env, g: seq<Change>, x: Texts, text: string)
    requires g != [] && g[0].file != "" && PathsApart(env.resolve, g)
    requires forall c :: c in g && c.file != "" ==> env.resolve(c.file) !in x
    ensures forall c :: c in g[1..] && c.file != "" ==> env.resolve(c.file) !in x[env.resolve(g[0].file) := text]
  {
    forall c | c in g[1..] && c.file != "" ensures c in g && env.resolve(c.file) != env.resolve(g[0].file) {
      var j :| 0 <= j < |g[1..]| && g[1..][j] == c;
      assert g[j + 1] == c;
    }
  }

  /** Where no group holds two changes to one path, no call restarts. */
  lemma {:induction false} ApartGroupsNeverRestart(env: Env, files: Texts, groups: seq<seq<Change>>)
    requires AllApart(env.resolve, groups)
    ensures NoCallRestarts(env, files, groups)
    decreases |groups|
  {
    if groups != [] {
      ApartNeverFromEmpty(env, files, groups[0], map[]);
      var call := Outcome(env, files, groups[0]);
      ApartGroupsNeverRestart(env, if call.Ok? then files + call.value else files, groups[1..]);
    }
  }

  /** A plain step on rewritten files is the plain step on the accumulated texts. */
  lemma FreshStep(env: Env, files: Texts, now: Texts, m: Texts, x: Texts, c: Change, p: string)
    requires m.Keys <= files.Keys && now == files + m && p == env.resolve(c.file)
    ensures PlainExecute(env, now, c, Get(x, p)) == PlainExecute(env, files, c, Get(m + x, p))
  {}

  lemma {:induction false} FreshGroup(env: Env, files: Texts, now: Texts, m: Texts, g: seq<Change>, x: Texts, mx: Texts)
    requires m.Keys <= files.Keys && now == files + m && mx == m + x
    ensures Fold(env.resolve, PlainStep(env, files), g, mx)
            == match Fold(env.resolve, PlainStep(env, now), g, x) case Err(e) => Err(e) case Ok(y) => Ok(m + y)
    decreases |g|
  {
    if g != [] {
      var c, p := g[0], env.resolve(g[0].file);
      if c.file == "" {
        FreshGroup(env, files, now, m, g[1..], x, mx);
      } else {
        var s := PlainStep(env, now)(c, Get(x, p));
        FreshStep(env, files, now, m, x, c, p);
        assert PlainStep(env, files)(c, Get(mx, p)) == s;
        if s.Write? {
          assert mx[p := s.text] == m + x[p := s.text];
          FreshGroup(env, files, now, m, g[1..], x[p := s.text], mx[p := s.text]);
        } else {
          FreshGroup(env, files, now, m, g[1..], x, mx);
        }
      }
    }
  }

  lemma {:induction false} PlainNeverFromEmpty(env: Env, files: Texts, cs: seq<Change>, m: Texts)
    requires Fold(env.resolve, PlainStep(env, files), cs, m).Ok?
    ensures NeverFromEmpty(env, files, cs, m)
  {
    PlainRunExecutes(env, files, cs, m);
    PlainFoldIff(env, files, cs, m);
  }

  lemma FreshCall(env: Env, files: Texts, now: Texts, m: Texts, g: seq<Change>)
    requires m.Keys <= files.Keys && now == files + m
    ensures var call, plain := Outcome(env, now, g), Fold(env.resolve, PlainStep(env, files), g, m);
            && (call.Ok? && NeverFromEmpty(env, now, g, map[]) <==> Safeguard(g).None? && plain.Ok?)
            && (call.Ok? && NeverFromEmpty(env, now, g, map[]) ==> plain.value == m + call.value)
            && (call.Ok? ==> call.value.Keys <= files.Keys)
  {
    assert m + map[] == m;
    FreshGroup(env, files, now, m, g, map[], m);
    var call := Outcome(env, now, g);
    if call.Ok? {
      WholeSafeguarded(env, now, g);
      PlainFoldIff(env, now, g, map[]);
      forall p | p in call.value ensures p in files { if g != [] { ModifiedWasAdmitted(env, now, g, map[], p); } }
    }
    if Fold(env.resolve, PlainStep(env, now), g, map[]).Ok? {
      PlainRunExecutes(env, now, g, map[]);
      PlainNeverFromEmpty(env, now, g, map[]);
    }
  }

  /** Main theorem: calls on the single groups succeed, none of them restarting, exactly if every
      group keeps the limits and the plain fold of all patches succeeds; and then they leave that
      fold. */
  lemma {:induction false} SeparateCalls(env: Env, files: Texts, now: Texts, groups: seq<seq<Change>>, m: Texts)
    requires m.Keys <= files.Keys && now == files + m
    ensures var run, plain := RunGroups(env, now, groups), Fold(env.resolve, PlainStep(env, files), Flatten(groups), m);
            && (run.failure.None? && NoCallRestarts(env, now, groups) <==>
                  (forall g :: g in groups ==> Safeguard(g).None?) && plain.Ok?)
            && (run.failure.None? && NoCallRestarts(env, now, groups) ==> run.files == files + plain.value)
    decreases |groups|
  {
    if groups != [] {
      var g, rest := groups[0], groups[1..];
      assert forall x :: x in groups <==> x == g || x in rest;
      FoldAppend(env.resolve, PlainStep(env, files), g, Flatten(rest), m);
      FreshCall(env, files, now, m, g);
      var call := Outcome(env, now, g);
      if call.Ok? {
        assert now + call.value == files + (m + call.value);
        SeparateCalls(env, files, now + call.value, rest, m + call.value);
      }
    }
  }

  /** A failing call leaves the files of the groups before it written. */
  lemma {:induction false} FailingCallKeepsEarlier(env: Env, files: Texts, groups: seq<seq<Change>>) returns (k: nat)
    requires RunGroups(env, files, groups).failure.Some?
    ensures k < |groups| && RunGroups(env, files, groups[..k]) == GroupsRun(RunGroups(env, files, groups).files, None)
    ensures Outcome(env, RunGroups(env, files, groups).files, groups[k]).Err?
    decreases |groups|
  {
    if Outcome(env, files, groups[0]).Err? {
      k := 0;
    } else {
      var next := files + Outcome(env, files, groups[0]).value;
      k := FailingCallKeepsEarlier(env, next, groups[1..]);
      assert groups[..k + 1][0] == groups[0] && groups[..k + 1][1..] == groups[1..][..k];
      k := k + 1;
    }
  }

  lemma {:induction false} PlainRunExecutes(env: Env, files: Texts, cs: seq<Change>, m: Texts)
    requires Fold(env.resolve, PlainStep(env, files), cs, m).Ok?
    ensures Fold(env.resolve, ExecStep(env, files), cs, m) == Fold(env.resolve, PlainStep(env, files), cs, m)
    decreases |cs|
  {
    if cs != [] {
      var c, p := cs[0], env.resolve(cs[0].file);
      if c.file == "" {
        PlainRunExecutes(env, files, cs[1..], m);
      } else {
        PlainStepExecutes(env, files, c, Get(m, p));
        var s := PlainExecute(env, files, c, Get(m, p));
        PlainRunExecutes(env, files, cs[1..], if s.Write? then m[p := s.text] else m);
      }
    }
  }

  lemma PlainStepExecutes(env: Env, files: Texts, c: Change, current: Option<string>)
    requires !PlainExecute(env, files, c, current).Fail?
    ensures Execute(env, files, c, current) == PlainExecute(env, files, c, current)
  {
    if c.patch.Some? && FromEmpty(env, c, current) && !Blank(c.patch.value.oldText) {
      NothingInEmpty(c.patch.value.oldText);
    }
  }

  lemma GroupsSafeguarded(groups: seq<seq<Change>>, g: seq<Change>)
    requires g in groups && Safeguard(Flatten(groups)).None?
    ensures Safeguard(g).None?
  {
    var flat := Flatten(groups);
    FirstGuardNone(flat);
    FirstGuardNone(g);
    forall c | c in g ensures c in flat { InFlatten(groups, c); }
    SubsetSize(FilesOf(g), FilesOf(flat));
  }

  /** One call on all groups together and one call per group. An accepted plan also
      runs group by group, no call restarting, exactly if no substitution of the single run
      starts from an emptied text, and then to the same files; a plan that so runs group by group
      is accepted as a whole exactly if it keeps the limits as a whole. */
  lemma SeparateCallsIff(env: Env, files: Texts, groups: seq<seq<Change>>)
    ensures var run, whole := RunGroups(env, files, groups), Outcome(env, files, Flatten(groups));
            var runs := run.failure.None? && NoCallRestarts(env, files, groups);
            && (whole.Ok? ==> (runs <==> NeverFromEmpty(env, files, Flatten(groups), map[])))
            && (runs ==> (whole.Ok? <==> Safeguard(Flatten(groups)).None?))
            && (whole.Ok? && runs ==> run.files == files + whole.value)
  {
    var flat := Flatten(groups);
    assert files + map[] == files;
    SeparateCalls(env, files, files, groups, map[]);
    if Outcome(env, files, flat).Ok? {
      WholeSafeguarded(env, files, flat);
      forall g | g in groups ensures Safeguard(g).None? { GroupsSafeguarded(groups, g); }
      PlainFoldIff(env, files, flat, map[]);
    }
    if Fold(env.resolve, PlainStep(env, files), flat, map[]).Ok? { PlainRunExecutes(env, files, flat, map[]); }
  }

  lemma RegroupedNeverFromEmpty(env: Env, files: Texts, cs: seq<Change>, conflicts: seq<Conflict>)
    requires Complete(cs, conflicts) && PathsOrdered(env.resolve, cs, GroupNumbers(cs, conflicts))
    requires Outcome(env, files, cs).Ok?
    ensures Outcome(env, files, Flat(cs, conflicts)).Ok?
    ensures NeverFromEmpty(env, files, Flat(cs, conflicts), map[]) <==> NeverFromEmpty(env, files, cs, map[])
  {
    var flat := Flat(cs, conflicts);
    RegroupedExecution(env, files, cs, conflicts);
    WholeSafeguarded(env, files, cs);
    WholeSafeguarded(env, files, flat);
    PathOrderIff(env.resolve, cs, conflicts);
    SameFileOrderSameRun(env.resolve, PlainStep(env, files), flat, cs, map[]);
    PlainFoldIff(env, files, cs, map[]);
    PlainFoldIff(env, files, flat, map[]);
  }

  lemma FlatSafeguarded(cs: seq<Change>, conflicts: seq<Conflict>)
    requires Complete(cs, conflicts)
    ensures Safeguard(Flat(cs, conflicts)).None? <==> Safeguard(cs).None?
  {
    GroupsPreservePlan(cs, conflicts, Loose);
    SafeguardOrderFree(Flat(cs, conflicts), cs);
  }

  /** Main theorem: the plan as listed and the resolver's groups, one call each. An accepted plan
      also runs group by group exactly if no substitution of it starts from an emptied text, and
      then to the same files; a plan that runs group by group is accepted as listed exactly if it
      keeps the limits as a whole. */
  lemma GroupCallsIff(env: Env, files: Texts, cs: seq<Change>, conflicts: seq<Conflict>)
    requires Complete(cs, conflicts) && NamesDistinct(env.resolve, cs)
    ensures var run, whole := RunGroups(env, files, Groups(cs, GroupNumbers(cs, conflicts))), Outcome(env, files, cs);
            && (whole.Ok? ==> (run.failure.None? <==> NeverFromEmpty(env, files, cs, map[])))
            && (run.failure.None? ==> (whole.Ok? <==> Safeguard(cs).None?))
            && (whole.Ok? && run.failure.None? ==> run.files == files + whole.value)
  {
    var groups := Groups(cs, GroupNumbers(cs, conflicts));
    DistinctNamesOrdered(env.resolve, cs, conflicts);
    ResolvedGroupsApart(env.resolve, cs, conflicts);
    ApartGroupsNeverRestart(env, files, groups);
    SeparateCallsIff(env, files, groups);
    RegroupedExecution(env, files, cs, conflicts);
    FlatSafeguarded(cs, conflicts);
    if Outcome(env, files, cs).Ok? { RegroupedNeverFromEmpty(env, files, cs, conflicts); }
  }

  lemma WholeSafeguarded(env: Env, files: Texts, cs: seq<Change>)
    requires Outcome(env, files, cs).Ok?
    ensures Safeguard(cs).None? && Outcome(env, files, cs) == Fold(env.resolve, ExecStep(env, files), cs, map[])
  {
    if cs == [] { assert FilesOf(cs) == {}; }
  }
}
