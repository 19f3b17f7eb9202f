/** Running a plan change by change over per-file texts. Both the dry run and the executor
    are such runs: each change reads and writes the accumulated text of its own file only. */
module PlanFold {
  import opened Prelude
  import opened Plan

  datatype Step<+E> = Skip | Fail(error: E) | Write(text: string)

  type Texts = map<string, string>

  /** The run: `route` names the file of a change, `step` edits its accumulated text. */
  function Fold<E>(route: string -> string, step: (Change, Option<string>) -> Step<E>, cs: seq<Change>, m: Texts)
      : Result<Texts, E> {
    if cs == [] then Ok(m)
    else if cs[0].file == "" then Fold(route, step, cs[1..], m)
    else
      match step(cs[0], Get(m, route(cs[0].file)))
      case Skip => Fold(route, step, cs[1..], m)
      case Fail(e) => Err(e)
      case Write(t) => Fold(route, step, cs[1..], m[route(cs[0].file) := t])
  }

  /** The changes to one path, on their own. */
  function FileFold<E>(step: (Change, Option<string>) -> Step<E>, cs: seq<Change>, current: Option<string>)
      : Result<Option<string>, E> {
    if cs == [] then Ok(current)
    else
      match step(cs[0], current)
      case Skip => FileFold(step, cs[1..], current)
      case Fail(e) => Err(e)
      case Write(t) => FileFold(step, cs[1..], Some(t))
  }

  function OnPath(route: string -> string, p: string): Change -> bool {
    (c: Change) => c.file != "" && route(c.file) == p
  }

  /** An accepted run leaves in each file the fold of that file's own changes. */
  lemma {:induction false} AcceptedIsFileFold<E>(route: string -> string, step: (Change, Option<string>) -> Step<E>,
                                                 cs: seq<Change>, m: Texts, p: string)
    requires Fold(route, step, cs, m).Ok?
    ensures FileFold(step, Filter(cs, OnPath(route, p)), Get(m, p)) == Ok(Get(Fold(route, step, cs, m).value, p))
    decreases |cs|
  {
    if cs != [] {
      var c, rest := cs[0], cs[1..];
      var mine := Filter(rest, OnPath(route, p));
      if c.file == "" {
        AcceptedIsFileFold(route, step, rest, m, p);
      } else {
        var q := route(c.file);
        var s := step(c, Get(m, q));
        AcceptedIsFileFold(route, step, rest, if s.Write? then m[q := s.text] else m, p);
        if q == p { assert ([c] + mine)[1..] == mine; }
      }
    }
  }

  /** A rejected run fails in the fold of some file's own changes. */
  lemma {:induction false} RejectedInFileFold<E>(route: string -> string, step: (Change, Option<string>) -> Step<E>,
                                                 cs: seq<Change>, m: Texts) returns (p: string)
    requires Fold(route, step, cs, m).Err?
    ensures FileFold(step, Filter(cs, OnPath(route, p)), Get(m, p)).Err?
    decreases |cs|
  {
    var c, rest := cs[0], cs[1..];
    if c.file == "" {
      p := RejectedInFileFold(route, step, rest, m);
    } else {
      var q := route(c.file);
      var s := step(c, Get(m, q));
      if s.Fail? {
        p := q;
      } else {
        p := RejectedInFileFold(route, step, rest, if s.Write? then m[q := s.text] else m);
      }
      var mine := Filter(rest, OnPath(route, p));
      if q == p { assert ([c] + mine)[1..] == mine; }
    }
  }

  /** Only the order within each file matters: plans with equal per-file change lists are
      accepted or rejected together, and accepted with the same texts. */
  lemma SameFileOrderSameRun<E>(route: string -> string, step: (Change, Option<string>) -> Step<E>,
                                a: seq<Change>, b: seq<Change>, m: Texts)
    requires forall p :: Filter(a, OnPath(route, p)) == Filter(b, OnPath(route, p))
    ensures Fold(route, step, a, m).Ok? <==> Fold(route, step, b, m).Ok?
    ensures Fold(route, step, a, m).Ok? ==> Fold(route, step, a, m).value == Fold(route, step, b, m).value
  {
    var ra, rb := Fold(route, step, a, m), Fold(route, step, b, m);
    if ra.Ok? && rb.Err? {
      var p := RejectedInFileFold(route, step, b, m);
      AcceptedIsFileFold(route, step, a, m, p);
    } else if ra.Err? && rb.Ok? {
      var p := RejectedInFileFold(route, step, a, m);
      AcceptedIsFileFold(route, step, b, m, p);
    } else if ra.Ok? {
      forall p ensures Get(ra.value, p) == Get(rb.value, p) {
        AcceptedIsFileFold(route, step, a, m, p);
        AcceptedIsFileFold(route, step, b, m, p);
      }
      SameTexts(ra.value, rb.value);
    }
  }

  lemma SameTexts(a: Texts, b: Texts)
    requires forall p :: Get(a, p) == Get(b, p)
    ensures a == b
  {
    forall p ensures p in a <==> p in b { assert Get(a, p) == Get(b, p); }
    forall p | p in a ensures a[p] == b[p] { assert Get(a, p) == Get(b, p); }
  }

  lemma {:induction false} FoldAppend<E>(route: string -> string, step: (Change, Option<string>) -> Step<E>,
                                         a: seq<Change>, b: seq<Change>, m: Texts)
    ensures Fold(route, step, a + b, m)
            == match Fold(route, step, a, m) case Err(e) => Err(e) case Ok(x) => Fold(route, step, b, x)
    decreases |a|
  {
    if a == [] {
      assert a + b == b;
    } else {
      assert (a + b)[1..] == a[1..] + b;
      if a[0].file == "" {
        FoldAppend(route, step, a[1..], b, m);
      } else {
        var s := step(a[0], Get(m, route(a[0].file)));
        FoldAppend(route, step, a[1..], b, if s.Write? then m[route(a[0].file) := s.text] else m);
      }
    }
  }

  /** Texts of files no change is routed to stay as they were. */
  lemma {:induction false} UntouchedKept<E>(route: string -> string, step: (Change, Option<string>) -> Step<E>,
                                            cs: seq<Change>, m: Texts, p: string)
    requires Fold(route, step, cs, m).Ok?
    requires forall c :: c in cs && c.file != "" ==> route(c.file) != p
    ensures Get(Fold(route, step, cs, m).value, p) == Get(m, p)
  {
    FilterNone(cs, OnPath(route, p));
    AcceptedIsFileFold(route, step, cs, m, p);
  }

  /** Both runs are refused, or both are accepted with the same texts. */
  predicate SameOutcome<E>(a: Result<Texts, E>, b: Result<Texts, E>) {
    (a.Ok? <==> b.Ok?) && (a.Ok? ==> a.value == b.value)
  }

  function Length(current: Option<string>): nat {
    if current.Some? then |current.value| else 0
  }

  /** The editing step that counts along each file and refuses to find `c` at position `k`. */
  function RefuseAt<E>(k: nat, c: Change, e: E): (Change, Option<string>) -> Step<E> {
    (x: Change, current: Option<string>) =>
      if Length(current) == k && x == c then Fail(e) else Write(seq(Length(current) + 1, _ => 'x'))
  }

  lemma {:induction false} RefusedIff<E>(route: string -> string, cs: seq<Change>, m: Texts,
                                         k: nat, c: Change, e: E, p: string)
    requires c.file != "" && route(c.file) == p
    ensures var own, n := Filter(cs, OnPath(route, p)), Length(Get(m, p));
            Fold(route, RefuseAt(k, c, e), cs, m).Err? <==> n <= k < n + |own| && own[k - n] == c
    decreases |cs|
  {
    if cs != [] {
      var x, rest, step := cs[0], cs[1..], RefuseAt(k, c, e);
      var mine := Filter(rest, OnPath(route, p));
      if x.file == "" {
        RefusedIff(route, rest, m, k, c, e, p);
      } else {
        var q := route(x.file);
        var s := step(x, Get(m, q));
        RefusedIff(route, rest, if s.Write? then m[q := s.text] else m, k, c, e, p);
        if q == p { assert ([x] + mine)[1..] == mine; }
      }
    }
  }

  /** Two lists that differ are told apart by some editing step. */
  lemma OrderShows<E>(route: string -> string, a: seq<Change>, b: seq<Change>, p: string, e: E)
    returns (step: (Change, Option<string>) -> Step<E>)
    requires Filter(a, OnPath(route, p)) != Filter(b, OnPath(route, p))
    ensures !SameOutcome(Fold(route, step, a, map[]), Fold(route, step, b, map[]))
  {
    var x, y := Filter(a, OnPath(route, p)), Filter(b, OnPath(route, p));
    FilterMembers(a, OnPath(route, p));
    FilterMembers(b, OnPath(route, p));
    var k := FirstDifference(x, y);
    var c := if k < |x| then x[k] else y[k];
    assert c in x || c in y;
    step := RefuseAt(k, c, e);
    RefusedIff(route, a, map[], k, c, e, p);
    RefusedIff(route, b, map[], k, c, e, p);
  }

  lemma {:induction false} FirstDifference(x: seq<Change>, y: seq<Change>) returns (k: nat)
    requires x != y
    ensures (k < |x| && k < |y| && x[k] != y[k]) || k == |x| < |y| || k == |y| < |x|
  {
    if x == [] || y == [] {
      k := 0;
    } else if x[0] == y[0] {
      assert x == [x[0]] + x[1..] && y == [y[0]] + y[1..];
      k := FirstDifference(x[1..], y[1..]);
      k := k + 1;
    } else {
      k := 0;
    }
  }

  /** Main theorem: the order within each file is all that a run depends on: two plans give
      the same outcome under every editing step if and only if each file's list is the same. */
  lemma SameRunsIff<E(!new)>(route: string -> string, a: seq<Change>, b: seq<Change>, e: E)
    ensures (forall step: (Change, Option<string>) -> Step<E>, m ::
               SameOutcome(Fold(route, step, a, m), Fold(route, step, b, m)))
            <==> forall p :: Filter(a, OnPath(route, p)) == Filter(b, OnPath(route, p))
  {
    if forall p :: Filter(a, OnPath(route, p)) == Filter(b, OnPath(route, p)) {
      forall step: (Change, Option<string>) -> Step<E>, m
        ensures SameOutcome(Fold(route, step, a, m), Fold(route, step, b, m)) {
        SameFileOrderSameRun(route, step, a, b, m);
      }
    } else {
      var p :| Filter(a, OnPath(route, p)) != Filter(b, OnPath(route, p));
      var step := OrderShows(route, a, b, p, e);
    }
  }
}
