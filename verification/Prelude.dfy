/** Shared vocabulary: optional values and order-preserving selection. */
module Prelude {
  datatype Option<+T> = None | Some(value: T)

  datatype Result<+T, +E> = Ok(value: T) | Err(error: E)

  function Get<K, V>(m: map<K, V>, k: K): Option<V> {
    if k in m then Some(m[k]) else None
  }

  /** The elements satisfying `p`, in their original order. */
  function Filter<T(!new)>(s: seq<T>, p: T -> bool): seq<T> {
    if s == [] then [] else if p(s[0]) then [s[0]] + Filter(s[1..], p) else Filter(s[1..], p)
  }

  lemma {:induction false} FilterMembers<T(!new)>(s: seq<T>, p: T -> bool)
    ensures forall x :: x in Filter(s, p) <==> x in s && p(x)
  {
    if s != [] {
      assert forall x :: x in s <==> x == s[0] || x in s[1..];
      FilterMembers(s[1..], p);
    }
  }

  lemma {:induction false} FilterAppend<T(!new)>(a: seq<T>, b: seq<T>, p: T -> bool)
    ensures Filter(a + b, p) == Filter(a, p) + Filter(b, p)
  {
    if a == [] {
      assert a + b == b;
    } else {
      var ab := a + b;
      assert ab[0] == a[0] && ab[1..] == a[1..] + b;
      FilterAppend(a[1..], b, p);
    }
  }

  lemma {:induction false} FilterAll<T(!new)>(s: seq<T>, p: T -> bool)
    requires forall x :: x in s ==> p(x)
    ensures Filter(s, p) == s
  {
    if s != [] { FilterAll(s[1..], p); }
  }

  lemma {:induction false} FilterNone<T(!new)>(s: seq<T>, p: T -> bool)
    requires forall x :: x in s ==> !p(x)
    ensures Filter(s, p) == []
  {
    if s != [] { FilterNone(s[1..], p); }
  }

  /** Selecting again after adding only rejected elements changes nothing. */
  lemma FilterAgain<T(!new)>(s: seq<T>, extra: seq<T>, p: T -> bool)
    requires forall x :: x in extra ==> !p(x)
    ensures Filter(Filter(s, p) + extra, p) == Filter(s, p)
  {
    FilterMembers(s, p);
    FilterAppend(Filter(s, p), extra, p);
    FilterAll(Filter(s, p), p);
    FilterNone(extra, p);
  }

  lemma {:induction false} FilterNested<T(!new)>(s: seq<T>, p: T -> bool, q: T -> bool)
    requires forall x :: q(x) ==> p(x)
    ensures Filter(Filter(s, p), q) == Filter(s, q)
  {
    if s != [] {
      FilterNested(s[1..], p, q);
      if p(s[0]) { assert ([s[0]] + Filter(s[1..], p))[1..] == Filter(s[1..], p); }
    }
  }

  lemma FilterPrefix<T(!new)>(a: seq<T>, b: seq<T>, p: T -> bool)
    requires a <= b
    ensures |Filter(a, p)| <= |Filter(b, p)|
  {
    FilterAppend(a, b[|a|..], p);
    assert b == a + b[|a|..];
  }

  lemma {:induction false} FilterAgrees<T(!new)>(s: seq<T>, p: T -> bool, q: T -> bool)
    requires forall x :: x in s ==> p(x) == q(x)
    ensures Filter(s, p) == Filter(s, q)
  {
    if s != [] { FilterAgrees(s[1..], p, q); }
  }

  function Map<T, U>(s: seq<T>, f: T -> U): (r: seq<U>)
    ensures |r| == |s| && forall i :: 0 <= i < |s| ==> r[i] == f(s[i])
  {
    seq(|s|, i requires 0 <= i < |s| => f(s[i]))
  }

  lemma MapAppend<T, U>(a: seq<T>, b: seq<T>, f: T -> U)
    ensures Map(a + b, f) == Map(a, f) + Map(b, f)
  {}

  lemma WithoutOne<T>(x: T, rest: seq<T>, low: seq<T>, high: seq<T>)
    requires multiset([x] + rest) == multiset(low + ([x] + high))
    ensures multiset(rest) == multiset(low + high)
  {
    assert multiset([x] + rest) == multiset{x} + multiset(rest);
    assert multiset(low + ([x] + high)) == multiset{x} + multiset(low + high);
    assert multiset(rest) == multiset([x] + rest) - multiset{x};
    assert multiset(low + high) == multiset(low + ([x] + high)) - multiset{x};
  }

  lemma MapAround<T, U>(x: T, low: seq<T>, high: seq<T>, f: T -> U)
    ensures multiset(Map(low + ([x] + high), f)) == multiset{f(x)} + multiset(Map(low + high, f))
  {
    MapAppend(low, high, f);
    MapAppend(low, [x] + high, f);
    MapAppend([x], high, f);
    assert Map([x], f) == [f(x)];
  }

  lemma MapFront<T, U>(x: T, rest: seq<T>, f: T -> U)
    ensures multiset(Map([x] + rest, f)) == multiset{f(x)} + multiset(Map(rest, f))
  {
    MapAppend([x], rest, f);
    assert Map([x], f) == [f(x)];
  }

  lemma SplitAt<T>(s: seq<T>, x: T) returns (low: seq<T>, high: seq<T>)
    requires x in s
    ensures s == low + ([x] + high)
  {
    var i :| 0 <= i < |s| && s[i] == x;
    low, high := s[..i], s[i + 1..];
  }

  /** Rearranging a list rearranges its image. */
  lemma {:induction false} MapPermutes<T, U>(a: seq<T>, b: seq<T>, f: T -> U)
    requires multiset(a) == multiset(b)
    ensures multiset(Map(a, f)) == multiset(Map(b, f))
    decreases |a|
  {
    if a == [] {
      assert |multiset(b)| == 0;
    } else {
      var x, rest := a[0], a[1..];
      assert a == [x] + rest;
      assert x in multiset(b) by { assert x in multiset(a); }
      var low, high := SplitAt(b, x);
      WithoutOne(x, rest, low, high);
      MapPermutes(rest, low + high, f);
      MapFront(x, rest, f);
      MapAround(x, low, high, f);
    }
  }

  function Not<T>(p: T -> bool): T -> bool {
    (x: T) => !p(x)
  }

  lemma {:induction false} FilterSplits<T(!new)>(s: seq<T>, p: T -> bool)
    ensures multiset(s) == multiset(Filter(s, p) + Filter(s, Not(p)))
  {
    if s != [] {
      assert s == [s[0]] + s[1..];
      FilterSplits(s[1..], p);
    }
  }

  lemma Associative<T>(a: seq<T>, b: seq<T>, c: seq<T>)
    ensures a + (b + c) == (a + b) + c
  {}

  ghost predicate Distinct<T>(s: seq<T>) {
    forall i, j :: 0 <= i < j < |s| ==> s[i] != s[j]
  }

  /** `a` occurs in `xs` before `b` does. */
  ghost predicate SeenBefore<T>(xs: seq<T>, a: T, b: T) {
    exists k :: 0 <= k < |xs| && xs[k] == a && b !in xs[..k + 1]
  }

  /** `r` lists what occurs in `xs`, once each, in the order of first occurrence. */
  ghost predicate FirstSeen<T(!new)>(xs: seq<T>, r: seq<T>) {
    && (forall x :: x in r <==> x in xs)
    && Distinct(r)
    && (forall i, j :: 0 <= i < j < |r| ==> SeenBefore(xs, r[i], r[j]))
  }

  /** `if x not in r: r.append(x)` */
  function AppendOnce<T(==)>(r: seq<T>, x: T): seq<T> {
    if x in r then r else r + [x]
  }

  lemma SeenBeforeMore<T>(xs: seq<T>, x: T, a: T, b: T)
    requires SeenBefore(xs, a, b)
    ensures SeenBefore(xs + [x], a, b)
  {
    var k :| 0 <= k < |xs| && xs[k] == a && b !in xs[..k + 1];
    assert (xs + [x])[k] == a && (xs + [x])[..k + 1] == xs[..k + 1];
  }

  lemma SeenBeforeNew<T>(xs: seq<T>, x: T, a: T)
    requires a in xs && x !in xs
    ensures SeenBefore(xs + [x], a, x)
  {
    var k :| 0 <= k < |xs| && xs[k] == a;
    assert (xs + [x])[k] == a && (xs + [x])[..k + 1] == xs[..k + 1];
  }

  lemma FirstSeenStep<T(!new)>(xs: seq<T>, r: seq<T>, x: T)
    requires FirstSeen(xs, r)
    ensures FirstSeen(xs + [x], AppendOnce(r, x))
  {
    var next := AppendOnce(r, x);
    forall i, j | 0 <= i < j < |next| ensures SeenBefore(xs + [x], next[i], next[j]) {
      if j < |r| { SeenBeforeMore(xs, x, r[i], r[j]); } else { assert r[i] in r; SeenBeforeNew(xs, x, r[i]); }
    }
    forall y ensures y in next <==> y in xs + [x] { assert y in xs + [x] <==> y in xs || y == x; }
  }

  function Flatten<T>(groups: seq<seq<T>>): seq<T> {
    if groups == [] then [] else groups[0] + Flatten(groups[1..])
  }

  function Max(a: int, b: int): int { if a < b then b else a }

  function Min(a: int, b: int): int { if a < b then a else b }
}
