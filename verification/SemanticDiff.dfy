/** Detection of changes that target overlapping regions of one file (editing/semantic_diff.py). */
module SemanticDiff {

  predicate SymbolsOverlap(a: string, b: string) {
    a != "" && b != "" && (a == b || b + "." <= a || a + "." <= b)
  }

  /** Splits a dotted name at its dots. */
  function Segments(s: string): (r: seq<string>)
    ensures |r| >= 1
  {
    if s == "" then [""]
    else if s[0] == '.' then [""] + Segments(s[1..])
    else var rest := Segments(s[1..]); [[s[0]] + rest[0]] + rest[1..]
  }

  lemma {:induction false} SegmentsAppend(a: string, rest: string)
    ensures Segments(a + "." + rest) == Segments(a) + Segments(rest)
    decreases |a|
  {
    var s := a + "." + rest;
    if a == "" {
      assert s[1..] == rest;
    } else {
      assert s[1..] == a[1..] + "." + rest;
      SegmentsAppend(a[1..], rest);
    }
  }

  lemma {:induction false} SegmentsPrefix(a: string, b: string)
    requires Segments(a) <= Segments(b) && a != b
    ensures a + "." <= b
    decreases |a|
  {
    if a == "" {
      assert Segments(b)[0] == "";
      assert b[0] == '.';
    } else {
      var p, q := Segments(a), Segments(b);
      assert p[0] == q[0];
      if a[0] == '.' {
        assert b != "" && b[0] == '.' by { assert q[0] == "" && |q| >= 2; }
        assert p[1..] <= q[1..];
      } else {
        assert p[0][0] == a[0] && q[0][0] == a[0];
        assert b != "" && b[0] == a[0];
        var ra, rb := Segments(a[1..]), Segments(b[1..]);
        assert ra[0] == p[0][1..] == q[0][1..] == rb[0];
        assert ra == [ra[0]] + p[1..] && rb == [rb[0]] + q[1..];
      }
      assert a == [a[0]] + a[1..] && b == [b[0]] + b[1..];
      SegmentsPrefix(a[1..], b[1..]);
    }
  }

  lemma NestedSegments(outer: string, inner: string)
    requires outer + "." <= inner
    ensures Segments(outer) <= Segments(inner)
  {
    var rest := inner[|outer| + 1..];
    assert inner == outer + "." + rest;
    SegmentsAppend(outer, rest);
  }

  /** The string test decides nesting of scopes: two non-empty names overlap exactly when
      the dotted segments of one begin with those of the other. */
  lemma OverlapIsNesting(a: string, b: string)
    requires a != "" && b != ""
    ensures SymbolsOverlap(a, b) <==> Segments(a) <= Segments(b) || Segments(b) <= Segments(a)
  {
    if b + "." <= a { NestedSegments(b, a); }
    if a + "." <= b { NestedSegments(a, b); }
    if Segments(a) <= Segments(b) && a != b { SegmentsPrefix(a, b); }
    if Segments(b) <= Segments(a) && a != b { SegmentsPrefix(b, a); }
  }
}
