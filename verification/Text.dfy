/** The string operations the editing code relies on. */
module Text {
  import opened Prelude

  /** ASCII whitespace, as `str.strip` removes it. */
  predicate IsSpace(c: char) {
    c == ' ' || c == '\t' || c == '\n' || c == '\r' || c == '\U{0B}' || c == '\U{0C}'
  }

  /** `not s.strip()` */
  predicate Blank(s: string) {
    forall i :: 0 <= i < |s| ==> IsSpace(s[i])
  }

  predicate At(s: string, sub: string, i: nat) {
    i + |sub| <= |s| && s[i..i + |sub|] == sub
  }

  /** `sub in s` */
  predicate Contains(s: string, sub: string) {
    exists i: nat :: i <= |s| && At(s, sub, i)
  }

  /** The first position at or after `from` where `sub` occurs. */
  function Find(s: string, sub: string, from: nat): (r: Option<nat>)
    requires from <= |s|
    ensures r.Some? ==> from <= r.value && At(s, sub, r.value)
    ensures forall i: nat :: from <= i <= |s| && At(s, sub, i) ==> r.Some? && r.value <= i
    decreases |s| - from
  {
    if At(s, sub, from) then Some(from)
    else if from == |s| then None
    else Find(s, sub, from + 1)
  }

  /** `s.replace(old, new, 1)` */
  function ReplaceFirst(s: string, old_: string, new_: string): string {
    match Find(s, old_, 0)
    case None => s
    case Some(i) => s[..i] + new_ + s[i + |old_|..]
  }

  /** `r` is `s` with the leftmost occurrence of `old_` replaced. */
  ghost predicate ReplacesFirst(s: string, old_: string, new_: string, r: string) {
    exists i: nat :: At(s, old_, i) && (forall j: nat :: j < i ==> !At(s, old_, j))
                     && r == s[..i] + new_ + s[i + |old_|..]
  }

  lemma ReplaceFirstIs(s: string, old_: string, new_: string, r: string)
    ensures ReplacesFirst(s, old_, new_, r) <==> Contains(s, old_) && r == ReplaceFirst(s, old_, new_)
  {}

  /** Replacing a first occurrence by something else always changes the text. */
  lemma ReplaceChanges(s: string, old_: string, new_: string)
    requires Contains(s, old_) && old_ != new_
    ensures ReplaceFirst(s, old_, new_) != s
  {
    var i := Find(s, old_, 0).value;
    var r := ReplaceFirst(s, old_, new_);
    assert s == s[..i] + old_ + s[i + |old_|..];
    if |old_| == |new_| {
      assert r[i..i + |new_|] == new_ && s[i..i + |old_|] == old_;
    }
  }

  /** The part after the last dot, `s.split(".")[-1]`. */
  function LastSegment(s: string): string
    decreases |s|
  {
    if '.' in s then LastSegment(s[1..]) else s
  }

  /** `s.endswith(suffix)` */
  predicate EndsWith(s: string, suffix: string) {
    |suffix| <= |s| && s[|s| - |suffix|..] == suffix
  }

  lemma {:induction false} NoDot(s: string)
    requires '.' !in s
    ensures LastSegment(s) == s
  {}

  lemma {:induction false} LastSegmentOfSuffix(a: string, b: string)
    ensures LastSegment(a + "." + b) == LastSegment(b)
    decreases |a|
  {
    var s := a + "." + b;
    assert s[|a|] == '.';
    if a == "" {
      assert s[1..] == b;
    } else {
      assert s[1..] == a[1..] + "." + b;
      LastSegmentOfSuffix(a[1..], b);
    }
  }

  lemma {:induction false} LastSegmentSplits(s: string)
    ensures '.' !in LastSegment(s)
    ensures s == LastSegment(s) || EndsWith(s, "." + LastSegment(s))
    decreases |s|
  {
    if '.' in s {
      LastSegmentSplits(s[1..]);
      var rest, last := s[1..], LastSegment(s);
      if rest == last {
        assert s[0] == '.';
        assert s == "." + last;
      } else {
        assert s[|s| - |"." + last|..] == rest[|rest| - |"." + last|..];
      }
    }
  }

  /** Python's forgiving slice `s[a:b]` for non-negative bounds. */
  function Slice(s: string, a: nat, b: nat): string {
    if a <= b && a <= |s| then s[a..Min(b, |s|)] else ""
  }

  /** `s[:a] + with + s[b:]` */
  function ReplaceRange(s: string, a: nat, b: nat, with_: string): string {
    Slice(s, 0, a) + with_ + Slice(s, b, |s|)
  }

  function Lstrip(s: string): string {
    if s != "" && IsSpace(s[0]) then Lstrip(s[1..]) else s
  }

  function Rstrip(s: string): string {
    if s != "" && IsSpace(s[|s| - 1]) then Rstrip(s[..|s| - 1]) else s
  }

  function Strip(s: string): string {
    Rstrip(Lstrip(s))
  }

  lemma {:induction false} LstripSplits(s: string) returns (a: string)
    ensures s == a + Lstrip(s) && Blank(a) && (Lstrip(s) == "" || !IsSpace(Lstrip(s)[0]))
    decreases |s|
  {
    a := "";
    if s != "" && IsSpace(s[0]) {
      var rest := LstripSplits(s[1..]);
      a := [s[0]] + rest;
      assert s == [s[0]] + s[1..];
    }
  }

  lemma {:induction false} RstripSplits(s: string) returns (b: string)
    ensures s == Rstrip(s) + b && Blank(b) && (Rstrip(s) == "" || !IsSpace(Rstrip(s)[|Rstrip(s)| - 1]))
    decreases |s|
  {
    b := "";
    if s != "" && IsSpace(s[|s| - 1]) {
      var rest := RstripSplits(s[..|s| - 1]);
      b := rest + [s[|s| - 1]];
      assert s == s[..|s| - 1] + [s[|s| - 1]];
    }
  }

  /** Stripping takes the blanks off both ends and leaves none there. */
  lemma StripSplits(s: string) returns (a: string, b: string)
    ensures s == a + Strip(s) + b && Blank(a) && Blank(b)
    ensures Strip(s) == "" || (!IsSpace(Strip(s)[0]) && !IsSpace(Strip(s)[|Strip(s)| - 1]))
  {
    a := LstripSplits(s);
    b := RstripSplits(Lstrip(s));
    assert s == a + (Strip(s) + b);
  }
}
