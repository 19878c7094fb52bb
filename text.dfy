/**
 * The few Python string operations both programs rely on, over `string`
 * (a sequence of Unicode scalar values): `str.isspace`, `str.strip()`,
 * `str.startswith`, `str.replace` of one character by another, the `in`
 * test and `str.split(sep, 1)`.
 */
module Text {

  /** Python's `str.isspace()` for one character: the ASCII controls
      tab to carriage return, the separators 0x1c to 0x1f, space, and the
      Unicode whitespace characters. */
  predicate IsSpace(c: char) {
    || ('\U{9}' <= c <= '\U{d}')
    || ('\U{1c}' <= c <= '\U{20}')
    || c == '\U{85}' || c == '\U{a0}' || c == '\U{1680}'
    || ('\U{2000}' <= c <= '\U{200a}')
    || c == '\U{2028}' || c == '\U{2029}' || c == '\U{202f}'
    || c == '\U{205f}' || c == '\U{3000}'
  }

  /** Every character of `s` is whitespace. */
  ghost predicate AllSpace(s: string) {
    forall i :: 0 <= i < |s| ==> IsSpace(s[i])
  }

  /** Neither the first nor the last character of `s` is whitespace. */
  ghost predicate Trimmed(s: string) {
    s == [] || (!IsSpace(s[0]) && !IsSpace(s[|s| - 1]))
  }

  /** The first index at or after `i` that holds no whitespace (or `|s|`). */
  function SkipSpace(s: string, i: nat): (k: nat)
    requires i <= |s|
    ensures i <= k <= |s|
    decreases |s| - i
  {
    if i < |s| && IsSpace(s[i]) then SkipSpace(s, i + 1) else i
  }

  /** The end of `s[lo..j]` once the whitespace it ends with is dropped. */
  function SkipSpaceBack(s: string, lo: nat, j: nat): (k: nat)
    requires lo <= j <= |s|
    ensures lo <= k <= j
    decreases j - lo
  {
    if lo < j && IsSpace(s[j - 1]) then SkipSpaceBack(s, lo, j - 1) else j
  }

  /** `SkipSpace` passes over whitespace only and stops at a character
      that is not whitespace, or at the end. */
  lemma {:induction false} SkipSpaceRun(s: string, i: nat)
    requires i <= |s|
    ensures forall j :: i <= j < SkipSpace(s, i) ==> IsSpace(s[j])
    ensures SkipSpace(s, i) < |s| ==> !IsSpace(s[SkipSpace(s, i)])
    decreases |s| - i
  {
    if i < |s| && IsSpace(s[i]) {
      SkipSpaceRun(s, i + 1);
    }
  }

  /** `SkipSpaceBack` passes over whitespace only and stops after a
      character that is not whitespace, or at `lo`. */
  lemma {:induction false} SkipSpaceBackRun(s: string, lo: nat, j: nat)
    requires lo <= j <= |s|
    ensures forall m :: SkipSpaceBack(s, lo, j) <= m < j ==> IsSpace(s[m])
    ensures lo < SkipSpaceBack(s, lo, j) ==> !IsSpace(s[SkipSpaceBack(s, lo, j) - 1])
    decreases j - lo
  {
    if lo < j && IsSpace(s[j - 1]) {
      SkipSpaceBackRun(s, lo, j - 1);
    }
  }

  /** `s.strip()`: whitespace removed from both ends. */
  function Strip(s: string): (r: string)
    ensures |r| <= |s|
  {
    var i := SkipSpace(s, 0);
    s[i..SkipSpaceBack(s, i, |s|)]
  }

  /** `strip` leaves no whitespace at either end. */
  lemma StripTrimmed(s: string)
    ensures Trimmed(Strip(s))
  {
    var i := SkipSpace(s, 0);
    SkipSpaceRun(s, 0);
    SkipSpaceBackRun(s, i, |s|);
  }

  /** `strip` adds no character. */
  lemma StripSubset(s: string, c: char)
    requires c !in s
    ensures c !in Strip(s)
  {
    var i := SkipSpace(s, 0);
    var k := SkipSpaceBack(s, i, |s|);
    assert forall j :: 0 <= j < k - i ==> Strip(s)[j] == s[i + j];
  }

  /** `strip` keeps every character that is not whitespace. */
  lemma StripKeeps(s: string, c: char)
    requires !IsSpace(c)
    ensures c in Strip(s) <==> c in s
  {
    var i := SkipSpace(s, 0);
    var k := SkipSpaceBack(s, i, |s|);
    SkipSpaceRun(s, 0);
    SkipSpaceBackRun(s, i, |s|);
    assert forall j :: 0 <= j < k - i ==> Strip(s)[j] == s[i + j];
    if c in s {
      var j :| 0 <= j < |s| && s[j] == c;
      assert i <= j < k;
      assert Strip(s)[j - i] == c;
    } else {
      StripSubset(s, c);
    }
  }

  /** `strip` of nothing but whitespace is empty. */
  lemma StripAllSpace(s: string)
    requires AllSpace(s)
    ensures Strip(s) == []
  {
    SkipSpaceRun(s, 0);
  }

  /** The result of `strip` is determined by the input: whatever sits
      between leading and trailing whitespace, with no whitespace at its
      own ends, is exactly what `strip` returns. */
  lemma StripExact(a: string, m: string, b: string)
    requires AllSpace(a) && AllSpace(b) && Trimmed(m)
    ensures Strip(a + m + b) == m
  {
    var s := a + m + b;
    if m == [] {
      assert AllSpace(s) by {
        forall j | 0 <= j < |s| ensures IsSpace(s[j]) {
          if j < |a| { assert s[j] == a[j]; } else { assert s[j] == b[j - |a|]; }
        }
      }
      StripAllSpace(s);
    } else {
      StripExactNonEmpty(a, m, b);
    }
  }

  /** `StripExact` for a non-empty middle part: the forward skip stops at
      its first character and the backward skip after its last. */
  lemma StripExactNonEmpty(a: string, m: string, b: string)
    requires AllSpace(a) && AllSpace(b) && Trimmed(m) && m != []
    ensures Strip(a + m + b) == m
  {
    var s := a + m + b;
    var i := SkipSpace(s, 0);
    SkipSpaceRun(s, 0);
    assert s[|a|] == m[0];
    assert forall j :: 0 <= j < |a| ==> s[j] == a[j];
    assert i == |a|;
    var k := SkipSpaceBack(s, i, |s|);
    SkipSpaceBackRun(s, i, |s|);
    assert s[|a| + |m| - 1] == m[|m| - 1];
    assert forall j :: |a| + |m| <= j < |s| ==> s[j] == b[j - |a| - |m|];
    assert k == |a| + |m|;
    assert s[i..k] == m;
  }

  /** Every string is its stripped form with whitespace before and after. */
  lemma StripParts(s: string) returns (a: string, b: string)
    ensures s == a + Strip(s) + b && AllSpace(a) && AllSpace(b)
  {
    var i := SkipSpace(s, 0);
    var k := SkipSpaceBack(s, i, |s|);
    SkipSpaceRun(s, 0);
    SkipSpaceBackRun(s, i, |s|);
    a, b := s[..i], s[k..];
    assert s == s[..i] + s[i..k] + s[k..];
  }

  /** Trailing whitespace, such as a line's newline, does not change what
      `strip` returns. */
  lemma StripAppendSpace(s: string, t: string)
    requires AllSpace(t)
    ensures Strip(s + t) == Strip(s)
  {
    var a, b := StripParts(s);
    StripTrimmed(s);
    assert s + t == a + Strip(s) + (b + t);
    StripExact(a, Strip(s), b + t);
  }

  /** `strip` is idempotent. */
  lemma StripIdempotent(s: string)
    ensures Strip(Strip(s)) == Strip(s)
  {
    StripTrimmed(s);
    StripExact([], Strip(s), []);
    assert [] + Strip(s) + [] == Strip(s);
  }

  /** `strip` yields the empty string exactly when the input is all
      whitespace (Python's `not s.strip()`). */
  lemma StripEmptyIff(s: string)
    ensures Strip(s) == [] <==> AllSpace(s)
  {
    if AllSpace(s) {
      StripExact(s, [], []);
      assert s + [] + [] == s;
    }
    if Strip(s) == [] {
      var i := SkipSpace(s, 0);
      SkipSpaceRun(s, 0);
      SkipSpaceBackRun(s, i, |s|);
      assert SkipSpaceBack(s, i, |s|) == i;
      assert i == |s|;
      assert forall j :: 0 <= j < |s| ==> IsSpace(s[j]);
    }
  }

  /** `s.startswith(p)`. */
  predicate StartsWith(s: string, p: string) {
    |p| <= |s| && s[..|p|] == p
  }

  /** `s.replace(x, y)` for single characters `x` and `y`: every `x`
      becomes `y`, every other character is kept in place. */
  function Replace(s: string, x: char, y: char): (r: string)
    ensures |r| == |s|
    ensures forall i :: 0 <= i < |s| ==> r[i] == (if s[i] == x then y else s[i])
  {
    if s == [] then [] else [if s[0] == x then y else s[0]] + Replace(s[1..], x, y)
  }

  /** Replacing `x` by a different character leaves no `x` behind, and a
      prefix free of `x` is kept. */
  lemma ReplaceRemoves(s: string, x: char, y: char, p: string)
    requires x != y && x !in p && StartsWith(s, p)
    ensures x !in Replace(s, x, y)
    ensures StartsWith(Replace(s, x, y), p)
  {
    var r := Replace(s, x, y);
    forall i | 0 <= i < |p| ensures r[i] == p[i] {
      assert s[i] == p[i];
    }
    assert r[..|p|] == p;
  }

  /** `s.split(c, 1)` when `c` occurs in `s`: the text before the first `c`
      and the text after it. */
  function SplitFirst(s: string, c: char): (string, string)
    requires c in s
  {
    if s[0] == c then ([], s[1..])
    else
      var t := SplitFirst(s[1..], c);
      ([s[0]] + t.0, t.1)
  }

  /** The two parts of the split, with the separator between them, make up
      the input, and the first part holds no separator. */
  lemma {:induction false} SplitFirstParts(s: string, c: char)
    requires c in s
    ensures s == SplitFirst(s, c).0 + [c] + SplitFirst(s, c).1
    ensures c !in SplitFirst(s, c).0
  {
    if s[0] != c {
      assert c in s[1..] by {
        var j :| 0 <= j < |s| && s[j] == c;
        assert s[1..][j - 1] == c;
      }
      SplitFirstParts(s[1..], c);
      assert s == [s[0]] + s[1..];
    }
  }

  /** The first-separator split is unique: any way of writing `s` as
      `a + [c] + b` with no `c` in `a` is the one `SplitFirst` returns. */
  lemma {:induction false} SplitFirstUnique(s: string, c: char, a: string, b: string)
    requires s == a + [c] + b && c !in a
    ensures SplitFirst(s, c) == (a, b)
    decreases |a|
  {
    if a == [] {
      assert s == [c] + b;
    } else {
      assert s[0] == a[0] != c;
      assert s[1..] == a[1..] + [c] + b;
      SplitFirstUnique(s[1..], c, a[1..], b);
      assert [a[0]] + a[1..] == a;
    }
  }
}
