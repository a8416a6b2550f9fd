/**
 * The three string primitives the application relies on:
 * `String.prototype.trim`, `String.prototype.toLowerCase` (restricted to
 * the ASCII letters) and `String.prototype.includes`.
 */
module Text {

  /** The characters `trim` strips: ECMAScript WhiteSpace and LineTerminator. */
  predicate IsJsSpace(c: char) {
    || c == '\t' || c == '\n' || c == '\U{B}' || c == '\U{C}' || c == '\r' || c == ' '
    || c == '\U{A0}' || c == '\U{1680}' || ('\U{2000}' <= c <= '\U{200A}')
    || c == '\U{2028}' || c == '\U{2029}' || c == '\U{202F}' || c == '\U{205F}'
    || c == '\U{3000}' || c == '\U{FEFF}'
  }

  /** Every character of `s` in `[lo, hi)` is whitespace. */
  predicate SpaceBetween(s: string, lo: nat, hi: nat)
    requires lo <= hi <= |s|
  {
    forall k :: lo <= k < hi ==> IsJsSpace(s[k])
  }

  predicate AllSpace(s: string) {
    SpaceBetween(s, 0, |s|)
  }

  /** Where `trim` starts: the first index from `i` on that is not whitespace, or `|s|`. */
  function StartIndex(s: string, i: nat): (n: nat)
    requires i <= |s|
    ensures i <= n <= |s| && SpaceBetween(s, i, n)
    ensures n < |s| ==> !IsJsSpace(s[n])
    decreases |s| - i
  {
    if i < |s| && IsJsSpace(s[i]) then StartIndex(s, i + 1) else i
  }

  /**
   * Where `trim` ends: scanning back from `j`, and no further back than `lo`,
   * the index just past the last character that is not whitespace.
   */
  function EndIndex(s: string, lo: nat, j: nat): (n: nat)
    requires lo <= j <= |s|
    ensures lo <= n <= j && SpaceBetween(s, n, j)
    ensures lo < n ==> !IsJsSpace(s[n - 1])
    decreases j
  {
    if lo < j && IsJsSpace(s[j - 1]) then EndIndex(s, lo, j - 1) else j
  }

  /** `trim`: drops the leading and the trailing whitespace. */
  function Trim(s: string): (r: string)
    ensures |r| <= |s|
    ensures r == [] || (!IsJsSpace(r[0]) && !IsJsSpace(r[|r| - 1]))
  {
    var i := StartIndex(s, 0);
    s[i..EndIndex(s, i, |s|)]
  }

  /**
   * `trim` is determined by where the first and the last non-space characters
   * are: whatever split of `s` into space, a core and space one picks, the core
   * is what `trim` returns.
   */
  lemma TrimIsCore(s: string, i: nat, j: nat)
    requires i <= j <= |s|
    requires SpaceBetween(s, 0, i) && SpaceBetween(s, j, |s|)
    requires i < j ==> !IsJsSpace(s[i]) && !IsJsSpace(s[j - 1])
    ensures Trim(s) == s[i..j]
  {
    if i < j {
      StartIndexAt(s, i);
      EndIndexAt(s, i, j);
    }
  }

  /** The scan from the front stops exactly at the first non-space character. */
  lemma StartIndexAt(s: string, i: nat)
    requires i < |s| && SpaceBetween(s, 0, i) && !IsJsSpace(s[i])
    ensures StartIndex(s, 0) == i
  {
  }

  /** The scan from the back stops exactly past the last non-space character. */
  lemma EndIndexAt(s: string, i: nat, j: nat)
    requires i < j <= |s| && SpaceBetween(s, j, |s|) && !IsJsSpace(s[j - 1])
    ensures EndIndex(s, i, |s|) == j
  {
  }

  /** `trim` is idempotent. */
  lemma TrimIdempotent(s: string)
    ensures Trim(Trim(s)) == Trim(s)
  {
    var r := Trim(s);
    TrimIsCore(r, 0, |r|);
    assert r[0..|r|] == r;
  }

  /** A whitespace-only string trims to the empty string. */
  lemma TrimAllSpace(s: string)
    requires AllSpace(s)
    ensures Trim(s) == []
  {
    TrimIsCore(s, 0, 0);
  }

  /** ASCII case folding of one character, as `toLowerCase` does below U+0080. */
  function LowerChar(c: char): (d: char)
    ensures !('A' <= d <= 'Z')
    ensures !('A' <= c <= 'Z') ==> d == c
    ensures IsJsSpace(d) <==> IsJsSpace(c)
  {
    if 'A' <= c <= 'Z' then (c as int + 32) as char else c
  }

  /** `toLowerCase`, character by character. */
  function ToLower(s: string): (r: string)
    ensures |r| == |s|
    ensures forall i :: 0 <= i < |s| ==> r[i] == LowerChar(s[i])
  {
    seq(|s|, k requires 0 <= k < |s| => LowerChar(s[k]))
  }

  lemma LowerIdempotent(s: string)
    ensures ToLower(ToLower(s)) == ToLower(s)
  {
  }

  /** Folding case never moves whitespace, so it commutes with `trim`. */
  lemma TrimLowerCommute(s: string)
    ensures Trim(ToLower(s)) == ToLower(Trim(s))
  {
    var a := StartIndex(s, 0);
    StartIndexLower(s, 0);
    EndIndexLower(s, a, |s|);
    ToLowerSlice(s, a, EndIndex(s, a, |s|));
  }

  lemma {:induction false} StartIndexLower(s: string, i: nat)
    requires i <= |s|
    ensures StartIndex(ToLower(s), i) == StartIndex(s, i)
    decreases |s| - i
  {
    if i < |s| && IsJsSpace(s[i]) {
      StartIndexLower(s, i + 1);
    }
  }

  lemma {:induction false} EndIndexLower(s: string, lo: nat, j: nat)
    requires lo <= j <= |s|
    ensures EndIndex(ToLower(s), lo, j) == EndIndex(s, lo, j)
    decreases j
  {
    if lo < j && IsJsSpace(s[j - 1]) {
      EndIndexLower(s, lo, j - 1);
    }
  }

  lemma ToLowerSlice(s: string, i: nat, j: nat)
    requires i <= j <= |s|
    ensures ToLower(s)[i..j] == ToLower(s[i..j])
  {
    var lowered, slice := ToLower(s), s[i..j];
    forall k | 0 <= k < j - i
      ensures lowered[i..j][k] == ToLower(slice)[k]
    {
      assert slice[k] == s[i + k];
    }
  }

  /** `includes`: `t` occurs in `s` at some position. */
  predicate Contains(s: string, t: string): (b: bool)
    ensures b ==> |t| <= |s|
    ensures t <= s ==> b
    ensures |t| <= |s| && s[|s| - |t|..] == t ==> b
  {
    assert s[0..] == s;
    exists i :: 0 <= i <= |s| - |t| && t <= s[i..]
  }

  lemma ContainsEmpty(s: string)
    ensures Contains(s, [])
  {
    assert [] <= s[0..];
  }
}
