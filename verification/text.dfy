/** ASCII character and string helpers standing in for the Python `str`
    operations the cleaning script uses: `lower`, one-character `replace`,
    slicing with clamped bounds, and finding the first occurrence. */
module Text {

  /** An ASCII capital letter: the only characters lower-casing changes here. */
  predicate IsUpper(c: char) {
    'A' <= c <= 'Z'
  }

  /** An ASCII small letter. */
  predicate IsLowerLetter(c: char) {
    'a' <= c <= 'z'
  }

  /** No ASCII capital letter anywhere in `s`. */
  predicate NoUpper(s: string) {
    forall k :: 0 <= k < |s| ==> !IsUpper(s[k])
  }

  function Min(a: int, b: int): int {
    if a <= b then a else b
  }

  /** `c.lower()` on ASCII: a capital becomes the small letter at the same
      position of the alphabet, every other character is kept. */
  function LowerChar(c: char): (r: char)
    ensures !IsUpper(r)
    ensures IsUpper(c) ==> IsLowerLetter(r) && r as int - 'a' as int == c as int - 'A' as int
    ensures !IsUpper(c) ==> r == c
  {
    if IsUpper(c) then (c as int - 'A' as int + 'a' as int) as char else c
  }

  /** Reference relation for lower-casing: `r` is `s`, position by position,
      with each capital replaced by the matching small letter and every other
      character untouched. */
  ghost predicate LowerCaseOf(s: string, r: string) {
    && |r| == |s|
    && (forall k :: 0 <= k < |s| && IsUpper(s[k]) ==>
          IsLowerLetter(r[k]) && r[k] as int - 'a' as int == s[k] as int - 'A' as int)
    && (forall k :: 0 <= k < |s| && !IsUpper(s[k]) ==> r[k] == s[k])
  }

  /** `s.lower()` on ASCII text. */
  function Lower(s: string): (r: string)
    ensures LowerCaseOf(s, r)
    ensures NoUpper(r)
  {
    if s == [] then [] else [LowerChar(s[0])] + Lower(s[1..])
  }

  /** Lower-casing is determined by the reference relation: any `r` related to
      `s` is `Lower(s)`. */
  lemma LowerUnique(s: string, r: string)
    requires LowerCaseOf(s, r)
    ensures r == Lower(s)
  {
    var l := Lower(s);
    forall k | 0 <= k < |s|
      ensures r[k] == l[k]
    {
      if IsUpper(s[k]) {
        assert r[k] as int == l[k] as int;
      }
    }
  }

  /** Text without capitals is left as it is, so lower-casing is idempotent. */
  lemma LowerFixesNoUpper(s: string)
    requires NoUpper(s)
    ensures Lower(s) == s
  {
    LowerUnique(s, s);
  }

  lemma LowerIdempotent(s: string)
    ensures Lower(Lower(s)) == Lower(s)
  {
    LowerFixesNoUpper(Lower(s));
  }

  /** Reference relation for `s.replace(a, b)` with one-character `a` and `b`. */
  ghost predicate ReplacedOf(s: string, a: char, b: char, r: string) {
    && |r| == |s|
    && (forall k :: 0 <= k < |s| && s[k] == a ==> r[k] == b)
    && (forall k :: 0 <= k < |s| && s[k] != a ==> r[k] == s[k])
  }

  /** `s.replace(a, b)` where `a` and `b` are single characters: every
      occurrence of `a` becomes `b`. */
  function ReplaceChar(s: string, a: char, b: char): (r: string)
    ensures ReplacedOf(s, a, b, r)
    ensures a != b ==> a !in r
  {
    if s == [] then []
    else [if s[0] == a then b else s[0]] + ReplaceChar(s[1..], a, b)
  }

  /** The replacement is determined by its reference relation. */
  lemma ReplacedUnique(s: string, a: char, b: char, r: string)
    requires ReplacedOf(s, a, b, r)
    ensures r == ReplaceChar(s, a, b)
  {
    var t := ReplaceChar(s, a, b);
    assert forall k :: 0 <= k < |s| ==> r[k] == t[k];
  }

  /** Replacing a character that does not occur changes nothing. */
  lemma ReplaceCharAbsent(s: string, a: char, b: char)
    requires a !in s
    ensures ReplaceChar(s, a, b) == s
  {
    var r := ReplaceChar(s, a, b);
    assert forall k :: 0 <= k < |s| ==> r[k] == s[k];
  }

  /** Number of characters Python's `s[i:j]` yields for a string of length `n`
      when `i` and `j` are not negative. */
  function SliceLength(n: nat, i: nat, j: nat): nat {
    if j <= i || n <= i then 0 else Min(j, n) - i
  }

  /** Python's `s[i:j]` for non-negative `i` and `j`: both bounds are clamped
      to the length, and a stop at or before the start gives the empty string,
      so the slice never fails. */
  function Slice(s: string, i: nat, j: nat): (r: string)
    ensures |r| == SliceLength(|s|, i, j)
    ensures |r| <= |s| && (|r| > 0 ==> i + |r| <= |s|)
    ensures forall k :: 0 <= k < |r| ==> r[k] == s[i + k]
    ensures i <= j <= |s| ==> r == s[i..j]
  {
    if |s| <= i || j <= i then [] else s[i..Min(j, |s|)]
  }

  /** A slice depends only on the characters before its stop. */
  lemma SliceOfPrefix(s: string, i: nat, j: nat, n: nat)
    requires j <= n <= |s|
    ensures Slice(s[..n], i, j) == Slice(s, i, j)
  {
  }

  /** The first position of `x` in `xs`, or `|xs|` when it does not occur
      (Python's `find`, with the length in place of -1). */
  function IndexOf<T(==)>(xs: seq<T>, x: T): (k: nat)
    ensures k <= |xs|
    ensures k < |xs| <==> x in xs
    ensures k < |xs| ==> xs[k] == x
    ensures x !in xs[..k]
  {
    if xs == [] then 0
    else if xs[0] == x then 0
    else
      var k := 1 + IndexOf(xs[1..], x);
      assert xs[..k] == [xs[0]] + xs[1..][..k - 1];
      k
  }
}
