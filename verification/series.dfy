/** A pandas Series of strings is a `seq<string>`; its `.str` accessor applies
    a string operation to every element and keeps the order and the count. */
module Series {
  import opened Text

  /** `series.str.lower()`: each value lower-cased (ASCII), one result per
      value, in the same order. */
  function StrLower(xs: seq<string>): (r: seq<string>)
    ensures |r| == |xs|
    ensures forall i :: 0 <= i < |xs| ==> LowerCaseOf(xs[i], r[i]) && NoUpper(r[i])
  {
    seq(|xs|, i requires 0 <= i < |xs| => Lower(xs[i]))
  }

  /** `series.str.replace(a, b)` for one-character `a` and `b`. */
  function StrReplace(xs: seq<string>, a: char, b: char): (r: seq<string>)
    ensures |r| == |xs|
    ensures forall i :: 0 <= i < |xs| ==> ReplacedOf(xs[i], a, b, r[i])
    ensures a != b ==> forall i :: 0 <= i < |xs| ==> a !in r[i]
  {
    seq(|xs|, i requires 0 <= i < |xs| => ReplaceChar(xs[i], a, b))
  }

  /** Lower-casing a column a second time changes nothing. */
  lemma StrLowerIdempotent(xs: seq<string>)
    ensures StrLower(StrLower(xs)) == StrLower(xs)
  {
    var once := StrLower(xs);
    forall i | 0 <= i < |xs|
      ensures StrLower(once)[i] == once[i]
    {
      LowerFixesNoUpper(once[i]);
    }
  }
}
