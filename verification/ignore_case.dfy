/** Case-insensitive string equality, restricted to ASCII letters. */
module IgnoreCase {

  /** Maps an ASCII upper-case letter to its lower-case form; every other
      character is left alone. */
  function Fold(c: char): (r: char)
    ensures 'A' <= c <= 'Z' ==> 'a' <= r <= 'z' && r as int - c as int == 32
    ensures !('A' <= c <= 'Z') ==> r == c
  {
    if 'A' <= c <= 'Z' then (c as int + 32) as char else c
  }

  /** Two strings are equal ignoring case when they have the same length and
      agree position by position after folding. */
  predicate Equal(a: string, b: string) {
    |a| == |b| && forall i :: 0 <= i < |a| ==> Fold(a[i]) == Fold(b[i])
  }

  /** Folds a whole string, one character at a time. */
  function Lower(s: string): (r: string)
    ensures |r| == |s|
    ensures forall i :: 0 <= i < |s| ==> r[i] == Fold(s[i])
  {
    seq(|s|, i requires 0 <= i < |s| => Fold(s[i]))
  }

  /** Case-insensitive equality is equality of the folded strings. */
  lemma EqualIffSameLower(a: string, b: string)
    ensures Equal(a, b) <==> Lower(a) == Lower(b)
  {
  }

  /** The relation is an equivalence: reflexive, symmetric and transitive. */
  lemma IsEquivalence(a: string, b: string, c: string)
    ensures Equal(a, a)
    ensures Equal(a, b) ==> Equal(b, a)
    ensures Equal(a, b) && Equal(b, c) ==> Equal(a, c)
  {
  }
}
