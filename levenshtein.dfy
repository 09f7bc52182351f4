/** The edit distance the resolver ranks candidates by (the `distance`
    function of the `Levenshtein` package): unit-cost insertion, deletion
    and substitution of single characters. */
module Levenshtein {

  function Min3(a: nat, b: nat, c: nat): nat
  {
    if a <= b && a <= c then a else if b <= c then b else c
  }

  function Max(a: nat, b: nat): nat
  {
    if a < b then b else a
  }

  /** The classic recursion on the first characters of both strings. */
  function Distance(a: string, b: string): nat
    decreases |a| + |b|
  {
    if a == [] then |b|
    else if b == [] then |a|
    else Min3(Distance(a[1..], b) + 1,
              Distance(a, b[1..]) + 1,
              Distance(a[1..], b[1..]) + (if a[0] == b[0] then 0 else 1))
  }

  /** Distance 0 means the two strings are equal, and only then. */
  lemma {:induction false} DistanceZeroIff(a: string, b: string)
    ensures Distance(a, b) == 0 <==> a == b
    decreases |a| + |b|
  {
    if a != [] && b != [] {
      DistanceZeroIff(a[1..], b[1..]);
      if a == b {
        assert a[1..] == b[1..];
      }
    }
  }

  /** Never more than the longer length (substitute the common part, then
      insert or delete the rest). */
  lemma {:induction false} DistanceAtMostLonger(a: string, b: string)
    ensures Distance(a, b) <= Max(|a|, |b|)
    decreases |a| + |b|
  {
    if a != [] && b != [] {
      DistanceAtMostLonger(a[1..], b[1..]);
    }
  }

  /** Never less than the difference of the lengths. */
  lemma {:induction false} DistanceAtLeastLengthGap(a: string, b: string)
    ensures Distance(a, b) >= |a| - |b| && Distance(a, b) >= |b| - |a|
    decreases |a| + |b|
  {
    if a != [] && b != [] {
      DistanceAtLeastLengthGap(a[1..], b);
      DistanceAtLeastLengthGap(a, b[1..]);
      DistanceAtLeastLengthGap(a[1..], b[1..]);
    }
  }

  /** The distance does not depend on the order of its arguments. */
  lemma {:induction false} DistanceSymmetric(a: string, b: string)
    ensures Distance(a, b) == Distance(b, a)
    decreases |a| + |b|
  {
    if a != [] && b != [] {
      DistanceSymmetric(a[1..], b);
      DistanceSymmetric(a, b[1..]);
      DistanceSymmetric(a[1..], b[1..]);
    }
  }
}
