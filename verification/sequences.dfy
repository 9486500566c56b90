/** Facts about sequences shared by the chunk-id scan and the vector store. */
module Sequences {

  /** No element occurs twice: the first one is not repeated later, and so on for the rest. */
  predicate Distinct<T(==)>(xs: seq<T>) {
    |xs| == 0 || (xs[0] !in xs[1..] && Distinct(xs[1..]))
  }

  /** `Distinct` holds exactly when any two different positions hold different elements. */
  lemma {:induction false} DistinctIffPairwise<T>(xs: seq<T>)
    ensures Distinct(xs) <==> forall i, j :: 0 <= i < j < |xs| ==> xs[i] != xs[j]
  {
    if |xs| > 0 {
      var rest := xs[1..];
      DistinctIffPairwise(rest);
      if Distinct(xs) {
        forall i, j | 0 <= i < j < |xs|
          ensures xs[i] != xs[j]
        {
          assert xs[j] == rest[j - 1];
          if i > 0 {
            assert xs[i] == rest[i - 1];
          }
        }
      }
      if forall i, j :: 0 <= i < j < |xs| ==> xs[i] != xs[j] {
        forall k | 0 <= k < |rest|
          ensures rest[k] != xs[0]
        {
          assert rest[k] == xs[k + 1];
        }
        forall i, j | 0 <= i < j < |rest|
          ensures rest[i] != rest[j]
        {
          assert rest[i] == xs[i + 1] && rest[j] == xs[j + 1];
        }
      }
    }
  }
}
