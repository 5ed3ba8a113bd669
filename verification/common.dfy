/** Small shared vocabulary: optional values and message identities. */
module Common {

  /** A value that may be absent (JavaScript's `null`). */
  datatype Option<+T> = None | Some(value: T)

  /**
   * A chat-platform message id. Platform ids are positive integers, so a
   * present id is always truthy and an absent one is `null`.
   */
  type MessageId = n: int | n > 0 witness 1

  /** Number of elements of `xs` equal to `x`. */
  function Count<T(==)>(xs: seq<T>, x: T): (n: nat)
    ensures n <= |xs|
    ensures n == 0 <==> x !in xs
  {
    if xs == [] then 0
    else (if xs[0] == x then 1 else 0) + Count(xs[1..], x)
  }

  /** No element occurs twice. */
  predicate Distinct<T(==)>(xs: seq<T>) {
    forall i, j :: 0 <= i < j < |xs| ==> xs[i] != xs[j]
  }

  /** A sequence without repetitions has as many elements as its set. */
  lemma {:induction false} DistinctCardinality<T>(xs: seq<T>)
    requires Distinct(xs)
    ensures |set x | x in xs| == |xs|
  {
    if xs != [] {
      var last := xs[|xs| - 1];
      var init := xs[..|xs| - 1];
      DistinctCardinality(init);
      assert (set x | x in xs) == (set x | x in init) + {last};
      forall k | 0 <= k < |init| ensures init[k] != last {
        assert init[k] == xs[k];
      }
    }
  }
}
