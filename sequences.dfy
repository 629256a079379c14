/** Facts about lists shared by the modules: the position of an element in a list, and
    the order-preserving merge that `filter` and the two `forEach` passes produce. */
module Sequences {

  /** The position of k in keys (their number when k does not occur). */
  function RankIn<T(==)>(keys: seq<T>, k: T): (r: nat)
    ensures r <= |keys|
  {
    if keys == [] then 0 else if keys[0] == k then 0 else 1 + RankIn(keys[1..], k)
  }

  /** In a list without repetitions, the element at p has position p. */
  lemma {:induction false} RankInDistinct<T>(keys: seq<T>, p: nat)
    requires p < |keys|
    requires forall i, j :: 0 <= i < j < |keys| ==> keys[i] != keys[j]
    ensures RankIn(keys, keys[p]) == p
  {
    if p > 0 {
      RankInDistinct(keys[1..], p - 1);
    }
  }

  /** The elements of words appear in increasing position in keys (so none twice). */
  ghost predicate RankedIn<T>(words: seq<T>, keys: seq<T>)
  {
    forall i, j :: 0 <= i < j < |words| ==> RankIn(keys, words[i]) < RankIn(keys, words[j])
  }

  /** c is an order-preserving merge of a and b: every element of c comes from exactly one
      of the two, and each of them lists its elements in their order in c. */
  ghost predicate Interleaves<T>(c: seq<T>, a: seq<T>, b: seq<T>)
    decreases |c|
  {
    if c == [] then a == [] && b == []
    else
      || (a != [] && a[|a| - 1] == c[|c| - 1] && Interleaves(c[..|c| - 1], a[..|a| - 1], b))
      || (b != [] && b[|b| - 1] == c[|c| - 1] && Interleaves(c[..|c| - 1], a, b[..|b| - 1]))
  }

  /** Extending c at the end by an element of a keeps the merge. */
  lemma InterleavesKeep<T>(c: seq<T>, a: seq<T>, b: seq<T>, x: T)
    requires Interleaves(c, a, b)
    ensures Interleaves(c + [x], a + [x], b)
  {
    assert (c + [x])[..|c|] == c && (a + [x])[..|a|] == a;
  }

  /** Extending c at the end by an element of b keeps the merge. */
  lemma InterleavesDrop<T>(c: seq<T>, a: seq<T>, b: seq<T>, x: T)
    requires Interleaves(c, a, b)
    ensures Interleaves(c + [x], a, b + [x])
  {
    assert (c + [x])[..|c|] == c && (b + [x])[..|b|] == b;
  }
}
