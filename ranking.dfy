/** Ordering records by a numeric score, highest first, as `Array.prototype.sort` with
    the comparator `(a, b) => key(b) - key(a)` and MongoDB's `.sort({ field: -1 })` do. */
module Ranking {

  /** No element is followed by one with a larger key. */
  ghost predicate SortedDescending<T>(s: seq<T>, key: T -> int)
  {
    forall p, q :: 0 <= p < q < |s| ==> key(s[p]) >= key(s[q])
  }

  /** The elements of s whose key is v, in their order in s. */
  ghost function WithKey<T>(s: seq<T>, key: T -> int, v: int): seq<T>
  {
    if s == [] then [] else (if key(s[0]) == v then [s[0]] else []) + WithKey(s[1..], key, v)
  }

  /** Selecting by key distributes over concatenation. */
  lemma {:induction false} WithKeyAppend<T>(s: seq<T>, t: seq<T>, key: T -> int, v: int)
    ensures WithKey(s + t, key, v) == WithKey(s, key, v) + WithKey(t, key, v)
  {
    if s == [] {
      assert s + t == t;
    } else {
      assert (s + t)[0] == s[0] && (s + t)[1..] == s[1..] + t;
      WithKeyAppend(s[1..], t, key, v);
    }
  }

  /** Exchanging two neighbours with different keys leaves the selection of every key
      alone: the exchange keeps the relative order of equal keys. */
  lemma WithKeySwap<T>(s: seq<T>, j: int, key: T -> int, v: int)
    requires 0 < j < |s| && key(s[j - 1]) != key(s[j])
    ensures WithKey(s[j - 1 := s[j]][j := s[j - 1]], key, v) == WithKey(s, key, v)
  {
    var x, y, front, back := s[j - 1], s[j], s[..j - 1], s[j + 1..];
    assert s == front + ([x, y] + back);
    assert s[j - 1 := y][j := x] == front + ([y, x] + back);
    WithKeyAppend(front, [x, y] + back, key, v);
    WithKeyAppend(front, [y, x] + back, key, v);
    WithKeyAppend([x, y], back, key, v);
    WithKeyAppend([y, x], back, key, v);
    assert WithKey([x, y], key, v) == WithKey([y, x], key, v) by {
      assert [x, y][1..] == [y] && [y, x][1..] == [x];
      assert [y][1..] == [] && [x][1..] == [];
    }
  }

  /** Exchanges the neighbours at j - 1 and j. */
  method SwapDown<T>(a: array<T>, j: int)
    requires 0 < j < a.Length
    modifies a
    ensures a[j - 1] == old(a[j]) && a[j] == old(a[j - 1])
    ensures forall m :: 0 <= m < a.Length && m != j - 1 && m != j ==> a[m] == old(a[m])
    ensures multiset(a[..]) == old(multiset(a[..]))
  {
    a[j - 1], a[j] := a[j], a[j - 1];
  }

  /** Moves a[i] towards the front, past every element with a strictly smaller key, so
      that the sorted prefix a[..i] grows by one. */
  method Insert<T>(a: array<T>, i: int, key: T -> int)
    requires 0 <= i < a.Length
    requires SortedDescending(a[..i], key)
    modifies a
    ensures SortedDescending(a[..i + 1], key)
    ensures forall m :: i < m < a.Length ==> a[m] == old(a[m])
    ensures multiset(a[..]) == old(multiset(a[..]))
    ensures forall v :: WithKey(a[..], key, v) == WithKey(old(a[..]), key, v)
  {
    var j := i;
    while j > 0 && key(a[j - 1]) < key(a[j])
      invariant 0 <= j <= i
      invariant forall p, q :: 0 <= p < q <= i && p != j && q != j ==> key(a[p]) >= key(a[q])
      invariant forall q :: j < q <= i ==> key(a[j]) >= key(a[q])
      invariant forall m :: i < m < a.Length ==> a[m] == old(a[m])
      invariant multiset(a[..]) == old(multiset(a[..]))
      invariant forall v :: WithKey(a[..], key, v) == WithKey(old(a[..]), key, v)
    {
      ghost var before := a[..];
      SwapDown(a, j);
      assert a[..] == before[j - 1 := before[j]][j := before[j - 1]];
      forall v ensures WithKey(a[..], key, v) == WithKey(before, key, v) {
        WithKeySwap(before, j, key, v);
      }
      j := j - 1;
    }
  }

  /** Sorts `a` in place, highest key first; elements with equal keys keep their order. */
  method SortDescending<T>(a: array<T>, key: T -> int)
    modifies a
    ensures SortedDescending(a[..], key)
    ensures multiset(a[..]) == old(multiset(a[..]))
    ensures forall v :: WithKey(a[..], key, v) == WithKey(old(a[..]), key, v)
  {
    for i := 0 to a.Length
      invariant SortedDescending(a[..i], key)
      invariant multiset(a[..]) == old(multiset(a[..]))
      invariant forall v :: WithKey(a[..], key, v) == WithKey(old(a[..]), key, v)
    {
      Insert(a, i, key);
    }
    assert a[..a.Length] == a[..];
  }
}
