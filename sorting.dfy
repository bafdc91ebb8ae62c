/**
 * `Array.prototype.sort(compare)`: reorders an array in place so that
 * `compare(a[i], a[j]) <= 0` whenever `i < j`. Comparators return a
 * number; negative means "first argument first".
 */
module Sorting {

  /** One instance of totality: `x` and `y` can be placed in some order. */
  ghost predicate ComparableAt<T>(cmp: (T, T) -> real, x: T, y: T) {
    cmp(x, y) <= 0.0 || cmp(y, x) <= 0.0
  }

  /** One instance of transitivity. */
  ghost predicate TransitiveAt<T>(cmp: (T, T) -> real, x: T, y: T, z: T) {
    cmp(x, y) <= 0.0 && cmp(y, z) <= 0.0 ==> cmp(x, z) <= 0.0
  }

  /** A comparator that is total and transitive, as `Array.prototype.sort` expects. */
  ghost predicate IsTotalPreorder<T(!new)>(cmp: (T, T) -> real) {
    && (forall x, y :: ComparableAt(cmp, x, y))
    && (forall x, y, z :: TransitiveAt(cmp, x, y, z))
  }

  /** `s` is in the order `cmp` asks for. */
  predicate SortedBy<T>(s: seq<T>, cmp: (T, T) -> real) {
    forall i, j :: 0 <= i < j < |s| ==> cmp(s[i], s[j]) <= 0.0
  }

  /** Exchanges two neighbouring elements; nothing else moves. */
  method SwapNeighbours<T>(a: array<T>, j: int)
    requires 0 < j < a.Length
    modifies a
    ensures a[..] == old(a[..])[j - 1 := old(a[j])][j := old(a[j - 1])]
    ensures multiset(a[..]) == old(multiset(a[..]))
  {
    a[j - 1], a[j] := a[j], a[j - 1];
  }

  /** Moves `a[i]` left into the sorted prefix `a[..i]`, making `a[..i + 1]` sorted. */
  method Insert<T(!new)>(a: array<T>, i: int, cmp: (T, T) -> real)
    requires IsTotalPreorder(cmp)
    requires 0 <= i < a.Length
    requires forall p, q :: 0 <= p < q < i ==> cmp(a[p], a[q]) <= 0.0
    modifies a
    ensures forall p, q :: 0 <= p < q <= i ==> cmp(a[p], a[q]) <= 0.0
    ensures multiset(a[..]) == old(multiset(a[..]))
  {
    var j := i;
    while 0 < j && cmp(a[j - 1], a[j]) > 0.0
      invariant 0 <= j <= i
      invariant forall p, q :: 0 <= p < q <= i && p != j && q != j ==> cmp(a[p], a[q]) <= 0.0
      invariant forall p, q :: 0 <= p < j < q <= i ==> cmp(a[p], a[q]) <= 0.0
      invariant forall q :: j < q <= i ==> cmp(a[j], a[q]) <= 0.0
      invariant multiset(a[..]) == old(multiset(a[..]))
    {
      assert ComparableAt(cmp, a[j - 1], a[j]);
      SwapNeighbours(a, j);
      j := j - 1;
    }
    forall p | 0 <= p < j - 1
      ensures cmp(a[p], a[j]) <= 0.0
    {
      assert TransitiveAt(cmp, a[p], a[j - 1], a[j]);
    }
  }

  /** Insertion sort in place; the contents are a permutation of the old ones. */
  method SortWith<T(!new)>(a: array<T>, cmp: (T, T) -> real)
    requires IsTotalPreorder(cmp)
    modifies a
    ensures SortedBy(a[..], cmp)
    ensures multiset(a[..]) == old(multiset(a[..]))
  {
    var i := 0;
    while i < a.Length
      invariant 0 <= i <= a.Length
      invariant forall p, q :: 0 <= p < q < i ==> cmp(a[p], a[q]) <= 0.0
      invariant multiset(a[..]) == old(multiset(a[..]))
    {
      Insert(a, i, cmp);
      i := i + 1;
    }
  }
}
