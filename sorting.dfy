/** In-place sorting of a slice by a caller-supplied "less" comparator: the
    contract of Go's sort.Slice and sort.Strings, which order a slice in place
    and promise nothing about the relative order of equivalent elements. */
module Sorting {

  /** No element is less than the one just before it: the order a sort by
      `less` leaves behind. */
  predicate SortedBy<T>(s: seq<T>, less: (T, T) -> bool)
  {
    forall k :: 0 < k < |s| ==> !less(s[k], s[k - 1])
  }

  /** The one thing the sort needs of its comparator: `less` never holds both
      ways round (hence also never of an element and itself). */
  ghost predicate Asymmetric<T(!new)>(less: (T, T) -> bool)
  {
    forall x, y :: less(x, y) ==> !less(y, x)
  }

  /** Sorts `a` in place by `less`; the result is a permutation of the input.
      Insertion by adjacent swaps, so the rearrangement is local to `a`. */
  method SortSlice<T(!new)>(a: array<T>, less: (T, T) -> bool)
    requires Asymmetric(less)
    modifies a
    ensures SortedBy(a[..], less)
    ensures multiset(a[..]) == multiset(old(a[..]))
  {
    var i := 0;
    while i < a.Length
      invariant 0 <= i <= a.Length
      invariant forall k :: 0 < k < i ==> !less(a[k], a[k - 1])
      invariant multiset(a[..]) == multiset(old(a[..]))
    {
      InsertLast(a, i, less);
      i := i + 1;
    }
  }

  /** Given `a[..i]` sorted, moves `a[i]` down to its place, so that `a[..i + 1]`
      is sorted; nothing else in `a` moves. */
  method InsertLast<T(!new)>(a: array<T>, i: nat, less: (T, T) -> bool)
    requires Asymmetric(less)
    requires i < a.Length
    requires forall k :: 0 < k < i ==> !less(a[k], a[k - 1])
    modifies a
    ensures forall k :: 0 < k <= i ==> !less(a[k], a[k - 1])
    ensures forall k :: i < k < a.Length ==> a[k] == old(a[k])
    ensures multiset(a[..]) == multiset(old(a[..]))
  {
    var j := i;
    while 0 < j && less(a[j], a[j - 1])
      invariant 0 <= j <= i
      invariant forall k :: 0 < k <= i && k != j ==> !less(a[k], a[k - 1])
      invariant 0 < j < i ==> !less(a[j + 1], a[j - 1])
      invariant forall k :: i < k < a.Length ==> a[k] == old(a[k])
      invariant multiset(a[..]) == multiset(old(a[..]))
    {
      Swap(a, j - 1, j);
      j := j - 1;
    }
  }

  /** Exchanges two elements of `a`. */
  method Swap<T>(a: array<T>, i: nat, j: nat)
    requires i < j < a.Length
    modifies a
    ensures a[..] == old(a[..])[i := old(a[j])][j := old(a[i])]
    ensures multiset(a[..]) == multiset(old(a[..]))
  {
    a[i], a[j] := a[j], a[i];
  }
}
