/** Go's sort.Slice: in place, any order among equal elements. */
module Sorting {

  /** A strict order whose negation is transitive, as sort.Slice demands of its less function. */
  ghost predicate StrictWeak<T(!new)>(less: (T, T) -> bool) {
    && (forall x, y :: less(x, y) ==> !less(y, x))
    && (forall x, y, z :: !less(y, x) && !less(z, y) ==> !less(z, x))
  }

  ghost predicate Sorted<T>(less: (T, T) -> bool, s: seq<T>) {
    forall i, j | 0 <= i < j < |s| :: !less(s[j], s[i])
  }

  method SortSlice<T(!new)>(a: array<T>, less: (T, T) -> bool)
    requires StrictWeak(less)
    modifies a
    ensures Sorted(less, a[..])
    ensures multiset(a[..]) == multiset(old(a[..]))
  {
    var n := 0;
    while n < a.Length
      invariant 0 <= n <= a.Length
      invariant Sorted(less, a[..n])
      invariant multiset(a[..]) == multiset(old(a[..]))
    {
      Insert(a, n, less);
      n := n + 1;
    }
    assert a[..n] == a[..];
  }

  /** a[..n+1] is sorted but for position j, which is not above what follows it. */
  ghost predicate SortedBut<T>(less: (T, T) -> bool, s: seq<T>, j: nat)
    requires j < |s|
  {
    && (forall p, q | 0 <= p < q < |s| && p != j && q != j :: !less(s[q], s[p]))
    && (forall q | j < q < |s| :: !less(s[q], s[j]))
  }

  method Insert<T(!new)>(a: array<T>, n: nat, less: (T, T) -> bool)
    requires StrictWeak(less) && n < a.Length
    requires Sorted(less, a[..n])
    modifies a
    ensures Sorted(less, a[..n + 1])
    ensures multiset(a[..]) == multiset(old(a[..]))
  {
    var j := n;
    while j > 0 && less(a[j], a[j - 1])
      invariant 0 <= j <= n
      invariant SortedBut(less, a[..n + 1], j)
      invariant multiset(a[..]) == multiset(old(a[..]))
    {
      SwapKeepsSorted(less, a[..n + 1], j);
      assert a[..n + 1][j := a[j - 1]][j - 1 := a[j]] == a[..][j := a[j - 1]][j - 1 := a[j]][..n + 1];
      a[j], a[j - 1] := a[j - 1], a[j];
      j := j - 1;
    }
    SettledIsSorted(less, a[..n + 1], j);
  }

  lemma SwapKeepsSorted<T(!new)>(less: (T, T) -> bool, s: seq<T>, j: nat)
    requires StrictWeak(less) && 0 < j < |s| && SortedBut(less, s, j) && less(s[j], s[j - 1])
    ensures SortedBut(less, s[j := s[j - 1]][j - 1 := s[j]], j - 1)
  {
    var t := s[j := s[j - 1]][j - 1 := s[j]];
    forall p, q | 0 <= p < q < |t| && p != j - 1 && q != j - 1
      ensures !less(t[q], t[p])
    {
    }
  }

  lemma SettledIsSorted<T(!new)>(less: (T, T) -> bool, s: seq<T>, j: nat)
    requires StrictWeak(less) && j < |s| && SortedBut(less, s, j)
    requires j > 0 ==> !less(s[j], s[j - 1])
    ensures Sorted(less, s)
  {
    forall p, q | 0 <= p < q < |s|
      ensures !less(s[q], s[p])
    {
      if q == j && p < j - 1 {
        assert !less(s[j - 1], s[p]);
      }
    }
  }
}
