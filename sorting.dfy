/**
  Stable sorting by an integer key, as Python's `list.sort(key=...)` and
  `sorted(..., key=...)` do it: the result is ascending by key and elements
  with equal keys keep their input order.

  `StableSort` is the reference definition (insertion of each element, in input
  order, after every element whose key is not larger); `SortInPlace` is the
  in-place algorithm on an array, proved equal to it.
 */
module StableSorting {

  /** `s` is in ascending order of `key`. */
  ghost predicate SortedBy<T>(s: seq<T>, key: T -> int) {
    forall m, n :: 0 <= m < n < |s| ==> key(s[m]) <= key(s[n])
  }

  lemma SortedAt<T>(s: seq<T>, key: T -> int, m: nat, n: nat)
    requires SortedBy(s, key) && m <= n < |s|
    ensures key(s[m]) <= key(s[n])
  {
  }

  /** Inserts `x` into `s` after the longest prefix whose keys are at most `key(x)`. */
  function Insert<T>(s: seq<T>, x: T, key: T -> int): (r: seq<T>)
    ensures |r| == |s| + 1
  {
    if s == [] then [x]
    else if key(x) < key(s[0]) then [x] + s
    else
      assert s == [s[0]] + s[1..];
      [s[0]] + Insert(s[1..], x, key)
  }

  /** Stable sort of `s` by `key`: each element is inserted in input order. */
  function StableSort<T>(s: seq<T>, key: T -> int): (r: seq<T>)
    ensures |r| == |s|
  {
    if s == [] then []
    else
      assert s == s[..|s| - 1] + [s[|s| - 1]];
      Insert(StableSort(s[..|s| - 1], key), s[|s| - 1], key)
  }

  lemma {:induction false} InsertPermutation<T>(s: seq<T>, x: T, key: T -> int)
    ensures multiset(Insert(s, x, key)) == multiset(s) + multiset{x}
  {
    if s != [] && key(s[0]) <= key(x) {
      InsertPermutation(s[1..], x, key);
      assert s == [s[0]] + s[1..];
    }
  }

  /** `StableSort` only reorders: the result is a permutation of the input. */
  lemma {:induction false} StableSortPermutation<T>(s: seq<T>, key: T -> int)
    ensures multiset(StableSort(s, key)) == multiset(s)
    ensures forall x :: x in StableSort(s, key) <==> x in s
  {
    if s != [] {
      StableSortPermutation(s[..|s| - 1], key);
      InsertPermutation(StableSort(s[..|s| - 1], key), s[|s| - 1], key);
      assert s == s[..|s| - 1] + [s[|s| - 1]];
    }
    forall x ensures x in StableSort(s, key) <==> x in s {
      assert x in StableSort(s, key) <==> x in multiset(StableSort(s, key));
      assert x in s <==> x in multiset(s);
    }
  }

  /** The elements of `s` whose key is `k`, in their order in `s`. */
  function WithKey<T>(s: seq<T>, key: T -> int, k: int): (r: seq<T>)
    ensures |r| <= |s|
  {
    if s == [] then []
    else (if key(s[0]) == k then [s[0]] else []) + WithKey(s[1..], key, k)
  }

  lemma {:induction false} WithKeyAppend<T>(s: seq<T>, t: seq<T>, key: T -> int, k: int)
    ensures WithKey(s + t, key, k) == WithKey(s, key, k) + WithKey(t, key, k)
  {
    if s == [] {
      assert s + t == t;
    } else {
      var head := if key(s[0]) == k then [s[0]] else [];
      assert (s + t)[0] == s[0];
      assert (s + t)[1..] == s[1..] + t;
      WithKeyAppend(s[1..], t, key, k);
      assert WithKey(s + t, key, k) == head + (WithKey(s[1..], key, k) + WithKey(t, key, k));
      assert head + (WithKey(s[1..], key, k) + WithKey(t, key, k))
          == (head + WithKey(s[1..], key, k)) + WithKey(t, key, k);
    }
  }

  lemma {:induction false} InsertSorted<T>(s: seq<T>, x: T, key: T -> int)
    requires SortedBy(s, key)
    ensures SortedBy(Insert(s, x, key), key)
    ensures forall y :: y in Insert(s, x, key) ==> y == x || y in s
  {
    if s != [] && key(s[0]) <= key(x) {
      InsertSorted(s[1..], x, key);
      var r := Insert(s, x, key);
      assert r == [s[0]] + Insert(s[1..], x, key);
      forall n | 0 < n < |r| ensures key(r[0]) <= key(r[n]) {
        assert r[n] in Insert(s[1..], x, key);
      }
    }
  }

  lemma SortedTail<T>(s: seq<T>, key: T -> int)
    requires SortedBy(s, key) && s != []
    ensures SortedBy(s[1..], key)
  {
    forall m, n | 0 <= m < n < |s| - 1 ensures key(s[1..][m]) <= key(s[1..][n]) {
      SortedAt(s, key, m + 1, n + 1);
    }
  }

  /** Inserting before every element of a sorted sequence: `x` is the first
      element with its key. */
  lemma InsertFrontStable<T>(s: seq<T>, x: T, key: T -> int, k: int)
    requires SortedBy(s, key) && s != [] && key(x) < key(s[0])
    ensures WithKey(Insert(s, x, key), key, k)
         == WithKey(s, key, k) + (if key(x) == k then [x] else [])
  {
    WithKeyAppend([x], s, key, k);
    if key(x) == k {
      forall y | y in s ensures key(y) != k {
        var n :| 0 <= n < |s| && s[n] == y;
        SortedAt(s, key, 0, n);
      }
      NoneWithKey(s, key, k);
    }
  }

  /** Inserting `x` keeps, for every key, the order of the elements that have it. */
  lemma {:induction false} InsertStable<T>(s: seq<T>, x: T, key: T -> int, k: int)
    requires SortedBy(s, key)
    ensures WithKey(Insert(s, x, key), key, k)
         == WithKey(s, key, k) + (if key(x) == k then [x] else [])
  {
    if s == [] {
    } else if key(x) < key(s[0]) {
      InsertFrontStable(s, x, key, k);
    } else {
      SortedTail(s, key);
      assert Insert(s, x, key) == [s[0]] + Insert(s[1..], x, key);
      WithKeyAppend([s[0]], Insert(s[1..], x, key), key, k);
      InsertStable(s[1..], x, key, k);
      WithKeyAppend([s[0]], s[1..], key, k);
      assert [s[0]] + s[1..] == s;
    }
  }

  lemma {:induction false} NoneWithKey<T>(s: seq<T>, key: T -> int, k: int)
    requires forall y :: y in s ==> key(y) != k
    ensures WithKey(s, key, k) == []
  {
    if s != [] {
      assert s[0] in s;
      forall y | y in s[1..] ensures key(y) != k {
        assert y in s;
      }
      NoneWithKey(s[1..], key, k);
    }
  }

  /** The result of `StableSort` is in ascending order of the key. */
  lemma {:induction false} StableSortSorted<T>(s: seq<T>, key: T -> int)
    ensures SortedBy(StableSort(s, key), key)
  {
    if s != [] {
      StableSortSorted(s[..|s| - 1], key);
      InsertSorted(StableSort(s[..|s| - 1], key), s[|s| - 1], key);
    }
  }

  /** Stability: for every key, the elements carrying it appear in input order. */
  lemma {:induction false} StableSortStable<T>(s: seq<T>, key: T -> int, k: int)
    ensures WithKey(StableSort(s, key), key, k) == WithKey(s, key, k)
  {
    if s != [] {
      var init, last := s[..|s| - 1], s[|s| - 1];
      StableSortStable(init, key, k);
      StableSortSorted(init, key);
      InsertStable(StableSort(init, key), last, key, k);
      assert s == init + [last];
      WithKeyAppend(init, [last], key, k);
    }
  }

  /** `Insert` places `x` exactly at the boundary `j` between smaller-or-equal and larger keys. */
  lemma {:induction false} InsertAt<T>(s: seq<T>, x: T, key: T -> int, j: nat)
    requires j <= |s|
    requires forall m :: 0 <= m < j ==> key(s[m]) <= key(x)
    requires forall m :: j <= m < |s| ==> key(x) < key(s[m])
    ensures Insert(s, x, key) == s[..j] + [x] + s[j..]
  {
    if j > 0 {
      InsertAt(s[1..], x, key, j - 1);
      assert s[..j] == [s[0]] + s[1..][..j - 1];
      assert s[j..] == s[1..][j - 1..];
    }
  }

  /** No element of `s` occurs twice. */
  ghost predicate Distinct<T>(s: seq<T>) {
    forall m, n :: 0 <= m < n < |s| ==> s[m] != s[n]
  }

  lemma {:induction false} DistinctOccursOnce<T>(s: seq<T>, x: T)
    requires Distinct(s)
    ensures multiset(s)[x] <= 1
  {
    if s != [] {
      var init := s[..|s| - 1];
      assert s == init + [s[|s| - 1]];
      DistinctOccursOnce(init, x);
      if x == s[|s| - 1] {
        assert x !in init;
      }
    }
  }

  /** A reordering of a sequence without repetitions has none either. */
  lemma DistinctPermutation<T>(s: seq<T>, t: seq<T>)
    requires multiset(s) == multiset(t) && Distinct(s)
    ensures Distinct(t)
  {
    forall m, n | 0 <= m < n < |t| ensures t[m] != t[n] {
      DistinctOccursOnce(s, t[n]);
      assert t == t[..n] + [t[n]] + t[n + 1..];
      assert t[m] in multiset(t[..n]);
    }
  }

  /** The sum of `f` over `s`, the shape of the converter's running counters. */
  function SumBy<T>(s: seq<T>, f: T -> nat): nat {
    if s == [] then 0 else SumBy(s[..|s| - 1], f) + f(s[|s| - 1])
  }

  lemma {:induction false} SumByAppend<T>(s: seq<T>, t: seq<T>, f: T -> nat)
    ensures SumBy(s + t, f) == SumBy(s, f) + SumBy(t, f)
  {
    if t == [] {
      assert s + t == s;
    } else {
      assert (s + t)[..|s + t| - 1] == s + t[..|t| - 1];
      SumByAppend(s, t[..|t| - 1], f);
    }
  }

  /** Sums computed pointwise from two sequences agree when the summands do. */
  lemma {:induction false} SumByPointwise<T, U>(s: seq<T>, f: T -> nat, t: seq<U>, g: U -> nat)
    requires |s| == |t|
    requires forall m :: 0 <= m < |s| ==> f(s[m]) == g(t[m])
    ensures SumBy(s, f) == SumBy(t, g)
  {
    if s != [] {
      SumByPointwise(s[..|s| - 1], f, t[..|t| - 1], g);
    }
  }

  lemma {:induction false} SumByInsert<T>(s: seq<T>, x: T, key: T -> int, f: T -> nat)
    ensures SumBy(Insert(s, x, key), f) == SumBy(s, f) + f(x)
  {
    if s == [] {
      assert Insert(s, x, key) == [] + [x];
    } else if key(x) < key(s[0]) {
      SumByAppend([x], s, f);
      assert [x] == [] + [x];
    } else {
      SumByInsert(s[1..], x, key, f);
      SumByAppend([s[0]], Insert(s[1..], x, key), f);
      SumByAppend([s[0]], s[1..], f);
      assert [s[0]] + s[1..] == s;
      assert [s[0]] == [] + [s[0]];
    }
  }

  /** Sorting does not change a sum. */
  lemma {:induction false} SumByStableSort<T>(s: seq<T>, key: T -> int, f: T -> nat)
    ensures SumBy(StableSort(s, key), f) == SumBy(s, f)
  {
    if s != [] {
      SumByStableSort(s[..|s| - 1], key, f);
      SumByInsert(StableSort(s[..|s| - 1], key), s[|s| - 1], key, f);
    }
  }

  /** The inner loop of one insertion step: moves the elements before `a[i]`
      whose keys exceed `key(x)` one place right, stopping at the first that
      does not, and returns the position left free. */
  method ShiftLarger<T>(a: array<T>, i: nat, x: T, key: T -> int) returns (j: nat)
    requires i < a.Length
    modifies a
    ensures j <= i
    ensures forall m :: 0 <= m < j ==> a[m] == old(a[m])
    ensures forall m :: j < m <= i ==> a[m] == old(a[m - 1])
    ensures forall m :: i < m < a.Length ==> a[m] == old(a[m])
    ensures forall m :: j <= m < i ==> key(x) < key(old(a[m]))
    ensures j > 0 ==> key(a[j - 1]) <= key(x)
  {
    j := i;
    while j > 0 && key(x) < key(a[j - 1])
      invariant j <= i
      invariant forall m :: 0 <= m <= j ==> a[m] == old(a[m])
      invariant forall m :: j < m <= i ==> a[m] == old(a[m - 1])
      invariant forall m :: i < m < a.Length ==> a[m] == old(a[m])
      invariant forall m :: j <= m < i ==> key(x) < key(old(a[m]))
    {
      a[j] := a[j - 1];
      j := j - 1;
    }
  }

  /** One step of insertion sort: shifts `a[i]` left past the larger keys of the sorted prefix. */
  method InsertIntoPrefix<T>(a: array<T>, i: nat, key: T -> int)
    requires i < a.Length
    requires SortedBy(a[..i], key)
    modifies a
    ensures a[..i + 1] == Insert(old(a[..i]), old(a[i]), key)
    ensures a[i + 1..] == old(a[i + 1..])
  {
    ghost var done := a[..i];
    var x := a[i];
    var j := ShiftLarger(a, i, x, key);
    a[j] := x;
    forall m | 0 <= m < j ensures key(done[m]) <= key(x) {
      SortedAt(done, key, m, j - 1);
    }
    InsertAt(done, x, key, j);
    ghost var inserted := done[..j] + [x] + done[j..];
    forall m | 0 <= m <= i ensures a[m] == inserted[m] {
      if m < j {
        assert inserted[m] == done[m];
      } else if m > j {
        assert inserted[m] == done[m - 1];
      }
    }
    assert a[..i + 1] == inserted;
  }

  /** The algorithm behind Python's in-place `list.sort(key=...)`: a stable insertion sort. */
  method SortInPlace<T>(a: array<T>, key: T -> int)
    modifies a
    ensures a[..] == StableSort(old(a[..]), key)
  {
    ghost var input := a[..];
    var i := 0;
    while i < a.Length
      invariant 0 <= i <= a.Length
      invariant a[..i] == StableSort(input[..i], key)
      invariant a[i..] == input[i..]
    {
      StableSortSorted(input[..i], key);
      InsertIntoPrefix(a, i, key);
      assert input[..i + 1] == input[..i] + [input[i]];
      i := i + 1;
    }
    assert input[..a.Length] == input;
  }

  /** Python's `sorted(s, key=...)`: a new list, sorted in place. */
  method SortedCopy<T>(s: seq<T>, key: T -> int) returns (r: seq<T>)
    ensures r == StableSort(s, key)
  {
    var a := new T[|s|](i requires 0 <= i < |s| => s[i]);
    assert a[..] == s;
    SortInPlace(a, key);
    r := a[..];
  }
}
