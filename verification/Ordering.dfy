/**
 * The stable ordering by an integer key that the repositories obtain from
 * LINQ's OrderBy: a sequence sorted by the key in which elements with equal
 * keys keep their input order.
 */
module Ordering {

  ghost predicate SortedBy<T>(s: seq<T>, key: T -> int)
  {
    forall i, j :: 0 <= i < j < |s| ==> key(s[i]) <= key(s[j])
  }

  /** The elements of s whose key is k, in their order in s. */
  function WithKey<T>(s: seq<T>, key: T -> int, k: int): seq<T>
  {
    if s == [] then []
    else (if key(s[0]) == k then [s[0]] else []) + WithKey(s[1..], key, k)
  }

  /** Places x before the first element whose key is not smaller than its own. */
  function Insert<T>(x: T, s: seq<T>, key: T -> int): (r: seq<T>)
    ensures |r| == |s| + 1
  {
    if s == [] || key(x) <= key(s[0]) then [x] + s
    else [s[0]] + Insert(x, s[1..], key)
  }

  /** Stable insertion sort by key. */
  function SortBy<T>(s: seq<T>, key: T -> int): (r: seq<T>)
    ensures |r| == |s|
  {
    if s == [] then [] else Insert(s[0], SortBy(s[1..], key), key)
  }

  lemma {:induction false} InsertPermutes<T>(x: T, s: seq<T>, key: T -> int)
    ensures multiset(Insert(x, s, key)) == multiset(s) + multiset{x}
  {
    if s != [] && key(x) > key(s[0]) {
      InsertPermutes(x, s[1..], key);
      assert s == [s[0]] + s[1..];
    }
  }

  /** Inserting an element no smaller than a bound into elements no smaller than it keeps them all above it. */
  lemma {:induction false} InsertLowerBound<T>(x: T, s: seq<T>, key: T -> int, b: int)
    requires b <= key(x)
    requires forall i :: 0 <= i < |s| ==> b <= key(s[i])
    ensures forall j :: 0 <= j < |Insert(x, s, key)| ==> b <= key(Insert(x, s, key)[j])
  {
    if s != [] && key(x) > key(s[0]) {
      InsertLowerBound(x, s[1..], key, b);
    }
  }

  /** An element no larger than every element of a sorted sequence can go in front of it. */
  lemma SortedCons<T>(h: T, r: seq<T>, key: T -> int)
    requires SortedBy(r, key)
    requires forall j :: 0 <= j < |r| ==> key(h) <= key(r[j])
    ensures SortedBy([h] + r, key)
  {
    var q := [h] + r;
    forall i, j | 0 <= i < j < |q| ensures key(q[i]) <= key(q[j]) {
      assert q[j] == r[j - 1];
      if i > 0 {
        assert q[i] == r[i - 1];
      }
    }
  }

  lemma {:induction false} InsertSorted<T>(x: T, s: seq<T>, key: T -> int)
    requires SortedBy(s, key)
    ensures SortedBy(Insert(x, s, key), key)
  {
    if s == [] || key(x) <= key(s[0]) {
      SortedCons(x, s, key);
    } else {
      var t := s[1..];
      assert SortedBy(t, key);
      InsertSorted(x, t, key);
      InsertLowerBound(x, t, key, key(s[0]));
      SortedCons(s[0], Insert(x, t, key), key);
    }
  }

  /** SortBy yields a sorted permutation of its input. */
  lemma {:induction false} SortBySortedPermutation<T>(s: seq<T>, key: T -> int)
    ensures SortedBy(SortBy(s, key), key)
    ensures multiset(SortBy(s, key)) == multiset(s)
    ensures |SortBy(s, key)| == |s|
  {
    SortBySorted(s, key);
    SortByPermutes(s, key);
  }

  lemma {:induction false} SortBySorted<T>(s: seq<T>, key: T -> int)
    ensures SortedBy(SortBy(s, key), key)
  {
    if s != [] {
      SortBySorted(s[1..], key);
      InsertSorted(s[0], SortBy(s[1..], key), key);
    }
  }

  lemma {:induction false} SortByPermutes<T>(s: seq<T>, key: T -> int)
    ensures multiset(SortBy(s, key)) == multiset(s)
  {
    if s != [] {
      var rest := SortBy(s[1..], key);
      SortByPermutes(s[1..], key);
      InsertPermutes(s[0], rest, key);
      assert SortBy(s, key) == Insert(s[0], rest, key);
      assert s == [s[0]] + s[1..];
      assert multiset(s) == multiset{s[0]} + multiset(s[1..]);
    }
  }

  lemma {:induction false} WithKeyInsert<T>(x: T, s: seq<T>, key: T -> int, k: int)
    ensures WithKey(Insert(x, s, key), key, k)
         == (if key(x) == k then [x] else []) + WithKey(s, key, k)
  {
    if s == [] || key(x) <= key(s[0]) {
      assert ([x] + s)[1..] == s;
    } else {
      var rest := Insert(x, s[1..], key);
      WithKeyInsert(x, s[1..], key, k);
      assert ([s[0]] + rest)[1..] == rest;
      assert WithKey(Insert(x, s, key), key, k)
          == (if key(s[0]) == k then [s[0]] else []) + WithKey(rest, key, k);
      assert WithKey(s, key, k) == (if key(s[0]) == k then [s[0]] else []) + WithKey(s[1..], key, k);
      if key(x) == k {
        assert key(s[0]) != k;
      }
    }
  }

  /** Stability: for every key, the elements with that key keep their input order. */
  lemma {:induction false} SortByStable<T>(s: seq<T>, key: T -> int, k: int)
    ensures WithKey(SortBy(s, key), key, k) == WithKey(s, key, k)
  {
    if s != [] {
      SortByStable(s[1..], key, k);
      WithKeyInsert(s[0], SortBy(s[1..], key), key, k);
    }
  }

  lemma {:induction false} WithKeyMembers<T>(s: seq<T>, key: T -> int, k: int)
    ensures forall y :: y in WithKey(s, key, k) <==> y in s && key(y) == k
  {
    if s != [] {
      WithKeyMembers(s[1..], key, k);
      assert s == [s[0]] + s[1..];
    }
  }

  lemma WithKeyHead<T>(s: seq<T>, key: T -> int)
    ensures s != [] ==> WithKey(s, key, key(s[0])) != []
  {
  }

  /**
   * A sorted sequence is determined by its per-key subsequences: two sorted
   * sequences that agree on every key's subsequence are equal.
   */
  lemma {:induction false} SortedUnique<T>(r: seq<T>, q: seq<T>, key: T -> int)
    requires SortedBy(r, key) && SortedBy(q, key)
    requires forall k :: WithKey(r, key, k) == WithKey(q, key, k)
    ensures r == q
    decreases |r|
  {
    if r == [] || q == [] {
      WithKeyHead(r, key);
      WithKeyHead(q, key);
      if r != [] || q != [] {
        assert false;
      }
    } else {
      var a, b := key(r[0]), key(q[0]);
      WithKeyMembers(r, key, b);
      WithKeyMembers(q, key, a);
      assert r[0] in WithKey(r, key, a);
      assert q[0] in WithKey(q, key, b);
      assert a == b;
      assert WithKey(r, key, a)[0] == r[0];
      assert WithKey(q, key, a)[0] == q[0];
      forall k ensures WithKey(r[1..], key, k) == WithKey(q[1..], key, k) {
        var head := if a == k then [r[0]] else [];
        assert WithKey(r, key, k) == head + WithKey(r[1..], key, k);
        assert WithKey(q, key, k) == head + WithKey(q[1..], key, k);
        assert WithKey(r[1..], key, k) == WithKey(r, key, k)[|head|..];
        assert WithKey(q[1..], key, k) == WithKey(q, key, k)[|head|..];
      }
      SortedUnique(r[1..], q[1..], key);
      assert r == [r[0]] + r[1..];
      assert q == [q[0]] + q[1..];
    }
  }

  /** r orders the elements of s by key, keeping input order among equal keys. */
  ghost predicate StableSortOf<T>(r: seq<T>, s: seq<T>, key: T -> int)
  {
    SortedBy(r, key) && forall k :: WithKey(r, key, k) == WithKey(s, key, k)
  }

  /**
   * SortBy is exactly a stable sort: r is SortBy(s, key) if and only if r is
   * sorted by key and, for every key, lists the elements with that key in
   * their input order.
   */
  lemma SortByCharacterization<T>(s: seq<T>, r: seq<T>, key: T -> int)
    ensures r == SortBy(s, key) <==> StableSortOf(r, s, key)
  {
    var sorted := SortBy(s, key);
    SortBySortedPermutation(s, key);
    forall k ensures WithKey(sorted, key, k) == WithKey(s, key, k) {
      SortByStable(s, key, k);
    }
    assert StableSortOf(sorted, s, key);
    if StableSortOf(r, s, key) {
      SortedUnique(r, sorted, key);
    }
  }

  /** Sorting keeps exactly the input's elements and its length. */
  lemma SortByMembers<T>(s: seq<T>, key: T -> int)
    ensures forall e :: e in SortBy(s, key) <==> e in s
    ensures |SortBy(s, key)| == |s|
  {
    SortBySortedPermutation(s, key);
    assert forall e :: e in SortBy(s, key) <==> e in multiset(SortBy(s, key));
    assert forall e :: e in s <==> e in multiset(s);
  }
}
