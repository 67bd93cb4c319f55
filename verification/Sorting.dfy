/** Python's stable `sorted(..., key=...)`, and what its callers rely on. */
module Sorting {

  function Insert<T>(x: T, s: seq<T>, key: T -> real): seq<T>
  {
    if s == [] then [x]
    else if key(x) < key(s[0]) then [x] + s
    else [s[0]] + Insert(x, s[1..], key)
  }

  /** Insertion from the left: an element goes behind all earlier ones with the same key. */
  function SortBy<T>(s: seq<T>, key: T -> real): seq<T>
  {
    if s == [] then [] else Insert(s[|s| - 1], SortBy(s[..|s| - 1], key), key)
  }

  ghost predicate SortedBy<T>(s: seq<T>, key: T -> real)
  {
    forall i, j :: 0 <= i < j < |s| ==> key(s[i]) <= key(s[j])
  }

  /** The elements with one key, in order. */
  function WithKey<T>(s: seq<T>, key: T -> real, k: real): seq<T>
  {
    if s == [] then []
    else WithKey(s[..|s| - 1], key, k) + if key(s[|s| - 1]) == k then [s[|s| - 1]] else []
  }

  lemma {:induction false} InsertPermutes<T>(x: T, s: seq<T>, key: T -> real)
    ensures |Insert(x, s, key)| == |s| + 1
    ensures multiset(Insert(x, s, key)) == multiset(s) + multiset{x}
  {
    if s != [] && !(key(x) < key(s[0])) {
      InsertPermutes(x, s[1..], key);
      assert s == [s[0]] + s[1..];
    }
  }

  lemma {:induction false} InsertSorted<T>(x: T, s: seq<T>, key: T -> real)
    requires SortedBy(s, key)
    ensures SortedBy(Insert(x, s, key), key)
  {
    if s != [] && !(key(x) < key(s[0])) {
      InsertSorted(x, s[1..], key);
      InsertPermutes(x, s[1..], key);
      var rest := Insert(x, s[1..], key);
      forall j | 0 <= j < |rest| ensures key(s[0]) <= key(rest[j]) {
        assert rest[j] in multiset(rest);
        assert rest[j] == x || rest[j] in s[1..];
      }
    }
  }

  /** The result is ordered by key and a permutation of the argument. */
  lemma {:induction false} SortSorts<T>(s: seq<T>, key: T -> real)
    ensures SortedBy(SortBy(s, key), key)
    ensures |SortBy(s, key)| == |s|
    ensures multiset(SortBy(s, key)) == multiset(s)
  {
    if s != [] {
      SortSorts(s[..|s| - 1], key);
      InsertSorted(s[|s| - 1], SortBy(s[..|s| - 1], key), key);
      InsertPermutes(s[|s| - 1], SortBy(s[..|s| - 1], key), key);
      assert s == s[..|s| - 1] + [s[|s| - 1]];
    }
  }

  lemma {:induction false} WithKeyAppend<T>(a: seq<T>, b: seq<T>, key: T -> real, k: real)
    ensures WithKey(a + b, key, k) == WithKey(a, key, k) + WithKey(b, key, k)
  {
    if b == [] {
      assert a + b == a;
    } else {
      assert (a + b)[..|a + b| - 1] == a + b[..|b| - 1];
      WithKeyAppend(a, b[..|b| - 1], key, k);
    }
  }

  lemma {:induction false} WithKeyNone<T>(s: seq<T>, key: T -> real, k: real)
    requires forall i :: 0 <= i < |s| ==> key(s[i]) != k
    ensures WithKey(s, key, k) == []
  {
    if s != [] {
      WithKeyNone(s[..|s| - 1], key, k);
    }
  }

  lemma {:induction false} WithKeyAll<T>(s: seq<T>, key: T -> real, k: real)
    requires forall i :: 0 <= i < |s| ==> key(s[i]) == k
    ensures WithKey(s, key, k) == s
  {
    if s != [] {
      WithKeyAll(s[..|s| - 1], key, k);
    }
  }

  lemma {:induction false} WithKeyOne<T>(x: T, key: T -> real, k: real)
    ensures WithKey([x], key, k) == if key(x) == k then [x] else []
  {
    assert [x][..0] == [];
  }

  lemma {:induction false} InsertStable<T>(x: T, s: seq<T>, key: T -> real, k: real)
    requires SortedBy(s, key)
    ensures WithKey(Insert(x, s, key), key, k) == WithKey(s, key, k) + if key(x) == k then [x] else []
  {
    hide WithKey;
    WithKeyOne(x, key, k);
    if s == [] {
      WithKeyNone(s, key, k);
    } else if key(x) < key(s[0]) {
      WithKeyAppend([x], s, key, k);
      if key(x) == k {
        WithKeyNone(s, key, k);
      }
    } else {
      InsertStable(x, s[1..], key, k);
      WithKeyAppend([s[0]], Insert(x, s[1..], key), key, k);
      WithKeyAppend([s[0]], s[1..], key, k);
      assert [s[0]] + s[1..] == s;
    }
  }

  /** The elements with key `k` are `s[lo..hi]`, smaller ones before and greater ones behind. */
  ghost predicate Block<T>(s: seq<T>, key: T -> real, k: real, lo: nat, hi: nat)
  {
    && lo <= hi <= |s|
    && (forall i :: 0 <= i < lo ==> key(s[i]) < k)
    && (forall i :: lo <= i < hi ==> key(s[i]) == k)
    && (forall i :: hi <= i < |s| ==> key(s[i]) > k)
  }

  /** In an ordered list the elements with one key stand together. */
  lemma {:induction false} KeyBlock<T>(s: seq<T>, key: T -> real, k: real) returns (lo: nat, hi: nat)
    requires SortedBy(s, key)
    ensures Block(s, key, k, lo, hi)
  {
    lo := 0;
    while lo < |s| && key(s[lo]) < k
      invariant lo <= |s| && forall i :: 0 <= i < lo ==> key(s[i]) < k
    {
      lo := lo + 1;
    }
    hi := lo;
    while hi < |s| && key(s[hi]) == k
      invariant lo <= hi <= |s| && forall i :: lo <= i < hi ==> key(s[i]) == k
    {
      hi := hi + 1;
    }
  }

  lemma {:induction false} BlockIsWithKey<T>(s: seq<T>, key: T -> real, k: real, lo: nat, hi: nat)
    requires Block(s, key, k, lo, hi)
    ensures WithKey(s, key, k) == s[lo..hi]
  {
    hide WithKey;
    WithKeyNone(s[..lo], key, k);
    WithKeyAll(s[lo..hi], key, k);
    WithKeyNone(s[hi..], key, k);
    WithKeyAppend(s[lo..hi], s[hi..], key, k);
    WithKeyAppend(s[..lo], s[lo..hi] + s[hi..], key, k);
    assert s == s[..lo] + (s[lo..hi] + s[hi..]);
  }

  /** The sort is stable: elements with equal keys keep their order. */
  lemma {:induction false} SortStable<T>(s: seq<T>, key: T -> real, k: real)
    ensures WithKey(SortBy(s, key), key, k) == WithKey(s, key, k)
  {
    if s != [] {
      SortStable(s[..|s| - 1], key, k);
      SortSorts(s[..|s| - 1], key);
      InsertStable(s[|s| - 1], SortBy(s[..|s| - 1], key), key, k);
    }
  }
}
