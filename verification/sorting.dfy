/**
 * Python's `list.sort(key=...)` / `sorted(...)` on string keys: a stable sort
 * by code-point order of the keys, written as an insertion sort.
 */
module Sorting {
  import opened Text

  ghost predicate SortedBy<T>(s: seq<T>, key: T -> string)
  {
    forall i, j :: 0 <= i < j < |s| ==> LexLessEq(key(s[i]), key(s[j]))
  }

  /** The elements of `s` whose key is `k`, in their order in `s`. */
  function WithKey<T>(s: seq<T>, key: T -> string, k: string): seq<T>
  {
    if |s| == 0 then []
    else (if key(s[0]) == k then [s[0]] else []) + WithKey(s[1..], key, k)
  }

  /** Puts `x` before the first element whose key is not below `key(x)`. */
  function Insert<T>(x: T, s: seq<T>, key: T -> string): (r: seq<T>)
    ensures |r| == |s| + 1
    ensures multiset(r) == multiset(s) + multiset{x}
  {
    if |s| == 0 then [x]
    else if LexLessEq(key(x), key(s[0])) then [x] + s
    else
      assert s == [s[0]] + s[1..];
      [s[0]] + Insert(x, s[1..], key)
  }

  lemma {:induction false} InsertSorted<T>(x: T, s: seq<T>, key: T -> string)
    requires SortedBy(s, key)
    ensures SortedBy(Insert(x, s, key), key)
  {
    if |s| == 0 {
    } else if LexLessEq(key(x), key(s[0])) {
      var r := [x] + s;
      forall j | 1 <= j < |r|
        ensures LexLessEq(key(x), key(r[j]))
      {
        if j > 1 {
          LexTransitive(key(x), key(s[0]), key(s[j - 1]));
        }
      }
    } else {
      LexTotal(key(x), key(s[0]));
      var tail := s[1..];
      InsertSorted(x, tail, key);
      var rest := Insert(x, tail, key);
      var r := [s[0]] + rest;
      forall j | 0 <= j < |rest|
        ensures LexLessEq(key(s[0]), key(rest[j]))
      {
        assert rest[j] in multiset(rest);
        if rest[j] != x {
          assert rest[j] in multiset(tail);
          var m :| 0 <= m < |tail| && tail[m] == rest[j];
          assert s[m + 1] == tail[m];
        }
      }
      forall i, j | 0 <= i < j < |r|
        ensures LexLessEq(key(r[i]), key(r[j]))
      {
        if i > 0 {
          assert r[i] == rest[i - 1] && r[j] == rest[j - 1];
        } else {
          assert r[j] == rest[j - 1];
        }
      }
    }
  }

  lemma WithKeyCons<T>(y: T, s: seq<T>, key: T -> string, k: string)
    ensures WithKey([y] + s, key, k) == (if key(y) == k then [y] else []) + WithKey(s, key, k)
  {
    assert ([y] + s)[1..] == s;
  }

  /** An element inserted in front of the others with the same key keeps
      every other key group untouched. */
  lemma {:induction false} InsertWithKey<T>(x: T, s: seq<T>, key: T -> string, k: string)
    ensures WithKey(Insert(x, s, key), key, k)
            == (if key(x) == k then [x] else []) + WithKey(s, key, k)
  {
    if |s| == 0 {
      WithKeyCons(x, s, key, k);
    } else if LexLessEq(key(x), key(s[0])) {
      WithKeyCons(x, s, key, k);
    } else {
      var rest := Insert(x, s[1..], key);
      assert Insert(x, s, key) == [s[0]] + rest;
      WithKeyCons(s[0], rest, key, k);
      WithKeyCons(s[0], s[1..], key, k);
      assert [s[0]] + s[1..] == s;
      InsertWithKey(x, s[1..], key, k);
      if key(x) == k {
        // s[0] sorts strictly below x, so it does not share x's key
        LexReflexive(k);
        assert key(s[0]) != k;
        assert WithKey(Insert(x, s, key), key, k) == WithKey(rest, key, k);
        assert WithKey(s, key, k) == WithKey(s[1..], key, k);
      } else {
        assert WithKey(rest, key, k) == WithKey(s[1..], key, k);
      }
    }
  }

  /** `sorted(xs, key=key)`: sorted by key, a permutation of the input, and
      stable — the elements sharing a key keep their input order. */
  function SortBy<T>(xs: seq<T>, key: T -> string): (r: seq<T>)
    ensures |r| == |xs|
    ensures multiset(r) == multiset(xs)
    ensures SortedBy(r, key)
    ensures forall k :: WithKey(r, key, k) == WithKey(xs, key, k)
  {
    if |xs| == 0 then []
    else
      var rest := SortBy(xs[1..], key);
      SortStep(xs, rest, key);
      Insert(xs[0], rest, key)
  }

  /** Inserting the first element into the sorted rest sorts the whole. */
  lemma SortStep<T>(xs: seq<T>, rest: seq<T>, key: T -> string)
    requires |xs| > 0
    requires multiset(rest) == multiset(xs[1..])
    requires SortedBy(rest, key)
    requires forall k :: WithKey(rest, key, k) == WithKey(xs[1..], key, k)
    ensures multiset(Insert(xs[0], rest, key)) == multiset(xs)
    ensures SortedBy(Insert(xs[0], rest, key), key)
    ensures forall k :: WithKey(Insert(xs[0], rest, key), key, k) == WithKey(xs, key, k)
  {
    assert xs == [xs[0]] + xs[1..];
    InsertSorted(xs[0], rest, key);
    forall k
      ensures WithKey(Insert(xs[0], rest, key), key, k) == WithKey(xs, key, k)
    {
      InsertWithKey(xs[0], rest, key, k);
      WithKeyCons(xs[0], xs[1..], key, k);
    }
  }
}
