/** Python's `list.sort(key=...)`: a stable sort by an integer key.
    `sort(key=f, reverse=True)` keeps equal keys in their original order too,
    so it is this sort with the key negated. */
module StableSort {

  /** `s` is in non-decreasing order of `key`. */
  ghost predicate SortedBy<T>(s: seq<T>, key: T -> int) {
    forall i, j :: 0 <= i < j < |s| ==> key(s[i]) <= key(s[j])
  }

  /** The elements of `s` whose key is `k`, in their order in `s`. */
  function WithKey<T>(s: seq<T>, key: T -> int, k: int): seq<T> {
    if s == [] then []
    else (if key(s[0]) == k then [s[0]] else []) + WithKey(s[1..], key, k)
  }

  /** Places `x` after every element of the sorted `r` whose key is at most `x`'s. */
  function Insert<T>(x: T, r: seq<T>, key: T -> int): (q: seq<T>)
    ensures |q| == |r| + 1
    ensures multiset(q) == multiset(r) + multiset{x}
  {
    if r == [] || key(x) < key(r[0]) then [x] + r
    else
      assert r == [r[0]] + r[1..];
      [r[0]] + Insert(x, r[1..], key)
  }

  /** Insertion sort: the last element goes in after everything sorted before it. */
  function SortBy<T>(s: seq<T>, key: T -> int): (r: seq<T>)
    ensures |r| == |s|
    ensures multiset(r) == multiset(s)
  {
    if s == [] then []
    else
      assert s == s[..|s| - 1] + [s[|s| - 1]];
      Insert(s[|s| - 1], SortBy(s[..|s| - 1], key), key)
  }

  /** Every element of `s` has a key of at least `lo`. */
  ghost predicate KeysAtLeast<T>(s: seq<T>, key: T -> int, lo: int) {
    forall i :: 0 <= i < |s| ==> lo <= key(s[i])
  }

  lemma {:induction false} InsertKeysAtLeast<T>(x: T, r: seq<T>, key: T -> int, lo: int)
    requires KeysAtLeast(r, key, lo) && lo <= key(x)
    ensures KeysAtLeast(Insert(x, r, key), key, lo)
  {
    if r != [] && key(r[0]) <= key(x) {
      assert KeysAtLeast(r[1..], key, lo) by {
        forall i | 0 <= i < |r[1..]| ensures lo <= key(r[1..][i]) {
          assert r[1..][i] == r[i + 1];
        }
      }
      InsertKeysAtLeast(x, r[1..], key, lo);
    }
  }

  lemma {:induction false} InsertSorted<T>(x: T, r: seq<T>, key: T -> int)
    requires SortedBy(r, key)
    ensures SortedBy(Insert(x, r, key), key)
  {
    if r != [] && key(r[0]) <= key(x) {
      var rest := r[1..];
      assert SortedBy(rest, key) && KeysAtLeast(rest, key, key(r[0])) by {
        forall i | 0 <= i < |rest| ensures rest[i] == r[i + 1] { }
      }
      InsertSorted(x, rest, key);
      InsertKeysAtLeast(x, rest, key, key(r[0]));
      var tail := Insert(x, rest, key);
      var q := [r[0]] + tail;
      forall i, j | 0 <= i < j < |q| ensures key(q[i]) <= key(q[j]) {
        assert q[j] == tail[j - 1];
        if i > 0 {
          assert q[i] == tail[i - 1];
        }
      }
    }
  }

  /** The sorted list is in key order and is a permutation of the input. */
  lemma {:induction false} SortBySorted<T>(s: seq<T>, key: T -> int)
    ensures SortedBy(SortBy(s, key), key)
    ensures multiset(SortBy(s, key)) == multiset(s)
  {
    if s != [] {
      SortBySorted(s[..|s| - 1], key);
      InsertSorted(s[|s| - 1], SortBy(s[..|s| - 1], key), key);
    }
  }

  lemma {:induction false} WithKeyAppend<T>(a: seq<T>, b: seq<T>, key: T -> int, k: int)
    ensures WithKey(a + b, key, k) == WithKey(a, key, k) + WithKey(b, key, k)
  {
    if a == [] {
      assert a + b == b;
    } else {
      var head := if key(a[0]) == k then [a[0]] else [];
      assert (a + b)[0] == a[0] && (a + b)[1..] == a[1..] + b;
      assert WithKey(a + b, key, k) == head + WithKey(a[1..] + b, key, k);
      WithKeyAppend(a[1..], b, key, k);
      assert head + (WithKey(a[1..], key, k) + WithKey(b, key, k))
          == (head + WithKey(a[1..], key, k)) + WithKey(b, key, k);
    }
  }

  lemma {:induction false} WithKeyNone<T>(r: seq<T>, key: T -> int, k: int)
    requires KeysAtLeast(r, key, k + 1)
    ensures WithKey(r, key, k) == []
  {
    if r != [] {
      assert KeysAtLeast(r[1..], key, k + 1) by {
        forall i | 0 <= i < |r[1..]| ensures k + 1 <= key(r[1..][i]) {
          assert r[1..][i] == r[i + 1];
        }
      }
      WithKeyNone(r[1..], key, k);
    }
  }

  lemma WithKeyCons<T>(x: T, r: seq<T>, key: T -> int, k: int)
    ensures WithKey([x] + r, key, k) == (if key(x) == k then [x] else []) + WithKey(r, key, k)
  {
    assert ([x] + r)[0] == x && ([x] + r)[1..] == r;
  }

  /** A sorted list's tail is sorted, and nothing in it is below the head. */
  lemma SortedTail<T>(r: seq<T>, key: T -> int)
    requires r != [] && SortedBy(r, key)
    ensures SortedBy(r[1..], key) && KeysAtLeast(r, key, key(r[0]))
  {
    forall i, j | 0 <= i < j < |r[1..]| ensures key(r[1..][i]) <= key(r[1..][j]) {
      assert r[1..][i] == r[i + 1] && r[1..][j] == r[j + 1];
    }
    forall i | 0 <= i < |r| ensures key(r[0]) <= key(r[i]) {
      if i > 0 {
        assert key(r[0]) <= key(r[i]);
      }
    }
  }

  lemma {:induction false} InsertWithKey<T>(x: T, r: seq<T>, key: T -> int, k: int)
    requires SortedBy(r, key)
    ensures WithKey(Insert(x, r, key), key, k)
         == WithKey(r, key, k) + (if key(x) == k then [x] else [])
  {
    if r == [] {
      WithKeyCons(x, r, key, k);
    } else {
      SortedTail(r, key);
      var tail := r[1..];
      assert r == [r[0]] + tail;
      WithKeyCons(r[0], tail, key, k);
      if key(x) < key(r[0]) {
        WithKeyCons(x, r, key, k);
        if key(x) == k {
          WithKeyNone(r, key, k);
        }
      } else {
        InsertWithKey(x, tail, key, k);
        WithKeyCons(r[0], Insert(x, tail, key), key, k);
      }
    }
  }

  lemma WithKeySnoc<T>(init: seq<T>, last: T, key: T -> int, k: int)
    ensures WithKey(init + [last], key, k) == WithKey(init, key, k) + (if key(last) == k then [last] else [])
  {
    assert [last][1..] == [];
    WithKeyAppend(init, [last], key, k);
  }

  /** Stability: for every key value, the elements carrying it keep their
      relative order. */
  lemma {:induction false} SortByStable<T>(s: seq<T>, key: T -> int, k: int)
    ensures WithKey(SortBy(s, key), key, k) == WithKey(s, key, k)
  {
    if s != [] {
      var init, last := s[..|s| - 1], s[|s| - 1];
      var sortedInit := SortBy(init, key);
      var tag := if key(last) == k then [last] else [];
      calc {
        WithKey(SortBy(s, key), key, k);
        WithKey(Insert(last, sortedInit, key), key, k);
        { SortBySorted(init, key);
          InsertWithKey(last, sortedInit, key, k); }
        WithKey(sortedInit, key, k) + tag;
        { SortByStable(init, key, k); }
        WithKey(init, key, k) + tag;
        { WithKeySnoc(init, last, key, k); }
        WithKey(init + [last], key, k);
        { assert init + [last] == s; }
        WithKey(s, key, k);
      }
    }
  }
}
