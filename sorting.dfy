/**
 * Python's `sorted(xs, key=...)`: a stable sort. It is modelled as an
 * insertion sort, and three lemmas give the properties the report relies on:
 * the result is ordered by key, it is a permutation of the input, and the
 * elements that share a key keep their input order.
 */
module Sorting {
  import opened Keys

  /** Each element's key is at most the next one's. */
  predicate SortedBy<T>(s: seq<T>, key: T -> Key) {
    forall i :: 0 < i < |s| ==> KeyLe(key(s[i - 1]), key(s[i]))
  }

  /** The elements of `s` whose key is `k`, in their order in `s`. */
  function WithKey<T>(s: seq<T>, key: T -> Key, k: Key): seq<T> {
    if s == [] then []
    else (if key(s[0]) == k then [s[0]] else []) + WithKey(s[1..], key, k)
  }

  /** Puts `x` after every element whose key is not greater than its own. */
  function Insert<T>(x: T, s: seq<T>, key: T -> Key): seq<T> {
    if s == [] then [x]
    else if KeyLess(key(x), key(s[0])) then [x] + s
    else [s[0]] + Insert(x, s[1..], key)
  }

  /** `sorted(s, key=key)` */
  function SortBy<T>(s: seq<T>, key: T -> Key): seq<T> {
    if s == [] then []
    else Insert(s[|s| - 1], SortBy(s[..|s| - 1], key), key)
  }

  // ---------------------------------------------------------------------------

  lemma {:induction false} InsertPermutation<T>(x: T, s: seq<T>, key: T -> Key)
    ensures multiset(Insert(x, s, key)) == multiset(s) + multiset{x}
  {
    if s != [] && !KeyLess(key(x), key(s[0])) {
      InsertPermutation(x, s[1..], key);
      assert s == [s[0]] + s[1..];
    }
  }

  /** The first element after an insertion is `x` or the old first element. */
  lemma InsertHead<T>(x: T, s: seq<T>, key: T -> Key)
    ensures Insert(x, s, key) != []
    ensures Insert(x, s, key)[0] == x || (s != [] && Insert(x, s, key)[0] == s[0])
  {
  }

  lemma {:induction false} InsertSorted<T>(x: T, s: seq<T>, key: T -> Key)
    requires SortedBy(s, key)
    ensures SortedBy(Insert(x, s, key), key)
  {
    if s == [] {
    } else if KeyLess(key(x), key(s[0])) {
    } else {
      var tail := Insert(x, s[1..], key);
      InsertSorted(x, s[1..], key);
      InsertHead(x, s[1..], key);
      KeyNotLessIsLe(key(s[0]), key(x));
      var r := [s[0]] + tail;
      forall i | 0 < i < |r|
        ensures KeyLe(key(r[i - 1]), key(r[i]))
      {
        if i > 1 {
          assert r[i - 1] == tail[i - 2] && r[i] == tail[i - 1];
        }
      }
    }
  }

  /** No element of a sorted sequence has a key smaller than its first one. */
  lemma {:induction false} NoneBelowHead<T>(s: seq<T>, key: T -> Key, k: Key)
    requires SortedBy(s, key) && s != [] && KeyLess(k, key(s[0]))
    ensures WithKey(s, key, k) == []
  {
    KeyLessIrreflexive(k);
    if |s| > 1 {
      KeyLessLeTransitive(k, key(s[0]), key(s[1]));
      NoneBelowHead(s[1..], key, k);
    }
  }

  lemma {:induction false} WithKeyInsert<T>(x: T, s: seq<T>, key: T -> Key, k: Key)
    requires SortedBy(s, key)
    ensures WithKey(Insert(x, s, key), key, k)
         == WithKey(s, key, k) + (if key(x) == k then [x] else [])
  {
    var tailX: seq<T> := if key(x) == k then [x] else [];
    if s == [] {
      assert WithKey([x], key, k) == tailX + WithKey([x][1..], key, k);
    } else if KeyLess(key(x), key(s[0])) {
      var r := [x] + s;
      assert r[0] == x && r[1..] == s;
      assert WithKey(r, key, k) == tailX + WithKey(s, key, k);
      if key(x) == k {
        NoneBelowHead(s, key, k);
      }
    } else {
      var tail := Insert(x, s[1..], key);
      var r := [s[0]] + tail;
      var head: seq<T> := if key(s[0]) == k then [s[0]] else [];
      assert r[0] == s[0] && r[1..] == tail;
      assert WithKey(r, key, k) == head + WithKey(tail, key, k);
      assert WithKey(s, key, k) == head + WithKey(s[1..], key, k);
      WithKeyInsert(x, s[1..], key, k);
    }
  }

  lemma {:induction false} WithKeyAppend<T>(a: seq<T>, b: seq<T>, key: T -> Key, k: Key)
    ensures WithKey(a + b, key, k) == WithKey(a, key, k) + WithKey(b, key, k)
  {
    if a != [] {
      assert (a + b)[1..] == a[1..] + b;
      WithKeyAppend(a[1..], b, key, k);
    } else {
      assert a + b == b;
    }
  }

  // ---------------------------------------------------------------------------
  // The three properties of `sorted`

  lemma {:induction false} SortByIsSorted<T>(s: seq<T>, key: T -> Key)
    ensures SortedBy(SortBy(s, key), key)
  {
    if s != [] {
      SortByIsSorted(s[..|s| - 1], key);
      InsertSorted(s[|s| - 1], SortBy(s[..|s| - 1], key), key);
    }
  }

  lemma {:induction false} SortByIsPermutation<T>(s: seq<T>, key: T -> Key)
    ensures multiset(SortBy(s, key)) == multiset(s)
  {
    if s != [] {
      SortByIsPermutation(s[..|s| - 1], key);
      InsertPermutation(s[|s| - 1], SortBy(s[..|s| - 1], key), key);
      assert s == s[..|s| - 1] + [s[|s| - 1]];
    }
  }

  /** Stability: for every key, the elements with that key come out in input order. */
  lemma {:induction false} SortByIsStable<T>(s: seq<T>, key: T -> Key, k: Key)
    ensures WithKey(SortBy(s, key), key, k) == WithKey(s, key, k)
  {
    if s != [] {
      var init, last := s[..|s| - 1], s[|s| - 1];
      SortByIsStable(init, key, k);
      SortByIsSorted(init, key);
      WithKeyInsert(last, SortBy(init, key), key, k);
      assert s == init + [last];
      WithKeyAppend(init, [last], key, k);
    }
  }

  /** In a sorted sequence every earlier key is at most every later one. */
  lemma {:induction false} SortedPairwise<T>(s: seq<T>, key: T -> Key, i: int, j: int)
    requires SortedBy(s, key) && 0 <= i <= j < |s|
    ensures KeyLe(key(s[i]), key(s[j]))
    decreases j - i
  {
    if i < j {
      SortedPairwise(s, key, i, j - 1);
      KeyLeTransitive(key(s[i]), key(s[j - 1]), key(s[j]));
    }
  }

  lemma SortByLength<T>(s: seq<T>, key: T -> Key)
    ensures |SortBy(s, key)| == |s|
  {
    SortByIsPermutation(s, key);
    assert |multiset(SortBy(s, key))| == |multiset(s)|;
  }
}
