/** The two library sorts the analyzer relies on: `list.sort(key=...)`, which is stable and
    compares integer keys, and `sorted()` of a set of strings, which orders them by code
    point. Both are modelled by the order they produce, not by CPython's algorithm. */
module Sorting {
  import opened Text

  // ---------------------------------------------------------------------------
  // Stable sort by an integer key
  // ---------------------------------------------------------------------------

  predicate SortedBy<T>(s: seq<T>, key: T -> int) {
    forall i, j :: 0 <= i < j < |s| ==> key(s[i]) <= key(s[j])
  }

  /** The elements of `s` whose key is `k`, in their order in `s`. */
  function WithKey<T>(s: seq<T>, key: T -> int, k: int): seq<T> {
    if s == [] then [] else (if key(s[0]) == k then [s[0]] else []) + WithKey(s[1..], key, k)
  }

  lemma {:induction false} WithKeyAppend<T>(a: seq<T>, b: seq<T>, key: T -> int, k: int)
    ensures WithKey(a + b, key, k) == WithKey(a, key, k) + WithKey(b, key, k)
    decreases |a|
  {
    if a != [] {
      assert (a + b)[1..] == a[1..] + b;
      WithKeyAppend(a[1..], b, key, k);
    } else {
      assert a + b == b;
    }
  }

  lemma {:induction false} WithKeyNone<T>(s: seq<T>, key: T -> int, k: int)
    requires forall i :: 0 <= i < |s| ==> key(s[i]) != k
    ensures WithKey(s, key, k) == []
    decreases |s|
  {
    if s != [] {
      WithKeyNone(s[1..], key, k);
    }
  }

  /** `x` inserted into the sorted `s` after every element whose key is not greater. */
  function Insert<T>(x: T, s: seq<T>, key: T -> int): (r: seq<T>)
    requires SortedBy(s, key)
    ensures SortedBy(r, key)
    ensures |r| == |s| + 1
    ensures r[0] == x || (s != [] && r[0] == s[0])
  {
    if s == [] then [x]
    else if key(x) < key(s[0]) then
      ConsSorted(x, s, key);
      [x] + s
    else
      SortedTail(s, key);
      var rest := Insert(x, s[1..], key);
      ConsSorted(s[0], rest, key);
      [s[0]] + rest
  }

  /** Inserting adds `x` and keeps every other element. */
  lemma {:induction false} InsertPermutation<T>(x: T, s: seq<T>, key: T -> int)
    requires SortedBy(s, key)
    ensures multiset(Insert(x, s, key)) == multiset(s) + multiset{x}
    decreases |s|
  {
    if s == [] {
      assert Insert(x, s, key) == [x];
    } else if key(x) < key(s[0]) {
      assert Insert(x, s, key) == [x] + s;
      MultisetCons(x, s);
    } else {
      var t := s[1..];
      SortedTail(s, key);
      InsertPermutation(x, t, key);
      InsertBehind(x, s, key);
      MultisetCons(s[0], Insert(x, t, key));
      MultisetCons(s[0], t);
      assert s == [s[0]] + t;
    }
  }

  lemma MultisetCons<T>(a: T, t: seq<T>)
    ensures multiset([a] + t) == multiset{a} + multiset(t)
  {
  }

  lemma SortedTail<T>(s: seq<T>, key: T -> int)
    requires SortedBy(s, key) && s != []
    ensures SortedBy(s[1..], key)
    ensures |s| > 1 ==> key(s[0]) <= key(s[1])
  {
    assert forall i :: 0 <= i < |s| - 1 ==> s[1..][i] == s[i + 1];
  }

  lemma ConsSorted<T>(a: T, t: seq<T>, key: T -> int)
    requires SortedBy(t, key) && (t != [] ==> key(a) <= key(t[0]))
    ensures SortedBy([a] + t, key)
  {
    var r := [a] + t;
    assert forall i :: 1 <= i < |r| ==> r[i] == t[i - 1];
  }

  /** Python's stable sort by `key`: ascending keys, the same elements, and elements with
      equal keys in their original order. */
  function SortBy<T>(s: seq<T>, key: T -> int): (r: seq<T>)
    ensures SortedBy(r, key)
    ensures |r| == |s|
    ensures multiset(r) == multiset(s)
  {
    if s == [] then []
    else
      var init := s[..|s| - 1];
      assert s == init + [s[|s| - 1]];
      InsertPermutation(s[|s| - 1], SortBy(init, key), key);
      Insert(s[|s| - 1], SortBy(init, key), key)
  }

  lemma {:induction false} InsertStable<T>(x: T, s: seq<T>, key: T -> int, k: int)
    requires SortedBy(s, key)
    ensures WithKey(Insert(x, s, key), key, k) == WithKey(s, key, k) + (if key(x) == k then [x] else [])
    decreases |s|
  {
    if s == [] {
      assert WithKey([x], key, k) == (if key(x) == k then [x] else []) + WithKey([x][1..], key, k);
    } else if key(x) < key(s[0]) {
      InsertStableFront(x, s, key, k);
    } else {
      InsertStable(x, s[1..], key, k);
      InsertBehind(x, s, key);
      WithKeyConsAppend(s[0], Insert(x, s[1..], key), s[1..], if key(x) == k then [x] else [], key, k);
      assert s == [s[0]] + s[1..];
    }
  }

  lemma InsertStableFront<T>(x: T, s: seq<T>, key: T -> int, k: int)
    requires SortedBy(s, key) && s != [] && key(x) < key(s[0])
    ensures WithKey(Insert(x, s, key), key, k) == WithKey(s, key, k) + (if key(x) == k then [x] else [])
  {
    var r := [x] + s;
    assert r[1..] == s;
    assert WithKey(r, key, k) == (if key(x) == k then [x] else []) + WithKey(s, key, k);
    if key(x) == k {
      WithKeyNone(s, key, k);
    }
  }

  /** Putting the same element in front of two sequences keeps a relation between the
      elements with key `k` of each. */
  lemma WithKeyConsAppend<T>(a: T, t: seq<T>, u: seq<T>, tail: seq<T>, key: T -> int, k: int)
    requires WithKey(t, key, k) == WithKey(u, key, k) + tail
    ensures WithKey([a] + t, key, k) == WithKey([a] + u, key, k) + tail
  {
    var head: seq<T> := if key(a) == k then [a] else [];
    WithKeyCons(a, t, key, k);
    WithKeyCons(a, u, key, k);
    assert head + (WithKey(u, key, k) + tail) == (head + WithKey(u, key, k)) + tail;
  }

  lemma InsertBehind<T>(x: T, s: seq<T>, key: T -> int)
    requires SortedBy(s, key) && s != [] && key(x) >= key(s[0])
    ensures Insert(x, s, key) == [s[0]] + Insert(x, s[1..], key)
  {
  }

  lemma WithKeyCons<T>(a: T, t: seq<T>, key: T -> int, k: int)
    ensures WithKey([a] + t, key, k) == (if key(a) == k then [a] else []) + WithKey(t, key, k)
  {
    assert ([a] + t)[1..] == t;
  }

  /** The sort is stable: for every key, the elements with that key are in the same order
      before and after. */
  lemma {:induction false} SortByStable<T>(s: seq<T>, key: T -> int, k: int)
    ensures WithKey(SortBy(s, key), key, k) == WithKey(s, key, k)
    decreases |s|
  {
    if s != [] {
      var init := s[..|s| - 1];
      var last := s[|s| - 1];
      assert s == init + [last];
      SortBySnoc(init, last, key);
      SortByStable(init, key, k);
      InsertStable(last, SortBy(init, key), key, k);
      WithKeyAppend(init, [last], key, k);
      WithKeySingle(last, key, k);
    }
  }

  lemma SortBySnoc<T>(init: seq<T>, last: T, key: T -> int)
    ensures SortBy(init + [last], key) == Insert(last, SortBy(init, key), key)
  {
    var s := init + [last];
    assert s[..|s| - 1] == init;
  }

  lemma WithKeySingle<T>(x: T, key: T -> int, k: int)
    ensures WithKey([x], key, k) == if key(x) == k then [x] else []
  {
    assert WithKey([x], key, k) == (if key(x) == k then [x] else []) + WithKey([x][1..], key, k);
    assert [x][1..] == [];
  }

  /** A sequence already in key order is its own stable sort. */
  lemma {:induction false} SortBySorted<T>(s: seq<T>, key: T -> int)
    requires SortedBy(s, key)
    ensures SortBy(s, key) == s
    decreases |s|
  {
    if s != [] {
      var init := s[..|s| - 1];
      var last := s[|s| - 1];
      assert s == init + [last];
      SortedInit(init, last, key);
      SortBySorted(init, key);
      InsertLast(last, init, key);
    }
  }

  /** All but the last element of a sorted sequence are sorted and have keys no greater
      than the last one's. */
  lemma SortedInit<T>(init: seq<T>, last: T, key: T -> int)
    requires SortedBy(init + [last], key)
    ensures SortedBy(init, key)
    ensures forall i :: 0 <= i < |init| ==> key(init[i]) <= key(last)
  {
    var s := init + [last];
    assert forall i :: 0 <= i < |init| ==> s[i] == init[i];
    assert s[|init|] == last;
  }

  lemma {:induction false} InsertLast<T>(x: T, s: seq<T>, key: T -> int)
    requires SortedBy(s, key)
    requires forall i :: 0 <= i < |s| ==> key(s[i]) <= key(x)
    ensures Insert(x, s, key) == s + [x]
    decreases |s|
  {
    if s != [] {
      InsertLast(x, s[1..], key);
      assert s == [s[0]] + s[1..];
    }
  }

  /** Sorting by a key that orders elements exactly as another key does gives the same
      result. */
  lemma {:induction false} SortBySameOrder<T>(s: seq<T>, key1: T -> int, key2: T -> int)
    requires forall a, b :: key1(a) <= key1(b) <==> key2(a) <= key2(b)
    ensures SortBy(s, key1) == SortBy(s, key2)
    decreases |s|
  {
    if s != [] {
      var init := s[..|s| - 1];
      SortBySameOrder(init, key1, key2);
      InsertSameOrder(s[|s| - 1], SortBy(init, key1), key1, key2);
    }
  }

  lemma {:induction false} InsertSameOrder<T>(x: T, s: seq<T>, key1: T -> int, key2: T -> int)
    requires forall a, b :: key1(a) <= key1(b) <==> key2(a) <= key2(b)
    requires SortedBy(s, key1)
    ensures SortedBy(s, key2) && Insert(x, s, key1) == Insert(x, s, key2)
    decreases |s|
  {
    if s != [] {
      InsertSameOrder(x, s[1..], key1, key2);
    }
  }

  // ---------------------------------------------------------------------------
  // Stable sort by a pair of integer keys, compared as a Python tuple
  // ---------------------------------------------------------------------------

  /** `(a1, a2) < (b1, b2)` as Python compares tuples. */
  predicate PairLess(a1: int, a2: int, b1: int, b2: int) {
    a1 < b1 || (a1 == b1 && a2 < b2)
  }

  /** `x` inserted after every element of `s` whose key pair is not greater. */
  function InsertPair<T>(x: T, s: seq<T>, k1: T -> int, k2: T -> int): (r: seq<T>)
    ensures |r| == |s| + 1
  {
    if s == [] then [x]
    else if PairLess(k1(x), k2(x), k1(s[0]), k2(s[0])) then [x] + s
    else [s[0]] + InsertPair(x, s[1..], k1, k2)
  }

  /** `list.sort(key=lambda x: (k1(x), k2(x)))`. */
  function SortByPair<T>(s: seq<T>, k1: T -> int, k2: T -> int): (r: seq<T>)
    ensures |r| == |s|
  {
    if s == [] then [] else InsertPair(s[|s| - 1], SortByPair(s[..|s| - 1], k1, k2), k1, k2)
  }

  /** When the first key never decreases as the second grows, the pair orders elements
      exactly as the second key alone, so the two stable sorts agree. */
  lemma {:induction false} SortByPairMonotone<T>(s: seq<T>, k1: T -> int, k2: T -> int)
    requires forall a, b :: k2(a) <= k2(b) ==> k1(a) <= k1(b)
    ensures SortByPair(s, k1, k2) == SortBy(s, k2)
    decreases |s|
  {
    if s != [] {
      var init := s[..|s| - 1];
      SortByPairMonotone(init, k1, k2);
      InsertPairMonotone(s[|s| - 1], SortBy(init, k2), k1, k2);
    }
  }

  lemma {:induction false} InsertPairMonotone<T>(x: T, s: seq<T>, k1: T -> int, k2: T -> int)
    requires forall a, b :: k2(a) <= k2(b) ==> k1(a) <= k1(b)
    requires SortedBy(s, k2)
    ensures InsertPair(x, s, k1, k2) == Insert(x, s, k2)
    decreases |s|
  {
    if s != [] {
      assert PairLess(k1(x), k2(x), k1(s[0]), k2(s[0])) <==> k2(x) < k2(s[0]) by {
        if k2(x) < k2(s[0]) {
          assert k1(x) <= k1(s[0]);
        } else {
          assert k1(s[0]) <= k1(x);
        }
      }
      InsertPairMonotone(x, s[1..], k1, k2);
    }
  }

  // ---------------------------------------------------------------------------
  // sorted() of a set of strings
  // ---------------------------------------------------------------------------

  /** `x` is the smallest string of `s`. */
  predicate IsLeast(x: string, s: set<string>) {
    x in s && forall y :: y in s ==> !StrLess(y, x)
  }

  lemma LeastExists(s: set<string>)
    requires s != {}
    ensures exists x :: IsLeast(x, s)
    decreases |s|
  {
    var y :| y in s;
    if s - {y} == {} {
      assert s == {y};
      StrLessIrreflexive(y);
      assert IsLeast(y, s);
    } else {
      LeastExists(s - {y});
      var z :| IsLeast(z, s - {y});
      if StrLess(y, z) {
        forall w | w in s ensures !StrLess(w, y) {
          if w == y {
            StrLessIrreflexive(y);
          } else if StrLess(w, y) {
            StrLessTransitive(w, y, z);
          }
        }
        assert IsLeast(y, s);
      } else {
        assert IsLeast(z, s);
      }
    }
  }

  lemma LeastUnique(s: set<string>)
    ensures forall x, y :: IsLeast(x, s) && IsLeast(y, s) ==> x == y
  {
    forall x, y | IsLeast(x, s) && IsLeast(y, s) ensures x == y {
      if x != y {
        StrLessTotal(x, y);
      }
    }
  }

  /** `sorted(s)`: the strings of `s` in strictly ascending order. */
  function SortedSet(s: set<string>): (r: seq<string>)
    ensures |r| == |s|
    ensures forall x :: x in r <==> x in s
    ensures forall i, j :: 0 <= i < j < |r| ==> StrLess(r[i], r[j])
    decreases |s|
  {
    if s == {} then []
    else
      LeastExists(s);
      LeastUnique(s);
      var x :| IsLeast(x, s);
      var rest := SortedSet(s - {x});
      assert forall i :: 0 <= i < |rest| ==> StrLess(x, rest[i]) by {
        forall i | 0 <= i < |rest| ensures StrLess(x, rest[i]) {
          assert rest[i] in s - {x};
          StrLessTotal(x, rest[i]);
        }
      }
      ConsAscending(x, rest);
      [x] + rest
  }

  lemma ConsAscending(x: string, rest: seq<string>)
    requires forall i, j :: 0 <= i < j < |rest| ==> StrLess(rest[i], rest[j])
    requires forall i :: 0 <= i < |rest| ==> StrLess(x, rest[i])
    ensures forall i, j :: 0 <= i < j < |[x] + rest| ==> StrLess(([x] + rest)[i], ([x] + rest)[j])
    ensures forall y :: y in [x] + rest <==> y == x || y in rest
  {
    var r := [x] + rest;
    assert forall i :: 1 <= i < |r| ==> r[i] == rest[i - 1];
  }

  /** A strictly ascending list has no repeated element. */
  lemma SortedSetDistinct(s: set<string>)
    ensures var r := SortedSet(s); forall i, j :: 0 <= i < j < |r| ==> r[i] != r[j]
  {
    var r := SortedSet(s);
    forall i, j | 0 <= i < j < |r| ensures r[i] != r[j] {
      StrLessIrreflexive(r[i]);
    }
  }
}
