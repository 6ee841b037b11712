/** Running totals and counts over sequences: the `+=` accumulations of the analyzer, and the
    fact that reordering by the stable sort changes neither. */
module Totals {
  import opened Numbers
  import opened Sorting

  /** `0 + q(s[0]) + q(s[1]) + ...`, added left to right as a running total adds them. */
  function SumOf<T>(s: seq<T>, q: T -> Float): Float {
    if s == [] then Zero else Add(SumOf(s[..|s| - 1], q), q(s[|s| - 1]))
  }

  lemma {:induction false} SumOfAppend<T>(a: seq<T>, b: seq<T>, q: T -> Float)
    ensures SumOf(a + b, q) == Add(SumOf(a, q), SumOf(b, q))
    decreases |b|
  {
    if b == [] {
      assert a + b == a;
      AddZero(SumOf(a, q));
    } else {
      var init := b[..|b| - 1];
      assert (a + b)[..|a + b| - 1] == a + init;
      SumOfAppend(a, init, q);
      AddAssociative(SumOf(a, q), SumOf(init, q), q(b[|b| - 1]));
    }
  }

  lemma SumOfCons<T>(x: T, s: seq<T>, q: T -> Float)
    ensures SumOf([x] + s, q) == Add(q(x), SumOf(s, q))
  {
    SumOfAppend([x], s, q);
    assert [x][..0] == [];
    AddZero(q(x));
  }

  lemma {:induction false} SumOfInsert<T>(x: T, s: seq<T>, key: T -> int, q: T -> Float)
    requires SortedBy(s, key)
    ensures SumOf(Insert(x, s, key), q) == Add(SumOf(s, q), q(x))
    decreases |s|
  {
    if s == [] {
      SumOfCons(x, s, q);
      AddCommutative(q(x), Zero);
    } else if key(x) < key(s[0]) {
      SumOfCons(x, s, q);
      AddCommutative(q(x), SumOf(s, q));
    } else {
      InsertBehind(x, s, key);
      SumOfInsert(x, s[1..], key, q);
      SumOfCons(s[0], Insert(x, s[1..], key), q);
      assert s == [s[0]] + s[1..];
      SumOfCons(s[0], s[1..], q);
      AddAssociative(q(s[0]), SumOf(s[1..], q), q(x));
    }
  }

  /** A stable sort leaves the total unchanged. */
  lemma {:induction false} SumOfSortBy<T>(s: seq<T>, key: T -> int, q: T -> Float)
    ensures SumOf(SortBy(s, key), q) == SumOf(s, q)
    decreases |s|
  {
    if s != [] {
      var init := s[..|s| - 1];
      SumOfSortBy(init, key, q);
      SumOfInsert(s[|s| - 1], SortBy(init, key), key, q);
    }
  }

  /** How many elements of `s` satisfy `p`. */
  function CountOf<T>(s: seq<T>, p: T -> bool): (n: nat)
    ensures n <= |s|
  {
    if s == [] then 0 else CountOf(s[..|s| - 1], p) + (if p(s[|s| - 1]) then 1 else 0)
  }

  lemma {:induction false} CountOfAppend<T>(a: seq<T>, b: seq<T>, p: T -> bool)
    ensures CountOf(a + b, p) == CountOf(a, p) + CountOf(b, p)
    decreases |b|
  {
    if b == [] {
      assert a + b == a;
    } else {
      assert (a + b)[..|a + b| - 1] == a + b[..|b| - 1];
      CountOfAppend(a, b[..|b| - 1], p);
    }
  }

  lemma CountOfCons<T>(x: T, s: seq<T>, p: T -> bool)
    ensures CountOf([x] + s, p) == (if p(x) then 1 else 0) + CountOf(s, p)
  {
    CountOfAppend([x], s, p);
    assert [x][..0] == [];
  }

  lemma {:induction false} CountOfInsert<T>(x: T, s: seq<T>, key: T -> int, p: T -> bool)
    requires SortedBy(s, key)
    ensures CountOf(Insert(x, s, key), p) == CountOf(s, p) + (if p(x) then 1 else 0)
    decreases |s|
  {
    if s == [] || key(x) < key(s[0]) {
      CountOfCons(x, s, p);
    } else {
      InsertBehind(x, s, key);
      CountOfInsert(x, s[1..], key, p);
      CountOfCons(s[0], Insert(x, s[1..], key), p);
      assert s == [s[0]] + s[1..];
      CountOfCons(s[0], s[1..], p);
    }
  }

  /** A stable sort leaves every count unchanged. */
  lemma {:induction false} CountOfSortBy<T>(s: seq<T>, key: T -> int, p: T -> bool)
    ensures CountOf(SortBy(s, key), p) == CountOf(s, p)
    decreases |s|
  {
    if s != [] {
      var init := s[..|s| - 1];
      CountOfSortBy(init, key, p);
      CountOfInsert(s[|s| - 1], SortBy(init, key), key, p);
    }
  }

  /** Counts of complementary predicates add up to the length. */
  lemma {:induction false} CountOfComplement<T>(s: seq<T>, p: T -> bool, q: T -> bool)
    requires forall x :: p(x) != q(x)
    ensures CountOf(s, p) + CountOf(s, q) == |s|
    decreases |s|
  {
    if s != [] {
      CountOfComplement(s[..|s| - 1], p, q);
    }
  }

  /** Predicates that agree on every element count the same elements. */
  lemma {:induction false} CountOfSame<T>(s: seq<T>, p: T -> bool, q: T -> bool)
    requires forall i :: 0 <= i < |s| ==> p(s[i]) == q(s[i])
    ensures CountOf(s, p) == CountOf(s, q)
    decreases |s|
  {
    if s != [] {
      var init := s[..|s| - 1];
      assert forall i :: 0 <= i < |init| ==> init[i] == s[i];
      CountOfSame(init, p, q);
    }
  }
}
