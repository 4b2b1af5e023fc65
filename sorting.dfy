/** Python's `sorted(xs, key=k)` for an integer key: a stable sort, here an
    insertion sort that places each element after every earlier element
    whose key is not larger. */
module Sorting {
  predicate SortedBy<T>(s: seq<T>, key: T -> int)
  {
    forall i, j :: 0 <= i < j < |s| ==> key(s[i]) <= key(s[j])
  }

  /** Inserts x after the leading elements whose key is at most x's. */
  function Insert<T>(x: T, s: seq<T>, key: T -> int): (r: seq<T>)
    ensures multiset(r) == multiset(s) + multiset{x}
    ensures |r| == |s| + 1
  {
    if s == [] then [x]
    else if key(x) < key(s[0]) then [x] + s
    else
      assert s == [s[0]] + s[1..];
      [s[0]] + Insert(x, s[1..], key)
  }

  /** An element no larger than any of a sorted sequence's can go first. */
  lemma PrependSorted<T>(h: T, r: seq<T>, key: T -> int)
    requires SortedBy(r, key)
    requires forall y :: y in r ==> key(h) <= key(y)
    ensures SortedBy([h] + r, key)
  {
    var res := [h] + r;
    forall i, j | 0 <= i < j < |res|
      ensures key(res[i]) <= key(res[j])
    {
      assert res[j] == r[j - 1];
      if i > 0 {
        assert res[i] == r[i - 1];
      } else {
        assert r[j - 1] in r;
      }
    }
  }

  /** The first element of a sorted sequence is no larger than any other. */
  lemma SortedHeadLeast<T>(s: seq<T>, key: T -> int)
    requires s != [] && SortedBy(s, key)
    ensures forall y :: y in s ==> key(s[0]) <= key(y)
  {
    forall y | y in s
      ensures key(s[0]) <= key(y)
    {
      var i :| 0 <= i < |s| && s[i] == y;
      assert i == 0 || key(s[0]) <= key(s[i]);
    }
  }

  lemma {:induction false} InsertSorted<T>(x: T, s: seq<T>, key: T -> int)
    requires SortedBy(s, key)
    ensures SortedBy(Insert(x, s, key), key)
    ensures forall y :: y in Insert(x, s, key) ==> y == x || y in s
  {
    if s == [] {
    } else if key(x) < key(s[0]) {
      SortedHeadLeast(s, key);
      PrependSorted(x, s, key);
    } else {
      var t := s[1..];
      assert SortedBy(t, key) by {
        forall i, j | 0 <= i < j < |t|
          ensures key(t[i]) <= key(t[j])
        {
          assert t[i] == s[i + 1] && t[j] == s[j + 1];
        }
      }
      InsertSorted(x, t, key);
      var r := Insert(x, t, key);
      SortedHeadLeast(s, key);
      forall y | y in r
        ensures key(s[0]) <= key(y)
      {
        if y != x {
          assert y in s by { assert y in t; }
        }
      }
      PrependSorted(s[0], r, key);
      assert Insert(x, s, key) == [s[0]] + r;
      forall y | y in [s[0]] + r
        ensures y == x || y in s
      {
        if y != s[0] {
          assert y in r;
          if y != x {
            assert y in t;
          }
        }
      }
    }
  }

  function SortBy<T>(s: seq<T>, key: T -> int): (r: seq<T>)
    ensures multiset(r) == multiset(s)
    ensures |r| == |s|
  {
    if s == [] then []
    else
      assert s == s[..|s| - 1] + [s[|s| - 1]];
      Insert(s[|s| - 1], SortBy(s[..|s| - 1], key), key)
  }

  /** The result is sorted by the key and holds the same elements. */
  lemma {:induction false} SortBySorted<T>(s: seq<T>, key: T -> int)
    ensures SortedBy(SortBy(s, key), key)
    ensures multiset(SortBy(s, key)) == multiset(s)
  {
    if s != [] {
      SortBySorted(s[..|s| - 1], key);
      InsertSorted(s[|s| - 1], SortBy(s[..|s| - 1], key), key);
    }
  }

  /** Sorting by a comparison: `lt(a, b)` says a goes strictly before b
      (Python's `<` on the sort keys). An element is inserted before the
      first element it is below, so equal elements keep their order. */
  predicate SortedWith<T>(s: seq<T>, lt: (T, T) -> bool)
  {
    forall i, j :: 0 <= i < j < |s| ==> !lt(s[j], s[i])
  }

  /** `lt` is a strict order: irreflexive and transitive. */
  ghost predicate StrictOrder<T(!new)>(lt: (T, T) -> bool)
  {
    (forall a :: !lt(a, a)) &&
    (forall a, b, c :: lt(a, b) && lt(b, c) ==> lt(a, c))
  }

  function InsertWith<T>(x: T, s: seq<T>, lt: (T, T) -> bool): (r: seq<T>)
    ensures multiset(r) == multiset(s) + multiset{x}
    ensures |r| == |s| + 1
  {
    if s == [] then [x]
    else if lt(x, s[0]) then [x] + s
    else
      assert s == [s[0]] + s[1..];
      [s[0]] + InsertWith(x, s[1..], lt)
  }

  lemma {:induction false} InsertWithSorted<T(!new)>(x: T, s: seq<T>, lt: (T, T) -> bool)
    requires StrictOrder(lt) && SortedWith(s, lt)
    ensures SortedWith(InsertWith(x, s, lt), lt)
  {
    if s != [] && !lt(x, s[0]) {
      InsertWithSorted(x, s[1..], lt);
      var r := InsertWith(x, s[1..], lt);
      assert multiset(r) == multiset(s[1..]) + multiset{x};
      forall y | y in r
        ensures !lt(y, s[0])
      {
        assert y in multiset(r);
        if y != x {
          assert y in s[1..];
        }
      }
    }
  }

  function SortWith<T>(s: seq<T>, lt: (T, T) -> bool): (r: seq<T>)
    ensures multiset(r) == multiset(s)
    ensures |r| == |s|
  {
    if s == [] then []
    else
      assert s == s[..|s| - 1] + [s[|s| - 1]];
      InsertWith(s[|s| - 1], SortWith(s[..|s| - 1], lt), lt)
  }

  /** With a strict order, no element of the result is below an
      earlier one. */
  lemma {:induction false} SortWithSorted<T(!new)>(s: seq<T>, lt: (T, T) -> bool)
    requires StrictOrder(lt)
    ensures SortedWith(SortWith(s, lt), lt)
  {
    if s != [] {
      SortWithSorted(s[..|s| - 1], lt);
      InsertWithSorted(s[|s| - 1], SortWith(s[..|s| - 1], lt), lt);
    }
  }
}
