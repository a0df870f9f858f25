/** `Array.prototype.sort` with a comparator that orders by a key: the sort is stable
    (elements with equal keys keep their relative order), as the language guarantees. */
module Sorting {
  import opened Common

  /** A sort key compared lexicographically: first `major`, then `minor`. */
  datatype Key = Key(major: int, minor: int)

  predicate KeyLt(a: Key, b: Key) {
    a.major < b.major || (a.major == b.major && a.minor < b.minor)
  }

  predicate KeyLe(a: Key, b: Key) {
    a == b || KeyLt(a, b)
  }

  predicate SortedBy<T>(s: seq<T>, key: T -> Key) {
    forall i, j | 0 <= i < j < |s| :: KeyLe(key(s[i]), key(s[j]))
  }

  /** Places `x` after every element of `r` whose key is not greater than its own. */
  function Insert<T>(r: seq<T>, x: T, key: T -> Key): (q: seq<T>)
    ensures |q| == |r| + 1
    ensures multiset(q) == multiset(r) + multiset{x}
    decreases |r|
  {
    if r == [] then [x]
    else if KeyLt(key(x), key(r[|r| - 1])) then
      var q := Insert(r[..|r| - 1], x, key) + [r[|r| - 1]];
      assert r == r[..|r| - 1] + [r[|r| - 1]];
      q
    else
      r + [x]
  }

  lemma SortedAppend<T>(s: seq<T>, x: T, key: T -> Key)
    requires SortedBy(s, key)
    requires forall y | y in s :: KeyLe(key(y), key(x))
    ensures SortedBy(s + [x], key)
  {
    forall i, j | 0 <= i < j < |s| + 1
      ensures KeyLe(key((s + [x])[i]), key((s + [x])[j]))
    {
      if j == |s| {
        assert (s + [x])[i] in s;
      }
    }
  }

  lemma {:induction false} InsertSorted<T>(r: seq<T>, x: T, key: T -> Key)
    requires SortedBy(r, key)
    ensures SortedBy(Insert(r, x, key), key)
    decreases |r|
  {
    if r != [] {
      var init, last := r[..|r| - 1], r[|r| - 1];
      if KeyLt(key(x), key(last)) {
        InsertSorted(init, x, key);
        var q := Insert(init, x, key);
        forall y | y in q ensures KeyLe(key(y), key(last)) {
          assert y in multiset(q);
          if y != x {
            assert y in multiset(init);
            var i :| 0 <= i < |init| && init[i] == y;
            assert r[i] == y;
          }
        }
        SortedAppend(q, last, key);
      } else {
        forall y | y in r ensures KeyLe(key(y), key(x)) {
          var i :| 0 <= i < |r| && r[i] == y;
          assert KeyLe(key(r[i]), key(last));
        }
        SortedAppend(r, x, key);
      }
    }
  }

  /** The stable sort of `s` by `key`. */
  function SortBy<T>(s: seq<T>, key: T -> Key): (r: seq<T>)
    ensures |r| == |s|
    ensures multiset(r) == multiset(s)
    ensures SortedBy(r, key)
    decreases |s|
  {
    if s == [] then []
    else
      assert s == s[..|s| - 1] + [s[|s| - 1]];
      InsertSorted(SortBy(s[..|s| - 1], key), s[|s| - 1], key);
      Insert(SortBy(s[..|s| - 1], key), s[|s| - 1], key)
  }

  /** The elements whose key is `k`. */
  function HasKey<T>(key: T -> Key, k: Key): T -> bool {
    y => key(y) == k
  }

  lemma FilterSnoc<T>(s: seq<T>, x: T, p: T -> bool)
    ensures Filter(s + [x], p) == Filter(s, p) + (if p(x) then [x] else [])
  {
    assert (s + [x])[..|s|] == s;
  }

  lemma {:induction false} InsertKeepsKeyOrder<T>(r: seq<T>, x: T, key: T -> Key, k: Key)
    ensures Filter(Insert(r, x, key), HasKey(key, k)) ==
      Filter(r, HasKey(key, k)) + (if key(x) == k then [x] else [])
    decreases |r|
  {
    var p := HasKey(key, k);
    if r == [] {
      FilterSnoc([], x, p);
      assert [] + [x] == [x];
    } else if KeyLt(key(x), key(r[|r| - 1])) {
      var init, last := r[..|r| - 1], r[|r| - 1];
      InsertKeepsKeyOrder(init, x, key, k);
      var q := Insert(init, x, key);
      assert Insert(r, x, key) == q + [last];
      FilterSnoc(q, last, p);
      assert r == init + [last];
      FilterSnoc(init, last, p);
    } else {
      FilterSnoc(r, x, p);
    }
  }

  /** Stability: the elements with any one key appear in the sorted sequence in the
      order they had in the input. */
  lemma {:induction false} SortByStable<T>(s: seq<T>, key: T -> Key, k: Key)
    ensures Filter(SortBy(s, key), HasKey(key, k)) == Filter(s, HasKey(key, k))
    decreases |s|
  {
    if s != [] {
      var init, last := s[..|s| - 1], s[|s| - 1];
      SortByStable(init, key, k);
      InsertKeepsKeyOrder(SortBy(init, key), last, key, k);
      assert s == init + [last];
    }
  }

  /** Sorting a sequence that is already in order changes nothing. */
  lemma {:induction false} SortBySorted<T>(s: seq<T>, key: T -> Key)
    requires SortedBy(s, key)
    ensures SortBy(s, key) == s
    decreases |s|
  {
    if s != [] {
      var init, last := s[..|s| - 1], s[|s| - 1];
      SortBySorted(init, key);
      if init != [] {
        assert KeyLe(key(init[|init| - 1]), key(last));
      }
    }
  }
}
