/** Small shared vocabulary: an optional value, JavaScript's integer operators and
    a few sequence operations used throughout the scheduler model. */
module Common {

  /** An optional value; `None` stands for JavaScript's `undefined`, `null` or NaN. */
  datatype Option<T> = None | Some(value: T) {
    function GetOr(default: T): T {
      match this
      case Some(v) => v
      case None => default
    }
  }

  function Abs(x: int): (r: nat)
    ensures r == x || r == -x
  {
    if x < 0 then -x else x
  }

  /** A positive multiple is at least the factor. */
  lemma {:induction false} MulAtLeast(g: nat, m: nat)
    requires m >= 1
    ensures g * m >= g
    decreases m
  {
    if m > 1 {
      MulAtLeast(g, m - 1);
      assert g * m == g * (m - 1) + g;
    }
  }

  /** A non-zero multiple is at least as large as the factor. */
  lemma AbsMul(g: int, m: int)
    ensures m != 0 ==> Abs(g * m) >= Abs(g)
  {
    if m != 0 {
      MulAtLeast(Abs(g), Abs(m));
      assert Abs(g) * Abs(m) == Abs(g * m);
    }
  }

  /** JavaScript's integer division rounded toward zero (`Math.trunc(a / b)`). */
  function JsQuot(a: int, b: int): (q: int)
    requires b != 0
    ensures Abs(q) == Abs(a) / Abs(b)
    ensures a * b >= 0 ==> q >= 0
  {
    if (a >= 0) == (b > 0) || a == 0 then Abs(a) / Abs(b) else -(Abs(a) / Abs(b))
  }

  /** JavaScript's `%`: the remainder takes the sign of the dividend. */
  function JsRem(a: int, b: int): (r: int)
    requires b != 0
    ensures Abs(r) < Abs(b)
    ensures a >= 0 ==> r >= 0
    ensures a <= 0 ==> r <= 0
    ensures a >= 0 && b > 0 ==> r == a % b
  {
    a - b * JsQuot(a, b)
  }

  /** The elements of `s` that satisfy `p`, in their original order (`Array.prototype.filter`). */
  function Filter<T>(s: seq<T>, p: T -> bool): (r: seq<T>)
    ensures |r| <= |s|
    ensures forall x | x in r :: x in s && p(x)
    ensures forall x | x in s && p(x) :: x in r
    decreases |s|
  {
    if s == [] then []
    else if p(s[|s| - 1]) then Filter(s[..|s| - 1], p) + [s[|s| - 1]]
    else Filter(s[..|s| - 1], p)
  }

  lemma {:induction false} FilterConcat<T>(a: seq<T>, b: seq<T>, p: T -> bool)
    ensures Filter(a + b, p) == Filter(a, p) + Filter(b, p)
    decreases |b|
  {
    if b == [] {
      assert a + b == a;
    } else {
      assert (a + b)[..|a + b| - 1] == a + b[..|b| - 1];
      FilterConcat(a, b[..|b| - 1], p);
    }
  }

  /** Concatenation of a sequence of sequences (`Array.prototype.flat`). */
  function Flatten<T>(ss: seq<seq<T>>): (r: seq<T>)
    decreases |ss|
  {
    if ss == [] then [] else Flatten(ss[..|ss| - 1]) + ss[|ss| - 1]
  }

  /** Concatenation of what `f` makes of each element, in order. */
  function FlatMap<T, U>(s: seq<T>, f: T -> seq<U>): seq<U>
    decreases |s|
  {
    if s == [] then [] else FlatMap(s[..|s| - 1], f) + f(s[|s| - 1])
  }

  lemma {:induction false} FlatMapAppend<T, U>(a: seq<T>, b: seq<T>, f: T -> seq<U>)
    ensures FlatMap(a + b, f) == FlatMap(a, f) + FlatMap(b, f)
    decreases |b|
  {
    if b == [] {
      assert a + b == a;
    } else {
      assert (a + b)[..|a + b| - 1] == a + b[..|b| - 1];
      FlatMapAppend(a, b[..|b| - 1], f);
    }
  }

  lemma {:induction false} FlattenConcat<T>(a: seq<seq<T>>, b: seq<seq<T>>)
    ensures Flatten(a + b) == Flatten(a) + Flatten(b)
    decreases |b|
  {
    if b == [] {
      assert a + b == a;
    } else {
      assert (a + b)[..|a + b| - 1] == a + b[..|b| - 1];
      FlattenConcat(a, b[..|b| - 1]);
    }
  }

  lemma {:induction false} FlattenMultiset<T>(ss: seq<seq<T>>, k: nat)
    requires k < |ss|
    ensures multiset(ss[k]) <= multiset(Flatten(ss))
    decreases |ss|
  {
    if k < |ss| - 1 {
      FlattenMultiset(ss[..|ss| - 1], k);
    }
  }

  /** `a` is `b` with some elements left out and the rest in their order. */
  predicate SubseqOf<T(==)>(a: seq<T>, b: seq<T>)
    decreases |b|
  {
    if a == [] then true
    else if b == [] then false
    else (a[|a| - 1] == b[|b| - 1] && SubseqOf(a[..|a| - 1], b[..|b| - 1]))
         || SubseqOf(a, b[..|b| - 1])
  }

  lemma SubseqExtend<T>(a: seq<T>, b: seq<T>, x: T, keep: bool)
    requires SubseqOf(a, b)
    ensures keep ==> SubseqOf(a + [x], b + [x])
    ensures !keep ==> SubseqOf(a, b + [x])
  {
    assert (a + [x])[..|a|] == a;
    assert (b + [x])[..|b|] == b;
  }

  lemma {:induction false} SubseqMembers<T>(a: seq<T>, b: seq<T>)
    requires SubseqOf(a, b)
    ensures forall x | x in a :: x in b
    decreases |b|
  {
    if a != [] && b != [] {
      if a[|a| - 1] == b[|b| - 1] && SubseqOf(a[..|a| - 1], b[..|b| - 1]) {
        SubseqMembers(a[..|a| - 1], b[..|b| - 1]);
        assert a == a[..|a| - 1] + [a[|a| - 1]];
        assert b == b[..|b| - 1] + [b[|b| - 1]];
      } else {
        SubseqMembers(a, b[..|b| - 1]);
        assert b == b[..|b| - 1] + [b[|b| - 1]];
      }
    }
  }

  lemma {:induction false} FilterIsSubseq<T>(s: seq<T>, p: T -> bool)
    ensures SubseqOf(Filter(s, p), s)
    decreases |s|
  {
    if s != [] {
      var init := s[..|s| - 1];
      FilterIsSubseq(init, p);
      assert s == init + [s[|s| - 1]];
      SubseqExtend(Filter(init, p), init, s[|s| - 1], p(s[|s| - 1]));
    }
  }

  /** Dropping an element that fails the test makes the result strictly shorter. */
  lemma {:induction false} FilterDrops<T>(s: seq<T>, p: T -> bool, x: T)
    requires x in s && !p(x)
    ensures |Filter(s, p)| < |s|
    decreases |s|
  {
    if s[|s| - 1] != x {
      assert x in s[..|s| - 1] by {
        assert s == s[..|s| - 1] + [s[|s| - 1]];
      }
      FilterDrops(s[..|s| - 1], p, x);
    }
  }

  /** Filtering twice with the same test is filtering once. */
  lemma {:induction false} FilterTwice<T>(s: seq<T>, p: T -> bool)
    ensures Filter(Filter(s, p), p) == Filter(s, p)
    decreases |s|
  {
    if s != [] {
      var init := s[..|s| - 1];
      FilterTwice(init, p);
      if p(s[|s| - 1]) {
        var f := Filter(init, p) + [s[|s| - 1]];
        assert f[..|f| - 1] == Filter(init, p);
      }
    }
  }

  lemma FlattenSnoc<T>(ss: seq<seq<T>>, x: seq<T>)
    ensures Flatten(ss + [x]) == Flatten(ss) + x
  {
    assert (ss + [x])[..|ss|] == ss;
  }

  lemma {:induction false} InFlatten<T>(ss: seq<seq<T>>, k: nat, x: T)
    requires k < |ss| && x in ss[k]
    ensures x in Flatten(ss)
    decreases |ss|
  {
    if k < |ss| - 1 {
      InFlatten(ss[..|ss| - 1], k, x);
    }
  }

  /** Every element of a flattened sequence comes from one of its parts. */
  lemma {:induction false} FromFlatten<T>(ss: seq<seq<T>>, x: T) returns (k: nat)
    requires x in Flatten(ss)
    ensures k < |ss| && x in ss[k]
    decreases |ss|
  {
    var init := ss[..|ss| - 1];
    if x in Flatten(init) {
      k := FromFlatten(init, x);
    } else {
      k := |ss| - 1;
    }
  }

  lemma {:induction false} SubseqSelf<T>(s: seq<T>)
    ensures SubseqOf(s, s)
    decreases |s|
  {
    if s != [] {
      SubseqSelf(s[..|s| - 1]);
    }
  }

  /** Filters with tests that agree on every element give the same result. */
  lemma {:induction false} FilterAgree<T>(s: seq<T>, p: T -> bool, q: T -> bool)
    requires forall x | x in s :: p(x) == q(x)
    ensures Filter(s, p) == Filter(s, q)
    decreases |s|
  {
    if s != [] {
      FilterAgree(s[..|s| - 1], p, q);
    }
  }
}
