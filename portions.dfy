/** Field portions of the older allocator: a portion is kept as a string "n/d" (or "n"),
    `subtractPortions` takes one portion from another and reduces the result with
    `calculateGCD`, Euclid's algorithm over JavaScript's truncating `%`. */
module Portions {
  import opened Common

  /** A portion string as `subtractPortions` splits it: the numerator, and the denominator
      when the string has one. */
  datatype Portion = Portion(num: int, den: Option<int>)

  /** The result string `"<num>/<den>"`. */
  datatype Fraction = Fraction(num: int, den: int)

  /** `d * k`, named so that divisibility has a trigger. */
  function Multiple(d: int, k: int): int {
    d * k
  }

  /** `d` divides `x`; zero divides only zero. */
  ghost predicate Divides(d: int, x: int) {
    exists k :: Multiple(d, k) == x
  }

  // ---------------------------------------------------------------- arithmetic helpers

  /** Dividing a multiple by its factor is exact. */
  lemma MulDiv(g: int, k: int)
    requires g != 0
    ensures (g * k) / g == k
  {
    var q := (g * k) / g;
    var m := k - q;
    assert g * m == (g * k) % g by {
      assert g * m == g * k - g * q;
    }
    AbsMul(g, m);
  }

  /** Divisibility ignores the sign of the divisor. */
  lemma DividesNeg(g: int, x: int)
    requires Divides(g, x)
    ensures Divides(-g, x)
  {
    var k :| Multiple(g, k) == x;
    assert Multiple(-g, -k) == x;
  }

  /** A divisor of `a` and `b` divides `a - b * q`. */
  lemma DividesCombination(c: int, a: int, b: int, q: int)
    requires Divides(c, a) && Divides(c, b)
    ensures Divides(c, a - b * q)
  {
    var ka :| Multiple(c, ka) == a;
    var kb :| Multiple(c, kb) == b;
    assert Multiple(c, ka - kb * q) == a - b * q by {
      assert c * (ka - kb * q) == c * ka - (c * kb) * q;
    }
  }

  // ---------------------------------------------------------------- calculateGCD

  /** `calculateGCD` as written: `while (b !== 0) { [a, b] = [b, a % b] } return a`, with
      JavaScript's `%`, whose remainder takes the sign of the dividend. */
  function GcdAsWritten(a: int, b: int): int
    decreases Abs(b)
  {
    if b == 0 then a else GcdAsWritten(b, JsRem(a, b))
  }

  /** The loop of `calculateGCD`. */
  method CalculateGcd(a: int, b: int) returns (g: int)
    ensures g == GcdAsWritten(a, b)
  {
    var x, y := a, b;
    while y != 0
      invariant GcdAsWritten(x, y) == GcdAsWritten(a, b)
      decreases Abs(y)
    {
      x, y := y, JsRem(x, y);
    }
    g := x;
  }

  /** The result divides both arguments. */
  lemma {:induction false} GcdDivides(a: int, b: int)
    ensures Divides(GcdAsWritten(a, b), a) && Divides(GcdAsWritten(a, b), b)
    decreases Abs(b)
  {
    if b == 0 {
      assert Multiple(a, 1) == a;
      assert Multiple(a, 0) == b;
    } else {
      var r := JsRem(a, b);
      GcdDivides(b, r);
      var g := GcdAsWritten(a, b);
      DividesCombination(g, r, b, -JsQuot(a, b));
      assert r - b * -JsQuot(a, b) == a;
    }
  }

  /** Every common divisor of the arguments divides the result. */
  lemma {:induction false} GcdGreatest(a: int, b: int, c: int)
    requires Divides(c, a) && Divides(c, b)
    ensures Divides(c, GcdAsWritten(a, b))
    decreases Abs(b)
  {
    if b != 0 {
      DividesCombination(c, a, b, JsQuot(a, b));
      GcdGreatest(b, JsRem(a, b), c);
    }
  }

  /** The result is zero exactly when both arguments are. */
  lemma GcdZero(a: int, b: int)
    ensures GcdAsWritten(a, b) == 0 <==> a == 0 && b == 0
  {
    GcdDivides(a, b);
    if GcdAsWritten(a, b) == 0 {
      var ka :| Multiple(0, ka) == a;
      var kb :| Multiple(0, kb) == b;
    }
    if a == 0 && b == 0 {
      assert Multiple(0, 0) == 0;
      GcdGreatest(a, b, 0);
      var k :| Multiple(0, k) == GcdAsWritten(a, b);
    }
  }

  /** The intended greatest common divisor: the magnitude of `calculateGCD`'s result. */
  function Gcd(a: int, b: int): (g: nat)
    ensures g == 0 <==> a == 0 && b == 0
  {
    GcdZero(a, b);
    Abs(GcdAsWritten(a, b))
  }

  /** `Gcd` is a common divisor and a multiple of every common divisor. */
  lemma GcdSpec(a: int, b: int)
    ensures Divides(Gcd(a, b), a) && Divides(Gcd(a, b), b)
    ensures forall c | Divides(c, a) && Divides(c, b) :: Divides(c, Gcd(a, b))
  {
    var g := GcdAsWritten(a, b);
    GcdDivides(a, b);
    if g < 0 {
      DividesNeg(g, a);
      DividesNeg(g, b);
    }
    forall c | Divides(c, a) && Divides(c, b) ensures Divides(c, Gcd(a, b)) {
      GcdGreatest(a, b, c);
      var k :| Multiple(c, k) == g;
      assert Multiple(c, if g < 0 then -k else k) == Gcd(a, b);
    }
  }

  /** `calculateGCD` can return a negative value: the sign of its result follows the last
      non-zero remainder, not the magnitude. */
  lemma GcdNegative()
    ensures GcdAsWritten(-1, 2) == -1
    ensures Gcd(-1, 2) == 1
  {
    assert JsRem(-1, 2) == -1;
    assert JsRem(2, -1) == 0;
  }

  // ---------------------------------------------------------------- subtractPortions

  /** The existing portion's denominator: 1 when the string has no '/'. */
  function ExistingDen(e: Portion): int {
    e.den.GetOr(1)
  }

  /** The subtracted portion's denominator: `subtractedParts[1] || 1`, so a missing or zero
      denominator counts as 1. */
  function SubtractedDen(s: Portion): (d: int)
    ensures d != 0
  {
    match s.den
    case Some(d) => if d == 0 then 1 else d
    case None => 1
  }

  /** The cross-multiplied numerator and denominator before reduction. */
  function RawNum(e: Portion, s: Portion): int {
    e.num * SubtractedDen(s) - s.num * ExistingDen(e)
  }

  function RawDen(e: Portion, s: Portion): int {
    ExistingDen(e) * SubtractedDen(s)
  }

  /** `subtractPortions` as written: both parts divided by `calculateGCD`'s result, which
      may be negative. `None` is the "NaN/NaN" string that a zero divisor gives. */
  function SubtractAsWritten(e: Portion, s: Portion): Option<Fraction> {
    Reduce(RawNum(e, s), RawDen(e, s), GcdAsWritten(RawNum(e, s), RawDen(e, s)))
  }

  /** `subtractPortions` with the divisor's sign chosen so that the denominator comes out
      non-negative. */
  function SubtractPortions(e: Portion, s: Portion): Option<Fraction> {
    Reduce(RawNum(e, s), RawDen(e, s), SignedGcd(RawNum(e, s), RawDen(e, s)))
  }

  /** `n/d` with both parts divided by `g`; "NaN/NaN" when `g` is zero. */
  function Reduce(n: int, d: int, g: int): Option<Fraction> {
    if g == 0 then None else Some(Fraction(n / g, d / g))
  }

  /** The greatest common divisor, negated when the denominator is negative. */
  function SignedGcd(n: int, d: int): int {
    if d < 0 then -(Gcd(n, d) as int) else Gcd(n, d)
  }

  /** Dividing both parts of `n/d` by a divisor `g` of both keeps the value. */
  lemma ReduceExact(n: int, d: int, g: int)
    requires g != 0 && Divides(g, n) && Divides(g, d)
    ensures n == g * (n / g) && d == g * (d / g)
    ensures (n / g) * d == n * (d / g)
  {
    var kn :| Multiple(g, kn) == n;
    var kd :| Multiple(g, kd) == d;
    MulDiv(g, kn);
    MulDiv(g, kd);
    assert kn * (g * kd) == (g * kn) * kd;
  }

  /** As written, the result has the value of the difference, and it is missing exactly
      when both raw parts are zero. */
  lemma SubtractAsWrittenValue(e: Portion, s: Portion)
    ensures var r := SubtractAsWritten(e, s);
      && (r.None? <==> RawNum(e, s) == 0 && RawDen(e, s) == 0)
      && (r.Some? ==> r.value.num * RawDen(e, s) == RawNum(e, s) * r.value.den)
  {
    var n, d := RawNum(e, s), RawDen(e, s);
    GcdZero(n, d);
    if GcdAsWritten(n, d) != 0 {
      GcdDivides(n, d);
      ReduceExact(n, d, GcdAsWritten(n, d));
    }
  }

  /** Dividing by `-g` keeps divisibility and the value, and flips both signs. */
  lemma DividesSigned(g: int, x: int, neg: bool)
    requires g >= 0 && Divides(g, x)
    ensures Divides(if neg then -g else g, x)
  {
    if neg {
      DividesNeg(g, x);
    }
  }

  /** The reduced fraction has no common factor left. */
  /** A multiple of `g` by a multiple of `c` is a multiple of `g * c`. */
  lemma DividesProduct(g: int, c: int, q: int)
    requires Divides(c, q)
    ensures Divides(g * c, g * q)
  {
    var k :| Multiple(c, k) == q;
    assert Multiple(g * c, k) == g * q by {
      assert (g * c) * k == g * (c * k);
    }
  }

  /** A non-negative `c` with `g * c` dividing `g` is 1. */
  lemma UnitFactor(g: int, c: int)
    requires g != 0 && c >= 0 && Divides(g * c, Abs(g))
    ensures c == 1
  {
    var m :| Multiple(g * c, m) == Abs(g);
    var u := if g < 0 then -1 else 1;
    assert g * (c * m) == g * u by {
      assert (g * c) * m == g * (c * m);
    }
    MulDiv(g, c * m);
    MulDiv(g, u);
    AbsMul(c, m);
  }

  /** The reduced fraction has no common factor left. */
  lemma LowestTerms(n: int, d: int, g: int)
    requires g != 0 && Abs(g) == Gcd(n, d)
    ensures Gcd(n / g, d / g) == 1
  {
    GcdSpec(n, d);
    DividesSigned(Gcd(n, d), n, g < 0);
    DividesSigned(Gcd(n, d), d, g < 0);
    ReduceExact(n, d, g);
    var a, b := n / g, d / g;
    GcdSpec(a, b);
    var c: int := Gcd(a, b);
    DividesProduct(g, c, a);
    DividesProduct(g, c, b);
    UnitFactor(g, c);
  }

  /** The corrected subtraction: missing exactly when both raw parts are zero; otherwise
      it has the value of the difference, a non-negative denominator (positive when the
      raw one is non-zero), so with a positive raw denominator its numerator is positive
      exactly when the difference is, and it is in lowest terms. */
  lemma SubtractPortionsSpec(e: Portion, s: Portion)
    ensures var r := SubtractPortions(e, s);
      && (r.None? <==> RawNum(e, s) == 0 && RawDen(e, s) == 0)
      && (r.Some? ==>
            && r.value.num * RawDen(e, s) == RawNum(e, s) * r.value.den
            && r.value.den >= 0
            && (RawDen(e, s) != 0 ==> r.value.den > 0)
            && (RawDen(e, s) > 0 ==> (r.value.num > 0 <==> RawNum(e, s) > 0))
            && Gcd(r.value.num, r.value.den) == 1)
  {
    var n, d := RawNum(e, s), RawDen(e, s);
    if Gcd(n, d) != 0 {
      var g := if d < 0 then -(Gcd(n, d) as int) else Gcd(n, d);
      GcdSpec(n, d);
      DividesSigned(Gcd(n, d), n, d < 0);
      DividesSigned(Gcd(n, d), d, d < 0);
      ReduceExact(n, d, g);
      LowestTerms(n, d, g);
      SignOfQuotient(d, g);
      if d > 0 {
        SignOfQuotient(n, g);
      }
    }
  }

  /** With `x == g * q` and `g > 0`, or `g < 0` and `x <= 0`, the quotient's sign follows. */
  lemma SignOfQuotient(x: int, g: int)
    requires g != 0 && x == g * (x / g)
    ensures g > 0 ==> (x / g > 0 <==> x > 0) && (x / g >= 0 <==> x >= 0)
    ensures g < 0 ==> (x / g > 0 <==> x < 0) && (x / g >= 0 <==> x <= 0)
  {
    var q := x / g;
    if q > 0 {
      AbsMul(g, q);
    } else if q < 0 {
      AbsMul(g, q);
    }
  }

  /** Half a field minus a whole one: as written the result is "1/-2", whose numerator is
      positive, so the ledger keeps an over-subscribed piece; corrected it is "-1/2". */
  lemma NegativeRemainder()
    ensures SubtractAsWritten(Portion(1, Some(2)), Portion(1, None)) == Some(Fraction(1, -2))
    ensures SubtractPortions(Portion(1, Some(2)), Portion(1, None)) == Some(Fraction(-1, 2))
    ensures RawNum(Portion(1, Some(2)), Portion(1, None)) < 0
  {
    assert RawNum(Portion(1, Some(2)), Portion(1, None)) == -1;
    assert RawDen(Portion(1, Some(2)), Portion(1, None)) == 2;
    GcdNegative();
  }

  /** Taking a portion from an equal one leaves "0/1", as written and corrected. */
  lemma ZeroDifference(e: Portion, s: Portion)
    requires RawNum(e, s) == 0 && RawDen(e, s) != 0
    ensures SubtractAsWritten(e, s) == Some(Fraction(0, 1))
    ensures SubtractPortions(e, s) == Some(Fraction(0, 1))
  {
    var d := RawDen(e, s);
    assert JsRem(0, d) == 0;
    assert GcdAsWritten(0, d) == d;
    assert Gcd(0, d) == Abs(d);
  }
}
