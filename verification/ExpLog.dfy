/**
  The exponential and the natural logarithm used by the pricing engine.

  Dafny has no transcendental functions, so every pricing result is stated for ANY pair of
  functions that satisfies three laws: the exponential turns sums into products, lies above its
  tangent at zero, and inverts the logarithm on positive arguments.  The real exponential and
  logarithm are such a pair; nothing else about them is used.
*/
module Transcendental {

  lemma QuotientPositive(x: real, y: real)
    requires x > 0.0 && y > 0.0
    ensures x / y > 0.0
  {
  }

  datatype ExpLog = ExpLog(exp: real -> real, ln: real -> real) {

    ghost predicate ExpAdds(a: real, b: real) {
      exp(a + b) == exp(a) * exp(b)
    }

    ghost predicate ExpAboveTangent(x: real) {
      exp(x) >= 1.0 + x
    }

    ghost predicate LnInverts(y: real) {
      y > 0.0 ==> exp(ln(y)) == y
    }

    // The laws are named predicates so that an instance is used only where a proof names it.
    ghost predicate Valid() {
      && (forall a, b :: ExpAdds(a, b))
      && (forall x :: ExpAboveTangent(x))
      && (forall y :: LnInverts(y))
    }

    lemma ExpOfSum(a: real, b: real)
      requires Valid()
      ensures exp(a + b) == exp(a) * exp(b)
    {
      assert ExpAdds(a, b);
    }

    lemma ExpZero()
      requires Valid()
      ensures exp(0.0) == 1.0
    {
      var z := exp(0.0);
      ExpOfSum(0.0, 0.0);
      assert ExpAboveTangent(0.0);
      assert 0.0 + 0.0 == 0.0;
      assert z * (z - 1.0) == 0.0;
    }

    lemma ExpPositive(x: real)
      requires Valid()
      ensures exp(x) > 0.0
    {
      var h := exp(x / 2.0);
      ExpOfSum(x / 2.0, x / 2.0);
      assert x / 2.0 + x / 2.0 == x;
      assert exp(x) == h * h >= 0.0;
      ExpOfSum(x, -x);
      ExpZero();
    }

    lemma ExpIncreases(a: real, b: real)
      requires Valid()
      requires a < b
      ensures exp(a) < exp(b)
    {
      var d := b - a;
      ExpOfSum(a, d);
      ExpPositive(a);
      assert ExpAboveTangent(d);
      var (ea, ed) := (exp(a), exp(d));
      assert a + d == b;
      assert ea * ed >= ea * (1.0 + d);
      assert ea * (1.0 + d) == ea + ea * d;
    }

    lemma LnInverse(y: real)
      requires Valid()
      requires y > 0.0
      ensures exp(ln(y)) == y
    {
      assert LnInverts(y);
    }

    lemma LnOfExp(x: real)
      requires Valid()
      ensures ln(exp(x)) == x
    {
      ExpPositive(x);
      var y := exp(x);
      LnInverse(y);
      if ln(y) < x {
        ExpIncreases(ln(y), x);
      } else if x < ln(y) {
        ExpIncreases(x, ln(y));
      }
    }

    lemma LnOne()
      requires Valid()
      ensures ln(1.0) == 0.0
    {
      ExpZero();
      LnOfExp(0.0);
    }

    lemma LnOfProduct(x: real, y: real)
      requires Valid()
      requires x > 0.0 && y > 0.0
      ensures x * y > 0.0 && ln(x * y) == ln(x) + ln(y)
    {
      LnInverse(x);
      LnInverse(y);
      var s := ln(x) + ln(y);
      ExpOfSum(ln(x), ln(y));
      assert exp(s) == x * y;
      LnOfExp(s);
    }

    lemma LnOfQuotient(x: real, y: real)
      requires Valid()
      requires x > 0.0 && y > 0.0
      ensures x / y > 0.0 && ln(x / y) == ln(x) - ln(y)
    {
      var r := x / y;
      assert r * y == x;
      QuotientPositive(x, y);
      LnOfProduct(r, y);
    }

    lemma LnBelowTangent(y: real)
      requires Valid()
      requires y > 0.0
      ensures ln(y) <= y - 1.0
    {
      LnInverse(y);
      assert ExpAboveTangent(ln(y));
    }

    lemma LnMonotone(x: real, y: real)
      requires Valid()
      requires 0.0 < x <= y
      ensures ln(x) <= ln(y)
    {
      LnInverse(x);
      LnInverse(y);
      if ln(y) < ln(x) {
        ExpIncreases(ln(y), ln(x));
      }
    }
  }
}
