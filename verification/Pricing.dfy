/**
  The LS-LMSR cost function and its prices, as functions of the quantity vector.

  The cost is stated in its plain form b * ln(sum exp(q_i / b)) with b = alpha * sum q_i; the
  engine computes a shifted form and is proved to return this value.  The central result is that
  the price vector supports the cost function (`PricesSupportCost`): it links two functions that
  never call each other, and everything else about the market maker follows from it.
*/
module Pricing {
  import opened Transcendental
  import opened Vectors

  /** What every entry point of the engine accepts; anything else is an error there. */
  predicate ValidVector(q: seq<real>, alpha: real) {
    |q| > 0 && alpha > 0.0 && NonNegative(q) && Sum(q) > 0.0
  }

  function Liquidity(q: seq<real>, alpha: real): real {
    alpha * Sum(q)
  }

  lemma LiquidityPositive(q: seq<real>, alpha: real)
    requires ValidVector(q, alpha)
  {
  }

  function Scores(q: seq<real>, b: real): seq<real>
    requires b != 0.0
  {
    seq(|q|, i requires 0 <= i < |q| => q[i] / b)
  }

  function Weights(t: ExpLog, x: seq<real>): seq<real> {
    seq(|x|, i requires 0 <= i < |x| => t.exp(x[i]))
  }

  function LogSumExp(t: ExpLog, x: seq<real>): real {
    t.ln(Sum(Weights(t, x)))
  }

  function CostOf(t: ExpLog, q: seq<real>, alpha: real): real
    requires ValidVector(q, alpha)
  {
    LiquidityPositive(q, alpha);
    var b := Liquidity(q, alpha);
    b * LogSumExp(t, Scores(q, b))
  }

  function SoftmaxOf(t: ExpLog, x: seq<real>): seq<real>
    requires t.Valid() && |x| > 0
  {
    WeightsPositive(t, x);
    var w := Weights(t, x);
    seq(|x|, i requires 0 <= i < |x| => w[i] / Sum(w))
  }

  function Logs(t: ExpLog, s: seq<real>): seq<real> {
    seq(|s|, i requires 0 <= i < |s| => t.ln(s[i]))
  }

  function EntropyOf(t: ExpLog, s: seq<real>): real {
    -Dot(s, Logs(t, s))
  }

  /** The softmax of q / b. */
  function SharesOf(t: ExpLog, q: seq<real>, alpha: real): seq<real>
    requires t.Valid() && ValidVector(q, alpha)
  {
    LiquidityPositive(q, alpha);
    SoftmaxOf(t, Scores(q, Liquidity(q, alpha)))
  }

  /** Price i is the softmax share i plus alpha times the entropy of the softmax. */
  function PricesOf(t: ExpLog, q: seq<real>, alpha: real): seq<real>
    requires t.Valid() && ValidVector(q, alpha)
  {
    var s := SharesOf(t, q, alpha);
    seq(|q|, i requires 0 <= i < |q| => s[i] + alpha * EntropyOf(t, s))
  }

  // ----- The softmax is a probability distribution -----

  ghost predicate IsDistribution(s: seq<real>) {
    Sum(s) == 1.0 && forall i :: 0 <= i < |s| ==> 0.0 < s[i] <= 1.0
  }

  lemma WeightsPositive(t: ExpLog, x: seq<real>)
    requires t.Valid()
    ensures forall i :: 0 <= i < |x| ==> Weights(t, x)[i] > 0.0
    ensures |x| > 0 ==> Sum(Weights(t, x)) > 0.0
  {
    forall i | 0 <= i < |x| ensures Weights(t, x)[i] > 0.0 {
      t.ExpPositive(x[i]);
    }
    if |x| > 0 {
      SumPositive(Weights(t, x), |x|);
    }
  }

  lemma SoftmaxIsDistribution(t: ExpLog, x: seq<real>)
    requires t.Valid() && |x| > 0
    ensures IsDistribution(SoftmaxOf(t, x))
  {
    WeightsPositive(t, x);
    var w := Weights(t, x);
    SumNonNegative(w, |x|);
    DividedBySum(w, SoftmaxOf(t, x));
  }

  lemma DividedBySum(w: seq<real>, s: seq<real>)
    requires |w| == |s| && Sum(w) > 0.0
    requires forall i :: 0 <= i < |w| ==> 0.0 < w[i] <= Sum(w) && s[i] == w[i] / Sum(w)
    ensures IsDistribution(s)
  {
    var z := Sum(w);
    forall i | 0 <= i < |s| ensures 0.0 < s[i] <= 1.0 && s[i] == (1.0 / z) * w[i] + 0.0 {
      ShareOf(w[i], z);
      assert s[i] == w[i] / z;
    }
    SumAffine(w, s, 1.0 / z, 0.0, |w|);
    assert (1.0 / z) * z == 1.0;
  }

  lemma ShareOf(w: real, z: real)
    requires 0.0 < w <= z
    ensures 0.0 < w / z <= 1.0
  {
  }

  /** ln s_i = x_i - ln(sum exp x). */
  lemma LnOfSoftmax(t: ExpLog, x: seq<real>, i: nat)
    requires t.Valid() && i < |x|
    ensures t.ln(SoftmaxOf(t, x)[i]) == x[i] - LogSumExp(t, x)
  {
    var w := Weights(t, x);
    WeightsPositive(t, x);
    t.LnOfQuotient(w[i], Sum(w));
    t.LnOfExp(x[i]);
  }

  // ----- Gibbs' inequality -----

  lemma GibbsTerm(t: ExpLog, si: real, xi: real, z: real)
    requires t.Valid() && si > 0.0 && z > 0.0
    ensures si * xi - si * t.ln(z) - si * t.ln(si) <= t.exp(xi) / z - si
  {
    t.ExpPositive(xi);
    var e := t.exp(xi);
    QuotientPositive(e, z);
    var r := e / z / si;
    t.LnOfQuotient(e, z);
    t.LnOfQuotient(e / z, si);
    t.LnOfExp(xi);
    t.LnBelowTangent(r);
    assert t.ln(r) == xi - t.ln(z) - t.ln(si);
    var l := t.ln(r);
    MulMonotone(l, r - 1.0, si);
    assert r * si == e / z;
    var (lz, ls) := (t.ln(z), t.ln(si));
    assert (xi - lz - ls) * si == si * xi - si * lz - si * ls;
    assert (r - 1.0) * si == r * si - si;
  }

  lemma {:induction false} GibbsTo(t: ExpLog, s: seq<real>, x: seq<real>, z: real, k: nat)
    requires t.Valid() && z > 0.0
    requires k <= |s| == |x|
    requires forall i :: 0 <= i < |s| ==> s[i] > 0.0
    ensures DotTo(s, x, k) - t.ln(z) * SumTo(s, k) - DotTo(s, Logs(t, s), k)
            <= SumTo(Weights(t, x), k) / z - SumTo(s, k)
  {
    if k > 0 {
      GibbsTo(t, s, x, z, k - 1);
      var j := k - 1;
      GibbsTerm(t, s[j], x[j], z);
      assert Logs(t, s)[j] == t.ln(s[j]);
      assert Weights(t, x)[j] == t.exp(x[j]);
      ProductAdds(t.ln(z), SumTo(s, j), s[j]);
      QuotientAdds(SumTo(Weights(t, x), j), t.exp(x[j]), z);
    }
  }

  lemma ProductAdds(a: real, x: real, y: real)
    ensures a * (x + y) == a * x + y * a
  {
  }

  lemma QuotientAdds(x: real, y: real, z: real)
    requires z > 0.0
    ensures (x + y) / z == x / z + y / z
  {
  }

  lemma SelfQuotient(z: real)
    requires z > 0.0
    ensures z / z == 1.0
  {
  }

  /** Gibbs: no distribution scores above the log of the sum of exponentials. */
  lemma Gibbs(t: ExpLog, s: seq<real>, x: seq<real>)
    requires t.Valid() && |s| == |x| > 0
    requires IsDistribution(s)
    ensures Dot(s, x) + EntropyOf(t, s) <= LogSumExp(t, x)
  {
    WeightsPositive(t, x);
    var z := Sum(Weights(t, x));
    GibbsTo(t, s, x, z, |s|);
    SelfQuotient(z);
  }

  /** Equality holds at the softmax of the scores themselves. */
  lemma GibbsAttained(t: ExpLog, x: seq<real>)
    requires t.Valid() && |x| > 0
    ensures var s := SoftmaxOf(t, x);
            Dot(s, x) + EntropyOf(t, s) == LogSumExp(t, x)
  {
    SoftmaxIsDistribution(t, x);
    var s := SoftmaxOf(t, x);
    var l := LogSumExp(t, x);
    forall i | 0 <= i < |x| ensures Logs(t, s)[i] == x[i] + (-l) {
      LnOfSoftmax(t, x, i);
    }
    DotShift(s, x, Logs(t, s), -l, |x|);
  }

  lemma EntropyNonNegative(t: ExpLog, s: seq<real>)
    requires t.Valid() && IsDistribution(s)
    ensures EntropyOf(t, s) >= 0.0
  {
    var zero := seq(|s|, i => 0.0);
    forall i | 0 <= i < |s| ensures Logs(t, s)[i] <= zero[i] {
      t.LnBelowTangent(s[i]);
    }
    DotMonotone(Logs(t, s), zero, s, |s|);
    DotCommutes(s, Logs(t, s), |s|);
    DotWithZero(zero, s, |s|);
  }

  lemma {:induction false} DotWithZero(z: seq<real>, v: seq<real>, k: nat)
    requires k <= |z| && k <= |v|
    requires forall i :: 0 <= i < k ==> z[i] == 0.0
    ensures DotTo(z, v, k) == 0.0
  {
    if k > 0 {
      DotWithZero(z, v, k - 1);
    }
  }

  // ----- Prices and cost -----

  lemma SharesAreDistribution(t: ExpLog, q: seq<real>, alpha: real)
    requires t.Valid() && ValidVector(q, alpha)
    ensures |SharesOf(t, q, alpha)| == |q| && IsDistribution(SharesOf(t, q, alpha))
  {
    LiquidityPositive(q, alpha);
    SoftmaxIsDistribution(t, Scores(q, Liquidity(q, alpha)));
  }

  /** The sum of n shares that add up to one, each marked up by alpha * h. */
  lemma MarkedUpSum(s: seq<real>, p: seq<real>, alpha: real, h: real)
    requires |p| == |s| && Sum(s) == 1.0 && alpha > 0.0 && h >= 0.0
    requires forall i :: 0 <= i < |s| ==> p[i] == s[i] + alpha * h
    ensures alpha * h >= 0.0
    ensures Sum(p) == 1.0 + (|s| as real) * alpha * h >= 1.0
  {
    var (c, n) := (alpha * h, |s| as real);
    forall i | 0 <= i < |s| ensures p[i] == 1.0 * s[i] + c {
    }
    SumAffine(s, p, 1.0, c, |s|);
    assert c >= 0.0;
    assert c * n >= 0.0;
    assert c * n == n * alpha * h;
  }

  /**
    Each price is positive and at least its softmax share, and the prices sum to
    1 + n * alpha * H >= 1.
  */
  lemma PricesSumAboveOne(t: ExpLog, q: seq<real>, alpha: real)
    requires t.Valid() && ValidVector(q, alpha)
    ensures var s := SharesOf(t, q, alpha);
            var p := PricesOf(t, q, alpha);
            && |s| == |q| && IsDistribution(s)
            && EntropyOf(t, s) >= 0.0
            && (forall i :: 0 <= i < |q| ==> p[i] >= s[i] > 0.0)
            && Sum(p) == 1.0 + (|q| as real) * alpha * EntropyOf(t, s)
            && Sum(p) >= 1.0
  {
    SharesAreDistribution(t, q, alpha);
    var s := SharesOf(t, q, alpha);
    EntropyNonNegative(t, s);
    MarkedUpSum(s, PricesOf(t, q, alpha), alpha, EntropyOf(t, s));
  }

  lemma PricesPositive(t: ExpLog, q: seq<real>, alpha: real)
    requires t.Valid() && ValidVector(q, alpha)
    ensures |PricesOf(t, q, alpha)| == |q|
    ensures forall i :: 0 <= i < |q| ==> PricesOf(t, q, alpha)[i] > 0.0
    ensures Sum(PricesOf(t, q, alpha)) >= 1.0
  {
    PricesSumAboveOne(t, q, alpha);
  }

  lemma {:induction false} DotOfScores(q: seq<real>, b: real, s: seq<real>, k: nat)
    requires b != 0.0 && k <= |q| == |s|
    ensures b * DotTo(s, Scores(q, b), k) == DotTo(q, s, k)
  {
    if k > 0 {
      DotOfScores(q, b, s, k - 1);
      var (d, si, qi) := (DotTo(s, Scores(q, b), k - 1), s[k - 1], q[k - 1]);
      ScaleBack(b, si, qi);
      assert b * (d + si * (qi / b)) == b * d + b * (si * (qi / b));
    }
  }

  lemma ScaleBack(b: real, s: real, q: real)
    requires b != 0.0
    ensures b * (s * (q / b)) == q * s
  {
    var r := q / b;
    assert r * b == q;
    assert b * (s * r) == (r * b) * s;
  }

  /** The value of v at the prices of q, in terms of the softmax and the liquidity of v. */
  lemma ValueAtPrices(t: ExpLog, q: seq<real>, v: seq<real>, alpha: real)
    requires t.Valid() && ValidVector(q, alpha) && ValidVector(v, alpha) && |v| == |q|
    ensures var s := SharesOf(t, q, alpha);
            Dot(v, PricesOf(t, q, alpha)) == Dot(v, s) + Liquidity(v, alpha) * EntropyOf(t, s)
  {
    LiquidityPositive(q, alpha);
    var s := SharesOf(t, q, alpha);
    var h := EntropyOf(t, s);
    DotShift(v, s, PricesOf(t, q, alpha), alpha * h, |v|);
    var sv := Sum(v);
    assert alpha * h * sv == alpha * sv * h;
  }

  /** The cost of a vector is its value at its own prices: C(q) = sum q_i p_i(q). */
  lemma CostIsValueAtOwnPrices(t: ExpLog, q: seq<real>, alpha: real)
    requires t.Valid() && ValidVector(q, alpha)
    ensures CostOf(t, q, alpha) == Dot(q, PricesOf(t, q, alpha))
  {
    LiquidityPositive(q, alpha);
    var b := Liquidity(q, alpha);
    var x := Scores(q, b);
    var s := SoftmaxOf(t, x);
    ValueAtPrices(t, q, q, alpha);
    GibbsAttained(t, x);
    DotOfScores(q, b, s, |q|);
    var (d, h) := (Dot(s, x), EntropyOf(t, s));
    assert b * (d + h) == b * d + b * h;
  }

  /** The prices at q never value another vector above its own cost. */
  lemma CostAboveOtherPrices(t: ExpLog, q: seq<real>, v: seq<real>, alpha: real)
    requires t.Valid() && ValidVector(q, alpha) && ValidVector(v, alpha) && |v| == |q|
    ensures CostOf(t, v, alpha) >= Dot(v, PricesOf(t, q, alpha))
  {
    LiquidityPositive(q, alpha);
    LiquidityPositive(v, alpha);
    var s := SharesOf(t, q, alpha);
    SoftmaxIsDistribution(t, Scores(q, Liquidity(q, alpha)));
    ValueAtPrices(t, q, v, alpha);
    var b := Liquidity(v, alpha);
    var x := Scores(v, b);
    Gibbs(t, s, x);
    DotOfScores(v, b, s, |v|);
    var (d, h, l) := (Dot(s, x), EntropyOf(t, s), LogSumExp(t, x));
    MulMonotone(d + h, l, b);
    assert (d + h) * b == b * d + b * h;
  }

  /**
    Prices support the cost function: moving from q to v costs at least the move valued at the
    prices of q, and at most the move valued at the prices of v.
  */
  lemma PricesSupportCost(t: ExpLog, q: seq<real>, v: seq<real>, alpha: real)
    requires t.Valid() && ValidVector(q, alpha) && ValidVector(v, alpha) && |v| == |q|
    ensures var p, p' := PricesOf(t, q, alpha), PricesOf(t, v, alpha);
            Dot(v, p) - Dot(q, p)
            <= CostOf(t, v, alpha) - CostOf(t, q, alpha)
            <= Dot(v, p') - Dot(q, p')
  {
    CostIsValueAtOwnPrices(t, q, alpha);
    CostIsValueAtOwnPrices(t, v, alpha);
    CostAboveOtherPrices(t, q, v, alpha);
    CostAboveOtherPrices(t, v, q, alpha);
  }
}
