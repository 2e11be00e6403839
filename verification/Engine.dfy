/**
  The pricing engine as it runs: loops that accumulate sums, maxima and exponentials, buffers
  filled in place, and error returns.  Every method is proved to return the value fixed by the
  functions of `Pricing` and `Quotes`.
*/
module Engine {
  import opened Transcendental
  import opened Vectors
  import opened Pricing
  import opened MarketMaker
  import opened Options
  import opened Outcomes
  import opened Bisection
  import opened Amounts
  import opened Quotes

  method ComputeB(q: seq<real>, alpha: real) returns (r: Result<real>)
    ensures r == if Objection(q, alpha).Some? then Err(Objection(q, alpha).value) else Ok(Liquidity(q, alpha))
    ensures r.Ok? ==> r.value > 0.0
  {
    if |q| == 0 {
      return Err(EmptyVector);
    }
    if alpha <= 0.0 {
      return Err(NonPositiveAlpha);
    }
    var sum := 0.0;
    for i := 0 to |q|
      invariant sum == SumTo(q, i)
      invariant forall j :: 0 <= j < i ==> q[j] >= 0.0
    {
      if q[i] < 0.0 {
        return Err(NegativeShares);
      }
      sum := sum + q[i];
    }
    SumNonNegative(q, |q|);
    if sum == 0.0 {
      return Err(ZeroSum);
    }
    LiquidityPositive(q, alpha);
    var b := alpha * sum;
    assert b == Liquidity(q, alpha);
    return Ok(b);
  }

  method LargestQuantity(q: seq<real>) returns (r: Result<real>)
    ensures r == if NonNegative(q) then Ok(MaxTo(q, |q|)) else Err(NegativeShares)
  {
    var maxQ := 0.0;
    for i := 0 to |q|
      invariant maxQ == MaxTo(q, i)
      invariant forall j :: 0 <= j < i ==> q[j] >= 0.0
    {
      if q[i] < 0.0 {
        return Err(NegativeShares);
      }
      if q[i] > maxQ {
        maxQ := q[i];
      }
    }
    return Ok(maxQ);
  }

  // ----- The log-sum-exp shift -----

  function Shift(x: seq<real>, m: real): seq<real> {
    seq(|x|, i requires 0 <= i < |x| => x[i] - m)
  }

  lemma {:induction false} ShiftedWeights(t: ExpLog, x: seq<real>, m: real, k: nat)
    requires t.Valid() && k <= |x|
    ensures SumTo(Weights(t, x), k) == t.exp(m) * SumTo(Weights(t, Shift(x, m)), k)
  {
    if k > 0 {
      ShiftedWeights(t, x, m, k - 1);
      var j := k - 1;
      t.ExpOfSum(m, x[j] - m);
      assert m + (x[j] - m) == x[j];
      var (e, s, y) := (t.exp(m), SumTo(Weights(t, Shift(x, m)), j), t.exp(x[j] - m));
      assert Weights(t, Shift(x, m))[j] == y;
      assert Weights(t, x)[j] == t.exp(x[j]);
      assert e * (s + y) == e * s + e * y;
    }
  }

  /** The shift cancels: m + ln(sum exp(x - m)) is ln(sum exp x), for every m. */
  lemma ShiftCancels(t: ExpLog, x: seq<real>, m: real)
    requires t.Valid() && |x| > 0
    ensures Sum(Weights(t, Shift(x, m))) > 0.0
    ensures m + LogSumExp(t, Shift(x, m)) == LogSumExp(t, x)
  {
    WeightsPositive(t, Shift(x, m));
    ShiftedWeights(t, x, m, |x|);
    t.ExpPositive(m);
    var (e, z) := (t.exp(m), Sum(Weights(t, Shift(x, m))));
    t.LnOfProduct(e, z);
    t.LnOfExp(m);
    assert Sum(Weights(t, x)) == e * z;
  }

  lemma SumOfTopWeights(w: seq<real>, i: nat)
    requires i < |w| && w[i] == 1.0
    requires forall j :: 0 <= j < |w| ==> 0.0 < w[j] <= 1.0
    ensures 1.0 <= Sum(w) <= |w| as real
  {
    SumNonNegative(w, |w|);
    var ones := seq(|w|, j => 1.0);
    SumMonotone(w, ones, |w|);
    SumOfConstant(ones, 1.0, |w|);
  }

  lemma LargestIsAttained(q: seq<real>, alpha: real) returns (i: nat)
    requires ValidVector(q, alpha)
    ensures i < |q| && q[i] == MaxTo(q, |q|)
  {
    MaxBounds(q, |q|);
    if MaxTo(q, |q|) == 0.0 {
      SumOfConstant(q, 0.0, |q|);
    }
    i :| 0 <= i < |q| && q[i] == MaxTo(q, |q|);
  }

  lemma WeightBelowOne(t: ExpLog, qi: real, m: real, b: real)
    requires t.Valid() && b > 0.0 && qi <= m
    ensures 0.0 < t.exp(qi / b - m / b) <= 1.0
    ensures qi == m ==> t.exp(qi / b - m / b) == 1.0
  {
    QuotientMonotone(qi, m, b);
    var y := qi / b - m / b;
    t.ExpPositive(y);
    t.ExpZero();
    if y < 0.0 {
      t.ExpIncreases(y, 0.0);
    }
  }

  /** Shifted by the largest score, the sum of exponentials lies between 1 and n. */
  lemma ShiftedSumInRange(t: ExpLog, q: seq<real>, alpha: real, b: real)
    requires t.Valid() && ValidVector(q, alpha) && b > 0.0
    ensures 1.0 <= Sum(Weights(t, Shift(Scores(q, b), MaxTo(q, |q|) / b))) <= |q| as real
  {
    var m := MaxTo(q, |q|);
    var w := Weights(t, Shift(Scores(q, b), m / b));
    MaxBounds(q, |q|);
    forall i | 0 <= i < |w| ensures 0.0 < w[i] <= 1.0 && (q[i] == m ==> w[i] == 1.0) {
      WeightBelowOne(t, q[i], m, b);
    }
    var i := LargestIsAttained(q, alpha);
    SumOfTopWeights(w, i);
  }

  /** The shifted form of the cost is the plain form. */
  lemma ShiftedCost(t: ExpLog, q: seq<real>, alpha: real, b: real, m: real)
    requires t.Valid() && ValidVector(q, alpha) && b == Liquidity(q, alpha) && b > 0.0
    ensures b * (m + LogSumExp(t, Shift(Scores(q, b), m))) == CostOf(t, q, alpha)
  {
    ShiftCancels(t, Scores(q, b), m);
  }

  /** Fill a buffer with an exponential per entry and accumulate their sum. */
  method AccumulateExps(q: seq<real>, e: real -> real) returns (exps: array<real>, sumExp: real)
    ensures exps.Length == |q| && forall i :: 0 <= i < |q| ==> exps[i] == e(q[i])
    ensures sumExp == Sum(exps[..])
  {
    exps := new real[|q|];
    sumExp := 0.0;
    ghost var w := seq(|q|, i requires 0 <= i < |q| => e(q[i]));
    for i := 0 to |q|
      invariant sumExp == SumTo(w, i)
      invariant forall j :: 0 <= j < i ==> exps[j] == w[j]
    {
      exps[i] := e(q[i]);
      sumExp := sumExp + exps[i];
    }
    assert exps[..] == w;
  }

  method ShiftedExps(t: ExpLog, q: seq<real>, b: real, m: real) returns (exps: array<real>, sumExp: real)
    requires b > 0.0
    ensures exps[..] == Weights(t, Shift(Scores(q, b), m))
    ensures sumExp == Sum(Weights(t, Shift(Scores(q, b), m)))
  {
    exps, sumExp := AccumulateExps(q, qi => t.exp(qi / b - m));
    assert exps[..] == Weights(t, Shift(Scores(q, b), m));
  }

  /** The cost in its shifted form is the plain cost. */
  method Cost(t: ExpLog, q: seq<real>, alpha: real) returns (r: Result<real>)
    requires t.Valid()
    ensures r == CostResult(t, q, alpha)
  {
    if |q| == 0 {
      return Err(EmptyVector);
    }
    if alpha <= 0.0 {
      return Err(NonPositiveAlpha);
    }
    var maxQ := LargestQuantity(q);
    if maxQ.Err? {
      return Err(maxQ.error);
    }
    var b := ComputeB(q, alpha);
    if b.Err? {
      return Err(b.error);
    }
    var cost := ScaledLogSum(t, q, alpha, b.value, maxQ.value / b.value);
    return Ok(cost);
  }

  /** b * (m + ln(sum exp(q_i / b - m))). */
  method ScaledLogSum(t: ExpLog, q: seq<real>, alpha: real, b: real, m: real) returns (cost: real)
    requires t.Valid() && ValidVector(q, alpha) && b == Liquidity(q, alpha) > 0.0
    ensures cost == CostOf(t, q, alpha)
  {
    var exps, sumExp := ShiftedExps(t, q, b, m);
    ShiftedCost(t, q, alpha, b, m);
    var tmp := m + t.ln(sumExp);
    assert tmp == m + LogSumExp(t, Shift(Scores(q, b), m));
    cost := b * tmp;
  }

  /** Every entry divided by z. */
  method DivideAll(v: seq<real>, z: real) returns (r: seq<real>)
    requires z != 0.0
    ensures |r| == |v| && forall i :: 0 <= i < |v| ==> r[i] == v[i] / z
  {
    var out := new real[|v|];
    for i := 0 to |v|
      invariant forall j :: 0 <= j < i ==> out[j] == v[j] / z
    {
      out[i] := v[i] / z;
    }
    r := out[..];
  }

  /** The softmax, computed on shifted scores into buffers. */
  method SoftmaxB(t: ExpLog, q: seq<real>, b: real) returns (r: Result<seq<real>>)
    requires t.Valid()
    ensures |q| == 0 ==> r == Err(EmptyVector)
    ensures |q| > 0 && b <= 0.0 ==> r == Err(NonPositiveLiquidity)
    ensures |q| > 0 && b > 0.0 ==>
              r == if NonNegative(q) then Ok(SoftmaxOf(t, Scores(q, b))) else Err(NegativeShares)
  {
    if |q| == 0 {
      return Err(EmptyVector);
    }
    if b <= 0.0 {
      return Err(NonPositiveLiquidity);
    }
    var maxQ := LargestQuantity(q);
    if maxQ.Err? {
      return Err(maxQ.error);
    }
    var maxX := maxQ.value / b;
    var exps, sumExp := ShiftedExps(t, q, b, maxX);
    ghost var x := Scores(q, b);
    ShiftCancels(t, x, maxX);
    var s := DivideAll(exps[..], sumExp);
    SoftmaxShiftInvariant(t, x, maxX);
    assert s == SoftmaxOf(t, x);
    return Ok(s);
  }

  lemma CommonFactorCancels(e: real, a: real, z: real)
    requires e > 0.0 && z > 0.0
    ensures e * z > 0.0 && (e * a) / (e * z) == a / z
  {
    var r := a / z;
    assert r * z == a;
    assert r * (e * z) == e * (r * z);
    QuotientUnique(e * a, e * z, r);
  }

  lemma QuotientUnique(a: real, z: real, r: real)
    requires z > 0.0 && r * z == a
    ensures a / z == r
  {
  }

  lemma SoftmaxShiftInvariant(t: ExpLog, x: seq<real>, m: real)
    requires t.Valid() && |x| > 0
    requires Sum(Weights(t, Shift(x, m))) > 0.0
    ensures forall i :: 0 <= i < |x| ==>
              SoftmaxOf(t, x)[i] == Weights(t, Shift(x, m))[i] / Sum(Weights(t, Shift(x, m)))
  {
    WeightsPositive(t, x);
    ShiftedWeights(t, x, m, |x|);
    t.ExpPositive(m);
    var z := Sum(Weights(t, Shift(x, m)));
    forall i | 0 <= i < |x|
      ensures SoftmaxOf(t, x)[i] == Weights(t, Shift(x, m))[i] / z
    {
      t.ExpOfSum(m, x[i] - m);
      assert m + (x[i] - m) == x[i];
      CommonFactorCancels(t.exp(m), t.exp(x[i] - m), z);
    }
  }

  method SumOfLogs(t: ExpLog, s: seq<real>) returns (sum: real)
    ensures sum == Dot(s, Logs(t, s))
  {
    sum := 0.0;
    for i := 0 to |s|
      invariant sum == DotTo(s, Logs(t, s), i)
    {
      assert Logs(t, s)[i] == t.ln(s[i]);
      sum := sum + s[i] * t.ln(s[i]);
    }
  }

  method AddToAll(s: seq<real>, c: real) returns (r: seq<real>)
    ensures |r| == |s| && forall i :: 0 <= i < |s| ==> r[i] == s[i] + c
  {
    var out := new real[|s|];
    for i := 0 to |s|
      invariant forall j :: 0 <= j < i ==> out[j] == s[j] + c
    {
      out[i] := s[i] + c;
    }
    r := out[..];
  }

  method Prices(t: ExpLog, q: seq<real>, alpha: real) returns (r: Result<seq<real>>)
    requires t.Valid()
    ensures r == PricesResult(t, q, alpha)
  {
    if |q| == 0 {
      return Err(EmptyVector);
    }
    if alpha <= 0.0 {
      return Err(NonPositiveAlpha);
    }
    var b := ComputeB(q, alpha);
    if b.Err? {
      return Err(b.error);
    }
    var s := SoftmaxB(t, q, b.value);
    assert s == Ok(SharesOf(t, q, alpha));
    var sum := SumOfLogs(t, s.value);
    var com := alpha * -sum;
    var p := AddToAll(s.value, com);
    PricesFromShares(t, q, alpha, p, com);
    return Ok(p);
  }

  lemma PricesFromShares(t: ExpLog, q: seq<real>, alpha: real, p: seq<real>, com: real)
    requires t.Valid() && ValidVector(q, alpha) && |p| == |q|
    requires com == alpha * EntropyOf(t, SharesOf(t, q, alpha))
    requires forall i :: 0 <= i < |q| ==> p[i] == SharesOf(t, q, alpha)[i] + com
    ensures p == PricesOf(t, q, alpha)
  {
    forall i | 0 <= i < |q| ensures p[i] == PricesOf(t, q, alpha)[i] {
      assert p[i] == SharesOf(t, q, alpha)[i] + com;
    }
  }

  method SumAll(v: seq<real>) returns (sum: real)
    ensures sum == Sum(v)
  {
    sum := 0.0;
    for i := 0 to |v|
      invariant sum == SumTo(v, i)
    {
      sum := sum + v[i];
    }
  }

  function Normalized(p: seq<real>): seq<real>
    requires Sum(p) != 0.0
  {
    seq(|p|, i requires 0 <= i < |p| => p[i] / Sum(p))
  }

  method PricesNormalized(t: ExpLog, q: seq<real>, alpha: real) returns (r: Result<seq<real>>)
    requires t.Valid()
    ensures Objection(q, alpha).Some? ==> r == Err(Objection(q, alpha).value)
    ensures Objection(q, alpha).None? ==>
              Sum(PricesOf(t, q, alpha)) >= 1.0 && r == Ok(Normalized(PricesOf(t, q, alpha)))
  {
    var prices := Prices(t, q, alpha);
    if prices.Err? {
      return Err(prices.error);
    }
    var p := prices.value;
    PricesPositive(t, q, alpha);
    var sum := SumAll(p);
    var v := DivideAll(p, sum);
    assert v == Normalized(p);
    return Ok(v);
  }

  /** Normalized prices are positive, proportional to the prices, sum to one, and are ordered exactly
      as the quantities are. */
  lemma NormalizedPrices(t: ExpLog, q: seq<real>, alpha: real)
    requires t.Valid() && ValidVector(q, alpha)
    ensures Sum(PricesOf(t, q, alpha)) >= 1.0
    ensures var v := Normalized(PricesOf(t, q, alpha));
            && |v| == |q| && Sum(v) == 1.0
            && (forall i :: 0 <= i < |q| ==> v[i] > 0.0 && v[i] * Sum(PricesOf(t, q, alpha)) == PricesOf(t, q, alpha)[i])
            && (forall i, j :: 0 <= i < |q| && 0 <= j < |q| ==> (v[i] <= v[j] <==> q[i] <= q[j]))
  {
    PricesPositive(t, q, alpha);
    var p := PricesOf(t, q, alpha);
    NormalizedSum(p, Normalized(p), Sum(p));
    NormalizedOrder(t, q, alpha, Normalized(p), Sum(p));
  }

  lemma NormalizedSum(p: seq<real>, v: seq<real>, sum: real)
    requires |v| == |p| && sum == Sum(p) > 0.0
    requires forall i :: 0 <= i < |p| ==> p[i] > 0.0
    requires forall i :: 0 <= i < |p| ==> v[i] == p[i] / sum
    ensures Sum(v) == 1.0
    ensures forall i :: 0 <= i < |p| ==> v[i] > 0.0 && v[i] * sum == p[i]
  {
    forall i | 0 <= i < |p| ensures v[i] > 0.0 && v[i] * sum == p[i] && v[i] == (1.0 / sum) * p[i] + 0.0 {
      QuotientPositive(p[i], sum);
    }
    SumAffine(p, v, 1.0 / sum, 0.0, |p|);
  }

  lemma NormalizedOrder(t: ExpLog, q: seq<real>, alpha: real, v: seq<real>, sum: real)
    requires t.Valid() && ValidVector(q, alpha) && |v| == |q| && sum > 0.0
    requires forall i :: 0 <= i < |q| ==> v[i] == PricesOf(t, q, alpha)[i] / sum
    ensures forall i, j :: 0 <= i < |q| && 0 <= j < |q| ==> (v[i] <= v[j] <==> q[i] <= q[j])
  {
    forall i, j | 0 <= i < |q| && 0 <= j < |q| ensures v[i] <= v[j] <==> q[i] <= q[j] {
      PricesFollowQuantities(t, q, alpha, i, j);
      QuotientOrder(PricesOf(t, q, alpha)[i], PricesOf(t, q, alpha)[j], sum);
    }
  }

  lemma QuotientOrder(x: real, y: real, b: real)
    requires b > 0.0
    ensures x / b <= y / b <==> x <= y
  {
    var (u, v) := (x / b, y / b);
    DivideThenTimes(x, b, u);
    DivideThenTimes(y, b, v);
    if u < v {
      TimesPositive(u, v, b);
    } else if v < u {
      TimesPositive(v, u, b);
    }
  }

  /** An outcome is at least as dear as another exactly when it has at least as many shares. */
  lemma PricesFollowQuantities(t: ExpLog, q: seq<real>, alpha: real, i: nat, j: nat)
    requires t.Valid() && ValidVector(q, alpha) && i < |q| && j < |q|
    ensures PricesOf(t, q, alpha)[i] <= PricesOf(t, q, alpha)[j] <==> q[i] <= q[j]
  {
    LiquidityPositive(q, alpha);
    var b := Liquidity(q, alpha);
    var x := Scores(q, b);
    WeightsPositive(t, x);
    var w := Weights(t, x);
    QuotientOrder(q[i], q[j], b);
    ExpOrder(t, x[i], x[j]);
    QuotientOrder(w[i], w[j], Sum(w));
  }

  lemma ExpOrder(t: ExpLog, x: real, y: real)
    requires t.Valid()
    ensures t.exp(x) <= t.exp(y) <==> x <= y
  {
    if x < y {
      t.ExpIncreases(x, y);
    } else if y < x {
      t.ExpIncreases(y, x);
    }
  }

  // ----- Quotes -----

  /** The entries off the bought side are those of q. */
  ghost predicate Clean(q: seq<real>, qNext: array<real>, idx: nat, yes: bool)
    reads qNext
  {
    qNext.Length == |q| && forall i :: 0 <= i < |q| && (i == idx) != yes ==> qNext[i] == q[i]
  }

  /**
    The vector a closure call prices, written into one shared buffer.  Because the entries off
    the bought side always equal q, earlier calls leave no trace.
  */
  method WriteNext(q: seq<real>, qNext: array<real>, idx: nat, yes: bool, x: real)
    requires idx < |q| && Clean(q, qNext, idx, yes)
    modifies qNext
    ensures qNext[..] == After(q, idx, yes, x)
  {
    if yes {
      qNext[idx] := q[idx] + x;
    } else {
      for i := 0 to |q|
        invariant qNext[idx] == q[idx]
        invariant forall j :: 0 <= j < i && j != idx ==> qNext[j] == q[j] + x
      {
        if i != idx {
          qNext[i] := q[i] + x;
        }
      }
    }
  }

  lemma ExcessFromCost(t: ExpLog, q: seq<real>, alpha: real, idx: nat, yes: bool, baseCost: real, budget: real,
                       x: real, next: Result<real>)
    requires ValidVector(q, alpha) && baseCost == CostOf(t, q, alpha)
    requires next == CostResult(t, After(q, idx, yes, x), alpha)
    ensures Excess(t, q, alpha, idx, yes, budget, x) ==
            if next.Err? then Err(next.error) else Ok(next.value - baseCost - budget)
  {
  }

  /** The function searched by the purchase quote. */
  method EvaluateExcess(t: ExpLog, q: seq<real>, qNext: array<real>, alpha: real, idx: nat, yes: bool,
                        baseCost: real, budget: real, x: real, ghost f: real -> Result<real>)
    returns (r: Result<real>)
    requires t.Valid() && ValidVector(q, alpha) && idx < |q| && Clean(q, qNext, idx, yes)
    requires baseCost == CostOf(t, q, alpha) && Searches(t, q, alpha, idx, yes, budget, f)
    modifies qNext
    ensures Clean(q, qNext, idx, yes)
    ensures r == f(x)
  {
    WriteNext(q, qNext, idx, yes, x);
    var next := Cost(t, qNext[..], alpha);
    ExcessFromCost(t, q, alpha, idx, yes, baseCost, budget, x, next);
    if next.Err? {
      return Err(next.error);
    }
    return Ok(next.value - baseCost - budget);
  }

  /** f is the function searched. */
  ghost predicate Searches(t: ExpLog, q: seq<real>, alpha: real, idx: nat, yes: bool, budget: real,
                           f: real -> Result<real>)
    requires ValidVector(q, alpha)
  {
    forall x :: f(x) == Excess(t, q, alpha, idx, yes, budget, x)
  }

  /**
    The search as it runs: every midpoint is written into the one shared buffer, priced by the cost
    loops and compared with the budget.
  */
  method SearchShares(t: ExpLog, q: seq<real>, alpha: real, idx: nat, yes: bool,
                      baseCost: real, budget: real, hi0: real, tol: real, ghost f: real -> Result<real>)
    returns (r: Result<real>)
    requires t.Valid() && ValidVector(q, alpha) && idx < |q| && baseCost == CostOf(t, q, alpha)
    requires Searches(t, q, alpha, idx, yes, budget, f) && RoundsWithin(Exact, 0.0, 0.0, hi0)
    ensures r == BisectResult(0.0, hi0, tol, f, Exact, 0.0)
  {
    if 0.0 >= hi0 {
      return Err(LoNotBelowHi);
    }
    if tol <= 0.0 {
      return Err(NonPositiveTolerance);
    }
    var qNext := new real[|q|](i requires 0 <= i < |q| => q[i]);
    var lo, hi := 0.0, hi0;
    while hi - lo > tol
      invariant lo < hi && RoundsWithin(Exact, 0.0, lo, hi) && Clean(q, qNext, idx, yes)
      invariant Narrow(0.0, hi0, tol, f, Exact, 0.0) == Narrow(lo, hi, tol, f, Exact, 0.0)
      decreases Measure(lo, hi, Gap(tol, 0.0))
    {
      var mid := (lo + hi) / 2.0;
      var fMid := EvaluateExcess(t, q, qNext, alpha, idx, yes, baseCost, budget, mid, f);
      ExactStep(lo, hi, tol, f, mid, fMid);
      if fMid.Err? {
        return Err(fMid.error);
      }
      if fMid.value > 0.0 {
        hi := mid;
      } else {
        lo := mid;
      }
    }
    assert Narrow(0.0, hi0, tol, f, Exact, 0.0) == Ok(Bracket(lo, hi));
    return Ok(lo);
  }

  method PriceOfSide(p: seq<real>, idx: nat, yes: bool) returns (side: real)
    requires idx < |p|
    ensures side == SidePrice(p, idx, yes)
  {
    if yes {
      SideYes(p, idx, |p|);
      return p[idx];
    }
    side := 0.0;
    for i := 0 to |p|
      invariant side == SideTo(p, idx, false, i)
    {
      if i != idx {
        side := side + p[i];
      }
    }
  }

  /** The number of shares a budget buys. */
  method GetMaxSharesCanBuy(t: ExpLog, yes: bool, q: seq<real>, idx: int, alpha: real, budget: real)
    returns (r: Result<int>)
    requires t.Valid()
    ensures r == MaxShares(t, q, alpha, idx, yes, budget)
  {
    if budget <= 0.0 {
      return Err(NonPositiveBudget);
    }
    if idx < 0 || idx >= |q| {
      return Err(IndexOutOfRange);
    }
    if alpha <= 0.0 {
      return Err(NonPositiveAlpha);
    }
    var baseCost := Cost(t, q, alpha);
    if baseCost.Err? {
      return Err(baseCost.error);
    }
    var prices := Prices(t, q, alpha);
    var side := PriceOfSide(prices.value, idx, yes);
    if !yes && |q| == 1 {
      return Err(DivisionByZero);
    }
    SidePricePositive(t, q, alpha, idx, yes);
    ExactRounds(0.0, budget / side);
    var shares := SearchShares(t, q, alpha, idx, yes, baseCost.value, budget, budget / side, TOLERANCE,
                               x => Excess(t, q, alpha, idx, yes, budget, x));
    if shares.Err? {
      return Err(shares.error);
    }
    return Ok(Truncate(shares.value));
  }

  method CheckCap(p: seq<real>, cap: real) returns (below: bool)
    ensures below == BelowCap(p, cap)
  {
    for i := 0 to |p|
      invariant forall j :: 0 <= j < i ==> p[j] < cap
    {
      if p[i] >= cap {
        return false;
      }
    }
    return true;
  }

  method PossibleGainPriceForBuy(t: ExpLog, q: seq<real>, idx: int, yes: bool, alpha: real, budget: real, cap: real)
    returns (r: Result<BuyQuote>)
    requires t.Valid()
    ensures r == Buying(t, q, alpha, idx, yes, budget, cap)
  {
    if |q| == 0 {
      return Err(EmptyVector);
    }
    if alpha <= 0.0 {
      return Err(NonPositiveAlpha);
    }
    var gain := GetMaxSharesCanBuy(t, yes, q, idx, alpha, budget);
    if gain.Err? {
      return Err(gain.error);
    }
    if gain.value <= 0 {
      return Err(NonPositiveGain);
    }
    AfterIsValid(q, alpha, idx, yes, Amount(gain.value));
    var next := Prices(t, After(q, idx, yes, Amount(gain.value)), alpha);
    var below := CheckCap(next.value, cap);
    if !below {
      return Err(AboveCap);
    }
    return Ok(BuyQuote(gain.value, AwayFromZero(budget / Amount(gain.value))));
  }

  method PossibleGainForSell(t: ExpLog, q: seq<real>, idx: nat, boughtYes: bool, alpha: real, shares: real, cap: real)
    returns (r: Result<Option<int>>)
    requires t.Valid()
    ensures r == Selling(t, q, alpha, idx, boughtYes, shares, cap)
  {
    if |q| == 0 {
      return Err(EmptyVector);
    }
    if alpha <= 0.0 {
      return Err(NonPositiveAlpha);
    }
    if shares <= 0.0 {
      return Err(NonPositiveShares);
    }
    var hedge := Hedged(q, idx, boughtYes, shares);
    var prices := Prices(t, hedge, alpha);
    if prices.Err? {
      return Err(prices.error);
    }
    var below := CheckCap(prices.value, cap);
    if !below {
      return Ok(None);
    }
    r := GainAfterHedge(t, q, hedge, alpha, shares);
  }

  /** What a hedged position pays: its shares less the cost of the hedge. */
  method GainAfterHedge(t: ExpLog, q: seq<real>, hedge: seq<real>, alpha: real, shares: real)
    returns (r: Result<Option<int>>)
    requires t.Valid() && ValidVector(hedge, alpha)
    ensures r == HedgePayout(t, q, hedge, alpha, shares)
  {
    var baseCost := Cost(t, q, alpha);
    if baseCost.Err? {
      return Err(baseCost.error);
    }
    var hedgeCost := Cost(t, hedge, alpha);
    return Ok(Some(Truncate(shares - (hedgeCost.value - baseCost.value))));
  }
}
