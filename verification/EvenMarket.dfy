/**
  Markets seeded alike, and concrete quotes on them: prices in closed form, the browser's payout on
  the no side of three outcomes, and a no bet that the server accepts.
*/
module EvenMarket {
  import opened Transcendental
  import opened Vectors
  import opened Pricing
  import opened MarketMaker
  import opened Options
  import opened Outcomes
  import opened Amounts
  import opened Quotes
  import Browser
  import Engine
  import Bisection

  // ----- Prices of an even market -----

  lemma ShareOfEqualWeights(n: real, e: real, z: real)
    requires n > 0.0 && e > 0.0 && z == n * e
    ensures z > 0.0 && e / z == 1.0 / n
  {
    var r := 1.0 / n;
    assert r * n == 1.0;
    assert r * (n * e) == (r * n) * e;
    Engine.QuotientUnique(e, z, r);
  }

  /** Equal scores get equal shares. */
  lemma EvenShares(t: ExpLog, x: seq<real>, c: real)
    requires t.Valid() && |x| > 0 && forall i :: 0 <= i < |x| ==> x[i] == c
    ensures forall i :: 0 <= i < |x| ==> SoftmaxOf(t, x)[i] == 1.0 / |x| as real
  {
    var (n, e, w) := (|x| as real, t.exp(c), Weights(t, x));
    WeightsPositive(t, x);
    SumOfConstant(w, e, |x|);
    assert w[0] == e;
    ShareOfEqualWeights(n, e, Sum(w));
  }

  /** Their entropy is ln n, the largest there is. */
  lemma EvenEntropy(t: ExpLog, x: seq<real>, c: real)
    requires t.Valid() && |x| > 0 && forall i :: 0 <= i < |x| ==> x[i] == c
    ensures EntropyOf(t, SoftmaxOf(t, x)) == t.ln(|x| as real)
  {
    var s := SoftmaxOf(t, x);
    LogSumOfEqual(t, x, c);
    GibbsAttained(t, x);
    SoftmaxIsDistribution(t, x);
    DotOfConstant(s, x, c, |x|);
  }

  /** Every price of a market of n outcomes with equal quantities is 1/n + alpha * ln n. */
  lemma EvenPrices(t: ExpLog, q: seq<real>, alpha: real, c: real)
    requires t.Valid() && ValidVector(q, alpha) && forall i :: 0 <= i < |q| ==> q[i] == c
    ensures forall i :: 0 <= i < |q| ==> PricesOf(t, q, alpha)[i] == 1.0 / |q| as real + alpha * t.ln(|q| as real)
  {
    LiquidityPositive(q, alpha);
    var b := Liquidity(q, alpha);
    EvenShares(t, Scores(q, b), c / b);
    EvenEntropy(t, Scores(q, b), c / b);
  }

  lemma LnThree(t: ExpLog)
    requires t.Valid()
    ensures 2.0 / 3.0 <= t.ln(3.0) <= 2.0
  {
    t.LnBelowTangent(3.0);
    t.LnBelowTangent(1.0 / 3.0);
    t.LnOfQuotient(1.0, 3.0);
    t.LnOne();
  }

  function Even(c: real): seq<real> {
    [c, c, c]
  }

  lemma EvenIsValid(c: real, alpha: real)
    requires c > 0.0 && alpha > 0.0
    ensures ValidVector(Even(c), alpha)
  {
    SumPositive(Even(c), 3);
  }

  lemma SumOfThree(v: seq<real>)
    requires |v| == 3
    ensures Sum(v) == v[0] + v[1] + v[2]
  {
    assert SumTo(v, 3) == SumTo(v, 2) + v[2];
    assert SumTo(v, 2) == SumTo(v, 1) + v[1];
    assert SumTo(v, 1) == SumTo(v, 0) + v[0];
  }

  // ----- A no bet that the server accepts -----

  lemma EntropyBelow(t: ExpLog, s: seq<real>)
    requires t.Valid() && |s| > 0 && IsDistribution(s)
    ensures EntropyOf(t, s) <= t.ln(|s| as real)
  {
    var x := seq(|s|, i => 0.0);
    Gibbs(t, s, x);
    LogSumOfEqual(t, x, 0.0);
    DotOfConstant(s, x, 0.0, |s|);
  }

  lemma ExpBelowTwo(t: ExpLog, d: real)
    requires t.Valid() && 0.0 <= d <= 0.5
    ensures 1.0 <= t.exp(d) <= 2.0
  {
    t.ExpOfSum(d, -d);
    t.ExpZero();
    assert d + -d == 0.0;
    assert t.ExpAboveTangent(d) && t.ExpAboveTangent(-d);
    var (e, f) := (t.exp(d), t.exp(-d));
    assert e * f == 1.0 && f >= 0.5;
    assert e * (f - 0.5) >= 0.0;
  }

  const ALPHA: real := 0.01
  const CAP: real := 0.95

  /** The market after x shares on the no side of its first outcome. */
  function Raised(x: real): seq<real> {
    [100.0, 100.0 + x, 100.0 + x]
  }

  lemma RaisedIsAfter(x: real)
    ensures Raised(x) == After(Even(100.0), 0, false, x)
  {
  }

  lemma RaisedIsValid(alpha: real, x: real)
    requires alpha >= ALPHA && x >= 0.0
    ensures ValidVector(Raised(x), alpha) && Liquidity(Raised(x), alpha) >= 3.0
  {
    SumOfThree(Raised(x));
    MulMonotone(ALPHA, alpha, Sum(Raised(x)));
  }

  /** The first share stays at least a fifth as long as x is small beside the liquidity, and the
      other two are equal. */
  lemma FirstShare(t: ExpLog, alpha: real, x: real)
    requires t.Valid() && alpha >= ALPHA && 0.0 <= x <= 1.5
    ensures ValidVector(Raised(x), alpha)
    ensures var s := SharesOf(t, Raised(x), alpha); s[0] >= 0.2 && s[0] + s[1] + s[2] == 1.0 && s[1] == s[2]
  {
    var q := Raised(x);
    RaisedIsValid(alpha, x);
    var b := Liquidity(q, alpha);
    var scores := Scores(q, b);
    var w := Weights(t, scores);
    SmallQuotient(x, b);
    ExpBelowTwo(t, x / b);
    QuotientAdds(100.0, x, b);
    t.ExpOfSum(100.0 / b, x / b);
    WeightsPositive(t, scores);
    SumOfThree(w);
    FirstOfThree(w[0], w[1], t.exp(x / b));
    SoftmaxIsDistribution(t, scores);
    SumOfThree(SoftmaxOf(t, scores));
  }

  lemma SmallQuotient(x: real, b: real)
    requires 0.0 <= x <= 1.5 && b >= 3.0
    ensures 0.0 <= x / b <= 0.5
  {
  }

  lemma AtMostTwice(w0: real, w1: real, e: real)
    requires w0 > 0.0 && w1 == w0 * e && 1.0 <= e <= 2.0
    ensures 0.0 < w1 <= 2.0 * w0
  {
    var (d, c) := (2.0 - e, e - 1.0);
    assert w0 * d >= 0.0 && w0 * c >= 0.0;
    assert w0 * d == 2.0 * w0 - w0 * e;
    assert w0 * c == w0 * e - w0;
  }

  lemma FirstOfThree(w0: real, w1: real, e: real)
    requires w0 > 0.0 && w1 == w0 * e && 1.0 <= e <= 2.0
    ensures w0 + w1 + w1 > 0.0 && w0 / (w0 + w1 + w1) >= 0.2
  {
    var z := w0 + w1 + w1;
    AtMostTwice(w0, w1, e);
    assert 0.2 * z <= w0;
    Engine.QuotientOrder(0.2 * z, w0, z);
    TimesThenDivide(0.2, z);
  }

  lemma TimesThenDivide(y: real, g: real)
    requires g > 0.0
    ensures y * g / g == y
  {
  }

  /** Up to one and a half shares, the no side costs at most 0.84 and every price is below the cap. */
  lemma NoSidePrice(t: ExpLog, x: real)
    requires t.Valid() && 0.0 <= x <= 1.5
    ensures ValidVector(Raised(x), ALPHA)
    ensures SidePrice(PricesOf(t, Raised(x), ALPHA), 0, false) <= 0.84
    ensures BelowCap(PricesOf(t, Raised(x), ALPHA), CAP)
  {
    var q := Raised(x);
    FirstShare(t, ALPHA, x);
    var (p, s) := (PricesOf(t, q, ALPHA), SharesOf(t, q, ALPHA));
    SharesAreDistribution(t, q, ALPHA);
    EntropyBelow(t, s);
    LnThree(t);
    PricesPositive(t, q, ALPHA);
    Browser.OtherPricesBySubtraction(p, 0);
    SumOfThree(p);
    PricesFollowQuantity(t, ALPHA, x);
  }

  lemma PricesFollowQuantity(t: ExpLog, alpha: real, x: real)
    requires t.Valid() && x >= 0.0 && ValidVector(Raised(x), alpha)
    ensures PricesOf(t, Raised(x), alpha)[0] <= PricesOf(t, Raised(x), alpha)[1]
  {
    Engine.PricesFollowQuantities(t, Raised(x), alpha, 0, 1);
  }

  /** The least gain asked for. */
  const WANTED: int := 1_050_000_000_000
  const ONE: int := 1_000_000_000_000
  const HALF: int := 500_000_000_000

  /** One unit of money on the no side buys between 1.05 and 1.5 shares. */
  lemma NoQuoteShares(t: ExpLog) returns (gain: int)
    requires t.Valid()
    ensures MaxShares(t, Even(100.0), ALPHA, 0, false, 1.0) == Ok(gain)
    ensures WANTED <= gain && Amount(gain) <= 1.5
  {
    var q := Even(100.0);
    EvenIsValid(100.0, ALPHA);
    QuoteExistsExactlyWhen(t, q, ALPHA, 0, false, 1.0);
    gain := MaxShares(t, q, ALPHA, 0, false, 1.0).value;
    if Amount(gain) + 2.0 * TOLERANCE <= 1.1 {
      QuoteIsNearlyMaximal(t, q, ALPHA, 0, false, 1.0, gain, 1.1);
      CheapNoSide(t);
      assert false;
    }
    QuoteIsAffordable(t, q, ALPHA, 0, false, 1.0, gain);
    DearEnoughNoSide(t, Amount(gain));
  }

  lemma CheapNoSide(t: ExpLog)
    requires t.Valid()
    ensures ValidVector(Even(100.0), ALPHA) && ValidVector(After(Even(100.0), 0, false, 1.1), ALPHA)
    ensures CostOf(t, After(Even(100.0), 0, false, 1.1), ALPHA) - CostOf(t, Even(100.0), ALPHA) <= 1.0
  {
    EvenIsValid(100.0, ALPHA);
    RaisedIsAfter(1.1);
    NoSidePrice(t, 1.1);
    MoveCost(t, Even(100.0), ALPHA, 0, false, 1.1);
  }

  lemma DearEnoughNoSide(t: ExpLog, x: real)
    requires t.Valid() && x >= 0.0 && ValidVector(Even(100.0), ALPHA) && ValidVector(After(Even(100.0), 0, false, x), ALPHA)
    requires CostOf(t, After(Even(100.0), 0, false, x), ALPHA) - CostOf(t, Even(100.0), ALPHA) <= 1.0
    ensures x <= 1.5
  {
    var q := Even(100.0);
    var p := PricesOf(t, q, ALPHA);
    EvenPrices(t, q, ALPHA, 100.0);
    LnThree(t);
    Browser.OtherPricesBySubtraction(p, 0);
    SumOfThree(p);
    MoveCost(t, q, ALPHA, 0, false, x);
    Bisection.ShareOfUpperEnd(x, 2.0 / 3.0, SidePrice(p, 0, false));
  }

  /** The purchase is accepted. */
  lemma NoQuote(t: ExpLog) returns (quote: BuyQuote)
    requires t.Valid()
    ensures Buying(t, Even(100.0), ALPHA, 0, false, 1.0, CAP) == Ok(quote)
    ensures WANTED <= quote.gain && Amount(quote.gain) <= 1.5
  {
    var gain := NoQuoteShares(t);
    RaisedIsAfter(Amount(gain));
    NoSidePrice(t, Amount(gain));
    quote := Buying(t, Even(100.0), ALPHA, 0, false, 1.0, CAP).value;
  }

  lemma EvenPricesBelowCap(t: ExpLog, c: real)
    requires t.Valid() && c > 0.0
    ensures ValidVector(Even(c), ALPHA)
    ensures var p := PricesOf(t, Even(c), ALPHA); BelowCap(p, CAP) && p[0] <= 0.4
  {
    EvenIsValid(c, ALPHA);
    EvenPrices(t, Even(c), ALPHA, c);
    LnThree(t);
  }

  /** Hedging x no shares with x yes shares leaves more than half of each. */
  lemma HedgePaysOff(t: ExpLog, x: real)
    requires t.Valid() && x > 1.0 && ValidVector(Raised(x), ALPHA) && ValidVector(Even(100.0 + x), ALPHA)
    ensures x - (CostOf(t, Even(100.0 + x), ALPHA) - CostOf(t, Raised(x), ALPHA)) > 0.5
  {
    var (q, v) := (Raised(x), Even(100.0 + x));
    assert After(q, 0, true, x) == v;
    MoveCost(t, q, ALPHA, 0, true, x);
    EvenPricesBelowCap(t, 100.0 + x);
    var p := PricesOf(t, v, ALPHA);
    SideYes(p, 0, 3);
    AtMostPart(x, p[0]);
  }

  lemma AtMostPart(x: real, p: real)
    requires x > 1.0 && p <= 0.4
    ensures x - x * p > 0.5
  {
    assert x * (0.4 - p) >= 0.0;
  }

  /** The payout before truncation. */
  function HedgeGain(t: ExpLog, x: real): real
    requires ValidVector(Even(100.0 + x), ALPHA) && ValidVector(Raised(x), ALPHA)
  {
    x - (CostOf(t, Even(100.0 + x), ALPHA) - CostOf(t, Raised(x), ALPHA))
  }

  lemma CashOutIsQuoted(t: ExpLog, x: real)
    requires t.Valid() && 0.0 < x && ValidVector(Even(100.0 + x), ALPHA) && ValidVector(Raised(x), ALPHA)
    requires BelowCap(PricesOf(t, Even(100.0 + x), ALPHA), CAP)
    ensures Selling(t, Raised(x), ALPHA, 0, false, x, CAP) == Ok(Some(Truncate(HedgeGain(t, x))))
  {
    assert Hedged(Raised(x), 0, false, x) == Even(100.0 + x);
  }

  lemma MoreThanHalf(x: real)
    requires x > 0.5
    ensures Truncate(x) >= HALF
  {
    assert Amount(HALF) == 0.5;
    AmountOrders(HALF, Truncate(x) + 1);
  }

  lemma AmountOrders(a: int, b: int)
    requires Amount(a) < Amount(b)
    ensures a < b
  {
  }

  /** Cashing it out at once is accepted as well, for a positive amount up to the price paid. */
  lemma NoCashOutQuote(t: ExpLog, gain: int) returns (back: int)
    requires t.Valid() && MaxShares(t, Even(100.0), ALPHA, 0, false, 1.0) == Ok(gain)
    requires WANTED <= gain && Amount(gain) <= 1.5
    ensures Selling(t, Raised(Amount(gain)), ALPHA, 0, false, Amount(gain), CAP) == Ok(Some(back))
    ensures HALF <= back <= ONE
  {
    var x := Amount(gain);
    RaisedIsValid(ALPHA, x);
    EvenPricesBelowCap(t, 100.0 + x);
    HedgePaysOff(t, x);
    CashOutIsQuoted(t, x);
    back := Truncate(HedgeGain(t, x));
    MoreThanHalf(HedgeGain(t, x));
    NoCashOutAtMostPaid(t, gain, back);
  }

  lemma NoCashOutAtMostPaid(t: ExpLog, gain: int, back: int)
    requires t.Valid() && MaxShares(t, Even(100.0), ALPHA, 0, false, 1.0) == Ok(gain)
    requires Selling(t, Raised(Amount(gain)), ALPHA, 0, false, Amount(gain), CAP) == Ok(Some(back))
    ensures back <= ONE
  {
    RaisedIsAfter(Amount(gain));
    RoundTripNeverProfits(t, Even(100.0), ALPHA, 0, false, 1.0, gain, CAP, back);
  }

  // ----- What the browser shows on the no side -----

  const DEAR: real := 0.26

  /** At this alpha the no side costs more than one, while every price stays below the cap. */
  lemma DearNoSide(t: ExpLog)
    requires t.Valid()
    ensures ValidVector(Even(100.0), DEAR) && SidePrice(PricesOf(t, Even(100.0), DEAR), 0, false) > 1.0
  {
    EvenIsValid(100.0, DEAR);
    EvenPrices(t, Even(100.0), DEAR, 100.0);
    LnThree(t);
    var p := PricesOf(t, Even(100.0), DEAR);
    Browser.OtherPricesBySubtraction(p, 0);
    SumOfThree(p);
  }

  lemma DearPricesBelowCap(t: ExpLog, x: real)
    requires t.Valid() && 0.0 <= x <= 1.5
    ensures ValidVector(Raised(x), DEAR)
    ensures BelowCap(PricesOf(t, Raised(x), DEAR), CAP)
  {
    FirstShare(t, DEAR, x);
    var (p, s) := (PricesOf(t, Raised(x), DEAR), SharesOf(t, Raised(x), DEAR));
    SharesAreDistribution(t, Raised(x), DEAR);
    EntropyBelow(t, s);
    LnThree(t);
    assert p[1] <= 0.92 && p[2] <= 0.92;
    PricesFollowQuantity(t, DEAR, x);
  }

  /** Since the no side costs more than one, the search starts past its end and shows its start. */
  lemma PayoutIsTheSpend(t: ExpLog, spend: real)
    requires t.Valid() && 0.0 < spend
    ensures ValidVector(Even(100.0), DEAR)
    ensures Browser.PayoutForSpend(t, Even(100.0), DEAR, 0, false, spend) == Ok(spend)
  {
    DearNoSide(t);
    var side := SidePrice(PricesOf(t, Even(100.0), DEAR), 0, false);
    SmallerQuotient(spend, side);
  }

  lemma SmallerQuotient(x: real, b: real)
    requires x > 0.0 && b > 1.0
    ensures x / b <= x
  {
    var q := x / b;
    Bisection.DivideThenTimes(x, b, q);
    if q > x {
      MulMonotone(1.0, b, q);
    }
  }

  /**
    A market that can be created, and a spend, on which the browser shows a payout that costs more
    than the spend: three outcomes at 100 shares, alpha = 0.26, cap 0.95, and one unit of money on a
    no side.  The browser offers one share for it, and no price would exceed the cap.
  */
  lemma BrowserShowsTooMuch(t: ExpLog)
    requires t.Valid()
    ensures ValidVector(Even(100.0), DEAR) && HasSide(Even(100.0), 0, false)
    ensures Browser.BetPreview(t, Even(100.0), DEAR, 0, false, 1.0, CAP) == Browser.Preview(true, 100)
    ensures ValidVector(After(Even(100.0), 0, false, Browser.FromCents(100)), DEAR)
    ensures CostOf(t, After(Even(100.0), 0, false, Browser.FromCents(100)), DEAR) - CostOf(t, Even(100.0), DEAR) > 1.0
  {
    PayoutIsTheSpend(t, 1.0);
    DearNoSide(t);
    RaisedIsAfter(1.0);
    DearPricesBelowCap(t, 1.0);
    Browser.DearSideIsNeverAffordable(t, Even(100.0), DEAR, 0, false, 1.0);
    assert Browser.Cents(1.0) == 100;
  }

  // ----- A cash-out that the browser offers and the server refuses -----

  /** For the cap at the dearest price after hedging one yes share of the first outcome; such a cap
      can only be stored if that price has 12 decimals. */
  lemma PreviewCanDisagree(t: ExpLog) returns (cap: real)
    requires t.Valid()
    ensures ValidVector(Even(100.0), ALPHA) && ValidVector(Hedged(Even(100.0), 0, true, 1.0), ALPHA)
    ensures Browser.CashoutPreview(t, Even(100.0), ALPHA, 0, true, 1.0, cap).possible
    ensures Selling(t, Even(100.0), ALPHA, 0, true, 1.0, cap) == Ok(None)
  {
    var v := Hedged(Even(100.0), 0, true, 1.0);
    EvenIsValid(100.0, ALPHA);
    AfterIsValid(Even(100.0), ALPHA, 0, false, 1.0);
    var p := PricesOf(t, v, ALPHA);
    cap := p[1];
    forall i | 0 <= i < 3 ensures p[i] <= cap {
      Engine.PricesFollowQuantities(t, v, ALPHA, i, 1);
    }
    Browser.PreviewAgreesExactlyWhen(t, Even(100.0), ALPHA, 0, true, 1.0, cap);
    assert p[1] == cap;
  }
}
