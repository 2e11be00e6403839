/**
  The browser's copy of the purchase quote, and how far it can be from the server's.

  It searches the same cost function, which the browser computes in the plain, unshifted form that
  `Pricing.CostOf` states, but it starts at `spend` shares instead of zero and stops at 10^-3.
*/
module Browser {
  import opened Transcendental
  import opened Vectors
  import opened Pricing
  import opened MarketMaker
  import opened Outcomes
  import opened Bisection
  import opened Amounts
  import opened Quotes

  const PAYOUT_TOLERANCE: real := 0.001

  /** What the browser's loop returns: no complaint about a bracket that is empty already. */
  function BisectedLo(lo: real, hi: real, tol: real, f: real -> Result<real>): Result<real>
    requires tol > 0.0 && RoundsWithin(Exact, 0.0, lo, hi)
  {
    if hi - lo <= tol then Ok(lo) else BisectResult(lo, hi, tol, f, Exact, 0.0)
  }

  method Bisect(lo0: real, hi0: real, tol: real, f: real -> Result<real>) returns (r: Result<real>)
    requires tol > 0.0 && RoundsWithin(Exact, 0.0, lo0, hi0)
    ensures r == BisectedLo(lo0, hi0, tol, f)
  {
    var lo, hi := lo0, hi0;
    while hi - lo > tol
      invariant RoundsWithin(Exact, 0.0, lo, hi)
      invariant hi0 - lo0 > tol ==>
                  lo < hi && Narrow(lo0, hi0, tol, f, Exact, 0.0) == Narrow(lo, hi, tol, f, Exact, 0.0)
      invariant hi0 - lo0 <= tol ==> lo == lo0 && hi == hi0
      decreases Measure(lo, hi, Gap(tol, 0.0))
    {
      var mid := (lo + hi) / 2.0;
      var fMid := f(mid);
      ExactStep(lo, hi, tol, f, mid, fMid);
      if fMid.Err? {
        return Err(fMid.error);
      }
      if fMid.value > 0.0 {
        hi := mid;
      } else {
        lo := mid;
      }
    }
    return Ok(lo);
  }

  /** The browser's sum of the other prices: all prices less the price of the outcome. */
  lemma OtherPricesBySubtraction(p: seq<real>, idx: nat)
    requires idx < |p|
    ensures SidePrice(p, idx, false) == Sum(p) - p[idx]
  {
    SidesMakeTheSum(p, idx, |p|);
    SideYes(p, idx, |p|);
  }

  function PayoutForSpend(t: ExpLog, q: seq<real>, alpha: real, idx: nat, yes: bool, spend: real): Result<real>
    requires t.Valid() && ValidVector(q, alpha) && HasSide(q, idx, yes)
  {
    SidePricePositive(t, q, alpha, idx, yes);
    var end := spend / SidePrice(PricesOf(t, q, alpha), idx, yes);
    ExactRounds(spend, end);
    BisectedLo(spend, end, PAYOUT_TOLERANCE, x => Excess(t, q, alpha, idx, yes, spend, x))
  }

  /** Buying exactly `spend` shares costs at most `spend`. */
  ghost predicate StartIsAffordable(t: ExpLog, q: seq<real>, alpha: real, idx: nat, yes: bool, spend: real)
    requires t.Valid() && ValidVector(q, alpha) && spend > 0.0
  {
    && ValidVector(After(q, idx, yes, spend), alpha)
    && CostOf(t, After(q, idx, yes, spend), alpha) - CostOf(t, q, alpha) <= spend
  }

  /** From an affordable start the browser's search brackets the spend. */
  lemma PayoutBracket(t: ExpLog, q: seq<real>, alpha: real, idx: nat, yes: bool, spend: real)
    returns (lo: real, hi: real)
    requires t.Valid() && ValidVector(q, alpha) && HasSide(q, idx, yes) && spend > 0.0
    requires StartIsAffordable(t, q, alpha, idx, yes, spend)
    ensures PayoutForSpend(t, q, alpha, idx, yes, spend) == Ok(lo)
    ensures lo >= spend && hi - lo <= PAYOUT_TOLERANCE && Brackets(t, q, alpha, idx, yes, spend, lo, hi)
  {
    SidePricePositive(t, q, alpha, idx, yes);
    var end := spend / SidePrice(PricesOf(t, q, alpha), idx, yes);
    ExactRounds(spend, end);
    UpperEndCostsTheBudget(t, q, alpha, idx, yes, spend, end);
    if end < spend {
      CostGrows(t, q, alpha, idx, yes, end, spend);
      assert false;
    }
    if end - spend <= PAYOUT_TOLERANCE {
      lo, hi := spend, end;
    } else {
      lo, hi := SearchBrackets(t, q, alpha, idx, yes, spend, spend, end, PAYOUT_TOLERANCE,
                               x => Excess(t, q, alpha, idx, yes, spend, x));
    }
  }

  /** Two brackets of the same budget lie within their widths of each other. */
  lemma BracketsOverlap(t: ExpLog, q: seq<real>, alpha: real, idx: nat, yes: bool, budget: real,
                        lo: real, hi: real, lo': real, hi': real)
    requires t.Valid() && ValidVector(q, alpha) && HasSide(q, idx, yes)
    requires Brackets(t, q, alpha, idx, yes, budget, lo, hi)
    requires Brackets(t, q, alpha, idx, yes, budget, lo', hi')
    ensures lo <= hi' && lo' <= hi
  {
    if hi' < lo {
      CostGrows(t, q, alpha, idx, yes, hi', lo);
    }
    if hi < lo' {
      CostGrows(t, q, alpha, idx, yes, hi, lo');
    }
  }

  /** When the browser's start is affordable, its payout and the server's gain differ by at most
      10^-3 one way and 2 * 10^-12 the other. */
  lemma BrowserAgreesWithServer(t: ExpLog, q: seq<real>, alpha: real, idx: nat, yes: bool, spend: real)
    requires t.Valid() && ValidVector(q, alpha) && HasSide(q, idx, yes) && spend > 0.0
    requires StartIsAffordable(t, q, alpha, idx, yes, spend)
    ensures PayoutForSpend(t, q, alpha, idx, yes, spend).Ok?
    ensures MaxShares(t, q, alpha, idx, yes, spend).Ok?
    ensures var (payout, gain) := (PayoutForSpend(t, q, alpha, idx, yes, spend).value,
                                   Amount(MaxShares(t, q, alpha, idx, yes, spend).value));
            gain - 0.001 <= payout <= gain + 0.000_000_000_002
  {
    var lo, hi := PayoutBracket(t, q, alpha, idx, yes, spend);
    var lo', hi' := MaxSharesBracket(t, q, alpha, idx, yes, spend);
    BracketsOverlap(t, q, alpha, idx, yes, spend, lo, hi, lo', hi');
  }

  /**
    Starting the search at `spend` is only right when that start is affordable: the payout the
    browser shows costs at most the spend if and only if `spend` shares do.
  */
  lemma BrowserPayoutAffordableExactlyWhen(t: ExpLog, q: seq<real>, alpha: real, idx: nat, yes: bool, spend: real)
    requires t.Valid() && ValidVector(q, alpha) && HasSide(q, idx, yes) && spend > 0.0
    ensures PayoutForSpend(t, q, alpha, idx, yes, spend).Ok?
    ensures var payout := PayoutForSpend(t, q, alpha, idx, yes, spend).value;
            && payout >= spend
            && ValidVector(After(q, idx, yes, payout), alpha)
            && (CostOf(t, After(q, idx, yes, payout), alpha) - CostOf(t, q, alpha) <= spend
                <==> StartIsAffordable(t, q, alpha, idx, yes, spend))
  {
    AfterIsValid(q, alpha, idx, yes, spend);
    if StartIsAffordable(t, q, alpha, idx, yes, spend) {
      var lo, hi := PayoutBracket(t, q, alpha, idx, yes, spend);
    } else {
      PayoutFromDearStart(t, q, alpha, idx, yes, spend);
      var payout := PayoutForSpend(t, q, alpha, idx, yes, spend).value;
      CostNotDecreasing(t, q, alpha, idx, yes, spend, payout);
    }
  }

  lemma PayoutFromDearStart(t: ExpLog, q: seq<real>, alpha: real, idx: nat, yes: bool, spend: real)
    requires t.Valid() && ValidVector(q, alpha) && HasSide(q, idx, yes) && spend > 0.0
    ensures PayoutForSpend(t, q, alpha, idx, yes, spend).Ok?
    ensures PayoutForSpend(t, q, alpha, idx, yes, spend).value >= spend
  {
    SidePricePositive(t, q, alpha, idx, yes);
    var end := spend / SidePrice(PricesOf(t, q, alpha), idx, yes);
    ExactRounds(spend, end);
    forall x | spend <= x <= end ensures Excess(t, q, alpha, idx, yes, spend, x).Ok? {
      ExcessIsDefined(t, q, alpha, idx, yes, spend, x);
    }
  }

  /** Once the price of the side exceeds one, the browser's payout is never affordable. */
  lemma DearSideIsNeverAffordable(t: ExpLog, q: seq<real>, alpha: real, idx: nat, yes: bool, spend: real)
    requires t.Valid() && ValidVector(q, alpha) && HasSide(q, idx, yes) && spend > 0.0
    requires SidePrice(PricesOf(t, q, alpha), idx, yes) > 1.0
    ensures !StartIsAffordable(t, q, alpha, idx, yes, spend)
  {
    MoveCost(t, q, alpha, idx, yes, spend);
    ScaleStrictly(1.0, SidePrice(PricesOf(t, q, alpha), idx, yes), spend);
  }

  // ----- The preview of a bet -----

  const UNITS_PER_CENT: int := 10_000_000_000

  /** Truncation toward zero at two decimals, as a count of cents. */
  function Cents(x: real): (c: int)
    ensures x >= 0.0 ==> c >= 0 && 0.0 <= x * 100.0 - c as real < 1.0
    ensures x <= 0.0 ==> c <= 0 && 0.0 <= c as real - x * 100.0 < 1.0
  {
    if x >= 0.0 then (x * 100.0).Floor else -((-x * 100.0).Floor)
  }

  datatype Preview = Preview(possible: bool, cents: int)

  /** What the browser shows before a bet: nothing if the payout would lift some price ABOVE the cap. */
  function BetPreview(t: ExpLog, q: seq<real>, alpha: real, idx: nat, yes: bool, spend: real, cap: real): Preview
    requires t.Valid() && ValidVector(q, alpha) && HasSide(q, idx, yes) && spend > 0.0
  {
    PayoutFromDearStart(t, q, alpha, idx, yes, spend);
    var payout := PayoutForSpend(t, q, alpha, idx, yes, spend).value;
    AfterIsValid(q, alpha, idx, yes, payout);
    var p := PricesOf(t, After(q, idx, yes, payout), alpha);
    if forall i :: 0 <= i < |p| ==> p[i] <= cap then Preview(true, Cents(payout)) else Preview(false, 0)
  }

  /** The amount of a number of cents. */
  function FromCents(c: int): real {
    c as real / 100.0
  }

  /** Exactly when the preview offers a bet: no price after the payout exceeds the cap.  It then shows
      the payout cut to cents. */
  lemma BetPreviewExactlyWhen(t: ExpLog, q: seq<real>, alpha: real, idx: nat, yes: bool, spend: real, cap: real)
    requires t.Valid() && ValidVector(q, alpha) && HasSide(q, idx, yes) && spend > 0.0
    ensures PayoutForSpend(t, q, alpha, idx, yes, spend).Ok?
    ensures var (preview, payout) := (BetPreview(t, q, alpha, idx, yes, spend, cap), PayoutForSpend(t, q, alpha, idx, yes, spend).value);
            && ValidVector(After(q, idx, yes, payout), alpha)
            && (preview.possible <==> !exists i :: 0 <= i < |q| && PricesOf(t, After(q, idx, yes, payout), alpha)[i] > cap)
            && (preview.possible ==> FromCents(preview.cents) <= payout < FromCents(preview.cents + 1))
            && (!preview.possible ==> preview.cents == 0)
  {
    PayoutFromDearStart(t, q, alpha, idx, yes, spend);
    AfterIsValid(q, alpha, idx, yes, PayoutForSpend(t, q, alpha, idx, yes, spend).value);
  }

  /** When the start is affordable, so is the payout shown, and it is at most a cent and the two
      tolerances away from what the server sells. */
  lemma BetPreviewAgrees(t: ExpLog, q: seq<real>, alpha: real, idx: nat, yes: bool, spend: real, cap: real)
    requires t.Valid() && ValidVector(q, alpha) && HasSide(q, idx, yes) && spend > 0.0
    requires StartIsAffordable(t, q, alpha, idx, yes, spend) && BetPreview(t, q, alpha, idx, yes, spend, cap).possible
    ensures MaxShares(t, q, alpha, idx, yes, spend).Ok?
    ensures var (shown, gain) := (FromCents(BetPreview(t, q, alpha, idx, yes, spend, cap).cents),
                                  Amount(MaxShares(t, q, alpha, idx, yes, spend).value));
            && gain - 0.011 < shown <= gain + 0.000_000_000_002
            && ValidVector(After(q, idx, yes, shown), alpha)
            && CostOf(t, After(q, idx, yes, shown), alpha) - CostOf(t, q, alpha) <= spend
  {
    var lo, hi := PayoutBracket(t, q, alpha, idx, yes, spend);
    BrowserAgreesWithServer(t, q, alpha, idx, yes, spend);
    var shown := FromCents(BetPreview(t, q, alpha, idx, yes, spend, cap).cents);
    assert 0.0 <= shown <= lo < shown + 0.01;
    CostNotDecreasing(t, q, alpha, idx, yes, shown, lo);
  }

  // ----- The preview of a cash-out -----

  /** What the browser shows before a cash-out: possible unless some price would EXCEED the cap. */
  function CashoutPreview(t: ExpLog, q: seq<real>, alpha: real, idx: nat, boughtYes: bool, shares: real, cap: real): Preview
    requires t.Valid() && ValidVector(q, alpha) && ValidVector(Hedged(q, idx, boughtYes, shares), alpha)
  {
    var v := Hedged(q, idx, boughtYes, shares);
    var p := PricesOf(t, v, alpha);
    Preview(forall i :: 0 <= i < |p| ==> p[i] <= cap,
            Cents(shares - (CostOf(t, v, alpha) - CostOf(t, q, alpha))))
  }

  /** Truncating to units and then to cents is truncating to cents. */
  lemma CentsOfUnits(x: real)
    ensures Cents(x) == Cents(Amount(Truncate(x)))
  {
    var c, u := Cents(x), Truncate(x);
    if x >= 0.0 {
      assert (c * UNITS_PER_CENT) as real <= x * UNITS;
      assert c * UNITS_PER_CENT <= u;
    } else {
      assert x * UNITS <= (c * UNITS_PER_CENT) as real;
      assert u <= c * UNITS_PER_CENT;
    }
  }

  /**
    The preview shows the server's payout cut to cents whenever the server pays at all, and offers
    a cash-out that the server refuses exactly when the hedge would lift its dearest outcome to
    the cap itself and none above it.
  */
  lemma PreviewAgreesExactlyWhen(t: ExpLog, q: seq<real>, alpha: real, idx: nat, boughtYes: bool, shares: real, cap: real)
    requires t.Valid() && ValidVector(q, alpha) && shares > 0.0
    ensures ValidVector(Hedged(q, idx, boughtYes, shares), alpha)
    ensures var preview := CashoutPreview(t, q, alpha, idx, boughtYes, shares, cap);
            var paid := Selling(t, q, alpha, idx, boughtYes, shares, cap);
            var p := PricesOf(t, Hedged(q, idx, boughtYes, shares), alpha);
            && paid.Ok?
            && (paid.value.Some? ==> preview.possible && preview.cents == Cents(Amount(paid.value.value)))
            && (preview.possible && paid.value.None? <==>
                 (forall i :: 0 <= i < |p| ==> p[i] <= cap) && (exists i :: 0 <= i < |p| && p[i] == cap))
  {
    AfterIsValid(q, alpha, idx, !boughtYes, shares);
    var v := Hedged(q, idx, boughtYes, shares);
    var p := PricesOf(t, v, alpha);
    CentsOfUnits(shares - (CostOf(t, v, alpha) - CostOf(t, q, alpha)));
    AtTheCap(p, cap);
  }

  /** No price is above the cap and yet not all are below it exactly when the dearest is the cap. */
  lemma AtTheCap(p: seq<real>, cap: real)
    ensures (forall i :: 0 <= i < |p| ==> p[i] <= cap) && !BelowCap(p, cap) <==>
            (forall i :: 0 <= i < |p| ==> p[i] <= cap) && (exists i :: 0 <= i < |p| && p[i] == cap)
  {
    if (forall i :: 0 <= i < |p| ==> p[i] <= cap) && !BelowCap(p, cap) {
      var i :| 0 <= i < |p| && p[i] >= cap;
      assert p[i] == cap;
    }
  }
}
