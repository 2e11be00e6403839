/** Fixed-point amounts: integer counts of 10^-12, the scale of every stored amount. */
module Amounts {

  const UNITS: real := 1_000_000_000_000.0

  /** The amount that a count of units stands for. */
  function Amount(units: int): real {
    units as real / UNITS
  }

  /** Truncation toward zero at 12 decimals, as a count of units. */
  function Truncate(x: real): (u: int)
    ensures x >= 0.0 ==> 0.0 <= Amount(u) <= x < Amount(u + 1)
    ensures x <= 0.0 ==> Amount(u - 1) < x <= Amount(u) <= 0.0
  {
    if x >= 0.0 then (x * UNITS).Floor else -((-x * UNITS).Floor)
  }

  /** Rounding away from zero at 12 decimals. */
  function AwayFromZero(x: real): (u: int)
    ensures x >= 0.0 ==> Amount(u - 1) < x <= Amount(u)
    ensures x <= 0.0 ==> Amount(u) <= x < Amount(u + 1)
  {
    if x >= 0.0 then -((-x * UNITS).Floor) else (x * UNITS).Floor
  }
}

/**
  What the engine quotes: how many shares a budget buys, and what a cash-out pays.

  These functions fix the value each engine method must return; the lemmas after them say what
  those values guarantee.
*/
module Quotes {
  import opened Transcendental
  import opened Vectors
  import opened Pricing
  import opened MarketMaker
  import opened Options
  import opened Outcomes
  import opened Bisection
  import opened Amounts

  /** The first objection the engine raises to a vector, if any. */
  function Objection(q: seq<real>, alpha: real): (e: Option<EngineError>)
    ensures e.None? <==> ValidVector(q, alpha)
  {
    if |q| == 0 then Some(EmptyVector)
    else if alpha <= 0.0 then Some(NonPositiveAlpha)
    else if !NonNegative(q) then Some(NegativeShares)
    else
      SumNonNegative(q, |q|);
      if Sum(q) == 0.0 then Some(ZeroSum) else None
  }

  function CostResult(t: ExpLog, q: seq<real>, alpha: real): Result<real> {
    var e := Objection(q, alpha);
    if e.Some? then Err(e.value) else Ok(CostOf(t, q, alpha))
  }

  function PricesResult(t: ExpLog, q: seq<real>, alpha: real): Result<seq<real>>
    requires t.Valid()
  {
    var e := Objection(q, alpha);
    if e.Some? then Err(e.value) else Ok(PricesOf(t, q, alpha))
  }

  /** By how much the cost of x shares exceeds the budget. */
  function Excess(t: ExpLog, q: seq<real>, alpha: real, idx: nat, yes: bool, budget: real, x: real): Result<real>
    requires ValidVector(q, alpha)
  {
    var next := CostResult(t, After(q, idx, yes, x), alpha);
    if next.Err? then next else Ok(next.value - CostOf(t, q, alpha) - budget)
  }

  const TOLERANCE: real := 0.000000000001

  /** The number of shares, in units, that the budget buys on one side of outcome idx. */
  function MaxShares(t: ExpLog, q: seq<real>, alpha: real, idx: int, yes: bool, budget: real): Result<int>
    requires t.Valid()
  {
    if budget <= 0.0 then Err(NonPositiveBudget)
    else if !(0 <= idx < |q|) then Err(IndexOutOfRange)
    else if alpha <= 0.0 then Err(NonPositiveAlpha)
    else
      var e := Objection(q, alpha);
      if e.Some? then Err(e.value)
      else if !yes && |q| == 1 then Err(DivisionByZero)
      else
        SidePricePositive(t, q, alpha, idx, yes);
        var end := budget / SidePrice(PricesOf(t, q, alpha), idx, yes);
        ExactRounds(0.0, end);
        var r := BisectResult(0.0, end, TOLERANCE, x => Excess(t, q, alpha, idx, yes, budget, x), Exact, 0.0);
        if r.Err? then Err(r.error) else Ok(Truncate(r.value))
  }

  predicate BelowCap(p: seq<real>, cap: real) {
    forall i :: 0 <= i < |p| ==> p[i] < cap
  }

  datatype BuyQuote = BuyQuote(gain: int, avgPrice: int)

  /** The quote for a purchase, refused when it would lift some price to the cap. */
  function Buying(t: ExpLog, q: seq<real>, alpha: real, idx: int, yes: bool, budget: real, cap: real): Result<BuyQuote>
    requires t.Valid()
  {
    if |q| == 0 then Err(EmptyVector)
    else if alpha <= 0.0 then Err(NonPositiveAlpha)
    else
      var shares := MaxShares(t, q, alpha, idx, yes, budget);
      if shares.Err? then Err(shares.error)
      else if shares.value <= 0 then Err(NonPositiveGain)
      else
        var v := After(q, idx, yes, Amount(shares.value));
        AfterIsValid(q, alpha, idx, yes, Amount(shares.value));
        if !BelowCap(PricesOf(t, v, alpha), cap) then Err(AboveCap)
        else Ok(BuyQuote(shares.value, AwayFromZero(budget / Amount(shares.value))))
  }

  /** The hedge of a position: shares on the opposite side. */
  function Hedged(q: seq<real>, idx: nat, boughtYes: bool, shares: real): seq<real> {
    After(q, idx, !boughtYes, shares)
  }

  /** What cashing out pays, in units; None when the hedge would lift some price to the cap. */
  function Selling(t: ExpLog, q: seq<real>, alpha: real, idx: nat, boughtYes: bool, shares: real, cap: real)
    : Result<Option<int>>
    requires t.Valid()
  {
    if |q| == 0 then Err(EmptyVector)
    else if alpha <= 0.0 then Err(NonPositiveAlpha)
    else if shares <= 0.0 then Err(NonPositiveShares)
    else
      var v := Hedged(q, idx, boughtYes, shares);
      var p := PricesResult(t, v, alpha);
      if p.Err? then Err(p.error)
      else if !BelowCap(p.value, cap) then Ok(None)
      else
        HedgePayout(t, q, v, alpha, shares)
  }

  /** What a position hedged to v pays: its shares less the cost of the hedge. */
  function HedgePayout(t: ExpLog, q: seq<real>, v: seq<real>, alpha: real, shares: real): Result<Option<int>>
    requires ValidVector(v, alpha)
  {
    var base := CostResult(t, q, alpha);
    if base.Err? then Err(base.error)
    else Ok(Some(Truncate(shares - (CostOf(t, v, alpha) - base.value))))
  }

  // ----- What a purchase guarantees -----

  lemma ExcessIsDefined(t: ExpLog, q: seq<real>, alpha: real, idx: nat, yes: bool, budget: real, x: real)
    requires ValidVector(q, alpha) && x >= 0.0
    ensures ValidVector(After(q, idx, yes, x), alpha)
    ensures Excess(t, q, alpha, idx, yes, budget, x) ==
            Ok(CostOf(t, After(q, idx, yes, x), alpha) - CostOf(t, q, alpha) - budget)
  {
    AfterIsValid(q, alpha, idx, yes, x);
  }

  /** Cost is weakly increasing in the number of shares. */
  lemma CostNotDecreasing(t: ExpLog, q: seq<real>, alpha: real, idx: nat, yes: bool, x: real, y: real)
    requires t.Valid() && ValidVector(q, alpha) && HasSide(q, idx, yes) && 0.0 <= x <= y
    ensures ValidVector(After(q, idx, yes, x), alpha) && ValidVector(After(q, idx, yes, y), alpha)
    ensures CostOf(t, After(q, idx, yes, x), alpha) <= CostOf(t, After(q, idx, yes, y), alpha)
  {
    if x < y {
      CostGrows(t, q, alpha, idx, yes, x, y);
    } else {
      AfterIsValid(q, alpha, idx, yes, x);
    }
  }

  lemma AfterZero(q: seq<real>, idx: nat, yes: bool)
    ensures After(q, idx, yes, 0.0) == q
  {
  }

  /** budget / price costs at least the budget: it is a true upper end for the search. */
  lemma UpperEndCostsTheBudget(t: ExpLog, q: seq<real>, alpha: real, idx: nat, yes: bool, budget: real, hi: real)
    requires t.Valid() && ValidVector(q, alpha) && HasSide(q, idx, yes) && budget > 0.0
    requires SidePrice(PricesOf(t, q, alpha), idx, yes) > 0.0
    requires hi == budget / SidePrice(PricesOf(t, q, alpha), idx, yes)
    ensures hi > 0.0 && ValidVector(After(q, idx, yes, hi), alpha)
    ensures CostOf(t, After(q, idx, yes, hi), alpha) - CostOf(t, q, alpha) >= budget
  {
    var p := SidePrice(PricesOf(t, q, alpha), idx, yes);
    QuotientPositive(budget, p);
    MoveCost(t, q, alpha, idx, yes, hi);
    assert hi * p == budget;
  }

  /** A point whose cost is within budget and an end within tol of it whose cost is not below. */
  ghost predicate Brackets(t: ExpLog, q: seq<real>, alpha: real, idx: nat, yes: bool, budget: real, lo: real, hi: real)
    requires t.Valid() && ValidVector(q, alpha)
  {
    && 0.0 <= lo <= hi
    && ValidVector(After(q, idx, yes, lo), alpha) && ValidVector(After(q, idx, yes, hi), alpha)
    && CostOf(t, After(q, idx, yes, lo), alpha) - CostOf(t, q, alpha) <= budget
    && CostOf(t, After(q, idx, yes, hi), alpha) - CostOf(t, q, alpha) >= budget
  }

  /** The search brackets the budget: for every start whose cost is within budget. */
  lemma SearchBrackets(t: ExpLog, q: seq<real>, alpha: real, idx: nat, yes: bool, budget: real,
                       start: real, end: real, tol: real, f: real -> Result<real>)
    returns (lo: real, hi: real)
    requires t.Valid() && ValidVector(q, alpha) && HasSide(q, idx, yes) && tol > 0.0
    requires start < end && Brackets(t, q, alpha, idx, yes, budget, start, end)
    requires forall x :: f(x) == Excess(t, q, alpha, idx, yes, budget, x)
    requires RoundsWithin(Exact, 0.0, start, end)
    ensures BisectResult(start, end, tol, f, Exact, 0.0) == Ok(lo)
    ensures start <= lo && hi - lo <= tol && Brackets(t, q, alpha, idx, yes, budget, lo, hi)
  {
    forall x | start <= x <= end ensures f(x).Ok? {
      ExcessIsDefined(t, q, alpha, idx, yes, budget, x);
    }
    var r := Narrow(start, end, tol, f, Exact, 0.0);
    lo, hi := r.value.lo, r.value.hi;
    ExcessIsDefined(t, q, alpha, idx, yes, budget, lo);
    ExcessIsDefined(t, q, alpha, idx, yes, budget, hi);
  }

  /** For a valid vector and a positive budget the search always succeeds. */
  lemma MaxSharesBracket(t: ExpLog, q: seq<real>, alpha: real, idx: nat, yes: bool, budget: real)
    returns (lo: real, hi: real)
    requires t.Valid() && ValidVector(q, alpha) && HasSide(q, idx, yes) && budget > 0.0
    ensures MaxShares(t, q, alpha, idx, yes, budget) == Ok(Truncate(lo))
    ensures hi - lo <= TOLERANCE && Brackets(t, q, alpha, idx, yes, budget, lo, hi)
  {
    SidePricePositive(t, q, alpha, idx, yes);
    var end := budget / SidePrice(PricesOf(t, q, alpha), idx, yes);
    ExactRounds(0.0, end);
    UpperEndCostsTheBudget(t, q, alpha, idx, yes, budget, end);
    AfterZero(q, idx, yes);
    lo, hi := SearchBrackets(t, q, alpha, idx, yes, budget, 0.0, end, TOLERANCE,
                             x => Excess(t, q, alpha, idx, yes, budget, x));
  }

  /** Exactly when a share count is quoted at all. */
  lemma QuoteExistsExactlyWhen(t: ExpLog, q: seq<real>, alpha: real, idx: int, yes: bool, budget: real)
    requires t.Valid()
    ensures MaxShares(t, q, alpha, idx, yes, budget).Ok? <==>
            budget > 0.0 && ValidVector(q, alpha) && 0 <= idx && HasSide(q, idx, yes)
  {
    if budget > 0.0 && ValidVector(q, alpha) && 0 <= idx && HasSide(q, idx, yes) {
      var lo, hi := MaxSharesBracket(t, q, alpha, idx, yes, budget);
    }
  }

  /** The quoted purchase costs at most the budget. */
  lemma QuoteIsAffordable(t: ExpLog, q: seq<real>, alpha: real, idx: nat, yes: bool, budget: real, gain: int)
    requires t.Valid() && MaxShares(t, q, alpha, idx, yes, budget) == Ok(gain)
    ensures gain >= 0 && ValidVector(q, alpha)
    ensures ValidVector(After(q, idx, yes, Amount(gain)), alpha)
    ensures CostOf(t, After(q, idx, yes, Amount(gain)), alpha) - CostOf(t, q, alpha) <= budget
  {
    QuoteExistsExactlyWhen(t, q, alpha, idx, yes, budget);
    var lo, hi := MaxSharesBracket(t, q, alpha, idx, yes, budget);
    CostNotDecreasing(t, q, alpha, idx, yes, Amount(gain), lo);
  }

  /** Any purchase larger by more than 2 * 10^-12 shares costs strictly more than the budget. */
  lemma QuoteIsNearlyMaximal(t: ExpLog, q: seq<real>, alpha: real, idx: nat, yes: bool, budget: real, gain: int, x: real)
    requires t.Valid() && MaxShares(t, q, alpha, idx, yes, budget) == Ok(gain)
    requires x >= Amount(gain) + 2.0 * TOLERANCE
    ensures x >= 0.0 && ValidVector(q, alpha) && ValidVector(After(q, idx, yes, x), alpha)
    ensures CostOf(t, After(q, idx, yes, x), alpha) - CostOf(t, q, alpha) > budget
  {
    QuoteExistsExactlyWhen(t, q, alpha, idx, yes, budget);
    var lo, hi := MaxSharesBracket(t, q, alpha, idx, yes, budget);
    CostGrows(t, q, alpha, idx, yes, hi, x);
  }

  // ----- Buying and cashing out -----

  /** What a cash-out pays never exceeds the shares less the cost of the hedge, unless it is zero
      or less. */
  lemma CashOutIsCovered(t: ExpLog, q: seq<real>, alpha: real, idx: nat, boughtYes: bool, shares: real, cap: real, gain: int)
    requires t.Valid() && Selling(t, q, alpha, idx, boughtYes, shares, cap) == Ok(Some(gain))
    ensures ValidVector(q, alpha) && ValidVector(Hedged(q, idx, boughtYes, shares), alpha)
    ensures gain > 0 ==>
              Amount(gain) <= shares - (CostOf(t, Hedged(q, idx, boughtYes, shares), alpha) - CostOf(t, q, alpha))
  {
  }

  lemma BothSidesRaiseAll(q: seq<real>, idx: nat, yes: bool, x: real)
    ensures |After(After(q, idx, yes, x), idx, !yes, x)| == |q|
    ensures forall i :: 0 <= i < |q| ==> After(After(q, idx, yes, x), idx, !yes, x)[i] == q[i] + 0.0 + x
  {
  }

  /**
    Buying and immediately cashing out never profits: on either side, for every state, budget
    and cap.
  */
  lemma RoundTripNeverProfits(t: ExpLog, q: seq<real>, alpha: real, idx: nat, yes: bool, budget: real,
                              shares: int, cap: real, back: int)
    requires t.Valid() && MaxShares(t, q, alpha, idx, yes, budget) == Ok(shares)
    requires Selling(t, After(q, idx, yes, Amount(shares)), alpha, idx, yes, Amount(shares), cap) == Ok(Some(back))
    ensures Amount(back) <= budget
  {
    QuoteIsAffordable(t, q, alpha, idx, yes, budget, shares);
    var x := Amount(shares);
    var mid := After(q, idx, yes, x);
    var full := Hedged(mid, idx, yes, x);
    CashOutIsCovered(t, mid, alpha, idx, yes, x, cap, back);
    BothSidesRaiseAll(q, idx, yes, x);
    var none := seq(|q|, i => 0.0);
    CostOfGrowth(t, alpha, q, full, none, x);
    DotWithZero(none, PricesOf(t, q, alpha), |q|);
  }

  lemma ScaleStrictly(p: real, cap: real, x: real)
    requires p < cap && x > 0.0
    ensures x * p < cap * x
  {
  }

  /** If the prices after a yes purchase are below the cap, it raised the cost by less than cap
      per share. */
  lemma RiseBelowCap(t: ExpLog, q: seq<real>, alpha: real, idx: nat, x: real, cap: real)
    requires t.Valid() && ValidVector(q, alpha) && idx < |q| && x > 0.0
    requires ValidVector(After(q, idx, true, x), alpha)
    requires BelowCap(PricesOf(t, After(q, idx, true, x), alpha), cap)
    ensures CostOf(t, After(q, idx, true, x), alpha) - CostOf(t, q, alpha) < cap * x
  {
    var v := After(q, idx, true, x);
    var p := PricesOf(t, v, alpha);
    var side := SidePrice(p, idx, true);
    MoveCost(t, q, alpha, idx, true, x);
    SideYes(p, idx, |p|);
    ScaleStrictly(side, cap, x);
    assert CostOf(t, v, alpha) - CostOf(t, q, alpha) <= x * side;
  }

  /** An accepted purchase leaves every price below the cap, costs a positive amount within the
      budget, and is reported at the average price rounded up. */
  lemma AcceptedPurchase(t: ExpLog, q: seq<real>, alpha: real, idx: nat, yes: bool, budget: real, cap: real, quote: BuyQuote)
    requires t.Valid() && Buying(t, q, alpha, idx, yes, budget, cap) == Ok(quote)
    ensures quote.gain > 0 && ValidVector(q, alpha) && HasSide(q, idx, yes)
    ensures ValidVector(After(q, idx, yes, Amount(quote.gain)), alpha)
    ensures BelowCap(PricesOf(t, After(q, idx, yes, Amount(quote.gain)), alpha), cap)
    ensures 0.0 < CostOf(t, After(q, idx, yes, Amount(quote.gain)), alpha) - CostOf(t, q, alpha) <= budget
    ensures Amount(quote.avgPrice - 1) < budget / Amount(quote.gain) <= Amount(quote.avgPrice)
  {
    var x := Amount(quote.gain);
    QuoteExistsExactlyWhen(t, q, alpha, idx, yes, budget);
    QuoteIsAffordable(t, q, alpha, idx, yes, budget, quote.gain);
    AfterZero(q, idx, yes);
    CostGrows(t, q, alpha, idx, yes, 0.0, x);
    QuotientPositive(budget, x);
  }

  // ----- Exactly which answer is given -----

  /** The first complaint about a vector, by what is wrong with it. */
  lemma ObjectionExactly(q: seq<real>, alpha: real)
    ensures Objection(q, alpha) == Some(EmptyVector) <==> |q| == 0
    ensures Objection(q, alpha) == Some(NonPositiveAlpha) <==> |q| > 0 && alpha <= 0.0
    ensures Objection(q, alpha) == Some(NegativeShares) <==>
            |q| > 0 && alpha > 0.0 && exists i :: 0 <= i < |q| && q[i] < 0.0
    ensures Objection(q, alpha) == Some(ZeroSum) <==>
            |q| > 0 && alpha > 0.0 && forall i :: 0 <= i < |q| ==> q[i] == 0.0
  {
    if |q| > 0 && NonNegative(q) {
      if forall i :: 0 <= i < |q| ==> q[i] == 0.0 {
        SumOfConstant(q, 0.0, |q|);
      } else {
        var i :| 0 <= i < |q| && q[i] != 0.0;
        SumAtLeastEntry(q, i, |q|);
      }
    }
  }

  lemma {:induction false} SumAtLeastEntry(q: seq<real>, i: nat, k: nat)
    requires i < k <= |q| && NonNegative(q)
    ensures SumTo(q, k) >= q[i]
  {
    if i < k - 1 {
      SumAtLeastEntry(q, i, k - 1);
    } else {
      SumNonNegative(q, k - 1);
    }
  }

  /** A purchase is accepted exactly when a positive share count is quoted that leaves every price
      below the cap, and it is for that count. */
  lemma PurchaseAcceptedExactlyWhen(t: ExpLog, q: seq<real>, alpha: real, idx: nat, yes: bool, budget: real, cap: real)
    requires t.Valid()
    ensures Buying(t, q, alpha, idx, yes, budget, cap).Ok? <==>
            && budget > 0.0 && ValidVector(q, alpha) && HasSide(q, idx, yes)
            && MaxShares(t, q, alpha, idx, yes, budget).Ok?
            && var gain := MaxShares(t, q, alpha, idx, yes, budget).value;
               && gain > 0 && ValidVector(After(q, idx, yes, Amount(gain)), alpha)
               && var p := PricesOf(t, After(q, idx, yes, Amount(gain)), alpha);
                  forall i :: 0 <= i < |p| ==> p[i] < cap
    ensures Buying(t, q, alpha, idx, yes, budget, cap).Ok? ==>
              MaxShares(t, q, alpha, idx, yes, budget) == Ok(Buying(t, q, alpha, idx, yes, budget, cap).value.gain)
  {
    QuoteExistsExactlyWhen(t, q, alpha, idx, yes, budget);
    if MaxShares(t, q, alpha, idx, yes, budget).Ok? {
      QuoteIsAffordable(t, q, alpha, idx, yes, budget, MaxShares(t, q, alpha, idx, yes, budget).value);
    }
  }

  /** An accepted purchase is nearly maximal: any larger by 2 * 10^-12 shares or more costs more than
      the budget. */
  lemma AcceptedPurchaseIsNearlyMaximal(t: ExpLog, q: seq<real>, alpha: real, idx: nat, yes: bool, budget: real, cap: real,
                                        quote: BuyQuote, x: real)
    requires t.Valid() && Buying(t, q, alpha, idx, yes, budget, cap) == Ok(quote)
    requires x >= Amount(quote.gain) + 0.000_000_000_002
    ensures ValidVector(q, alpha) && ValidVector(After(q, idx, yes, x), alpha)
    ensures CostOf(t, After(q, idx, yes, x), alpha) - CostOf(t, q, alpha) > budget
  {
    PurchaseAcceptedExactlyWhen(t, q, alpha, idx, yes, budget, cap);
    QuoteIsNearlyMaximal(t, q, alpha, idx, yes, budget, quote.gain, x);
  }

  /** Which answer a refused purchase gets. */
  lemma PurchaseRefusals(t: ExpLog, q: seq<real>, alpha: real, idx: int, yes: bool, budget: real, cap: real)
    requires t.Valid()
    ensures var r := Buying(t, q, alpha, idx, yes, budget, cap);
            && (|q| == 0 ==> r == Err(EmptyVector))
            && (|q| > 0 && alpha <= 0.0 ==> r == Err(NonPositiveAlpha))
            && (|q| > 0 && alpha > 0.0 && budget <= 0.0 ==> r == Err(NonPositiveBudget))
            && (|q| > 0 && alpha > 0.0 && budget > 0.0 && !(0 <= idx < |q|) ==> r == Err(IndexOutOfRange))
            && (alpha > 0.0 && budget > 0.0 && 0 <= idx < |q| && Objection(q, alpha).Some? ==> r == Err(Objection(q, alpha).value))
            && (budget > 0.0 && 0 <= idx < |q| == 1 && ValidVector(q, alpha) && !yes ==> r == Err(DivisionByZero))
    ensures var r := Buying(t, q, alpha, idx, yes, budget, cap);
            && (r == Err(NonPositiveGain) <==> MaxShares(t, q, alpha, idx, yes, budget) == Ok(0))
            && (r == Err(AboveCap) <==>
                 MaxShares(t, q, alpha, idx, yes, budget).Ok? && MaxShares(t, q, alpha, idx, yes, budget).value > 0 && r.Err?)
  {
    QuoteExistsExactlyWhen(t, q, alpha, idx, yes, budget);
    if MaxShares(t, q, alpha, idx, yes, budget).Ok? {
      QuoteIsAffordable(t, q, alpha, idx, yes, budget, MaxShares(t, q, alpha, idx, yes, budget).value);
    }
  }

  /** What a cash-out is worth: the shares less the exact cost of the hedge. */
  function Worth(t: ExpLog, q: seq<real>, alpha: real, idx: nat, boughtYes: bool, shares: real): real
    requires ValidVector(q, alpha) && ValidVector(After(q, idx, !boughtYes, shares), alpha)
  {
    shares - (CostOf(t, After(q, idx, !boughtYes, shares), alpha) - CostOf(t, q, alpha))
  }

  /** Which error a cash-out of no valid position gets. */
  lemma CashOutRefusals(t: ExpLog, q: seq<real>, alpha: real, idx: nat, boughtYes: bool, shares: real, cap: real)
    requires t.Valid()
    ensures var r := Selling(t, q, alpha, idx, boughtYes, shares, cap);
            && (r == Err(EmptyVector) <==> |q| == 0)
            && (r == Err(NonPositiveAlpha) <==> |q| > 0 && alpha <= 0.0)
            && (r == Err(NonPositiveShares) <==> |q| > 0 && alpha > 0.0 && shares <= 0.0)
            && (|q| > 0 && alpha > 0.0 && shares > 0.0 ==>
                 if Objection(After(q, idx, !boughtYes, shares), alpha).Some?
                 then r == Err(Objection(After(q, idx, !boughtYes, shares), alpha).value)
                 else r.Err? ==> r == Err(Objection(q, alpha).value))
  {
    ObjectionExactly(q, alpha);
    ObjectionExactly(After(q, idx, !boughtYes, shares), alpha);
  }

  /** A cash-out of a valid position is paid exactly when the hedge leaves every price below the cap,
      and then the payout is its worth cut to 12 decimals. */
  lemma CashOutPaidExactlyWhen(t: ExpLog, q: seq<real>, alpha: real, idx: nat, boughtYes: bool, shares: real, cap: real)
    requires t.Valid() && ValidVector(q, alpha) && shares > 0.0
    ensures ValidVector(After(q, idx, !boughtYes, shares), alpha)
    ensures Selling(t, q, alpha, idx, boughtYes, shares, cap).Ok?
    ensures var p := PricesOf(t, After(q, idx, !boughtYes, shares), alpha);
            Selling(t, q, alpha, idx, boughtYes, shares, cap).value.Some? <==> forall i :: 0 <= i < |p| ==> p[i] < cap
    ensures var r := Selling(t, q, alpha, idx, boughtYes, shares, cap).value;
            r.Some? && r.value > 0 ==>
              Amount(r.value) <= Worth(t, q, alpha, idx, boughtYes, shares) < Amount(r.value + 1)
    ensures var r := Selling(t, q, alpha, idx, boughtYes, shares, cap).value;
            r.Some? && r.value <= 0 ==> Worth(t, q, alpha, idx, boughtYes, shares) < 0.000_000_000_001
  {
    AfterIsValid(q, alpha, idx, !boughtYes, shares);
  }
}
