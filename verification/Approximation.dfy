/**
  The engine with inexact arithmetic: if every cost it computes is within err of the exact one, and
  midpoints are rounded finely enough for the search to end, then each trade it accepts is legal
  with slack 2 * err, and the guarantees of whole runs follow.
*/
module Approximation {
  import opened Transcendental
  import opened Pricing
  import opened MarketMaker
  import opened Outcomes
  import opened Bisection
  import opened Amounts
  import opened Quotes

  ghost predicate CostsWithin(t: ExpLog, alpha: real, cost: seq<real> -> real, err: real) {
    err >= 0.0 && forall v :: ValidVector(v, alpha) ==> -err <= cost(v) - CostOf(t, v, alpha) <= err
  }

  /** The function searched, on computed costs. */
  function ComputedExcess(cost: seq<real> -> real, q: seq<real>, idx: nat, yes: bool, budget: real): real -> Result<real> {
    x => Ok(cost(After(q, idx, yes, x)) - cost(q) - budget)
  }

  /** The search on computed costs with rounded midpoints stops at lo. */
  ghost predicate SearchStopsAt(cost: seq<real> -> real, q: seq<real>, idx: nat, yes: bool, budget: real,
                                end: real, round: real -> real, grid: real, lo: real) {
    && RoundsWithin(round, grid, 0.0, end) && 2.0 * grid < TOLERANCE
    && BisectResult(0.0, end, TOLERANCE, ComputedExcess(cost, q, idx, yes, budget), round, grid) == Ok(lo)
  }

  /** The share count found overspends by at most 2 * err, before truncation and after it. */
  lemma ApproximateQuoteOverspendsLittle(t: ExpLog, q: seq<real>, alpha: real, idx: nat, yes: bool, budget: real,
                                         cost: seq<real> -> real, err: real,
                                         end: real, round: real -> real, grid: real, lo: real)
    requires t.Valid() && ValidVector(q, alpha) && HasSide(q, idx, yes) && budget >= 0.0
    requires CostsWithin(t, alpha, cost, err)
    requires SearchStopsAt(cost, q, idx, yes, budget, end, round, grid, lo)
    ensures 0.0 <= Amount(Truncate(lo)) <= lo
    ensures ValidVector(After(q, idx, yes, lo), alpha) && ValidVector(After(q, idx, yes, Amount(Truncate(lo))), alpha)
    ensures CostOf(t, After(q, idx, yes, lo), alpha) - CostOf(t, q, alpha) <= budget + 2.0 * err
    ensures CostOf(t, After(q, idx, yes, Amount(Truncate(lo))), alpha) - CostOf(t, q, alpha) <= budget + 2.0 * err
  {
    AfterIsValid(q, alpha, idx, yes, lo);
    CostNotDecreasing(t, q, alpha, idx, yes, Amount(Truncate(lo)), lo);
    if lo == 0.0 {
      AfterZero(q, idx, yes);
    } else {
      assert LoOk(ComputedExcess(cost, q, idx, yes, budget), lo, 0.0);
      assert cost(After(q, idx, yes, lo)) - cost(q) <= budget;
    }
  }

  /** The upper end that the search reached: within the tolerance of lo, and dear enough. */
  lemma SearchUpperEnd(t: ExpLog, q: seq<real>, alpha: real, idx: nat, yes: bool, budget: real,
                       cost: seq<real> -> real, err: real,
                       end: real, round: real -> real, grid: real, lo: real) returns (hi: real)
    requires t.Valid() && ValidVector(q, alpha) && HasSide(q, idx, yes) && budget > 0.0
    requires CostsWithin(t, alpha, cost, err)
    requires SearchStopsAt(cost, q, idx, yes, budget, end, round, grid, lo)
    requires SidePrice(PricesOf(t, q, alpha), idx, yes) > 0.0
    requires end >= budget / SidePrice(PricesOf(t, q, alpha), idx, yes)
    ensures 0.0 <= lo < hi <= lo + TOLERANCE && ValidVector(After(q, idx, yes, hi), alpha)
    ensures CostOf(t, After(q, idx, yes, hi), alpha) - CostOf(t, q, alpha) >= budget - 2.0 * err
  {
    var f := ComputedExcess(cost, q, idx, yes, budget);
    hi := Narrow(0.0, end, TOLERANCE, f, round, grid).value.hi;
    AfterIsValid(q, alpha, idx, yes, hi);
    if hi == end {
      var dear := budget / SidePrice(PricesOf(t, q, alpha), idx, yes);
      UpperEndCostsTheBudget(t, q, alpha, idx, yes, budget, dear);
      CostNotDecreasing(t, q, alpha, idx, yes, dear, hi);
    } else {
      assert HiOk(f, hi, end);
      assert cost(After(q, idx, yes, hi)) - cost(q) > budget;
    }
  }

  /** The share count found is nearly maximal: when the search started from budget over price or
      above, any purchase larger by more than the tolerance and one unit costs more than the budget
      less 2 * err. */
  lemma ApproximateQuoteIsNearlyMaximal(t: ExpLog, q: seq<real>, alpha: real, idx: nat, yes: bool, budget: real,
                                        cost: seq<real> -> real, err: real,
                                        end: real, round: real -> real, grid: real, lo: real, x: real)
    requires t.Valid() && ValidVector(q, alpha) && HasSide(q, idx, yes) && budget > 0.0
    requires CostsWithin(t, alpha, cost, err)
    requires SearchStopsAt(cost, q, idx, yes, budget, end, round, grid, lo)
    requires SidePrice(PricesOf(t, q, alpha), idx, yes) > 0.0
    requires end >= budget / SidePrice(PricesOf(t, q, alpha), idx, yes)
    requires x >= Amount(Truncate(lo) + 1) + TOLERANCE
    ensures ValidVector(After(q, idx, yes, x), alpha)
    ensures CostOf(t, After(q, idx, yes, x), alpha) - CostOf(t, q, alpha) > budget - 2.0 * err
  {
    var hi := SearchUpperEnd(t, q, alpha, idx, yes, budget, cost, err, end, round, grid, lo);
    CostGrows(t, q, alpha, idx, yes, hi, x);
  }

  /** A purchase found by the inexact search is legal with slack 2 * err, on either side. */
  lemma ApproximateQuoteIsLegal(t: ExpLog, q: seq<real>, alpha: real, idx: nat, yes: bool, budget: real,
                                cost: seq<real> -> real, err: real,
                                end: real, round: real -> real, grid: real, lo: real)
    requires t.Valid() && ValidVector(q, alpha) && HasSide(q, idx, yes) && budget >= 0.0
    requires CostsWithin(t, alpha, cost, err)
    requires SearchStopsAt(cost, q, idx, yes, budget, end, round, grid, lo)
    ensures Legal(t, alpha, q, Buy(idx, yes, Amount(Truncate(lo)), budget), 2.0 * err)
  {
    ApproximateQuoteOverspendsLittle(t, q, alpha, idx, yes, budget, cost, err, end, round, grid, lo);
  }

  /** What a cash-out pays on computed costs. */
  function ComputedPayout(cost: seq<real> -> real, q: seq<real>, idx: nat, yes: bool, shares: real): int {
    Truncate(shares - (cost(Hedged(q, idx, yes, shares)) - cost(q)))
  }

  /** A positive cash-out on computed costs is legal with slack 2 * err. */
  lemma ApproximateCashOutIsLegal(t: ExpLog, q: seq<real>, alpha: real, idx: nat, yes: bool, shares: real,
                                  cost: seq<real> -> real, err: real)
    requires t.Valid() && ValidVector(q, alpha) && idx < |q| && shares >= 0.0
    requires CostsWithin(t, alpha, cost, err) && ComputedPayout(cost, q, idx, yes, shares) > 0
    ensures Legal(t, alpha, q, CashOut(idx, yes, shares, Amount(ComputedPayout(cost, q, idx, yes, shares))), 2.0 * err)
  {
    AfterIsValid(q, alpha, idx, !yes, shares);
    var v := Hedged(q, idx, yes, shares);
    assert -err <= cost(v) - CostOf(t, v, alpha) && cost(q) - CostOf(t, q, alpha) <= err;
  }

  // ----- Runs of the inexact engine -----

  /** The inexact engine accepts the trade at q. */
  ghost predicate Accepts(cost: seq<real> -> real, round: real -> real, q: seq<real>, tr: Trade) {
    match tr
    case Buy(o, yes, shares, paid) =>
      && HasSide(q, o, yes) && paid >= 0.0
      && exists end: real, grid: real, lo: real ::
           SearchStopsAt(cost, q, o, yes, paid, end, round, grid, lo) && shares == Amount(Truncate(lo))
    case CashOut(o, yes, shares, received) =>
      && o < |q| && shares >= 0.0
      && ComputedPayout(cost, q, o, yes, shares) > 0 && received == Amount(ComputedPayout(cost, q, o, yes, shares))
  }

  ghost predicate AcceptedRun(cost: seq<real> -> real, round: real -> real, q: seq<real>, run: seq<Trade>) {
    run == [] ||
    (var before := run[..|run| - 1];
     AcceptedRun(cost, round, q, before) && Accepts(cost, round, QuantitiesAfter(q, before), run[|run| - 1]))
  }

  lemma AcceptedIsLegal(t: ExpLog, alpha: real, cost: seq<real> -> real, err: real, round: real -> real,
                        q: seq<real>, tr: Trade)
    requires t.Valid() && ValidVector(q, alpha) && CostsWithin(t, alpha, cost, err) && Accepts(cost, round, q, tr)
    ensures Legal(t, alpha, q, tr, 2.0 * err)
  {
    match tr
    case Buy(o, yes, shares, paid) =>
      var end: real, grid: real, lo: real :|
        SearchStopsAt(cost, q, o, yes, paid, end, round, grid, lo) && shares == Amount(Truncate(lo));
      ApproximateQuoteIsLegal(t, q, alpha, o, yes, paid, cost, err, end, round, grid, lo);
    case CashOut(o, yes, shares, _) =>
      ApproximateCashOutIsLegal(t, q, alpha, o, yes, shares, cost, err);
  }

  lemma {:induction false} AcceptedRunIsLegal(t: ExpLog, alpha: real, cost: seq<real> -> real, err: real,
                                              round: real -> real, q: seq<real>, run: seq<Trade>)
    requires t.Valid() && ValidVector(q, alpha) && CostsWithin(t, alpha, cost, err)
    requires AcceptedRun(cost, round, q, run)
    ensures LegalRun(t, alpha, q, run, 2.0 * err)
  {
    if run != [] {
      var before := run[..|run| - 1];
      AcceptedRunIsLegal(t, alpha, cost, err, round, q, before);
      RunInvariant(t, alpha, q, before, 2.0 * err);
      AcceptedIsLegal(t, alpha, cost, err, round, QuantitiesAfter(q, before), run[|run| - 1]);
    }
  }

  /**
    Bounded loss for the inexact engine: over every run it accepts from a freshly seeded market, on
    either side, and whatever outcome wins, the takings cover the open shares that pay except for
    alpha * n * seed * ln n and 2 * err for each trade.
  */
  lemma InexactEngineLosesLittle(t: ExpLog, alpha: real, cost: seq<real> -> real, err: real, round: real -> real,
                                 q: seq<real>, seed: real, run: seq<Trade>, winner: nat)
    requires t.Valid() && ValidVector(q, alpha) && CostsWithin(t, alpha, cost, err) && winner < |q|
    requires forall i :: 0 <= i < |q| ==> q[i] == seed
    requires AcceptedRun(cost, round, q, run)
    ensures Takings(run) >= Open(run, winner)
                            - MaxLoss(t, alpha, |q|, seed)
                            - Slacks(2.0 * err, |run|)
  {
    AcceptedRunIsLegal(t, alpha, cost, err, round, q, run);
    BoundedLoss(t, alpha, q, seed, run, 2.0 * err, winner);
  }
}
