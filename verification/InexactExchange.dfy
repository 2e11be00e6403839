/**
  The database run by an engine with inexact costs: bets and cash-outs commit what that engine
  quotes.  The bounded loss of every market weakens by 2 * err for each trade committed on it.
*/
module InexactExchange {
  import opened Transcendental
  import opened Pricing
  import opened MarketMaker
  import opened Ledger
  import opened Amounts
  import opened Quotes
  import opened Exchange
  import opened ExchangeInvariant
  import opened Solvency
  import opened Settlement
  import opened Approximation

  /** The cost function the engine computes, for each alpha. */
  type Costs = real -> (seq<real> -> real)

  ghost predicate AllCostsWithin(t: ExpLog, costs: Costs, err: real) {
    forall alpha :: CostsWithinAt(t, costs, err, alpha)
  }

  ghost predicate CostsWithinAt(t: ExpLog, costs: Costs, err: real, alpha: real) {
    CostsWithin(t, alpha, costs(alpha), err)
  }

  // ----- Steps of the inexact exchange -----

  /** The search on computed costs quotes the gain. */
  ghost predicate QuotedBy(cost: seq<real> -> real, round: real -> real, q: seq<real>, k: nat, budget: real, gain: int) {
    && HasSide(q, k, true)
    && exists end: real, grid: real, lo: real ::
         SearchStopsAt(cost, q, k, true, budget, end, round, grid, lo) && gain == Truncate(lo)
  }

  /** A yes bet committed for the gain that the inexact engine quotes. */
  ghost predicate InexactBet(costs: Costs, round: real -> real, db: Db, db': Db, r: BetRequest, gain: int) {
    && BetPlaced(db, db', r, gain) && r.side == Yes
    && var m := db.markets[r.market];
       r.outcome in m.outcomes &&
       QuotedBy(costs(m.alpha), round, Quantities(db.outcomes, m.outcomes), IndexOf(m.outcomes, r.outcome), Amount(r.amount), gain)
  }

  /** A yes bet cashed out for what the inexact engine computes. */
  ghost predicate InexactCashout(costs: Costs, db: Db, db': Db, r: CashoutRequest, gain: int) {
    && BetCashed(db, db', r, gain) && db.bets[r.bet].side == Yes
    && var b := db.bets[r.bet];
       var m := db.markets[db.outcomes[b.outcome].market];
       gain == ComputedPayout(costs(m.alpha), Quantities(db.outcomes, m.outcomes), IndexOf(m.outcomes, b.outcome), true, Amount(b.payout))
  }

  /** One event: bets and cash-outs fail or commit what the inexact engine quotes; everything else
      is as in `Exchange`. */
  ghost predicate InexactStep(t: ExpLog, costs: Costs, round: real -> real, db: Db, e: Event, db': Db)
    requires t.Valid()
  {
    match e
    case EPlaceBet(r, _) => BetOutcome(costs, round, db, r, db')
    case ECashOut(r, _) => CashoutOutcome(costs, db, r, db')
    case _ => OtherOutcome(t, db, e, db')
  }

  ghost predicate BetOutcome(costs: Costs, round: real -> real, db: Db, r: BetRequest, db': Db) {
    db' == db || exists gain :: InexactBet(costs, round, db, db', r, gain)
  }

  ghost predicate CashoutOutcome(costs: Costs, db: Db, r: CashoutRequest, db': Db) {
    db' == db || exists gain :: InexactCashout(costs, db, db', r, gain)
  }

  ghost predicate OtherOutcome(t: ExpLog, db: Db, e: Event, db': Db)
    requires t.Valid()
  {
    Possible(db, e) && db' == Step(t, db, e).0
  }

  /** The events lead through the states, starting from the empty database. */
  ghost predicate InexactRun(t: ExpLog, costs: Costs, round: real -> real, states: seq<Db>, events: seq<Event>)
    requires t.Valid()
  {
    && |states| == |events| + 1 && states[0] == EMPTY_DB
    && forall k :: 0 <= k < |events| ==> StepAt(t, costs, round, states, events, k)
  }

  ghost predicate StepAt(t: ExpLog, costs: Costs, round: real -> real, states: seq<Db>, events: seq<Event>, k: nat)
    requires t.Valid() && |states| == |events| + 1 && k < |events|
  {
    InexactStep(t, costs, round, states[k], events[k], states[k + 1])
  }

  // ----- Counting trades -----

  function BetsOn(bets: seq<Bet>, ids: seq<nat>): nat {
    if bets == [] then 0
    else BetsOn(bets[..|bets| - 1], ids) + (if bets[|bets| - 1].outcome in ids then 1 else 0)
  }

  function CashoutsOn(bets: seq<Bet>, cashouts: seq<Cashout>, ids: seq<nat>): nat {
    if cashouts == [] then 0
    else CashoutsOn(bets, cashouts[..|cashouts| - 1], ids) +
         (if BetOf(bets, cashouts[|cashouts| - 1]).outcome in ids then 1 else 0)
  }

  /** Bets and cash-outs committed on the outcomes. */
  function TradesOn(db: Db, ids: seq<nat>): nat {
    BetsOn(db.bets, ids) + CashoutsOn(db.bets, db.cashouts, ids)
  }

  lemma {:induction false} CashoutsBesideNewBet(bets: seq<Bet>, b: Bet, cashouts: seq<Cashout>, ids: seq<nat>)
    requires Known(bets, cashouts)
    ensures CashoutsOn(bets + [b], cashouts, ids) == CashoutsOn(bets, cashouts, ids)
  {
    if cashouts != [] {
      CashoutsBesideNewBet(bets, b, cashouts[..|cashouts| - 1], ids);
    }
  }

  lemma TradesAfterBet(db: Db, db': Db, r: BetRequest, gain: int, ids: seq<nat>)
    requires BetPlaced(db, db', r, gain) && Known(db.bets, db.cashouts)
    ensures TradesOn(db', ids) == TradesOn(db, ids) + (if r.outcome in ids then 1 else 0)
  {
    var b := db'.bets[|db.bets|];
    assert db'.bets == db.bets + [b] && db'.bets[..|db.bets|] == db.bets;
    CashoutsBesideNewBet(db.bets, b, db.cashouts, ids);
  }

  lemma TradesAfterCashout(db: Db, db': Db, r: CashoutRequest, gain: int, ids: seq<nat>)
    requires BetCashed(db, db', r, gain)
    ensures TradesOn(db', ids) == TradesOn(db, ids) + (if db.bets[r.bet].outcome in ids then 1 else 0)
  {
    assert db'.cashouts[..|db.cashouts|] == db.cashouts;
  }

  // ----- The invariant -----

  /** The money taken covers the growth in cost less the shares cashed out, less the slack for every
      trade on the market. */
  ghost predicate TakingsWithin(t: ExpLog, db: Db, alpha: real, seed: int, ids: seq<nat>, slack: real) {
    var q := Quantities(db.outcomes, ids);
    && ValidVector(q, alpha)
    && Amount(TakingsOf(db, ids)) >=
       CostOf(t, q, alpha) - Amount(seed) - SeedBound(t, alpha, seed, |ids|) - Amount(CashedIn(db.bets, db.cashouts, ids))
       - Slacks(slack, TradesOn(db, ids))
  }

  ghost predicate Within(t: ExpLog, db: Db, m: Market, slack: real) {
    QuantitiesExplained(db, m.seed, m.outcomes) && TakingsWithin(t, db, m.alpha, m.seed, m.outcomes, slack)
  }

  ghost predicate AllWithin(t: ExpLog, db: Db, slack: real) {
    forall id: Uuid :: id in db.markets ==> Within(t, db, db.markets[id], slack)
  }

  lemma ExactIsWithin(t: ExpLog, db: Db, m: Market, slack: real)
    requires CoveredBy(t, db, m.alpha, m.seed, m.outcomes) && TradesOn(db, m.outcomes) == 0
    ensures Within(t, db, m, slack)
  {
  }

  lemma UntouchedStaysWithin(t: ExpLog, db: Db, db': Db, m: Market, slack: real)
    requires Within(t, db, m, slack) && Untouched(db, db', m.outcomes)
    requires TradesOn(db', m.outcomes) == TradesOn(db, m.outcomes)
    ensures Within(t, db', m, slack)
  {
    assert Quantities(db'.outcomes, m.outcomes) == Quantities(db.outcomes, m.outcomes);
  }

  /** What a trade adds to both sides. */
  lemma NextBalance(takings: real, more: real, c: real, c': real, cashed: real, closed: real, rest: real, slacks: real, slack: real)
    requires takings >= c - rest - cashed - slacks && more + closed + slack >= c' - c
    ensures takings + more >= c' - rest - (cashed + closed) - (slacks + slack)
  {
  }

  // ----- Bets -----

  lemma QuotedBetOverspendsLittle(t: ExpLog, cost: seq<real> -> real, err: real, round: real -> real,
                                  q: seq<real>, alpha: real, k: nat, budget: real, gain: int)
    requires t.Valid() && ValidVector(q, alpha) && CostsWithin(t, alpha, cost, err) && budget >= 0.0
    requires QuotedBy(cost, round, q, k, budget, gain)
    ensures ValidVector(After(q, k, true, Amount(gain)), alpha)
    ensures CostOf(t, After(q, k, true, Amount(gain)), alpha) - CostOf(t, q, alpha) <= budget + 2.0 * err
  {
    var end: real, grid: real, lo: real :|
      SearchStopsAt(cost, q, k, true, budget, end, round, grid, lo) && gain == Truncate(lo);
    ApproximateQuoteOverspendsLittle(t, q, alpha, k, true, budget, cost, err, end, round, grid, lo);
  }

  lemma AmountNotNegative(a: int)
    requires a >= 0
    ensures Amount(a) >= 0.0
  {
  }

  /** The purchase raised the cost of its market by at most the price paid and the slack. */
  ghost predicate PaysWithin(t: ExpLog, db: Db, r: BetRequest, gain: int, slack: real) {
    && r.market in db.markets && r.outcome in db.markets[r.market].outcomes
    && var m := db.markets[r.market];
       var q := Quantities(db.outcomes, m.outcomes);
       var v := After(q, IndexOf(m.outcomes, r.outcome), true, Amount(gain));
       && ValidVector(q, m.alpha) && ValidVector(v, m.alpha)
       && CostOf(t, v, m.alpha) - CostOf(t, q, m.alpha) <= Amount(r.amount) + slack
  }

  lemma InexactBetPays(t: ExpLog, costs: Costs, err: real, round: real -> real, db: Db, db': Db, r: BetRequest, gain: int)
    requires t.Valid() && InexactBet(costs, round, db, db', r, gain) && r.amount >= 0
    requires var m := db.markets[r.market];
             ValidVector(Quantities(db.outcomes, m.outcomes), m.alpha) && CostsWithin(t, m.alpha, costs(m.alpha), err)
    ensures PaysWithin(t, db, r, gain, 2.0 * err)
  {
    var m := db.markets[r.market];
    AmountNotNegative(r.amount);
    QuotedBetOverspendsLittle(t, costs(m.alpha), err, round, Quantities(db.outcomes, m.outcomes), m.alpha,
                              IndexOf(m.outcomes, r.outcome), Amount(r.amount), gain);
  }

  lemma AmountsAfterBet(db: Db, db': Db, r: BetRequest, gain: int, ids: seq<nat>)
    requires BetPlaced(db, db', r, gain) && Known(db.bets, db.cashouts) && r.outcome in ids
    ensures Amount(TakingsOf(db', ids)) == Amount(TakingsOf(db, ids)) + Amount(r.amount)
    ensures CashedIn(db'.bets, db'.cashouts, ids) == CashedIn(db.bets, db.cashouts, ids)
    ensures TradesOn(db', ids) == TradesOn(db, ids) + 1
  {
    BetTotals(db, db', r, gain, 0, ids);
    TradesAfterBet(db, db', r, gain, ids);
    AmountAdds(TakingsOf(db, ids), r.amount);
  }

  lemma BetTakingsWithin(t: ExpLog, db: Db, db': Db, r: BetRequest, gain: int, slack: real)
    requires BetPlaced(db, db', r, gain) && r.side == Yes && PaysWithin(t, db, r, gain, slack) && Known(db.bets, db.cashouts)
    requires Listed(db.outcomes, db.markets[r.market].outcomes)
    requires var m := db.markets[r.market]; TakingsWithin(t, db, m.alpha, m.seed, m.outcomes, slack)
    ensures var m := db.markets[r.market]; TakingsWithin(t, db', m.alpha, m.seed, m.outcomes, slack)
  {
    var m := db.markets[r.market];
    var ids := m.outcomes;
    var (q, v) := (Quantities(db.outcomes, ids), Quantities(db'.outcomes, ids));
    QuantitiesAfterBet(db.outcomes, ids, r.outcome, Yes, gain);
    AmountsAfterBet(db, db', r, gain, ids);
    NextBalance(Amount(TakingsOf(db, ids)), Amount(r.amount), CostOf(t, q, m.alpha), CostOf(t, v, m.alpha),
                Amount(CashedIn(db.bets, db.cashouts, ids)), 0.0,
                Amount(m.seed) + SeedBound(t, m.alpha, m.seed, |ids|), Slacks(slack, TradesOn(db, ids)), slack);
  }

  lemma BetKeepsItsMarketWithin(t: ExpLog, db: Db, db': Db, r: BetRequest, gain: int, slack: real)
    requires BetPlaced(db, db', r, gain) && r.side == Yes && PaysWithin(t, db, r, gain, slack) && Known(db.bets, db.cashouts)
    requires Listed(db.outcomes, db.markets[r.market].outcomes) && Within(t, db, db.markets[r.market], slack)
    ensures Within(t, db', db.markets[r.market], slack)
  {
    BetQuantities(db, db', r, gain, db.markets[r.market].seed, db.markets[r.market].outcomes);
    BetTakingsWithin(t, db, db', r, gain, slack);
  }

  lemma BetKeepsOtherMarketWithin(t: ExpLog, db: Db, db': Db, r: BetRequest, gain: int, m: Market, slack: real)
    requires BetPlaced(db, db', r, gain) && r.side == Yes && Known(db.bets, db.cashouts)
    requires Listed(db.outcomes, m.outcomes) && r.outcome !in m.outcomes && Within(t, db, m, slack)
    ensures Within(t, db', m, slack)
  {
    BetBesideMarket(db, db', r, gain, m.outcomes);
    TradesAfterBet(db, db', r, gain, m.outcomes);
    UntouchedStaysWithin(t, db, db', m, slack);
  }

  lemma BetKeepsWithin(t: ExpLog, db: Db, db': Db, r: BetRequest, gain: int, slack: real)
    requires RowsKnown(db) && AllWithin(t, db, slack)
    requires BetPlaced(db, db', r, gain) && r.side == Yes && PaysWithin(t, db, r, gain, slack)
    ensures AllWithin(t, db', slack)
  {
    forall id: Uuid | id in db'.markets ensures Within(t, db', db'.markets[id], slack) {
      var m := db.markets[id];
      assert Within(t, db, m, slack) && IdsOk(db.outcomes, id, m.outcomes);
      if id == r.market {
        BetKeepsItsMarketWithin(t, db, db', r, gain, slack);
        SameTermsWithin(t, db', m, db'.markets[id], slack);
      } else {
        assert r.outcome !in m.outcomes;
        BetKeepsOtherMarketWithin(t, db, db', r, gain, m, slack);
      }
    }
  }

  /** Only the seed, alpha and the outcomes of a market matter. */
  lemma SameTermsWithin(t: ExpLog, db: Db, m: Market, m': Market, slack: real)
    requires Within(t, db, m, slack) && m'.seed == m.seed && m'.alpha == m.alpha && m'.outcomes == m.outcomes
    ensures Within(t, db, m', slack)
  {
  }

  // ----- Cash-outs -----

  lemma ComputedPayoutIsCovered(t: ExpLog, cost: seq<real> -> real, err: real, q: seq<real>, alpha: real, k: nat, shares: real, gain: int)
    requires t.Valid() && ValidVector(q, alpha) && CostsWithin(t, alpha, cost, err) && k < |q| && shares >= 0.0
    requires gain == ComputedPayout(cost, q, k, true, shares) && gain > 0
    ensures ValidVector(Quotes.Hedged(q, k, true, shares), alpha)
    ensures Amount(gain) <= shares - (CostOf(t, Quotes.Hedged(q, k, true, shares), alpha) - CostOf(t, q, alpha)) + 2.0 * err
  {
    ApproximateCashOutIsLegal(t, q, alpha, k, true, shares, cost, err);
  }

  /** What was paid out is at most the shares less the cost of the hedge and the slack. */
  ghost predicate PaidWithin(t: ExpLog, db: Db, b: Bet, id: Uuid, gain: int, slack: real) {
    && id in db.markets && b.outcome in db.markets[id].outcomes
    && var m := db.markets[id];
       var q := Quantities(db.outcomes, m.outcomes);
       var v := Quotes.Hedged(q, IndexOf(m.outcomes, b.outcome), true, Amount(b.payout));
       && ValidVector(q, m.alpha) && ValidVector(v, m.alpha)
       && Amount(gain) <= Amount(b.payout) - (CostOf(t, v, m.alpha) - CostOf(t, q, m.alpha)) + slack
  }

  lemma InexactCashoutPays(t: ExpLog, costs: Costs, err: real, db: Db, db': Db, r: CashoutRequest, gain: int)
    requires t.Valid() && InexactCashout(costs, db, db', r, gain) && db.bets[r.bet].payout >= 0
    requires var m := db.markets[db.outcomes[db.bets[r.bet].outcome].market];
             ValidVector(Quantities(db.outcomes, m.outcomes), m.alpha) && CostsWithin(t, m.alpha, costs(m.alpha), err)
    ensures PaidWithin(t, db, db.bets[r.bet], db.outcomes[db.bets[r.bet].outcome].market, gain, 2.0 * err)
  {
    var b := db.bets[r.bet];
    var m := db.markets[db.outcomes[b.outcome].market];
    AmountNotNegative(b.payout);
    ComputedPayoutIsCovered(t, costs(m.alpha), err, Quantities(db.outcomes, m.outcomes), m.alpha,
                            IndexOf(m.outcomes, b.outcome), Amount(b.payout), gain);
  }

  lemma AmountsAfterCashout(db: Db, db': Db, r: CashoutRequest, gain: int, ids: seq<nat>)
    requires BetCashed(db, db', r, gain) && db.bets[r.bet].outcome in ids
    ensures Amount(TakingsOf(db', ids)) == Amount(TakingsOf(db, ids)) + Amount(-gain) && Amount(-gain) == -Amount(gain)
    ensures Amount(CashedIn(db'.bets, db'.cashouts, ids)) ==
            Amount(CashedIn(db.bets, db.cashouts, ids)) + Amount(db.bets[r.bet].payout)
    ensures TradesOn(db', ids) == TradesOn(db, ids) + 1
  {
    CashoutTotals(db, db', r, gain, 0, ids);
    TradesAfterCashout(db, db', r, gain, ids);
    AmountAdds(TakingsOf(db, ids), -gain);
    AmountAdds(CashedIn(db.bets, db.cashouts, ids), db.bets[r.bet].payout);
    AmountAdds(gain, -gain);
  }

  lemma CashoutTakingsWithin(t: ExpLog, db: Db, db': Db, r: CashoutRequest, gain: int, id: Uuid, slack: real)
    requires BetCashed(db, db', r, gain) && id == db.outcomes[db.bets[r.bet].outcome].market
    requires PaidWithin(t, db, db.bets[r.bet], id, gain, slack) && IdsOk(db.outcomes, id, db.markets[id].outcomes)
    requires var m := db.markets[id]; TakingsWithin(t, db, m.alpha, m.seed, m.outcomes, slack)
    ensures var m := db.markets[id]; TakingsWithin(t, db', m.alpha, m.seed, m.outcomes, slack)
  {
    var (m, b) := (db.markets[id], db.bets[r.bet]);
    var ids := m.outcomes;
    var (q, v) := (Quantities(db.outcomes, ids), Quantities(db'.outcomes, ids));
    QuantitiesAfterHedge(db.outcomes, id, ids, b.outcome, b.payout);
    AmountsAfterCashout(db, db', r, gain, ids);
    NextBalance(Amount(TakingsOf(db, ids)), Amount(-gain), CostOf(t, q, m.alpha), CostOf(t, v, m.alpha),
                Amount(CashedIn(db.bets, db.cashouts, ids)), Amount(b.payout),
                Amount(m.seed) + SeedBound(t, m.alpha, m.seed, |ids|), Slacks(slack, TradesOn(db, ids)), slack);
  }

  lemma CashoutKeepsItsMarketWithin(t: ExpLog, db: Db, db': Db, r: CashoutRequest, gain: int, id: Uuid, slack: real)
    requires BetCashed(db, db', r, gain) && id == db.outcomes[db.bets[r.bet].outcome].market
    requires PaidWithin(t, db, db.bets[r.bet], id, gain, slack) && IdsOk(db.outcomes, id, db.markets[id].outcomes)
    requires Within(t, db, db.markets[id], slack)
    ensures Within(t, db', db.markets[id], slack)
  {
    CashoutQuantities(db, db', r, gain, id, db.markets[id].seed, db.markets[id].outcomes);
    CashoutTakingsWithin(t, db, db', r, gain, id, slack);
  }

  lemma CashoutKeepsOtherMarketWithin(t: ExpLog, db: Db, db': Db, r: CashoutRequest, gain: int, id: Uuid, m: Market, slack: real)
    requires BetCashed(db, db', r, gain) && id != db.outcomes[db.bets[r.bet].outcome].market
    requires IdsOk(db.outcomes, id, m.outcomes) && db.bets[r.bet].outcome !in m.outcomes && Within(t, db, m, slack)
    ensures Within(t, db', m, slack)
  {
    CashoutBesideMarket(db, db', r, gain, id, m.outcomes);
    TradesAfterCashout(db, db', r, gain, m.outcomes);
    UntouchedStaysWithin(t, db, db', m, slack);
  }

  lemma CashoutKeepsWithin(t: ExpLog, db: Db, db': Db, r: CashoutRequest, gain: int, slack: real)
    requires RowsKnown(db) && AllWithin(t, db, slack) && BetCashed(db, db', r, gain)
    requires PaidWithin(t, db, db.bets[r.bet], db.outcomes[db.bets[r.bet].outcome].market, gain, slack)
    ensures AllWithin(t, db', slack)
  {
    var home := db.outcomes[db.bets[r.bet].outcome].market;
    forall id: Uuid | id in db'.markets ensures Within(t, db', db'.markets[id], slack) {
      var m := db.markets[id];
      assert Within(t, db, m, slack) && IdsOk(db.outcomes, id, m.outcomes);
      if id == home {
        CashoutKeepsItsMarketWithin(t, db, db', r, gain, id, slack);
        SameTermsWithin(t, db', m, db'.markets[id], slack);
      } else {
        assert db.bets[r.bet].outcome !in m.outcomes;
        CashoutKeepsOtherMarketWithin(t, db, db', r, gain, id, m, slack);
      }
    }
  }

  // ----- Other steps -----

  lemma {:induction false} NoTradesOn(bets: seq<Bet>, cashouts: seq<Cashout>, ids: seq<nat>)
    requires Known(bets, cashouts) && forall i :: 0 <= i < |bets| ==> bets[i].outcome !in ids
    ensures BetsOn(bets, ids) == 0 && CashoutsOn(bets, cashouts, ids) == 0
    decreases |bets| + |cashouts|
  {
    NoBetsOn(bets, ids);
    if cashouts != [] {
      NoTradesOn(bets, cashouts[..|cashouts| - 1], ids);
    }
  }

  lemma {:induction false} NoBetsOn(bets: seq<Bet>, ids: seq<nat>)
    requires forall i :: 0 <= i < |bets| ==> bets[i].outcome !in ids
    ensures BetsOn(bets, ids) == 0
  {
    if bets != [] {
      NoBetsOn(bets[..|bets| - 1], ids);
    }
  }

  lemma CreateKeepsWithin(t: ExpLog, db: Db, db': Db, id: Uuid, slack: real)
    requires t.Valid() && WithMarket(db, db', id) && RowsKnown(db) && AllWithin(t, db, slack)
    ensures AllWithin(t, db', slack)
  {
    NewMarketIsCovered(t, db, db', id);
    NoTradesOn(db'.bets, db'.cashouts, db'.markets[id].outcomes);
    ExactIsWithin(t, db', db'.markets[id], slack);
    forall other: Uuid | other in db'.markets ensures Within(t, db', db'.markets[other], slack) {
      if other != id {
        var m := db.markets[other];
        assert Within(t, db, m, slack) && IdsOk(db.outcomes, other, m.outcomes);
        MarketBesideNewIsUntouched(db, db', id, other, m.outcomes);
        UntouchedStaysWithin(t, db, db', m, slack);
      }
    }
  }

  lemma QuietKeepsWithin(t: ExpLog, db: Db, db': Db, slack: real)
    requires AllWithin(t, db, slack) && Quiet(db, db')
    ensures AllWithin(t, db', slack)
  {
    forall id: Uuid | id in db'.markets ensures Within(t, db', db'.markets[id], slack) {
      assert Within(t, db, db.markets[id], slack);
      UntouchedStaysWithin(t, db, db', db.markets[id], slack);
    }
  }

  lemma OtherStepKeepsWithin(t: ExpLog, db: Db, e: Event, slack: real)
    requires t.Valid() && RowsKnown(db) && AllWithin(t, db, slack) && !e.EPlaceBet? && !e.ECashOut?
    ensures AllWithin(t, Step(t, db, e).0, slack)
  {
    if e.ECreateMarket? {
      CreatedKeepsWithin(t, db, e, slack);
    } else {
      QuietEvents(t, db, e);
      QuietKeepsWithin(t, db, Step(t, db, e).0, slack);
    }
  }

  lemma CreatedKeepsWithin(t: ExpLog, db: Db, e: Event, slack: real)
    requires t.Valid() && RowsKnown(db) && AllWithin(t, db, slack) && e.ECreateMarket?
    ensures AllWithin(t, Step(t, db, e).0, slack)
  {
    var (db', reply) := CreateMarket(db, e.newId, e.house, e.seed, e.alpha, e.cap, e.closeTime, e.ids);
    if reply.Committed? {
      CreateEffect(db, e.newId, e.house, e.seed, e.alpha, e.cap, e.closeTime, e.ids);
      CreateKeepsWithin(t, db, db', e.newId, slack);
    }
  }

  // ----- Runs -----

  ghost predicate Sound(t: ExpLog, db: Db, slack: real) {
    Consistent(db) && AllYes(db.bets) && AllWithin(t, db, slack)
  }

  lemma MarketIsPriced(t: ExpLog, costs: Costs, err: real, db: Db, id: Uuid, slack: real)
    requires AllCostsWithin(t, costs, err) && AllWithin(t, db, slack) && id in db.markets
    ensures var m := db.markets[id];
            ValidVector(Quantities(db.outcomes, m.outcomes), m.alpha) && CostsWithin(t, m.alpha, costs(m.alpha), err)
  {
    assert Within(t, db, db.markets[id], slack);
    assert CostsWithinAt(t, costs, err, db.markets[id].alpha);
  }

  lemma BetPaysFrom(t: ExpLog, costs: Costs, err: real, slack: real, round: real -> real, db: Db, db': Db, r: BetRequest, gain: int)
    requires t.Valid() && AllCostsWithin(t, costs, err) && slack == 2.0 * err && AllWithin(t, db, slack)
    requires InexactBet(costs, round, db, db', r, gain)
    ensures PaysWithin(t, db, r, gain, slack)
  {
    MarketIsPriced(t, costs, err, db, r.market, slack);
    InexactBetPays(t, costs, err, round, db, db', r, gain);
  }

  lemma BetIsSound(t: ExpLog, costs: Costs, err: real, slack: real, round: real -> real, db: Db, db': Db, r: BetRequest, gain: int)
    requires t.Valid() && AllCostsWithin(t, costs, err) && slack == 2.0 * err && Sound(t, db, slack)
    requires InexactBet(costs, round, db, db', r, gain)
    ensures Sound(t, db', slack)
  {
    BetPaysFrom(t, costs, err, slack, round, db, db', r, gain);
    PricedBetIsSound(t, db, db', r, gain, slack);
  }

  lemma PricedBetIsSound(t: ExpLog, db: Db, db': Db, r: BetRequest, gain: int, slack: real)
    requires Sound(t, db, slack) && BetPlaced(db, db', r, gain) && r.side == Yes && PaysWithin(t, db, r, gain, slack)
    ensures Sound(t, db', slack)
  {
    BetKeepsTables(db, db', r, gain);
    BetKeepsWithin(t, db, db', r, gain, slack);
  }

  lemma BetKeepsTables(db: Db, db': Db, r: BetRequest, gain: int)
    requires Consistent(db) && AllYes(db.bets) && BetPlaced(db, db', r, gain) && r.side == Yes
    ensures RowsKnown(db) && Consistent(db') && AllYes(db'.bets)
  {
    RowsAreKnown(db);
    BetPlacedKeeps(db, db', r, gain);
    YesAfterBet(db, db', r, gain);
  }

  lemma YesAfterBet(db: Db, db': Db, r: BetRequest, gain: int)
    requires AllYes(db.bets) && BetPlaced(db, db', r, gain) && r.side == Yes
    ensures AllYes(db'.bets)
  {
  }

  lemma CashoutPaysFrom(t: ExpLog, costs: Costs, err: real, slack: real, db: Db, db': Db, r: CashoutRequest, gain: int)
    requires t.Valid() && AllCostsWithin(t, costs, err) && slack == 2.0 * err && AllWithin(t, db, slack)
    requires InexactCashout(costs, db, db', r, gain) && db.bets[r.bet].payout >= 0
    ensures PaidWithin(t, db, db.bets[r.bet], db.outcomes[db.bets[r.bet].outcome].market, gain, slack)
  {
    MarketIsPriced(t, costs, err, db, db.outcomes[db.bets[r.bet].outcome].market, slack);
    InexactCashoutPays(t, costs, err, db, db', r, gain);
  }

  lemma PayoutIsPositive(db: Db, i: nat)
    requires Consistent(db) && i < |db.bets|
    ensures db.bets[i].payout > 0
  {
    assert BetOk(db, db.bets[i]);
  }

  lemma CashoutIsSound(t: ExpLog, costs: Costs, err: real, slack: real, db: Db, db': Db, r: CashoutRequest, gain: int)
    requires t.Valid() && AllCostsWithin(t, costs, err) && slack == 2.0 * err && Sound(t, db, slack)
    requires InexactCashout(costs, db, db', r, gain)
    ensures Sound(t, db', slack)
  {
    PayoutIsPositive(db, r.bet);
    CashoutPaysFrom(t, costs, err, slack, db, db', r, gain);
    PricedCashoutIsSound(t, db, db', r, gain, slack);
  }

  lemma PricedCashoutIsSound(t: ExpLog, db: Db, db': Db, r: CashoutRequest, gain: int, slack: real)
    requires Sound(t, db, slack) && BetCashed(db, db', r, gain)
    requires PaidWithin(t, db, db.bets[r.bet], db.outcomes[db.bets[r.bet].outcome].market, gain, slack)
    ensures Sound(t, db', slack)
  {
    CashoutKeepsTables(db, db', r, gain);
    CashoutKeepsWithin(t, db, db', r, gain, slack);
  }

  lemma CashoutKeepsTables(db: Db, db': Db, r: CashoutRequest, gain: int)
    requires Consistent(db) && AllYes(db.bets) && BetCashed(db, db', r, gain)
    ensures RowsKnown(db) && Consistent(db') && AllYes(db'.bets)
  {
    RowsAreKnown(db);
    BetCashedKeeps(db, db', r, gain);
  }

  lemma OtherIsSound(t: ExpLog, db: Db, e: Event, slack: real)
    requires t.Valid() && Sound(t, db, slack) && Possible(db, e) && !e.EPlaceBet? && !e.ECashOut?
    ensures Sound(t, Step(t, db, e).0, slack)
  {
    RowsAreKnown(db);
    StepKeeps(t, db, e);
    StepKeepsYes(t, db, e);
    OtherStepKeepsWithin(t, db, e, slack);
  }

  lemma StepIsSound(t: ExpLog, costs: Costs, err: real, slack: real, round: real -> real, db: Db, e: Event, db': Db)
    requires t.Valid() && AllCostsWithin(t, costs, err) && slack == 2.0 * err && Sound(t, db, slack)
    requires InexactStep(t, costs, round, db, e, db')
    ensures Sound(t, db', slack)
  {
    if e.EPlaceBet? {
      BetStepIsSound(t, costs, err, slack, round, db, e, db');
    } else if e.ECashOut? {
      CashoutStepIsSound(t, costs, err, slack, round, db, e, db');
    } else {
      OtherStepIsSound(t, costs, round, db, e, db', slack);
    }
  }

  lemma BetStepIsSound(t: ExpLog, costs: Costs, err: real, slack: real, round: real -> real, db: Db, e: Event, db': Db)
    requires t.Valid() && AllCostsWithin(t, costs, err) && slack == 2.0 * err && Sound(t, db, slack)
    requires e.EPlaceBet? && InexactStep(t, costs, round, db, e, db')
    ensures Sound(t, db', slack)
  {
    if db' != db {
      var gain :| InexactBet(costs, round, db, db', e.bet, gain);
      BetIsSound(t, costs, err, slack, round, db, db', e.bet, gain);
    }
  }

  lemma CashoutStepIsSound(t: ExpLog, costs: Costs, err: real, slack: real, round: real -> real, db: Db, e: Event, db': Db)
    requires t.Valid() && AllCostsWithin(t, costs, err) && slack == 2.0 * err && Sound(t, db, slack)
    requires e.ECashOut? && InexactStep(t, costs, round, db, e, db')
    ensures Sound(t, db', slack)
  {
    if db' != db {
      var gain :| InexactCashout(costs, db, db', e.cashout, gain);
      CashoutIsSound(t, costs, err, slack, db, db', e.cashout, gain);
    }
  }

  lemma OtherStepIsSound(t: ExpLog, costs: Costs, round: real -> real, db: Db, e: Event, db': Db, slack: real)
    requires t.Valid() && Sound(t, db, slack)
    requires !e.EPlaceBet? && !e.ECashOut? && InexactStep(t, costs, round, db, e, db')
    ensures Sound(t, db', slack)
  {
    OtherIsSound(t, db, e, slack);
  }

  lemma {:induction false} RunIsSound(t: ExpLog, costs: Costs, err: real, slack: real, round: real -> real, states: seq<Db>, events: seq<Event>, k: nat)
    requires t.Valid() && AllCostsWithin(t, costs, err) && slack == 2.0 * err && InexactRun(t, costs, round, states, events) && k <= |events|
    ensures Sound(t, states[k], slack)
    decreases k
  {
    if k == 0 {
      EmptyIsConsistent();
    } else {
      RunIsSound(t, costs, err, slack, round, states, events, k - 1);
      assert StepAt(t, costs, round, states, events, k - 1);
      StepIsSound(t, costs, err, slack, round, states[k - 1], events[k - 1], states[k]);
    }
  }

  /**
    Bounded loss in the tables of the inexact exchange: in every state it reaches by yes bets,
    cash-outs and everything else, what a market took in covers its open bets on each outcome, less
    at most alpha * n * seed * ln n and 2 * err for each trade committed on the market.
  */
  lemma InexactTakingsCoverOpenBets(t: ExpLog, costs: Costs, err: real, slack: real, round: real -> real,
                                    states: seq<Db>, events: seq<Event>, k: nat, id: Uuid, i: nat)
    requires t.Valid() && AllCostsWithin(t, costs, err) && slack == 2.0 * err
    requires InexactRun(t, costs, round, states, events) && k <= |events|
    requires id in states[k].markets && i < |states[k].markets[id].outcomes|
    ensures var (db, m) := (states[k], states[k].markets[id]);
            Amount(TakingsOf(db, m.outcomes)) >=
            Amount(OpenShares(db, m.outcomes[i], Yes)) - SeedBound(t, m.alpha, m.seed, |m.outcomes|)
            - Slacks(slack, TradesOn(db, m.outcomes))
  {
    RunIsSound(t, costs, err, slack, round, states, events, k);
    SoundCoversOpenBets(t, states[k], id, i, slack);
  }

  lemma SoundCoversOpenBets(t: ExpLog, db: Db, id: Uuid, i: nat, slack: real)
    requires t.Valid() && Sound(t, db, slack) && id in db.markets && i < |db.markets[id].outcomes|
    ensures var m := db.markets[id];
            Amount(TakingsOf(db, m.outcomes)) >=
            Amount(OpenShares(db, m.outcomes[i], Yes)) - SeedBound(t, m.alpha, m.seed, |m.outcomes|)
            - Slacks(slack, TradesOn(db, m.outcomes))
  {
    OpenYesShares(db, db.markets[id].outcomes[i]);
    MarketCoversOpenBets(t, db, id, i, slack);
  }

  lemma MarketCoversOpenBets(t: ExpLog, db: Db, id: Uuid, i: nat, slack: real)
    requires t.Valid() && AllWithin(t, db, slack) && id in db.markets && i < |db.markets[id].outcomes|
    requires var o := db.markets[id].outcomes[i];
             OpenShares(db, o, Yes) == SharesOn(db.bets, o) - CashedOn(db.bets, db.cashouts, o)
    ensures var m := db.markets[id];
            Amount(TakingsOf(db, m.outcomes)) >=
            Amount(OpenShares(db, m.outcomes[i], Yes)) - SeedBound(t, m.alpha, m.seed, |m.outcomes|)
            - Slacks(slack, TradesOn(db, m.outcomes))
  {
    assert Within(t, db, db.markets[id], slack);
    WithinCoversOpenBets(t, db, db.markets[id], i, slack);
  }

  lemma WithinCoversOpenBets(t: ExpLog, db: Db, m: Market, i: nat, slack: real)
    requires t.Valid() && Within(t, db, m, slack) && i < |m.outcomes|
    ensures Amount(TakingsOf(db, m.outcomes)) >=
            Amount(SharesOn(db.bets, m.outcomes[i]) - CashedOn(db.bets, db.cashouts, m.outcomes[i]))
            - SeedBound(t, m.alpha, m.seed, |m.outcomes|) - Slacks(slack, TradesOn(db, m.outcomes))
  {
    var ids := m.outcomes;
    CostAboveEachQuantity(t, Quantities(db.outcomes, ids), m.alpha, i);
    var (open, cashed) := (SharesOn(db.bets, ids[i]) - CashedOn(db.bets, db.cashouts, ids[i]), CashedIn(db.bets, db.cashouts, ids));
    AmountAdds(m.seed, open);
    AmountAdds(m.seed + open, cashed);
  }
}
