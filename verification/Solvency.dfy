/**
  The market maker's guarantee carried down to the tables: in every reachable state of a run of
  yes bets and cash-outs, what a market took in covers its open bets on any outcome, except for
  at most alpha * n * seed * ln n.
*/
module Solvency {
  import opened Transcendental
  import opened Vectors
  import opened Pricing
  import MarketMaker
  import opened Ledger
  import opened Options
  import opened Outcomes
  import opened Amounts
  import opened Quotes
  import opened Exchange
  import opened ExchangeInvariant

  // ----- Totals over the tables -----

  function BetOf(bets: seq<Bet>, c: Cashout): Bet {
    if c.bet < |bets| then bets[c.bet] else Bet(seq(36, i => '0'), 0, 0, Yes, 0, 0, "")
  }

  /** Shares of outcome o that were cashed out. */
  function CashedOn(bets: seq<Bet>, cashouts: seq<Cashout>, o: nat): int {
    if cashouts == [] then 0
    else
      var b := BetOf(bets, cashouts[|cashouts| - 1]);
      CashedOn(bets, cashouts[..|cashouts| - 1], o) + (if b.outcome == o then b.payout else 0)
  }

  /** Shares of any of the outcomes that were cashed out. */
  function CashedIn(bets: seq<Bet>, cashouts: seq<Cashout>, ids: seq<nat>): int {
    if cashouts == [] then 0
    else
      var b := BetOf(bets, cashouts[|cashouts| - 1]);
      CashedIn(bets, cashouts[..|cashouts| - 1], ids) + (if b.outcome in ids then b.payout else 0)
  }

  /** Money paid for those cash-outs. */
  function PaidOutIn(bets: seq<Bet>, cashouts: seq<Cashout>, ids: seq<nat>): int {
    if cashouts == [] then 0
    else
      var c := cashouts[|cashouts| - 1];
      PaidOutIn(bets, cashouts[..|cashouts| - 1], ids) + (if BetOf(bets, c).outcome in ids then c.payout else 0)
  }

  /** Shares bought on outcome o, and money paid for bets on any of the outcomes. */
  function SharesOn(bets: seq<Bet>, o: nat): int {
    OwedInAll(bets, Win(o))
  }

  function PaidIn(bets: seq<Bet>, ids: seq<nat>): int {
    OwedInAll(bets, Refund(ids))
  }

  function TakingsOf(db: Db, ids: seq<nat>): int {
    PaidIn(db.bets, ids) - PaidOutIn(db.bets, db.cashouts, ids)
  }

  ghost predicate Known(bets: seq<Bet>, cashouts: seq<Cashout>) {
    forall j :: 0 <= j < |cashouts| ==> cashouts[j].bet < |bets|
  }

  /** A new bet does not change the totals over cash-outs. */
  lemma {:induction false} CashedBesideNewBet(bets: seq<Bet>, more: seq<Bet>, cashouts: seq<Cashout>, o: nat, ids: seq<nat>)
    requires Known(bets, cashouts)
    ensures CashedOn(bets + more, cashouts, o) == CashedOn(bets, cashouts, o)
    ensures CashedIn(bets + more, cashouts, ids) == CashedIn(bets, cashouts, ids)
    ensures PaidOutIn(bets + more, cashouts, ids) == PaidOutIn(bets, cashouts, ids)
  {
    if cashouts != [] {
      CashedBesideNewBet(bets, more, cashouts[..|cashouts| - 1], o, ids);
    }
  }

  lemma AppendedBet(bets: seq<Bet>, b: Bet, c: Claim)
    ensures OwedInAll(bets + [b], c) == OwedInAll(bets, c) + ClaimOf(b, c)
  {
    assert (bets + [b])[..|bets|] == bets;
  }

  lemma AppendedCashout(bets: seq<Bet>, cashouts: seq<Cashout>, c: Cashout, o: nat, ids: seq<nat>)
    ensures var b := BetOf(bets, c);
            && CashedOn(bets, cashouts + [c], o) == CashedOn(bets, cashouts, o) + (if b.outcome == o then b.payout else 0)
            && CashedIn(bets, cashouts + [c], ids) == CashedIn(bets, cashouts, ids) + (if b.outcome in ids then b.payout else 0)
            && PaidOutIn(bets, cashouts + [c], ids) == PaidOutIn(bets, cashouts, ids) + (if b.outcome in ids then c.payout else 0)
  {
    assert (cashouts + [c])[..|cashouts|] == cashouts;
  }

  /** Rows elsewhere contribute nothing to outcomes that no row names. */
  lemma {:induction false} NothingBetOn(bets: seq<Bet>, c: Claim)
    requires forall i :: 0 <= i < |bets| ==> !Claims(bets[i], c)
    ensures OwedInAll(bets, c) == 0
  {
    if bets != [] {
      NothingBetOn(bets[..|bets| - 1], c);
    }
  }

  lemma {:induction false} NothingCashedOn(bets: seq<Bet>, cashouts: seq<Cashout>, o: nat, ids: seq<nat>)
    requires Known(bets, cashouts)
    requires forall i :: 0 <= i < |bets| ==> bets[i].outcome !in ids && bets[i].outcome != o
    ensures CashedOn(bets, cashouts, o) == 0 && CashedIn(bets, cashouts, ids) == 0 && PaidOutIn(bets, cashouts, ids) == 0
  {
    if cashouts != [] {
      NothingCashedOn(bets, cashouts[..|cashouts| - 1], o, ids);
    }
  }

  // ----- Quantity vectors -----

  lemma AmountAdds(a: int, b: int)
    ensures Amount(a + b) == Amount(a) + Amount(b)
  {
  }

  ghost predicate Listed(outcomes: map<nat, Outcome>, ids: seq<nat>) {
    && (forall i, j :: 0 <= i < j < |ids| ==> ids[i] < ids[j])
    && (forall i :: 0 <= i < |ids| ==> ids[i] in outcomes)
  }

  /** A bet moves the market's vector as its quote assumed, on either side. */
  lemma QuantitiesAfterBet(outcomes: map<nat, Outcome>, ids: seq<nat>, o: nat, side: Side, gain: int)
    requires Listed(outcomes, ids) && o in ids
    ensures Quantities(AddShares(outcomes, o, side, gain), ids) ==
            MarketMaker.After(Quantities(outcomes, ids), IndexOf(ids, o), side.Yes?, Amount(gain))
  {
    var k := IndexOf(ids, o);
    forall i | 0 <= i < |ids|
      ensures Quantities(AddShares(outcomes, o, side, gain), ids)[i] ==
              MarketMaker.After(Quantities(outcomes, ids), k, side.Yes?, Amount(gain))[i]
    {
      assert (ids[i] == o) == (i == k);
      AmountAdds(outcomes[ids[i]].quantity, gain);
    }
  }

  lemma QuantitiesBesideBet(outcomes: map<nat, Outcome>, ids: seq<nat>, o: nat, gain: int)
    requires Listed(outcomes, ids) && o !in ids
    ensures Quantities(AddShares(outcomes, o, Yes, gain), ids) == Quantities(outcomes, ids)
  {
  }

  lemma SharesElsewhereUntouchedExactlyWhen(outcomes: map<nat, Outcome>, ids: seq<nat>, o: nat, side: Side, gain: int)
    requires Listed(outcomes, ids) && |ids| > 0 && o !in ids && gain > 0
    ensures Quantities(AddShares(outcomes, o, side, gain), ids) == Quantities(outcomes, ids) <==> side == Yes
  {
    assert Quantities(AddShares(outcomes, o, side, gain), ids)[0] == Amount(QuantityOf(AddShares(outcomes, o, side, gain), ids[0]));
    assert Quantities(outcomes, ids)[0] == Amount(outcomes[ids[0]].quantity);
    AmountAdds(outcomes[ids[0]].quantity, gain);
    if side == Yes {
      QuantitiesBesideBet(outcomes, ids, o, gain);
    }
  }

  /** A cash-out moves the market's vector as the hedge of a yes bet assumes. */
  lemma QuantitiesAfterHedge(outcomes: map<nat, Outcome>, id: Uuid, ids: seq<nat>, o: nat, shares: int)
    requires IdsOk(outcomes, id, ids) && o in ids
    ensures Quantities(AddHedge(outcomes, id, o, shares), ids) ==
            Hedged(Quantities(outcomes, ids), IndexOf(ids, o), true, Amount(shares))
  {
    var k := IndexOf(ids, o);
    forall i | 0 <= i < |ids|
      ensures Quantities(AddHedge(outcomes, id, o, shares), ids)[i] ==
              Hedged(Quantities(outcomes, ids), k, true, Amount(shares))[i]
    {
      assert (ids[i] == o) == (i == k);
      AmountAdds(outcomes[ids[i]].quantity, shares);
    }
  }

  lemma HedgeIsOppositeExactlyWhen(outcomes: map<nat, Outcome>, id: Uuid, ids: seq<nat>, o: nat, side: Side, shares: int)
    requires IdsOk(outcomes, id, ids) && o in ids && shares > 0
    ensures (Quantities(AddHedge(outcomes, id, o, shares), ids) ==
             Hedged(Quantities(outcomes, ids), IndexOf(ids, o), side.Yes?, Amount(shares))) <==> side == Yes
  {
    QuantitiesAfterHedge(outcomes, id, ids, o, shares);
    var (q, k) := (Quantities(outcomes, ids), IndexOf(ids, o));
    assert Hedged(q, k, true, Amount(shares))[k] == q[k];
    assert Hedged(q, k, false, Amount(shares))[k] == q[k] + Amount(shares);
  }

  lemma QuantitiesBesideHedge(outcomes: map<nat, Outcome>, id: Uuid, ids: seq<nat>, home: Uuid, o: nat, shares: int)
    requires IdsOk(outcomes, id, ids) && home != id
    ensures Quantities(AddHedge(outcomes, home, o, shares), ids) == Quantities(outcomes, ids)
  {
  }

  // ----- The invariant of one market -----

  /** The most a market can lose: alpha * n * seed * ln n. */
  ghost function SeedBound(t: ExpLog, alpha: real, seed: int, n: nat): real {
    MarketMaker.MaxLoss(t, alpha, n, Amount(seed))
  }

  /** Quantities are the seed, plus shares bought on the outcome, plus shares hedged onto it. */
  ghost predicate QuantitiesExplained(db: Db, seed: int, ids: seq<nat>) {
    forall i :: 0 <= i < |ids| ==>
      QuantityOf(db.outcomes, ids[i]) ==
      seed + SharesOn(db.bets, ids[i]) + CashedIn(db.bets, db.cashouts, ids) - CashedOn(db.bets, db.cashouts, ids[i])
  }

  ghost predicate TakingsCoverCost(t: ExpLog, db: Db, alpha: real, seed: int, ids: seq<nat>) {
    var q := Quantities(db.outcomes, ids);
    && ValidVector(q, alpha)
    && Amount(TakingsOf(db, ids)) >=
       CostOf(t, q, alpha) - Amount(seed) - SeedBound(t, alpha, seed, |ids|) - Amount(CashedIn(db.bets, db.cashouts, ids))
  }

  ghost predicate CoveredBy(t: ExpLog, db: Db, alpha: real, seed: int, ids: seq<nat>) {
    QuantitiesExplained(db, seed, ids) && TakingsCoverCost(t, db, alpha, seed, ids)
  }

  ghost predicate Covered(t: ExpLog, db: Db, id: Uuid)
    requires id in db.markets
  {
    CoveredBy(t, db, db.markets[id].alpha, db.markets[id].seed, db.markets[id].outcomes)
  }

  ghost predicate AllCovered(t: ExpLog, db: Db) {
    forall id: Uuid :: id in db.markets ==> Covered(t, db, id)
  }

  /** Nothing that a market's totals depend on has changed. */
  ghost predicate Untouched(db: Db, db': Db, ids: seq<nat>) {
    && (forall i :: 0 <= i < |ids| ==>
          QuantityOf(db'.outcomes, ids[i]) == QuantityOf(db.outcomes, ids[i])
          && SharesOn(db'.bets, ids[i]) == SharesOn(db.bets, ids[i])
          && CashedOn(db'.bets, db'.cashouts, ids[i]) == CashedOn(db.bets, db.cashouts, ids[i]))
    && CashedIn(db'.bets, db'.cashouts, ids) == CashedIn(db.bets, db.cashouts, ids)
    && TakingsOf(db', ids) == TakingsOf(db, ids)
  }

  lemma UntouchedStaysCovered(t: ExpLog, db: Db, db': Db, alpha: real, seed: int, ids: seq<nat>)
    requires CoveredBy(t, db, alpha, seed, ids) && Untouched(db, db', ids)
    ensures CoveredBy(t, db', alpha, seed, ids)
  {
    assert Quantities(db'.outcomes, ids) == Quantities(db.outcomes, ids);
  }

  // ----- Bets -----

  lemma BetTotals(db: Db, db': Db, r: BetRequest, gain: int, o: nat, ids: seq<nat>)
    requires BetPlaced(db, db', r, gain) && Known(db.bets, db.cashouts)
    ensures SharesOn(db'.bets, o) == SharesOn(db.bets, o) + (if o == r.outcome then gain else 0)
    ensures PaidIn(db'.bets, ids) == PaidIn(db.bets, ids) + (if r.outcome in ids then r.amount else 0)
    ensures CashedOn(db'.bets, db'.cashouts, o) == CashedOn(db.bets, db.cashouts, o)
    ensures CashedIn(db'.bets, db'.cashouts, ids) == CashedIn(db.bets, db.cashouts, ids)
    ensures PaidOutIn(db'.bets, db'.cashouts, ids) == PaidOutIn(db.bets, db.cashouts, ids)
  {
    var b := db'.bets[|db.bets|];
    AppendedBet(db.bets, b, Win(o));
    AppendedBet(db.bets, b, Refund(ids));
    CashedBesideNewBet(db.bets, [b], db.cashouts, o, ids);
  }

  lemma BetBesideMarket(db: Db, db': Db, r: BetRequest, gain: int, ids: seq<nat>)
    requires BetPlaced(db, db', r, gain) && Known(db.bets, db.cashouts) && r.side == Yes
    requires r.outcome !in ids && Listed(db.outcomes, ids)
    ensures Untouched(db, db', ids)
  {
    forall i | 0 <= i < |ids|
      ensures QuantityOf(db'.outcomes, ids[i]) == QuantityOf(db.outcomes, ids[i])
              && SharesOn(db'.bets, ids[i]) == SharesOn(db.bets, ids[i])
              && CashedOn(db'.bets, db'.cashouts, ids[i]) == CashedOn(db.bets, db.cashouts, ids[i])
    {
      BetTotals(db, db', r, gain, ids[i], ids);
    }
    BetTotals(db, db', r, gain, 0, ids);
  }

  /** What the engine accepted for the bet. */
  ghost predicate BetPriced(t: ExpLog, db: Db, r: BetRequest, gain: int)
    requires t.Valid() && r.market in db.markets && r.outcome in db.markets[r.market].outcomes
  {
    var m := db.markets[r.market];
    var quote := Buying(t, Quantities(db.outcomes, m.outcomes), m.alpha, IndexOf(m.outcomes, r.outcome),
                        r.side.Yes?, Amount(r.amount), m.cap);
    quote.Ok? && quote.value.gain == gain
  }

  lemma PlacedBetIsPriced(t: ExpLog, db: Db, r: BetRequest, now: int)
    requires t.Valid() && PlaceBet(t, db, r, now).1.Committed?
    ensures r.market in db.markets && r.outcome in db.markets[r.market].outcomes
    ensures BetPriced(t, db, r, BetCheck(t, db, r, now).1)
  {
  }

  lemma BetQuantities(db: Db, db': Db, r: BetRequest, gain: int, seed: int, ids: seq<nat>)
    requires BetPlaced(db, db', r, gain) && Known(db.bets, db.cashouts) && r.side == Yes
    requires Listed(db.outcomes, ids) && QuantitiesExplained(db, seed, ids)
    ensures QuantitiesExplained(db', seed, ids)
  {
    forall i | 0 <= i < |ids|
      ensures QuantityOf(db'.outcomes, ids[i]) ==
              seed + SharesOn(db'.bets, ids[i]) + CashedIn(db'.bets, db'.cashouts, ids) - CashedOn(db'.bets, db'.cashouts, ids[i])
    {
      BetTotals(db, db', r, gain, ids[i], ids);
    }
  }

  lemma BetTakings(t: ExpLog, db: Db, db': Db, r: BetRequest, gain: int)
    requires t.Valid() && BetPlaced(db, db', r, gain) && Known(db.bets, db.cashouts) && r.side == Yes
    requires Listed(db.outcomes, db.markets[r.market].outcomes)
    requires BetPriced(t, db, r, gain)
    requires var m := db.markets[r.market]; TakingsCoverCost(t, db, m.alpha, m.seed, m.outcomes)
    ensures var m := db.markets[r.market]; TakingsCoverCost(t, db', m.alpha, m.seed, m.outcomes)
  {
    var m := db.markets[r.market];
    var ids := m.outcomes;
    var q := Quantities(db.outcomes, ids);
    var quote := Buying(t, q, m.alpha, IndexOf(ids, r.outcome), true, Amount(r.amount), m.cap).value;
    AcceptedPurchase(t, q, m.alpha, IndexOf(ids, r.outcome), true, Amount(r.amount), m.cap, quote);
    QuantitiesAfterBet(db.outcomes, ids, r.outcome, Yes, gain);
    BetTotals(db, db', r, gain, 0, ids);
    AmountAdds(TakingsOf(db, ids), r.amount);
  }

  // ----- Cash-outs -----

  lemma CashoutTotals(db: Db, db': Db, r: CashoutRequest, gain: int, o: nat, ids: seq<nat>)
    requires BetCashed(db, db', r, gain)
    ensures var b := db.bets[r.bet];
            && SharesOn(db'.bets, o) == SharesOn(db.bets, o)
            && PaidIn(db'.bets, ids) == PaidIn(db.bets, ids)
            && CashedOn(db'.bets, db'.cashouts, o) == CashedOn(db.bets, db.cashouts, o) + (if b.outcome == o then b.payout else 0)
            && CashedIn(db'.bets, db'.cashouts, ids) == CashedIn(db.bets, db.cashouts, ids) + (if b.outcome in ids then b.payout else 0)
            && PaidOutIn(db'.bets, db'.cashouts, ids) == PaidOutIn(db.bets, db.cashouts, ids) + (if b.outcome in ids then gain else 0)
  {
    AppendedCashout(db.bets, db.cashouts, db'.cashouts[|db.cashouts|], o, ids);
  }

  lemma CashoutBesideMarket(db: Db, db': Db, r: CashoutRequest, gain: int, id: Uuid, ids: seq<nat>)
    requires BetCashed(db, db', r, gain)
    requires id != db.outcomes[db.bets[r.bet].outcome].market && IdsOk(db.outcomes, id, ids)
    ensures Untouched(db, db', ids)
  {
    forall i | 0 <= i < |ids|
      ensures QuantityOf(db'.outcomes, ids[i]) == QuantityOf(db.outcomes, ids[i])
              && SharesOn(db'.bets, ids[i]) == SharesOn(db.bets, ids[i])
              && CashedOn(db'.bets, db'.cashouts, ids[i]) == CashedOn(db.bets, db.cashouts, ids[i])
    {
      CashoutTotals(db, db', r, gain, ids[i], ids);
    }
    CashoutTotals(db, db', r, gain, 0, ids);
  }

  ghost predicate CashoutPriced(t: ExpLog, db: Db, b: Bet, id: Uuid, gain: int)
    requires t.Valid() && id in db.markets && b.outcome in db.markets[id].outcomes
  {
    var m := db.markets[id];
    Selling(t, Quantities(db.outcomes, m.outcomes), m.alpha, IndexOf(m.outcomes, b.outcome),
            b.side.Yes?, Amount(b.payout), m.cap) == Ok(Some(gain))
  }

  lemma CashedBetIsPriced(t: ExpLog, db: Db, r: CashoutRequest, now: int)
    requires t.Valid() && CashOut(t, db, r, now).1.Committed?
    ensures BetCashed(db, CashOut(t, db, r, now).0, r, CashoutCheck(t, db, r, now).1)
    ensures var b := db.bets[r.bet];
            CashoutPriced(t, db, b, db.outcomes[b.outcome].market, CashoutCheck(t, db, r, now).1)
  {
  }

  lemma CashoutQuantities(db: Db, db': Db, r: CashoutRequest, gain: int, id: Uuid, seed: int, ids: seq<nat>)
    requires BetCashed(db, db', r, gain) && id == db.outcomes[db.bets[r.bet].outcome].market
    requires IdsOk(db.outcomes, id, ids) && db.bets[r.bet].outcome in ids && QuantitiesExplained(db, seed, ids)
    ensures QuantitiesExplained(db', seed, ids)
  {
    forall i | 0 <= i < |ids|
      ensures QuantityOf(db'.outcomes, ids[i]) ==
              seed + SharesOn(db'.bets, ids[i]) + CashedIn(db'.bets, db'.cashouts, ids) - CashedOn(db'.bets, db'.cashouts, ids[i])
    {
      CashoutTotals(db, db', r, gain, ids[i], ids);
    }
  }

  lemma CashoutTakings(t: ExpLog, db: Db, db': Db, r: CashoutRequest, gain: int, id: Uuid)
    requires t.Valid() && BetCashed(db, db', r, gain) && id == db.outcomes[db.bets[r.bet].outcome].market
    requires db.bets[r.bet].side == Yes
    requires IdsOk(db.outcomes, id, db.markets[id].outcomes)
    requires CashoutPriced(t, db, db.bets[r.bet], id, gain)
    requires var m := db.markets[id]; TakingsCoverCost(t, db, m.alpha, m.seed, m.outcomes)
    ensures var m := db.markets[id]; TakingsCoverCost(t, db', m.alpha, m.seed, m.outcomes)
  {
    var m := db.markets[id];
    var b := db.bets[r.bet];
    var ids := m.outcomes;
    var q := Quantities(db.outcomes, ids);
    CashOutIsCovered(t, q, m.alpha, IndexOf(ids, b.outcome), true, Amount(b.payout), m.cap, gain);
    QuantitiesAfterHedge(db.outcomes, id, ids, b.outcome, b.payout);
    CashoutTotals(db, db', r, gain, 0, ids);
    AmountAdds(TakingsOf(db, ids), -gain);
    AmountAdds(CashedIn(db.bets, db.cashouts, ids), b.payout);
    AmountAdds(gain, -gain);
  }

  // ----- Where the commit differs from the quote -----

  /** A committed bet leaves the vectors of the other markets alone exactly when it is on the yes
      side: a no bet raises every outcome of every other market as well. */
  lemma OtherMarketsUntouchedExactlyWhen(t: ExpLog, db: Db, r: BetRequest, now: int, id: Uuid)
    requires t.Valid() && Consistent(db) && PlaceBet(t, db, r, now).1.Committed?
    requires id in db.markets && id != r.market
    ensures var ids := db.markets[id].outcomes;
            Quantities(PlaceBet(t, db, r, now).0.outcomes, ids) == Quantities(db.outcomes, ids) <==> r.side == Yes
    ensures r.side == No ==>
              forall i :: 0 <= i < |db.markets[id].outcomes| ==>
                Quantities(PlaceBet(t, db, r, now).0.outcomes, db.markets[id].outcomes)[i] ==
                Quantities(db.outcomes, db.markets[id].outcomes)[i] + Amount(BetCheck(t, db, r, now).1)
  {
    PlaceBetEffect(t, db, r, now);
    BetGainPositive(t, db, r, now);
    assert MarketOk(db, r.market) && MarketOk(db, id);
    OutcomeOfMarket(db, r.market, r.outcome);
    SharesElsewhereUntouchedExactlyWhen(db.outcomes, db.markets[id].outcomes, r.outcome, r.side, BetCheck(t, db, r, now).1);
    if r.side == No {
      NoBetRaisesElsewhere(db.outcomes, db.markets[id].outcomes, r.outcome, BetCheck(t, db, r, now).1);
    }
  }

  lemma NoBetRaisesElsewhere(outcomes: map<nat, Outcome>, ids: seq<nat>, o: nat, gain: int)
    requires Listed(outcomes, ids) && o !in ids
    ensures forall i :: 0 <= i < |ids| ==>
              Quantities(AddShares(outcomes, o, No, gain), ids)[i] == Quantities(outcomes, ids)[i] + Amount(gain)
  {
    forall i | 0 <= i < |ids|
      ensures Quantities(AddShares(outcomes, o, No, gain), ids)[i] == Quantities(outcomes, ids)[i] + Amount(gain)
    {
      AmountAdds(outcomes[ids[i]].quantity, gain);
    }
  }

  /** A committed cash-out moves the vector to the one it was priced on exactly when the bet was on
      the yes side: a no bet is priced as a hedge on its own outcome, and hedged on the others. */
  lemma HedgeIsAsPricedExactlyWhen(t: ExpLog, db: Db, r: CashoutRequest, now: int)
    requires t.Valid() && Consistent(db) && CashOut(t, db, r, now).1.Committed?
    ensures r.bet < |db.bets| && db.bets[r.bet].outcome in db.outcomes
    ensures var b := db.bets[r.bet];
            && db.outcomes[b.outcome].market in db.markets
            && var ids := db.markets[db.outcomes[b.outcome].market].outcomes;
               && b.outcome in ids
               && ((Quantities(CashOut(t, db, r, now).0.outcomes, ids) ==
                    Hedged(Quantities(db.outcomes, ids), IndexOf(ids, b.outcome), b.side.Yes?, Amount(b.payout)))
                   <==> b.side == Yes)
  {
    CashOutEffect(t, db, r, now);
    var b := db.bets[r.bet];
    var id := db.outcomes[b.outcome].market;
    assert MarketOk(db, id) && BetOk(db, b);
    HedgeIsOppositeExactlyWhen(db.outcomes, id, db.markets[id].outcomes, b.outcome, b.side, b.payout);
  }

  // ----- Caps -----

  /** After every committed bet, on either side, all prices of its market are below the cap. */
  lemma BetLeavesPricesBelowCap(t: ExpLog, db: Db, r: BetRequest, now: int)
    requires t.Valid() && Consistent(db) && PlaceBet(t, db, r, now).1.Committed?
    ensures r.market in db.markets
    ensures var (m, q) := (db.markets[r.market], Quantities(PlaceBet(t, db, r, now).0.outcomes, db.markets[r.market].outcomes));
            ValidVector(q, m.alpha) && BelowCap(PricesOf(t, q, m.alpha), m.cap)
  {
    var gain := BetCheck(t, db, r, now).1;
    PlaceBetEffect(t, db, r, now);
    PlacedBetIsPriced(t, db, r, now);
    assert MarketOk(db, r.market);
    PricedBetBelowCap(t, db, PlaceBet(t, db, r, now).0, r, gain);
  }

  lemma PricedBetBelowCap(t: ExpLog, db: Db, db': Db, r: BetRequest, gain: int)
    requires t.Valid() && BetPlaced(db, db', r, gain) && BetPriced(t, db, r, gain)
    requires IdsOk(db.outcomes, r.market, db.markets[r.market].outcomes)
    ensures var (m, q) := (db.markets[r.market], Quantities(db'.outcomes, db.markets[r.market].outcomes));
            ValidVector(q, m.alpha) && BelowCap(PricesOf(t, q, m.alpha), m.cap)
  {
    var m := db.markets[r.market];
    var q := Quantities(db.outcomes, m.outcomes);
    var k := IndexOf(m.outcomes, r.outcome);
    var quote := Buying(t, q, m.alpha, k, r.side.Yes?, Amount(r.amount), m.cap).value;
    AcceptedPurchase(t, q, m.alpha, k, r.side.Yes?, Amount(r.amount), m.cap, quote);
    QuantitiesAfterBet(db.outcomes, m.outcomes, r.outcome, r.side, gain);
  }

  /** After every committed cash-out of a yes bet, all prices of its market are below the cap. */
  lemma CashoutLeavesPricesBelowCap(t: ExpLog, db: Db, r: CashoutRequest, now: int)
    requires t.Valid() && Consistent(db) && CashOut(t, db, r, now).1.Committed?
    requires r.bet < |db.bets| && db.bets[r.bet].side == Yes
    ensures db.bets[r.bet].outcome in db.outcomes && db.outcomes[db.bets[r.bet].outcome].market in db.markets
    ensures var m := db.markets[db.outcomes[db.bets[r.bet].outcome].market];
            var q := Quantities(CashOut(t, db, r, now).0.outcomes, m.outcomes);
            ValidVector(q, m.alpha) && BelowCap(PricesOf(t, q, m.alpha), m.cap)
  {
    CashedBetIsPriced(t, db, r, now);
    var id := db.outcomes[db.bets[r.bet].outcome].market;
    assert MarketOk(db, id);
    PricedCashoutBelowCap(t, db, CashOut(t, db, r, now).0, r, CashoutCheck(t, db, r, now).1, id);
  }

  lemma PricedCashoutBelowCap(t: ExpLog, db: Db, db': Db, r: CashoutRequest, gain: int, id: Uuid)
    requires t.Valid() && BetCashed(db, db', r, gain) && id == db.outcomes[db.bets[r.bet].outcome].market
    requires db.bets[r.bet].side == Yes && IdsOk(db.outcomes, id, db.markets[id].outcomes)
    requires CashoutPriced(t, db, db.bets[r.bet], id, gain)
    ensures var (m, q) := (db.markets[id], Quantities(db'.outcomes, db.markets[id].outcomes));
            ValidVector(q, m.alpha) && BelowCap(PricesOf(t, q, m.alpha), m.cap)
  {
    QuantitiesAfterHedge(db.outcomes, id, db.markets[id].outcomes, db.bets[r.bet].outcome, db.bets[r.bet].payout);
  }

  // ----- Steps -----

  ghost predicate AllYes(bets: seq<Bet>) {
    forall i :: 0 <= i < |bets| ==> bets[i].side == Yes
  }

  /** Rows refer to existing rows, and every outcome belongs to one market. */
  ghost predicate RowsKnown(db: Db) {
    && Known(db.bets, db.cashouts)
    && (forall id: Uuid :: id in db.markets ==> IdsOk(db.outcomes, id, db.markets[id].outcomes))
    && (forall id: Uuid, o :: id in db.markets && o in db.markets[id].outcomes ==>
          o in db.outcomes && db.outcomes[o].market == id)
    && (forall i :: 0 <= i < |db.bets| ==> db.bets[i].outcome in db.outcomes)
  }

  lemma RowsAreKnown(db: Db)
    requires Consistent(db)
    ensures RowsKnown(db)
  {
    forall j | 0 <= j < |db.cashouts| ensures db.cashouts[j].bet < |db.bets| {
      assert CashoutOk(db, db.cashouts[j]);
    }
    forall id: Uuid | id in db.markets ensures IdsOk(db.outcomes, id, db.markets[id].outcomes) {
      assert MarketOk(db, id);
    }
    forall id: Uuid, o | id in db.markets && o in db.markets[id].outcomes
      ensures o in db.outcomes && db.outcomes[o].market == id
    {
      OutcomeOfMarket(db, id, o);
    }
    forall i | 0 <= i < |db.bets| ensures db.bets[i].outcome in db.outcomes {
      assert BetOk(db, db.bets[i]);
    }
  }

  lemma BetKeepsCovered(t: ExpLog, db: Db, r: BetRequest, now: int)
    requires t.Valid() && RowsKnown(db) && AllCovered(t, db) && r.side == Yes
    ensures AllCovered(t, PlaceBet(t, db, r, now).0)
  {
    var (db', reply) := PlaceBet(t, db, r, now);
    if reply.Committed? {
      PlaceBetEffect(t, db, r, now);
      PlacedBetIsPriced(t, db, r, now);
      AnyBetKeepsCovered(t, db, db', r, BetCheck(t, db, r, now).1);
    }
  }

  lemma AnyBetKeepsCovered(t: ExpLog, db: Db, db': Db, r: BetRequest, gain: int)
    requires t.Valid() && BetPlaced(db, db', r, gain) && BetPriced(t, db, r, gain) && r.side == Yes
    requires AllCovered(t, db) && RowsKnown(db)
    ensures AllCovered(t, db')
  {
    forall id: Uuid | id in db'.markets ensures Covered(t, db', id) {
      assert Covered(t, db, id) && IdsOk(db.outcomes, id, db.markets[id].outcomes);
      if id == r.market {
        BetKeepsItsMarketCovered(t, db, db', r, gain);
      } else {
        assert r.outcome !in db.markets[id].outcomes;
        BetKeepsOthersCovered(t, db, db', r, gain, id);
      }
    }
  }

  lemma BetKeepsItsMarketCovered(t: ExpLog, db: Db, db': Db, r: BetRequest, gain: int)
    requires t.Valid() && BetPlaced(db, db', r, gain) && BetPriced(t, db, r, gain) && r.side == Yes
    requires Covered(t, db, r.market) && Known(db.bets, db.cashouts)
    requires IdsOk(db.outcomes, r.market, db.markets[r.market].outcomes)
    ensures Covered(t, db', r.market)
  {
    var m := db.markets[r.market];
    BetQuantities(db, db', r, gain, m.seed, m.outcomes);
    BetTakings(t, db, db', r, gain);
  }

  lemma BetKeepsOthersCovered(t: ExpLog, db: Db, db': Db, r: BetRequest, gain: int, id: Uuid)
    requires t.Valid() && BetPlaced(db, db', r, gain) && r.side == Yes
    requires id in db.markets && id != r.market && Covered(t, db, id) && Known(db.bets, db.cashouts)
    requires IdsOk(db.outcomes, id, db.markets[id].outcomes) && r.outcome !in db.markets[id].outcomes
    ensures Covered(t, db', id)
  {
    var m := db.markets[id];
    BetBesideMarket(db, db', r, gain, m.outcomes);
    UntouchedStaysCovered(t, db, db', m.alpha, m.seed, m.outcomes);
  }

  lemma CashOutKeepsCovered(t: ExpLog, db: Db, r: CashoutRequest, now: int)
    requires t.Valid() && RowsKnown(db) && AllCovered(t, db) && AllYes(db.bets)
    ensures AllCovered(t, CashOut(t, db, r, now).0)
  {
    var (db', reply) := CashOut(t, db, r, now);
    if reply.Committed? {
      CashedBetIsPriced(t, db, r, now);
      AnyCashoutKeepsCovered(t, db, db', r, CashoutCheck(t, db, r, now).1);
    }
  }

  lemma AnyCashoutKeepsCovered(t: ExpLog, db: Db, db': Db, r: CashoutRequest, gain: int)
    requires t.Valid() && BetCashed(db, db', r, gain) && db.bets[r.bet].side == Yes
    requires CashoutPriced(t, db, db.bets[r.bet], db.outcomes[db.bets[r.bet].outcome].market, gain)
    requires AllCovered(t, db)
    requires forall id: Uuid :: id in db.markets ==> IdsOk(db.outcomes, id, db.markets[id].outcomes)
    ensures AllCovered(t, db')
  {
    var home := db.outcomes[db.bets[r.bet].outcome].market;
    forall id: Uuid | id in db'.markets ensures Covered(t, db', id) {
      assert Covered(t, db, id) && IdsOk(db.outcomes, id, db.markets[id].outcomes);
      var m := db.markets[id];
      if id == home {
        CashoutQuantities(db, db', r, gain, id, m.seed, m.outcomes);
        CashoutTakings(t, db, db', r, gain, id);
      } else {
        CashoutBesideMarket(db, db', r, gain, id, m.outcomes);
        UntouchedStaysCovered(t, db, db', m.alpha, m.seed, m.outcomes);
      }
    }
  }

  lemma NoRowsOnNewMarket(db: Db, ids: seq<nat>)
    requires Known(db.bets, db.cashouts)
    requires forall i :: 0 <= i < |db.bets| ==> db.bets[i].outcome !in ids
    ensures TakingsOf(db, ids) == 0 && CashedIn(db.bets, db.cashouts, ids) == 0
    ensures forall i :: 0 <= i < |ids| ==> SharesOn(db.bets, ids[i]) == 0 && CashedOn(db.bets, db.cashouts, ids[i]) == 0
  {
    forall i | 0 <= i < |ids|
      ensures SharesOn(db.bets, ids[i]) == 0 && CashedOn(db.bets, db.cashouts, ids[i]) == 0
    {
      NothingBetOn(db.bets, Win(ids[i]));
      NothingCashedOn(db.bets, db.cashouts, ids[i], ids);
    }
    NothingBetOn(db.bets, Refund(ids));
    NothingCashed(db.bets, db.cashouts, ids);
  }

  lemma {:induction false} NothingCashed(bets: seq<Bet>, cashouts: seq<Cashout>, ids: seq<nat>)
    requires Known(bets, cashouts)
    requires forall i :: 0 <= i < |bets| ==> bets[i].outcome !in ids
    ensures CashedIn(bets, cashouts, ids) == 0 && PaidOutIn(bets, cashouts, ids) == 0
  {
    if cashouts != [] {
      NothingCashed(bets, cashouts[..|cashouts| - 1], ids);
    }
  }

  lemma SeededCost(t: ExpLog, outcomes: map<nat, Outcome>, ids: seq<nat>, alpha: real, seed: int)
    requires t.Valid() && |ids| > 0 && alpha > 0.0 && seed > 0
    requires forall i :: 0 <= i < |ids| ==> QuantityOf(outcomes, ids[i]) == seed
    ensures ValidVector(Quantities(outcomes, ids), alpha)
    ensures CostOf(t, Quantities(outcomes, ids), alpha) == Amount(seed) + SeedBound(t, alpha, seed, |ids|)
  {
    var q := Quantities(outcomes, ids);
    forall i | 0 <= i < |q| ensures q[i] == Amount(seed) {
    }
    SumPositive(q, |q|);
    MarketMaker.SeedCost(t, q, alpha, Amount(seed));
  }

  lemma NewMarketIsCovered(t: ExpLog, db: Db, db': Db, id: Uuid)
    requires t.Valid() && WithMarket(db, db', id) && Known(db.bets, db.cashouts)
    requires forall i :: 0 <= i < |db.bets| ==> db.bets[i].outcome in db.outcomes
    ensures Covered(t, db', id)
  {
    var m := db'.markets[id];
    NoRowsOnNewMarket(db', m.outcomes);
    forall i | 0 <= i < |m.outcomes| ensures QuantityOf(db'.outcomes, m.outcomes[i]) == m.seed {
      assert m.outcomes[i] in Seeded(m.outcomes, id, m.seed);
    }
    SeededCost(t, db'.outcomes, m.outcomes, m.alpha, m.seed);
  }

  lemma CreateEffect(db: Db, id: Uuid, house: Uuid, seed: int, alpha: real, cap: real, closeTime: Option<int>, ids: seq<nat>)
    requires CreateMarket(db, id, house, seed, alpha, cap, closeTime, ids).1.Committed?
    ensures WithMarket(db, CreateMarket(db, id, house, seed, alpha, cap, closeTime, ids).0, id)
  {
    SeedIsPositive(ids, id, seed, alpha);
  }

  lemma MarketBesideNewIsUntouched(db: Db, db': Db, id: Uuid, other: Uuid, ids: seq<nat>)
    requires WithMarket(db, db', id) && IdsOk(db.outcomes, other, ids)
    ensures Untouched(db, db', ids)
  {
  }

  lemma CreateKeepsCovered(t: ExpLog, db: Db, db': Db, id: Uuid)
    requires t.Valid() && WithMarket(db, db', id) && AllCovered(t, db) && Known(db.bets, db.cashouts)
    requires forall i :: 0 <= i < |db.bets| ==> db.bets[i].outcome in db.outcomes
    requires forall id: Uuid :: id in db.markets ==> IdsOk(db.outcomes, id, db.markets[id].outcomes)
    ensures AllCovered(t, db')
  {
    NewMarketIsCovered(t, db, db', id);
    forall other: Uuid | other in db'.markets ensures Covered(t, db', other) {
      if other != id {
        var m := db.markets[other];
        assert Covered(t, db, other);
        MarketBesideNewIsUntouched(db, db', id, other, m.outcomes);
        UntouchedStaysCovered(t, db, db', m.alpha, m.seed, m.outcomes);
      }
    }
  }

  /** Steps that touch neither bets, cash-outs nor quantities. */
  lemma QuietStepKeepsCovered(t: ExpLog, db: Db, db': Db)
    requires AllCovered(t, db) && SameMarkets(db.markets, db'.markets)
    requires db'.outcomes == db.outcomes && db'.bets == db.bets && db'.cashouts == db.cashouts
    ensures AllCovered(t, db')
  {
    forall id: Uuid | id in db'.markets ensures Covered(t, db', id) {
      var m := db.markets[id];
      assert Covered(t, db, id);
      UntouchedStaysCovered(t, db, db', m.alpha, m.seed, m.outcomes);
    }
  }

  /** The event places no bet on a no side. */
  predicate YesEvent(e: Event) {
    e.EPlaceBet? ==> e.bet.side == Yes
  }

  lemma StepKeepsYes(t: ExpLog, db: Db, e: Event)
    requires t.Valid() && AllYes(db.bets) && YesEvent(e)
    ensures AllYes(Step(t, db, e).0.bets)
  {
  }

  lemma CreateMarketKeepsCovered(t: ExpLog, db: Db, id: Uuid, house: Uuid, seed: int, alpha: real, cap: real,
                                 closeTime: Option<int>, ids: seq<nat>)
    requires t.Valid() && Consistent(db) && AllCovered(t, db)
    ensures AllCovered(t, CreateMarket(db, id, house, seed, alpha, cap, closeTime, ids).0)
  {
    var (db', reply) := CreateMarket(db, id, house, seed, alpha, cap, closeTime, ids);
    if reply.Committed? {
      RowsAreKnown(db);
      CreateEffect(db, id, house, seed, alpha, cap, closeTime, ids);
      CreateKeepsCovered(t, db, db', id);
    }
  }

  lemma QuietEvents(t: ExpLog, db: Db, e: Event)
    requires t.Valid() && !e.EPlaceBet? && !e.ECashOut? && !e.ECreateMarket?
    ensures Quiet(db, Step(t, db, e).0)
  {
    match e
    case ESettle(market, winner, order) => SettlingIsQuiet(db, market, winner, order);
    case ECancel(market, order) => CancellingIsQuiet(db, market, order);
    case _ =>
  }

  ghost predicate Quiet(db: Db, db': Db) {
    && SameMarkets(db.markets, db'.markets)
    && db'.outcomes == db.outcomes && db'.bets == db.bets && db'.cashouts == db.cashouts
  }

  lemma SettlingIsQuiet(db: Db, market: Uuid, winner: nat, order: seq<Uuid>)
    ensures Quiet(db, Settle(db, market, winner, order).0)
  {
    if Settle(db, market, winner, order).1.Committed? {
      SettleEffect(db, market, winner, order);
    }
  }

  lemma CancellingIsQuiet(db: Db, market: Uuid, order: seq<Uuid>)
    ensures Quiet(db, Cancel(db, market, order).0)
  {
    if Cancel(db, market, order).1.Committed? {
      CancelEffect(db, market, order);
    }
  }

  lemma StepKeepsCovered(t: ExpLog, db: Db, e: Event)
    requires t.Valid() && Consistent(db) && AllCovered(t, db) && AllYes(db.bets) && YesEvent(e)
    ensures AllCovered(t, Step(t, db, e).0)
  {
    RowsAreKnown(db);
    match e
    case EPlaceBet(bet, now) => BetKeepsCovered(t, db, bet, now);
    case ECashOut(cashout, now) => CashOutKeepsCovered(t, db, cashout, now);
    case ECreateMarket(id, house, seed, alpha, cap, closeTime, ids) =>
      CreateMarketKeepsCovered(t, db, id, house, seed, alpha, cap, closeTime, ids);
    case _ =>
      QuietEvents(t, db, e);
      QuietStepKeepsCovered(t, db, Step(t, db, e).0);
  }

  lemma {:induction false} RunKeepsCovered(t: ExpLog, db: Db, events: seq<Event>)
    requires t.Valid() && Consistent(db) && AllCovered(t, db) && AllYes(db.bets)
    requires PossibleRun(t, db, events) && forall i :: 0 <= i < |events| ==> YesEvent(events[i])
    ensures AllCovered(t, Run(t, db, events)) && AllYes(Run(t, db, events).bets)
  {
    if events != [] {
      var before := Run(t, db, events[..|events| - 1]);
      RunKeepsCovered(t, db, events[..|events| - 1]);
      RunKeeps(t, db, events[..|events| - 1]);
      StepKeepsCovered(t, before, events[|events| - 1]);
      StepKeepsYes(t, before, events[|events| - 1]);
    }
  }
}
