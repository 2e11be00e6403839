/**
  The price cap over whole runs: on a market that somebody has bet on, every price stays below the
  cap, and no bet raises the cost by as much as the cap per share.
*/
module CapDiscipline {
  import opened Transcendental
  import opened Pricing
  import MarketMaker
  import Options
  import opened Ledger
  import opened Amounts
  import opened Quotes
  import opened Exchange
  import opened ExchangeInvariant
  import opened Solvency

  ghost predicate HasBet(db: Db, id: Uuid)
    requires id in db.markets
  {
    exists i :: 0 <= i < |db.bets| && db.bets[i].outcome in db.markets[id].outcomes
  }

  ghost predicate PricesBelowCap(t: ExpLog, outcomes: map<nat, Outcome>, m: Market)
    requires t.Valid()
  {
    var q := Quantities(outcomes, m.outcomes);
    ValidVector(q, m.alpha) && BelowCap(PricesOf(t, q, m.alpha), m.cap)
  }

  ghost predicate Capped(t: ExpLog, db: Db)
    requires t.Valid()
  {
    forall id: Uuid :: id in db.markets && HasBet(db, id) ==> PricesBelowCap(t, db.outcomes, db.markets[id])
  }

  /** The other markets keep their bets and their quantities. */
  ghost predicate KeepsOthers(db: Db, db': Db, home: Uuid) {
    && SameMarkets(db.markets, db'.markets)
    && forall id: Uuid :: id in db.markets && id != home ==>
         (HasBet(db', id) ==> HasBet(db, id)) &&
         Quantities(db'.outcomes, db.markets[id].outcomes) == Quantities(db.outcomes, db.markets[id].outcomes)
  }

  lemma OthersStayCapped(t: ExpLog, db: Db, db': Db, home: Uuid)
    requires t.Valid() && Capped(t, db) && KeepsOthers(db, db', home)
    requires home in db'.markets && PricesBelowCap(t, db'.outcomes, db'.markets[home])
    ensures Capped(t, db')
  {
    forall id: Uuid | id in db'.markets && HasBet(db', id) ensures PricesBelowCap(t, db'.outcomes, db'.markets[id]) {
      if id != home {
        assert HasBet(db, id) && PricesBelowCap(t, db.outcomes, db.markets[id]);
      }
    }
  }

  lemma BetKeepsOthers(db: Db, db': Db, r: BetRequest, gain: int)
    requires RowsKnown(db) && BetPlaced(db, db', r, gain) && r.side == Yes
    ensures KeepsOthers(db, db', r.market)
  {
    forall id: Uuid | id in db.markets && id != r.market
      ensures HasBet(db', id) ==> HasBet(db, id)
      ensures Quantities(db'.outcomes, db.markets[id].outcomes) == Quantities(db.outcomes, db.markets[id].outcomes)
    {
      assert IdsOk(db.outcomes, id, db.markets[id].outcomes);
      assert r.outcome !in db.markets[id].outcomes;
      QuantitiesBesideBet(db.outcomes, db.markets[id].outcomes, r.outcome, gain);
      if HasBet(db', id) {
        var i :| 0 <= i < |db'.bets| && db'.bets[i].outcome in db'.markets[id].outcomes;
        assert i < |db.bets| && db.bets[i] == db'.bets[i];
      }
    }
  }

  lemma BetKeepsCapped(t: ExpLog, db: Db, r: BetRequest, now: int)
    requires t.Valid() && Consistent(db) && RowsKnown(db) && Capped(t, db) && r.side == Yes
    ensures Capped(t, PlaceBet(t, db, r, now).0)
  {
    if PlaceBet(t, db, r, now).1.Committed? {
      PlaceBetEffect(t, db, r, now);
      BetLeavesPricesBelowCap(t, db, r, now);
      BetKeepsOthers(db, PlaceBet(t, db, r, now).0, r, BetCheck(t, db, r, now).1);
      OthersStayCapped(t, db, PlaceBet(t, db, r, now).0, r.market);
    }
  }

  lemma CashoutKeepsOthers(db: Db, db': Db, r: CashoutRequest, gain: int)
    requires RowsKnown(db) && BetCashed(db, db', r, gain)
    ensures KeepsOthers(db, db', db.outcomes[db.bets[r.bet].outcome].market)
  {
    var b := db.bets[r.bet];
    var home := db.outcomes[b.outcome].market;
    forall id: Uuid | id in db.markets && id != home
      ensures Quantities(db'.outcomes, db.markets[id].outcomes) == Quantities(db.outcomes, db.markets[id].outcomes)
    {
      QuantitiesBesideHedge(db.outcomes, id, db.markets[id].outcomes, home, b.outcome, b.payout);
    }
  }

  lemma CashoutKeepsCapped(t: ExpLog, db: Db, r: CashoutRequest, now: int)
    requires t.Valid() && Consistent(db) && RowsKnown(db) && Capped(t, db) && AllYes(db.bets)
    ensures Capped(t, CashOut(t, db, r, now).0)
  {
    if CashOut(t, db, r, now).1.Committed? {
      CashOutEffect(t, db, r, now);
      CashoutLeavesPricesBelowCap(t, db, r, now);
      CashoutKeepsOthers(db, CashOut(t, db, r, now).0, r, CashoutCheck(t, db, r, now).1);
      OthersStayCapped(t, db, CashOut(t, db, r, now).0, db.outcomes[db.bets[r.bet].outcome].market);
    }
  }

  lemma CreateKeepsCapped(t: ExpLog, db: Db, db': Db, id: Uuid)
    requires t.Valid() && RowsKnown(db) && WithMarket(db, db', id) && Capped(t, db)
    ensures Capped(t, db')
  {
    forall other: Uuid | other in db'.markets && HasBet(db', other)
      ensures PricesBelowCap(t, db'.outcomes, db'.markets[other])
    {
      var i :| 0 <= i < |db'.bets| && db'.bets[i].outcome in db'.markets[other].outcomes;
      assert db.bets[i].outcome in db.outcomes;
      assert other != id && HasBet(db, other);
      assert IdsOk(db.outcomes, other, db.markets[other].outcomes);
      MarketBesideNewIsUntouched(db, db', id, other, db.markets[other].outcomes);
      assert Quantities(db'.outcomes, db.markets[other].outcomes) == Quantities(db.outcomes, db.markets[other].outcomes);
    }
  }

  lemma CreateMarketKeepsCapped(t: ExpLog, db: Db, id: Uuid, house: Uuid, seed: int, alpha: real, cap: real,
                                closeTime: Options.Option<int>, ids: seq<nat>)
    requires t.Valid() && RowsKnown(db) && Capped(t, db)
    ensures Capped(t, CreateMarket(db, id, house, seed, alpha, cap, closeTime, ids).0)
  {
    if CreateMarket(db, id, house, seed, alpha, cap, closeTime, ids).1.Committed? {
      CreateEffect(db, id, house, seed, alpha, cap, closeTime, ids);
      CreateKeepsCapped(t, db, CreateMarket(db, id, house, seed, alpha, cap, closeTime, ids).0, id);
    }
  }

  lemma QuietKeepsCapped(t: ExpLog, db: Db, db': Db)
    requires t.Valid() && Capped(t, db) && Quiet(db, db')
    ensures Capped(t, db')
  {
    forall id: Uuid | id in db'.markets && HasBet(db', id) ensures PricesBelowCap(t, db'.outcomes, db'.markets[id]) {
      assert HasBet(db, id);
    }
  }

  lemma StepKeepsCapped(t: ExpLog, db: Db, e: Event)
    requires t.Valid() && Consistent(db) && Capped(t, db) && AllYes(db.bets) && YesEvent(e)
    ensures Capped(t, Step(t, db, e).0)
  {
    RowsAreKnown(db);
    match e
    case EPlaceBet(r, now) => BetKeepsCapped(t, db, r, now);
    case ECashOut(r, now) => CashoutKeepsCapped(t, db, r, now);
    case ECreateMarket(id, house, seed, alpha, cap, closeTime, ids) =>
      CreateMarketKeepsCapped(t, db, id, house, seed, alpha, cap, closeTime, ids);
    case _ =>
      QuietEvents(t, db, e);
      QuietKeepsCapped(t, db, Step(t, db, e).0);
  }

  lemma {:induction false} RunKeepsCapped(t: ExpLog, db: Db, events: seq<Event>)
    requires t.Valid() && Consistent(db) && Capped(t, db) && AllCovered(t, db) && AllYes(db.bets)
    requires PossibleRun(t, db, events) && forall i :: 0 <= i < |events| ==> YesEvent(events[i])
    ensures Capped(t, Run(t, db, events))
  {
    if events != [] {
      var front := events[..|events| - 1];
      RunKeepsCapped(t, db, front);
      RunKeepsCovered(t, db, front);
      RunKeeps(t, db, front);
      StepKeepsCapped(t, Run(t, db, front), events[|events| - 1]);
    }
  }

  /** In every reachable state of every run without no bets, a market with at least one bet has all
      its prices below its cap. */
  lemma ReachableIsCapped(t: ExpLog, events: seq<Event>)
    requires t.Valid() && PossibleRun(t, EMPTY_DB, events)
    requires forall i :: 0 <= i < |events| ==> YesEvent(events[i])
    ensures Capped(t, Run(t, EMPTY_DB, events))
  {
    EmptyIsConsistent();
    RunKeepsCapped(t, EMPTY_DB, events);
  }

  /** Going from q to v raises the cost by less than the cap for each share. */
  ghost predicate RisesBelowCap(t: ExpLog, alpha: real, cap: real, q: seq<real>, v: seq<real>, gain: int) {
    && ValidVector(q, alpha) && ValidVector(v, alpha)
    && CostOf(t, v, alpha) - CostOf(t, q, alpha) < cap * Amount(gain)
  }

  lemma SharesRiseBelowCap(t: ExpLog, alpha: real, cap: real, q: seq<real>, v: seq<real>, k: nat, gain: int)
    requires t.Valid() && ValidVector(q, alpha) && ValidVector(v, alpha) && BelowCap(PricesOf(t, v, alpha), cap)
    requires k < |q| && gain > 0 && v == MarketMaker.After(q, k, true, Amount(gain))
    ensures RisesBelowCap(t, alpha, cap, q, v, gain)
  {
    RiseBelowCap(t, q, alpha, k, Amount(gain), cap);
  }

  /** What a priced yes bet does to its market's vector. */
  lemma PricedBetMoves(t: ExpLog, db: Db, db': Db, r: BetRequest, gain: int)
    returns (q: seq<real>, v: seq<real>, k: nat)
    requires t.Valid() && BetPlaced(db, db', r, gain) && BetPriced(t, db, r, gain) && r.side == Yes
    requires IdsOk(db.outcomes, r.market, db.markets[r.market].outcomes)
    ensures var m := db.markets[r.market];
            && q == Quantities(db.outcomes, m.outcomes) && v == Quantities(db'.outcomes, m.outcomes)
            && ValidVector(q, m.alpha) && ValidVector(v, m.alpha) && BelowCap(PricesOf(t, v, m.alpha), m.cap)
            && k < |q| && gain > 0 && v == MarketMaker.After(q, k, true, Amount(gain))
  {
    var m := db.markets[r.market];
    q, v, k := Quantities(db.outcomes, m.outcomes), Quantities(db'.outcomes, m.outcomes), IndexOf(m.outcomes, r.outcome);
    PricedBetBelowCap(t, db, db', r, gain);
    QuantitiesAfterBet(db.outcomes, m.outcomes, r.outcome, Yes, gain);
    var quote := Buying(t, q, m.alpha, k, true, Amount(r.amount), m.cap).value;
    AcceptedPurchase(t, q, m.alpha, k, true, Amount(r.amount), m.cap, quote);
  }

  /** A committed yes bet raises the cost of its market by less than the cap for each share. */
  lemma CommittedBetRisesBelowCap(t: ExpLog, db: Db, r: BetRequest, now: int)
    requires t.Valid() && Consistent(db) && PlaceBet(t, db, r, now).1.Committed? && r.side == Yes
    ensures r.market in db.markets
    ensures var (m, db') := (db.markets[r.market], PlaceBet(t, db, r, now).0);
            RisesBelowCap(t, m.alpha, m.cap, Quantities(db.outcomes, m.outcomes), Quantities(db'.outcomes, m.outcomes),
                          BetCheck(t, db, r, now).1)
  {
    var gain := BetCheck(t, db, r, now).1;
    PlaceBetEffect(t, db, r, now);
    PlacedBetIsPriced(t, db, r, now);
    assert MarketOk(db, r.market);
    var m := db.markets[r.market];
    var q, v, k := PricedBetMoves(t, db, PlaceBet(t, db, r, now).0, r, gain);
    SharesRiseBelowCap(t, m.alpha, m.cap, q, v, k, gain);
  }
}
