/**
  Cancelling: when it commits, what it refunds, and how far that is from undoing the market.  The
  refunds do not look at cash-outs, so a bet that was cashed out is refunded as well.
*/
module Cancellation {
  import opened Transcendental
  import opened Ledger
  import opened Exchange
  import opened ExchangeInvariant
  import opened Solvency
  import opened Settlement

  /** A cancellation commits if and only if the house holds all that was paid for bets on the
      market; then every bettor is refunded exactly, and otherwise nothing changes. */
  lemma CancelExactly(db: Db, market: Uuid, order: seq<Uuid>)
    requires Consistent(db) && market in db.markets && db.markets[market].status.Live()
    requires IsGrouping(db.bets, Refund(db.markets[market].outcomes), order)
    ensures var m := db.markets[market];
            var (db', reply) := Cancel(db, market, order);
            && (reply.Committed? <==> BalanceOf(db.books, m.house) >= PaidIn(db.bets, m.outcomes))
            && (reply.Committed? ==> PaidExactly(db.books, db'.books, m.house, db.bets, Refund(m.outcomes)))
            && (reply.Failed? ==> db' == db)
  {
    assert MarketOk(db, market);
    PayoutExactly(db, market, Refund(db.markets[market].outcomes), order);
  }

  /** Equivalently: the house holds, beside the takings, all that it paid for cash-outs, because
      cancelling pays for those bets a second time. */
  lemma CancelCommitsExactlyWhenReserved(db: Db, market: Uuid, order: seq<Uuid>)
    requires Consistent(db) && market in db.markets && db.markets[market].status.Live()
    requires IsGrouping(db.bets, Refund(db.markets[market].outcomes), order)
    ensures Cancel(db, market, order).1.Committed? <==>
            HouseReserve(db, market) >= PaidOutIn(db.bets, db.cashouts, db.markets[market].outcomes)
  {
    CancelExactly(db, market, order);
  }

  // ----- What trading on one market did to a balance -----

  /** Money paid to an account for cash-outs on any of the outcomes. */
  function CashedTo(bets: seq<Bet>, cashouts: seq<Cashout>, a: Uuid, ids: seq<nat>): int {
    if cashouts == [] then 0
    else
      var (c, b) := (cashouts[|cashouts| - 1], BetOf(bets, cashouts[|cashouts| - 1]));
      CashedTo(bets, cashouts[..|cashouts| - 1], a, ids) + (if b.account == a && b.outcome in ids then c.payout else 0)
  }

  lemma {:induction false} CashedToBesideNewBet(bets: seq<Bet>, more: seq<Bet>, cashouts: seq<Cashout>, a: Uuid, ids: seq<nat>)
    requires Known(bets, cashouts)
    ensures CashedTo(bets + more, cashouts, a, ids) == CashedTo(bets, cashouts, a, ids)
  {
    if cashouts != [] {
      CashedToBesideNewBet(bets, more, cashouts[..|cashouts| - 1], a, ids);
    }
  }

  lemma CashedToOneMore(bets: seq<Bet>, cashouts: seq<Cashout>, c: Cashout, a: Uuid, ids: seq<nat>)
    ensures var b := BetOf(bets, c);
            CashedTo(bets, cashouts + [c], a, ids) ==
            CashedTo(bets, cashouts, a, ids) + (if b.account == a && b.outcome in ids then c.payout else 0)
  {
    assert (cashouts + [c])[..|cashouts|] == cashouts;
  }

  lemma {:induction false} NothingCashedTo(bets: seq<Bet>, cashouts: seq<Cashout>, a: Uuid, ids: seq<nat>)
    requires Known(bets, cashouts)
    requires forall i :: 0 <= i < |bets| ==> bets[i].outcome !in ids
    ensures CashedTo(bets, cashouts, a, ids) == 0
  {
    if cashouts != [] {
      NothingCashedTo(bets, cashouts[..|cashouts| - 1], a, ids);
    }
  }

  /** What an account gained by trading on the outcomes; the house gained the takings. */
  function GainedBy(bets: seq<Bet>, cashouts: seq<Cashout>, house: Uuid, ids: seq<nat>, a: Uuid): int {
    if a == house then PaidIn(bets, ids) - PaidOutIn(bets, cashouts, ids)
    else CashedTo(bets, cashouts, a, ids) - OwedTo(bets, a, Refund(ids))
  }

  /** The balance of an account as if nobody had traded on the market. */
  function WithoutTrades(db: Db, id: Uuid, a: Uuid): int
    requires id in db.markets
  {
    var m := db.markets[id];
    BalanceOf(db.books, a) - GainedBy(db.bets, db.cashouts, m.house, m.outcomes, a)
  }

  /** Events that move no money except by trading on one market: bets on it, cash-outs of bets
      from number n on, and pauses and resumes of any market. */
  predicate TradingOn(e: Event, id: Uuid, n: nat) {
    || (e.EPlaceBet? && e.bet.market == id)
    || (e.ECashOut? && e.cashout.bet >= n)
    || e.ESetStatus?
  }

  /** From bet n on, all bets are on the market. */
  ghost predicate BetsFrom(db: Db, id: Uuid, n: nat)
    requires id in db.markets
  {
    n <= |db.bets| && forall i :: n <= i < |db.bets| ==> db.bets[i].outcome in db.markets[id].outcomes
  }

  /** Nothing the comparison needs has moved, except by trading on the market. */
  ghost predicate OnlyTrades(db: Db, db': Db, id: Uuid, a: Uuid, n: nat)
    requires id in db.markets
  {
    && id in db'.markets
    && db'.markets[id].house == db.markets[id].house && db'.markets[id].outcomes == db.markets[id].outcomes
    && BetsFrom(db', id, n)
    && WithoutTrades(db', id, a) == WithoutTrades(db, id, a)
  }

  lemma BetKeepsWithout(db: Db, db': Db, r: BetRequest, gain: int, a: Uuid)
    requires MarketRows(db) && Known(db.bets, db.cashouts) && BetPlaced(db, db', r, gain)
    ensures WithoutTrades(db', r.market, a) == WithoutTrades(db, r.market, a)
  {
    var m := db.markets[r.market];
    var b := db'.bets[|db.bets|];
    assert MarketOk(db, r.market);
    PostedBalances(db.books, r.account, m.house, r.amount, r.key, a);
    AppendedBet(db.bets, b, Refund(m.outcomes));
    assert (db.bets + [b])[..|db.bets|] == db.bets;
    CashedBesideNewBet(db.bets, [b], db.cashouts, 0, m.outcomes);
    CashedToBesideNewBet(db.bets, [b], db.cashouts, a, m.outcomes);
  }

  lemma BetStepKeepsWithout(t: ExpLog, db: Db, r: BetRequest, now: int, a: Uuid, n: nat)
    requires t.Valid() && MarketRows(db) && Known(db.bets, db.cashouts)
    requires r.market in db.markets && BetsFrom(db, r.market, n)
    ensures OnlyTrades(db, PlaceBet(t, db, r, now).0, r.market, a, n)
  {
    if PlaceBet(t, db, r, now).1.Committed? {
      PlaceBetEffect(t, db, r, now);
      BetKeepsWithout(db, PlaceBet(t, db, r, now).0, r, BetCheck(t, db, r, now).1, a);
    }
  }

  lemma CashoutKeepsWithout(db: Db, db': Db, r: CashoutRequest, gain: int, id: Uuid, a: Uuid)
    requires BetCashed(db, db', r, gain) && id == db.outcomes[db.bets[r.bet].outcome].market
    ensures WithoutTrades(db', id, a) == WithoutTrades(db, id, a)
  {
    var (m, b) := (db.markets[id], db.bets[r.bet]);
    var c := Cashout(r.bet, |db.books.transfers|, gain, r.key);
    PostedBalances(db.books, m.house, b.account, gain, r.key, a);
    AppendedCashout(db.bets, db.cashouts, c, 0, m.outcomes);
    CashedToOneMore(db.bets, db.cashouts, c, a, m.outcomes);
  }

  lemma CashoutStepKeepsWithout(t: ExpLog, db: Db, r: CashoutRequest, now: int, id: Uuid, a: Uuid, n: nat)
    requires t.Valid() && RowsKnown(db) && id in db.markets && BetsFrom(db, id, n) && r.bet >= n
    ensures OnlyTrades(db, CashOut(t, db, r, now).0, id, a, n)
  {
    if CashOut(t, db, r, now).1.Committed? {
      CashOutEffect(t, db, r, now);
      assert db.bets[r.bet].outcome in db.markets[id].outcomes;
      CashoutKeepsWithout(db, CashOut(t, db, r, now).0, r, CashoutCheck(t, db, r, now).1, id, a);
    }
  }

  lemma StatusKeepsWithout(db: Db, market: Uuid, status: Status, id: Uuid, a: Uuid, n: nat)
    requires id in db.markets && BetsFrom(db, id, n)
    ensures OnlyTrades(db, SetStatus(db, market, status).0, id, a, n)
  {
  }

  lemma TradingStepKeepsWithout(t: ExpLog, db: Db, e: Event, id: Uuid, a: Uuid, n: nat)
    requires t.Valid() && MarketRows(db) && RowsKnown(db) && id in db.markets && BetsFrom(db, id, n) && TradingOn(e, id, n)
    ensures OnlyTrades(db, Step(t, db, e).0, id, a, n)
  {
    match e
    case EPlaceBet(r, now) => BetStepKeepsWithout(t, db, r, now, a, n);
    case ECashOut(r, now) => CashoutStepKeepsWithout(t, db, r, now, id, a, n);
    case ESetStatus(market, status) => StatusKeepsWithout(db, market, status, id, a, n);
  }

  lemma {:induction false} TradingRunKeepsWithout(t: ExpLog, db: Db, events: seq<Event>, id: Uuid, a: Uuid, n: nat)
    requires t.Valid() && Consistent(db) && id in db.markets && BetsFrom(db, id, n) && PossibleRun(t, db, events)
    requires forall k :: 0 <= k < |events| ==> TradingOn(events[k], id, n)
    ensures Consistent(Run(t, db, events)) && OnlyTrades(db, Run(t, db, events), id, a, n)
  {
    if events != [] {
      var front := events[..|events| - 1];
      var mid := Run(t, db, front);
      TradingRunKeepsWithout(t, db, front, id, a, n);
      RunKeeps(t, db, events);
      RowsAreKnown(mid);
      TradingStepKeepsWithout(t, mid, events[|events| - 1], id, a, n);
    }
  }

  lemma BeforeTheFirstBet(db: Db, id: Uuid, a: Uuid)
    requires Consistent(db) && id in db.markets
    requires forall i :: 0 <= i < |db.bets| ==> db.bets[i].outcome !in db.markets[id].outcomes
    ensures WithoutTrades(db, id, a) == BalanceOf(db.books, a)
  {
    var ids := db.markets[id].outcomes;
    RowsAreKnown(db);
    NothingBetOn(db.bets, Refund(ids));
    OwedToNobody(db.bets, a, Refund(ids));
    NothingCashed(db.bets, db.cashouts, ids);
    NothingCashedTo(db.bets, db.cashouts, a, ids);
  }

  // ----- Cancelling after trading -----

  /** After a cancellation: everyone holds their earlier balance and keeps what cash-outs paid
      them, and the house, which paid for those, holds that much less. */
  ghost predicate Undone(db: Db, db': Db, id: Uuid, a: Uuid, before: int)
    requires id in db.markets
  {
    var m := db.markets[id];
    BalanceOf(db'.books, a) ==
    before + if a == m.house then -PaidOutIn(db.bets, db.cashouts, m.outcomes)
             else CashedTo(db.bets, db.cashouts, a, m.outcomes)
  }

  lemma CancelUndoesBets(db: Db, id: Uuid, order: seq<Uuid>, a: Uuid, before: int, houseBefore: int)
    requires Consistent(db) && id in db.markets && db.markets[id].status.Live()
    requires IsGrouping(db.bets, Refund(db.markets[id].outcomes), order)
    requires WithoutTrades(db, id, a) == before && WithoutTrades(db, id, db.markets[id].house) == houseBefore
    ensures var (db', reply) := Cancel(db, id, order);
            && (reply.Committed? <==> houseBefore >= PaidOutIn(db.bets, db.cashouts, db.markets[id].outcomes))
            && (reply.Committed? ==> Undone(db, db', id, a, before))
  {
    CancelExactly(db, id, order);
  }

  /**
    Cancelling after trading: after any bets on one market on either side and any cash-outs of
    them, with pauses and failures in between, a cancellation commits if and only if the house
    held, before the first bet, all that it then paid for cash-outs; every account gets back its
    earlier balance and keeps what its cash-outs paid.
  */
  lemma CancelAfterTrading(t: ExpLog, db: Db, events: seq<Event>, id: Uuid, order: seq<Uuid>, a: Uuid)
    requires t.Valid() && Consistent(db) && id in db.markets && PossibleRun(t, db, events)
    requires forall i :: 0 <= i < |db.bets| ==> db.bets[i].outcome !in db.markets[id].outcomes
    requires forall k :: 0 <= k < |events| ==> TradingOn(events[k], id, |db.bets|)
    requires var db' := Run(t, db, events);
             && id in db'.markets && db'.markets[id].status.Live()
             && IsGrouping(db'.bets, Refund(db'.markets[id].outcomes), order)
    ensures var db' := Run(t, db, events);
            var (db'', reply) := Cancel(db', id, order);
            && (reply.Committed? <==>
                 BalanceOf(db.books, db.markets[id].house) >= PaidOutIn(db'.bets, db'.cashouts, db'.markets[id].outcomes))
            && (reply.Committed? ==> Undone(db', db'', id, a, BalanceOf(db.books, a)))
  {
    var house := db.markets[id].house;
    TradingRunKeepsWithout(t, db, events, id, a, |db.bets|);
    TradingRunKeepsWithout(t, db, events, id, house, |db.bets|);
    BeforeTheFirstBet(db, id, a);
    BeforeTheFirstBet(db, id, house);
    CancelUndoesBets(Run(t, db, events), id, order, a, BalanceOf(db.books, a), BalanceOf(db.books, house));
  }

  lemma HouseIsNotNegative(db: Db, id: Uuid)
    requires Consistent(db) && id in db.markets
    ensures BalanceOf(db.books, db.markets[id].house) >= 0
  {
    assert MarketOk(db, id);
    assert AllowsBalance(db.books.accounts[db.markets[id].house]);
  }

  /**
    Where no cash-out of the market was committed, cancelling undoes it: it commits and returns
    every account, the house included, to the balance it had before the first bet.
  */
  lemma CancelRestoresBalances(t: ExpLog, db: Db, events: seq<Event>, id: Uuid, order: seq<Uuid>, a: Uuid)
    requires t.Valid() && Consistent(db) && id in db.markets && PossibleRun(t, db, events)
    requires forall i :: 0 <= i < |db.bets| ==> db.bets[i].outcome !in db.markets[id].outcomes
    requires forall k :: 0 <= k < |events| ==> TradingOn(events[k], id, |db.bets|)
    requires var db' := Run(t, db, events);
             && id in db'.markets && db'.markets[id].status.Live()
             && IsGrouping(db'.bets, Refund(db'.markets[id].outcomes), order)
             && forall j :: 0 <= j < |db'.cashouts| ==>
                  BetOf(db'.bets, db'.cashouts[j]).outcome !in db'.markets[id].outcomes
    ensures Cancel(Run(t, db, events), id, order).1.Committed?
    ensures BalanceOf(Cancel(Run(t, db, events), id, order).0.books, a) == BalanceOf(db.books, a)
  {
    var db' := Run(t, db, events);
    CancelAfterTrading(t, db, events, id, order, a);
    HouseIsNotNegative(db, id);
    NoneCashed(db'.bets, db'.cashouts, a, db'.markets[id].outcomes);
  }

  lemma {:induction false} NoneCashed(bets: seq<Bet>, cashouts: seq<Cashout>, a: Uuid, ids: seq<nat>)
    requires forall j :: 0 <= j < |cashouts| ==> BetOf(bets, cashouts[j]).outcome !in ids
    ensures PaidOutIn(bets, cashouts, ids) == 0 && CashedTo(bets, cashouts, a, ids) == 0
  {
    if cashouts != [] {
      NoneCashed(bets, cashouts[..|cashouts| - 1], a, ids);
    }
  }
}
