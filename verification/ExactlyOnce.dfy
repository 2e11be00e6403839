/**
  Retries, duplicates and aborts: one key commits at most once, a bet is cashed out at most once,
  and a finished market stays finished.
*/
module ExactlyOnce {
  import opened Transcendental
  import opened Ledger
  import LedgerInvariant
  import opened Exchange
  import opened ExchangeInvariant

  // ----- Rows are never lost or changed -----

  ghost predicate Later(db: Db, db': Db) {
    && db.books.transfers <= db'.books.transfers
    && db.bets <= db'.bets
    && db.cashouts <= db'.cashouts
  }

  lemma SettleIsLater(db: Db, market: Uuid, winner: nat, order: seq<Uuid>)
    requires LedgerInvariant.WellKept(db.books)
    ensures Later(db, Settle(db, market, winner, order).0)
  {
    if Settle(db, market, winner, order).1.Committed? {
      SettleEffect(db, market, winner, order);
      PayInTurnGrows(db.books, market, db.markets[market].house, db.bets, Win(winner), order);
    }
  }

  lemma CancelIsLater(db: Db, market: Uuid, order: seq<Uuid>)
    requires LedgerInvariant.WellKept(db.books)
    ensures Later(db, Cancel(db, market, order).0)
  {
    if Cancel(db, market, order).1.Committed? {
      CancelEffect(db, market, order);
      PayInTurnGrows(db.books, market, db.markets[market].house, db.bets, Refund(db.markets[market].outcomes), order);
    }
  }

  lemma BetIsLater(t: ExpLog, db: Db, r: BetRequest, now: int)
    requires t.Valid()
    ensures Later(db, PlaceBet(t, db, r, now).0)
  {
  }

  lemma CashoutIsLater(t: ExpLog, db: Db, r: CashoutRequest, now: int)
    requires t.Valid()
    ensures Later(db, CashOut(t, db, r, now).0)
  {
  }

  lemma StepIsLater(t: ExpLog, db: Db, e: Event)
    requires t.Valid() && LedgerInvariant.WellKept(db.books)
    ensures Later(db, Step(t, db, e).0)
  {
    match e
    case ESettle(market, winner, order) => SettleIsLater(db, market, winner, order);
    case ECancel(market, order) => CancelIsLater(db, market, order);
    case EPlaceBet(bet, now) => BetIsLater(t, db, bet, now);
    case ECashOut(cashout, now) => CashoutIsLater(t, db, cashout, now);
    case _ =>
  }

  lemma {:induction false} RunIsLater(t: ExpLog, db: Db, events: seq<Event>)
    requires t.Valid() && Consistent(db) && PossibleRun(t, db, events)
    ensures Consistent(Run(t, db, events)) && Later(db, Run(t, db, events))
  {
    if events != [] {
      var front := events[..|events| - 1];
      RunIsLater(t, db, front);
      StepIsLater(t, Run(t, db, front), events[|events| - 1]);
      RunKeeps(t, db, events);
    }
  }

  // ----- Keys -----

  lemma KeyStaysUsed(b: Books, b': Books, key: string)
    requires b.transfers <= b'.transfers && KeyUsed(b, key)
    ensures KeyUsed(b', key)
  {
    var i :| 0 <= i < |b.transfers| && b.transfers[i].key == key;
    assert b'.transfers[i].key == key;
  }

  /** A committed bet uses up its key. */
  lemma CommittedBetUsesKey(t: ExpLog, db: Db, r: BetRequest, now: int)
    requires t.Valid() && PlaceBet(t, db, r, now).1.Committed?
    ensures KeyUsed(PlaceBet(t, db, r, now).0.books, r.key)
  {
    PlaceBetEffect(t, db, r, now);
    assert PlaceBet(t, db, r, now).0.books.transfers[|db.books.transfers|].key == r.key;
  }

  lemma CommittedCashoutUsesKey(t: ExpLog, db: Db, r: CashoutRequest, now: int)
    requires t.Valid() && CashOut(t, db, r, now).1.Committed?
    ensures KeyUsed(CashOut(t, db, r, now).0.books, r.key)
  {
    CashOutEffect(t, db, r, now);
    assert CashOut(t, db, r, now).0.books.transfers[|db.books.transfers|].key == r.key;
  }

  lemma UsedKeyRefusesBet(t: ExpLog, db: Db, r: BetRequest, now: int)
    requires t.Valid() && KeyUsed(db.books, r.key)
    ensures PlaceBet(t, db, r, now).1.Failed? && PlaceBet(t, db, r, now).0 == db
  {
    if PlaceBet(t, db, r, now).1.Committed? {
      PlaceBetEffect(t, db, r, now);
    }
  }

  lemma UsedKeyRefusesCashout(t: ExpLog, db: Db, r: CashoutRequest, now: int)
    requires t.Valid() && KeyUsed(db.books, r.key)
    ensures CashOut(t, db, r, now).1.Failed? && CashOut(t, db, r, now).0 == db
  {
    if CashOut(t, db, r, now).1.Committed? {
      CashOutEffect(t, db, r, now);
    }
  }

  /** Once a key is used, no later bet or cash-out under it commits, and trying changes nothing. */
  lemma UsedKeyNeverCommits(t: ExpLog, db: Db, events: seq<Event>, bet: BetRequest, cashout: CashoutRequest, now: int)
    requires t.Valid() && Consistent(db) && PossibleRun(t, db, events)
    requires KeyUsed(db.books, bet.key) && cashout.key == bet.key
    ensures var later := Run(t, db, events);
            && PlaceBet(t, later, bet, now).1.Failed? && PlaceBet(t, later, bet, now).0 == later
            && CashOut(t, later, cashout, now).1.Failed? && CashOut(t, later, cashout, now).0 == later
  {
    var later := KeyStaysUsedInRun(t, db, events, bet.key);
    UsedKeyRefusesBet(t, later, bet, now);
    UsedKeyRefusesCashout(t, later, cashout, now);
  }

  lemma KeyStaysUsedInRun(t: ExpLog, db: Db, events: seq<Event>, key: string) returns (later: Db)
    requires t.Valid() && Consistent(db) && PossibleRun(t, db, events) && KeyUsed(db.books, key)
    ensures later == Run(t, db, events) && KeyUsed(later.books, key)
  {
    RunIsLater(t, db, events);
    later := Run(t, db, events);
    KeyStaysUsed(db.books, later.books, key);
  }

  /** Sending the same bet any number of times, with anything in between, places it at most once. */
  lemma DuplicateBetIsRefused(t: ExpLog, db: Db, r: BetRequest, now: int, events: seq<Event>, again: BetRequest, later: int)
    requires t.Valid() && Consistent(db) && PlaceBet(t, db, r, now).1.Committed?
    requires PossibleRun(t, PlaceBet(t, db, r, now).0, events) && again.key == r.key
    ensures var after := Run(t, PlaceBet(t, db, r, now).0, events);
            PlaceBet(t, after, again, later).1.Failed? && PlaceBet(t, after, again, later).0 == after
  {
    PlaceBetKeeps(t, db, r, now);
    CommittedBetUsesKey(t, db, r, now);
    UsedKeyNeverCommits(t, PlaceBet(t, db, r, now).0, events, again, CashoutRequest(0, 0, r.key), later);
  }

  /** The same for cash-outs. */
  lemma DuplicateCashoutIsRefused(t: ExpLog, db: Db, r: CashoutRequest, now: int, events: seq<Event>,
                                  again: CashoutRequest, later: int)
    requires t.Valid() && Consistent(db) && CashOut(t, db, r, now).1.Committed?
    requires PossibleRun(t, CashOut(t, db, r, now).0, events) && again.key == r.key
    ensures var after := Run(t, CashOut(t, db, r, now).0, events);
            CashOut(t, after, again, later).1.Failed? && CashOut(t, after, again, later).0 == after
  {
    CashOutKeeps(t, db, r, now);
    CommittedCashoutUsesKey(t, db, r, now);
    var after := KeyStaysUsedInRun(t, CashOut(t, db, r, now).0, events, r.key);
    UsedKeyRefusesCashout(t, after, again, later);
  }

  // ----- Cash-outs -----

  lemma StaysCashedOut(cashouts: seq<Cashout>, cashouts': seq<Cashout>, bet: nat)
    requires cashouts <= cashouts' && CashedOut(cashouts, bet)
    ensures CashedOut(cashouts', bet)
  {
    var i :| 0 <= i < |cashouts| && cashouts[i].bet == bet;
    assert cashouts'[i].bet == bet;
  }

  lemma CashedOutRefuses(t: ExpLog, db: Db, r: CashoutRequest, now: int)
    requires t.Valid() && CashedOut(db.cashouts, r.bet)
    ensures CashOut(t, db, r, now).1.Failed? && CashOut(t, db, r, now).0 == db
  {
    if CashOut(t, db, r, now).1.Committed? {
      CashOutEffect(t, db, r, now);
    }
  }

  lemma CashedOutInRun(t: ExpLog, db: Db, events: seq<Event>, bet: nat) returns (later: Db)
    requires t.Valid() && Consistent(db) && PossibleRun(t, db, events) && CashedOut(db.cashouts, bet)
    ensures later == Run(t, db, events) && CashedOut(later.cashouts, bet)
  {
    RunIsLater(t, db, events);
    later := Run(t, db, events);
    StaysCashedOut(db.cashouts, later.cashouts, bet);
  }

  lemma CommittedCashoutIsRecorded(t: ExpLog, db: Db, r: CashoutRequest, now: int)
    requires t.Valid() && CashOut(t, db, r, now).1.Committed?
    ensures CashedOut(CashOut(t, db, r, now).0.cashouts, r.bet)
  {
    CashOutEffect(t, db, r, now);
    assert CashOut(t, db, r, now).0.cashouts[|db.cashouts|].bet == r.bet;
  }

  /**
    A bet is cashed out at most once.  The lookup that checks this runs before the transaction
    and may be stale; the commit does not rely on it: once cashed out, every later attempt
    fails, under whatever key.
  */
  lemma CashedOutAtMostOnce(t: ExpLog, db: Db, r: CashoutRequest, now: int, events: seq<Event>, again: CashoutRequest, later: int)
    requires t.Valid() && Consistent(db) && CashOut(t, db, r, now).1.Committed?
    requires PossibleRun(t, CashOut(t, db, r, now).0, events) && again.bet == r.bet
    ensures var after := Run(t, CashOut(t, db, r, now).0, events);
            CashOut(t, after, again, later).1.Failed? && CashOut(t, after, again, later).0 == after
  {
    CashOutKeeps(t, db, r, now);
    CommittedCashoutIsRecorded(t, db, r, now);
    var after := CashedOutInRun(t, CashOut(t, db, r, now).0, events, r.bet);
    CashedOutRefuses(t, after, again, later);
  }

  /** What the early lookup returned is still the row the transaction reads later. */
  lemma StaleLookupIsAccurate(t: ExpLog, db: Db, events: seq<Event>, bet: nat, user: string)
    requires t.Valid() && Consistent(db) && PossibleRun(t, db, events)
    requires FindBet(db, bet, user).Some?
    ensures bet < |Run(t, db, events).bets|
    ensures FindBet(db, bet, user).value == Run(t, db, events).bets[bet]
  {
    RunIsLater(t, db, events);
  }

  // ----- One transfer for each bet and each cash-out -----

  ghost predicate KeysUnique(db: Db) {
    && (forall i, j :: 0 <= i < j < |db.bets| ==> db.bets[i].key != db.bets[j].key)
    && (forall i, j :: 0 <= i < j < |db.cashouts| ==> db.cashouts[i].key != db.cashouts[j].key)
  }

  lemma StepKeepsKeysUnique(t: ExpLog, db: Db, e: Event)
    requires t.Valid() && KeysUnique(db)
    ensures KeysUnique(Step(t, db, e).0)
  {
  }

  lemma {:induction false} RunKeepsKeysUnique(t: ExpLog, db: Db, events: seq<Event>)
    requires t.Valid() && KeysUnique(db)
    ensures KeysUnique(Run(t, db, events))
  {
    if events != [] {
      RunKeepsKeysUnique(t, db, events[..|events| - 1]);
      StepKeepsKeysUnique(t, Run(t, db, events[..|events| - 1]), events[|events| - 1]);
    }
  }

  /** No two bets, no two cash-outs, and no bet and cash-out share a transfer. */
  ghost predicate OwnTransfers(db: Db) {
    && (forall i, j :: 0 <= i < j < |db.bets| ==> db.bets[i].transfer != db.bets[j].transfer)
    && (forall i, j :: 0 <= i < j < |db.cashouts| ==> db.cashouts[i].transfer != db.cashouts[j].transfer)
    && (forall i, j :: 0 <= i < |db.bets| && 0 <= j < |db.cashouts| ==> db.bets[i].transfer != db.cashouts[j].transfer)
  }

  lemma BetAndCashoutDiffer(db: Db, b: Bet, c: Cashout)
    requires MarketRows(db) && BetOk(db, b) && CashoutOk(db, c)
    ensures b.transfer != c.transfer
  {
    assert MarketOk(db, db.outcomes[db.bets[c.bet].outcome].market);
    assert db.books.accounts[HouseOf(db, db.bets[c.bet].outcome)].owner == "";
  }

  /**
    Every committed bet and cash-out has exactly one transfer of its own, with its parties, its
    amount and its key.
  */
  lemma EachHasItsOwnTransfer(t: ExpLog, events: seq<Event>)
    requires t.Valid() && PossibleRun(t, EMPTY_DB, events)
    ensures BetRows(Run(t, EMPTY_DB, events)) && CashoutRows(Run(t, EMPTY_DB, events))
    ensures OwnTransfers(Run(t, EMPTY_DB, events))
  {
    var db := Run(t, EMPTY_DB, events);
    ReachableIsConsistent(t, events);
    RunKeepsKeysUnique(t, EMPTY_DB, events);
    forall i, j | 0 <= i < j < |db.bets| ensures db.bets[i].transfer != db.bets[j].transfer {
      assert BetOk(db, db.bets[i]) && BetOk(db, db.bets[j]);
    }
    forall i, j | 0 <= i < j < |db.cashouts| ensures db.cashouts[i].transfer != db.cashouts[j].transfer {
      assert CashoutOk(db, db.cashouts[i]) && CashoutOk(db, db.cashouts[j]);
    }
    forall i, j | 0 <= i < |db.bets| && 0 <= j < |db.cashouts|
      ensures db.bets[i].transfer != db.cashouts[j].transfer
    {
      BetAndCashoutDiffer(db, db.bets[i], db.cashouts[j]);
    }
  }
}

/** Once resolved or cancelled, a market never changes again. */
module Lifecycle {
  import opened Transcendental
  import opened Ledger
  import opened Exchange
  import opened ExchangeInvariant

  ghost predicate Finished(db: Db, id: Uuid) {
    id in db.markets && db.markets[id].status.Final()
  }

  /** Nothing about the finished market has moved, and no new row is on it. */
  ghost predicate Unmoved(db: Db, db': Db, id: Uuid)
    requires Finished(db, id)
  {
    && id in db'.markets && db'.markets[id] == db.markets[id]
    && (id in db'.resolutions <==> id in db.resolutions)
    && (id in db.resolutions ==> db'.resolutions[id] == db.resolutions[id])
    && (id in db'.cancellations <==> id in db.cancellations)
    && |db.bets| <= |db'.bets| && db'.bets[..|db.bets|] == db.bets
    && (forall i :: |db.bets| <= i < |db'.bets| ==> db'.bets[i].outcome !in db.markets[id].outcomes)
    && |db.cashouts| <= |db'.cashouts| && db'.cashouts[..|db.cashouts|] == db.cashouts
    && (forall j :: |db.cashouts| <= j < |db'.cashouts| && db'.cashouts[j].bet < |db'.bets| ==>
          db'.bets[db'.cashouts[j].bet].outcome !in db.markets[id].outcomes)
  }

  lemma BetElsewhere(db: Db, db': Db, r: BetRequest, gain: int, id: Uuid)
    requires MarketRows(db) && BetPlaced(db, db', r, gain) && Finished(db, id)
    ensures Unmoved(db, db', id)
  {
    assert MarketOk(db, id) && MarketOk(db, r.market);
    if r.outcome in db.markets[id].outcomes {
      OutcomeOfMarket(db, id, r.outcome);
      OutcomeOfMarket(db, r.market, r.outcome);
    }
  }

  lemma CashoutElsewhere(db: Db, db': Db, r: CashoutRequest, gain: int, id: Uuid)
    requires MarketRows(db) && BetCashed(db, db', r, gain) && Finished(db, id)
    ensures Unmoved(db, db', id)
  {
    assert MarketOk(db, id);
    var o := db.bets[r.bet].outcome;
    if o in db.markets[id].outcomes {
      OutcomeOfMarket(db, id, o);
    }
  }

  lemma UnmovedSelf(db: Db, id: Uuid)
    requires Finished(db, id)
    ensures Unmoved(db, db, id)
  {
  }

  lemma BetStep(t: ExpLog, db: Db, r: BetRequest, now: int, id: Uuid)
    requires t.Valid() && MarketRows(db) && Finished(db, id)
    ensures Unmoved(db, PlaceBet(t, db, r, now).0, id)
  {
    var (db', reply) := PlaceBet(t, db, r, now);
    if reply.Committed? {
      PlaceBetEffect(t, db, r, now);
      BetElsewhere(db, db', r, BetCheck(t, db, r, now).1, id);
    } else {
      UnmovedSelf(db, id);
    }
  }

  lemma CashoutStep(t: ExpLog, db: Db, r: CashoutRequest, now: int, id: Uuid)
    requires t.Valid() && MarketRows(db) && Finished(db, id)
    ensures Unmoved(db, CashOut(t, db, r, now).0, id)
  {
    var (db', reply) := CashOut(t, db, r, now);
    if reply.Committed? {
      CashOutEffect(t, db, r, now);
      CashoutElsewhere(db, db', r, CashoutCheck(t, db, r, now).1, id);
    } else {
      UnmovedSelf(db, id);
    }
  }

  lemma AdminStep(t: ExpLog, db: Db, e: Event, id: Uuid)
    requires t.Valid() && Finished(db, id) && Possible(db, e) && !e.EPlaceBet? && !e.ECashOut?
    ensures Unmoved(db, Step(t, db, e).0, id)
  {
  }

  lemma FinishedStep(t: ExpLog, db: Db, e: Event, id: Uuid)
    requires t.Valid() && MarketRows(db) && Finished(db, id) && Possible(db, e)
    ensures Unmoved(db, Step(t, db, e).0, id)
  {
    match e
    case EPlaceBet(bet, now) => BetStep(t, db, bet, now, id);
    case ECashOut(cashout, now) => CashoutStep(t, db, cashout, now, id);
    case _ => AdminStep(t, db, e, id);
  }

  lemma UnmovedTrans(a: Db, b: Db, c: Db, id: Uuid)
    requires Finished(a, id) && Unmoved(a, b, id) && Finished(b, id) && Unmoved(b, c, id)
    requires forall j :: 0 <= j < |b.cashouts| ==> b.cashouts[j].bet < |b.bets|
    ensures Unmoved(a, c, id)
  {
    forall i | 0 <= i < |a.bets| ensures c.bets[i] == a.bets[i] {
      assert b.bets[..|a.bets|][i] == a.bets[i];
      assert c.bets[..|b.bets|][i] == b.bets[i];
    }
    forall j | 0 <= j < |a.cashouts| ensures c.cashouts[j] == a.cashouts[j] {
      assert b.cashouts[..|a.cashouts|][j] == a.cashouts[j];
      assert c.cashouts[..|b.cashouts|][j] == b.cashouts[j];
    }
    forall i | |a.bets| <= i < |c.bets| ensures c.bets[i].outcome !in a.markets[id].outcomes {
      if i < |b.bets| {
        assert c.bets[..|b.bets|][i] == b.bets[i];
      }
    }
    forall j | |a.cashouts| <= j < |c.cashouts| && c.cashouts[j].bet < |c.bets|
      ensures c.bets[c.cashouts[j].bet].outcome !in a.markets[id].outcomes
    {
      if j < |b.cashouts| {
        assert c.cashouts[..|b.cashouts|][j] == b.cashouts[j];
        assert c.bets[..|b.bets|][b.cashouts[j].bet] == b.bets[b.cashouts[j].bet];
      }
    }
  }

  /**
    Finality: in every interleaving after a market is resolved or cancelled, including pauses and
    resumes issued on a stale reading of its status, its row, its resolution and its cancellation
    never change and no bet or cash-out on it commits.
  */
  lemma {:induction false} FinishedForever(t: ExpLog, db: Db, events: seq<Event>, id: Uuid)
    requires t.Valid() && Consistent(db) && Finished(db, id) && PossibleRun(t, db, events)
    ensures Unmoved(db, Run(t, db, events), id)
  {
    if events != [] {
      var front := events[..|events| - 1];
      var mid := Run(t, db, front);
      FinishedForever(t, db, front, id);
      RunKeeps(t, db, front);
      FinishedStep(t, mid, events[|events| - 1], id);
      forall j | 0 <= j < |mid.cashouts| ensures mid.cashouts[j].bet < |mid.bets| {
        assert CashoutOk(mid, mid.cashouts[j]);
      }
      UnmovedTrans(db, mid, Step(t, mid, events[|events| - 1]).0, id);
    }
  }

  lemma FinishedRefusesBet(t: ExpLog, db: Db, r: BetRequest, now: int)
    requires t.Valid() && Finished(db, r.market)
    ensures PlaceBet(t, db, r, now).1.Failed? && PlaceBet(t, db, r, now).0 == db
  {
    if PlaceBet(t, db, r, now).1.Committed? {
      PlaceBetEffect(t, db, r, now);
    }
  }

  lemma FinishedRefusesCashout(t: ExpLog, db: Db, id: Uuid, r: CashoutRequest, now: int)
    requires t.Valid() && MarketRows(db) && Finished(db, id)
    requires r.bet < |db.bets| && db.bets[r.bet].outcome in db.markets[id].outcomes
    ensures CashOut(t, db, r, now).1.Failed? && CashOut(t, db, r, now).0 == db
  {
    assert MarketOk(db, id);
    OutcomeOfMarket(db, id, db.bets[r.bet].outcome);
    if CashOut(t, db, r, now).1.Committed? {
      CashOutEffect(t, db, r, now);
    }
  }

  lemma FinishedRefusesAdmin(db: Db, id: Uuid, winner: nat, order: seq<Uuid>, status: Status)
    requires Finished(db, id) && status.Live()
    ensures Settle(db, id, winner, order).1.Failed? && Settle(db, id, winner, order).0 == db
    ensures Cancel(db, id, order).1.Failed? && Cancel(db, id, order).0 == db
    ensures SetStatus(db, id, status) == (db, Failed(StatusIsFinal))
  {
  }

  /** Every operation on a finished market is refused and changes nothing. */
  lemma FinishedRefusesAll(t: ExpLog, db: Db, id: Uuid, bet: BetRequest, cashout: CashoutRequest, now: int,
                           winner: nat, order: seq<Uuid>, status: Status)
    requires t.Valid() && MarketRows(db) && Finished(db, id) && bet.market == id && status.Live()
    requires cashout.bet < |db.bets| && db.bets[cashout.bet].outcome in db.markets[id].outcomes
    ensures PlaceBet(t, db, bet, now).1.Failed? && PlaceBet(t, db, bet, now).0 == db
    ensures CashOut(t, db, cashout, now).1.Failed? && CashOut(t, db, cashout, now).0 == db
    ensures Settle(db, id, winner, order).1.Failed? && Settle(db, id, winner, order).0 == db
    ensures Cancel(db, id, order).1.Failed? && Cancel(db, id, order).0 == db
    ensures SetStatus(db, id, status) == (db, Failed(StatusIsFinal))
  {
    FinishedRefusesBet(t, db, bet, now);
    FinishedRefusesCashout(t, db, id, cashout, now);
    FinishedRefusesAdmin(db, id, winner, order, status);
  }

  /** In every reachable state a market has a resolution or a cancellation, never both, exactly
      when its status says so. */
  lemma AtMostOneEnding(t: ExpLog, events: seq<Event>, id: Uuid)
    requires t.Valid() && PossibleRun(t, EMPTY_DB, events)
    ensures var db := Run(t, EMPTY_DB, events);
            && !(id in db.resolutions && id in db.cancellations)
            && (Finished(db, id) <==> id in db.resolutions || id in db.cancellations)
  {
    ReachableIsConsistent(t, events);
    var db := Run(t, EMPTY_DB, events);
    if id in db.markets {
      assert MarketOk(db, id);
    }
  }
}
