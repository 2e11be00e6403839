/**
  Concrete runs on which the code does not do what one might expect.  Two markets of three outcomes
  are created and one is opened; a user with one unit of money bets it on a no side, cashes the bet
  out, and the market is cancelled.
*/
module Counterexamples {
  import opened Transcendental
  import opened Ledger
  import opened Options
  import opened Outcomes
  import opened Amounts
  import opened Quotes
  import opened Exchange
  import opened ExchangeInvariant
  import opened Solvency
  import opened Settlement
  import opened Cancellation
  import opened Liability
  import opened EvenMarket

  // ----- The accounts and markets -----

  function Named(c: char): Uuid {
    seq(36, i => c)
  }

  lemma NamesDiffer(c: char, d: char)
    requires c != d
    ensures Named(c) != Named(d)
  {
    assert Named(c)[0] == c && Named(d)[0] == d;
  }

  const BANK: Uuid := Named('b')
  const USER: Uuid := Named('u')
  const HOUSE: Uuid := Named('h')
  const OTHER_HOUSE: Uuid := Named('k')
  const MARKET: Uuid := Named('m')
  const OTHER: Uuid := Named('o')
  const SEED: int := 100_000_000_000_000
  const IDS: seq<nat> := [1, 2, 3]
  const OTHER_IDS: seq<nat> := [4, 5, 6]

  lemma AllNamesDiffer()
    ensures BANK != USER && BANK != HOUSE && BANK != OTHER_HOUSE && USER != HOUSE && USER != OTHER_HOUSE
    ensures HOUSE != OTHER_HOUSE && MARKET != OTHER
  {
    NamesDiffer('b', 'u');
    NamesDiffer('b', 'h');
    NamesDiffer('b', 'k');
    NamesDiffer('u', 'h');
    NamesDiffer('u', 'k');
    NamesDiffer('h', 'k');
    NamesDiffer('m', 'o');
  }

  // ----- Reaching states -----

  /** The events lead from the empty database to db. */
  ghost predicate Reaches(t: ExpLog, events: seq<Event>, db: Db)
    requires t.Valid()
  {
    PossibleRun(t, EMPTY_DB, events) && Run(t, EMPTY_DB, events) == db
  }

  lemma ReachesMore(t: ExpLog, events: seq<Event>, db: Db, e: Event)
    requires t.Valid() && Reaches(t, events, db) && Possible(db, e)
    ensures Reaches(t, events + [e], Step(t, db, e).0)
  {
    assert (events + [e])[..|events|] == events;
  }

  // ----- The state before the bet -----

  /** The user holds one unit, nothing was bet, and the first market is open. */
  ghost predicate Ready(db: Db) {
    && USER in db.books.accounts && db.books.accounts[USER] == Account("user", ONE, CURRENCY, false, true, 1)
    && HOUSE in db.books.accounts && db.books.accounts[HOUSE] == Account("", 0, CURRENCY, false, true, 0)
    && db.books.transfers == [Transfer(BANK, USER, ONE, "deposit")]
    && MARKET in db.markets && OTHER in db.markets
    && db.markets[MARKET] == Market(HOUSE, SEED, ALPHA, CAP, Opened, None, 0, IDS)
    && db.markets[OTHER].outcomes == OTHER_IDS
    && db.outcomes == Seeded(IDS, MARKET, SEED) + Seeded(OTHER_IDS, OTHER, SEED)
    && db.bets == [] && db.cashouts == []
  }

  ghost predicate Funded(db: Db) {
    && db.books.accounts.Keys == {BANK, USER}
    && db.books.accounts[USER] == Account("user", ONE, CURRENCY, false, true, 1)
    && db.books.transfers == [Transfer(BANK, USER, ONE, "deposit")]
    && db.markets == map[] && db.outcomes == map[] && db.bets == [] && db.cashouts == []
  }

  lemma ReachFunded(t: ExpLog) returns (events: seq<Event>, db: Db)
    requires t.Valid()
    ensures Reaches(t, events, db) && Funded(db)
  {
    AllNamesDiffer();
    var db1 := OpenAccount(EMPTY_DB, BANK, "bank", true, false).0;
    var db2 := OpenAccount(db1, USER, "user", false, true).0;
    db := Fund(db2, BANK, USER, ONE, "deposit").0;
    assert Refusal(db2.books, BANK, USER, ONE, "deposit").Posted?;
    ReachesMore(t, [], EMPTY_DB, EOpenAccount(BANK, "bank", true, false));
    ReachesMore(t, [] + [EOpenAccount(BANK, "bank", true, false)], db1, EOpenAccount(USER, "user", false, true));
    events := [] + [EOpenAccount(BANK, "bank", true, false)] + [EOpenAccount(USER, "user", false, true)];
    ReachesMore(t, events, db2, EFund(BANK, USER, ONE, "deposit"));
    events := events + [EFund(BANK, USER, ONE, "deposit")];
  }

  lemma SeedsAreAccepted(ids: seq<nat>, id: Uuid)
    requires |ids| == 3
    ensures Quantities(Seeded(ids, id, SEED), ids) == Even(100.0)
    ensures Objection(Quantities(Seeded(ids, id, SEED), ids), ALPHA).None?
  {
    EvenIsValid(100.0, ALPHA);
  }

  /** Both markets are drafts. */
  ghost predicate Drafted(db: Db) {
    && USER in db.books.accounts && db.books.accounts[USER] == Account("user", ONE, CURRENCY, false, true, 1)
    && HOUSE in db.books.accounts && db.books.accounts[HOUSE] == Account("", 0, CURRENCY, false, true, 0)
    && db.books.transfers == [Transfer(BANK, USER, ONE, "deposit")]
    && db.markets == map[MARKET := Market(HOUSE, SEED, ALPHA, CAP, Draft, None, 0, IDS),
                         OTHER := Market(OTHER_HOUSE, SEED, ALPHA, CAP, Draft, None, 0, OTHER_IDS)]
    && db.outcomes == Seeded(IDS, MARKET, SEED) + Seeded(OTHER_IDS, OTHER, SEED)
    && db.bets == [] && db.cashouts == []
  }

  const FIRST: Event := ECreateMarket(MARKET, HOUSE, SEED, ALPHA, CAP, None, IDS)
  const SECOND: Event := ECreateMarket(OTHER, OTHER_HOUSE, SEED, ALPHA, CAP, None, OTHER_IDS)

  ghost predicate HalfDrafted(db: Db) {
    && db.books.accounts.Keys == {BANK, USER, HOUSE}
    && db.books.accounts[USER] == Account("user", ONE, CURRENCY, false, true, 1)
    && db.books.accounts[HOUSE] == Account("", 0, CURRENCY, false, true, 0)
    && db.books.transfers == [Transfer(BANK, USER, ONE, "deposit")]
    && db.markets == map[MARKET := Market(HOUSE, SEED, ALPHA, CAP, Draft, None, 0, IDS)]
    && db.outcomes == Seeded(IDS, MARKET, SEED) && db.bets == [] && db.cashouts == []
  }

  lemma FirstMarket(db: Db)
    requires Funded(db)
    ensures HalfDrafted(CreateMarket(db, MARKET, HOUSE, SEED, ALPHA, CAP, None, IDS).0)
  {
    AllNamesDiffer();
    SeedsAreAccepted(IDS, MARKET);
    assert FreshRows(db, MARKET, HOUSE, IDS);
  }

  lemma SecondMarket(db: Db)
    requires HalfDrafted(db)
    ensures Drafted(CreateMarket(db, OTHER, OTHER_HOUSE, SEED, ALPHA, CAP, None, OTHER_IDS).0)
  {
    AllNamesDiffer();
    SeedsAreAccepted(OTHER_IDS, OTHER);
    assert FreshRows(db, OTHER, OTHER_HOUSE, OTHER_IDS);
  }

  lemma ReachDrafted(t: ExpLog) returns (events: seq<Event>, db: Db)
    requires t.Valid()
    ensures Reaches(t, events, db) && Drafted(db)
  {
    var db0: Db;
    events, db0 := ReachFunded(t);
    FirstMarket(db0);
    ReachesMore(t, events, db0, FIRST);
    var db1 := CreateMarket(db0, MARKET, HOUSE, SEED, ALPHA, CAP, None, IDS).0;
    SecondMarket(db1);
    ReachesMore(t, events + [FIRST], db1, SECOND);
    events := events + [FIRST] + [SECOND];
    db := CreateMarket(db1, OTHER, OTHER_HOUSE, SEED, ALPHA, CAP, None, OTHER_IDS).0;
  }

  lemma ReachReady(t: ExpLog) returns (events: seq<Event>, db: Db)
    requires t.Valid()
    ensures Reaches(t, events, db) && Ready(db)
  {
    AllNamesDiffer();
    var db0: Db;
    events, db0 := ReachDrafted(t);
    db := SetStatus(db0, MARKET, Opened).0;
    ReachesMore(t, events, db0, ESetStatus(MARKET, Opened));
    events := events + [ESetStatus(MARKET, Opened)];
  }

  // ----- The bet -----

  const BET := BetRequest("user", USER, MARKET, 1, No, ONE, WANTED, "bet")

  lemma QuantitiesBefore(db: Db)
    requires Ready(db)
    ensures Quantities(db.outcomes, IDS) == Even(100.0)
  {
    assert Amount(SEED) == 100.0;
    forall i | 0 <= i < 3 ensures QuantityOf(db.outcomes, IDS[i]) == SEED {
      assert IDS[i] in IDS && IDS[i] !in OTHER_IDS;
    }
  }

  /** A no bet of one unit is accepted, for the shares the engine quotes. */
  lemma BetIsAccepted(t: ExpLog, db: Db) returns (gain: int)
    requires t.Valid() && Ready(db)
    ensures BetCheck(t, db, BET, 0) == (Committed, gain)
    ensures MaxShares(t, Even(100.0), ALPHA, 0, false, 1.0) == Ok(gain) && WANTED <= gain && Amount(gain) <= 1.5
  {
    QuantitiesBefore(db);
    var quote := NoQuote(t);
    gain := quote.gain;
    QuotedBetPasses(t, db, quote);
  }

  lemma QuotedBetPasses(t: ExpLog, db: Db, quote: BuyQuote)
    requires t.Valid() && quote.gain >= WANTED
    requires USER in db.books.accounts && db.books.accounts[USER] == Account("user", ONE, CURRENCY, false, true, 1)
    requires MARKET in db.markets && db.markets[MARKET] == Market(HOUSE, SEED, ALPHA, CAP, Opened, None, 0, IDS)
    requires Buying(t, Quantities(db.outcomes, IDS), ALPHA, 0, false, 1.0, CAP) == Ok(quote)
    ensures BetCheck(t, db, BET, 0) == (Committed, quote.gain)
  {
    assert IndexOf(IDS, 1) == 0 && Amount(ONE) == 1.0;
  }

  /** The state after the bet. */
  ghost predicate HasNoBet(db: Db, gain: int) {
    && USER in db.books.accounts && db.books.accounts[USER] == Account("user", 0, CURRENCY, false, true, 2)
    && HOUSE in db.books.accounts && db.books.accounts[HOUSE] == Account("", ONE, CURRENCY, false, true, 1)
    && db.books.transfers == [Transfer(BANK, USER, ONE, "deposit"), Transfer(USER, HOUSE, ONE, "bet")]
    && MARKET in db.markets && db.markets[MARKET] == Market(HOUSE, SEED, ALPHA, CAP, Opened, None, 1, IDS)
    && db.outcomes == AddShares(Seeded(IDS, MARKET, SEED) + Seeded(OTHER_IDS, OTHER, SEED), 1, No, gain)
    && db.bets == [Bet(USER, 1, 1, No, gain, ONE, "bet")] && db.cashouts == []
  }

  lemma BetCommits(t: ExpLog, db: Db) returns (gain: int)
    requires t.Valid() && Ready(db)
    ensures PlaceBet(t, db, BET, 0).1.Committed? && HasNoBet(PlaceBet(t, db, BET, 0).0, gain)
    ensures MaxShares(t, Even(100.0), ALPHA, 0, false, 1.0) == Ok(gain) && WANTED <= gain && Amount(gain) <= 1.5
  {
    AllNamesDiffer();
    gain := BetIsAccepted(t, db);
    RecordedBet(db, gain);
  }

  lemma RecordedBet(db: Db, gain: int)
    requires Ready(db)
    ensures RecordBet(db, BET, gain).1.Committed? && HasNoBet(RecordBet(db, BET, gain).0, gain)
  {
    AllNamesDiffer();
    assert !KeyUsed(db.books, "bet");
    assert Refusal(db.books, USER, HOUSE, ONE, "bet").Posted?;
  }

  // ----- The cash-out -----

  const CASHOUT := CashoutRequest(0, HALF, "cash")

  lemma QuantitiesAfterNoBet(db: Db, gain: int)
    requires HasNoBet(db, gain)
    ensures Quantities(db.outcomes, IDS) == Raised(Amount(gain))
  {
    assert Amount(SEED) == 100.0;
    AmountAdds(SEED, gain);
    forall i | 0 <= i < 3 ensures QuantityOf(db.outcomes, IDS[i]) == SEED + (if i == 0 then 0 else gain) {
      assert IDS[i] in IDS && IDS[i] !in OTHER_IDS;
    }
  }

  lemma CashoutIsAccepted(t: ExpLog, db: Db, gain: int) returns (back: int)
    requires t.Valid() && HasNoBet(db, gain)
    requires MaxShares(t, Even(100.0), ALPHA, 0, false, 1.0) == Ok(gain) && WANTED <= gain && Amount(gain) <= 1.5
    ensures CashoutCheck(t, db, CASHOUT, 0) == (Committed, back) && HALF <= back <= ONE
  {
    QuantitiesAfterNoBet(db, gain);
    back := NoCashOutQuote(t, gain);
    assert 1 in IDS && 1 in db.outcomes && db.outcomes[1].market == MARKET;
    QuotedCashoutPasses(t, db, gain, back);
  }

  lemma QuotedCashoutPasses(t: ExpLog, db: Db, gain: int, back: int)
    requires t.Valid() && back >= HALF && 1 in db.outcomes && db.outcomes[1].market == MARKET
    requires MARKET in db.markets && db.markets[MARKET] == Market(HOUSE, SEED, ALPHA, CAP, Opened, None, 1, IDS)
    requires |db.bets| == 1 && db.bets[0] == Bet(USER, 1, 1, No, gain, ONE, "bet")
    requires Selling(t, Quantities(db.outcomes, IDS), ALPHA, 0, false, Amount(gain), CAP) == Ok(Some(back))
    ensures CashoutCheck(t, db, CASHOUT, 0) == (Committed, back)
  {
    assert IndexOf(IDS, 1) == 0;
  }

  /** The state after the cash-out, as far as cancelling is concerned. */
  ghost predicate IsCashedOut(db: Db, back: int) {
    && HOUSE in db.books.accounts && db.books.accounts[HOUSE].balance == ONE - back
    && MARKET in db.markets && db.markets[MARKET].house == HOUSE && db.markets[MARKET].status == Opened
    && db.markets[MARKET].outcomes == IDS
    && |db.bets| == 1 && db.bets[0].account == USER && db.bets[0].outcome == 1 && db.bets[0].paid == ONE
    && |db.cashouts| == 1 && db.cashouts[0].bet == 0 && db.cashouts[0].payout == back
  }

  lemma CashoutCommits(t: ExpLog, db: Db, gain: int) returns (back: int)
    requires t.Valid() && HasNoBet(db, gain)
    requires MaxShares(t, Even(100.0), ALPHA, 0, false, 1.0) == Ok(gain) && WANTED <= gain && Amount(gain) <= 1.5
    ensures CashOut(t, db, CASHOUT, 0).1.Committed? && IsCashedOut(CashOut(t, db, CASHOUT, 0).0, back) && back > 0
  {
    back := CashoutIsAccepted(t, db, gain);
    RecordedCashout(db, gain, back);
  }

  lemma RecordedCashout(db: Db, gain: int, back: int)
    requires HasNoBet(db, gain) && HALF <= back <= ONE
    ensures 1 in db.outcomes && db.outcomes[1].market == MARKET
    ensures RecordCashout(db, CASHOUT, back).1.Committed? && IsCashedOut(RecordCashout(db, CASHOUT, back).0, back)
  {
    AllNamesDiffer();
    assert 1 in IDS && 1 in db.outcomes && db.outcomes[1].market == MARKET;
    assert !KeyUsed(db.books, "cash");
    assert Refusal(db.books, HOUSE, USER, back, "cash").Posted?;
  }

  lemma CancelFails(db: Db, back: int)
    requires Consistent(db) && IsCashedOut(db, back) && back > 0
    ensures Cancel(db, MARKET, [USER]).1.Failed?
  {
    assert db.bets == [db.bets[0]] && db.cashouts == [db.cashouts[0]];
    assert Claims(db.bets[0], Refund(IDS));
    AppendedBet([], db.bets[0], Refund(IDS));
    assert [] + [db.bets[0]] == db.bets;
    CancelExactly(db, MARKET, [USER]);
  }

  // ----- The run -----

  /**
    A concrete reachable state on which a no bet goes wrong.  The bet is accepted and raises the
    outcomes of another market; its cash-out is accepted and committed with another hedge than the
    one it was priced on; and after it the market, whose house was not funded beforehand, cannot
    be cancelled, because the bet would be refunded on top of the cash-out.
  */
  lemma NoBetGoesWrong(t: ExpLog) returns (events: seq<Event>, db: Db)
    requires t.Valid()
    ensures Reaches(t, events, db) && MARKET in db.markets && OTHER in db.markets
    ensures PlaceBet(t, db, BET, 0).1.Committed?
    ensures Quantities(PlaceBet(t, db, BET, 0).0.outcomes, db.markets[OTHER].outcomes) !=
            Quantities(db.outcomes, db.markets[OTHER].outcomes)
    ensures var (db1, gain) := (PlaceBet(t, db, BET, 0).0, BetCheck(t, db, BET, 0).1);
            && CashOut(t, db1, CASHOUT, 0).1.Committed?
            && Quantities(CashOut(t, db1, CASHOUT, 0).0.outcomes, IDS) !=
               Hedged(Quantities(db1.outcomes, IDS), 0, false, Amount(gain))
            && Cancel(CashOut(t, db1, CASHOUT, 0).0, MARKET, [USER]).1.Failed?
  {
    events, db := ReachReady(t);
    ReachableIsConsistent(t, events);
    AllNamesDiffer();
    var gain := BetCommits(t, db);
    OtherMarketsUntouchedExactlyWhen(t, db, BET, 0, OTHER);
    PlaceBetKeeps(t, db, BET, 0);
    NoCashoutGoesWrong(t, PlaceBet(t, db, BET, 0).0, gain);
    var checked := BetIsAccepted(t, db);
  }

  lemma NoCashoutGoesWrong(t: ExpLog, db: Db, gain: int)
    requires t.Valid() && Consistent(db) && HasNoBet(db, gain)
    requires MaxShares(t, Even(100.0), ALPHA, 0, false, 1.0) == Ok(gain) && WANTED <= gain && Amount(gain) <= 1.5
    ensures CashOut(t, db, CASHOUT, 0).1.Committed?
    ensures Quantities(CashOut(t, db, CASHOUT, 0).0.outcomes, IDS) !=
            Hedged(Quantities(db.outcomes, IDS), 0, false, Amount(gain))
    ensures Cancel(CashOut(t, db, CASHOUT, 0).0, MARKET, [USER]).1.Failed?
  {
    var back := CashoutCommits(t, db, gain);
    HedgeIsAsPricedExactlyWhen(t, db, CASHOUT, 0);
    assert 1 in IDS && db.outcomes[1].market == MARKET && IndexOf(IDS, 1) == 0;
    CashOutKeeps(t, db, CASHOUT, 0);
    CancelFails(CashOut(t, db, CASHOUT, 0).0, back);
  }

  // ----- Settling a no bet -----

  /** Shares on one outcome of a single bet. */
  lemma OneBetShares(db: Db, gain: int, w: nat)
    requires HasNoBet(db, gain)
    ensures SharesOn(db.bets, w) == (if w == 1 then gain else 0)
    ensures LiabilityOf(db, Of(USER), w, IDS) == (if w != 1 then gain else 0)
    ensures LiabilityOf(db, Everyone, w, IDS) == (if w != 1 then gain else 0)
  {
    var b := db.bets[0];
    assert [] + [b] == db.bets && !CashedOut(db.cashouts, 0);
    AppendedBet([], b, Win(w));
    assert 1 in IDS;
    assert LiabilityTo(db.bets, db.cashouts, Everyone, w, IDS, 0) == 0;
    assert LiabilityTo(db.bets, db.cashouts, Of(USER), w, IDS, 0) == 0;
  }

  /**
    A concrete reachable state in which a no bet is settled the wrong way round.  If the outcome bet
    against does not win, the settlement commits and leaves the winning shares unpaid; if it does
    win, nobody is owed anything, and the settlement fails for the money it wants to pay the loser.
  */
  lemma NoBetIsSettledWrongly(t: ExpLog) returns (events: seq<Event>, db: Db)
    requires t.Valid()
    ensures Reaches(t, events, db) && |db.bets| == 1 && db.bets[0].account == USER && db.cashouts == []
    ensures LiabilityOf(db, Of(USER), 2, IDS) == db.bets[0].payout > 0
    ensures Settle(db, MARKET, 2, []).1.Committed?
    ensures BalanceOf(Settle(db, MARKET, 2, []).0.books, USER) == BalanceOf(db.books, USER) == 0
    ensures LiabilityOf(db, Everyone, 1, IDS) == 0
    ensures IsGrouping(db.bets, Win(1), [USER]) && Settle(db, MARKET, 1, [USER]).1.Failed?
  {
    var db0: Db;
    events, db0 := ReachReady(t);
    var gain := BetCommits(t, db0);
    ReachesMore(t, events, db0, EPlaceBet(BET, 0));
    events := events + [EPlaceBet(BET, 0)];
    db := PlaceBet(t, db0, BET, 0).0;
    ReachableIsConsistent(t, events);
    OneBetShares(db, gain, 1);
    OneBetShares(db, gain, 2);
    SettledWrongly(db, gain);
  }

  lemma SettledWrongly(db: Db, gain: int)
    requires Consistent(db) && HasNoBet(db, gain) && gain >= WANTED
    requires SharesOn(db.bets, 1) == gain && SharesOn(db.bets, 2) == 0
    ensures Settle(db, MARKET, 2, []).1.Committed?
    ensures BalanceOf(Settle(db, MARKET, 2, []).0.books, USER) == 0
    ensures IsGrouping(db.bets, Win(1), [USER]) && Settle(db, MARKET, 1, [USER]).1.Failed?
  {
    var b := db.bets[0];
    assert 1 in IDS && 2 in IDS && db.outcomes[1].market == MARKET && db.outcomes[2].market == MARKET;
    assert db.bets == [b];
    LoserIsNotPaid(db, b);
    WinnerIsNotPaid(db, b);
  }

  lemma LoserIsNotPaid(db: Db, b: Bet)
    requires Consistent(db) && MARKET in db.markets && db.markets[MARKET].status.Live() && db.markets[MARKET].house == HOUSE
    requires 1 in db.outcomes && db.outcomes[1].market == MARKET && db.bets == [b] && b.account == USER && b.outcome == 1
    requires BalanceOf(db.books, HOUSE) < SharesOn(db.bets, 1)
    ensures IsGrouping(db.bets, Win(1), [USER]) && Settle(db, MARKET, 1, [USER]).1.Failed?
  {
    assert Claims(db.bets[0], Win(1));
    SettleExactly(db, MARKET, 1, [USER]);
  }

  lemma WinnerIsNotPaid(db: Db, b: Bet)
    requires Consistent(db) && MARKET in db.markets && db.markets[MARKET].status.Live() && db.markets[MARKET].house == HOUSE
    requires 2 in db.outcomes && db.outcomes[2].market == MARKET && db.bets == [b] && b.outcome == 1
    requires SharesOn(db.bets, 2) == 0 && BalanceOf(db.books, HOUSE) >= 0 && BalanceOf(db.books, USER) == 0
    ensures Settle(db, MARKET, 2, []).1.Committed?
    ensures BalanceOf(Settle(db, MARKET, 2, []).0.books, USER) == 0
  {
    AllNamesDiffer();
    assert !Claims(b, Win(2));
    SettleExactly(db, MARKET, 2, []);
    OwedToNobody(db.bets, USER, Win(2));
  }
}
