/**
  What every reachable state of the exchange satisfies, whatever the order of transactions and
  whichever of them fail.
*/
module ExchangeInvariant {
  import opened Transcendental
  import opened Vectors
  import opened Ledger
  import LedgerInvariant
  import opened Options
  import opened Quotes
  import opened Exchange

  // ----- The ledger only grows -----

  /** Same accounts or more, with the same policies, and a longer list of transfers. */
  ghost predicate Grown(b: Books, b': Books) {
    && b.transfers <= b'.transfers
    && (forall a: Uuid :: a in b.accounts ==>
          && a in b'.accounts
          && b'.accounts[a].owner == b.accounts[a].owner
          && b'.accounts[a].currency == b.accounts[a].currency
          && b'.accounts[a].allowNegative == b.accounts[a].allowNegative
          && b'.accounts[a].allowPositive == b.accounts[a].allowPositive)
  }

  lemma GrownTrans(a: Books, b: Books, c: Books)
    requires Grown(a, b) && Grown(b, c)
    ensures Grown(a, c)
  {
  }

  lemma AttemptGrows(b: Books, from: Uuid, to: Uuid, amount: int, key: string)
    requires LedgerInvariant.WellKept(b)
    ensures LedgerInvariant.WellKept(Attempt(b, from, to, amount, key).0)
    ensures Grown(b, Attempt(b, from, to, amount, key).0)
  {
    LedgerInvariant.StepKeepsBooks(b, LedgerInvariant.Try(from, to, amount, key));
  }

  lemma {:induction false} PayInTurnGrows(b: Books, market: Uuid, house: Uuid, bets: seq<Bet>, c: Claim, order: seq<Uuid>)
    requires LedgerInvariant.WellKept(b)
    ensures var p := PayInTurn(b, market, house, bets, c, order);
            p.AllPaid? ==> LedgerInvariant.WellKept(p.books) && Grown(b, p.books)
  {
    if order != [] {
      PayInTurnGrows(b, market, house, bets, c, order[..|order| - 1]);
      var before := PayInTurn(b, market, house, bets, c, order[..|order| - 1]);
      if before.AllPaid? {
        var a := order[|order| - 1];
        AttemptGrows(before.books, house, a, OwedTo(bets, a, c), SettleKey(market, a));
        GrownTrans(b, before.books, Attempt(before.books, house, a, OwedTo(bets, a, c), SettleKey(market, a)).0);
      }
    }
  }

  // ----- Keys of payouts -----

  lemma SettleKeyInjective(m: Uuid, a: Uuid, m': Uuid, a': Uuid)
    requires SettleKey(m, a) == SettleKey(m', a')
    ensures m == m' && a == a'
  {
    var k := SettleKey(m, a);
    assert k[7..43] == m && k[44..] == a;
    assert k[7..43] == m' && k[44..] == a';
  }

  /** A payout key is longer than any client key, so the two never collide. */
  lemma SettleKeyIsNoClientKey(m: Uuid, a: Uuid)
    ensures |SettleKey(m, a)| == 80
    ensures !ClientKey(SettleKey(m, a)) && SettleKey(m, a) != ""
  {
  }

  /** Only finished markets have used their payout keys. */
  ghost predicate PayoutKeysFree(db: Db) {
    forall m: Uuid, a: Uuid :: (m in db.markets ==> !db.markets[m].status.Final()) ==> !KeyUsed(db.books, SettleKey(m, a))
  }

  // ----- Rows -----

  ghost predicate HouseOk(b: Books, house: Uuid) {
    house in b.accounts && b.accounts[house].owner == "" && b.accounts[house].currency == CURRENCY
    && !b.accounts[house].allowNegative && b.accounts[house].allowPositive
  }

  ghost predicate IdsOk(outcomes: map<nat, Outcome>, id: Uuid, ids: seq<nat>) {
    && |ids| > 0
    && (forall i, j :: 0 <= i < j < |ids| ==> ids[i] < ids[j])
    && (forall i :: 0 <= i < |ids| ==> ids[i] in outcomes && outcomes[ids[i]].market == id)
  }

  ghost predicate MarketOk(db: Db, id: Uuid)
    requires id in db.markets
  {
    var m := db.markets[id];
    && HouseOk(db.books, m.house)
    && IdsOk(db.outcomes, id, m.outcomes)
    && m.alpha > 0.0 && m.seed > 0
    && (m.status.Resolved? <==> id in db.resolutions)
    && (m.status.Cancelled? <==> id in db.cancellations)
  }

  ghost predicate OutcomeOk(db: Db, o: nat)
    requires o in db.outcomes
  {
    && db.outcomes[o].market in db.markets
    && o in db.markets[db.outcomes[o].market].outcomes
    && db.outcomes[o].quantity >= 0
  }

  function HouseOf(db: Db, o: nat): Uuid
    requires o in db.outcomes && OutcomeOk(db, o)
  {
    db.markets[db.outcomes[o].market].house
  }

  /** A bet row: a positive number of shares, paid for by exactly the transfer it names. */
  ghost predicate BetOk(db: Db, b: Bet) {
    && b.outcome in db.outcomes && OutcomeOk(db, b.outcome)
    && b.payout > 0 && b.paid > 0 && ClientKey(b.key)
    && b.account in db.books.accounts && db.books.accounts[b.account].owner != ""
    && db.books.accounts[b.account].currency == CURRENCY && db.books.accounts[b.account].allowPositive
    && b.transfer < |db.books.transfers|
    && db.books.transfers[b.transfer] == Transfer(b.account, HouseOf(db, b.outcome), b.paid, b.key)
  }

  ghost predicate CashoutOk(db: Db, c: Cashout) {
    && c.bet < |db.bets| && BetOk(db, db.bets[c.bet])
    && c.payout > 0 && ClientKey(c.key)
    && c.transfer < |db.books.transfers|
    && db.books.transfers[c.transfer] ==
       Transfer(HouseOf(db, db.bets[c.bet].outcome), db.bets[c.bet].account, c.payout, c.key)
  }

  ghost predicate DistinctHouses(markets: map<Uuid, Market>) {
    forall m: Uuid, n: Uuid :: m in markets && n in markets && m != n ==> markets[m].house != markets[n].house
  }

  ghost predicate CashedOnce(cashouts: seq<Cashout>) {
    forall i, j :: 0 <= i < j < |cashouts| ==> cashouts[i].bet != cashouts[j].bet
  }

  ghost predicate MarketRows(db: Db) {
    && (forall m: Uuid :: m in db.markets ==> MarketOk(db, m))
    && DistinctHouses(db.markets)
    && (forall m: Uuid :: m in db.resolutions ==> m in db.markets)
    && (forall m: Uuid :: m in db.cancellations ==> m in db.markets)
  }

  ghost predicate OutcomeRows(db: Db) {
    forall o :: o in db.outcomes ==> OutcomeOk(db, o)
  }

  ghost predicate BetRows(db: Db) {
    forall i :: 0 <= i < |db.bets| ==> BetOk(db, db.bets[i])
  }

  ghost predicate CashoutRows(db: Db) {
    && (forall j :: 0 <= j < |db.cashouts| ==> CashoutOk(db, db.cashouts[j]))
    && CashedOnce(db.cashouts)
  }

  ghost predicate Consistent(db: Db) {
    && LedgerInvariant.WellKept(db.books)
    && PayoutKeysFree(db)
    && MarketRows(db)
    && OutcomeRows(db)
    && BetRows(db)
    && CashoutRows(db)
  }

  // ----- Each step keeps it -----

  /** Markets keep their identity; only status and version may move. */
  ghost predicate SameMarkets(markets: map<Uuid, Market>, markets': map<Uuid, Market>) {
    && markets.Keys == markets'.Keys
    && forall m: Uuid :: m in markets ==>
         markets'[m] == markets[m].(status := markets'[m].status, version := markets'[m].version)
  }

  ghost predicate SameOutcomes(outcomes: map<nat, Outcome>, outcomes': map<nat, Outcome>) {
    && outcomes.Keys == outcomes'.Keys
    && forall o :: o in outcomes ==> outcomes'[o].market == outcomes[o].market && outcomes'[o].quantity >= outcomes[o].quantity
  }

  /** Steps on existing markets extend the ledger and the bets and move quantities up. */
  ghost predicate Extends(db: Db, db': Db) {
    && Grown(db.books, db'.books)
    && SameMarkets(db.markets, db'.markets)
    && SameOutcomes(db.outcomes, db'.outcomes)
    && db.bets <= db'.bets
  }

  lemma OutcomeStays(db: Db, db': Db, o: nat)
    requires Extends(db, db') && o in db.outcomes && OutcomeOk(db, o)
    ensures OutcomeOk(db', o) && HouseOf(db', o) == HouseOf(db, o)
  {
  }

  lemma BetStays(db: Db, db': Db, b: Bet)
    requires Extends(db, db') && BetOk(db, b)
    ensures BetOk(db', b)
  {
    OutcomeStays(db, db', b.outcome);
  }

  lemma CashoutStays(db: Db, db': Db, c: Cashout)
    requires Extends(db, db') && CashoutOk(db, c)
    ensures CashoutOk(db', c)
  {
    BetStays(db, db', db.bets[c.bet]);
    OutcomeStays(db, db', db.bets[c.bet].outcome);
  }

  lemma RowsStay(db: Db, db': Db)
    requires Extends(db, db') && OutcomeRows(db) && BetRows(db) && CashoutRows(db)
    ensures OutcomeRows(db')
    ensures forall i :: 0 <= i < |db.bets| ==> BetOk(db', db'.bets[i])
    ensures forall j :: 0 <= j < |db.cashouts| ==> CashoutOk(db', db.cashouts[j])
  {
    forall o | o in db'.outcomes ensures OutcomeOk(db', o) {
      OutcomeStays(db, db', o);
    }
    forall i | 0 <= i < |db.bets| ensures BetOk(db', db'.bets[i]) {
      BetStays(db, db', db.bets[i]);
    }
    forall j | 0 <= j < |db.cashouts| ensures CashoutOk(db', db.cashouts[j]) {
      CashoutStays(db, db', db.cashouts[j]);
    }
  }

  lemma IdsStay(outcomes: map<nat, Outcome>, outcomes': map<nat, Outcome>, id: Uuid, ids: seq<nat>)
    requires IdsOk(outcomes, id, ids) && SameOutcomes(outcomes, outcomes')
    ensures IdsOk(outcomes', id, ids)
  {
  }

  /** A market row stays good when its status and the settlement tables still agree. */
  lemma MarketStays(db: Db, db': Db, id: Uuid)
    requires Extends(db, db') && id in db.markets && MarketOk(db, id)
    requires db'.markets[id].status.Resolved? <==> id in db'.resolutions
    requires db'.markets[id].status.Cancelled? <==> id in db'.cancellations
    ensures MarketOk(db', id)
  {
    IdsStay(db.outcomes, db'.outcomes, id, db.markets[id].outcomes);
  }

  lemma HousesStayDistinct(markets: map<Uuid, Market>, markets': map<Uuid, Market>)
    requires SameMarkets(markets, markets') && DistinctHouses(markets)
    ensures DistinctHouses(markets')
  {
    forall m: Uuid, n: Uuid | m in markets' && n in markets' && m != n
      ensures markets'[m].house != markets'[n].house
    {
      assert markets'[m].house == markets[m].house && markets'[n].house == markets[n].house;
    }
  }

  /** Steps that leave statuses and settlement tables alone keep the market rows. */
  lemma MarketRowsStay(db: Db, db': Db)
    requires Extends(db, db') && MarketRows(db)
    requires forall m: Uuid :: m in db.markets ==> db'.markets[m].status == db.markets[m].status
    requires db'.resolutions == db.resolutions && db'.cancellations == db.cancellations
    ensures MarketRows(db')
  {
    HousesStayDistinct(db.markets, db'.markets);
    forall m: Uuid | m in db'.markets ensures MarketOk(db', m) {
      MarketStays(db, db', m);
    }
  }

  /** After one transfer under a client key, payout keys are as free as before. */
  lemma ClientPostKeepsKeys(db: Db, db': Db, from: Uuid, to: Uuid, amount: int, key: string)
    requires PayoutKeysFree(db) && ClientKey(key)
    requires db'.books == Attempt(db.books, from, to, amount, key).0
    requires forall m: Uuid :: m in db.markets && db.markets[m].status.Final() ==>
               m in db'.markets && db'.markets[m].status.Final()
    ensures PayoutKeysFree(db')
  {
    forall m: Uuid, a: Uuid | m in db'.markets ==> !db'.markets[m].status.Final()
      ensures !KeyUsed(db'.books, SettleKey(m, a))
    {
      assert !KeyUsed(db.books, SettleKey(m, a));
      SettleKeyIsNoClientKey(m, a);
    }
  }

  lemma OpenAccountKeeps(db: Db, id: Uuid, owner: string, neg: bool, pos: bool)
    requires Consistent(db)
    ensures Consistent(OpenAccount(db, id, owner, neg, pos).0)
  {
    var (db', reply) := OpenAccount(db, id, owner, neg, pos);
    if reply.Committed? {
      LedgerInvariant.StepKeepsBooks(db.books, LedgerInvariant.Open(id, owner, CURRENCY, neg, pos));
      RowsStay(db, db');
      MarketRowsStay(db, db');
      KeysFreeUnchanged(db, db');
    }
  }

  lemma KeysFreeUnchanged(db: Db, db': Db)
    requires PayoutKeysFree(db) && db'.books.transfers == db.books.transfers
    requires forall m: Uuid :: m in db.markets && db.markets[m].status.Final() ==>
               m in db'.markets && db'.markets[m].status.Final()
    ensures PayoutKeysFree(db')
  {
    forall m: Uuid, a: Uuid | m in db'.markets ==> !db'.markets[m].status.Final()
      ensures !KeyUsed(db'.books, SettleKey(m, a))
    {
      assert !KeyUsed(db.books, SettleKey(m, a));
    }
  }

  lemma FundKeeps(db: Db, from: Uuid, to: Uuid, amount: int, key: string)
    requires Consistent(db)
    ensures Consistent(Fund(db, from, to, amount, key).0)
  {
    var (db', reply) := Fund(db, from, to, amount, key);
    if reply.Committed? {
      AttemptGrows(db.books, from, to, amount, key);
      RowsStay(db, db');
      MarketRowsStay(db, db');
      ClientPostKeepsKeys(db, db', from, to, amount, key);
    }
  }

  lemma AddSharesExtends(outcomes: map<nat, Outcome>, o: nat, side: Side, gain: int)
    requires gain >= 0
    ensures SameOutcomes(outcomes, AddShares(outcomes, o, side, gain))
  {
  }

  lemma AddHedgeExtends(outcomes: map<nat, Outcome>, market: Uuid, o: nat, shares: int)
    requires shares >= 0
    ensures SameOutcomes(outcomes, AddHedge(outcomes, market, o, shares))
  {
  }

  /** db' is db with one more bet, paid for and added to the quantities. */
  ghost predicate BetPlaced(db: Db, db': Db, r: BetRequest, gain: int) {
    && r.market in db.markets && ClientKey(r.key) && r.account in db.books.accounts
    && var m := db.markets[r.market];
       && gain >= r.minGain > r.amount > 0
       && r.outcome in m.outcomes && m.status.Opened?
       && db.books.accounts[r.account].owner == r.user != ""
       && db.books.accounts[r.account].balance >= r.amount
       && Refusal(db.books, r.account, m.house, r.amount, r.key).Posted?
       && db'.books == Post(db.books, r.account, m.house, r.amount, r.key)
       && db'.bets == db.bets + [Bet(r.account, |db.books.transfers|, r.outcome, r.side, gain, r.amount, r.key)]
       && db'.outcomes == AddShares(db.outcomes, r.outcome, r.side, gain)
       && db'.markets == db.markets[r.market := m.(version := m.version + 1)]
       && db'.cashouts == db.cashouts && db'.resolutions == db.resolutions && db'.cancellations == db.cancellations
  }

  lemma PlaceBetEffect(t: ExpLog, db: Db, r: BetRequest, now: int)
    requires t.Valid() && PlaceBet(t, db, r, now).1.Committed?
    ensures BetPlaced(db, PlaceBet(t, db, r, now).0, r, BetCheck(t, db, r, now).1)
  {
  }

  lemma BetPlacedExtends(db: Db, db': Db, r: BetRequest, gain: int)
    requires LedgerInvariant.WellKept(db.books) && BetPlaced(db, db', r, gain)
    ensures LedgerInvariant.WellKept(db'.books) && Extends(db, db')
    ensures db'.books == Attempt(db.books, r.account, db.markets[r.market].house, r.amount, r.key).0
    ensures db.books.accounts[r.account].allowPositive
  {
    AttemptGrows(db.books, r.account, db.markets[r.market].house, r.amount, r.key);
    AddSharesExtends(db.outcomes, r.outcome, r.side, gain);
    assert AllowsBalance(db.books.accounts[r.account]);
  }

  lemma OutcomeOfMarket(db: Db, m: Uuid, o: nat)
    requires m in db.markets && IdsOk(db.outcomes, m, db.markets[m].outcomes) && o in db.markets[m].outcomes
    ensures o in db.outcomes && db.outcomes[o].market == m
  {
    var i :| 0 <= i < |db.markets[m].outcomes| && db.markets[m].outcomes[i] == o;
    assert db.outcomes[db.markets[m].outcomes[i]].market == m;
  }

  lemma NewBetIsGood(db: Db, db': Db, r: BetRequest, gain: int)
    requires BetPlaced(db, db', r, gain) && Extends(db, db')
    requires MarketRows(db) && OutcomeRows(db)
    requires db.books.accounts[r.account].allowPositive
    ensures BetOk(db', db'.bets[|db.bets|])
  {
    assert MarketOk(db, r.market);
    OutcomeOfMarket(db, r.market, r.outcome);
    assert OutcomeOk(db, r.outcome);
    OutcomeStays(db, db', r.outcome);
  }

  lemma BetPlacedKeepsRows(db: Db, db': Db, r: BetRequest, gain: int)
    requires BetPlaced(db, db', r, gain) && Extends(db, db')
    requires MarketRows(db) && OutcomeRows(db) && BetRows(db) && CashoutRows(db)
    requires db.books.accounts[r.account].allowPositive
    ensures MarketRows(db') && OutcomeRows(db') && BetRows(db') && CashoutRows(db')
  {
    RowsStay(db, db');
    MarketRowsStay(db, db');
    NewBetIsGood(db, db', r, gain);
    AppendBet(db', |db.bets|);
  }

  lemma AppendBet(db': Db, n: nat)
    requires |db'.bets| == n + 1 && BetOk(db', db'.bets[n])
    requires forall i :: 0 <= i < n ==> BetOk(db', db'.bets[i])
    ensures BetRows(db')
  {
  }

  lemma BetPlacedKeeps(db: Db, db': Db, r: BetRequest, gain: int)
    requires Consistent(db) && BetPlaced(db, db', r, gain)
    ensures Consistent(db')
  {
    BetPlacedExtends(db, db', r, gain);
    BetPlacedKeepsRows(db, db', r, gain);
    ClientPostKeepsKeys(db, db', r.account, db.markets[r.market].house, r.amount, r.key);
  }

  lemma PlaceBetKeeps(t: ExpLog, db: Db, r: BetRequest, now: int)
    requires t.Valid() && Consistent(db)
    ensures Consistent(PlaceBet(t, db, r, now).0)
  {
    var (db', reply) := PlaceBet(t, db, r, now);
    if reply.Committed? {
      PlaceBetEffect(t, db, r, now);
      BetPlacedKeeps(db, db', r, BetCheck(t, db, r, now).1);
    }
  }

  /** A bet is only accepted for more shares than the money it costs. */
  lemma BetGainPositive(t: ExpLog, db: Db, r: BetRequest, now: int)
    requires t.Valid() && BetCheck(t, db, r, now).0.Committed?
    ensures BetCheck(t, db, r, now).1 >= r.minGain > r.amount > 0
  {
  }

  /** db' is db with one more cash-out, paid by the house and hedged. */
  ghost predicate BetCashed(db: Db, db': Db, r: CashoutRequest, gain: int) {
    && r.bet < |db.bets| && db.bets[r.bet].outcome in db.outcomes && ClientKey(r.key)
    && db.outcomes[db.bets[r.bet].outcome].market in db.markets
    && var b := db.bets[r.bet];
       var home := db.outcomes[b.outcome].market;
       var m := db.markets[home];
       && gain > 0 && b.outcome in m.outcomes && m.status.Opened? && !CashedOut(db.cashouts, r.bet)
       && Refusal(db.books, m.house, b.account, gain, r.key).Posted?
       && db'.books == Post(db.books, m.house, b.account, gain, r.key)
       && db'.cashouts == db.cashouts + [Cashout(r.bet, |db.books.transfers|, gain, r.key)]
       && db'.outcomes == AddHedge(db.outcomes, home, b.outcome, b.payout)
       && db'.markets == db.markets[home := m.(version := m.version + 1)]
       && db'.bets == db.bets && db'.resolutions == db.resolutions && db'.cancellations == db.cancellations
  }

  lemma CashOutEffect(t: ExpLog, db: Db, r: CashoutRequest, now: int)
    requires t.Valid() && CashOut(t, db, r, now).1.Committed?
    ensures BetCashed(db, CashOut(t, db, r, now).0, r, CashoutCheck(t, db, r, now).1)
  {
  }

  lemma BetCashedExtends(db: Db, db': Db, r: CashoutRequest, gain: int)
    requires LedgerInvariant.WellKept(db.books) && BetCashed(db, db', r, gain) && BetOk(db, db.bets[r.bet])
    ensures LedgerInvariant.WellKept(db'.books) && Extends(db, db')
    ensures var b := db.bets[r.bet];
            db'.books == Attempt(db.books, HouseOf(db, b.outcome), b.account, gain, r.key).0
  {
    var b := db.bets[r.bet];
    AttemptGrows(db.books, HouseOf(db, b.outcome), b.account, gain, r.key);
    AddHedgeExtends(db.outcomes, db.outcomes[b.outcome].market, b.outcome, b.payout);
  }

  lemma BetCashedKeepsRows(db: Db, db': Db, r: CashoutRequest, gain: int)
    requires BetCashed(db, db', r, gain) && Extends(db, db')
    requires MarketRows(db) && OutcomeRows(db) && BetRows(db) && CashoutRows(db)
    ensures MarketRows(db') && OutcomeRows(db') && BetRows(db') && CashoutRows(db')
  {
    RowsStay(db, db');
    MarketRowsStay(db, db');
    BetCashedKeepsCashouts(db, db', r, gain);
  }

  lemma BetCashedKeepsCashouts(db: Db, db': Db, r: CashoutRequest, gain: int)
    requires BetCashed(db, db', r, gain) && Extends(db, db') && BetRows(db) && CashedOnce(db.cashouts)
    requires forall j :: 0 <= j < |db.cashouts| ==> CashoutOk(db', db.cashouts[j])
    ensures CashoutRows(db')
  {
    assert BetOk(db, db.bets[r.bet]);
    var c := Cashout(r.bet, |db.books.transfers|, gain, r.key);
    CashoutNamesItsTransfer(db, db', r, gain);
    NewCashoutIsGood(db, db', c);
    AppendCashout(db', db.cashouts, c);
  }

  lemma CashoutNamesItsTransfer(db: Db, db': Db, r: CashoutRequest, gain: int)
    requires BetCashed(db, db', r, gain) && BetOk(db, db.bets[r.bet])
    ensures |db'.books.transfers| == |db.books.transfers| + 1
    ensures var b := db.bets[r.bet];
            db'.books.transfers[|db.books.transfers|] == Transfer(HouseOf(db, b.outcome), b.account, gain, r.key)
  {
  }

  lemma AppendCashout(db': Db, before: seq<Cashout>, c: Cashout)
    requires db'.cashouts == before + [c] && CashedOnce(before) && !CashedOut(before, c.bet)
    requires forall j :: 0 <= j < |before| ==> CashoutOk(db', before[j])
    requires CashoutOk(db', c)
    ensures CashoutRows(db')
  {
  }

  lemma BetCashedKeeps(db: Db, db': Db, r: CashoutRequest, gain: int)
    requires Consistent(db) && BetCashed(db, db', r, gain)
    ensures Consistent(db')
  {
    var b := db.bets[r.bet];
    assert BetOk(db, b);
    BetCashedExtends(db, db', r, gain);
    BetCashedKeepsRows(db, db', r, gain);
    ClientPostKeepsKeys(db, db', HouseOf(db, b.outcome), b.account, gain, r.key);
  }

  lemma CashOutKeeps(t: ExpLog, db: Db, r: CashoutRequest, now: int)
    requires t.Valid() && Consistent(db)
    ensures Consistent(CashOut(t, db, r, now).0)
  {
    var (db', reply) := CashOut(t, db, r, now);
    if reply.Committed? {
      CashOutEffect(t, db, r, now);
      BetCashedKeeps(db, db', r, CashoutCheck(t, db, r, now).1);
    }
  }

  lemma NewCashoutIsGood(db: Db, db': Db, c: Cashout)
    requires Extends(db, db') && c.bet < |db.bets| && BetOk(db, db.bets[c.bet])
    requires c.payout > 0 && ClientKey(c.key) && c.transfer < |db'.books.transfers|
    requires db'.books.transfers[c.transfer] ==
             Transfer(HouseOf(db, db.bets[c.bet].outcome), db.bets[c.bet].account, c.payout, c.key)
    ensures CashoutOk(db', c)
  {
    BetStays(db, db', db.bets[c.bet]);
    OutcomeStays(db, db', db.bets[c.bet].outcome);
  }

  lemma {:induction false} PayoutsUseOwnKeys(b: Books, market: Uuid, house: Uuid, bets: seq<Bet>, c: Claim,
                                             order: seq<Uuid>, m: Uuid, a: Uuid)
    requires !KeyUsed(b, SettleKey(m, a)) && (m != market || a !in order)
    ensures var p := PayInTurn(b, market, house, bets, c, order);
            p.AllPaid? ==> !KeyUsed(p.books, SettleKey(m, a))
  {
    if order != [] {
      PayoutsUseOwnKeys(b, market, house, bets, c, order[..|order| - 1], m, a);
      var p := order[|order| - 1];
      if SettleKey(market, p) == SettleKey(m, a) {
        SettleKeyInjective(market, p, m, a);
      }
    }
  }

  /** After a payout, exactly the paid market is newly final, and only its keys are newly used. */
  ghost predicate PaidOut(db: Db, db': Db, market: Uuid, c: Claim, order: seq<Uuid>) {
    && market in db.markets && db.markets[market].status.Live()
    && PayInTurn(db.books, market, db.markets[market].house, db.bets, c, order) == AllPaid(db'.books)
    && SameMarkets(db.markets, db'.markets)
    && (forall m: Uuid :: m in db.markets && m != market ==> db'.markets[m] == db.markets[m])
    && db'.outcomes == db.outcomes && db'.bets == db.bets && db'.cashouts == db.cashouts
    && ((db'.markets[market].status == Resolved && db'.cancellations == db.cancellations
         && db'.resolutions.Keys == db.resolutions.Keys + {market}) ||
        (db'.markets[market].status == Cancelled && db'.resolutions == db.resolutions
         && db'.cancellations == db.cancellations + {market}))
  }

  lemma PayoutKeepsKeys(db: Db, db': Db, market: Uuid, c: Claim, order: seq<Uuid>)
    requires PayoutKeysFree(db) && PaidOut(db, db', market, c, order)
    ensures PayoutKeysFree(db')
  {
    forall m: Uuid, a: Uuid | m in db'.markets ==> !db'.markets[m].status.Final()
      ensures !KeyUsed(db'.books, SettleKey(m, a))
    {
      assert m != market;
      assert !KeyUsed(db.books, SettleKey(m, a));
      PayoutsUseOwnKeys(db.books, market, db.markets[market].house, db.bets, c, order, m, a);
    }
  }

  lemma PayoutKeepsMarkets(db: Db, db': Db, market: Uuid, c: Claim, order: seq<Uuid>)
    requires MarketRows(db) && PaidOut(db, db', market, c, order) && Extends(db, db')
    ensures MarketRows(db')
  {
    HousesStayDistinct(db.markets, db'.markets);
    forall m: Uuid | m in db'.markets ensures MarketOk(db', m) {
      assert MarketOk(db, m);
      MarketStays(db, db', m);
    }
  }

  lemma PaidOutKeeps(db: Db, db': Db, market: Uuid, c: Claim, order: seq<Uuid>)
    requires Consistent(db) && PaidOut(db, db', market, c, order)
    ensures Consistent(db')
  {
    PayInTurnGrows(db.books, market, db.markets[market].house, db.bets, c, order);
    assert Extends(db, db');
    RowsStay(db, db');
    PayoutKeepsMarkets(db, db', market, c, order);
    PayoutKeepsKeys(db, db', market, c, order);
  }

  lemma SettleEffect(db: Db, market: Uuid, winner: nat, order: seq<Uuid>)
    requires Settle(db, market, winner, order).1.Committed?
    ensures PaidOut(db, Settle(db, market, winner, order).0, market, Win(winner), order)
    ensures winner in db.outcomes && db.outcomes[winner].market == market
  {
  }

  lemma SettleKeeps(db: Db, market: Uuid, winner: nat, order: seq<Uuid>)
    requires Consistent(db)
    ensures Consistent(Settle(db, market, winner, order).0)
  {
    var (db', reply) := Settle(db, market, winner, order);
    if reply.Committed? {
      SettleEffect(db, market, winner, order);
      PaidOutKeeps(db, db', market, Win(winner), order);
    }
  }

  lemma CancelEffect(db: Db, market: Uuid, order: seq<Uuid>)
    requires Cancel(db, market, order).1.Committed?
    ensures market in db.markets
    ensures PaidOut(db, Cancel(db, market, order).0, market, Refund(db.markets[market].outcomes), order)
  {
  }

  lemma CancelKeeps(db: Db, market: Uuid, order: seq<Uuid>)
    requires Consistent(db)
    ensures Consistent(Cancel(db, market, order).0)
  {
    var (db', reply) := Cancel(db, market, order);
    if reply.Committed? {
      CancelEffect(db, market, order);
      PaidOutKeeps(db, db', market, Refund(db.markets[market].outcomes), order);
    }
  }

  lemma SetStatusKeeps(db: Db, market: Uuid, status: Status)
    requires Consistent(db) && status.Live()
    ensures Consistent(SetStatus(db, market, status).0)
  {
    var (db', reply) := SetStatus(db, market, status);
    if reply.Committed? {
      assert SameMarkets(db.markets, db'.markets);
      assert forall m: Uuid :: m in db.markets ==> (db'.markets[m].status.Final() <==> db.markets[m].status.Final());
      StatusChangeKeeps(db, db');
    }
  }

  lemma StatusChangeKeeps(db: Db, db': Db)
    requires Consistent(db) && db' == db.(markets := db'.markets) && SameMarkets(db.markets, db'.markets)
    requires forall m: Uuid :: m in db.markets ==>
               db'.markets[m].status == db.markets[m].status ||
               (!db.markets[m].status.Final() && !db'.markets[m].status.Final())
    ensures Consistent(db')
  {
    assert Extends(db, db');
    RowsStay(db, db');
    HousesStayDistinct(db.markets, db'.markets);
    forall m: Uuid | m in db'.markets ensures MarketOk(db', m) {
      assert MarketOk(db, m);
      MarketStays(db, db', m);
    }
    KeysFreeUnchanged(db, db');
  }

  lemma CreateMarketKeeps(db: Db, id: Uuid, house: Uuid, seed: int, alpha: real, cap: real,
                          closeTime: Option<int>, ids: seq<nat>)
    requires Consistent(db)
    ensures Consistent(CreateMarket(db, id, house, seed, alpha, cap, closeTime, ids).0)
  {
    var (db', reply) := CreateMarket(db, id, house, seed, alpha, cap, closeTime, ids);
    if reply.Committed? {
      LedgerInvariant.StepKeepsBooks(db.books, LedgerInvariant.Open(house, "", CURRENCY, false, true));
      SeedIsPositive(ids, id, seed, alpha);
      NewMarketRows(db, db', id);
      KeysFreeUnchanged(db, db');
    }
  }

  lemma SeedIsPositive(ids: seq<nat>, id: Uuid, seed: int, alpha: real)
    requires seed >= 0 && Objection(Quantities(Seeded(ids, id, seed), ids), alpha).None?
    ensures seed > 0 && |ids| > 0 && alpha > 0.0
  {
    var q := Quantities(Seeded(ids, id, seed), ids);
    if seed == 0 {
      SumOfConstant(q, 0.0, |q|);
    }
  }

  /** The database with one more market, its house account and its outcome rows. */
  ghost predicate WithMarket(db: Db, db': Db, id: Uuid) {
    && id !in db.markets && id in db'.markets
    && var m := db'.markets[id];
       && FreshRows(db, id, m.house, m.outcomes) && |m.outcomes| > 0
       && m.alpha > 0.0 && m.seed > 0 && m.status.Draft?
       && db'.outcomes == db.outcomes + Seeded(m.outcomes, id, m.seed)
       && db'.markets == db.markets[id := m]
       && db'.books == db.books.(accounts := db.books.accounts[m.house := Account("", 0, CURRENCY, false, true, 0)])
       && db'.bets == db.bets && db'.cashouts == db.cashouts
       && db'.resolutions == db.resolutions && db'.cancellations == db.cancellations
  }

  lemma OutcomeBesideNewMarket(db: Db, db': Db, id: Uuid, o: nat)
    requires WithMarket(db, db', id) && o in db.outcomes && OutcomeOk(db, o)
    ensures o in db'.outcomes && OutcomeOk(db', o) && HouseOf(db', o) == HouseOf(db, o)
  {
  }

  lemma BetBesideNewMarket(db: Db, db': Db, id: Uuid, b: Bet)
    requires WithMarket(db, db', id) && BetOk(db, b)
    ensures BetOk(db', b)
  {
    OutcomeBesideNewMarket(db, db', id, b.outcome);
  }

  lemma MarketBesideNewMarket(db: Db, db': Db, id: Uuid, m: Uuid)
    requires WithMarket(db, db', id) && MarketRows(db) && m in db'.markets
    ensures MarketOk(db', m)
    ensures m != id ==> db'.markets[m].house != db'.markets[id].house
  {
    if m == id {
      assert IdsOk(db'.outcomes, id, db'.markets[id].outcomes);
    } else {
      assert MarketOk(db, m);
      assert IdsOk(db.outcomes, m, db.markets[m].outcomes);
      assert IdsOk(db'.outcomes, m, db.markets[m].outcomes);
    }
  }

  lemma NewMarketRows(db: Db, db': Db, id: Uuid)
    requires WithMarket(db, db', id) && MarketRows(db) && OutcomeRows(db) && BetRows(db) && CashoutRows(db)
    ensures MarketRows(db') && OutcomeRows(db') && BetRows(db') && CashoutRows(db')
  {
    forall m: Uuid | m in db'.markets
      ensures MarketOk(db', m) && (m != id ==> db'.markets[m].house != db'.markets[id].house)
    {
      MarketBesideNewMarket(db, db', id, m);
    }
    forall o | o in db'.outcomes ensures OutcomeOk(db', o) {
      if o in db.outcomes {
        OutcomeBesideNewMarket(db, db', id, o);
      }
    }
    forall i | 0 <= i < |db.bets| ensures BetOk(db', db.bets[i]) {
      BetBesideNewMarket(db, db', id, db.bets[i]);
    }
    forall j | 0 <= j < |db.cashouts| ensures CashoutOk(db', db.cashouts[j]) {
      assert CashoutOk(db, db.cashouts[j]);
      BetBesideNewMarket(db, db', id, db.bets[db.cashouts[j].bet]);
      OutcomeBesideNewMarket(db, db', id, db.bets[db.cashouts[j].bet].outcome);
    }
  }

  lemma StepKeeps(t: ExpLog, db: Db, e: Event)
    requires t.Valid() && Consistent(db) && Possible(db, e)
    ensures Consistent(Step(t, db, e).0)
  {
    match e
    case EOpenAccount(id, owner, neg, pos) => OpenAccountKeeps(db, id, owner, neg, pos);
    case EFund(from, to, amount, key) => FundKeeps(db, from, to, amount, key);
    case ECreateMarket(id, house, seed, alpha, cap, closeTime, ids) =>
      CreateMarketKeeps(db, id, house, seed, alpha, cap, closeTime, ids);
    case EPlaceBet(bet, now) => PlaceBetKeeps(t, db, bet, now);
    case ECashOut(cashout, now) => CashOutKeeps(t, db, cashout, now);
    case ESetStatus(market, status) => SetStatusKeeps(db, market, status);
    case ESettle(market, winner, order) => SettleKeeps(db, market, winner, order);
    case ECancel(market, order) => CancelKeeps(db, market, order);
  }

  lemma {:induction false} RunKeeps(t: ExpLog, db: Db, events: seq<Event>)
    requires t.Valid() && Consistent(db) && PossibleRun(t, db, events)
    ensures Consistent(Run(t, db, events))
  {
    if events != [] {
      RunKeeps(t, db, events[..|events| - 1]);
      StepKeeps(t, Run(t, db, events[..|events| - 1]), events[|events| - 1]);
    }
  }

  lemma EmptyIsConsistent()
    ensures Consistent(EMPTY_DB)
  {
  }

  /** Every state reached from the empty database is consistent. */
  lemma ReachableIsConsistent(t: ExpLog, events: seq<Event>)
    requires t.Valid() && PossibleRun(t, EMPTY_DB, events)
    ensures Consistent(Run(t, EMPTY_DB, events))
  {
    EmptyIsConsistent();
    RunKeeps(t, EMPTY_DB, events);
  }
}
