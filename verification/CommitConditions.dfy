/**
  Exactly when each transaction commits, in terms of the tables and of the amounts themselves, and
  what a committed one leaves behind.
*/
module CommitConditions {
  import opened Transcendental
  import opened Pricing
  import MarketMaker
  import opened Options
  import opened Outcomes
  import opened Ledger
  import opened Amounts
  import opened Quotes
  import opened Exchange
  import opened ExchangeInvariant
  import opened Solvency
  import opened Settlement
  import Cancellation
  import Lifecycle
  import Vectors

  // ----- Transfers -----

  /** An account allows a balance of this sign. */
  predicate Allows(a: Account, balance: int) {
    (balance < 0 ==> a.allowNegative) && (balance > 0 ==> a.allowPositive)
  }

  ghost predicate FreshKey(transfers: seq<Transfer>, key: string) {
    forall i :: 0 <= i < |transfers| ==> transfers[i].key != key
  }

  /** A transfer is posted exactly when a positive amount goes between two different accounts of one
      currency, under a new key, and both allow the balances it leaves. */
  lemma TransferPostsExactlyWhen(b: Books, from: Uuid, to: Uuid, amount: int, key: string)
    ensures Attempt(b, from, to, amount, key).1.Posted? <==>
            && amount > 0 && from != to && key != "" && FreshKey(b.transfers, key)
            && from in b.accounts && to in b.accounts && b.accounts[from].currency == b.accounts[to].currency
            && Allows(b.accounts[from], b.accounts[from].balance - amount)
            && Allows(b.accounts[to], b.accounts[to].balance + amount)
    ensures Attempt(b, from, to, amount, key).1.Posted? ==>
              var b' := Attempt(b, from, to, amount, key).0;
              && b'.transfers == b.transfers + [Transfer(from, to, amount, key)]
              && b'.accounts.Keys == b.accounts.Keys
              && b'.accounts[from].balance == b.accounts[from].balance - amount
              && b'.accounts[to].balance == b.accounts[to].balance + amount
              && forall a: Uuid :: a in b.accounts && a != from && a != to ==> b'.accounts[a] == b.accounts[a]
    ensures Attempt(b, from, to, amount, key).1.Refused? ==> Attempt(b, from, to, amount, key).0 == b
  {
    if KeyUsed(b, key) {
      var i :| 0 <= i < |b.transfers| && b.transfers[i].key == key;
    }
  }

  // ----- Bets -----

  /** The market takes trades now. */
  predicate OpenAt(m: Market, now: int) {
    m.status == Opened && (m.closeTime == None || m.closeTime.value > now)
  }

  /** The bet fits the tables. */
  ghost predicate BetFits(db: Db, r: BetRequest, now: int) {
    && 1 <= |r.key| <= 36 && FreshKey(db.books.transfers, r.key)
    && 100_000_000_000 <= r.amount <= 10_000_000_000_000_000 && r.minGain > r.amount
    && r.market in db.markets && OpenAt(db.markets[r.market], now)
    && r.outcome in db.markets[r.market].outcomes && !(|db.markets[r.market].outcomes| == 2 && r.side == No)
    && r.account in db.books.accounts
    && var a := db.books.accounts[r.account];
       && r.user != "" && a.owner == r.user && a.currency == "USDT" && a.balance >= r.amount
       && (a.balance > r.amount ==> a.allowPositive)
  }

  /** The share count the engine finds for the amount, at the market's quantities. */
  function SharesSold(t: ExpLog, db: Db, r: BetRequest): Result<int>
    requires t.Valid() && r.market in db.markets && r.outcome in db.markets[r.market].outcomes
  {
    var m := db.markets[r.market];
    MaxShares(t, Quantities(db.outcomes, m.outcomes), m.alpha, IndexOf(m.outcomes, r.outcome), r.side == Yes, Amount(r.amount))
  }

  /** The engine sells at least the wanted shares for the amount and leaves all prices below the cap. */
  ghost predicate BetSells(t: ExpLog, db: Db, r: BetRequest)
    requires t.Valid() && r.market in db.markets && r.outcome in db.markets[r.market].outcomes
  {
    var m := db.markets[r.market];
    var (q, k, yes) := (Quantities(db.outcomes, m.outcomes), IndexOf(m.outcomes, r.outcome), r.side == Yes);
    && SharesSold(t, db, r).Ok?
    && var gain := SharesSold(t, db, r).value;
    && gain >= r.minGain
    && ValidVector(MarketMaker.After(q, k, yes, Amount(gain)), m.alpha)
    && BelowCap(PricesOf(t, MarketMaker.After(q, k, yes, Amount(gain)), m.alpha), m.cap)
  }

  /** What the checks before the transfer look at. */
  ghost predicate BetChecked(db: Db, r: BetRequest, now: int) {
    && 1 <= |r.key| <= 36 && 100_000_000_000 <= r.amount <= 10_000_000_000_000_000 && r.minGain > r.amount
    && r.market in db.markets && OpenAt(db.markets[r.market], now)
    && r.outcome in db.markets[r.market].outcomes && !(|db.markets[r.market].outcomes| == 2 && r.side == No)
    && r.account in db.books.accounts && r.user != "" && db.books.accounts[r.account].owner == r.user
    && db.books.accounts[r.account].balance >= r.amount
  }

  lemma BetChecksExactly(t: ExpLog, db: Db, r: BetRequest, now: int)
    requires t.Valid()
    ensures BetCheck(t, db, r, now).0.Committed? <==>
            BetChecked(db, r, now) && BetSells(t, db, r)
    ensures BetCheck(t, db, r, now).0.Committed? ==> SharesSold(t, db, r) == Ok(BetCheck(t, db, r, now).1)
  {
    if r.market in db.markets && r.outcome in db.markets[r.market].outcomes {
      var m := db.markets[r.market];
      var q := Quantities(db.outcomes, m.outcomes);
      PurchaseAcceptedExactlyWhen(t, q, m.alpha, IndexOf(m.outcomes, r.outcome), r.side == Yes, Amount(r.amount), m.cap);
    }
  }

  /** What the transfer needs beside the checks. */
  ghost predicate BetTransfers(db: Db, r: BetRequest)
    requires r.account in db.books.accounts
  {
    var a := db.books.accounts[r.account];
    FreshKey(db.books.transfers, r.key) && a.currency == "USDT" && (a.balance > r.amount ==> a.allowPositive)
  }

  lemma BetTransfersExactly(db: Db, r: BetRequest, gain: int, now: int)
    requires Consistent(db) && BetChecked(db, r, now)
    ensures RecordBet(db, r, gain).1.Committed? <==> BetTransfers(db, r)
  {
    var house := db.markets[r.market].house;
    HouseTakes(db, r.market);
    TransferPostsExactlyWhen(db.books, r.account, house, r.amount, r.key);
    if BetKeyUsed(db.bets, r.key) {
      var i :| 0 <= i < |db.bets| && db.bets[i].key == r.key;
      BetKeysAreTransferKeys(db, i);
    }
  }

  lemma HouseTakes(db: Db, id: Uuid)
    requires Consistent(db) && id in db.markets
    ensures var house := db.markets[id].house;
            && house in db.books.accounts && db.books.accounts[house].owner == "" && db.books.accounts[house].currency == "USDT"
            && db.books.accounts[house].balance >= 0 && db.books.accounts[house].allowPositive
            && !db.books.accounts[house].allowNegative
  {
    assert MarketOk(db, id);
    assert AllowsBalance(db.books.accounts[db.markets[id].house]);
  }

  lemma BetKeysAreTransferKeys(db: Db, i: nat)
    requires Consistent(db) && i < |db.bets|
    ensures !FreshKey(db.books.transfers, db.bets[i].key)
  {
    assert BetOk(db, db.bets[i]);
    assert db.books.transfers[db.bets[i].transfer].key == db.bets[i].key;
  }

  /**
    Exactly when a bet commits: its key is new and of client length, its amount is between 0.1 and
    10000 and its wanted gain above it; its market is opened and its closing time, if any, lies
    ahead; the outcome is the market's, and not the no side of two; the account is the user's own,
    in the one currency, with the amount on it; and the engine sells the wanted gain below the cap.
  */
  lemma BetCommitsExactlyWhen(t: ExpLog, db: Db, r: BetRequest, now: int)
    requires t.Valid() && Consistent(db)
    ensures PlaceBet(t, db, r, now).1.Committed? <==>
            BetFits(db, r, now) && BetSells(t, db, r)
    ensures PlaceBet(t, db, r, now).1.Committed? ==> SharesSold(t, db, r) == Ok(BetCheck(t, db, r, now).1)
    ensures PlaceBet(t, db, r, now).1.Failed? ==> PlaceBet(t, db, r, now).0 == db
  {
    BetChecksExactly(t, db, r, now);
    if BetCheck(t, db, r, now).0.Committed? {
      BetTransfersExactly(db, r, BetCheck(t, db, r, now).1, now);
    }
  }

  /** The row of a committed bet. */
  lemma CommittedBetRow(t: ExpLog, db: Db, r: BetRequest, now: int)
    requires t.Valid() && PlaceBet(t, db, r, now).1.Committed?
    ensures var (db', gain) := (PlaceBet(t, db, r, now).0, BetCheck(t, db, r, now).1);
            && db'.bets == db.bets + [Bet(r.account, |db.books.transfers|, r.outcome, r.side, gain, r.amount, r.key)]
            && db'.books.transfers ==
               db.books.transfers + [Transfer(r.account, db.markets[r.market].house, r.amount, r.key)]
            && BalanceOf(db'.books, r.account) == BalanceOf(db.books, r.account) - r.amount
            && BalanceOf(db'.books, db.markets[r.market].house) == BalanceOf(db.books, db.markets[r.market].house) + r.amount
  {
    PlaceBetEffect(t, db, r, now);
  }

  lemma AddSharesExactly(outcomes: map<nat, Outcome>, o: nat, side: Side, gain: int)
    ensures AddShares(outcomes, o, side, gain).Keys == outcomes.Keys
    ensures forall k :: k in outcomes ==>
              AddShares(outcomes, o, side, gain)[k] == Outcome(outcomes[k].market, outcomes[k].quantity +
                if (side == Yes && k == o) || (side == No && k != o) then gain else 0)
  {
  }

  ghost predicate SameOtherAccounts(b: Books, b': Books, one: Uuid, other: Uuid) {
    forall a: Uuid :: a in b.accounts && a != one && a != other ==> a in b'.accounts && b'.accounts[a] == b.accounts[a]
  }

  /** The rest of what a committed bet writes: the shares on its outcome, or for a no bet on every
      other outcome row, and one version of its market; no other account, row or table changes. */
  lemma CommittedBetWrites(t: ExpLog, db: Db, r: BetRequest, now: int)
    requires t.Valid() && PlaceBet(t, db, r, now).1.Committed?
    ensures r.market in db.markets
    ensures var (db', gain, m) := (PlaceBet(t, db, r, now).0, BetCheck(t, db, r, now).1, db.markets[r.market]);
            && db'.markets == db.markets[r.market := m.(version := m.version + 1)]
            && db'.outcomes.Keys == db.outcomes.Keys
            && (forall o :: o in db.outcomes ==>
                 db'.outcomes[o] == Outcome(db.outcomes[o].market, db.outcomes[o].quantity +
                   if (r.side == Yes && o == r.outcome) || (r.side == No && o != r.outcome) then gain else 0))
            && SameOtherAccounts(db.books, db'.books, r.account, m.house)
            && db'.cashouts == db.cashouts && db'.resolutions == db.resolutions && db'.cancellations == db.cancellations
  {
    PlaceBetEffect(t, db, r, now);
    PlacedWrites(db, PlaceBet(t, db, r, now).0, r, BetCheck(t, db, r, now).1);
  }

  lemma PlacedWrites(db: Db, db': Db, r: BetRequest, gain: int)
    requires BetPlaced(db, db', r, gain)
    ensures db'.outcomes.Keys == db.outcomes.Keys
    ensures forall o :: o in db.outcomes ==>
              db'.outcomes[o] == Outcome(db.outcomes[o].market, db.outcomes[o].quantity +
                if (r.side == Yes && o == r.outcome) || (r.side == No && o != r.outcome) then gain else 0)
    ensures SameOtherAccounts(db.books, db'.books, r.account, db.markets[r.market].house)
  {
    AddSharesExactly(db.outcomes, r.outcome, r.side, gain);
  }

  /**
    The payout of a committed bet is right for the amount paid, at the quantities before the bet:
    that many shares cost at most the amount, and any number larger by 2 * 10^-12 or more costs
    more, on either side.
  */
  lemma CommittedBetIsFairlyPriced(t: ExpLog, db: Db, r: BetRequest, now: int, x: real)
    requires t.Valid() && PlaceBet(t, db, r, now).1.Committed?
    requires x >= Amount(BetCheck(t, db, r, now).1) + 0.000_000_000_002
    ensures r.market in db.markets && r.outcome in db.markets[r.market].outcomes
    ensures var m := db.markets[r.market];
            var (q, k, yes, gain) :=
              (Quantities(db.outcomes, m.outcomes), IndexOf(m.outcomes, r.outcome), r.side == Yes, BetCheck(t, db, r, now).1);
            && ValidVector(q, m.alpha) && ValidVector(MarketMaker.After(q, k, yes, Amount(gain)), m.alpha)
            && ValidVector(MarketMaker.After(q, k, yes, x), m.alpha) && gain >= r.minGain
            && CostOf(t, MarketMaker.After(q, k, yes, Amount(gain)), m.alpha) - CostOf(t, q, m.alpha) <= Amount(r.amount)
            && CostOf(t, MarketMaker.After(q, k, yes, x), m.alpha) - CostOf(t, q, m.alpha) > Amount(r.amount)
  {
    BetGainPositive(t, db, r, now);
    PlacedBetIsPriced(t, db, r, now);
    PricedBetIsFair(t, db, r, BetCheck(t, db, r, now).1, x);
  }

  lemma PricedBetIsFair(t: ExpLog, db: Db, r: BetRequest, gain: int, x: real)
    requires t.Valid() && r.market in db.markets && r.outcome in db.markets[r.market].outcomes && BetPriced(t, db, r, gain)
    requires x >= Amount(gain) + 0.000_000_000_002
    ensures var m := db.markets[r.market];
            var (q, k, yes) := (Quantities(db.outcomes, m.outcomes), IndexOf(m.outcomes, r.outcome), r.side == Yes);
            && ValidVector(q, m.alpha) && ValidVector(MarketMaker.After(q, k, yes, Amount(gain)), m.alpha)
            && ValidVector(MarketMaker.After(q, k, yes, x), m.alpha)
            && CostOf(t, MarketMaker.After(q, k, yes, Amount(gain)), m.alpha) - CostOf(t, q, m.alpha) <= Amount(r.amount)
            && CostOf(t, MarketMaker.After(q, k, yes, x), m.alpha) - CostOf(t, q, m.alpha) > Amount(r.amount)
  {
    var m := db.markets[r.market];
    var (q, k) := (Quantities(db.outcomes, m.outcomes), IndexOf(m.outcomes, r.outcome));
    var quote := Buying(t, q, m.alpha, k, r.side.Yes?, Amount(r.amount), m.cap).value;
    AcceptedPurchase(t, q, m.alpha, k, r.side.Yes?, Amount(r.amount), m.cap, quote);
    AcceptedPurchaseIsNearlyMaximal(t, q, m.alpha, k, r.side.Yes?, Amount(r.amount), m.cap, quote, x);
  }

  /** Which answer a refused bet gets: the first of these that applies. */
  lemma BetRefusals(t: ExpLog, db: Db, r: BetRequest, now: int)
    requires t.Valid()
    ensures var reply := PlaceBet(t, db, r, now).1;
            && (!(1 <= |r.key| <= 36) ==> reply == Failed(InvalidKey))
            && (1 <= |r.key| <= 36 ==>
                 if r.amount < 100_000_000_000 || r.amount > 10_000_000_000_000_000 then reply == Failed(InvalidBetAmount)
                 else if r.minGain <= r.amount then reply == Failed(InvalidQuotedGain)
                 else if r.market !in db.markets || !OpenAt(db.markets[r.market], now) || db.markets[r.market].outcomes == []
                   then reply == Failed(MarketNotFound)
                 else reply != Failed(MarketNotFound) && BetRefusedLater(db, r, reply))
  {
  }

  /** The answers once the market is found open. */
  ghost predicate BetRefusedLater(db: Db, r: BetRequest, reply: Reply)
    requires r.market in db.markets
  {
    var m := db.markets[r.market];
    if |m.outcomes| == 2 && r.side == No then reply == Failed(NoBetOnBinaryMarket)
    else if r.outcome !in m.outcomes then reply == Failed(OutcomeNotFound)
    else if r.account !in db.books.accounts || r.user == "" || db.books.accounts[r.account].owner != r.user
      then reply == Failed(AccountUnknown)
    else if db.books.accounts[r.account].balance < r.amount then reply == Failed(InsufficientFunds)
    else reply != Failed(OutcomeNotFound) && reply != Failed(AccountUnknown) && reply != Failed(InsufficientFunds)
  }

  // ----- Cash-outs -----

  /** The cash-out fits the tables. */
  ghost predicate CashoutFits(db: Db, r: CashoutRequest, now: int) {
    && 1 <= |r.key| <= 36 && FreshKey(db.books.transfers, r.key)
    && BetIsListed(db, r.bet) && (forall j :: 0 <= j < |db.cashouts| ==> db.cashouts[j].bet != r.bet)
    && OpenAt(db.markets[db.outcomes[db.bets[r.bet].outcome].market], now)
  }

  /** The engine pays this much for the bet: at least what was asked for and a positive amount, which
      the house has. */
  ghost predicate CashoutPays(t: ExpLog, db: Db, r: CashoutRequest)
    requires t.Valid() && BetIsListed(db, r.bet)
  {
    var m := db.markets[db.outcomes[db.bets[r.bet].outcome].market];
    && BetWorth(t, db, r.bet).Ok? && BetWorth(t, db, r.bet).value.Some?
    && var gain := BetWorth(t, db, r.bet).value.value;
       gain >= r.minGain && 0 < gain <= BalanceOf(db.books, m.house)
  }

  /** The bet exists, on an outcome of an existing market. */
  ghost predicate BetIsListed(db: Db, bet: nat) {
    && bet < |db.bets| && db.bets[bet].outcome in db.outcomes
    && db.outcomes[db.bets[bet].outcome].market in db.markets
    && db.bets[bet].outcome in db.markets[db.outcomes[db.bets[bet].outcome].market].outcomes
  }

  /** What the engine pays for the bet, at the market's quantities. */
  function BetWorth(t: ExpLog, db: Db, bet: nat): Result<Option<int>>
    requires t.Valid() && BetIsListed(db, bet)
  {
    var b := db.bets[bet];
    var m := db.markets[db.outcomes[b.outcome].market];
    Selling(t, Quantities(db.outcomes, m.outcomes), m.alpha, IndexOf(m.outcomes, b.outcome), b.side == Yes, Amount(b.payout), m.cap)
  }

  /** What the checks before the transfer look at. */
  ghost predicate CashoutChecked(t: ExpLog, db: Db, r: CashoutRequest, now: int)
    requires t.Valid()
  {
    && 1 <= |r.key| <= 36 && BetIsListed(db, r.bet)
    && OpenAt(db.markets[db.outcomes[db.bets[r.bet].outcome].market], now)
    && BetWorth(t, db, r.bet).Ok? && BetWorth(t, db, r.bet).value.Some?
    && BetWorth(t, db, r.bet).value.value >= r.minGain && BetWorth(t, db, r.bet).value.value > 0
  }

  lemma CashoutChecksExactly(t: ExpLog, db: Db, r: CashoutRequest, now: int)
    requires t.Valid()
    ensures CashoutCheck(t, db, r, now).0.Committed? <==> CashoutChecked(t, db, r, now)
    ensures CashoutCheck(t, db, r, now).0.Committed? ==> BetWorth(t, db, r.bet) == Ok(Some(CashoutCheck(t, db, r, now).1))
  {
  }

  /** What the transfer and the unique columns need beside the checks. */
  ghost predicate CashoutTransfers(db: Db, r: CashoutRequest, gain: int)
    requires BetIsListed(db, r.bet)
  {
    && FreshKey(db.books.transfers, r.key)
    && (forall j :: 0 <= j < |db.cashouts| ==> db.cashouts[j].bet != r.bet)
    && gain <= BalanceOf(db.books, db.markets[db.outcomes[db.bets[r.bet].outcome].market].house)
  }

  lemma CashoutPostsExactly(db: Db, r: CashoutRequest, gain: int)
    requires Consistent(db) && BetIsListed(db, r.bet) && gain > 0 && r.key != ""
    ensures var house := db.markets[db.outcomes[db.bets[r.bet].outcome].market].house;
            Attempt(db.books, house, db.bets[r.bet].account, gain, r.key).1.Posted? <==>
            FreshKey(db.books.transfers, r.key) && gain <= BalanceOf(db.books, house)
  {
    var b := db.bets[r.bet];
    var id := db.outcomes[b.outcome].market;
    HouseTakes(db, id);
    BettorTakes(db, r.bet);
    TransferPostsExactlyWhen(db.books, db.markets[id].house, b.account, gain, r.key);
  }

  lemma CashoutTransfersExactly(db: Db, r: CashoutRequest, gain: int)
    requires Consistent(db) && BetIsListed(db, r.bet) && gain > 0 && r.key != ""
    ensures RecordCashout(db, r, gain).1.Committed? <==> CashoutTransfers(db, r, gain)
    ensures RecordCashout(db, r, gain).1.Failed? ==> RecordCashout(db, r, gain).0 == db
  {
    CashoutPostsExactly(db, r, gain);
    if CashoutKeyUsed(db.cashouts, r.key) {
      var j :| 0 <= j < |db.cashouts| && db.cashouts[j].key == r.key;
      CashoutKeysAreTransferKeys(db, j);
    }
  }

  lemma BettorTakes(db: Db, i: nat)
    requires Consistent(db) && i < |db.bets|
    ensures var a := db.bets[i].account;
            && a in db.books.accounts && db.books.accounts[a].owner != "" && db.books.accounts[a].currency == "USDT"
            && db.books.accounts[a].allowPositive
            && (db.books.accounts[a].balance < 0 ==> db.books.accounts[a].allowNegative)
  {
    assert BetOk(db, db.bets[i]);
    assert AllowsBalance(db.books.accounts[db.bets[i].account]);
  }

  lemma CashoutKeysAreTransferKeys(db: Db, j: nat)
    requires Consistent(db) && j < |db.cashouts|
    ensures !FreshKey(db.books.transfers, db.cashouts[j].key)
  {
    assert CashoutOk(db, db.cashouts[j]);
    assert db.books.transfers[db.cashouts[j].transfer].key == db.cashouts[j].key;
  }

  /**
    Exactly when a cash-out commits: its key is new and of client length; the bet exists and was not
    cashed out; its market is opened and its closing time, if any, lies ahead; and the engine pays a
    positive amount that reaches what was asked for and that the house has.
  */
  lemma CashoutCommitsExactlyWhen(t: ExpLog, db: Db, r: CashoutRequest, now: int)
    requires t.Valid() && Consistent(db)
    ensures CashOut(t, db, r, now).1.Committed? <==>
            CashoutFits(db, r, now) && CashoutPays(t, db, r)
    ensures CashOut(t, db, r, now).1.Committed? ==> BetWorth(t, db, r.bet) == Ok(Some(CashoutCheck(t, db, r, now).1))
    ensures CashOut(t, db, r, now).1.Failed? ==> CashOut(t, db, r, now).0 == db
  {
    CashoutChecksExactly(t, db, r, now);
    ChecksAndTransfers(t, db, r, now);
    if CashoutCheck(t, db, r, now).0.Committed? {
      CashoutTransfersExactly(db, r, CashoutCheck(t, db, r, now).1);
    }
  }

  lemma ChecksAndTransfers(t: ExpLog, db: Db, r: CashoutRequest, now: int)
    requires t.Valid()
    ensures CashoutFits(db, r, now) && CashoutPays(t, db, r) <==>
            CashoutChecked(t, db, r, now) && CashoutTransfers(db, r, BetWorth(t, db, r.bet).value.value)
  {
  }

  /** A committed cash-out pays the bettor at least what was asked for, out of the house. */
  lemma CashoutPaysWhatWasAsked(t: ExpLog, db: Db, r: CashoutRequest, now: int)
    requires t.Valid() && Consistent(db) && CashOut(t, db, r, now).1.Committed?
    ensures r.bet < |db.bets| && db.bets[r.bet].outcome in db.outcomes
    ensures db.outcomes[db.bets[r.bet].outcome].market in db.markets
    ensures var (db', b, gain) := (CashOut(t, db, r, now).0, db.bets[r.bet], CashoutCheck(t, db, r, now).1);
            var house := db.markets[db.outcomes[b.outcome].market].house;
            && db'.cashouts == db.cashouts + [Cashout(r.bet, |db.books.transfers|, gain, r.key)]
            && BalanceOf(db'.books, b.account) == BalanceOf(db.books, b.account) + gain
            && BalanceOf(db'.books, b.account) >= BalanceOf(db.books, b.account) + r.minGain
            && BalanceOf(db'.books, house) == BalanceOf(db.books, house) - gain && gain > 0
  {
    CashOutEffect(t, db, r, now);
    CashoutChecksExactly(t, db, r, now);
    HouseTakes(db, db.outcomes[db.bets[r.bet].outcome].market);
    BettorTakes(db, r.bet);
  }

  /** The rest of what a committed cash-out writes: the bet's shares on the other outcomes of its
      market, and one version; no other account, row or table changes. */
  lemma CommittedCashoutWrites(t: ExpLog, db: Db, r: CashoutRequest, now: int)
    requires t.Valid() && CashOut(t, db, r, now).1.Committed?
    ensures r.bet < |db.bets| && db.bets[r.bet].outcome in db.outcomes
    ensures db.outcomes[db.bets[r.bet].outcome].market in db.markets
    ensures var (db', b) := (CashOut(t, db, r, now).0, db.bets[r.bet]);
            var id := db.outcomes[b.outcome].market;
            var m := db.markets[id];
            && db'.markets == db.markets[id := m.(version := m.version + 1)]
            && db'.outcomes.Keys == db.outcomes.Keys
            && (forall o :: o in db.outcomes ==>
                 db'.outcomes[o] == Outcome(db.outcomes[o].market, db.outcomes[o].quantity +
                   if db.outcomes[o].market == id && o != b.outcome then b.payout else 0))
            && SameOtherAccounts(db.books, db'.books, b.account, m.house)
            && db'.bets == db.bets && db'.resolutions == db.resolutions && db'.cancellations == db.cancellations
  {
    CashOutEffect(t, db, r, now);
  }

  /** What a committed cash-out pays is the exact worth of the bet, cut to 12 decimals. */
  lemma CommittedCashoutIsItsWorth(t: ExpLog, db: Db, r: CashoutRequest, now: int)
    requires t.Valid() && CashOut(t, db, r, now).1.Committed?
    ensures r.bet < |db.bets| && db.bets[r.bet].outcome in db.outcomes
    ensures db.outcomes[db.bets[r.bet].outcome].market in db.markets
    ensures var (b, gain) := (db.bets[r.bet], CashoutCheck(t, db, r, now).1);
            var m := db.markets[db.outcomes[b.outcome].market];
            && b.outcome in m.outcomes
            && var (q, k) := (Quantities(db.outcomes, m.outcomes), IndexOf(m.outcomes, b.outcome));
               && ValidVector(q, m.alpha) && ValidVector(MarketMaker.After(q, k, b.side == No, Amount(b.payout)), m.alpha)
               && var worth := Amount(b.payout)
                    - (CostOf(t, MarketMaker.After(q, k, b.side == No, Amount(b.payout)), m.alpha) - CostOf(t, q, m.alpha));
                  Amount(gain) <= worth < Amount(gain + 1)
  {
    CashoutChecksExactly(t, db, r, now);
    PaidIsWorth(t, db, r, now, CashoutCheck(t, db, r, now).1);
  }

  lemma PaidIsWorth(t: ExpLog, db: Db, r: CashoutRequest, now: int, gain: int)
    requires t.Valid() && CashoutChecked(t, db, r, now) && BetWorth(t, db, r.bet) == Ok(Some(gain))
    ensures var b := db.bets[r.bet];
            var m := db.markets[db.outcomes[b.outcome].market];
            var (q, k) := (Quantities(db.outcomes, m.outcomes), IndexOf(m.outcomes, b.outcome));
            && ValidVector(q, m.alpha) && ValidVector(MarketMaker.After(q, k, b.side == No, Amount(b.payout)), m.alpha)
            && Amount(gain) <= Worth(t, q, m.alpha, k, b.side == Yes, Amount(b.payout)) < Amount(gain + 1)
  {
    var b := db.bets[r.bet];
    var m := db.markets[db.outcomes[b.outcome].market];
    var (q, k) := (Quantities(db.outcomes, m.outcomes), IndexOf(m.outcomes, b.outcome));
    CashOutIsCovered(t, q, m.alpha, k, b.side == Yes, Amount(b.payout), m.cap, gain);
    CashOutPaidExactlyWhen(t, q, m.alpha, k, b.side == Yes, Amount(b.payout), m.cap);
    assert (b.side == No) == !(b.side == Yes);
  }

  /** Which answer a refused cash-out gets: the first of these that applies. */
  lemma CashoutRefusals(t: ExpLog, db: Db, r: CashoutRequest, now: int)
    requires t.Valid()
    ensures var reply := CashOut(t, db, r, now).1;
            if !(1 <= |r.key| <= 36) then reply == Failed(InvalidKey)
            else if r.bet >= |db.bets| || db.bets[r.bet].outcome !in db.outcomes then reply == Failed(BetNotFound)
            else
              var b := db.bets[r.bet];
              var id := db.outcomes[b.outcome].market;
              if id !in db.markets || !OpenAt(db.markets[id], now) || db.markets[id].outcomes == []
                then reply == Failed(MarketNotFound)
              else if b.outcome !in db.markets[id].outcomes then reply == Failed(OutcomeNotFound)
              else
                var m := db.markets[id];
                var quote := Selling(t, Quantities(db.outcomes, m.outcomes), m.alpha, IndexOf(m.outcomes, b.outcome),
                                     b.side == Yes, Amount(b.payout), m.cap);
                && reply != Failed(MarketNotFound)
                && (quote == Ok(None) <==> reply == Failed(InvalidBetAmount))
                && (quote.Ok? && quote.value.Some? && (quote.value.value < r.minGain || quote.value.value <= 0) <==>
                     reply == Failed(InvalidQuotedGain))
  {
  }

  /** The lookup before a cash-out finds exactly the user's own bets without a cash-out. */
  lemma FindBetExactly(db: Db, bet: nat, user: string)
    ensures FindBet(db, bet, user).Some? <==> OwnsUncashed(db, bet, user)
    ensures FindBet(db, bet, user).Some? ==> FindBet(db, bet, user).value == db.bets[bet]
  {
    if CashedOut(db.cashouts, bet) {
      var j :| 0 <= j < |db.cashouts| && db.cashouts[j].bet == bet;
    }
  }

  // ----- Settling and cancelling -----

  /** A settlement commits exactly when the market is opened or paused, the winner is one of its
      outcomes, and its house holds the shares of all bets on the winner. */
  lemma SettleCommitsExactlyWhen(db: Db, market: Uuid, winner: nat, order: seq<Uuid>)
    requires Consistent(db) && IsGrouping(db.bets, Win(winner), order)
    ensures Settle(db, market, winner, order).1.Committed? <==>
            && market in db.markets && (db.markets[market].status == Opened || db.markets[market].status == Paused)
            && winner in db.outcomes && db.outcomes[winner].market == market
            && BalanceOf(db.books, db.markets[market].house) >= SharesOn(db.bets, winner)
    ensures Settle(db, market, winner, order).1.Failed? ==> Settle(db, market, winner, order).0 == db
  {
    if market in db.markets && winner in db.outcomes && db.outcomes[winner].market == market
       && (db.markets[market].status == Opened || db.markets[market].status == Paused) {
      SettleExactly(db, market, winner, order);
    }
  }

  /** A committed settlement records the winner it was settled for, and nothing else changes in the
      resolutions, the cancellations, the bets, the cash-outs or the quantities; only this market's
      status and version move. */
  lemma SettleRecordsTheWinner(db: Db, market: Uuid, winner: nat, order: seq<Uuid>)
    requires Settle(db, market, winner, order).1.Committed?
    ensures market in db.markets
    ensures var (db', m) := (Settle(db, market, winner, order).0, db.markets[market]);
            && db'.resolutions == db.resolutions[market := winner] && market !in db.resolutions
            && db'.cancellations == db.cancellations
            && db'.bets == db.bets && db'.cashouts == db.cashouts && db'.outcomes == db.outcomes
            && db'.markets == db.markets[market := m.(status := Resolved, version := m.version + 1)]
  {
  }

  /** A cancellation commits exactly when the market is opened or paused and its house holds all that
      was paid for bets on it. */
  lemma CancelCommitsExactlyWhen(db: Db, market: Uuid, order: seq<Uuid>)
    requires Consistent(db) && (market in db.markets ==> IsGrouping(db.bets, Refund(db.markets[market].outcomes), order))
    ensures Cancel(db, market, order).1.Committed? <==>
            && market in db.markets && (db.markets[market].status == Opened || db.markets[market].status == Paused)
            && BalanceOf(db.books, db.markets[market].house) >= PaidIn(db.bets, db.markets[market].outcomes)
    ensures Cancel(db, market, order).1.Failed? ==> Cancel(db, market, order).0 == db
  {
    if market in db.markets && (db.markets[market].status == Opened || db.markets[market].status == Paused) {
      Cancellation.CancelExactly(db, market, order);
    }
  }

  /** A committed cancellation records it, and only this market's status and version move beside the
      refunds. */
  lemma CancelRecordsIt(db: Db, market: Uuid, order: seq<Uuid>)
    requires Cancel(db, market, order).1.Committed?
    ensures market in db.markets
    ensures var (db', m) := (Cancel(db, market, order).0, db.markets[market]);
            && db'.cancellations == db.cancellations + {market} && market !in db.cancellations
            && db'.resolutions == db.resolutions
            && db'.bets == db.bets && db'.cashouts == db.cashouts && db'.outcomes == db.outcomes
            && db'.markets == db.markets[market := m.(status := Cancelled, version := m.version + 1)]
  {
  }

  /** Which answer a refused settlement or cancellation gets: the first of these that applies. */
  lemma EndingRefusals(db: Db, market: Uuid, winner: nat, order: seq<Uuid>, order': seq<Uuid>)
    requires Consistent(db) && IsGrouping(db.bets, Win(winner), order)
    requires market in db.markets ==> IsGrouping(db.bets, Refund(db.markets[market].outcomes), order')
    ensures var reply := Settle(db, market, winner, order).1;
            if winner !in db.outcomes then reply == Failed(OutcomeNotFound)
            else if db.outcomes[winner].market != market then reply == Failed(WrongMarket)
            else if db.markets[market].status != Opened && db.markets[market].status != Paused then reply == Failed(MarketNotFound)
            else reply.Failed? ==> reply.error.TransferFailed? && BalanceOf(db.books, db.markets[market].house) < SharesOn(db.bets, winner)
    ensures var reply := Cancel(db, market, order').1;
            if market !in db.markets || (db.markets[market].status != Opened && db.markets[market].status != Paused)
              then reply == Failed(MarketNotFound)
            else reply.Failed? ==>
              && reply.error.TransferFailed?
              && BalanceOf(db.books, db.markets[market].house) < PaidIn(db.bets, db.markets[market].outcomes)
  {
    SettleCommitsExactlyWhen(db, market, winner, order);
    CancelCommitsExactlyWhen(db, market, order');
  }

  // ----- Administration -----

  /** A status update commits exactly when the market exists and is not finished, or is already so;
      it moves nothing but the status. */
  lemma StatusCommitsExactlyWhen(db: Db, market: Uuid, status: Status)
    ensures SetStatus(db, market, status).1.Committed? <==>
            && market in db.markets
            && (db.markets[market].status in {Resolved, Cancelled} ==> db.markets[market].status == status)
    ensures SetStatus(db, market, status).1.Committed? ==>
              SetStatus(db, market, status).0 == db.(markets := db.markets[market := db.markets[market].(status := status)])
    ensures SetStatus(db, market, status).1.Failed? ==> SetStatus(db, market, status).0 == db
  {
  }

  /** An account is opened exactly when its identifier is new and it has an owner; it starts empty at
      version zero, with the sign policies asked for. */
  lemma OpenCommitsExactlyWhen(db: Db, id: Uuid, owner: string, allowNegative: bool, allowPositive: bool)
    ensures OpenAccount(db, id, owner, allowNegative, allowPositive).1.Committed? <==>
            (forall a: Uuid :: a in db.books.accounts ==> a != id) && |owner| > 0
    ensures OpenAccount(db, id, owner, allowNegative, allowPositive).1.Committed? ==>
              OpenAccount(db, id, owner, allowNegative, allowPositive).0 == db.(books := Books(
                db.books.accounts[id := Account(owner, 0, "USDT", allowNegative, allowPositive, 0)],
                db.books.transfers, db.books.entries))
    ensures OpenAccount(db, id, owner, allowNegative, allowPositive).1.Failed? ==>
              OpenAccount(db, id, owner, allowNegative, allowPositive).0 == db
  {
  }

  /** Funding commits exactly when its key is of client length and the transfer is posted; it moves
      the amount from the one account to the other and touches nothing but the ledger. */
  lemma FundCommitsExactlyWhen(db: Db, from: Uuid, to: Uuid, amount: int, key: string)
    ensures Fund(db, from, to, amount, key).1.Committed? <==>
            && 1 <= |key| <= 36 && FreshKey(db.books.transfers, key) && amount > 0 && from != to
            && from in db.books.accounts && to in db.books.accounts
            && db.books.accounts[from].currency == db.books.accounts[to].currency
            && Allows(db.books.accounts[from], db.books.accounts[from].balance - amount)
            && Allows(db.books.accounts[to], db.books.accounts[to].balance + amount)
    ensures Fund(db, from, to, amount, key).1.Committed? ==>
              var db' := Fund(db, from, to, amount, key).0;
              && db' == db.(books := db'.books)
              && db'.books.transfers == db.books.transfers + [Transfer(from, to, amount, key)]
              && BalanceOf(db'.books, from) == BalanceOf(db.books, from) - amount
              && BalanceOf(db'.books, to) == BalanceOf(db.books, to) + amount
              && forall a: Uuid :: a != from && a != to ==> BalanceOf(db'.books, a) == BalanceOf(db.books, a)
    ensures Fund(db, from, to, amount, key).1.Failed? ==> Fund(db, from, to, amount, key).0 == db
  {
    TransferPostsExactlyWhen(db.books, from, to, amount, key);
  }

  /** A market is created exactly when its identifiers are new, its outcomes ascend and exist, and
      its seed and alpha are positive; it starts as a draft at version zero with a house of its own
      and every outcome at the seed. */
  lemma CreateCommitsExactlyWhen(db: Db, id: Uuid, house: Uuid, seed: int, alpha: real, cap: real,
                                 closeTime: Option<int>, ids: seq<nat>)
    ensures CreateMarket(db, id, house, seed, alpha, cap, closeTime, ids).1.Committed? <==>
            && id !in db.markets && house !in db.books.accounts && ids != []
            && (forall i :: 0 <= i < |ids| ==> ids[i] !in db.outcomes)
            && (forall i, j :: 0 <= i < j < |ids| ==> ids[i] < ids[j])
            && seed > 0 && alpha > 0.0
    ensures CreateMarket(db, id, house, seed, alpha, cap, closeTime, ids).1.Committed? ==>
              var db' := CreateMarket(db, id, house, seed, alpha, cap, closeTime, ids).0;
              && db'.markets == db.markets[id := Market(house, seed, alpha, cap, Draft, closeTime, 0, ids)]
              && db'.books == db.books.(accounts := db.books.accounts[house := Account("", 0, "USDT", false, true, 0)])
              && (forall o :: o in db'.outcomes <==> o in db.outcomes || o in ids)
              && (forall o :: o in db.outcomes ==> db'.outcomes[o] == db.outcomes[o])
              && (forall o :: o in ids ==> db'.outcomes[o] == Outcome(id, seed))
              && db'.bets == db.bets && db'.cashouts == db.cashouts
              && db'.resolutions == db.resolutions && db'.cancellations == db.cancellations
    ensures CreateMarket(db, id, house, seed, alpha, cap, closeTime, ids).1.Failed? ==>
              CreateMarket(db, id, house, seed, alpha, cap, closeTime, ids).0 == db
  {
    SeedsAreValidExactly(ids, id, seed, alpha);
    assert forall i :: 0 <= i < |ids| ==> ids[i] in ids;
  }

  lemma SeedsAreValidExactly(ids: seq<nat>, id: Uuid, seed: int, alpha: real)
    ensures seed >= 0 && Objection(Quantities(Seeded(ids, id, seed), ids), alpha).None? <==>
            seed > 0 && ids != [] && alpha > 0.0
  {
    var q := Quantities(Seeded(ids, id, seed), ids);
    assert forall i :: 0 <= i < |q| ==> q[i] == Amount(seed);
    if seed >= 0 && Objection(q, alpha).None? {
      SeedIsPositive(ids, id, seed, alpha);
    }
    if seed > 0 && ids != [] && alpha > 0.0 {
      AmountPositive(seed);
      Vectors.SumPositive(q, |q|);
    }
  }

  lemma AmountPositive(a: int)
    requires a > 0
    ensures Amount(a) > 0.0
  {
  }

  // ----- Over runs -----

  /** Every resolution names an outcome of its market. */
  ghost predicate ResolutionsNameOutcomes(db: Db) {
    forall id: Uuid :: id in db.resolutions ==> db.resolutions[id] in db.outcomes && db.outcomes[db.resolutions[id]].market == id
  }

  /** Nothing about resolutions and about whose an outcome is has changed. */
  ghost predicate KeepsNames(db: Db, db': Db) {
    && db'.resolutions == db.resolutions
    && forall o :: o in db.outcomes ==> o in db'.outcomes && db'.outcomes[o].market == db.outcomes[o].market
  }

  lemma OtherStepsKeepNames(t: ExpLog, db: Db, e: Event)
    requires t.Valid() && !e.ESettle?
    ensures KeepsNames(db, Step(t, db, e).0)
  {
    match e
    case EPlaceBet(r, now) => BetKeepsNames(t, db, r, now);
    case ECashOut(r, now) => CashoutKeepsNames(t, db, r, now);
    case ECreateMarket(id, house, seed, alpha, cap, closeTime, ids) =>
      CreateCommitsExactlyWhen(db, id, house, seed, alpha, cap, closeTime, ids);
    case ECancel(market, order) =>
    case _ =>
  }

  lemma BetKeepsNames(t: ExpLog, db: Db, r: BetRequest, now: int)
    requires t.Valid()
    ensures KeepsNames(db, PlaceBet(t, db, r, now).0)
  {
    if PlaceBet(t, db, r, now).1.Committed? {
      PlaceBetEffect(t, db, r, now);
    }
  }

  lemma CashoutKeepsNames(t: ExpLog, db: Db, r: CashoutRequest, now: int)
    requires t.Valid()
    ensures KeepsNames(db, CashOut(t, db, r, now).0)
  {
    if CashOut(t, db, r, now).1.Committed? {
      CashOutEffect(t, db, r, now);
    }
  }

  lemma SettleNamesOutcome(db: Db, market: Uuid, winner: nat, order: seq<Uuid>)
    requires ResolutionsNameOutcomes(db)
    ensures ResolutionsNameOutcomes(Settle(db, market, winner, order).0)
  {
    if Settle(db, market, winner, order).1.Committed? {
      SettleRecordsTheWinner(db, market, winner, order);
      SettleEffect(db, market, winner, order);
    }
  }

  /** In every reachable state each resolution names an outcome of its own market. */
  lemma {:induction false} ReachableResolutionsNameOutcomes(t: ExpLog, events: seq<Event>)
    requires t.Valid()
    ensures ResolutionsNameOutcomes(Run(t, EMPTY_DB, events))
  {
    if events != [] {
      var (front, e) := (events[..|events| - 1], events[|events| - 1]);
      ReachableResolutionsNameOutcomes(t, front);
      if e.ESettle? {
        SettleNamesOutcome(Run(t, EMPTY_DB, front), e.settled, e.winner, e.payees);
      } else {
        OtherStepsKeepNames(t, Run(t, EMPTY_DB, front), e);
      }
    }
  }

  /** Once a settlement commits, the row names its winner for ever: in every interleaving after it,
      the resolution of the market is the outcome whose bets were paid. */
  lemma WinnerStaysRecorded(t: ExpLog, db: Db, market: Uuid, winner: nat, order: seq<Uuid>, events: seq<Event>)
    requires t.Valid() && Consistent(db) && Settle(db, market, winner, order).1.Committed?
    requires PossibleRun(t, Settle(db, market, winner, order).0, events)
    ensures var later := Run(t, Settle(db, market, winner, order).0, events);
            market in later.resolutions && later.resolutions[market] == winner
  {
    SettleRecordsTheWinner(db, market, winner, order);
    SettleKeeps(db, market, winner, order);
    Lifecycle.FinishedForever(t, Settle(db, market, winner, order).0, events, market);
  }
}
