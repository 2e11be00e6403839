/**
  The database of the exchange and its transactions, each a step that commits or leaves the
  state unchanged.

  Tables are maps and sequences; a bet's and a cash-out's identifier is its position in the
  table.  Amounts of money and shares are integer counts of 10^-12.
*/
module Exchange {
  import opened Transcendental
  import opened Ledger
  import opened Options
  import opened Outcomes
  import opened Amounts
  import opened Quotes

  datatype Status = Draft | Opened | Paused | Pending | Resolved | Cancelled {
    predicate Final() { Resolved? || Cancelled? }
    predicate Live() { Opened? || Paused? }
  }

  datatype Side = Yes | No

  /** `outcomes` lists the identifiers of the market's outcomes in ascending order. */
  datatype Market = Market(house: Uuid, seed: int, alpha: real, cap: real, status: Status,
                           closeTime: Option<int>, version: nat, outcomes: seq<nat>)
  datatype Outcome = Outcome(market: Uuid, quantity: int)
  datatype Bet = Bet(account: Uuid, transfer: nat, outcome: nat, side: Side, payout: int, paid: int, key: string)
  datatype Cashout = Cashout(bet: nat, transfer: nat, payout: int, key: string)

  datatype Db = Db(books: Books, markets: map<Uuid, Market>, outcomes: map<nat, Outcome>,
                   bets: seq<Bet>, cashouts: seq<Cashout>,
                   resolutions: map<Uuid, nat>, cancellations: set<Uuid>)

  datatype TxError =
    | InvalidKey | InvalidBetAmount | InvalidQuotedGain | MarketNotFound | NoBetOnBinaryMarket
    | OutcomeNotFound | AccountUnknown | InsufficientFunds | QuoteFailed(engine: EngineError)
    | TransferFailed(ledger: LedgerError) | BetAlreadyPlaced | BetNotFound | BetAlreadyCashedOut
    | UniqueViolation | WrongMarket | AlreadyResolved | AlreadyCancelled | StatusIsFinal
    | InvalidMarket | SerializationFailure

  datatype Reply = Committed | Failed(error: TxError)

  datatype BetRequest = BetRequest(user: string, account: Uuid, market: Uuid, outcome: nat, side: Side,
                                   amount: int, minGain: int, key: string)
  datatype CashoutRequest = CashoutRequest(bet: nat, minGain: int, key: string)

  const MAX_CLIENT_KEY := 36
  const MIN_BET_AMOUNT: int := 100_000_000_000
  const MAX_BET_AMOUNT: int := 10_000_000_000_000_000

  // ----- Reading -----

  function QuantityOf(outcomes: map<nat, Outcome>, o: nat): int {
    if o in outcomes then outcomes[o].quantity else 0
  }

  /** The quantity vector of a market, in the order of its outcome identifiers. */
  function Quantities(outcomes: map<nat, Outcome>, ids: seq<nat>): seq<real> {
    seq(|ids|, i requires 0 <= i < |ids| => Amount(QuantityOf(outcomes, ids[i])))
  }

  function IndexOf(ids: seq<nat>, o: nat): (i: nat)
    requires o in ids
    ensures i < |ids| && ids[i] == o && o !in ids[..i]
  {
    if ids[0] == o then 0 else 1 + IndexOf(ids[1..], o)
  }

  predicate Trading(m: Market, now: int) {
    m.status.Opened? && (m.closeTime.None? || m.closeTime.value > now) && m.outcomes != []
  }

  predicate ClientKey(key: string) {
    1 <= |key| <= MAX_CLIENT_KEY
  }

  // ----- Betting -----

  /** Why a bet is refused before anything is written, in the order of the checks; otherwise the
      number of shares it buys. */
  function BetCheck(t: ExpLog, db: Db, r: BetRequest, now: int): (Reply, int)
    requires t.Valid()
  {
    if !ClientKey(r.key) then (Failed(InvalidKey), 0)
    else if !(MIN_BET_AMOUNT <= r.amount <= MAX_BET_AMOUNT) then (Failed(InvalidBetAmount), 0)
    else if r.minGain <= r.amount then (Failed(InvalidQuotedGain), 0)
    else if r.market !in db.markets || !Trading(db.markets[r.market], now) then (Failed(MarketNotFound), 0)
    else
      var m := db.markets[r.market];
      if |m.outcomes| == 2 && r.side.No? then (Failed(NoBetOnBinaryMarket), 0)
      else if r.outcome !in m.outcomes then (Failed(OutcomeNotFound), 0)
      else if r.account !in db.books.accounts then (Failed(AccountUnknown), 0)
      else if r.user == "" || db.books.accounts[r.account].owner != r.user then (Failed(AccountUnknown), 0)
      else if db.books.accounts[r.account].balance < r.amount then (Failed(InsufficientFunds), 0)
      else
        var quote := Buying(t, Quantities(db.outcomes, m.outcomes), m.alpha, IndexOf(m.outcomes, r.outcome),
                            r.side.Yes?, Amount(r.amount), m.cap);
        if quote.Err? then (Failed(QuoteFailed(quote.error)), 0)
        else if quote.value.gain < r.minGain then (Failed(InvalidQuotedGain), 0)
        else (Committed, quote.value.gain)
  }

  predicate BetKeyUsed(bets: seq<Bet>, key: string) {
    exists i :: 0 <= i < |bets| && bets[i].key == key
  }

  /** A yes bet adds shares to its outcome; a no bet adds them to every other outcome row of the
      table, whichever market it belongs to. */
  function AddShares(outcomes: map<nat, Outcome>, o: nat, side: Side, gain: int): map<nat, Outcome> {
    map k | k in outcomes ::
      if (k == o) == side.Yes? then outcomes[k].(quantity := outcomes[k].quantity + gain) else outcomes[k]
  }

  /** The writes of a checked bet: money to the house, the bet row, the shares, the version. */
  function RecordBet(db: Db, r: BetRequest, gain: int): (Db, Reply)
    requires r.market in db.markets
  {
    var m := db.markets[r.market];
    var (books, posting) := Attempt(db.books, r.account, m.house, r.amount, r.key);
    if posting.Refused? then (db, Failed(TransferFailed(posting.error)))
    else if BetKeyUsed(db.bets, r.key) then (db, Failed(BetAlreadyPlaced))
    else
      var bet := Bet(r.account, posting.transfer, r.outcome, r.side, gain, r.amount, r.key);
      (db.(books := books, bets := db.bets + [bet],
           outcomes := AddShares(db.outcomes, r.outcome, r.side, gain),
           markets := db.markets[r.market := m.(version := m.version + 1)]), Committed)
  }

  function PlaceBet(t: ExpLog, db: Db, r: BetRequest, now: int): (Db, Reply)
    requires t.Valid()
  {
    var (check, gain) := BetCheck(t, db, r, now);
    if check.Failed? then (db, check) else RecordBet(db, r, gain)
  }

  // ----- Cashing out -----

  predicate CashedOut(cashouts: seq<Cashout>, bet: nat) {
    exists i :: 0 <= i < |cashouts| && cashouts[i].bet == bet
  }

  predicate CashoutKeyUsed(cashouts: seq<Cashout>, key: string) {
    exists i :: 0 <= i < |cashouts| && cashouts[i].key == key
  }

  /** The lookup before the transaction: the bet, if it is the user's and not cashed out yet. */
  function FindBet(db: Db, bet: nat, user: string): Option<Bet> {
    if bet < |db.bets| && db.bets[bet].account in db.books.accounts
       && db.books.accounts[db.bets[bet].account].owner == user && !CashedOut(db.cashouts, bet)
    then Some(db.bets[bet]) else None
  }

  /** The bet is on an account of the user, and no cash-out row names it. */
  predicate OwnsUncashed(db: Db, bet: nat, user: string) {
    && bet < |db.bets| && db.bets[bet].account in db.books.accounts
    && db.books.accounts[db.bets[bet].account].owner == user
    && forall j :: 0 <= j < |db.cashouts| ==> db.cashouts[j].bet != bet
  }

  /** The checks inside the transaction; whether the bet is cashed out already is not one. */
  function CashoutCheck(t: ExpLog, db: Db, r: CashoutRequest, now: int): (Reply, int)
    requires t.Valid()
  {
    if !ClientKey(r.key) then (Failed(InvalidKey), 0)
    else if r.bet >= |db.bets| || db.bets[r.bet].outcome !in db.outcomes then (Failed(BetNotFound), 0)
    else
      var b := db.bets[r.bet];
      var home := db.outcomes[b.outcome].market;
      if home !in db.markets || !Trading(db.markets[home], now) then (Failed(MarketNotFound), 0)
      else
        var m := db.markets[home];
        if b.outcome !in m.outcomes then (Failed(OutcomeNotFound), 0)
        else
          var quote := Selling(t, Quantities(db.outcomes, m.outcomes), m.alpha, IndexOf(m.outcomes, b.outcome),
                               b.side.Yes?, Amount(b.payout), m.cap);
          if quote.Err? then (Failed(QuoteFailed(quote.error)), 0)
          else if quote.value.None? then (Failed(InvalidBetAmount), 0)
          else if quote.value.value < r.minGain || quote.value.value <= 0 then (Failed(InvalidQuotedGain), 0)
          else (Committed, quote.value.value)
  }

  /** The commit hedges the other outcomes of the market, whichever side was bought. */
  function AddHedge(outcomes: map<nat, Outcome>, market: Uuid, o: nat, shares: int): map<nat, Outcome> {
    map k | k in outcomes ::
      if outcomes[k].market == market && k != o
      then outcomes[k].(quantity := outcomes[k].quantity + shares) else outcomes[k]
  }

  /** The writes of a checked cash-out: money from the house, the row, the hedge, the version. */
  function RecordCashout(db: Db, r: CashoutRequest, gain: int): (Db, Reply)
    requires r.bet < |db.bets| && db.bets[r.bet].outcome in db.outcomes
    requires db.outcomes[db.bets[r.bet].outcome].market in db.markets
  {
    var b := db.bets[r.bet];
    var home := db.outcomes[b.outcome].market;
    var m := db.markets[home];
    var (books, posting) := Attempt(db.books, m.house, b.account, gain, r.key);
    if posting.Refused? then (db, Failed(TransferFailed(posting.error)))
    else if CashoutKeyUsed(db.cashouts, r.key) then (db, Failed(BetAlreadyCashedOut))
    else if CashedOut(db.cashouts, r.bet) then (db, Failed(UniqueViolation))
    else
      (db.(books := books, cashouts := db.cashouts + [Cashout(r.bet, posting.transfer, gain, r.key)],
           outcomes := AddHedge(db.outcomes, home, b.outcome, b.payout),
           markets := db.markets[home := m.(version := m.version + 1)]), Committed)
  }

  function CashOut(t: ExpLog, db: Db, r: CashoutRequest, now: int): (Db, Reply)
    requires t.Valid()
  {
    var (check, gain) := CashoutCheck(t, db, r, now);
    if check.Failed? then (db, check) else RecordCashout(db, r, gain)
  }

  // ----- Paying out -----

  const SETTLE_PREFIX := "settle:"

  function SettleKey(market: Uuid, account: Uuid): string {
    SETTLE_PREFIX + market + ":" + account
  }

  /** What the first k bets entitle an account to: the shares of its bets on the winner, or, for
      a refund, the price of its bets on the market. */
  datatype Claim = Win(winner: nat) | Refund(ids: seq<nat>)

  function ClaimOf(b: Bet, c: Claim): int {
    match c
    case Win(winner) => if b.outcome == winner then b.payout else 0
    case Refund(ids) => if b.outcome in ids then b.paid else 0
  }

  predicate Claims(b: Bet, c: Claim) {
    match c case Win(winner) => b.outcome == winner case Refund(ids) => b.outcome in ids
  }

  function OwedTo(bets: seq<Bet>, a: Uuid, c: Claim): int {
    if bets == [] then 0
    else OwedTo(bets[..|bets| - 1], a, c) + (if bets[|bets| - 1].account == a then ClaimOf(bets[|bets| - 1], c) else 0)
  }

  function OwedInAll(bets: seq<Bet>, c: Claim): int {
    if bets == [] then 0 else OwedInAll(bets[..|bets| - 1], c) + ClaimOf(bets[|bets| - 1], c)
  }

  /** A grouping of the bets by account, in whatever order the database returns the groups. */
  ghost predicate IsGrouping(bets: seq<Bet>, c: Claim, order: seq<Uuid>) {
    && (forall i, j :: 0 <= i < j < |order| ==> order[i] != order[j])
    && (forall i :: 0 <= i < |bets| && Claims(bets[i], c) ==> bets[i].account in order)
    && (forall j :: 0 <= j < |order| ==>
          exists i :: 0 <= i < |bets| && Claims(bets[i], c) && bets[i].account == order[j])
  }

  datatype Paid = AllPaid(books: Books) | Stopped(error: LedgerError)

  /** Pay the accounts of `order` in turn, stopping at the first refusal. */
  function PayInTurn(books: Books, market: Uuid, house: Uuid, bets: seq<Bet>, c: Claim, order: seq<Uuid>): Paid {
    if order == [] then AllPaid(books)
    else
      var before := PayInTurn(books, market, house, bets, c, order[..|order| - 1]);
      if before.Stopped? then before
      else
        var a := order[|order| - 1];
        var (books', posting) := Attempt(before.books, house, a, OwedTo(bets, a, c), SettleKey(market, a));
        if posting.Refused? then Stopped(posting.error) else AllPaid(books')
  }

  function Settle(db: Db, market: Uuid, winner: nat, order: seq<Uuid>): (Db, Reply) {
    if winner !in db.outcomes then (db, Failed(OutcomeNotFound))
    else if db.outcomes[winner].market != market then (db, Failed(WrongMarket))
    else if market !in db.markets || !db.markets[market].status.Live() then (db, Failed(MarketNotFound))
    else if market in db.resolutions then (db, Failed(AlreadyResolved))
    else
      var m := db.markets[market];
      var paid := PayInTurn(db.books, market, m.house, db.bets, Win(winner), order);
      if paid.Stopped? then (db, Failed(TransferFailed(paid.error)))
      else (db.(books := paid.books, resolutions := db.resolutions[market := winner],
                markets := db.markets[market := m.(status := Resolved, version := m.version + 1)]), Committed)
  }

  function Cancel(db: Db, market: Uuid, order: seq<Uuid>): (Db, Reply) {
    if market !in db.markets || !db.markets[market].status.Live() then (db, Failed(MarketNotFound))
    else if market in db.cancellations then (db, Failed(AlreadyCancelled))
    else
      var m := db.markets[market];
      var paid := PayInTurn(db.books, market, m.house, db.bets, Refund(m.outcomes), order);
      if paid.Stopped? then (db, Failed(TransferFailed(paid.error)))
      else (db.(books := paid.books, cancellations := db.cancellations + {market},
                markets := db.markets[market := m.(status := Cancelled, version := m.version + 1)]), Committed)
  }

  // ----- Administration -----

  /** A status update, subject to the trigger that keeps final statuses final. */
  function SetStatus(db: Db, market: Uuid, status: Status): (Db, Reply) {
    if market !in db.markets then (db, Failed(MarketNotFound))
    else
      var m := db.markets[market];
      if m.status.Final() && m.status != status then (db, Failed(StatusIsFinal))
      else (db.(markets := db.markets[market := m.(status := status)]), Committed)
  }

  /** Rows get fresh identifiers; outcome identifiers ascend in insertion order. */
  predicate FreshRows(db: Db, id: Uuid, house: Uuid, ids: seq<nat>) {
    && id !in db.markets && house !in db.books.accounts
    && (forall i :: 0 <= i < |ids| ==> ids[i] !in db.outcomes)
    && (forall i, j :: 0 <= i < j < |ids| ==> ids[i] < ids[j])
  }

  function Seeded(ids: seq<nat>, market: Uuid, seed: int): map<nat, Outcome> {
    map k | k in ids :: Outcome(market, seed)
  }

  const CURRENCY := "USDT"

  /** A new draft market with its own house account, every outcome seeded alike; it fails when
      its opening prices cannot be computed. */
  function CreateMarket(db: Db, id: Uuid, house: Uuid, seed: int, alpha: real, cap: real,
                        closeTime: Option<int>, ids: seq<nat>): (Db, Reply)
  {
    if !FreshRows(db, id, house, ids) then (db, Failed(UniqueViolation))
    else
      var rows := Seeded(ids, id, seed);
      if seed < 0 || Objection(Quantities(rows, ids), alpha).Some? then (db, Failed(InvalidMarket))
      else
        (db.(books := db.books.(accounts := db.books.accounts[house := Account("", 0, CURRENCY, false, true, 0)]),
             markets := db.markets[id := Market(house, seed, alpha, cap, Draft, closeTime, 0, ids)],
             outcomes := db.outcomes + rows), Committed)
  }

  function OpenAccount(db: Db, id: Uuid, owner: string, allowNegative: bool, allowPositive: bool): (Db, Reply) {
    if id in db.books.accounts || owner == "" then (db, Failed(UniqueViolation))
    else (db.(books := db.books.(accounts :=
                db.books.accounts[id := Account(owner, 0, CURRENCY, allowNegative, allowPositive, 0)])), Committed)
  }

  /** Any other transfer, such as a deposit or the funding of a house account. */
  function Fund(db: Db, from: Uuid, to: Uuid, amount: int, key: string): (Db, Reply) {
    if !ClientKey(key) then (db, Failed(InvalidKey))
    else
      var (books, posting) := Attempt(db.books, from, to, amount, key);
      if posting.Refused? then (db, Failed(TransferFailed(posting.error)))
      else (db.(books := books), Committed)
  }

  // ----- Runs -----

  datatype Event =
    | EOpenAccount(id: Uuid, owner: string, allowNegative: bool, allowPositive: bool)
    | EFund(from: Uuid, to: Uuid, amount: int, key: string)
    | ECreateMarket(newId: Uuid, house: Uuid, seed: int, alpha: real, cap: real, closeTime: Option<int>, ids: seq<nat>)
    | EPlaceBet(bet: BetRequest, betAt: int)
    | ECashOut(cashout: CashoutRequest, cashoutAt: int)
    | ESetStatus(target: Uuid, status: Status)
    | ESettle(settled: Uuid, winner: nat, payees: seq<Uuid>)
    | ECancel(cancelled: Uuid, refunded: seq<Uuid>)

  /** Which events can happen: pausing and resuming are the only plain status updates, and the
      rows of a payout come grouped by account. */
  ghost predicate Possible(db: Db, e: Event) {
    match e
    case ESetStatus(_, status) => status.Live()
    case ESettle(_, winner, payees) => IsGrouping(db.bets, Win(winner), payees)
    case ECancel(market, refunded) =>
      market in db.markets ==> IsGrouping(db.bets, Refund(db.markets[market].outcomes), refunded)
    case _ => true
  }

  function Step(t: ExpLog, db: Db, e: Event): (Db, Reply)
    requires t.Valid()
  {
    match e
    case EOpenAccount(id, owner, neg, pos) => OpenAccount(db, id, owner, neg, pos)
    case EFund(from, to, amount, key) => Fund(db, from, to, amount, key)
    case ECreateMarket(id, house, seed, alpha, cap, closeTime, ids) =>
      CreateMarket(db, id, house, seed, alpha, cap, closeTime, ids)
    case EPlaceBet(bet, now) => PlaceBet(t, db, bet, now)
    case ECashOut(cashout, now) => CashOut(t, db, cashout, now)
    case ESetStatus(market, status) => SetStatus(db, market, status)
    case ESettle(market, winner, order) => Settle(db, market, winner, order)
    case ECancel(market, order) => Cancel(db, market, order)
  }

  const EMPTY_DB := Db(Books(map[], [], []), map[], map[], [], [], map[], {})

  function Run(t: ExpLog, db: Db, events: seq<Event>): Db
    requires t.Valid()
  {
    if events == [] then db else Step(t, Run(t, db, events[..|events| - 1]), events[|events| - 1]).0
  }

  ghost predicate PossibleRun(t: ExpLog, db: Db, events: seq<Event>)
    requires t.Valid()
  {
    events == [] ||
    (PossibleRun(t, db, events[..|events| - 1]) &&
     Possible(Run(t, db, events[..|events| - 1]), events[|events| - 1]))
  }
}
