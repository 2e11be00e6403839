/**
  The transactions as they run: statements update the tables one after another inside a
  transaction, and any error rolls all of them back.  Every method is proved to take the state
  exactly where the step of `Exchange` takes it.
*/
module TransactionManager {
  import opened Transcendental
  import opened Ledger
  import opened Options
  import opened Amounts
  import Engine
  import opened Exchange

  const MAX_ATTEMPTS := 3

  class Manager {
    const store: Store
    var markets: map<Uuid, Market>
    var outcomes: map<nat, Outcome>
    var bets: seq<Bet>
    var cashouts: seq<Cashout>
    var resolutions: map<Uuid, nat>
    var cancellations: set<Uuid>

    function View(): Db
      reads this, store
    {
      Db(store.View(), markets, outcomes, bets, cashouts, resolutions, cancellations)
    }

    constructor ()
      ensures View() == EMPTY_DB && fresh(store)
    {
      store := new Store(map[]);
      markets, outcomes, bets, cashouts, resolutions, cancellations := map[], map[], [], [], map[], {};
    }

    method Rollback(saved: Db)
      modifies this, store
      ensures View() == saved
    {
      store.Restore(saved.books);
      markets, outcomes, bets, cashouts := saved.markets, saved.outcomes, saved.bets, saved.cashouts;
      resolutions, cancellations := saved.resolutions, saved.cancellations;
    }

    method FindBetKey(key: string) returns (found: bool)
      ensures found == BetKeyUsed(bets, key)
    {
      for i := 0 to |bets|
        invariant forall j :: 0 <= j < i ==> bets[j].key != key
      {
        if bets[i].key == key {
          return true;
        }
      }
      return false;
    }

    method FindCashout(key: string, bet: nat) returns (sameKey: bool, sameBet: bool)
      ensures sameKey == CashoutKeyUsed(cashouts, key)
      ensures sameBet == CashedOut(cashouts, bet)
    {
      sameKey, sameBet := false, false;
      for i := 0 to |cashouts|
        invariant sameKey == exists j :: 0 <= j < i && cashouts[j].key == key
        invariant sameBet == exists j :: 0 <= j < i && cashouts[j].bet == bet
      {
        if cashouts[i].key == key {
          sameKey := true;
        }
        if cashouts[i].bet == bet {
          sameBet := true;
        }
      }
    }

    method IndexOfOutcome(ids: seq<nat>, o: nat) returns (idx: int)
      ensures o in ids ==> idx == IndexOf(ids, o)
      ensures o !in ids ==> idx == -1
    {
      for i := 0 to |ids|
        invariant o !in ids[..i]
      {
        if ids[i] == o {
          FirstIndexIsUnique(ids, o, i);
          return i;
        }
      }
      return -1;
    }

    /** Read the market and the balance and recompute the quote, before anything is written. */
    method CheckBet(t: ExpLog, r: BetRequest, now: int) returns (reply: Reply, gain: int)
      requires t.Valid()
      requires ClientKey(r.key) && MIN_BET_AMOUNT <= r.amount <= MAX_BET_AMOUNT && r.minGain > r.amount
      ensures (reply, gain) == BetCheck(t, View(), r, now)
    {
      if r.market !in markets || !Trading(markets[r.market], now) {
        return Failed(MarketNotFound), 0;
      }
      var m := markets[r.market];
      if |m.outcomes| == 2 && r.side == No {
        return Failed(NoBetOnBinaryMarket), 0;
      }
      var idx := IndexOfOutcome(m.outcomes, r.outcome);
      if idx == -1 {
        return Failed(OutcomeNotFound), 0;
      }
      if r.account !in store.accounts || r.user == "" || store.accounts[r.account].owner != r.user {
        return Failed(AccountUnknown), 0;
      }
      if store.accounts[r.account].balance < r.amount {
        return Failed(InsufficientFunds), 0;
      }
      var quote := Engine.PossibleGainPriceForBuy(t, Quantities(outcomes, m.outcomes), idx, r.side == Yes,
                                                  m.alpha, Amount(r.amount), m.cap);
      if quote.Err? {
        return Failed(QuoteFailed(quote.error)), 0;
      }
      if quote.value.gain < r.minGain {
        return Failed(InvalidQuotedGain), 0;
      }
      return Committed, quote.value.gain;
    }

    method WriteBet(r: BetRequest, gain: int) returns (reply: Reply)
      requires r.market in markets
      modifies this, store
      ensures (View(), reply) == RecordBet(old(View()), r, gain)
    {
      var saved := View();
      var m := markets[r.market];
      var posting := store.CreateTransfer(r.account, m.house, r.amount, r.key);
      if posting.Refused? {
        return Failed(TransferFailed(posting.error));
      }
      var placed := FindBetKey(r.key);
      if placed {
        Rollback(saved);
        return Failed(BetAlreadyPlaced);
      }
      bets := bets + [Bet(r.account, posting.transfer, r.outcome, r.side, gain, r.amount, r.key)];
      outcomes := AddShares(outcomes, r.outcome, r.side, gain);
      markets := markets[r.market := m.(version := m.version + 1)];
      return Committed;
    }

    /** One attempt to place a bet, in one transaction. */
    method AddBetOnce(t: ExpLog, r: BetRequest, now: int) returns (reply: Reply)
      requires t.Valid()
      requires ClientKey(r.key) && MIN_BET_AMOUNT <= r.amount <= MAX_BET_AMOUNT && r.minGain > r.amount
      modifies this, store
      ensures (View(), reply) == PlaceBet(t, old(View()), r, now)
    {
      var check, gain := CheckBet(t, r, now);
      if check.Failed? {
        return check;
      }
      reply := WriteBet(r, gain);
    }

    /**
      Place a bet with up to three attempts; `aborted(k)` says whether the database aborts
      attempt k for a serialization failure or a deadlock, which undoes it.  The bet is placed
      at most once, and not at all only when refused or aborted three times.
    */
    method AddBet(t: ExpLog, r: BetRequest, now: int, aborted: nat -> bool) returns (reply: Reply)
      requires t.Valid()
      modifies this, store
      ensures (forall k :: 0 <= k < 3 ==> aborted(k)) && PlaceBet(t, old(View()), r, now).1.Committed? ==>
                View() == old(View()) && reply == Failed(SerializationFailure)
      ensures !(forall k :: 0 <= k < 3 ==> aborted(k)) ==> (View(), reply) == PlaceBet(t, old(View()), r, now)
      ensures reply.Committed? ==> View() == PlaceBet(t, old(View()), r, now).0
      ensures reply.Failed? ==> View() == old(View())
    {
      if !ClientKey(r.key) {
        return Failed(InvalidKey);
      }
      if r.amount < MIN_BET_AMOUNT || r.amount > MAX_BET_AMOUNT {
        return Failed(InvalidBetAmount);
      }
      if r.minGain <= r.amount {
        return Failed(InvalidQuotedGain);
      }
      ghost var before := View();
      for attempt := 0 to MAX_ATTEMPTS
        invariant View() == before
        invariant forall k :: 0 <= k < attempt ==> aborted(k)
      {
        var saved := View();
        reply := AddBetOnce(t, r, now);
        if aborted(attempt) {
          Rollback(saved);
        } else {
          return reply;
        }
      }
      return Failed(SerializationFailure);
    }

    /** Read the market and recompute what the cash-out pays, before anything is written. */
    method CheckCashout(t: ExpLog, r: CashoutRequest, now: int) returns (reply: Reply, gain: int)
      requires t.Valid()
      ensures (reply, gain) == CashoutCheck(t, View(), r, now)
    {
      if !ClientKey(r.key) {
        return Failed(InvalidKey), 0;
      }
      if r.bet >= |bets| || bets[r.bet].outcome !in outcomes {
        return Failed(BetNotFound), 0;
      }
      var b := bets[r.bet];
      var home := outcomes[b.outcome].market;
      if home !in markets || !Trading(markets[home], now) {
        return Failed(MarketNotFound), 0;
      }
      var m := markets[home];
      var idx := IndexOfOutcome(m.outcomes, b.outcome);
      if idx == -1 {
        return Failed(OutcomeNotFound), 0;
      }
      var quote := Engine.PossibleGainForSell(t, Quantities(outcomes, m.outcomes), idx, b.side == Yes,
                                              m.alpha, Amount(b.payout), m.cap);
      if quote.Err? {
        return Failed(QuoteFailed(quote.error)), 0;
      }
      if quote.value.None? {
        return Failed(InvalidBetAmount), 0;
      }
      if quote.value.value < r.minGain || quote.value.value <= 0 {
        return Failed(InvalidQuotedGain), 0;
      }
      return Committed, quote.value.value;
    }

    method WriteCashout(r: CashoutRequest, gain: int) returns (reply: Reply)
      requires r.bet < |bets| && bets[r.bet].outcome in outcomes && outcomes[bets[r.bet].outcome].market in markets
      modifies this, store
      ensures (View(), reply) == RecordCashout(old(View()), r, gain)
    {
      var saved := View();
      var b := bets[r.bet];
      var home := outcomes[b.outcome].market;
      var m := markets[home];
      var posting := store.CreateTransfer(m.house, b.account, gain, r.key);
      if posting.Refused? {
        return Failed(TransferFailed(posting.error));
      }
      var sameKey, sameBet := FindCashout(r.key, r.bet);
      if sameKey {
        Rollback(saved);
        return Failed(BetAlreadyCashedOut);
      }
      if sameBet {
        Rollback(saved);
        return Failed(UniqueViolation);
      }
      cashouts := cashouts + [Cashout(r.bet, posting.transfer, gain, r.key)];
      outcomes := AddHedge(outcomes, home, b.outcome, b.payout);
      markets := markets[home := m.(version := m.version + 1)];
      return Committed;
    }

    /** One attempt to cash out a bet that was looked up earlier. */
    method CashoutBetOnce(t: ExpLog, r: CashoutRequest, now: int) returns (reply: Reply)
      requires t.Valid()
      modifies this, store
      ensures (View(), reply) == CashOut(t, old(View()), r, now)
    {
      var check, gain := CheckCashout(t, r, now);
      if check.Failed? {
        return check;
      }
      reply := WriteCashout(r, gain);
    }

    /** Cash out with up to three attempts. */
    method CashoutBet(t: ExpLog, r: CashoutRequest, user: string, now: int, aborted: nat -> bool) returns (reply: Reply)
      requires t.Valid()
      modifies this, store
      ensures FindBet(old(View()), r.bet, user).None? ==> View() == old(View()) && reply == Failed(BetNotFound)
      ensures FindBet(old(View()), r.bet, user).Some? && !(forall k :: 0 <= k < 3 ==> aborted(k)) ==>
                (View(), reply) == CashOut(t, old(View()), r, now)
      ensures reply.Committed? ==> OwnsUncashed(old(View()), r.bet, user)
      ensures !OwnsUncashed(old(View()), r.bet, user) ==> reply == Failed(BetNotFound)
      ensures reply.Committed? ==> View() == CashOut(t, old(View()), r, now).0
      ensures reply.Failed? ==> View() == old(View())
    {
      if FindBet(View(), r.bet, user).None? {
        return Failed(BetNotFound);
      }
      ghost var before := View();
      for attempt := 0 to MAX_ATTEMPTS
        invariant View() == before
        invariant forall k :: 0 <= k < attempt ==> aborted(k)
      {
        var saved := View();
        reply := CashoutBetOnce(t, r, now);
        if aborted(attempt) {
          Rollback(saved);
        } else {
          return reply;
        }
      }
      return Failed(SerializationFailure);
    }

    /** Pay every account of `order` from the house; false as soon as one transfer is refused. */
    method PayAll(market: Uuid, house: Uuid, c: Claim, order: seq<Uuid>) returns (refused: Option<LedgerError>)
      modifies store
      ensures var p := PayInTurn(old(store.View()), market, house, bets, c, order);
              match refused
              case None => p == AllPaid(store.View())
              case Some(error) => p == Stopped(error)
    {
      ghost var start := store.View();
      for i := 0 to |order|
        invariant PayInTurn(start, market, house, bets, c, order[..i]) == AllPaid(store.View())
      {
        assert order[..i + 1][..i] == order[..i];
        var posting := store.CreateTransfer(house, order[i], OwedTo(bets, order[i], c), SettleKey(market, order[i]));
        if posting.Refused? {
          StoppedStaysStopped(start, market, house, bets, c, order, i + 1);
          return Some(posting.error);
        }
      }
      assert order[..|order|] == order;
      return None;
    }

    method SettleMarket(market: Uuid, winner: nat, order: seq<Uuid>) returns (reply: Reply)
      modifies this, store
      ensures (View(), reply) == Settle(old(View()), market, winner, order)
    {
      var saved := View();
      if winner !in outcomes {
        return Failed(OutcomeNotFound);
      }
      if outcomes[winner].market != market {
        return Failed(WrongMarket);
      }
      if market !in markets || !markets[market].status.Live() {
        return Failed(MarketNotFound);
      }
      var m := markets[market];
      if market in resolutions {
        return Failed(AlreadyResolved);
      }
      resolutions := resolutions[market := winner];
      var refused := PayAll(market, m.house, Win(winner), order);
      if refused.Some? {
        Rollback(saved);
        return Failed(TransferFailed(refused.value));
      }
      markets := markets[market := m.(status := Resolved, version := m.version + 1)];
      return Committed;
    }

    method CancelMarket(market: Uuid, order: seq<Uuid>) returns (reply: Reply)
      modifies this, store
      ensures (View(), reply) == Cancel(old(View()), market, order)
    {
      var saved := View();
      if market !in markets || !markets[market].status.Live() {
        return Failed(MarketNotFound);
      }
      var m := markets[market];
      if market in cancellations {
        return Failed(AlreadyCancelled);
      }
      cancellations := cancellations + {market};
      var refused := PayAll(market, m.house, Refund(m.outcomes), order);
      if refused.Some? {
        Rollback(saved);
        return Failed(TransferFailed(refused.value));
      }
      markets := markets[market := m.(status := Cancelled, version := m.version + 1)];
      return Committed;
    }

    method InsertOutcomes(id: Uuid, seed: int, ids: seq<nat>)
      modifies this`outcomes
      ensures outcomes == old(outcomes) + Seeded(ids, id, seed)
    {
      ghost var before := outcomes;
      for i := 0 to |ids|
        invariant outcomes == before + Seeded(ids[..i], id, seed)
      {
        outcomes := outcomes[ids[i] := Outcome(id, seed)];
        assert ids[..i + 1] == ids[..i] + [ids[i]];
      }
      assert ids[..|ids|] == ids;
    }

    /** A new draft market with its house account and seeded outcomes, in one transaction. */
    method CreateMarket(t: ExpLog, id: Uuid, house: Uuid, seed: int, alpha: real, cap: real,
                        closeTime: Option<int>, ids: seq<nat>)
      returns (reply: Reply)
      requires t.Valid()
      modifies this, store
      ensures (View(), reply) == Exchange.CreateMarket(old(View()), id, house, seed, alpha, cap, closeTime, ids)
    {
      var saved := View();
      if !FreshRows(saved, id, house, ids) {
        return Failed(UniqueViolation);
      }
      if seed < 0 {
        return Failed(InvalidMarket);
      }
      store.OpenAccount(house, "", CURRENCY, false, true);
      markets := markets[id := Market(house, seed, alpha, cap, Draft, closeTime, 0, ids)];
      InsertOutcomes(id, seed, ids);
      SeededQuantities(saved.outcomes, id, seed, ids);
      var prices := Engine.PricesNormalized(t, Quantities(outcomes, ids), alpha);
      if prices.Err? {
        Rollback(saved);
        return Failed(InvalidMarket);
      }
      return Committed;
    }

    method UpdateStatus(market: Uuid, status: Status) returns (reply: Reply)
      modifies this
      ensures (View(), reply) == SetStatus(old(View()), market, status)
    {
      if market !in markets {
        return Failed(MarketNotFound);
      }
      var m := markets[market];
      if m.status.Final() && m.status != status {
        return Failed(StatusIsFinal);
      }
      markets := markets[market := m.(status := status)];
      return Committed;
    }
  }

  lemma SeededQuantities(outcomes: map<nat, Outcome>, id: Uuid, seed: int, ids: seq<nat>)
    ensures Quantities(outcomes + Seeded(ids, id, seed), ids) == Quantities(Seeded(ids, id, seed), ids)
  {
  }

  lemma FirstIndexIsUnique(ids: seq<nat>, o: nat, i: nat)
    requires i < |ids| && ids[i] == o && o !in ids[..i]
    ensures IndexOf(ids, o) == i
  {
    var k := IndexOf(ids, o);
    forall j | 0 <= j < i ensures ids[j] != o {
      assert ids[..i][j] == ids[j];
    }
    forall j | 0 <= j < k ensures ids[j] != o {
      assert ids[..k][j] == ids[j];
    }
  }

  lemma {:induction false} StoppedStaysStopped(b: Books, market: Uuid, house: Uuid, bets: seq<Bet>, c: Claim,
                                               order: seq<Uuid>, k: nat)
    requires k <= |order| && PayInTurn(b, market, house, bets, c, order[..k]).Stopped?
    ensures PayInTurn(b, market, house, bets, c, order) == PayInTurn(b, market, house, bets, c, order[..k])
    decreases |order| - k
  {
    if k == |order| {
      assert order[..k] == order;
    } else {
      assert order[..k + 1][..k] == order[..k];
      StoppedStaysStopped(b, market, house, bets, c, order, k + 1);
    }
  }
}
