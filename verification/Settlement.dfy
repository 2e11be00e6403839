/**
  Paying out: when a settlement or a cancellation commits, what it pays to whom, and what that
  means for the house account.
*/
module Settlement {
  import opened Transcendental
  import MarketMaker
  import opened Ledger
  import LedgerInvariant
  import opened Amounts
  import opened Exchange
  import opened ExchangeInvariant
  import opened Solvency

  // ----- Open bets -----

  /** The bets that are counted: all, or those of one account. */
  datatype Whose = Everyone | Of(account: Uuid)

  predicate Counts(who: Whose, b: Bet) {
    match who case Everyone => true case Of(a) => b.account == a
  }

  /** What the bets entitle the given account, or all accounts, to. */
  function Owed(bets: seq<Bet>, who: Whose, c: Claim): int {
    match who case Everyone => OwedInAll(bets, c) case Of(a) => OwedTo(bets, a, c)
  }

  /** Shares of the first k bets on outcome o that are on the given side and not cashed out. */
  function OpenTo(bets: seq<Bet>, cashouts: seq<Cashout>, who: Whose, o: nat, side: Side, k: nat): int
    requires k <= |bets|
  {
    if k == 0 then 0
    else OpenTo(bets, cashouts, who, o, side, k - 1) +
         (if Counts(who, bets[k - 1]) && bets[k - 1].outcome == o && bets[k - 1].side == side && !CashedOut(cashouts, k - 1)
          then bets[k - 1].payout else 0)
  }

  function OpenShares(db: Db, o: nat, side: Side): int {
    OpenTo(db.bets, db.cashouts, Everyone, o, side, |db.bets|)
  }

  /** Shares of the first k bets on outcome o that are cashed out. */
  function ClosedTo(bets: seq<Bet>, cashouts: seq<Cashout>, who: Whose, o: nat, k: nat): int
    requires k <= |bets|
  {
    if k == 0 then 0
    else ClosedTo(bets, cashouts, who, o, k - 1) +
         (if Counts(who, bets[k - 1]) && bets[k - 1].outcome == o && CashedOut(cashouts, k - 1) then bets[k - 1].payout else 0)
  }

  lemma OwedOneMore(bets: seq<Bet>, b: Bet, who: Whose, c: Claim)
    ensures Owed(bets + [b], who, c) == Owed(bets, who, c) + (if Counts(who, b) then ClaimOf(b, c) else 0)
  {
    assert (bets + [b])[..|bets|] == bets;
  }

  lemma {:induction false} SharesSplit(bets: seq<Bet>, cashouts: seq<Cashout>, who: Whose, o: nat, k: nat)
    requires k <= |bets|
    ensures Owed(bets[..k], who, Win(o)) ==
            OpenTo(bets, cashouts, who, o, Yes, k) + OpenTo(bets, cashouts, who, o, No, k) + ClosedTo(bets, cashouts, who, o, k)
  {
    if k > 0 {
      SharesSplit(bets, cashouts, who, o, k - 1);
      assert bets[..k] == bets[..k - 1] + [bets[k - 1]];
      OwedOneMore(bets[..k - 1], bets[k - 1], who, Win(o));
    }
  }

  lemma {:induction false} ClosedAfterCashout(bets: seq<Bet>, cashouts: seq<Cashout>, c: Cashout, o: nat, k: nat)
    requires k <= |bets| && c.bet < |bets| && !CashedOut(cashouts, c.bet)
    ensures ClosedTo(bets, cashouts + [c], Everyone, o, k) ==
            ClosedTo(bets, cashouts, Everyone, o, k) + (if c.bet < k && bets[c.bet].outcome == o then bets[c.bet].payout else 0)
  {
    if k > 0 {
      ClosedAfterCashout(bets, cashouts, c, o, k - 1);
      var all := cashouts + [c];
      assert CashedOut(all, k - 1) <==> CashedOut(cashouts, k - 1) || c.bet == k - 1 by {
        assert all[|cashouts|] == c;
        if CashedOut(cashouts, k - 1) {
          var i :| 0 <= i < |cashouts| && cashouts[i].bet == k - 1;
          assert all[i].bet == k - 1;
        }
      }
    }
  }

  lemma {:induction false} NoneClosed(bets: seq<Bet>, o: nat, k: nat)
    requires k <= |bets|
    ensures ClosedTo(bets, [], Everyone, o, k) == 0
  {
    if k > 0 {
      NoneClosed(bets, o, k - 1);
    }
  }

  /** Counting cashed-out shares by bet or by cash-out gives the same total. */
  lemma {:induction false} ClosedIsCashed(bets: seq<Bet>, cashouts: seq<Cashout>, o: nat)
    requires Known(bets, cashouts) && CashedOnce(cashouts)
    ensures ClosedTo(bets, cashouts, Everyone, o, |bets|) == CashedOn(bets, cashouts, o)
  {
    if cashouts == [] {
      NoneClosed(bets, o, |bets|);
    } else {
      var (front, last) := (cashouts[..|cashouts| - 1], cashouts[|cashouts| - 1]);
      assert cashouts == front + [last];
      ClosedIsCashed(bets, front, o);
      ClosedAfterCashout(bets, front, last, o, |bets|);
    }
  }

  /** What settling pays: the open yes and no bets on the winner, and all shares on it that were
      cashed out. */
  lemma PaidBySettling(db: Db, winner: nat)
    requires RowsKnown(db) && CashedOnce(db.cashouts)
    ensures SharesOn(db.bets, winner) ==
            OpenShares(db, winner, Yes) + OpenShares(db, winner, No) + CashedOn(db.bets, db.cashouts, winner)
  {
    SharesSplit(db.bets, db.cashouts, Everyone, winner, |db.bets|);
    assert db.bets[..|db.bets|] == db.bets;
    ClosedIsCashed(db.bets, db.cashouts, winner);
  }

  // ----- Bounded loss of a market -----

  lemma {:induction false} NoSideIsEmpty(bets: seq<Bet>, cashouts: seq<Cashout>, o: nat, k: nat)
    requires k <= |bets| && AllYes(bets)
    ensures OpenTo(bets, cashouts, Everyone, o, No, k) == 0
  {
    if k > 0 {
      NoSideIsEmpty(bets, cashouts, o, k - 1);
    }
  }

  lemma OpenYesShares(db: Db, o: nat)
    requires Consistent(db) && AllYes(db.bets)
    ensures OpenShares(db, o, Yes) == SharesOn(db.bets, o) - CashedOn(db.bets, db.cashouts, o)
  {
    RowsAreKnown(db);
    PaidBySettling(db, o);
    NoSideIsEmpty(db.bets, db.cashouts, o, |db.bets|);
  }

  lemma CoveredMarketCoversOpenBets(t: ExpLog, db: Db, alpha: real, seed: int, ids: seq<nat>, i: nat)
    requires t.Valid() && CoveredBy(t, db, alpha, seed, ids) && i < |ids|
    requires OpenShares(db, ids[i], Yes) == SharesOn(db.bets, ids[i]) - CashedOn(db.bets, db.cashouts, ids[i])
    ensures Amount(TakingsOf(db, ids)) >= Amount(OpenShares(db, ids[i], Yes)) - SeedBound(t, alpha, seed, |ids|)
  {
    CostOfCoveredMarket(t, db, alpha, seed, ids, i);
  }

  lemma CostOfCoveredMarket(t: ExpLog, db: Db, alpha: real, seed: int, ids: seq<nat>, i: nat)
    requires t.Valid() && i < |ids| && CoveredBy(t, db, alpha, seed, ids)
    ensures Amount(TakingsOf(db, ids)) >=
            Amount(SharesOn(db.bets, ids[i]) - CashedOn(db.bets, db.cashouts, ids[i])) - SeedBound(t, alpha, seed, |ids|)
  {
    var q := Quantities(db.outcomes, ids);
    MarketMaker.CostAboveEachQuantity(t, q, alpha, i);
    var (open, cashed) := (SharesOn(db.bets, ids[i]) - CashedOn(db.bets, db.cashouts, ids[i]), CashedIn(db.bets, db.cashouts, ids));
    AmountAdds(seed, open);
    AmountAdds(seed + open, cashed);
  }

  /**
    Bounded loss in the tables: however yes bets, cash-outs, funding, pauses, settlements and
    cancellations of any markets interleave, and whichever of them fail, what every market took
    in covers its open bets on each outcome, less at most alpha * n * seed * ln n.
  */
  lemma TakingsCoverOpenBets(t: ExpLog, events: seq<Event>, id: Uuid, i: nat)
    requires t.Valid() && PossibleRun(t, EMPTY_DB, events)
    requires forall k :: 0 <= k < |events| ==> YesEvent(events[k])
    requires id in Run(t, EMPTY_DB, events).markets
    requires i < |Run(t, EMPTY_DB, events).markets[id].outcomes|
    ensures var db := Run(t, EMPTY_DB, events);
            var m := db.markets[id];
            Amount(TakingsOf(db, m.outcomes)) >=
            Amount(OpenShares(db, m.outcomes[i], Yes)) - SeedBound(t, m.alpha, m.seed, |m.outcomes|)
  {
    EmptyIsConsistent();
    ReachableIsConsistent(t, events);
    RunKeepsCovered(t, EMPTY_DB, events);
    var db := Run(t, EMPTY_DB, events);
    var m := db.markets[id];
    OpenYesShares(db, m.outcomes[i]);
    assert Covered(t, db, id);
    CoveredMarketCoversOpenBets(t, db, m.alpha, m.seed, m.outcomes, i);
  }

  // ----- Paying accounts in turn -----

  function OwedToAll(bets: seq<Bet>, order: seq<Uuid>, c: Claim): int {
    if order == [] then 0
    else OwedToAll(bets, order[..|order| - 1], c) + OwedTo(bets, order[|order| - 1], c)
  }

  /** The account can be paid by the house for this claim. */
  ghost predicate Payable(b: Books, market: Uuid, house: Uuid, bets: seq<Bet>, c: Claim, a: Uuid) {
    && a != house && a in b.accounts && b.accounts[a].currency == CURRENCY && b.accounts[a].allowPositive
    && AllowsBalance(b.accounts[a])
    && OwedTo(bets, a, c) > 0
    && !KeyUsed(b, SettleKey(market, a))
  }

  ghost predicate AllPayable(b: Books, market: Uuid, house: Uuid, bets: seq<Bet>, c: Claim, order: seq<Uuid>) {
    && HouseOk(b, house)
    && (forall i :: 0 <= i < |order| ==> Payable(b, market, house, bets, c, order[i]))
    && (forall i, j :: 0 <= i < j < |order| ==> order[i] != order[j])
  }

  function BalanceOf(b: Books, a: Uuid): int {
    if a in b.accounts then b.accounts[a].balance else 0
  }

  /** The books after the accounts of `order` are paid what they are owed by the house. */
  ghost predicate PaidInFull(b: Books, b': Books, house: Uuid, bets: seq<Bet>, c: Claim, order: seq<Uuid>) {
    && BalanceOf(b', house) == BalanceOf(b, house) - OwedToAll(bets, order, c)
    && (forall a: Uuid :: a in order ==> BalanceOf(b', a) == BalanceOf(b, a) + OwedTo(bets, a, c))
    && (forall a: Uuid :: a != house && a !in order ==> BalanceOf(b', a) == BalanceOf(b, a))
  }

  /** A single payment to a payable account goes through exactly when the house can afford it. */
  lemma OnePayment(b: Books, market: Uuid, house: Uuid, bets: seq<Bet>, c: Claim, a: Uuid)
    requires HouseOk(b, house) && Payable(b, market, house, bets, c, a)
    ensures Refusal(b, house, a, OwedTo(bets, a, c), SettleKey(market, a)).Posted? <==>
            b.accounts[house].balance >= OwedTo(bets, a, c)
    ensures Refusal(b, house, a, OwedTo(bets, a, c), SettleKey(market, a)).Posted? ==>
              var b' := Post(b, house, a, OwedTo(bets, a, c), SettleKey(market, a));
              && BalanceOf(b', house) == BalanceOf(b, house) - OwedTo(bets, a, c)
              && BalanceOf(b', a) == BalanceOf(b, a) + OwedTo(bets, a, c)
              && forall other: Uuid :: other != a && other != house ==> BalanceOf(b', other) == BalanceOf(b, other)
  {
    SettleKeyIsNoClientKey(market, a);
  }

  lemma PayableAfter(b: Books, b': Books, market: Uuid, house: Uuid, bets: seq<Bet>, c: Claim, a: Uuid)
    requires Grown(b, b') && Payable(b, market, house, bets, c, a)
    requires BalanceOf(b', a) == BalanceOf(b, a) && !KeyUsed(b', SettleKey(market, a))
    ensures Payable(b', market, house, bets, c, a)
  {
  }

  /** All or nothing: paying in turn succeeds exactly when the house holds the total, whatever
      the order, and then everyone is paid exactly what they are owed. */
  lemma {:induction false} PayInTurnExactly(b: Books, market: Uuid, house: Uuid, bets: seq<Bet>, c: Claim, order: seq<Uuid>)
    requires LedgerInvariant.WellKept(b) && AllPayable(b, market, house, bets, c, order)
    ensures var p := PayInTurn(b, market, house, bets, c, order);
            && (p.AllPaid? <==> b.accounts[house].balance >= OwedToAll(bets, order, c))
            && (p.AllPaid? ==> PaidInFull(b, p.books, house, bets, c, order))
  {
    if order == [] {
      assert AllowsBalance(b.accounts[house]);
    } else {
      var (front, a) := (order[..|order| - 1], order[|order| - 1]);
      assert AllPayable(b, market, house, bets, c, front);
      PayInTurnExactly(b, market, house, bets, c, front);
      assert Payable(b, market, house, bets, c, a);
      var before := PayInTurn(b, market, house, bets, c, front);
      if before.AllPaid? {
        PayInTurnGrows(b, market, house, bets, c, front);
        PayoutsUseOwnKeys(b, market, house, bets, c, front, market, a);
        PayableAfter(b, before.books, market, house, bets, c, a);
        OnePayment(before.books, market, house, bets, c, a);
        LastPayment(b, before.books, market, house, bets, c, order);
      }
    }
  }

  lemma LastPayment(b: Books, mid: Books, market: Uuid, house: Uuid, bets: seq<Bet>, c: Claim, order: seq<Uuid>)
    requires order != [] && AllPayable(b, market, house, bets, c, order)
    requires PaidInFull(b, mid, house, bets, c, order[..|order| - 1])
    requires HouseOk(mid, house) && Payable(mid, market, house, bets, c, order[|order| - 1])
    ensures var a := order[|order| - 1];
            Refusal(mid, house, a, OwedTo(bets, a, c), SettleKey(market, a)).Posted? ==>
              PaidInFull(b, Post(mid, house, a, OwedTo(bets, a, c), SettleKey(market, a)), house, bets, c, order)
  {
    var (front, a) := (order[..|order| - 1], order[|order| - 1]);
    assert Payable(b, market, house, bets, c, a);
    OnePayment(mid, market, house, bets, c, a);
    if Refusal(mid, house, a, OwedTo(bets, a, c), SettleKey(market, a)).Posted? {
      var b' := Post(mid, house, a, OwedTo(bets, a, c), SettleKey(market, a));
      forall p: Uuid | p in order ensures BalanceOf(b', p) == BalanceOf(b, p) + OwedTo(bets, p, c) {
        if p != a {
          var i :| 0 <= i < |order| && order[i] == p;
          assert front[i] == p;
          assert Payable(b, market, house, bets, c, order[i]);
        }
      }
    }
  }

  // ----- Grouping by account -----

  lemma {:induction false} OwedToNobody(bets: seq<Bet>, a: Uuid, c: Claim)
    requires forall i :: 0 <= i < |bets| && Claims(bets[i], c) ==> bets[i].account != a
    ensures OwedTo(bets, a, c) == 0
  {
    if bets != [] {
      OwedToNobody(bets[..|bets| - 1], a, c);
    }
  }

  lemma {:induction false} LastBetCountsOnce(bets: seq<Bet>, order: seq<Uuid>, c: Claim)
    requires bets != [] && forall i, j :: 0 <= i < j < |order| ==> order[i] != order[j]
    ensures OwedToAll(bets, order, c) ==
            OwedToAll(bets[..|bets| - 1], order, c) +
            (if bets[|bets| - 1].account in order then ClaimOf(bets[|bets| - 1], c) else 0)
  {
    if order != [] {
      var (front, a) := (order[..|order| - 1], order[|order| - 1]);
      LastBetCountsOnce(bets, front, c);
      assert order == front + [a];
      assert a !in front;
    }
  }

  lemma {:induction false} NobodyOwed(order: seq<Uuid>, c: Claim)
    ensures OwedToAll([], order, c) == 0
  {
    if order != [] {
      NobodyOwed(order[..|order| - 1], c);
    }
  }

  /** The groups add up to the whole. */
  lemma {:induction false} GroupsAddUp(bets: seq<Bet>, order: seq<Uuid>, c: Claim)
    requires forall i, j :: 0 <= i < j < |order| ==> order[i] != order[j]
    requires forall i :: 0 <= i < |bets| && Claims(bets[i], c) ==> bets[i].account in order
    ensures OwedToAll(bets, order, c) == OwedInAll(bets, c)
  {
    if bets == [] {
      NobodyOwed(order, c);
    } else {
      LastBetCountsOnce(bets, order, c);
      GroupsAddUp(bets[..|bets| - 1], order, c);
    }
  }

  lemma {:induction false} OwedToBettor(bets: seq<Bet>, a: Uuid, c: Claim)
    requires forall i :: 0 <= i < |bets| ==> bets[i].payout > 0 && bets[i].paid > 0
    ensures OwedTo(bets, a, c) >= 0
    ensures (exists i :: 0 <= i < |bets| && Claims(bets[i], c) && bets[i].account == a) ==> OwedTo(bets, a, c) > 0
  {
    if bets != [] {
      OwedToBettor(bets[..|bets| - 1], a, c);
      if exists i :: 0 <= i < |bets| && Claims(bets[i], c) && bets[i].account == a {
        var i :| 0 <= i < |bets| && Claims(bets[i], c) && bets[i].account == a;
        if i < |bets| - 1 {
          assert bets[..|bets| - 1][i] == bets[i];
        }
      }
    }
  }

  lemma GroupIsPayable(db: Db, market: Uuid, c: Claim, order: seq<Uuid>, j: nat)
    requires Consistent(db) && market in db.markets && !db.markets[market].status.Final()
    requires IsGrouping(db.bets, c, order) && j < |order|
    ensures Payable(db.books, market, db.markets[market].house, db.bets, c, order[j])
  {
    var a := order[j];
    var i :| 0 <= i < |db.bets| && Claims(db.bets[i], c) && db.bets[i].account == a;
    assert BetOk(db, db.bets[i]) && MarketOk(db, market);
    forall k | 0 <= k < |db.bets| ensures db.bets[k].payout > 0 && db.bets[k].paid > 0 {
      assert BetOk(db, db.bets[k]);
    }
    OwedToBettor(db.bets, a, c);
    assert !KeyUsed(db.books, SettleKey(market, a));
    assert AllowsBalance(db.books.accounts[a]);
  }

  lemma GroupsArePayable(db: Db, market: Uuid, c: Claim, order: seq<Uuid>)
    requires Consistent(db) && market in db.markets && !db.markets[market].status.Final()
    requires IsGrouping(db.bets, c, order)
    ensures AllPayable(db.books, market, db.markets[market].house, db.bets, c, order)
  {
    assert MarketOk(db, market);
    forall j | 0 <= j < |order|
      ensures Payable(db.books, market, db.markets[market].house, db.bets, c, order[j])
    {
      GroupIsPayable(db, market, c, order, j);
    }
  }

  /** Every account's balance after the payout: the house pays the total, each bettor gets
      exactly what it is owed, and nobody else is touched. */
  ghost predicate PaidExactly(b: Books, b': Books, house: Uuid, bets: seq<Bet>, c: Claim) {
    forall a: Uuid ::
      BalanceOf(b', a) == BalanceOf(b, a) + (if a == house then -OwedInAll(bets, c) else OwedTo(bets, a, c))
  }

  lemma PayoutExactly(db: Db, market: Uuid, c: Claim, order: seq<Uuid>)
    requires Consistent(db) && market in db.markets && !db.markets[market].status.Final()
    requires IsGrouping(db.bets, c, order)
    ensures var house := db.markets[market].house;
            var p := PayInTurn(db.books, market, house, db.bets, c, order);
            && (p.AllPaid? <==> BalanceOf(db.books, house) >= OwedInAll(db.bets, c))
            && (p.AllPaid? ==> PaidExactly(db.books, p.books, house, db.bets, c))
  {
    var house := db.markets[market].house;
    GroupsArePayable(db, market, c, order);
    PayInTurnExactly(db.books, market, house, db.bets, c, order);
    GroupsAddUp(db.bets, order, c);
    var p := PayInTurn(db.books, market, house, db.bets, c, order);
    if p.AllPaid? {
      ExactBalances(db.books, p.books, house, db.bets, c, order);
    }
  }

  lemma ExactBalances(b: Books, b': Books, house: Uuid, bets: seq<Bet>, c: Claim, order: seq<Uuid>)
    requires PaidInFull(b, b', house, bets, c, order) && house !in order
    requires OwedToAll(bets, order, c) == OwedInAll(bets, c)
    requires forall i :: 0 <= i < |bets| && Claims(bets[i], c) ==> bets[i].account in order
    ensures PaidExactly(b, b', house, bets, c)
  {
    forall a: Uuid | true
      ensures BalanceOf(b', a) == BalanceOf(b, a) + (if a == house then -OwedInAll(bets, c) else OwedTo(bets, a, c))
    {
      if a != house && a !in order {
        OwedToNobody(bets, a, c);
      }
    }
  }

  // ----- Settling -----

  /**
    A settlement of a live market commits if and only if its house account holds the shares of
    all bets on the winner.  It is all or nothing: when it commits, every account gets exactly
    its winning shares and the house pays exactly their total; otherwise nothing changes.
  */
  lemma SettleExactly(db: Db, market: Uuid, winner: nat, order: seq<Uuid>)
    requires Consistent(db) && market in db.markets && db.markets[market].status.Live()
    requires winner in db.outcomes && db.outcomes[winner].market == market
    requires IsGrouping(db.bets, Win(winner), order)
    ensures var house := db.markets[market].house;
            var (db', reply) := Settle(db, market, winner, order);
            && (reply.Committed? <==> BalanceOf(db.books, house) >= SharesOn(db.bets, winner))
            && (reply.Committed? ==> PaidExactly(db.books, db'.books, house, db.bets, Win(winner)))
            && (reply.Failed? ==> db' == db)
  {
    assert MarketOk(db, market);
    PayoutExactly(db, market, Win(winner), order);
  }

  /** What the house account of a market holds beside what the market took in. */
  function HouseReserve(db: Db, id: Uuid): int
    requires id in db.markets
  {
    BalanceOf(db.books, db.markets[id].house) - TakingsOf(db, db.markets[id].outcomes)
  }

  lemma CoveredMarketSettles(t: ExpLog, db: Db, market: Uuid, winner: nat, order: seq<Uuid>)
    requires t.Valid() && Consistent(db) && AllCovered(t, db) && AllYes(db.bets)
    requires market in db.markets && db.markets[market].status.Live()
    requires winner in db.outcomes && db.outcomes[winner].market == market
    requires IsGrouping(db.bets, Win(winner), order)
    requires Reserved(t, db, market, winner)
    ensures Settle(db, market, winner, order).1.Committed?
  {
    assert OutcomeOk(db, winner);
    HouseCoversWinner(t, db, market, winner);
    SettleExactly(db, market, winner, order);
  }

  lemma HouseCoversWinner(t: ExpLog, db: Db, market: Uuid, winner: nat)
    requires t.Valid() && AllCovered(t, db) && market in db.markets && winner in db.markets[market].outcomes
    requires Reserved(t, db, market, winner)
    ensures BalanceOf(db.books, db.markets[market].house) >= SharesOn(db.bets, winner)
  {
    var m := db.markets[market];
    assert Covered(t, db, market);
    TakingsCoverWinner(t, db, m, winner);
    ReserveCoversWinner(db, market, winner, SeedBound(t, m.alpha, m.seed, |m.outcomes|));
  }

  lemma TakingsCoverWinner(t: ExpLog, db: Db, m: Market, winner: nat)
    requires t.Valid() && CoveredBy(t, db, m.alpha, m.seed, m.outcomes) && winner in m.outcomes
    ensures Amount(TakingsOf(db, m.outcomes)) >=
            Amount(SharesOn(db.bets, winner) - CashedOn(db.bets, db.cashouts, winner)) - SeedBound(t, m.alpha, m.seed, |m.outcomes|)
  {
    var i :| 0 <= i < |m.outcomes| && m.outcomes[i] == winner;
    CostOfCoveredMarket(t, db, m.alpha, m.seed, m.outcomes, i);
  }

  /** The house holds, beside the takings, the most the market can lose and the shares of the
      winner that were cashed out. */
  ghost predicate Reserved(t: ExpLog, db: Db, market: Uuid, winner: nat)
    requires market in db.markets
  {
    var m := db.markets[market];
    Amount(HouseReserve(db, market)) >=
    SeedBound(t, m.alpha, m.seed, |m.outcomes|) + Amount(CashedOn(db.bets, db.cashouts, winner))
  }

  lemma ReserveCoversWinner(db: Db, market: Uuid, winner: nat, bound: real)
    requires market in db.markets
    requires Amount(HouseReserve(db, market)) >= bound + Amount(CashedOn(db.bets, db.cashouts, winner))
    requires Amount(TakingsOf(db, db.markets[market].outcomes)) >=
             Amount(SharesOn(db.bets, winner) - CashedOn(db.bets, db.cashouts, winner)) - bound
    ensures BalanceOf(db.books, db.markets[market].house) >= SharesOn(db.bets, winner)
  {
    var m := db.markets[market];
    var cashed := CashedOn(db.bets, db.cashouts, winner);
    AmountAdds(HouseReserve(db, market), TakingsOf(db, m.outcomes));
    AmountAdds(SharesOn(db.bets, winner) - cashed, cashed);
    AmountOrder(BalanceOf(db.books, m.house), SharesOn(db.bets, winner));
  }

  /**
    A market whose house account was funded with alpha * n * seed * ln n, plus the shares of the
    winner that were cashed out, can always settle, whatever was bet.
  */
  lemma FundedMarketSettles(t: ExpLog, events: seq<Event>, market: Uuid, winner: nat, order: seq<Uuid>)
    requires t.Valid() && PossibleRun(t, EMPTY_DB, events)
    requires forall k :: 0 <= k < |events| ==> YesEvent(events[k])
    requires var db := Run(t, EMPTY_DB, events);
             && market in db.markets && db.markets[market].status.Live()
             && winner in db.outcomes && db.outcomes[winner].market == market
             && IsGrouping(db.bets, Win(winner), order)
             && Reserved(t, db, market, winner)
    ensures Settle(Run(t, EMPTY_DB, events), market, winner, order).1.Committed?
  {
    EmptyIsConsistent();
    ReachableIsConsistent(t, events);
    RunKeepsCovered(t, EMPTY_DB, events);
    CoveredMarketSettles(t, Run(t, EMPTY_DB, events), market, winner, order);
  }

  lemma AmountOrder(a: int, b: int)
    ensures Amount(a) >= Amount(b) <==> a >= b
  {
  }

  // ----- Betting leaves the reserve alone -----

  lemma PostedBalances(b: Books, from: Uuid, to: Uuid, amount: int, key: string, a: Uuid)
    requires Refusal(b, from, to, amount, key).Posted?
    ensures BalanceOf(Post(b, from, to, amount, key), a) ==
            BalanceOf(b, a) + (if a == from then -amount else if a == to then amount else 0)
  {
  }

  lemma BetReserve(db: Db, db': Db, r: BetRequest, gain: int, id: Uuid)
    requires MarketRows(db) && BetPlaced(db, db', r, gain) && id in db.markets && RowsKnown(db)
    ensures HouseReserve(db', id) == HouseReserve(db, id)
  {
    var m := db.markets[id];
    assert MarketOk(db, id) && MarketOk(db, r.market);
    BetTotals(db, db', r, gain, 0, m.outcomes);
    PostedBalances(db.books, r.account, db.markets[r.market].house, r.amount, r.key, m.house);
  }

  lemma CashoutReserve(db: Db, db': Db, r: CashoutRequest, gain: int, id: Uuid)
    requires MarketRows(db) && BetCashed(db, db', r, gain) && id in db.markets && BetOk(db, db.bets[r.bet])
    requires RowsKnown(db)
    ensures HouseReserve(db', id) == HouseReserve(db, id)
  {
    var (m, b) := (db.markets[id], db.bets[r.bet]);
    var home := db.outcomes[b.outcome].market;
    assert MarketOk(db, id) && MarketOk(db, home);
    CashoutTotals(db, db', r, gain, 0, m.outcomes);
    PostedBalances(db.books, db.markets[home].house, b.account, gain, r.key, m.house);
  }

  lemma PlacingKeepsReserve(t: ExpLog, db: Db, r: BetRequest, now: int, id: Uuid)
    requires t.Valid() && MarketRows(db) && RowsKnown(db) && id in db.markets
    ensures id in PlaceBet(t, db, r, now).0.markets
    ensures HouseReserve(PlaceBet(t, db, r, now).0, id) == HouseReserve(db, id)
  {
    if PlaceBet(t, db, r, now).1.Committed? {
      PlaceBetEffect(t, db, r, now);
      BetReserve(db, PlaceBet(t, db, r, now).0, r, BetCheck(t, db, r, now).1, id);
    }
  }

  lemma CashingKeepsReserve(t: ExpLog, db: Db, r: CashoutRequest, now: int, id: Uuid)
    requires t.Valid() && MarketRows(db) && RowsKnown(db) && BetRows(db) && id in db.markets
    ensures id in CashOut(t, db, r, now).0.markets
    ensures HouseReserve(CashOut(t, db, r, now).0, id) == HouseReserve(db, id)
  {
    if CashOut(t, db, r, now).1.Committed? {
      CashOutEffect(t, db, r, now);
      assert BetOk(db, db.bets[r.bet]);
      CashoutReserve(db, CashOut(t, db, r, now).0, r, CashoutCheck(t, db, r, now).1, id);
    }
  }

  /** Betting and cashing out, on any market, never move the reserve of any market. */
  lemma TradingKeepsReserve(t: ExpLog, db: Db, e: Event, id: Uuid)
    requires t.Valid() && Consistent(db) && id in db.markets && (e.EPlaceBet? || e.ECashOut?)
    ensures id in Step(t, db, e).0.markets
    ensures HouseReserve(Step(t, db, e).0, id) == HouseReserve(db, id)
  {
    RowsAreKnown(db);
    if e.EPlaceBet? {
      PlacingKeepsReserve(t, db, e.bet, e.betAt, id);
    } else {
      CashingKeepsReserve(t, db, e.cashout, e.cashoutAt, id);
    }
  }

  predicate TradingEvent(e: Event) {
    e.EPlaceBet? || e.ECashOut? || e.ESetStatus?
  }

  lemma BetKeepsTerms(t: ExpLog, db: Db, r: BetRequest, now: int)
    requires t.Valid()
    ensures SameMarkets(db.markets, PlaceBet(t, db, r, now).0.markets)
  {
    if PlaceBet(t, db, r, now).1.Committed? {
      PlaceBetEffect(t, db, r, now);
    }
  }

  lemma CashoutKeepsTerms(t: ExpLog, db: Db, r: CashoutRequest, now: int)
    requires t.Valid()
    ensures SameMarkets(db.markets, CashOut(t, db, r, now).0.markets)
  {
    if CashOut(t, db, r, now).1.Committed? {
      CashOutEffect(t, db, r, now);
    }
  }

  lemma TradingKeepsTerms(t: ExpLog, db: Db, e: Event)
    requires t.Valid() && TradingEvent(e)
    ensures SameMarkets(db.markets, Step(t, db, e).0.markets)
  {
    match e
    case EPlaceBet(r, now) => BetKeepsTerms(t, db, r, now);
    case ECashOut(r, now) => CashoutKeepsTerms(t, db, r, now);
    case ESetStatus(_, _) =>
  }

  lemma {:induction false} TradingRunKeepsReserve(t: ExpLog, db: Db, events: seq<Event>, id: Uuid)
    requires t.Valid() && Consistent(db) && id in db.markets && PossibleRun(t, db, events)
    requires forall k :: 0 <= k < |events| ==> TradingEvent(events[k])
    ensures Consistent(Run(t, db, events)) && SameMarkets(db.markets, Run(t, db, events).markets)
    ensures HouseReserve(Run(t, db, events), id) == HouseReserve(db, id)
  {
    if events != [] {
      var front, e := events[..|events| - 1], events[|events| - 1];
      var mid := Run(t, db, front);
      TradingRunKeepsReserve(t, db, front, id);
      RunKeeps(t, db, events);
      TradingKeepsTerms(t, mid, e);
      if e.EPlaceBet? || e.ECashOut? {
        TradingKeepsReserve(t, mid, e, id);
      } else {
        StatusKeepsReserve(mid, e.target, e.status, id);
      }
    }
  }

  lemma StatusKeepsReserve(db: Db, market: Uuid, status: Status, id: Uuid)
    requires id in db.markets
    ensures id in SetStatus(db, market, status).0.markets
    ensures HouseReserve(SetStatus(db, market, status).0, id) == HouseReserve(db, id)
  {
  }

  /**
    The same guarantee stated in advance.  Fund the house of a market on which nothing was bet yet
    with alpha * n * seed * ln n; then, after any yes bets and cash-outs on any markets, any
    outcome can be settled, as long as the funding also covers the shares of that outcome that
    were cashed out meanwhile, which settling pays a second time.
  */
  lemma FundedInAdvanceSettles(t: ExpLog, setup: seq<Event>, trades: seq<Event>, market: Uuid, winner: nat, order: seq<Uuid>)
    requires t.Valid() && PossibleRun(t, EMPTY_DB, setup) && PossibleRun(t, Run(t, EMPTY_DB, setup), trades)
    requires forall k :: 0 <= k < |setup| ==> YesEvent(setup[k])
    requires forall k :: 0 <= k < |trades| ==> YesEvent(trades[k]) && TradingEvent(trades[k])
    requires var db := Run(t, EMPTY_DB, setup);
             && market in db.markets
             && (forall i :: 0 <= i < |db.bets| ==> db.bets[i].outcome !in db.markets[market].outcomes)
    requires var db := Run(t, EMPTY_DB, setup);
             var m := db.markets[market];
             var db' := Run(t, db, trades);
             Amount(BalanceOf(db.books, m.house)) >=
             SeedBound(t, m.alpha, m.seed, |m.outcomes|) + Amount(CashedOn(db'.bets, db'.cashouts, winner))
    requires var db' := Run(t, Run(t, EMPTY_DB, setup), trades);
             && market in db'.markets && db'.markets[market].status.Live()
             && winner in db'.outcomes && db'.outcomes[winner].market == market
             && IsGrouping(db'.bets, Win(winner), order)
    ensures Settle(Run(t, Run(t, EMPTY_DB, setup), trades), market, winner, order).1.Committed?
  {
    var db := Run(t, EMPTY_DB, setup);
    EmptyIsConsistent();
    ReachableIsConsistent(t, setup);
    RunKeepsCovered(t, EMPTY_DB, setup);
    FundingLasts(t, db, trades, market, winner, order);
  }

  lemma FundingLasts(t: ExpLog, db: Db, trades: seq<Event>, market: Uuid, winner: nat, order: seq<Uuid>)
    requires t.Valid() && Consistent(db) && AllCovered(t, db) && AllYes(db.bets)
    requires PossibleRun(t, db, trades)
    requires forall k :: 0 <= k < |trades| ==> YesEvent(trades[k]) && TradingEvent(trades[k])
    requires market in db.markets
    requires forall i :: 0 <= i < |db.bets| ==> db.bets[i].outcome !in db.markets[market].outcomes
    requires var m := db.markets[market];
             var db' := Run(t, db, trades);
             && Amount(BalanceOf(db.books, m.house)) >=
                SeedBound(t, m.alpha, m.seed, |m.outcomes|) + Amount(CashedOn(db'.bets, db'.cashouts, winner))
             && market in db'.markets && db'.markets[market].status.Live()
             && winner in db'.outcomes && db'.outcomes[winner].market == market
             && IsGrouping(db'.bets, Win(winner), order)
    ensures Settle(Run(t, db, trades), market, winner, order).1.Committed?
  {
    RowsAreKnown(db);
    NoRowsOnNewMarket(db, db.markets[market].outcomes);
    TradingRunKeepsReserve(t, db, trades, market);
    RunKeepsCovered(t, db, trades);
    ReserveSettles(t, db, Run(t, db, trades), market, winner, order);
  }

  /** A reserve that has lasted is enough. */
  lemma ReserveSettles(t: ExpLog, db: Db, db': Db, market: Uuid, winner: nat, order: seq<Uuid>)
    requires t.Valid() && Consistent(db') && AllCovered(t, db') && AllYes(db'.bets)
    requires market in db.markets && SameMarkets(db.markets, db'.markets)
    requires HouseReserve(db', market) == HouseReserve(db, market) && TakingsOf(db, db.markets[market].outcomes) == 0
    requires var m := db.markets[market];
             && Amount(BalanceOf(db.books, m.house)) >=
                SeedBound(t, m.alpha, m.seed, |m.outcomes|) + Amount(CashedOn(db'.bets, db'.cashouts, winner))
             && db'.markets[market].status.Live()
             && winner in db'.outcomes && db'.outcomes[winner].market == market
             && IsGrouping(db'.bets, Win(winner), order)
    ensures Settle(db', market, winner, order).1.Committed?
  {
    assert Reserved(t, db', market, winner);
    CoveredMarketSettles(t, db', market, winner, order);
  }
}
