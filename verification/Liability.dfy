/**
  What settling pays against what the open bets are promised.  A bet on the yes side pays if its
  outcome wins, a bet on the no side if any other outcome of the market does; settling looks neither
  at the side nor at cash-outs.
*/
module Liability {
  import opened Ledger
  import opened Exchange
  import opened ExchangeInvariant
  import opened Solvency
  import opened Settlement

  // ----- The liability of a winner -----

  /** The bet, if it is open, pays when w wins among the outcomes `ids`. */
  predicate PaysIf(b: Bet, w: nat, ids: seq<nat>) {
    if b.side == Yes then b.outcome == w else b.outcome in ids && b.outcome != w
  }

  /** The shares that the first k bets promise if w wins. */
  function LiabilityTo(bets: seq<Bet>, cashouts: seq<Cashout>, who: Whose, w: nat, ids: seq<nat>, k: nat): int
    requires k <= |bets|
  {
    if k == 0 then 0
    else LiabilityTo(bets, cashouts, who, w, ids, k - 1) +
         (if Counts(who, bets[k - 1]) && !CashedOut(cashouts, k - 1) && PaysIf(bets[k - 1], w, ids)
          then bets[k - 1].payout else 0)
  }

  function LiabilityOf(db: Db, who: Whose, w: nat, ids: seq<nat>): int {
    LiabilityTo(db.bets, db.cashouts, who, w, ids, |db.bets|)
  }

  function Open(db: Db, who: Whose, o: nat, side: Side): int {
    OpenTo(db.bets, db.cashouts, who, o, side, |db.bets|)
  }

  function Closed(db: Db, who: Whose, o: nat): int {
    ClosedTo(db.bets, db.cashouts, who, o, |db.bets|)
  }

  /** Open no shares of the first k bets on the first n outcomes of `ids`, other than w. */
  function NoElsewhereTo(bets: seq<Bet>, cashouts: seq<Cashout>, who: Whose, w: nat, ids: seq<nat>, n: nat, k: nat): int
    requires n <= |ids| && k <= |bets|
  {
    if n == 0 then 0
    else NoElsewhereTo(bets, cashouts, who, w, ids, n - 1, k) +
         (if ids[n - 1] == w then 0 else OpenTo(bets, cashouts, who, ids[n - 1], No, k))
  }

  function NoElsewhere(db: Db, who: Whose, w: nat, ids: seq<nat>): int {
    NoElsewhereTo(db.bets, db.cashouts, who, w, ids, |ids|, |db.bets|)
  }

  ghost predicate Distinct(ids: seq<nat>) {
    forall i, j :: 0 <= i < j < |ids| ==> ids[i] != ids[j]
  }

  lemma {:induction false} NoneElsewhere(bets: seq<Bet>, cashouts: seq<Cashout>, who: Whose, w: nat, ids: seq<nat>, n: nat)
    requires n <= |ids|
    ensures NoElsewhereTo(bets, cashouts, who, w, ids, n, 0) == 0
  {
    if n > 0 {
      NoneElsewhere(bets, cashouts, who, w, ids, n - 1);
    }
  }

  /** One more bet counts at most once among distinct outcomes. */
  lemma {:induction false} NextBetElsewhere(bets: seq<Bet>, cashouts: seq<Cashout>, who: Whose, w: nat, ids: seq<nat>, n: nat, k: nat)
    requires n <= |ids| && 0 < k <= |bets| && Distinct(ids)
    ensures var b := bets[k - 1];
            NoElsewhereTo(bets, cashouts, who, w, ids, n, k) ==
            NoElsewhereTo(bets, cashouts, who, w, ids, n, k - 1) +
            (if Counts(who, b) && !CashedOut(cashouts, k - 1) && b.side == No && b.outcome in ids[..n] && b.outcome != w
             then b.payout else 0)
  {
    if n > 0 {
      NextBetElsewhere(bets, cashouts, who, w, ids, n - 1, k);
      assert ids[..n] == ids[..n - 1] + [ids[n - 1]];
      assert ids[n - 1] !in ids[..n - 1];
    }
  }

  /** The liability is the open yes shares on the winner and the open no shares elsewhere. */
  lemma {:induction false} LiabilitySplit(bets: seq<Bet>, cashouts: seq<Cashout>, who: Whose, w: nat, ids: seq<nat>, k: nat)
    requires k <= |bets| && Distinct(ids)
    ensures LiabilityTo(bets, cashouts, who, w, ids, k) ==
            OpenTo(bets, cashouts, who, w, Yes, k) + NoElsewhereTo(bets, cashouts, who, w, ids, |ids|, k)
  {
    if k == 0 {
      NoneElsewhere(bets, cashouts, who, w, ids, |ids|);
    } else {
      LiabilitySplit(bets, cashouts, who, w, ids, k - 1);
      NextBetElsewhere(bets, cashouts, who, w, ids, |ids|, k);
      assert ids[..|ids|] == ids;
    }
  }

  // ----- The gap -----

  /**
    The exact gap, for one account and for all together: settling pays, beyond what is promised,
    the cashed-out shares on the winner and the open shares against it, and it leaves unpaid the
    open no shares on every other outcome.
  */
  lemma SettlementGap(db: Db, who: Whose, w: nat, ids: seq<nat>)
    requires Distinct(ids)
    ensures Owed(db.bets, who, Win(w)) - LiabilityOf(db, who, w, ids) ==
            Closed(db, who, w) + Open(db, who, w, No) - NoElsewhere(db, who, w, ids)
  {
    SharesSplit(db.bets, db.cashouts, who, w, |db.bets|);
    assert db.bets[..|db.bets|] == db.bets;
    LiabilitySplit(db.bets, db.cashouts, who, w, ids, |db.bets|);
  }

  /** In the totals the cashed-out shares are those of the cash-out rows. */
  lemma TotalGap(db: Db, w: nat, ids: seq<nat>)
    requires Consistent(db) && Distinct(ids)
    ensures SharesOn(db.bets, w) - LiabilityOf(db, Everyone, w, ids) ==
            CashedOn(db.bets, db.cashouts, w) + OpenShares(db, w, No) - NoElsewhere(db, Everyone, w, ids)
  {
    RowsAreKnown(db);
    SettlementGap(db, Everyone, w, ids);
    ClosedIsCashed(db.bets, db.cashouts, w);
  }

  /** Settling on w pays every account exactly what its open bets are promised. */
  ghost predicate PaysWhatIsOpen(db: Db, w: nat, ids: seq<nat>) {
    forall a: Uuid :: Owed(db.bets, Of(a), Win(w)) == LiabilityOf(db, Of(a), w, ids)
  }

  /** For every account, what is paid without being promised makes up for what is left unpaid. */
  ghost predicate Offsets(db: Db, w: nat, ids: seq<nat>) {
    forall a: Uuid :: Closed(db, Of(a), w) + Open(db, Of(a), w, No) == NoElsewhere(db, Of(a), w, ids)
  }

  lemma PaysOpenExactlyWhenOffset(db: Db, w: nat, ids: seq<nat>)
    requires Distinct(ids)
    ensures PaysWhatIsOpen(db, w, ids) <==> Offsets(db, w, ids)
  {
    forall a: Uuid | true
      ensures Owed(db.bets, Of(a), Win(w)) == LiabilityOf(db, Of(a), w, ids) <==>
              Closed(db, Of(a), w) + Open(db, Of(a), w, No) == NoElsewhere(db, Of(a), w, ids)
    {
      SettlementGap(db, Of(a), w, ids);
    }
    if PaysWhatIsOpen(db, w, ids) {
      forall a: Uuid | true ensures Closed(db, Of(a), w) + Open(db, Of(a), w, No) == NoElsewhere(db, Of(a), w, ids) {
        assert Owed(db.bets, Of(a), Win(w)) == LiabilityOf(db, Of(a), w, ids);
      }
    } else {
      var a: Uuid :| Owed(db.bets, Of(a), Win(w)) != LiabilityOf(db, Of(a), w, ids);
      assert Closed(db, Of(a), w) + Open(db, Of(a), w, No) != NoElsewhere(db, Of(a), w, ids);
    }
  }

  // ----- Exact conditions on the rows -----

  ghost predicate PositivePayouts(bets: seq<Bet>) {
    forall i :: 0 <= i < |bets| ==> bets[i].payout > 0
  }

  lemma PayoutsArePositive(db: Db)
    requires Consistent(db)
    ensures PositivePayouts(db.bets)
  {
    forall i | 0 <= i < |db.bets| ensures db.bets[i].payout > 0 {
      assert BetOk(db, db.bets[i]);
    }
  }

  /** Open shares are positive exactly when a counted bet is open. */
  lemma {:induction false} OpenIsPositive(bets: seq<Bet>, cashouts: seq<Cashout>, who: Whose, o: nat, side: Side, k: nat)
    requires k <= |bets| && PositivePayouts(bets)
    ensures OpenTo(bets, cashouts, who, o, side, k) >= 0
    ensures OpenTo(bets, cashouts, who, o, side, k) > 0 <==>
            exists i :: 0 <= i < k && Counts(who, bets[i]) && bets[i].outcome == o && bets[i].side == side && !CashedOut(cashouts, i)
  {
    if k > 0 {
      OpenIsPositive(bets, cashouts, who, o, side, k - 1);
    }
  }

  lemma {:induction false} ClosedIsPositive(bets: seq<Bet>, cashouts: seq<Cashout>, who: Whose, o: nat, k: nat)
    requires k <= |bets| && PositivePayouts(bets)
    ensures ClosedTo(bets, cashouts, who, o, k) >= 0
    ensures ClosedTo(bets, cashouts, who, o, k) > 0 <==>
            exists i :: 0 <= i < k && Counts(who, bets[i]) && bets[i].outcome == o && CashedOut(cashouts, i)
  {
    if k > 0 {
      ClosedIsPositive(bets, cashouts, who, o, k - 1);
    }
  }

  /** All bets on the market are on the yes side. */
  ghost predicate OnlyYesOn(db: Db, ids: seq<nat>) {
    forall i :: 0 <= i < |db.bets| && db.bets[i].outcome in ids ==> db.bets[i].side == Yes
  }

  lemma NoOpenNo(db: Db, who: Whose, o: nat, ids: seq<nat>)
    requires PositivePayouts(db.bets) && OnlyYesOn(db, ids) && o in ids
    ensures Open(db, who, o, No) == 0
  {
    OpenIsPositive(db.bets, db.cashouts, who, o, No, |db.bets|);
  }

  lemma {:induction false} NothingElsewhere(db: Db, who: Whose, w: nat, ids: seq<nat>, n: nat)
    requires PositivePayouts(db.bets) && OnlyYesOn(db, ids) && n <= |ids|
    ensures NoElsewhereTo(db.bets, db.cashouts, who, w, ids, n, |db.bets|) == 0
  {
    if n > 0 {
      NothingElsewhere(db, who, w, ids, n - 1);
      NoOpenNo(db, who, ids[n - 1], ids);
    }
  }

  /** On a market without no bets, settling on w pays every account what is promised if and only if
      no bet on w was cashed out. */
  lemma YesMarketPaysOpenExactlyWhen(db: Db, w: nat, ids: seq<nat>)
    requires Consistent(db) && Distinct(ids) && w in ids && OnlyYesOn(db, ids)
    ensures PaysWhatIsOpen(db, w, ids) <==>
            forall i :: 0 <= i < |db.bets| && db.bets[i].outcome == w ==> !CashedOut(db.cashouts, i)
  {
    PayoutsArePositive(db);
    PaysOpenExactlyWhenOffset(db, w, ids);
    forall a: Uuid | true
      ensures Open(db, Of(a), w, No) == 0 && NoElsewhere(db, Of(a), w, ids) == 0
    {
      NoOpenNo(db, Of(a), w, ids);
      NothingElsewhere(db, Of(a), w, ids, |ids|);
    }
    ClosedExactlyWhen(db, w);
  }

  lemma ClosedExactlyWhen(db: Db, w: nat)
    requires PositivePayouts(db.bets)
    ensures (forall a: Uuid :: Closed(db, Of(a), w) == 0) <==>
            forall i :: 0 <= i < |db.bets| && db.bets[i].outcome == w ==> !CashedOut(db.cashouts, i)
  {
    forall a: Uuid | true
      ensures Closed(db, Of(a), w) >= 0
      ensures Closed(db, Of(a), w) > 0 <==>
              exists i :: 0 <= i < |db.bets| && Counts(Of(a), db.bets[i]) && db.bets[i].outcome == w && CashedOut(db.cashouts, i)
    {
      ClosedIsPositive(db.bets, db.cashouts, Of(a), w, |db.bets|);
    }
    if i :| 0 <= i < |db.bets| && db.bets[i].outcome == w && CashedOut(db.cashouts, i) {
      var a := db.bets[i].account;
      assert Counts(Of(a), db.bets[i]);
      assert Closed(db, Of(a), w) > 0;
    }
  }

  // ----- Settlements -----

  lemma {:induction false} StrangerHasNothing(bets: seq<Bet>, cashouts: seq<Cashout>, a: Uuid, w: nat, ids: seq<nat>, k: nat)
    requires k <= |bets| && forall i :: 0 <= i < k ==> bets[i].account != a
    ensures LiabilityTo(bets, cashouts, Of(a), w, ids, k) == 0 && OwedTo(bets[..k], a, Win(w)) == 0
  {
    if k > 0 {
      StrangerHasNothing(bets, cashouts, a, w, ids, k - 1);
      assert bets[..k][..k - 1] == bets[..k - 1];
    }
  }

  lemma HouseHasNothing(db: Db, market: Uuid, w: nat, ids: seq<nat>)
    requires Consistent(db) && market in db.markets
    ensures LiabilityOf(db, Of(db.markets[market].house), w, ids) == 0
    ensures OwedTo(db.bets, db.markets[market].house, Win(w)) == 0
  {
    var house := db.markets[market].house;
    assert MarketOk(db, market);
    forall i | 0 <= i < |db.bets| ensures db.bets[i].account != house {
      assert BetOk(db, db.bets[i]);
    }
    StrangerHasNothing(db.bets, db.cashouts, house, w, ids, |db.bets|);
    assert db.bets[..|db.bets|] == db.bets;
  }

  /** Every account but the house gained exactly what its open bets were promised. */
  ghost predicate Honoured(db: Db, db': Db, house: Uuid, w: nat, ids: seq<nat>) {
    forall a: Uuid :: a != house ==> BalanceOf(db'.books, a) == BalanceOf(db.books, a) + LiabilityOf(db, Of(a), w, ids)
  }

  /** A committed settlement honours the open bets exactly when, for every account, the cashed-out
      shares on the winner and the open shares against it make up for its open no shares elsewhere. */
  lemma SettleHonoursExactlyWhenOffset(db: Db, market: Uuid, w: nat, order: seq<Uuid>)
    requires Consistent(db) && market in db.markets && db.markets[market].status.Live()
    requires w in db.outcomes && db.outcomes[w].market == market && IsGrouping(db.bets, Win(w), order)
    requires Settle(db, market, w, order).1.Committed?
    ensures var m := db.markets[market];
            Honoured(db, Settle(db, market, w, order).0, m.house, w, m.outcomes) <==> Offsets(db, w, m.outcomes)
  {
    var (m, db') := (db.markets[market], Settle(db, market, w, order).0);
    SettleExactly(db, market, w, order);
    HouseHasNothing(db, market, w, m.outcomes);
    OutcomesDiffer(db, market);
    PaysOpenExactlyWhenOffset(db, w, m.outcomes);
    HonouredExactlyWhenPaid(db, db', m.house, w, m.outcomes);
  }

  lemma OutcomesDiffer(db: Db, market: Uuid)
    requires Consistent(db) && market in db.markets
    ensures Distinct(db.markets[market].outcomes)
  {
    assert MarketOk(db, market);
  }

  lemma HonouredExactlyWhenPaid(db: Db, db': Db, house: Uuid, w: nat, ids: seq<nat>)
    requires PaidExactly(db.books, db'.books, house, db.bets, Win(w))
    requires LiabilityOf(db, Of(house), w, ids) == 0 && OwedTo(db.bets, house, Win(w)) == 0
    ensures Honoured(db, db', house, w, ids) <==> PaysWhatIsOpen(db, w, ids)
  {
    if PaysWhatIsOpen(db, w, ids) {
      forall a: Uuid | a != house
        ensures BalanceOf(db'.books, a) == BalanceOf(db.books, a) + LiabilityOf(db, Of(a), w, ids)
      {
        assert Owed(db.bets, Of(a), Win(w)) == LiabilityOf(db, Of(a), w, ids);
      }
    }
    if Honoured(db, db', house, w, ids) {
      forall a: Uuid | true ensures Owed(db.bets, Of(a), Win(w)) == LiabilityOf(db, Of(a), w, ids) {
        if a != house {
          assert BalanceOf(db'.books, a) == BalanceOf(db.books, a) + LiabilityOf(db, Of(a), w, ids);
        }
      }
    }
  }

  /** Where all bets on the market are yes bets: exactly when no bet on the winner was cashed out. */
  lemma YesSettlementHonoursExactlyWhen(db: Db, market: Uuid, w: nat, order: seq<Uuid>)
    requires Consistent(db) && market in db.markets && db.markets[market].status.Live()
    requires w in db.outcomes && db.outcomes[w].market == market && IsGrouping(db.bets, Win(w), order)
    requires Settle(db, market, w, order).1.Committed? && OnlyYesOn(db, db.markets[market].outcomes)
    ensures var m := db.markets[market];
            Honoured(db, Settle(db, market, w, order).0, m.house, w, m.outcomes) <==>
            forall i :: 0 <= i < |db.bets| && db.bets[i].outcome == w ==> !CashedOut(db.cashouts, i)
  {
    var m := db.markets[market];
    SettleHonoursExactlyWhenOffset(db, market, w, order);
    OutcomesDiffer(db, market);
    PaysOpenExactlyWhenOffset(db, w, m.outcomes);
    assert OutcomeOk(db, w);
    YesMarketPaysOpenExactlyWhen(db, w, m.outcomes);
  }

  // ----- Markets without cash-outs -----

  function NoTo(db: Db, who: Whose, ids: seq<nat>, n: nat): int
    requires n <= |ids|
  {
    if n == 0 then 0 else NoTo(db, who, ids, n - 1) + Open(db, who, ids[n - 1], No)
  }

  lemma {:induction false} ElsewhereIsTheRest(db: Db, who: Whose, w: nat, ids: seq<nat>, n: nat)
    requires n <= |ids| && Distinct(ids)
    ensures NoElsewhereTo(db.bets, db.cashouts, who, w, ids, n, |db.bets|) ==
            NoTo(db, who, ids, n) - (if w in ids[..n] then Open(db, who, w, No) else 0)
  {
    if n > 0 {
      ElsewhereIsTheRest(db, who, w, ids, n - 1);
      assert ids[..n] == ids[..n - 1] + [ids[n - 1]];
      assert ids[n - 1] !in ids[..n - 1];
    }
  }

  lemma {:induction false} NoGrows(db: Db, who: Whose, ids: seq<nat>, n: nat, n': nat)
    requires n <= n' <= |ids| && PositivePayouts(db.bets)
    ensures NoTo(db, who, ids, n) <= NoTo(db, who, ids, n')
    ensures forall j :: n <= j < n' ==> NoTo(db, who, ids, n) + Open(db, who, ids[j], No) <= NoTo(db, who, ids, n')
  {
    if n < n' {
      NoGrows(db, who, ids, n, n' - 1);
      OpenIsPositive(db.bets, db.cashouts, who, ids[n' - 1], No, |db.bets|);
    }
  }

  /** If on each of three or more outcomes the no shares equal those on all the others, there are none. */
  lemma BalancedNoIsNothing(db: Db, who: Whose, ids: seq<nat>, j: nat)
    requires PositivePayouts(db.bets) && Distinct(ids) && |ids| >= 3 && j < |ids|
    requires forall i :: 0 <= i < |ids| ==> Open(db, who, ids[i], No) == NoElsewhere(db, who, ids[i], ids)
    ensures Open(db, who, ids[j], No) == 0
  {
    var all := NoTo(db, who, ids, |ids|);
    forall i | 0 <= i < |ids| ensures 2 * Open(db, who, ids[i], No) == all {
      ElsewhereIsTheRest(db, who, ids[i], ids, |ids|);
      assert ids[..|ids|] == ids;
    }
    NoGrows(db, who, ids, 3, |ids|);
    assert NoTo(db, who, ids, 3) == NoTo(db, who, ids, 2) + Open(db, who, ids[2], No);
    assert NoTo(db, who, ids, 2) == NoTo(db, who, ids, 1) + Open(db, who, ids[1], No);
    assert NoTo(db, who, ids, 1) == NoTo(db, who, ids, 0) + Open(db, who, ids[0], No);
    NoGrows(db, who, ids, 0, |ids|);
    OpenIsPositive(db.bets, db.cashouts, who, ids[0], No, |db.bets|);
    assert 2 * Open(db, who, ids[0], No) == all && 2 * Open(db, who, ids[1], No) == all && 2 * Open(db, who, ids[2], No) == all;
    assert 2 * Open(db, who, ids[j], No) == all;
  }

  /** On a market of three or more outcomes without cash-outs, settling pays every account what is
      promised, whichever outcome wins, if and only if all its bets are on the yes side. */
  lemma UncashedMarketPaysOpenExactlyWhen(db: Db, ids: seq<nat>)
    requires Consistent(db) && Distinct(ids) && |ids| >= 3
    requires forall i :: 0 <= i < |db.bets| && db.bets[i].outcome in ids ==> !CashedOut(db.cashouts, i)
    ensures (forall w :: w in ids ==> PaysWhatIsOpen(db, w, ids)) <==> OnlyYesOn(db, ids)
  {
    PayoutsArePositive(db);
    if OnlyYesOn(db, ids) {
      forall w | w in ids ensures PaysWhatIsOpen(db, w, ids) {
        YesMarketPaysOpenExactlyWhen(db, w, ids);
      }
    } else {
      var i :| 0 <= i < |db.bets| && db.bets[i].outcome in ids && db.bets[i].side != Yes;
      NoBetIsNotPaid(db, ids, i);
    }
  }

  lemma NoBetIsNotPaid(db: Db, ids: seq<nat>, i: nat)
    requires PositivePayouts(db.bets) && Distinct(ids) && |ids| >= 3
    requires forall i :: 0 <= i < |db.bets| && db.bets[i].outcome in ids ==> !CashedOut(db.cashouts, i)
    requires i < |db.bets| && db.bets[i].outcome in ids && db.bets[i].side == No
    ensures exists w :: w in ids && !PaysWhatIsOpen(db, w, ids)
  {
    var a := db.bets[i].account;
    var j :| 0 <= j < |ids| && ids[j] == db.bets[i].outcome;
    OpenIsPositive(db.bets, db.cashouts, Of(a), ids[j], No, |db.bets|);
    assert Counts(Of(a), db.bets[i]);
    if forall w :: w in ids ==> PaysWhatIsOpen(db, w, ids) {
      forall n | 0 <= n < |ids| ensures Open(db, Of(a), ids[n], No) == NoElsewhere(db, Of(a), ids[n], ids) {
        assert ids[n] in ids && PaysWhatIsOpen(db, ids[n], ids);
        SettlementGap(db, Of(a), ids[n], ids);
        ClosedIsPositive(db.bets, db.cashouts, Of(a), ids[n], |db.bets|);
      }
      BalancedNoIsNothing(db, Of(a), ids, j);
      assert false;
    }
  }
}
