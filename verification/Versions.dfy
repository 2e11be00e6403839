/**
  Why a version identifies a snapshot: in the database a market's quantities move only together
  with its version, as long as no bet is on a no side.  A run of the database therefore gives every
  market a history by version, and that history is the one the cache and its clients show.
*/
module Versions {
  import opened Transcendental
  import opened Ledger
  import opened Exchange
  import opened ExchangeInvariant
  import opened Solvency
  import StateCache
  import Options

  /** The version went up by one, or nothing about the quantities moved. */
  ghost predicate Versioned(db: Db, db': Db, id: Uuid)
    requires id in db.markets
  {
    && id in db'.markets && db'.markets[id].outcomes == db.markets[id].outcomes
    && db.markets[id].version <= db'.markets[id].version <= db.markets[id].version + 1
    && (db'.markets[id].version == db.markets[id].version ==>
          forall i :: 0 <= i < |db.markets[id].outcomes| ==>
            QuantityOf(db'.outcomes, db.markets[id].outcomes[i]) == QuantityOf(db.outcomes, db.markets[id].outcomes[i]))
  }

  lemma BetIsVersioned(db: Db, db': Db, r: BetRequest, gain: int, id: Uuid)
    requires BetPlaced(db, db', r, gain) && r.side == Yes && id in db.markets && MarketRows(db)
    ensures Versioned(db, db', id)
  {
    assert MarketOk(db, id) && MarketOk(db, r.market);
    if id != r.market && r.outcome in db.markets[id].outcomes {
      OutcomeOfMarket(db, id, r.outcome);
      OutcomeOfMarket(db, r.market, r.outcome);
    }
  }

  lemma CashoutIsVersioned(db: Db, db': Db, r: CashoutRequest, gain: int, id: Uuid)
    requires BetCashed(db, db', r, gain) && id in db.markets && MarketRows(db)
    ensures Versioned(db, db', id)
  {
    assert MarketOk(db, id);
  }

  lemma QuietIsVersioned(t: ExpLog, db: Db, e: Event, id: Uuid)
    requires t.Valid() && id in db.markets && !e.EPlaceBet? && !e.ECashOut? && !e.ECreateMarket?
    ensures Versioned(db, Step(t, db, e).0, id)
  {
  }

  lemma CreateIsVersioned(db: Db, db': Db, newId: Uuid, id: Uuid)
    requires WithMarket(db, db', newId) && id in db.markets && MarketRows(db)
    ensures Versioned(db, db', id)
  {
    assert MarketOk(db, id);
  }

  lemma NothingIsVersioned(db: Db, id: Uuid)
    requires id in db.markets
    ensures Versioned(db, db, id)
  {
  }

  lemma BetStep(t: ExpLog, db: Db, r: BetRequest, now: int, id: Uuid)
    requires t.Valid() && MarketRows(db) && id in db.markets && r.side == Yes
    ensures Versioned(db, PlaceBet(t, db, r, now).0, id)
  {
    var (db', reply) := PlaceBet(t, db, r, now);
    if reply.Committed? {
      PlaceBetEffect(t, db, r, now);
      BetIsVersioned(db, db', r, BetCheck(t, db, r, now).1, id);
    } else {
      NothingIsVersioned(db, id);
    }
  }

  lemma CashoutStep(t: ExpLog, db: Db, r: CashoutRequest, now: int, id: Uuid)
    requires t.Valid() && MarketRows(db) && id in db.markets
    ensures Versioned(db, CashOut(t, db, r, now).0, id)
  {
    var (db', reply) := CashOut(t, db, r, now);
    if reply.Committed? {
      CashOutEffect(t, db, r, now);
      CashoutIsVersioned(db, db', r, CashoutCheck(t, db, r, now).1, id);
    } else {
      NothingIsVersioned(db, id);
    }
  }

  lemma NewMarketStep(t: ExpLog, db: Db, e: Event, id: Uuid)
    requires t.Valid() && MarketRows(db) && id in db.markets && e.ECreateMarket?
    ensures Versioned(db, Step(t, db, e).0, id)
  {
    var (db', reply) := Step(t, db, e);
    if reply.Committed? {
      CreateEffect(db, e.newId, e.house, e.seed, e.alpha, e.cap, e.closeTime, e.ids);
      CreateIsVersioned(db, db', e.newId, id);
    }
  }

  /** Quantities move only with the version, in every step of a yes-only run. */
  lemma QuantitiesMoveWithVersion(t: ExpLog, db: Db, e: Event, id: Uuid)
    requires t.Valid() && MarketRows(db) && id in db.markets && YesEvent(e)
    ensures Versioned(db, Step(t, db, e).0, id)
  {
    match e
    case EPlaceBet(bet, now) => BetStep(t, db, bet, now, id);
    case ECashOut(cashout, now) => CashoutStep(t, db, cashout, now, id);
    case ECreateMarket(_, _, _, _, _, _, _) => NewMarketStep(t, db, e, id);
    case _ => QuietIsVersioned(t, db, e, id);
  }

  // ----- The history of a market -----

  function SnapshotOf(db: Db, id: Uuid): StateCache.Snapshot
    requires id in db.markets
  {
    map o | o in db.markets[id].outcomes :: QuantityOf(db.outcomes, o)
  }

  lemma SameVersionSameSnapshot(db: Db, db': Db, id: Uuid)
    requires id in db.markets && Versioned(db, db', id)
    ensures SnapshotOf(db', id).Keys == SnapshotOf(db, id).Keys
    ensures db'.markets[id].version == db.markets[id].version ==> SnapshotOf(db', id) == SnapshotOf(db, id)
  {
    var ids := db.markets[id].outcomes;
    if db'.markets[id].version == db.markets[id].version {
      forall o | o in ids ensures QuantityOf(db'.outcomes, o) == QuantityOf(db.outcomes, o) {
        var i :| 0 <= i < |ids| && ids[i] == o;
      }
    }
  }

  /** The history after one more state: its snapshot is added if its version is new. */
  function Extended(history: seq<StateCache.Snapshot>, db: Db, db': Db, id: Uuid): seq<StateCache.Snapshot> {
    if id in db.markets && id in db'.markets && db'.markets[id].version > db.markets[id].version
    then history + [SnapshotOf(db', id)]
    else history
  }

  /** The snapshots of a market at the versions it goes through along a path of states. */
  function HistoryAlong(states: seq<Db>, id: Uuid): seq<StateCache.Snapshot>
    requires states != [] && id in states[0].markets
  {
    var n := |states| - 1;
    if n == 0 then [SnapshotOf(states[0], id)]
    else Extended(HistoryAlong(states[..n], id), states[n - 1], states[n], id)
  }

  ghost predicate Linked(states: seq<Db>, id: Uuid, k: nat)
    requires k + 1 < |states|
  {
    id in states[k].markets && Versioned(states[k], states[k + 1], id)
  }

  /** Along the path the version steps up by one whenever the quantities move. */
  ghost predicate Path(states: seq<Db>, id: Uuid) {
    && states != []
    && (forall k :: 0 <= k < |states| ==> id in states[k].markets)
    && (forall k :: 0 <= k < |states| - 1 ==> Linked(states, id, k))
  }

  /** The history, which starts at version v0, ends at the current version with the current
      quantities. */
  ghost predicate Follows(h: seq<StateCache.Snapshot>, db: Db, id: Uuid, v0: nat) {
    && id in db.markets && |h| > 0 && |h| == db.markets[id].version - v0 + 1
    && h[|h| - 1] == SnapshotOf(db, id) && StateCache.SameOutcomes(h)
  }

  lemma NextIsCurrent(h: seq<StateCache.Snapshot>, db: Db, db': Db, id: Uuid, v0: nat)
    requires id in db.markets && Versioned(db, db', id) && Follows(h, db, id, v0)
    ensures Follows(Extended(h, db, db', id), db', id, v0)
  {
    SameVersionSameSnapshot(db, db', id);
    var h' := Extended(h, db, db', id);
    forall i, j | 0 <= i < |h'| && 0 <= j < |h'| ensures h'[i].Keys == h'[j].Keys {
      assert h'[i].Keys == h[|h| - 1].Keys && h'[j].Keys == h[|h| - 1].Keys;
    }
  }

  lemma PathPrefix(states: seq<Db>, id: Uuid, n: nat)
    requires Path(states, id) && 0 < n <= |states|
    ensures Path(states[..n], id)
  {
    forall k | 0 <= k < n - 1 ensures Linked(states[..n], id, k) {
      assert Linked(states, id, k);
    }
  }

  lemma {:induction false} HistoryIsCurrent(states: seq<Db>, id: Uuid)
    requires Path(states, id)
    ensures Follows(HistoryAlong(states, id), states[|states| - 1], id, states[0].markets[id].version)
  {
    var n := |states| - 1;
    if n > 0 {
      PathPrefix(states, id, n);
      assert Linked(states, id, n - 1);
      HistoryIsCurrent(states[..n], id);
      NextIsCurrent(HistoryAlong(states[..n], id), states[n - 1], states[n], id, states[0].markets[id].version);
    }
  }

  lemma HistoryStep(states: seq<Db>, id: Uuid)
    requires |states| > 1 && id in states[0].markets
    ensures HistoryAlong(states[..|states| - 1], id) <= HistoryAlong(states, id)
  {
    var n := |states| - 1;
    ExtendedGrows(HistoryAlong(states[..n], id), states[n - 1], states[n], id);
  }

  lemma {:induction false} HistoryGrows(states: seq<Db>, id: Uuid, k: nat)
    requires 0 < k <= |states| && id in states[0].markets
    ensures HistoryAlong(states[..k], id) <= HistoryAlong(states, id)
  {
    if k == |states| {
      assert states[..k] == states;
    } else {
      var front := states[..|states| - 1];
      HistoryGrows(front, id, k);
      assert front[..k] == states[..k];
      HistoryStep(states, id);
    }
  }

  lemma ExtendedGrows(h: seq<StateCache.Snapshot>, db: Db, db': Db, id: Uuid)
    ensures h <= Extended(h, db, db', id)
  {
  }

  /** The market is at this version with these quantities. */
  ghost predicate IsAt(db: Db, id: Uuid, version: int, snapshot: StateCache.Snapshot) {
    id in db.markets && db.markets[id].version == version && SnapshotOf(db, id) == snapshot
  }

  /** Every state of the path is in the history, at its version. */
  lemma StateInHistory(states: seq<Db>, id: Uuid, k: nat)
    requires Path(states, id) && k < |states|
    ensures Holds(HistoryAlong(states, id), states[k], id, states[0].markets[id].version)
  {
    PathPrefix(states, id, k + 1);
    EndOfPrefix(states, states[..k + 1], id);
  }

  lemma EndOfPrefix(states: seq<Db>, upTo: seq<Db>, id: Uuid)
    requires upTo != [] && upTo <= states && Path(upTo, id)
    ensures Holds(HistoryAlong(states, id), upTo[|upTo| - 1], id, states[0].markets[id].version)
  {
    assert upTo == states[..|upTo|] && upTo[0] == states[0];
    HistoryIsCurrent(upTo, id);
    HistoryGrows(states, id, |upTo|);
    EntryOfPrefix(HistoryAlong(upTo, id), HistoryAlong(states, id), upTo[|upTo| - 1], id, states[0].markets[id].version);
  }

  /** The history, which starts at version v0, has the state's quantities at its version. */
  ghost predicate Holds(h: seq<StateCache.Snapshot>, db: Db, id: Uuid, v0: nat) {
    && id in db.markets && 0 <= db.markets[id].version - v0 < |h|
    && h[db.markets[id].version - v0] == SnapshotOf(db, id)
  }

  lemma EntryOfPrefix(h: seq<StateCache.Snapshot>, h': seq<StateCache.Snapshot>, db: Db, id: Uuid, v0: nat)
    requires Follows(h, db, id, v0) && h <= h'
    ensures Holds(h', db, id, v0)
  {
  }

  /** Every entry of the history is a state of the path at that version. */
  lemma {:induction false} EntryWasReal(states: seq<Db>, id: Uuid, v: nat) returns (k: nat)
    requires Path(states, id) && v < |HistoryAlong(states, id)|
    ensures k < |states| && IsAt(states[k], id, states[0].markets[id].version + v, HistoryAlong(states, id)[v])
  {
    var n := |states| - 1;
    HistoryIsCurrent(states, id);
    if v == |HistoryAlong(states, id)| - 1 {
      k := n;
    } else {
      HistoryGrows(states, id, n);
      PathPrefix(states, id, n);
      k := EntryWasReal(states[..n], id, v);
    }
  }

  // ----- The path of a run -----

  /** The states a run goes through, the first included. */
  function StatesOf(t: ExpLog, db: Db, events: seq<Event>): (r: seq<Db>)
    requires t.Valid()
    ensures |r| == |events| + 1 && r[0] == db
  {
    if events == [] then [db]
    else
      var front := StatesOf(t, db, events[..|events| - 1]);
      front + [Step(t, front[|front| - 1], events[|events| - 1]).0]
  }

  lemma {:induction false} LastIsRun(t: ExpLog, db: Db, events: seq<Event>)
    requires t.Valid()
    ensures StatesOf(t, db, events)[|events|] == Run(t, db, events)
  {
    if events != [] {
      LastIsRun(t, db, events[..|events| - 1]);
    }
  }

  lemma {:induction false} StatesAreRuns(t: ExpLog, db: Db, events: seq<Event>, k: nat)
    requires t.Valid() && k <= |events|
    ensures StatesOf(t, db, events)[k] == Run(t, db, events[..k])
  {
    if k == |events| {
      assert events[..k] == events;
      LastIsRun(t, db, events);
    } else {
      var front := events[..|events| - 1];
      StatesAreRuns(t, db, front, k);
      assert events[..k] == front[..k];
    }
  }

  lemma LongerPath(t: ExpLog, states: seq<Db>, e: Event, id: Uuid)
    requires t.Valid() && Path(states, id) && MarketRows(states[|states| - 1]) && YesEvent(e)
    ensures Path(states + [Step(t, states[|states| - 1], e).0], id)
  {
    var (last, next) := (states[|states| - 1], Step(t, states[|states| - 1], e).0);
    QuantitiesMoveWithVersion(t, last, e, id);
    OneMoreState(states, next, id);
  }

  lemma OneMoreState(states: seq<Db>, next: Db, id: Uuid)
    requires Path(states, id) && Versioned(states[|states| - 1], next, id)
    ensures Path(states + [next], id)
  {
    var longer := states + [next];
    forall k | 0 <= k < |longer| - 1 ensures Linked(longer, id, k) {
      if k < |states| - 1 {
        assert Linked(states, id, k);
        assert longer[k] == states[k] && longer[k + 1] == states[k + 1];
      }
    }
  }

  /** The path of a run without no bets is versioned. */
  lemma {:induction false} RunIsPath(t: ExpLog, db: Db, events: seq<Event>, id: Uuid)
    requires t.Valid() && Consistent(db) && id in db.markets && PossibleRun(t, db, events)
    requires forall k :: 0 <= k < |events| ==> YesEvent(events[k])
    ensures Path(StatesOf(t, db, events), id)
  {
    if events != [] {
      var front := events[..|events| - 1];
      RunIsPath(t, db, front, id);
      RunKeeps(t, db, front);
      LastIsRun(t, db, front);
      LongerPath(t, StatesOf(t, db, front), events[|events| - 1], id);
    }
  }

  /** The history of a market in a run. */
  function HistoryOf(t: ExpLog, db: Db, events: seq<Event>, id: Uuid): seq<StateCache.Snapshot>
    requires t.Valid() && id in db.markets
  {
    HistoryAlong(StatesOf(t, db, events), id)
  }

  /** Every entry of the history is what the market was at some moment of the run, at that version. */
  lemma HistoryWasReal(t: ExpLog, db: Db, events: seq<Event>, id: Uuid, v: nat) returns (k: nat)
    requires t.Valid() && Consistent(db) && id in db.markets && PossibleRun(t, db, events)
    requires forall k :: 0 <= k < |events| ==> YesEvent(events[k])
    requires v < |HistoryOf(t, db, events, id)|
    ensures k <= |events|
    ensures IsAt(Run(t, db, events[..k]), id, db.markets[id].version + v, HistoryOf(t, db, events, id)[v])
  {
    RunIsPath(t, db, events, id);
    k := EntryWasReal(StatesOf(t, db, events), id, v);
    StatesAreRuns(t, db, events, k);
  }

  ghost predicate SameQuantitiesAtVersion(a: Db, b: Db, id: Uuid)
    requires id in a.markets && id in b.markets
  {
    a.markets[id].version == b.markets[id].version ==> SnapshotOf(a, id) == SnapshotOf(b, id)
  }

  lemma SameOnPath(states: seq<Db>, id: Uuid, i: nat, j: nat)
    requires Path(states, id) && i < |states| && j < |states|
    ensures SameQuantitiesAtVersion(states[i], states[j], id)
  {
    StateInHistory(states, id, i);
    StateInHistory(states, id, j);
  }

  /** Over a whole run without no bets, two moments at which a market has the same version show the
      same quantities. */
  lemma VersionIdentifiesQuantities(t: ExpLog, db: Db, events: seq<Event>, id: Uuid, i: nat, j: nat)
    requires t.Valid() && Consistent(db) && id in db.markets && PossibleRun(t, db, events)
    requires forall k :: 0 <= k < |events| ==> YesEvent(events[k])
    requires i <= |events| && j <= |events|
    ensures id in Run(t, db, events[..i]).markets && id in Run(t, db, events[..j]).markets
    ensures SameQuantitiesAtVersion(Run(t, db, events[..i]), Run(t, db, events[..j]), id)
  {
    RunIsPath(t, db, events, id);
    StatesAreRuns(t, db, events, i);
    StatesAreRuns(t, db, events, j);
    SameOnPath(StatesOf(t, db, events), id, i, j);
  }

  // ----- The cache and its clients over the database -----

  function CommitsIn(es: seq<StateCache.Event>): seq<StateCache.Snapshot> {
    if es == [] then []
    else
      var e := es[|es| - 1];
      CommitsIn(es[..|es| - 1]) + if e.Commit? then [e.snapshot] else []
  }

  lemma {:induction false} CommitsMakeTheHistory(snapshot: StateCache.Snapshot, es: seq<StateCache.Event>)
    ensures StateCache.Run(StateCache.Start(snapshot), es).history == [snapshot] + CommitsIn(es)
  {
    if es != [] {
      CommitsMakeTheHistory(snapshot, es[..|es| - 1]);
    }
  }

  /**
    End to end over the database.  Let the cache system commit exactly the versions a market went
    through in a run of the database that started at version zero.  Whatever its workers and the
    network do, a client that started from a real view ends at a version no older than its own,
    and shows the quantities the market had in the database at that version.
  */
  lemma ClientShowsTheDatabase(t: ExpLog, db: Db, events: seq<Event>, id: Uuid, es: seq<StateCache.Event>,
                               view: StateCache.Versioned, delivered: seq<StateCache.Versioned>)
    returns (k: nat)
    requires t.Valid() && Consistent(db) && id in db.markets && PossibleRun(t, db, events)
    requires forall k :: 0 <= k < |events| ==> YesEvent(events[k])
    requires db.markets[id].version == 0
    requires var h := HistoryOf(t, db, events, id);
             && |h| > 0 && CommitsIn(es) == h[1..] && StateCache.Genuine(h, view)
             && var s := StateCache.Run(StateCache.Start(h[0]), es);
                forall i :: 0 <= i < |delivered| ==> delivered[i] in s.published
    ensures k <= |events|
    ensures var end := StateCache.Fed(Options.Some(view), delivered);
            && end.Some? && end.value.version >= view.version
            && IsAt(Run(t, db, events[..k]), id, end.value.version, end.value.payload)
  {
    var h := HistoryOf(t, db, events, id);
    CommitsMakeTheHistory(h[0], es);
    assert [h[0]] + h[1..] == h;
    RunIsPath(t, db, events, id);
    HistoryIsCurrent(StatesOf(t, db, events), id);
    StateCache.ClientNeverRegresses(h[0], es, view, delivered);
    k := HistoryWasReal(t, db, events, id, StateCache.Fed(Options.Some(view), delivered).value.version);
  }
}
