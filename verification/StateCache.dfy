/**
  The versioned market state: readers take snapshots of the database, a script writes them to a
  cache only if they are newer, updates are published, and clients apply only newer updates.
*/
module StateCache {
  import opened Options

  /** Quantities by outcome identifier. */
  type Snapshot = map<nat, int>
  datatype Versioned = Versioned(version: nat, payload: Snapshot)

  /** The compare-and-set script: write when nothing is cached or the cached version is older. */
  function WriteIfNewer(cached: Option<Versioned>, v: Versioned): (Option<Versioned>, bool) {
    if cached.None? || cached.value.version < v.version then (Some(v), true) else (cached, false)
  }

  /** A write leaves the newer of the two versions, with its payload, and reports whether it was
      newer. */
  lemma WriteLeavesTheNewer(cached: Option<Versioned>, v: Versioned)
    ensures WriteIfNewer(cached, v).0.Some? && WriteIfNewer(cached, v).0.value.version >= v.version
    ensures cached.Some? ==> WriteIfNewer(cached, v).0.value.version >= cached.value.version
    ensures WriteIfNewer(cached, v).0 == Some(v) || WriteIfNewer(cached, v).0 == cached
    ensures WriteIfNewer(cached, v).1 <==> (cached.Some? ==> cached.value.version < v.version)
    ensures WriteIfNewer(cached, v).1 ==> WriteIfNewer(cached, v).0 == Some(v)
  {
  }

  /**
    `history[v]` is the market's state at version v; `held` holds what each worker last read
    and has not necessarily written yet.
  */
  datatype System = System(history: seq<Snapshot>, held: map<nat, Versioned>,
                           cached: Option<Versioned>, published: seq<Versioned>)

  datatype Event =
    | Commit(snapshot: Snapshot)   // the market moves to its next version
    | Read(worker: nat)            // a worker reads the current row
    | Fill(worker: nat)            // a reader writes the cache after a miss, publishing nothing
    | Update(worker: nat)          // an updater writes the cache and publishes if it was newer
    | UpdateUncached(worker: nat)  // the cache cannot be reached: the updater publishes anyway
    | Expire                       // the cached entry times out

  function Step(s: System, e: Event): System
    requires s.history != []
  {
    match e
    case Commit(snapshot) => s.(history := s.history + [snapshot])
    case Read(w) =>
      var v := |s.history| - 1;
      s.(held := s.held[w := Versioned(v, s.history[v])])
    case Fill(w) =>
      if w in s.held then s.(cached := WriteIfNewer(s.cached, s.held[w]).0) else s
    case Update(w) =>
      if w !in s.held then s
      else
        var (cached, changed) := WriteIfNewer(s.cached, s.held[w]);
        s.(cached := cached, published := if changed then s.published + [s.held[w]] else s.published)
    case UpdateUncached(w) =>
      if w in s.held then s.(published := s.published + [s.held[w]]) else s
    case Expire => s.(cached := None)
  }

  /** The versioned value is the state the market had at that version. */
  ghost predicate Genuine(history: seq<Snapshot>, v: Versioned) {
    v.version < |history| && history[v.version] == v.payload
  }

  ghost predicate AllGenuine(s: System) {
    && s.history != []
    && (forall w :: w in s.held ==> Genuine(s.history, s.held[w]))
    && (s.cached.Some? ==> Genuine(s.history, s.cached.value))
    && (forall i :: 0 <= i < |s.published| ==> Genuine(s.history, s.published[i]))
  }

  lemma StepKeepsGenuine(s: System, e: Event)
    requires AllGenuine(s)
    ensures AllGenuine(Step(s, e))
  {
  }

  /** Start of a market: its first snapshot and nothing read, cached or published. */
  function Start(snapshot: Snapshot): System {
    System([snapshot], map[], None, [])
  }

  function Run(s: System, events: seq<Event>): (r: System)
    requires s.history != []
    ensures s.history <= r.history
  {
    if events == [] then s else Step(Run(s, events[..|events| - 1]), events[|events| - 1])
  }

  /** In every interleaving, everything cached or published is the snapshot of its version. */
  lemma {:induction false} NothingIsMixedUp(snapshot: Snapshot, events: seq<Event>)
    ensures AllGenuine(Run(Start(snapshot), events))
  {
    if events != [] {
      NothingIsMixedUp(snapshot, events[..|events| - 1]);
      StepKeepsGenuine(Run(Start(snapshot), events[..|events| - 1]), events[|events| - 1]);
    }
  }

  /** Between expiries the cached version never goes back, whichever workers write and however
      old their reads are. */
  lemma {:induction false} CacheNeverRegresses(s: System, events: seq<Event>)
    requires s.history != [] && s.cached.Some?
    requires forall i :: 0 <= i < |events| ==> !events[i].Expire?
    ensures Run(s, events).cached.Some? && Run(s, events).cached.value.version >= s.cached.value.version
  {
    if events != [] {
      CacheNeverRegresses(s, events[..|events| - 1]);
    }
  }

  /** A worker that writes what it read leaves at least that version in the cache, and an updater
      publishes it exactly when nothing as new was cached. */
  lemma WritersAreHeard(s: System, w: nat)
    requires s.history != [] && w in s.held
    ensures var (filled, updated) := (Step(s, Fill(w)), Step(s, Update(w)));
            && filled.cached.Some? && filled.cached.value.version >= s.held[w].version
            && updated.cached.Some? && updated.cached.value.version >= s.held[w].version
            && filled.published == s.published
            && updated.published ==
               if s.cached.Some? && s.cached.value.version >= s.held[w].version then s.published else s.published + [s.held[w]]
  {
    WriteLeavesTheNewer(s.cached, s.held[w]);
  }

  /** A read is of the current version. */
  lemma ReadersSeeTheCurrent(s: System, w: nat)
    requires s.history != []
    ensures var v := Step(s, Read(w)).held[w];
            v.version == |s.history| - 1 && v.payload == s.history[|s.history| - 1]
  {
  }

  /** Without expiries, each published update that went through the cache is newer than all before. */
  ghost predicate Increasing(vs: seq<Versioned>) {
    forall i, j :: 0 <= i < j < |vs| ==> vs[i].version < vs[j].version
  }

  ghost predicate NoneNewer(vs: seq<Versioned>, version: nat) {
    forall i :: 0 <= i < |vs| ==> vs[i].version <= version
  }

  ghost predicate InOrder(s: System) {
    && Increasing(s.published)
    && (s.published != [] ==> s.cached.Some? && NoneNewer(s.published, s.cached.value.version))
  }

  predicate ThroughCache(e: Event) {
    !e.Expire? && !e.UpdateUncached?
  }

  lemma StepKeepsOrder(s: System, e: Event)
    requires s.history != [] && InOrder(s) && ThroughCache(e)
    ensures InOrder(Step(s, e))
  {
    var s' := Step(s, e);
    if e.Update? && e.worker in s.held && WriteIfNewer(s.cached, s.held[e.worker]).1 {
      AppendingKeepsOrder(s.published, s.cached, s.held[e.worker]);
    } else {
      assert s'.published == s.published;
    }
  }

  lemma AppendingKeepsOrder(published: seq<Versioned>, cached: Option<Versioned>, v: Versioned)
    requires Increasing(published) && WriteIfNewer(cached, v).1
    requires published != [] ==> cached.Some? && NoneNewer(published, cached.value.version)
    ensures Increasing(published + [v]) && NoneNewer(published + [v], v.version)
  {
    var longer := published + [v];
    forall i | 0 <= i < |published| ensures longer[i].version < v.version {
      assert longer[i] == published[i];
    }
    forall i, j | 0 <= i < j < |longer| ensures longer[i].version < longer[j].version {
      if j < |published| {
        assert longer[i] == published[i] && longer[j] == published[j];
      }
    }
  }

  lemma {:induction false} PublishedInOrder(snapshot: Snapshot, events: seq<Event>)
    requires forall i :: 0 <= i < |events| ==> ThroughCache(events[i])
    ensures InOrder(Run(Start(snapshot), events))
  {
    if events != [] {
      PublishedInOrder(snapshot, events[..|events| - 1]);
      StepKeepsOrder(Run(Start(snapshot), events[..|events| - 1]), events[|events| - 1]);
    }
  }

  // ----- The client -----

  /** The market reducer: ignore an update that is not newer; otherwise take its quantities for
      the outcomes it lists and its version. */
  function Reduce(view: Option<Versioned>, u: Versioned): Option<Versioned> {
    if view.None? || view.value.version >= u.version then view
    else
      var old' := view.value.payload;
      Some(Versioned(u.version, map o | o in old' :: if o in u.payload then u.payload[o] else old'[o]))
  }

  /** The balance reducer replaces the whole value. */
  function ReduceBalance(view: Option<Versioned>, u: Versioned): Option<Versioned> {
    if view.None? || view.value.version >= u.version then view else Some(u)
  }

  function Fed(view: Option<Versioned>, updates: seq<Versioned>): Option<Versioned> {
    if updates == [] then view else Reduce(Fed(view, updates[..|updates| - 1]), updates[|updates| - 1])
  }

  function FedBalance(view: Option<Versioned>, updates: seq<Versioned>): Option<Versioned> {
    if updates == [] then view else ReduceBalance(FedBalance(view, updates[..|updates| - 1]), updates[|updates| - 1])
  }

  /** Updates that are not newer than the view leave both reducers' views alone, whatever they hold. */
  lemma {:induction false} NotNewerIsIgnored(view: Versioned, updates: seq<Versioned>)
    requires forall i :: 0 <= i < |updates| ==> updates[i].version <= view.version
    ensures Fed(Some(view), updates) == Some(view) && FedBalance(Some(view), updates) == Some(view)
    ensures Fed(None, updates) == None && FedBalance(None, updates) == None
  {
    if updates != [] {
      NotNewerIsIgnored(view, updates[..|updates| - 1]);
    }
  }

  function Highest(version: nat, updates: seq<Versioned>): nat {
    if updates == [] then version
    else
      var before := Highest(version, updates[..|updates| - 1]);
      if updates[|updates| - 1].version > before then updates[|updates| - 1].version else before
  }

  lemma {:induction false} HighestIsHighest(version: nat, updates: seq<Versioned>)
    ensures Highest(version, updates) >= version
    ensures forall i :: 0 <= i < |updates| ==> updates[i].version <= Highest(version, updates)
    ensures Highest(version, updates) == version ||
            exists i :: 0 <= i < |updates| && updates[i].version == Highest(version, updates)
  {
    if updates != [] {
      var front := updates[..|updates| - 1];
      HighestIsHighest(version, front);
      var h := Highest(version, updates);
      forall i | 0 <= i < |updates| ensures updates[i].version <= h {
        if i < |front| {
          assert updates[i] == front[i];
        }
      }
      if h != version && h != updates[|updates| - 1].version {
        var i :| 0 <= i < |front| && front[i].version == h;
        assert updates[i].version == h;
      }
    }
  }

  /** All snapshots of a market list the same outcomes. */
  ghost predicate SameOutcomes(history: seq<Snapshot>) {
    forall i, j :: 0 <= i < |history| && 0 <= j < |history| ==> history[i].Keys == history[j].Keys
  }

  /**
    A client fed genuine updates in any order, with any repetitions and omissions, ends at the
    highest version it has seen, with exactly that version's quantities.
  */
  lemma {:induction false} ClientEndsAtHighest(history: seq<Snapshot>, view: Versioned, updates: seq<Versioned>)
    requires SameOutcomes(history) && Genuine(history, view)
    requires forall i :: 0 <= i < |updates| ==> Genuine(history, updates[i])
    ensures var end := Fed(Some(view), updates);
            && end.Some? && Genuine(history, end.value)
            && end.value.version == Highest(view.version, updates)
  {
    if updates != [] {
      var (front, last) := (updates[..|updates| - 1], updates[|updates| - 1]);
      ClientEndsAtHighest(history, view, front);
      var before := Fed(Some(view), front).value;
      if before.version < last.version {
        assert before.payload.Keys == last.payload.Keys;
        assert Reduce(Some(before), last).value.payload == last.payload;
      }
    }
  }

  lemma {:induction false} BalanceEndsAtHighest(history: seq<Snapshot>, view: Versioned, updates: seq<Versioned>)
    requires Genuine(history, view)
    requires forall i :: 0 <= i < |updates| ==> Genuine(history, updates[i])
    ensures var end := FedBalance(Some(view), updates);
            && end.Some? && Genuine(history, end.value)
            && end.value.version == Highest(view.version, updates)
  {
    if updates != [] {
      BalanceEndsAtHighest(history, view, updates[..|updates| - 1]);
    }
  }

  /**
    End to end: in every interleaving of commits, reads, cache writes, expiries and lost or
    reordered deliveries, a client that started from a genuine view shows a state the market
    really had, never older than the one it started from nor newer than the database.
  */
  lemma ClientNeverRegresses(snapshot: Snapshot, events: seq<Event>, view: Versioned, delivered: seq<Versioned>)
    requires var s := Run(Start(snapshot), events);
             && SameOutcomes(s.history) && Genuine(s.history, view)
             && forall i :: 0 <= i < |delivered| ==> delivered[i] in s.published
    ensures var (s, end) := (Run(Start(snapshot), events), Fed(Some(view), delivered));
            && end.Some? && Genuine(s.history, end.value)
            && view.version <= end.value.version < |s.history|
            && (forall i :: 0 <= i < |delivered| ==> delivered[i].version <= end.value.version)
  {
    var s := Run(Start(snapshot), events);
    NothingIsMixedUp(snapshot, events);
    DeliveredIsGenuine(s, delivered);
    EndIsGenuineAndHighest(s.history, view, delivered);
  }

  lemma DeliveredIsGenuine(s: System, delivered: seq<Versioned>)
    requires AllGenuine(s) && forall i :: 0 <= i < |delivered| ==> delivered[i] in s.published
    ensures forall i :: 0 <= i < |delivered| ==> Genuine(s.history, delivered[i])
  {
    forall i | 0 <= i < |delivered| ensures Genuine(s.history, delivered[i]) {
      var j :| 0 <= j < |s.published| && s.published[j] == delivered[i];
      assert Genuine(s.history, s.published[j]);
    }
  }

  lemma EndIsGenuineAndHighest(history: seq<Snapshot>, view: Versioned, delivered: seq<Versioned>)
    requires SameOutcomes(history) && Genuine(history, view)
    requires forall i :: 0 <= i < |delivered| ==> Genuine(history, delivered[i])
    ensures var end := Fed(Some(view), delivered);
            && end.Some? && Genuine(history, end.value) && view.version <= end.value.version
            && forall i :: 0 <= i < |delivered| ==> delivered[i].version <= end.value.version
  {
    ClientEndsAtHighest(history, view, delivered);
    HighestIsHighest(view.version, delivered);
  }

  /** The script against the store. */
  class Cell {
    var cached: Option<Versioned>

    constructor ()
      ensures cached == None
    {
      cached := None;
    }

    method CompareAndSet(v: Versioned) returns (changed: bool)
      modifies this
      ensures (cached, changed) == WriteIfNewer(old(cached), v)
    {
      if cached.None? || cached.value.version < v.version {
        cached := Some(v);
        return true;
      }
      return false;
    }
  }
}
