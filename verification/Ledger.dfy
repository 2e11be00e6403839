/**
  The double-entry ledger: accounts, transfers and entries, and the stored function that moves
  money between two accounts.

  Amounts are integer counts of 10^-12.  A transfer's identifier is its position in the table.
*/
module Ledger {

  /** The textual form of a UUID has 36 characters. */
  type Uuid = s: string | |s| == 36 witness seq(36, i => '0')

  datatype Account = Account(owner: string, balance: int, currency: string,
                             allowNegative: bool, allowPositive: bool, version: nat)
  datatype Transfer = Transfer(from: Uuid, to: Uuid, amount: int, key: string)
  datatype Entry = Entry(account: Uuid, transfer: nat, amount: int, previous: int, current: int, version: nat)

  datatype Books = Books(accounts: map<Uuid, Account>, transfers: seq<Transfer>, entries: seq<Entry>)

  datatype LedgerError =
    | InvalidAmount | SameAccount | MissingKey | AccountNotFound | DifferentCurrencies
    | PolicyViolation | KeyAlreadyUsed

  datatype Posting = Posted(transfer: nat) | Refused(error: LedgerError)

  /** The sign policy of an account. */
  predicate AllowsBalance(a: Account) {
    (a.allowNegative || a.balance >= 0) && (a.allowPositive || a.balance <= 0)
  }

  predicate KeyUsed(b: Books, key: string) {
    exists i :: 0 <= i < |b.transfers| && b.transfers[i].key == key
  }

  function Moved(a: Account, amount: int): Account {
    a.(balance := a.balance + amount, version := a.version + 1)
  }

  /** Why a transfer is refused, in the order the guards run; None if it is not. */
  function Refusal(b: Books, from: Uuid, to: Uuid, amount: int, key: string): Posting {
    if amount <= 0 then Refused(InvalidAmount)
    else if from == to then Refused(SameAccount)
    else if key == "" then Refused(MissingKey)
    else if from !in b.accounts || to !in b.accounts then Refused(AccountNotFound)
    else if b.accounts[from].currency != b.accounts[to].currency then Refused(DifferentCurrencies)
    else if !AllowsBalance(Moved(b.accounts[from], -amount)) then Refused(PolicyViolation)
    else if !AllowsBalance(Moved(b.accounts[to], amount)) then Refused(PolicyViolation)
    else if KeyUsed(b, key) then Refused(KeyAlreadyUsed)
    else Posted(|b.transfers|)
  }

  /** The books after a transfer that was not refused. */
  function Post(b: Books, from: Uuid, to: Uuid, amount: int, key: string): Books
    requires Refusal(b, from, to, amount, key).Posted?
  {
    var (f, t) := (Moved(b.accounts[from], -amount), Moved(b.accounts[to], amount));
    var id := |b.transfers|;
    Books(b.accounts[from := f][to := t],
          b.transfers + [Transfer(from, to, amount, key)],
          b.entries + [Entry(from, id, -amount, b.accounts[from].balance, f.balance, f.version),
                       Entry(to, id, amount, b.accounts[to].balance, t.balance, t.version)])
  }

  /** One attempt: posted, or refused with nothing changed. */
  function Attempt(b: Books, from: Uuid, to: Uuid, amount: int, key: string): (Books, Posting) {
    var p := Refusal(b, from, to, amount, key);
    if p.Posted? then (Post(b, from, to, amount, key), p) else (b, p)
  }

  /**
    The stored function as it runs: balances move first, the policies are checked on the updated
    rows, the key is claimed, and the two entries are written; an exception undoes everything.
  */
  class Store {
    var accounts: map<Uuid, Account>
    var transfers: seq<Transfer>
    var entries: seq<Entry>

    function View(): Books
      reads this
    {
      Books(accounts, transfers, entries)
    }

    constructor (accounts: map<Uuid, Account>)
      ensures View() == Books(accounts, [], [])
    {
      this.accounts := accounts;
      transfers := [];
      entries := [];
    }

    method OpenAccount(id: Uuid, owner: string, currency: string, allowNegative: bool, allowPositive: bool)
      requires id !in accounts
      modifies this
      ensures View() == old(View()).(accounts :=
                old(accounts)[id := Account(owner, 0, currency, allowNegative, allowPositive, 0)])
    {
      accounts := accounts[id := Account(owner, 0, currency, allowNegative, allowPositive, 0)];
    }

    /** Undo everything since the state was saved. */
    method Restore(saved: Books)
      modifies this
      ensures View() == saved
    {
      accounts, transfers, entries := saved.accounts, saved.transfers, saved.entries;
    }

    method FindKey(key: string) returns (found: bool)
      ensures found == KeyUsed(View(), key)
    {
      for i := 0 to |transfers|
        invariant forall j :: 0 <= j < i ==> transfers[j].key != key
      {
        if transfers[i].key == key {
          return true;
        }
      }
      return false;
    }

    method CreateTransfer(from: Uuid, to: Uuid, amount: int, key: string) returns (p: Posting)
      modifies this
      ensures (View(), p) == Attempt(old(View()), from, to, amount, key)
    {
      if amount <= 0 {
        return Refused(InvalidAmount);
      }
      if from == to {
        return Refused(SameAccount);
      }
      if key == "" {
        return Refused(MissingKey);
      }
      if from !in accounts || to !in accounts {
        return Refused(AccountNotFound);
      }
      if accounts[from].currency != accounts[to].currency {
        return Refused(DifferentCurrencies);
      }
      var saved := accounts;
      accounts := accounts[from := Moved(accounts[from], -amount)];
      if !AllowsBalance(accounts[from]) {
        accounts := saved;
        return Refused(PolicyViolation);
      }
      accounts := accounts[to := Moved(accounts[to], amount)];
      if !AllowsBalance(accounts[to]) {
        accounts := saved;
        return Refused(PolicyViolation);
      }
      var used := FindKey(key);
      if used {
        accounts := saved;
        return Refused(KeyAlreadyUsed);
      }
      var id := |transfers|;
      transfers := transfers + [Transfer(from, to, amount, key)];
      entries := entries + [Entry(from, id, -amount, accounts[from].balance + amount,
                                  accounts[from].balance, accounts[from].version)];
      entries := entries + [Entry(to, id, amount, accounts[to].balance - amount,
                                  accounts[to].balance, accounts[to].version)];
      assert View().entries == Post(old(View()), from, to, amount, key).entries;
      return Posted(id);
    }
  }
}

/**
  What holds of the ledger after any sequence of account openings and transfer attempts, refused
  ones included.
*/
module LedgerInvariant {
  import opened Ledger

  datatype Event =
    | Open(id: Uuid, owner: string, currency: string, allowNegative: bool, allowPositive: bool)
    | Try(from: Uuid, to: Uuid, amount: int, key: string)

  function Step(b: Books, e: Event): Books {
    match e
    case Open(id, owner, currency, neg, pos) =>
      if id in b.accounts then b
      else b.(accounts := b.accounts[id := Account(owner, 0, currency, neg, pos, 0)])
    case Try(from, to, amount, key) => Attempt(b, from, to, amount, key).0
  }

  const EMPTY := Books(map[], [], [])

  function Run(b: Books, events: seq<Event>): Books {
    if events == [] then b else Step(Run(b, events[..|events| - 1]), events[|events| - 1])
  }

  // ----- Accounts as folds of their entries -----

  datatype Running = Running(balance: int, version: nat)

  /** Balance and version of account a as the first k entries leave them. */
  function Replayed(entries: seq<Entry>, a: Uuid, k: nat): Running
    requires k <= |entries|
  {
    if k == 0 then Running(0, 0)
    else if entries[k - 1].account == a then Running(entries[k - 1].current, entries[k - 1].version)
    else Replayed(entries, a, k - 1)
  }

  /** The sum of the amounts posted to account a by the first k entries. */
  function Posted(entries: seq<Entry>, a: Uuid, k: nat): int
    requires k <= |entries|
  {
    if k == 0 then 0
    else Posted(entries, a, k - 1) + (if entries[k - 1].account == a then entries[k - 1].amount else 0)
  }

  /** Entry k starts where the account's previous entry ended and takes the next version. */
  ghost predicate Chained(entries: seq<Entry>, k: nat)
    requires k < |entries|
  {
    var (e, before) := (entries[k], Replayed(entries, entries[k].account, k));
    e.previous == before.balance && e.version == before.version + 1 && e.current == e.previous + e.amount
  }

  /** Transfer i wrote exactly the entries 2i and 2i + 1, which cancel. */
  ghost predicate Doubled(b: Books, i: nat)
    requires i < |b.transfers| && |b.entries| == 2 * |b.transfers|
  {
    var (t, out, into) := (b.transfers[i], b.entries[2 * i], b.entries[2 * i + 1]);
    && t.amount > 0 && t.from != t.to && t.key != ""
    && t.from in b.accounts && t.to in b.accounts
    && b.accounts[t.from].currency == b.accounts[t.to].currency
    && out.account == t.from && out.amount == -t.amount && out.transfer == i
    && into.account == t.to && into.amount == t.amount && into.transfer == i
  }

  ghost predicate DistinctKeys(transfers: seq<Transfer>) {
    forall i, j :: 0 <= i < j < |transfers| ==> transfers[i].key != transfers[j].key
  }

  ghost predicate WellKept(b: Books) {
    && |b.entries| == 2 * |b.transfers|
    && (forall i :: 0 <= i < |b.transfers| ==> Doubled(b, i))
    && (forall k :: 0 <= k < |b.entries| ==> Chained(b.entries, k))
    && DistinctKeys(b.transfers)
    && (forall a: Uuid :: a in b.accounts ==>
          && Replayed(b.entries, a, |b.entries|) == Running(b.accounts[a].balance, b.accounts[a].version)
          && AllowsBalance(b.accounts[a]))
    && (forall a: Uuid :: a !in b.accounts ==> Replayed(b.entries, a, |b.entries|) == Running(0, 0))
  }

  lemma {:induction false} ReplayedPrefix(entries: seq<Entry>, more: seq<Entry>, a: Uuid, k: nat)
    requires k <= |entries|
    ensures Replayed(entries + more, a, k) == Replayed(entries, a, k)
  {
    if k > 0 {
      ReplayedPrefix(entries, more, a, k - 1);
    }
  }

  lemma ChainedPrefix(entries: seq<Entry>, more: seq<Entry>)
    ensures forall k :: 0 <= k < |entries| && Chained(entries, k) ==> Chained(entries + more, k)
  {
    forall k | 0 <= k < |entries| && Chained(entries, k) ensures Chained(entries + more, k) {
      ReplayedPrefix(entries, more, entries[k].account, k);
    }
  }

  /** The two entries of a posting move the replayed state of exactly its two accounts. */
  lemma ReplayAfterPost(b: Books, from: Uuid, to: Uuid, amount: int, key: string, a: Uuid)
    requires WellKept(b) && Refusal(b, from, to, amount, key).Posted?
    ensures var b' := Post(b, from, to, amount, key);
            Replayed(b'.entries, a, |b'.entries|) ==
            if a == from || a == to then Running(b'.accounts[a].balance, b'.accounts[a].version)
            else Replayed(b.entries, a, |b.entries|)
  {
    var b' := Post(b, from, to, amount, key);
    var n := |b.entries|;
    var more := b'.entries[n..];
    assert b'.entries == b.entries + more;
    ReplayedPrefix(b.entries, more, a, n);
    assert Replayed(b'.entries, a, n + 2) ==
           if b'.entries[n + 1].account == a
           then Running(b'.entries[n + 1].current, b'.entries[n + 1].version)
           else Replayed(b'.entries, a, n + 1);
  }

  lemma PostKeepsChain(b: Books, from: Uuid, to: Uuid, amount: int, key: string)
    requires WellKept(b) && Refusal(b, from, to, amount, key).Posted?
    ensures var b' := Post(b, from, to, amount, key);
            forall k :: 0 <= k < |b'.entries| ==> Chained(b'.entries, k)
  {
    var b' := Post(b, from, to, amount, key);
    var n := |b.entries|;
    var more := b'.entries[n..];
    assert b'.entries == b.entries + more;
    ChainedPrefix(b.entries, more);
    ReplayedPrefix(b.entries, more, from, n);
    ReplayedPrefix(b.entries, more, to, n);
    assert Replayed(b'.entries, to, n + 1) == Replayed(b'.entries, to, n);
    assert Chained(b'.entries, n) && Chained(b'.entries, n + 1);
  }

  lemma PostKeepsBooks(b: Books, from: Uuid, to: Uuid, amount: int, key: string)
    requires WellKept(b) && Refusal(b, from, to, amount, key).Posted?
    ensures WellKept(Post(b, from, to, amount, key))
  {
    var b' := Post(b, from, to, amount, key);
    PostKeepsChain(b, from, to, amount, key);
    forall a: Uuid | true
      ensures Replayed(b'.entries, a, |b'.entries|) ==
              if a in b'.accounts then Running(b'.accounts[a].balance, b'.accounts[a].version) else Running(0, 0)
    {
      ReplayAfterPost(b, from, to, amount, key, a);
    }
    forall i | 0 <= i < |b'.transfers| ensures Doubled(b', i) {
      if i < |b.transfers| {
        assert Doubled(b, i);
      }
    }
  }

  lemma StepKeepsBooks(b: Books, e: Event)
    requires WellKept(b)
    ensures WellKept(Step(b, e))
  {
    match e
    case Open(id, _, _, _, _) =>
      forall i | 0 <= i < |b.transfers| ensures Doubled(Step(b, e), i) {
        assert Doubled(b, i);
      }
    case Try(from, to, amount, key) =>
      if Refusal(b, from, to, amount, key).Posted? {
        PostKeepsBooks(b, from, to, amount, key);
      }
  }

  /** Every reachable ledger is well kept. */
  lemma {:induction false} ReachableBooksAreWellKept(events: seq<Event>)
    ensures WellKept(Run(EMPTY, events))
  {
    if events != [] {
      ReachableBooksAreWellKept(events[..|events| - 1]);
      StepKeepsBooks(Run(EMPTY, events[..|events| - 1]), events[|events| - 1]);
    }
  }

  // ----- What well kept books imply -----

  lemma {:induction false} ReplayIsTheFold(entries: seq<Entry>, a: Uuid, k: nat)
    requires k <= |entries| && forall j :: 0 <= j < |entries| ==> Chained(entries, j)
    ensures Replayed(entries, a, k).balance == Posted(entries, a, k)
  {
    if k > 0 {
      ReplayIsTheFold(entries, a, k - 1);
      assert Chained(entries, k - 1);
    }
  }

  /** Every balance is the sum of the account's entries. */
  lemma BalanceIsTheFold(b: Books, a: Uuid)
    requires WellKept(b) && a in b.accounts
    ensures b.accounts[a].balance == Posted(b.entries, a, |b.entries|)
  {
    ReplayIsTheFold(b.entries, a, |b.entries|);
  }

  function AllPosted(entries: seq<Entry>, k: nat): int
    requires k <= |entries|
  {
    if k == 0 then 0 else AllPosted(entries, k - 1) + entries[k - 1].amount
  }

  lemma {:induction false} EntriesCancel(b: Books, i: nat)
    requires WellKept(b) && i <= |b.transfers|
    ensures AllPosted(b.entries, 2 * i) == 0
  {
    if i > 0 {
      EntriesCancel(b, i - 1);
      assert Doubled(b, i - 1);
      assert AllPosted(b.entries, 2 * i - 1) == AllPosted(b.entries, 2 * i - 2) + b.entries[2 * i - 2].amount;
    }
  }

  ghost predicate Distinct(ids: seq<Uuid>) {
    forall i, j :: 0 <= i < j < |ids| ==> ids[i] != ids[j]
  }

  function TotalPosted(entries: seq<Entry>, ids: seq<Uuid>, k: nat): int
    requires k <= |entries|
  {
    if ids == [] then 0
    else TotalPosted(entries, ids[..|ids| - 1], k) + Posted(entries, ids[|ids| - 1], k)
  }

  lemma {:induction false} NextEntryCountsOnce(entries: seq<Entry>, ids: seq<Uuid>, k: nat)
    requires 0 < k <= |entries| && Distinct(ids)
    ensures TotalPosted(entries, ids, k) ==
            TotalPosted(entries, ids, k - 1) + (if entries[k - 1].account in ids then entries[k - 1].amount else 0)
  {
    if ids != [] {
      var (front, last) := (ids[..|ids| - 1], ids[|ids| - 1]);
      NextEntryCountsOnce(entries, front, k);
      assert ids == front + [last];
      assert last !in front;
    }
  }

  lemma {:induction false} TotalIsAllPosted(entries: seq<Entry>, ids: seq<Uuid>, k: nat)
    requires k <= |entries| && Distinct(ids)
    requires forall j :: 0 <= j < |entries| ==> entries[j].account in ids
    ensures TotalPosted(entries, ids, k) == AllPosted(entries, k)
  {
    if k == 0 {
      NothingPosted(entries, ids);
    } else {
      NextEntryCountsOnce(entries, ids, k);
      TotalIsAllPosted(entries, ids, k - 1);
    }
  }

  lemma {:induction false} NothingPosted(entries: seq<Entry>, ids: seq<Uuid>)
    ensures TotalPosted(entries, ids, 0) == 0
  {
    if ids != [] {
      NothingPosted(entries, ids[..|ids| - 1]);
    }
  }

  function TotalBalance(accounts: map<Uuid, Account>, ids: seq<Uuid>): int
    requires forall i :: 0 <= i < |ids| ==> ids[i] in accounts
  {
    if ids == [] then 0
    else TotalBalance(accounts, ids[..|ids| - 1]) + accounts[ids[|ids| - 1]].balance
  }

  lemma {:induction false} TotalBalanceIsPosted(b: Books, ids: seq<Uuid>)
    requires WellKept(b) && forall i :: 0 <= i < |ids| ==> ids[i] in b.accounts
    ensures TotalBalance(b.accounts, ids) == TotalPosted(b.entries, ids, |b.entries|)
  {
    if ids != [] {
      TotalBalanceIsPosted(b, ids[..|ids| - 1]);
      BalanceIsTheFold(b, ids[|ids| - 1]);
    }
  }

  /** Conservation: over any listing of all the accounts the balances add up to zero, always. */
  lemma MoneyIsConserved(events: seq<Event>, ids: seq<Uuid>)
    requires Distinct(ids) && forall a: Uuid :: a in ids <==> a in Run(EMPTY, events).accounts
    ensures TotalBalance(Run(EMPTY, events).accounts, ids) == 0
  {
    var b := Run(EMPTY, events);
    ReachableBooksAreWellKept(events);
    TotalBalanceIsPosted(b, ids);
    forall j | 0 <= j < |b.entries| ensures b.entries[j].account in ids {
      assert Doubled(b, j / 2);
      assert j == 2 * (j / 2) || j == 2 * (j / 2) + 1;
    }
    TotalIsAllPosted(b.entries, ids, |b.entries|);
    EntriesCancel(b, |b.transfers|);
  }

  /** Consecutive entries of one account: the next starts at the balance and version the last
      one left. */
  lemma EntriesOfAnAccountAreContiguous(b: Books, j: nat, k: nat)
    requires WellKept(b) && j < k < |b.entries| && b.entries[j].account == b.entries[k].account
    requires forall m :: j < m < k ==> b.entries[m].account != b.entries[k].account
    ensures b.entries[k].previous == b.entries[j].current
    ensures b.entries[k].version == b.entries[j].version + 1
  {
    assert Chained(b.entries, k);
    LastEntryStands(b.entries, b.entries[k].account, j, k);
  }

  lemma {:induction false} LastEntryStands(entries: seq<Entry>, a: Uuid, j: nat, k: nat)
    requires j < k <= |entries| && entries[j].account == a
    requires forall m :: j < m < k ==> entries[m].account != a
    ensures Replayed(entries, a, k) == Running(entries[j].current, entries[j].version)
    decreases k
  {
    if j + 1 < k {
      LastEntryStands(entries, a, j, k - 1);
    }
  }

  /** One key yields at most one transfer: once used, every later attempt with it is refused. */
  lemma {:induction false} KeyPostsOnce(b: Books, events: seq<Event>, key: string)
    requires KeyUsed(b, key)
    ensures KeyUsed(Run(b, events), key)
    ensures forall from: Uuid, to: Uuid, amount: int :: Refusal(Run(b, events), from, to, amount, key).Refused?
  {
    if events != [] {
      var before := Run(b, events[..|events| - 1]);
      KeyPostsOnce(b, events[..|events| - 1], key);
      var i :| 0 <= i < |before.transfers| && before.transfers[i].key == key;
      assert Run(b, events).transfers[i].key == key;
    }
  }
}
