/**
  The chat rate limiter: a token bucket per user and a bounded message list per room, both
  updated by one atomic script.  Times are milliseconds.
*/
module ChatLimiter {
  import opened Options

  const CAPACITY: int := 10
  const REFILL_MS: int := 2000      // 30 tokens a minute
  const EXPIRE_MS: int := 600_000
  const MAX_LIST: int := 20

  datatype Bucket = Bucket(last: int, tokens: int)

  function Min(a: int, b: int): int {
    if a <= b then a else b
  }

  /** Tokens at hand now; a user without a bucket has a full one. */
  function TokensNow(b: Option<Bucket>, now: int): int {
    match b
    case None => CAPACITY
    case Some(b) => Min(CAPACITY, b.tokens + (now - b.last) / REFILL_MS)
  }

  /** Take a token if there is one; a refusal leaves the bucket alone. */
  function Offer(b: Option<Bucket>, now: int): (Option<Bucket>, bool) {
    var tokens := TokensNow(b, now);
    if tokens < 1 then (b, false) else (Some(Bucket(now, tokens - 1)), true)
  }

  // ----- One user's trace -----

  ghost predicate Ordered(times: seq<int>) {
    forall i, j :: 0 <= i < j < |times| ==> times[i] <= times[j]
  }

  function BucketAfter(times: seq<int>): Option<Bucket> {
    if times == [] then None else Offer(BucketAfter(times[..|times| - 1]), times[|times| - 1]).0
  }

  /** Whether the k-th message is accepted. */
  predicate Accepted(times: seq<int>, k: nat)
    requires k < |times|
  {
    Offer(BucketAfter(times[..k]), times[k]).1
  }

  /** How many of the first k messages fall in [s, t] and are accepted. */
  function AcceptedIn(times: seq<int>, s: int, t: int, k: nat): nat
    requires k <= |times|
  {
    if k == 0 then 0
    else AcceptedIn(times, s, t, k - 1) + (if s <= times[k - 1] <= t && Accepted(times, k - 1) then 1 else 0)
  }

  ghost predicate BucketOk(b: Option<Bucket>, now: int) {
    b.Some? ==> 0 <= b.value.tokens < CAPACITY && b.value.last <= now
  }

  lemma FloorAdds(a: int, b: int)
    requires a >= 0 && b >= 0
    ensures a / REFILL_MS + b / REFILL_MS <= (a + b) / REFILL_MS
  {
  }

  lemma OfferKeepsBucketOk(b: Option<Bucket>, now: int)
    requires BucketOk(b, now)
    ensures BucketOk(Offer(b, now).0, now)
  {
  }

  lemma {:induction false} BucketsAreOk(times: seq<int>, k: nat)
    requires Ordered(times) && k < |times|
    ensures BucketOk(BucketAfter(times[..k]), times[k])
  {
    if k > 0 {
      BucketsAreOk(times, k - 1);
      assert times[..k][..k - 1] == times[..k - 1];
      OfferKeepsBucketOk(BucketAfter(times[..k - 1]), times[k - 1]);
    }
  }

  /** The invariant behind the bound: tokens left plus messages accepted in the window never
      exceed the capacity plus what was refilled since the window opened. */
  ghost predicate WithinBudget(b: Option<Bucket>, count: nat, s: int, t: int) {
    count == 0 ||
    (b.Some? && s <= b.value.last <= t && 0 <= b.value.tokens
     && b.value.tokens + count <= CAPACITY + (b.value.last - s) / REFILL_MS)
  }

  lemma OfferStaysWithinBudget(b: Option<Bucket>, count: nat, s: int, t: int, now: int)
    requires BucketOk(b, now) && WithinBudget(b, count, s, t) && now <= t
    ensures var (b', ok) := Offer(b, now);
            WithinBudget(b', count + (if s <= now && ok then 1 else 0), s, t)
  {
    if b.Some? && count > 0 {
      FloorAdds(b.value.last - s, now - b.value.last);
    }
  }

  lemma {:induction false} BudgetInvariant(times: seq<int>, s: int, t: int, k: nat)
    requires Ordered(times) && s <= t && k <= |times|
    ensures AcceptedIn(times, s, t, k) <= CAPACITY + (t - s) / REFILL_MS
    ensures (k == 0 || times[k - 1] <= t) ==> WithinBudget(BucketAfter(times[..k]), AcceptedIn(times, s, t, k), s, t)
  {
    if k > 0 {
      BudgetInvariant(times, s, t, k - 1);
      var b := BucketAfter(times[..k - 1]);
      assert times[..k][..k - 1] == times[..k - 1];
      if times[k - 1] <= t {
        BucketsAreOk(times, k - 1);
        OfferStaysWithinBudget(b, AcceptedIn(times, s, t, k - 1), s, t, times[k - 1]);
        WindowBound(BucketAfter(times[..k]), AcceptedIn(times, s, t, k), s, t);
      }
    }
  }

  lemma WindowBound(b: Option<Bucket>, count: nat, s: int, t: int)
    requires WithinBudget(b, count, s, t) && s <= t
    ensures count <= CAPACITY + (t - s) / REFILL_MS
  {
  }

  /** In any window [s, t] at most 10 + (t - s) / 2000 messages are accepted. */
  lemma RateLimit(times: seq<int>, s: int, t: int)
    requires Ordered(times) && s <= t
    ensures AcceptedIn(times, s, t, |times|) <= 10 + (t - s) / 2000
  {
    BudgetInvariant(times, s, t, |times|);
  }

  /** Message j is the last one accepted before message k. */
  ghost predicate LastAccepted(times: seq<int>, j: nat, k: nat)
    requires j < k < |times|
  {
    Accepted(times, j) && forall i :: j < i < k ==> !Accepted(times, i)
  }

  lemma {:induction false} RefusalsLeaveTheBucket(times: seq<int>, j: nat, k: nat)
    requires j < k < |times| && LastAccepted(times, j, k)
    ensures BucketAfter(times[..k]).Some? && BucketAfter(times[..k]).value.last == times[j]
    decreases k
  {
    assert times[..k][..k - 1] == times[..k - 1];
    if j + 1 < k {
      RefusalsLeaveTheBucket(times, j, k - 1);
      assert !Accepted(times, k - 1);
    }
  }

  /** Whoever waits 2000 ms after the last accepted message is accepted. */
  lemma PatienceIsRewarded(times: seq<int>, j: nat, k: nat)
    requires Ordered(times) && j < k < |times| && LastAccepted(times, j, k)
    requires times[k] - times[j] >= 2000
    ensures Accepted(times, k)
  {
    RefusalsLeaveTheBucket(times, j, k);
    BucketsAreOk(times, k);
  }

  /** With n tokens at hand at message k, messages k to k + n - 1 are accepted. */
  lemma {:induction false} TokensLast(times: seq<int>, k: nat, n: nat, i: nat)
    requires Ordered(times) && k <= i < |times| && i < k + n && n <= CAPACITY
    requires TokensNow(BucketAfter(times[..k]), times[k]) >= n
    ensures TokensNow(BucketAfter(times[..i]), times[i]) >= n - (i - k) && Accepted(times, i)
    decreases i - k
  {
    if k < i {
      TokensLast(times, k, n, i - 1);
      BucketsAreOk(times, i - 1);
      BucketsAreOk(times, i);
      assert times[..i][..i - 1] == times[..i - 1];
    }
  }

  /** A burst of ten: the first ten messages of a user are accepted, however fast they come. */
  lemma FirstTenAreAccepted(times: seq<int>, k: nat)
    requires Ordered(times) && k < |times| && k < 10
    ensures Accepted(times, k)
  {
    TokensLast(times, 0, 10, k);
  }

  /** Of messages sent at one moment, exactly the first ten are accepted. */
  lemma BurstAtOnceExactly(times: seq<int>, k: nat)
    requires k < |times| && forall i, j :: 0 <= i < j < |times| ==> times[i] == times[j]
    ensures Accepted(times, k) <==> k < 10
  {
    if k < 10 {
      FirstTenAreAccepted(times, k);
    } else if Accepted(times, k) {
      var t := times[k];
      forall n | n <= 10 ensures AcceptedIn(times, t, t, n) == n {
        BurstCounts(times, t, n);
      }
      CountGrows(times, t, t, 10, k);
      BudgetInvariant(times, t, t, k + 1);
    }
  }

  lemma {:induction false} BurstCounts(times: seq<int>, t: int, n: nat)
    requires n <= 10 && n <= |times| && Ordered(times) && forall i :: 0 <= i < |times| ==> times[i] == t
    ensures AcceptedIn(times, t, t, n) == n
  {
    if n > 0 {
      BurstCounts(times, t, n - 1);
      FirstTenAreAccepted(times, n - 1);
    }
  }

  lemma {:induction false} CountGrows(times: seq<int>, s: int, t: int, n: nat, k: nat)
    requires n <= k <= |times|
    ensures AcceptedIn(times, s, t, n) <= AcceptedIn(times, s, t, k)
  {
    if n < k {
      CountGrows(times, s, t, n, k - 1);
    }
  }

  /** Waiting refills: 2000 * n milliseconds after the last accepted message, the next n messages are
      accepted, for n up to ten; after 20000 ms a whole burst is. */
  lemma WaitingRefills(times: seq<int>, j: nat, k: nat, n: nat, i: nat)
    requires Ordered(times) && j < k < |times| && LastAccepted(times, j, k)
    requires n <= 10 && times[k] - times[j] >= 2000 * n && k <= i < |times| && i < k + n
    ensures Accepted(times, i)
  {
    RefusalsLeaveTheBucket(times, j, k);
    BucketsAreOk(times, k);
    TokensLast(times, k, n, i);
  }

  // ----- Key expiry -----

  datatype Stored = Stored(bucket: Bucket, expiresAt: Option<int>)

  function Bucketed(s: Option<Stored>): Option<Bucket> {
    if s.Some? then Some(s.value.bucket) else None
  }

  /** What the script finds: an expired key is gone, and a live one has its expiry renewed. */
  function Renewed(s: Option<Stored>, now: int): Option<Stored> {
    if s.None? || (s.value.expiresAt.Some? && s.value.expiresAt.value <= now) then None
    else Some(s.value.(expiresAt := Some(now + EXPIRE_MS)))
  }

  /** Writing the bucket keeps a key's expiry; a new key has none until the next call. */
  function OfferStored(s: Option<Stored>, now: int): (Option<Stored>, bool) {
    var found := Renewed(s, now);
    var (b, ok) := Offer(Bucketed(found), now);
    if !ok then (found, false)
    else (Some(Stored(b.value, if found.Some? then found.value.expiresAt else None)), true)
  }

  function StoredAfter(times: seq<int>): Option<Stored> {
    if times == [] then None else OfferStored(StoredAfter(times[..|times| - 1]), times[|times| - 1]).0
  }

  ghost predicate Matches(b: Option<Bucket>, s: Option<Stored>) {
    && b == Bucketed(s)
    && (s.Some? && s.value.expiresAt.Some? ==> s.value.expiresAt.value >= s.value.bucket.last + EXPIRE_MS)
  }

  lemma OfferMatches(b: Option<Bucket>, s: Option<Stored>, now: int)
    requires BucketOk(b, now) && Matches(b, s)
    ensures Offer(b, now).1 == OfferStored(s, now).1
    ensures Matches(Offer(b, now).0, OfferStored(s, now).0)
  {
  }

  lemma {:induction false} ExpiryMatches(times: seq<int>, k: nat)
    requires Ordered(times) && k <= |times|
    ensures Matches(BucketAfter(times[..k]), StoredAfter(times[..k]))
  {
    if k > 0 {
      ExpiryMatches(times, k - 1);
      BucketsAreOk(times, k - 1);
      assert times[..k][..k - 1] == times[..k - 1];
      OfferMatches(BucketAfter(times[..k - 1]), StoredAfter(times[..k - 1]), times[k - 1]);
    }
  }

  /** Key expiry cannot be observed: every decision is the one a bucket kept forever would give. */
  lemma ExpiryIsUnobservable(times: seq<int>, k: nat)
    requires Ordered(times) && k < |times|
    ensures OfferStored(StoredAfter(times[..k]), times[k]).1 == Accepted(times, k)
  {
    ExpiryMatches(times, k);
    BucketsAreOk(times, k);
    OfferMatches(BucketAfter(times[..k]), StoredAfter(times[..k]), times[k]);
  }

  // ----- The script over all users and rooms -----

  datatype Send = Send(user: string, room: string, message: string, now: int)
  datatype Cache = Cache(buckets: map<string, Stored>, lists: map<string, seq<string>>)

  function Lookup(buckets: map<string, Stored>, user: string): Option<Stored> {
    if user in buckets then Some(buckets[user]) else None
  }

  function Put(buckets: map<string, Stored>, user: string, s: Option<Stored>): map<string, Stored> {
    if s.Some? then buckets[user := s.value] else buckets - {user}
  }

  function ListOf(lists: map<string, seq<string>>, room: string): seq<string> {
    if room in lists then lists[room] else []
  }

  function LastTwenty(list: seq<string>): seq<string> {
    if |list| <= MAX_LIST then list else list[|list| - MAX_LIST..]
  }

  function Script(c: Cache, e: Send): (Cache, bool) {
    var (s, ok) := OfferStored(Lookup(c.buckets, e.user), e.now);
    (Cache(Put(c.buckets, e.user, s),
           if ok then c.lists[e.room := LastTwenty(ListOf(c.lists, e.room) + [e.message])] else c.lists), ok)
  }

  const EMPTY := Cache(map[], map[])

  function Run(sends: seq<Send>): Cache {
    if sends == [] then EMPTY else Script(Run(sends[..|sends| - 1]), sends[|sends| - 1]).0
  }

  /** The times at which one user sends. */
  function TimesOf(sends: seq<Send>, user: string): seq<int> {
    if sends == [] then []
    else TimesOf(sends[..|sends| - 1], user) + (if sends[|sends| - 1].user == user then [sends[|sends| - 1].now] else [])
  }

  /** Users do not affect each other: each user's bucket is that of the user's own trace. */
  lemma {:induction false} UsersAreIndependent(sends: seq<Send>, user: string)
    ensures Lookup(Run(sends).buckets, user) == StoredAfter(TimesOf(sends, user))
  {
    if sends != [] {
      var (front, last) := (sends[..|sends| - 1], sends[|sends| - 1]);
      UsersAreIndependent(front, user);
      ScriptEffect(Run(front), last, user, "");
      var times := TimesOf(front, user);
      assert times + [] == times;
      assert (times + [last.now])[..|times|] == times;
    }
  }

  /** What one call does to any user's key and any room's list. */
  lemma ScriptEffect(c: Cache, e: Send, user: string, room: string)
    ensures var (c', ok) := Script(c, e);
            && Lookup(c'.buckets, user) ==
               (if user == e.user then OfferStored(Lookup(c.buckets, user), e.now).0 else Lookup(c.buckets, user))
            && ListOf(c'.lists, room) ==
               (if ok && room == e.room then LastTwenty(ListOf(c.lists, room) + [e.message]) else ListOf(c.lists, room))
  {
  }

  /** The messages accepted in a room, oldest first. */
  function AcceptedIntoRoom(sends: seq<Send>, room: string): seq<string> {
    if sends == [] then []
    else
      var (front, last) := (sends[..|sends| - 1], sends[|sends| - 1]);
      AcceptedIntoRoom(front, room) + (if Script(Run(front), last).1 && last.room == room then [last.message] else [])
  }

  /** Each room's list is exactly the last 20 messages accepted there. */
  lemma {:induction false} ListsHoldTheLastTwenty(sends: seq<Send>, room: string)
    ensures ListOf(Run(sends).lists, room) == LastTwenty(AcceptedIntoRoom(sends, room))
    ensures var all := AcceptedIntoRoom(sends, room);
            ListOf(Run(sends).lists, room) == if |all| <= 20 then all else all[|all| - 20..]
  {
    if sends != [] {
      var (front, last) := (sends[..|sends| - 1], sends[|sends| - 1]);
      ListsHoldTheLastTwenty(front, room);
      ScriptEffect(Run(front), last, "", room);
      var before := AcceptedIntoRoom(front, room);
      TrimsCompose(before, last.message);
      assert before + [] == before;
    }
  }

  lemma TrimsCompose(list: seq<string>, m: string)
    ensures LastTwenty(LastTwenty(list) + [m]) == LastTwenty(list + [m])
  {
  }

  /** A message is accepted exactly when the plain bucket of the sender's own trace has a token. */
  lemma DecisionsFollowOwnTrace(sends: seq<Send>, e: Send)
    requires Ordered(TimesOf(sends, e.user) + [e.now])
    ensures Script(Run(sends), e).1 == Accepted(TimesOf(sends, e.user) + [e.now], |TimesOf(sends, e.user)|)
  {
    var times := TimesOf(sends, e.user);
    UsersAreIndependent(sends, e.user);
    ExpiryIsUnobservable(times + [e.now], |times|);
    assert (times + [e.now])[..|times|] == times;
  }

  /** The script as it runs against the store. */
  class Store {
    var buckets: map<string, Stored>
    var lists: map<string, seq<string>>

    constructor ()
      ensures buckets == map[] && lists == map[]
    {
      buckets, lists := map[], map[];
    }

    method Call(e: Send) returns (accepted: bool)
      modifies this
      ensures (Cache(buckets, lists), accepted) == Script(Cache(old(buckets), old(lists)), e)
    {
      // keys past their expiry are gone before the script sees them
      if e.user in buckets && buckets[e.user].expiresAt.Some? && buckets[e.user].expiresAt.value <= e.now {
        buckets := buckets - {e.user};
      }
      if e.user in buckets {
        buckets := buckets[e.user := buckets[e.user].(expiresAt := Some(e.now + EXPIRE_MS))];
      }
      var last := if e.user in buckets then buckets[e.user].bucket.last else e.now;
      var current := if e.user in buckets then buckets[e.user].bucket.tokens else CAPACITY;
      var tokens := Min(CAPACITY, current + (e.now - last) / REFILL_MS);
      if tokens < 1 {
        return false;
      }
      tokens := tokens - 1;
      var expiry := if e.user in buckets then buckets[e.user].expiresAt else None;
      buckets := buckets[e.user := Stored(Bucket(e.now, tokens), expiry)];
      assert buckets == old(buckets)[e.user := Stored(Bucket(e.now, tokens), expiry)];
      var list := ListOf(lists, e.room) + [e.message];
      lists := lists[e.room := LastTwenty(list)];
      return true;
    }
  }
}
