/**
  The subscriptions of the WebSocket hub as a plain relation, and what holds of it over every
  order of events.
*/
module Subscriptions {

  /** A connection; the identifier stands for its address. */
  datatype Client = Client(id: nat, user: string, anonymous: bool)

  function UserRoom(c: Client): string {
    "user:" + c.user
  }

  datatype State = State(clients: set<Client>, subs: set<(Client, string)>, counts: map<string, int>)

  datatype Event =
    | Register(client: Client)
    | Unregister(client: Client)
    | Subscribe(client: Client, room: string)
    | Unsubscribe(client: Client, room: string)

  function CountOf(counts: map<string, int>, user: string): int {
    if user in counts then counts[user] else 0
  }

  function Counted(counts: map<string, int>, c: Client): map<string, int> {
    if c.anonymous then counts else counts[c.user := CountOf(counts, c.user) + 1]
  }

  /** The counter goes down by one and disappears when it would not stay positive. */
  function Uncounted(counts: map<string, int>, c: Client): map<string, int> {
    if c.anonymous then counts
    else if CountOf(counts, c.user) - 1 <= 0 then counts - {c.user}
    else counts[c.user := CountOf(counts, c.user) - 1]
  }

  function Joined(s: State, c: Client, room: string): State {
    s.(clients := s.clients + {c}, subs := s.subs + {(c, room)})
  }

  function Step(s: State, e: Event): State {
    match e
    case Register(c) =>
      if c in s.clients then s else Joined(s, c, UserRoom(c)).(counts := Counted(s.counts, c))
    case Unregister(c) =>
      if c !in s.clients then s
      else State(s.clients - {c}, (set p | p in s.subs && p.0 != c), Uncounted(s.counts, c))
    case Subscribe(c, room) => Joined(s, c, room)
    case Unsubscribe(c, room) =>
      if c !in s.clients then s else s.(subs := s.subs - {(c, room)})
  }

  const EMPTY := State({}, {}, map[])

  function Run(s: State, events: seq<Event>): State {
    if events == [] then s else Step(Run(s, events[..|events| - 1]), events[|events| - 1])
  }

  // ----- Who is subscribed -----

  ghost predicate OnlyClientsSubscribe(s: State) {
    forall p :: p in s.subs ==> p.0 in s.clients
  }

  /** Only present clients are ever subscribed, so an unregistered client is left in no room. */
  lemma {:induction false} SubscribersArePresent(events: seq<Event>)
    ensures OnlyClientsSubscribe(Run(EMPTY, events))
  {
    if events != [] {
      SubscribersArePresent(events[..|events| - 1]);
    }
  }

  ghost predicate Ends(e: Event, c: Client, room: string) {
    e == Unregister(c) || e == Unsubscribe(c, room)
  }

  /** Some event brought the client in and no unregister came after it. */
  ghost predicate Present(events: seq<Event>, c: Client) {
    exists k :: 0 <= k < |events| && Brings(events[k], c) && forall j :: k < j < |events| ==> events[j] != Unregister(c)
  }

  ghost predicate Brings(e: Event, c: Client) {
    e == Register(c) || (e.Subscribe? && e.client == c)
  }

  lemma PresentAfter(events: seq<Event>, c: Client)
    requires events != []
    ensures var (front, last) := (events[..|events| - 1], events[|events| - 1]);
            Present(events, c) <==> Brings(last, c) || (Present(front, c) && last != Unregister(c))
  {
    var n := |events| - 1;
    var front := events[..n];
    if Brings(events[n], c) {
      assert Present(events, c);
    } else {
      if Present(front, c) && events[n] != Unregister(c) {
        var k :| 0 <= k < n && Brings(front[k], c) && forall j :: k < j < n ==> front[j] != Unregister(c);
        assert Brings(events[k], c) && forall j :: k < j <= n ==> events[j] != Unregister(c);
      }
      if Present(events, c) {
        var k :| 0 <= k <= n && Brings(events[k], c) && forall j :: k < j <= n ==> events[j] != Unregister(c);
        assert Brings(front[k], c) && forall j :: k < j < n ==> front[j] != Unregister(c);
      }
    }
  }

  /** A client is listed exactly when it registered or subscribed and was not unregistered since. */
  lemma {:induction false} PresentExactlyWhen(events: seq<Event>, c: Client)
    ensures c in Run(EMPTY, events).clients <==> Present(events, c)
  {
    if events != [] {
      PresentExactlyWhen(events[..|events| - 1], c);
      PresentAfter(events, c);
    }
  }

  /** Event k puts the client into the room: a subscribe, or the first event that brings the client
      in, when it is a register and the room is the user's own. */
  ghost predicate Put(events: seq<Event>, c: Client, room: string, k: nat) {
    && k < |events|
    && (events[k] == Subscribe(c, room) ||
        (events[k] == Register(c) && room == "user:" + c.user && !Present(events[..k], c)))
  }

  /** No event after k takes it out. */
  ghost predicate StaysPut(events: seq<Event>, c: Client, room: string, k: nat) {
    forall j :: k < j < |events| ==> !Ends(events[j], c, room)
  }

  lemma PutInPrefix(events: seq<Event>, n: nat, c: Client, room: string, k: nat)
    requires k < n <= |events|
    ensures Put(events[..n], c, room, k) <==> Put(events, c, room, k)
    ensures StaysPut(events, c, room, k) ==> StaysPut(events[..n], c, room, k)
  {
    assert events[..n][..k] == events[..k];
  }

  /** A client is in a room exactly when some event put it there and nothing since took it out. */
  lemma {:induction false} SubscribedExactlyWhen(events: seq<Event>, c: Client, room: string)
    ensures (c, room) in Run(EMPTY, events).subs <==>
            exists k: nat :: Put(events, c, room, k) && StaysPut(events, c, room, k)
  {
    if events != [] {
      var n := |events| - 1;
      var front := events[..n];
      SubscribedExactlyWhen(front, c, room);
      SubscribersArePresent(front);
      PresentExactlyWhen(front, c);
      if Put(events, c, room, n) {
        assert StaysPut(events, c, room, n);
      } else if (c, room) in Run(EMPTY, events).subs {
        var k: nat :| Put(front, c, room, k) && StaysPut(front, c, room, k);
        PutInPrefix(events, n, c, room, k);
        forall j | k < j < |events| ensures !Ends(events[j], c, room) {
          if j < n {
            assert front[j] == events[j];
          }
        }
        assert StaysPut(events, c, room, k);
      } else if k: nat :| Put(events, c, room, k) && StaysPut(events, c, room, k) {
        PutInPrefix(events, n, c, room, k);
      }
    }
  }

  // ----- User counters -----

  function ClientsOf(clients: set<Client>, user: string): set<Client> {
    set c | c in clients && !c.anonymous && c.user == user
  }

  ghost predicate CountsBounded(s: State) {
    && (forall u :: u in s.counts ==> s.counts[u] > 0)
    && (forall u: string :: CountOf(s.counts, u) <= |ClientsOf(s.clients, u)|)
  }

  lemma ClientsOfAdded(clients: set<Client>, c: Client, user: string)
    requires c !in clients
    ensures |ClientsOf(clients + {c}, user)| ==
            |ClientsOf(clients, user)| + (if !c.anonymous && c.user == user then 1 else 0)
  {
    if !c.anonymous && c.user == user {
      assert ClientsOf(clients + {c}, user) == ClientsOf(clients, user) + {c};
    } else {
      assert ClientsOf(clients + {c}, user) == ClientsOf(clients, user);
    }
  }

  lemma ClientsOfRemoved(clients: set<Client>, c: Client, user: string)
    requires c in clients
    ensures |ClientsOf(clients - {c}, user)| ==
            |ClientsOf(clients, user)| - (if !c.anonymous && c.user == user then 1 else 0)
  {
    ClientsOfAdded(clients - {c}, c, user);
    assert clients - {c} + {c} == clients;
  }

  /** A subscribe of a signed-in connection that has not been registered. */
  predicate Overlooks(s: State, e: Event) {
    e.Subscribe? && e.client !in s.clients && !e.client.anonymous
  }

  ghost predicate CountsExact(s: State) {
    forall u: string :: CountOf(s.counts, u) == |ClientsOf(s.clients, u)|
  }

  /** Exact counters stay exact exactly when the event is not such a subscribe. */
  lemma ExactUnlessOverlooked(s: State, e: Event)
    requires CountsExact(s)
    ensures CountsExact(Step(s, e)) <==> !Overlooks(s, e)
  {
    var s' := Step(s, e);
    if Overlooks(s, e) {
      StepCounts(s, e, e.client.user);
    } else {
      forall u: string | true ensures CountOf(s'.counts, u) == |ClientsOf(s'.clients, u)| {
        StepCounts(s, e, u);
      }
    }
  }

  lemma StepCounts(s: State, e: Event, u: string)
    requires CountOf(s.counts, u) <= |ClientsOf(s.clients, u)|
    ensures CountOf(Step(s, e).counts, u) <= |ClientsOf(Step(s, e).clients, u)|
    ensures CountOf(s.counts, u) == |ClientsOf(s.clients, u)| && !Overlooks(s, e) ==>
              CountOf(Step(s, e).counts, u) == |ClientsOf(Step(s, e).clients, u)|
    ensures CountOf(s.counts, u) == |ClientsOf(s.clients, u)| && Overlooks(s, e) && u == e.client.user ==>
              CountOf(Step(s, e).counts, u) < |ClientsOf(Step(s, e).clients, u)|
  {
    var c := e.client;
    match e
    case Register(_) =>
      if c !in s.clients {
        ClientsOfAdded(s.clients, c, u);
      }
    case Unregister(_) =>
      if c in s.clients {
        ClientsOfRemoved(s.clients, c, u);
      }
    case Subscribe(_, _) =>
      if c in s.clients {
        assert s.clients + {c} == s.clients;
      } else {
        ClientsOfAdded(s.clients, c, u);
      }
    case Unsubscribe(_, _) =>
  }

  /** Stored counters are positive and never exceed the user's number of connections. */
  lemma {:induction false} CountersNeverOvercount(events: seq<Event>)
    ensures CountsBounded(Run(EMPTY, events))
  {
    if events != [] {
      var s := Run(EMPTY, events[..|events| - 1]);
      CountersNeverOvercount(events[..|events| - 1]);
      var s' := Step(s, events[|events| - 1]);
      forall u: string | true ensures CountOf(s'.counts, u) <= |ClientsOf(s'.clients, u)| {
        StepCounts(s, events[|events| - 1], u);
      }
    }
  }

  /** No subscribe of a signed-in connection is handled before its register. */
  ghost predicate RegisteredFirst(events: seq<Event>) {
    forall k :: 0 <= k < |events| ==> !Overlooks(Run(EMPTY, events[..k]), events[k])
  }

  /** If every register is handled before its connection's subscribes, counters are exact. */
  lemma {:induction false} CountersAreExact(events: seq<Event>)
    requires RegisteredFirst(events)
    ensures CountsExact(Run(EMPTY, events))
  {
    if events == [] {
      assert forall u: string :: ClientsOf({}, u) == {};
    } else {
      var n := |events| - 1;
      var front := events[..n];
      forall k | 0 <= k < |front| ensures !Overlooks(Run(EMPTY, front[..k]), front[k]) {
        assert front[..k] == events[..k] && front[k] == events[k];
      }
      CountersAreExact(front);
      ExactUnlessOverlooked(Run(EMPTY, front), events[n]);
    }
  }

  lemma OneMore(events: seq<Event>, e: Event) returns (s: State)
    ensures s == Run(EMPTY, events + [e]) == Step(Run(EMPTY, events), e)
  {
    assert (events + [e])[..|events|] == events;
    s := Run(EMPTY, events + [e]);
  }

  /** Otherwise they can undercount: a subscribe handled before its register is never counted,
      and its unregister then hides another connection of the same user. */
  lemma CountersCanUndercount(a: Client, b: Client, room: string)
    requires !a.anonymous && !b.anonymous && a.user == b.user && a != b
    ensures var s := Run(EMPTY, [Register(a), Subscribe(b, room), Register(b), Unregister(b)]);
            a in s.clients && CountOf(s.counts, a.user) == 0
  {
    var s1 := OneMore([], Register(a));
    assert [] + [Register(a)] == [Register(a)];
    var s2 := OneMore([Register(a)], Subscribe(b, room));
    assert [Register(a)] + [Subscribe(b, room)] == [Register(a), Subscribe(b, room)];
    var s3 := OneMore([Register(a), Subscribe(b, room)], Register(b));
    assert [Register(a), Subscribe(b, room)] + [Register(b)] == [Register(a), Subscribe(b, room), Register(b)];
    var s4 := OneMore([Register(a), Subscribe(b, room), Register(b)], Unregister(b));
    assert [Register(a), Subscribe(b, room), Register(b)] + [Unregister(b)] ==
           [Register(a), Subscribe(b, room), Register(b), Unregister(b)];
  }
}

/**
  The hub itself: rooms are objects shared between two indexes, one from room identifiers to
  rooms with their clients and one from clients to their rooms.  Every handler is proved to do to
  both indexes what the event does to the plain relation.
*/
module Hub {
  import opened Subscriptions

  class Room {
    const id: string
    var clients: set<Client>

    constructor (id: string)
      ensures this.id == id && clients == {}
    {
      this.id := id;
      clients := {};
    }
  }

  type Index = map<Client, set<Room>>

  /** The pairs of the client index. */
  ghost function Pairs(clientRooms: Index): set<(Client, string)> {
    set c, r | c in clientRooms && r in clientRooms[c] :: (c, r.id)
  }

  /**
    The two indexes agree; every listed room is non-empty and is the one object for its
    identifier.  `members` is what the rooms contain.
  */
  ghost predicate Agree(rooms: map<string, Room>, members: map<string, set<Client>>, clients: set<Client>, clientRooms: Index) {
    && clients == clientRooms.Keys
    && rooms.Keys == members.Keys
    && (forall id :: id in rooms ==> rooms[id].id == id && members[id] != {})
    && (forall id, c :: id in members && c in members[id] ==> c in clientRooms && rooms[id] in clientRooms[c])
    && (forall c, r :: c in clientRooms && r in clientRooms[c] ==>
          r.id in rooms && rooms[r.id] == r && c in members[r.id])
  }

  /** The index after a client joins a room. */
  function JoinedIndex(clientRooms: Index, c: Client, room: Room): Index {
    clientRooms[c := (if c in clientRooms then clientRooms[c] else {}) + {room}]
  }

  lemma AdmitThenJoin(clientRooms: Index, c: Client, room: Room)
    ensures var admitted := if c in clientRooms then clientRooms else clientRooms[c := {}];
            admitted[c := admitted[c] + {room}] == JoinedIndex(clientRooms, c, room)
  {
  }

  ghost function IdsOf(rooms: set<Room>): set<string> {
    set r | r in rooms :: r.id
  }

  lemma IdsOfMore(rooms: set<Room>, room: Room)
    ensures IdsOf(rooms + {room}) == IdsOf(rooms) + {room.id}
  {
    assert forall r :: r in rooms ==> r in rooms + {room};
    assert room in rooms + {room};
  }

  lemma PairsAfterJoin(clientRooms: Index, c: Client, room: Room)
    ensures Pairs(JoinedIndex(clientRooms, c, room)) == Pairs(clientRooms) + {(c, room.id)}
  {
    var after := JoinedIndex(clientRooms, c, room);
    forall p | p in Pairs(clientRooms) + {(c, room.id)} ensures p in Pairs(after) {
      if p == (c, room.id) {
        assert room in after[c];
      } else {
        var d: Client, r: Room :| d in clientRooms && r in clientRooms[d] && p == (d, r.id);
        assert r in after[d];
      }
    }
  }

  function Entered(members: map<string, set<Client>>, c: Client, roomId: string): map<string, set<Client>> {
    members[roomId := (if roomId in members then members[roomId] else {}) + {c}]
  }

  lemma AgreeAfterJoin(rooms: map<string, Room>, members: map<string, set<Client>>, clients: set<Client>,
                       clientRooms: Index, c: Client, room: Room)
    requires Agree(rooms, members, clients, clientRooms)
    requires room.id in rooms ==> rooms[room.id] == room
    ensures Agree(rooms[room.id := room],
                  Entered(members, c, room.id),
                  clients + {c}, JoinedIndex(clientRooms, c, room))
  {
  }

  /** The value of the hub's fields. */
  datatype Tables = Tables(rooms: map<string, Room>, members: map<string, set<Client>>, clients: set<Client>, index: Index)

  ghost predicate Good(s: Tables) {
    Agree(s.rooms, s.members, s.clients, s.index)
  }

  lemma JoinKeepsGood(s: Tables, s': Tables, c: Client, room: Room)
    requires Good(s) && (room.id in s.rooms ==> s.rooms[room.id] == room)
    requires s'.rooms == s.rooms[room.id := room]
    requires s'.members == Entered(s.members, c, room.id)
    requires s'.clients == s.clients + {c}
    requires s'.index == JoinedIndex(s.index, c, room)
    ensures Good(s')
    ensures forall counts :: State(s'.clients, Pairs(s'.index), counts) == Joined(State(s.clients, Pairs(s.index), counts), c, room.id)
  {
    AgreeAfterJoin(s.rooms, s.members, s.clients, s.index, c, room);
    PairsAfterJoin(s.index, c, room);
  }

  lemma AdmitKeepsGood(s: Tables, s': Tables, c: Client)
    requires Good(s) && c !in s.index
    requires s' == s.(clients := s.clients + {c}, index := s.index[c := {}])
    ensures Good(s') && Pairs(s'.index) == Pairs(s.index)
  {
    forall p | p in Pairs(s.index) ensures p in Pairs(s'.index) {
      var d: Client, r: Room :| d in s.index && r in s.index[d] && p == (d, r.id);
      assert r in s'.index[d];
    }
  }

  /** The index after a client leaves a room. */
  function LeftIndex(clientRooms: Index, c: Client, room: Room): Index
    requires c in clientRooms
  {
    clientRooms[c := clientRooms[c] - {room}]
  }

  lemma PairsAfterLeave(rooms: map<string, Room>, members: map<string, set<Client>>, clients: set<Client>,
                        clientRooms: Index, c: Client, room: Room)
    requires Agree(rooms, members, clients, clientRooms) && c in clientRooms
    requires room.id in rooms && rooms[room.id] == room
    ensures Pairs(LeftIndex(clientRooms, c, room)) == Pairs(clientRooms) - {(c, room.id)}
  {
    var after := LeftIndex(clientRooms, c, room);
    forall p | p in Pairs(clientRooms) - {(c, room.id)} ensures p in Pairs(after) {
      var d: Client, r: Room :| d in clientRooms && r in clientRooms[d] && p == (d, r.id);
      assert r in after[d];
    }
    forall p | p in Pairs(after) ensures p in Pairs(clientRooms) && p != (c, room.id) {
      var d: Client, r: Room :| d in after && r in after[d] && p == (d, r.id);
      assert r in clientRooms[d];
    }
  }

  /** The rooms' contents after c leaves those in `left`; rooms left empty are gone. */
  function Without(members: map<string, set<Client>>, c: Client, left: set<string>): map<string, set<Client>> {
    map id | id in members && !(id in left && members[id] - {c} == {}) ::
      if id in left then members[id] - {c} else members[id]
  }

  function Restrict(rooms: map<string, Room>, ids: set<string>): map<string, Room> {
    map id | id in rooms && id in ids :: rooms[id]
  }

  lemma AgreeAfterLeave(rooms: map<string, Room>, members: map<string, set<Client>>, clients: set<Client>,
                        clientRooms: Index, c: Client, room: Room)
    requires Agree(rooms, members, clients, clientRooms) && c in clientRooms
    requires room.id in rooms && rooms[room.id] == room
    ensures var members' := Without(members, c, {room.id});
            Agree(Restrict(rooms, members'.Keys), members', clients, LeftIndex(clientRooms, c, room))
  {
    var (members', after) := (Without(members, c, {room.id}), LeftIndex(clientRooms, c, room));
    forall d: Client, r: Room | d in after && r in after[d]
      ensures r.id in members' && rooms[r.id] == r && d in members'[r.id]
    {
      assert r in clientRooms[d];
      assert d in members[r.id];
      if r.id == room.id {
        assert r == room && d != c;
        assert d in members[r.id] - {c};
      }
    }
  }

  lemma LeaveKeepsGood(s: Tables, s': Tables, c: Client, room: Room)
    requires Good(s) && c in s.index && room.id in s.rooms && s.rooms[room.id] == room
    requires s'.members == Without(s.members, c, {room.id})
    requires s'.rooms == Restrict(s.rooms, s'.members.Keys)
    requires s'.clients == s.clients && s'.index == LeftIndex(s.index, c, room)
    ensures Good(s') && Pairs(s'.index) == Pairs(s.index) - {(c, room.id)}
  {
    AgreeAfterLeave(s.rooms, s.members, s.clients, s.index, c, room);
    PairsAfterLeave(s.rooms, s.members, s.clients, s.index, c, room);
  }

  lemma WithoutMore(members: map<string, set<Client>>, c: Client, left: set<string>, id: string)
    requires id !in left
    ensures Without(Without(members, c, left), c, {id}) == Without(members, c, left + {id})
  {
  }

  lemma RestrictMore(rooms: map<string, Room>, ids: set<string>, ids': set<string>)
    requires ids' <= ids
    ensures Restrict(Restrict(rooms, ids), ids') == Restrict(rooms, ids')
  {
  }

  lemma DropKeepsGood(s: Tables, s': Tables, c: Client, left: set<string>)
    requires Good(s) && c in s.index
    requires left == IdsOf(s.index[c])
    requires s'.members == Without(s.members, c, left)
    requires s'.rooms == Restrict(s.rooms, s'.members.Keys)
    requires s'.clients == s.clients - {c} && s'.index == s.index - {c}
    ensures Good(s') && Pairs(s'.index) == set p | p in Pairs(s.index) && p.0 != c
  {
    forall id | id in s.members && c in s.members[id] ensures id in left {
      assert s.rooms[id] in s.index[c];
    }
    AgreeAfterDrop(s.rooms, s.members, s.clients, s.index, c, left);
    PairsAfterDrop(s.index, c);
  }

  lemma PairsAfterDrop(clientRooms: Index, c: Client)
    ensures Pairs(clientRooms - {c}) == set p | p in Pairs(clientRooms) && p.0 != c
  {
    forall p | p in Pairs(clientRooms) && p.0 != c ensures p in Pairs(clientRooms - {c}) {
      var d: Client, r: Room :| d in clientRooms && r in clientRooms[d] && p == (d, r.id);
      assert r in (clientRooms - {c})[d];
    }
  }

  lemma AgreeAfterDrop(rooms: map<string, Room>, members: map<string, set<Client>>, clients: set<Client>,
                       clientRooms: Index, c: Client, left: set<string>)
    requires Agree(rooms, members, clients, clientRooms) && c in clientRooms
    requires forall id :: id in members && c in members[id] ==> id in left
    ensures var members' := Without(members, c, left);
            Agree(Restrict(rooms, members'.Keys), members', clients - {c}, clientRooms - {c})
  {
  }

  class Hub {
    var rooms: map<string, Room>
    var clients: set<Client>
    var clientRooms: Index
    var userRegistered: map<string, int>

    ghost function Members(): map<string, set<Client>>
      reads this`rooms, rooms.Values`clients
    {
      map id | id in rooms :: rooms[id].clients
    }

    ghost predicate Valid()
      reads this, rooms.Values
    {
      Good(Fields())
    }

    ghost function Fields(): Tables
      reads this`rooms, this`clients, this`clientRooms, rooms.Values`clients
    {
      Tables(rooms, Members(), clients, clientRooms)
    }

    ghost function View(): State
      reads this
    {
      State(clients, Pairs(clientRooms), userRegistered)
    }

    constructor ()
      ensures Valid() && View() == EMPTY
    {
      rooms, clients, clientRooms, userRegistered := map[], {}, map[], map[];
    }

    /** A client is in a room, seen from the room, exactly when the relation says so. */
    lemma RoomsMatchView(c: Client, id: string)
      requires Valid()
      ensures (c, id) in View().subs <==> id in rooms && c in rooms[id].clients
    {
      if id in rooms && c in rooms[id].clients {
        assert c in Members()[id];
        assert rooms[id] in clientRooms[c];
      }
    }

    /** Put c into the room, creating it if it is not there. */
    method EnterRoom(c: Client, roomId: string) returns (room: Room)
      requires forall id :: id in rooms ==> rooms[id].id == id
      modifies this`rooms, rooms.Values
      ensures room.id == roomId && (roomId in old(rooms) ==> room == old(rooms)[roomId])
      ensures rooms == old(rooms)[roomId := room] && (roomId in old(rooms) || fresh(room))
      ensures Members() == Entered(old(Members()), c, roomId)
    {
      ghost var members0 := Members();
      if roomId in rooms {
        room := rooms[roomId];
      } else {
        room := new Room(roomId);
        rooms := rooms[roomId := room];
      }
      room.clients := room.clients + {c};
      assert Members() == Entered(members0, c, roomId);
    }

    /** Make sure the client is listed. */
    method Admit(c: Client)
      requires clients == clientRooms.Keys
      modifies this`clients, this`clientRooms
      ensures clients == old(clients) + {c} && clients == clientRooms.Keys
      ensures clientRooms == if c in old(clientRooms) then old(clientRooms) else old(clientRooms)[c := {}]
    {
      if c !in clients {
        clients := clients + {c};
        clientRooms := clientRooms[c := {}];
      }
    }

    /** Both indexes after the client joins. */
    method Join(c: Client, roomId: string) returns (room: Room)
      requires clients == clientRooms.Keys && forall id :: id in rooms ==> rooms[id].id == id
      modifies this`clients, this`clientRooms, this`rooms, rooms.Values
      ensures room.id == roomId && (roomId in old(rooms) ==> room == old(rooms)[roomId])
      ensures rooms == old(rooms)[roomId := room] && (roomId in old(rooms) || fresh(room))
      ensures Fields() == Tables(rooms, Entered(old(Members()), c, roomId), old(clients) + {c},
                                 JoinedIndex(old(clientRooms), c, room))
    {
      ghost var index0 := clientRooms;
      Admit(c);
      room := EnterRoom(c, roomId);
      AdmitThenJoin(index0, c, room);
      clientRooms := clientRooms[c := clientRooms[c] + {room}];
    }

    method HandleSubscribe(c: Client, roomId: string)
      requires Valid()
      modifies this, rooms.Values
      ensures forall id :: id in rooms ==> rooms[id] in old(rooms.Values) || fresh(rooms[id])
      ensures Valid() && View() == Step(old(View()), Subscribe(c, roomId))
    {
      ghost var before := Fields();
      var room := Join(c, roomId);
      JoinKeepsGood(before, Fields(), c, room);
    }

    method HandleRegister(c: Client)
      requires Valid()
      modifies this, rooms.Values
      ensures forall id :: id in rooms ==> rooms[id] in old(rooms.Values) || fresh(rooms[id])
      ensures Valid() && View() == Step(old(View()), Register(c))
    {
      if c in clients {
        return;
      }
      AdmitAndCount(c);
      HandleSubscribe(c, UserRoom(c));
    }

    /** List a new client and count it for its user. */
    method AdmitAndCount(c: Client)
      requires Valid() && c !in clients
      modifies this`clients, this`clientRooms, this`userRegistered
      ensures Valid()
      ensures View() == State(old(clients) + {c}, old(View().subs), Counted(old(userRegistered), c))
    {
      ghost var before := Fields();
      Admit(c);
      if !c.anonymous {
        userRegistered := userRegistered[c.user := CountOf(userRegistered, c.user) + 1];
      }
      AdmitKeepsGood(before, Fields(), c);
    }

    /** Forget a room: its clients lose it and its identifier is free again. */
    method DeleteRoom(room: Room)
      modifies this`rooms, this`clientRooms
      ensures room.id !in old(rooms) ==> rooms == old(rooms) && clientRooms == old(clientRooms)
      ensures room.id in old(rooms) ==>
                && rooms == old(rooms) - {room.id}
                && clientRooms == map c | c in old(clientRooms) ::
                     if c in room.clients then old(clientRooms)[c] - {room} else old(clientRooms)[c]
    {
      if room.id !in rooms {
        return;
      }
      clientRooms := map c | c in clientRooms :: if c in room.clients then clientRooms[c] - {room} else clientRooms[c];
      rooms := rooms - {room.id};
    }

    /** Take c out of one room, dropping the room if it is left empty. */
    method LeaveRoom(c: Client, room: Room)
      requires room.id in rooms && rooms[room.id] == room
      requires forall id :: id in rooms ==> rooms[id].id == id
      modifies this`rooms, this`clientRooms, room
      ensures Members() == old(Without(Members(), c, {room.id}))
      ensures rooms == old(Restrict(rooms, Without(Members(), c, {room.id}).Keys))
      ensures clientRooms == old(clientRooms)
    {
      ghost var (rooms0, members0) := (rooms, Members());
      assert forall id :: id in members0 && id != room.id ==> members0[id] == rooms[id].clients && rooms[id] != room;
      room.clients := room.clients - {c};
      if room.clients == {} {
        DeleteRoom(room);
      }
      LeftMembers(rooms0, members0, c, room);
    }

    lemma LeftMembers(rooms0: map<string, Room>, members0: map<string, set<Client>>, c: Client, room: Room)
      requires room.id in rooms0 && rooms0[room.id] == room && members0.Keys == rooms0.Keys
      requires room.clients == members0[room.id] - {c}
      requires forall id :: id in rooms0 && id != room.id ==> rooms0[id].clients == members0[id]
      requires rooms == if room.clients == {} then rooms0 - {room.id} else rooms0
      ensures Members() == Without(members0, c, {room.id})
      ensures rooms == Restrict(rooms0, Without(members0, c, {room.id}).Keys)
    {
      assert Members() == Without(members0, c, {room.id});
      assert rooms == Restrict(rooms0, Without(members0, c, {room.id}).Keys);
    }

    method HandleUnsubscribe(c: Client, roomId: string)
      requires Valid()
      modifies this, rooms.Values
      ensures forall id :: id in rooms ==> rooms[id] in old(rooms.Values) || fresh(rooms[id])
      ensures Valid() && View() == Step(old(View()), Unsubscribe(c, roomId))
    {
      if c !in clients {
        return;
      }
      if roomId !in rooms {
        assert (c, roomId) !in Pairs(clientRooms);
        return;
      }
      ghost var before := Fields();
      var room := rooms[roomId];
      clientRooms := clientRooms[c := clientRooms[c] - {room}];
      LeaveRoom(c, room);
      LeaveKeepsGood(before, Fields(), c, room);
    }

    /** Take c out of every room of `mine`. */
    method LeaveAll(c: Client, mine: set<Room>)
      requires forall id :: id in rooms ==> rooms[id].id == id
      requires forall r :: r in mine ==> r.id in rooms && rooms[r.id] == r
      modifies this`rooms, this`clientRooms, rooms.Values
      ensures Members() == old(Without(Members(), c, IdsOf(mine)))
      ensures rooms == old(Restrict(rooms, Without(Members(), c, IdsOf(mine)).Keys))
      ensures clientRooms == old(clientRooms)
    {
      ghost var (rooms0, members0, index0) := (rooms, Members(), clientRooms);
      var todo := mine;
      ghost var done: set<Room> := {};
      assert Without(members0, c, {}) == members0;
      assert Restrict(rooms0, members0.Keys) == rooms0;
      while todo != {}
        invariant todo !! done && todo + done == mine && clientRooms == index0
        invariant Members() == Without(members0, c, IdsOf(done))
        invariant rooms == Restrict(rooms0, Without(members0, c, IdsOf(done)).Keys)
        decreases todo
      {
        var room :| room in todo;
        assert room in mine && rooms0[room.id] == room;
        assert room.id !in IdsOf(done);
        assert room.id in Members();
        IdsOfMore(done, room);
        WithoutMore(members0, c, IdsOf(done), room.id);
        RestrictMore(rooms0, Without(members0, c, IdsOf(done)).Keys, Without(members0, c, IdsOf(done) + {room.id}).Keys);
        LeaveRoom(c, room);
        done, todo := done + {room}, todo - {room};
      }
      assert done == mine;
    }

    method Discount(c: Client)
      modifies this`userRegistered
      ensures userRegistered == Uncounted(old(userRegistered), c)
    {
      if !c.anonymous {
        userRegistered := userRegistered[c.user := CountOf(userRegistered, c.user) - 1];
        if userRegistered[c.user] <= 0 {
          userRegistered := userRegistered - {c.user};
        }
      }
    }

    method HandleUnregister(c: Client)
      requires Valid()
      modifies this, rooms.Values
      ensures forall id :: id in rooms ==> rooms[id] in old(rooms.Values) || fresh(rooms[id])
      ensures Valid() && View() == Step(old(View()), Unregister(c))
    {
      if c !in clients {
        return;
      }
      Discount(c);
      Forget(c);
    }

    /** Take a client out of all its rooms and off the lists. */
    method Forget(c: Client)
      requires Valid() && c in clients
      modifies this`rooms, this`clients, this`clientRooms, rooms.Values
      ensures rooms.Values <= old(rooms.Values)
      ensures Valid()
      ensures View() == State(old(clients) - {c}, old(set p | p in View().subs && p.0 != c), old(userRegistered))
    {
      ghost var before := Fields();
      var mine := clientRooms[c];
      LeaveAll(c, mine);
      Unlist(c);
      DropKeepsGood(before, Fields(), c, IdsOf(mine));
    }

    method Unlist(c: Client)
      modifies this`clients, this`clientRooms
      ensures clientRooms == old(clientRooms) - {c} && clients == old(clients) - {c}
    {
      clientRooms := clientRooms - {c};
      clients := clients - {c};
    }

    /** The dispatch loop, for any order in which events come off the channels. */
    method HandleAll(events: seq<Event>)
      requires Valid()
      modifies this, rooms.Values
      ensures Valid() && View() == Run(old(View()), events)
    {
      ghost var (start, owned) := (View(), rooms.Values);
      for i := 0 to |events|
        invariant Valid() && View() == Run(start, events[..i])
        invariant forall id :: id in rooms ==> rooms[id] in owned || fresh(rooms[id])
      {
        assert events[..i + 1][..i] == events[..i];
        match events[i]
        case Register(c) => HandleRegister(c);
        case Unregister(c) => HandleUnregister(c);
        case Subscribe(c, room) => HandleSubscribe(c, room);
        case Unsubscribe(c, room) => HandleUnsubscribe(c, room);
      }
      assert events[..|events|] == events;
    }

    /** Offer a payload to the room: every subscriber either receives it or is dropped. */
    method HandleBroadcast(roomId: string, accepts: Client -> bool) returns (delivered: set<Client>, dropped: set<Client>)
      requires Valid()
      ensures delivered == set c | c in clients && (c, roomId) in View().subs && accepts(c)
      ensures dropped == set c | c in clients && (c, roomId) in View().subs && !accepts(c)
    {
      forall c: Client | true ensures (c, roomId) in View().subs <==> roomId in rooms && c in rooms[roomId].clients {
        RoomsMatchView(c, roomId);
      }
      delivered, dropped := {}, {};
      if roomId !in rooms {
        return;
      }
      var todo := rooms[roomId].clients;
      while todo != {}
        invariant todo <= rooms[roomId].clients
        invariant delivered == set c | c in rooms[roomId].clients - todo && accepts(c)
        invariant dropped == set c | c in rooms[roomId].clients - todo && !accepts(c)
        decreases todo
      {
        var c :| c in todo;
        todo := todo - {c};
        if accepts(c) {
          delivered := delivered + {c};
        } else {
          dropped := dropped + {c};
        }
      }
      assert forall c :: c in rooms[roomId].clients ==> c in Members()[roomId] && c in clientRooms;
    }
  }
}
