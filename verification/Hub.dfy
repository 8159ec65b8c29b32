/** The Hub (internal/websocket/hub.go): one goroutine that owns every connection of this server.

    Each connection is also described on its own by a small automaton, `Life`, that reads the same
    commands and knows nothing of indexes or of other connections. The Hub keeps three mutually
    dependent indexes and drops slow consumers in the middle of a fan-out; `Valid` says that it is
    nevertheless the product of those automata. */
module HubModel {
  import opened ChatTypes

  type Payload = string

  /** Depth of a connection's outbound queue (internal/websocket/client.go:26). */
  const SEND_BUFFER: nat := 256

  // ---- one connection on its own ----

  datatype Phase = Unknown | Registered | Gone

  /** `handed` is what the write pump has taken from the queue, in order. */
  datatype View = View(phase: Phase, rooms: set<RoomId>, queue: seq<Payload>, handed: seq<Payload>)

  datatype Command =
    | Register(c: Client)
    | Unregister(c: Client)
    | Join(c: Client, room: RoomId)
    | Leave(c: Client, room: RoomId)
    | Broadcast(room: RoomId, payload: Payload)
    | UserBroadcast(user: UserId, payload: Payload)
    | Drain(c: Client)

  /** A payload is queued, or, if the queue is full, the connection is dropped. */
  function Offer(v: View, p: Payload): View {
    if |v.queue| < SEND_BUFFER then v.(queue := v.queue + [p]) else v.(phase := Gone)
  }

  /** Is the payload of this command meant for connection `c`? */
  ghost predicate Addressed(v: View, cmd: Command, c: Client) {
    match cmd
    case Broadcast(room, _) => v.phase == Registered && room in v.rooms
    case UserBroadcast(user, _) => v.phase == Registered && user == c.user
    case _ => false
  }

  ghost function Step(v: View, cmd: Command, c: Client): View {
    match cmd
    case Register(d) => if d == c && v.phase == Unknown then v.(phase := Registered) else v
    case Unregister(d) => if d == c && v.phase == Registered then v.(phase := Gone) else v
    case Join(d, room) => if d == c && v.phase == Registered then v.(rooms := v.rooms + {room}) else v
    case Leave(d, room) => if d == c then v.(rooms := v.rooms - {room}) else v
    case Broadcast(_, p) => if Addressed(v, cmd, c) then Offer(v, p) else v
    case UserBroadcast(_, p) => if Addressed(v, cmd, c) then Offer(v, p) else v
    case Drain(d) => if d == c && v.queue != [] then v.(queue := v.queue[1..], handed := v.handed + [v.queue[0]]) else v
  }

  /** The connection a command names, if any. */
  ghost function Named(cmd: Command): set<Client> {
    match cmd
    case Broadcast(_, _) => {}
    case UserBroadcast(_, _) => {}
    case _ => {cmd.c}
  }

  const NEW_VIEW: View := View(Unknown, {}, [], [])

  ghost function Life(trace: seq<Command>, c: Client): View {
    if trace == [] then NEW_VIEW else Step(Life(trace[..|trace| - 1], c), trace[|trace| - 1], c)
  }

  /** The rooms a connection was in while it was last registered. */
  ghost function LastRooms(trace: seq<Command>, c: Client): set<RoomId> {
    if trace == [] then {}
    else
      var front := trace[..|trace| - 1];
      if Life(front, c).phase == Registered then Life(front, c).rooms else LastRooms(front, c)
  }

  // ---- the room and user indexes as inverses ----

  /** `index` is the inverse of `seats` and has no empty entry. */
  ghost predicate Inverse<K(!new)>(index: map<K, set<Client>>, seats: map<Client, set<K>>) {
    && (forall k | k in index :: index[k] != {})
    && (forall k, c | k in index && c in index[k] :: c in seats && k in seats[c])
    && (forall c, k | c in seats && k in seats[c] :: k in index && c in index[k])
  }

  lemma InverseAt<K(!new)>(index: map<K, set<Client>>, seats: map<Client, set<K>>, c: Client, k: K)
    requires Inverse(index, seats)
    ensures k in index && c in index[k] <==> c in seats && k in seats[c]
  {}

  /** The index after taking `c` out of the entries `ks`; an emptied entry is dropped. */
  function Detached<K>(index: map<K, set<Client>>, c: Client, ks: set<K>): map<K, set<Client>> {
    map k | k in index && (k in ks ==> index[k] - {c} != {}) :: if k in ks then index[k] - {c} else index[k]
  }

  function Attached<K>(index: map<K, set<Client>>, c: Client, k: K): map<K, set<Client>> {
    index[k := (if k in index then index[k] else {}) + {c}]
  }

  lemma DetachOneMore<K(!new)>(index: map<K, set<Client>>, c: Client, ks: set<K>, k: K)
    ensures Detached(Detached(index, c, ks), c, {k}) == Detached(index, c, ks + {k})
  {
    forall s: set<Client> ensures (s - {c}) - {c} == s - {c} {}
  }

  lemma DetachKeepsInverse<K(!new)>(index: map<K, set<Client>>, seats: map<Client, set<K>>, c: Client)
    requires Inverse(index, seats) && c in seats
    ensures Inverse(Detached(index, c, seats[c]), seats - {c})
  {}

  lemma DetachOneKeepsInverse<K(!new)>(index: map<K, set<Client>>, seats: map<Client, set<K>>, c: Client, k: K)
    requires Inverse(index, seats) && c in seats
    ensures Inverse(Detached(index, c, {k}), seats[c := seats[c] - {k}])
  {
    var after, seats' := Detached(index, c, {k}), seats[c := seats[c] - {k}];
    forall d, j | d in seats' && j in seats'[d] ensures j in after && d in after[j] {
      assert j in seats[d] && d in index[j];
      assert j == k ==> d in index[j] - {c};
    }
    forall j, d | j in after && d in after[j] ensures d in seats' && j in seats'[d] {
      assert j in index && d in index[j];
    }
  }

  lemma ArriveKeepsInverse<K(!new)>(index: map<K, set<Client>>, seats: map<Client, set<K>>, c: Client)
    requires Inverse(index, seats) && c !in seats
    ensures Inverse(index, seats[c := {}])
  {}

  lemma AttachKeepsInverse<K(!new)>(index: map<K, set<Client>>, seats: map<Client, set<K>>, c: Client, k: K)
    requires Inverse(index, seats) && c in seats
    ensures Inverse(Attached(index, c, k), seats[c := seats[c] + {k}])
  {}

  lemma ArriveAttached<K(!new)>(index: map<K, set<Client>>, seats: map<Client, set<K>>, c: Client, k: K)
    requires Inverse(index, seats) && c !in seats
    ensures Inverse(Attached(index, c, k), seats[c := {k}])
  {
    ArriveKeepsInverse(index, seats, c);
    AttachKeepsInverse(index, seats[c := {}], c, k);
    assert {} + {k} == {k};
    assert seats[c := {}][c := seats[c := {}][c] + {k}] == seats[c := {k}];
  }

  lemma DetachAbsent<K(!new)>(index: map<K, set<Client>>, seats: map<Client, set<K>>, c: Client, k: K)
    requires Inverse(index, seats) && c !in seats
    ensures Detached(index, c, {k}) == index
  {
    assert forall k | k in index :: c !in index[k] && index[k] - {c} == index[k];
  }

  ghost predicate NoRepeats<K>(said: seq<K>) {
    forall i, j | 0 <= i < j < |said| :: said[i] != said[j]
  }

  /** The keys told to unsubscribe are exactly those that lost their entry, each once. */
  ghost predicate Announced<K(!new)>(before: map<K, set<Client>>, after: map<K, set<Client>>, said: seq<K>) {
    && NoRepeats(said)
    && Lost(before, after, said)
    && (forall k | k in after :: k in before)
  }

  ghost predicate Lost<K(!new)>(before: map<K, set<Client>>, after: map<K, set<Client>>, said: seq<K>) {
    forall k :: k in said <==> k in before && k !in after
  }

  lemma AnnouncedMore<K(!new)>(a: map<K, set<Client>>, b: map<K, set<Client>>, c: map<K, set<Client>>, s: seq<K>,
                        t: seq<K>)
    requires Announced(a, b, s) && Announced(b, c, t)
    ensures Announced(a, c, s + t)
  {
    forall i, j | 0 <= i < j < |s + t| ensures (s + t)[i] != (s + t)[j] {
      if i < |s| <= j {
        assert s[i] in s && t[j - |s|] in t;
      }
    }
    forall k ensures k in s + t <==> k in a && k !in c {
      assert k in s + t <==> k in s || k in t;
    }
  }

  /** The connections that were dropped, each once. */
  ghost predicate Dropped(before: set<Client>, after: set<Client>, gone: seq<Client>) {
    && NoRepeats(gone)
    && (forall c | c in gone :: c in before && c !in after)
    && (forall c | c in before && c !in after :: c in gone)
  }

  /** The same while a fan-out is under way, with the rooms everybody was in when it began. */
  ghost predicate Told(seats: map<Client, set<RoomId>>, after: set<Client>, gone: seq<Client>,
                       told: seq<(UserId, set<RoomId>)>) {
    && Dropped(seats.Keys, after, gone) && |told| == |gone|
    && forall i | 0 <= i < |gone| :: gone[i] in seats && told[i] == (gone[i].user, seats[gone[i]])
  }

  lemma ToldMore(seats: map<Client, set<RoomId>>, mid: set<Client>, gone: seq<Client>,
                 told: seq<(UserId, set<RoomId>)>, c: Client)
    requires Told(seats, mid, gone, told) && c in mid && c in seats
    ensures Told(seats, mid - {c}, gone + [c], told + [(c.user, seats[c])])
  {
    assert c !in gone;
  }

  /** What presence is told of each: whose connection it was and the rooms it was in. */
  ghost function Farewells(gone: seq<Client>): (r: seq<(UserId, set<RoomId>)>)
    reads gone
    ensures |r| == |gone| && forall i | 0 <= i < |gone| :: r[i] == (gone[i].user, gone[i].rooms)
  {
    seq(|gone|, i requires 0 <= i < |gone| reads gone => (gone[i].user, gone[i].rooms))
  }

  /** How things stood when a fan-out began, and what it has had to say since. */
  datatype Ledger = Ledger(rooms: map<RoomId, set<Client>>, users: map<UserId, set<Client>>,
    seats: map<Client, set<RoomId>>, roomsDropped: seq<RoomId>, usersDropped: seq<UserId>,
    departures: seq<(UserId, set<RoomId>)>)

  datatype Notices = Notices(
    said: seq<RoomId>, saidUsers: seq<UserId>, gone: seq<Client>, told: seq<(UserId, set<RoomId>)>)

  // ---- objects ----

  class Client {
    const user: UserId
    var rooms: set<RoomId>
    var queue: seq<Payload>
    var closed: bool
    ghost var handed: seq<Payload>

    constructor (user: UserId)
      ensures this.user == user && IsNew()
    {
      this.user := user;
      rooms, queue, closed, handed := {}, [], false, [];
    }

    ghost predicate IsNew() reads this {
      rooms == {} && queue == [] && !closed && handed == []
    }

    /** A non-blocking send. Sending on a closed queue would panic: it must be open. */
    method TrySend(p: Payload) returns (sent: bool)
      requires !closed
      modifies `queue
      ensures sent <==> old(|queue|) < SEND_BUFFER
      ensures queue == if sent then old(queue) + [p] else old(queue)
    {
      sent := |queue| < SEND_BUFFER;
      if sent {
        queue := queue + [p];
      }
    }

    /** Closing a closed queue would panic: it must be open. */
    method CloseQueue()
      requires !closed
      modifies `closed
      ensures closed
    {
      closed := true;
    }
  }

  class Hub {
    var clients: set<Client>
    var rooms: map<RoomId, set<Client>>
    var users: map<UserId, set<Client>>
    /** Requests made of the broker, and disconnects reported to presence, in order. */
    var roomsDropped: seq<RoomId>
    var usersDropped: seq<UserId>
    var departures: seq<(UserId, set<RoomId>)>
    /** Every connection that was ever registered, and every command processed. */
    ghost var known: set<Client>
    ghost var trace: seq<Command>
    /** Whose departures they were. */
    ghost var reported: seq<Client>

    ghost function Seats(): map<Client, set<RoomId>>
      reads `clients, `known, known
      requires clients <= known
    {
      map c | c in clients :: c.rooms
    }

    ghost function Owners(): map<Client, set<UserId>>
      reads `clients
    {
      map c | c in clients :: {c.user}
    }

    /** The indexes agree with the registered connections, and a queue is closed exactly when its
        connection has been removed. */
    ghost predicate Coherent()
      reads `clients, `rooms, `users, `known, known
    {
      && clients <= known
      && (forall c | c in known :: c.closed <==> c !in clients)
      && Inverse(rooms, Seats())
      && Inverse(users, Owners())
    }

    ghost function ViewOf(c: Client): View
      reads `clients, `known, c
    {
      View(if c in clients then Registered else if c in known then Gone else Unknown, c.rooms, c.queue, c.handed)
    }

    /** Presence has been told of every connection that is gone, once, with its user and its last rooms, and of
        nothing else. */
    ghost predicate Reported()
      reads this
    {
      && |reported| == |departures| && NoRepeats(reported)
      && (forall c | c in reported :: c in known && c !in clients)
      && (forall c | c in known && c !in clients :: c in reported)
      && (forall i | 0 <= i < |reported| :: departures[i] == (reported[i].user, LastRooms(trace, reported[i])))
    }

    ghost predicate Valid()
      reads this, known
    {
      && Coherent()
      && Reported()
      && (forall c | c in known :: ViewOf(c) == Life(trace, c))
      && (forall i | 0 <= i < |trace| && trace[i].Register? :: trace[i].c in known)
    }

    constructor ()
      ensures Valid() && known == {} && trace == []
      ensures clients == {} && rooms == map[] && users == map[]
    {
      clients, rooms, users := {}, map[], map[];
      roomsDropped, usersDropped, departures := [], [], [];
      known, trace, reported := {}, [], [];
    }

    // -- removal --

    /** Takes `c` out of one room; the last one out has the room's subscription dropped. */
    method Detach(room: RoomId, c: Client) returns (ghost said: seq<RoomId>)
      modifies `rooms, `roomsDropped
      ensures rooms == Detached(old(rooms), c, {room})
      ensures roomsDropped == old(roomsDropped) + said && Announced(old(rooms), rooms, said)
    {
      said := [];
      if room in rooms {
        var members := rooms[room] - {c};
        if members == {} {
          rooms := rooms - {room};
          roomsDropped := roomsDropped + [room];
          said := [room];
        } else {
          rooms := rooms[room := members];
        }
      }
    }

    method DetachUser(c: Client) returns (ghost said: seq<UserId>)
      modifies `users, `usersDropped
      ensures users == Detached(old(users), c, {c.user})
      ensures usersDropped == old(usersDropped) + said && Announced(old(users), users, said)
    {
      said := [];
      if c.user in users {
        var conns := users[c.user] - {c};
        if conns == {} {
          users := users - {c.user};
          usersDropped := usersDropped + [c.user];
          said := [c.user];
        } else {
          users := users[c.user := conns];
        }
      }
    }

    /** The loop of `removeClient` over the connection's own rooms, in any order. */
    method DetachAll(c: Client) returns (ghost said: seq<RoomId>)
      modifies `rooms, `roomsDropped
      ensures rooms == Detached(old(rooms), c, c.rooms)
      ensures roomsDropped == old(roomsDropped) + said && Announced(old(rooms), rooms, said)
    {
      var left := c.rooms;
      said := [];
      assert rooms == Detached(rooms, c, {});
      while left != {}
        invariant left <= c.rooms
        invariant rooms == Detached(old(rooms), c, c.rooms - left)
        invariant roomsDropped == old(roomsDropped) + said && Announced(old(rooms), rooms, said)
      {
        var room :| room in left;
        ghost var mid := rooms;
        ghost var more := Detach(room, c);
        DetachOneMore(old(rooms), c, c.rooms - left, room);
        AnnouncedMore(old(rooms), mid, rooms, said, more);
        said := said + more;
        assert c.rooms - (left - {room}) == c.rooms - left + {room};
        left := left - {room};
      }
      assert c.rooms - {} == c.rooms;
    }

    /** The body of `removeClient`. */
    method Evict(c: Client) returns (ghost said: seq<RoomId>, ghost saidUsers: seq<UserId>)
      requires !c.closed
      modifies `clients, `rooms, `users, `roomsDropped, `usersDropped, `departures, c`closed
      ensures clients == old(clients) - {c} && c.closed
      ensures rooms == Detached(old(rooms), c, c.rooms) && users == Detached(old(users), c, {c.user})
      ensures roomsDropped == old(roomsDropped) + said && Announced(old(rooms), rooms, said)
      ensures usersDropped == old(usersDropped) + saidUsers && Announced(old(users), users, saidUsers)
      ensures departures == old(departures) + [(c.user, c.rooms)]
    {
      clients := clients - {c};
      said := DetachAll(c);
      saidUsers := DetachUser(c);
      c.CloseQueue();
      departures := departures + [(c.user, c.rooms)];
    }

    /** `removeClient`: out of every index, queue closed once, presence told; a second call does nothing. */
    method RemoveClient(c: Client)
      returns (ghost said: seq<RoomId>, ghost saidUsers: seq<UserId>, ghost gone: seq<Client>)
      requires Coherent()
      modifies `clients, `rooms, `users, `roomsDropped, `usersDropped, `departures, c`closed
      ensures c !in old(clients) ==> unchanged(c)
      ensures Coherent() && clients == old(clients) - {c}
      ensures forall d | d in known :: ViewOf(d) == Step(old(ViewOf(d)), Unregister(c), d)
      ensures roomsDropped == old(roomsDropped) + said && Announced(old(rooms), rooms, said)
      ensures usersDropped == old(usersDropped) + saidUsers && Announced(old(users), users, saidUsers)
      ensures Dropped(old(clients), clients, gone) && departures == old(departures) + Farewells(gone)
      ensures departures == old(departures) + if c in old(clients) then [(c.user, c.rooms)] else []
    {
      said, saidUsers, gone := [], [], [];
      if c !in clients {
        return;
      }
      DetachKeepsInverse(rooms, Seats(), c);
      DetachKeepsInverse(users, Owners(), c);
      said, saidUsers := Evict(c);
      gone := [c];
      assert Farewells(gone) == [(c.user, c.rooms)];
      assert Seats() == old(Seats()) - {c} && Owners() == old(Owners()) - {c};
    }

    // -- the commands of `Run` --

    /** A connection registers once, while it is still new. */
    method AddClient(c: Client)
      requires Coherent() && c !in known && c.IsNew()
      modifies `clients, `users, `known
      ensures Coherent() && known == old(known) + {c} && clients == old(clients) + {c}
      ensures old(users).Keys <= users.Keys
      ensures forall d | d in old(known) :: ViewOf(d) == Step(old(ViewOf(d)), Register(c), d)
    {
      ghost var seats, owners := Seats(), Owners();
      clients, known := clients + {c}, known + {c};
      users := Attached(users, c, c.user);
      assert Seats() == seats[c := {}] && Owners() == owners[c := {c.user}];
      ArriveKeepsInverse(rooms, seats, c);
      ArriveAttached(old(users), owners, c, c.user);
    }

    method AddToRoom(c: Client, room: RoomId)
      requires Coherent()
      modifies `rooms, c`rooms
      ensures c !in clients ==> unchanged(c)
      ensures Coherent()
      ensures old(rooms).Keys <= rooms.Keys
      ensures forall d | d in known :: ViewOf(d) == Step(old(ViewOf(d)), Join(c, room), d)
    {
      if c !in clients || room in c.rooms {
        return;
      }
      ghost var seats := Seats();
      rooms := Attached(rooms, c, room);
      c.rooms := c.rooms + {room};
      AttachKeepsInverse(old(rooms), seats, c, room);
      assert Seats() == seats[c := seats[c] + {room}];
    }

    /** Works for a removed connection too: its own room set still exists, the index no longer lists it. */
    method RemoveFromRoom(c: Client, room: RoomId) returns (ghost said: seq<RoomId>)
      requires Coherent()
      modifies `rooms, `roomsDropped, c`rooms
      ensures room !in old(c.rooms) ==> unchanged(c)
      ensures Coherent()
      ensures forall d | d in known :: ViewOf(d) == Step(old(ViewOf(d)), Leave(c, room), d)
      ensures roomsDropped == old(roomsDropped) + said && Announced(old(rooms), rooms, said)
    {
      said := [];
      if room !in c.rooms {
        return;
      }
      ghost var seats := Seats();
      c.rooms := c.rooms - {room};
      said := Detach(room, c);
      if c in clients {
        DetachOneKeepsInverse(old(rooms), seats, c, room);
        assert Seats() == seats[c := seats[c] - {room}];
      } else {
        DetachAbsent(old(rooms), seats, c, room);
        assert forall d | d in clients :: d != c;
      }
    }

    /** One turn of the fan-out: `c` gets the payload or is dropped, and no other connection changes. */
    method OfferTo(c: Client, p: Payload) returns (ghost said: seq<RoomId>, ghost saidUsers: seq<UserId>)
      requires Coherent() && c in clients
      modifies `clients, `rooms, `users, `roomsDropped, `usersDropped, `departures, c`queue, c`closed
      ensures Coherent() && (clients == old(clients) || clients == old(clients) - {c})
      ensures ViewOf(c) == Offer(old(ViewOf(c)), p)
      ensures roomsDropped == old(roomsDropped) + said && Announced(old(rooms), rooms, said)
      ensures usersDropped == old(usersDropped) + saidUsers && Announced(old(users), users, saidUsers)
      ensures departures == old(departures) + if c in clients then [] else [(c.user, c.rooms)]
    {
      said, saidUsers := [], [];
      var sent := c.TrySend(p);
      assert Seats() == old(Seats());
      if !sent {
        ghost var gone;
        said, saidUsers, gone := RemoveClient(c);
      }
    }

    /** What has been said since the fan-out began, when things stood as in `start`. */
    ghost predicate Since(start: Ledger, n: Notices)
      reads this
    {
      && roomsDropped == start.roomsDropped + n.said && Announced(start.rooms, rooms, n.said)
      && usersDropped == start.usersDropped + n.saidUsers && Announced(start.users, users, n.saidUsers)
      && departures == start.departures + n.told && Told(start.seats, clients, n.gone, n.told)
    }

    /** The same in the middle of a fan-out. */
    method OfferNext(c: Client, p: Payload, ghost start: Ledger, ghost n: Notices) returns (ghost n': Notices)
      requires Coherent() && c in clients && Since(start, n) && c in start.seats && c.rooms == start.seats[c]
      modifies `clients, `rooms, `users, `roomsDropped, `usersDropped, `departures, c`queue, c`closed
      ensures Coherent() && old(clients) - {c} <= clients <= old(clients)
      ensures ViewOf(c) == Offer(old(ViewOf(c)), p)
      ensures Since(start, n')
    {
      ghost var said, saidUsers := OfferTo(c, p);
      AnnouncedMore(start.rooms, old(rooms), rooms, n.said, said);
      AnnouncedMore(start.users, old(users), users, n.saidUsers, saidUsers);
      n' := n.(said := n.said + said, saidUsers := n.saidUsers + saidUsers);
      if c !in clients {
        ToldMore(start.seats, old(clients), n.gone, n.told, c);
        n' := n'.(gone := n.gone + [c], told := n.told + [(c.user, c.rooms)]);
      }
    }

    /** The fan-out loop shared by `deliver` and `deliverToUser`: `targets` is the index entry when the
        loop starts. Each target is offered the payload; nobody else is touched. */
    method FanOut(targets: set<Client>, p: Payload)
      returns (ghost said: seq<RoomId>, ghost saidUsers: seq<UserId>, ghost gone: seq<Client>)
      requires Coherent() && targets <= clients
      modifies `clients, `rooms, `users, `roomsDropped, `usersDropped, `departures, targets
      ensures Coherent()
      ensures forall d | d in known :: ViewOf(d) == if d in targets then Offer(old(ViewOf(d)), p) else old(ViewOf(d))
      ensures roomsDropped == old(roomsDropped) + said && Announced(old(rooms), rooms, said)
      ensures usersDropped == old(usersDropped) + saidUsers && Announced(old(users), users, saidUsers)
      ensures Dropped(old(clients), clients, gone) && departures == old(departures) + Farewells(gone)
    {
      var left := targets;
      ghost var start := Ledger(rooms, users, Seats(), roomsDropped, usersDropped, departures);
      ghost var n := Notices([], [], [], []);
      while left != {}
        invariant left <= targets && left <= clients && Coherent() && Since(start, n)
        invariant forall d | d in known ::
                    ViewOf(d) == if d in targets - left then Offer(old(ViewOf(d)), p) else old(ViewOf(d))
      {
        var c :| c in left;
        assert ViewOf(c) == old(ViewOf(c));
        n := OfferNext(c, p, start, n);
        left := left - {c};
      }
      FarewellsTold(n.gone, n.told);
      said, saidUsers, gone := n.said, n.saidUsers, n.gone;
    }

    twostate lemma FarewellsTold(new gone: seq<Client>, new told: seq<(UserId, set<RoomId>)>)
      requires old(Coherent()) && known == old(known) && Told(old(Seats()), clients, gone, told)
      requires forall d | d in known :: ViewOf(d).rooms == old(ViewOf(d)).rooms
      ensures Dropped(old(clients), clients, gone) && Farewells(gone) == told
    {}

    method Deliver(room: RoomId, p: Payload)
      returns (ghost said: seq<RoomId>, ghost saidUsers: seq<UserId>, ghost gone: seq<Client>)
      requires Coherent()
      modifies `clients, `rooms, `users, `roomsDropped, `usersDropped, `departures, known
      ensures Coherent()
      ensures forall d | d in known :: ViewOf(d) == Step(old(ViewOf(d)), Broadcast(room, p), d)
      ensures roomsDropped == old(roomsDropped) + said && Announced(old(rooms), rooms, said)
      ensures usersDropped == old(usersDropped) + saidUsers && Announced(old(users), users, saidUsers)
      ensures Dropped(old(clients), clients, gone) && departures == old(departures) + Farewells(gone)
    {
      var targets := if room in rooms then rooms[room] else {};
      assert targets <= Seats().Keys;
      forall d | d in known ensures d in targets <==> Addressed(ViewOf(d), Broadcast(room, p), d) {
        assert d in clients ==> Seats()[d] == d.rooms;
      }
      said, saidUsers, gone := FanOut(targets, p);
    }

    method DeliverToUser(user: UserId, p: Payload)
      returns (ghost said: seq<RoomId>, ghost saidUsers: seq<UserId>, ghost gone: seq<Client>)
      requires Coherent()
      modifies `clients, `rooms, `users, `roomsDropped, `usersDropped, `departures, known
      ensures Coherent()
      ensures forall d | d in known :: ViewOf(d) == Step(old(ViewOf(d)), UserBroadcast(user, p), d)
      ensures roomsDropped == old(roomsDropped) + said && Announced(old(rooms), rooms, said)
      ensures usersDropped == old(usersDropped) + saidUsers && Announced(old(users), users, saidUsers)
      ensures Dropped(old(clients), clients, gone) && departures == old(departures) + Farewells(gone)
    {
      var targets := if user in users then users[user] else {};
      assert targets <= Owners().Keys;
      forall d | d in known ensures d in targets <==> Addressed(ViewOf(d), UserBroadcast(user, p), d) {
        assert d in clients ==> d.user in Owners()[d];
      }
      said, saidUsers, gone := FanOut(targets, p);
    }

    /** The write pump takes the next payload; the queue may already be closed. */
    method TakeNext(c: Client)
      requires Coherent()
      modifies c`queue, c`handed
      ensures old(c.queue) == [] ==> unchanged(c)
      ensures Coherent()
      ensures forall d | d in known :: ViewOf(d) == Step(old(ViewOf(d)), Drain(c), d)
    {
      if c.queue != [] {
        c.handed := c.handed + [c.queue[0]];
        c.queue := c.queue[1..];
      }
      assert Seats() == old(Seats());
    }

    /** What a caller may send: a new connection registers, and only connections of this Hub, registered,
        removed or still new, are mentioned. */
    ghost predicate Accepts(cmd: Command)
      reads this, Named(cmd)
    {
      match cmd
      case Register(c) => c !in known && c.IsNew()
      case Broadcast(_, _) => true
      case UserBroadcast(_, _) => true
      case _ => cmd.c in known || cmd.c.IsNew()
    }

    /** The `select` of the `Run` loop. */
    method Dispatch(cmd: Command)
      returns (ghost said: seq<RoomId>, ghost saidUsers: seq<UserId>, ghost gone: seq<Client>)
      requires Coherent() && Accepts(cmd)
      modifies `clients, `rooms, `users, `roomsDropped, `usersDropped, `departures, `known, known, Named(cmd)
      ensures Coherent() && known == if cmd.Register? then old(known) + {cmd.c} else old(known)
      ensures forall d | d in old(known) :: ViewOf(d) == Step(old(ViewOf(d)), cmd, d)
      ensures cmd.Register? ==> ViewOf(cmd.c) == NEW_VIEW.(phase := Registered)
      ensures forall d | d in Named(cmd) && d !in known :: d.IsNew()
      ensures roomsDropped == old(roomsDropped) + said && Lost(old(rooms), rooms, said) && NoRepeats(said)
      ensures usersDropped == old(usersDropped) + saidUsers && Lost(old(users), users, saidUsers)
              && NoRepeats(saidUsers)
      ensures Dropped(old(clients), clients, gone) && departures == old(departures) + Farewells(gone)
    {
      said, saidUsers, gone := [], [], [];
      match cmd {
        case Register(c) => AddClient(c);
        case Unregister(c) => said, saidUsers, gone := RemoveClient(c);
        case Join(c, room) => AddToRoom(c, room);
        case Leave(c, room) => said := RemoveFromRoom(c, room);
        case Broadcast(room, p) => said, saidUsers, gone := Deliver(room, p);
        case UserBroadcast(user, p) => said, saidUsers, gone := DeliverToUser(user, p);
        case Drain(c) => TakeNext(c);
      }
    }

    /** One turn of the `Run` loop. Every connection makes its own automaton's step, the indexes stay
        coherent, the broker is told of exactly the rooms and users that lost their last connection, and
        presence of exactly the connections dropped. */
    method Handle(cmd: Command)
      returns (ghost said: seq<RoomId>, ghost saidUsers: seq<UserId>, ghost gone: seq<Client>)
      requires Valid() && Accepts(cmd)
      modifies this, known, Named(cmd)
      ensures Valid() && trace == old(trace) + [cmd]
      ensures known == if cmd.Register? then old(known) + {cmd.c} else old(known)
      ensures forall d | d in Named(cmd) && d !in known :: d.IsNew()
      ensures roomsDropped == old(roomsDropped) + said && Lost(old(rooms), rooms, said) && NoRepeats(said)
      ensures usersDropped == old(usersDropped) + saidUsers && Lost(old(users), users, saidUsers)
              && NoRepeats(saidUsers)
      ensures Dropped(old(clients), clients, gone) && departures == old(departures) + Farewells(gone)
    {
      said, saidUsers, gone := Dispatch(cmd);
      ViewsMove(cmd);
      ReportsMove(cmd, gone);
      Note(cmd, gone);
    }

    /** The log is brought up to date. */
    ghost method Note(cmd: Command, gone: seq<Client>)
      requires Coherent() && (forall c | c in known :: ViewOf(c) == Life(trace + [cmd], c))
      requires forall i | 0 <= i < |trace| && trace[i].Register? :: trace[i].c in known
      requires cmd.Register? ==> cmd.c in known
      requires |reported + gone| == |departures| && NoRepeats(reported + gone)
      requires (forall c | c in reported + gone :: c in known && c !in clients)
      requires (forall c | c in known && c !in clients :: c in reported + gone)
      requires forall i | 0 <= i < |reported + gone| ::
                 departures[i] == ((reported + gone)[i].user, LastRooms(trace + [cmd], (reported + gone)[i]))
      modifies `trace, `reported
      ensures Valid() && trace == old(trace) + [cmd] && reported == old(reported) + gone
    {
      trace, reported := trace + [cmd], reported + gone;
    }

    /** The command has been carried out, on every connection's own terms; the log has yet to say so. */
    twostate predicate Moved(cmd: Command)
      reads this, known
    {
      && old(Valid()) && Coherent() && trace == old(trace) && reported == old(reported)
      && known == (if cmd.Register? then old(known) + {cmd.c} else old(known))
      && (cmd.Register? ==> cmd.c !in old(known) && ViewOf(cmd.c) == NEW_VIEW.(phase := Registered))
      && forall d | d in old(known) :: ViewOf(d) == Step(old(ViewOf(d)), cmd, d)
    }

    twostate lemma ViewsMove(cmd: Command)
      requires Moved(cmd)
      ensures forall c | c in known :: ViewOf(c) == Life(trace + [cmd], c)
    {
      forall c | c in known ensures ViewOf(c) == Life(trace + [cmd], c) {
        LifeAppend(trace, cmd, c);
        if c !in old(known) {
          LifeBeforeRegister(trace, c);
        }
      }
    }

    twostate lemma ReportsMove(cmd: Command, new gone: seq<Client>)
      requires Moved(cmd)
      requires Dropped(old(clients), clients, gone) && departures == old(departures) + Farewells(gone)
      ensures |reported + gone| == |departures| && NoRepeats(reported + gone)
      ensures forall c | c in reported + gone :: c in known && c !in clients
      ensures forall c | c in known && c !in clients :: c in reported + gone
      ensures forall i | 0 <= i < |reported + gone| ::
                departures[i] == ((reported + gone)[i].user, LastRooms(trace + [cmd], (reported + gone)[i]))
    {
      forall i | 0 <= i < |gone|
        ensures Life(trace, gone[i]).phase == Registered && gone[i].rooms == Life(trace, gone[i]).rooms
      {
        assert gone[i] in gone && old(ViewOf(gone[i])) == Life(trace, gone[i]);
        LeavesWithRooms(old(ViewOf(gone[i])), cmd, gone[i]);
      }
      forall i | 0 <= i < |reported| ensures Life(trace, reported[i]).phase == Gone {
        assert reported[i] in reported && old(ViewOf(reported[i])).phase == Gone;
      }
      ReportMore(trace, cmd, reported, old(departures), gone, Farewells(gone));
      NoRepeatsMore(reported, gone);
      ReportedMembers(old(known), known, old(clients), clients, reported, gone);
    }
  }

  /** Whoever is gone now was gone before or is gone with this command. */
  lemma ReportedMembers(known: set<Client>, known': set<Client>, clients: set<Client>, clients': set<Client>,
                        reported: seq<Client>, gone: seq<Client>)
    requires known <= known' && known' - known <= clients' && clients <= known && clients' - known' == {}
    requires forall c | c in clients' && c in known :: c in clients
    requires Dropped(clients, clients', gone)
    requires (forall c | c in reported :: c in known && c !in clients)
    requires (forall c | c in known && c !in clients :: c in reported)
    ensures forall c | c in reported + gone :: c in known' && c !in clients'
    ensures forall c | c in known' && c !in clients' :: c in reported + gone
  {
    forall c | c in known' && c !in clients' ensures c in reported + gone {
      assert c in reported || c in gone;
    }
  }

  /** Leaving the Hub takes a connection out of none of its own rooms. */
  lemma LeavesWithRooms(v: View, cmd: Command, c: Client)
    requires v.phase == Registered && Step(v, cmd, c).phase == Gone
    ensures Step(v, cmd, c).rooms == v.rooms
  {}

  lemma ReportMore(trace: seq<Command>, cmd: Command, reported: seq<Client>, told: seq<(UserId, set<RoomId>)>,
                   gone: seq<Client>, farewells: seq<(UserId, set<RoomId>)>)
    requires |reported| == |told| && |gone| == |farewells|
    requires forall i | 0 <= i < |reported| ::
               Life(trace, reported[i]).phase == Gone && told[i] == (reported[i].user, LastRooms(trace, reported[i]))
    requires forall i | 0 <= i < |gone| ::
               Life(trace, gone[i]).phase == Registered && farewells[i] == (gone[i].user, Life(trace, gone[i]).rooms)
    ensures forall i | 0 <= i < |reported + gone| ::
              (told + farewells)[i] == ((reported + gone)[i].user, LastRooms(trace + [cmd], (reported + gone)[i]))
  {
    forall i | 0 <= i < |reported + gone|
      ensures (told + farewells)[i] == ((reported + gone)[i].user, LastRooms(trace + [cmd], (reported + gone)[i]))
    {
      LastRoomsAppend(trace, cmd, (reported + gone)[i]);
    }
  }

  lemma LastRoomsAppend(trace: seq<Command>, cmd: Command, c: Client)
    ensures LastRooms(trace + [cmd], c) ==
            if Life(trace, c).phase == Registered then Life(trace, c).rooms else LastRooms(trace, c)
  {
    assert (trace + [cmd])[..|trace|] == trace;
  }

  lemma NoRepeatsMore<K>(s: seq<K>, t: seq<K>)
    requires NoRepeats(s) && NoRepeats(t) && forall k | k in s :: k !in t
    ensures NoRepeats(s + t)
  {
    forall i, j | 0 <= i < j < |s + t| ensures (s + t)[i] != (s + t)[j] {
      if i < |s| <= j {
        assert s[i] in s && t[j - |s|] in t;
      }
    }
  }

  lemma LifeAppend(trace: seq<Command>, cmd: Command, c: Client)
    ensures Life(trace + [cmd], c) == Step(Life(trace, c), cmd, c)
  {
    assert (trace + [cmd])[..|trace|] == trace;
  }

  /** Until it registers, nothing happens to a connection. */
  lemma {:induction false} LifeBeforeRegister(trace: seq<Command>, c: Client)
    requires forall i | 0 <= i < |trace| && trace[i].Register? :: trace[i].c != c
    ensures Life(trace, c) == NEW_VIEW
  {
    if trace != [] {
      LifeBeforeRegister(trace[..|trace| - 1], c);
    }
  }

  // ---- what a life guarantees ----

  /** The payloads addressed to `c` while it was registered, in the order they were processed. */
  ghost function Owed(trace: seq<Command>, c: Client): seq<Payload> {
    if trace == [] then []
    else
      var front, last := trace[..|trace| - 1], trace[|trace| - 1];
      Owed(front, c) + if Addressed(Life(front, c), last, c) then [last.payload] else []
  }

  /** Was `c` dropped because a payload found its queue full? */
  ghost predicate Overflowed(trace: seq<Command>, c: Client) {
    exists i | 0 <= i < |trace| :: Addressed(Life(trace[..i], c), trace[i], c)
        && |Life(trace[..i], c).queue| == SEND_BUFFER
  }

  lemma OverflowedAppend(trace: seq<Command>, cmd: Command, c: Client)
    ensures Overflowed(trace + [cmd], c) <==>
            Overflowed(trace, c) || (Addressed(Life(trace, c), cmd, c) && |Life(trace, c).queue| == SEND_BUFFER)
  {
    var all := trace + [cmd];
    assert forall i | 0 <= i <= |trace| :: all[..i] == trace[..i];
    assert trace[..|trace|] == trace && all[|trace|] == cmd;
    if Overflowed(all, c) {
      var i :| 0 <= i < |all| && Addressed(Life(all[..i], c), all[i], c) && |Life(all[..i], c).queue| == SEND_BUFFER;
      if i < |trace| {
        assert Addressed(Life(trace[..i], c), trace[i], c);
      }
    }
    if Overflowed(trace, c) {
      var i :| 0 <= i < |trace| && Addressed(Life(trace[..i], c), trace[i], c)
          && |Life(trace[..i], c).queue| == SEND_BUFFER;
      assert Addressed(Life(all[..i], c), all[i], c);
    }
  }

  /** Delivery log: what a connection was handed plus what sits in its queue is exactly what it was
      owed, each payload once and in order; only the payload that overflowed a full queue is missing,
      and that ends the connection. */
  lemma {:induction false} DeliveryLog(trace: seq<Command>, c: Client)
    ensures var v, owed := Life(trace, c), Owed(trace, c);
            && |v.queue| <= SEND_BUFFER
            && (Overflowed(trace, c) ==> v.phase == Gone && owed != [] && v.handed + v.queue == owed[..|owed| - 1])
            && (!Overflowed(trace, c) ==> v.handed + v.queue == owed)
  {
    if trace != [] {
      var front, cmd := trace[..|trace| - 1], trace[|trace| - 1];
      assert trace == front + [cmd];
      DeliveryLog(front, c);
      OverflowedAppend(front, cmd, c);
      DeliveryStep(Life(front, c), cmd, c);
    }
  }

  lemma DeliveryStep(v: View, cmd: Command, c: Client)
    ensures var v' := Step(v, cmd, c);
            && v'.handed + v'.queue == (v.handed + v.queue) +
                 (if Addressed(v, cmd, c) && |v.queue| < SEND_BUFFER then [cmd.payload] else [])
            && (Addressed(v, cmd, c) && |v.queue| >= SEND_BUFFER ==> v'.phase == Gone)
            && (v.phase == Gone ==> v'.phase == Gone && !Addressed(v, cmd, c))
            && (|v.queue| <= SEND_BUFFER ==> |v'.queue| <= SEND_BUFFER)
  {
    var v' := Step(v, cmd, c);
    if cmd.Drain? && cmd.c == c && v.queue != [] {
      assert v.queue == [v.queue[0]] + v.queue[1..];
    }
  }

  /** A removed connection stays removed and is never sent anything again. */
  lemma {:induction false} GoneForever(trace: seq<Command>, more: seq<Command>, c: Client)
    requires Life(trace, c).phase == Gone
    ensures Life(trace + more, c).phase == Gone
    ensures Owed(trace + more, c) == Owed(trace, c)
  {
    if more == [] {
      assert trace + more == trace;
    } else {
      var front, cmd := more[..|more| - 1], more[|more| - 1];
      GoneForever(trace, front, c);
      assert (trace + more)[..|trace + more| - 1] == trace + front;
      DeliveryStep(Life(trace + front, c), cmd, c);
    }
  }

  /** Its read loop ended, or a send found its queue full: nothing else ends a registered connection. */
  ghost predicate Ended(trace: seq<Command>, c: Client) {
    Overflowed(trace, c)
    || exists i | 0 <= i < |trace| :: trace[i] == Unregister(c) && Life(trace[..i], c).phase == Registered
  }

  lemma EndedAppend(trace: seq<Command>, cmd: Command, c: Client)
    ensures Ended(trace + [cmd], c) <==>
            || Ended(trace, c) || (cmd == Unregister(c) && Life(trace, c).phase == Registered)
            || (Addressed(Life(trace, c), cmd, c) && |Life(trace, c).queue| == SEND_BUFFER)
  {
    var all := trace + [cmd];
    OverflowedAppend(trace, cmd, c);
    assert forall i | 0 <= i <= |trace| :: all[..i] == trace[..i];
    assert trace[..|trace|] == trace && all[|trace|] == cmd;
    if i :| 0 <= i < |all| && all[i] == Unregister(c) && Life(all[..i], c).phase == Registered {
      assert i < |trace| ==> trace[i] == Unregister(c) && Life(trace[..i], c).phase == Registered;
    }
    if i :| 0 <= i < |trace| && trace[i] == Unregister(c) && Life(trace[..i], c).phase == Registered {
      assert all[i] == Unregister(c) && Life(all[..i], c).phase == Registered;
    }
  }

  lemma PhaseStep(v: View, cmd: Command, c: Client)
    ensures Step(v, cmd, c).phase == Gone <==>
            || v.phase == Gone || (cmd == Unregister(c) && v.phase == Registered)
            || (Addressed(v, cmd, c) && |v.queue| >= SEND_BUFFER)
    ensures Step(v, cmd, c).phase != Unknown <==> v.phase != Unknown || cmd == Command.Register(c)
  {}

  /** A connection is gone exactly when it has been unregistered or its queue overflowed, and it was ever known
      exactly when it registered. */
  lemma {:induction false} GoneExactlyWhen(trace: seq<Command>, c: Client)
    ensures Life(trace, c).phase == Gone <==> Ended(trace, c)
    ensures Life(trace, c).phase != Unknown <==> Command.Register(c) in trace
  {
    if trace != [] {
      var front, cmd := trace[..|trace| - 1], trace[|trace| - 1];
      assert trace == front + [cmd];
      GoneExactlyWhen(front, c);
      EndedAppend(front, cmd, c);
      DeliveryLog(front, c);
      PhaseStep(Life(front, c), cmd, c);
      LifeAppend(front, cmd, c);
    }
  }

  /** `k` turns of the write pump. */
  function Pumped(c: Client, k: nat): seq<Command> {
    if k == 0 then [] else Pumped(c, k - 1) + [Drain(c)]
  }

  /** The write pump hands over everything queued, in order, also after the connection is gone. */
  lemma {:induction false} PumpHandsOver(trace: seq<Command>, c: Client, k: nat)
    requires k <= |Life(trace, c).queue|
    ensures var v, v' := Life(trace, c), Life(trace + Pumped(c, k), c);
            v'.queue == v.queue[k..] && v'.handed == v.handed + v.queue[..k] && v'.phase == v.phase
  {
    if k == 0 {
      assert trace + [] == trace;
    } else {
      PumpHandsOver(trace, c, k - 1);
      assert trace + Pumped(c, k) == (trace + Pumped(c, k - 1)) + [Drain(c)];
      LifeAppend(trace + Pumped(c, k - 1), Drain(c), c);
      OneMoreTaken(Life(trace, c).queue, Life(trace, c).handed, k);
    }
  }

  lemma OneMoreTaken(queue: seq<Payload>, handed: seq<Payload>, k: nat)
    requires 0 < k <= |queue|
    ensures queue[k - 1..] != [] && queue[k - 1..][1..] == queue[k..]
    ensures (handed + queue[..k - 1]) + [queue[k - 1..][0]] == handed + queue[..k]
  {
    assert queue[..k] == queue[..k - 1] + [queue[k - 1]];
  }

  /** "In the room at the time": some join was processed while registered and no leave has followed. */
  ghost predicate JoinedSince(trace: seq<Command>, c: Client, room: RoomId, i: nat)
    requires i < |trace|
  {
    && trace[i] == Join(c, room)
    && Life(trace[..i], c).phase == Registered
    && forall j | i < j < |trace| :: trace[j] != Leave(c, room)
  }

  lemma {:induction false} RoomsAreJoins(trace: seq<Command>, c: Client, room: RoomId)
    ensures room in Life(trace, c).rooms <==> exists i | 0 <= i < |trace| :: JoinedSince(trace, c, room, i)
  {
    if trace != [] {
      var n := |trace| - 1;
      var front := trace[..n];
      RoomsAreJoins(front, c, room);
      assert forall i | 0 <= i < n :: front[..i] == trace[..i];
      if i :| 0 <= i < n && JoinedSince(front, c, room, i) {
        assert trace[n] != Leave(c, room) ==> JoinedSince(trace, c, room, i);
      }
      if i :| 0 <= i < |trace| && JoinedSince(trace, c, room, i) {
        assert i < n ==> JoinedSince(front, c, room, i);
      }
      assert trace[n] == Join(c, room) && Life(front, c).phase == Registered ==> JoinedSince(trace, c, room, n);
    }
  }

  /** Who is meant by a command: for a room, the connections that are registered and have joined it since they last
      left; for a user, all of that user's registered connections; by anything else, nobody. */
  lemma WhoIsAddressed(trace: seq<Command>, cmd: Command, c: Client)
    ensures Addressed(Life(trace, c), cmd, c) <==>
            && Command.Register(c) in trace && !Ended(trace, c)
            && match cmd
               case Broadcast(room, _) => exists i | 0 <= i < |trace| :: JoinedSince(trace, c, room, i)
               case UserBroadcast(user, _) => user == c.user
               case _ => false
  {
    GoneExactlyWhen(trace, c);
    if cmd.Broadcast? {
      RoomsAreJoins(trace, c, cmd.room);
    }
  }

  /** Presence has been told of a connection once if it ended, and not at all while it is registered. */
  lemma ReportedExactlyWhen(h: Hub, c: Client)
    requires h.Valid() && c in h.known
    ensures Ended(h.trace, c) <==> c in h.reported
    ensures forall i, j | 0 <= i < j < |h.reported| :: h.reported[i] != h.reported[j]
    ensures |h.reported| == |h.departures| && forall d | d in h.reported :: d in h.known
    ensures forall i | 0 <= i < |h.reported| && h.reported[i] == c :: h.departures[i] == (c.user, LastRooms(h.trace, c))
  {
    GoneExactlyWhen(h.trace, c);
    assert h.ViewOf(c) == Life(h.trace, c);
  }

  /** The Hub's own objects obey the delivery log, and its indexes list a connection exactly under the
      rooms it is in and under its user while it is registered. */
  lemma HubDelivers(h: Hub, c: Client)
    requires h.Valid() && c in h.known
    ensures c in h.clients ==> c.handed + c.queue == Owed(h.trace, c) && !c.closed
    ensures c !in h.clients ==> c.closed && (c.handed + c.queue == Owed(h.trace, c) || Overflowed(h.trace, c))
    ensures forall r :: r in h.rooms && c in h.rooms[r] <==>
                        c in h.clients && exists i | 0 <= i < |h.trace| :: JoinedSince(h.trace, c, r, i)
    ensures forall u :: u in h.users && c in h.users[u] <==> c in h.clients && u == c.user
  {
    DeliveryLog(h.trace, c);
    assert h.ViewOf(c) == Life(h.trace, c);
    forall r ensures r in h.rooms && c in h.rooms[r] <==>
                     c in h.clients && exists i | 0 <= i < |h.trace| :: JoinedSince(h.trace, c, r, i)
    {
      RoomsAreJoins(h.trace, c, r);
      InverseAt(h.rooms, h.Seats(), c, r);
    }
    forall u ensures u in h.users && c in h.users[u] <==> c in h.clients && u == c.user {
      InverseAt(h.users, h.Owners(), c, u);
    }
  }
}
