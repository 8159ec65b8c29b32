/** One server over a whole run: its connections, its Hub and both halves of its broker, driven by any
    sequence of events. Subscription safety is here a statement about the Hub's own indexes. */
module ServerRun {
  import opened ChatTypes
  import opened HubModel
  import opened HubBroker
  import opened HubUsers
  import opened Desks
  import B = BrokerModel
  import U = UserChannels

  /** Connections are named by the order in which they opened. */
  datatype Event =
    | Open(user: UserId)
    | Register(i: nat)
    | Close(i: nat)
    | LeaveRoom(i: nat, room: RoomId)
    | RoomPayload(room: RoomId, payload: Payload)
    | UserPayload(user: UserId, payload: Payload)
    | Pump(i: nat)
    | Arrive(t: B.Ticket)
    | AtRooms(re: RoomEvent)
    | AtUsers(ue: UserEvent)

  /** The Hub's command for an event about a connection it has taken on. */
  function CommandFor(e: Event, conns: map<U.ConnId, Client>): Option<Command> {
    match e
    case Close(i) => if i in conns then Some(Unregister(conns[i])) else None
    case LeaveRoom(i, room) => if i in conns then Some(Leave(conns[i], room)) else None
    case RoomPayload(room, p) => Some(Broadcast(room, p))
    case UserPayload(user, p) => Some(UserBroadcast(user, p))
    case Pump(i) => if i in conns then Some(Drain(conns[i])) else None
    case _ => None
  }

  lemma CommandKnown(e: Event, conns: map<U.ConnId, Client>, known: set<Client>)
    requires CommandFor(e, conns).Some? && forall i | i in conns :: conns[i] in known
    ensures var cmd := CommandFor(e, conns).value;
            !cmd.Register? && !cmd.Join? && Named(cmd) <= known
  {}

  // ---- what a turn of the Hub does ----

  lemma HubUserIndex(h: Hub)
    requires h.Coherent()
    ensures UserIndex(h.users, h.clients)
  {
    forall u ensures u in h.users <==> exists c | c in h.clients :: c.user == u {
      if u in h.users {
        var c :| c in h.users[u];
        InverseAt(h.users, h.Owners(), c, u);
      }
      if c :| c in h.clients && c.user == u {
        InverseAt(h.users, h.Owners(), c, u);
      }
    }
  }

  /** A registration adds one client; any other command only drops some, and a join none. */
  twostate lemma ClientsTurn(h: Hub)
    requires Handled(h)
    ensures Latest(h).Register? ==> h.clients == old(h.clients) + {Latest(h).c}
    ensures !Latest(h).Register? ==> h.clients <= old(h.clients)
    ensures Latest(h).Join? ==> h.clients == old(h.clients)
  {
    forall d | d in h.known
      ensures d in h.clients ==> d in old(h.clients) || (Latest(h).Register? && d == Latest(h).c)
      ensures d in old(h.clients) && (Latest(h).Register? || Latest(h).Join?) ==> d in h.clients
      ensures Latest(h).Register? && d == Latest(h).c ==> d in h.clients
    {
      assert h.ViewOf(d) == Life(h.trace, d);
      LifeAppend(old(h.trace), Latest(h), d);
      if d in old(h.known) {
        assert old(h.ViewOf(d)) == Life(old(h.trace), d);
      } else {
        LifeBeforeRegister(old(h.trace), d);
      }
    }
  }

  /** One turn of the Hub as its surroundings see it: what it lost and said, and that nobody was seated. */
  method HubTurn(h: Hub, cmd: Command, ghost names: Names) returns (said: seq<RoomId>, saidUsers: seq<UserId>)
    requires h.Valid() && h.Accepts(cmd) && !cmd.Join? && !cmd.Register? && Named(cmd) <= h.known
    requires forall c | c in h.known :: c in names
    modifies h, h.known
    ensures h.Valid() && h.known == old(h.known) && h.clients <= old(h.clients) && h.trace == old(h.trace) + [cmd]
    ensures Covered(old(h.rooms), names) && Covered(h.rooms, names)
    ensures Shrinks(Seated(old(h.rooms), names), Seated(h.rooms, names))
    ensures Lost(old(h.rooms), h.rooms, said) && NoRepeats(said)
    ensures Lost(old(h.users), h.users, saidUsers) && NoRepeats(saidUsers)
    ensures UserIndex(old(h.users), old(h.clients)) && UserIndex(h.users, h.clients)
  {
    HubUserIndex(h);
    CoveredByKnown(h, names);
    var fromRooms, fromUsers := |h.roomsDropped|, |h.usersDropped|;
    ghost var lost, lostUsers, gone := h.Handle(cmd);
    said, saidUsers := h.roomsDropped[fromRooms..], h.usersDropped[fromUsers..];
    assert said == lost && saidUsers == lostUsers;
    assert Latest(h) == cmd;
    TurnSeatsNobody(h);
    ClientsTurn(h);
    CoveredByKnown(h, names);
    SeatedShrinks(old(h.rooms), h.rooms, names);
    HubUserIndex(h);
  }

  twostate lemma RegisterKeepsRooms(h: Hub)
    requires Handled(h) && Latest(h).Register?
    ensures h.rooms == old(h.rooms)
  {
    TurnSeatsNobody(h);
    forall r, c: Client | r in old(h.rooms) && c in old(h.rooms)[r] ensures r in h.rooms && c in h.rooms[r] {
      InverseAt(old(h.rooms), old(h.Seats()), c, r);
      LifeAppend(old(h.trace), Latest(h), c);
      assert old(h.ViewOf(c)) == Life(old(h.trace), c) && h.ViewOf(c) == Life(h.trace, c);
      InverseAt(h.rooms, h.Seats(), c, r);
    }
    SameIndex(old(h.rooms), h.rooms);
  }

  lemma SameIndex(before: map<RoomId, set<Client>>, after: map<RoomId, set<Client>>)
    requires forall r, c | r in before && c in before[r] :: r in after && c in after[r]
    requires forall r, c | r in after && c in after[r] :: r in before && c in before[r]
    requires (forall r | r in before :: before[r] != {}) && forall r | r in after :: after[r] != {}
    ensures before == after
  {
    forall r | r in before ensures r in after && after[r] == before[r] {
      var c :| c in before[r];
      assert r in after;
    }
    forall r | r in after ensures r in before {
      var c :| c in after[r];
    }
  }

  /** A new name for a connection seated nowhere changes nothing. */
  lemma SameNames(rooms: map<RoomId, set<Client>>, names: Names, c: Client, i: nat)
    requires Covered(rooms, names) && c !in names
    ensures Covered(rooms, names[c := i]) && Seated(rooms, names[c := i]) == Seated(rooms, names)
  {
    var names' := names[c := i];
    forall r | r in rooms ensures Seated(rooms, names')[r] == Seated(rooms, names)[r] {
      assert forall d | d in rooms[r] :: names'[d] == names[d];
    }
  }

  /** A registration seats nobody in a room and adds one client. */
  method HubRegister(h: Hub, c: Client, ghost names: Names, ghost i: nat)
    requires h.Valid() && c !in h.known && c.IsNew()
    requires (forall d | d in h.known :: d in names) && c !in names
    modifies h, h.known, c
    ensures h.Valid() && h.known == old(h.known) + {c} && h.clients == old(h.clients) + {c}
    ensures h.trace == old(h.trace) + [Command.Register(c)]
    ensures Covered(old(h.rooms), names) && Covered(h.rooms, names[c := i])
    ensures Seated(h.rooms, names[c := i]) == Seated(old(h.rooms), names)
  {
    CoveredByKnown(h, names);
    ghost var said, saidUsers, gone := h.Handle(Command.Register(c));
    assert Latest(h) == Command.Register(c);
    RegisterKeepsRooms(h);
    ClientsTurn(h);
    SameNames(h.rooms, names, c, i);
  }

  method HubJoin(h: Hub, c: Client, room: RoomId, ghost names: Names)
    requires h.Valid() && c in h.clients
    requires forall d | d in h.known :: d in names
    modifies h, h.known
    ensures h.Valid() && h.known == old(h.known) && h.clients == old(h.clients)
    ensures h.trace == old(h.trace) + [Join(c, room)]
    ensures Covered(old(h.rooms), names) && Covered(h.rooms, names)
    ensures Seated(h.rooms, names) ==
            var seats := Seated(old(h.rooms), names);
            seats[room := (if room in seats then seats[room] else {}) + {names[c]}]
  {
    CoveredByKnown(h, names);
    ghost var said, saidUsers, gone := h.Handle(Join(c, room));
    CoveredByKnown(h, names);
    assert Latest(h) == Join(c, room);
    JoinSeatsOne(h);
    ClientsTurn(h);
    SeatedJoin(old(h.rooms), h.rooms, c, room, true, names);
  }

  // ---- the server ----

  /** Connections are tied to the protocol's, and one that has gone was once taken on. */
  ghost predicate Linked(tracked: map<U.ConnId, U.Conn>, conns: map<U.ConnId, Client>, clients: set<Client>,
                         count: nat) {
    && Tied(tracked, conns, clients)
    && (forall i | i in conns :: i < count)
    && (forall i | i in conns && i in tracked :: tracked[i].seated)
    && (forall i | 0 <= i < count && i !in tracked :: i in conns)
  }

  lemma LinkGone(before: map<U.ConnId, U.Conn>, after: map<U.ConnId, U.Conn>, conns: map<U.ConnId, Client>,
                 clients: set<Client>, clients': set<Client>, count: nat)
    requires Linked(before, conns, clients, count) && OnlySeatedGone(before, after) && Tied(after, conns, clients')
    ensures Linked(after, conns, clients', count)
  {}

  lemma LinkConnect(tracked: map<U.ConnId, U.Conn>, conns: map<U.ConnId, Client>, clients: set<Client>, count: nat,
                    user: UserId)
    requires Linked(tracked, conns, clients, count) && count !in tracked
    ensures Linked(tracked[count := U.Conn(user, false, U.NotYet)], conns, clients, count + 1)
  {
    var after := tracked[count := U.Conn(user, false, U.NotYet)];
    forall c | c in clients ensures exists i | i in after :: i in conns && conns[i] == c {
      var i :| i in tracked && i in conns && conns[i] == c;
      assert i in after;
    }
  }

  lemma LinkSame(before: map<U.ConnId, U.Conn>, after: map<U.ConnId, U.Conn>, conns: map<U.ConnId, Client>,
                 clients: set<Client>, count: nat)
    requires Linked(before, conns, clients, count) && SameSeats(before, after)
    ensures Linked(after, conns, clients, count)
  {
    forall c | c in clients ensures exists i | i in after :: i in conns && conns[i] == c {
      var i :| i in before && i in conns && conns[i] == c;
      assert i in after;
    }
    forall i | i in after ensures after[i].seated == before[i].seated && after[i].user == before[i].user {
      assert after[i].(ask := U.NotYet) == before[i].(ask := U.NotYet);
    }
  }

  lemma LinkSeat(tracked: map<U.ConnId, U.Conn>, conns: map<U.ConnId, Client>, clients: set<Client>, count: nat,
                 i: nat, c: Client)
    requires Linked(tracked, conns, clients, count) && i in tracked && !tracked[i].seated && i < count
    requires c.user == tracked[i].user && c !in clients && forall j | j in conns :: conns[j] != c
    ensures Linked(tracked[i := tracked[i].(seated := true)], conns[i := c], clients + {c}, count)
  {
    var after, conns' := tracked[i := tracked[i].(seated := true)], conns[i := c];
    forall d | d in clients + {c} ensures exists j | j in after :: j in conns' && conns'[j] == d {
      if d == c {
        assert i in after && conns'[i] == c;
      } else {
        var j :| j in tracked && j in conns && conns[j] == d;
        assert j != i && j in after && conns'[j] == d;
      }
    }
  }

  /** Opened, but not yet taken on by the Hub. */
  predicate Pending(tracked: map<U.ConnId, U.Conn>, i: nat) {
    i in tracked && !tracked[i].seated
  }

  class Server {
    const hub: Hub
    const rooms: RoomDesk
    const users: UserDesk
    /** The connections the Hub has taken on. */
    var conns: map<U.ConnId, Client>
    ghost var names: Names

    /** The Hub's room index and the join protocol agree. */
    ghost predicate RoomsLinked()
      reads this, hub, rooms
    {
      Covered(hub.rooms, names) && rooms.local == Seated(hub.rooms, names)
    }

    ghost predicate Wired()
      reads this, hub, hub.known
    {
      && (forall h: Hub {:trigger h.Valid()} | h in {hub} :: h.Valid())
      && (forall c | c in hub.known :: c in names)
      && (forall i | i in conns :: conns[i] in hub.known && conns[i] in names && names[conns[i]] == i)
    }

    /** Its clients and the user-channel protocol agree too. */
    ghost predicate UsersLinked()
      reads this, hub, users
    {
      Linked(users.conns, conns, hub.clients, |users.owners|)
    }

    ghost predicate Valid()
      reads this, hub, hub.known, rooms, rooms.broker, users, users.broker
    {
      && rooms.broker != users.broker && rooms.Valid() && users.Valid()
      && Wired() && RoomsLinked() && UsersLinked()
    }

    // -- what a step does not touch stays as it was --

    twostate lemma HubKept()
      requires unchanged(this) && unchanged(hub) && unchanged(hub.known) && old(Wired())
      ensures Wired()
    {}

    twostate lemma RoomsKept()
      requires unchanged(rooms) && unchanged(rooms.broker) && old(rooms.Valid())
      ensures rooms.Valid()
    {}

    twostate lemma UsersKept()
      requires unchanged(users) && unchanged(users.broker) && old(users.Valid())
      ensures users.Valid()
    {}

    twostate lemma RoomsLinkKept()
      requires unchanged(this) && unchanged(hub) && rooms.local == old(rooms.local) && old(RoomsLinked())
      ensures RoomsLinked()
    {}

    twostate lemma UsersLinkKept()
      requires unchanged(this) && unchanged(hub) && unchanged(users) && old(UsersLinked())
      ensures UsersLinked()
    {}

    constructor ()
      ensures Valid() && fresh(hub) && fresh(rooms) && fresh(rooms.broker) && fresh(users) && fresh(users.broker)
      ensures hub.known == {} && conns == map[] && users.owners == [] && rooms.quiet && users.quiet
    {
      hub := new Hub();
      rooms := new RoomDesk();
      users := new UserDesk();
      conns, names := map[], map[];
    }

    /** The Hub's turn and the rooms it lost; `said` are the users it lost. */
    method TurnRooms(cmd: Command) returns (said: seq<UserId>)
      requires Wired() && RoomsLinked() && rooms.Valid()
      requires hub.Accepts(cmd) && !cmd.Join? && !cmd.Register? && Named(cmd) <= hub.known
      modifies hub, hub.known, rooms`local, rooms`quiet, rooms.broker`subReqs
      ensures Wired() && RoomsLinked() && rooms.Valid() && (rooms.quiet ==> old(rooms.quiet))
      ensures hub.known == old(hub.known) && hub.clients <= old(hub.clients) && hub.trace == old(hub.trace) + [cmd]
      ensures Lost(old(hub.users), hub.users, said) && NoRepeats(said)
      ensures UserIndex(old(hub.users), old(hub.clients)) && UserIndex(hub.users, hub.clients)
    {
      var lost;
      lost, said := HubTurn(hub, cmd, names);
      rooms.Departed(lost, Seated(hub.rooms, names));
    }

    /** Any command of the Hub's loop but a registration or a join. */
    method Command(cmd: Command)
      requires Valid() && hub.Accepts(cmd) && !cmd.Join? && !cmd.Register? && Named(cmd) <= hub.known
      modifies hub, hub.known, rooms`local, rooms`quiet, rooms.broker`subReqs, users`conns, users`quiet,
          users.broker`subReqs
      ensures Valid() && hub.known == old(hub.known) && hub.clients <= old(hub.clients)
      ensures hub.trace == old(hub.trace) + [cmd]
      ensures (rooms.quiet ==> old(rooms.quiet)) && (users.quiet ==> old(users.quiet))
    {
      ghost var clients, index, tracked := hub.clients, hub.users, users.conns;
      var said := TurnRooms(cmd);
      UsersKept();
      label Turned:
      users.Follow(conns, clients, hub.clients, index, hub.users, said);
      LinkGone(tracked, users.conns, conns, clients, hub.clients, |users.owners|);
      HubKept@Turned();
      RoomsKept@Turned();
      RoomsLinkKept@Turned();
    }

    /** What the Hub's loop is handed for an event: about a connection it has taken on, the command the event
        stands for; a granted join, if the connection is still listed. */
    ghost function Hears(e: Event): seq<Command>
      reads this, hub, rooms
    {
      match e
      case Close(i) => if i in conns then [Unregister(conns[i])] else []
      case LeaveRoom(i, room) => if i in conns then [Leave(conns[i], room)] else []
      case RoomPayload(room, p) => [Broadcast(room, p)]
      case UserPayload(user, p) => [UserBroadcast(user, p)]
      case Pump(i) => if i in conns then [Drain(conns[i])] else []
      case Arrive(t) => JoinFor(t)
      case _ => []
    }

    /** Nobody is forgotten, nobody comes back, and a closed connection is out. */
    twostate predicate Carried(e: Event)
      reads this, hub, users
    {
      && (forall i | i in old(conns) :: i in conns && conns[i] == old(conns)[i])
      && (forall c | c in hub.clients && c in old(hub.known) :: c in old(hub.clients))
      && (e.Close? && e.i in conns ==> conns[e.i] !in hub.clients)
      && users.owners == old(users.owners) + (if e.Open? then [e.user] else [])
    }

    /** A registration the Hub takes on, for the user who opened the connection. */
    twostate predicate TookOn(e: Event)
      reads this, hub
    {
      if e.Register? && Pending(old(users.conns), e.i)
      then e.i in conns && conns.Keys == old(conns.Keys) + {e.i} && conns[e.i].user == old(users.conns[e.i].user)
           && conns[e.i] in hub.clients && hub.trace == old(hub.trace) + [HubModel.Register(conns[e.i])]
      else conns == old(conns) && hub.trace == old(hub.trace) + old(Hears(e))
    }

    /** What the event does at the broker's two halves, beyond the unsubscribes a turn of the Hub asks for. */
    twostate predicate Asked(e: Event)
      reads rooms, rooms.broker, users, users.broker
    {
      && (e.AtRooms? ==> rooms.Net() == B.Tried(old(rooms.Net()), old(rooms.StepOf(e.re))))
      && (e.Open? ==> users.Net() == U.Tried(old(users.Net()), U.Connect(|old(users.owners)|, e.user)))
      && (e.AtUsers? ==> users.Net() == old(users.After(e.ue)))
      && (e.Arrive? && old(Answered(e.t)) ==> e.t !in rooms.joins)
    }

    /** The event has had its effect. */
    twostate predicate Done(e: Event)
      reads this, hub, rooms, rooms.broker, users, users.broker
    {
      Carried(e) && TookOn(e) && Asked(e)
    }

    method Open(user: UserId)
      requires Valid()
      modifies users`conns, users`owners
      ensures Valid() && users.owners == old(users.owners) + [user]
      ensures Done(Event.Open(user))
    {
      LinkConnect(users.conns, conns, hub.clients, |users.owners|, user);
      users.Connect(user);
      HubKept();
      RoomsKept();
      RoomsLinkKept();
    }

    /** The Hub takes a registration. */
    method TakeOn(i: nat, c: Client)
      requires Wired() && RoomsLinked() && c !in hub.known && c !in names && c.IsNew()
      modifies this`conns, this`names, hub, hub.known, c
      ensures Wired() && RoomsLinked()
      ensures conns == old(conns)[i := c] && hub.known == old(hub.known) + {c} && hub.clients == old(hub.clients) + {c}
      ensures hub.trace == old(hub.trace) + [HubModel.Register(c)]
    {
      HubRegister(hub, c, names, i);
      names := names[c := i];
      conns := conns[i := c];
    }

    /** The registration may have been waiting in the Hub's backlog. */
    method RegisterPending(i: nat) returns (c: Client)
      requires Valid() && Pending(users.conns, i)
      modifies this`conns, this`names, hub, hub.known, users`conns
      ensures Valid() && fresh(c) && hub.known == old(hub.known) + {c} && c.user == old(users.conns[i].user)
      ensures conns == old(conns)[i := c] && hub.clients == old(hub.clients) + {c}
      ensures hub.trace == old(hub.trace) + [HubModel.Register(c)]
    {
      c := new Client(users.conns[i].user);
      ghost var tracked, listed := users.conns, hub.clients;
      LinkSeat(tracked, conns, listed, |users.owners|, i, c);
      TakeOn(i, c);
      UsersKept();
      label Taken:
      users.Seated(i);
      assert users.conns == tracked[i := tracked[i].(seated := true)] && hub.clients == listed + {c};
      HubKept@Taken();
      RoomsKept();
      RoomsLinkKept@Taken();
    }

    method Register(i: nat)
      requires Valid()
      modifies this`conns, this`names, hub, hub.known, users`conns
      ensures Valid() && fresh(hub.known - old(hub.known))
      ensures !Pending(old(users.conns), i) ==>
                conns == old(conns) && hub.trace == old(hub.trace) && hub.clients == old(hub.clients)
      ensures Pending(old(users.conns), i) ==>
                && i in conns && fresh(conns[i]) && conns[i].user == old(users.conns[i].user)
                && conns == old(conns)[i := conns[i]] && hub.clients == old(hub.clients) + {conns[i]}
                && hub.trace == old(hub.trace) + [HubModel.Register(conns[i])]
    {
      if i in users.conns && !users.conns[i].seated {
        var c := RegisterPending(i);
      }
    }

    /** The Hub takes a join. */
    method JoinHub(i: U.ConnId, room: RoomId)
      requires Wired() && RoomsLinked() && i in conns && conns[i] in hub.clients
      modifies hub, hub.known
      ensures Wired() && hub.known == old(hub.known) && hub.clients == old(hub.clients) && Covered(hub.rooms, names)
      ensures hub.trace == old(hub.trace) + [Join(conns[i], room)]
      ensures Seated(hub.rooms, names) ==
              rooms.local[room := (if room in rooms.local then rooms.local[room] else {}) + {i}]
    {
      HubJoin(hub, conns[i], room, names);
    }

    /** A granted join reaches the Hub. */
    method ArriveListed(t: B.Ticket)
      requires Valid() && t in rooms.joins && rooms.joins[t].acked
      requires rooms.joins[t].client in conns && conns[rooms.joins[t].client] in hub.clients
      modifies hub, hub.known, rooms`joins, rooms`local
      ensures Valid() && hub.known == old(hub.known) && hub.clients == old(hub.clients)
      ensures rooms.joins == old(rooms.joins) - {t}
      ensures hub.trace == old(hub.trace) + [Join(conns[old(rooms.joins[t].client)], old(rooms.joins[t].room))]
    {
      JoinHub(rooms.joins[t].client, rooms.joins[t].room);
      RoomsKept();
      label Joined:
      rooms.Arrived(t, true);
      HubKept@Joined();
      UsersKept();
    }

    /** It is ignored for a connection the Hub does not list. */
    method ArriveUnlisted(t: B.Ticket)
      requires Valid() && t in rooms.joins && rooms.joins[t].acked
      modifies rooms`joins, rooms`local
      ensures Valid() && rooms.joins == old(rooms.joins) - {t}
    {
      rooms.Arrived(t, false);
      HubKept();
      UsersKept();
      UsersLinkKept();
      RoomsLinkKept();
    }

    predicate Answered(t: B.Ticket)
      reads rooms
    {
      t in rooms.joins && rooms.joins[t].acked
    }

    /** The Hub seats the connection whose join was granted, if it still lists it. */
    ghost function JoinFor(t: B.Ticket): seq<Command>
      reads this, hub, rooms
    {
      if Answered(t) && rooms.joins[t].client in conns && conns[rooms.joins[t].client] in hub.clients
      then [Join(conns[rooms.joins[t].client], rooms.joins[t].room)] else []
    }

    method Arrive(t: B.Ticket)
      requires Valid()
      modifies hub, hub.known, rooms`joins, rooms`local
      ensures Valid() && hub.known == old(hub.known) && hub.clients == old(hub.clients)
      ensures hub.trace == old(hub.trace) + old(JoinFor(t))
      ensures Done(Event.Arrive(t))
    {
      if t in rooms.joins && rooms.joins[t].acked {
        if rooms.joins[t].client in conns && conns[rooms.joins[t].client] in hub.clients {
          ArriveListed(t);
        } else {
          ArriveUnlisted(t);
        }
      }
    }

    method RoomStep(re: RoomEvent)
      requires Valid()
      modifies rooms`joins, rooms`tickets, rooms.broker
      ensures Valid() && Done(AtRooms(re))
    {
      rooms.Step(re);
      HubKept();
      UsersKept();
      RoomsLinkKept();
      UsersLinkKept();
    }

    method UserStep(ue: UserEvent)
      requires Valid()
      modifies users`conns, users`asked, users.broker
      ensures Valid() && Done(AtUsers(ue))
    {
      ghost var tracked := users.conns;
      users.Step(ue);
      LinkSame(tracked, users.conns, conns, hub.clients, |users.owners|);
      HubKept();
      RoomsKept();
      RoomsLinkKept();
    }

    /** A connection that was unregistered is not listed. */
    lemma Unlisted(e: Event)
      requires Wired() && e.Close? && e.i in conns && hub.trace != []
      requires hub.trace[|hub.trace| - 1] == Unregister(conns[e.i])
      ensures conns[e.i] !in hub.clients
    {
      var c := conns[e.i];
      assert hub.Valid();
      assert hub.ViewOf(c) == Life(hub.trace, c);
    }

    /** An event for the Hub's loop. */
    method HubStep(e: Event)
      requires Valid() && (e.Close? || e.LeaveRoom? || e.RoomPayload? || e.UserPayload? || e.Pump?)
      modifies hub, hub.known, rooms`local, rooms`quiet, rooms.broker`subReqs, users`conns, users`quiet,
          users.broker`subReqs
      ensures Valid() && hub.known == old(hub.known)
      ensures (rooms.quiet ==> old(rooms.quiet)) && (users.quiet ==> old(users.quiet))
      ensures Done(e)
    {
      var cmd := CommandFor(e, conns);
      if cmd.Some? {
        CommandKnown(e, conns, hub.known);
        Command(cmd.value);
        if e.Close? {
          Unlisted(e);
        }
      }
    }

    /** A registration, if one is pending. */
    method RegisterStep(i: nat)
      requires Valid()
      modifies this`conns, this`names, hub, hub.known, users`conns
      ensures Valid() && fresh(hub.known - old(hub.known))
      ensures Done(Event.Register(i))
    {
      Register(i);
    }

    /** What happens next, if it can. */
    method Step(e: Event)
      requires Valid()
      modifies this, hub, hub.known, rooms, rooms.broker, users, users.broker
      ensures Valid() && fresh(hub.known - old(hub.known))
      ensures (rooms.quiet ==> old(rooms.quiet)) && (users.quiet ==> old(users.quiet))
      ensures Done(e)
    {
      match e {
        case Open(user) => Open(user);
        case Register(i) => RegisterStep(i);
        case Arrive(t) => Arrive(t);
        case AtRooms(re) => RoomStep(re);
        case AtUsers(ue) => UserStep(ue);
        case _ => HubStep(e);
      }
    }
  }

  // ---- safety of the run ----

  /** A granted, registered connection receives on its user's channel. */
  ghost predicate ChannelsHeld(s: Server)
    reads s, s.hub, s.users, s.users.broker
  {
    forall i | i in s.conns && s.conns[i] in s.hub.clients && i in s.users.conns && s.users.conns[i].ask == U.Granted ::
      s.conns[i].user in s.users.broker.subscribed && B.Unsub(s.conns[i].user) !in s.users.broker.subReqs
  }

  /** Who opened the connections, in order. */
  function Openers(events: seq<Event>): seq<UserId> {
    if events == [] then []
    else
      var front, last := Openers(events[..|events| - 1]), events[|events| - 1];
      if last.Open? then front + [last.user] else front
  }

  /** The `m`-th event registers connection `i`, opened before. */
  predicate TakenOn(events: seq<Event>, i: nat, m: nat) {
    m < |events| && events[m] == Event.Register(i) && i < |Openers(events[..m])|
  }

  /** Connection `i` was registered among the first `n` events. */
  predicate TakenOnBy(events: seq<Event>, i: nat, n: nat) {
    exists m | 0 <= m < n :: TakenOn(events, i, m)
  }

  /** And closed after that. */
  predicate ClosedBy(events: seq<Event>, i: nat, n: nat)
    requires n <= |events|
  {
    exists k | 0 <= k < n :: events[k] == Close(i) && TakenOnBy(events, i, k)
  }

  /** After the first `n` events: the Hub knows the connections that were registered, as their openers', and lists
      none that was closed since. */
  ghost predicate Follows(events: seq<Event>, n: nat, conns: map<U.ConnId, Client>, clients: set<Client>)
    requires n <= |events|
  {
    && (forall i: nat :: i in conns <==> TakenOnBy(events, i, n))
    && (forall i | i in conns :: i < |Openers(events[..n])| && conns[i].user == Openers(events[..n])[i])
    && (forall i: nat | i in conns && ClosedBy(events, i, n) :: conns[i] !in clients)
  }

  lemma OpenersMore(events: seq<Event>, n: nat)
    requires n < |events|
    ensures Openers(events[..n + 1]) == Openers(events[..n]) + if events[n].Open? then [events[n].user] else []
  {
    assert events[..n + 1][..n] == events[..n];
  }

  lemma TakenOnMore(events: seq<Event>, i: nat, n: nat)
    requires n < |events|
    ensures TakenOnBy(events, i, n + 1) <==>
            TakenOnBy(events, i, n) || (events[n] == Event.Register(i) && i < |Openers(events[..n])|)
    ensures ClosedBy(events, i, n + 1) <==>
            ClosedBy(events, i, n) || (events[n] == Close(i) && TakenOnBy(events, i, n))
  {
    if TakenOn(events, i, n) {
      assert TakenOnBy(events, i, n + 1);
    }
  }

  lemma FollowsMore(events: seq<Event>, n: nat, conns: map<U.ConnId, Client>, clients: set<Client>,
                    conns': map<U.ConnId, Client>, clients': set<Client>, pending: bool)
    requires n < |events| && Follows(events, n, conns, clients)
    requires forall i | i in conns :: i in conns' && conns'[i] == conns[i]
    requires forall i | i in conns && conns[i] !in clients :: conns[i] !in clients'
    requires events[n].Close? && events[n].i in conns' ==> conns'[events[n].i] !in clients'
    requires events[n].Register? ==> (pending <==> events[n].i < |Openers(events[..n])| && events[n].i !in conns)
    requires if events[n].Register? && pending
             then conns'.Keys == conns.Keys + {events[n].i}
                  && conns'[events[n].i].user == Openers(events[..n])[events[n].i]
             else conns' == conns
    ensures Follows(events, n + 1, conns', clients')
  {
    OpenersMore(events, n);
    forall i: nat
      ensures i in conns' <==> TakenOnBy(events, i, n + 1)
      ensures i in conns' && ClosedBy(events, i, n + 1) ==> conns'[i] !in clients'
    {
      TakenOnMore(events, i, n);
      if ClosedBy(events, i, n) {
        ClosedAfter(events, i, n);
      }
    }
  }

  lemma ClosedAfter(events: seq<Event>, i: nat, n: nat)
    requires n <= |events| && ClosedBy(events, i, n)
    ensures TakenOnBy(events, i, n)
  {
    var k :| 0 <= k < n && events[k] == Close(i) && TakenOnBy(events, i, k);
    var m :| 0 <= m < k && TakenOn(events, i, m);
  }

  lemma PendingIs(s: Server, i: nat)
    requires s.Valid()
    ensures Pending(s.users.conns, i) <==> i < |s.users.owners| && i !in s.conns
    ensures Pending(s.users.conns, i) ==> s.users.conns[i].user == s.users.owners[i]
  {}

  /** Whatever happens and in whatever order. Every registered connection is known under the user who opened it, and
      is not listed once it was closed. If no room was emptied while a join of it was in flight, every
      room in the Hub's index is subscribed with no unsubscribe pending; and if no user's last connection
      left while another of theirs had asked without being registered, every granted connection the Hub
      lists has its channel. */
  method Run(events: seq<Event>) returns (s: Server)
    ensures fresh(s) && s.Valid()
    ensures Follows(events, |events|, s.conns, s.hub.clients)
    ensures s.rooms.quiet ==> Receives(s.hub, s.rooms.broker)
    ensures s.users.quiet ==> ChannelsHeld(s)
  {
    s := new Server();
    for n := 0 to |events|
      invariant fresh(s) && fresh(s.hub) && fresh(s.hub.known) && s.Valid()
      invariant fresh(s.rooms) && fresh(s.rooms.broker) && fresh(s.users) && fresh(s.users.broker)
      invariant s.users.owners == Openers(events[..n]) && Follows(events, n, s.conns, s.hub.clients)
    {
      Advance(s, events[n], events, n);
    }
    assert events[..|events|] == events;
    RunSafe(s);
  }

  method Advance(s: Server, e: Event, ghost events: seq<Event>, ghost n: nat)
    requires s.Valid() && n < |events| && events[n] == e
    requires s.users.owners == Openers(events[..n]) && Follows(events, n, s.conns, s.hub.clients)
    modifies s, s.hub, s.hub.known, s.rooms, s.rooms.broker, s.users, s.users.broker
    ensures s.Valid() && fresh(s.hub.known - old(s.hub.known))
    ensures s.users.owners == Openers(events[..n + 1]) && Follows(events, n + 1, s.conns, s.hub.clients)
  {
    ghost var conns, clients, tracked := s.conns, s.hub.clients, s.users.conns;
    if e.Register? {
      PendingIs(s, e.i);
    }
    s.Step(e);
    OpenersMore(events, n);
    FollowsMore(events, n, conns, clients, s.conns, s.hub.clients, e.Register? && Pending(tracked, e.i));
  }

  lemma RunSafe(s: Server)
    requires s.Valid()
    ensures s.rooms.quiet ==> Receives(s.hub, s.rooms.broker)
    ensures s.users.quiet ==> ChannelsHeld(s)
  {
    if s.rooms.quiet {
      B.ReachedSafe(s.rooms.Net());
      assert forall r | r in s.hub.rooms :: r in Seated(s.hub.rooms, s.names);
    }
    if s.users.quiet {
      U.ReachedSafe(s.users.Net());
    }
  }
}
