/** The Hub and the broker together: each turn of the Hub's loop, with the unsubscribes it requests
    (internal/websocket/hub.go:152-179, 295-308), is a sequence of steps of the join protocol. So the
    protocol's safety is a statement about the Hub's own room index. */
module HubBroker {
  import opened ChatTypes
  import opened HubModel
  import B = BrokerModel

  /** Connections are named by numbers in the protocol. */
  type Names = map<Client, B.ClientId>

  ghost predicate Covered(rooms: map<RoomId, set<Client>>, names: Names) {
    forall r, c | r in rooms && c in rooms[r] :: c in names
  }

  ghost function Seated(rooms: map<RoomId, set<Client>>, names: Names): map<RoomId, set<B.ClientId>>
    requires Covered(rooms, names)
  {
    map r | r in rooms :: set c | c in rooms[r] :: names[c]
  }

  ghost function NetOf(h: Hub, b: B.Broker, names: Names, joins: map<B.Ticket, B.Pending>): B.Net
    reads h, b
    requires Covered(h.rooms, names)
  {
    B.Net(b.subReqs, b.subscribed, Seated(h.rooms, names), joins)
  }

  // ---- one turn as departures ----

  function PushAll(queue: seq<B.SubRequest>, said: seq<RoomId>): seq<B.SubRequest> {
    if said == [] then queue else B.PushUnsub(PushAll(queue, said[..|said| - 1]), said[|said| - 1])
  }

  /** Some rooms lose their entry, others some clients. */
  ghost predicate Shrinks(before: map<RoomId, set<B.ClientId>>, after: map<RoomId, set<B.ClientId>>) {
    && after.Keys <= before.Keys
    && (forall r | r in before :: before[r] != {})
    && (forall r | r in after :: after[r] <= before[r] && after[r] != {})
  }

  /** A run of departures from one room, down to the clients in `keep`. */
  lemma {:induction false} Vacate(n: B.Net, room: RoomId, keep: set<B.ClientId>) returns (steps: seq<B.Step>)
    requires room in n.local && keep <= n.local[room] && n.local[room] != {}
    ensures B.Path(n, steps)
    ensures B.End(n, steps) ==
            if keep == {} then n.(local := n.local - {room}, queue := B.PushUnsub(n.queue, room))
            else n.(local := n.local[room := keep])
    ensures keep != {} || !B.InFlight(n, room) ==> B.QuietPath(n, steps)
    decreases |n.local[room]|
  {
    if n.local[room] == keep {
      steps := [];
      assert n.local[room := keep] == n.local;
    } else {
      var extra := n.local[room] - keep;
      assert n.local[room] == extra + keep;
      assert extra != {};
      var c :| c in extra;
      var step := B.Depart(c, room);
      var n' := B.Next(n, step);
      if B.Empties(n, c, room) {
        steps := [step];
        assert steps[1..] == [];
      } else {
        assert n.local[room] != {c} && n.local[room] == n'.local[room] + {c};
        var rest := Vacate(n', room, keep);
        steps := [step] + rest;
        assert steps[1..] == rest;
        assert n'.local - {room} == n.local - {room};
        assert n'.local[room := keep] == n.local[room := keep];
      }
    }
  }

  lemma WithoutAll(local: map<RoomId, set<B.ClientId>>, front: seq<RoomId>, last: RoomId)
    ensures local - (set r | r in front) - {last} == local - (set r | r in front + [last])
  {
    assert (set r | r in front + [last]) == (set r | r in front) + {last};
  }

  /** Whole rooms vacated, in the order they were announced. */
  lemma {:induction false} VacateAll(n: B.Net, said: seq<RoomId>) returns (steps: seq<B.Step>)
    requires NoRepeats(said) && forall r | r in said :: r in n.local && n.local[r] != {}
    ensures B.Path(n, steps)
    ensures B.End(n, steps) == n.(local := n.local - (set r | r in said), queue := PushAll(n.queue, said))
    ensures (forall r | r in said :: !B.InFlight(n, r)) ==> B.QuietPath(n, steps)
  {
    if said == [] {
      steps := [];
      assert n.local - (set r | r in said) == n.local;
    } else {
      var front, last := said[..|said| - 1], said[|said| - 1];
      assert said == front + [last];
      var first := VacateAll(n, front);
      var mid := B.End(n, first);
      assert last !in front;
      assert mid.local[last] == n.local[last];
      var more := Vacate(mid, last, {});
      B.PathConcat(n, first, more);
      steps := first + more;
      WithoutAll(n.local, front, last);
    }
  }

  /** Rooms that keep some clients, one after the other. */
  lemma {:induction false} ThinOut(n: B.Net, after: map<RoomId, set<B.ClientId>>, left: set<RoomId>)
    returns (steps: seq<B.Step>)
    requires n.local.Keys == after.Keys && left <= after.Keys
    requires forall r | r in after :: n.local[r] != {} && after[r] != {} && after[r] <= n.local[r]
    requires forall r | r in after && r !in left :: n.local[r] == after[r]
    ensures B.QuietPath(n, steps)
    ensures B.End(n, steps) == n.(local := after)
    decreases |left|
  {
    if left == {} {
      steps := [];
      assert n.local == after;
    } else {
      var r :| r in left;
      var first := Vacate(n, r, after[r]);
      var mid := B.End(n, first);
      var more := ThinOut(mid, after, left - {r});
      B.PathConcat(n, first, more);
      steps := first + more;
    }
  }

  /** Any shrinking of the index, with the lost rooms announced, is a sequence of departures; quiet if no
      lost room has a join in flight. */
  lemma TurnIsDepartures(n: B.Net, after: map<RoomId, set<B.ClientId>>, said: seq<RoomId>) returns (steps: seq<B.Step>)
    requires Shrinks(n.local, after) && NoRepeats(said)
    requires forall r :: r in said <==> r in n.local && r !in after
    ensures B.Path(n, steps)
    ensures B.End(n, steps) == n.(local := after, queue := PushAll(n.queue, said))
    ensures (forall r | r in said :: !B.InFlight(n, r)) ==> B.QuietPath(n, steps)
  {
    var first := VacateAll(n, said);
    var mid := B.End(n, first);
    assert mid.local.Keys == after.Keys;
    var more := ThinOut(mid, after, after.Keys);
    B.PathConcat(n, first, more);
    steps := first + more;
  }

  /** The steps lead from one state to the other, quietly unless a room of `said` has a join in flight. */
  ghost predicate Leads(n: B.Net, steps: seq<B.Step>, said: seq<RoomId>, n': B.Net) {
    && B.Path(n, steps) && B.End(n, steps) == n'
    && ((forall r | r in said :: !B.InFlight(n, r)) ==> B.QuietPath(n, steps))
  }

  // ---- the Hub's turns ----

  lemma StepNeverSeats(v: View, cmd: Command, c: Client)
    requires !cmd.Join? && v.phase != Unknown
    ensures Step(v, cmd, c).rooms <= v.rooms
    ensures Step(v, cmd, c).phase == Registered ==> v.phase == Registered
  {}

  /** What the Hub's loop did last. */
  ghost function Latest(h: Hub): Command
    reads h
    requires h.trace != []
  {
    h.trace[|h.trace| - 1]
  }

  twostate predicate Handled(h: Hub)
    reads h, h.known
  {
    && old(h.Valid()) && h.Valid() && h.trace != [] && h.trace == old(h.trace) + [Latest(h)]
    && h.known == (if Latest(h).Register? then old(h.known) + {Latest(h).c} else old(h.known))
    && (Latest(h).Register? ==> Latest(h).c !in old(h.known))
  }

  /** No command but a join puts a connection into a room. */
  twostate lemma TurnSeatsNobody(h: Hub)
    requires Handled(h) && !Latest(h).Join?
    ensures forall r, c | r in h.rooms && c in h.rooms[r] :: r in old(h.rooms) && c in old(h.rooms)[r]
  {
    var cmd := Latest(h);
    forall r, c | r in h.rooms && c in h.rooms[r] ensures r in old(h.rooms) && c in old(h.rooms)[r] {
      InverseAt(h.rooms, h.Seats(), c, r);
      assert h.ViewOf(c) == Life(h.trace, c);
      LifeAppend(old(h.trace), cmd, c);
      if c !in old(h.known) {
        LifeBeforeRegister(old(h.trace), c);
      } else {
        assert old(h.ViewOf(c)) == Life(old(h.trace), c);
        StepNeverSeats(old(h.ViewOf(c)), cmd, c);
        InverseAt(old(h.rooms), old(h.Seats()), c, r);
      }
    }
  }

  lemma CoveredByKnown(h: Hub, names: Names)
    requires h.Valid() && forall c | c in h.known :: c in names
    ensures Covered(h.rooms, names)
  {
    forall r, c | r in h.rooms && c in h.rooms[r] ensures c in names {
      InverseAt(h.rooms, h.Seats(), c, r);
    }
  }

  lemma SeatedShrinks(before: map<RoomId, set<Client>>, after: map<RoomId, set<Client>>, names: Names)
    requires Covered(before, names) && Covered(after, names)
    requires forall r, c | r in after && c in after[r] :: r in before && c in before[r]
    requires (forall r | r in before :: before[r] != {}) && forall r | r in after :: after[r] != {}
    ensures Shrinks(Seated(before, names), Seated(after, names))
  {
    forall r | r in after ensures r in before && Seated(after, names)[r] != {} {
      var c :| c in after[r];
      assert names[c] in Seated(after, names)[r];
    }
    forall r | r in before ensures Seated(before, names)[r] != {} {
      var c :| c in before[r];
      assert names[c] in Seated(before, names)[r];
    }
  }

  lemma IndexTurn(n: B.Net, before: map<RoomId, set<Client>>, after: map<RoomId, set<Client>>, names: Names,
                  said: seq<RoomId>)
    returns (steps: seq<B.Step>)
    requires Covered(before, names) && Covered(after, names) && n.local == Seated(before, names)
    requires forall r, c | r in after && c in after[r] :: r in before && c in before[r]
    requires (forall r | r in before :: before[r] != {}) && forall r | r in after :: after[r] != {}
    requires Lost(before, after, said) && NoRepeats(said)
    ensures Leads(n, steps, said, n.(local := Seated(after, names), queue := PushAll(n.queue, said)))
  {
    SeatedShrinks(before, after, names);
    steps := TurnIsDepartures(n, Seated(after, names), said);
  }

  /** The unsubscribes the Hub hands to the broker, in order. */
  method Forward(b: B.Broker, said: seq<RoomId>)
    modifies b`subReqs
    ensures b.subReqs == PushAll(old(b.subReqs), said)
  {
    for i := 0 to |said|
      invariant b.subReqs == PushAll(old(b.subReqs), said[..i])
    {
      assert said[..i + 1][..i] == said[..i];
      b.Unsubscribe(said[i]);
    }
    assert said[..|said|] == said;
  }

  method ForwardBoth(b: B.Broker, ub: B.Broker, said: seq<RoomId>, saidUsers: seq<UserId>)
    requires b != ub
    modifies b`subReqs, ub`subReqs
    ensures b.subReqs == PushAll(old(b.subReqs), said) && ub.subReqs == PushAll(old(ub.subReqs), saidUsers)
  {
    Forward(b, said);
    Forward(ub, saidUsers);
  }

  /** The Hub's half of a turn: the rooms it lost, as departures of the protocol from `net`. */
  method TurnHub(h: Hub, cmd: Command, ghost names: Names, ghost net: B.Net)
    returns (ghost steps: seq<B.Step>, said: seq<RoomId>, saidUsers: seq<UserId>)
    requires h.Valid() && h.Accepts(cmd) && !cmd.Join?
    requires (forall c | c in h.known :: c in names) && (cmd.Register? ==> cmd.c in names)
    requires Covered(h.rooms, names) ==> net.local == Seated(h.rooms, names)
    modifies h, h.known, Named(cmd)
    ensures Handled(h) && h.trace == old(h.trace) + [cmd]
    ensures forall d | d in Named(cmd) && d !in h.known :: d.IsNew()
    ensures Covered(old(h.rooms), names) && Covered(h.rooms, names)
    ensures Leads(net, steps, said, net.(local := Seated(h.rooms, names), queue := PushAll(net.queue, said)))
    ensures Lost(old(h.rooms), h.rooms, said)
    ensures Lost(old(h.users), h.users, saidUsers) && NoRepeats(saidUsers)
  {
    CoveredByKnown(h, names);
    var from, fromUsers := |h.roomsDropped|, |h.usersDropped|;
    ghost var lost, lostUsers, gone := h.Handle(cmd);
    CoveredByKnown(h, names);
    assert Latest(h) == cmd;
    TurnSeatsNobody(h);
    steps := IndexTurn(net, old(h.rooms), h.rooms, names, lost);
    said, saidUsers := h.roomsDropped[from..], h.usersDropped[fromUsers..];
    assert said == lost && saidUsers == lostUsers;
  }

  /** One turn of the Hub's loop and the unsubscribes it requests of the two halves of the broker. Any command
      but a join is, for the rooms, a sequence of departures of the protocol, and a quiet one unless a room
      lost its last connection under a join. */
  method Turn(h: Hub, b: B.Broker, ub: B.Broker, cmd: Command, ghost names: Names,
              ghost joins: map<B.Ticket, B.Pending>)
    returns (ghost steps: seq<B.Step>, said: seq<RoomId>, saidUsers: seq<UserId>)
    requires h.Valid() && h.Accepts(cmd) && !cmd.Join? && b != ub
    requires (forall c | c in h.known :: c in names) && (cmd.Register? ==> cmd.c in names)
    modifies h, h.known, Named(cmd), b`subReqs, ub`subReqs
    ensures Handled(h) && h.trace == old(h.trace) + [cmd]
    ensures forall d | d in Named(cmd) && d !in h.known :: d.IsNew()
    ensures Covered(old(h.rooms), names) && Covered(h.rooms, names)
    ensures Leads(B.Net(old(b.subReqs), b.subscribed, Seated(old(h.rooms), names), joins), steps, said,
                  NetOf(h, b, names, joins))
    ensures Lost(old(h.rooms), h.rooms, said)
    ensures Lost(old(h.users), h.users, saidUsers) && NoRepeats(saidUsers)
    ensures b.subReqs == PushAll(old(b.subReqs), said) && ub.subReqs == PushAll(old(ub.subReqs), saidUsers)
  {
    CoveredByKnown(h, names);
    ghost var net := NetOf(h, b, names, joins);
    steps, said, saidUsers := TurnHub(h, cmd, names, net);
    ForwardBoth(b, ub, said, saidUsers);
    assert NetOf(h, b, names, joins) == net.(local := Seated(h.rooms, names), queue := PushAll(net.queue, said));
  }

  // ---- joins ----

  /** The Hub's half of a join. */
  method JoinTurn(h: Hub, c: Client, room: RoomId, ghost names: Names)
    requires h.Valid() && h.Accepts(Join(c, room))
    requires (forall d | d in h.known :: d in names) && c in names
    modifies h, h.known, c
    ensures Handled(h) && h.trace == old(h.trace) + [Join(c, room)]
    ensures c !in h.known ==> c.IsNew()
    ensures Covered(old(h.rooms), names) && Covered(h.rooms, names)
    ensures SeatsOne(old(h.rooms), h.rooms, c, room, c in old(h.clients))
  {
    CoveredByKnown(h, names);
    ghost var said, saidUsers, gone := h.Handle(Join(c, room));
    CoveredByKnown(h, names);
    assert Latest(h) == Join(c, room);
    JoinSeatsOne(h);
  }

  /** A join is the protocol's seating step: the connection enters the room if it is still registered. */
  method TurnJoin(h: Hub, b: B.Broker, c: Client, room: RoomId, ghost names: Names,
                  ghost t: B.Ticket, ghost joins: map<B.Ticket, B.Pending>)
    requires h.Valid() && h.Accepts(Join(c, room))
    requires (forall d | d in h.known :: d in names) && c in names
    requires t in joins && joins[t] == B.Pending(names[c], room, true)
    modifies h, h.known, c
    ensures Handled(h) && h.trace == old(h.trace) + [Join(c, room)]
    ensures c !in h.known ==> c.IsNew()
    ensures Covered(old(h.rooms), names) && Covered(h.rooms, names)
    ensures var net := B.Net(b.subReqs, b.subscribed, Seated(old(h.rooms), names), joins);
            && NetOf(h, b, names, joins - {t}) == B.Next(net, B.Seat(t, c in old(h.clients)))
            && (B.Inv(net) ==> B.Inv(NetOf(h, b, names, joins - {t})) && Receives(h, b))
  {
    CoveredByKnown(h, names);
    ghost var net := NetOf(h, b, names, joins);
    JoinTurn(h, c, room, names);
    SeatedJoin(old(h.rooms), h.rooms, c, room, c in old(h.clients), names);
    if B.Inv(net) {
      B.SeatInv(net, t, c in old(h.clients));
      InvReceives(h, b, names, joins - {t});
    }
  }

  /** `after` is `before` with `c` in the room too, if it `joined`. */
  ghost predicate SeatsOne(before: map<RoomId, set<Client>>, after: map<RoomId, set<Client>>, c: Client,
                           room: RoomId, joined: bool) {
    && (forall r, d | r in after && d in after[r] :: (r in before && d in before[r]) || (r == room && d == c && joined))
    && (forall r, d | r in before && d in before[r] :: r in after && d in after[r])
    && (joined ==> room in after && c in after[room])
    && (forall r | r in before :: before[r] != {})
    && (forall r | r in after :: after[r] != {})
  }

  twostate lemma JoinSeatsOne(h: Hub)
    requires Handled(h) && Latest(h).Join?
    ensures SeatsOne(old(h.rooms), h.rooms, Latest(h).c, Latest(h).room, Latest(h).c in old(h.clients))
  {
    var c, room := Latest(h).c, Latest(h).room;
    forall r, d: Client
      ensures (r in h.rooms && d in h.rooms[r]
               ==> (r in old(h.rooms) && d in old(h.rooms)[r]) || (r == room && d == c && c in old(h.clients)))
                             && (r in old(h.rooms) && d in old(h.rooms)[r] ==> r in h.rooms && d in h.rooms[r])
    {
      InverseAt(h.rooms, h.Seats(), d, r);
      InverseAt(old(h.rooms), old(h.Seats()), d, r);
      LifeAppend(old(h.trace), Latest(h), d);
      if d in h.known {
        assert h.ViewOf(d) == Life(h.trace, d) && old(h.ViewOf(d)) == Life(old(h.trace), d);
      }
    }
    if c in old(h.clients) {
      InverseAt(h.rooms, h.Seats(), c, room);
      LifeAppend(old(h.trace), Latest(h), c);
      assert h.ViewOf(c) == Life(h.trace, c) && old(h.ViewOf(c)) == Life(old(h.trace), c);
    }
  }

  lemma SeatedJoin(before: map<RoomId, set<Client>>, after: map<RoomId, set<Client>>, c: Client, room: RoomId,
                   joined: bool, names: Names)
    requires Covered(before, names) && Covered(after, names) && c in names && SeatsOne(before, after, c, room, joined)
    ensures Seated(after, names) ==
            if !joined then Seated(before, names)
            else
              var seats := Seated(before, names);
              seats[room := (if room in before then seats[room] else {}) + {names[c]}]
  {
    var members := (if room in before then before[room] else {}) + {c};
    forall r ensures r in after <==> r in before || (r == room && joined) {
      if r in before {
        var d :| d in before[r];
        assert d in after[r];
      }
      if r in after {
        var d :| d in after[r];
      }
    }
    forall r | r in before && (r != room || !joined) ensures after[r] == before[r] {}
    if joined {
      assert forall d :: d in after[room] <==> d in members;
      assert after[room] == members;
      assert after.Keys == before.Keys + {room};
      assert after == before[room := members];
      var seats := if room in before then Seated(before, names)[room] else {};
      assert (set d | d in members :: names[d]) == seats + {names[c]};
    } else {
      assert after == before;
    }
  }

  // ---- safety of the Hub ----

  /** Every room with a local connection is subscribed, with no unsubscribe pending. */
  ghost predicate Receives(h: Hub, b: B.Broker)
    reads h, b
  {
    forall r | r in h.rooms :: r in b.subscribed && B.Unsub(r) !in b.subReqs
  }

  lemma InvReceives(h: Hub, b: B.Broker, names: Names, joins: map<B.Ticket, B.Pending>)
    requires Covered(h.rooms, names) && B.Inv(NetOf(h, b, names, joins))
    ensures Receives(h, b)
  {
    assert forall r | r in h.rooms :: r in Seated(h.rooms, names);
  }

  /** The Hub and its broker stay safe under every command, removals in the middle of a fan-out included, as
      long as no room loses its last connection while a join of it is in flight. */
  method SafeTurn(h: Hub, b: B.Broker, ub: B.Broker, cmd: Command, ghost names: Names,
                  ghost joins: map<B.Ticket, B.Pending>)
    returns (ghost said: seq<RoomId>)
    requires h.Valid() && h.Accepts(cmd) && !cmd.Join? && b != ub
    requires (forall c | c in h.known :: c in names) && (cmd.Register? ==> cmd.c in names)
    requires Covered(h.rooms, names) && B.Inv(NetOf(h, b, names, joins))
    modifies h, h.known, Named(cmd), b`subReqs, ub`subReqs
    ensures h.Valid() && Covered(h.rooms, names) && Lost(old(h.rooms), h.rooms, said)
    ensures (forall r | r in said :: forall t | t in joins :: joins[t].room != r) ==>
              B.Inv(NetOf(h, b, names, joins)) && Receives(h, b)
  {
    ghost var net := NetOf(h, b, names, joins);
    ghost var steps;
    var lost, lostUsers;
    steps, lost, lostUsers := Turn(h, b, ub, cmd, names, joins);
    said := lost;
    if forall r | r in said :: forall t | t in joins :: joins[t].room != r {
      B.QuietPathSafe(net, steps);
      InvReceives(h, b, names, joins);
    }
  }
}
