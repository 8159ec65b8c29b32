/** The broker's two halves together with what waits on them: the joins in flight (internal/websocket/
    handlers.go:77-83) and the connections' own channels (server.go:131-148). Each half keeps its protocol
    state reachable by quiet steps, whatever order requests, answers, time-outs and departures come in. */
module Desks {
  import opened ChatTypes
  import opened HubModel
  import opened HubBroker
  import opened HubUsers
  import B = BrokerModel
  import U = UserChannels

  ghost predicate TicketsBelow(queue: seq<B.SubRequest>, tickets: nat) {
    forall req | req in queue && req.Sub? :: req.ready < tickets
  }

  lemma {:induction false} PushedNoSub(queue: seq<B.SubRequest>, said: seq<B.Channel>)
    ensures forall req | req in PushAll(queue, said) && req.Sub? :: req in queue
  {
    if said != [] {
      PushedNoSub(queue, said[..|said| - 1]);
    }
  }

  /** What the handlers of joins and the broker's loop do. */
  datatype RoomEvent = Ask(i: B.ClientId, room: RoomId) | Apply(redisOk: bool) | GiveUp(t: B.Ticket)

  /** And those of new connections. */
  datatype UserEvent = AskOwn(i: U.ConnId) | ApplyOwn(redisOk: bool) | GiveUpOwn(i: U.ConnId)

  class RoomDesk {
    const broker: B.Broker
    var joins: map<B.Ticket, B.Pending>
    var tickets: nat
    /** Who the Hub has seated where. */
    ghost var local: map<RoomId, set<B.ClientId>>
    /** No room was emptied while a join of it was in flight. */
    ghost var quiet: bool

    ghost function Net(): B.Net
      reads this, broker
    {
      B.Net(broker.subReqs, broker.subscribed, local, joins)
    }

    ghost predicate Valid()
      reads this, broker
    {
      && (forall t | t in joins :: t < tickets)
      && TicketsBelow(broker.subReqs, tickets)
      && (quiet ==> B.Reached(Net()))
    }

    constructor ()
      ensures Valid() && fresh(broker) && local == map[] && joins == map[] && quiet
    {
      broker := new B.Broker();
      joins, tickets, local, quiet := map[], 0, map[], true;
      new;
      B.StartReached();
    }

    /** A handler asks for a room and waits; it blocks while the backlog is full. */
    method Ask(i: B.ClientId, room: RoomId)
      requires Valid()
      modifies this`joins, this`tickets, broker`subReqs
      ensures Valid() && Net() == B.Tried(old(Net()), B.Ask(old(tickets), i, room))
      ensures |old(broker.subReqs)| < B.SUB_REQUEST_BUFFER ==>
                joins == old(joins)[old(tickets) := B.Pending(i, room, false)]
    {
      if |broker.subReqs| < B.SUB_REQUEST_BUFFER {
        ghost var net, step := Net(), B.Ask(tickets, i, room);
        broker.Request(room, tickets);
        joins := joins[tickets := B.Pending(i, room, false)];
        tickets := tickets + 1;
        assert Net() == B.Next(net, step);
        if quiet {
          B.ReachedStep(net, step);
        }
      }
    }

    /** The broker applies its oldest request and answers the join that waits for it. */
    method Apply(redisOk: bool)
      requires Valid()
      modifies this`joins, broker
      ensures Valid() && Net() == B.Tried(old(Net()), B.Apply(redisOk))
    {
      if broker.subReqs != [] {
        ghost var net, step := Net(), B.Apply(redisOk);
        var answer := broker.ApplyNext(redisOk);
        if answer.Some? && answer.value.0 in joins {
          var (t, granted) := answer.value;
          joins := if granted then joins[t := joins[t].(acked := true)] else joins - {t};
        }
        assert Net() == B.Next(net, step);
        if quiet {
          B.ReachedStep(net, step);
        }
      }
    }

    method GiveUp(t: B.Ticket)
      requires Valid()
      modifies this`joins
      ensures Valid() && Net() == B.Tried(old(Net()), B.GiveUp(t)) && joins == old(joins) - {t}
    {
      if t in joins {
        ghost var net := Net();
        joins := joins - {t};
        if quiet {
          B.ReachedStep(net, B.GiveUp(t));
        }
      }
    }

    /** The protocol's step for an event. */
    ghost function StepOf(e: RoomEvent): B.Step
      reads this`tickets
    {
      match e
      case Ask(i, room) => B.Ask(tickets, i, room)
      case Apply(redisOk) => B.Apply(redisOk)
      case GiveUp(t) => B.GiveUp(t)
    }

    method Step(e: RoomEvent)
      requires Valid()
      modifies this`joins, this`tickets, broker
      ensures Valid() && Net() == B.Tried(old(Net()), old(StepOf(e)))
    {
      match e {
        case Ask(i, room) => Ask(i, room);
        case Apply(redisOk) => Apply(redisOk);
        case GiveUp(t) => GiveUp(t);
      }
    }

    /** A granted join has reached the Hub. */
    method Arrived(t: B.Ticket, connected: bool)
      requires Valid() && t in joins && joins[t].acked
      modifies this`joins, this`local
      ensures Valid() && Net() == B.Next(old(Net()), B.Seat(t, connected)) && joins == old(joins) - {t}
    {
      ghost var net, step := Net(), B.Seat(t, connected);
      local := B.Next(net, step).local;
      joins := joins - {t};
      if quiet {
        B.ReachedStep(net, step);
      }
    }

    /** The Hub's index has shrunk, and the lost rooms are unsubscribed in the order it said. */
    method Departed(said: seq<RoomId>, ghost after: map<RoomId, set<B.ClientId>>)
      requires Valid() && Shrinks(local, after) && NoRepeats(said)
      requires forall r :: r in said <==> r in local && r !in after
      modifies this`local, this`quiet, broker`subReqs
      ensures Valid() && Net() == old(Net()).(local := after, queue := PushAll(old(broker.subReqs), said))
      ensures quiet <==> old(quiet) && forall r | r in said :: !old(B.InFlight(Net(), r))
    {
      ghost var net := Net();
      ghost var steps := TurnIsDepartures(net, after, said);
      Forward(broker, said);
      PushedNoSub(net.queue, said);
      local := after;
      quiet := quiet && forall r | r in said :: !B.InFlight(net, r);
      assert Net() == net.(local := after, queue := PushAll(net.queue, said));
      if quiet {
        B.ReachedMore(net, steps);
      }
    }
  }

  // ---- the Hub's user index, and what a turn does to it ----

  ghost predicate UserIndex(users: map<UserId, set<Client>>, clients: set<Client>) {
    forall u :: u in users <==> exists c | c in clients :: c.user == u
  }

  /** The protocol's connections are those of the Hub, seated when the Hub lists them. */
  ghost predicate Tied(tracked: map<U.ConnId, U.Conn>, conns: map<U.ConnId, Client>, clients: set<Client>) {
    && (forall i | i in tracked :: tracked[i].seated <==> i in conns && conns[i] in clients)
    && (forall i | i in tracked && i in conns :: tracked[i].user == conns[i].user)
    && (forall c | c in clients :: exists i | i in tracked :: i in conns && conns[i] == c)
  }

  function DroppedIds(tracked: map<U.ConnId, U.Conn>, conns: map<U.ConnId, Client>,
                      clients: set<Client>): set<U.ConnId> {
    set i | i in tracked && tracked[i].seated && i in conns && conns[i] !in clients
  }

  /** The users a turn of the Hub announces are those the protocol has it announce. */
  lemma TurnAnnounces(n: U.Net, conns: map<U.ConnId, Client>, before: set<Client>, after: set<Client>,
                      users: map<UserId, set<Client>>, users': map<UserId, set<Client>>, said: seq<UserId>)
    requires Tied(n.conns, conns, before) && after <= before
    requires UserIndex(users, before) && UserIndex(users', after) && Lost(users, users', said) && NoRepeats(said)
    ensures AllSeated(n, DroppedIds(n.conns, conns, after)) && Announces(n, DroppedIds(n.conns, conns, after), said)
  {
    var gone := DroppedIds(n.conns, conns, after);
    forall u ensures u in users' <==> Stays(n, gone, u) {
      if u in users' {
        var c :| c in after && c.user == u;
        var i :| i in n.conns && i in conns && conns[i] == c;
        assert i !in gone;
      }
    }
    forall u | !Stays(n, gone, u) ensures u in users <==> SeatedOf(n, {u}) * gone != {} {
      if u in users {
        var c :| c in before && c.user == u;
        var i :| i in n.conns && i in conns && conns[i] == c;
        assert i in gone && i in SeatedOf(n, {u}) * gone;
      }
      if i :| i in SeatedOf(n, {u}) * gone {
        assert conns[i] in before && conns[i].user == u;
      }
    }
  }

  lemma TurnTied(tracked: map<U.ConnId, U.Conn>, conns: map<U.ConnId, Client>, before: set<Client>, after: set<Client>)
    requires Tied(tracked, conns, before) && after <= before
    ensures Tied(tracked - DroppedIds(tracked, conns, after), conns, after)
  {
    var rest := tracked - DroppedIds(tracked, conns, after);
    forall c | c in after ensures exists i | i in rest :: i in conns && conns[i] == c {
      var i :| i in tracked && i in conns && conns[i] == c;
      assert i in rest;
    }
  }

  lemma AnswerKeepsSeats(n: U.Net, req: B.SubRequest, redisOk: bool)
    ensures var conns := U.Answer(n, req, redisOk);
            && SameSeats(n.conns, conns)
            && forall i | i in conns && conns[i].ask == U.NotYet :: n.conns[i].ask == U.NotYet
    ensures forall i | i in n.conns :: U.Answer(n, req, redisOk)[i].user == n.conns[i].user
  {}

  class UserDesk {
    const broker: B.Broker
    /** The connections not yet gone, and the users of all there have ever been. */
    var conns: map<U.ConnId, U.Conn>
    var owners: seq<UserId>
    /** Those that have asked; each asks once. */
    var asked: set<U.ConnId>
    /** No user's last seated connection left while another of theirs had asked without being seated. */
    ghost var quiet: bool

    ghost function Net(): U.Net
      reads this, broker
    {
      U.Net(broker.subReqs, broker.subscribed, conns)
    }

    ghost predicate Valid()
      reads this, broker
    {
      && (forall i | i in conns :: i < |owners| && conns[i].user == owners[i]
              && (conns[i].ask == U.NotYet ==> i !in asked))
      && (forall i | i in asked :: i < |owners|)
      && (forall req | req in broker.subReqs && req.Sub? :: req.ready in asked)
      && (quiet ==> U.Reached(Net()))
    }

    constructor ()
      ensures Valid() && fresh(broker) && conns == map[] && owners == [] && quiet
    {
      broker := new B.Broker();
      conns, owners, asked, quiet := map[], [], {}, true;
      new;
      U.StartReached();
    }

    method Connect(user: UserId)
      requires Valid()
      modifies this`conns, this`owners
      ensures Valid() && owners == old(owners) + [user]
      ensures Net() == U.Tried(old(Net()), U.Connect(|old(owners)|, user))
      ensures conns == old(conns)[|old(owners)| := U.Conn(user, false, U.NotYet)]
    {
      ghost var net, step := Net(), U.Connect(|owners|, user);
      conns := conns[|owners| := U.Conn(user, false, U.NotYet)];
      owners := owners + [user];
      if quiet {
        U.ReachedStep(net, step);
      }
    }

    /** The Hub has taken the registration. */
    method Seated(i: U.ConnId)
      requires Valid() && i in conns && !conns[i].seated
      modifies this`conns
      ensures Valid() && Net() == U.Tried(old(Net()), U.Seat(i))
      ensures conns == old(conns)[i := old(conns)[i].(seated := true)]
    {
      ghost var net, step := Net(), U.Seat(i);
      conns := conns[i := conns[i].(seated := true)];
      if quiet {
        U.ReachedStep(net, step);
      }
    }

    /** The connection asks for its user's channel, once; it may have gone already. */
    ghost function Asking(i: U.ConnId): U.Net
      reads this, broker
    {
      if i in conns then U.Tried(Net(), U.Request(i))
      else if i < |owners| && i !in asked then U.Tried(Net(), U.LateRequest(i, owners[i]))
      else Net()
    }

    method Ask(i: U.ConnId)
      requires Valid()
      modifies this`conns, this`asked, broker`subReqs
      ensures Valid() && SameSeats(old(conns), conns) && Net() == old(Asking(i))
    {
      if i < |owners| && i !in asked && |broker.subReqs| < B.SUB_REQUEST_BUFFER
          && (i in conns ==> conns[i].ask == U.NotYet) {
        ghost var net, step := Net(), if i in conns then U.Request(i) else U.LateRequest(i, owners[i]);
        broker.Request(owners[i], i);
        asked := asked + {i};
        if i in conns {
          conns := conns[i := conns[i].(ask := U.Waiting)];
        }
        assert Net() == U.Next(net, step);
        if quiet {
          U.ReachedStep(net, step);
        }
      }
    }

    method Apply(redisOk: bool)
      requires Valid()
      modifies this`conns, broker
      ensures Valid() && SameSeats(old(conns), conns) && Net() == U.Tried(old(Net()), U.Apply(redisOk))
    {
      if broker.subReqs != [] {
        ghost var net, step := Net(), U.Apply(redisOk);
        var answer := broker.ApplyNext(redisOk);
        if answer.Some? && answer.value.0 in conns && conns[answer.value.0].ask == U.Waiting {
          var (i, granted) := answer.value;
          conns := conns[i := conns[i].(ask := if granted then U.Granted else U.Refused)];
        }
        assert conns == U.Answer(net, net.queue[0], redisOk);
        AnswerKeepsSeats(net, net.queue[0], redisOk);
        assert Net() == U.Next(net, step);
        if quiet {
          U.ReachedStep(net, step);
        }
      }
    }

    method GiveUp(i: U.ConnId)
      requires Valid()
      modifies this`conns
      ensures Valid() && SameSeats(old(conns), conns) && Net() == U.Tried(old(Net()), U.GiveUp(i))
    {
      if i in conns && conns[i].ask in {U.NotYet, U.Waiting} {
        ghost var net, step := Net(), U.GiveUp(i);
        conns := conns[i := conns[i].(ask := U.Refused)];
        if quiet {
          U.ReachedStep(net, step);
        }
      }
    }

    /** Where the protocol goes with an event. */
    ghost function After(e: UserEvent): U.Net
      reads this, broker
    {
      match e
      case AskOwn(i) => Asking(i)
      case ApplyOwn(redisOk) => U.Tried(Net(), U.Apply(redisOk))
      case GiveUpOwn(i) => U.Tried(Net(), U.GiveUp(i))
    }

    method Step(e: UserEvent)
      requires Valid()
      modifies this`conns, this`asked, broker
      ensures Valid() && SameSeats(old(conns), conns) && Net() == old(After(e))
    {
      match e {
        case AskOwn(i) => Ask(i);
        case ApplyOwn(redisOk) => Apply(redisOk);
        case GiveUpOwn(i) => GiveUp(i);
      }
    }

    /** A turn of the Hub: whoever it no longer lists has gone. */
    method Follow(all: map<U.ConnId, Client>, ghost before: set<Client>, after: set<Client>,
                  ghost index: map<UserId, set<Client>>, ghost index': map<UserId, set<Client>>, said: seq<UserId>)
      requires Valid() && Tied(conns, all, before) && after <= before
      requires UserIndex(index, before) && UserIndex(index', after) && Lost(index, index', said) && NoRepeats(said)
      modifies this`conns, this`quiet, broker`subReqs
      ensures Valid() && Tied(conns, all, after) && OnlySeatedGone(old(conns), conns) && (quiet ==> old(quiet))
      ensures conns == old(conns) - DroppedIds(old(conns), all, after)
      ensures broker.subReqs == PushAll(old(broker.subReqs), said)
    {
      TurnAnnounces(Net(), all, before, after, index, index', said);
      TurnTied(conns, all, before, after);
      Departed(DroppedIds(conns, all, after), said);
    }

    /** The Hub has dropped the connections `gone`; users left without one are unsubscribed in the order it said. */
    method Departed(gone: set<U.ConnId>, said: seq<UserId>)
      requires Valid() && AllSeated(Net(), gone) && Announces(Net(), gone, said)
      modifies this`conns, this`quiet, broker`subReqs
      ensures Valid() && conns == old(conns) - gone && broker.subReqs == PushAll(old(broker.subReqs), said)
      ensures quiet <==> old(quiet) && forall u | u in said :: !old(U.Exposed(Net(), u))
    {
      ghost var net := Net();
      Forward(broker, said);
      PushedNoSub(net.queue, said);
      conns := conns - gone;
      quiet := quiet && forall u | u in said :: !U.Exposed(net, u);
      if quiet {
        ghost var steps := UsersTurn(net, gone, said);
        U.ReachedMore(net, steps);
      }
    }
  }

  /** Only connections that were seated are gone; the others are as they were. */
  predicate OnlySeatedGone(before: map<U.ConnId, U.Conn>, after: map<U.ConnId, U.Conn>) {
    && (forall i | i in after :: i in before && after[i] == before[i])
    && (forall i | i in before && !before[i].seated :: i in after)
  }

  /** The same connections of the same users, seated or not as before. */
  predicate SameSeats(before: map<U.ConnId, U.Conn>, after: map<U.ConnId, U.Conn>) {
    before.Keys == after.Keys && forall i | i in after :: after[i].(ask := U.NotYet) == before[i].(ask := U.NotYet)
  }
}
