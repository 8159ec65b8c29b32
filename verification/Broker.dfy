/** The Broker (internal/websocket/broker.go) and the join protocol around it: a handler asks for a
    subscription and waits for the answer, then the Hub seats the client; the Hub asks for an
    unsubscribe when a room's last local client departs (handlers.go:77-83, hub.go:295-308). */
module BrokerModel {
  import opened ChatTypes

  /** A room id or a user id: the broker keeps one `Broker` half for each, exactly alike. */
  type Channel = nat
  type ClientId = nat
  type Ticket = nat

  const SUB_REQUEST_BUFFER: nat := 256

  /** `ready` names the join that waits for the answer; an unsubscribe has nobody waiting. */
  datatype SubRequest = Sub(room: Channel, ready: Ticket) | Unsub(room: Channel)

  /** A best-effort unsubscribe: dropped when the backlog is full. */
  function PushUnsub(queue: seq<SubRequest>, room: Channel): seq<SubRequest> {
    if |queue| < SUB_REQUEST_BUFFER then queue + [Unsub(room)] else queue
  }

  /** The subscriptions after one request; `redisOk` is whether Redis accepted a subscribe. */
  function Applied(subscribed: set<Channel>, req: SubRequest, redisOk: bool): set<Channel> {
    match req
    case Unsub(room) => subscribed - {room}
    case Sub(room, _) => if redisOk then subscribed + {room} else subscribed
  }

  /** The answer to a subscribe: an active subscription needs no Redis call and never fails. */
  predicate Granted(subscribed: set<Channel>, room: Channel, redisOk: bool) {
    room in subscribed || redisOk
  }

  class Broker {
    var subReqs: seq<SubRequest>
    var subscribed: set<Channel>

    constructor ()
      ensures subReqs == [] && subscribed == {}
    {
      subReqs, subscribed := [], {};
    }

    /** The sending half of `EnsureSubscribed`; it blocks while the backlog is full. */
    method Request(room: Channel, ready: Ticket)
      requires |subReqs| < SUB_REQUEST_BUFFER
      modifies `subReqs
      ensures subReqs == old(subReqs) + [Sub(room, ready)]
    {
      subReqs := subReqs + [Sub(room, ready)];
    }

    method Unsubscribe(room: Channel)
      modifies `subReqs
      ensures subReqs == PushUnsub(old(subReqs), room)
    {
      if |subReqs| < SUB_REQUEST_BUFFER {
        subReqs := subReqs + [Unsub(room)];
      }
    }

    /** `applySubRequest` on the oldest request. */
    method ApplyNext(redisOk: bool) returns (answer: Option<(Ticket, bool)>)
      requires subReqs != []
      modifies this
      ensures subReqs == old(subReqs)[1..]
      ensures subscribed == Applied(old(subscribed), old(subReqs)[0], redisOk)
      ensures old(subReqs)[0].Unsub? ==> answer.None?
      ensures old(subReqs)[0].Sub? ==>
                answer == Some((old(subReqs)[0].ready, Granted(old(subscribed), old(subReqs)[0].room, redisOk)))
    {
      var req := subReqs[0];
      subReqs := subReqs[1..];
      match req {
        case Unsub(room) =>
          subscribed := subscribed - {room};
          answer := None;
        case Sub(room, ready) =>
          var err := false;
          if room !in subscribed {
            if redisOk {
              subscribed := subscribed + {room};
            } else {
              err := true;
            }
          }
          answer := Some((ready, !err));
      }
    }
  }

  // ---- the protocol ----

  /** A join in flight: its request is queued, or answered and on its way to the Hub. */
  datatype Pending = Pending(client: ClientId, room: Channel, acked: bool)

  /** `local` are the clients the Hub has seated, per room, with no empty entry. */
  datatype Net = Net(
    queue: seq<SubRequest>,
    subscribed: set<Channel>,
    local: map<Channel, set<ClientId>>,
    joins: map<Ticket, Pending>)

  datatype Step =
    | Ask(ticket: Ticket, client: ClientId, room: Channel)
    | Apply(redisOk: bool)
    | GiveUp(ticket: Ticket)
    | Seat(ticket: Ticket, connected: bool)
    | Depart(client: ClientId, room: Channel)

  predicate Enabled(n: Net, step: Step) {
    match step
    case Ask(t, _, _) =>
      && t !in n.joins
      && (forall i | 0 <= i < |n.queue| :: n.queue[i].Sub? ==> n.queue[i].ready != t)
      && |n.queue| < SUB_REQUEST_BUFFER
    case Apply(_) => n.queue != []
    case GiveUp(t) => t in n.joins
    case Seat(t, _) => t in n.joins && n.joins[t].acked
    case Depart(c, room) => room in n.local && c in n.local[room]
  }

  function Answer(n: Net, req: SubRequest, redisOk: bool): map<Ticket, Pending> {
    if req.Unsub? || req.ready !in n.joins then n.joins
    else if Granted(n.subscribed, req.room, redisOk) then n.joins[req.ready := n.joins[req.ready].(acked := true)]
    else n.joins - {req.ready}
  }

  /** Emptied by the departure? Then the Hub asks to unsubscribe. */
  predicate Empties(n: Net, client: ClientId, room: Channel) {
    room in n.local && n.local[room] == {client}
  }

  function Next(n: Net, step: Step): Net
    requires Enabled(n, step)
  {
    match step
    case Ask(t, c, room) => n.(queue := n.queue + [Sub(room, t)], joins := n.joins[t := Pending(c, room, false)])
    case Apply(ok) =>
      n.(queue := n.queue[1..], subscribed := Applied(n.subscribed, n.queue[0], ok), joins := Answer(n, n.queue[0], ok))
    case GiveUp(t) => n.(joins := n.joins - {t})
    case Seat(t, connected) =>
      var j := n.joins[t];
      var seated := (if j.room in n.local then n.local[j.room] else {}) + {j.client};
      n.(joins := n.joins - {t}, local := if connected then n.local[j.room := seated] else n.local)
    case Depart(c, room) =>
      if Empties(n, c, room) then n.(local := n.local - {room}, queue := PushUnsub(n.queue, room))
      else n.(local := n.local[room := n.local[room] - {c}])
  }

  /** Every room with a local client is subscribed and has no unsubscribe waiting. */
  ghost predicate Safe(n: Net) {
    forall room | room in n.local :: room in n.subscribed && Unsub(room) !in n.queue
  }

  predicate InFlight(n: Net, room: Channel) {
    exists t | t in n.joins :: n.joins[t].room == room
  }

  /** The request of a waiting join is queued behind every stale unsubscribe of its room. */
  ghost predicate AskedLast(queue: seq<SubRequest>, room: Channel, t: Ticket) {
    exists i | 0 <= i < |queue| :: queue[i] == Sub(room, t) && forall j | i < j < |queue| :: queue[j] != Unsub(room)
  }

  ghost predicate JoinOk(n: Net, t: Ticket)
    requires t in n.joins
  {
    var room := n.joins[t].room;
    if n.joins[t].acked then room in n.subscribed && Unsub(room) !in n.queue else AskedLast(n.queue, room, t)
  }

  ghost predicate OneTicketEach(queue: seq<SubRequest>) {
    forall i, j | 0 <= i < j < |queue| && queue[i].Sub? && queue[j].Sub? :: queue[i].ready != queue[j].ready
  }

  /** Tickets are used once, so a queued request answers the join that made it. */
  ghost predicate TicketsOk(n: Net) {
    && (forall i, t | 0 <= i < |n.queue| && n.queue[i].Sub? && t == n.queue[i].ready && t in n.joins ::
          n.queue[i].room == n.joins[t].room)
    && OneTicketEach(n.queue)
  }

  ghost predicate Inv(n: Net) {
    && Safe(n)
    && TicketsOk(n)
    && (forall t | t in n.joins :: JoinOk(n, t))
    && (forall room | room in n.local :: n.local[room] != {})
  }

  /** No unsubscribe is enqueued for a room while a join of it is in flight. */
  predicate Quiet(n: Net, step: Step) {
    step.Depart? && Empties(n, step.client, step.room) ==> !InFlight(n, step.room)
  }

  const START: Net := Net([], {}, map[], map[])

  lemma AskInv(n: Net, t: Ticket, c: ClientId, room: Channel)
    requires Inv(n) && Enabled(n, Ask(t, c, room))
    ensures Inv(Next(n, Ask(t, c, room)))
  {
    var n' := Next(n, Ask(t, c, room));
    assert n'.queue[|n.queue|] == Sub(room, t);
    forall u | u in n'.joins ensures JoinOk(n', u) {
      if u != t {
        assert JoinOk(n, u);
        if !n.joins[u].acked {
          AskedLastMore(n.queue, n.joins[u].room, u, Sub(room, t));
        }
      }
    }
  }

  lemma AskedLastTail(queue: seq<SubRequest>, room: Channel, t: Ticket)
    requires queue != [] && AskedLast(queue, room, t) && queue[0] != Sub(room, t)
    ensures AskedLast(queue[1..], room, t)
  {
    var i :| 0 <= i < |queue| && queue[i] == Sub(room, t) && forall j | i < j < |queue| :: queue[j] != Unsub(room);
    assert queue[1..][i - 1] == Sub(room, t);
    assert forall j | i - 1 < j < |queue| - 1 :: queue[1..][j] == queue[j + 1];
  }

  /** The answered request stood last: no unsubscribe of its room follows. */
  lemma AskedLastHead(queue: seq<SubRequest>, room: Channel, t: Ticket)
    requires OneTicketEach(queue) && queue != [] && AskedLast(queue, room, t)
    requires queue[0].Sub? && queue[0].ready == t
    ensures queue[0].room == room && Unsub(room) !in queue[1..]
  {
    var i :| 0 <= i < |queue| && queue[i] == Sub(room, t) && forall j | i < j < |queue| :: queue[j] != Unsub(room);
    assert i == 0;
    assert forall j | 0 <= j < |queue| - 1 :: queue[1..][j] == queue[j + 1];
  }

  lemma ApplyJoin(n: Net, ok: bool, u: Ticket)
    requires TicketsOk(n) && n.queue != [] && u in n.joins && JoinOk(n, u)
    requires u in Next(n, Apply(ok)).joins
    ensures JoinOk(Next(n, Apply(ok)), u)
  {
    var req := n.queue[0];
    if n.joins[u].acked {
      assert req in n.queue;
    } else if req.Sub? && req.ready == u {
      AskedLastHead(n.queue, n.joins[u].room, u);
    } else {
      AskedLastTail(n.queue, n.joins[u].room, u);
    }
  }

  lemma ApplyInv(n: Net, ok: bool)
    requires Inv(n) && n.queue != []
    ensures Inv(Next(n, Apply(ok)))
  {
    var n', req := Next(n, Apply(ok)), n.queue[0];
    assert req in n.queue && n.queue == [req] + n'.queue;
    assert forall i | 0 <= i < |n'.queue| :: n'.queue[i] == n.queue[i + 1];
    forall u | u in n'.joins ensures JoinOk(n', u) {
      ApplyJoin(n, ok, u);
    }
  }

  lemma SeatInv(n: Net, t: Ticket, connected: bool)
    requires Inv(n) && Enabled(n, Seat(t, connected))
    ensures Inv(Next(n, Seat(t, connected)))
  {
    assert JoinOk(n, t);
    var n' := Next(n, Seat(t, connected));
    assert forall u | u in n'.joins :: JoinOk(n, u) && n'.joins[u] == n.joins[u];
  }

  lemma GiveUpInv(n: Net, t: Ticket)
    requires Inv(n) && t in n.joins
    ensures Inv(Next(n, GiveUp(t)))
  {
    var n' := Next(n, GiveUp(t));
    assert forall u | u in n'.joins :: JoinOk(n, u) && n'.joins[u] == n.joins[u];
  }

  lemma DepartInv(n: Net, c: ClientId, room: Channel)
    requires Inv(n) && Enabled(n, Depart(c, room)) && Quiet(n, Depart(c, room))
    ensures Inv(Next(n, Depart(c, room)))
  {
    var n' := Next(n, Depart(c, room));
    forall u | u in n'.joins ensures JoinOk(n', u) {
      assert JoinOk(n, u);
      if Empties(n, c, room) && !n.joins[u].acked {
        assert InFlight(n, n.joins[u].room);
        StillAskedLast(n.queue, room, n.joins[u].room, u);
      }
    }
    assert n.local[room] == (n.local[room] - {c}) + {c};
  }

  lemma AskedLastMore(queue: seq<SubRequest>, room: Channel, t: Ticket, req: SubRequest)
    requires AskedLast(queue, room, t) && req != Unsub(room)
    ensures AskedLast(queue + [req], room, t)
  {
    var i :| 0 <= i < |queue| && queue[i] == Sub(room, t) && forall j | i < j < |queue| :: queue[j] != Unsub(room);
    assert (queue + [req])[i] == Sub(room, t);
  }

  lemma StillAskedLast(queue: seq<SubRequest>, emptied: Channel, room: Channel, t: Ticket)
    requires AskedLast(queue, room, t) && room != emptied
    ensures AskedLast(PushUnsub(queue, emptied), room, t)
  {
    AskedLastMore(queue, room, t, Unsub(emptied));
  }

  lemma StepInv(n: Net, step: Step)
    requires Inv(n) && Enabled(n, step) && Quiet(n, step)
    ensures Inv(Next(n, step))
  {
    match step {
      case Ask(t, c, room) => AskInv(n, t, c, room);
      case Apply(ok) => ApplyInv(n, ok);
      case GiveUp(t) => GiveUpInv(n, t);
      case Seat(t, connected) => SeatInv(n, t, connected);
      case Depart(c, room) => DepartInv(n, c, room);
    }
  }

  /** A run: a list of states, each reached from the one before by an enabled step. */
  ghost predicate IsRun(states: seq<Net>, steps: seq<Step>) {
    && |states| == |steps| + 1
    && states[0] == START
    && forall i | 0 <= i < |steps| :: Enabled(states[i], steps[i]) && states[i + 1] == Next(states[i], steps[i])
  }

  /** Subscription safety: in every run in which no room is emptied while a join of it is in flight,
      every room with a local client is subscribed and has no unsubscribe pending. A stale unsubscribe
      queued before the join's request is harmless. */
  lemma {:induction false} SubscriptionSafety(states: seq<Net>, steps: seq<Step>)
    requires IsRun(states, steps)
    requires forall i | 0 <= i < |steps| :: Quiet(states[i], steps[i])
    ensures Inv(states[|steps|]) && Safe(states[|steps|])
  {
    if steps != [] {
      var k := |steps| - 1;
      SubscriptionSafety(states[..|steps|], steps[..k]);
      StepInv(states[k], steps[k]);
    }
  }

  // ---- the condition is exact ----

  /** From `n` the steps can be taken one after the other. */
  predicate Path(n: Net, steps: seq<Step>)
    decreases steps
  {
    steps != [] ==> Enabled(n, steps[0]) && Path(Next(n, steps[0]), steps[1..])
  }

  function End(n: Net, steps: seq<Step>): Net
    requires Path(n, steps)
    decreases steps
  {
    if steps == [] then n else End(Next(n, steps[0]), steps[1..])
  }

  /** And no room is emptied under a join on the way. */
  predicate QuietPath(n: Net, steps: seq<Step>)
    decreases steps
  {
    && Path(n, steps)
    && (steps != [] ==> Quiet(n, steps[0]) && QuietPath(Next(n, steps[0]), steps[1..]))
  }

  lemma {:induction false} QuietPathSafe(n: Net, steps: seq<Step>)
    requires Inv(n) && QuietPath(n, steps)
    ensures Inv(End(n, steps)) && Safe(End(n, steps))
    decreases steps
  {
    if steps != [] {
      StepInv(n, steps[0]);
      QuietPathSafe(Next(n, steps[0]), steps[1..]);
    }
  }

  /** The request of join `t` will be answered, or has been. */
  predicate Underway(n: Net, t: Ticket) {
    t in n.joins && (n.joins[t].acked || Sub(n.joins[t].room, t) in n.queue)
  }

  /** Letting the broker work off its backlog answers the join; a trailing unsubscribe has the last word. */
  lemma {:induction false} Drain(n: Net, t: Ticket) returns (steps: seq<Step>)
    requires Underway(n, t)
    ensures QuietPath(n, steps) && (n.queue == [] ==> steps == [])
    ensures var end := End(n, steps);
            && end.queue == [] && end.local == n.local
            && t in end.joins && end.joins[t] == n.joins[t].(acked := true)
            && (n.queue != [] && n.queue[|n.queue| - 1].Unsub? ==> n.queue[|n.queue| - 1].room !in end.subscribed)
    decreases |n.queue|
  {
    if n.queue == [] {
      steps := [];
    } else {
      var req, n' := n.queue[0], Next(n, Apply(true));
      assert n.queue == [req] + n'.queue;
      assert Underway(n', t);
      var rest := Drain(n', t);
      steps := [Apply(true)] + rest;
      assert steps[1..] == rest;
    }
  }

  /** The room is lost: once its last client has departed under a join in flight, working off the backlog
      and seating the client leaves it in a room this server no longer receives. */
  lemma LostRoom(n: Net, t: Ticket, c: ClientId, room: Channel) returns (steps: seq<Step>)
    requires Inv(n) && Empties(n, c, room) && |n.queue| < SUB_REQUEST_BUFFER
    requires t in n.joins && n.joins[t].room == room
    ensures var n' := Next(n, Depart(c, room));
            && QuietPath(n', steps)
            && var end := End(n', steps);
               && room in end.local && n.joins[t].client in end.local[room]
               && room !in end.subscribed && end.queue == [] && !Safe(end)
  {
    var n' := Next(n, Depart(c, room));
    assert JoinOk(n, t);
    assert forall req | req in n.queue :: req in n'.queue;
    assert n'.queue[|n.queue|] == Unsub(room);
    var drain := Drain(n', t);
    var seat := [Seat(t, true)];
    assert seat[1..] == [] && QuietPath(Next(End(n', drain), Seat(t, true)), []);
    PathConcat(n', drain, seat);
    steps := drain + seat;
  }

  lemma {:induction false} PathConcat(n: Net, first: seq<Step>, more: seq<Step>)
    requires Path(n, first) && Path(End(n, first), more)
    ensures Path(n, first + more) && End(n, first + more) == End(End(n, first), more)
    ensures QuietPath(n, first) && QuietPath(End(n, first), more) ==> QuietPath(n, first + more)
    decreases first
  {
    if first == [] {
      assert first + more == more;
    } else {
      PathConcat(Next(n, first[0]), first[1..], more);
      assert (first + more)[1..] == first[1..] + more;
    }
  }

  lemma OneStep(n: Net, step: Step)
    requires Enabled(n, step) && Quiet(n, step)
    ensures QuietPath(n, [step]) && End(n, [step]) == Next(n, step)
  {
    assert [step][1..] == [] && QuietPath(Next(n, step), []);
  }

  /** Some quiet run of the protocol ends here. */
  ghost predicate Reached(n: Net) {
    exists steps :: QuietPath(START, steps) && End(START, steps) == n
  }

  lemma StartReached()
    ensures Reached(START)
  {
    assert QuietPath(START, []) && End(START, []) == START;
  }

  lemma ReachedMore(n: Net, more: seq<Step>)
    requires Reached(n) && QuietPath(n, more)
    ensures Reached(End(n, more))
  {
    var steps :| QuietPath(START, steps) && End(START, steps) == n;
    PathConcat(START, steps, more);
  }

  lemma ReachedStep(n: Net, step: Step)
    requires Reached(n) && Enabled(n, step) && Quiet(n, step)
    ensures Reached(Next(n, step))
  {
    OneStep(n, step);
    ReachedMore(n, [step]);
  }

  lemma ReachedSafe(n: Net)
    requires Reached(n)
    ensures Inv(n) && Safe(n)
  {
    var steps :| QuietPath(START, steps) && End(START, steps) == n;
    QuietPathSafe(START, steps);
  }

  ghost predicate LeadsToLoss(n: Net) {
    exists steps :: QuietPath(n, steps) && !Safe(End(n, steps))
  }

  /** After a room's last client departs, some continuation loses a room, without any further offence,
      exactly when a join of the room was in flight and the backlog had room for the unsubscribe. */
  lemma EmptyingExactlyWhen(n: Net, c: ClientId, room: Channel)
    requires Inv(n) && Empties(n, c, room)
    ensures LeadsToLoss(Next(n, Depart(c, room))) <==> InFlight(n, room) && |n.queue| < SUB_REQUEST_BUFFER
  {
    var n' := Next(n, Depart(c, room));
    if InFlight(n, room) && |n.queue| < SUB_REQUEST_BUFFER {
      var t :| t in n.joins && n.joins[t].room == room;
      var steps := LostRoom(n, t, c, room);
    } else {
      EmptyingKeeps(n, c, room);
      forall steps | QuietPath(n', steps) ensures Safe(End(n', steps)) {
        QuietPathSafe(n', steps);
      }
    }
  }

  lemma EmptyingKeeps(n: Net, c: ClientId, room: Channel)
    requires Inv(n) && Empties(n, c, room) && (!InFlight(n, room) || |n.queue| >= SUB_REQUEST_BUFFER)
    ensures Inv(Next(n, Depart(c, room)))
  {
    if !InFlight(n, room) {
      DepartInv(n, c, room);
    } else {
      assert forall u | u in n.joins :: JoinOk(n, u);
    }
  }

  // ---- what a join can count on ----

  /** A step that cannot be taken yet changes nothing. */
  function Tried(n: Net, step: Step): Net {
    if Enabled(n, step) then Next(n, step) else n
  }

  /** The oldest request answered: an active subscription is granted whatever Redis says, a new one exactly if Redis
      accepts it; a refused join is over, and nobody else's is affected. */
  lemma AnswerExactly(n: Net, t: Ticket, redisOk: bool)
    requires n.queue != [] && n.queue[0].Sub? && n.queue[0].ready == t && t in n.joins
    ensures var n', room := Next(n, Apply(redisOk)), n.queue[0].room;
            && (t in n'.joins <==> room in n.subscribed || redisOk)
            && (t in n'.joins ==> n'.joins[t] == n.joins[t].(acked := true))
            && (room in n'.subscribed <==> room in n.subscribed || redisOk)
            && (forall r | r != room :: r in n'.subscribed <==> r in n.subscribed)
            && n'.joins - {t} == n.joins - {t} && n'.local == n.local && n'.queue == n.queue[1..]
  {}

  /** With Redis up, a join completes: the broker works off its backlog, the client is seated, and the room is
      subscribed with no unsubscribe left. */
  lemma JoinCompletes(n: Net, t: Ticket, c: ClientId, room: Channel) returns (steps: seq<Step>)
    requires Inv(n) && Enabled(n, Ask(t, c, room))
    ensures var asked := Next(n, Ask(t, c, room));
            && QuietPath(asked, steps)
            && var end := End(asked, steps);
               && t !in end.joins && room in end.local && c in end.local[room]
               && room in end.subscribed && end.queue == [] && Inv(end)
  {
    var asked := Next(n, Ask(t, c, room));
    AskInv(n, t, c, room);
    assert asked.queue[|n.queue|] == Sub(room, t);
    var drain := Drain(asked, t);
    QuietPathSafe(asked, drain);
    OneStep(End(asked, drain), Seat(t, true));
    PathConcat(asked, drain, [Seat(t, true)]);
    steps := drain + [Seat(t, true)];
    QuietPathSafe(asked, steps);
  }

  /** Working off the backlog, whoever waits: the last request has the last word. */
  lemma {:induction false} WorkOff(n: Net) returns (steps: seq<Step>)
    ensures QuietPath(n, steps)
    ensures var end := End(n, steps);
            && end.queue == [] && end.local == n.local && end.joins.Keys == n.joins.Keys
            && (n.queue == [] ==> end == n)
            && (n.queue != [] ==> var last := n.queue[|n.queue| - 1]; last.room in end.subscribed <==> last.Sub?)
    decreases |n.queue|
  {
    if n.queue == [] {
      steps := [];
    } else {
      var n' := Next(n, Apply(true));
      assert n.queue == [n.queue[0]] + n'.queue;
      var rest := WorkOff(n');
      steps := [Apply(true)] + rest;
      assert steps[1..] == rest;
    }
  }

  /** A join that times out leaves its request behind: the room ends subscribed, with no local client whose leaving
      would have it dropped. */
  lemma GivenUpLeaks(n: Net, t: Ticket, c: ClientId, room: Channel) returns (steps: seq<Step>)
    requires Enabled(n, Ask(t, c, room)) && room !in n.local
    ensures QuietPath(n, [Ask(t, c, room), GiveUp(t)] + steps)
    ensures var end := End(n, [Ask(t, c, room), GiveUp(t)] + steps);
            && room in end.subscribed && room !in end.local && t !in end.joins && end.queue == []
            && end.local == n.local && end.joins.Keys == n.joins.Keys
  {
    var asked := Next(n, Ask(t, c, room));
    var left := Next(asked, GiveUp(t));
    OneStep(asked, GiveUp(t));
    OneStep(n, Ask(t, c, room));
    PathConcat(n, [Ask(t, c, room)], [GiveUp(t)]);
    assert [Ask(t, c, room)] + [GiveUp(t)] == [Ask(t, c, room), GiveUp(t)];
    assert left.queue[|n.queue|] == Sub(room, t) && left.joins.Keys == n.joins.Keys;
    steps := WorkOff(left);
    PathConcat(n, [Ask(t, c, room), GiveUp(t)], steps);
  }
}
