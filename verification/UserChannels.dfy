/** The broker's user channels (internal/websocket/broker.go:133-158, 224-245; server.go:131-148). A new
    connection is handed to the Hub first and then asks for its user's channel; the Hub seats it whenever it
    gets to its registration backlog, and asks for an unsubscribe when a user's last connection departs. */
module UserChannels {
  import opened ChatTypes
  import B = BrokerModel

  type ConnId = B.Ticket

  datatype Ask = NotYet | Waiting | Granted | Refused

  datatype Conn = Conn(user: UserId, seated: bool, ask: Ask)

  datatype Net = Net(queue: seq<B.SubRequest>, subscribed: set<UserId>, conns: map<ConnId, Conn>)

  datatype Step =
    | Connect(c: ConnId, user: UserId)
    | Seat(c: ConnId)
    | Request(c: ConnId)
    | LateRequest(c: ConnId, user: UserId)
    | Apply(redisOk: bool)
    | GiveUp(c: ConnId)
    | Depart(c: ConnId)

  predicate Queued(queue: seq<B.SubRequest>, c: ConnId) {
    exists i | 0 <= i < |queue| :: queue[i].Sub? && queue[i].ready == c
  }

  predicate Enabled(n: Net, step: Step) {
    match step
    case Connect(c, _) => c !in n.conns && !Queued(n.queue, c)
    case Seat(c) => c in n.conns && !n.conns[c].seated
    case Request(c) => c in n.conns && n.conns[c].ask == NotYet && |n.queue| < B.SUB_REQUEST_BUFFER
    case LateRequest(c, _) => c !in n.conns && !Queued(n.queue, c) && |n.queue| < B.SUB_REQUEST_BUFFER
    case Apply(_) => n.queue != []
    case GiveUp(c) => c in n.conns && n.conns[c].ask in {NotYet, Waiting}
    case Depart(c) => c in n.conns && n.conns[c].seated
  }

  /** Is `c` the last seated connection of its user? */
  predicate Empties(n: Net, c: ConnId) {
    && c in n.conns && n.conns[c].seated
    && forall d | d in n.conns && d != c && n.conns[d].user == n.conns[c].user :: !n.conns[d].seated
  }

  function Answer(n: Net, req: B.SubRequest, redisOk: bool): map<ConnId, Conn> {
    if req.Unsub? || req.ready !in n.conns || n.conns[req.ready].ask != Waiting then n.conns
    else
      var ask := if B.Granted(n.subscribed, req.room, redisOk) then Granted else Refused;
      n.conns[req.ready := n.conns[req.ready].(ask := ask)]
  }

  /** A refused or timed-out request is only logged: the connection carries on without its channel. A
      connection that has already gone may still ask; nobody waits for the answer. */
  function Next(n: Net, step: Step): Net
    requires Enabled(n, step)
  {
    match step
    case Connect(c, user) => n.(conns := n.conns[c := Conn(user, false, NotYet)])
    case Seat(c) => n.(conns := n.conns[c := n.conns[c].(seated := true)])
    case Request(c) => n.(queue := n.queue + [B.Sub(n.conns[c].user, c)],
        conns := n.conns[c := n.conns[c].(ask := Waiting)])
    case LateRequest(c, user) => n.(queue := n.queue + [B.Sub(user, c)])
    case Apply(ok) => Net(n.queue[1..], B.Applied(n.subscribed, n.queue[0], ok), Answer(n, n.queue[0], ok))
    case GiveUp(c) => n.(conns := n.conns[c := n.conns[c].(ask := Refused)])
    case Depart(c) =>
      n.(conns := n.conns - {c}, queue := if Empties(n, c) then B.PushUnsub(n.queue, n.conns[c].user) else n.queue)
  }

  /** Every seated connection that was granted its channel will receive on it. */
  ghost predicate Safe(n: Net) {
    forall c | c in n.conns && n.conns[c].seated && n.conns[c].ask == Granted ::
      n.conns[c].user in n.subscribed && B.Unsub(n.conns[c].user) !in n.queue
  }

  ghost predicate ConnOk(n: Net, c: ConnId)
    requires c in n.conns
  {
    var conn := n.conns[c];
    match conn.ask
    case NotYet => !Queued(n.queue, c)
    case Waiting => B.AskedLast(n.queue, conn.user, c)
    case Granted => conn.user in n.subscribed && B.Unsub(conn.user) !in n.queue
    case Refused => true
  }

  ghost predicate TicketsOk(n: Net) {
    && (forall i | 0 <= i < |n.queue| && n.queue[i].Sub? && n.queue[i].ready in n.conns ::
          n.queue[i].room == n.conns[n.queue[i].ready].user)
    && B.OneTicketEach(n.queue)
  }

  ghost predicate Inv(n: Net) {
    TicketsOk(n) && forall c | c in n.conns :: ConnOk(n, c)
  }

  /** A connection of the user has asked for the channel, or has it, while the Hub has yet to seat it. */
  predicate Exposed(n: Net, user: UserId) {
    exists d | d in n.conns ::
      n.conns[d].user == user && !n.conns[d].seated && (n.conns[d].ask == Waiting || n.conns[d].ask == Granted)
  }

  predicate Quiet(n: Net, step: Step) {
    step.Depart? && Empties(n, step.c) ==> !Exposed(n, n.conns[step.c].user)
  }

  lemma RequestInv(n: Net, c: ConnId)
    requires Inv(n) && Enabled(n, Request(c))
    ensures Inv(Next(n, Request(c)))
  {
    var n', req := Next(n, Request(c)), B.Sub(n.conns[c].user, c);
    assert ConnOk(n, c) && n'.queue[|n.queue|] == req;
    forall d | d in n'.conns ensures ConnOk(n', d) {
      assert ConnOk(n, d);
      if d != c && n.conns[d].ask == Waiting {
        B.AskedLastMore(n.queue, n.conns[d].user, d, req);
      }
    }
  }

  lemma ApplyConn(n: Net, ok: bool, c: ConnId)
    requires TicketsOk(n) && n.queue != [] && c in n.conns && ConnOk(n, c)
    ensures ConnOk(Next(n, Apply(ok)), c)
  {
    var req, n' := n.queue[0], Next(n, Apply(ok));
    assert forall i | 0 <= i < |n'.queue| :: n'.queue[i] == n.queue[i + 1];
    match n.conns[c].ask {
      case Waiting =>
        if req.Sub? && req.ready == c {
          B.AskedLastHead(n.queue, n.conns[c].user, c);
        } else {
          B.AskedLastTail(n.queue, n.conns[c].user, c);
        }
      case Granted => assert req in n.queue;
      case _ =>
    }
  }

  lemma ApplyInv(n: Net, ok: bool)
    requires Inv(n) && n.queue != []
    ensures Inv(Next(n, Apply(ok)))
  {
    var n' := Next(n, Apply(ok));
    assert forall i | 0 <= i < |n'.queue| :: n'.queue[i] == n.queue[i + 1];
    forall c | c in n'.conns ensures ConnOk(n', c) {
      ApplyConn(n, ok, c);
    }
  }

  lemma DepartConn(n: Net, c: ConnId, d: ConnId)
    requires Enabled(n, Depart(c)) && d in n.conns && d != c && ConnOk(n, d)
    requires Empties(n, c) && n.conns[d].user == n.conns[c].user
            ==> n.conns[d].ask in {NotYet, Refused} || |n.queue| >= B.SUB_REQUEST_BUFFER
    ensures ConnOk(Next(n, Depart(c)), d)
  {
    if Empties(n, c) && |n.queue| < B.SUB_REQUEST_BUFFER {
      var unsub := B.Unsub(n.conns[c].user);
      if n.conns[d].ask == Waiting {
        B.AskedLastMore(n.queue, n.conns[d].user, d, unsub);
      } else if n.conns[d].ask == NotYet {
        assert forall i | 0 <= i < |n.queue| :: (n.queue + [unsub])[i] == n.queue[i];
      }
    }
  }

  lemma DepartInv(n: Net, c: ConnId)
    requires Inv(n) && Enabled(n, Depart(c))
    requires Empties(n, c) ==> !Exposed(n, n.conns[c].user) || |n.queue| >= B.SUB_REQUEST_BUFFER
    ensures Inv(Next(n, Depart(c)))
  {
    var n' := Next(n, Depart(c));
    forall d | d in n'.conns ensures ConnOk(n', d) {
      assert ConnOk(n, d);
      DepartConn(n, c, d);
    }
  }

  lemma OwnStepInv(n: Net, step: Step)
    requires Inv(n) && Enabled(n, step) && (step.Connect? || step.Seat? || step.GiveUp?)
    ensures Inv(Next(n, step))
  {
    var n' := Next(n, step);
    forall d | d in n'.conns ensures ConnOk(n', d) {
      assert d in n.conns ==> ConnOk(n, d);
    }
  }

  lemma LateRequestInv(n: Net, c: ConnId, user: UserId)
    requires Inv(n) && Enabled(n, LateRequest(c, user))
    ensures Inv(Next(n, LateRequest(c, user)))
  {
    var n' := Next(n, LateRequest(c, user));
    forall d | d in n'.conns ensures ConnOk(n', d) {
      assert ConnOk(n, d);
      if n.conns[d].ask == Waiting {
        B.AskedLastMore(n.queue, n.conns[d].user, d, B.Sub(user, c));
      }
    }
  }

  lemma StepInv(n: Net, step: Step)
    requires Inv(n) && Enabled(n, step) && Quiet(n, step)
    ensures Inv(Next(n, step))
  {
    match step {
      case Request(c) => RequestInv(n, c);
      case LateRequest(c, user) => LateRequestInv(n, c, user);
      case Apply(ok) => ApplyInv(n, ok);
      case Depart(c) => DepartInv(n, c);
      case _ => OwnStepInv(n, step);
    }
  }

  const START: Net := Net([], {}, map[])

  ghost predicate IsRun(states: seq<Net>, steps: seq<Step>) {
    && |states| == |steps| + 1
    && states[0] == START
    && forall i | 0 <= i < |steps| :: Enabled(states[i], steps[i]) && states[i + 1] == Next(states[i], steps[i])
  }

  /** In every run in which no user's last seated connection departs while another of theirs has asked but
      is not seated, each granted connection keeps its channel. */
  lemma {:induction false} UserChannelSafety(states: seq<Net>, steps: seq<Step>)
    requires IsRun(states, steps)
    requires forall i | 0 <= i < |steps| :: Quiet(states[i], steps[i])
    ensures Inv(states[|steps|]) && Safe(states[|steps|])
  {
    if steps != [] {
      var k := |steps| - 1;
      UserChannelSafety(states[..|steps|], steps[..k]);
      StepInv(states[k], steps[k]);
    }
    assert forall c | c in states[|steps|].conns :: ConnOk(states[|steps|], c);
  }

  /** The Hub keeps up: it has seated every connection that asks. */
  predicate Prompt(n: Net) {
    forall c | c in n.conns && (n.conns[c].ask == Waiting || n.conns[c].ask == Granted) :: n.conns[c].seated
  }

  predicate PromptStep(n: Net, step: Step) {
    step.Request? ==> step.c in n.conns && n.conns[step.c].seated
  }

  lemma PromptKept(n: Net, step: Step)
    requires Enabled(n, step) && Prompt(n) && PromptStep(n, step)
    ensures Prompt(Next(n, step)) && Quiet(n, step)
  {}

  /** Registering before asking pays off: if the Hub seats each connection before it asks, then whatever
      departs and whenever, no granted connection ever loses its channel. */
  lemma {:induction false} PromptHubIsSafe(states: seq<Net>, steps: seq<Step>)
    requires IsRun(states, steps)
    requires forall i | 0 <= i < |steps| :: PromptStep(states[i], steps[i])
    ensures Prompt(states[|steps|]) && Inv(states[|steps|]) && Safe(states[|steps|])
  {
    if steps != [] {
      var k := |steps| - 1;
      PromptHubIsSafe(states[..|steps|], steps[..k]);
      PromptKept(states[k], steps[k]);
      StepInv(states[k], steps[k]);
    }
    assert forall c | c in states[|steps|].conns :: ConnOk(states[|steps|], c);
  }

  // ---- the condition is exact ----

  predicate QuietPath(n: Net, steps: seq<Step>)
    decreases steps
  {
    steps != [] ==> Enabled(n, steps[0]) && Quiet(n, steps[0]) && QuietPath(Next(n, steps[0]), steps[1..])
  }

  function End(n: Net, steps: seq<Step>): Net
    requires QuietPath(n, steps)
    decreases steps
  {
    if steps == [] then n else End(Next(n, steps[0]), steps[1..])
  }

  lemma {:induction false} QuietPathSafe(n: Net, steps: seq<Step>)
    requires Inv(n) && QuietPath(n, steps)
    ensures Inv(End(n, steps)) && Safe(End(n, steps))
    decreases steps
  {
    if steps == [] {
      assert forall c | c in n.conns :: ConnOk(n, c);
    } else {
      StepInv(n, steps[0]);
      QuietPathSafe(Next(n, steps[0]), steps[1..]);
    }
  }

  lemma {:induction false} PathConcat(n: Net, first: seq<Step>, more: seq<Step>)
    requires QuietPath(n, first) && QuietPath(End(n, first), more)
    ensures QuietPath(n, first + more) && End(n, first + more) == End(End(n, first), more)
    decreases first
  {
    if first == [] {
      assert first + more == more;
    } else {
      PathConcat(Next(n, first[0]), first[1..], more);
      assert (first + more)[1..] == first[1..] + more;
    }
  }

  /** A path of one step. */
  lemma OneStep(n: Net, step: Step)
    requires Enabled(n, step) && Quiet(n, step)
    ensures QuietPath(n, [step]) && End(n, [step]) == Next(n, step)
  {
    assert [step][1..] == [] && QuietPath(Next(n, step), []);
  }

  /** Some quiet run of the protocol ends here. */
  ghost predicate Reached(n: Net) {
    exists steps :: QuietPath(START, steps) && End(START, steps) == n
  }

  lemma StartReached()
    ensures Reached(START)
  {
    assert QuietPath(START, []) && End(START, []) == START;
  }

  lemma ReachedMore(n: Net, more: seq<Step>)
    requires Reached(n) && QuietPath(n, more)
    ensures Reached(End(n, more))
  {
    var steps :| QuietPath(START, steps) && End(START, steps) == n;
    PathConcat(START, steps, more);
  }

  lemma ReachedStep(n: Net, step: Step)
    requires Reached(n) && Enabled(n, step) && Quiet(n, step)
    ensures Reached(Next(n, step))
  {
    OneStep(n, step);
    ReachedMore(n, [step]);
  }

  lemma ReachedSafe(n: Net)
    requires Reached(n)
    ensures Inv(n) && Safe(n)
  {
    var steps :| QuietPath(START, steps) && End(START, steps) == n;
    QuietPathSafe(START, steps);
  }

  predicate Underway(n: Net, c: ConnId) {
    c in n.conns && (n.conns[c].ask == Granted || (n.conns[c].ask == Waiting && B.Sub(n.conns[c].user, c) in n.queue))
  }

  /** Working off the backlog grants the channel; a trailing unsubscribe has the last word. */
  lemma {:induction false} Drain(n: Net, c: ConnId) returns (steps: seq<Step>)
    requires Underway(n, c)
    ensures QuietPath(n, steps) && (n.queue == [] ==> steps == [])
    ensures var end := End(n, steps);
            && end.queue == []
            && c in end.conns && end.conns[c] == n.conns[c].(ask := Granted)
            && (n.queue != [] && n.queue[|n.queue| - 1].Unsub? ==> n.queue[|n.queue| - 1].room !in end.subscribed)
    decreases |n.queue|
  {
    if n.queue == [] {
      steps := [];
    } else {
      var req, n' := n.queue[0], Next(n, Apply(true));
      assert n.queue == [req] + n'.queue;
      assert Underway(n', c);
      var rest := Drain(n', c);
      steps := [Apply(true)] + rest;
      assert steps[1..] == rest;
    }
  }

  /** The channel is lost: once the user's last seated connection has departed, working off the backlog and
      seating a connection that had asked leaves it granted, seated and without its channel. */
  lemma LostChannel(n: Net, c: ConnId, d: ConnId) returns (steps: seq<Step>)
    requires Inv(n) && Empties(n, c) && |n.queue| < B.SUB_REQUEST_BUFFER
    requires d in n.conns && n.conns[d].user == n.conns[c].user && !n.conns[d].seated
    requires n.conns[d].ask == Waiting || n.conns[d].ask == Granted
    ensures var n' := Next(n, Depart(c));
            && QuietPath(n', steps)
            && var end := End(n', steps);
               && d in end.conns && end.conns[d].seated && end.conns[d].ask == Granted
               && end.conns[d].user !in end.subscribed && end.queue == [] && !Safe(end)
  {
    var n' := Next(n, Depart(c));
    assert ConnOk(n, d);
    assert forall req | req in n.queue :: req in n'.queue;
    assert n'.queue[|n.queue|] == B.Unsub(n.conns[c].user);
    var drain := Drain(n', d);
    OneStep(End(n', drain), Seat(d));
    PathConcat(n', drain, [Seat(d)]);
    steps := drain + [Seat(d)];
  }

  ghost predicate LeadsToLoss(n: Net) {
    exists steps :: QuietPath(n, steps) && !Safe(End(n, steps))
  }

  /** After a user's last seated connection departs, some continuation loses a channel, without any further
      offence, exactly when a connection of theirs had asked without being seated and the backlog had room
      for the unsubscribe. */
  lemma LastDepartureExactlyWhen(n: Net, c: ConnId)
    requires Inv(n) && Empties(n, c)
    ensures LeadsToLoss(Next(n, Depart(c))) <==> Exposed(n, n.conns[c].user) && |n.queue| < B.SUB_REQUEST_BUFFER
  {
    var n', user := Next(n, Depart(c)), n.conns[c].user;
    if Exposed(n, user) && |n.queue| < B.SUB_REQUEST_BUFFER {
      var d :| d in n.conns && n.conns[d].user == user && !n.conns[d].seated
          && (n.conns[d].ask == Waiting || n.conns[d].ask == Granted);
      var steps := LostChannel(n, c, d);
    } else {
      DepartInv(n, c);
      forall steps | QuietPath(n', steps) ensures Safe(End(n', steps)) {
        QuietPathSafe(n', steps);
      }
    }
  }

  // ---- what a connection can count on ----

  /** A step that cannot be taken yet changes nothing. */
  function Tried(n: Net, step: Step): Net {
    if Enabled(n, step) then Next(n, step) else n
  }

  /** The oldest request answered: granted if the channel is active or Redis accepts it, refused otherwise; nobody
      else's connection is affected. */
  lemma AnswerExactly(n: Net, c: ConnId, redisOk: bool)
    requires n.queue != [] && n.queue[0].Sub? && n.queue[0].ready == c && c in n.conns && n.conns[c].ask == Waiting
    ensures var n', user := Next(n, Apply(redisOk)), n.queue[0].room;
            && n'.conns == n.conns[c := n'.conns[c]]
            && n'.conns[c] == n.conns[c].(ask := if user in n.subscribed || redisOk then Granted else Refused)
            && (user in n'.subscribed <==> user in n.subscribed || redisOk)
            && n'.queue == n.queue[1..]
  {}

  /** With Redis up, a new connection that the Hub seats before it asks ends seated, granted and subscribed. */
  lemma ConnectionCompletes(n: Net, c: ConnId, user: UserId) returns (steps: seq<Step>)
    requires Inv(n) && Enabled(n, Connect(c, user)) && |n.queue| < B.SUB_REQUEST_BUFFER
    ensures QuietPath(n, [Connect(c, user), Seat(c), Request(c)] + steps)
    ensures var end := End(n, [Connect(c, user), Seat(c), Request(c)] + steps);
            && c in end.conns && end.conns[c] == Conn(user, true, Granted)
            && user in end.subscribed && end.queue == [] && Inv(end)
  {
    var first := [Connect(c, user), Seat(c), Request(c)];
    OpeningPath(n, c, user);
    var asked := End(n, first);
    steps := Drain(asked, c);
    PathConcat(n, first, steps);
    QuietPathSafe(n, first + steps);
    assert ConnOk(End(n, first + steps), c);
  }

  lemma OpeningPath(n: Net, c: ConnId, user: UserId)
    requires Enabled(n, Connect(c, user)) && |n.queue| < B.SUB_REQUEST_BUFFER
    ensures var first := [Connect(c, user), Seat(c), Request(c)];
            && QuietPath(n, first)
            && var asked := End(n, first);
               Underway(asked, c) && asked.conns[c] == Conn(user, true, Waiting)
  {
    var connected := Next(n, Connect(c, user));
    var seated := Next(connected, Seat(c));
    OneStep(seated, Request(c));
    OneStep(connected, Seat(c));
    PathConcat(connected, [Seat(c)], [Request(c)]);
    OneStep(n, Connect(c, user));
    PathConcat(n, [Connect(c, user)], [Seat(c)] + [Request(c)]);
    assert [Connect(c, user)] + ([Seat(c)] + [Request(c)]) == [Connect(c, user), Seat(c), Request(c)];
    assert Next(seated, Request(c)).queue[|n.queue|] == B.Sub(user, c);
  }

  /** Working off the backlog, whoever waits: the last request has the last word. */
  lemma {:induction false} WorkOff(n: Net) returns (steps: seq<Step>)
    ensures QuietPath(n, steps)
    ensures var end := End(n, steps);
            && end.queue == [] && end.conns.Keys == n.conns.Keys
            && (n.queue == [] ==> end == n)
            && (n.queue != [] ==> var last := n.queue[|n.queue| - 1]; last.room in end.subscribed <==> last.Sub?)
    decreases |n.queue|
  {
    if n.queue == [] {
      steps := [];
    } else {
      var n' := Next(n, Apply(true));
      assert n.queue == [n.queue[0]] + n'.queue;
      var rest := WorkOff(n');
      steps := [Apply(true)] + rest;
      assert steps[1..] == rest;
    }
  }

  /** A connection that asks after it has gone leaves its user's channel subscribed, with nobody there to have it
      dropped. */
  lemma LateRequestLeaks(n: Net, c: ConnId, user: UserId) returns (steps: seq<Step>)
    requires Enabled(n, LateRequest(c, user)) && forall d | d in n.conns :: n.conns[d].user != user
    ensures QuietPath(n, [LateRequest(c, user)] + steps)
    ensures var end := End(n, [LateRequest(c, user)] + steps);
            user in end.subscribed && end.queue == [] && end.conns.Keys == n.conns.Keys
  {
    var asked := Next(n, LateRequest(c, user));
    assert asked.queue[|n.queue|] == B.Sub(user, c);
    OneStep(n, LateRequest(c, user));
    steps := WorkOff(asked);
    PathConcat(n, [LateRequest(c, user)], steps);
  }
}
