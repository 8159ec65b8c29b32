/** The life of a bubble over a run of its client (frontend/hooks/useMessages.tsx:120-219,
    frontend/lib/messagesCache.ts:99-174): shown when the message is sent, sending or failed until an answer
    comes, and gone for good once its own echo or REST response has. */
module Echoes {
  import opened ChatTypes
  import opened MessageCache
  import opened MergeSafety
  import opened Simulation

  /** The server's answer to this very send reaches the client. */
  predicate EchoOf(step: Step, n: MessageId) {
    && step.Deliver?
    && (if step.req.RestInsert? then step.req.here && step.req.key == n
        else step.req.Insert? && step.req.clientId == Some(n))
  }

  /** An own message with the text reaches the client, live, as a REST response or in a resync. */
  predicate BringsOwn(step: Step, text: string, me: UserId) {
    match step
    case Deliver(req) => IsInsert(req) && req.author == me && req.content == text && (req.RestInsert? ==> req.here)
    case Resync(page) => exists m | m in page :: m.author == me && m.content == Some(text)
    case _ => false
  }

  function StatusAfter(status: SendStatus, step: Step, n: MessageId): SendStatus {
    if step == AckTimeout(n) then Failed else if step == Retry(n) then Sending else status
  }

  /** The status the last time-out or retry gave it. */
  function StatusAsked(steps: seq<Step>, n: MessageId): SendStatus {
    if steps == [] then Sending else StatusAfter(StatusAsked(steps[..|steps| - 1], n), steps[|steps| - 1], n)
  }

  // ---- one step ----

  lemma MergedKeeps(w: World, inc: Incoming, me: UserId, b: ChatMessage)
    requires b in Flatten(w.pages) && !Answers(inc, b, me)
    ensures b in Flatten(ApplyOne(w.pages, inc, me))
  {
    ApplyOneFlattens(w.pages, inc, me);
    MergeKeeps(Flatten(w.pages), inc, me, b);
  }

  lemma PatchedHolds(pages: seq<Page>, p: Patch, b: ChatMessage)
    requires b in Flatten(pages)
    ensures PatchRow(b, p) in Flatten(PatchPages(pages, p))
  {
    PatchFlattens(pages, p);
    var rows := Flatten(pages);
    var i :| 0 <= i < |rows| && rows[i] == b;
    assert PatchPage(rows, p)[i] == PatchRow(b, p);
  }

  lemma DeliveredKeeps(w: World, req: Request, me: UserId, nonces: set<MessageId>, b: ChatMessage, text: string)
    requires b in Flatten(w.pages) && b.status.Some? && b.content == Some(text) && b.id in nonces
    requires w.server.messages.Keys !! nonces && FreshRequest(w.server, req, nonces)
    requires !EchoOf(Deliver(req), b.id) && !BringsOwn(Deliver(req), text, me)
    ensures b in Flatten(Next(w, Deliver(req), me).pages)
  {
    var event := Commit(w.server, req).1;
    match event {
      case Silent =>
      case New(inc) => MergedKeeps(w, inc, me, b);
      case Changed(p) => PatchedHolds(w.pages, p, b);
    }
  }

  lemma ResyncKeeps(w: World, page: Page, me: UserId, b: ChatMessage, text: string)
    requires b in Flatten(w.pages) && b.content == Some(text) && !BringsOwn(Resync(page), text, me)
    ensures b in Flatten(Next(w, Resync(page), me).pages)
  {
    var batch := ToIncoming(page);
    ApplyAllFlattens(w.pages, batch, me);
    MergeAllKeeps(Flatten(w.pages), batch, me);
    assert forall inc | inc in batch :: inc.message in page && inc.clientId.None?;
  }

  lemma StatusPatched(b: ChatMessage, p: Patch, step: Step)
    requires b.status.Some?
    requires (p.Fail? && step == AckTimeout(p.id)) || (p.Resend? && step == Retry(p.id))
    ensures PatchRow(b, p) == b.(status := Some(StatusAfter(b.status.value, step, b.id)))
  {
    assert b == b.(status := Some(b.status.value));
    match b.status.value {
      case Sending =>
      case Failed =>
    }
  }

  /** A bubble nothing answers stays as it was sent, but for its status. */
  lemma BubbleStays(w: World, step: Step, me: UserId, nonces: set<MessageId>, b: ChatMessage, text: string)
    requires b in Flatten(w.pages) && b.status.Some? && b.content == Some(text) && b.id in nonces
    requires w.server.messages.Keys !! nonces && Fresh(w, step, nonces)
    requires !EchoOf(step, b.id) && !BringsOwn(step, text, me)
    ensures b.(status := Some(StatusAfter(b.status.value, step, b.id))) in Flatten(Next(w, step, me).pages)
  {
    match step {
      case Deliver(req) => DeliveredKeeps(w, req, me, nonces, b, text);
      case Miss(_) =>
      case Resync(page) => ResyncKeeps(w, page, me, b, text);
      case SendBubble(nonce, content, at) =>
        MergedKeeps(w, Incoming(OwnBubble(nonce, me, content, at), None), me, b);
      case AckTimeout(nonce) =>
        PatchedHolds(w.pages, Fail(nonce), b);
        StatusPatched(b, Fail(nonce), step);
      case Retry(nonce) =>
        PatchedHolds(w.pages, Resend(nonce), b);
        StatusPatched(b, Resend(nonce), step);
    }
  }

  lemma PatchedIds(pages: seq<Page>, p: Patch, n: MessageId)
    ensures AtMostOnce(Flatten(pages), n) ==> AtMostOnce(Flatten(PatchPages(pages, p)), n)
    ensures Holds(Flatten(PatchPages(pages, p)), n) ==> Holds(Flatten(pages), n)
  {
    PatchFlattens(pages, p);
    var rows := Flatten(pages);
    forall i | 0 <= i < |rows| ensures PatchPage(rows, p)[i].id == rows[i].id {
      PatchKeeps(rows[i], p);
    }
    if m :| m in PatchPage(rows, p) && m.id == n {
      var i :| 0 <= i < |rows| && PatchPage(rows, p)[i] == m;
      assert rows[i] in rows && rows[i].id == n;
    }
  }

  /** A server row brings no nonce back, and its own it takes out. */
  lemma ArrivalTakes(pages: seq<Page>, inc: Incoming, me: UserId, n: MessageId)
    requires inc.message.id != n && AtMostOnce(Flatten(pages), n)
    ensures var rows, rows' := Flatten(pages), Flatten(ApplyOne(pages, inc, me));
            AtMostOnce(rows', n) && (!Holds(rows, n) || inc.clientId == Some(n) ==> !Holds(rows', n))
  {
    ApplyOneFlattens(pages, inc, me);
    NonceStep(Flatten(pages), inc, me, n);
  }

  /** No step shows a bubble twice; only sending it shows it, and its answer removes it. */
  lemma BubbleOnce(w: World, step: Step, me: UserId, nonces: set<MessageId>, n: MessageId)
    requires n in nonces && w.server.messages.Keys !! nonces && Fresh(w, step, nonces)
    requires AtMostOnce(Flatten(w.pages), n)
    ensures var rows, rows' := Flatten(w.pages), Flatten(Next(w, step, me).pages);
            && AtMostOnce(rows', n)
            && (EchoOf(step, n) ==> !Holds(rows', n))
            && (!Holds(rows, n) && !(step.SendBubble? && step.nonce == n) ==> !Holds(rows', n))
  {
    match step {
      case Deliver(req) =>
        var event := Commit(w.server, req).1;
        match event {
          case Silent =>
          case New(inc) => ArrivalTakes(w.pages, inc, me, n);
          case Changed(p) => PatchedIds(w.pages, p, n);
        }
      case Miss(_) =>
      case Resync(page) => ResyncOnce(w, page, me, n);
      case SendBubble(nonce, content, at) => SendOnce(w, nonce, content, at, me, n);
      case AckTimeout(nonce) => PatchedIds(w.pages, Fail(nonce), n);
      case Retry(nonce) => PatchedIds(w.pages, Resend(nonce), n);
    }
  }

  lemma ResyncOnce(w: World, page: Page, me: UserId, n: MessageId)
    requires AtMostOnce(Flatten(w.pages), n) && forall m | m in page :: m.id != n
    ensures var rows, rows' := Flatten(w.pages), Flatten(Next(w, Resync(page), me).pages);
            AtMostOnce(rows', n) && (!Holds(rows, n) ==> !Holds(rows', n))
  {
    var batch := ToIncoming(page);
    assert forall inc | inc in batch :: inc.message in page;
    ApplyAllFlattens(w.pages, batch, me);
    NonceBatch(Flatten(w.pages), batch, me, n);
  }

  lemma SendOnce(w: World, nonce: MessageId, content: string, at: Time, me: UserId, n: MessageId)
    requires AtMostOnce(Flatten(w.pages), n)
    ensures var rows, rows' := Flatten(w.pages), Flatten(Next(w, SendBubble(nonce, content, at), me).pages);
            AtMostOnce(rows', n) && (!Holds(rows, n) && nonce != n ==> !Holds(rows', n))
  {
    var inc := Incoming(OwnBubble(nonce, me, content, at), None);
    ApplyOneFlattens(w.pages, inc, me);
    BubbleStep(Flatten(w.pages), inc, me, n);
    if nonce != n {
      NonceStep(Flatten(w.pages), inc, me, n);
    }
  }

  /** Sending shows the bubble, once. */
  lemma SendShows(w: World, n: MessageId, text: string, at: Time, me: UserId)
    requires !Holds(Flatten(w.pages), n)
    ensures var rows' := Flatten(Next(w, SendBubble(n, text, at), me).pages);
            OwnBubble(n, me, text, at) in rows' && AtMostOnce(rows', n)
  {
    var inc := Incoming(OwnBubble(n, me, text, at), None);
    ApplyOneFlattens(w.pages, inc, me);
    var c := MergeOneShape(Flatten(w.pages), inc, me);
    assert c.Front?;
    forall i | 0 <= i < |Flatten(w.pages)| ensures Flatten(w.pages)[i].id != n {
      assert Flatten(w.pages)[i] in Flatten(w.pages);
    }
  }

  // ---- every run ----

  lemma ServerStaysClear(w: World, steps: seq<Step>, me: UserId, nonces: set<MessageId>, g: Gaps)
    requires Sim(w, nonces, g) && FreshRun(w, steps, me, nonces)
    ensures Run(w, steps, me).server.messages.Keys !! nonces
  {
    CacheSimulatesServer(w, steps, me, nonces, g);
  }

  lemma {:induction false} OnceForever(w: World, steps: seq<Step>, me: UserId, nonces: set<MessageId>, g: Gaps,
                                       n: MessageId)
    requires Sim(w, nonces, g) && FreshRun(w, steps, me, nonces) && n in nonces && AtMostOnce(Flatten(w.pages), n)
    ensures AtMostOnce(Flatten(Run(w, steps, me).pages), n)
  {
    if steps != [] {
      var k := |steps| - 1;
      FreshPrefix(w, steps, me, nonces);
      OnceForever(w, steps[..k], me, nonces, g, n);
      ServerStaysClear(w, steps[..k], me, nonces, g);
      BubbleOnce(Run(w, steps[..k], me), steps[k], me, nonces, n);
    }
  }

  /** From the moment a message is sent, through any run in which nothing answers it: the client shows its
      bubble, once, with the text as sent, failed after a time-out and sending again after a retry. */
  lemma {:induction false} BubbleAwaits(w: World, n: MessageId, text: string, at: Time, steps: seq<Step>, me: UserId,
                                        nonces: set<MessageId>, g: Gaps)
    requires Sim(w, nonces, g) && n in nonces && !Holds(Flatten(w.pages), n)
    requires FreshRun(Next(w, SendBubble(n, text, at), me), steps, me, nonces)
    requires forall step | step in steps :: !EchoOf(step, n) && !BringsOwn(step, text, me)
    ensures var rows := Flatten(Run(Next(w, SendBubble(n, text, at), me), steps, me).pages);
            OwnBubble(n, me, text, at).(status := Some(StatusAsked(steps, n))) in rows && AtMostOnce(rows, n)
  {
    var sent := Next(w, SendBubble(n, text, at), me);
    SendShows(w, n, text, at, me);
    BubbleSim(w, n, text, at, me, nonces, g);
    OnceForever(sent, steps, me, nonces, g, n);
    if steps != [] {
      var k := |steps| - 1;
      assert steps[k] in steps && forall step | step in steps[..k] :: step in steps;
      FreshPrefix(sent, steps, me, nonces);
      BubbleAwaits(w, n, text, at, steps[..k], me, nonces, g);
      ServerStaysClear(sent, steps[..k], me, nonces, g);
      BubbleStays(Run(sent, steps[..k], me), steps[k], me, nonces,
                  OwnBubble(n, me, text, at).(status := Some(StatusAsked(steps[..k], n))), text);
    }
  }

  lemma LastStepOnce(w: World, steps: seq<Step>, me: UserId, nonces: set<MessageId>, g: Gaps, n: MessageId)
    requires Sim(w, nonces, g) && FreshRun(w, steps, me, nonces) && n in nonces && AtMostOnce(Flatten(w.pages), n)
    requires steps != []
    ensures var last := steps[|steps| - 1];
            var rows, rows' := Flatten(Run(w, steps[..|steps| - 1], me).pages), Flatten(Run(w, steps, me).pages);
            && (EchoOf(last, n) ==> !Holds(rows', n))
            && (!Holds(rows, n) && !(last.SendBubble? && last.nonce == n) ==> !Holds(rows', n))
  {
    var last := |steps| - 1;
    FreshPrefix(w, steps, me, nonces);
    OnceForever(w, steps[..last], me, nonces, g, n);
    ServerStaysClear(w, steps[..last], me, nonces, g);
    BubbleOnce(Run(w, steps[..last], me), steps[last], me, nonces, n);
  }

  /** Once its own answer has come, the bubble is gone, and stays gone unless the user sends it again. */
  lemma {:induction false} AnsweredForGood(w: World, steps: seq<Step>, k: nat, me: UserId, nonces: set<MessageId>,
                                           g: Gaps, n: MessageId)
    requires Sim(w, nonces, g) && FreshRun(w, steps, me, nonces) && n in nonces && AtMostOnce(Flatten(w.pages), n)
    requires k < |steps| && EchoOf(steps[k], n)
    requires forall j | k < j < |steps| :: !(steps[j].SendBubble? && steps[j].nonce == n)
    ensures !Holds(Flatten(Run(w, steps, me).pages), n)
  {
    LastStepOnce(w, steps, me, nonces, g, n);
    if k < |steps| - 1 {
      FreshPrefix(w, steps, me, nonces);
      AnsweredForGood(w, steps[..|steps| - 1], k, me, nonces, g, n);
    }
  }

  // ---- a send that is retried ----

  lemma RunFour(w: World, a: Step, b: Step, c: Step, d: Step, me: UserId)
    ensures var steps := [a, b, c, d];
            && Run(w, steps[..0], me) == w && Run(w, steps[..1], me) == Next(w, a, me)
            && Run(w, steps[..2], me) == Next(Next(w, a, me), b, me)
            && Run(w, steps[..3], me) == Next(Next(Next(w, a, me), b, me), c, me)
            && Run(w, steps, me) == Next(Next(Next(Next(w, a, me), b, me), c, me), d, me)
  {
    var steps := [a, b, c, d];
    assert steps[..1][..0] == [] && steps[..2][..1] == steps[..1] && steps[..3][..2] == steps[..2];
    assert steps[..|steps| - 1] == steps[..3];
  }

  /** Stored, but its echo lost; timed out, and sent again. */
  function Retried(n: MessageId, text: string, a: MessageId, b: MessageId, at: Time, me: UserId): seq<Step> {
    [Miss(Insert(a, me, text, at, Some(n))), AckTimeout(n), Retry(n), Deliver(Insert(b, me, text, at, Some(n)))]
  }

  lemma RetriedFresh(w: World, n: MessageId, text: string, a: MessageId, b: MessageId, at: Time, me: UserId,
                     nonces: set<MessageId>)
    requires n in nonces && a !in nonces && b !in nonces && a != b
    requires a !in w.server.messages && b !in w.server.messages
    ensures FreshRun(w, Retried(n, text, a, b, at, me), me, nonces)
    ensures var server, was := Run(w, Retried(n, text, a, b, at, me), me).server, w.server;
            var row := MessageRow(me, at, text, None, None);
            server.messages == was.messages[a := row][b := row]
  {
    var steps := Retried(n, text, a, b, at, me);
    RunFour(w, steps[0], steps[1], steps[2], steps[3], me);
    forall i | 0 <= i < |steps| ensures Fresh(Run(w, steps[..i], me), steps[i], nonces) {
      assert i == 0 || i == 1 || i == 2 || i == 3;
    }
  }

  /** A WebSocket send carries no idempotency key: one whose echo was lost is stored again by its retry. The cache
      then shows the second message and lacks the first, which a resync brings in beside it. */
  lemma RetryStoresTwice(w: World, n: MessageId, text: string, a: MessageId, b: MessageId, at: Time, me: UserId,
                         nonces: set<MessageId>, g: Gaps)
    requires Sim(w, nonces, g) && n in nonces && a !in nonces && b !in nonces && a != b
    requires a !in w.server.messages && b !in w.server.messages && AtMostOnce(Flatten(w.pages), n)
    ensures var steps := Retried(n, text, a, b, at, me);
            var end := Run(w, steps, me);
            var late := Resync([LiveMessage(a, me, text, at)]);
            var rows, resynced := Flatten(end.pages), Flatten(Next(end, late, me).pages);
            && FreshRun(w, steps, me, nonces) && Live(end.server, a) && Live(end.server, b)
            && end.server.messages[a] == end.server.messages[b] == MessageRow(me, at, text, None, None)
            && !Holds(rows, n) && HoldsConfirmed(rows, b) && !HoldsConfirmed(rows, a)
            && HoldsConfirmed(resynced, a) && HoldsConfirmed(resynced, b)
  {
    var steps := Retried(n, text, a, b, at, me);
    RetriedFresh(w, n, text, a, b, at, me, nonces);
    AnsweredForGood(w, steps, 3, me, nonces, g, n);
    CacheSimulatesServer(w, steps, me, nonces, g);
    RetriedGaps(w, n, text, a, b, at, me, g);
    assert a !in g.unseen && b !in g.unseen;
    var end, late := Run(w, steps, me), LiveMessage(a, me, text, at);
    ResyncSim(end, [late], me, nonces, GapsAfter(g, w, steps, me));
    assert a in Ids([late]) by { assert late in [late]; }
  }

  lemma RetriedGaps(w: World, n: MessageId, text: string, a: MessageId, b: MessageId, at: Time, me: UserId, g: Gaps)
    ensures GapsAfter(g, w, Retried(n, text, a, b, at, me), me) == g.(unseen := g.unseen + {a})
  {
    var steps := Retried(n, text, a, b, at, me);
    RunFour(w, steps[0], steps[1], steps[2], steps[3], me);
    assert steps[..1][..0] == [] && steps[..2][..1] == steps[..1] && steps[..3][..2] == steps[..2];
    assert steps[..|steps| - 1] == steps[..3];
    assert GapsAfter(g, w, steps[..1], me) == g.(unseen := g.unseen + {a});
    assert GapsAfter(g, w, steps[..2], me) == g.(unseen := g.unseen + {a});
    assert GapsAfter(g, w, steps[..3], me) == g.(unseen := g.unseen + {a});
  }
}
