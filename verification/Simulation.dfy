/** The cache simulates the server. Live events applied in commit order keep every server row in the cache
    equal to the masked row the server would serve; what a client was not told of, or merged too late,
    is tracked exactly by the commits it missed.

    Server side: internal/store/messages.go, read_receipts.go, reactions.go and the handlers that
    publish. Client side: `routeEvent`, frontend/hooks/useWebSocket.tsx:210-348. */
module Simulation {
  import opened ChatTypes
  import opened MessageCache
  import opened MergeSafety
  import opened Reactions
  import opened Rendering

  datatype MessageRow = MessageRow(
    author: UserId, createdAt: Time, content: string, editedAt: Option<Time>, deletedAt: Option<Time>)

  /** A row of `message_read_receipts`; the table lists its rows by `read_at`. */
  datatype ReadRow = ReadRow(message: MessageId, user: UserId)

  datatype Server = Server(messages: map<MessageId, MessageRow>, receipts: seq<ReadRow>, reactions: ReactionTable)

  predicate Live(s: Server, id: MessageId) {
    id in s.messages && s.messages[id].deletedAt.None?
  }

  function Readers(receipts: seq<ReadRow>, message: MessageId): seq<UserId> {
    if receipts == [] then []
    else
      var front, last := Readers(receipts[..|receipts| - 1], message), receipts[|receipts| - 1];
      if last.message == message then front + [last.user] else front
  }

  /** The cached row is the one the server would serve: text masked once deleted, everything else as
      stored. Reaction groups may be listed in another order. */
  ghost predicate Mirrors(s: Server, m: ChatMessage) {
    && m.id in s.messages
    && var row := s.messages[m.id];
       && m.author == row.author
       && m.createdAt == row.createdAt
       && m.content == (if row.deletedAt.None? then Some(row.content) else None)
       && m.editedAt == row.editedAt
       && m.deletedAt == row.deletedAt
       && m.readBy == Readers(s.receipts, m.id)
       && Summarises(m.reactions, s.reactions, m.id)
  }

  // ---- the server's commits ----

  /** `here` tells whether a REST send was made by this very client; the same user may have others open.
      `admin` tells whether who deletes is an admin of the room or of the system. */
  datatype Request =
    | Insert(id: MessageId, author: UserId, content: string, at: Time, clientId: Option<MessageId>)
    | RestInsert(id: MessageId, author: UserId, content: string, at: Time, key: MessageId, here: bool)
    | EditText(user: UserId, id: MessageId, content: string, at: Time)
    | SoftDelete(user: UserId, admin: bool, id: MessageId, at: Time)
    | ToggleEmoji(id: MessageId, user: UserId, emoji: Emoji)
    | MarkRead(id: MessageId, user: UserId)

  /** What this client is told of a commit. */
  datatype Event = Silent | New(inc: Incoming) | Changed(patch: Patch)

  predicate IsInsert(req: Request) {
    req.Insert? || req.RestInsert?
  }

  /** `wsMessageToChat` of a just inserted row, which the REST response equals. */
  function LiveMessage(id: MessageId, author: UserId, content: string, at: Time): ChatMessage {
    ChatMessage(id, author, Some(content), at, None, None, [], [], None)
  }

  function Inserted(s: Server, id: MessageId, author: UserId, content: string, at: Time): Server {
    s.(messages := s.messages[id := MessageRow(author, at, content, None, None)])
  }

  /** Each request as one committed step. A request the handler turns away changes nothing and is not
      announced: editing, reacting to or reading a message that is missing or deleted, editing
      someone else's message, deleting it without being an admin, deleting twice, reading twice. A message sent
      over REST is announced to nobody: only the client that sent it reads the response. */
  function Commit(s: Server, req: Request): (Server, Event) {
    match req
    case Insert(id, author, content, at, clientId) =>
      (Inserted(s, id, author, content, at), New(Incoming(LiveMessage(id, author, content, at), clientId)))
    case RestInsert(id, author, content, at, key, here) =>
      (Inserted(s, id, author, content, at),
       if here then New(Incoming(LiveMessage(id, author, content, at), Some(key))) else Silent)
    case EditText(user, id, content, at) =>
      if Live(s, id) && s.messages[id].author == user then
        (s.(messages := s.messages[id := s.messages[id].(content := content, editedAt := Some(at))]),
         Changed(Edit(id, content, at)))
      else (s, Silent)
    case SoftDelete(user, admin, id, at) =>
      if Live(s, id) && (s.messages[id].author == user || admin) then
        (s.(messages := s.messages[id := s.messages[id].(deletedAt := Some(at))]), Changed(Delete(id, at)))
      else (s, Silent)
    case ToggleEmoji(id, user, emoji) =>
      var row := ReactionRow(id, user, emoji);
      if Live(s, id) then
        (s.(reactions := Toggle(s.reactions, row)), Changed(React(id, user, emoji, ToggleAction(s.reactions, row))))
      else (s, Silent)
    case MarkRead(id, user) =>
      if Live(s, id) && ReadRow(id, user) !in s.receipts then
        (s.(receipts := s.receipts + [ReadRow(id, user)]), Changed(Read(id, user)))
      else (s, Silent)
  }

  /** Does the commit change message `id`? */
  predicate Touches(s: Server, req: Request, id: MessageId) {
    var event := Commit(s, req).1;
    event.Changed? && event.patch.id == id
  }

  // ---- steps of one client and the server ----

  /** `Miss` is a commit whose event does not reach this client: its connection is down. `Resync` merges
      rows fetched at some earlier moment. */
  datatype Step =
    | Deliver(req: Request)
    | Miss(req: Request)
    | Resync(page: Page)
    | SendBubble(nonce: MessageId, content: string, at: Time)
    | AckTimeout(nonce: MessageId)
    | Retry(nonce: MessageId)

  function Route(pages: seq<Page>, event: Event, me: UserId): seq<Page> {
    match event
    case Silent => pages
    case New(inc) => ApplyOne(pages, inc, me)
    case Changed(p) => PatchPages(pages, p)
  }

  function OwnBubble(nonce: MessageId, me: UserId, content: string, at: Time): ChatMessage {
    ChatMessage(nonce, me, Some(content), at, None, None, [], [], Some(Sending))
  }

  datatype World = World(server: Server, pages: seq<Page>)

  function Next(w: World, step: Step, me: UserId): World {
    match step
    case Deliver(req) =>
      var (server, event) := Commit(w.server, req);
      World(server, Route(w.pages, event, me))
    case Miss(req) => w.(server := Commit(w.server, req).0)
    case Resync(page) => w.(pages := ApplyAll(w.pages, ToIncoming(page), me))
    case SendBubble(nonce, content, at) =>
      w.(pages := ApplyOne(w.pages, Incoming(OwnBubble(nonce, me, content, at), None), me))
    case AckTimeout(nonce) => w.(pages := PatchPages(w.pages, Fail(nonce)))
    case Retry(nonce) => w.(pages := PatchPages(w.pages, Resend(nonce)))
  }

  predicate FreshRequest(s: Server, req: Request, nonces: set<MessageId>) {
    match req
    case Insert(id, _, _, _, clientId) => id !in s.messages && id !in nonces
        && (clientId.Some? ==> clientId.value in nonces)
    case RestInsert(id, _, _, _, key, _) => id !in s.messages && id !in nonces && key in nonces
    case _ => true
  }

  /** The row is of an existing message: what never changes about it is right. */
  predicate Identifies(s: Server, m: ChatMessage) {
    m.id in s.messages && m.author == s.messages[m.id].author && m.createdAt == s.messages[m.id].createdAt
  }

  /** Fresh ids: a message id is new and is no nonce, and clients only use nonces as nonces. A resync
      merges rows of messages that exist, as current or as old as they may be. */
  predicate Fresh(w: World, step: Step, nonces: set<MessageId>) {
    match step
    case Deliver(req) => FreshRequest(w.server, req, nonces)
    case Miss(req) => FreshRequest(w.server, req, nonces)
    case Resync(page) => forall m | m in page :: m.Confirmed() && Identifies(w.server, m)
    case SendBubble(nonce, _, _) => nonce in nonces
    case _ => true
  }

  function Run(w: World, steps: seq<Step>, me: UserId): World {
    if steps == [] then w else Next(Run(w, steps[..|steps| - 1], me), steps[|steps| - 1], me)
  }

  predicate FreshRun(w: World, steps: seq<Step>, me: UserId, nonces: set<MessageId>) {
    forall i | 0 <= i < |steps| :: Fresh(Run(w, steps[..i], me), steps[i], nonces)
  }

  // ---- what the client lacks ----

  /** `unseen` are exactly the messages the cache lacks; rows of `stale` messages may be out
      of date in everything but author and creation time. */
  datatype Gaps = Gaps(unseen: set<MessageId>, stale: set<MessageId>)

  function Ids(page: Page): set<MessageId> {
    set m | m in page :: m.id
  }

  ghost function Outdated(s: Server, page: Page): set<MessageId> {
    set m | m in page && !Mirrors(s, m) :: m.id
  }

  /** A message inserted unheard becomes missing. A change missed makes a held row stale; one to a missing
      message costs nothing. A resync fills in what it fetched, and a filled-in row is stale if it was
      already out of date; a held row it leaves alone. */
  ghost function GapsNext(g: Gaps, w: World, step: Step): Gaps {
    match step
    case Deliver(req) =>
      if IsInsert(req) && Commit(w.server, req).1.Silent? then g.(unseen := g.unseen + {req.id}) else g
    case Miss(req) =>
      var event := Commit(w.server, req).1;
      if IsInsert(req) then g.(unseen := g.unseen + {req.id})
      else if event.Changed? && event.patch.id !in g.unseen then g.(stale := g.stale + {event.patch.id})
      else g
    case Resync(page) => Gaps(g.unseen - Ids(page), g.stale + (g.unseen * Outdated(w.server, page)))
    case _ => g
  }

  ghost function GapsAfter(g: Gaps, w: World, steps: seq<Step>, me: UserId): Gaps {
    if steps == [] then g
    else
      var front := steps[..|steps| - 1];
      GapsNext(GapsAfter(g, w, front, me), Run(w, front, me), steps[|steps| - 1])
  }

  // ---- the simulation relation ----

  ghost predicate ServerOk(s: Server) {
    && (forall r | r in s.receipts :: r.message in s.messages)
    && (forall r | r in s.reactions :: r.message in s.messages)
  }

  ghost predicate AllMirror(s: Server, rows: Page, stale: set<MessageId>) {
    forall m | m in rows && m.Confirmed() :: Identifies(s, m) && (m.id !in stale ==> Mirrors(s, m))
  }

  ghost predicate Complete(s: Server, rows: Page, unseen: set<MessageId>) {
    unseen <= s.messages.Keys && forall id | id in s.messages :: id !in unseen <==> HoldsConfirmed(rows, id)
  }

  ghost predicate Sim(w: World, nonces: set<MessageId>, g: Gaps) {
    var rows := Flatten(w.pages);
    && ServerOk(w.server)
    && w.server.messages.Keys !! nonces
    && Disciplined(rows, nonces)
    && AllMirror(w.server, rows, g.stale)
    && Complete(w.server, rows, g.unseen)
  }

  /** A freshly fetched history is a starting point. */
  lemma SnapshotSimulates(server: Server, pages: seq<Page>, nonces: set<MessageId>)
    requires ServerOk(server) && server.messages.Keys !! nonces
    requires forall m | m in Flatten(pages) :: m.Confirmed() && Mirrors(server, m)
    ensures Sim(World(server, pages), nonces, Gaps(server.messages.Keys - Ids(Flatten(pages)), {}))
  {
    var rows := Flatten(pages);
    forall id | id in server.messages ensures id in Ids(rows) <==> HoldsConfirmed(rows, id) {
      if id in Ids(rows) {
        var m :| m in rows && m.id == id;
        assert m.Confirmed();
      }
    }
  }

  // ---- inserts ----

  lemma {:induction false} NoReaders(receipts: seq<ReadRow>, id: MessageId)
    requires forall r | r in receipts :: r.message != id
    ensures Readers(receipts, id) == []
  {
    if receipts != [] {
      NoReaders(receipts[..|receipts| - 1], id);
    }
  }

  lemma {:induction false} NoReactors(table: ReactionTable, id: MessageId, e: Emoji)
    requires forall r | r in table :: r.message != id
    ensures Reactors(table, id, e) == []
  {
    if table != [] {
      NoReactors(table[..|table| - 1], id, e);
    }
  }

  lemma InsertedMirrors(s: Server, id: MessageId, author: UserId, content: string, at: Time)
    requires ServerOk(s) && id !in s.messages
    ensures Mirrors(Inserted(s, id, author, content, at), LiveMessage(id, author, content, at))
    ensures forall m | Mirrors(s, m) :: Mirrors(Inserted(s, id, author, content, at), m)
  {
    NoReaders(s.receipts, id);
    forall e ensures Reactors(s.reactions, id, e) == [] {
      NoReactors(s.reactions, id, e);
    }
  }

  /** Merging server row `x` keeps exactly the confirmed ids held, and adds its own. */
  lemma HeldAfter(rows: Page, rows': Page, x: ChatMessage, id: MessageId)
    requires forall m | m in rows && m.Confirmed() :: m in rows'
    requires forall m | m in rows' :: m in rows || m == x
    requires HoldsConfirmed(rows', x.id)
    ensures HoldsConfirmed(rows', id) <==> HoldsConfirmed(rows, id) || id == x.id
  {
    if HoldsConfirmed(rows, id) {
      var m :| m in rows && m.id == id && m.Confirmed();
      assert m in rows';
    }
  }

  /** A new message that reaches the cache, by a live event or as the response to a REST send. */
  lemma ArrivalSim(w: World, id: MessageId, author: UserId, content: string, at: Time, clientId: Option<MessageId>,
                   me: UserId, nonces: set<MessageId>, g: Gaps)
    requires Sim(w, nonces, g) && id !in w.server.messages && id !in nonces
    requires clientId.Some? ==> clientId.value in nonces
    ensures var inc := Incoming(LiveMessage(id, author, content, at), clientId);
            Sim(World(Inserted(w.server, id, author, content, at), ApplyOne(w.pages, inc, me)), nonces, g)
  {
    var inc := Incoming(LiveMessage(id, author, content, at), clientId);
    var s' := Inserted(w.server, id, author, content, at);
    var rows, rows' := Flatten(w.pages), Flatten(ApplyOne(w.pages, inc, me));
    ApplyOneFlattens(w.pages, inc, me);
    MergeOneSafe(rows, inc, me, nonces);
    InsertedMirrors(w.server, id, author, content, at);
    forall k | k in s'.messages ensures k !in g.unseen <==> HoldsConfirmed(rows', k) {
      HeldAfter(rows, rows', inc.message, k);
    }
  }

  /** A message this client is not told of: the cache stays as it is and lacks that one message more. */
  lemma UnannouncedSim(w: World, id: MessageId, author: UserId, content: string, at: Time, nonces: set<MessageId>,
                       g: Gaps)
    requires Sim(w, nonces, g) && id !in w.server.messages && id !in nonces
    ensures id !in g.unseen && !HoldsConfirmed(Flatten(w.pages), id)
    ensures Sim(World(Inserted(w.server, id, author, content, at), w.pages), nonces, g.(unseen := g.unseen + {id}))
  {
    InsertedMirrors(w.server, id, author, content, at);
    assert !HoldsConfirmed(Flatten(w.pages), id);
  }

  lemma BubbleSim(w: World, nonce: MessageId, content: string, at: Time, me: UserId, nonces: set<MessageId>, g: Gaps)
    requires Sim(w, nonces, g) && nonce in nonces
    ensures Sim(Next(w, SendBubble(nonce, content, at), me), nonces, g)
  {
    var inc := Incoming(OwnBubble(nonce, me, content, at), None);
    var rows, rows' := Flatten(w.pages), Flatten(Next(w, SendBubble(nonce, content, at), me).pages);
    ApplyOneFlattens(w.pages, inc, me);
    MergeOneSafe(rows, inc, me, nonces);
    forall id | id in w.server.messages ensures HoldsConfirmed(rows', id) <==> HoldsConfirmed(rows, id) {
      if HoldsConfirmed(rows, id) {
        var m :| m in rows && m.id == id && m.Confirmed();
        assert m in rows';
      }
    }
  }

  // ---- resync ----

  lemma ResyncSim(w: World, page: Page, me: UserId, nonces: set<MessageId>, g: Gaps)
    requires Sim(w, nonces, g) && Fresh(w, Resync(page), nonces)
    ensures Sim(Next(w, Resync(page), me), nonces, GapsNext(g, w, Resync(page)))
  {
    var rows, batch, g' := Flatten(w.pages), ToIncoming(page), GapsNext(g, w, Resync(page));
    var rows' := Flatten(ApplyAll(w.pages, batch, me));
    assert forall inc | inc in batch :: inc.message in page && inc.clientId.None?;
    ApplyAllFlattens(w.pages, batch, me);
    MergeAllSafe(rows, batch, me, nonces);
    forall m | m in rows' && m.Confirmed() ensures Identifies(w.server, m)
        && (m.id !in g'.stale ==> Mirrors(w.server, m)) {
      if m !in rows {
        assert m in page;
        if m.id !in g.unseen {
          HeldAbsorbs(rows, batch, me, nonces, m.id);
        } else {
          assert !Mirrors(w.server, m) ==> m.id in Outdated(w.server, page);
        }
      }
    }
    forall id | id in w.server.messages ensures id !in g'.unseen <==> HoldsConfirmed(rows', id) {
      ArrivesWithPage(page, id);
    }
  }

  lemma ArrivesWithPage(page: Page, id: MessageId)
    requires forall m | m in page :: m.Confirmed()
    ensures ArrivesConfirmed(ToIncoming(page), id) <==> id in Ids(page)
  {
    var batch := ToIncoming(page);
    if id in Ids(page) {
      var i :| 0 <= i < |page| && page[i].id == id;
      assert batch[i] in batch;
    }
    if ArrivesConfirmed(batch, id) {
      var inc :| inc in batch && inc.message.Confirmed() && inc.message.id == id;
      assert inc.message in page;
    }
  }

  // ---- changes ----

  /** No patch touches who wrote a row and when, nor makes a bubble of a server row or the reverse. */
  lemma PatchKeeps(m: ChatMessage, p: Patch)
    ensures var r := PatchRow(m, p);
            r.id == m.id && r.author == m.author && r.createdAt == m.createdAt && r.Confirmed() == m.Confirmed()
  {}

  lemma PatchHolds(rows: Page, p: Patch, id: MessageId)
    ensures HoldsConfirmed(PatchPage(rows, p), id) <==> HoldsConfirmed(rows, id)
  {
    var r := PatchPage(rows, p);
    forall i | 0 <= i < |rows| ensures r[i].id == rows[i].id && r[i].Confirmed() == rows[i].Confirmed() {
      PatchKeeps(rows[i], p);
    }
    if HoldsConfirmed(rows, id) {
      var m :| m in rows && m.id == id && m.Confirmed();
      var i :| 0 <= i < |rows| && rows[i] == m;
      assert r[i] in r;
    }
    if HoldsConfirmed(r, id) {
      var m :| m in r && m.id == id && m.Confirmed();
      var i :| 0 <= i < |rows| && r[i] == m;
      assert rows[i] in rows;
    }
  }

  /** The same messages, by the same authors, created at the same times. */
  predicate SameStamps(s: Server, s': Server) {
    && s'.messages.Keys == s.messages.Keys
    && forall id | id in s.messages ::
         s'.messages[id].author == s.messages[id].author && s'.messages[id].createdAt == s.messages[id].createdAt
  }

  /** A patch that carries mirrored rows of `s` to mirrored rows of `s'` keeps the simulation. */
  lemma PatchSim(w: World, p: Patch, s': Server, nonces: set<MessageId>, g: Gaps)
    requires Sim(w, nonces, g) && ServerOk(s') && SameStamps(w.server, s')
    requires forall m | Mirrors(w.server, m) && m.Confirmed() :: Mirrors(s', PatchRow(m, p))
    ensures Sim(World(s', PatchPages(w.pages, p)), nonces, g)
  {
    PatchFlattens(w.pages, p);
    var rows := Flatten(w.pages);
    forall m | m in PatchPage(rows, p)
      ensures RowDisciplined(m, nonces)
      ensures m.Confirmed() ==> Identifies(s', m) && (m.id !in g.stale ==> Mirrors(s', m))
    {
      var i :| 0 <= i < |rows| && PatchRow(rows[i], p) == m;
      PatchKeeps(rows[i], p);
      assert rows[i] in rows && RowDisciplined(rows[i], nonces);
    }
    forall id | id in s'.messages ensures HoldsConfirmed(PatchPage(rows, p), id) <==> HoldsConfirmed(rows, id) {
      PatchHolds(rows, p, id);
    }
  }

  lemma StatusPatchSim(w: World, p: Patch, nonces: set<MessageId>, g: Gaps)
    requires Sim(w, nonces, g) && (p.Fail? || p.Resend?)
    ensures Sim(World(w.server, PatchPages(w.pages, p)), nonces, g)
  {
    PatchSim(w, p, w.server, nonces, g);
  }

  lemma {:induction false} ReadersAppend(receipts: seq<ReadRow>, r: ReadRow, id: MessageId)
    ensures Readers(receipts + [r], id) == Readers(receipts, id) + if r.message == id then [r.user] else []
  {
    assert (receipts + [r])[..|receipts|] == receipts;
  }

  lemma {:induction false} InReaders(receipts: seq<ReadRow>, r: ReadRow)
    ensures r.user in Readers(receipts, r.message) <==> r in receipts
  {
    if receipts != [] {
      var n := |receipts| - 1;
      assert receipts == receipts[..n] + [receipts[n]];
      InReaders(receipts[..n], r);
    }
  }

  lemma {:induction false} ToggleRows(table: ReactionTable, row: ReactionRow)
    ensures forall r :: r in RemoveRow(table, row) <==> r in table && r != row
  {
    if table != [] {
      ToggleRows(table[1..], row);
      assert table == [table[0]] + table[1..];
    }
  }

  /** What a change and its event have in common: the patch carries the row the server served before to
      the row it serves now. */
  ghost predicate Tracks(s: Server, s': Server, p: Patch) {
    && ServerOk(s') && SameStamps(s, s')
    && forall m | Mirrors(s, m) && m.Confirmed() :: Mirrors(s', PatchRow(m, p))
  }

  lemma ReadTracks(s: Server, id: MessageId, user: UserId)
    requires ServerOk(s) && Live(s, id) && ReadRow(id, user) !in s.receipts
    ensures Tracks(s, s.(receipts := s.receipts + [ReadRow(id, user)]), Read(id, user))
  {
    var r := ReadRow(id, user);
    var s' := s.(receipts := s.receipts + [r]);
    InReaders(s.receipts, r);
    forall m | Mirrors(s, m) && m.Confirmed() ensures Mirrors(s', PatchRow(m, Read(id, user))) {
      ReadersAppend(s.receipts, r, m.id);
    }
  }

  lemma ReactTracks(s: Server, row: ReactionRow)
    requires ServerOk(s) && Live(s, row.message)
    ensures Tracks(s, s.(reactions := Toggle(s.reactions, row)),
                   React(row.message, row.user, row.emoji, ToggleAction(s.reactions, row)))
  {
    var table := s.reactions;
    var p := React(row.message, row.user, row.emoji, ToggleAction(table, row));
    var s' := s.(reactions := Toggle(table, row));
    ToggleRows(table, row);
    forall m | Mirrors(s, m) && m.Confirmed() ensures Mirrors(s', PatchRow(m, p)) {
      if m.id == row.message {
        ToggleAgrees(m.reactions, table, row);
      } else {
        ToggleElsewhere(m.reactions, table, row, m.id);
      }
    }
  }

  lemma TextTracks(s: Server, req: Request)
    requires ServerOk(s) && (req.EditText? || req.SoftDelete?) && Commit(s, req).1.Changed?
    ensures Tracks(s, Commit(s, req).0, Commit(s, req).1.patch)
  {
    assert Commit(s, req).0.messages.Keys == s.messages.Keys;
  }

  lemma ChangeTracks(s: Server, req: Request)
    requires ServerOk(s) && Commit(s, req).1.Changed?
    ensures Tracks(s, Commit(s, req).0, Commit(s, req).1.patch)
  {
    match req {
      case MarkRead(id, user) => ReadTracks(s, id, user);
      case ToggleEmoji(id, user, emoji) => ReactTracks(s, ReactionRow(id, user, emoji));
      case _ => TextTracks(s, req);
    }
  }

  lemma ChangeSim(w: World, req: Request, me: UserId, nonces: set<MessageId>, g: Gaps)
    requires Sim(w, nonces, g) && Commit(w.server, req).1.Changed?
    ensures Sim(Next(w, Deliver(req), me), nonces, g)
  {
    var (s', event) := Commit(w.server, req);
    ChangeTracks(w.server, req);
    PatchSim(w, event.patch, s', nonces, g);
  }

  lemma DeliverSim(w: World, req: Request, me: UserId, nonces: set<MessageId>, g: Gaps)
    requires Sim(w, nonces, g) && Fresh(w, Deliver(req), nonces)
    ensures Sim(Next(w, Deliver(req), me), nonces, GapsNext(g, w, Deliver(req)))
  {
    var event := Commit(w.server, req).1;
    match req {
      case Insert(id, author, content, at, clientId) => ArrivalSim(w, id, author, content, at, clientId, me, nonces, g);
      case RestInsert(id, author, content, at, key, here) =>
        if here {
          ArrivalSim(w, id, author, content, at, Some(key), me, nonces, g);
        } else {
          UnannouncedSim(w, id, author, content, at, nonces, g);
        }
      case _ =>
        if event.Changed? {
          ChangeSim(w, req, me, nonces, g);
        }
    }
  }

  /** A missed event leaves every row but the changed one as good as before. */
  lemma MissSim(w: World, req: Request, me: UserId, nonces: set<MessageId>, g: Gaps)
    requires Sim(w, nonces, g) && Fresh(w, Miss(req), nonces)
    ensures Sim(Next(w, Miss(req), me), nonces, GapsNext(g, w, Miss(req)))
  {
    var (s', event) := Commit(w.server, req);
    if IsInsert(req) {
      UnannouncedSim(w, req.id, req.author, req.content, req.at, nonces, g);
    } else if event.Changed? {
      var p, g' := event.patch, GapsNext(g, w, Miss(req));
      ChangeTracks(w.server, req);
      forall m | m in Flatten(w.pages) && m.Confirmed() ensures Identifies(s', m)
          && (m.id !in g'.stale ==> Mirrors(s', m)) {
        assert m.id == p.id ==> HoldsConfirmed(Flatten(w.pages), p.id);
        assert m.id != p.id ==> PatchRow(m, p) == m;
      }
    }
  }

  // ---- every step, every run ----

  lemma StepSim(w: World, step: Step, me: UserId, nonces: set<MessageId>, g: Gaps)
    requires Sim(w, nonces, g) && Fresh(w, step, nonces)
    ensures Sim(Next(w, step, me), nonces, GapsNext(g, w, step))
  {
    match step {
      case Deliver(req) => DeliverSim(w, req, me, nonces, g);
      case Miss(req) => MissSim(w, req, me, nonces, g);
      case Resync(page) => ResyncSim(w, page, me, nonces, g);
      case SendBubble(nonce, content, at) => BubbleSim(w, nonce, content, at, me, nonces, g);
      case AckTimeout(nonce) => StatusPatchSim(w, Fail(nonce), nonces, g);
      case Retry(nonce) => StatusPatchSim(w, Resend(nonce), nonces, g);
    }
  }

  lemma FreshPrefix(w: World, steps: seq<Step>, me: UserId, nonces: set<MessageId>)
    requires FreshRun(w, steps, me, nonces) && steps != []
    ensures FreshRun(w, steps[..|steps| - 1], me, nonces)
  {
    var n := |steps| - 1;
    forall i | 0 <= i < n ensures Fresh(Run(w, steps[..n][..i], me), steps[..n][i], nonces) {
      assert steps[..n][..i] == steps[..i];
    }
  }

  /** Whatever the run, with its missed events and late resyncs: every server row in the cache whose
      message is not stale is the masked server row, and the cache lacks exactly the unseen messages. */
  lemma {:induction false} CacheSimulatesServer(w: World, steps: seq<Step>, me: UserId, nonces: set<MessageId>, g: Gaps)
    requires Sim(w, nonces, g) && FreshRun(w, steps, me, nonces)
    ensures Sim(Run(w, steps, me), nonces, GapsAfter(g, w, steps, me))
  {
    if steps != [] {
      var n := |steps| - 1;
      FreshPrefix(w, steps, me, nonces);
      CacheSimulatesServer(w, steps[..n], me, nonces, g);
      StepSim(Run(w, steps[..n], me), steps[n], me, nonces, GapsAfter(g, w, steps[..n], me));
    }
  }

  /** The message was sent over REST by another client. */
  predicate SentElsewhere(steps: seq<Step>, id: MessageId) {
    exists i | 0 <= i < |steps| ::
      steps[i].Deliver? && steps[i].req.RestInsert? && !steps[i].req.here && steps[i].req.id == id
  }

  predicate Connected(steps: seq<Step>) {
    forall step | step in steps :: !step.Miss? && !step.Resync?
  }

  lemma SentElsewhereUnfold(steps: seq<Step>, id: MessageId)
    requires steps != []
    ensures var front, last := steps[..|steps| - 1], steps[|steps| - 1];
            SentElsewhere(steps, id) <==>
            SentElsewhere(front, id) || (last.Deliver? && last.req.RestInsert? && !last.req.here && last.req.id == id)
  {
    var n := |steps| - 1;
    assert forall i | 0 <= i < n :: steps[..n][i] == steps[i];
  }

  /** With the connection up throughout, nothing becomes stale and the only messages that become missing are
      those sent over REST elsewhere. */
  lemma {:induction false} ConnectedStaysCurrent(w: World, steps: seq<Step>, me: UserId, g: Gaps)
    requires Connected(steps)
    ensures GapsAfter(g, w, steps, me).stale == g.stale
    ensures forall id :: id in GapsAfter(g, w, steps, me).unseen <==> id in g.unseen || SentElsewhere(steps, id)
  {
    if steps != [] {
      var front, last := steps[..|steps| - 1], steps[|steps| - 1];
      ConnectedStaysCurrent(w, front, me, g);
      forall id ensures id in GapsAfter(g, w, steps, me).unseen <==> id in g.unseen || SentElsewhere(steps, id) {
        SentElsewhereUnfold(steps, id);
      }
    }
  }

  /** A list that shows the user what the server holds: strictly sorted by (time, id), each message that is
      not missing exactly once and no missing one, every current row the server's and every other row of
      the list stale or a local bubble. */
  ghost predicate ShowsServer(server: Server, nonces: set<MessageId>, g: Gaps, shown: Page) {
    && StrictlySorted(shown) && UniqueIds(shown)
    && AllMirror(server, shown, g.stale)
    && Disciplined(shown, nonces)
    && Complete(server, shown, g.unseen)
  }

  /** What the user sees after any run is what the server holds, but for what was missed. */
  lemma RenderedIsServer(w: World, steps: seq<Step>, me: UserId, nonces: set<MessageId>, g: Gaps)
    requires Sim(w, nonces, g) && FreshRun(w, steps, me, nonces)
    ensures var end := Run(w, steps, me);
            forall shown | IsRendering(Flatten(end.pages), shown) ::
              ShowsServer(end.server, nonces, GapsAfter(g, w, steps, me), shown)
  {
    CacheSimulatesServer(w, steps, me, nonces, g);
    var end := Run(w, steps, me);
    forall shown | IsRendering(Flatten(end.pages), shown)
      ensures ShowsServer(end.server, nonces, GapsAfter(g, w, steps, me), shown)
    {
      RenderingFaithful(Flatten(end.pages), shown);
      forall m | m in shown ensures m in Flatten(end.pages) {
        assert Shown(Flatten(end.pages), m);
      }
    }
  }
}
