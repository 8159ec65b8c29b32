/** When a cached row falls behind the server, and that nothing short of a refetch brings it back:
    `resyncRoom` (frontend/hooks/useWebSocket.tsx:129-157) merges under rule (b), which never replaces a
    server row. */
module Staleness {
  import opened ChatTypes
  import opened MessageCache
  import opened MergeSafety
  import opened Reactions
  import opened Rendering
  import opened Simulation
  import opened Pagination

  // ---- one message on the server, over a run ----

  /** The clock moves on between two edits of a message. */
  predicate Ticks(s: Server, req: Request) {
    req.EditText? && Live(s, req.id) && s.messages[req.id].editedAt.Some? ==> s.messages[req.id].editedAt.value < req.at
  }

  predicate TickingStep(w: World, step: Step) {
    (step.Deliver? ==> Ticks(w.server, step.req)) && (step.Miss? ==> Ticks(w.server, step.req))
  }

  predicate TickingRun(w: World, steps: seq<Step>, me: UserId) {
    forall i | 0 <= i < |steps| :: TickingStep(Run(w, steps[..i], me), steps[i])
  }

  /** An edit, a delete or a first read of the message is committed. */
  predicate Alters(s: Server, req: Request, id: MessageId) {
    Touches(s, req, id) && !req.ToggleEmoji?
  }

  predicate AltersStep(w: World, step: Step, id: MessageId) {
    (step.Deliver? || step.Miss?) && Alters(w.server, step.req, id)
  }

  /** The commit log of the run has such a commit, heard by this client or not. */
  predicate Altered(w: World, steps: seq<Step>, me: UserId, id: MessageId) {
    exists i | 0 <= i < |steps| :: AltersStep(Run(w, steps[..i], me), steps[i], id)
  }

  lemma AlteredUnfold(w: World, steps: seq<Step>, me: UserId, id: MessageId)
    requires steps != []
    ensures var front := steps[..|steps| - 1];
            Altered(w, steps, me, id) <==>
            Altered(w, front, me, id) || AltersStep(Run(w, front, me), steps[|steps| - 1], id)
  {
    var n := |steps| - 1;
    var front := steps[..n];
    assert forall i | 0 <= i <= n :: front[..i] == steps[..i];
    if Altered(w, steps, me, id) {
      var i :| 0 <= i < |steps| && AltersStep(Run(w, steps[..i], me), steps[i], id);
      assert i < n ==> AltersStep(Run(w, front[..i], me), front[i], id);
    }
    if Altered(w, front, me, id) {
      var i :| 0 <= i < n && AltersStep(Run(w, front[..i], me), front[i], id);
      assert AltersStep(Run(w, steps[..i], me), steps[i], id);
    }
  }

  predicate Later(a: Option<Time>, b: Option<Time>) {
    b.Some? && (a.None? || a.value < b.value)
  }

  /** Between two moments the message is the same but for toggles, or it has moved on for good. */
  predicate SameText(s: Server, s': Server, id: MessageId)
    requires id in s.messages && id in s'.messages
  {
    s'.messages[id] == s.messages[id] && Readers(s'.receipts, id) == Readers(s.receipts, id)
  }

  predicate MovedOn(s: Server, s': Server, id: MessageId)
    requires id in s.messages && id in s'.messages
  {
    || Later(s.messages[id].editedAt, s'.messages[id].editedAt)
    || (s.messages[id].deletedAt.None? && s'.messages[id].deletedAt.Some?)
    || |Readers(s.receipts, id)| < |Readers(s'.receipts, id)|
  }

  /** Edit times, deletion and readers only ever move forward. */
  predicate Onward(s: Server, s': Server, id: MessageId)
    requires id in s.messages && id in s'.messages
  {
    && s'.messages[id].author == s.messages[id].author && s'.messages[id].createdAt == s.messages[id].createdAt
    && (s'.messages[id].editedAt == s.messages[id].editedAt || Later(s.messages[id].editedAt, s'.messages[id].editedAt))
    && (s.messages[id].deletedAt.Some? ==> s'.messages[id].deletedAt.Some?)
    && |Readers(s.receipts, id)| <= |Readers(s'.receipts, id)|
  }

  lemma CommitMoves(s: Server, req: Request, nonces: set<MessageId>, id: MessageId)
    requires id in s.messages && FreshRequest(s, req, nonces) && Ticks(s, req)
    ensures var s' := Commit(s, req).0;
            && id in s'.messages && Onward(s, s', id)
            && (if Alters(s, req, id) then MovedOn(s, s', id) else SameText(s, s', id))
  {
    if req.MarkRead? {
      ReadersAppend(s.receipts, ReadRow(req.id, req.user), id);
    }
  }

  lemma StepMoves(w: World, step: Step, me: UserId, nonces: set<MessageId>, id: MessageId)
    requires id in w.server.messages && Fresh(w, step, nonces) && TickingStep(w, step)
    ensures var s' := Next(w, step, me).server;
            && id in s'.messages && Onward(w.server, s', id)
            && (if AltersStep(w, step, id) then MovedOn(w.server, s', id) else SameText(w.server, s', id))
  {
    if step.Deliver? || step.Miss? {
      CommitMoves(w.server, step.req, nonces, id);
    }
  }

  lemma TickingPrefix(w: World, steps: seq<Step>, me: UserId)
    requires TickingRun(w, steps, me) && steps != []
    ensures TickingRun(w, steps[..|steps| - 1], me)
  {
    var n := |steps| - 1;
    forall i | 0 <= i < n ensures TickingStep(Run(w, steps[..n][..i], me), steps[..n][i]) {
      assert steps[..n][..i] == steps[..i];
    }
  }

  lemma MovesCompose(a: Server, b: Server, c: Server, id: MessageId, first: bool, second: bool)
    requires id in a.messages && id in b.messages && id in c.messages && Onward(a, b, id) && Onward(b, c, id)
    requires if first then MovedOn(a, b, id) else SameText(a, b, id)
    requires if second then MovedOn(b, c, id) else SameText(b, c, id)
    ensures Onward(a, c, id) && if first || second then MovedOn(a, c, id) else SameText(a, c, id)
  {}

  /** Over a run the message has moved on exactly when the log altered it. */
  lemma {:induction false} RunMoves(w: World, steps: seq<Step>, me: UserId, nonces: set<MessageId>, id: MessageId)
    requires FreshRun(w, steps, me, nonces) && TickingRun(w, steps, me) && id in w.server.messages
    ensures var s' := Run(w, steps, me).server;
            && id in s'.messages && Onward(w.server, s', id)
            && (if Altered(w, steps, me, id) then MovedOn(w.server, s', id) else SameText(w.server, s', id))
  {
    if steps != [] {
      var front, last := steps[..|steps| - 1], steps[|steps| - 1];
      var mid := Run(w, front, me);
      FreshPrefix(w, steps, me, nonces);
      TickingPrefix(w, steps, me);
      RunMoves(w, front, me, nonces, id);
      StepMoves(mid, last, me, nonces, id);
      AlteredUnfold(w, steps, me, id);
      MovesCompose(w.server, mid.server, Next(mid, last, me).server, id, Altered(w, front, me, id),
          AltersStep(mid, last, id));
    }
  }

  // ---- merging late ----

  lemma {:induction false} RunSplit(w: World, first: seq<Step>, more: seq<Step>, me: UserId)
    ensures Run(w, first + more, me) == Run(Run(w, first, me), more, me)
  {
    if more == [] {
      assert first + more == first;
    } else {
      var n := |more| - 1;
      assert (first + more)[..|first + more| - 1] == first + more[..n];
      RunSplit(w, first, more[..n], me);
    }
  }

  lemma SuffixAt(w: World, steps: seq<Step>, t: nat, i: nat, me: UserId)
    requires t + i <= |steps|
    ensures Run(Run(w, steps[..t], me), steps[t..][..i], me) == Run(w, steps[..t + i], me)
  {
    RunSplit(w, steps[..t], steps[t..][..i], me);
    SliceJoin(steps, t, i);
  }

  lemma SliceJoin<T>(s: seq<T>, t: nat, i: nat)
    requires t + i <= |s|
    ensures s[..t] + s[t..][..i] == s[..t + i]
  {
    var joined := s[..t] + s[t..][..i];
    assert |joined| == t + i;
    assert forall k | 0 <= k < t + i :: joined[k] == s[k];
  }

  /** The rest of a run is a run. */
  lemma SuffixFresh(w: World, steps: seq<Step>, t: nat, me: UserId, nonces: set<MessageId>)
    requires t <= |steps| && FreshRun(w, steps, me, nonces)
    ensures FreshRun(Run(w, steps[..t], me), steps[t..], me, nonces)
  {
    var mid, rest := Run(w, steps[..t], me), steps[t..];
    forall i | 0 <= i < |rest| ensures Fresh(Run(mid, rest[..i], me), rest[i], nonces) {
      SuffixAt(w, steps, t, i, me);
      assert rest[i] == steps[t + i] && Fresh(Run(w, steps[..t + i], me), steps[t + i], nonces);
    }
  }

  lemma SuffixTicking(w: World, steps: seq<Step>, t: nat, me: UserId)
    requires t <= |steps| && TickingRun(w, steps, me)
    ensures TickingRun(Run(w, steps[..t], me), steps[t..], me)
  {
    var mid, rest := Run(w, steps[..t], me), steps[t..];
    forall i | 0 <= i < |rest| ensures TickingStep(Run(mid, rest[..i], me), rest[i]) {
      SuffixAt(w, steps, t, i, me);
      assert rest[i] == steps[t + i] && TickingStep(Run(w, steps[..t + i], me), steps[t + i]);
    }
  }

  lemma SuffixEnds(w: World, steps: seq<Step>, t: nat, me: UserId)
    requires t <= |steps|
    ensures Run(Run(w, steps[..t], me), steps[t..], me) == Run(w, steps, me)
  {
    RunSplit(w, steps[..t], steps[t..], me);
    assert steps[..t] + steps[t..] == steps;
  }

  /** Since moment `t` of the run, nothing but toggles that cancelled out was committed on the message. */
  ghost predicate Unchanged(w: World, steps: seq<Step>, t: nat, me: UserId, id: MessageId)
    requires t <= |steps|
  {
    var mid := Run(w, steps[..t], me);
    && !Altered(mid, steps[t..], me, id)
    && forall e :: Reactors(Run(w, steps, me).server.reactions, id, e) == Reactors(mid.server.reactions, id, e)
  }

  /** A row fetched at moment `t` is still the server's at the end exactly when its message was unchanged. */
  lemma FetchedRowKeeps(w: World, steps: seq<Step>, t: nat, me: UserId, nonces: set<MessageId>, m: ChatMessage)
    requires t <= |steps| && FreshRun(w, steps, me, nonces) && TickingRun(w, steps, me)
    requires Mirrors(Run(w, steps[..t], me).server, m)
    ensures Identifies(Run(w, steps, me).server, m)
    ensures Mirrors(Run(w, steps, me).server, m) <==> Unchanged(w, steps, t, me, m.id)
  {
    SuffixFresh(w, steps, t, me, nonces);
    SuffixTicking(w, steps, t, me);
    SuffixEnds(w, steps, t, me);
    RunMoves(Run(w, steps[..t], me), steps[t..], me, nonces, m.id);
  }

  predicate DistinctIds(page: Page) {
    forall a, b | a in page && b in page && a.id == b.id :: a == b
  }

  /** Each row was fetched at its own moment of the run: the pages of one resync are. */
  ghost predicate FetchedDuring(w: World, page: Page, moments: seq<nat>, steps: seq<Step>, me: UserId) {
    && |moments| == |page|
    && forall i | 0 <= i < |page| ::
         moments[i] <= |steps| && page[i].Confirmed() && Mirrors(Run(w, steps[..moments[i]], me).server, page[i])
  }

  /** Fetching and merging are separate moments. Rows fetched along a run and merged at its end make nothing
      stale that was not, exactly when each of them is held by then (rule (b) ignores it), counts as stale
      already, or was unchanged on the server since it was fetched. */
  lemma LateMergeExactlyWhen(w: World, page: Page, moments: seq<nat>, steps: seq<Step>, me: UserId,
                             nonces: set<MessageId>, g: Gaps)
    requires FreshRun(w, steps, me, nonces) && TickingRun(w, steps, me)
    requires FetchedDuring(w, page, moments, steps, me) && DistinctIds(page)
    requires Sim(Run(w, steps, me), nonces, g)
    ensures var end := Run(w, steps, me);
            Sim(Next(end, Resync(page), me), nonces, Gaps(g.unseen - Ids(page), g.stale)) <==>
            forall i | 0 <= i < |page| ::
              HoldsConfirmed(Flatten(end.pages), page[i].id) || page[i].id in g.stale
                  || Unchanged(w, steps, moments[i], me, page[i].id)
  {
    var end := Run(w, steps, me);
    forall i | 0 <= i < |page|
      ensures Identifies(end.server, page[i])
      ensures Mirrors(end.server, page[i]) <==> Unchanged(w, steps, moments[i], me, page[i].id)
    {
      FetchedRowKeeps(w, steps, moments[i], me, nonces, page[i]);
    }
    MergedStale(end, page, me, nonces, g);
  }

  /** Merging a page makes nothing more stale exactly when each row was held, was stale or is current. */
  lemma MergedStale(w: World, page: Page, me: UserId, nonces: set<MessageId>, g: Gaps)
    requires Sim(w, nonces, g) && DistinctIds(page)
    requires forall m | m in page :: m.Confirmed() && Identifies(w.server, m)
    ensures Sim(Next(w, Resync(page), me), nonces, Gaps(g.unseen - Ids(page), g.stale)) <==>
            forall i | 0 <= i < |page| ::
              HoldsConfirmed(Flatten(w.pages), page[i].id) || page[i].id in g.stale || Mirrors(w.server, page[i])
  {
    var g' := GapsNext(g, w, Resync(page));
    ResyncSim(w, page, me, nonces, g);
    if i: nat :| (i < |page| && !HoldsConfirmed(Flatten(w.pages), page[i].id) && page[i].id !in g.stale
                  && !Mirrors(w.server, page[i])) {
      var held := MergedRow(w, page, me, nonces, page[i]);
    } else {
      assert g.unseen * Outdated(w.server, page) <= g.stale;
      assert g'.stale == g.stale;
    }
  }

  lemma MergedRow(w: World, page: Page, me: UserId, nonces: set<MessageId>, m: ChatMessage) returns (held: ChatMessage)
    requires Disciplined(Flatten(w.pages), nonces) && w.server.messages.Keys !! nonces && DistinctIds(page)
    requires forall x | x in page :: x.Confirmed() && Identifies(w.server, x)
    requires m in page && !HoldsConfirmed(Flatten(w.pages), m.id)
    ensures held == m && held in Flatten(Next(w, Resync(page), me).pages)
  {
    var rows, batch := Flatten(w.pages), ToIncoming(page);
    assert forall inc | inc in batch :: inc.message in page;
    ApplyAllFlattens(w.pages, batch, me);
    MergeAllSafe(rows, batch, me, nonces);
    ArrivesWithPage(page, m.id);
    held :| held in MergeAll(rows, batch, me) && held.id == m.id && held.Confirmed();
    assert held in page;
  }

  function TwoMessages(me: UserId): Server {
    Server(map[0 := MessageRow(me, 1, "a", None, None), 1 := MessageRow(me, 2, "m", None, None)], [], [])
  }

  /** Its author deletes the newer of the two, in or out of this client's hearing. */
  function DeleteNewer(me: UserId, heard: bool): Step {
    if heard then Deliver(SoftDelete(me, false, 1, 3)) else Miss(SoftDelete(me, false, 1, 3))
  }

  lemma WitnessStart(a: ChatMessage, m: ChatMessage, me: UserId)
    requires a == LiveMessage(0, me, "a", 1) && m == LiveMessage(1, me, "m", 2)
    ensures Mirrors(TwoMessages(me), a) && Mirrors(TwoMessages(me), m)
    ensures Sim(World(TwoMessages(me), [[a]]), {}, Gaps({1}, {}))
  {
    var held: seq<Page> := [[a]];
    assert held[1..] == [] && Flatten(held[1..]) == [] && Flatten(held) == [a];
    assert TwoMessages(me).messages.Keys - Ids([a]) == {1};
    SnapshotSimulates(TwoMessages(me), held, {});
  }

  lemma WitnessDelete(a: ChatMessage, me: UserId, heard: bool)
    requires a == LiveMessage(0, me, "a", 1)
    ensures var w, steps := World(TwoMessages(me), [[a]]), [DeleteNewer(me, heard)];
            && FreshRun(w, steps, me, {}) && TickingRun(w, steps, me)
            && Run(w, steps, me) == Next(w, steps[0], me)
            && Run(w, steps, me).pages == [[a]] && !Live(Run(w, steps, me).server, 1)
  {
    var held: seq<Page> := [[a]];
    var w, steps := World(TwoMessages(me), held), [DeleteNewer(me, heard)];
    assert held[1..] == [] && Flatten(held[1..]) == [] && Flatten(held) == [a];
    assert steps[..0] == [] && Run(w, [], me) == w;
    HeardInVain(held);
  }

  /** Such runs exist. The cache holds `a`, its anchor, and lacks the newer `m`; a resync fetches both; `m` is
      deleted, and the event, heard or not, finds no row to change; merged afterwards, the page shows the
      deleted text. */
  lemma LateMergeWitness(a: ChatMessage, m: ChatMessage, me: UserId, heard: bool)
    requires a == LiveMessage(0, me, "a", 1) && m == LiveMessage(1, me, "m", 2)
    ensures IsTable([a, m]) && Mirrors(TwoMessages(me), a) && Mirrors(TwoMessages(me), m)
    ensures ListRoomMessages([a, m], PAGE_SIZE, None) == [m, a]
    ensures var w, steps := World(TwoMessages(me), [[a]]), [DeleteNewer(me, heard)];
            var end := Run(w, steps, me);
            && FreshRun(w, steps, me, {}) && TickingRun(w, steps, me) && Sim(w, {}, Gaps({1}, {}))
            && end.pages == [[a]] && Sim(end, {}, Gaps({1}, {}))
            && Next(end, Resync([m, a]), me).pages == [[m, a]] && !Live(end.server, 1)
            && !Sim(Next(end, Resync([m, a]), me), {}, Gaps({}, {}))
  {
    WitnessStart(a, m, me);
    WitnessDelete(a, me, heard);
    StepSim(World(TwoMessages(me), [[a]]), DeleteNewer(me, heard), me, {}, Gaps({1}, {}));
    MergeTwo(a, m, me);
    assert Reverse([a, m]) == [m, a] && [a, m][0..2] == [a, m];
    ShowsDeleted(Next(Run(World(TwoMessages(me), [[a]]), [DeleteNewer(me, heard)], me), Resync([m, a]), me), m, a);
  }

  /** A cache with an undeleted copy of a deleted message is out of step. */
  lemma ShowsDeleted(w: World, m: ChatMessage, a: ChatMessage)
    requires w.pages == [[m, a]] && m.Confirmed() && m.deletedAt.None? && !Live(w.server, m.id)
    ensures !Sim(w, {}, Gaps({}, {}))
  {
    assert w.pages[1..] == [] && Flatten(w.pages[1..]) == [] && Flatten(w.pages) == [m, a] && m in [m, a];
    assert !Mirrors(w.server, m);
  }

  lemma HeardInVain(held: seq<Page>)
    requires |held| == 1 && Flatten(held) == held[0] && forall m | m in held[0] :: m.id != 1
    ensures PatchPages(held, Delete(1, 3)) == held
  {
    assert PatchPage(held[0], Delete(1, 3)) == held[0];
  }

  lemma MergeTwo(a: ChatMessage, m: ChatMessage, me: UserId)
    requires a.Confirmed() && m.Confirmed() && a.id != m.id
    ensures ApplyAll([[a]], ToIncoming([m, a]), me) == [[m, a]]
  {
    var batch, held: seq<Page> := ToIncoming([m, a]), [[a]];
    assert batch == [Incoming(m, None), Incoming(a, None)];
    assert batch[..1] == [Incoming(m, None)] && batch[..1][..0] == [];
    assert held[1..] == [] && Flatten(held[1..]) == [] && Flatten(held) == [a];
    assert ReplaceFirst(held, Bubble(m.content), m).None?;
    assert [m] + held[0] == [m, a];
    var both: seq<Page> := [[m, a]];
    assert ApplyOne(held, batch[0], me) == both;
    assert both[1..] == [] && Flatten(both) == [m, a] && a in [m, a];
    assert ApplyAll(held, batch[..1], me) == ApplyOne(ApplyAll(held, batch[..1][..0], me), batch[0], me);
    assert ApplyAll(held, batch, me) == ApplyOne(ApplyAll(held, batch[..1], me), batch[1], me);
  }

  // ---- missed events ----

  lemma ToggleShows(table: ReactionTable, row: ReactionRow)
    ensures Reactors(Toggle(table, row), row.message, row.emoji) != Reactors(table, row.message, row.emoji)
  {
    InReactors(table, row);
    InReactors(Toggle(table, row), row);
    ToggleRows(table, row);
  }

  /** A missed commit costs a cache that is in step exactly when it changes a message the cache holds. */
  lemma MissExactlyWhen(w: World, req: Request, me: UserId, nonces: set<MessageId>, unseen: set<MessageId>)
    requires Sim(w, nonces, Gaps(unseen, {})) && Fresh(w, Miss(req), nonces) && Ticks(w.server, req)
    ensures var g := GapsNext(Gaps(unseen, {}), w, Miss(req));
            Sim(Next(w, Miss(req), me), nonces, Gaps(g.unseen, {})) <==>
            !(Commit(w.server, req).1.Changed? && HoldsConfirmed(Flatten(w.pages), Commit(w.server, req).1.patch.id))
  {
    MissSim(w, req, me, nonces, Gaps(unseen, {}));
    var (s', event) := Commit(w.server, req);
    if event.Changed? && HoldsConfirmed(Flatten(w.pages), event.patch.id) {
      var m :| m in Flatten(w.pages) && m.id == event.patch.id && m.Confirmed();
      if req.ToggleEmoji? {
        ToggleShows(w.server.reactions, ReactionRow(req.id, req.user, req.emoji));
      } else {
        CommitMoves(w.server, req, nonces, m.id);
      }
      assert Mirrors(w.server, m) && !Mirrors(s', m);
    }
  }

  // ---- what stays wrong ----

  /** A resync repairs no row the cache already holds. */
  lemma ResyncRepairsNothing(w: World, page: Page, me: UserId, nonces: set<MessageId>, g: Gaps, m: ChatMessage)
    requires Sim(w, nonces, g) && Fresh(w, Resync(page), nonces)
    requires m.id in w.server.messages && m.id !in g.unseen
    ensures m in Flatten(Next(w, Resync(page), me).pages) <==> m in Flatten(w.pages)
  {
    var rows, batch := Flatten(w.pages), ToIncoming(page);
    assert forall inc | inc in batch :: inc.message in page && inc.clientId.None?;
    ApplyAllFlattens(w.pages, batch, me);
    MergeAllSafe(rows, batch, me, nonces);
    HeldAbsorbs(rows, batch, me, nonces, m.id);
    if m in rows {
      assert RowDisciplined(m, nonces);
    }
  }

  /** The server has deleted the message; every copy the cache holds still shows it. */
  ghost predicate Lingers(w: World, id: MessageId) {
    && id in w.server.messages && !Live(w.server, id)
    && HoldsConfirmed(Flatten(w.pages), id)
    && forall m | m in Flatten(w.pages) && m.id == id :: m.deletedAt.None?
  }

  lemma PatchLingers(w: World, p: Patch, s': Server, nonces: set<MessageId>, id: MessageId)
    requires Lingers(w, id) && Disciplined(Flatten(w.pages), nonces) && id !in nonces
    requires p.id != id || p.Fail? || p.Resend?
    requires id in s'.messages && !Live(s', id)
    ensures Lingers(World(s', PatchPages(w.pages, p)), id)
  {
    var rows := Flatten(w.pages);
    PatchFlattens(w.pages, p);
    var r := PatchPage(rows, p);
    forall m | m in r && m.id == id ensures m.deletedAt.None? {
      var i :| 0 <= i < |rows| && r[i] == m;
      assert rows[i] in rows;
    }
    var m :| m in rows && m.id == id && m.Confirmed();
    var i :| 0 <= i < |rows| && rows[i] == m;
    assert r[i] in r;
  }

  lemma MergeLingers(w: World, inc: Incoming, s': Server, me: UserId, nonces: set<MessageId>, id: MessageId)
    requires Lingers(w, id) && Disciplined(Flatten(w.pages), nonces) && IncDisciplined(inc, nonces)
    requires inc.message.id != id && id in s'.messages && !Live(s', id)
    ensures Lingers(World(s', ApplyOne(w.pages, inc, me)), id)
  {
    ApplyOneFlattens(w.pages, inc, me);
    MergeOneSafe(Flatten(w.pages), inc, me, nonces);
    KeptConfirmed(Flatten(w.pages), Flatten(ApplyOne(w.pages, inc, me)), id);
  }

  lemma KeptConfirmed(rows: Page, rows': Page, id: MessageId)
    requires HoldsConfirmed(rows, id)
    requires forall m | m in rows && m.Confirmed() :: m in rows'
    ensures HoldsConfirmed(rows', id)
  {
    var m :| m in rows && m.id == id && m.Confirmed();
    assert m in rows';
  }

  lemma ResyncLingers(w: World, page: Page, me: UserId, nonces: set<MessageId>, g: Gaps, id: MessageId)
    requires Lingers(w, id) && Sim(w, nonces, g) && Fresh(w, Resync(page), nonces)
    ensures Lingers(Next(w, Resync(page), me), id)
  {
    ResyncSim(w, page, me, nonces, g);
    forall m | m in Flatten(Next(w, Resync(page), me).pages) && m.id == id ensures m.deletedAt.None? {
      ResyncRepairsNothing(w, page, me, nonces, g, m);
    }
  }

  lemma DeliverLingers(w: World, req: Request, me: UserId, nonces: set<MessageId>, g: Gaps, id: MessageId)
    requires Lingers(w, id) && Sim(w, nonces, g) && Fresh(w, Deliver(req), nonces)
    ensures Lingers(Next(w, Deliver(req), me), id)
  {
    var (s', event) := Commit(w.server, req);
    assert id in s'.messages && !Live(s', id);
    match event {
      case Silent =>
      case New(inc) => MergeLingers(w, inc, s', me, nonces, id);
      case Changed(p) => PatchLingers(w, p, s', nonces, id);
    }
  }

  lemma StepLingers(w: World, step: Step, me: UserId, nonces: set<MessageId>, g: Gaps, id: MessageId)
    requires Lingers(w, id) && Sim(w, nonces, g) && Fresh(w, step, nonces)
    ensures Lingers(Next(w, step, me), id)
  {
    match step {
      case Deliver(req) => DeliverLingers(w, req, me, nonces, g, id);
      case Miss(req) =>
      case Resync(page) => ResyncLingers(w, page, me, nonces, g, id);
      case SendBubble(nonce, content, at) =>
        MergeLingers(w, Incoming(OwnBubble(nonce, me, content, at), None), w.server, me, nonces, id);
      case AckTimeout(nonce) => PatchLingers(w, Fail(nonce), w.server, nonces, id);
      case Retry(nonce) => PatchLingers(w, Resend(nonce), w.server, nonces, id);
    }
  }

  lemma {:induction false} RunLingers(w: World, steps: seq<Step>, me: UserId, nonces: set<MessageId>, g: Gaps,
                                      id: MessageId)
    requires Lingers(w, id) && Sim(w, nonces, g) && FreshRun(w, steps, me, nonces)
    ensures Lingers(Run(w, steps, me), id)
  {
    if steps != [] {
      var n := |steps| - 1;
      FreshPrefix(w, steps, me, nonces);
      RunLingers(w, steps[..n], me, nonces, g, id);
      CacheSimulatesServer(w, steps[..n], me, nonces, g);
      StepLingers(Run(w, steps[..n], me), steps[n], me, nonces, GapsAfter(g, w, steps[..n], me), id);
    }
  }

  /** A missed delete of a held message, or a late merge of its row, is how it comes to linger. */
  lemma MissedDeleteLingers(w: World, user: UserId, admin: bool, id: MessageId, at: Time, me: UserId,
                            nonces: set<MessageId>, unseen: set<MessageId>)
    requires Sim(w, nonces, Gaps(unseen, {})) && Live(w.server, id) && id !in unseen
    requires w.server.messages[id].author == user || admin
    ensures Lingers(Next(w, Miss(SoftDelete(user, admin, id, at)), me), id)
  {
    forall m | m in Flatten(w.pages) && m.id == id ensures m.deletedAt.None? {
      assert RowDisciplined(m, nonces);
    }
  }

  lemma LateMergeLingers(w: World, m: ChatMessage, me: UserId, nonces: set<MessageId>, g: Gaps)
    requires Sim(w, nonces, g) && m.Confirmed() && m.deletedAt.None?
    requires Identifies(w.server, m) && !Live(w.server, m.id) && m.id in g.unseen
    ensures Lingers(Next(w, Resync([m]), me), m.id)
  {
    var rows, batch := Flatten(w.pages), ToIncoming([m]);
    assert forall inc | inc in batch :: inc.message == m;
    ResyncSim(w, [m], me, nonces, g);
    ApplyAllFlattens(w.pages, batch, me);
    MergeAllSafe(rows, batch, me, nonces);
    assert m.id in Ids([m]);
    assert !HoldsConfirmed(rows, m.id);
    forall x | x in rows ensures x.id != m.id {
      assert RowDisciplined(x, nonces);
    }
  }

  predicate ShowsUndeleted(shown: Page, id: MessageId) {
    exists m | m in shown :: m.id == id && m.Confirmed() && m.deletedAt.None?
  }

  /** A deleted message the cache still shows stays on screen after every further run, whatever events
      arrive and however often the room is resynced. */
  lemma DeletedStaysVisible(w: World, steps: seq<Step>, me: UserId, nonces: set<MessageId>, g: Gaps, id: MessageId)
    requires Lingers(w, id) && Sim(w, nonces, g) && FreshRun(w, steps, me, nonces)
    ensures !Live(Run(w, steps, me).server, id)
    ensures forall shown | IsRendering(Flatten(Run(w, steps, me).pages), shown) :: ShowsUndeleted(shown, id)
  {
    RunLingers(w, steps, me, nonces, g, id);
    var rows := Flatten(Run(w, steps, me).pages);
    forall shown: Page | IsRendering(rows, shown) ensures ShowsUndeleted(shown, id) {
      RenderingFaithful(rows, shown);
      assert HoldsConfirmed(shown, id);
      var m :| m in shown && m.id == id && m.Confirmed();
      assert Shown(rows, m);
    }
  }
}
