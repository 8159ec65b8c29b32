/** What a resync can never bring back. `resyncRoom` (frontend/hooks/useWebSocket.tsx:129-157) anchors on the
    newest server row held and stops once it overlaps it: a message missed while newer ones arrived lies
    behind the anchor, and behind a full page of them it is out of reach for good. */
module Backfill {
  import opened ChatTypes
  import opened MessageCache
  import opened MergeSafety
  import opened Simulation
  import opened Pagination

  /** The room's messages as the server lists them. */
  ghost predicate Lists(s: Server, table: Page) {
    && IsTable(table)
    && (forall m | m in table :: Mirrors(s, m))
    && (forall id | id in s.messages :: Holds(table, id))
  }

  predicate NewerThan(s: Server, id: MessageId, k: MessageId) {
    id in s.messages && k in s.messages && Earlier(Key(s.messages[id].createdAt, id), Key(s.messages[k].createdAt, k))
  }

  function Newer(s: Server, id: MessageId): set<MessageId> {
    set k | k in s.messages && NewerThan(s, id, k)
  }

  /** No newer than some server row of the cache, hence than its newest. */
  predicate Overlapped(s: Server, rows: Page, k: MessageId) {
    k in s.messages && exists m | m in rows :: m.Confirmed() && s.messages[k].createdAt <= m.createdAt
  }

  function Above(w: World, id: MessageId): set<MessageId> {
    set k | k in Newer(w.server, id) && Overlapped(w.server, Flatten(w.pages), k)
  }

  /** At least a page of messages lie between `id` and the newest server row held. */
  predicate Buried(w: World, id: MessageId) {
    id in w.server.messages && |Above(w, id)| >= PAGE_SIZE
  }

  /** How that happens: a message is missed, and a page of newer ones is held. */
  lemma HeldPageBuries(w: World, nonces: set<MessageId>, g: Gaps, id: MessageId, held: set<MessageId>)
    requires Sim(w, nonces, g) && id in w.server.messages && |held| >= PAGE_SIZE
    requires forall k | k in held :: NewerThan(w.server, id, k) && k !in g.unseen
    ensures Buried(w, id)
  {
    forall k | k in held ensures k in Above(w, id) {
      assert HoldsConfirmed(Flatten(w.pages), k);
      var m :| m in Flatten(w.pages) && m.id == k && m.Confirmed();
      assert Identifies(w.server, m);
    }
    SubsetSize(held, Above(w, id));
  }

  // ---- one resync ----

  /** One resync: the step at which it started, what it fetched from, and its anchor. */
  datatype Call = Call(start: nat, fetch: Fetch, tables: nat -> Page, anchor: Time)

  /** The page merged is what the fetch loop collects, begun at `w` and served from tables that start as the
      server's then and grow. */
  ghost predicate Honest(w: World, call: Call, page: Page) {
    && Serves(call.fetch, call.tables, PAGE_SIZE)
    && Lists(w.server, call.tables(0))
    && IsAnchor(Flatten(w.pages), call.anchor)
    && page == Remaining(call.fetch, PAGE_SIZE, call.anchor, None, 0, MAX_RESYNC_PAGES).0
  }

  function IdsAt(keys: seq<Key>, xs: set<nat>): set<MessageId> {
    set x | x in xs && x < |keys| :: keys[x].id
  }

  /** A resync fetches exactly the messages at the positions its loop visits: `unseen` loses exactly those. */
  lemma FetchedIds(w: World, call: Call, page: Page)
    requires Honest(w, call, page)
    ensures var keys := Keys(call.tables(0));
            Ids(page) == IdsAt(keys, Visited(keys, PAGE_SIZE, |keys|, call.anchor, MAX_RESYNC_PAGES))
  {
    FetchedBack(call.fetch, call.tables, PAGE_SIZE, MAX_RESYNC_PAGES, call.anchor);
    var keys := Keys(call.tables(0));
    ShownIds(keys, Visited(keys, PAGE_SIZE, |keys|, call.anchor, MAX_RESYNC_PAGES), page);
  }

  lemma ShownIds(keys: seq<Key>, xs: set<nat>, page: Page)
    requires Shows(keys, xs, page)
    ensures Ids(page) == IdsAt(keys, xs)
  {
    forall id ensures id in Ids(page) <==> id in IdsAt(keys, xs) {
      if id in Ids(page) {
        var m :| m in page && m.id == id;
        assert KeyOf(m) in KeySet(page) && KeyOf(m) in KeysAt(keys, xs);
      }
      if id in IdsAt(keys, xs) {
        var x :| x in xs && x < |keys| && keys[x].id == id;
        assert keys[x] in KeysAt(keys, xs) && keys[x] in KeySet(page);
      }
    }
  }

  // ---- positions in the table ----

  lemma RowAt(s: Server, table: Page, x: nat)
    requires Lists(s, table) && x < |table|
    ensures var key := Keys(table)[x];
            key.id in s.messages && key == Key(s.messages[key.id].createdAt, key.id)
  {
    assert table[x] in table && Mirrors(s, table[x]);
  }

  lemma PositionOf(s: Server, table: Page, id: MessageId) returns (x: nat)
    requires Lists(s, table) && id in s.messages
    ensures x < |table| && Keys(table)[x] == Key(s.messages[id].createdAt, id)
  {
    var m :| m in table && m.id == id;
    x :| 0 <= x < |table| && table[x] == m;
    RowAt(s, table, x);
  }

  /** Ids are not repeated in the table. */
  lemma SamePosition(s: Server, table: Page, x: nat, y: nat)
    requires Lists(s, table) && x < |table| && y < |table| && Keys(table)[x].id == Keys(table)[y].id
    ensures x == y
  {
    RowAt(s, table, x);
    RowAt(s, table, y);
    var keys := Keys(table);
    assert x < y ==> Earlier(keys[x], keys[y]);
    assert y < x ==> Earlier(keys[y], keys[x]);
  }

  /** The messages newer than the one at `x` are those at the later positions. */
  lemma NewerIsLater(s: Server, table: Page, x: nat)
    requires Lists(s, table) && x < |table|
    ensures Newer(s, Keys(table)[x].id) == IdsAt(Keys(table), Span(x + 1, |table|))
  {
    var keys := Keys(table);
    RowAt(s, table, x);
    forall k ensures k in Newer(s, keys[x].id) <==> k in IdsAt(keys, Span(x + 1, |table|)) {
      if k in s.messages {
        var y := PositionOf(s, table, k);
        assert x < y ==> Earlier(keys[x], keys[y]);
        assert y < x ==> Earlier(keys[y], keys[x]);
        if k in IdsAt(keys, Span(x + 1, |table|)) {
          var z :| z in Span(x + 1, |table|) && z < |keys| && keys[z].id == k;
          SamePosition(s, table, y, z);
        }
      } else if k in IdsAt(keys, Span(x + 1, |table|)) {
        var z :| z in Span(x + 1, |table|) && z < |keys| && keys[z].id == k;
        RowAt(s, table, z);
      }
    }
  }

  predicate DistinctKeyIds(keys: seq<Key>) {
    forall i, j | 0 <= i < j < |keys| :: keys[i].id != keys[j].id
  }

  lemma TableIds(s: Server, table: Page)
    requires Lists(s, table)
    ensures DistinctKeyIds(Keys(table))
  {
    forall i, j | 0 <= i < j < |table| ensures Keys(table)[i].id != Keys(table)[j].id {
      if Keys(table)[i].id == Keys(table)[j].id {
        SamePosition(s, table, i, j);
      }
    }
  }

  lemma IdsAtMore(keys: seq<Key>, first: nat, end: nat)
    requires first < end <= |keys| && DistinctKeyIds(keys)
    ensures IdsAt(keys, Span(first, end)) == IdsAt(keys, Span(first, end - 1)) + {keys[end - 1].id}
    ensures keys[end - 1].id !in IdsAt(keys, Span(first, end - 1))
  {
    var all, rest := IdsAt(keys, Span(first, end)), IdsAt(keys, Span(first, end - 1));
    assert end - 1 in Span(first, end);
    forall id ensures id in all <==> id in rest || id == keys[end - 1].id {
      if id in all {
        var x :| x in Span(first, end) && x < |keys| && keys[x].id == id;
        assert x == end - 1 || x in Span(first, end - 1);
      }
    }
  }

  lemma OneIdMore(keys: seq<Key>, first: nat, end: nat)
    requires first < end <= |keys| && DistinctKeyIds(keys)
    ensures |IdsAt(keys, Span(first, end))| == |IdsAt(keys, Span(first, end - 1))| + 1
  {
    IdsAtMore(keys, first, end);
  }

  lemma NoIds(keys: seq<Key>, end: nat)
    ensures IdsAt(keys, Span(end, end)) == {}
  {
    assert Span(end, end) == {};
  }

  lemma {:induction false} IdsAtSize(keys: seq<Key>, first: nat, end: nat)
    requires first <= end <= |keys| && DistinctKeyIds(keys)
    ensures |IdsAt(keys, Span(first, end))| == end - first
    decreases end
  {
    if first < end {
      IdsAtSize(keys, first, end - 1);
      OneIdMore(keys, first, end);
    } else {
      NoIds(keys, end);
    }
  }

  /** Buried, as a position: a full page further on the table has still not passed the anchor. */
  lemma BuriedAt(w: World, table: Page, anchor: Time, id: MessageId, x: nat)
    requires Lists(w.server, table) && IsAnchor(Flatten(w.pages), anchor) && Buried(w, id)
    requires x < |table| && Keys(table)[x].id == id
    ensures x + PAGE_SIZE < |table| && Keys(table)[x + PAGE_SIZE].at <= anchor
  {
    var keys, above := Keys(table), Above(w, id);
    if x + PAGE_SIZE >= |table| || keys[x + PAGE_SIZE].at > anchor {
      var end := if x + PAGE_SIZE < |table| then x + PAGE_SIZE else |table|;
      NewerIsLater(w.server, table, x);
      forall k | k in above ensures k in IdsAt(keys, Span(x + 1, end)) {
        AboveIsBefore(w, table, anchor, x, end, k);
      }
      SubsetSize(above, IdsAt(keys, Span(x + 1, end)));
      TableIds(w.server, table);
      IdsAtSize(keys, x + 1, end);
    }
  }

  lemma AboveIsBefore(w: World, table: Page, anchor: Time, x: nat, end: nat, k: MessageId)
    requires Lists(w.server, table) && IsAnchor(Flatten(w.pages), anchor)
    requires x < end <= |table| && (end < |table| ==> Keys(table)[end].at > anchor)
    requires k in IdsAt(Keys(table), Span(x + 1, |table|)) && Overlapped(w.server, Flatten(w.pages), k)
    ensures k in IdsAt(Keys(table), Span(x + 1, end))
  {
    var keys := Keys(table);
    var y :| y in Span(x + 1, |table|) && y < |keys| && keys[y].id == k;
    RowAt(w.server, table, y);
    assert keys[y].at <= anchor;
    assert end < y ==> Earlier(keys[end], keys[y]);
  }

  /** No resync begun while a message is buried fetches it. */
  lemma BuriedNotFetched(w: World, call: Call, page: Page, id: MessageId)
    requires Honest(w, call, page) && Buried(w, id)
    ensures id !in Ids(page)
  {
    var table := call.tables(0);
    var keys := Keys(table);
    var x := PositionOf(w.server, table, id);
    BuriedAt(w, table, call.anchor, id, x);
    BuriedNotVisited(keys, PAGE_SIZE, |keys|, call.anchor, MAX_RESYNC_PAGES, x);
    FetchedIds(w, call, page);
    if id in Ids(page) {
      var y :| y in Visited(keys, PAGE_SIZE, |keys|, call.anchor, MAX_RESYNC_PAGES) && y < |keys| && keys[y].id == id;
      SamePosition(w.server, table, x, y);
    }
  }

  /** A cache that holds the newest message is repaired exactly as far as one page goes: a resync fetches a
      message exactly when it is not buried. */
  lemma UpToDateFetchesExactlyWhen(w: World, call: Call, page: Page, id: MessageId)
    requires Honest(w, call, page) && id in w.server.messages
    requires forall k | k in w.server.messages :: Overlapped(w.server, Flatten(w.pages), k)
    ensures id in Ids(page) <==> !Buried(w, id)
  {
    if Buried(w, id) {
      BuriedNotFetched(w, call, page, id);
    } else {
      LastPageFetched(w, call, page, id);
    }
  }

  lemma NearTheEnd(w: World, table: Page, id: MessageId, x: nat)
    requires Lists(w.server, table) && x < |table| && Keys(table)[x].id == id && !Buried(w, id)
    requires forall k | k in w.server.messages :: Overlapped(w.server, Flatten(w.pages), k)
    ensures x + PAGE_SIZE >= |table|
  {
    RowAt(w.server, table, x);
    NewerIsLater(w.server, table, x);
    TableIds(w.server, table);
    IdsAtSize(Keys(table), x + 1, |table|);
    assert Above(w, id) == Newer(w.server, id);
  }

  lemma LastPageFetched(w: World, call: Call, page: Page, id: MessageId)
    requires Honest(w, call, page) && id in w.server.messages && !Buried(w, id)
    requires forall k | k in w.server.messages :: Overlapped(w.server, Flatten(w.pages), k)
    ensures id in Ids(page)
  {
    var table := call.tables(0);
    var keys := Keys(table);
    var x := PositionOf(w.server, table, id);
    NearTheEnd(w, table, id, x);
    RowAt(w.server, table, |table| - 1);
    LastPageOnly(keys, PAGE_SIZE, call.anchor, MAX_RESYNC_PAGES);
    FetchedIds(w, call, page);
    assert x in Visited(keys, PAGE_SIZE, |keys|, call.anchor, MAX_RESYNC_PAGES) && keys[x].id == id;
  }

  // ---- every run ----

  /** Held messages stay held, with the times they had. */
  lemma OverlapStays(w: World, step: Step, me: UserId, nonces: set<MessageId>, g: Gaps, k: MessageId)
    requires Sim(w, nonces, g) && Fresh(w, step, nonces) && Overlapped(w.server, Flatten(w.pages), k)
    ensures Overlapped(Next(w, step, me).server, Flatten(Next(w, step, me).pages), k)
  {
    var w', g' := Next(w, step, me), GapsNext(g, w, step);
    StepSim(w, step, me, nonces, g);
    StampsStay(w, step, me, nonces);
    var m :| m in Flatten(w.pages) && m.Confirmed() && w.server.messages[k].createdAt <= m.createdAt;
    assert HoldsConfirmed(Flatten(w.pages), m.id) && m.id !in g.unseen;
    assert m.id !in g'.unseen;
    var m' :| m' in Flatten(w'.pages) && m'.id == m.id && m'.Confirmed();
  }

  lemma StampsStay(w: World, step: Step, me: UserId, nonces: set<MessageId>)
    requires Fresh(w, step, nonces)
    ensures forall id | id in w.server.messages ::
              id in Next(w, step, me).server.messages
              && Next(w, step, me).server.messages[id].createdAt == w.server.messages[id].createdAt
  {}

  lemma BuriedStays(w: World, step: Step, me: UserId, nonces: set<MessageId>, g: Gaps, id: MessageId)
    requires Sim(w, nonces, g) && Fresh(w, step, nonces) && Buried(w, id)
    ensures Buried(Next(w, step, me), id)
  {
    StampsStay(w, step, me, nonces);
    forall k | k in Above(w, id) ensures k in Above(Next(w, step, me), id) {
      OverlapStays(w, step, me, nonces, g, k);
    }
    SubsetSize(Above(w, id), Above(Next(w, step, me), id));
  }

  lemma {:induction false} BuriedForever(w: World, steps: seq<Step>, me: UserId, nonces: set<MessageId>, g: Gaps,
                                         id: MessageId)
    requires Sim(w, nonces, g) && FreshRun(w, steps, me, nonces) && Buried(w, id)
    ensures Buried(Run(w, steps, me), id)
  {
    if steps != [] {
      var n := |steps| - 1;
      FreshPrefix(w, steps, me, nonces);
      BuriedForever(w, steps[..n], me, nonces, g, id);
      CacheSimulatesServer(w, steps[..n], me, nonces, g);
      BuriedStays(Run(w, steps[..n], me), steps[n], me, nonces, GapsAfter(g, w, steps[..n], me), id);
    }
  }

  /** Every resync of the run merges what its own fetch loop collected, having begun earlier in the run. */
  ghost predicate HonestRun(w: World, steps: seq<Step>, calls: seq<Call>, me: UserId) {
    && |calls| == |steps|
    && forall j | 0 <= j < |steps| && steps[j].Resync? ::
         calls[j].start <= j && Honest(Run(w, steps[..calls[j].start], me), calls[j], steps[j].page)
  }

  lemma HonestPrefix(w: World, steps: seq<Step>, calls: seq<Call>, me: UserId)
    requires HonestRun(w, steps, calls, me) && steps != []
    ensures HonestRun(w, steps[..|steps| - 1], calls[..|steps| - 1], me)
  {
    var n := |steps| - 1;
    forall j | 0 <= j < n && steps[..n][j].Resync?
      ensures calls[..n][j].start <= j
              && Honest(Run(w, steps[..n][..calls[..n][j].start], me), calls[..n][j], steps[..n][j].page)
    {
      assert steps[..n][..calls[j].start] == steps[..calls[j].start];
    }
  }

  lemma {:induction false} FreshUpTo(w: World, steps: seq<Step>, t: nat, me: UserId, nonces: set<MessageId>)
    requires FreshRun(w, steps, me, nonces) && t <= |steps|
    ensures FreshRun(w, steps[..t], me, nonces)
  {
    forall i | 0 <= i < t ensures Fresh(Run(w, steps[..t][..i], me), steps[..t][i], nonces) {
      assert steps[..t][..i] == steps[..i];
    }
  }

  lemma StepStaysMissing(w: World, steps: seq<Step>, calls: seq<Call>, me: UserId, nonces: set<MessageId>, g: Gaps,
                         id: MessageId)
    requires Sim(w, nonces, g) && FreshRun(w, steps, me, nonces) && HonestRun(w, steps, calls, me) && steps != []
    requires Buried(w, id) && id in GapsAfter(g, w, steps[..|steps| - 1], me).unseen
    ensures id in GapsAfter(g, w, steps, me).unseen
  {
    var n := |steps| - 1;
    if steps[n].Resync? {
      var start := calls[n].start;
      FreshUpTo(w, steps, start, me, nonces);
      BuriedForever(w, steps[..start], me, nonces, g, id);
      BuriedNotFetched(Run(w, steps[..start], me), calls[n], steps[n].page, id);
    }
  }

  /** The permanent gap: a missing message with a page of newer ones up to the newest row held stays missing
      through every further run, whatever is sent and however often the room is resynced. */
  lemma {:induction false} StaysMissing(w: World, steps: seq<Step>, calls: seq<Call>, me: UserId,
                                        nonces: set<MessageId>, g: Gaps, id: MessageId)
    requires Sim(w, nonces, g) && FreshRun(w, steps, me, nonces) && HonestRun(w, steps, calls, me)
    requires id in g.unseen && Buried(w, id)
    ensures id in GapsAfter(g, w, steps, me).unseen
    ensures id in Run(w, steps, me).server.messages && !HoldsConfirmed(Flatten(Run(w, steps, me).pages), id)
  {
    CacheSimulatesServer(w, steps, me, nonces, g);
    if steps != [] {
      FreshPrefix(w, steps, me, nonces);
      HonestPrefix(w, steps, calls, me);
      StaysMissing(w, steps[..|steps| - 1], calls[..|steps| - 1], me, nonces, g, id);
      StepStaysMissing(w, steps, calls, me, nonces, g, id);
    }
  }
}
