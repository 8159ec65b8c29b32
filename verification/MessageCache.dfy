/** The client's paged message cache (frontend/lib/messagesCache.ts).

    One room's cache is a list of pages plus one page parameter per page. Everything the cache
    promises is about the rows it holds, so each operation is also described on the flattened
    list of rows, and the lemmas `ApplyOneFlattens` and `PatchFlattens` connect the two views. */
module MessageCache {
  import opened ChatTypes

  const PAGE_SIZE: nat := 50

  datatype SendStatus = Sending | Failed

  datatype ReactionGroup = ReactionGroup(emoji: Emoji, count: nat, userIds: seq<UserId>)

  /** A cached row. `status` is set only on a local bubble; a server row never carries one. */
  datatype ChatMessage = ChatMessage(
    id: MessageId,
    author: UserId,
    content: Option<string>,
    createdAt: Time,
    editedAt: Option<Time>,
    deletedAt: Option<Time>,
    readBy: seq<UserId>,
    reactions: seq<ReactionGroup>,
    status: Option<SendStatus>)
  {
    predicate Confirmed() { status.None? }
  }

  type Page = seq<ChatMessage>

  datatype MessagesData = MessagesData(pages: seq<Page>, pageParams: seq<Option<Time>>)

  /** A row to merge, with the nonce it should reconcile against, if any. */
  datatype Incoming = Incoming(message: ChatMessage, clientId: Option<MessageId>)

  function Flatten(pages: seq<Page>): Page {
    if pages == [] then [] else pages[0] + Flatten(pages[1..])
  }

  predicate Holds(rows: Page, id: MessageId) {
    exists m | m in rows :: m.id == id
  }

  predicate HoldsConfirmed(rows: Page, id: MessageId) {
    exists m | m in rows :: m.id == id && m.Confirmed()
  }

  // ---- replaceFirst ----

  /** The two searches `applyOne` makes: a row by id, or a local bubble by its content. */
  datatype Target = WithId(id: MessageId) | Bubble(content: Option<string>)

  predicate Hits(t: Target, m: ChatMessage) {
    match t
    case WithId(id) => m.id == id
    case Bubble(content) => m.status.Some? && m.content == content
  }

  predicate AnyHit(rows: Page, t: Target) {
    exists m | m in rows :: Hits(t, m)
  }

  function ReplaceInPage(rows: Page, t: Target, replacement: ChatMessage): Page {
    if rows == [] then []
    else if Hits(t, rows[0]) then [replacement] + rows[1..]
    else [rows[0]] + ReplaceInPage(rows[1..], t, replacement)
  }

  function ReplaceFirst(pages: seq<Page>, t: Target, replacement: ChatMessage): Option<seq<Page>> {
    if pages == [] then None
    else if AnyHit(pages[0], t) then Some([ReplaceInPage(pages[0], t, replacement)] + pages[1..])
    else
      match ReplaceFirst(pages[1..], t, replacement)
      case None => None
      case Some(rest) => Some([pages[0]] + rest)
  }

  // ---- applyOne and upsertMessages ----

  function ApplyOne(pages: seq<Page>, inc: Incoming, me: UserId): seq<Page> {
    var byNonce := if inc.clientId.Some? then ReplaceFirst(pages, WithId(inc.clientId.value), inc.message) else None;
    if byNonce.Some? then byNonce.value
    else if Holds(Flatten(pages), inc.message.id) then pages
    else
      var byContent :=
        if inc.message.Confirmed() && inc.message.author == me
        then ReplaceFirst(pages, Bubble(inc.message.content), inc.message) else None;
      if byContent.Some? then byContent.value
      else if pages == [] then [[inc.message]]
      else [[inc.message] + pages[0]] + pages[1..]
  }

  function ApplyAll(pages: seq<Page>, batch: seq<Incoming>, me: UserId): seq<Page> {
    if batch == [] then pages
    else ApplyOne(ApplyAll(pages, batch[..|batch| - 1], me), batch[|batch| - 1], me)
  }

  /** Fetched rows, which reconcile against no nonce. */
  function ToIncoming(rows: Page): (r: seq<Incoming>)
    ensures |r| == |rows| && forall i | 0 <= i < |rows| :: r[i] == Incoming(rows[i], None)
  {
    seq(|rows|, i requires 0 <= i < |rows| => Incoming(rows[i], None))
  }

  /** `upsertMessages`: rows merged one by one, page parameters kept when they still line up. */
  method UpsertMessages(data: Option<MessagesData>, incoming: seq<Incoming>, me: UserId) returns (r: MessagesData)
    ensures |r.pageParams| == |r.pages| > 0
    ensures Flatten(r.pages) == MergeAll(if data.Some? then Flatten(data.value.pages) else [], incoming, me)
    ensures |r.pages| == if data.Some? && data.value.pages != [] then |data.value.pages| else 1
    ensures data.Some? && |data.value.pageParams| == |r.pages| ==> r.pageParams == data.value.pageParams
    ensures data.None? || |data.value.pageParams| != |r.pages| ==> forall p | p in r.pageParams :: p.None?
    ensures data.Some? ==> forall m | m in Flatten(data.value.pages) ::
              m in Flatten(r.pages) || exists inc | inc in incoming :: Answers(inc, m, me)
  {
    var pages := if data.Some? then data.value.pages else [];
    ghost var start := pages;
    for i := 0 to |incoming|
      invariant pages == ApplyAll(start, incoming[..i], me)
    {
      assert incoming[..i + 1][..i] == incoming[..i];
      pages := ApplyOne(pages, incoming[i], me);
    }
    assert incoming[..|incoming|] == incoming;
    ApplyAllFlattens(start, incoming, me);
    MergeAllKeeps(Flatten(start), incoming, me);
    if pages == [] {
      pages := [[]];
    }
    var params :=
      if data.Some? && |data.value.pageParams| == |pages| then data.value.pageParams
      else seq(|pages|, _ => None);
    r := MessagesData(pages, params);
  }

  // ---- the same merge on the flat list of rows ----

  function MergeOne(rows: Page, inc: Incoming, me: UserId): Page {
    if inc.clientId.Some? && Holds(rows, inc.clientId.value) then
      ReplaceInPage(rows, WithId(inc.clientId.value), inc.message)
    else if Holds(rows, inc.message.id) then rows
    else if inc.message.Confirmed() && inc.message.author == me && AnyHit(rows, Bubble(inc.message.content)) then
      ReplaceInPage(rows, Bubble(inc.message.content), inc.message)
    else [inc.message] + rows
  }

  function MergeAll(rows: Page, batch: seq<Incoming>, me: UserId): Page {
    if batch == [] then rows
    else MergeOne(MergeAll(rows, batch[..|batch| - 1], me), batch[|batch| - 1], me)
  }

  /** The only messages a cached row gives way to: one that carries the row's id as its nonce, or, for a
      bubble, a server row by this user with the bubble's text. */
  predicate Answers(inc: Incoming, m: ChatMessage, me: UserId) {
    || inc.clientId == Some(m.id)
    || (m.status.Some? && inc.message.Confirmed() && inc.message.author == me && inc.message.content == m.content)
  }

  lemma {:induction false} ReplaceKeeps(rows: Page, t: Target, x: ChatMessage, m: ChatMessage)
    requires m in rows && !Hits(t, m)
    ensures m in ReplaceInPage(rows, t, x)
  {
    if m != rows[0] {
      assert m in rows[1..];
      if !Hits(t, rows[0]) {
        ReplaceKeeps(rows[1..], t, x, m);
      }
    }
  }

  lemma MergeKeeps(rows: Page, inc: Incoming, me: UserId, m: ChatMessage)
    requires m in rows && !Answers(inc, m, me)
    ensures m in MergeOne(rows, inc, me)
  {
    if inc.clientId.Some? && Holds(rows, inc.clientId.value) {
      ReplaceKeeps(rows, WithId(inc.clientId.value), inc.message, m);
    } else if inc.message.Confirmed() && inc.message.author == me {
      ReplaceKeeps(rows, Bubble(inc.message.content), inc.message, m);
    }
  }

  /** Whatever is merged, a row is replaced only by a message that answers it. */
  lemma {:induction false} MergeAllKeeps(rows: Page, batch: seq<Incoming>, me: UserId)
    ensures forall m | m in rows :: m in MergeAll(rows, batch, me) || exists inc | inc in batch :: Answers(inc, m, me)
  {
    if batch != [] {
      var front, last := batch[..|batch| - 1], batch[|batch| - 1];
      assert batch == front + [last];
      MergeAllKeeps(rows, front, me);
      forall m | m in rows && !exists inc | inc in batch :: Answers(inc, m, me)
        ensures m in MergeAll(rows, batch, me)
      {
        assert last in batch && forall inc | inc in front :: inc in batch;
        MergeKeeps(MergeAll(rows, front, me), last, me, m);
      }
    }
  }

  lemma AnyHitSplit(a: Page, b: Page, t: Target)
    ensures AnyHit(a + b, t) <==> AnyHit(a, t) || AnyHit(b, t)
  {
    forall m | m in a + b ensures m in a || m in b {}
  }

  lemma ReplaceInPageHead(x: ChatMessage, rest: Page, t: Target, replacement: ChatMessage)
    ensures ReplaceInPage([x] + rest, t, replacement) ==
            if Hits(t, x) then [replacement] + rest else [x] + ReplaceInPage(rest, t, replacement)
    ensures AnyHit([x] + rest, t) <==> Hits(t, x) || AnyHit(rest, t)
  {
    assert ([x] + rest)[1..] == rest;
    assert x in [x] + rest && forall m | m in rest :: m in [x] + rest;
  }

  lemma Regroup<T>(a: seq<T>, b: seq<T>, c: seq<T>)
    ensures (a + b) + c == a + (b + c)
  {}

  lemma {:induction false} ReplaceInPageSplit(a: Page, b: Page, t: Target, x: ChatMessage)
    ensures ReplaceInPage(a + b, t, x) ==
            if AnyHit(a, t) then ReplaceInPage(a, t, x) + b else a + ReplaceInPage(b, t, x)
  {
    if a == [] {
      assert a + b == b;
    } else {
      var head, rest := [a[0]], a[1..];
      assert a == head + rest;
      Regroup(head, rest, b);
      ReplaceInPageHead(a[0], rest, t, x);
      ReplaceInPageHead(a[0], rest + b, t, x);
      Regroup([x], rest, b);
      if !Hits(t, a[0]) {
        ReplaceInPageSplit(rest, b, t, x);
        Regroup(head, ReplaceInPage(rest, t, x), b);
        Regroup(head, rest, ReplaceInPage(b, t, x));
      }
    }
  }

  lemma {:induction false} ReplaceFirstFlattens(pages: seq<Page>, t: Target, x: ChatMessage)
    ensures ReplaceFirst(pages, t, x).Some? <==> AnyHit(Flatten(pages), t)
    ensures ReplaceFirst(pages, t, x).Some? ==>
              var r := ReplaceFirst(pages, t, x).value;
              |r| == |pages| && Flatten(r) == ReplaceInPage(Flatten(pages), t, x)
  {
    if pages != [] {
      AnyHitSplit(pages[0], Flatten(pages[1..]), t);
      ReplaceInPageSplit(pages[0], Flatten(pages[1..]), t, x);
      ReplaceFirstFlattens(pages[1..], t, x);
      var r := ReplaceFirst(pages, t, x);
      if r.Some? {
        assert r.value[1..] == if AnyHit(pages[0], t) then pages[1..] else ReplaceFirst(pages[1..], t, x).value;
      }
    }
  }

  /** Merging into pages is merging into their concatenation, and adds no page to a non-empty cache. */
  lemma ApplyOneFlattens(pages: seq<Page>, inc: Incoming, me: UserId)
    ensures Flatten(ApplyOne(pages, inc, me)) == MergeOne(Flatten(pages), inc, me)
    ensures pages != [] ==> |ApplyOne(pages, inc, me)| == |pages|
  {
    var rows := Flatten(pages);
    if inc.clientId.Some? {
      ReplaceFirstFlattens(pages, WithId(inc.clientId.value), inc.message);
      HoldsIsHit(rows, inc.clientId.value);
    }
    ReplaceFirstFlattens(pages, Bubble(inc.message.content), inc.message);
    if pages != [] {
      var front := [[inc.message] + pages[0]] + pages[1..];
      assert front[1..] == pages[1..];
      assert Flatten(front) == [inc.message] + rows;
    }
  }

  lemma {:induction false} ApplyAllFlattens(pages: seq<Page>, batch: seq<Incoming>, me: UserId)
    ensures Flatten(ApplyAll(pages, batch, me)) == MergeAll(Flatten(pages), batch, me)
    ensures pages != [] ==> |ApplyAll(pages, batch, me)| == |pages|
    ensures pages == [] && batch != [] ==> |ApplyAll(pages, batch, me)| == 1
  {
    if batch != [] {
      var n := |batch| - 1;
      ApplyAllFlattens(pages, batch[..n], me);
      ApplyOneFlattens(ApplyAll(pages, batch[..n], me), batch[n], me);
    }
  }

  lemma HoldsIsHit(rows: Page, id: MessageId)
    ensures Holds(rows, id) <==> AnyHit(rows, WithId(id))
  {
    if Holds(rows, id) {
      var m :| m in rows && m.id == id;
      assert Hits(WithId(id), m);
    }
    if AnyHit(rows, WithId(id)) {
      var m :| m in rows && Hits(WithId(id), m);
      assert m.id == id;
    }
  }

  // ---- in-place patches: mark*, applyEdit, addReadReceipt, applyReaction ----

  datatype ReactionAction = Added | Removed

  datatype Patch =
    | Fail(id: MessageId)
    | Resend(id: MessageId)
    | Delete(id: MessageId, at: Time)
    | Edit(id: MessageId, content: string, at: Time)
    | Read(id: MessageId, user: UserId)
    | React(id: MessageId, user: UserId, emoji: Emoji, action: ReactionAction)

  /** What each helper does to the row it names; every other row is returned as it is. */
  function PatchRow(m: ChatMessage, p: Patch): ChatMessage {
    if m.id != p.id then m
    else
      match p
      case Fail(_) => if m.status == Some(Sending) then m.(status := Some(Failed)) else m
      case Resend(_) => if m.status == Some(Failed) then m.(status := Some(Sending)) else m
      case Delete(_, at) => if m.deletedAt.None? then m.(content := None, deletedAt := Some(at)) else m
      case Edit(_, content, at) =>
        if m.deletedAt.None? then m.(content := Some(content), editedAt := Some(at)) else m
      case Read(_, user) => if user in m.readBy then m else m.(readBy := m.readBy + [user])
      case React(_, user, emoji, action) => m.(reactions := ReactGroups(m.reactions, user, emoji, action))
  }

  /** Index of the first group for `emoji`, or the number of groups when there is none. */
  function GroupIndex(groups: seq<ReactionGroup>, emoji: Emoji): (i: nat)
    ensures i <= |groups|
    ensures i < |groups| ==> groups[i].emoji == emoji
    ensures forall j | 0 <= j < i :: groups[j].emoji != emoji
  {
    if groups == [] then 0
    else if groups[0].emoji == emoji then 0
    else 1 + GroupIndex(groups[1..], emoji)
  }

  function Without(users: seq<UserId>, user: UserId): seq<UserId> {
    if users == [] then []
    else if users[0] == user then Without(users[1..], user)
    else [users[0]] + Without(users[1..], user)
  }

  /** `applyReaction` on one row's grouped reactions. */
  function ReactGroups(groups: seq<ReactionGroup>, user: UserId, emoji: Emoji,
                       action: ReactionAction): seq<ReactionGroup> {
    var i := GroupIndex(groups, emoji);
    if action == Added then
      if i == |groups| then groups + [ReactionGroup(emoji, 1, [user])]
      else if user in groups[i].userIds then groups
      else groups[i := groups[i].(count := groups[i].count + 1, userIds := groups[i].userIds + [user])]
    else if i == |groups| || user !in groups[i].userIds then groups
    else
      var remaining := Without(groups[i].userIds, user);
      if remaining == [] then groups[..i] + groups[i + 1..]
      else groups[i := groups[i].(count := |remaining|, userIds := remaining)]
  }

  function PatchPage(rows: Page, p: Patch): (r: Page)
    ensures |r| == |rows| && forall i | 0 <= i < |rows| :: r[i] == PatchRow(rows[i], p)
  {
    seq(|rows|, i requires 0 <= i < |rows| => PatchRow(rows[i], p))
  }

  function PatchPages(pages: seq<Page>, p: Patch): seq<Page> {
    seq(|pages|, i requires 0 <= i < |pages| => PatchPage(pages[i], p))
  }

  lemma {:induction false} PatchFlattens(pages: seq<Page>, p: Patch)
    ensures Flatten(PatchPages(pages, p)) == PatchPage(Flatten(pages), p)
    ensures |PatchPages(pages, p)| == |pages|
    ensures forall i | 0 <= i < |pages| :: |PatchPages(pages, p)[i]| == |pages[i]|
  {
    if pages != [] {
      PatchFlattens(pages[1..], p);
      assert PatchPages(pages, p)[1..] == PatchPages(pages[1..], p);
    }
  }

  /** A send that times out, and its retry: `markFailed` leaves no copy of the bubble sending, `markSending`
      leaves none failed, the retry undoes the failure, and neither touches any other row or anything but
      the status. */
  lemma BubbleStatus(pages: seq<Page>, id: MessageId)
    ensures var rows := Flatten(pages);
            var failed := Flatten(PatchPages(pages, Fail(id)));
            var resent := Flatten(PatchPages(PatchPages(pages, Fail(id)), Resend(id)));
            && |failed| == |rows| == |resent|
            && (forall m | m in failed && m.id == id :: m.status != Some(Sending))
            && (forall m | m in resent && m.id == id :: m.status != Some(Failed))
            && (forall i | 0 <= i < |rows| ::
                  && failed[i].(status := None) == rows[i].(status := None) == resent[i].(status := None)
                  && (rows[i].id != id || rows[i].Confirmed() ==> failed[i] == rows[i] == resent[i])
                  && (rows[i].status == Some(Sending) ==> resent[i] == rows[i]))
  {
    PatchFlattens(pages, Fail(id));
    PatchFlattens(PatchPages(pages, Fail(id)), Resend(id));
  }

  // ---- newestConfirmedCreatedAt ----

  /** The resync anchor: the latest creation time among server rows; bubbles are skipped. */
  method NewestConfirmedCreatedAt(data: Option<MessagesData>) returns (newest: Option<Time>)
    ensures var rows := if data.Some? then Flatten(data.value.pages) else [];
            && (newest.None? <==> forall m | m in rows :: !m.Confirmed())
            && (newest.Some? ==>
                  && (exists m | m in rows :: m.Confirmed() && m.createdAt == newest.value)
                  && (forall m | m in rows && m.Confirmed() :: m.createdAt <= newest.value))
  {
    var rows := if data.Some? then Flatten(data.value.pages) else [];
    newest := None;
    for i := 0 to |rows|
      invariant newest.None? <==> forall m | m in rows[..i] :: !m.Confirmed()
      invariant newest.Some? ==> exists m | m in rows[..i] :: m.Confirmed() && m.createdAt == newest.value
      invariant newest.Some? ==> forall m | m in rows[..i] && m.Confirmed() :: m.createdAt <= newest.value
    {
      var m := rows[i];
      assert rows[..i + 1] == rows[..i] + [m];
      if m.Confirmed() && (newest.None? || m.createdAt > newest.value) {
        newest := Some(m.createdAt);
      }
    }
    assert rows[..|rows|] == rows;
  }

  /** Cursor for the next older page: none after a short page. */
  function NextCursor(page: Page): (r: Option<Time>)
    ensures r.Some? <==> |page| >= PAGE_SIZE
    ensures r.Some? ==> r.value == page[|page| - 1].createdAt
  {
    if |page| < PAGE_SIZE then None else Some(page[|page| - 1].createdAt)
  }
}
