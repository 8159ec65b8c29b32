/** What the server holds, read off the requests alone (internal/store/messages.go:28-47, 150-185,
    read_receipts.go, reactions.go:28-51, internal/handlers/messages.go:184-385). The author's last words are a
    message's text; a delete by its author or an admin masks it for good; a read counts once and a toggle every
    time, while the message is there. With `CacheSimulatesServer` this is what a client shows. */
module CommitLog {
  import opened ChatTypes
  import opened MessageCache
  import opened MergeSafety
  import opened Reactions
  import opened Simulation

  const NOTHING: Server := Server(map[], [], [])

  /** The tables after the requests, from the beginning. */
  function Committed(log: seq<Request>): Server {
    if log == [] then NOTHING else Commit(Committed(log[..|log| - 1]), log[|log| - 1]).0
  }

  /** Every message id is given out once. */
  predicate DistinctIds(log: seq<Request>) {
    forall i, j | 0 <= i < j < |log| && IsInsert(log[i]) && IsInsert(log[j]) :: log[i].id != log[j].id
  }

  // ---- what the requests say about one message ----

  predicate SentAt(log: seq<Request>, id: MessageId, i: int) {
    0 <= i < |log| && IsInsert(log[i]) && log[i].id == id
  }

  /** Its author, or an admin, deletes it. */
  predicate DeletedAt(log: seq<Request>, id: MessageId, i: int, k: int) {
    && SentAt(log, id, i) && i < k < |log|
    && log[k].SoftDelete? && log[k].id == id && (log[k].user == log[i].author || log[k].admin)
  }

  /** Sent at `i`, it is there for the request at `j`: nothing in between deleted it. */
  predicate There(log: seq<Request>, id: MessageId, i: int, j: int) {
    SentAt(log, id, i) && i < j <= |log| && forall k | i < k < j :: !DeletedAt(log, id, i, k)
  }

  /** Its author edits it. */
  predicate EditedAt(log: seq<Request>, id: MessageId, i: int, j: int) {
    && There(log, id, i, j) && j < |log|
    && log[j].EditText? && log[j].id == id && log[j].user == log[i].author
  }

  /** Its author's last words on it: the last edit that counted, else the message as sent. */
  predicate LastSaid(log: seq<Request>, id: MessageId, i: int, j: int) {
    && ((SentAt(log, id, i) && j == i) || EditedAt(log, id, i, j))
    && forall k | j < k < |log| :: !EditedAt(log, id, i, k)
  }

  ghost predicate RowAsAsked(log: seq<Request>, id: MessageId, i: int, row: MessageRow)
    requires SentAt(log, id, i)
  {
    && row.author == log[i].author && row.createdAt == log[i].at
    && (exists j :: LastSaid(log, id, i, j) && row.content == log[j].content
          && row.editedAt == if j == i then None else Some(log[j].at))
    && (row.deletedAt.None? <==> There(log, id, i, |log|))
    && (forall k | DeletedAt(log, id, i, k) && There(log, id, i, k) :: row.deletedAt == Some(log[k].at))
  }

  lemma PrefixSays(log: seq<Request>, id: MessageId, i: int)
    requires log != []
    ensures var n := |log| - 1;
            && (i < n ==> (SentAt(log[..n], id, i) <==> SentAt(log, id, i)))
            && (i < n ==> forall k | k < n :: DeletedAt(log[..n], id, i, k) <==> DeletedAt(log, id, i, k))
            && (forall j | j <= n :: There(log[..n], id, i, j) <==> There(log, id, i, j))
            && (forall j | j < n :: EditedAt(log[..n], id, i, j) <==> EditedAt(log, id, i, j))
  {
    var n := |log| - 1;
    forall j | j <= n ensures There(log[..n], id, i, j) <==> There(log, id, i, j) {
      if i < n {
        assert forall k | i < k < j :: DeletedAt(log[..n], id, i, k) <==> DeletedAt(log, id, i, k);
      }
    }
  }

  lemma {:induction false} SentIffStored(log: seq<Request>, id: MessageId)
    ensures id in Committed(log).messages <==> exists i :: SentAt(log, id, i)
  {
    if log != [] {
      var n := |log| - 1;
      SentIffStored(log[..n], id);
      forall i | i < n ensures SentAt(log[..n], id, i) <==> SentAt(log, id, i) {
        PrefixSays(log, id, i);
      }
      if i :| SentAt(log, id, i) {
        assert i < n ==> SentAt(log[..n], id, i);
      }
      if i :| SentAt(log[..n], id, i) {
        assert SentAt(log, id, i);
      }
      assert IsInsert(log[n]) && log[n].id == id ==> SentAt(log, id, n);
    }
  }

  lemma JustSent(log: seq<Request>, id: MessageId)
    requires log != [] && SentAt(log, id, |log| - 1)
    ensures var n := |log| - 1;
            LastSaid(log, id, n, n) && There(log, id, n, |log|) && forall k :: !DeletedAt(log, id, n, k)
  {}

  /** One more request after the message was sent: its author's words, if they count, or its deletion. */
  lemma SaysMore(log: seq<Request>, id: MessageId, i: int, j: int)
    requires log != [] && SentAt(log[..|log| - 1], id, i) && LastSaid(log[..|log| - 1], id, i, j)
    ensures var n := |log| - 1;
            && SentAt(log, id, i) && i < n && j < n
            && LastSaid(log, id, i, if EditedAt(log, id, i, n) then n else j)
            && (There(log, id, i, n) <==> There(log[..n], id, i, n))
            && (There(log, id, i, |log|) <==> There(log[..n], id, i, n) && !DeletedAt(log, id, i, n))
  {
    var n := |log| - 1;
    PrefixSays(log, id, i);
    forall k | i < k < n ensures DeletedAt(log[..n], id, i, k) <==> DeletedAt(log, id, i, k) {}
    assert There(log, id, i, n) <==> There(log[..n], id, i, n);
    if EditedAt(log, id, i, n) {
      assert LastSaid(log, id, i, n);
    } else {
      forall k | j < k < |log| ensures !EditedAt(log, id, i, k) {
        assert k < n ==> !EditedAt(log[..n], id, i, k);
      }
    }
  }

  /** What one request does to a stored row. */
  lemma RowChange(s: Server, req: Request, id: MessageId)
    requires id in s.messages && !(IsInsert(req) && req.id == id)
    ensures var s' := Commit(s, req).0;
            var row := s.messages[id];
            && id in s'.messages
            && s'.messages[id] ==
               if row.deletedAt.Some? then row
               else if req.EditText? && req.id == id && req.user == row.author then
                 row.(content := req.content, editedAt := Some(req.at))
               else if req.SoftDelete? && req.id == id && (req.user == row.author || req.admin) then
                 row.(deletedAt := Some(req.at))
               else row
  {}

  lemma DeletedMore(log: seq<Request>, id: MessageId, i: int, was: Option<Time>, now: Option<Time>)
    requires log != [] && SentAt(log[..|log| - 1], id, i)
    requires var front := log[..|log| - 1];
             && (was.None? <==> There(front, id, i, |front|))
             && (forall k | DeletedAt(front, id, i, k) && There(front, id, i, k) :: was == Some(log[k].at))
    requires now == if was.None? && DeletedAt(log, id, i, |log| - 1) then Some(log[|log| - 1].at) else was
    ensures forall k | DeletedAt(log, id, i, k) && There(log, id, i, k) :: now == Some(log[k].at)
  {
    var n := |log| - 1;
    PrefixSays(log, id, i);
    forall k | DeletedAt(log, id, i, k) && There(log, id, i, k) ensures now == Some(log[k].at) {
      if k < n {
        assert DeletedAt(log[..n], id, i, k) && There(log[..n], id, i, k);
        assert !There(log[..n], id, i, n);
      } else {
        assert There(log[..n], id, i, n);
      }
    }
  }

  /** The stored row of every message is the one the requests asked for. */
  lemma {:induction false} RowsAsAsked(log: seq<Request>, id: MessageId, i: int)
    requires DistinctIds(log) && SentAt(log, id, i)
    ensures id in Committed(log).messages && RowAsAsked(log, id, i, Committed(log).messages[id])
  {
    var n := |log| - 1;
    if i == n {
      JustSent(log, id);
    } else {
      assert SentAt(log[..n], id, i);
      RowsAsAsked(log[..n], id, i);
      RowStep(log, id, i);
    }
  }

  lemma RowStep(log: seq<Request>, id: MessageId, i: int)
    requires log != [] && DistinctIds(log) && SentAt(log[..|log| - 1], id, i)
    requires id in Committed(log[..|log| - 1]).messages
    requires RowAsAsked(log[..|log| - 1], id, i, Committed(log[..|log| - 1]).messages[id])
    ensures SentAt(log, id, i)
    ensures id in Committed(log).messages && RowAsAsked(log, id, i, Committed(log).messages[id])
  {
    var n := |log| - 1;
    var front, was := log[..n], Committed(log[..n]).messages[id];
    var j :| LastSaid(front, id, i, j) && was.content == front[j].content
        && was.editedAt == if j == i then None else Some(front[j].at);
    SaysMore(log, id, i, j);
    RowChange(Committed(front), log[n], id);
    var now := Committed(log).messages[id];
    DeletedMore(log, id, i, was.deletedAt, now.deletedAt);
  }

  lemma LiveIsThere(log: seq<Request>, id: MessageId, i: int)
    requires DistinctIds(log) && SentAt(log, id, i)
    ensures Live(Committed(log), id) <==> There(log, id, i, |log|)
  {
    RowsAsAsked(log, id, i);
  }

  /** Is the message there, undeleted, for request `j`? */
  predicate Present(log: seq<Request>, id: MessageId, j: int) {
    exists i | 0 <= i < j :: There(log, id, i, j)
  }

  lemma LiveIsPresent(log: seq<Request>, id: MessageId)
    requires DistinctIds(log)
    ensures Live(Committed(log), id) <==> Present(log, id, |log|)
  {
    SentIffStored(log, id);
    if Live(Committed(log), id) {
      var i :| SentAt(log, id, i);
      LiveIsThere(log, id, i);
    }
    if i :| There(log, id, i, |log|) {
      LiveIsThere(log, id, i);
    }
  }

  lemma PrefixPresent(log: seq<Request>, id: MessageId, j: int)
    requires log != [] && j < |log|
    ensures Present(log[..|log| - 1], id, j) <==> Present(log, id, j)
  {
    if i :| 0 <= i < j && There(log, id, i, j) { PrefixSays(log, id, i); }
    var front := log[..|log| - 1];
    if i :| 0 <= i < j && There(front, id, i, j) { PrefixSays(log, id, i); }
  }

  lemma DistinctPrefix(log: seq<Request>)
    requires DistinctIds(log) && log != []
    ensures DistinctIds(log[..|log| - 1])
  {}

  // ---- readers ----

  predicate ReadAt(log: seq<Request>, id: MessageId, user: UserId, j: int) {
    0 <= j < |log| && log[j] == MarkRead(id, user) && Present(log, id, j)
  }

  /** The users who read the message while it was there, each once, by their first read. */
  ghost predicate ReadersAsAsked(log: seq<Request>, id: MessageId, readers: seq<UserId>) {
    && (forall u :: u in readers <==> exists j :: ReadAt(log, id, u, j))
    && (forall x, y | 0 <= x < y < |readers| :: ReadBefore(log, id, readers[x], readers[y]))
  }

  ghost predicate ReadBefore(log: seq<Request>, id: MessageId, u: UserId, v: UserId) {
    exists j :: ReadAt(log, id, u, j) && forall k | ReadAt(log, id, v, k) :: j < k
  }

  lemma PrefixRead(log: seq<Request>, id: MessageId, u: UserId, j: int)
    requires log != [] && j < |log| - 1
    ensures ReadAt(log[..|log| - 1], id, u, j) <==> ReadAt(log, id, u, j)
  {
    if 0 <= j {
      PrefixPresent(log, id, j);
    }
  }

  lemma {:induction false} ReadersOf(log: seq<Request>, id: MessageId)
    requires DistinctIds(log)
    ensures ReadersAsAsked(log, id, Readers(Committed(log).receipts, id))
  {
    if log != [] {
      var n := |log| - 1;
      DistinctPrefix(log);
      ReadersOf(log[..n], id);
      ReadersStep(log, id);
    }
  }

  /** A read counts if the message is there and the user has not read it before. */
  lemma ReceiptMore(log: seq<Request>, id: MessageId)
    requires log != [] && DistinctIds(log)
    ensures var front, last := log[..|log| - 1], log[|log| - 1];
            var was, now := Readers(Committed(front).receipts, id), Readers(Committed(log).receipts, id);
            now == if last.MarkRead? && last.id == id && ReadAt(log, id, last.user, |log| - 1) && last.user !in was
                   then was + [last.user] else was
  {
    var front, last := log[..|log| - 1], log[|log| - 1];
    if last.MarkRead? {
      ReadersAppend(Committed(front).receipts, ReadRow(last.id, last.user), id);
      if last.id == id {
        LiveIsPresent(front, id);
        PrefixPresent(log, id, |log| - 1);
        InReaders(Committed(front).receipts, ReadRow(id, last.user));
      }
    }
  }

  lemma ReadersStep(log: seq<Request>, id: MessageId)
    requires log != [] && DistinctIds(log)
    requires ReadersAsAsked(log[..|log| - 1], id, Readers(Committed(log[..|log| - 1]).receipts, id))
    ensures ReadersAsAsked(log, id, Readers(Committed(log).receipts, id))
  {
    var front, last := log[..|log| - 1], log[|log| - 1];
    var was, now := Readers(Committed(front).receipts, id), Readers(Committed(log).receipts, id);
    forall u, j | j < |front| ensures ReadAt(front, id, u, j) <==> ReadAt(log, id, u, j) {
      PrefixRead(log, id, u, j);
    }
    ReceiptMore(log, id);
    ReadersGrow(log, id, was, now, now != was);
  }

  lemma ReadersGrow(log: seq<Request>, id: MessageId, was: seq<UserId>, now: seq<UserId>, added: bool)
    requires log != [] && ReadersAsAsked(log[..|log| - 1], id, was)
    requires forall u, j | j < |log| - 1 :: ReadAt(log[..|log| - 1], id, u, j) <==> ReadAt(log, id, u, j)
    requires var last := log[|log| - 1];
             && added == (last.MarkRead? && last.id == id && ReadAt(log, id, last.user, |log| - 1) && last.user !in was)
             && now == if added then was + [last.user] else was
    ensures ReadersAsAsked(log, id, now)
  {
    var n := |log| - 1;
    forall u ensures u in now <==> exists j :: ReadAt(log, id, u, j) {
      if j :| ReadAt(log, id, u, j) {
        assert j < n ==> ReadAt(log[..n], id, u, j);
      }
      if u in was {
        var j :| ReadAt(log[..n], id, u, j);
        assert ReadAt(log, id, u, j);
      }
    }
    forall x, y | 0 <= x < y < |now| ensures ReadBefore(log, id, now[x], now[y]) {
      if y < |was| {
        assert ReadBefore(log[..n], id, was[x], was[y]);
        var j :| ReadAt(log[..n], id, was[x], j) && forall k | ReadAt(log[..n], id, was[y], k) :: j < k;
        assert ReadAt(log, id, now[x], j);
        assert forall k | ReadAt(log, id, now[y], k) :: j < k;
      } else {
        assert was[x] in was;
        var j :| ReadAt(log[..n], id, was[x], j);
        assert ReadAt(log, id, now[x], j);
        assert forall k | ReadAt(log, id, now[y], k) :: k == n;
      }
    }
  }

  // ---- reactors ----

  predicate ToggledAt(log: seq<Request>, row: ReactionRow, j: int) {
    0 <= j < |log| && log[j] == ToggleEmoji(row.message, row.user, row.emoji) && Present(log, row.message, j)
  }

  function Toggles(log: seq<Request>, row: ReactionRow): nat {
    if log == [] then 0
    else Toggles(log[..|log| - 1], row) + if ToggledAt(log, row, |log| - 1) then 1 else 0
  }

  function LastToggle(log: seq<Request>, row: ReactionRow): (j: int)
    ensures j < |log|
  {
    if log == [] then -1
    else if ToggledAt(log, row, |log| - 1) then |log| - 1
    else LastToggle(log[..|log| - 1], row)
  }

  predicate OddToggles(log: seq<Request>, id: MessageId, u: UserId, emoji: Emoji) {
    Toggles(log, ReactionRow(id, u, emoji)) % 2 == 1
  }

  ghost predicate InToggleOrder(log: seq<Request>, id: MessageId, emoji: Emoji, users: seq<UserId>) {
    forall x, y | 0 <= x < y < |users| ::
      LastToggle(log, ReactionRow(id, users[x], emoji)) < LastToggle(log, ReactionRow(id, users[y], emoji))
  }

  /** The users who toggled the emoji an odd number of times while the message was there, by when they last did. */
  ghost predicate ReactorsAsAsked(log: seq<Request>, id: MessageId, emoji: Emoji, reactors: seq<UserId>) {
    && (forall u :: u in reactors <==> OddToggles(log, id, u, emoji))
    && InToggleOrder(log, id, emoji, reactors)
  }

  /** Taking a user out keeps the order of the others. */
  lemma {:induction false} WithoutPair(s: seq<UserId>, u: UserId, x: nat, y: nat) returns (x': nat, y': nat)
    requires x < y < |Without(s, u)|
    ensures x' < y' < |s| && s[x'] == Without(s, u)[x] && s[y'] == Without(s, u)[y]
  {
    if s[0] == u {
      x', y' := WithoutPair(s[1..], u, x, y);
      x', y' := x' + 1, y' + 1;
    } else if x == 0 {
      y' := WithoutAt(s[1..], u, y - 1);
      x', y' := 0, y' + 1;
    } else {
      x', y' := WithoutPair(s[1..], u, x - 1, y - 1);
      x', y' := x' + 1, y' + 1;
    }
  }

  lemma {:induction false} WithoutAt(s: seq<UserId>, u: UserId, x: nat) returns (x': nat)
    requires x < |Without(s, u)|
    ensures x' < |s| && s[x'] == Without(s, u)[x]
  {
    if s[0] == u {
      x' := WithoutAt(s[1..], u, x);
      x' := x' + 1;
    } else if x == 0 {
      x' := 0;
    } else {
      x' := WithoutAt(s[1..], u, x - 1);
      x' := x' + 1;
    }
  }

  lemma {:induction false} WithoutMembers(s: seq<UserId>, u: UserId)
    ensures forall v :: v in Without(s, u) <==> v in s && v != u
  {
    if s != [] {
      WithoutMembers(s[1..], u);
      assert s == [s[0]] + s[1..];
    }
  }

  lemma {:induction false} ReactorsOf(log: seq<Request>, id: MessageId, emoji: Emoji)
    requires DistinctIds(log)
    ensures ReactorsAsAsked(log, id, emoji, Reactors(Committed(log).reactions, id, emoji))
  {
    if log != [] {
      var n := |log| - 1;
      var front, last := log[..n], log[n];
      DistinctPrefix(log);
      ReactorsOf(front, id, emoji);
      if last.ToggleEmoji? && last.id == id && last.emoji == emoji && Live(Committed(front), id) {
        LiveIsPresent(front, id);
        PrefixPresent(log, id, n);
        ToggleStep(log, ReactionRow(id, last.user, emoji), Committed(front).reactions);
      } else {
        forall u ensures !ToggledAt(log, ReactionRow(id, u, emoji), n) {
          LiveIsPresent(front, id);
          PrefixPresent(log, id, n);
        }
        assert Reactors(Committed(log).reactions, id, emoji) == Reactors(Committed(front).reactions, id, emoji) by {
          if last.ToggleEmoji? {
            ReactorsToggle(Committed(front).reactions, ReactionRow(last.id, last.user, last.emoji), id, emoji);
          }
        }
      }
    }
  }

  /** The last request toggles for one user and for no other. */
  lemma TogglesMore(log: seq<Request>, row: ReactionRow, u: UserId)
    requires log != [] && ToggledAt(log, row, |log| - 1)
    ensures var front, other := log[..|log| - 1], ReactionRow(row.message, u, row.emoji);
            && Toggles(log, other) == Toggles(front, other) + (if u == row.user then 1 else 0)
            && LastToggle(log, other) == if u == row.user then |log| - 1 else LastToggle(front, other)
  {
    assert row == ReactionRow(row.message, row.user, row.emoji);
  }

  /** The users as they are after a toggle: without the one who takes it back, or with the one who makes it. */
  function Toggled(users: seq<UserId>, user: UserId): seq<UserId> {
    if user in users then Without(users, user) else users + [user]
  }

  lemma ToggledOrder(log: seq<Request>, row: ReactionRow, was: seq<UserId>)
    requires log != [] && ToggledAt(log, row, |log| - 1)
    requires InToggleOrder(log[..|log| - 1], row.message, row.emoji, was)
    ensures InToggleOrder(log, row.message, row.emoji, Toggled(was, row.user))
  {
    var now := Toggled(was, row.user);
    WithoutMembers(was, row.user);
    forall x, y | 0 <= x < y < |now|
      ensures LastToggle(log, ReactionRow(row.message, now[x], row.emoji)) <
              LastToggle(log, ReactionRow(row.message, now[y], row.emoji))
    {
      TogglesMore(log, row, now[x]);
      TogglesMore(log, row, now[y]);
      if row.user in was {
        var x', y' := WithoutPair(was, row.user, x, y);
        assert now[x] in now && now[y] in now;
      } else {
        assert was[x] in was && (y < |was| ==> was[y] in was);
      }
    }
  }

  lemma ToggledOdd(log: seq<Request>, row: ReactionRow, u: UserId)
    requires log != [] && ToggledAt(log, row, |log| - 1)
    ensures var was := OddToggles(log[..|log| - 1], row.message, u, row.emoji);
            OddToggles(log, row.message, u, row.emoji) <==> if u == row.user then !was else was
  {
    TogglesMore(log, row, u);
  }

  lemma ToggledMembers(log: seq<Request>, row: ReactionRow, was: seq<UserId>)
    requires log != [] && ToggledAt(log, row, |log| - 1)
    requires forall u :: u in was <==> OddToggles(log[..|log| - 1], row.message, u, row.emoji)
    ensures forall u :: u in Toggled(was, row.user) <==> OddToggles(log, row.message, u, row.emoji)
  {
    WithoutMembers(was, row.user);
    forall u ensures u in Toggled(was, row.user) <==> OddToggles(log, row.message, u, row.emoji) {
      ToggledOdd(log, row, u);
    }
  }

  lemma ToggleStep(log: seq<Request>, row: ReactionRow, table: ReactionTable)
    requires log != [] && ToggledAt(log, row, |log| - 1)
    requires ReactorsAsAsked(log[..|log| - 1], row.message, row.emoji, Reactors(table, row.message, row.emoji))
    ensures ReactorsAsAsked(log, row.message, row.emoji, Reactors(Toggle(table, row), row.message, row.emoji))
  {
    var was := Reactors(table, row.message, row.emoji);
    ReactorsToggle(table, row, row.message, row.emoji);
    InReactors(table, row);
    ToggledMembers(log, row, was);
    ToggledOrder(log, row, was);
  }

  // ---- runs of a client ----

  /** The requests committed along the run, heard by this client or not. */
  function Requests(steps: seq<Step>): seq<Request> {
    if steps == [] then []
    else
      var front, last := Requests(steps[..|steps| - 1]), steps[|steps| - 1];
      if last.Deliver? || last.Miss? then front + [last.req] else front
  }

  lemma CommittedMore(log: seq<Request>, req: Request)
    ensures Committed(log + [req]) == Commit(Committed(log), req).0
  {
    assert (log + [req])[..|log|] == log;
  }

  lemma {:induction false} RunCommits(past: seq<Request>, w: World, steps: seq<Step>, me: UserId,
                                      nonces: set<MessageId>)
    requires w.server == Committed(past) && DistinctIds(past) && FreshRun(w, steps, me, nonces)
    ensures Run(w, steps, me).server == Committed(past + Requests(steps))
    ensures DistinctIds(past + Requests(steps))
  {
    if steps == [] {
      assert past + Requests(steps) == past;
    } else {
      var n := |steps| - 1;
      var log, last := past + Requests(steps[..n]), steps[n];
      FreshPrefix(w, steps, me, nonces);
      RunCommits(past, w, steps[..n], me, nonces);
      assert Fresh(Run(w, steps[..n], me), last, nonces);
      if last.Deliver? || last.Miss? {
        assert past + Requests(steps) == log + [last.req];
        CommittedMore(log, last.req);
        if IsInsert(last.req) {
          SentIffStored(log, last.req.id);
          assert forall i | 0 <= i < |log| && IsInsert(log[i]) :: SentAt(log, log[i].id, i);
        }
      }
    }
  }

  /** The row shows what was asked for: its author's last words, masked once deleted, who read it and who
      reacted. */
  ghost predicate ShowsAsAsked(log: seq<Request>, m: ChatMessage, i: int, j: int) {
    && SentAt(log, m.id, i) && m.author == log[i].author && m.createdAt == log[i].at
    && LastSaid(log, m.id, i, j)
    && m.content == (if There(log, m.id, i, |log|) then Some(log[j].content) else None)
    && m.editedAt == (if j == i then None else Some(log[j].at))
    && (m.deletedAt.None? <==> There(log, m.id, i, |log|))
    && (forall k | DeletedAt(log, m.id, i, k) && There(log, m.id, i, k) :: m.deletedAt == Some(log[k].at))
    && ReadersAsAsked(log, m.id, m.readBy)
    && GroupsOk(m.reactions) && forall e :: ReactorsAsAsked(log, m.id, e, GroupUsers(m.reactions, e))
  }

  lemma MirrorsAsAsked(log: seq<Request>, m: ChatMessage) returns (i: int, j: int)
    requires DistinctIds(log) && Mirrors(Committed(log), m)
    ensures ShowsAsAsked(log, m, i, j)
  {
    SentIffStored(log, m.id);
    i :| SentAt(log, m.id, i);
    RowsAsAsked(log, m.id, i);
    var row := Committed(log).messages[m.id];
    j :| LastSaid(log, m.id, i, j) && row.content == log[j].content
         && row.editedAt == if j == i then None else Some(log[j].at);
    ReadersOf(log, m.id);
    forall e ensures ReactorsAsAsked(log, m.id, e, GroupUsers(m.reactions, e)) {
      ReactorsOf(log, m.id, e);
    }
  }

  /** So every server row in the cache that is not stale shows what the requests of the run asked for, and of
      the messages sent the cache lacks exactly those counted as missing. */
  lemma CacheShowsAsAsked(past: seq<Request>, pages: seq<Page>, steps: seq<Step>, me: UserId,
                          nonces: set<MessageId>, g: Gaps)
    requires DistinctIds(past)
    requires Sim(World(Committed(past), pages), nonces, g) && FreshRun(World(Committed(past), pages), steps, me, nonces)
    ensures var w := World(Committed(past), pages);
            var log, rows, gaps := past + Requests(steps), Flatten(Run(w, steps, me).pages), GapsAfter(g, w, steps, me);
            && (forall m | m in rows && m.Confirmed() && m.id !in gaps.stale ::
                  exists i, j :: ShowsAsAsked(log, m, i, j))
            && (forall id, i | SentAt(log, id, i) :: HoldsConfirmed(rows, id) <==> id !in gaps.unseen)
  {
    var w := World(Committed(past), pages);
    var log, end, gaps := past + Requests(steps), Run(w, steps, me), GapsAfter(g, w, steps, me);
    RunCommits(past, w, steps, me, nonces);
    CacheSimulatesServer(w, steps, me, nonces, g);
    forall m | m in Flatten(end.pages) && m.Confirmed() && m.id !in gaps.stale
      ensures exists i, j :: ShowsAsAsked(log, m, i, j)
    {
      var i, j := MirrorsAsAsked(log, m);
    }
    forall id, i | SentAt(log, id, i) ensures HoldsConfirmed(Flatten(end.pages), id) <==> id !in gaps.unseen {
      SentIffStored(log, id);
    }
  }
}
