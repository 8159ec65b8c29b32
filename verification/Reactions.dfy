/** Emoji reactions: the server's table and grouping loop (internal/store/reactions.go) and the
    client's incremental groups (`applyReaction`, frontend/lib/messagesCache.ts:263-301). */
module Reactions {
  import opened ChatTypes
  import opened MessageCache

  /** A row of `message_reactions`; a table lists its rows by creation time. */
  datatype ReactionRow = ReactionRow(message: MessageId, user: UserId, emoji: Emoji)

  type ReactionTable = seq<ReactionRow>

  function RemoveRow(table: ReactionTable, row: ReactionRow): ReactionTable {
    if table == [] then []
    else if table[0] == row then RemoveRow(table[1..], row)
    else [table[0]] + RemoveRow(table[1..], row)
  }

  /** `ToggleReaction` as one atomic step. */
  function Toggle(table: ReactionTable, row: ReactionRow): ReactionTable {
    if row in table then RemoveRow(table, row) else table + [row]
  }

  /** The action the toggle announces. */
  function ToggleAction(table: ReactionTable, row: ReactionRow): ReactionAction {
    if row in table then Removed else Added
  }

  /** Who reacted to a message with an emoji, earliest first. */
  function Reactors(table: ReactionTable, message: MessageId, emoji: Emoji): seq<UserId> {
    if table == [] then []
    else
      var front := Reactors(table[..|table| - 1], message, emoji);
      var last := table[|table| - 1];
      if last.message == message && last.emoji == emoji then front + [last.user] else front
  }

  // ---- grouped reactions ----

  predicate DistinctEmoji(groups: seq<ReactionGroup>) {
    forall i, j | 0 <= i < j < |groups| :: groups[i].emoji != groups[j].emoji
  }

  predicate GroupOk(g: ReactionGroup) {
    g.userIds != [] && g.count == |g.userIds|
  }

  /** No group is empty or repeated, and each count is the length of its list. */
  predicate GroupsOk(groups: seq<ReactionGroup>) {
    DistinctEmoji(groups) && forall g | g in groups :: GroupOk(g)
  }

  function GroupUsers(groups: seq<ReactionGroup>, emoji: Emoji): seq<UserId> {
    var i := GroupIndex(groups, emoji);
    if i < |groups| then groups[i].userIds else []
  }

  /** The groups summarise the table for one message. */
  ghost predicate Summarises(groups: seq<ReactionGroup>, table: ReactionTable, message: MessageId) {
    GroupsOk(groups) && forall e :: GroupUsers(groups, e) == Reactors(table, message, e)
  }

  lemma GroupUsersAt(groups: seq<ReactionGroup>, i: nat)
    requires DistinctEmoji(groups) && i < |groups|
    ensures GroupIndex(groups, groups[i].emoji) == i
    ensures GroupUsers(groups, groups[i].emoji) == groups[i].userIds
  {
    var k := GroupIndex(groups, groups[i].emoji);
    assert k <= i;
  }

  // ---- the table ----

  lemma {:induction false} ReactorsSplit(a: ReactionTable, b: ReactionTable, message: MessageId, emoji: Emoji)
    ensures Reactors(a + b, message, emoji) == Reactors(a, message, emoji) + Reactors(b, message, emoji)
  {
    if b == [] {
      assert a + b == a;
    } else {
      var n := |b| - 1;
      assert (a + b)[..|a + b| - 1] == a + b[..n];
      ReactorsSplit(a, b[..n], message, emoji);
    }
  }

  lemma {:induction false} InReactors(table: ReactionTable, row: ReactionRow)
    ensures row.user in Reactors(table, row.message, row.emoji) <==> row in table
  {
    if table != [] {
      var n := |table| - 1;
      assert table == table[..n] + [table[n]];
      InReactors(table[..n], row);
    }
  }

  lemma {:induction false} WithoutSplit(a: seq<UserId>, b: seq<UserId>, user: UserId)
    ensures Without(a + b, user) == Without(a, user) + Without(b, user)
  {
    if a == [] {
      assert a + b == b;
    } else {
      assert (a + b)[1..] == a[1..] + b;
      WithoutSplit(a[1..], b, user);
    }
  }

  lemma {:induction false} ReactorsRemove(table: ReactionTable, row: ReactionRow, message: MessageId, emoji: Emoji)
    ensures Reactors(RemoveRow(table, row), message, emoji) ==
            if message == row.message && emoji == row.emoji
            then Without(Reactors(table, message, emoji), row.user)
            else Reactors(table, message, emoji)
  {
    if table != [] {
      var head, rest := [table[0]], table[1..];
      assert table == head + rest;
      ReactorsSplit(head, rest, message, emoji);
      ReactorsRemove(rest, row, message, emoji);
      ReactorsSplit(head, RemoveRow(rest, row), message, emoji);
      assert head[..0] == [];
      assert Reactors(head, message, emoji) ==
             if table[0].message == message && table[0].emoji == emoji then [table[0].user] else [];
      WithoutSplit(Reactors(head, message, emoji), Reactors(rest, message, emoji), row.user);
    }
  }

  lemma ReactorsToggle(table: ReactionTable, row: ReactionRow, message: MessageId, emoji: Emoji)
    ensures Reactors(Toggle(table, row), message, emoji) ==
            if message != row.message || emoji != row.emoji then Reactors(table, message, emoji)
            else if row in table then Without(Reactors(table, message, emoji), row.user)
            else Reactors(table, message, emoji) + [row.user]
  {
    if row in table {
      ReactorsRemove(table, row, message, emoji);
    } else {
      assert (table + [row])[..|table|] == table;
    }
  }

  // ---- client groups follow the table ----

  lemma FoundIn(a: seq<ReactionGroup>, b: seq<ReactionGroup>, e: Emoji)
    requires DistinctEmoji(b)
    requires forall g | g in a && g.emoji == e :: g in b
    ensures GroupIndex(a, e) < |a| ==> GroupIndex(b, e) < |b| && GroupUsers(b, e) == GroupUsers(a, e)
  {
    var i := GroupIndex(a, e);
    if i < |a| {
      assert a[i] in a;
      var j :| 0 <= j < |b| && b[j] == a[i];
      GroupUsersAt(b, j);
    }
  }

  lemma SetGroup(groups: seq<ReactionGroup>, i: nat, g: ReactionGroup, e: Emoji)
    requires GroupsOk(groups) && i < |groups| && g.emoji == groups[i].emoji && GroupOk(g)
    ensures GroupsOk(groups[i := g])
    ensures GroupUsers(groups[i := g], e) == if e == g.emoji then g.userIds else GroupUsers(groups, e)
  {
    var r := groups[i := g];
    assert forall j | 0 <= j < |groups| && j != i :: r[j] == groups[j];
    assert forall x | x in r :: x == g || x in groups;
    GroupUsersAt(r, i);
    if e != g.emoji {
      forall x | x in groups && x.emoji == e ensures x in r {
        var j :| 0 <= j < |groups| && groups[j] == x;
        assert r[j] == x;
      }
      FoundIn(groups, r, e);
      FoundIn(r, groups, e);
    }
  }

  lemma AppendGroup(groups: seq<ReactionGroup>, g: ReactionGroup, e: Emoji)
    requires GroupsOk(groups) && GroupIndex(groups, g.emoji) == |groups| && GroupOk(g)
    ensures GroupsOk(groups + [g])
    ensures GroupUsers(groups + [g], e) == if e == g.emoji then g.userIds else GroupUsers(groups, e)
  {
    var r := groups + [g];
    assert forall j | 0 <= j < |groups| :: r[j] == groups[j] && r[j].emoji != g.emoji;
    assert DistinctEmoji(r);
    GroupUsersAt(r, |groups|);
    if e != g.emoji {
      FoundIn(groups, r, e);
      FoundIn(r, groups, e);
    }
  }

  lemma DropGroup(groups: seq<ReactionGroup>, i: nat, e: Emoji)
    requires GroupsOk(groups) && i < |groups|
    ensures GroupsOk(groups[..i] + groups[i + 1..])
    ensures GroupUsers(groups[..i] + groups[i + 1..], e) == if e == groups[i].emoji then [] else GroupUsers(groups, e)
  {
    var r := groups[..i] + groups[i + 1..];
    assert forall j | 0 <= j < |r| :: r[j] == groups[if j < i then j else j + 1];
    assert forall x | x in r :: x in groups;
    if e != groups[i].emoji {
      forall g | g in groups && g.emoji == e ensures g in r {
        var j :| 0 <= j < |groups| && groups[j] == g;
        assert r[if j < i then j else j - 1] == g;
      }
      FoundIn(groups, r, e);
      FoundIn(r, groups, e);
    }
  }

  lemma ReactGroupsAdd(groups: seq<ReactionGroup>, user: UserId, emoji: Emoji, e: Emoji)
    requires GroupsOk(groups) && user !in GroupUsers(groups, emoji)
    ensures var r := ReactGroups(groups, user, emoji, Added);
            GroupsOk(r) && GroupUsers(r, e) == GroupUsers(groups, e) + if e == emoji then [user] else []
  {
    var i := GroupIndex(groups, emoji);
    if i == |groups| {
      AppendGroup(groups, ReactionGroup(emoji, 1, [user]), e);
    } else {
      assert groups[i] in groups;
      SetGroup(groups, i, groups[i].(count := groups[i].count + 1, userIds := groups[i].userIds + [user]), e);
    }
  }

  lemma ReactGroupsRemove(groups: seq<ReactionGroup>, user: UserId, emoji: Emoji, e: Emoji)
    requires GroupsOk(groups) && user in GroupUsers(groups, emoji)
    ensures var r := ReactGroups(groups, user, emoji, Removed);
            GroupsOk(r) &&
            GroupUsers(r, e) == if e == emoji then Without(GroupUsers(groups, e), user) else GroupUsers(groups, e)
  {
    var i := GroupIndex(groups, emoji);
    var remaining := Without(groups[i].userIds, user);
    if remaining == [] {
      DropGroup(groups, i, e);
    } else {
      SetGroup(groups, i, groups[i].(count := |remaining|, userIds := remaining), e);
    }
  }

  lemma {:induction false} WithoutAbsent(users: seq<UserId>, user: UserId)
    requires user !in users
    ensures Without(users, user) == users
  {
    if users != [] {
      assert users == [users[0]] + users[1..];
      WithoutAbsent(users[1..], user);
    }
  }

  lemma {:induction false} WithoutGone(users: seq<UserId>, user: UserId)
    ensures user !in Without(users, user)
  {
    if users != [] {
      WithoutGone(users[1..], user);
    }
  }

  /** Whatever events were missed before, an event takes hold: its user is in the emoji's group exactly after an
      added one, nobody else's place changes, and one that says nothing new changes nothing. */
  lemma EventTakesHold(groups: seq<ReactionGroup>, user: UserId, emoji: Emoji, action: ReactionAction, e: Emoji)
    requires GroupsOk(groups)
    ensures var r, users := ReactGroups(groups, user, emoji, action), GroupUsers(groups, e);
            && GroupsOk(r)
            && GroupUsers(r, e) ==
               (if e != emoji then users
                else if action == Removed then Without(users, user)
                else if user in users then users else users + [user])
    ensures (user in GroupUsers(groups, emoji) <==> action == Added) ==>
              ReactGroups(groups, user, emoji, action) == groups
  {
    var known := user in GroupUsers(groups, emoji);
    if known && action == Removed {
      ReactGroupsRemove(groups, user, emoji, e);
    } else if !known && action == Added {
      ReactGroupsAdd(groups, user, emoji, e);
    } else if !known {
      WithoutAbsent(GroupUsers(groups, emoji), user);
    }
  }

  /** An event heard a second time changes nothing, and a deleted message takes no more edits or deletes. */
  lemma SecondHearing(m: ChatMessage, p: Patch)
    requires GroupsOk(m.reactions)
    ensures PatchRow(PatchRow(m, p), p) == PatchRow(m, p)
    ensures m.deletedAt.Some? && (p.Edit? || p.Delete?) ==> PatchRow(m, p) == m
  {
    if p.React? && p.id == m.id {
      var r := ReactGroups(m.reactions, p.user, p.emoji, p.action);
      EventTakesHold(m.reactions, p.user, p.emoji, p.action, p.emoji);
      WithoutGone(GroupUsers(m.reactions, p.emoji), p.user);
      EventTakesHold(r, p.user, p.emoji, p.action, p.emoji);
    }
  }

  /** One toggle: folding the announced action into the client's groups gives the new table's summary. */
  lemma ToggleAgrees(groups: seq<ReactionGroup>, table: ReactionTable, row: ReactionRow)
    requires Summarises(groups, table, row.message)
    ensures Summarises(ReactGroups(groups, row.user, row.emoji, ToggleAction(table, row)), Toggle(table, row),
            row.message)
  {
    InReactors(table, row);
    var r := ReactGroups(groups, row.user, row.emoji, ToggleAction(table, row));
    assert GroupUsers(groups, row.emoji) == Reactors(table, row.message, row.emoji);
    if row in table {
      ReactGroupsRemove(groups, row.user, row.emoji, row.emoji);
    } else {
      ReactGroupsAdd(groups, row.user, row.emoji, row.emoji);
    }
    forall e ensures GroupUsers(r, e) == Reactors(Toggle(table, row), row.message, e) {
      ReactorsToggle(table, row, row.message, e);
      if row in table {
        ReactGroupsRemove(groups, row.user, row.emoji, e);
      } else {
        ReactGroupsAdd(groups, row.user, row.emoji, e);
      }
    }
  }

  lemma ToggleElsewhere(groups: seq<ReactionGroup>, table: ReactionTable, row: ReactionRow, message: MessageId)
    requires Summarises(groups, table, message) && row.message != message
    ensures Summarises(groups, Toggle(table, row), message)
  {
    forall e ensures GroupUsers(groups, e) == Reactors(Toggle(table, row), message, e) {
      ReactorsToggle(table, row, message, e);
    }
  }

  function RunToggles(table: ReactionTable, rows: seq<ReactionRow>): ReactionTable {
    if rows == [] then table
    else Toggle(RunToggles(table, rows[..|rows| - 1]), rows[|rows| - 1])
  }

  /** The client's groups for one message after receiving the event of each toggle in turn. */
  function FoldEvents(groups: seq<ReactionGroup>, table: ReactionTable, rows: seq<ReactionRow>,
                      message: MessageId): seq<ReactionGroup> {
    if rows == [] then groups
    else
      var front, last := rows[..|rows| - 1], rows[|rows| - 1];
      var g := FoldEvents(groups, table, front, message);
      if last.message == message
      then ReactGroups(g, last.user, last.emoji, ToggleAction(RunToggles(table, front), last))
      else g
  }

  /** Any run of toggles: the client's groups keep summarising the server's table, so per emoji the
      reactors, their order and their count agree. */
  lemma {:induction false} ReactionAgreement(groups: seq<ReactionGroup>, table: ReactionTable,
                                             rows: seq<ReactionRow>, message: MessageId)
    requires Summarises(groups, table, message)
    ensures Summarises(FoldEvents(groups, table, rows, message), RunToggles(table, rows), message)
  {
    if rows != [] {
      var front, last := rows[..|rows| - 1], rows[|rows| - 1];
      ReactionAgreement(groups, table, front, message);
      var g := FoldEvents(groups, table, front, message);
      if last.message == message {
        ToggleAgrees(g, RunToggles(table, front), last);
      } else {
        ToggleElsewhere(g, RunToggles(table, front), last, message);
      }
    }
  }

  // ---- the server's grouping loop ----

  ghost predicate Grouped(result: map<MessageId, seq<ReactionGroup>>, rows: ReactionTable) {
    && (forall m | m in result :: Summarises(result[m], rows, m) && result[m] != [])
    && (forall m, e | m !in result :: Reactors(rows, m, e) == [])
  }

  ghost predicate Positioned(positions: map<(MessageId, Emoji), nat>, result: map<MessageId, seq<ReactionGroup>>) {
    && (forall k | k in positions :: k.0 in result && positions[k] < |result[k.0]|
            && result[k.0][positions[k]].emoji == k.1)
    && (forall m, i | m in result && 0 <= i < |result[m]| :: (m, result[m][i].emoji) in positions)
  }

  lemma AddedIs(groups: seq<ReactionGroup>, user: UserId, emoji: Emoji)
    requires user !in GroupUsers(groups, emoji)
    ensures ReactGroups(groups, user, emoji, Added) ==
            var i := GroupIndex(groups, emoji);
            if i == |groups| then groups + [ReactionGroup(emoji, 1, [user])]
            else groups[i := ReactionGroup(emoji, groups[i].count + 1, groups[i].userIds + [user])]
  {}

  /** The position index depends on each list's emoji only. */
  lemma SameEmojis(message: MessageId, groups: seq<ReactionGroup>, after: seq<ReactionGroup>,
                   positions: map<(MessageId, Emoji), nat>, result: map<MessageId, seq<ReactionGroup>>)
    requires Positioned(positions, result) && message in result && groups == result[message]
    requires |after| == |groups| && forall j | 0 <= j < |groups| :: after[j].emoji == groups[j].emoji
    ensures Positioned(positions, result[message := after])
  {
    var result': map<MessageId, seq<ReactionGroup>> := result[message := after];
    forall m, i | m in result' && 0 <= i < |result'[m]| ensures (m, result'[m][i].emoji) in positions {
      assert (m, result[m][i].emoji) in positions;
    }
  }

  /** A new group stands last. */
  lemma OneMoreEmoji(message: MessageId, groups: seq<ReactionGroup>, g: ReactionGroup,
                     positions: map<(MessageId, Emoji), nat>, result: map<MessageId, seq<ReactionGroup>>)
    requires Positioned(positions, result)
    requires groups == (if message in result then result[message] else []) && (message, g.emoji) !in positions
    ensures Positioned(positions[(message, g.emoji) := |groups|], result[message := groups + [g]])
  {
    var positions' := positions[(message, g.emoji) := |groups|];
    var result': map<MessageId, seq<ReactionGroup>> := result[message := groups + [g]];
    forall m, i | m in result' && 0 <= i < |result'[m]| ensures (m, result'[m][i].emoji) in positions' {
      if m != message || i < |groups| {
        assert (m, result[m][i].emoji) in positions;
      }
    }
    forall k | k in positions'
      ensures k.0 in result' && positions'[k] < |result'[k.0]| && result'[k.0][positions'[k]].emoji == k.1
    {
      assert k in positions || k == (message, g.emoji);
    }
  }

  lemma GroupedStep(row: ReactionRow, result: map<MessageId, seq<ReactionGroup>>,
                    result': map<MessageId, seq<ReactionGroup>>, rows: ReactionTable)
    requires Grouped(result, rows) && row !in rows
    requires var groups := if row.message in result then result[row.message] else [];
             result' == result[row.message := ReactGroups(groups, row.user, row.emoji, Added)]
    ensures Grouped(result', rows + [row])
  {
    var groups := if row.message in result then result[row.message] else [];
    assert Summarises(groups, rows, row.message);
    ToggleAgrees(groups, rows, row);
    forall m | m != row.message && m in result ensures Summarises(result[m], rows + [row], m) {
      ToggleElsewhere(result[m], rows, row, m);
    }
    forall m, e | m !in result' ensures Reactors(rows + [row], m, e) == [] {
      ReactorsToggle(rows, row, m, e);
    }
  }

  lemma GroupRowIsAdd(row: ReactionRow, groups: seq<ReactionGroup>, positions: map<(MessageId, Emoji), nat>,
                      result: map<MessageId, seq<ReactionGroup>>, rows: ReactionTable)
    requires groups == if row.message in result then result[row.message] else []
    requires Grouped(result, rows) && Positioned(positions, result) && row !in rows
    ensures row.user !in GroupUsers(groups, row.emoji)
    ensures GroupIndex(groups, row.emoji) ==
            if (row.message, row.emoji) in positions then positions[(row.message, row.emoji)] else |groups|
  {
    InReactors(rows, row);
    assert GroupUsers(groups, row.emoji) == Reactors(rows, row.message, row.emoji);
    var i := GroupIndex(groups, row.emoji);
    var key := (row.message, row.emoji);
    if key in positions {
      GroupUsersAt(groups, positions[key]);
    }
  }

  /** What the groups are after one more row: it joins its emoji's group, or opens one at the end. */
  function WithRow(row: ReactionRow, positions: map<(MessageId, Emoji), nat>, groups: seq<ReactionGroup>):
      seq<ReactionGroup>
    requires (row.message, row.emoji) in positions ==> positions[(row.message, row.emoji)] < |groups|
  {
    var key := (row.message, row.emoji);
    if key in positions then
      var g := groups[positions[key]];
      groups[positions[key] := ReactionGroup(g.emoji, g.count + 1, g.userIds + [row.user])]
    else groups + [ReactionGroup(row.emoji, 1, [row.user])]
  }

  lemma WithRowIsAdd(row: ReactionRow, groups: seq<ReactionGroup>, positions: map<(MessageId, Emoji), nat>,
                     result: map<MessageId, seq<ReactionGroup>>, rows: ReactionTable)
    requires groups == if row.message in result then result[row.message] else []
    requires Grouped(result, rows) && Positioned(positions, result) && row !in rows
    ensures (row.message, row.emoji) in positions ==>
              row.message in result && positions[(row.message, row.emoji)] < |groups|
              && groups[positions[(row.message, row.emoji)]].emoji == row.emoji
    ensures WithRow(row, positions, groups) == ReactGroups(groups, row.user, row.emoji, Added)
  {
    GroupRowIsAdd(row, groups, positions, result, rows);
    AddedIs(groups, row.user, row.emoji);
  }

  lemma RowGrouped(row: ReactionRow, groups: seq<ReactionGroup>, positions: map<(MessageId, Emoji), nat>,
                   result: map<MessageId, seq<ReactionGroup>>, rows: ReactionTable)
    requires groups == if row.message in result then result[row.message] else []
    requires Grouped(result, rows) && Positioned(positions, result) && row !in rows
    ensures (row.message, row.emoji) in positions ==>
              row.message in result && positions[(row.message, row.emoji)] < |groups|
    ensures Grouped(result[row.message := WithRow(row, positions, groups)], rows + [row])
    ensures var key := (row.message, row.emoji);
            Positioned(if key in positions then positions else positions[key := |groups|],
                       result[row.message := WithRow(row, positions, groups)])
  {
    var key := (row.message, row.emoji);
    WithRowIsAdd(row, groups, positions, result, rows);
    GroupedStep(row, result, result[row.message := WithRow(row, positions, groups)], rows);
    if key in positions {
      SameEmojis(row.message, groups, WithRow(row, positions, groups), positions, result);
    } else {
      OneMoreEmoji(row.message, groups, ReactionGroup(row.emoji, 1, [row.user]), positions, result);
    }
  }

  /** One iteration of `ListReactionsForMessages`: a repeated (message, emoji) pair accumulates into
      its group, a new one opens a group at the end. */
  method GroupRow(row: ReactionRow, positions: map<(MessageId, Emoji), nat>,
                  result: map<MessageId, seq<ReactionGroup>>, ghost rows: ReactionTable)
    returns (positions': map<(MessageId, Emoji), nat>, result': map<MessageId, seq<ReactionGroup>>)
    requires Grouped(result, rows) && Positioned(positions, result) && row !in rows
    ensures Grouped(result', rows + [row]) && Positioned(positions', result')
  {
    var key := (row.message, row.emoji);
    var groups := if row.message in result then result[row.message] else [];
    RowGrouped(row, groups, positions, result, rows);
    positions' := positions;
    if key in positions {
      var pos := positions[key];
      var g := groups[pos];
      groups := groups[pos := ReactionGroup(g.emoji, g.count + 1, g.userIds + [row.user])];
    } else {
      groups := groups + [ReactionGroup(row.emoji, 1, [row.user])];
      positions' := positions[key := |groups| - 1];
    }
    result' := result[row.message := groups];
  }

  /** The rows the query returns for `ids`: per message, that message's rows in creation order. */
  ghost predicate Answers(rows: ReactionTable, table: ReactionTable, ids: set<MessageId>) {
    && (forall i, j | 0 <= i < j < |rows| :: rows[i] != rows[j])
    && (forall m, e :: Reactors(rows, m, e) == if m in ids then Reactors(table, m, e) else [])
  }

  /** `ListReactionsForMessages`: each listed message's groups summarise the table; a message absent
      from the result has no reaction. */
  method ListReactionsForMessages(rows: ReactionTable, ghost table: ReactionTable, ghost ids: set<MessageId>)
    returns (result: map<MessageId, seq<ReactionGroup>>)
    requires Answers(rows, table, ids)
    ensures forall m | m in result :: m in ids && Summarises(result[m], table, m)
    ensures forall m, e | m in ids && m !in result :: Reactors(table, m, e) == []
  {
    result := map[];
    var positions: map<(MessageId, Emoji), nat> := map[];
    for i := 0 to |rows|
      invariant Grouped(result, rows[..i]) && Positioned(positions, result)
    {
      assert rows[..i + 1] == rows[..i] + [rows[i]];
      positions, result := GroupRow(rows[i], positions, result, rows[..i]);
    }
    assert rows[..|rows|] == rows;
    forall m | m in result ensures m in ids && Summarises(result[m], table, m) {
      var e := result[m][0].emoji;
      GroupUsersAt(result[m], 0);
      assert result[m][0] in result[m];
      assert Reactors(rows, m, e) != [];
    }
  }
}
