/** What holds over whole runs of the membership handlers. */
module RoomRuns {
  import opened ChatTypes
  import opened Rooms
  import opened RoomEffects

  datatype Call = Call(req: Request, env: Env)

  /** A run: consecutive states, each produced by a handler from the one before. */
  ghost predicate IsRun(states: seq<Db>, calls: seq<Call>) {
    && |states| == |calls| + 1
    && forall i | 0 <= i < |calls| ::
         && Supplied(calls[i].req, calls[i].env) && Fresh(states[i], calls[i].env)
         && states[i + 1] == Next(states[i], calls[i].req, calls[i].env).0
  }

  lemma RunTail(states: seq<Db>, calls: seq<Call>)
    requires IsRun(states, calls) && calls != []
    ensures IsRun(states[1..], calls[1..])
  {
    forall i | 0 <= i < |calls| - 1
      ensures && Supplied(calls[1..][i].req, calls[1..][i].env) && Fresh(states[1..][i], calls[1..][i].env)
              && states[1..][i + 1] == Next(states[1..][i], calls[1..][i].req, calls[1..][i].env).0
    {
      assert calls[1..][i] == calls[i + 1] && states[1..][i] == states[i + 1];
    }
  }

  lemma {:induction false} RunInv(states: seq<Db>, calls: seq<Call>)
    requires IsRun(states, calls) && Inv(states[0])
    ensures Inv(states[|calls|])
  {
    if calls != [] {
      StepInv(states[0], calls[0].req, calls[0].env);
      RunTail(states, calls);
      RunInv(states[1..], calls[1..]);
    }
  }

  // ---- admin succession ----

  /** In every reachable state a group or private channel that has an active member has an active admin. */
  lemma AdminSuccession(users: set<UserId>, states: seq<Db>, calls: seq<Call>, r: RoomId)
    requires IsRun(states, calls) && states[0] == Db(users, map[])
    requires r in states[|calls|].rooms && InviteOnly(states[|calls|].rooms[r])
    ensures Actives(states[|calls|].rooms[r].rows) != {} ==> Admins(states[|calls|].rooms[r].rows) != {}
  {
    RunInv(states, calls);
    assert RoomOk(states[|calls|].rooms[r]);
  }

  ghost predicate EmptyRoom(db: Db, r: RoomId) {
    r in db.rooms && InviteOnly(db.rooms[r]) && Actives(db.rooms[r].rows) == {}
  }

  lemma EmptyStepStays(db: Db, req: Request, env: Env, r: RoomId)
    requires Fresh(db, env) && Supplied(req, env) && EmptyRoom(db, r)
    ensures EmptyRoom(Next(db, req, env).0, r)
  {
    var rows := db.rooms[r].rows;
    assert forall u :: !Active(rows, u) by {
      forall u ensures !Active(rows, u) {
        assert u !in Actives(rows);
      }
    }
  }

  /** Once emptied, a group or private channel stays empty. */
  lemma {:induction false} EmptiedStaysEmpty(states: seq<Db>, calls: seq<Call>, r: RoomId)
    requires IsRun(states, calls) && EmptyRoom(states[0], r)
    ensures EmptyRoom(states[|calls|], r)
  {
    if calls != [] {
      EmptyStepStays(states[0], calls[0].req, calls[0].env, r);
      RunTail(states, calls);
      EmptiedStaysEmpty(states[1..], calls[1..], r);
    }
  }

  /** The rows a request leaves in room `r`, other than by a self-join. */
  ghost predicate Rewritten(room: Room, rows': Rows, req: Request, env: Env) {
    match req
    case Invite(c, _, u) =>
      ActiveAdmin(room.rows, c) && u in env.rowIds && !Active(room.rows, u) && rows' == AddMember(room.rows, u, env)
    case LeaveRoom(u, _) => Active(room.rows, u) && rows' == Promote(room.kind, RemoveMember(room.rows, u, env.at))
    case ChangeRole(_, _, u, role) =>
      Active(room.rows, u) && (room.rows[u].role == Admin ==> |Admins(room.rows)| > 1)
          && rows' == SetRole(room.rows, u, role)
    case Kick(c, _, u) => ActiveAdmin(room.rows, c) && c != u && Active(room.rows, u)
        && rows' == BanMember(room.rows, u, env.at)
    case _ => false
  }

  lemma StepRewrites(db: Db, req: Request, env: Env, r: RoomId)
    requires Fresh(db, env) && Supplied(req, env) && r in db.rooms && db.rooms[r].kind != Direct
    requires !(req.JoinChannel? && req.room == r)
    ensures var rooms' := Next(db, req, env).0.rooms;
            r in rooms' && (rooms'[r].rows == db.rooms[r].rows || Rewritten(db.rooms[r], rooms'[r].rows, req, env))
  {}

  lemma RewriteGoverned(room: Room, rows': Rows, req: Request, env: Env)
    requires RoomOk(room) && room.kind != Direct && Governed(room.rows) && Rewritten(room, rows', req, env)
    ensures Governed(rows')
  {
    match req {
      case Invite(c, _, u) => assert c in Admins(rows');
      case LeaveRoom(u, _) => PromoteGoverns(room.kind, RemoveMember(room.rows, u, env.at));
      case ChangeRole(_, _, u, role) => SetRoleOk(room, u, role);
      case Kick(c, _, u) => assert c in Admins(rows');
    }
  }

  lemma SelfJoinCase(db: Db, u: UserId, env: Env, r: RoomId)
    requires u in env.rowIds && r in db.rooms && Governed(db.rooms[r].rows)
    ensures r in Next(db, JoinChannel(u, r), env).0.rooms
    ensures !Governed(Next(db, JoinChannel(u, r), env).0.rooms[r].rows) <==>
            Next(db, JoinChannel(u, r), env).1 == Done(r) && Actives(db.rooms[r].rows) == {}
  {
    if Next(db, JoinChannel(u, r), env).1 == Done(r) {
      SelfJoinGoverned(db.rooms[r].rows, u, env);
    }
  }

  /** The only step that takes a governed room to one with members but no admin is a self-join into an
      emptied public channel, and that step always does. */
  lemma OnlySelfJoinBreaks(db: Db, req: Request, env: Env, r: RoomId)
    requires Inv(db) && Fresh(db, env) && Supplied(req, env)
    requires r in db.rooms && db.rooms[r].kind != Direct && Governed(db.rooms[r].rows)
    ensures r in Next(db, req, env).0.rooms
    ensures !Governed(Next(db, req, env).0.rooms[r].rows) <==>
            req.JoinChannel? && req.room == r && Next(db, req, env).1 == Done(r) && Actives(db.rooms[r].rows) == {}
  {
    if req.JoinChannel? && req.room == r {
      SelfJoinCase(db, req.caller, env, r);
    } else {
      StepRewrites(db, req, env, r);
      var rows' := Next(db, req, env).0.rooms[r].rows;
      if Rewritten(db.rooms[r], rows', req, env) {
        RewriteGoverned(db.rooms[r], rows', req, env);
      }
    }
  }

  lemma SelfJoinGoverned(rows: Rows, u: UserId, env: Env)
    requires u in env.rowIds && !Active(rows, u) && Governed(rows)
    ensures Governed(AddMember(rows, u, env)) <==> Actives(rows) != {}
  {
    var rows' := AddMember(rows, u, env);
    assert Admins(rows') == Admins(rows) by {
      forall v ensures v in Admins(rows') <==> v in Admins(rows) {}
    }
    assert u in Actives(rows');
  }

  /** A leave from a channel or group always ends governed, even where members had no admin before: if
      no admin remains, the longest-tenured remaining member is promoted, and nothing else changes. */
  lemma LeaveRestores(db: Db, u: UserId, r: RoomId, env: Env)
    requires r in db.rooms && db.rooms[r].kind != Direct && Active(db.rooms[r].rows, u)
    ensures var rows := db.rooms[r].rows;
            var rows' := Next(db, LeaveRoom(u, r), env).0.rooms[r].rows;
            && Governed(rows')
            && Actives(rows') == Actives(rows) - {u}
            && (Admins(rows) - {u} != {} || Actives(rows) == {u} ==>
                  rows' == rows[u := rows[u].(leftAt := Some(env.at))])
            && (Admins(rows) - {u} == {} && Actives(rows) != {u} ==>
                  exists w | w in rows && w != u && Active(rows, w) ::
                    && (forall v | v in Actives(rows) - {u} ::
                          rows[w].joinedAt < rows[v].joinedAt
                          || (rows[w].joinedAt == rows[v].joinedAt && rows[w].rowId <= rows[v].rowId))
                    && rows' == rows[u := rows[u].(leftAt := Some(env.at))][w := rows[w].(role := Admin)])
  {
    var rows := db.rooms[r].rows;
    var rest := RemoveMember(rows, u, env.at);
    PromoteGoverns(db.rooms[r].kind, rest);
    assert Actives(rest) == Actives(rows) - {u};
    assert Admins(rest) == Admins(rows) - {u};
    if Actives(rows) == {u} {
      assert Actives(rest) == {};
    } else if Admins(rest) == {} {
      assert Actives(rest) != {} by { assert u in Actives(rows) && Actives(rows) == Actives(rest) + {u}; }
      var w := Oldest(rest);
      assert w in Actives(rest);
    }
  }

  // ---- direct rooms ----

  /** Rooms are never deleted, keep their kind, and only gain rows. */
  lemma StepGrows(db: Db, req: Request, env: Env, r: RoomId)
    requires Fresh(db, env) && Supplied(req, env) && r in db.rooms
    ensures var db' := Next(db, req, env).0;
            && db'.users == db.users && r in db'.rooms
            && db'.rooms[r].kind == db.rooms[r].kind
            && db.rooms[r].rows.Keys <= db'.rooms[r].rows.Keys
  {}

  lemma {:induction false} DirectKept(states: seq<Db>, calls: seq<Call>, r: RoomId, a: UserId, b: UserId)
    requires IsRun(states, calls) && IsDirectOf(states[0], r, a, b)
    ensures IsDirectOf(states[|calls|], r, a, b) && states[|calls|].users == states[0].users
  {
    if calls != [] {
      StepGrows(states[0], calls[0].req, calls[0].env, r);
      RunTail(states, calls);
      assert states[1..][0] == states[1] && states[1..][|calls| - 1] == states[|calls|];
      DirectKept(states[1..], calls[1..], r, a, b);
    }
  }

  /** In every reachable state a pair of users has at most one direct room, and it has exactly their two
      rows, neither of them ever admin or banned. */
  lemma DirectRoomShape(users: set<UserId>, states: seq<Db>, calls: seq<Call>, r: RoomId, s: RoomId, a: UserId,
                        b: UserId)
    requires IsRun(states, calls) && states[0] == Db(users, map[]) && a != b
    requires IsDirectOf(states[|calls|], r, a, b)
    ensures IsPair(states[|calls|].rooms[r].rows, a, b)
    ensures IsDirectOf(states[|calls|], s, a, b) ==> s == r
  {
    RunInv(states, calls);
    var rows := states[|calls|].rooms[r].rows;
    assert RoomOk(states[|calls|].rooms[r]);
    var x, y :| IsPair(rows, x, y);
    assert a in rows.Keys && b in rows.Keys;
    assert rows.Keys == {a, b};
  }

  lemma OpenExisting(db: Db, r: RoomId, x: UserId, y: UserId, env: Env)
    requires Inv(db) && x != y && y in db.users && IsDirectOf(db, r, x, y) && Supplied(OpenDirect(x, y), env)
    ensures Next(db, OpenDirect(x, y), env).1 == Done(r)
    ensures Active(Next(db, OpenDirect(x, y), env).0.rooms[r].rows, x)
    ensures Active(Next(db, OpenDirect(x, y), env).0.rooms[r].rows, y)
  {
    assert HasDirect(db, x, y);
    var s := DirectOf(db, x, y);
    assert IsDirectOf(db, s, x, y) && s == r;
  }

  /** Asking for a direct room again, from either side and after anything that happened in between,
      returns the same room with both sides active. */
  lemma DirectRoomResumes(states: seq<Db>, calls: seq<Call>, a: UserId, b: UserId, r: RoomId, x: UserId, y: UserId,
                          env: Env)
    requires IsRun(states, calls) && Inv(states[0]) && calls != []
    requires calls[0].req == OpenDirect(a, b) && Next(states[0], calls[0].req, calls[0].env).1 == Done(r)
    requires {x, y} == {a, b} && y in states[0].users && Supplied(OpenDirect(x, y), env)
    ensures var (db, outcome) := Next(states[|calls|], OpenDirect(x, y), env);
            outcome == Done(r) && Active(db.rooms[r].rows, x) && Active(db.rooms[r].rows, y)
  {
    StepInv(states[0], calls[0].req, calls[0].env);
    assert IsDirectOf(states[1], r, a, b);
    RunTail(states, calls);
    DirectKept(states[1..], calls[1..], r, a, b);
    RunInv(states[1..], calls[1..]);
    assert a != b;
    assert x != y && IsDirectOf(states[|calls|], r, x, y) by { PairSame(a, b, x, y); }
    OpenExisting(states[|calls|], r, x, y, env);
  }

  lemma PairSame(a: UserId, b: UserId, x: UserId, y: UserId)
    requires {x, y} == {a, b} && a != b
    ensures (x == a && y == b) || (x == b && y == a)
  {
    assert x in {a, b} && y in {a, b} && a in {x, y} && b in {x, y};
  }

  // ---- bans ----

  lemma BannedHasLeft(db: Db, r: RoomId, u: UserId)
    requires Inv(db) && BannedIn(db, r, u)
    ensures !ActiveIn(db, r, u)
  {
    assert RoomOk(db.rooms[r]);
  }

  /** In every reachable state a banned user has departed. Direct rooms matter here: resuming one clears
      only `left_at`, and is harmless because nobody is ever banned there. */
  lemma BannedIsDeparted(users: set<UserId>, states: seq<Db>, calls: seq<Call>, r: RoomId, u: UserId)
    requires IsRun(states, calls) && states[0] == Db(users, map[])
    requires BannedIn(states[|calls|], r, u)
    ensures !ActiveIn(states[|calls|], r, u)
  {
    RunInv(states, calls);
    BannedHasLeft(states[|calls|], r, u);
  }

  /** A ban is lifted by exactly one kind of step: an invite by an active admin of the room. */
  lemma BanStep(db: Db, req: Request, env: Env, r: RoomId, u: UserId)
    requires Inv(db) && Fresh(db, env) && Supplied(req, env) && BannedIn(db, r, u)
    ensures !BannedIn(Next(db, req, env).0, r, u) <==>
            req.Invite? && req.room == r && req.who == u && IsAdminOf(db, r, req.caller) && u in db.users
  {
    BannedHasLeft(db, r, u);
  }

  /** A banned user is active again only after an admin's invite. */
  lemma {:induction false} BannedUntilInvited(states: seq<Db>, calls: seq<Call>, r: RoomId, u: UserId) returns (i: nat)
    requires IsRun(states, calls) && Inv(states[0])
    requires BannedIn(states[0], r, u) && ActiveIn(states[|calls|], r, u)
    ensures i < |calls|
    ensures calls[i].req.Invite? && calls[i].req.room == r && calls[i].req.who == u
    ensures IsAdminOf(states[i], r, calls[i].req.caller)
  {
    BannedHasLeft(states[0], r, u);
    BanStep(states[0], calls[0].req, calls[0].env, r, u);
    if BannedIn(states[1], r, u) {
      StepInv(states[0], calls[0].req, calls[0].env);
      RunTail(states, calls);
      i := BannedUntilInvited(states[1..], calls[1..], r, u);
      i := i + 1;
    } else {
      i := 0;
    }
  }

  /** From an admin's kick of an active member on: the user is active again only after an admin's invite. */
  lemma KickedUntilInvited(states: seq<Db>, calls: seq<Call>, c: UserId, r: RoomId, u: UserId) returns (i: nat)
    requires IsRun(states, calls) && Inv(states[0]) && calls != []
    requires calls[0].req == Kick(c, r, u) && IsAdminOf(states[0], r, c) && u != c && ActiveIn(states[0], r, u)
    requires ActiveIn(states[|calls|], r, u)
    ensures 0 < i < |calls|
    ensures calls[i].req.Invite? && calls[i].req.room == r && calls[i].req.who == u
    ensures IsAdminOf(states[i], r, calls[i].req.caller)
  {
    KickExactly(states[0], c, r, u, calls[0].env);
    StepInv(states[0], calls[0].req, calls[0].env);
    RunTail(states, calls);
    i := BannedUntilInvited(states[1..], calls[1..], r, u);
    i := i + 1;
  }

  /** `ListPublicChannels`, as the ids it lists. */
  function PublicChannels(db: Db, u: UserId): set<RoomId> {
    set r | r in db.rooms && Joinable(db, r) && !Active(db.rooms[r].rows, u) && !Banned(db.rooms[r].rows, u)
  }

  /** A channel is in a user's browse list exactly when that user's self-join would succeed, and then
      joining makes them a plain active member and removes it from the list. */
  lemma BrowseListExact(db: Db, u: UserId, r: RoomId, env: Env)
    requires u in env.rowIds
    ensures r in PublicChannels(db, u) <==> Next(db, JoinChannel(u, r), env).1.Done?
    ensures r in PublicChannels(db, u) ==>
              var db' := Next(db, JoinChannel(u, r), env).0;
              ActiveIn(db', r, u) && !IsAdminOf(db', r, u) && PublicChannels(db', u) == PublicChannels(db, u) - {r}
  {
    if r in PublicChannels(db, u) {
      var db' := Next(db, JoinChannel(u, r), env).0;
      assert forall s | s in db.rooms && s != r :: db'.rooms[s] == db.rooms[s];
    }
  }
}
