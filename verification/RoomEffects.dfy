/** What each membership request does, as the people concerned see it: exactly when it is granted, who is then in
    the room, who is its admin, who is banned, and that nobody else is affected (internal/handlers/rooms.go:
    195-781, internal/store/rooms.go:57-610). A refused request changes nothing. */
module RoomEffects {
  import opened ChatTypes
  import opened Rooms

  predicate ActiveIn(db: Db, r: RoomId, u: UserId) {
    r in db.rooms && Active(db.rooms[r].rows, u)
  }

  predicate BannedIn(db: Db, r: RoomId, u: UserId) {
    r in db.rooms && Banned(db.rooms[r].rows, u)
  }

  /** The same room but for its members. */
  predicate SameKind(room: Room, room': Room) {
    room'.kind == room.kind && room'.isPublic == room.isPublic && room'.isArchived == room.isArchived
  }

  /** Every other room is as it was, and so are the users. */
  ghost predicate OnlyRoom(db: Db, db': Db, r: RoomId) {
    && db'.users == db.users && db'.rooms.Keys == db.rooms.Keys + {r}
    && forall s | s in db.rooms && s != r :: db'.rooms[s] == db.rooms[s]
  }

  /** Nobody's membership changes but that of `u` in `r`. */
  ghost predicate OnlyMember(db: Db, db': Db, r: RoomId, u: UserId) {
    && r in db.rooms && OnlyRoom(db, db', r) && SameKind(db.rooms[r], db'.rooms[r])
    && db'.rooms[r].rows.Keys == db.rooms[r].rows.Keys + {u}
    && forall v | v in db.rooms[r].rows && v != u :: db'.rooms[r].rows[v] == db.rooms[r].rows[v]
  }

  /** `u` is a plain member of `r` from `at` on, in the row kept for `u` if there was one. */
  ghost predicate PlainSince(db: Db, db': Db, r: RoomId, u: UserId, at: Time) {
    && ActiveIn(db', r, u) && !BannedIn(db', r, u) && !IsAdminOf(db', r, u)
    && db'.rooms[r].rows[u].joinedAt == at
    && (r in db.rooms && u in db.rooms[r].rows ==> db'.rooms[r].rows[u].rowId == db.rooms[r].rows[u].rowId)
  }

  lemma RefusedChangesNothing(db: Db, req: Request, env: Env)
    requires Supplied(req, env) && !Next(db, req, env).1.Done?
    ensures Next(db, req, env).0 == db
  {}

  /** A kick: the member is out and banned, and cannot walk back in. */
  lemma KickExactly(db: Db, c: UserId, r: RoomId, u: UserId, env: Env)
    ensures var (db', answer) := Next(db, Kick(c, r, u), env);
            && answer == (if !IsAdminOf(db, r, c) then Forbidden else if u == c then BadRequest
                          else if !ActiveIn(db, r, u) then NotFound else Done(r))
            && (answer.Done? ==>
                  && !ActiveIn(db', r, u) && BannedIn(db', r, u) && OnlyMember(db, db', r, u)
                  && db'.rooms[r].rows[u].leftAt == Some(env.at) == db'.rooms[r].rows[u].bannedAt
                  && forall later: Env | u in later.rowIds :: Next(db', JoinChannel(u, r), later) == (db', Forbidden))
  {}

  /** An invite by an admin brings anyone in as a plain member, a banned user too. */
  lemma InviteExactly(db: Db, c: UserId, r: RoomId, u: UserId, env: Env)
    requires u in env.rowIds
    ensures var (db', answer) := Next(db, Invite(c, r, u), env);
            && answer == (if !IsAdminOf(db, r, c) then Forbidden else if u !in db.users then NotFound
                          else if ActiveIn(db, r, u) then Conflict else Done(r))
            && (answer.Done? ==> PlainSince(db, db', r, u, env.at) && OnlyMember(db, db', r, u))
  {}

  /** A self-join needs an open channel and no ban. */
  lemma JoinExactly(db: Db, u: UserId, r: RoomId, env: Env)
    requires u in env.rowIds
    ensures var (db', answer) := Next(db, JoinChannel(u, r), env);
            && (answer == Forbidden <==>
                  || r !in db.rooms || db.rooms[r].kind != Channel || !db.rooms[r].isPublic || db.rooms[r].isArchived
                  || BannedIn(db, r, u))
            && (answer != Forbidden ==> answer == if ActiveIn(db, r, u) then Conflict else Done(r))
            && (answer.Done? ==> PlainSince(db, db', r, u, env.at) && OnlyMember(db, db', r, u))
  {}

  /** A leave takes the member out without a ban; the others stay, at most one of them promoted. */
  lemma LeaveExactly(db: Db, u: UserId, r: RoomId, env: Env)
    ensures var (db', answer) := Next(db, LeaveRoom(u, r), env);
            && answer == (if ActiveIn(db, r, u) then Done(r) else NotFound)
            && (answer.Done? ==>
                  && !ActiveIn(db', r, u) && (BannedIn(db', r, u) <==> BannedIn(db, r, u))
                  && OnlyRoom(db, db', r) && SameKind(db.rooms[r], db'.rooms[r])
                  && db'.rooms[r].rows[u].leftAt == Some(env.at)
                  && forall v | v in db.rooms[r].rows && v != u ::
                       v in db'.rooms[r].rows
                       && db'.rooms[r].rows[v].(role := Member) == db.rooms[r].rows[v].(role := Member))
  {
    if ActiveIn(db, r, u) {
      var rest := RemoveMember(db.rooms[r].rows, u, env.at);
      assert u !in Actives(rest);
    }
  }

  lemma SoleAdmin(rows: Rows, u: UserId)
    requires ActiveAdmin(rows, u)
    ensures |Admins(rows)| <= 1 <==> Admins(rows) == {u}
  {
    if |Admins(rows)| <= 1 && Admins(rows) != {u} {
      var v :| v in Admins(rows) && v != u;
      assert {u, v} <= Admins(rows);
      SubsetSize({u, v}, Admins(rows));
    }
  }

  /** A role change by an admin takes hold, unless it would demote the only admin. */
  lemma ChangeRoleExactly(db: Db, c: UserId, r: RoomId, u: UserId, role: Role, env: Env)
    ensures var (db', answer) := Next(db, ChangeRole(c, r, u, role), env);
            && answer == (if !IsAdminOf(db, r, c) then Forbidden else if !ActiveIn(db, r, u) then NotFound
                          else if role == Member && Admins(db.rooms[r].rows) == {u} then Conflict else Done(r))
            && (answer.Done? ==>
                  && ActiveIn(db', r, u) && (IsAdminOf(db', r, u) <==> role == Admin)
                  && OnlyMember(db, db', r, u)
                  && db'.rooms[r].rows[u].(role := Member) == db.rooms[r].rows[u].(role := Member))
  {
    if ActiveIn(db, r, u) {
      var rows := db.rooms[r].rows;
      if rows[u].role == Admin {
        SoleAdmin(rows, u);
      } else {
        assert u !in Admins(rows);
      }
    }
  }

  /** A new room has just the members asked for, all since now, none departed or banned. */
  ghost predicate JustCreated(db: Db, db': Db, env: Env, kind: Kind, isPublic: bool, members: set<UserId>,
                              admins: set<UserId>) {
    && env.roomId in db'.rooms && OnlyRoom(db, db', env.roomId)
    && var room := db'.rooms[env.roomId];
       && room.kind == kind && room.isPublic == isPublic && !room.isArchived
       && room.rows.Keys == members == Actives(room.rows) && Admins(room.rows) == admins
       && forall u | u in members :: u in env.rowIds
            && room.rows[u].rowId == env.rowIds[u] && room.rows[u].joinedAt == env.at && room.rows[u].bannedAt.None?
  }

  /** A channel is as public as asked, with its creator as only member and admin. */
  lemma CreateChannelExactly(db: Db, c: UserId, isPublic: bool, env: Env)
    requires c in env.rowIds
    ensures var (db', answer) := Next(db, CreateChannel(c, isPublic), env);
            answer == Done(env.roomId) && JustCreated(db, db', env, Channel, isPublic, {c}, {c})
  {
    var rows := Next(db, CreateChannel(c, isPublic), env).0.rooms[env.roomId].rows;
    assert Active(rows, c) && ActiveAdmin(rows, c);
  }

  /** A group is private, with the users listed, each once, and its creator as admin. */
  lemma CreateGroupExactly(db: Db, c: UserId, raw: seq<Option<UserId>>, env: Env)
    requires Supplied(CreateGroup(c, raw), env)
    ensures var (db', answer) := Next(db, CreateGroup(c, raw), env);
            && answer == (if None in raw || Some(c) in raw || |Listed(raw)| < 2 then BadRequest
                          else if !(Listed(raw) <= db.users) then NotFound else Done(env.roomId))
            && (answer.Done? ==> JustCreated(db, db', env, Group, false, Listed(raw) + {c}, {c}))
  {
    var (db', answer) := Next(db, CreateGroup(c, raw), env);
    if answer.Done? {
      var rows := db'.rooms[env.roomId].rows;
      assert Actives(rows) == Listed(raw) + {c};
      assert Some(c) !in raw && c !in Listed(raw);
      assert Admins(rows) == {c};
    }
  }

  /** A direct room of two users: theirs if they have one, with both back in it and nothing else about it changed,
      or a new one. */
  lemma OpenDirectExactly(db: Db, a: UserId, b: UserId, env: Env)
    requires Supplied(OpenDirect(a, b), env)
    ensures var (db', answer) := Next(db, OpenDirect(a, b), env);
            && (a == b ==> answer == BadRequest) && (a != b && b !in db.users ==> answer == NotFound)
            && (a != b && b in db.users ==> answer.Done?)
            && (answer.Done? && !HasDirect(db, a, b) ==>
                  answer == Done(env.roomId) && JustCreated(db, db', env, Direct, true, {a, b}, {}))
            && (answer.Done? && HasDirect(db, a, b) ==> Reopened(db, db', answer.room, a, b, env.at))
  {
    var (db', answer) := Next(db, OpenDirect(a, b), env);
    if answer.Done? && !HasDirect(db, a, b) {
      var rows := db'.rooms[env.roomId].rows;
      assert Actives(rows) == {a, b} && Admins(rows) == {};
    }
  }

  ghost predicate Reopened(db: Db, db': Db, r: RoomId, a: UserId, b: UserId, at: Time) {
    && IsDirectOf(db, r, a, b) && OnlyRoom(db, db', r) && SameKind(db.rooms[r], db'.rooms[r])
    && var rows, rows' := db.rooms[r].rows, db'.rooms[r].rows;
       && rows'.Keys == rows.Keys && Active(rows', a) && Active(rows', b)
       && forall u | u in rows ::
            if Active(rows, u) || (u != a && u != b) then rows'[u] == rows[u]
            else rows'[u] == rows[u].(leftAt := None, joinedAt := at)
  }
}
