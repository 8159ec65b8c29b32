/** Room membership (internal/store/rooms.go, internal/handlers/rooms.go, middleware.go).

    Each request handler is one atomic step on the tables. A room carries its `room_members` rows,
    keyed by user as the table's UNIQUE (room_id, user_id) demands. */
module Rooms {
  import opened ChatTypes

  datatype Kind = Channel | Group | Direct
  datatype Role = Admin | Member

  datatype Row = Row(rowId: nat, role: Role, joinedAt: Time, leftAt: Option<Time>, bannedAt: Option<Time>)

  type Rows = map<UserId, Row>

  datatype Room = Room(kind: Kind, isPublic: bool, isArchived: bool, rows: Rows)

  datatype Db = Db(users: set<UserId>, rooms: map<RoomId, Room>)

  /** Values a request draws from outside: the clock and fresh identifiers. */
  datatype Env = Env(at: Time, roomId: RoomId, rowIds: map<UserId, nat>)

  datatype Request =
    | CreateChannel(caller: UserId, isPublic: bool)
    | CreateGroup(caller: UserId, raw: seq<Option<UserId>>)
    | OpenDirect(caller: UserId, peer: UserId)
    | Invite(caller: UserId, room: RoomId, who: UserId)
    | JoinChannel(caller: UserId, room: RoomId)
    | LeaveRoom(caller: UserId, room: RoomId)
    | ChangeRole(caller: UserId, room: RoomId, target: UserId, role: Role)
    | Kick(caller: UserId, room: RoomId, target: UserId)

  datatype Outcome = Done(room: RoomId) | BadRequest | Forbidden | NotFound | Conflict

  const MIN_GROUP_MEMBERS: nat := 2

  // ---- rows of one room ----

  predicate Active(rows: Rows, u: UserId) {
    u in rows && rows[u].leftAt.None?
  }

  predicate ActiveAdmin(rows: Rows, u: UserId) {
    Active(rows, u) && rows[u].role == Admin
  }

  predicate Banned(rows: Rows, u: UserId) {
    u in rows && rows[u].bannedAt.Some?
  }

  function Actives(rows: Rows): set<UserId> {
    set u | u in rows && Active(rows, u)
  }

  function Admins(rows: Rows): set<UserId> {
    set u | u in rows && ActiveAdmin(rows, u)
  }

  /** Empty, or some active member is an admin. */
  predicate Governed(rows: Rows) {
    Actives(rows) != {} ==> Admins(rows) != {}
  }

  /** Longer tenure: earlier joined_at, then smaller row id. */
  predicate Senior(a: Row, b: Row) {
    a.joinedAt < b.joinedAt || (a.joinedAt == b.joinedAt && a.rowId <= b.rowId)
  }

  predicate IsOldest(rows: Rows, u: UserId) {
    Active(rows, u) && forall v | v in Actives(rows) :: Senior(rows[u], rows[v])
  }

  lemma {:induction false} SeniorExists(rows: Rows, s: set<UserId>) returns (u: UserId)
    requires s != {} && s <= rows.Keys
    ensures u in s && forall v | v in s :: Senior(rows[u], rows[v])
    decreases |s|
  {
    u :| u in s;
    var rest := s - {u};
    assert s == rest + {u};
    if rest != {} {
      var w := SeniorExists(rows, rest);
      if Senior(rows[w], rows[u]) {
        u := w;
      }
    }
  }

  /** The longest-tenured active member. */
  ghost function Oldest(rows: Rows): (u: UserId)
    requires Actives(rows) != {}
    ensures IsOldest(rows, u)
  {
    assert exists u :: IsOldest(rows, u) by {
      var u := SeniorExists(rows, Actives(rows));
      assert IsOldest(rows, u);
    }
    var u :| IsOldest(rows, u);
    u
  }

  // ---- store steps on one room's rows ----

  /** `AddMember`: a new row, or a departed one reactivated with its ban lifted. */
  function AddMember(rows: Rows, u: UserId, env: Env): Rows
    requires u in env.rowIds
  {
    var rowId := if u in rows then rows[u].rowId else env.rowIds[u];
    rows[u := Row(rowId, Member, env.at, None, None)]
  }

  function RemoveMember(rows: Rows, u: UserId, at: Time): Rows
    requires Active(rows, u)
  {
    rows[u := rows[u].(leftAt := Some(at))]
  }

  function BanMember(rows: Rows, u: UserId, at: Time): Rows
    requires Active(rows, u)
  {
    rows[u := rows[u].(leftAt := Some(at), bannedAt := Some(at))]
  }

  function SetRole(rows: Rows, u: UserId, role: Role): Rows
    requires Active(rows, u)
  {
    rows[u := rows[u].(role := role)]
  }

  /** `PromoteOldestIfNoAdmins`; a direct room is never touched. */
  ghost function Promote(kind: Kind, rows: Rows): Rows {
    if kind != Direct && Actives(rows) != {} && Admins(rows) == {} then SetRole(rows, Oldest(rows), Admin) else rows
  }

  /** `GetOrCreateDirectRoom`'s reactivation of whichever side had left; bans are not its business. */
  function Resume(rows: Rows, a: UserId, b: UserId, at: Time): Rows {
    map u | u in rows ::
      if (u == a || u == b) && rows[u].leftAt.Some? then rows[u].(leftAt := None, joinedAt := at) else rows[u]
  }

  // ---- lookups ----

  predicate IsDirectOf(db: Db, r: RoomId, a: UserId, b: UserId) {
    r in db.rooms && db.rooms[r].kind == Direct && a in db.rooms[r].rows && b in db.rooms[r].rows
  }

  predicate HasDirect(db: Db, a: UserId, b: UserId) {
    exists r | r in db.rooms :: IsDirectOf(db, r, a, b)
  }

  /** The direct room of a pair, whoever has left it. `Inv` makes it unique, so the query's ordering
      by age never decides. */
  ghost function DirectOf(db: Db, a: UserId, b: UserId): (r: RoomId)
    requires HasDirect(db, a, b)
    ensures IsDirectOf(db, r, a, b)
  {
    var r :| IsDirectOf(db, r, a, b);
    r
  }

  predicate IsAdminOf(db: Db, r: RoomId, u: UserId) {
    r in db.rooms && ActiveAdmin(db.rooms[r].rows, u)
  }

  predicate Joinable(db: Db, r: RoomId) {
    r in db.rooms && db.rooms[r].kind == Channel && db.rooms[r].isPublic && !db.rooms[r].isArchived
  }

  function WithRows(db: Db, r: RoomId, rows: Rows): Db
    requires r in db.rooms
  {
    db.(rooms := db.rooms[r := db.rooms[r].(rows := rows)])
  }

  function NewRows(env: Env, admin: Option<UserId>, others: set<UserId>): Rows
    requires others <= env.rowIds.Keys && (admin.Some? ==> admin.value in env.rowIds)
  {
    var plain := map u | u in others :: Row(env.rowIds[u], Member, env.at, None, None);
    if admin.None? then plain else plain[admin.value := Row(env.rowIds[admin.value], Admin, env.at, None, None)]
  }

  /** The users of a raw member list, where `None` stands for an entry that is not a UUID. */
  function Listed(raw: seq<Option<UserId>>): set<UserId> {
    set entry | entry in raw && entry.Some? :: entry.value
  }

  predicate ValidMembers(raw: seq<Option<UserId>>, creator: UserId) {
    None !in raw && Some(creator) !in raw && |Listed(raw)| >= MIN_GROUP_MEMBERS
  }

  /** The new rows a request inserts take row ids from `env`. */
  predicate Supplied(req: Request, env: Env) {
    match req
    case CreateChannel(c, _) => c in env.rowIds
    case CreateGroup(c, raw) => c in env.rowIds && forall u | u in Listed(raw) :: u in env.rowIds
    case OpenDirect(a, b) => a in env.rowIds && b in env.rowIds
    case Invite(_, _, u) => u in env.rowIds
    case JoinChannel(u, _) => u in env.rowIds
    case _ => true
  }

  // ---- requests ----

  ghost function Next(db: Db, req: Request, env: Env): (Db, Outcome)
    requires Supplied(req, env)
  {
    match req
    case CreateChannel(c, isPublic) =>
      var room := Room(Channel, isPublic, false, NewRows(env, Some(c), {}));
      (db.(rooms := db.rooms[env.roomId := room]), Done(env.roomId))
    case CreateGroup(c, raw) =>
      if !ValidMembers(raw, c) then (db, BadRequest)
      else if exists u | u in Listed(raw) :: u !in db.users then (db, NotFound)
      else
        var rows := NewRows(env, Some(c), Listed(raw));
        (db.(rooms := db.rooms[env.roomId := Room(Group, false, false, rows)]), Done(env.roomId))
    case OpenDirect(a, b) =>
      if a == b then (db, BadRequest)
      else if b !in db.users then (db, NotFound)
      else if HasDirect(db, a, b) then
        var r := DirectOf(db, a, b);
        (WithRows(db, r, Resume(db.rooms[r].rows, a, b, env.at)), Done(r))
      else
        (db.(rooms := db.rooms[env.roomId := Room(Direct, true, false, NewRows(env, None, {a, b}))]), Done(env.roomId))
    case Invite(c, r, u) =>
      if !IsAdminOf(db, r, c) then (db, Forbidden)
      else if u !in db.users then (db, NotFound)
      else if Active(db.rooms[r].rows, u) then (db, Conflict)
      else (WithRows(db, r, AddMember(db.rooms[r].rows, u, env)), Done(r))
    case JoinChannel(u, r) =>
      if !Joinable(db, r) || Banned(db.rooms[r].rows, u) then (db, Forbidden)
      else if Active(db.rooms[r].rows, u) then (db, Conflict)
      else (WithRows(db, r, AddMember(db.rooms[r].rows, u, env)), Done(r))
    case LeaveRoom(u, r) =>
      if !(r in db.rooms && Active(db.rooms[r].rows, u)) then (db, NotFound)
      else (WithRows(db, r, Promote(db.rooms[r].kind, RemoveMember(db.rooms[r].rows, u, env.at))), Done(r))
    case ChangeRole(c, r, u, role) =>
      if !IsAdminOf(db, r, c) then (db, Forbidden)
      else
        var rows := db.rooms[r].rows;
        if !Active(rows, u) then (db, NotFound)
        else if rows[u].role == role then (db, Done(r))
        else if rows[u].role == Admin && |Admins(rows)| <= 1 then (db, Conflict)
        else (WithRows(db, r, SetRole(rows, u, role)), Done(r))
    case Kick(c, r, u) =>
      if !IsAdminOf(db, r, c) then (db, Forbidden)
      else if u == c then (db, BadRequest)
      else if !Active(db.rooms[r].rows, u) then (db, NotFound)
      else (WithRows(db, r, BanMember(db.rooms[r].rows, u, env.at)), Done(r))
  }

  // ---- the invariant ----

  predicate DistinctRowIds(rows: Rows) {
    forall u, v | u in rows && v in rows && u != v :: rows[u].rowId != rows[v].rowId
  }

  /** Exactly two rows, both plain members and never banned. */
  ghost predicate IsPair(rows: Rows, a: UserId, b: UserId) {
    a != b && rows.Keys == {a, b} && forall u | u in rows :: rows[u].role == Member && rows[u].bannedAt.None?
  }

  /** Nobody can walk in: only an admin's invite adds members. */
  predicate InviteOnly(room: Room) {
    room.kind == Group || (room.kind == Channel && !room.isPublic)
  }

  ghost predicate RoomOk(room: Room) {
    && (forall u | u in room.rows && room.rows[u].bannedAt.Some? :: room.rows[u].leftAt.Some?)
    && DistinctRowIds(room.rows)
    && (room.kind == Direct ==> exists a, b :: IsPair(room.rows, a, b))
    && (InviteOnly(room) ==> Governed(room.rows))
  }

  ghost predicate OnePerPair(db: Db) {
    forall r, s, a, b | a != b && IsDirectOf(db, r, a, b) && IsDirectOf(db, s, a, b) :: r == s
  }

  ghost predicate Inv(db: Db) {
    OnePerPair(db) && forall r | r in db.rooms :: RoomOk(db.rooms[r])
  }

  /** Identifiers drawn for a request are new. */
  predicate Fresh(db: Db, env: Env) {
    && env.roomId !in db.rooms
    && (forall u, v | u in env.rowIds && v in env.rowIds && u != v :: env.rowIds[u] != env.rowIds[v])
    && (forall r, u, v | r in db.rooms && u in db.rooms[r].rows && v in env.rowIds ::
            db.rooms[r].rows[u].rowId != env.rowIds[v])
  }

  // ---- each store step keeps a room in order ----

  lemma NotDirectIfAdmin(room: Room, c: UserId)
    requires RoomOk(room) && ActiveAdmin(room.rows, c)
    ensures room.kind != Direct
  {}

  lemma AddMemberOk(room: Room, u: UserId, env: Env)
    requires RoomOk(room) && room.kind != Direct && u in env.rowIds && !Active(room.rows, u)
    requires forall v | v in room.rows :: room.rows[v].rowId != env.rowIds[u]
    requires InviteOnly(room) ==> Admins(room.rows) != {}
    ensures RoomOk(room.(rows := AddMember(room.rows, u, env)))
  {
    var rows := AddMember(room.rows, u, env);
    if InviteOnly(room) {
      var c :| c in Admins(room.rows);
      assert c in Admins(rows);
    }
  }

  lemma BanMemberOk(room: Room, u: UserId, c: UserId, at: Time)
    requires RoomOk(room) && Active(room.rows, u) && ActiveAdmin(room.rows, c) && u != c
    ensures RoomOk(room.(rows := BanMember(room.rows, u, at)))
  {
    NotDirectIfAdmin(room, c);
    assert c in Admins(BanMember(room.rows, u, at));
  }

  lemma AnotherMember(s: set<UserId>, u: UserId) returns (c: UserId)
    requires |s| > 1
    ensures c in s && c != u
  {
    assert s <= (s - {u}) + {u};
    assert |s| <= |(s - {u}) + {u}| <= |s - {u}| + 1 by { SubsetSize(s, (s - {u}) + {u}); }
    c :| c in s - {u};
  }

  /** A role change never leaves a governed room without an admin. */
  lemma SetRoleOk(room: Room, u: UserId, role: Role)
    requires RoomOk(room) && room.kind != Direct && Active(room.rows, u)
    requires room.rows[u].role == Admin ==> |Admins(room.rows)| > 1
    ensures Governed(room.rows) ==> Governed(SetRole(room.rows, u, role))
    ensures RoomOk(room.(rows := SetRole(room.rows, u, role)))
  {
    var rows := SetRole(room.rows, u, role);
    assert Actives(rows) == Actives(room.rows);
    if Admins(room.rows) != {} {
      if room.rows[u].role == Admin {
        var c := AnotherMember(Admins(room.rows), u);
        assert c in Admins(rows);
      } else {
        var c :| c in Admins(room.rows);
        assert c in Admins(rows);
      }
    }
  }

  /** After a departure the room is governed again, whatever it was before. */
  lemma PromoteGoverns(kind: Kind, rows: Rows)
    requires kind != Direct
    ensures Governed(Promote(kind, rows))
    ensures Actives(Promote(kind, rows)) == Actives(rows)
  {
    if Actives(rows) != {} && Admins(rows) == {} {
      assert Oldest(rows) in Admins(Promote(kind, rows));
    }
  }

  lemma PromoteOk(room: Room, rows: Rows)
    requires RoomOk(room) && room.kind != Direct && DistinctRowIds(rows)
    requires forall u | u in rows && rows[u].bannedAt.Some? :: rows[u].leftAt.Some?
    ensures RoomOk(room.(rows := Promote(room.kind, rows)))
  {
    PromoteGoverns(room.kind, rows);
    assert forall u | u in rows ::
        Promote(room.kind, rows)[u].(role := Admin) == rows[u].(role := Admin);
  }

  lemma RemoveMemberKeeps(rows: Rows, u: UserId, at: Time)
    requires Active(rows, u) && DistinctRowIds(rows)
    requires forall v | v in rows && rows[v].bannedAt.Some? :: rows[v].leftAt.Some?
    ensures DistinctRowIds(RemoveMember(rows, u, at))
    ensures forall v | v in rows && RemoveMember(rows, u, at)[v].bannedAt.Some? ::
            RemoveMember(rows, u, at)[v].leftAt.Some?
  {}

  lemma LeaveDirectOk(room: Room, u: UserId, at: Time)
    requires RoomOk(room) && room.kind == Direct && Active(room.rows, u)
    ensures RoomOk(room.(rows := RemoveMember(room.rows, u, at)))
  {
    RemoveMemberKeeps(room.rows, u, at);
    var a, b :| IsPair(room.rows, a, b);
    assert IsPair(RemoveMember(room.rows, u, at), a, b);
  }

  lemma LeaveOk(room: Room, u: UserId, at: Time)
    requires RoomOk(room) && Active(room.rows, u)
    ensures RoomOk(room.(rows := Promote(room.kind, RemoveMember(room.rows, u, at))))
  {
    if room.kind == Direct {
      LeaveDirectOk(room, u, at);
    } else {
      RemoveMemberKeeps(room.rows, u, at);
      PromoteOk(room, RemoveMember(room.rows, u, at));
    }
  }

  lemma ResumeOk(room: Room, a: UserId, b: UserId, at: Time)
    requires RoomOk(room) && room.kind == Direct
    ensures RoomOk(room.(rows := Resume(room.rows, a, b, at)))
  {
    var x, y :| IsPair(room.rows, x, y);
    assert IsPair(Resume(room.rows, a, b, at), x, y);
  }

  lemma NewRowsOk(env: Env, admin: Option<UserId>, others: set<UserId>, kind: Kind, isPublic: bool)
    requires others <= env.rowIds.Keys && (admin.Some? ==> admin.value in env.rowIds)
    requires forall u, v | u in env.rowIds && v in env.rowIds && u != v :: env.rowIds[u] != env.rowIds[v]
    requires if kind == Direct then admin.None? && (exists a, b | a != b :: others == {a, b}) else admin.Some?
    ensures RoomOk(Room(kind, isPublic, false, NewRows(env, admin, others)))
  {
    var rows := NewRows(env, admin, others);
    if kind == Direct {
      var a, b :| a != b && others == {a, b};
      assert IsPair(rows, a, b);
    } else {
      assert admin.value in Admins(rows);
    }
  }

  // ---- every request keeps the invariant ----

  lemma WithRowsInv(db: Db, r: RoomId, rows: Rows)
    requires Inv(db) && r in db.rooms && RoomOk(db.rooms[r].(rows := rows))
    requires db.rooms[r].kind == Direct ==> rows.Keys == db.rooms[r].rows.Keys
    ensures Inv(WithRows(db, r, rows))
  {
    var db' := WithRows(db, r, rows);
    forall s, t, a, b | a != b && IsDirectOf(db', s, a, b) && IsDirectOf(db', t, a, b) ensures s == t {
      assert IsDirectOf(db, s, a, b) && IsDirectOf(db, t, a, b);
    }
  }

  lemma DirectBefore(db: Db, r: RoomId, room: Room, s: RoomId, a: UserId, b: UserId)
    requires s != r && IsDirectOf(db.(rooms := db.rooms[r := room]), s, a, b)
    ensures IsDirectOf(db, s, a, b) && HasDirect(db, a, b)
  {}

  lemma NewRoomInv(db: Db, env: Env, room: Room)
    requires Inv(db) && env.roomId !in db.rooms && RoomOk(room)
    requires room.kind == Direct ==> forall a, b | a in room.rows && b in room.rows && a != b :: !HasDirect(db, a, b)
    ensures Inv(db.(rooms := db.rooms[env.roomId := room]))
  {
    var r := env.roomId;
    var db' := db.(rooms := db.rooms[r := room]);
    forall s, t, a, b | a != b && IsDirectOf(db', s, a, b) && IsDirectOf(db', t, a, b) ensures s == t {
      if s != r { DirectBefore(db, r, room, s, a, b); }
      if t != r { DirectBefore(db, r, room, t, a, b); }
    }
    assert forall s | s in db'.rooms :: RoomOk(db'.rooms[s]);
  }

  lemma OpenDirectInv(db: Db, a: UserId, b: UserId, env: Env)
    requires Inv(db) && Fresh(db, env) && Supplied(OpenDirect(a, b), env)
    ensures Inv(Next(db, OpenDirect(a, b), env).0)
  {
    if a != b && b in db.users {
      if HasDirect(db, a, b) {
        ResumeInv(db, DirectOf(db, a, b), a, b, env.at);
      } else {
        NewDirectInv(db, a, b, env);
      }
    }
  }

  lemma ResumeInv(db: Db, r: RoomId, a: UserId, b: UserId, at: Time)
    requires Inv(db) && IsDirectOf(db, r, a, b)
    ensures Inv(WithRows(db, r, Resume(db.rooms[r].rows, a, b, at)))
  {
    ResumeOk(db.rooms[r], a, b, at);
    WithRowsInv(db, r, Resume(db.rooms[r].rows, a, b, at));
  }

  lemma NewDirectInv(db: Db, a: UserId, b: UserId, env: Env)
    requires Inv(db) && Fresh(db, env) && a != b && a in env.rowIds && b in env.rowIds && !HasDirect(db, a, b)
    ensures Inv(db.(rooms := db.rooms[env.roomId := Room(Direct, true, false, NewRows(env, None, {a, b}))]))
  {
    var room := Room(Direct, true, false, NewRows(env, None, {a, b}));
    NewRowsOk(env, None, {a, b}, Direct, true);
    forall x, y | x in room.rows && y in room.rows && x != y ensures !HasDirect(db, x, y) {
      assert (x == a && y == b) || (x == b && y == a);
      assert HasDirect(db, x, y) ==> HasDirect(db, a, b) by {
        if s :| s in db.rooms && IsDirectOf(db, s, x, y) {
          assert IsDirectOf(db, s, a, b);
        }
      }
    }
    NewRoomInv(db, env, room);
  }

  lemma StepInv(db: Db, req: Request, env: Env)
    requires Inv(db) && Fresh(db, env) && Supplied(req, env)
    ensures Inv(Next(db, req, env).0)
  {
    match req {
      case CreateChannel(c, isPublic) =>
        NewRowsOk(env, Some(c), {}, Channel, isPublic);
        NewRoomInv(db, env, Room(Channel, isPublic, false, NewRows(env, Some(c), {})));
      case CreateGroup(c, raw) =>
        NewRowsOk(env, Some(c), Listed(raw), Group, false);
        NewRoomInv(db, env, Room(Group, false, false, NewRows(env, Some(c), Listed(raw))));
      case OpenDirect(a, b) => OpenDirectInv(db, a, b, env);
      case _ => MemberStepInv(db, req, env);
    }
  }

  lemma MemberStepInv(db: Db, req: Request, env: Env)
    requires Inv(db) && Fresh(db, env) && Supplied(req, env)
    requires !req.CreateChannel? && !req.CreateGroup? && !req.OpenDirect?
    ensures Inv(Next(db, req, env).0)
  {
    var (db', outcome) := Next(db, req, env);
    if db' != db {
      var r := req.room;
      var room := db.rooms[r];
      match req {
        case Invite(c, _, u) =>
          NotDirectIfAdmin(room, c);
          assert c in Admins(room.rows);
          AddMemberOk(room, u, env);
        case JoinChannel(u, _) => AddMemberOk(room, u, env);
        case LeaveRoom(u, _) => LeaveOk(room, u, env.at);
        case ChangeRole(c, _, u, role) =>
          NotDirectIfAdmin(room, c);
          SetRoleOk(room, u, role);
        case Kick(c, _, u) =>
          NotDirectIfAdmin(room, c);
          BanMemberOk(room, u, c, env.at);
      }
      WithRowsInv(db, r, db'.rooms[r].rows);
    }
  }
}
