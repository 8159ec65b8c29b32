/** Who is in a room, who is its admin and who is banned, read off the requests that were granted: in every run
    from empty tables, the last request that decides it. */
module RoomLog {
  import opened ChatTypes
  import opened Rooms
  import opened RoomEffects
  import opened RoomRuns

  /** The run, from empty tables. */
  ghost predicate FromScratch(users: set<UserId>, states: seq<Db>, calls: seq<Call>) {
    IsRun(states, calls) && states[0] == Db(users, map[])
  }

  ghost predicate Granted(db: Db, call: Call, r: RoomId)
    requires Supplied(call.req, call.env)
  {
    Next(db, call.req, call.env).1 == Done(r)
  }

  /** The `i`-th request of the run was granted, for room `r`. */
  ghost predicate GrantedAt(states: seq<Db>, calls: seq<Call>, r: RoomId, i: nat)
    requires IsRun(states, calls)
  {
    i < |calls| && Granted(states[i], calls[i], r)
  }

  // ---- what a request leaves alone ----

  ghost predicate SameStanding(db: Db, db': Db, r: RoomId, u: UserId) {
    && (ActiveIn(db', r, u) <==> ActiveIn(db, r, u))
    && (BannedIn(db', r, u) <==> BannedIn(db, r, u))
    && (IsAdminOf(db', r, u) <==> IsAdminOf(db, r, u))
  }

  lemma OthersKeep(db: Db, db': Db, s: RoomId, v: UserId, r: RoomId, u: UserId)
    requires OnlyMember(db, db', s, v) && (r != s || u != v)
    ensures SameStanding(db, db', r, u)
  {}

  lemma OtherRoomsKeep(db: Db, db': Db, s: RoomId, r: RoomId, u: UserId)
    requires OnlyRoom(db, db', s) && r != s
    ensures SameStanding(db, db', r, u)
  {}

  /** One member's request, or one about one member. */
  predicate AboutOne(req: Request) {
    req.Invite? || req.JoinChannel? || req.ChangeRole? || req.Kick?
  }

  function Subject(req: Request): UserId
    requires AboutOne(req)
  {
    match req
    case Invite(_, _, who) => who
    case JoinChannel(caller, _) => caller
    case ChangeRole(_, _, target, _) => target
    case Kick(_, _, target) => target
  }

  lemma OneChanges(db: Db, call: Call)
    requires Supplied(call.req, call.env) && AboutOne(call.req)
    ensures var (db', answer) := Next(db, call.req, call.env);
            if answer.Done? then answer == Done(call.req.room) && OnlyMember(db, db', call.req.room, Subject(call.req))
            else db' == db
  {
    match call.req {
      case Invite(c, s, v) => InviteExactly(db, c, s, v, call.env);
      case JoinChannel(v, s) => JoinExactly(db, v, s, call.env);
      case ChangeRole(c, s, v, role) => ChangeRoleExactly(db, c, s, v, role, call.env);
      case Kick(c, s, v) => KickExactly(db, c, s, v, call.env);
    }
  }

  lemma OneStanding(db: Db, call: Call, r: RoomId, u: UserId)
    requires Supplied(call.req, call.env) && AboutOne(call.req)
    requires !(Granted(db, call, r) && u == Subject(call.req))
    ensures SameStanding(db, Next(db, call.req, call.env).0, r, u)
  {
    OneChanges(db, call);
    if Next(db, call.req, call.env).1.Done? {
      OthersKeep(db, Next(db, call.req, call.env).0, call.req.room, Subject(call.req), r, u);
    }
  }

  predicate Creates(req: Request) {
    req.CreateChannel? || req.CreateGroup? || req.OpenDirect?
  }

  lemma CreationStanding(db: Db, call: Call, r: RoomId, u: UserId)
    requires Supplied(call.req, call.env) && Creates(call.req) && !Granted(db, call, r)
    ensures SameStanding(db, Next(db, call.req, call.env).0, r, u)
  {
    var (db', answer) := Next(db, call.req, call.env);
    match call.req {
      case CreateChannel(c, isPublic) => CreateChannelExactly(db, c, isPublic, call.env);
      case CreateGroup(c, raw) => CreateGroupExactly(db, c, raw, call.env);
      case OpenDirect(a, b) => OpenDirectExactly(db, a, b, call.env);
    }
    if answer.Done? {
      OtherRoomsKeep(db, db', answer.room, r, u);
    }
  }

  // ---- members ----

  /** The request, once granted, has `u` in the room. */
  predicate BringsIn(req: Request, u: UserId) {
    match req
    case CreateChannel(caller, _) => u == caller
    case CreateGroup(caller, raw) => u == caller || Some(u) in raw
    case OpenDirect(caller, peer) => u == caller || u == peer
    case Invite(_, _, who) => u == who
    case JoinChannel(caller, _) => u == caller
    case _ => false
  }

  predicate TakesOut(req: Request, u: UserId) {
    (req.LeaveRoom? && req.caller == u) || (req.Kick? && req.target == u)
  }

  ghost function Entries(states: seq<Db>, calls: seq<Call>, r: RoomId, u: UserId): nat -> bool
    requires IsRun(states, calls)
  {
    (i: nat) => GrantedAt(states, calls, r, i) && BringsIn(calls[i].req, u)
  }

  ghost function Exits(states: seq<Db>, calls: seq<Call>, r: RoomId, u: UserId): nat -> bool
    requires IsRun(states, calls)
  {
    (i: nat) => GrantedAt(states, calls, r, i) && TakesOut(calls[i].req, u)
  }

  lemma Listing(db: Db, r: RoomId)
    ensures r in db.rooms ==> forall u :: u in Actives(db.rooms[r].rows) <==> ActiveIn(db, r, u)
    ensures r in db.rooms ==> forall u :: u in Admins(db.rooms[r].rows) <==> IsAdminOf(db, r, u)
  {}

  lemma ListedIs(raw: seq<Option<UserId>>, u: UserId)
    ensures u in Listed(raw) <==> Some(u) in raw
  {
    if Some(u) in raw {
      assert Some(u).value == u;
    }
  }

  /** Who is in a room that was just created or reopened. */
  lemma CreatedMembers(db: Db, call: Call, r: RoomId, u: UserId)
    requires Supplied(call.req, call.env) && Fresh(db, call.env) && Creates(call.req) && Granted(db, call, r)
    ensures ActiveIn(Next(db, call.req, call.env).0, r, u) <==> BringsIn(call.req, u) || ActiveIn(db, r, u)
  {
    Listing(Next(db, call.req, call.env).0, r);
    match call.req {
      case CreateChannel(c, isPublic) => CreateChannelExactly(db, c, isPublic, call.env);
      case CreateGroup(c, raw) =>
        CreateGroupExactly(db, c, raw, call.env);
        ListedIs(raw, u);
      case OpenDirect(a, b) => OpenDirectExactly(db, a, b, call.env);
    }
  }

  lemma ActiveStep(db: Db, call: Call, r: RoomId, u: UserId)
    requires Supplied(call.req, call.env) && Fresh(db, call.env)
    ensures ActiveIn(Next(db, call.req, call.env).0, r, u) <==>
            || (Granted(db, call, r) && BringsIn(call.req, u))
            || (ActiveIn(db, r, u) && !(Granted(db, call, r) && TakesOut(call.req, u)))
  {
    if Creates(call.req) {
      if Granted(db, call, r) {
        CreatedMembers(db, call, r, u);
      } else {
        CreationStanding(db, call, r, u);
      }
    } else if AboutOne(call.req) {
      OneActive(db, call, r, u);
    } else {
      LeaveExactly(db, call.req.caller, call.req.room, call.env);
    }
  }

  lemma OneActive(db: Db, call: Call, r: RoomId, u: UserId)
    requires Supplied(call.req, call.env) && AboutOne(call.req)
    ensures ActiveIn(Next(db, call.req, call.env).0, r, u) <==>
            || (Granted(db, call, r) && BringsIn(call.req, u))
            || (ActiveIn(db, r, u) && !(Granted(db, call, r) && TakesOut(call.req, u)))
  {
    if Granted(db, call, r) && u == Subject(call.req) {
      match call.req {
        case Invite(c, s, v) => InviteExactly(db, c, s, v, call.env);
        case JoinChannel(v, s) => JoinExactly(db, v, s, call.env);
        case ChangeRole(c, s, v, role) => ChangeRoleExactly(db, c, s, v, role, call.env);
        case Kick(c, s, v) => KickExactly(db, c, s, v, call.env);
      }
    } else {
      OneStanding(db, call, r, u);
    }
  }

  /** Somebody is in a room exactly when they were let in and have since neither left nor been kicked. */
  lemma ActiveExactlyWhen(users: set<UserId>, states: seq<Db>, calls: seq<Call>, r: RoomId, u: UserId)
    requires FromScratch(users, states, calls)
    ensures ActiveIn(states[|calls|], r, u) <==> SinceThen(Entries(states, calls, r, u), Exits(states, calls, r, u))
  {
    var state := (i: nat) => i <= |calls| && ActiveIn(states[i], r, u);
    var on, off := Entries(states, calls, r, u), Exits(states, calls, r, u);
    forall i: nat | i < |calls| ensures state(i + 1) <==> on(i) || (state(i) && !off(i)) {
      ActiveStep(states[i], calls[i], r, u);
    }
    Latch(state, on, off, |calls|);
  }

  // ---- bans ----

  ghost function Kicks(states: seq<Db>, calls: seq<Call>, r: RoomId, u: UserId): nat -> bool
    requires IsRun(states, calls)
  {
    (i: nat) => GrantedAt(states, calls, r, i) && calls[i].req.Kick? && calls[i].req.target == u
  }

  ghost function Invites(states: seq<Db>, calls: seq<Call>, r: RoomId, u: UserId): nat -> bool
    requires IsRun(states, calls)
  {
    (i: nat) => GrantedAt(states, calls, r, i) && calls[i].req.Invite? && calls[i].req.who == u
  }

  lemma BannedStep(db: Db, call: Call, r: RoomId, u: UserId)
    requires Supplied(call.req, call.env) && Fresh(db, call.env)
    ensures BannedIn(Next(db, call.req, call.env).0, r, u) <==>
            || (Granted(db, call, r) && call.req.Kick? && call.req.target == u)
            || (BannedIn(db, r, u) && !(Granted(db, call, r) && call.req.Invite? && call.req.who == u))
  {
    if Creates(call.req) {
      if Granted(db, call, r) {
        CreatedBans(db, call, r, u);
      } else {
        CreationStanding(db, call, r, u);
      }
    } else if AboutOne(call.req) {
      OneBanned(db, call, r, u);
    } else {
      LeaveExactly(db, call.req.caller, call.req.room, call.env);
    }
  }

  lemma CreatedBans(db: Db, call: Call, r: RoomId, u: UserId)
    requires Supplied(call.req, call.env) && Fresh(db, call.env) && Creates(call.req) && Granted(db, call, r)
    ensures BannedIn(Next(db, call.req, call.env).0, r, u) <==> BannedIn(db, r, u)
  {
    match call.req {
      case CreateChannel(c, isPublic) => CreateChannelExactly(db, c, isPublic, call.env);
      case CreateGroup(c, raw) => CreateGroupExactly(db, c, raw, call.env);
      case OpenDirect(a, b) => OpenDirectExactly(db, a, b, call.env);
    }
  }

  lemma OneBanned(db: Db, call: Call, r: RoomId, u: UserId)
    requires Supplied(call.req, call.env) && AboutOne(call.req)
    ensures BannedIn(Next(db, call.req, call.env).0, r, u) <==>
            || (Granted(db, call, r) && call.req.Kick? && call.req.target == u)
            || (BannedIn(db, r, u) && !(Granted(db, call, r) && call.req.Invite? && call.req.who == u))
  {
    if Granted(db, call, r) && u == Subject(call.req) {
      match call.req {
        case Invite(c, s, v) => InviteExactly(db, c, s, v, call.env);
        case JoinChannel(v, s) => JoinExactly(db, v, s, call.env);
        case ChangeRole(c, s, v, role) => ChangeRoleExactly(db, c, s, v, role, call.env);
        case Kick(c, s, v) => KickExactly(db, c, s, v, call.env);
      }
    } else {
      OneStanding(db, call, r, u);
    }
  }

  /** Somebody is banned from a room exactly when they were kicked from it and not invited since. */
  lemma BannedExactlyWhen(users: set<UserId>, states: seq<Db>, calls: seq<Call>, r: RoomId, u: UserId)
    requires FromScratch(users, states, calls)
    ensures BannedIn(states[|calls|], r, u) <==> SinceThen(Kicks(states, calls, r, u), Invites(states, calls, r, u))
  {
    var state := (i: nat) => i <= |calls| && BannedIn(states[i], r, u);
    var on, off := Kicks(states, calls, r, u), Invites(states, calls, r, u);
    forall i: nat | i < |calls| ensures state(i + 1) <==> on(i) || (state(i) && !off(i)) {
      BannedStep(states[i], calls[i], r, u);
    }
    Latch(state, on, off, |calls|);
  }

  // ---- admins ----

  /** Somebody's leave makes `u` admin: no admin is left, and `u` has been in the room longest of those who stay. */
  ghost predicate Succeeds(db: Db, req: Request, r: RoomId, u: UserId) {
    && req.LeaveRoom? && r in db.rooms && db.rooms[r].kind != Direct
    && var rows := db.rooms[r].rows;
       && u != req.caller && Active(rows, u) && Admins(rows) - {req.caller} == {}
       && forall v | v in Actives(rows) && v != req.caller ::
            rows[u].joinedAt < rows[v].joinedAt
            || (rows[u].joinedAt == rows[v].joinedAt && rows[u].rowId <= rows[v].rowId)
  }

  /** The request, once granted, has `u` an admin of the room. */
  ghost predicate MakesAdmin(db: Db, req: Request, r: RoomId, u: UserId) {
    match req
    case CreateChannel(caller, _) => u == caller
    case CreateGroup(caller, _) => u == caller
    case ChangeRole(_, _, target, role) => u == target && role == Admin
    case _ => Succeeds(db, req, r, u)
  }

  predicate EndsAdmin(req: Request, u: UserId) {
    TakesOut(req, u) || (req.ChangeRole? && req.target == u && req.role == Member)
  }

  ghost function Promotions(states: seq<Db>, calls: seq<Call>, r: RoomId, u: UserId): nat -> bool
    requires IsRun(states, calls)
  {
    (i: nat) => GrantedAt(states, calls, r, i) && MakesAdmin(states[i], calls[i].req, r, u)
  }

  ghost function Demotions(states: seq<Db>, calls: seq<Call>, r: RoomId, u: UserId): nat -> bool
    requires IsRun(states, calls)
  {
    (i: nat) => GrantedAt(states, calls, r, i) && EndsAdmin(calls[i].req, u)
  }

  lemma PromoteAdmins(kind: Kind, rows: Rows, u: UserId)
    requires DistinctRowIds(rows)
    ensures ActiveAdmin(Promote(kind, rows), u) <==>
            || ActiveAdmin(rows, u)
            || (kind != Direct && Admins(rows) == {} && IsOldest(rows, u))
  {
    if kind != Direct && Actives(rows) != {} && Admins(rows) == {} {
      var w := Oldest(rows);
      assert u !in Admins(rows);
      if IsOldest(rows, u) {
        assert u in Actives(rows) && w in Actives(rows);
        assert Senior(rows[u], rows[w]) && Senior(rows[w], rows[u]);
      }
    } else if IsOldest(rows, u) {
      assert u in Actives(rows);
    } else {
      assert ActiveAdmin(rows, u) ==> u in Admins(rows);
    }
  }

  lemma LeaveAdmins(db: Db, v: UserId, r: RoomId, env: Env, u: UserId)
    requires Inv(db) && ActiveIn(db, r, v)
    ensures IsAdminOf(Next(db, LeaveRoom(v, r), env).0, r, u) <==>
            (Succeeds(db, LeaveRoom(v, r), r, u) || IsAdminOf(db, r, u)) && u != v
  {
    var rows := db.rooms[r].rows;
    var rest := RemoveMember(rows, v, env.at);
    assert RoomOk(db.rooms[r]);
    RemoveMemberKeeps(rows, v, env.at);
    PromoteAdmins(db.rooms[r].kind, rest, u);
    OldestOfRest(rows, v, env.at, u);
  }

  lemma OldestOfRest(rows: Rows, v: UserId, at: Time, u: UserId)
    requires Active(rows, v)
    ensures var rest := RemoveMember(rows, v, at);
            && Admins(rest) == Admins(rows) - {v} && (ActiveAdmin(rest, u) <==> ActiveAdmin(rows, u) && u != v)
            && (IsOldest(rest, u) <==>
                  u != v && Active(rows, u) && forall w | w in Actives(rows) && w != v :: Senior(rows[u], rows[w]))
  {
    var rest := RemoveMember(rows, v, at);
    assert Admins(rest) == Admins(rows) - {v} && Actives(rest) == Actives(rows) - {v};
    if u != v && Active(rows, u) && forall w | w in Actives(rows) && w != v :: Senior(rows[u], rows[w]) {
      forall w | w in Actives(rest) ensures Senior(rest[u], rest[w]) {
        assert w in Actives(rows) && w != v;
      }
    }
    if IsOldest(rest, u) {
      forall w | w in Actives(rows) && w != v ensures Senior(rows[u], rows[w]) {
        assert w in Actives(rest) && rest[w] == rows[w];
      }
    }
  }

  lemma AdminStep(db: Db, call: Call, r: RoomId, u: UserId)
    requires Inv(db) && Supplied(call.req, call.env) && Fresh(db, call.env)
    ensures IsAdminOf(Next(db, call.req, call.env).0, r, u) <==>
            || (Granted(db, call, r) && MakesAdmin(db, call.req, r, u))
            || (IsAdminOf(db, r, u) && !(Granted(db, call, r) && EndsAdmin(call.req, u)))
  {
    if Creates(call.req) {
      if Granted(db, call, r) {
        CreatedAdmins(db, call, r, u);
      } else {
        CreationStanding(db, call, r, u);
      }
    } else if AboutOne(call.req) {
      OneAdmin(db, call, r, u);
    } else {
      LeaveExactly(db, call.req.caller, call.req.room, call.env);
      if ActiveIn(db, call.req.room, call.req.caller) {
        LeaveAdmins(db, call.req.caller, call.req.room, call.env, u);
      }
    }
  }

  lemma OneAdmin(db: Db, call: Call, r: RoomId, u: UserId)
    requires Supplied(call.req, call.env) && AboutOne(call.req)
    ensures IsAdminOf(Next(db, call.req, call.env).0, r, u) <==>
            || (Granted(db, call, r) && MakesAdmin(db, call.req, r, u))
            || (IsAdminOf(db, r, u) && !(Granted(db, call, r) && EndsAdmin(call.req, u)))
  {
    if Granted(db, call, r) && u == Subject(call.req) {
      match call.req {
        case Invite(c, s, v) => InviteExactly(db, c, s, v, call.env);
        case JoinChannel(v, s) => JoinExactly(db, v, s, call.env);
        case ChangeRole(c, s, v, role) => ChangeRoleExactly(db, c, s, v, role, call.env);
        case Kick(c, s, v) => KickExactly(db, c, s, v, call.env);
      }
    } else {
      OneStanding(db, call, r, u);
    }
  }

  lemma CreatedAdmins(db: Db, call: Call, r: RoomId, u: UserId)
    requires Inv(db) && Supplied(call.req, call.env) && Fresh(db, call.env) && Creates(call.req) && Granted(db, call, r)
    ensures IsAdminOf(Next(db, call.req, call.env).0, r, u) <==>
            MakesAdmin(db, call.req, r, u) || IsAdminOf(db, r, u)
  {
    Listing(Next(db, call.req, call.env).0, r);
    match call.req {
      case CreateChannel(c, isPublic) => CreateChannelExactly(db, c, isPublic, call.env);
      case CreateGroup(c, raw) => CreateGroupExactly(db, c, raw, call.env);
      case OpenDirect(a, b) =>
        OpenDirectExactly(db, a, b, call.env);
        if r in db.rooms {
          PairHasNoAdmin(db, r, u);
        }
    }
  }

  lemma PairHasNoAdmin(db: Db, r: RoomId, u: UserId)
    requires Inv(db) && r in db.rooms && db.rooms[r].kind == Direct
    ensures u in db.rooms[r].rows ==> db.rooms[r].rows[u].role == Member
  {
    assert RoomOk(db.rooms[r]);
    var x, y :| IsPair(db.rooms[r].rows, x, y);
  }

  /** Somebody is an admin of a room exactly when they were made one (they created it, an admin made them one, or
      they succeeded as its longest-standing member) and have since neither left nor been kicked or demoted. */
  lemma AdminExactlyWhen(users: set<UserId>, states: seq<Db>, calls: seq<Call>, r: RoomId, u: UserId)
    requires FromScratch(users, states, calls)
    ensures IsAdminOf(states[|calls|], r, u) <==>
            SinceThen(Promotions(states, calls, r, u), Demotions(states, calls, r, u))
  {
    var state := (i: nat) => i <= |calls| && IsAdminOf(states[i], r, u);
    var on, off := Promotions(states, calls, r, u), Demotions(states, calls, r, u);
    forall i: nat | i < |calls| ensures state(i + 1) <==> on(i) || (state(i) && !off(i)) {
      PrefixInv(states, calls, i);
      AdminStep(states[i], calls[i], r, u);
    }
    Latch(state, on, off, |calls|);
  }

  lemma PrefixInv(states: seq<Db>, calls: seq<Call>, i: nat)
    requires IsRun(states, calls) && Inv(states[0]) && i <= |calls|
    ensures Inv(states[i])
  {
    RunInv(states[..i + 1], calls[..i]);
  }

  // ---- rooms ----

  /** The request, once granted for a room that was not there, makes it, of this kind. */
  predicate Makes(req: Request, kind: Kind, isPublic: bool) {
    match req
    case CreateChannel(_, asked) => kind == Channel && isPublic == asked
    case CreateGroup(_, _) => kind == Group && !isPublic
    case OpenDirect(_, _) => kind == Direct && isPublic
    case _ => false
  }

  ghost function Creations(states: seq<Db>, calls: seq<Call>, r: RoomId, kind: Kind, isPublic: bool): nat -> bool
    requires IsRun(states, calls)
  {
    (i: nat) => GrantedAt(states, calls, r, i) && r !in states[i].rooms && Makes(calls[i].req, kind, isPublic)
  }

  ghost predicate IsA(db: Db, r: RoomId, kind: Kind, isPublic: bool) {
    r in db.rooms && db.rooms[r].kind == kind && db.rooms[r].isPublic == isPublic && !db.rooms[r].isArchived
  }

  lemma KindStep(db: Db, call: Call, r: RoomId, kind: Kind, isPublic: bool)
    requires Supplied(call.req, call.env) && Fresh(db, call.env)
    ensures IsA(Next(db, call.req, call.env).0, r, kind, isPublic) <==>
            || (Granted(db, call, r) && r !in db.rooms && Makes(call.req, kind, isPublic))
            || IsA(db, r, kind, isPublic)
  {
    if AboutOne(call.req) {
      OneChanges(db, call);
    } else if call.req.LeaveRoom? {
      LeaveExactly(db, call.req.caller, call.req.room, call.env);
    } else {
      CreatedKind(db, call, r, kind, isPublic);
    }
  }

  lemma CreatedKind(db: Db, call: Call, r: RoomId, kind: Kind, isPublic: bool)
    requires Supplied(call.req, call.env) && Fresh(db, call.env) && Creates(call.req)
    ensures IsA(Next(db, call.req, call.env).0, r, kind, isPublic) <==>
            || (Granted(db, call, r) && r !in db.rooms && Makes(call.req, kind, isPublic))
            || IsA(db, r, kind, isPublic)
  {
    match call.req {
      case CreateChannel(c, asked) => CreateChannelExactly(db, c, asked, call.env);
      case CreateGroup(c, raw) => CreateGroupExactly(db, c, raw, call.env);
      case OpenDirect(a, b) => OpenedKind(db, a, b, call.env, r, kind, isPublic);
    }
  }

  lemma OpenedKind(db: Db, a: UserId, b: UserId, env: Env, r: RoomId, kind: Kind, isPublic: bool)
    requires Supplied(OpenDirect(a, b), env) && Fresh(db, env)
    ensures var (db', answer) := Next(db, OpenDirect(a, b), env);
            IsA(db', r, kind, isPublic) <==>
            || (answer == Done(r) && r !in db.rooms && kind == Direct && isPublic)
            || IsA(db, r, kind, isPublic)
  {
    OpenDirectExactly(db, a, b, env);
  }

  /** A room is what the request that made it asked for, for good. */
  lemma RoomAsCreated(users: set<UserId>, states: seq<Db>, calls: seq<Call>, r: RoomId, kind: Kind, isPublic: bool)
    requires FromScratch(users, states, calls)
    ensures IsA(states[|calls|], r, kind, isPublic) <==> Ever(Creations(states, calls, r, kind, isPublic))
  {
    var state := (i: nat) => i <= |calls| && IsA(states[i], r, kind, isPublic);
    var on := Creations(states, calls, r, kind, isPublic);
    forall i: nat | i < |calls| ensures state(i + 1) <==> on(i) || state(i) {
      KindStep(states[i], calls[i], r, kind, isPublic);
    }
    Settle(state, on, |calls|);
  }
}
