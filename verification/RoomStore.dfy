/** The membership handlers as they run: statements over the tables, one transaction per request.
    Each is shown to perform the step `Rooms.Next` describes. */
module RoomStore {
  import opened ChatTypes
  import opened Rooms

  datatype MemberIds = Ok(ids: seq<UserId>) | Malformed | SelfListed | TooFew

  /** `validateGroupMemberIDs`: `None` stands for an entry that is not a UUID. The first offending entry
      decides the error; otherwise duplicates are dropped and two others are required. */
  method ValidateGroupMemberIds(raw: seq<Option<UserId>>, creator: UserId) returns (r: MemberIds)
    ensures r.Malformed? ==>
              exists i | 0 <= i < |raw| :: raw[i].None? && None !in raw[..i] && Some(creator) !in raw[..i]
    ensures r.SelfListed? ==>
              exists i | 0 <= i < |raw| :: raw[i] == Some(creator) && None !in raw[..i] && Some(creator) !in raw[..i]
    ensures r.Ok? || r.TooFew? ==> None !in raw && Some(creator) !in raw
    ensures r.Ok? <==> ValidMembers(raw, creator)
    ensures r.Ok? ==> (set u | u in r.ids) == Listed(raw) && |r.ids| == |Listed(raw)|
  {
    var seen: set<UserId> := {};
    var ids: seq<UserId> := [];
    for i := 0 to |raw|
      invariant None !in raw[..i] && Some(creator) !in raw[..i]
      invariant seen == Listed(raw[..i]) == (set u | u in ids) && |ids| == |seen|
    {
      assert raw[..i + 1] == raw[..i] + [raw[i]];
      if raw[i].None? {
        return Malformed;
      }
      var id := raw[i].value;
      if id == creator {
        return SelfListed;
      }
      ListedMore(raw[..i], id);
      if id !in seen {
        seen := seen + {id};
        ids := ids + [id];
      } else {
        assert seen + {id} == seen;
      }
    }
    assert raw[..|raw|] == raw;
    if |ids| < MIN_GROUP_MEMBERS {
      return TooFew;
    }
    return Ok(ids);
  }

  lemma ListedMore(raw: seq<Option<UserId>>, id: UserId)
    ensures Listed(raw + [Some(id)]) == Listed(raw) + {id}
  {
    assert (raw + [Some(id)])[|raw|] == Some(id);
    assert forall entry | entry in raw :: entry in raw + [Some(id)];
  }

  lemma OldestUnique(rows: Rows, u: UserId, v: UserId)
    requires DistinctRowIds(rows) && IsOldest(rows, u) && IsOldest(rows, v)
    ensures u == v
  {
    assert u in Actives(rows) && v in Actives(rows);
    assert Senior(rows[u], rows[v]) && Senior(rows[v], rows[u]);
  }

  /** The creator's row, then one insert per member. */
  method InsertMembers(creator: UserId, ids: seq<UserId>, env: Env) returns (rows: Rows)
    requires creator in env.rowIds && creator !in ids && forall u | u in ids :: u in env.rowIds
    ensures rows == NewRows(env, Some(creator), set u | u in ids)
  {
    rows := map[creator := Row(env.rowIds[creator], Admin, env.at, None, None)];
    for i := 0 to |ids|
      invariant rows == NewRows(env, Some(creator), set u | u in ids[..i])
    {
      assert ids[..i + 1] == ids[..i] + [ids[i]];
      rows := rows[ids[i] := Row(env.rowIds[ids[i]], Member, env.at, None, None)];
    }
    assert ids[..|ids|] == ids;
  }

  /** `AddMember`: insert, or on conflict with a departed row reset it; an active row is left alone. */
  method Upsert(rows: Rows, u: UserId, env: Env) returns (after: Rows, added: bool)
    requires u in env.rowIds
    ensures added <==> !Active(rows, u)
    ensures after == if added then AddMember(rows, u, env) else rows
  {
    if u !in rows {
      return rows[u := Row(env.rowIds[u], Member, env.at, None, None)], true;
    }
    if rows[u].leftAt.None? {
      return rows, false;
    }
    after, added := rows[u := rows[u].(role := Member, joinedAt := env.at, leftAt := None, bannedAt := None)], true;
  }

  /** `RemoveMember` and `BanMember`: stamps the row if it is active. */
  method StampDeparture(rows: Rows, u: UserId, at: Time, ban: bool) returns (after: Rows, affected: bool)
    ensures affected <==> Active(rows, u)
    ensures after == if !affected then rows else if ban then BanMember(rows, u, at) else RemoveMember(rows, u, at)
  {
    if u !in rows || rows[u].leftAt.Some? {
      return rows, false;
    }
    var row := rows[u].(leftAt := Some(at));
    if ban {
      row := row.(bannedAt := Some(at));
    }
    after, affected := rows[u := row], true;
  }

  /** The reactivating UPDATE of a pair's direct room, row by row, and the users it returns. */
  method Reactivate(rows: Rows, pair: seq<UserId>, at: Time) returns (after: Rows, returned: seq<UserId>)
    requires |pair| == 2
    ensures after == Resume(rows, pair[0], pair[1], at)
    ensures forall u :: u in returned <==> u in pair && u in rows && rows[u].leftAt.Some?
  {
    after, returned := rows, [];
    for i := 0 to 2
      invariant after.Keys == rows.Keys
      invariant forall u | u in rows :: after[u] ==
                  if u in pair[..i] && rows[u].leftAt.Some? then rows[u].(leftAt := None, joinedAt := at) else rows[u]
      invariant forall u :: u in returned <==> u in pair[..i] && u in rows && rows[u].leftAt.Some?
    {
      var u := pair[i];
      assert pair[..i + 1] == pair[..i] + [u];
      if u in after && after[u].leftAt.Some? {
        after := after[u := after[u].(leftAt := None, joinedAt := at)];
        returned := returned + [u];
      }
    }
    assert pair[..2] == [pair[0], pair[1]] == pair;
  }

  /** `SELECT COUNT(*)` of the active admins. */
  method CountAdmins(rows: Rows) returns (n: nat)
    ensures n == |Admins(rows)|
  {
    var left := rows.Keys;
    ghost var seen: set<UserId> := {};
    n := 0;
    while left != {}
      invariant left <= rows.Keys && seen == (set u | u in rows && u !in left && ActiveAdmin(rows, u)) && n == |seen|
    {
      var u :| u in left;
      left := left - {u};
      if rows[u].leftAt.None? && rows[u].role == Admin {
        n := n + 1;
        seen := seen + {u};
      }
    }
    assert seen == Admins(rows);
  }

  class Store {
    const users: set<UserId>
    var rooms: map<RoomId, Room>

    constructor (users: set<UserId>)
      ensures this.users == users && rooms == map[]
    {
      this.users := users;
      rooms := map[];
    }

    ghost function Tables(): Db reads this {
      Db(users, rooms)
    }

    /** The guard `RequireRoomAdmin`, also used inline by the invite handler. */
    predicate IsRoomAdmin(r: RoomId, u: UserId)
      reads this
      ensures IsRoomAdmin(r, u) <==> IsAdminOf(Tables(), r, u)
    {
      r in rooms && u in rooms[r].rows && rooms[r].rows[u].leftAt.None? && rooms[r].rows[u].role == Admin
    }

    method CreateChannel(caller: UserId, isPublic: bool, env: Env) returns (outcome: Outcome)
      requires Supplied(Request.CreateChannel(caller, isPublic), env)
      modifies this
      ensures (Tables(), outcome) == Next(old(Tables()), Request.CreateChannel(caller, isPublic), env)
    {
      rooms := rooms[env.roomId := Room(Channel, isPublic, false,
          map[caller := Row(env.rowIds[caller], Admin, env.at, None, None)])];
      assert NewRows(env, Some(caller), {}) == map[caller := Row(env.rowIds[caller], Admin, env.at, None, None)];
      outcome := Done(env.roomId);
    }

    /** The request's own list: checked and deduplicated, every listed user looked up, then inserted. */
    method CreateGroup(caller: UserId, raw: seq<Option<UserId>>, env: Env) returns (outcome: Outcome)
      requires Supplied(Request.CreateGroup(caller, raw), env)
      modifies this
      ensures (Tables(), outcome) == Next(old(Tables()), Request.CreateGroup(caller, raw), env)
    {
      var members := ValidateGroupMemberIds(raw, caller);
      if !members.Ok? {
        return BadRequest;
      }
      assert forall u :: u in members.ids <==> u in Listed(raw);
      for i := 0 to |members.ids|
        invariant forall j | 0 <= j < i :: members.ids[j] in users
      {
        if members.ids[i] !in users {
          assert members.ids[i] in Listed(raw);
          return NotFound;
        }
      }
      assert forall u | u in Listed(raw) :: u in users;
      var rows := InsertMembers(caller, members.ids, env);
      assert (set u | u in members.ids) == Listed(raw);
      assert rows == NewRows(env, Some(caller), Listed(raw));
      rooms := rooms[env.roomId := Room(Group, false, false, rows)];
      outcome := Done(env.roomId);
    }

    /** The lookup of a pair's direct room, whether or not its members have left. */
    method FindDirect(a: UserId, b: UserId) returns (r: Option<RoomId>)
      ensures r.Some? <==> HasDirect(Tables(), a, b)
      ensures r.Some? ==> IsDirectOf(Tables(), r.value, a, b)
    {
      var left := rooms.Keys;
      while left != {}
        invariant left <= rooms.Keys
        invariant forall s | s in rooms && s !in left :: !IsDirectOf(Tables(), s, a, b)
      {
        var s :| s in left;
        if rooms[s].kind == Direct && a in rooms[s].rows && b in rooms[s].rows {
          return Some(s);
        }
        left := left - {s};
      }
      r := None;
    }

    /** `created` and `peerReactivated` decide whether the peer is told of the room. */
    method OpenDirect(caller: UserId, peer: UserId, env: Env)
      returns (outcome: Outcome, created: bool, peerReactivated: bool)
      requires Supplied(Request.OpenDirect(caller, peer), env) && Inv(Tables())
      modifies this
      ensures (Tables(), outcome) == Next(old(Tables()), Request.OpenDirect(caller, peer), env)
      ensures created <==> outcome.Done? && !old(HasDirect(Tables(), caller, peer))
      ensures peerReactivated <==> outcome.Done? && !created && !old(Active(rooms[outcome.room].rows, peer))
    {
      created, peerReactivated := false, false;
      if peer == caller {
        return BadRequest, false, false;
      }
      if peer !in users {
        return NotFound, false, false;
      }
      var found := FindDirect(caller, peer);
      if found.Some? {
        var r := found.value;
        ghost var s := DirectOf(Tables(), caller, peer);
        assert IsDirectOf(Tables(), s, caller, peer) && s == r;
        var rows, returned := Reactivate(rooms[r].rows, [caller, peer], env.at);
        for i := 0 to |returned|
          invariant peerReactivated <==> peer in returned[..i]
        {
          assert returned[..i + 1] == returned[..i] + [returned[i]];
          if returned[i] == peer {
            peerReactivated := true;
          }
        }
        assert returned[..|returned|] == returned;
        rooms := rooms[r := rooms[r].(rows := rows)];
        return Done(r), false, peerReactivated;
      }
      rooms := rooms[env.roomId := Room(Direct, true, false, NewRows(env, None, {caller, peer}))];
      outcome, created := Done(env.roomId), true;
    }

    method InviteMember(caller: UserId, r: RoomId, who: UserId, env: Env) returns (outcome: Outcome)
      requires Supplied(Invite(caller, r, who), env)
      modifies this
      ensures (Tables(), outcome) == Next(old(Tables()), Invite(caller, r, who), env)
    {
      if !IsRoomAdmin(r, caller) {
        return Forbidden;
      }
      if who !in users {
        return NotFound;
      }
      var rows, added := Upsert(rooms[r].rows, who, env);
      if !added {
        return Conflict;
      }
      rooms := rooms[r := rooms[r].(rows := rows)];
      outcome := Done(r);
    }

    method SelfJoin(caller: UserId, r: RoomId, env: Env) returns (outcome: Outcome)
      requires Supplied(JoinChannel(caller, r), env)
      modifies this
      ensures (Tables(), outcome) == Next(old(Tables()), JoinChannel(caller, r), env)
    {
      if r !in rooms || rooms[r].kind != Channel || !rooms[r].isPublic || rooms[r].isArchived {
        return Forbidden;
      }
      if Banned(rooms[r].rows, caller) {
        return Forbidden;
      }
      var rows, added := Upsert(rooms[r].rows, caller, env);
      if !added {
        return Conflict;
      }
      rooms := rooms[r := rooms[r].(rows := rows)];
      outcome := Done(r);
    }

    /** The scan behind `PromoteOldestIfNoAdmins`: the active member with the least (joined_at, id). */
    method PickOldest(rows: Rows) returns (oldest: UserId)
      requires DistinctRowIds(rows) && Actives(rows) != {}
      ensures oldest == Oldest(rows)
    {
      var left := Actives(rows);
      oldest :| oldest in left;
      left := left - {oldest};
      while left != {}
        invariant left <= Actives(rows) && oldest in Actives(rows)
        invariant forall v | v in Actives(rows) && v !in left :: Senior(rows[oldest], rows[v])
      {
        var v :| v in left;
        if !Senior(rows[oldest], rows[v]) {
          oldest := v;
        }
        left := left - {v};
      }
      OldestUnique(rows, oldest, Oldest(rows));
    }

    /** Departure, then succession; `promoted` is the member the room is told of. */
    method Leave(caller: UserId, r: RoomId, env: Env) returns (outcome: Outcome, promoted: Option<UserId>)
      requires Inv(Tables())
      modifies this
      ensures (Tables(), outcome) == Next(old(Tables()), LeaveRoom(caller, r), env)
      ensures promoted.Some? ==>
                && outcome.Done? && ActiveAdmin(rooms[r].rows, promoted.value)
                && !old(ActiveAdmin(rooms[r].rows, promoted.value))
      ensures promoted.None? && outcome.Done? ==> rooms[r].rows == RemoveMember(old(rooms[r].rows), caller, env.at)
    {
      if r !in rooms {
        return NotFound, None;
      }
      var room := rooms[r];
      assert RoomOk(room);
      var rows, affected := StampDeparture(room.rows, caller, env.at, false);
      if !affected {
        return NotFound, None;
      }
      promoted := None;
      if room.kind != Direct && Actives(rows) != {} && Admins(rows) == {} {
        RemoveMemberKeeps(room.rows, caller, env.at);
        var oldest := PickOldest(rows);
        assert oldest in Actives(rows) && oldest !in Admins(rows);
        rows := SetRole(rows, oldest, Admin);
        promoted := Some(oldest);
      }
      rooms := rooms[r := room.(rows := rows)];
      outcome := Done(r);
    }

    /** `changed` decides whether the room is told: a role already held is a success that changes nothing. */
    method ChangeMemberRole(caller: UserId, r: RoomId, target: UserId, role: Role)
      returns (outcome: Outcome, changed: bool)
      modifies this
      ensures forall env :: (Tables(), outcome) == Next(old(Tables()), ChangeRole(caller, r, target, role), env)
      ensures changed <==> Tables() != old(Tables())
    {
      if !IsRoomAdmin(r, caller) {
        return Forbidden, false;
      }
      var rows := rooms[r].rows;
      if !Active(rows, target) {
        return NotFound, false;
      }
      if rows[target].role == role {
        return Done(r), false;
      }
      if rows[target].role == Admin && role != Admin {
        var adminCount := CountAdmins(rows);
        if adminCount <= 1 {
          return Conflict, false;
        }
      }
      rooms := rooms[r := rooms[r].(rows := rows[target := rows[target].(role := role)])];
      assert rooms[r].rows[target].role != rows[target].role;
      return Done(r), true;
    }

    method KickMember(caller: UserId, r: RoomId, target: UserId, env: Env) returns (outcome: Outcome)
      modifies this
      ensures (Tables(), outcome) == Next(old(Tables()), Kick(caller, r, target), env)
    {
      if !IsRoomAdmin(r, caller) {
        return Forbidden;
      }
      if target == caller {
        return BadRequest;
      }
      var rows, affected := StampDeparture(rooms[r].rows, target, env.at, true);
      if !affected {
        return NotFound;
      }
      rooms := rooms[r := rooms[r].(rows := rows)];
      outcome := Done(r);
    }
  }
}
