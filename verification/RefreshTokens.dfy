/** Refresh-token rotation (internal/store/refresh_tokens.go) and the client's single-flight refresh
    (frontend/lib/api.ts:78-132). Token hashes are opaque and fresh when issued. */
module RefreshTokens {
  import opened ChatTypes

  type Hash = nat
  type Family = nat

  datatype Token = Token(user: UserId, family: Family, expiresAt: Time, revoked: bool)

  /** The `refresh_tokens` table, keyed by its unique token hash. */
  type Table = map<Hash, Token>

  datatype Verdict = Rotated(token: Token) | NotFound | Reused | Expired

  function RevokeFamily(t: Table, f: Family): Table {
    map h | h in t :: if t[h].family == f then t[h].(revoked := true) else t[h]
  }

  /** `RotateRefreshToken`. A revoked token presented again revokes its whole family. */
  function Rotate(t: Table, presented: Hash, newHash: Hash, now: Time, expiresAt: Time): (Table, Verdict) {
    if presented !in t then (t, NotFound)
    else if t[presented].revoked then (RevokeFamily(t, t[presented].family), Reused)
    else if t[presented].expiresAt < now then (t, Expired)
    else
      var next := Token(t[presented].user, t[presented].family, expiresAt, false);
      (t[presented := t[presented].(revoked := true)][newHash := next], Rotated(next))
  }

  datatype Step =
    | Login(user: UserId, family: Family, hash: Hash, expiresAt: Time)
    | Refresh(presented: Hash, newHash: Hash, now: Time, expiresAt: Time)
    | Logout(caller: UserId, hash: Hash)

  function Next(t: Table, step: Step): Table {
    match step
    case Login(u, f, h, exp) => t[h := Token(u, f, exp, false)]
    case Refresh(presented, n, now, exp) => Rotate(t, presented, n, now, exp).0
    case Logout(caller, h) => if h in t && t[h].user == caller then RevokeFamily(t, t[h].family) else t
  }

  /** Issued hashes and the families of new sessions have not been used before. */
  predicate Fresh(t: Table, step: Step) {
    match step
    case Login(_, f, h, _) => h !in t && forall g | g in t :: t[g].family != f
    case Refresh(_, n, _, _) => n !in t
    case Logout(_, _) => true
  }

  predicate Succeeds(t: Table, step: Step) {
    step.Refresh? && Rotate(t, step.presented, step.newHash, step.now, step.expiresAt).1.Rotated?
  }

  // ---- the store ----

  class TokenStore {
    var rows: Table

    constructor ()
      ensures rows == map[]
    {
      rows := map[];
    }

    method CreateRefreshToken(user: UserId, family: Family, hash: Hash, expiresAt: Time)
      modifies this
      ensures rows == Next(old(rows), Login(user, family, hash, expiresAt))
    {
      rows := rows[hash := Token(user, family, expiresAt, false)];
    }

    method RevokeRefreshTokenFamily(family: Family)
      modifies this
      ensures rows == RevokeFamily(old(rows), family)
    {
      rows := map h | h in rows ::
        if rows[h].family == family && !rows[h].revoked then rows[h].(revoked := true) else rows[h];
    }

    method RotateRefreshToken(oldHash: Hash, newHash: Hash, now: Time, newExpiresAt: Time) returns (verdict: Verdict)
      modifies this
      ensures (rows, verdict) == Rotate(old(rows), oldHash, newHash, now, newExpiresAt)
    {
      if oldHash !in rows {
        return NotFound;
      }
      var row := rows[oldHash];
      if row.revoked {
        RevokeRefreshTokenFamily(row.family);
        return Reused;
      }
      if row.expiresAt < now {
        return Expired;
      }
      rows := rows[oldHash := row.(revoked := true)];
      var next := Token(row.user, row.family, newExpiresAt, false);
      rows := rows[newHash := next];
      verdict := Rotated(next);
    }

    /** The logout handler: someone else's token, or an unknown one, changes nothing. */
    method LogoutSession(caller: UserId, hash: Hash)
      modifies this
      ensures rows == Next(old(rows), Logout(caller, hash))
    {
      if hash in rows && rows[hash].user == caller {
        RevokeRefreshTokenFamily(rows[hash].family);
      }
    }
  }

  // ---- families ----

  /** A family has one user and at most one unrevoked token. */
  ghost predicate Inv(t: Table) {
    forall g, h | g in t && h in t && g != h && t[g].family == t[h].family ::
      t[g].user == t[h].user && (t[g].revoked || t[h].revoked)
  }

  lemma StepInv(t: Table, step: Step)
    requires Inv(t) && Fresh(t, step)
    ensures Inv(Next(t, step))
  {}

  predicate Used(t: Table, h: Hash) {
    h in t && t[h].revoked
  }

  /** All tokens of the family are revoked, and it has some. */
  ghost predicate Dead(t: Table, f: Family) {
    (exists h | h in t :: t[h].family == f) && forall h | h in t && t[h].family == f :: t[h].revoked
  }

  lemma UsedStays(t: Table, step: Step, h: Hash)
    requires Fresh(t, step) && Used(t, h)
    ensures Used(Next(t, step), h)
  {}

  lemma DeadStays(t: Table, step: Step, f: Family)
    requires Fresh(t, step) && Dead(t, f)
    ensures Dead(Next(t, step), f)
    ensures Succeeds(t, step) ==> t[step.presented].family != f
  {
    var h :| h in t && t[h].family == f;
    assert h in Next(t, step) && Next(t, step)[h].family == f;
  }

  ghost predicate IsRun(tables: seq<Table>, steps: seq<Step>) {
    && |tables| == |steps| + 1
    && forall i | 0 <= i < |steps| :: Fresh(tables[i], steps[i]) && tables[i + 1] == Next(tables[i], steps[i])
  }

  lemma {:induction false} RunInv(tables: seq<Table>, steps: seq<Step>, i: nat)
    requires IsRun(tables, steps) && tables[0] == map[] && i <= |steps|
    ensures Inv(tables[i])
  {
    if i > 0 {
      RunInv(tables, steps, i - 1);
      StepInv(tables[i - 1], steps[i - 1]);
    }
  }

  lemma {:induction false} UsedForever(tables: seq<Table>, steps: seq<Step>, h: Hash, i: nat, j: nat)
    requires IsRun(tables, steps) && i <= j <= |steps| && Used(tables[i], h)
    ensures Used(tables[j], h)
  {
    if i < j {
      UsedForever(tables, steps, h, i, j - 1);
      UsedStays(tables[j - 1], steps[j - 1], h);
    }
  }

  /** Each token rotates successfully at most once, in any run. */
  lemma RotatesOnce(tables: seq<Table>, steps: seq<Step>, i: nat, j: nat)
    requires IsRun(tables, steps) && i < j < |steps|
    requires steps[i].Refresh? && steps[j].Refresh? && steps[i].presented == steps[j].presented
    requires Succeeds(tables[i], steps[i])
    ensures !Succeeds(tables[j], steps[j])
  {
    assert Used(tables[i + 1], steps[i].presented);
    UsedForever(tables, steps, steps[i].presented, i + 1, j);
  }

  /** A replay or a logout leaves the family with no usable token. */
  lemma ReplayKills(t: Table, step: Step)
    requires match step
             case Refresh(presented, _, _, _) => Used(t, presented)
             case Logout(caller, h) => h in t && t[h].user == caller
             case Login(_, _, _, _) => false
    ensures var h := if step.Refresh? then step.presented else step.hash;
            Dead(Next(t, step), t[h].family) && !Succeeds(t, step)
  {
    var h := if step.Refresh? then step.presented else step.hash;
    assert h in Next(t, step) && Next(t, step)[h].family == t[h].family;
  }

  /** Once a family is dead, no token of it ever rotates again. */
  lemma {:induction false} DeadForever(tables: seq<Table>, steps: seq<Step>, f: Family, i: nat, j: nat)
    requires IsRun(tables, steps) && i <= j < |steps| && Dead(tables[i], f)
    ensures Dead(tables[j], f)
    ensures Succeeds(tables[j], steps[j]) ==> tables[j][steps[j].presented].family != f
    decreases j
  {
    if i < j {
      DeadForever(tables, steps, f, i, j - 1);
      DeadStays(tables[j - 1], steps[j - 1], f);
    }
    DeadStays(tables[j], steps[j], f);
  }

  // ---- tokens as they were issued ----

  /** A token rotates exactly when it is known, unspent and not expired; it is then spent and a token of the same
      session takes its place. An unknown or expired token changes nothing, a spent one ends its family only. */
  lemma RotateExactly(t: Table, h: Hash, n: Hash, now: Time, expiresAt: Time)
    requires n !in t
    ensures var (t', verdict) := Rotate(t, h, n, now, expiresAt);
            && (verdict.Rotated? <==> h in t && !t[h].revoked && now <= t[h].expiresAt)
            && (verdict.Rotated? ==>
                  && n in t' && verdict == Rotated(t'[n]) && !t'[n].revoked && t'[n].expiresAt == expiresAt
                  && t'[n].user == t[h].user && t'[n].family == t[h].family
                  && Used(t', h) && t'.Keys == t.Keys + {n} && forall g | g in t && g != h :: t'[g] == t[g])
            && (verdict == Reused <==> Used(t, h))
            && (verdict == Expired <==> h in t && !t[h].revoked && t[h].expiresAt < now)
            && (verdict == NotFound || verdict == Expired ==> t' == t)
            && (verdict == Reused ==>
                  Dead(t', t[h].family) && t'.Keys == t.Keys
                  && forall g | g in t && t[g].family != t[h].family :: t'[g] == t[g])
  {
    if Used(t, h) {
      ReplayKills(t, Refresh(h, n, now, expiresAt));
    }
  }

  /** Step `i` brings the token into the world: a login, or a refresh that was granted. */
  ghost predicate IssuedAt(tables: seq<Table>, steps: seq<Step>, h: Hash, i: nat)
    requires IsRun(tables, steps)
  {
    i < |steps| &&
    match steps[i]
    case Login(_, _, hash, _) => hash == h
    case Refresh(_, newHash, _, _) => newHash == h && Succeeds(tables[i], steps[i])
    case Logout(_, _) => false
  }

  /** Step `j` uses the token up: it rotates, a spent token of its session is presented, or its owner logs the
      session out. */
  ghost predicate SpentAt(tables: seq<Table>, steps: seq<Step>, h: Hash, j: nat)
    requires IsRun(tables, steps)
  {
    && j < |steps| && h in tables[j]
    && var t := tables[j];
       match steps[j]
       case Login(_, _, _, _) => false
       case Refresh(presented, _, _, _) =>
         if Succeeds(t, steps[j]) then presented == h else Used(t, presented) && t[presented].family == t[h].family
       case Logout(caller, g) => g in t && t[g].user == caller && t[g].family == t[h].family
  }

  lemma TokenStep(tables: seq<Table>, steps: seq<Step>, h: Hash, i: nat)
    requires IsRun(tables, steps) && i < |steps|
    ensures h in tables[i + 1] <==> h in tables[i] || IssuedAt(tables, steps, h, i)
    ensures h in tables[i + 1] && tables[i + 1][h].revoked <==>
            (h in tables[i] && tables[i][h].revoked) || SpentAt(tables, steps, h, i)
    ensures h in tables[i] ==>
              h in tables[i + 1] && tables[i + 1][h].(revoked := false) == tables[i][h].(revoked := false)
  {
    assert Fresh(tables[i], steps[i]) && tables[i + 1] == Next(tables[i], steps[i]);
  }

  /** A token is in the table exactly once it was issued, and revoked exactly once it was spent. */
  lemma SpentExactlyWhen(tables: seq<Table>, steps: seq<Step>, h: Hash, n: nat)
    requires IsRun(tables, steps) && tables[0] == map[] && n <= |steps|
    ensures h in tables[n] <==> exists i: nat :: i < n && IssuedAt(tables, steps, h, i)
    ensures Used(tables[n], h) <==> exists j: nat :: j < n && SpentAt(tables, steps, h, j)
  {
    var known := (i: nat) => i <= |steps| && h in tables[i];
    var used := (i: nat) => i <= |steps| && Used(tables[i], h);
    var issued := (i: nat) => IssuedAt(tables, steps, h, i);
    var spent := (i: nat) => SpentAt(tables, steps, h, i);
    forall i: nat | i < n
      ensures (known(i + 1) <==> issued(i) || known(i)) && (used(i + 1) <==> spent(i) || used(i))
    {
      TokenStep(tables, steps, h, i);
    }
    Settle(known, issued, n);
    Settle(used, spent, n);
    assert forall i: nat :: issued(i) == IssuedAt(tables, steps, h, i);
    assert forall i: nat :: spent(i) == SpentAt(tables, steps, h, i);
  }

  /** Whose it is, what session it belongs to and when it expires were settled when it was issued. */
  lemma {:induction false} AsIssued(tables: seq<Table>, steps: seq<Step>, h: Hash, i: nat, n: nat)
    requires IsRun(tables, steps) && i < n <= |steps| && IssuedAt(tables, steps, h, i)
    ensures h in tables[n] && tables[n][h].expiresAt == steps[i].expiresAt
    ensures steps[i].Login? ==> tables[n][h].user == steps[i].user && tables[n][h].family == steps[i].family
    ensures steps[i].Refresh? ==>
              var old' := tables[i][steps[i].presented];
              tables[n][h].user == old'.user && tables[n][h].family == old'.family
  {
    if n == i + 1 {
      assert tables[n] == Next(tables[i], steps[i]);
    } else {
      AsIssued(tables, steps, h, i, n - 1);
      TokenStep(tables, steps, h, n - 1);
    }
  }

  /** So a refresh is granted exactly when the token was issued, has not been spent since, and the moment is no
      later than the expiry it was issued with. */
  lemma RefreshExactlyWhen(tables: seq<Table>, steps: seq<Step>, n: nat)
    requires IsRun(tables, steps) && tables[0] == map[] && n < |steps| && steps[n].Refresh?
    ensures var h := steps[n].presented;
            Succeeds(tables[n], steps[n]) <==>
            && (exists i: nat :: i < n && IssuedAt(tables, steps, h, i) && steps[n].now <= steps[i].expiresAt)
            && (forall j: nat | j < n :: !SpentAt(tables, steps, h, j))
  {
    var h := steps[n].presented;
    SpentExactlyWhen(tables, steps, h, n);
    forall i: nat | i < n && IssuedAt(tables, steps, h, i) ensures tables[n][h].expiresAt == steps[i].expiresAt {
      AsIssued(tables, steps, h, i, n);
    }
  }

  // ---- single flight ----

  /** A refresh on the wire: the request with the token it presents, or the server's answer. */
  datatype Wire = Asking(presented: Hash) | Answered(next: Option<Hash>)

  /** One client: the stored refresh token, whether `refreshPromise` is set, how many callers wait on it,
      and everything on the wire. */
  datatype World = World(table: Table, stored: Option<Hash>, promise: bool, waiting: nat, wire: seq<Wire>)

  datatype Move =
    | CallRefresh
    | ServerAnswers(i: nat, newHash: Hash, now: Time, expiresAt: Time)
    | Receive(i: nat)
    | Drop(i: nat)
    | Elsewhere(step: Step)

  function Removed<T>(s: seq<T>, i: nat): seq<T>
    requires i < |s|
  {
    s[..i] + s[i + 1..]
  }

  /** Moves of one client's session. `Drop` is the network failing the call: the stored token stays. */
  function Act(w: World, m: Move): World {
    match m
    case CallRefresh =>
      if w.promise then w.(waiting := w.waiting + 1)
      else if w.stored.None? then w
      else w.(promise := true, waiting := 1, wire := w.wire + [Asking(w.stored.value)])
    case ServerAnswers(i, n, now, exp) =>
      if i < |w.wire| && w.wire[i].Asking? then
        var (table, verdict) := Rotate(w.table, w.wire[i].presented, n, now, exp);
        w.(table := table, wire := w.wire[i := Answered(if verdict.Rotated? then Some(n) else None)])
      else w
    case Receive(i) =>
      if i < |w.wire| && w.wire[i].Answered? then
        w.(stored := w.wire[i].next, promise := false, waiting := 0, wire := Removed(w.wire, i))
      else w
    case Drop(i) =>
      if i < |w.wire| then w.(promise := false, waiting := 0, wire := Removed(w.wire, i)) else w
    case Elsewhere(step) => w.(table := Next(w.table, step))
  }

  /** `refreshAccessToken` and the ways its request ends, over the client's own variables. */
  class ApiClient {
    var refreshToken: Option<Hash>
    var refreshPromise: bool
    var waiting: nat
    var wire: seq<Wire>

    ghost function InWorld(t: Table): World
      reads this
    {
      World(t, refreshToken, refreshPromise, waiting, wire)
    }

    constructor (token: Hash)
      ensures forall t :: InWorld(t) == World(t, Some(token), false, 0, [])
    {
      refreshToken, refreshPromise, waiting, wire := Some(token), false, 0, [];
    }

    method RefreshAccessToken()
      modifies this
      ensures forall t :: InWorld(t) == Act(old(InWorld(t)), CallRefresh)
    {
      if !refreshPromise {
        if refreshToken.None? {
          return;
        }
        wire := wire + [Asking(refreshToken.value)];
        refreshPromise := true;
        waiting := 0;
      }
      waiting := waiting + 1;
    }

    method SettleRefresh(i: nat, reachable: bool)
      requires i < |wire| && (reachable ==> wire[i].Answered?)
      modifies this
      ensures forall t :: InWorld(t) == Act(old(InWorld(t)), if reachable then Receive(i) else Drop(i))
    {
      if reachable {
        refreshToken := wire[i].next;
      }
      wire := Removed(wire, i);
      refreshPromise := false;
      waiting := 0;
    }
  }

  /** Other sessions act on their own families; the clock stays within our tokens' lifetime; hashes are
      fresh; a call the network fails had not reached the server. */
  ghost predicate Allowed(w: World, m: Move, f: Family) {
    match m
    case CallRefresh => true
    case Receive(_) => true
    case Drop(i) => i < |w.wire| ==> w.wire[i].Asking?
    case ServerAnswers(i, n, now, _) =>
      n !in w.table && forall h | h in w.table && w.table[h].family == f :: now <= w.table[h].expiresAt
    case Elsewhere(step) =>
      && Fresh(w.table, step)
      && match step
         case Login(_, g, _, _) => g != f
         case Refresh(presented, _, _, _) => presented in w.table ==> w.table[presented].family != f
         case Logout(_, h) => h in w.table ==> w.table[h].family != f
  }

  ghost predicate LiveToken(t: Table, h: Hash, f: Family) {
    h in t && t[h].family == f && !t[h].revoked
  }

  /** At most one refresh is on the wire, exactly while the promise is set, and the token it presents, or
      the one it brings back, is the family's live one. */
  ghost predicate SingleFlight(w: World, f: Family) {
    && |w.wire| == (if w.promise then 1 else 0)
    && w.stored.Some?
    && (!w.promise ==> LiveToken(w.table, w.stored.value, f))
    && (w.promise ==>
          match w.wire[0]
          case Asking(h) => w.stored == Some(h) && LiveToken(w.table, h, f)
          case Answered(next) =>
            next.Some? && LiveToken(w.table, next.value, f)
            && Used(w.table, w.stored.value) && w.table[w.stored.value].family == f)
  }

  lemma MoveKeepsSingleFlight(w: World, m: Move, f: Family)
    requires SingleFlight(w, f) && Allowed(w, m, f)
    ensures SingleFlight(Act(w, m), f)
    ensures m.ServerAnswers? && m.i < |w.wire| && w.wire[m.i].Asking? ==>
              Rotate(w.table, w.wire[m.i].presented, m.newHash, m.now, m.expiresAt).1.Rotated?
  {}

  ghost predicate IsSession(worlds: seq<World>, moves: seq<Move>, f: Family) {
    && |worlds| == |moves| + 1
    && forall i | 0 <= i < |moves| :: Allowed(worlds[i], moves[i], f) && worlds[i + 1] == Act(worlds[i], moves[i])
  }

  /** However many callers ask at once and whatever other sessions do, at most one rotation is in flight
      and the server accepts every one of them: reuse detection never fires for this client. */
  lemma {:induction false} RefreshNeverTripsReuse(worlds: seq<World>, moves: seq<Move>, f: Family, i: nat)
    requires IsSession(worlds, moves, f) && SingleFlight(worlds[0], f) && i < |moves|
    ensures SingleFlight(worlds[i], f) && |worlds[i].wire| <= 1
    ensures moves[i].ServerAnswers? && moves[i].i < |worlds[i].wire| && worlds[i].wire[moves[i].i].Asking? ==>
              Rotate(worlds[i].table, worlds[i].wire[moves[i].i].presented, moves[i].newHash, moves[i].now,
                  moves[i].expiresAt).1.Rotated?
  {
    if i > 0 {
      RefreshNeverTripsReuse(worlds, moves, f, i - 1);
      MoveKeepsSingleFlight(worlds[i - 1], moves[i - 1], f);
    }
    MoveKeepsSingleFlight(worlds[i], moves[i], f);
  }

  /** Losing a response is survivable exactly when the server had not yet seen the request; otherwise the
      client is left holding a consumed token and its next refresh kills the session. */
  lemma LossExactlyWhen(w: World, f: Family, n: Hash, now: Time, expiresAt: Time)
    requires SingleFlight(w, f) && w.promise
    ensures SingleFlight(Act(w, Drop(0)), f) <==> w.wire[0].Asking?
    ensures w.wire[0].Answered? ==>
              Dead(Act(Act(Act(w, Drop(0)), CallRefresh), ServerAnswers(0, n, now, expiresAt)).table, f)
  {
    if w.wire[0].Answered? {
      ReplayKills(w.table, Refresh(w.stored.value, n, now, expiresAt));
    }
  }

  /** What single flight protects from: presenting one token twice, however well-meant, is answered with
      reuse and kills the family, the freshly issued token included. */
  lemma TwoFlightsKill(t: Table, h: Hash, n1: Hash, n2: Hash, now: Time, expiresAt: Time)
    requires h in t && !t[h].revoked && now <= t[h].expiresAt && n1 !in t && n2 !in t && n1 != n2
    ensures var t1 := Rotate(t, h, n1, now, expiresAt).0;
            var (t2, verdict) := Rotate(t1, h, n2, now, expiresAt);
            verdict == Reused && Dead(t2, t[h].family) && Used(t2, n1)
  {
    var t1 := Rotate(t, h, n1, now, expiresAt).0;
    assert n1 in t1 && t1[n1].family == t[h].family && h in t1;
    ReplayKills(t1, Refresh(h, n2, now, expiresAt));
  }

  /** A refresh the server grants and the client receives leaves the new token stored and everybody answered; until
      then, further callers only wait. */
  lemma RefreshRoundTrip(w: World, f: Family, n: Hash, now: Time, expiresAt: Time)
    requires SingleFlight(w, f) && !w.promise && Allowed(w, ServerAnswers(0, n, now, expiresAt), f)
    ensures var asked := Act(w, CallRefresh);
            var got := Act(Act(asked, ServerAnswers(0, n, now, expiresAt)), Receive(0));
            && asked.wire == [Asking(w.stored.value)] && Act(asked, CallRefresh) == asked.(waiting := 2)
            && got.stored == Some(n) && LiveToken(got.table, n, f) && got.table[n].expiresAt == expiresAt
            && !got.promise && got.waiting == 0 && got.wire == []
  {}

  /** A token the server does not accept ends the session: the client forgets it and asks no more. */
  lemma RefusedEndsSession(w: World, h: Hash, n: Hash, now: Time, expiresAt: Time)
    requires w.stored == Some(h) && !w.promise && w.wire == []
    requires h !in w.table || w.table[h].revoked || w.table[h].expiresAt < now
    ensures var got := Act(Act(Act(w, CallRefresh), ServerAnswers(0, n, now, expiresAt)), Receive(0));
            got.stored.None? && !got.promise && got.wire == [] && Act(got, CallRefresh) == got
  {}

  /** How many callers have joined the refresh under way. */
  function Callers(worlds: seq<World>, moves: seq<Move>, i: nat): nat
    requires |worlds| == |moves| + 1 && i <= |moves|
  {
    if i == 0 || !worlds[i].promise then 0
    else Callers(worlds, moves, i - 1) + if moves[i - 1].CallRefresh? then 1 else 0
  }

  /** Every caller waits on the one refresh in flight, and nobody waits when there is none. */
  lemma {:induction false} EveryoneShares(worlds: seq<World>, moves: seq<Move>, f: Family, i: nat)
    requires IsSession(worlds, moves, f) && SingleFlight(worlds[0], f) && i <= |moves|
    requires !worlds[0].promise && worlds[0].waiting == 0
    ensures worlds[i].waiting == Callers(worlds, moves, i)
    ensures worlds[i].promise <==> worlds[i].waiting > 0
  {
    if i > 0 {
      EveryoneShares(worlds, moves, f, i - 1);
      RefreshNeverTripsReuse(worlds, moves, f, i - 1);
    }
  }
}
