/** One user's presence (internal/store/presence.go, internal/websocket/presence.go): a connection counter
    shared by every server process, a visible status, and the online/offline announcements the
    counter drives. Key expiry is not modelled. */
module PresenceModel {
  import opened ChatTypes

  type ConnId = nat

  datatype Status = Online | Away | Offline

  /** The counter key (absent reads as 0), the status key, and the `user_presence` row. */
  datatype Presence = Presence(count: int, status: Option<Status>, row: Option<Status>)

  datatype Event =
    | Connect(conn: ConnId)
    | Disconnect(conn: ConnId)
    | Update(status: Status)
    | Heartbeat

  function Next(p: Presence, e: Event): Presence {
    match e
    case Connect(_) =>
      if p.count + 1 > 1 then p.(count := p.count + 1)
      else Presence(p.count + 1, Some(Online), Some(Online))
    case Disconnect(_) =>
      if p.count - 1 > 0 then p.(count := p.count - 1)
      else Presence(if p.count - 1 < 0 then 0 else p.count - 1, None, Some(Offline))
    case Update(s) => p.(status := Some(s), row := Some(s))
    case Heartbeat => if p.status.Some? then p else p.(status := Some(Online))
  }

  /** What the connection handling announces: online on the counter's 0 to 1 step, offline on reaching 0. */
  function Announces(p: Presence, e: Event): seq<Status> {
    match e
    case Connect(_) => if p.count + 1 > 1 then [] else [Online]
    case Disconnect(_) => if p.count - 1 > 0 then [] else [Offline]
    case _ => []
  }

  class PresenceServer {
    var count: int
    var status: Option<Status>
    var row: Option<Status>
    var announced: seq<Status>

    ghost function Now(): Presence
      reads this
    {
      Presence(count, status, row)
    }

    constructor ()
      ensures Now() == Presence(0, None, None) && announced == []
    {
      count, status, row, announced := 0, None, None, [];
    }

    method PresenceConnect(ghost conn: ConnId) returns (wentOnline: bool)
      modifies this`count, this`status, this`row
      ensures Now() == Next(old(Now()), Connect(conn))
      ensures wentOnline <==> old(count) <= 0
    {
      count := count + 1;
      if count > 1 {
        return false;
      }
      status := Some(Online);
      row := Some(Online);
      wentOnline := true;
    }

    method PresenceDisconnect(ghost conn: ConnId) returns (wentOffline: bool)
      modifies this`count, this`status, this`row
      ensures Now() == Next(old(Now()), Disconnect(conn))
      ensures wentOffline <==> old(count) <= 1
    {
      count := count - 1;
      if count > 0 {
        return false;
      }
      if count < 0 {
        count := 0;
      }
      status := None;
      row := Some(Offline);
      wentOffline := true;
    }

    method PresenceHeartbeat()
      modifies this`status
      ensures Now() == Next(old(Now()), Heartbeat)
    {
      if status.None? {
        status := Some(Online);
      }
    }

    method PresenceSetStatus(s: Status)
      modifies this`status, this`row
      ensures Now() == Next(old(Now()), Update(s))
    {
      status := Some(s);
      row := Some(s);
    }

    method ConnectionOpened(ghost conn: ConnId)
      modifies this
      ensures Now() == Next(old(Now()), Connect(conn))
      ensures announced == old(announced) + Announces(old(Now()), Connect(conn))
    {
      var wentOnline := PresenceConnect(conn);
      if wentOnline {
        announced := announced + [Online];
      }
    }

    method ConnectionClosed(ghost conn: ConnId)
      modifies this
      ensures Now() == Next(old(Now()), Disconnect(conn))
      ensures announced == old(announced) + Announces(old(Now()), Disconnect(conn))
    {
      var wentOffline := PresenceDisconnect(conn);
      if wentOffline {
        announced := announced + [Offline];
      }
    }
  }

  // ---- histories ----

  function After(h: seq<Event>): Presence {
    if h == [] then Presence(0, None, None) else Next(After(h[..|h| - 1]), h[|h| - 1])
  }

  function Announced(h: seq<Event>): seq<Status> {
    if h == [] then []
    else Announced(h[..|h| - 1]) + Announces(After(h[..|h| - 1]), h[|h| - 1])
  }

  /** The connections opened and not closed since. */
  function Live(h: seq<Event>): set<ConnId> {
    if h == [] then {}
    else LiveStep(Live(h[..|h| - 1]), h[|h| - 1])
  }

  function LiveStep(live: set<ConnId>, e: Event): set<ConnId> {
    match e
    case Connect(c) => live + {c}
    case Disconnect(c) => live - {c}
    case _ => live
  }

  /** A connection opens only when it is not open, and closes only when it is. */
  predicate Proper(h: seq<Event>) {
    h != [] ==>
      var before, e := h[..|h| - 1], h[|h| - 1];
      && Proper(before)
      && (e.Connect? ==> e.conn !in Live(before))
      && (e.Disconnect? ==> e.conn in Live(before))
  }

  predicate Alternates(log: seq<Status>) {
    forall i | 0 <= i < |log| :: log[i] == if i % 2 == 0 then Online else Offline
  }

  /** The counter is the number of live connections, announcements strictly alternate from online, and the
      last one says whether anyone is connected. */
  ghost predicate InStep(h: seq<Event>) {
    && After(h).count == |Live(h)|
    && Alternates(Announced(h))
    && (|Announced(h)| % 2 == 1 <==> Live(h) != {})
  }

  lemma {:induction false} CounterCountsConnections(h: seq<Event>)
    requires Proper(h)
    ensures InStep(h)
  {
    if h != [] {
      CounterCountsConnections(h[..|h| - 1]);
      LiveSize(Live(h[..|h| - 1]), h[|h| - 1]);
    }
  }

  lemma LiveSize(live: set<ConnId>, e: Event)
    ensures e.Connect? && e.conn !in live ==> |LiveStep(live, e)| == |live| + 1
    ensures e.Disconnect? && e.conn in live ==> |LiveStep(live, e)| == |live| - 1
    ensures e.Disconnect? && e.conn !in live ==> LiveStep(live, e) == live
    ensures live != {} <==> |live| > 0
  {}

  /** The reset keeps the counter from ever being negative, whatever order the events come in. */
  lemma {:induction false} NeverNegative(h: seq<Event>)
    ensures After(h).count >= 0
  {
    if h != [] {
      NeverNegative(h[..|h| - 1]);
    }
  }

  /** A close that matches no open connection goes unnoticed by the counter exactly when nobody is
      connected, and then offline is announced a second time: so nothing but a matching close keeps step. */
  lemma ClosesKeepStepExactlyWhen(h: seq<Event>, c: ConnId)
    requires Proper(h)
    ensures var closed := h + [Disconnect(c)];
            && (InStep(closed) <==> c in Live(h))
            && (After(closed).count == |Live(closed)| <==> c in Live(h) || Live(h) == {})
  {
    var closed := h + [Disconnect(c)];
    assert closed[..|closed| - 1] == h;
    CounterCountsConnections(h);
    LiveSize(Live(h), Disconnect(c));
    if c in Live(h) {
      CounterCountsConnections(closed);
    } else if Live(h) == {} {
      assert Announced(closed) == Announced(h) + [Offline];
      assert Announced(closed)[|Announced(h)|] == Offline;
    }
  }

  /** From `i` to `j` someone stays connected and nobody sets a status. */
  predicate Undisturbed(h: seq<Event>, i: nat, j: nat)
    requires i <= j <= |h|
  {
    && (forall k | i <= k <= j :: Live(h[..k]) != {})
    && (forall k | i <= k < j :: !h[k].Update?)
  }

  /** An explicit status survives heartbeats, further connects and all but the last disconnect. */
  lemma {:induction false} StatusSurvives(h: seq<Event>, i: nat, j: nat)
    requires Proper(h) && i < j <= |h|
    requires h[i].Update? && Undisturbed(h, i + 1, j)
    ensures After(h[..j]).status == Some(h[i].status) && After(h[..j]).row == Some(h[i].status)
    decreases j
  {
    var before := h[..j - 1];
    assert h[..j][..j - 1] == before;
    if j > i + 1 {
      StatusSurvives(h, i, j - 1);
      ProperPrefix(h, j - 1);
      ProperPrefix(h, j);
      CounterCountsConnections(before);
      CounterCountsConnections(h[..j]);
      LiveSize(Live(before), h[j - 1]);
      LiveSize(Live(h[..j]), h[j - 1]);
    }
  }

  lemma {:induction false} ProperPrefix(h: seq<Event>, k: nat)
    requires Proper(h) && k <= |h|
    ensures Proper(h[..k])
  {
    if k < |h| {
      ProperPrefix(h[..|h| - 1], k);
      assert h[..|h| - 1][..k] == h[..k];
    } else {
      assert h[..k] == h;
    }
  }

  /** The last disconnect clears the status and the next connect starts online again, whatever was set. */
  lemma StatusForgotten(h: seq<Event>, c: ConnId, d: ConnId)
    requires Proper(h) && Live(h) == {c}
    ensures var gone := h + [Disconnect(c)];
            var back := gone + [Connect(d)];
            && After(gone).status.None? && After(gone).row == Some(Offline)
            && Proper(back) && After(back).status == Some(Online)
            && Announced(back) == Announced(h) + [Offline, Online]
  {
    var gone := h + [Disconnect(c)];
    var back := gone + [Connect(d)];
    assert gone[..|gone| - 1] == h && back[..|back| - 1] == gone;
    CounterCountsConnections(h);
    CounterCountsConnections(gone);
  }

  // ---- what everybody sees ----

  /** Event `k` opens the user's first connection, or closes the last. */
  predicate ComesOnline(h: seq<Event>, k: nat) {
    k < |h| && h[k].Connect? && Live(h[..k]) == {}
  }

  predicate GoesOffline(h: seq<Event>, k: nat) {
    k < |h| && h[k].Disconnect? && Live(h[..k]) == {h[k].conn}
  }

  /** What event `k` shows others of the user, if anything. */
  function Shows(h: seq<Event>, k: nat): Option<Status>
    requires k < |h|
  {
    if ComesOnline(h, k) then Some(Online)
    else if GoesOffline(h, k) then Some(Offline)
    else if h[k].Update? then Some(h[k].status)
    else None
  }

  predicate Beats(h: seq<Event>, k: nat) {
    exists j | k <= j < |h| :: h[j].Heartbeat?
  }

  /** The event as the connections have it: only the first and the last of them count. */
  lemma EventShows(h: seq<Event>, e: Event)
    requires Proper(h + [e])
    ensures var h' := h + [e];
            && Announces(After(h), e) ==
               (if ComesOnline(h', |h|) then [Online] else if GoesOffline(h', |h|) then [Offline] else [])
            && After(h').row == (if Shows(h', |h|).Some? then Shows(h', |h|) else After(h).row)
            && After(h').status ==
               (if GoesOffline(h', |h|) then None
                else if Shows(h', |h|).Some? then Shows(h', |h|)
                else if e.Heartbeat? && After(h).status.None? then Some(Online)
                else After(h).status)
  {
    var h' := h + [e];
    assert h'[..|h'| - 1] == h && h'[..|h|] == h && h'[|h|] == e;
    CounterCountsConnections(h);
    CounterCountsConnections(h');
    LiveSize(Live(h), e);
    if e.Disconnect? {
      assert Live(h') == Live(h) - {e.conn};
      assert |Live(h)| <= 1 <==> Live(h) == {e.conn} by { OnlyOne(Live(h), e.conn); }
    }
  }

  lemma OnlyOne(live: set<ConnId>, c: ConnId)
    requires c in live
    ensures |live| <= 1 <==> live == {c}
  {
    if |live| <= 1 && live != {c} {
      var d :| d in live && d != c;
      SubsetSize({c, d}, live);
    }
  }

  lemma ShowsPrefix(h: seq<Event>, n: nat, k: nat)
    requires k < n <= |h|
    ensures Shows(h[..n], k) == Shows(h, k) && (GoesOffline(h[..n], k) <==> GoesOffline(h, k))
  {
    assert h[..n][..k] == h[..k];
  }

  /** Nothing has shown the user yet. */
  lemma {:induction false} UnseenUntilShown(h: seq<Event>)
    requires Proper(h) && forall k | 0 <= k < |h| :: Shows(h, k).None?
    ensures After(h).row.None? && After(h).status == if Beats(h, 0) then Some(Online) else None
  {
    if h != [] {
      var n := |h| - 1;
      assert h == h[..n] + [h[n]];
      forall k | 0 <= k < n ensures Shows(h[..n], k).None? {
        ShowsPrefix(h, n, k);
      }
      UnseenUntilShown(h[..n]);
      EventShows(h[..n], h[n]);
      assert Beats(h, 0) <==> Beats(h[..n], 0) || h[n].Heartbeat? by { BeatsMore(h, 0); }
    }
  }

  lemma BeatsMore(h: seq<Event>, k: nat)
    requires h != [] && k < |h|
    ensures Beats(h, k) <==> Beats(h[..|h| - 1], k) || h[|h| - 1].Heartbeat?
  {
    var n := |h| - 1;
    if Beats(h[..n], k) {
      var j :| k <= j < n && h[..n][j].Heartbeat?;
      assert h[j].Heartbeat?;
    }
    if Beats(h, k) {
      var j :| k <= j < |h| && h[j].Heartbeat?;
      assert j < n ==> h[..n][j].Heartbeat?;
    }
  }

  /** The row and the status are what was shown last: online on the first connection, offline on the last one's
      end, or what the user set. Only a departure clears the status, and a heartbeat after it brings it back as
      online with nobody connected. */
  lemma {:induction false} LastShown(h: seq<Event>, k: nat)
    requires Proper(h) && k < |h| && Shows(h, k).Some? && forall j | k < j < |h| :: Shows(h, j).None?
    ensures After(h).row == Shows(h, k)
    ensures After(h).status ==
            if !GoesOffline(h, k) then Shows(h, k) else if Beats(h, k) then Some(Online) else None
  {
    var n := |h| - 1;
    assert h == h[..n] + [h[n]];
    EventShows(h[..n], h[n]);
    BeatsMore(h, k);
    if k < n {
      forall j | k < j < n ensures Shows(h[..n], j).None? {
        ShowsPrefix(h, n, j);
      }
      ShowsPrefix(h, n, k);
      LastShown(h[..n], k);
    }
  }
}
