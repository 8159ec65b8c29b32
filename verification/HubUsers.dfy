/** The Hub's user index and the broker's user channels together: the connections one turn of the Hub drops,
    with the user unsubscribes it requests (internal/websocket/hub.go:232-265), are departures of the
    user-channel protocol. */
module HubUsers {
  import opened ChatTypes
  import opened HubModel
  import opened HubBroker
  import B = BrokerModel
  import U = UserChannels

  type ConnIds = set<U.ConnId>

  /** Some seated connection of the user is not among `cs`. */
  predicate Stays(n: U.Net, cs: ConnIds, user: UserId) {
    exists d | d in n.conns :: d !in cs && n.conns[d].seated && n.conns[d].user == user
  }

  predicate AllSeated(n: U.Net, cs: ConnIds) {
    forall c | c in cs :: c in n.conns && n.conns[c].seated
  }

  function Without(n: U.Net, cs: ConnIds): U.Net {
    n.(conns := n.conns - cs)
  }

  /** Departures of one user's connections: the last one out requests the unsubscribe. */
  lemma {:induction false} DepartAll(n: U.Net, cs: ConnIds, user: UserId) returns (steps: seq<U.Step>)
    requires AllSeated(n, cs) && cs != {} && forall c | c in cs :: n.conns[c].user == user
    requires Stays(n, cs, user) || !U.Exposed(n, user)
    ensures U.QuietPath(n, steps)
    ensures U.End(n, steps) ==
            if Stays(n, cs, user) then Without(n, cs) else Without(n, cs).(queue := B.PushUnsub(n.queue, user))
    decreases |cs|
  {
    var c :| c in cs;
    var n', rest := U.Next(n, U.Depart(c)), cs - {c};
    U.OneStep(n, U.Depart(c));
    if rest == {} {
      assert cs == {c};
      assert U.Empties(n, c) <==> !Stays(n, cs, user);
      steps := [U.Depart(c)];
    } else {
      var d :| d in rest;
      assert !U.Empties(n, c);
      assert n' == Without(n, {c});
      SameStays(n, c, cs, user);
      var more := DepartAll(n', rest, user);
      U.PathConcat(n, [U.Depart(c)], more);
      steps := [U.Depart(c)] + more;
      assert n.conns - {c} - rest == n.conns - cs;
    }
  }

  lemma SameStays(n: U.Net, c: U.ConnId, cs: ConnIds, user: UserId)
    requires c in cs && c in n.conns && n.conns[c].seated
    ensures Stays(Without(n, {c}), cs - {c}, user) <==> Stays(n, cs, user)
    ensures U.Exposed(Without(n, {c}), user) <==> U.Exposed(n, user)
  {
    var n' := Without(n, {c});
    if Stays(n, cs, user) {
      var d :| d in n.conns && d !in cs && n.conns[d].seated && n.conns[d].user == user;
      assert d in n'.conns;
    }
    if U.Exposed(n, user) {
      var d :| d in n.conns && n.conns[d].user == user && !n.conns[d].seated
               && (n.conns[d].ask == U.Waiting || n.conns[d].ask == U.Granted);
      assert d in n'.conns;
    }
  }

  function SeatedOf(n: U.Net, users: set<UserId>): ConnIds {
    set c | c in n.conns && n.conns[c].seated && n.conns[c].user in users
  }

  function Users(said: seq<UserId>): set<UserId> {
    set u | u in said
  }

  /** Users losing their last connections, in the order announced. */
  lemma {:induction false} DepartUsers(n: U.Net, said: seq<UserId>) returns (steps: seq<U.Step>)
    requires NoRepeats(said)
    requires forall u | u in said :: SeatedOf(n, {u}) != {} && !U.Exposed(n, u)
    ensures U.QuietPath(n, steps)
    ensures U.End(n, steps) == Without(n, SeatedOf(n, Users(said))).(queue := PushAll(n.queue, said))
  {
    if said == [] {
      steps := [];
      assert SeatedOf(n, Users(said)) == {};
      assert n.conns - {} == n.conns;
    } else {
      var front, last := said[..|said| - 1], said[|said| - 1];
      assert said == front + [last] && last !in front;
      assert Users(said) == Users(front) + {last};
      var first := DepartUsers(n, front);
      var mid := U.End(n, first);
      OthersKept(n, Users(front), last);
      assert mid.conns == Without(n, SeatedOf(n, Users(front))).conns;
      var cs := SeatedOf(n, {last});
      assert !Stays(mid, cs, last);
      assert !U.Exposed(mid, last);
      var more := DepartAll(mid, cs, last);
      U.PathConcat(n, first, more);
      steps := first + more;
      assert n.conns - SeatedOf(n, Users(front)) - cs == n.conns - SeatedOf(n, Users(said));
    }
  }

  lemma OthersKept(n: U.Net, users: set<UserId>, last: UserId)
    requires last !in users
    ensures AllSeated(Without(n, SeatedOf(n, users)), SeatedOf(n, {last}))
    ensures U.Exposed(Without(n, SeatedOf(n, users)), last) ==> U.Exposed(n, last)
  {}

  /** Connections whose users keep another one. */
  lemma {:induction false} ThinUsers(n: U.Net, cs: ConnIds) returns (steps: seq<U.Step>)
    requires AllSeated(n, cs) && forall c | c in cs :: Stays(n, cs, n.conns[c].user)
    ensures U.QuietPath(n, steps) && U.End(n, steps) == Without(n, cs)
    decreases |cs|
  {
    if cs == {} {
      steps := [];
      assert n.conns - cs == n.conns;
    } else {
      var c :| c in cs;
      var first := DepartAll(n, {c}, n.conns[c].user) by {
        StaysMore(n, cs, {c}, n.conns[c].user);
      }
      var mid, rest := U.End(n, first), cs - {c};
      StaysMore(n, cs, {c}, n.conns[c].user);
      forall d | d in rest ensures Stays(mid, rest, mid.conns[d].user) {
        SameStays(n, c, cs, n.conns[d].user);
      }
      var more := ThinUsers(mid, rest);
      U.PathConcat(n, first, more);
      steps := first + more;
      assert n.conns - {c} - rest == n.conns - cs;
    }
  }

  lemma StaysMore(n: U.Net, cs: ConnIds, fewer: ConnIds, user: UserId)
    requires Stays(n, cs, user) && fewer <= cs
    ensures Stays(n, fewer, user)
  {
    var d :| d in n.conns && d !in cs && n.conns[d].seated && n.conns[d].user == user;
    assert d !in fewer;
  }

  /** What a turn announces: each user who had a dropped connection and has none left, once. */
  ghost predicate Announces(n: U.Net, gone: ConnIds, said: seq<UserId>) {
    && NoRepeats(said)
    && forall u :: u in said <==> SeatedOf(n, {u}) * gone != {} && !Stays(n, gone, u)
  }

  /** A turn that drops `gone` is a quiet sequence of departures, unless a user it announces is exposed. */
  lemma UsersTurn(n: U.Net, gone: ConnIds, said: seq<UserId>) returns (steps: seq<U.Step>)
    requires AllSeated(n, gone) && Announces(n, gone, said)
    requires forall u | u in said :: !U.Exposed(n, u)
    ensures U.QuietPath(n, steps)
    ensures U.End(n, steps) == Without(n, gone).(queue := PushAll(n.queue, said))
  {
    var first := DepartUsers(n, said);
    var mid, lost := U.End(n, first), SeatedOf(n, Users(said));
    forall c | c in lost ensures c in gone {
      assert !Stays(n, gone, n.conns[c].user);
    }
    var rest := gone - lost;
    forall c | c in rest ensures c in mid.conns && mid.conns[c].seated && Stays(mid, rest, mid.conns[c].user) {
      RestStays(n, gone, said, c);
    }
    var more := ThinUsers(mid, rest);
    U.PathConcat(n, first, more);
    steps := first + more;
    assert n.conns - lost - rest == n.conns - gone;
  }

  lemma RestStays(n: U.Net, gone: ConnIds, said: seq<UserId>, c: U.ConnId)
    requires AllSeated(n, gone) && Announces(n, gone, said) && c in gone && c !in SeatedOf(n, Users(said))
    ensures var mid := Without(n, SeatedOf(n, Users(said)));
            c in mid.conns && Stays(mid, gone - SeatedOf(n, Users(said)), n.conns[c].user)
  {
    var user := n.conns[c].user;
    assert c in SeatedOf(n, {user}) * gone && user !in said;
    var d :| d in n.conns && d !in gone && n.conns[d].seated && n.conns[d].user == user;
    assert d in Without(n, SeatedOf(n, Users(said))).conns;
  }
}
