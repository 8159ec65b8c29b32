/** Rule (c) pairs a message with any bubble of its text (frontend/lib/messagesCache.ts:114-120), possibly
    another send's. The source calls that self-healing; here is what heals: the bubbles of a text never
    outnumber the sends of it that have yet to arrive. */
module Mispairing {
  import opened ChatTypes
  import opened MessageCache
  import opened MergeSafety

  /** How many bubbles of the text are held. */
  function Pending(rows: Page, text: string): nat {
    if rows == [] then 0
    else Pending(rows[1..], text) + if Hits(Bubble(Some(text)), rows[0]) then 1 else 0
  }

  lemma {:induction false} PendingSet(rows: Page, k: nat, x: ChatMessage, text: string)
    requires k < |rows|
    ensures Pending(rows[k := x], text) + (if Hits(Bubble(Some(text)), rows[k]) then 1 else 0)
            == Pending(rows, text) + (if Hits(Bubble(Some(text)), x) then 1 else 0)
  {
    if k > 0 {
      PendingSet(rows[1..], k - 1, x, text);
      assert rows[k := x][1..] == rows[1..][k - 1 := x];
    } else {
      assert rows[k := x][1..] == rows[1..];
    }
  }

  lemma PendingFront(rows: Page, x: ChatMessage, text: string)
    ensures Pending([x] + rows, text) == Pending(rows, text) + if Hits(Bubble(Some(text)), x) then 1 else 0
  {
    assert ([x] + rows)[1..] == rows;
  }

  lemma {:induction false} NonePending(rows: Page, text: string)
    requires !AnyHit(rows, Bubble(Some(text)))
    ensures Pending(rows, text) == 0
  {
    if rows != [] {
      assert forall m | m in rows[1..] :: m in rows;
      assert rows[0] in rows;
      NonePending(rows[1..], text);
    }
  }

  // ---- what a client can be sent ----

  /** `origin` tells which server id a send's nonce was given. A message names the nonce it came from, if any,
      carries the text of its send, and arrives after its bubble was shown. */
  ghost predicate CausalAt(history: seq<Incoming>, j: nat, origin: map<MessageId, MessageId>, me: UserId)
    requires j < |history|
  {
    var inc, m := history[j], history[j].message;
    && (m.status.Some? ==>
          && inc.clientId.None?
          && forall i | 0 <= i < j ::
               history[i].message.id != m.id && (m.id in origin ==> history[i].message.id != origin[m.id]))
    && (m.Confirmed() && inc.clientId.Some? ==> inc.clientId.value in origin && origin[inc.clientId.value] == m.id)
    && (m.Confirmed() ==>
          forall n | n in origin && origin[n] == m.id ::
            m.author == me && SentBefore(history, j, n, m.content))
  }

  predicate SentBefore(history: seq<Incoming>, j: nat, n: MessageId, content: Option<string>)
    requires j <= |history|
  {
    exists i | 0 <= i < j :: history[i].message.id == n && history[i].message.status.Some?
        && history[i].message.content == content
  }

  ghost predicate Causal(history: seq<Incoming>, origin: map<MessageId, MessageId>, me: UserId,
                         nonces: set<MessageId>) {
    && BatchDisciplined(history, nonces)
    && (forall n, k | n in origin && k in origin && origin[n] == origin[k] :: n == k)
    && forall j | 0 <= j < |history| :: CausalAt(history, j, origin, me)
  }

  lemma CausalPrefix(history: seq<Incoming>, origin: map<MessageId, MessageId>, me: UserId, nonces: set<MessageId>)
    requires Causal(history, origin, me, nonces) && history != []
    ensures Causal(history[..|history| - 1], origin, me, nonces)
  {
    var front := history[..|history| - 1];
    forall j | 0 <= j < |front| ensures CausalAt(front, j, origin, me) {
      assert CausalAt(history, j, origin, me);
      assert forall i | 0 <= i <= j :: front[i] == history[i];
      forall n | n in origin && origin[n] == front[j].message.id && front[j].message.Confirmed()
        ensures SentBefore(front, j, n, front[j].message.content)
      {
        assert SentBefore(history, j, n, history[j].message.content);
      }
    }
  }

  predicate IsSend(inc: Incoming, text: string) {
    inc.message.status.Some? && inc.message.content == Some(text)
  }

  /** A send of the text whose message has yet to arrive. */
  predicate IsOpen(inc: Incoming, history: seq<Incoming>, origin: map<MessageId, MessageId>, text: string) {
    IsSend(inc, text) && !(inc.message.id in origin && ArrivesConfirmed(history, origin[inc.message.id]))
  }

  function Outstanding(history: seq<Incoming>, origin: map<MessageId, MessageId>, text: string): set<MessageId> {
    set inc | inc in history && IsOpen(inc, history, origin, text) :: inc.message.id
  }

  /** A nonce is shown once, so every row that carries it is its bubble. */
  lemma SendUnique(history: seq<Incoming>, origin: map<MessageId, MessageId>, me: UserId, nonces: set<MessageId>,
                   a: Incoming, b: Incoming)
    requires Causal(history, origin, me, nonces) && a in history && b in history
    requires a.message.id == b.message.id && a.message.status.Some?
    ensures a == b
  {
    var i :| 0 <= i < |history| && history[i] == a;
    var j :| 0 <= j < |history| && history[j] == b;
    assert IncDisciplined(a, nonces) && IncDisciplined(b, nonces);
    assert CausalAt(history, i, origin, me) && CausalAt(history, j, origin, me);
  }

  // ---- one arrival ----

  lemma ArrivesMore(front: seq<Incoming>, inc: Incoming, id: MessageId)
    ensures ArrivesConfirmed(front + [inc], id) <==>
            ArrivesConfirmed(front, id) || (inc.message.Confirmed() && inc.message.id == id)
  {
    assert (front + [inc])[|front|] == inc;
    if ArrivesConfirmed(front, id) {
      var x :| x in front && x.message.Confirmed() && x.message.id == id;
      assert x in front + [inc];
    }
  }

  /** A server row never adds a bubble. */
  lemma PendingDrops(rows: Page, inc: Incoming, me: UserId, text: string)
    requires inc.message.Confirmed()
    ensures Pending(MergeOne(rows, inc, me), text) <= Pending(rows, text)
  {
    var c := MergeOneShape(rows, inc, me);
    match c {
      case Same =>
      case Front => PendingFront(rows, inc.message, text);
      case At(k) => PendingSet(rows, k, inc.message, text);
    }
  }

  /** The first arrival of an own message uses up exactly one bubble of its text whenever one is held. */
  lemma FirstArrival(rows: Page, inc: Incoming, me: UserId, text: string)
    requires inc.message.Confirmed() && inc.message.author == me && inc.message.content == Some(text)
    requires !Holds(rows, inc.message.id)
    requires forall m | m in rows && inc.clientId == Some(m.id) :: Hits(Bubble(Some(text)), m)
    ensures Pending(MergeOne(rows, inc, me), text) == if Pending(rows, text) > 0 then Pending(rows, text) - 1 else 0
  {
    if inc.clientId.Some? && Holds(rows, inc.clientId.value) {
      HoldsIsHit(rows, inc.clientId.value);
      var k := ReplacedAt(rows, WithId(inc.clientId.value), inc.message);
      PendingSet(rows, k, inc.message, text);
      assert rows[k] in rows;
    } else if AnyHit(rows, Bubble(Some(text))) {
      var k := ReplacedAt(rows, Bubble(Some(text)), inc.message);
      PendingSet(rows, k, inc.message, text);
    } else {
      NonePending(rows, text);
      PendingFront(rows, inc.message, text);
    }
  }

  // ---- every history ----

  lemma SendPrepends(front: seq<Incoming>, inc: Incoming, origin: map<MessageId, MessageId>, me: UserId,
                     nonces: set<MessageId>)
    requires Causal(front + [inc], origin, me, nonces) && inc.message.status.Some?
    ensures MergeOne(MergeAll([], front, me), inc, me) == [inc.message] + MergeAll([], front, me)
  {
    var history := front + [inc];
    assert history[..|front|] == front && history[|front|] == inc && CausalAt(history, |front|, origin, me);
    CausalPrefix(history, origin, me, nonces);
    MergeAllSafe([], front, me, nonces);
    forall m | m in MergeAll([], front, me) ensures m.id != inc.message.id {
      var i :| 0 <= i < |front| && front[i].message == m;
      assert history[i] == front[i];
    }
  }

  lemma SendIsNew(front: seq<Incoming>, inc: Incoming, origin: map<MessageId, MessageId>, me: UserId,
                  nonces: set<MessageId>)
    requires Causal(front + [inc], origin, me, nonces) && inc.message.status.Some?
    ensures forall x | x in front ::
              x.message.id != inc.message.id && (inc.message.id in origin ==> x.message.id != origin[inc.message.id])
  {
    var history := front + [inc];
    assert history[|front|] == inc && CausalAt(history, |front|, origin, me);
    forall x | x in front
      ensures x.message.id != inc.message.id && (inc.message.id in origin ==> x.message.id != origin[inc.message.id])
    {
      var i :| 0 <= i < |front| && front[i] == x;
      assert history[i] == x;
    }
  }

  lemma SendStep(front: seq<Incoming>, inc: Incoming, origin: map<MessageId, MessageId>, me: UserId,
                 nonces: set<MessageId>, text: string)
    requires Causal(front + [inc], origin, me, nonces) && inc.message.status.Some?
    ensures |Outstanding(front + [inc], origin, text)| ==
            |Outstanding(front, origin, text)| + if IsSend(inc, text) then 1 else 0
  {
    var history := front + [inc];
    SendIsNew(front, inc, origin, me, nonces);
    forall x ensures IsOpen(x, history, origin, text) <==> IsOpen(x, front, origin, text) {
      if x.message.id in origin {
        ArrivesMore(front, inc, origin[x.message.id]);
      }
    }
    SendOpens(front, inc, origin, text);
  }

  lemma SendOpens(front: seq<Incoming>, inc: Incoming, origin: map<MessageId, MessageId>, text: string)
    requires forall x :: IsOpen(x, front + [inc], origin, text) <==> IsOpen(x, front, origin, text)
    requires forall x | x in front ::
               x.message.id != inc.message.id && (inc.message.id in origin ==> x.message.id != origin[inc.message.id])
    ensures |Outstanding(front + [inc], origin, text)| ==
            |Outstanding(front, origin, text)| + if IsSend(inc, text) then 1 else 0
  {
    var history := front + [inc];
    var was, now := Outstanding(front, origin, text), Outstanding(history, origin, text);
    assert inc.message.id !in was;
    assert IsSend(inc, text) ==> IsOpen(inc, front, origin, text);
    assert forall x :: x in history <==> x in front || x == inc;
    if IsSend(inc, text) {
      assert now == was + {inc.message.id};
    } else {
      assert now == was;
    }
  }

  lemma AnswerCloses(front: seq<Incoming>, inc: Incoming, origin: map<MessageId, MessageId>, text: string, n: MessageId)
    requires inc.message.Confirmed() && n in origin && origin[n] == inc.message.id
    requires forall k | k in origin && origin[k] == inc.message.id :: k == n
    ensures Outstanding(front + [inc], origin, text) == Outstanding(front, origin, text) - {n}
  {
    var history := front + [inc];
    forall x ensures IsOpen(x, history, origin, text) <==> IsOpen(x, front, origin, text) && x.message.id != n {
      if x.message.id in origin {
        ArrivesMore(front, inc, origin[x.message.id]);
      }
    }
    assert forall x :: x in history <==> x in front || x == inc;
  }

  lemma RowWasSent(front: seq<Incoming>, origin: map<MessageId, MessageId>, me: UserId, nonces: set<MessageId>,
                   send: Incoming)
    requires Causal(front, origin, me, nonces) && send in front && send.message.status.Some?
    ensures forall m | m in MergeAll([], front, me) && m.id == send.message.id :: m == send.message
  {
    MergeAllSafe([], front, me, nonces);
    forall m | m in MergeAll([], front, me) && m.id == send.message.id ensures m == send.message {
      var x :| x in front && x.message == m;
      SendUnique(front, origin, me, nonces, send, x);
    }
  }

  /** An answer to an outstanding send of the text is an own message of the text. */
  lemma AnswerMatches(front: seq<Incoming>, inc: Incoming, origin: map<MessageId, MessageId>, me: UserId,
                      nonces: set<MessageId>, text: string, n: MessageId) returns (send: Incoming)
    requires Causal(front + [inc], origin, me, nonces) && Causal(front, origin, me, nonces) && inc.message.Confirmed()
    requires n in origin && origin[n] == inc.message.id && n in Outstanding(front, origin, text)
    ensures send in front && send.message.id == n && IsSend(send, text)
    ensures inc.message.author == me && inc.message.content == Some(text)
    ensures inc.clientId.Some? ==> inc.clientId.value == n
  {
    var history := front + [inc];
    assert history[|front|] == inc && CausalAt(history, |front|, origin, me);
    send :| send in front && send.message.id == n && IsOpen(send, front, origin, text);
    var i :| 0 <= i < |front| && history[i].message.id == n && history[i].message.status.Some?
             && history[i].message.content == inc.message.content;
    SendUnique(front, origin, me, nonces, send, front[i]);
  }

  lemma NotHeldYet(front: seq<Incoming>, me: UserId, nonces: set<MessageId>, id: MessageId)
    requires BatchDisciplined(front, nonces) && id !in nonces && !ArrivesConfirmed(front, id)
    ensures !Holds(MergeAll([], front, me), id)
  {
    MergeAllSafe([], front, me, nonces);
    var rows := MergeAll([], front, me);
    assert !HoldsConfirmed(rows, id);
    forall m | m in rows ensures m.id != id {
      assert RowDisciplined(m, nonces);
    }
  }

  /** The first answer to an outstanding send closes it and uses up a bubble of its text. */
  lemma AnsweredSend(front: seq<Incoming>, inc: Incoming, origin: map<MessageId, MessageId>, me: UserId,
                     nonces: set<MessageId>, text: string, n: MessageId)
    requires Causal(front + [inc], origin, me, nonces) && Causal(front, origin, me, nonces) && inc.message.Confirmed()
    requires n in origin && origin[n] == inc.message.id && n in Outstanding(front, origin, text)
    ensures Outstanding(front + [inc], origin, text) == Outstanding(front, origin, text) - {n}
    ensures Pending(MergeOne(MergeAll([], front, me), inc, me), text) <=
            if Pending(MergeAll([], front, me), text) > 0 then Pending(MergeAll([], front, me), text) - 1 else 0
  {
    AnswerCloses(front, inc, origin, text, n);
    var send := AnswerMatches(front, inc, origin, me, nonces, text, n);
    RowWasSent(front, origin, me, nonces, send);
    assert IncDisciplined(inc, nonces) by { assert inc in front + [inc]; }
    assert !ArrivesConfirmed(front, inc.message.id);
    NotHeldYet(front, me, nonces, inc.message.id);
    FirstArrival(MergeAll([], front, me), inc, me, text);
  }

  /** Any other server row leaves the sends of the text as outstanding as they were. */
  lemma OtherArrival(front: seq<Incoming>, inc: Incoming, origin: map<MessageId, MessageId>, text: string)
    requires inc.message.Confirmed()
    requires forall n | n in origin && origin[n] == inc.message.id :: n !in Outstanding(front, origin, text)
    ensures Outstanding(front + [inc], origin, text) == Outstanding(front, origin, text)
  {
    forall id ensures ArrivesConfirmed(front + [inc], id) <==> ArrivesConfirmed(front, id) || inc.message.id == id {
      ArrivesMore(front, inc, id);
    }
  }

  /** In every history from an empty cache, whatever echoes are lost or come late and however rule (c) pairs
      messages with bubbles: no more bubbles of a text are held than sends of it have yet to arrive. */
  lemma {:induction false} BubblesNeverOutnumber(history: seq<Incoming>, origin: map<MessageId, MessageId>, me: UserId,
                                                 nonces: set<MessageId>, text: string)
    requires Causal(history, origin, me, nonces)
    ensures Pending(MergeAll([], history, me), text) <= |Outstanding(history, origin, text)|
  {
    if history != [] {
      var front, inc := history[..|history| - 1], history[|history| - 1];
      assert history == front + [inc];
      CausalPrefix(history, origin, me, nonces);
      BubblesNeverOutnumber(front, origin, me, nonces, text);
      var rows := MergeAll([], front, me);
      if inc.message.status.Some? {
        SendStep(front, inc, origin, me, nonces, text);
        SendPrepends(front, inc, origin, me, nonces);
        PendingFront(rows, inc.message, text);
      } else if n :| n in origin && origin[n] == inc.message.id && n in Outstanding(front, origin, text) {
        AnsweredSend(front, inc, origin, me, nonces, text, n);
      } else {
        OtherArrival(front, inc, origin, text);
        PendingDrops(rows, inc, me, text);
      }
    }
  }

  /** So a mispairing heals: once every send of a text has arrived, no bubble of it is left. */
  lemma MispairingHeals(history: seq<Incoming>, origin: map<MessageId, MessageId>, me: UserId,
                        nonces: set<MessageId>, text: string)
    requires Causal(history, origin, me, nonces)
    requires forall inc | inc in history && IsSend(inc, text) ::
               inc.message.id in origin && ArrivesConfirmed(history, origin[inc.message.id])
    ensures !AnyHit(MergeAll([], history, me), Bubble(Some(text)))
  {
    BubblesNeverOutnumber(history, origin, me, nonces, text);
    assert Outstanding(history, origin, text) == {};
    SomePending(MergeAll([], history, me), text);
  }

  lemma {:induction false} SomePending(rows: Page, text: string)
    ensures AnyHit(rows, Bubble(Some(text))) ==> Pending(rows, text) > 0
  {
    if rows != [] {
      assert rows == [rows[0]] + rows[1..];
      SomePending(rows[1..], text);
    }
  }
}
