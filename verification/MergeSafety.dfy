/** What every merge into the message cache keeps (frontend/lib/messagesCache.ts, rules (a)-(d)).

    Client nonces and server ids are drawn from disjoint supplies. `Disciplined` states that for a
    set `nonces`: a row is a local bubble exactly when its id is a nonce. Under it no merge loses a
    server row, and a batch leaves exactly the server ids that were held or arrived. */
module MergeSafety {
  import opened ChatTypes
  import opened MessageCache

  predicate RowDisciplined(m: ChatMessage, nonces: set<MessageId>) {
    m.id in nonces <==> m.status.Some?
  }

  predicate Disciplined(rows: Page, nonces: set<MessageId>) {
    forall m | m in rows :: RowDisciplined(m, nonces)
  }

  predicate IncDisciplined(inc: Incoming, nonces: set<MessageId>) {
    RowDisciplined(inc.message, nonces) && (inc.clientId.Some? ==> inc.clientId.value in nonces)
  }

  predicate BatchDisciplined(batch: seq<Incoming>, nonces: set<MessageId>) {
    forall inc | inc in batch :: IncDisciplined(inc, nonces)
  }

  predicate AllConfirmed(batch: seq<Incoming>) {
    forall inc | inc in batch :: inc.message.Confirmed()
  }

  predicate UniqueIds(rows: Page) {
    forall i, j | 0 <= i < j < |rows| :: rows[i].id != rows[j].id
  }

  predicate Arrives(batch: seq<Incoming>, m: ChatMessage) {
    exists inc | inc in batch :: inc.message == m
  }

  predicate ArrivesConfirmed(batch: seq<Incoming>, id: MessageId) {
    exists inc | inc in batch :: inc.message.Confirmed() && inc.message.id == id
  }

  /** `replaceFirst` rewrites exactly one position, the first that matches. */
  lemma {:induction false} ReplacedAt(rows: Page, t: Target, x: ChatMessage) returns (k: nat)
    requires AnyHit(rows, t)
    ensures k < |rows| && Hits(t, rows[k])
    ensures forall j | 0 <= j < k :: !Hits(t, rows[j])
    ensures ReplaceInPage(rows, t, x) == rows[k := x]
  {
    if Hits(t, rows[0]) {
      k := 0;
    } else {
      assert rows == [rows[0]] + rows[1..];
      k := ReplacedAt(rows[1..], t, x);
      k := k + 1;
    }
  }

  datatype Change = Same | Front | At(k: nat)

  /** No row of `rows` stands at or before `k` for the target but the one at `k`. */
  predicate FirstHit(rows: Page, t: Target, k: nat) {
    k < |rows| && Hits(t, rows[k]) && forall j | 0 <= j < k :: !Hits(t, rows[j])
  }

  /** What a merge does, exactly. The message takes the place of the first row that carries its nonce; else it
      is ignored if its id is held; else, if it is a server row by this user, it takes the place of the first
      bubble with its text; else it goes to the front. Nothing else changes. */
  lemma MergeOneShape(rows: Page, inc: Incoming, me: UserId) returns (c: Change)
    ensures c.Same? ==> MergeOne(rows, inc, me) == rows && Holds(rows, inc.message.id)
    ensures c.Front? ==>
              && MergeOne(rows, inc, me) == [inc.message] + rows
              && !Holds(rows, inc.message.id) && forall m | m in rows :: !Answers(inc, m, me)
    ensures c.At? ==>
              && c.k < |rows|
              && MergeOne(rows, inc, me) == rows[c.k := inc.message]
              && Answers(inc, rows[c.k], me)
              && (if inc.clientId.Some? && Holds(rows, inc.clientId.value)
                  then FirstHit(rows, WithId(inc.clientId.value), c.k)
                  else !Holds(rows, inc.message.id) && FirstHit(rows, Bubble(inc.message.content), c.k))
    ensures c.At? || inc.clientId.None? || !Holds(rows, inc.clientId.value)
  {
    if inc.clientId.Some? && Holds(rows, inc.clientId.value) {
      HoldsIsHit(rows, inc.clientId.value);
      var k := ReplacedAt(rows, WithId(inc.clientId.value), inc.message);
      c := At(k);
    } else if Holds(rows, inc.message.id) {
      c := Same;
    } else if inc.message.Confirmed() && inc.message.author == me && AnyHit(rows, Bubble(inc.message.content)) {
      var k := ReplacedAt(rows, Bubble(inc.message.content), inc.message);
      c := At(k);
    } else {
      c := Front;
    }
  }

  /** Messages by others that name no bubble this client shows leave every bubble as it is. */
  lemma OthersTouchNoBubble(rows: Page, batch: seq<Incoming>, me: UserId)
    requires forall inc | inc in batch :: inc.message.author != me && forall m | m in rows :: inc.clientId != Some(m.id)
    ensures forall m | m in rows :: m in MergeAll(rows, batch, me)
  {
    MergeAllKeeps(rows, batch, me);
  }

  lemma MergeOneSafe(rows: Page, inc: Incoming, me: UserId, nonces: set<MessageId>)
    requires Disciplined(rows, nonces) && IncDisciplined(inc, nonces)
    ensures var r := MergeOne(rows, inc, me);
            && Disciplined(r, nonces)
            && (forall m | m in rows && m.Confirmed() :: m in r)
            && (forall m | m in r :: m in rows || m == inc.message)
            && (inc.message.Confirmed() ==> HoldsConfirmed(r, inc.message.id))
            && |rows| <= |r| <= |rows| + 1
  {
    var c := MergeOneShape(rows, inc, me);
    var r := MergeOne(rows, inc, me);
    match c {
      case Same =>
      case Front =>
        assert r[0] == inc.message;
      case At(k) =>
        assert rows[k] in rows && RowDisciplined(rows[k], nonces);
        assert r[k] == inc.message;
        forall m | m in rows && m.Confirmed() ensures m in r {
          var i :| 0 <= i < |rows| && rows[i] == m;
          assert i != k && r[i] == m;
        }
    }
  }

  /** A batch loses no server row, invents none, and ends holding exactly the server ids that were
      held before or arrived; it adds at most one row per incoming message. */
  lemma {:induction false} MergeAllSafe(rows: Page, batch: seq<Incoming>, me: UserId, nonces: set<MessageId>)
    requires Disciplined(rows, nonces) && BatchDisciplined(batch, nonces)
    ensures var r := MergeAll(rows, batch, me);
            && Disciplined(r, nonces)
            && (forall m | m in rows && m.Confirmed() :: m in r)
            && (forall m | m in r :: m in rows || Arrives(batch, m))
            && (forall id :: HoldsConfirmed(r, id) <==> HoldsConfirmed(rows, id) || ArrivesConfirmed(batch, id))
            && |rows| <= |r| <= |rows| + |batch|
  {
    if batch != [] {
      var n := |batch| - 1;
      var front, last := batch[..n], batch[n];
      assert batch == front + [last];
      MergeAllSafe(rows, front, me, nonces);
      var mid := MergeAll(rows, front, me);
      MergeOneSafe(mid, last, me, nonces);
      var r := MergeAll(rows, batch, me);
      forall m | m in r ensures m in rows || Arrives(batch, m) {
        if m == last.message {
          assert last in batch;
        }
      }
      forall id ensures HoldsConfirmed(r, id) <==> HoldsConfirmed(rows, id) || ArrivesConfirmed(batch, id) {
        ConfirmedStep(rows, batch, mid, r, id);
      }
    }
  }

  lemma ConfirmedStep(rows: Page, batch: seq<Incoming>, mid: Page, r: Page, id: MessageId)
    requires batch != []
    requires HoldsConfirmed(mid, id) <==> HoldsConfirmed(rows, id) || ArrivesConfirmed(batch[..|batch| - 1], id)
    requires forall m | m in mid && m.Confirmed() :: m in r
    requires forall m | m in r :: m in mid || m == batch[|batch| - 1].message
    requires batch[|batch| - 1].message.Confirmed() ==> HoldsConfirmed(r, batch[|batch| - 1].message.id)
    ensures HoldsConfirmed(r, id) <==> HoldsConfirmed(rows, id) || ArrivesConfirmed(batch, id)
  {
    var front, last := batch[..|batch| - 1], batch[|batch| - 1];
    assert batch == front + [last];
    if ArrivesConfirmed(batch, id) {
      var inc :| inc in batch && inc.message.Confirmed() && inc.message.id == id;
      if inc != last {
        assert inc in front;
      }
    }
    if HoldsConfirmed(r, id) {
      var m :| m in r && m.id == id && m.Confirmed();
      if m !in mid {
        assert last in batch && last.message == m;
      }
    }
  }

  // ---- re-delivery ----

  /** A batch entry that a merge would ignore. */
  predicate Absorbed(rows: Page, inc: Incoming) {
    Holds(rows, inc.message.id) && (inc.clientId.Some? ==> !Holds(rows, inc.clientId.value))
  }

  lemma {:induction false} AbsorbedBatch(rows: Page, batch: seq<Incoming>, me: UserId)
    requires forall inc | inc in batch :: Absorbed(rows, inc)
    ensures MergeAll(rows, batch, me) == rows
  {
    if batch != [] {
      AbsorbedBatch(rows, batch[..|batch| - 1], me);
      assert batch[|batch| - 1] in batch;
    }
  }

  predicate AtMostOnce(rows: Page, id: MessageId) {
    forall i, j | 0 <= i < |rows| && 0 <= j < |rows| && rows[i].id == id && rows[j].id == id :: i == j
  }

  /** Merging server rows never multiplies a nonce, and consumes the one it reconciles. */
  lemma NonceStep(rows: Page, inc: Incoming, me: UserId, nonce: MessageId)
    requires inc.message.id != nonce
    requires AtMostOnce(rows, nonce)
    ensures AtMostOnce(MergeOne(rows, inc, me), nonce)
    ensures !Holds(rows, nonce) || inc.clientId == Some(nonce) ==> !Holds(MergeOne(rows, inc, me), nonce)
  {
    var c := MergeOneShape(rows, inc, me);
    var r := MergeOne(rows, inc, me);
    match c {
      case Same =>
      case Front =>
        assert forall i | 0 < i < |r| :: r[i] == rows[i - 1];
      case At(k) =>
        if Holds(r, nonce) {
          var m :| m in r && m.id == nonce;
          var i :| 0 <= i < |r| && r[i] == m;
          assert rows[i] in rows;
        }
    }
  }

  lemma {:induction false} NonceBatch(rows: Page, batch: seq<Incoming>, me: UserId, nonce: MessageId)
    requires forall inc | inc in batch :: inc.message.id != nonce
    requires AtMostOnce(rows, nonce)
    ensures AtMostOnce(MergeAll(rows, batch, me), nonce)
    ensures (!Holds(rows, nonce) || exists inc | inc in batch :: inc.clientId == Some(nonce)) ==>
              !Holds(MergeAll(rows, batch, me), nonce)
  {
    if batch != [] {
      var n := |batch| - 1;
      assert batch == batch[..n] + [batch[n]];
      NonceBatch(rows, batch[..n], me, nonce);
      NonceStep(MergeAll(rows, batch[..n], me), batch[n], me, nonce);
    }
  }

  /** Delivering the same batch of server rows again changes nothing, whatever server ids the cache
      repeats, as long as no bubble the batch names is held twice. */
  lemma MergeIdempotent(rows: Page, batch: seq<Incoming>, me: UserId, nonces: set<MessageId>)
    requires Disciplined(rows, nonces) && BatchDisciplined(batch, nonces)
    requires AllConfirmed(batch)
    requires forall inc | inc in batch && inc.clientId.Some? :: AtMostOnce(rows, inc.clientId.value)
    ensures MergeAll(MergeAll(rows, batch, me), batch, me) == MergeAll(rows, batch, me)
  {
    MergeAllSafe(rows, batch, me, nonces);
    var r := MergeAll(rows, batch, me);
    forall inc | inc in batch ensures Absorbed(r, inc) {
      assert ArrivesConfirmed(batch, inc.message.id);
      assert HoldsConfirmed(r, inc.message.id);
      if inc.clientId.Some? {
        NonceBatch(rows, batch, me, inc.clientId.value);
      }
    }
    AbsorbedBatch(r, batch, me);
  }

  /** Only a server row names a bubble to reconcile with: an echo or the response to a send. */
  predicate Reconciles(inc: Incoming) {
    inc.clientId.Some? ==> inc.message.Confirmed()
  }

  ghost predicate BubblesOnce(rows: Page, nonces: set<MessageId>) {
    forall nonce | nonce in nonces :: AtMostOnce(rows, nonce)
  }

  lemma BubbleStep(rows: Page, inc: Incoming, me: UserId, nonce: MessageId)
    requires AtMostOnce(rows, nonce) && Reconciles(inc)
    requires inc.message.id == nonce ==> inc.message.status.Some?
    ensures AtMostOnce(MergeOne(rows, inc, me), nonce)
  {
    if inc.message.id != nonce {
      NonceStep(rows, inc, me, nonce);
    } else if !Holds(rows, nonce) {
      assert MergeOne(rows, inc, me) == [inc.message] + rows;
      assert forall i | 0 < i < |rows| + 1 :: ([inc.message] + rows)[i] == rows[i - 1] && rows[i - 1] in rows;
    }
  }

  /** No run of merges ever holds a bubble twice. */
  lemma {:induction false} BubblesStayUnique(rows: Page, batch: seq<Incoming>, me: UserId, nonces: set<MessageId>)
    requires BubblesOnce(rows, nonces)
    requires BatchDisciplined(batch, nonces) && forall inc | inc in batch :: Reconciles(inc)
    ensures BubblesOnce(MergeAll(rows, batch, me), nonces)
  {
    if batch != [] {
      var front, last := batch[..|batch| - 1], batch[|batch| - 1];
      assert last in batch && IncDisciplined(last, nonces);
      BubblesStayUnique(rows, front, me, nonces);
      forall nonce | nonce in nonces ensures AtMostOnce(MergeAll(rows, batch, me), nonce) {
        BubbleStep(MergeAll(rows, front, me), last, me, nonce);
      }
    }
  }

  /** So in every cache that merges build on fetched pages, re-delivery is a no-op. */
  lemma RedeliveryChangesNothing(fetched: Page, history: seq<Incoming>, batch: seq<Incoming>, me: UserId,
                                 nonces: set<MessageId>)
    requires Disciplined(fetched, nonces) && forall m | m in fetched :: m.Confirmed()
    requires BatchDisciplined(history, nonces) && forall inc | inc in history :: Reconciles(inc)
    requires BatchDisciplined(batch, nonces) && AllConfirmed(batch)
    ensures var rows := MergeAll(fetched, history, me);
            MergeAll(MergeAll(rows, batch, me), batch, me) == MergeAll(rows, batch, me)
  {
    forall nonce | nonce in nonces ensures AtMostOnce(fetched, nonce) {
      assert forall i | 0 <= i < |fetched| :: fetched[i] in fetched && RowDisciplined(fetched[i], nonces);
    }
    BubblesStayUnique(fetched, history, me, nonces);
    MergeAllSafe(fetched, history, me, nonces);
    MergeIdempotent(MergeAll(fetched, history, me), batch, me, nonces);
  }

  /** Rule (a) runs before rule (b): ids stay unique exactly when the incoming id is not already
      held beside the bubble that carries its nonce. */
  lemma UniquenessKeptExactlyWhen(rows: Page, inc: Incoming, me: UserId)
    requires UniqueIds(rows)
    ensures UniqueIds(MergeOne(rows, inc, me)) <==>
            !(inc.clientId.Some? && inc.clientId.value != inc.message.id
              && Holds(rows, inc.clientId.value) && Holds(rows, inc.message.id))
  {
    var c := MergeOneShape(rows, inc, me);
    var r := MergeOne(rows, inc, me);
    match c {
      case Same =>
      case Front =>
        assert forall i | 0 < i < |r| :: r[i] == rows[i - 1] && rows[i - 1] in rows;
      case At(k) =>
        if Holds(rows, inc.message.id) && inc.message.id != rows[k].id {
          var m :| m in rows && m.id == inc.message.id;
          var i :| 0 <= i < |rows| && rows[i] == m;
          assert r[i].id == r[k].id && i != k;
          assert rows[k] in rows;
        } else {
          assert forall i | 0 <= i < |rows| && i != k :: rows[i] in rows && rows[i].id != inc.message.id;
          assert rows[k] in rows;
        }
    }
  }

  /** A run that gets there: two bubbles with one text; a resync brings the first message and rule (c) takes
      the newer bubble for it; then the message's own echo replaces the other bubble. */
  lemma DuplicateRun(first: ChatMessage, second: ChatMessage, m: ChatMessage, me: UserId)
    requires first.status.Some? && second.status.Some? && m.Confirmed() && m.author == me
    requires first.content == second.content == m.content
    requires first.id != second.id && first.id != m.id && second.id != m.id
    ensures var batch := [Incoming(first, None), Incoming(second, None), Incoming(m, None),
            Incoming(m, Some(first.id))];
            MergeAll([], batch, me) == [m, m]
  {
    var batch := [Incoming(first, None), Incoming(second, None), Incoming(m, None), Incoming(m, Some(first.id))];
    var b := Bubble(m.content);
    assert batch[..3][..2] == batch[..2] && batch[..3][..2][..1] == batch[..1] && batch[..1][..0] == [];
    assert MergeAll([], batch[..1], me) == [first];
    assert first in [first];
    assert MergeAll([], batch[..2], me) == [second, first];
    assert second in [second, first] && Hits(b, second);
    assert ReplaceInPage([second, first], b, m) == [m, first];
    assert MergeAll([], batch[..3], me) == [m, first];
    assert first in [m, first] && Holds([m, first], first.id);
    assert [m, first][1..] == [first] && ReplaceInPage([first], WithId(first.id), m) == [m];
    assert ReplaceInPage([m, first], WithId(first.id), m) == [m, m];
  }

  /** Fetched rows add no copy of a server message the cache already holds (rule (b)). */
  lemma {:induction false} HeldAbsorbs(rows: Page, batch: seq<Incoming>, me: UserId, nonces: set<MessageId>,
                                       id: MessageId)
    requires Disciplined(rows, nonces) && BatchDisciplined(batch, nonces) && HoldsConfirmed(rows, id)
    requires forall inc | inc in batch :: inc.clientId.None?
    ensures forall m | m in MergeAll(rows, batch, me) && m.id == id :: m in rows
  {
    if batch != [] {
      var front, last := batch[..|batch| - 1], batch[|batch| - 1];
      assert last in batch;
      HeldAbsorbs(rows, front, me, nonces, id);
      MergeAllSafe(rows, front, me, nonces);
      var mid, r := MergeAll(rows, front, me), MergeAll(rows, batch, me);
      assert HoldsConfirmed(mid, id);
      assert Holds(mid, id) by {
        var m :| m in mid && m.id == id && m.Confirmed();
      }
      MergeOneSafe(mid, last, me, nonces);
      var c := MergeOneShape(mid, last, me);
      forall m | m in r && m.id == id ensures m in rows {
        assert m in mid || m == last.message;
      }
    }
  }

  // ---- the keyset cursor ----

  /** The last page ends in a server row: the one the next older page is fetched from. */
  predicate Anchored(pages: seq<Page>) {
    pages != [] && var last := pages[|pages| - 1]; last != [] && last[|last| - 1].Confirmed()
  }

  function Tail(pages: seq<Page>): ChatMessage
    requires Anchored(pages)
  {
    var last := pages[|pages| - 1];
    last[|last| - 1]
  }

  lemma {:induction false} TailIsLast(pages: seq<Page>)
    requires Anchored(pages)
    ensures Flatten(pages) != [] && Flatten(pages)[|Flatten(pages)| - 1] == Tail(pages)
  {
    if |pages| == 1 {
      assert Flatten(pages[1..]) == [];
    } else {
      TailIsLast(pages[1..]);
    }
  }

  /** A replacement keeps every page's length and rewrites only rows it searched for. */
  lemma {:induction false} ReplaceFirstShape(pages: seq<Page>, t: Target, x: ChatMessage, i: nat)
    requires ReplaceFirst(pages, t, x).Some? && i < |pages|
    ensures var r := ReplaceFirst(pages, t, x).value;
            |r| == |pages| && |r[i]| == |pages[i]|
            && forall j | 0 <= j < |pages[i]| && !Hits(t, pages[i][j]) :: r[i][j] == pages[i][j]
  {
    if AnyHit(pages[0], t) {
      var k := ReplacedAt(pages[0], t, x);
    } else {
      ReplaceFirstShape(pages[1..], t, x, if i == 0 then 0 else i - 1);
    }
  }

  /** A merge moves no row to another page: a new one goes onto the first, and the others stay as long as they
      were. */
  lemma PagesKept(pages: seq<Page>, inc: Incoming, me: UserId)
    ensures pages == [] ==> ApplyOne(pages, inc, me) == [[inc.message]]
    ensures pages != [] ==>
              var r := ApplyOne(pages, inc, me);
              && |r| == |pages| && |pages[0]| <= |r[0]| <= |pages[0]| + 1
              && forall i | 0 < i < |pages| :: |r[i]| == |pages[i]|
  {
    forall t: Target, i: nat | ReplaceFirst(pages, t, inc.message).Some? && i < |pages|
      ensures var r := ReplaceFirst(pages, t, inc.message).value; |r| == |pages| && |r[i]| == |pages[i]|
    {
      ReplaceFirstShape(pages, t, inc.message, i);
    }
  }

  /** `after` has as many pages as `before`, its last page is no shorter and ends in the same row. */
  predicate TailKept(before: seq<Page>, after: seq<Page>) {
    && Anchored(before) && Anchored(after)
    && |after| == |before|
    && |after[|after| - 1]| >= |before[|before| - 1]|
    && Tail(after) == Tail(before)
  }

  lemma ReplaceKeepsTail(pages: seq<Page>, t: Target, x: ChatMessage)
    requires Anchored(pages) && !Hits(t, Tail(pages)) && ReplaceFirst(pages, t, x).Some?
    ensures TailKept(pages, ReplaceFirst(pages, t, x).value)
  {
    ReplaceFirstShape(pages, t, x, |pages| - 1);
  }

  lemma PrependKeepsTail(pages: seq<Page>, m: ChatMessage)
    requires Anchored(pages)
    ensures TailKept(pages, [[m] + pages[0]] + pages[1..])
  {
    var r := [[m] + pages[0]] + pages[1..];
    var last := |pages| - 1;
    assert r[last] == if last == 0 then [m] + pages[0] else pages[last];
  }

  lemma MergeKeepsTail(pages: seq<Page>, inc: Incoming, me: UserId)
    requires Anchored(pages) && inc.clientId != Some(Tail(pages).id)
    ensures TailKept(pages, ApplyOne(pages, inc, me))
  {
    var byContent := ReplaceFirst(pages, Bubble(inc.message.content), inc.message);
    PrependKeepsTail(pages, inc.message);
    if inc.clientId.Some? && ReplaceFirst(pages, WithId(inc.clientId.value), inc.message).Some? {
      ReplaceKeepsTail(pages, WithId(inc.clientId.value), inc.message);
    } else if byContent.Some? {
      ReplaceKeepsTail(pages, Bubble(inc.message.content), inc.message);
    }
  }

  lemma ApplyAllDisciplined(pages: seq<Page>, batch: seq<Incoming>, me: UserId, nonces: set<MessageId>)
    requires Disciplined(Flatten(pages), nonces) && BatchDisciplined(batch, nonces)
    ensures Disciplined(Flatten(ApplyAll(pages, batch, me)), nonces)
  {
    ApplyAllFlattens(pages, batch, me);
    MergeAllSafe(Flatten(pages), batch, me, nonces);
  }

  lemma TailKeptTrans(a: seq<Page>, b: seq<Page>, c: seq<Page>)
    requires TailKept(a, b) && TailKept(b, c)
    ensures TailKept(a, c)
  {}

  lemma DisciplinedKeepsTail(pages: seq<Page>, inc: Incoming, me: UserId, nonces: set<MessageId>)
    requires Anchored(pages) && Disciplined(Flatten(pages), nonces) && IncDisciplined(inc, nonces)
    ensures TailKept(pages, ApplyOne(pages, inc, me))
  {
    TailIsLast(pages);
    assert RowDisciplined(Tail(pages), nonces);
    MergeKeepsTail(pages, inc, me);
  }

  lemma {:induction false} BatchKeepsTail(pages: seq<Page>, batch: seq<Incoming>, me: UserId, nonces: set<MessageId>)
    requires Anchored(pages) && Disciplined(Flatten(pages), nonces) && BatchDisciplined(batch, nonces)
    ensures TailKept(pages, ApplyAll(pages, batch, me))
  {
    if batch != [] {
      var front, inc := batch[..|batch| - 1], batch[|batch| - 1];
      assert inc in batch;
      BatchKeepsTail(pages, front, me, nonces);
      ApplyAllDisciplined(pages, front, me, nonces);
      DisciplinedKeepsTail(ApplyAll(pages, front, me), inc, me, nonces);
      TailKeptTrans(pages, ApplyAll(pages, front, me), ApplyAll(pages, batch, me));
    }
  }

  /** No batch of merges moves the cursor of a cache whose last page is full: scrolling back continues
      where it would have. */
  lemma CursorKept(pages: seq<Page>, batch: seq<Incoming>, me: UserId, nonces: set<MessageId>)
    requires Anchored(pages) && Disciplined(Flatten(pages), nonces) && BatchDisciplined(batch, nonces)
    ensures var r := ApplyAll(pages, batch, me);
            && |r| == |pages|
            && (NextCursor(pages[|pages| - 1]).Some? ==> NextCursor(r[|r| - 1]) == NextCursor(pages[|pages| - 1]))
            && (NextCursor(r[|r| - 1]).Some? ==> NextCursor(r[|r| - 1]) == Some(Tail(pages).createdAt))
  {
    BatchKeepsTail(pages, batch, me, nonces);
  }
}
