/** The rendered message list (`flattenSortedDedup`, frontend/lib/messagesCache.ts:334-345). */
module Rendering {
  import opened ChatTypes
  import opened MessageCache
  import opened MergeSafety

  predicate Before(a: ChatMessage, b: ChatMessage) {
    a.createdAt < b.createdAt || (a.createdAt == b.createdAt && a.id < b.id)
  }

  predicate StrictlySorted(rows: Page) {
    forall i, j | 0 <= i < j < |rows| :: Before(rows[i], rows[j])
  }

  /** `m` is the copy to show among the rows sharing its id: one that is held, and a server row
      whenever any copy is. Between equal candidates the earliest held wins. */
  predicate Shown(rows: Page, m: ChatMessage) {
    exists i | 0 <= i < |rows| ::
      && rows[i] == m
      && (forall j | 0 <= j < i && rows[j].id == m.id :: m.Confirmed() && !rows[j].Confirmed())
      && (m.status.Some? ==> !HoldsConfirmed(rows, m.id))
  }

  /** What a rendering of `rows` is. It fixes the list completely: see `RenderingUnique`. */
  ghost predicate IsRendering(rows: Page, r: Page) {
    StrictlySorted(r) && forall m :: m in r <==> Shown(rows, m)
  }

  // ---- the method ----

  function InsertSorted(m: ChatMessage, sorted: Page): (r: Page)
    requires StrictlySorted(sorted)
    requires forall x | x in sorted :: x.id != m.id
    ensures StrictlySorted(r)
    ensures forall x :: x in r <==> x == m || x in sorted
  {
    if sorted == [] then [m]
    else if Before(m, sorted[0]) then
      assert forall x | x in sorted :: Before(m, x);
      [m] + sorted
    else
      var rest := InsertSorted(m, sorted[1..]);
      assert forall x | x in sorted[1..] :: Before(sorted[0], x);
      assert sorted == [sorted[0]] + sorted[1..];
      assert sorted[0] in sorted;
      [sorted[0]] + rest
  }

  ghost predicate Chosen(rows: Page, byId: map<MessageId, ChatMessage>) {
    && (forall id :: id in byId <==> Holds(rows, id))
    && (forall id | id in byId :: byId[id].id == id && Shown(rows, byId[id]))
  }

  /** The dedup loop, over a `Map` keyed by id. */
  method DedupById(rows: Page) returns (byId: map<MessageId, ChatMessage>)
    ensures Chosen(rows, byId)
  {
    byId := map[];
    for i := 0 to |rows|
      invariant Chosen(rows[..i], byId)
    {
      var m := rows[i];
      assert rows[..i + 1] == rows[..i] + [m];
      ghost var was := byId;
      if m.id !in byId || (byId[m.id].status.Some? && m.Confirmed()) {
        byId := byId[m.id := m];
      }
      ChosenStep(rows[..i], m, was, byId);
    }
    assert rows[..|rows|] == rows;
  }

  lemma ChosenStep(rows: Page, m: ChatMessage, was: map<MessageId, ChatMessage>, now: map<MessageId, ChatMessage>)
    requires Chosen(rows, was)
    requires now == if m.id !in was || (was[m.id].status.Some? && m.Confirmed()) then was[m.id := m] else was
    ensures Chosen(rows + [m], now)
  {
    HoldsAppend(rows, m);
    forall id | id in now ensures now[id].id == id && Shown(rows + [m], now[id]) {
      if id != m.id {
        ShownOther(rows, m, was[id]);
      } else if now == was {
        ShownKept(rows, m, was[id]);
      } else {
        assert m.Confirmed() && m.id !in was ==> !HoldsConfirmed(rows, m.id);
        ShownNew(rows, m);
      }
    }
  }

  /** The map's values in render order; the sort inserts them one at a time. */
  method SortValues(byId: map<MessageId, ChatMessage>) returns (r: Page)
    requires forall id | id in byId :: byId[id].id == id
    ensures StrictlySorted(r)
    ensures forall m :: m in r <==> m.id in byId && byId[m.id] == m
  {
    r := [];
    var left := byId.Keys;
    while left != {}
      invariant left <= byId.Keys
      invariant StrictlySorted(r)
      invariant forall m :: m in r <==> m.id in byId && m.id !in left && byId[m.id] == m
    {
      var id :| id in left;
      r := InsertSorted(byId[id], r);
      left := left - {id};
    }
  }

  method FlattenSortedDedup(data: Option<MessagesData>) returns (r: Page)
    ensures IsRendering(if data.Some? then Flatten(data.value.pages) else [], r)
    ensures forall i, j | 0 <= i < j < |r| ::
              r[i].createdAt < r[j].createdAt || (r[i].createdAt == r[j].createdAt && r[i].id < r[j].id)
  {
    var rows := if data.Some? then Flatten(data.value.pages) else [];
    var byId := DedupById(rows);
    r := SortValues(byId);
    forall m ensures m in r <==> Shown(rows, m) {
      if Shown(rows, m) {
        assert m in rows && Holds(rows, m.id);
        ShownUnique(rows, m, byId[m.id]);
      }
    }
  }

  lemma HoldsAppend(rows: Page, m: ChatMessage)
    ensures forall id :: Holds(rows + [m], id) <==> Holds(rows, id) || id == m.id
  {
    assert (rows + [m])[|rows|] == m;
    forall id | Holds(rows, id) ensures Holds(rows + [m], id) {
      var x :| x in rows && x.id == id;
      assert x in rows + [m];
    }
  }

  lemma ShownNew(rows: Page, m: ChatMessage)
    requires if m.Confirmed() then !HoldsConfirmed(rows, m.id) else !Holds(rows, m.id)
    ensures Shown(rows + [m], m)
  {
    var all := rows + [m];
    var i := |rows|;
    assert all[i] == m;
    forall j | 0 <= j < i && all[j].id == m.id ensures m.Confirmed() && !all[j].Confirmed() {
      assert rows[j] in rows;
    }
    if m.status.Some? {
      forall x | x in all && x.id == m.id ensures !x.Confirmed() {
        assert x == m || x in rows;
      }
    }
  }

  lemma ShownKept(rows: Page, m: ChatMessage, e: ChatMessage)
    requires Shown(rows, e) && e.id == m.id && (e.status.Some? ==> m.status.Some?)
    ensures Shown(rows + [m], e)
  {
    var all := rows + [m];
    var i :| 0 <= i < |rows| && rows[i] == e &&
      (forall j | 0 <= j < i && rows[j].id == e.id :: e.Confirmed() && !rows[j].Confirmed()) &&
      (e.status.Some? ==> !HoldsConfirmed(rows, e.id));
    assert all[i] == e;
    assert forall j | 0 <= j < i :: all[j] == rows[j];
  }

  lemma ShownOther(rows: Page, m: ChatMessage, e: ChatMessage)
    requires Shown(rows, e) && e.id != m.id
    ensures Shown(rows + [m], e)
  {
    var all := rows + [m];
    var i :| 0 <= i < |rows| && rows[i] == e &&
      (forall j | 0 <= j < i && rows[j].id == e.id :: e.Confirmed() && !rows[j].Confirmed()) &&
      (e.status.Some? ==> !HoldsConfirmed(rows, e.id));
    assert all[i] == e;
    assert forall j | 0 <= j < i :: all[j] == rows[j];
  }

  lemma ShownUnique(rows: Page, a: ChatMessage, b: ChatMessage)
    requires Shown(rows, a) && Shown(rows, b) && a.id == b.id
    ensures a == b
  {
    var i :| 0 <= i < |rows| && rows[i] == a &&
      (forall j | 0 <= j < i && rows[j].id == a.id :: a.Confirmed() && !rows[j].Confirmed()) &&
      (a.status.Some? ==> !HoldsConfirmed(rows, a.id));
    var k :| 0 <= k < |rows| && rows[k] == b &&
      (forall j | 0 <= j < k && rows[j].id == b.id :: b.Confirmed() && !rows[j].Confirmed()) &&
      (b.status.Some? ==> !HoldsConfirmed(rows, b.id));
    assert a in rows && b in rows;
  }

  // ---- what a rendering guarantees ----

  lemma ShownExists(rows: Page, id: MessageId) returns (m: ChatMessage)
    requires Holds(rows, id)
    ensures Shown(rows, m) && m.id == id
    decreases |rows|
  {
    var n := |rows| - 1;
    var front, last := rows[..n], rows[n];
    assert rows == front + [last];
    HoldsAppend(front, last);
    if Holds(front, id) {
      m := ShownExists(front, id);
      if last.id != id {
        ShownOther(front, last, m);
      } else if m.status.Some? && last.Confirmed() {
        ShownNew(front, last);
        m := last;
      } else {
        ShownKept(front, last, m);
      }
    } else {
      ShownNew(front, last);
      m := last;
    }
  }

  /** Each cached id is rendered exactly once, and as a server row whenever one is cached. */
  lemma RenderingFaithful(rows: Page, r: Page)
    requires IsRendering(rows, r)
    ensures UniqueIds(r)
    ensures forall id :: Holds(r, id) <==> Holds(rows, id)
    ensures forall id :: HoldsConfirmed(r, id) <==> HoldsConfirmed(rows, id)
    ensures forall m | m in r :: exists i ::
              (0 <= i < |rows| && rows[i] == m
               && forall j | 0 <= j < i && rows[j].id == m.id :: m.Confirmed() && !rows[j].Confirmed())
  {
    assert forall m | m in r :: Shown(rows, m);
    forall i, j | 0 <= i < j < |r| ensures r[i].id != r[j].id {
      assert r[i] in r && r[j] in r && Before(r[i], r[j]);
      if r[i].id == r[j].id {
        ShownUnique(rows, r[i], r[j]);
      }
    }
    forall id ensures Holds(r, id) <==> Holds(rows, id) {
      if Holds(rows, id) {
        var m := ShownExists(rows, id);
        assert m in r;
      }
    }
    forall id ensures HoldsConfirmed(r, id) <==> HoldsConfirmed(rows, id) {
      if HoldsConfirmed(rows, id) {
        assert Holds(rows, id);
        var m := ShownExists(rows, id);
        assert m in r;
      }
    }
  }

  predicate SameKey(m: ChatMessage, n: ChatMessage) {
    m.id == n.id && m.createdAt == n.createdAt
  }

  predicate HasKey(rows: Page, m: ChatMessage) {
    exists n | n in rows :: SameKey(m, n)
  }

  /** Every row of `a` has a row of `b` with the same (time, id). */
  predicate KeysWithin(a: Page, b: Page) {
    forall m {:trigger HasKey(b, m)} | m in a :: HasKey(b, m)
  }

  /** Two strictly sorted lists whose rows carry the same (time, id) pairs carry them in the same order. */
  lemma {:induction false} SortedKeysAgree(a: Page, b: Page)
    requires StrictlySorted(a) && StrictlySorted(b) && KeysWithin(a, b) && KeysWithin(b, a)
    ensures |a| == |b| && forall i | 0 <= i < |a| :: SameKey(a[i], b[i])
  {
    if a == [] {
      if b != [] { NoKeysInEmpty(b); }
    } else if b == [] {
      NoKeysInEmpty(a);
    } else {
      assert HasKey(b, a[0]) && HasKey(a, b[0]);
      SameHeads(a, b);
      KeysWithinTails(a, b);
      KeysWithinTails(b, a);
      SortedKeysAgree(a[1..], b[1..]);
      forall i | 0 <= i < |a| ensures SameKey(a[i], b[i]) {
        if i > 0 { assert a[i] == a[1..][i - 1] && b[i] == b[1..][i - 1]; }
      }
    }
  }

  lemma NoKeysInEmpty(b: Page)
    requires b != []
    ensures !KeysWithin(b, [])
  {
    assert b[0] in b && !HasKey([], b[0]);
  }

  lemma SameHeads(a: Page, b: Page)
    requires StrictlySorted(a) && StrictlySorted(b) && a != [] && b != []
    requires HasKey(b, a[0]) && HasKey(a, b[0])
    ensures SameKey(a[0], b[0])
  {
    var n :| n in b && SameKey(a[0], n);
    var m :| m in a && SameKey(b[0], m);
    assert n == b[0] || Before(b[0], n);
    assert m == a[0] || Before(a[0], m);
  }

  lemma KeysWithinTails(a: Page, b: Page)
    requires StrictlySorted(a) && a != [] && b != [] && SameKey(a[0], b[0]) && KeysWithin(a, b)
    ensures KeysWithin(a[1..], b[1..])
  {
    forall m | m in a[1..] ensures HasKey(b[1..], m) {
      var i :| 1 <= i < |a| && a[i] == m;
      assert HasKey(b, m) && Before(a[0], a[i]);
      var n :| n in b && SameKey(m, n);
      assert n != b[0];
      assert b == [b[0]] + b[1..];
    }
  }

  lemma SameRowsSameKeys(a: Page, b: Page)
    requires forall m | m in a :: m in b
    ensures KeysWithin(a, b)
  {
    forall m | m in a ensures HasKey(b, m) {
      assert SameKey(m, m);
    }
  }

  lemma RowAtKey(b: Page, i: nat, x: ChatMessage)
    requires StrictlySorted(b) && i < |b| && x in b && SameKey(x, b[i])
    ensures x == b[i]
  {
    var j :| 0 <= j < |b| && b[j] == x;
  }

  lemma SortedRowsUnique(a: Page, b: Page)
    requires StrictlySorted(a) && StrictlySorted(b)
    requires forall m | m in a :: m in b
    requires forall m | m in b :: m in a
    ensures a == b
  {
    SameRowsSameKeys(a, b);
    SameRowsSameKeys(b, a);
    SortedKeysAgree(a, b);
    forall i | 0 <= i < |a| ensures a[i] == b[i] {
      RowAtKey(b, i, a[i]);
    }
  }

  /** The rendering is determined by what is shown, so it does not depend on page boundaries. */
  lemma RenderingUnique(xs: Page, ys: Page, a: Page, b: Page)
    requires IsRendering(xs, a) && IsRendering(ys, b)
    requires forall m :: Shown(xs, m) <==> Shown(ys, m)
    ensures a == b
  {
    SortedRowsUnique(a, b);
  }

  /** With unique ids the rendering depends only on the set of rows held. */
  lemma RenderingOfSet(xs: Page, ys: Page, a: Page, b: Page)
    requires UniqueIds(xs) && UniqueIds(ys)
    requires forall m :: m in xs <==> m in ys
    requires IsRendering(xs, a) && IsRendering(ys, b)
    ensures a == b
  {
    forall m ensures Shown(xs, m) <==> Shown(ys, m) {
      ShownIfUnique(xs, m);
      ShownIfUnique(ys, m);
    }
    RenderingUnique(xs, ys, a, b);
  }

  lemma ShownIfUnique(rows: Page, m: ChatMessage)
    requires UniqueIds(rows)
    ensures Shown(rows, m) <==> m in rows
  {
    if m in rows {
      var i :| 0 <= i < |rows| && rows[i] == m;
      forall c | c in rows && c.id == m.id ensures c == m {
        var k :| 0 <= k < |rows| && rows[k] == c;
      }
      assert forall j | 0 <= j < i :: rows[j].id != m.id;
    }
  }

  predicate Stamped(rows: Page, stamp: map<MessageId, Time>) {
    forall m | m in rows :: m.id in stamp && m.createdAt == stamp[m.id]
  }

  predicate StampedBatch(batch: seq<Incoming>, stamp: map<MessageId, Time>) {
    forall inc | inc in batch :: inc.message.id in stamp && inc.message.createdAt == stamp[inc.message.id]
  }

  /** Confluence: with no local bubble, two ways of delivering the same server ids (any order, any
      repetition, with or without nonces) render the same ids in the same order. `stamp` is the
      server's creation time of each id. */
  lemma DeliveryOrderIrrelevant(rows: Page, xs: seq<Incoming>, ys: seq<Incoming>, me: UserId,
                                nonces: set<MessageId>, stamp: map<MessageId, Time>, a: Page, b: Page)
    requires Disciplined(rows, nonces) && BatchDisciplined(xs, nonces) && BatchDisciplined(ys, nonces)
    requires (forall m | m in rows :: m.Confirmed()) && AllConfirmed(xs) && AllConfirmed(ys)
    requires Stamped(rows, stamp) && StampedBatch(xs, stamp) && StampedBatch(ys, stamp)
    requires forall id :: ArrivesConfirmed(xs, id) <==> ArrivesConfirmed(ys, id)
    requires IsRendering(MergeAll(rows, xs, me), a) && IsRendering(MergeAll(rows, ys, me), b)
    ensures |a| == |b| && forall i | 0 <= i < |a| :: a[i].id == b[i].id
  {
    MergeAllSafe(rows, xs, me, nonces);
    MergeAllSafe(rows, ys, me, nonces);
    MergedStamped(rows, xs, me, nonces, stamp);
    MergedStamped(rows, ys, me, nonces, stamp);
    SameRenderedKeys(MergeAll(rows, xs, me), MergeAll(rows, ys, me), stamp, a, b);
    SameRenderedKeys(MergeAll(rows, ys, me), MergeAll(rows, xs, me), stamp, b, a);
    SortedKeysAgree(a, b);
  }

  lemma MergedStamped(rows: Page, xs: seq<Incoming>, me: UserId, nonces: set<MessageId>, stamp: map<MessageId, Time>)
    requires Disciplined(rows, nonces) && BatchDisciplined(xs, nonces)
    requires (forall m | m in rows :: m.Confirmed()) && AllConfirmed(xs)
    requires Stamped(rows, stamp) && StampedBatch(xs, stamp)
    ensures Stamped(MergeAll(rows, xs, me), stamp)
    ensures forall m | m in MergeAll(rows, xs, me) :: m.Confirmed()
  {
    MergeAllSafe(rows, xs, me, nonces);
  }

  lemma SameRenderedKeys(xs: Page, ys: Page, stamp: map<MessageId, Time>, a: Page, b: Page)
    requires (forall m | m in xs :: m.Confirmed()) && (forall m | m in ys :: m.Confirmed())
    requires Stamped(xs, stamp) && Stamped(ys, stamp)
    requires forall id :: HoldsConfirmed(xs, id) <==> HoldsConfirmed(ys, id)
    requires IsRendering(xs, a) && IsRendering(ys, b)
    ensures KeysWithin(a, b)
  {
    RenderingFaithful(ys, b);
    forall m | m in a ensures HasKey(b, m) {
      assert Shown(xs, m) && m in xs;
      assert HoldsConfirmed(xs, m.id);
      assert HoldsConfirmed(b, m.id);
      var n :| n in b && n.id == m.id;
      assert Shown(ys, n) && n in ys;
      assert SameKey(m, n);
    }
  }
}
