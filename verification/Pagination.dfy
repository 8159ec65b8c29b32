/** Keyset pagination (`ListRoomMessages`, internal/store/messages.go:72-121) as followed by a client
    that scrolls back (`nextCursor`, frontend/lib/messagesCache.ts:35-37) or resyncs after a gap
    (`resyncRoom`, frontend/hooks/useWebSocket.tsx:129-157).

    Between two fetches messages may be inserted, edited, deleted, read and reacted to: only the
    (created_at, id) keys of the messages already there stay put. */
module Pagination {
  import opened ChatTypes
  import opened MessageCache
  import opened MergeSafety

  datatype Key = Key(at: Time, id: MessageId)

  function KeyOf(m: ChatMessage): Key {
    Key(m.createdAt, m.id)
  }

  function Keys(rows: Page): (r: seq<Key>)
    ensures |r| == |rows| && forall i | 0 <= i < |rows| :: r[i] == KeyOf(rows[i])
  {
    seq(|rows|, i requires 0 <= i < |rows| => KeyOf(rows[i]))
  }

  predicate Earlier(a: Key, b: Key) {
    a.at < b.at || (a.at == b.at && a.id < b.id)
  }

  predicate Chronological(keys: seq<Key>) {
    forall i, j {:trigger Earlier(keys[i], keys[j])} | 0 <= i < j < |keys| :: Earlier(keys[i], keys[j])
  }

  /** A room's messages in the order of (created_at, id); inserts append, deletes only mark. */
  predicate IsTable(table: Page) {
    Chronological(Keys(table)) && forall m | m in table :: m.Confirmed()
  }

  /** How many messages are older than the cursor. */
  function Older(keys: seq<Key>, before: Time): (k: nat)
    requires Chronological(keys)
    ensures k <= |keys|
    ensures forall i | 0 <= i < k :: keys[i].at < before
    ensures forall i | k <= i < |keys| :: keys[i].at >= before
  {
    OlderWithin(keys, before, |keys|)
  }

  function OlderWithin(keys: seq<Key>, before: Time, n: nat): (k: nat)
    requires Chronological(keys) && n <= |keys|
    ensures k <= n
    ensures forall i | 0 <= i < k :: keys[i].at < before
    ensures forall i | k <= i < n :: keys[i].at >= before
    decreases n
  {
    if n == 0 then 0
    else if keys[n - 1].at >= before then OlderWithin(keys, before, n - 1)
    else
      assert forall i | 0 <= i < n - 1 :: Earlier(keys[i], keys[n - 1]);
      n
  }

  function Reverse<T>(s: seq<T>): (r: seq<T>)
    ensures |r| == |s| && forall i | 0 <= i < |s| :: r[i] == s[|s| - 1 - i]
  {
    seq(|s|, i requires 0 <= i < |s| => s[|s| - 1 - i])
  }

  lemma ReverseMembers<T>(s: seq<T>)
    ensures forall x :: x in Reverse(s) <==> x in s
  {
    forall x | x in s ensures x in Reverse(s) {
      var i :| 0 <= i < |s| && s[i] == x;
      assert Reverse(s)[|s| - 1 - i] == x;
    }
  }

  function Max0(n: int): nat { if n < 0 then 0 else n }

  /** How many messages a fetch chooses from. */
  function Eligibles(keys: seq<Key>, before: Option<Time>): (k: nat)
    requires Chronological(keys)
    ensures k <= |keys|
  {
    if before.None? then |keys| else Older(keys, before.value)
  }

  /** The query: rows older than the cursor, newest first, at most `limit` of them. */
  function ListRoomMessages(table: Page, limit: nat, before: Option<Time>): Page
    requires IsTable(table)
  {
    var k := Eligibles(Keys(table), before);
    Reverse(table[Max0(k - limit)..k])
  }

  lemma PageKeys(table: Page, limit: nat, before: Option<Time>)
    requires IsTable(table)
    ensures var keys, k := Keys(table), Eligibles(Keys(table), before);
            Keys(ListRoomMessages(table, limit, before)) == Reverse(keys[Max0(k - limit)..k])
  {}

  predicate Eligible(m: ChatMessage, before: Option<Time>) {
    before.Some? ==> m.createdAt < before.value
  }

  /** A page holds eligible rows only, newest first, at most `limit` of them. */
  lemma PageShape(table: Page, limit: nat, before: Option<Time>)
    requires IsTable(table)
    ensures var page := ListRoomMessages(table, limit, before);
            && |page| <= limit
            && (forall m | m in page :: m in table && Eligible(m, before))
            && (forall i, j | 0 <= i < j < |page| :: Earlier(KeyOf(page[j]), KeyOf(page[i])))
            && (forall i, j | 0 <= i < j < |page| :: page[j].createdAt <= page[i].createdAt)
  {
    var page, keys := ListRoomMessages(table, limit, before), Keys(table);
    var k := Eligibles(keys, before);
    assert forall i | 0 <= i < |page| :: page[i] == table[k - 1 - i] && KeyOf(page[i]) == keys[k - 1 - i];
    forall i, j | 0 <= i < j < |page| ensures Earlier(KeyOf(page[j]), KeyOf(page[i])) {
      assert Earlier(keys[k - 1 - j], keys[k - 1 - i]);
    }
  }

  lemma PageHolds<T>(s: seq<T>, from: nat, k: nat, j: nat)
    requires from <= j < k <= |s|
    ensures s[j] in Reverse(s[from..k])
  {
    assert Reverse(s[from..k])[k - 1 - j] == s[j];
  }

  lemma SliceRows<T>(s: seq<T>, from: nat, k: nat)
    requires from <= k <= |s|
    ensures forall x | x in Reverse(s[from..k]) :: exists i | from <= i < k :: s[i] == x
  {
    forall x | x in Reverse(s[from..k]) ensures exists i | from <= i < k :: s[i] == x {
      var i :| 0 <= i < k - from && Reverse(s[from..k])[i] == x;
      assert s[k - 1 - i] == x;
    }
  }

  /** An eligible row left off the page is older than every row on it, and the page is full. */
  lemma PageNewest(table: Page, limit: nat, before: Option<Time>, m: ChatMessage)
    requires IsTable(table) && m in table && Eligible(m, before)
    requires m !in ListRoomMessages(table, limit, before)
    ensures |ListRoomMessages(table, limit, before)| == limit
    ensures forall p | p in ListRoomMessages(table, limit, before) :: Earlier(KeyOf(m), KeyOf(p))
  {
    var j :| 0 <= j < |table| && table[j] == m;
    LeftOff(table, limit, before, j);
  }

  lemma LeftOff(table: Page, limit: nat, before: Option<Time>, j: nat)
    requires IsTable(table) && j < |table| && Eligible(table[j], before)
    requires table[j] !in ListRoomMessages(table, limit, before)
    ensures |ListRoomMessages(table, limit, before)| == limit
    ensures forall p | p in ListRoomMessages(table, limit, before) :: Earlier(KeyOf(table[j]), KeyOf(p))
  {
    var keys := Keys(table);
    var k := Eligibles(keys, before);
    var from := Max0(k - limit);
    assert j < k by { assert keys[j].at == table[j].createdAt; }
    if from <= j {
      PageHolds(table, from, k, j);
    }
    SliceRows(table, from, k);
    forall p | p in Reverse(table[from..k]) ensures Earlier(KeyOf(table[j]), KeyOf(p)) {
      var i :| from <= i < k && table[i] == p;
      assert Earlier(keys[j], keys[i]);
    }
  }

  // ---- following the cursor ----

  /** `tables(i)` is the table at the i-th fetch: new messages come last, and the rows of those already
      there may change in everything but their key. */
  ghost predicate Growing(tables: nat -> Page) {
    forall i: nat :: IsTable(tables(i)) && Keys(tables(0)) <= Keys(tables(i))
  }

  ghost predicate Served(m: ChatMessage, tables: nat -> Page) {
    exists i: nat :: m in tables(i)
  }

  /** Paging back from position `k`, no boundary falls between two messages with the same timestamp. */
  predicate NoTieBelow(keys: seq<Key>, limit: nat, k: nat)
    requires limit > 0 && k <= |keys|
    decreases k
  {
    k <= limit || (keys[k - limit - 1].at < keys[k - limit].at && NoTieBelow(keys, limit, k - limit))
  }

  predicate NoTieAcrossPages(keys: seq<Key>, limit: nat)
    requires limit > 0
  {
    NoTieBelow(keys, limit, |keys|)
  }

  /** `k` messages are older than the cursor. */
  predicate CursorAt(keys: seq<Key>, cursor: Option<Time>, k: nat) {
    && k <= |keys|
    && (cursor.None? ==> k == |keys|)
    && (cursor.Some? ==> k < |keys| && cursor.value <= keys[k].at && (k > 0 ==> keys[k - 1].at < cursor.value))
  }

  /** Messages that arrive later are all newer than the cursor. */
  lemma OlderIsStable(keys: seq<Key>, later: seq<Key>, cursor: Time, k: nat)
    requires Chronological(later) && keys <= later && CursorAt(keys, Some(cursor), k)
    ensures Older(later, cursor) == k
  {
    assert later[k] == keys[k] && (k > 0 ==> later[k - 1] == keys[k - 1]);
  }

  lemma SameSlice<T>(s: seq<T>, later: seq<T>, from: nat, to: nat)
    requires s <= later && from <= to <= |s|
    ensures later[from..to] == s[from..to]
  {
    assert later[..|s|] == s;
  }

  /** One fetch with the cursor at `k`: the keys of the next slice, newest first, whatever was inserted or
      changed since the first fetch. */
  lemma FetchStep(table: Page, later: Page, limit: nat, cursor: Option<Time>, k: nat)
    requires limit > 0 && IsTable(table) && IsTable(later) && Keys(table) <= Keys(later)
    requires CursorAt(Keys(table), cursor, k) && (cursor.None? ==> later == table)
    ensures var keys, page := Keys(table), ListRoomMessages(later, limit, cursor);
            && Keys(page) == Reverse(keys[Max0(k - limit)..k])
            && (|page| == limit <==> k >= limit)
            && (k >= limit ==> KeyOf(page[limit - 1]) == keys[k - limit])
  {
    var keys := Keys(table);
    PageKeys(later, limit, cursor);
    if cursor.Some? {
      OlderIsStable(keys, Keys(later), cursor.value, k);
    }
    SameSlice(keys, Keys(later), Max0(k - limit), k);
    var page := ListRoomMessages(later, limit, cursor);
    assert |page| == |Keys(page)| == k - Max0(k - limit);
    if k >= limit {
      assert Keys(page)[limit - 1] == keys[k - limit];
    }
  }

  /** Where a full page leaves the cursor: at the slice's end exactly when the boundary splits no tie. */
  lemma CursorMoves(keys: seq<Key>, limit: nat, k: nat)
    requires 0 < limit <= k <= |keys| && Chronological(keys)
    ensures var cut := k - limit;
            var next := Older(keys, keys[cut].at);
            && next <= cut
            && CursorAt(keys, Some(keys[cut].at), next)
            && (next == cut <==> cut == 0 || keys[cut - 1].at < keys[cut].at)
            && (next < cut ==> keys[cut - 1].at == keys[cut].at)
            && (next == cut && NoTieBelow(keys, limit, cut) <==> NoTieBelow(keys, limit, k))
  {
    var cut := k - limit;
    if cut > 0 {
      assert Earlier(keys[cut - 1], keys[cut]);
    }
  }

  lemma ReverseSplit<T>(s: seq<T>, from: nat, k: nat)
    requires from <= k <= |s|
    ensures Reverse(s[k..]) + Reverse(s[from..k]) == Reverse(s[from..])
  {}

  lemma KeysAppend(a: Page, b: Page)
    ensures Keys(a + b) == Keys(a) + Keys(b)
  {}

  /** Everything from `k` on has been fetched, unless a tie was split: then messages are missing. */
  ghost predicate Fetched(keys: seq<Key>, limit: nat, k: nat, got: seq<Key>, intact: bool)
    requires limit > 0
  {
    && k <= |keys|
    && (intact ==> got == Reverse(keys[k..]) && (NoTieAcrossPages(keys, limit) <==> NoTieBelow(keys, limit, k)))
    && (!intact ==> |got| + k < |keys| && !NoTieAcrossPages(keys, limit))
  }

  lemma FetchedMore(keys: seq<Key>, limit: nat, k: nat, got: seq<Key>, intact: bool, k': nat)
    requires 0 < limit <= k && Fetched(keys, limit, k, got, intact) && k' <= k - limit
    requires k' == k - limit && NoTieBelow(keys, limit, k - limit) <==> NoTieBelow(keys, limit, k)
    ensures Fetched(keys, limit, k', got + Reverse(keys[k - limit..k]), intact && k' == k - limit)
  {
    ReverseSplit(keys, k - limit, k);
  }

  lemma FetchedAll(keys: seq<Key>, limit: nat, k: nat, got: seq<Key>, intact: bool)
    requires k < limit && Fetched(keys, limit, k, got, intact)
    ensures var all := got + Reverse(keys[0..k]);
            (all == Reverse(keys) <==> NoTieAcrossPages(keys, limit)) &&
            (!NoTieAcrossPages(keys, limit) ==> |all| < |keys|)
  {
    ReverseSplit(keys, 0, k);
    assert keys[0..] == keys;
  }

  /** Scrolling back until a short page, with messages arriving and changing between the fetches: the rows
      are those of the whole history at the first fetch, newest first, without gap or repeat, exactly when
      no page boundary splits a tie. With a split tie at least one message is never fetched. */
  method ScrollBack(tables: nat -> Page, limit: nat) returns (rows: Page)
    requires limit > 0 && Growing(tables)
    ensures Keys(rows) == Reverse(Keys(tables(0))) <==> NoTieAcrossPages(Keys(tables(0)), limit)
    ensures !NoTieAcrossPages(Keys(tables(0)), limit) ==> |rows| < |tables(0)|
    ensures forall m | m in rows :: Served(m, tables)
  {
    rows := [];
    var i: nat, cursor: Option<Time> := 0, None;
    ghost var keys := Keys(tables(0));
    ghost var k: nat := |keys|;
    ghost var intact := true;
    while true
      invariant CursorAt(keys, cursor, k) && (cursor.None? ==> i == 0)
      invariant Fetched(keys, limit, k, Keys(rows), intact)
      invariant forall m | m in rows :: Served(m, tables)
      decreases k
    {
      FetchStep(tables(0), tables(i), limit, cursor, k);
      var page := ListRoomMessages(tables(i), limit, cursor);
      PageServed(tables, limit, cursor, i);
      KeysAppend(rows, page);
      if |page| < limit {
        FetchedAll(keys, limit, k, Keys(rows), intact);
        rows := rows + page;
        return;
      }
      var next := page[|page| - 1].createdAt;
      CursorMoves(keys, limit, k);
      FetchedMore(keys, limit, k, Keys(rows), intact, Older(keys, next));
      intact, k := intact && Older(keys, next) == k - limit, Older(keys, next);
      rows, cursor, i := rows + page, Some(next), i + 1;
    }
  }

  lemma PageServed(tables: nat -> Page, limit: nat, cursor: Option<Time>, i: nat)
    requires IsTable(tables(i))
    ensures forall m | m in ListRoomMessages(tables(i), limit, cursor) :: Served(m, tables)
  {
    PageShape(tables(i), limit, cursor);
  }

  /** A tie that is lost: two messages of one moment, on pages of one. The second fetch asks for older ones. */
  lemma TieWitness(a: ChatMessage, b: ChatMessage)
    requires a.Confirmed() && b.Confirmed() && a.createdAt == b.createdAt && a.id < b.id
    ensures IsTable([a, b]) && !NoTieAcrossPages(Keys([a, b]), 1)
    ensures ListRoomMessages([a, b], 1, None) == [b] && ListRoomMessages([a, b], 1, Some(b.createdAt)) == []
  {
    var table, keys := [a, b], Keys([a, b]);
    assert Chronological(keys);
    assert Older(keys, b.createdAt) == 0 by { assert keys[0].at >= b.createdAt; }
    assert table[1..2] == [b] && Reverse([b]) == [b];
  }

  /** Distinct timestamps rule out split ties. */
  lemma {:induction false} DistinctTimesNoTie(keys: seq<Key>, limit: nat, k: nat)
    requires limit > 0 && k <= |keys|
    requires forall i, j | 0 <= i < j < |keys| :: keys[i].at < keys[j].at
    ensures NoTieBelow(keys, limit, k)
    decreases k
  {
    if k > limit {
      DistinctTimesNoTie(keys, limit, k - limit);
    }
  }

  // ---- resync ----

  const MAX_RESYNC_PAGES: nat := 20

  /** With `k` messages yet to fetch, `n` more pages get to the start of history or back to the anchor. */
  predicate Reaches(keys: seq<Key>, limit: nat, k: nat, anchor: Time, n: nat)
    requires Chronological(keys) && k <= |keys| && limit > 0
    decreases n, k
  {
    n > 0 &&
    (k < limit || keys[k - limit].at <= anchor || Reaches(keys, limit, Older(keys, keys[k - limit].at), anchor, n - 1))
  }

  /** In closed form: fewer than `n` full pages of messages are newer than the anchor. */
  lemma {:induction false} ReachesExactlyWhen(keys: seq<Key>, limit: nat, k: nat, anchor: Time, n: nat)
    requires Chronological(keys) && k <= |keys| && n > 0 && limit > 0 && NoTieBelow(keys, limit, k)
    ensures Reaches(keys, limit, k, anchor, n) <==> k < n * limit || keys[k - n * limit].at <= anchor
    decreases n
  {
    if k >= limit && n > 1 {
      CursorMoves(keys, limit, k);
      ReachesExactlyWhen(keys, limit, k - limit, anchor, n - 1);
      assert n * limit == (n - 1) * limit + limit;
      if n * limit <= k {
        assert Earlier(keys[k - n * limit], keys[k - limit]);
      }
    }
  }

  /** Paging back from position `k`, no boundary newer than the anchor splits a tie. */
  predicate NoTieAbove(keys: seq<Key>, limit: nat, k: nat, anchor: Time)
    requires limit > 0 && k <= |keys|
    decreases k
  {
    k <= limit || keys[k - limit].at <= anchor
    || (keys[k - limit - 1].at < keys[k - limit].at && NoTieAbove(keys, limit, k - limit, anchor))
  }

  /** The positions from `first` up to `end`. */
  function Span(first: nat, end: nat): (xs: set<nat>)
    ensures forall x :: x in xs <==> first <= x < end
    decreases end
  {
    if end <= first then {} else Span(first, end - 1) + {end - 1}
  }

  function KeySet(rows: Page): set<Key> {
    set m | m in rows :: KeyOf(m)
  }

  function KeysAt(keys: seq<Key>, xs: set<nat>): set<Key> {
    set x | x in xs && x < |keys| :: keys[x]
  }

  /** `rows` has exactly the messages at the positions `xs`. */
  predicate Shows(keys: seq<Key>, xs: set<nat>, rows: Page) {
    KeySet(rows) == KeysAt(keys, xs)
  }

  /** The page has exactly the next `limit` of the `k` oldest messages. */
  ghost predicate Advances(keys: seq<Key>, limit: nat, k: nat, page: Page)
    requires limit > 0 && k <= |keys|
  {
    && (|page| < limit <==> k < limit)
    && Shows(keys, Span(Max0(k - limit), k), page)
    && (k >= limit ==> |page| == limit && KeyOf(page[limit - 1]) == keys[k - limit])
  }

  lemma SliceShows(keys: seq<Key>, from: nat, k: nat, page: Page)
    requires from <= k <= |keys| && Keys(page) == Reverse(keys[from..k])
    ensures Shows(keys, Span(from, k), page)
  {
    forall key ensures key in KeySet(page) <==> key in KeysAt(keys, Span(from, k)) {
      if key in KeySet(page) {
        var i :| 0 <= i < |page| && KeyOf(page[i]) == key;
        assert Keys(page)[i] == keys[k - 1 - i];
      }
      if key in KeysAt(keys, Span(from, k)) {
        var x: nat :| x in Span(from, k) && x < |keys| && keys[x] == key;
        assert KeyOf(page[k - 1 - x]) == Keys(page)[k - 1 - x] == keys[x];
      }
    }
  }

  lemma FetchAdvances(table: Page, later: Page, limit: nat, cursor: Option<Time>, k: nat)
    requires limit > 0 && IsTable(table) && IsTable(later) && Keys(table) <= Keys(later)
    requires CursorAt(Keys(table), cursor, k) && (cursor.None? ==> later == table)
    ensures Advances(Keys(table), limit, k, ListRoomMessages(later, limit, cursor))
  {
    FetchStep(table, later, limit, cursor, k);
    SliceShows(Keys(table), Max0(k - limit), k, ListRoomMessages(later, limit, cursor));
  }

  /** The requests of one resync: the `i`-th fetch of it, with a cursor. */
  type Fetch = (nat, Option<Time>) -> Page

  /** The server answers each request from the table as it then is. */
  ghost predicate Serves(fetch: Fetch, tables: nat -> Page, limit: nat) {
    Growing(tables) && forall i: nat, c :: fetch(i, c) == ListRoomMessages(tables(i), limit, c)
  }

  ghost predicate Walks(fetch: Fetch, keys: seq<Key>, limit: nat)
    requires limit > 0
  {
    forall i: nat, c, k: nat {:trigger fetch(i, c), CursorAt(keys, c, k)} |
      CursorAt(keys, c, k) && (c.None? ==> i == 0) :: Advances(keys, limit, k, fetch(i, c))
  }

  lemma ServesWalks(fetch: Fetch, tables: nat -> Page, limit: nat)
    requires limit > 0 && Serves(fetch, tables, limit)
    ensures Walks(fetch, Keys(tables(0)), limit)
  {
    forall i: nat, c, k: nat | CursorAt(Keys(tables(0)), c, k) && (c.None? ==> i == 0)
      ensures Advances(Keys(tables(0)), limit, k, fetch(i, c))
    {
      FetchAdvances(tables(0), tables(i), limit, c, k);
    }
  }

  /** The positions the loop visits in at most `n` more fetches with `k` messages older than the cursor. */
  function Visited(keys: seq<Key>, limit: nat, k: nat, anchor: Time, n: nat): (xs: set<nat>)
    requires Chronological(keys) && k <= |keys| && limit > 0
    ensures forall x | x in xs :: x < k
    decreases n, k
  {
    if n == 0 then {}
    else if k < limit || keys[k - limit].at <= anchor then Span(Max0(k - limit), k)
    else Span(k - limit, k) + Visited(keys, limit, Older(keys, keys[k - limit].at), anchor, n - 1)
  }

  /** Every position newer than the anchor is among `xs`. */
  ghost predicate Covers(keys: seq<Key>, k: nat, anchor: Time, xs: set<nat>)
    requires k <= |keys|
  {
    forall x: nat | x < k && keys[x].at > anchor :: x in xs
  }

  lemma LastPageCovers(keys: seq<Key>, limit: nat, k: nat, anchor: Time)
    requires Chronological(keys) && limit > 0 && k <= |keys|
    requires k < limit || keys[k - limit].at <= anchor
    ensures Covers(keys, k, anchor, Span(Max0(k - limit), k))
  {
    if k >= limit {
      forall x | 0 <= x < k - limit ensures keys[x].at <= anchor {
        assert Earlier(keys[x], keys[k - limit]);
      }
    }
  }

  /** A full page covers what it spans; what is left to cover ends at the page exactly without a split tie. */
  lemma CoversMore(keys: seq<Key>, cut: nat, k: nat, next: nat, anchor: Time, xs: set<nat>)
    requires next <= cut < k <= |keys| && keys[cut].at > anchor && forall x | x in xs :: x < next
    requires next < cut ==> keys[cut - 1].at == keys[cut].at
    ensures Covers(keys, k, anchor, Span(cut, k) + xs) <==> next == cut && Covers(keys, cut, anchor, xs)
  {
    if next < cut {
      assert cut - 1 !in Span(cut, k) + xs;
    }
  }

  /** A loop that ends by a break has covered everything newer than the anchor exactly when no boundary newer
      than the anchor split a tie. */
  lemma {:induction false} VisitedCovers(keys: seq<Key>, limit: nat, k: nat, anchor: Time, n: nat)
    requires Chronological(keys) && k <= |keys| && limit > 0 && Reaches(keys, limit, k, anchor, n)
    ensures Covers(keys, k, anchor, Visited(keys, limit, k, anchor, n)) <==> NoTieAbove(keys, limit, k, anchor)
    decreases n
  {
    if k < limit || keys[k - limit].at <= anchor {
      LastPageCovers(keys, limit, k, anchor);
    } else {
      var next := Older(keys, keys[k - limit].at);
      CursorMoves(keys, limit, k);
      VisitedCovers(keys, limit, next, anchor, n - 1);
      CoversMore(keys, k - limit, k, next, anchor, Visited(keys, limit, next, anchor, n - 1));
    }
  }

  /** A message with a full page of newer ones up to the anchor is out of the loop's reach. */
  lemma {:induction false} BuriedNotVisited(keys: seq<Key>, limit: nat, k: nat, anchor: Time, n: nat, x: nat)
    requires Chronological(keys) && limit > 0 && x + limit < k <= |keys| && keys[x + limit].at <= anchor
    ensures x !in Visited(keys, limit, k, anchor, n)
    decreases n
  {
    if n > 0 && k >= limit && keys[k - limit].at > anchor {
      BuriedNotVisited(keys, limit, Older(keys, keys[k - limit].at), anchor, n - 1, x);
    }
  }

  /** When the newest message is no newer than the anchor, the loop fetches the last page only. */
  lemma LastPageOnly(keys: seq<Key>, limit: nat, anchor: Time, n: nat)
    requires Chronological(keys) && limit > 0 && n > 0 && keys != [] && keys[|keys| - 1].at <= anchor
    ensures Visited(keys, limit, |keys|, anchor, n) == Span(Max0(|keys| - limit), |keys|)
  {
    if |keys| >= limit > 1 {
      assert Earlier(keys[|keys| - limit], keys[|keys| - 1]);
    }
  }

  /** What the fetch loop collects in at most `n` more fetches, and whether it ends by a break. */
  function Remaining(fetch: Fetch, limit: nat, anchor: Time, cursor: Option<Time>, i: nat, n: nat): (Page, bool)
    requires limit > 0
    decreases n, anchor
  {
    if n == 0 then ([], false)
    else
      var page := fetch(i, cursor);
      if |page| < limit || page[|page| - 1].createdAt <= anchor then (page, true)
      else
        var (rest, complete) := Remaining(fetch, limit, anchor, Some(page[|page| - 1].createdAt), i + 1, n - 1);
        (page + rest, complete)
  }

  lemma ShowsMore(keys: seq<Key>, xs: set<nat>, page: Page, ys: set<nat>, rest: Page)
    requires Shows(keys, xs, page) && Shows(keys, ys, rest)
    ensures Shows(keys, xs + ys, page + rest)
  {
    assert KeySet(page + rest) == KeySet(page) + KeySet(rest);
    assert KeysAt(keys, xs + ys) == KeysAt(keys, xs) + KeysAt(keys, ys);
  }

  /** From any cursor, the rest of the loop collects exactly the visited positions. */
  lemma {:induction false} RemainingVisits(fetch: Fetch, keys: seq<Key>, limit: nat, anchor: Time,
                                           cursor: Option<Time>, i: nat, n: nat, k: nat)
    requires limit > 0 && Chronological(keys) && Walks(fetch, keys, limit)
    requires CursorAt(keys, cursor, k) && (cursor.None? ==> i == 0)
    ensures Shows(keys, Visited(keys, limit, k, anchor, n), Remaining(fetch, limit, anchor, cursor, i, n).0)
    decreases n
  {
    if n > 0 {
      assert Advances(keys, limit, k, fetch(i, cursor));
      if k >= limit && keys[k - limit].at > anchor {
        var at := keys[k - limit].at;
        CursorMoves(keys, limit, k);
        RemainingVisits(fetch, keys, limit, anchor, Some(at), i + 1, n - 1, Older(keys, at));
        ShowsMore(keys, Span(k - limit, k), fetch(i, cursor), Visited(keys, limit, Older(keys, at), anchor, n - 1),
                  Remaining(fetch, limit, anchor, Some(at), i + 1, n - 1).0);
      }
    }
  }

  /** And it ends by a break exactly when the cap reaches far enough. */
  lemma {:induction false} RemainingBreaks(fetch: Fetch, keys: seq<Key>, limit: nat, anchor: Time,
                                           cursor: Option<Time>, i: nat, n: nat, k: nat)
    requires limit > 0 && Chronological(keys) && Walks(fetch, keys, limit)
    requires CursorAt(keys, cursor, k) && (cursor.None? ==> i == 0)
    ensures Remaining(fetch, limit, anchor, cursor, i, n).1 <==> Reaches(keys, limit, k, anchor, n)
    decreases n
  {
    if n > 0 {
      assert Advances(keys, limit, k, fetch(i, cursor));
      if k >= limit && keys[k - limit].at > anchor {
        var at := keys[k - limit].at;
        CursorMoves(keys, limit, k);
        RemainingBreaks(fetch, keys, limit, anchor, Some(at), i + 1, n - 1, Older(keys, at));
      }
    }
  }

  /** The fetch loop of `resyncRoom`: at most `cap` pages, stopping early at a short page or on overlap
      with the anchor. */
  method FetchBack(fetch: Fetch, limit: nat, cap: nat, anchor: Time) returns (collected: Page, complete: bool)
    requires limit > 0
    ensures (collected, complete) == Remaining(fetch, limit, anchor, None, 0, cap)
  {
    collected := [];
    var cursor: Option<Time> := None;
    ghost var all := Remaining(fetch, limit, anchor, None, 0, cap);
    assert collected + all.0 == all.0;
    for i := 0 to cap
      invariant all.0 == collected + Remaining(fetch, limit, anchor, cursor, i, cap - i).0
      invariant all.1 == Remaining(fetch, limit, anchor, cursor, i, cap - i).1
    {
      var page := fetch(i, cursor);
      ghost var was := collected;
      collected := collected + page;
      if |page| < limit {
        return collected, true;
      }
      var oldest := page[|page| - 1];
      if oldest.createdAt <= anchor {
        return collected, true;
      }
      cursor := Some(oldest.createdAt);
      ghost var rest := Remaining(fetch, limit, anchor, cursor, i + 1, cap - (i + 1)).0;
      assert was + (page + rest) == collected + rest;
    }
    assert collected + [] == collected;
    complete := false;
  }

  /** Every message of the first table that is newer than the anchor has been collected. */
  ghost predicate Caught(table: Page, anchor: Time, collected: Page) {
    forall m | m in table && m.createdAt > anchor :: KeyOf(m) in KeySet(collected)
  }

  lemma ShownAt(keys: seq<Key>, xs: set<nat>, rows: Page, x: nat)
    requires Chronological(keys) && Shows(keys, xs, rows) && x < |keys|
    ensures keys[x] in KeySet(rows) <==> x in xs
  {
    if keys[x] in KeySet(rows) {
      var y :| y in xs && y < |keys| && keys[y] == keys[x];
      assert y < x ==> Earlier(keys[y], keys[x]);
      assert x < y ==> Earlier(keys[x], keys[y]);
    }
  }

  lemma CaughtIsCovers(table: Page, anchor: Time, xs: set<nat>, collected: Page)
    requires Chronological(Keys(table)) && Shows(Keys(table), xs, collected)
    ensures Caught(table, anchor, collected) <==> Covers(Keys(table), |table|, anchor, xs)
  {
    var keys := Keys(table);
    forall x: nat | x < |table| ensures KeyOf(table[x]) in KeySet(collected) <==> x in xs {
      ShownAt(keys, xs, collected, x);
    }
    if Caught(table, anchor, collected) {
      forall x: nat | x < |table| && keys[x].at > anchor ensures x in xs {
        assert table[x] in table;
      }
    }
  }

  /** The loop collects exactly the visited positions of the table of the first fetch. It ends by a break
      exactly when the capped number of pages reaches that far, and then everything newer than the anchor has
      been collected exactly when no boundary newer than the anchor split a tie. */
  lemma FetchedBack(fetch: Fetch, tables: nat -> Page, limit: nat, cap: nat, anchor: Time)
    requires limit > 0 && Serves(fetch, tables, limit)
    ensures var keys := Keys(tables(0));
            var (collected, complete) := Remaining(fetch, limit, anchor, None, 0, cap);
            && Shows(keys, Visited(keys, limit, |keys|, anchor, cap), collected)
            && (complete <==> Reaches(keys, limit, |keys|, anchor, cap))
            && (complete ==> (Caught(tables(0), anchor, collected) <==> NoTieAbove(keys, limit, |keys|, anchor)))
  {
    var keys, collected := Keys(tables(0)), Remaining(fetch, limit, anchor, None, 0, cap).0;
    ServesWalks(fetch, tables, limit);
    RemainingVisits(fetch, keys, limit, anchor, None, 0, cap, |keys|);
    RemainingBreaks(fetch, keys, limit, anchor, None, 0, cap, |keys|);
    CaughtIsCovers(tables(0), anchor, Visited(keys, limit, |keys|, anchor, cap), collected);
    if Reaches(keys, limit, |keys|, anchor, cap) {
      VisitedCovers(keys, limit, |keys|, anchor, cap);
    }
  }

  lemma {:induction false} CollectedServed(fetch: Fetch, tables: nat -> Page, limit: nat, anchor: Time,
                                           cursor: Option<Time>, i: nat, n: nat)
    requires limit > 0 && Serves(fetch, tables, limit)
    ensures forall m | m in Remaining(fetch, limit, anchor, cursor, i, n).0 :: Served(m, tables)
    decreases n
  {
    if n > 0 {
      var page := fetch(i, cursor);
      PageServed(tables, limit, cursor, i);
      if |page| >= limit {
        CollectedServed(fetch, tables, limit, anchor, Some(page[|page| - 1].createdAt), i + 1, n - 1);
      }
    }
  }

  lemma CollectedArrive(collected: Page, incoming: seq<Incoming>)
    requires incoming == ToIncoming(collected) && forall m | m in collected :: m.Confirmed()
    ensures forall id :: ArrivesConfirmed(incoming, id) <==> Holds(collected, id)
  {
    assert forall i | 0 <= i < |incoming| :: incoming[i] in incoming && collected[i] in collected;
  }

  /** What merging the collected rows into the cache leaves: exactly the server messages held before or
      collected, no server row lost, and no row that was neither held nor collected. */
  ghost predicate Merged(before: Page, collected: Page, after: Page) {
    && (forall id :: HoldsConfirmed(after, id) <==> HoldsConfirmed(before, id) || Holds(collected, id))
    && (forall m | m in before && m.Confirmed() :: m in after)
    && (forall m | m in after :: m in before || m in collected)
  }

  /** A bubble stays unless a message collected is by this user and has its text. */
  ghost predicate BubblesKept(before: Page, collected: Page, after: Page, me: UserId) {
    forall b | b in before && b.status.Some? ::
      b in after || exists m | m in collected :: m.author == me && m.content == b.content
  }

  lemma CollectedKeepsBubbles(before: Page, collected: Page, me: UserId)
    ensures BubblesKept(before, collected, MergeAll(before, ToIncoming(collected), me), me)
  {
    var incoming := ToIncoming(collected);
    MergeAllKeeps(before, incoming, me);
    forall inc | inc in incoming ensures inc.message in collected && inc.clientId.None? {}
  }

  method MergeCollected(current: MessagesData, collected: Page, me: UserId, ghost nonces: set<MessageId>)
    returns (r: MessagesData)
    requires Disciplined(Flatten(current.pages), nonces)
    requires forall m | m in collected :: m.Confirmed() && RowDisciplined(m, nonces)
    ensures Merged(Flatten(current.pages), collected, Flatten(r.pages))
    ensures Flatten(r.pages) == MergeAll(Flatten(current.pages), ToIncoming(collected), me)
    ensures BubblesKept(Flatten(current.pages), collected, Flatten(r.pages), me)
    ensures collected == [] ==> r == current
  {
    CollectedKeepsBubbles(Flatten(current.pages), collected, me);
    if collected == [] {
      return current;
    }
    var incoming := ToIncoming(collected);
    assert forall inc | inc in incoming :: inc.message in collected && inc.clientId.None?;
    CollectedArrive(collected, incoming);
    MergeAllSafe(Flatten(current.pages), incoming, me, nonces);
    r := UpsertMessages(Some(current), incoming, me);
  }

  /** With everything newer than the anchor collected, the cache holds every such message. */
  lemma CaughtIsHeld(table: Page, anchor: Time, before: Page, collected: Page, after: Page)
    requires Caught(table, anchor, collected) && Merged(before, collected, after)
    ensures forall m | m in table && m.createdAt > anchor :: HoldsConfirmed(after, m.id)
  {
    forall m | m in table && m.createdAt > anchor ensures HoldsConfirmed(after, m.id) {
      var c :| c in collected && KeyOf(c) == KeyOf(m);
      assert Holds(collected, m.id);
    }
  }

  /** The newest server row of the cache was created at `anchor`. */
  ghost predicate IsAnchor(rows: Page, anchor: Time) {
    && (exists m | m in rows :: m.Confirmed() && m.createdAt == anchor)
    && (forall m | m in rows && m.Confirmed() :: m.createdAt <= anchor)
  }

  /** `resyncRoom`: anchor on the newest server row of `existing`, page back, merge into whatever the
      cache holds by then (`current`). If the loop ended by a break, everything that existed at the first
      fetch and is newer than the anchor was collected, and then is held, exactly when no boundary newer
      than the anchor split a tie. */
  method ResyncRoom(existing: Option<MessagesData>, current: MessagesData, fetch: Fetch, me: UserId,
                    ghost tables: nat -> Page, ghost nonces: set<MessageId>)
    returns (r: MessagesData, anchor: Option<Time>, complete: bool, collected: Page)
    requires Serves(fetch, tables, PAGE_SIZE)
    requires AllDisciplined(tables, nonces) && Disciplined(Flatten(current.pages), nonces)
    ensures anchor.None? <==> forall m | existing.Some? && m in Flatten(existing.value.pages) :: !m.Confirmed()
    ensures anchor.None? ==> r == current && collected == []
    ensures anchor.Some? ==> existing.Some? && IsAnchor(Flatten(existing.value.pages), anchor.value)
    ensures anchor.Some? ==>
              (collected, complete) == Remaining(fetch, PAGE_SIZE, anchor.value, None, 0, MAX_RESYNC_PAGES)
    ensures anchor.Some? ==>
              (complete <==> Reaches(Keys(tables(0)), PAGE_SIZE, |tables(0)|, anchor.value, MAX_RESYNC_PAGES))
    ensures anchor.Some? && complete ==>
              (Caught(tables(0), anchor.value, collected) <==>
               NoTieAbove(Keys(tables(0)), PAGE_SIZE, |tables(0)|, anchor.value))
    ensures anchor.Some? && complete && NoTieAbove(Keys(tables(0)), PAGE_SIZE, |tables(0)|, anchor.value) ==>
              forall m | m in tables(0) && m.createdAt > anchor.value :: HoldsConfirmed(Flatten(r.pages), m.id)
    ensures Merged(Flatten(current.pages), collected, Flatten(r.pages))
    ensures Flatten(r.pages) == MergeAll(Flatten(current.pages), ToIncoming(collected), me)
    ensures BubblesKept(Flatten(current.pages), collected, Flatten(r.pages), me)
    ensures forall m | m in collected :: Served(m, tables)
  {
    r, complete, collected := current, false, [];
    anchor := NewestConfirmedCreatedAt(existing);
    if anchor.Some? {
      collected, complete := FetchBack(fetch, PAGE_SIZE, MAX_RESYNC_PAGES, anchor.value);
      FetchedBack(fetch, tables, PAGE_SIZE, MAX_RESYNC_PAGES, anchor.value);
      CollectedServed(fetch, tables, PAGE_SIZE, anchor.value, None, 0, MAX_RESYNC_PAGES);
    }
    CollectedDisciplined(collected, tables, nonces);
    r := MergeCollected(current, collected, me, nonces);
    if anchor.Some? && Caught(tables(0), anchor.value, collected) {
      CaughtIsHeld(tables(0), anchor.value, Flatten(current.pages), collected, Flatten(r.pages));
    }
  }

  ghost predicate AllDisciplined(tables: nat -> Page, nonces: set<MessageId>) {
    forall i: nat :: Disciplined(tables(i), nonces)
  }

  lemma CollectedDisciplined(collected: Page, tables: nat -> Page, nonces: set<MessageId>)
    requires Growing(tables) && AllDisciplined(tables, nonces)
    requires forall m | m in collected :: Served(m, tables)
    ensures forall m | m in collected :: m.Confirmed() && RowDisciplined(m, nonces)
  {
    forall m | m in collected ensures m.Confirmed() && RowDisciplined(m, nonces) {
      var i: nat :| m in tables(i);
    }
  }
}
