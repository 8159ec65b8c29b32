/** Identifiers and small types shared by the client and server models.

    UUIDs and client nonces are opaque values compared only for equality and, when rows are
    rendered, by the total order that `localeCompare` induces on them; numbers serve for both.
    Timestamps are numbers with their usual order. */
module ChatTypes {

  type UserId = nat
  type MessageId = nat
  type RoomId = nat
  type Time = nat
  type Emoji = string

  datatype Option<+T> = None | Some(value: T)

  lemma SubsetSize<T>(a: set<T>, b: set<T>)
    requires a <= b
    ensures |a| <= |b|
  {
    assert b == a + (b - a);
  }

  /** Something of the one kind has happened, and since then nothing of the other. */
  ghost predicate SinceThen(on: nat -> bool, off: nat -> bool) {
    exists i: nat :: on(i) && NeverAfter(off, i)
  }

  ghost predicate NeverAfter(off: nat -> bool, i: nat) {
    forall j: nat | i < j :: !off(j)
  }

  ghost predicate Latched(on: nat -> bool, off: nat -> bool, n: nat) {
    exists i: nat :: i < n && on(i) && NeverBetween(off, i, n)
  }

  ghost predicate NeverBetween(off: nat -> bool, i: nat, n: nat) {
    forall j: nat | i < j < n :: !off(j)
  }

  lemma {:induction false} LatchUpTo(state: nat -> bool, on: nat -> bool, off: nat -> bool, n: nat)
    requires !state(0) && forall i: nat | i < n :: state(i + 1) <==> on(i) || (state(i) && !off(i))
    ensures state(n) <==> Latched(on, off, n)
  {
    if n > 0 {
      var k: nat := n - 1;
      LatchUpTo(state, on, off, k);
      assert state(k + 1) <==> on(k) || (state(k) && !off(k));
      if on(k) {
        assert NeverBetween(off, k, n);
      }
      if i: nat :| i < k && on(i) && NeverBetween(off, i, k) {
        assert !off(k) ==> NeverBetween(off, i, n);
      }
      if i: nat :| i < n && on(i) && NeverBetween(off, i, n) {
        assert i < k ==> NeverBetween(off, i, k);
      }
    }
  }

  /** A state that starts false, that some events make true and others false, is true after `n` events exactly when
      the last one that decides it made it true. */
  lemma Latch(state: nat -> bool, on: nat -> bool, off: nat -> bool, n: nat)
    requires !state(0) && forall i: nat | i < n :: state(i + 1) <==> on(i) || (state(i) && !off(i))
    requires forall i: nat | i >= n :: !on(i) && !off(i)
    ensures state(n) <==> SinceThen(on, off)
  {
    LatchUpTo(state, on, off, n);
    if i: nat :| i < n && on(i) && NeverBetween(off, i, n) {
      assert NeverAfter(off, i);
    }
    if i: nat :| on(i) && NeverAfter(off, i) {
      assert i < n && NeverBetween(off, i, n);
    }
  }

  ghost predicate Ever(on: nat -> bool) {
    exists i: nat :: on(i)
  }

  /** A state that starts false and some events make true for good. */
  lemma {:induction false} Settle(state: nat -> bool, on: nat -> bool, n: nat)
    requires !state(0) && forall i: nat | i < n :: state(i + 1) <==> on(i) || state(i)
    ensures state(n) <==> exists i: nat :: i < n && on(i)
  {
    if n > 0 {
      var k: nat := n - 1;
      Settle(state, on, k);
      assert state(k + 1) <==> on(k) || state(k);
    }
  }
}
