/** REST sends with an `Idempotency-Key` (internal/handlers/messages.go:153-175, internal/store/messages.go:194-210):
    any number of requests, each a sequence of reserve, insert and release, interleaved step by step.
    Redis and the database may refuse any single step; the key's expiry is not modelled. */
module Idempotency {
  import opened ChatTypes

  type RequestId = nat

  /** What `messageIdempotencyKey` is made of. */
  datatype Slot = Slot(room: RoomId, user: UserId, key: string)

  datatype Phase =
    | Ready        // validated; nothing reserved yet
    | Reserved     // may insert
    | Failed       // the insert failed; a key is about to be released
    | Created      // 201
    | Conflict     // 409
    | Errored      // 500, holding nothing
    | Stuck        // 500, and the release failed too: the key stays claimed

  datatype Request = Request(slot: Slot, phase: Phase)

  /** The reserved keys, the requests under way, and the requests whose message was stored, in order. */
  datatype State = State(keys: set<Slot>, requests: map<RequestId, Request>, stored: seq<RequestId>)

  datatype Step =
    | Arrive(slot: Slot)
    | Reserve(reachable: bool)
    | Insert(succeeds: bool)
    | Release(reachable: bool)

  predicate At(s: State, r: RequestId, phase: Phase) {
    r in s.requests && s.requests[r].phase == phase
  }

  function Moved(s: State, r: RequestId, phase: Phase): State
    requires r in s.requests
  {
    s.(requests := s.requests[r := s.requests[r].(phase := phase)])
  }

  /** One step of request `r`; a step the request is not at changes nothing. An empty key is never reserved. */
  function Next(s: State, r: RequestId, step: Step): State {
    match step
    case Arrive(slot) =>
      if r in s.requests then s
      else s.(requests := s.requests[r := Request(slot, Ready)])
    case Reserve(reachable) =>
      if !At(s, r, Ready) then s
      else
        var slot := s.requests[r].slot;
        if slot.key == "" then Moved(s, r, Reserved)
        else if !reachable then Moved(s, r, Errored)
        else if slot in s.keys then Moved(s, r, Conflict)
        else Moved(s, r, Reserved).(keys := s.keys + {slot})
    case Insert(succeeds) =>
      if !At(s, r, Reserved) then s
      else if succeeds then Moved(s, r, Created).(stored := s.stored + [r])
      else Moved(s, r, Failed)
    case Release(reachable) =>
      if !At(s, r, Failed) then s
      else if s.requests[r].slot.key == "" then Moved(s, r, Errored)
      else if reachable then Moved(s, r, Errored).(keys := s.keys - {s.requests[r].slot})
      else Moved(s, r, Stuck)
  }

  /** The handler's state, changed by each of its calls. */
  class SendApi {
    var keys: set<Slot>
    var requests: map<RequestId, Request>
    var stored: seq<RequestId>

    ghost function Now(): State
      reads this
    {
      State(keys, requests, stored)
    }

    constructor ()
      ensures Now() == State({}, map[], [])
    {
      keys, requests, stored := {}, map[], [];
    }

    /** SETNX: claims the key unless it is claimed already. */
    method ReserveKey(slot: Slot) returns (claimed: bool)
      modifies this`keys
      ensures claimed <==> slot !in old(keys)
      ensures keys == old(keys) + {slot}
    {
      claimed := slot !in keys;
      keys := keys + {slot};
    }

    method Enter(r: RequestId, phase: Phase)
      requires r in requests
      modifies this`requests
      ensures Now() == Moved(old(Now()), r, phase)
    {
      requests := requests[r := requests[r].(phase := phase)];
    }

    /** The handler run without interruption: its reserve, insert and release steps in a row. */
    method SendMessage(r: RequestId, slot: Slot, redisUp: bool, insertOk: bool, releaseOk: bool) returns (reply: Phase)
      requires r !in requests
      modifies this
      ensures var reserved := Next(Next(old(Now()), r, Arrive(slot)), r, Reserve(redisUp));
              Now() == Next(Next(reserved, r, Insert(insertOk)), r, Release(releaseOk))
      ensures r in requests && reply == requests[r].phase
      ensures reply == Created <==> insertOk && (slot.key == "" || (redisUp && slot !in old(keys)))
      ensures reply == Conflict <==> slot.key != "" && redisUp && slot in old(keys)
      ensures reply == Stuck <==> slot.key != "" && redisUp && slot !in old(keys) && !insertOk && !releaseOk
      ensures slot in keys <==> slot in old(keys) || (slot.key != "" && (reply == Created || reply == Stuck))
      ensures stored == old(stored) + (if reply == Created then [r] else [])
    {
      requests := requests[r := Request(slot, Ready)];
      if slot.key != "" {
        if !redisUp {
          Enter(r, Errored);
          return Errored;
        }
        var claimed := ReserveKey(slot);
        if !claimed {
          Enter(r, Conflict);
          return Conflict;
        }
      }
      Enter(r, Reserved);
      if insertOk {
        stored := stored + [r];
        Enter(r, Created);
        return Created;
      }
      Enter(r, Failed);
      if slot.key != "" {
        if !releaseOk {
          Enter(r, Stuck);
          return Stuck;
        }
        keys := keys - {slot};
      }
      Enter(r, Errored);
      reply := Errored;
    }
  }

  /** The request holds its slot's key. */
  predicate Owns(s: State, r: RequestId) {
    r in s.requests && s.requests[r].slot.key != "" && s.requests[r].phase in {Reserved, Failed, Created, Stuck}
  }

  /** Every reserved key has exactly one owner. */
  ghost predicate KeysOwned(s: State) {
    && (forall r | Owns(s, r) :: s.requests[r].slot in s.keys)
    && (forall k | k in s.keys :: exists r :: Owns(s, r) && s.requests[r].slot == k)
    && (forall q, r | Owns(s, q) && Owns(s, r) && s.requests[q].slot == s.requests[r].slot :: q == r)
  }

  /** The stored messages are those of the created requests, each once. */
  ghost predicate StoredOnce(s: State) {
    && (forall r :: r in s.stored <==> At(s, r, Created))
    && (forall i, j | 0 <= i < j < |s.stored| :: s.stored[i] != s.stored[j])
  }

  ghost predicate Inv(s: State) {
    KeysOwned(s) && StoredOnce(s)
  }

  /** A step changes who owns what only for the request that takes it, and in step with the keys. */
  lemma OwnershipStep(s: State, r: RequestId, step: Step)
    ensures var n := Next(s, r, step);
            && (forall q | q != r :: (q in n.requests <==> q in s.requests)
                    && (q in s.requests ==> n.requests[q] == s.requests[q]))
            && (r in s.requests ==> r in n.requests && n.requests[r].slot == s.requests[r].slot)
            && (Owns(n, r) == Owns(s, r) ==> n.keys == s.keys)
            && (Owns(n, r) && !Owns(s, r) ==> n.requests[r].slot !in s.keys && n.keys == s.keys + {n.requests[r].slot})
            && (Owns(s, r) && !Owns(n, r) ==> n.keys == s.keys - {s.requests[r].slot})
  {}

  lemma StepKeysOwned(s: State, r: RequestId, step: Step)
    requires KeysOwned(s)
    ensures KeysOwned(Next(s, r, step))
  {
    var n := Next(s, r, step);
    OwnershipStep(s, r, step);
    forall q | q != r ensures Owns(n, q) <==> Owns(s, q) {}
    forall k | k in n.keys ensures exists q :: Owns(n, q) && n.requests[q].slot == k {
      if k in s.keys {
        var q :| Owns(s, q) && s.requests[q].slot == k;
        assert Owns(n, q);
      } else {
        assert Owns(n, r);
      }
    }
  }

  lemma StepStoredOnce(s: State, r: RequestId, step: Step)
    requires StoredOnce(s)
    ensures StoredOnce(Next(s, r, step))
  {
    var n := Next(s, r, step);
    assert n.stored == if step.Insert? && step.succeeds && At(s, r, Reserved) then s.stored + [r] else s.stored;
    forall q ensures q in n.stored <==> At(n, q, Created) {
      assert q in s.stored <==> At(s, q, Created);
    }
    forall i, j | 0 <= i < j < |n.stored| ensures n.stored[i] != n.stored[j] {
      assert n.stored[i] in s.stored;
    }
  }

  datatype Event = Event(request: RequestId, step: Step)

  ghost predicate IsRun(states: seq<State>, events: seq<Event>) {
    && |states| == |events| + 1
    && states[0] == State({}, map[], [])
    && forall i | 0 <= i < |events| :: states[i + 1] == Next(states[i], events[i].request, events[i].step)
  }

  lemma {:induction false} RunInv(states: seq<State>, events: seq<Event>, i: nat)
    requires IsRun(states, events) && i <= |events|
    ensures Inv(states[i])
  {
    if i > 0 {
      RunInv(states, events, i - 1);
      StepKeysOwned(states[i - 1], events[i - 1].request, events[i - 1].step);
      StepStoredOnce(states[i - 1], events[i - 1].request, events[i - 1].step);
    }
  }

  /** However the sends interleave, no two stored messages came from requests sharing a room, user and key. */
  lemma AtMostOneInsert(states: seq<State>, events: seq<Event>, i: nat, a: nat, b: nat)
    requires IsRun(states, events) && i <= |events|
    requires a < b < |states[i].stored|
    ensures var s := states[i];
            s.stored[a] in s.requests && s.stored[b] in s.requests
            && (s.requests[s.stored[a]].slot == s.requests[s.stored[b]].slot ==> s.requests[s.stored[a]].slot.key == "")
  {
    RunInv(states, events, i);
    var s := states[i];
    assert At(s, s.stored[a], Created) && At(s, s.stored[b], Created);
  }

  predicate Settled(s: State, slot: Slot) {
    forall r | r in s.requests && s.requests[r].slot == slot ::
        s.requests[r].phase in {Created, Conflict, Errored, Stuck}
  }

  /** Once the sends of a key are all answered, the key is held exactly when its message was stored, or when
      a release failed: a caller that got only plain errors can always claim it again. */
  lemma SettledKeyExactlyWhen(states: seq<State>, events: seq<Event>, i: nat, slot: Slot)
    requires IsRun(states, events) && i <= |events|
    requires Settled(states[i], slot) && slot.key != ""
    ensures slot in states[i].keys <==>
            exists r :: r in states[i].requests && states[i].requests[r].slot == slot
                && states[i].requests[r].phase in {Created, Stuck}
  {
    RunInv(states, events, i);
    var s := states[i];
    if slot in s.keys {
      var r :| Owns(s, r) && s.requests[r].slot == slot;
      assert s.requests[r].phase in {Created, Stuck};
    }
    forall r | r in s.requests && s.requests[r].slot == slot && s.requests[r].phase in {Created, Stuck}
      ensures slot in s.keys {
      assert Owns(s, r);
    }
  }

  /** A conflict is answered only while another request owns the key. */
  lemma ConflictHasOwner(states: seq<State>, events: seq<Event>, i: nat)
    requires IsRun(states, events) && i < |events|
    requires At(states[i], events[i].request, Ready) && At(states[i + 1], events[i].request, Conflict)
    ensures exists q :: q != events[i].request && Owns(states[i], q)
                        && states[i].requests[q].slot == states[i].requests[events[i].request].slot
  {
    RunInv(states, events, i);
    var s, r := states[i], events[i].request;
    var q :| Owns(s, q) && s.requests[q].slot == s.requests[r].slot;
  }

  /** A key released after a failed insert is claimed by the next send that asks for it. */
  lemma ReleasedCanBeClaimed(s: State, r: RequestId, q: RequestId)
    requires Inv(s) && At(s, r, Failed) && At(s, q, Ready) && s.requests[q].slot == s.requests[r].slot
    requires s.requests[r].slot.key != ""
    ensures var freed := Next(s, r, Release(true));
            var claimed := Next(freed, q, Reserve(true));
            At(claimed, q, Reserved) && !Owns(claimed, r)
            && Next(claimed, q, Insert(true)).stored == s.stored + [q]
  {}

  // ---- what each step answers, in every run ----

  /** Request `r` takes step `i` of the run, from the phase that step is for. */
  predicate Takes(states: seq<State>, events: seq<Event>, i: nat, r: RequestId, phase: Phase, step: Step) {
    i < |events| < |states| && events[i] == Event(r, step) && At(states[i], r, phase)
  }

  /** A reservation is refused exactly while another request owns the key, fails exactly when Redis cannot be
      reached, and otherwise goes on to insert; a send without a key always does. */
  lemma ReserveExactlyWhen(states: seq<State>, events: seq<Event>, i: nat, r: RequestId, reachable: bool)
    requires IsRun(states, events) && Takes(states, events, i, r, Ready, Reserve(reachable))
    ensures var s, n, slot := states[i], states[i + 1], states[i].requests[r].slot;
            && (At(n, r, Conflict) <==>
                  slot.key != "" && reachable && exists q :: Owns(s, q) && s.requests[q].slot == slot)
            && (At(n, r, Errored) <==> slot.key != "" && !reachable)
            && (At(n, r, Reserved) <==> !At(n, r, Conflict) && !At(n, r, Errored))
            && n.stored == s.stored
  {
    RunInv(states, events, i);
    var s, slot := states[i], states[i].requests[r].slot;
    if slot in s.keys {
      var q :| Owns(s, q) && s.requests[q].slot == slot;
    }
  }

  /** The reserved message is stored exactly if its insert succeeds; if not, the key is given back, and is stuck
      exactly when that fails. */
  lemma InsertExactlyWhen(states: seq<State>, events: seq<Event>, i: nat, r: RequestId, succeeds: bool)
    requires IsRun(states, events) && Takes(states, events, i, r, Reserved, Insert(succeeds))
    ensures var s, n := states[i], states[i + 1];
            At(n, r, if succeeds then Created else Failed) && n.keys == s.keys
            && n.stored == s.stored + if succeeds then [r] else []
  {}

  lemma ReleaseExactlyWhen(states: seq<State>, events: seq<Event>, i: nat, r: RequestId, reachable: bool)
    requires IsRun(states, events) && Takes(states, events, i, r, Failed, Release(reachable))
    ensures var s, n, slot := states[i], states[i + 1], states[i].requests[r].slot;
            && At(n, r, if slot.key == "" || reachable then Errored else Stuck) && n.stored == s.stored
            && (slot.key != "" ==> (slot in n.keys <==> !reachable))
  {
    RunInv(states, events, i);
    RunInv(states, events, i + 1);
  }

  /** A message is stored exactly when its request got to insert and the insert succeeded. */
  lemma StoredExactlyWhen(states: seq<State>, events: seq<Event>, n: nat, r: RequestId)
    requires IsRun(states, events) && n <= |events|
    ensures r in states[n].stored <==> exists i: nat :: i < n && Takes(states, events, i, r, Reserved, Insert(true))
  {
    var stored := (i: nat) => i <= |events| && r in states[i].stored;
    var inserts := (i: nat) => Takes(states, events, i, r, Reserved, Insert(true));
    forall i: nat | i < n ensures stored(i + 1) <==> inserts(i) || stored(i) {
      assert states[i + 1] == Next(states[i], events[i].request, events[i].step);
    }
    Settle(stored, inserts, n);
    assert forall i: nat :: inserts(i) == Takes(states, events, i, r, Reserved, Insert(true));
  }

  /** A send that finds its key claimed is answered with a conflict for good, and its message is never stored. */
  lemma {:induction false} ClaimedKeyConflicts(states: seq<State>, events: seq<Event>, i: nat, q: RequestId,
                                               r: RequestId, n: nat)
    requires IsRun(states, events) && Takes(states, events, i, r, Ready, Reserve(true)) && i < n <= |events|
    requires Owns(states[i], q) && states[i].requests[q].slot == states[i].requests[r].slot
    ensures At(states[n], r, Conflict) && r !in states[n].stored
  {
    if n == i + 1 {
      ReserveExactlyWhen(states, events, i, r, true);
    } else {
      ClaimedKeyConflicts(states, events, i, q, r, n - 1);
      assert states[n] == Next(states[n - 1], events[n - 1].request, events[n - 1].step);
    }
    RunInv(states, events, n);
    assert r in states[n].stored <==> At(states[n], r, Created);
  }
}
