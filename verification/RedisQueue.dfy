// The Redis queue of packages/compute/work_unit_redis.py run by one client at a
// time: a list of ids, oldest first, and a hash of records.
//
// LPUSH appends to `list` and BRPOP takes its first element, so the list is read
// here from the end that is popped.
module RedisQueue {
  import opened Wrappers
  import opened WorkerPolicy
  import opened WorkUnits

  datatype Store = Store(list: seq<Id>, records: map<Id, Record>)

  const EMPTY_STORE := Store([], map[])

  predicate Stale(records: map<Id, Record>, id: Id) {
    id !in records || !records[id].status.Queued?
  }

  predicate Hits(records: map<Id, Record>, id: Id, session: Option<nat>) {
    id in records && Matches(records[id], session)
  }

  /** The ids whose record is still queued, in list order. */
  function NonStale(records: map<Id, Record>, ids: seq<Id>): seq<Id> {
    if ids == [] then []
    else
      var init, last := ids[..|ids| - 1], ids[|ids| - 1];
      if Stale(records, last) then NonStale(records, init) else NonStale(records, init) + [last]
  }

  /** Position of the first id a dequeue for `session` can take. */
  function FirstHit(records: map<Id, Record>, ids: seq<Id>, session: Option<nat>): (i: nat)
    ensures i <= |ids|
    ensures i < |ids| ==> Hits(records, ids[i], session)
    ensures forall j :: 0 <= j < i ==> !Hits(records, ids[j], session)
  {
    if ids == [] || Hits(records, ids[0], session) then 0 else 1 + FirstHit(records, ids[1..], session)
  }

  function CountHits(records: map<Id, Record>, ids: seq<Id>, session: Option<nat>): nat {
    if ids == [] then 0
    else CountHits(records, ids[..|ids| - 1], session) + if Hits(records, ids[|ids| - 1], session) then 1 else 0
  }

  // ---- Operations as functions --------------------------------------------

  function EnqueueStore(rs: Store, id: Id, ticket: Ticket, payload: Option<Payload>, now: Time): (Store, Outcome) {
    var safe := Sanitized(payload, DEFAULT_MAX_PAYLOAD_BYTES);
    if safe.Err? then (rs, Refused(safe.error))
    else
      var rec := NewRecord(id, ticket, safe.value, now);
      (Store(rs.list + [id], rs.records[id := rec]), Unit(Some(rec)))
  }

  /** A dequeue rotates the list: with the oldest-first list P + [y] + R and y the first hit, R comes
      to the front and the skipped ids of P follow it; stale ids met on the way are dropped. */
  function DequeueStore(rs: Store, session: Option<nat>, node: Option<nat>, now: Time): (Store, Outcome) {
    var i := FirstHit(rs.records, rs.list, session);
    if i == |rs.list| then (rs.(list := NonStale(rs.records, rs.list)), Unit(None))
    else
      var rec := AssignedTo(rs.records[rs.list[i]], node, now);
      (Store(rs.list[i + 1..] + NonStale(rs.records, rs.list[..i]), rs.records[rec.id := rec]), Unit(Some(rec)))
  }

  function CompleteStore(rs: Store, id: Id, requested: Option<Status>, result: Option<UnitResult>, now: Time): (Store, Outcome) {
    if id !in rs.records then (rs, Unit(None))
    else if Terminal(rs.records[id].status) then (rs, Unit(Some(rs.records[id])))
    else
      var rec := Completed(rs.records[id], requested, result, now);
      (rs.(records := rs.records[rec.id := rec]), Unit(Some(rec)))
  }

  function RestartStore(rs: Store, id: Id, newId: Id, t1: Time, t2: Time): (Store, Outcome) {
    if id !in rs.records || Terminal(rs.records[id].status) then (rs, Unit(None))
    else
      var rec := rs.records[id];
      EnqueueStore(CompleteStore(rs, id, Some(Cancelled), None, t1).0, newId, rec.ticket, Some(rec.payload), t2)
  }

  /** The list after `k` turns that took nothing: what has not been looked at, then what was kept. */
  ghost function Turned(records: map<Id, Record>, start: seq<Id>, k: nat): seq<Id>
    requires k <= |start|
  {
    start[k..] + NonStale(records, start[..k])
  }

  lemma TurnedEnds(records: map<Id, Record>, start: seq<Id>)
    ensures Turned(records, start, 0) == start && Turned(records, start, |start|) == NonStale(records, start)
  {
    assert start[..|start|] == start && start[0..] == start;
  }

  /** One turn of the dequeue loop that does not take the oldest id: it is dropped or goes behind. */
  lemma Rotates(records: map<Id, Record>, start: seq<Id>, k: nat)
    requires k < |start|
    ensures var now := Turned(records, start, k);
            && now != [] && now[0] == start[k]
            && Turned(records, start, k + 1) == (if Stale(records, start[k]) then now[1..] else now[1..] + [start[k]])
  {
    assert start[..k + 1][..k] == start[..k];
    TurnedTail(records, start, k);
  }

  lemma TurnedTail(records: map<Id, Record>, start: seq<Id>, k: nat)
    requires k < |start|
    ensures Turned(records, start, k)[1..] == start[k + 1..] + NonStale(records, start[..k])
  {
  }

  /** Where the loop ends. */
  lemma LoopHits(records: map<Id, Record>, start: seq<Id>, k: nat, session: Option<nat>, node: Option<nat>, now: Time)
    requires k < |start| && Hits(records, start[k], session) && forall j :: 0 <= j < k ==> !Hits(records, start[j], session)
    ensures var rec := AssignedTo(records[start[k]], node, now);
            DequeueStore(Store(start, records), session, node, now) ==
            (Store(Turned(records, start, k)[1..], records[rec.id := rec]), Unit(Some(rec)))
  {
    assert FirstHit(records, start, session) == k;
    TurnedTail(records, start, k);
  }

  lemma LoopMisses(records: map<Id, Record>, start: seq<Id>, session: Option<nat>, node: Option<nat>, now: Time)
    requires forall j :: 0 <= j < |start| ==> !Hits(records, start[j], session)
    ensures DequeueStore(Store(start, records), session, node, now) ==
            (Store(Turned(records, start, |start|), records), Unit(None))
  {
    assert FirstHit(records, start, session) == |start|;
    TurnedEnds(records, start);
  }

  // ---- The class ----------------------------------------------------------

  /** How one turn of the dequeue loop ends. */
  datatype Turn = Empty | Passed | Took(unit: Record)

  class RedisWorkUnitQueue {
    var list: seq<Id>
    var records: map<Id, Record>

    function View(): Store
      reads this
    {
      Store(list, records)
    }

    constructor ()
      ensures View() == EMPTY_STORE
    {
      list, records := [], map[];
    }

    method Save(rec: Record)
      modifies this`records
      ensures records == old(records)[rec.id := rec]
    {
      records := records[rec.id := rec];
    }

    method LPush(id: Id)
      modifies this`list
      ensures list == old(list) + [id]
    {
      list := list + [id];
    }

    /** None once the wait on an empty list times out. */
    method BRPop() returns (id: Option<Id>)
      modifies this`list
      ensures old(list) == [] ==> id == None && list == []
      ensures old(list) != [] ==> id == Some(old(list)[0]) && list == old(list)[1..]
    {
      if list == [] {
        return None;
      }
      id := Some(list[0]);
      list := list[1..];
    }

    method Enqueue(id: Id, ticket: Ticket, payload: Option<Payload>, now: Time) returns (r: Outcome)
      modifies this
      ensures (View(), r) == EnqueueStore(old(View()), id, ticket, payload, now)
    {
      var safe := SanitizeWorkUnitPayload(payload, DEFAULT_MAX_PAYLOAD_BYTES);
      if safe.Err? {
        return Refused(safe.error);
      }
      var rec := NewRecord(id, ticket, safe.value, now);
      Save(rec);
      LPush(id);
      r := Unit(Some(rec));
    }

    /** What the loop does with an id it popped: drop it, push it back, or assign its unit. */
    method Inspect(wid: Id, session: Option<nat>, node: Option<nat>, now: Time) returns (taken: Option<Record>)
      modifies this
      ensures taken.Some? <==> Hits(old(records), wid, session)
      ensures taken.Some? ==> taken.value == AssignedTo(old(records)[wid], node, now)
      ensures records == if taken.Some? then old(records)[taken.value.id := taken.value] else old(records)
      ensures list == if taken.Some? || Stale(old(records), wid) then old(list) else old(list) + [wid]
    {
      taken := None;
      if wid !in records || !records[wid].status.Queued? {
        return;
      }
      var rec := records[wid];
      if session.Some? && rec.ticket.sessionId != session {
        LPush(wid);
        return;
      }
      var unit := AssignedTo(rec, node, now);
      Save(unit);
      taken := Some(unit);
    }

    /** One turn of the loop, after `k` turns that took nothing from the list `start`. */
    method TakeTurn(session: Option<nat>, node: Option<nat>, now: Time, ghost start: seq<Id>, ghost k: nat) returns (turn: Turn)
      requires k <= |start| && (k == |start| ==> start == []) && list == Turned(records, start, k)
      requires forall j :: 0 <= j < k ==> !Hits(records, start[j], session)
      modifies this
      ensures turn.Passed? ==> k < |start| && !Hits(records, start[k], session)
      ensures turn.Passed? ==> records == old(records) && list == Turned(records, start, k + 1)
      ensures !turn.Passed? ==>
                (View(), Unit(if turn.Took? then Some(turn.unit) else None)) ==
                DequeueStore(Store(start, old(records)), session, node, now)
    {
      TurnedEnds(records, start);
      if k < |start| { Rotates(records, start, k); }
      var item := BRPop();
      if item.None? {
        LoopMisses(records, start, session, node, now);
        return Empty;
      }
      var taken := Inspect(item.value, session, node, now);
      if taken.Some? {
        LoopHits(old(records), start, k, session, node, now);
        return Took(taken.value);
      }
      turn := Passed;
    }

    method Dequeue(session: Option<nat>, node: Option<nat>, now: Time) returns (r: Outcome)
      modifies this
      ensures (View(), r) == DequeueStore(old(View()), session, node, now)
    {
      ghost var start := list;
      TurnedEnds(records, start);
      var depth := |list|;
      var attempts := if depth > 1 then depth else 1;
      for k := 0 to attempts
        invariant k <= |start| && records == old(records)
        invariant list == Turned(records, start, k)
        invariant forall j :: 0 <= j < k ==> !Hits(records, start[j], session)
      {
        var turn := TakeTurn(session, node, now, start, k);
        if turn.Empty? {
          return Unit(None);
        }
        if turn.Took? {
          return Unit(Some(turn.unit));
        }
      }
      LoopMisses(records, start, session, node, now);
      r := Unit(None);
    }

    method Complete(id: Id, requested: Option<Status>, result: Option<UnitResult>, now: Time) returns (r: Outcome)
      modifies this`records
      ensures (View(), r) == CompleteStore(old(View()), id, requested, result, now)
    {
      if id !in records {
        return Unit(None);
      }
      var rec := records[id];
      if Terminal(rec.status) {
        return Unit(Some(rec));
      }
      var done := Completed(rec, requested, result, now);
      assert done.id == rec.id;
      Save(done);
      r := Unit(Some(done));
    }

    method TerminateRestart(id: Id, newId: Id, t1: Time, t2: Time) returns (r: Outcome)
      modifies this
      ensures (View(), r) == RestartStore(old(View()), id, newId, t1, t2)
    {
      if id !in records || Terminal(records[id].status) {
        return Unit(None);
      }
      var rec := records[id];
      var cancelled := Complete(id, Some(Cancelled), None, t1);
      r := Enqueue(newId, rec.ticket, Some(rec.payload), t2);
    }

    method QueuedCount(session: Option<nat>) returns (count: nat)
      ensures count == CountHits(records, list, session)
    {
      count := 0;
      for i := 0 to |list|
        invariant count == CountHits(records, list[..i], session)
      {
        assert list[..i + 1][..i] == list[..i];
        var wid := list[i];
        if wid !in records || !records[wid].status.Queued? {
          continue;
        }
        if session.Some? && records[wid].ticket.sessionId != session {
          continue;
        }
        count := count + 1;
      }
      assert list[..|list|] == list;
    }
  }

  // ---- One dequeue --------------------------------------------------------

  lemma {:induction false} CountHitsZero(records: map<Id, Record>, ids: seq<Id>, session: Option<nat>)
    ensures CountHits(records, ids, session) == 0 <==> FirstHit(records, ids, session) == |ids|
  {
    if ids != [] {
      var init, last := ids[..|ids| - 1], ids[|ids| - 1];
      CountHitsZero(records, init, session);
      var i, j := FirstHit(records, ids, session), FirstHit(records, init, session);
      assert forall k :: 0 <= k < |init| ==> init[k] == ids[k];
      if j < |init| { assert !(j < i); }
    }
  }

  /** A dequeue returns None exactly when the queued count for its session is zero. */
  lemma DequeueNoneIffNothingQueued(rs: Store, session: Option<nat>, node: Option<nat>, now: Time)
    ensures DequeueStore(rs, session, node, now).1 == Unit(None) <==> CountHits(rs.records, rs.list, session) == 0
  {
    CountHitsZero(rs.records, rs.list, session);
  }
}
