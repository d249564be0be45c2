// Work-unit records and the in-memory queue of packages/compute/work_unit.py,
// first as functions on values, then as the class that updates its dict in place.
module WorkUnits {
  import opened Wrappers
  import opened WorkerPolicy

  type Id = nat
  type Time = nat

  /** "ok" and "timeout" are called Succeeded and TimedOut. */
  datatype Status = Queued | Assigned | Running | Succeeded | Failed | TimedOut | Cancelled

  predicate Terminal(s: Status) {
    s.Succeeded? || s.Failed? || s.TimedOut? || s.Cancelled?
  }

  /** A replayed event as it arrives: anything may be in the list, and a mapping may lack its id. */
  datatype RawEvent = NotAMapping | Mapping(eventId: string, body: string)

  /** The two fields of a worker's result that the host reads; None where the field is missing or
      has the wrong type. */
  datatype UnitResult = UnitResult(replayEvents: Option<seq<RawEvent>>, workspaceFiles: Option<seq<(string, string)>>)

  /** Who asked for what: fixed when the unit is enqueued. */
  datatype Ticket = Ticket(runId: nat, sessionId: Option<nat>, stageName: string, agentRole: string, executorUserId: string)

  datatype Record = Record(
    id: Id, ticket: Ticket, status: Status, payload: Payload, nodeId: Option<nat>,
    result: Option<UnitResult>, assignedAt: Option<Time>, completedAt: Option<Time>, createdAt: Time)

  // ---- What one call does to one record -----------------------------------

  function NewRecord(id: Id, ticket: Ticket, payload: Payload, now: Time): Record {
    Record(id, ticket, Queued, payload, None, None, None, None, now)
  }

  function AssignedTo(rec: Record, node: Option<nat>, now: Time): Record {
    Record(rec.id, rec.ticket, Assigned, rec.payload, node, None, Some(now), None, rec.createdAt)
  }

  /** `requested` is None for a status word the queue does not know. */
  function Completed(rec: Record, requested: Option<Status>, result: Option<UnitResult>, now: Time): Record {
    rec.(status := if requested.Some? then requested.value else Failed, result := result, completedAt := Some(now))
  }

  predicate Matches(rec: Record, session: Option<nat>) {
    rec.status.Queued? && (session.None? || rec.ticket.sessionId == session)
  }

  // ---- The store as a value -----------------------------------------------

  /** A Python dict of records: its keys in insertion order, and the values. */
  datatype State = State(order: seq<Id>, units: map<Id, Record>)

  ghost predicate Valid(st: State) {
    && (forall i, j :: 0 <= i < j < |st.order| ==> st.order[i] != st.order[j])
    && (forall k :: k in st.order <==> k in st.units)
    && (forall k :: k in st.units ==> st.units[k].id == k)
  }

  const EMPTY := State([], map[])

  function Values(st: State): seq<Record>
    requires Valid(st)
  {
    seq(|st.order|, i requires 0 <= i < |st.order| => st.units[st.order[i]])
  }

  /** Insert behind everything created no later: one step of a stable sort. */
  function InsertByCreation(s: seq<Record>, rec: Record): seq<Record> {
    if s == [] || s[|s| - 1].createdAt <= rec.createdAt then s + [rec]
    else InsertByCreation(s[..|s| - 1], rec) + [s[|s| - 1]]
  }

  /** Python's `sorted(..., key=created_at)`: stable. */
  function SortedByCreation(s: seq<Record>): seq<Record> {
    if s == [] then [] else InsertByCreation(SortedByCreation(s[..|s| - 1]), s[|s| - 1])
  }

  /** Position of the first match, or the length if there is none. */
  function FirstMatch(s: seq<Record>, session: Option<nat>): (i: nat)
    ensures i <= |s|
    ensures i < |s| ==> Matches(s[i], session)
    ensures forall j :: 0 <= j < i ==> !Matches(s[j], session)
  {
    if s == [] || Matches(s[0], session) then 0 else 1 + FirstMatch(s[1..], session)
  }

  function CountMatches(s: seq<Record>, session: Option<nat>): nat {
    if s == [] then 0
    else CountMatches(s[..|s| - 1], session) + if Matches(s[|s| - 1], session) then 1 else 0
  }

  function Put(st: State, rec: Record): State {
    State(if rec.id in st.units then st.order else st.order + [rec.id], st.units[rec.id := rec])
  }

  // ---- Operations as functions --------------------------------------------

  datatype Outcome = Unit(unit: Option<Record>) | Refused(error: PolicyError) | Counted(n: nat)

  function EnqueueStep(st: State, id: Id, ticket: Ticket, payload: Option<Payload>, now: Time): (State, Outcome) {
    var safe := Sanitized(payload, DEFAULT_MAX_PAYLOAD_BYTES);
    if safe.Err? then (st, Refused(safe.error))
    else
      var rec := NewRecord(id, ticket, safe.value, now);
      (Put(st, rec), Unit(Some(rec)))
  }

  function DequeueStep(st: State, session: Option<nat>, node: Option<nat>, now: Time): (State, Outcome)
    requires Valid(st)
  {
    var s := SortedByCreation(Values(st));
    var i := FirstMatch(s, session);
    if i == |s| then (st, Unit(None))
    else
      var rec := AssignedTo(s[i], node, now);
      (Put(st, rec), Unit(Some(rec)))
  }

  function CompleteStep(st: State, id: Id, requested: Option<Status>, result: Option<UnitResult>, now: Time): (State, Outcome) {
    if id !in st.units then (st, Unit(None))
    else if Terminal(st.units[id].status) then (st, Unit(Some(st.units[id])))
    else
      var rec := Completed(st.units[id], requested, result, now);
      (Put(st, rec), Unit(Some(rec)))
  }

  /** Cancel a live unit and enqueue a replacement for the same ticket; `newId` is the fresh id. */
  function RestartStep(st: State, id: Id, newId: Id, t1: Time, t2: Time): (State, Outcome) {
    if id !in st.units || Terminal(st.units[id].status) then (st, Unit(None))
    else
      var rec := st.units[id];
      EnqueueStep(CompleteStep(st, id, Some(Cancelled), None, t1).0, newId, rec.ticket, Some(rec.payload), t2)
  }

  function CountStep(st: State, session: Option<nat>): nat
    requires Valid(st)
  {
    CountMatches(Values(st), session)
  }

  // ---- The class ----------------------------------------------------------

  class InMemoryWorkUnitQueue {
    var order: seq<Id>
    var units: map<Id, Record>

    function View(): State
      reads this
    {
      State(order, units)
    }

    constructor ()
      ensures View() == EMPTY
    {
      order, units := [], map[];
    }

    /** `self._units[rec.id] = rec`: a new key goes last, an old one keeps its place. */
    method Store(rec: Record)
      modifies this
      ensures View() == Put(old(View()), rec)
    {
      if rec.id !in units {
        order := order + [rec.id];
      }
      units := units[rec.id := rec];
    }

    method Enqueue(id: Id, ticket: Ticket, payload: Option<Payload>, now: Time) returns (r: Outcome)
      modifies this
      ensures (View(), r) == EnqueueStep(old(View()), id, ticket, payload, now)
    {
      var safe := SanitizeWorkUnitPayload(payload, DEFAULT_MAX_PAYLOAD_BYTES);
      if safe.Err? {
        return Refused(safe.error);
      }
      var rec := NewRecord(id, ticket, safe.value, now);
      Store(rec);
      r := Unit(Some(rec));
    }

    method Dequeue(session: Option<nat>, node: Option<nat>, now: Time) returns (r: Outcome)
      requires Valid(View())
      modifies this
      ensures (View(), r) == DequeueStep(old(View()), session, node, now)
    {
      var s := SortedByCreation(Values(View()));
      for i := 0 to |s|
        invariant View() == old(View())
        invariant forall j :: 0 <= j < i ==> !Matches(s[j], session)
      {
        if !s[i].status.Queued? {
          continue;
        }
        if session.Some? && s[i].ticket.sessionId != session {
          continue;
        }
        assert FirstMatch(s, session) == i;
        var taken := AssignedTo(s[i], node, now);
        Store(taken);
        return Unit(Some(taken));
      }
      assert FirstMatch(s, session) == |s|;
      r := Unit(None);
    }

    method Complete(id: Id, requested: Option<Status>, result: Option<UnitResult>, now: Time) returns (r: Outcome)
      modifies this
      ensures (View(), r) == CompleteStep(old(View()), id, requested, result, now)
    {
      if id !in units {
        return Unit(None);
      }
      var rec := units[id];
      if Terminal(rec.status) {
        return Unit(Some(rec));
      }
      var done := Completed(rec, requested, result, now);
      assert done.id == rec.id;
      Store(done);
      r := Unit(Some(done));
    }

    method TerminateRestart(id: Id, newId: Id, t1: Time, t2: Time) returns (r: Outcome)
      modifies this
      ensures (View(), r) == RestartStep(old(View()), id, newId, t1, t2)
    {
      if id !in units || Terminal(units[id].status) {
        return Unit(None);
      }
      var rec := units[id];
      var cancelled := Complete(id, Some(Cancelled), None, t1);
      r := Enqueue(newId, rec.ticket, Some(rec.payload), t2);
    }

    method QueuedCount(session: Option<nat>) returns (count: nat)
      requires Valid(View())
      ensures count == CountStep(View(), session)
    {
      count := 0;
      var s := Values(View());
      for i := 0 to |s|
        invariant count == CountMatches(s[..i], session)
      {
        assert s[..i + 1][..i] == s[..i];
        if s[i].status.Queued? && (session.None? || s[i].ticket.sessionId == session) {
          count := count + 1;
        }
      }
      assert s[..|s|] == s;
    }
  }
}
