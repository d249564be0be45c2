// What the calls on a work-unit queue and their answers say about every record, without looking into the
// queue: packages/compute/work_unit.py and, for the hash of records, work_unit_redis.py.
module UnitHistory {
  import opened Wrappers
  import opened WorkerPolicy
  import opened WorkUnits
  import opened WorkUnitRuns
  import opened RedisQueue
  import opened RedisRefinement

  // ---- The records a history gives ----------------------------------------

  /** Not one of the four words at which a unit is final. */
  predicate Open(status: Status) {
    status in {Queued, Assigned, Running}
  }

  function Created(id: Id, ticket: Ticket, payload: Payload, now: Time): Record {
    Record(id := id, ticket := ticket, status := Queued, payload := payload, nodeId := None,
           result := None, assignedAt := None, completedAt := None, createdAt := now)
  }

  /** Ended with the word of the call, or with "failed" if the queue does not know it. */
  function Ended(rec: Record, word: Option<Status>, result: Option<UnitResult>, now: Time): Record {
    var status := match word case Some(known) => known case None => Failed;
    Record(id := rec.id, ticket := rec.ticket, status := status, payload := rec.payload, nodeId := rec.nodeId,
           result := result, assignedAt := rec.assignedAt, completedAt := Some(now), createdAt := rec.createdAt)
  }

  function HandedTo(rec: Record, node: Option<nat>, now: Time): Record {
    Record(id := rec.id, ticket := rec.ticket, status := Assigned, payload := rec.payload, nodeId := node,
           result := None, assignedAt := Some(now), completedAt := None, createdAt := rec.createdAt)
  }

  /** The records after one more call.  An enqueue counts unless it was refused, a dequeue for the unit it
      returned, and a completion or a restart if the unit is known and open. */
  function Noted(records: map<Id, Record>, op: Op, out: Outcome): map<Id, Record> {
    match op
    case Enqueue(id, ticket, payload, now) =>
      var safe := Sanitized(payload, 512_000);
      if out.Refused? || safe.Err? then records else records[id := Created(id, ticket, safe.value, now)]
    case Dequeue(_, node, now) =>
      if !out.Unit? || out.unit.None? || out.unit.value.id !in records then records
      else records[out.unit.value.id := HandedTo(records[out.unit.value.id], node, now)]
    case Complete(id, word, result, now) =>
      if id in records && Open(records[id].status) then records[id := Ended(records[id], word, result, now)] else records
    case Restart(id, newId, t1, t2) =>
      if id in records && Open(records[id].status) then
        records[id := Ended(records[id], Some(Cancelled), None, t1)]
               [newId := Created(newId, records[id].ticket, records[id].payload, t2)]
      else records
    case Count(_) => records
  }

  /** The records after a run of calls with their answers. */
  function History(records: map<Id, Record>, ops: seq<Op>, outs: seq<Outcome>): map<Id, Record>
    requires |ops| == |outs|
    decreases |ops|
  {
    if ops == [] then records else History(Noted(records, ops[0], outs[0]), ops[1..], outs[1..])
  }

  /** The records a dequeue for `session` may take. */
  function Waiting(records: map<Id, Record>, session: Option<nat>): set<Id> {
    set id | id in records && records[id].status == Queued && (session == None || records[id].ticket.sessionId == session)
  }

  /** What a call answers, but for the choice a dequeue has: a call that returns a unit returns its record as
      it now stands. */
  ghost predicate Answers(records: map<Id, Record>, op: Op, out: Outcome, next: map<Id, Record>) {
    match op
    case Enqueue(id, _, payload, _) =>
      var safe := Sanitized(payload, 512_000);
      if safe.Err? then out == Refused(safe.error) else id in next && out == Unit(Some(next[id]))
    case Dequeue(session, _, _) =>
      out.Unit? && (out.unit.Some? ==>
                      var id := out.unit.value.id;
                      id in Waiting(records, session) && id in next && out.unit.value == next[id])
    case Complete(id, _, _, _) =>
      out == Unit(if id in next then Some(next[id]) else None)
    case Restart(id, newId, _, _) =>
      if id in records && Open(records[id].status) then newId in next && out == Unit(Some(next[newId])) else out == Unit(None)
    case Count(_) => out.Counted?
  }

  // ---- In memory ----------------------------------------------------------

  /** What a dequeue and a count answer in memory: the oldest waiting unit, None only if none waits, and how
      many wait. */
  ghost predicate ChoosesOldest(records: map<Id, Record>, op: Op, out: Outcome) {
    match op
    case Dequeue(session, _, _) =>
      && out.Unit?
      && (out.unit.None? <==> Waiting(records, session) == {})
      && (out.unit.Some? ==> forall k :: k in Waiting(records, session) ==> out.unit.value.createdAt <= records[k].createdAt)
    case Count(session) => out == Counted(|Waiting(records, session)|)
    case _ => true
  }

  /** Every answer of the run is what the history up to it says. */
  ghost predicate AnswersOldest(records: map<Id, Record>, ops: seq<Op>, outs: seq<Outcome>)
    requires |ops| == |outs|
    decreases |ops|
  {
    ops == [] ||
    var next := Noted(records, ops[0], outs[0]);
    && Answers(records, ops[0], outs[0], next) && ChoosesOldest(records, ops[0], outs[0])
    && AnswersOldest(next, ops[1..], outs[1..])
  }

  ghost predicate StablePayloads(records: map<Id, Record>) {
    forall k {:trigger Stable(records[k].payload)} :: k in records ==> Stable(records[k].payload)
  }

  lemma MatchesMeansWaiting(records: map<Id, Record>, session: Option<nat>, id: Id)
    requires id in records
    ensures Matches(records[id], session) <==> id in Waiting(records, session)
  {
  }

  lemma DequeueNoted(st: State, session: Option<nat>, node: Option<nat>, now: Time)
    requires Valid(st)
    ensures var op := Dequeue(session, node, now);
            var (next, out) := Step(st, op);
            && next.units == Noted(st.units, op, out)
            && Answers(st.units, op, out, next.units) && ChoosesOldest(st.units, op, out)
  {
    var out := DequeueStep(st, session, node, now).1;
    DequeueFinds(st, session, node, now);
    forall k | k in st.units
      ensures Matches(st.units[k], session) <==> k in Waiting(st.units, session)
    {
      MatchesMeansWaiting(st.units, session, k);
    }
    forall k | k in Waiting(st.units, session)
      ensures out.unit.Some? && out.unit.value.createdAt <= st.units[k].createdAt
    {
      DequeueTakesOldest(st, session, node, now, k);
    }
  }

  lemma CompleteNoted(units: map<Id, Record>, order: seq<Id>, id: Id, word: Option<Status>, result: Option<UnitResult>, now: Time)
    requires id in units ==> units[id].id == id
    ensures var op := Complete(id, word, result, now);
            var (next, out) := CompleteStep(State(order, units), id, word, result, now);
            next.units == Noted(units, op, out) && Answers(units, op, out, next.units)
  {
  }

  lemma EnqueueNoted(units: map<Id, Record>, order: seq<Id>, id: Id, ticket: Ticket, payload: Option<Payload>, now: Time)
    ensures var op := Enqueue(id, ticket, payload, now);
            var (next, out) := EnqueueStep(State(order, units), id, ticket, payload, now);
            next.units == Noted(units, op, out) && Answers(units, op, out, next.units)
  {
  }

  lemma RestartNoted(units: map<Id, Record>, order: seq<Id>, id: Id, newId: Id, t1: Time, t2: Time)
    requires id in units ==> units[id].id == id && Stable(units[id].payload)
    ensures var op := Restart(id, newId, t1, t2);
            var (next, out) := RestartStep(State(order, units), id, newId, t1, t2);
            next.units == Noted(units, op, out) && Answers(units, op, out, next.units)
  {
  }

  /** The positions of a list whose id waits. */
  function WaitingAt(records: map<Id, Record>, ids: seq<Id>, session: Option<nat>): set<nat> {
    set i: nat | i < |ids| && ids[i] in Waiting(records, session)
  }

  lemma WaitingAtSnoc(records: map<Id, Record>, ids: seq<Id>, session: Option<nat>)
    requires ids != []
    ensures |WaitingAt(records, ids, session)| ==
            |WaitingAt(records, ids[..|ids| - 1], session)| + if ids[|ids| - 1] in Waiting(records, session) then 1 else 0
  {
    var n := |ids| - 1;
    var before := WaitingAt(records, ids[..n], session);
    assert n !in before;
    assert WaitingAt(records, ids, session) == before + if ids[n] in Waiting(records, session) then {n} else {};
  }

  lemma {:induction false} CountIsWaiting(records: map<Id, Record>, ids: seq<Id>, session: Option<nat>)
    ensures CountHits(records, ids, session) == |WaitingAt(records, ids, session)|
  {
    if ids == [] {
      assert WaitingAt(records, ids, session) == {};
    } else {
      CountIsWaiting(records, ids[..|ids| - 1], session);
      WaitingAtSnoc(records, ids, session);
    }
  }

  /** In a list without repetitions, positions are ids. */
  lemma {:induction false} PositionsAreIds(ids: seq<Id>, positions: set<nat>, chosen: set<Id>)
    requires NoRepeats(ids) && forall i :: i in positions ==> i < |ids|
    requires chosen == set i | i in positions :: ids[i]
    ensures |positions| == |chosen|
    decreases |positions|
  {
    if positions != {} {
      var i :| i in positions;
      PositionsAreIds(ids, positions - {i}, set k | k in positions - {i} :: ids[k]);
      assert chosen == (set k | k in positions - {i} :: ids[k]) + {ids[i]};
    }
  }

  lemma CountNoted(st: State, session: Option<nat>)
    requires Valid(st)
    ensures CountStep(st, session) == |Waiting(st.units, session)|
  {
    ValuesAre(st);
    CountIsHits(st.units, st.order, Values(st), session);
    CountIsWaiting(st.units, st.order, session);
    PositionsAreIds(st.order, WaitingAt(st.units, st.order, session), Waiting(st.units, session));
  }

  lemma StepNoted(st: State, op: Op)
    requires Valid(st) && PayloadsStable(st)
    ensures var (next, out) := Step(st, op);
            && next.units == Noted(st.units, op, out)
            && Answers(st.units, op, out, next.units) && ChoosesOldest(st.units, op, out)
  {
    match op
    case Enqueue(id, ticket, payload, now) => EnqueueNoted(st.units, st.order, id, ticket, payload, now);
    case Dequeue(session, node, now) => DequeueNoted(st, session, node, now);
    case Complete(id, word, result, now) => CompleteNoted(st.units, st.order, id, word, result, now);
    case Restart(id, newId, t1, t2) =>
      if id in st.units { assert Stable(st.units[id].payload); }
      RestartNoted(st.units, st.order, id, newId, t1, t2);
    case Count(session) => CountNoted(st, session);
  }

  /** The records of the in-memory queue after any run are those its history gives, and every answer is what
      the history up to it says: the stored status of a unit is queued after the call that created it,
      assigned after the dequeue that returned it last, the requested word after the completion that took
      effect last, and cancelled after a restart. */
  lemma {:induction false} MemoryFollowsHistory(st: State, ops: seq<Op>)
    requires Valid(st) && PayloadsStable(st)
    ensures var (end, outs) := Run(st, ops);
            |outs| == |ops| && end.units == History(st.units, ops, outs) && AnswersOldest(st.units, ops, outs)
    decreases |ops|
  {
    if ops != [] {
      StepNoted(st, ops[0]);
      StepKeepsPayloads(st, ops[0]);
      var (next, out) := Step(st, ops[0]);
      MemoryFollowsHistory(next, ops[1..]);
      var outs := Run(st, ops).1;
      assert outs == [out] + Run(next, ops[1..]).1;
      assert outs[1..] == Run(next, ops[1..]).1;
    }
  }

  /** A known unit that is open takes the word of a completion, or "failed" for an unknown word, with the result
      and the time; and if that word is final, this is its record after every run that follows. */
  lemma WordIsStored(st: State, w: Id, word: Option<Status>, result: Option<UnitResult>, now: Time, rest: seq<Op>)
    requires Valid(st) && w in st.units && Open(st.units[w].status)
    ensures var next := Step(st, Complete(w, word, result, now)).0;
            && next.units == st.units[w := Ended(st.units[w], word, result, now)]
            && (FreshRun(next, rest) && !(word.Some? && Open(word.value)) ==>
                  w in Run(next, rest).0.units && Run(next, rest).0.units[w] == next.units[w])
  {
    var next := Step(st, Complete(w, word, result, now)).0;
    CompleteNoted(st.units, st.order, w, word, result, now);
    if FreshRun(next, rest) {
      RunPreserves(next, rest);
    }
  }

  // ---- In Redis -----------------------------------------------------------

  /** What a dequeue and a count answer in Redis: the waiting unit whose id comes first in the list, None only
      if no listed unit waits, and how many listed ids wait. */
  ghost predicate ChoosesListed(rs: Store, op: Op, out: Outcome) {
    match op
    case Dequeue(session, _, _) =>
      && out.Unit?
      && (out.unit.None? <==> WaitingAt(rs.records, rs.list, session) == {})
      && (out.unit.Some? ==> exists i :: i in WaitingAt(rs.records, rs.list, session) && rs.list[i] == out.unit.value.id &&
                                         forall k :: k in WaitingAt(rs.records, rs.list, session) ==> i <= k)
    case Count(session) => out == Counted(|WaitingAt(rs.records, rs.list, session)|)
    case _ => true
  }

  /** Every step of the run answers what the history, and the list at that point, say. */
  ghost predicate AnswersListed(rs: Store, ops: seq<Op>)
    decreases |ops|
  {
    ops == [] ||
    var (next, out) := StepStore(rs, ops[0]);
    Answers(rs.records, ops[0], out, next.records) && ChoosesListed(rs, ops[0], out) && AnswersListed(next, ops[1..])
  }

  lemma DequeueStoreNoted(rs: Store, session: Option<nat>, node: Option<nat>, now: Time)
    requires Filed(rs)
    ensures var op := Dequeue(session, node, now);
            var (next, out) := StepStore(rs, op);
            && next.records == Noted(rs.records, op, out)
            && Answers(rs.records, op, out, next.records) && ChoosesListed(rs, op, out)
  {
    var i := FirstHit(rs.records, rs.list, session);
    forall k | 0 <= k < |rs.list|
      ensures Hits(rs.records, rs.list[k], session) <==> k in WaitingAt(rs.records, rs.list, session)
    {
      if rs.list[k] in rs.records { MatchesMeansWaiting(rs.records, session, rs.list[k]); }
    }
  }

  lemma StoreNoted(rs: Store, op: Op)
    requires Filed(rs) && StablePayloads(rs.records)
    ensures var (next, out) := StepStore(rs, op);
            && next.records == Noted(rs.records, op, out)
            && Answers(rs.records, op, out, next.records) && ChoosesListed(rs, op, out)
  {
    match op
    case Enqueue(id, ticket, payload, now) => EnqueueNoted(rs.records, [], id, ticket, payload, now);
    case Dequeue(session, node, now) => DequeueStoreNoted(rs, session, node, now);
    case Complete(id, word, result, now) => CompleteNoted(rs.records, [], id, word, result, now);
    case Restart(id, newId, t1, t2) =>
      if id in rs.records { assert Stable(rs.records[id].payload); }
      RestartNoted(rs.records, [], id, newId, t1, t2);
    case Count(session) => CountIsWaiting(rs.records, rs.list, session);
  }

  lemma NotedStaysSound(rs: Store, op: Op)
    requires Filed(rs) && StablePayloads(rs.records)
    ensures Filed(StepStore(rs, op).0) && StablePayloads(StepStore(rs, op).0.records)
  {
    StoreNoted(rs, op);
    if op.Enqueue? && Sanitized(op.payload, DEFAULT_MAX_PAYLOAD_BYTES).Ok? {
      SanitizedIsStable(op.payload, DEFAULT_MAX_PAYLOAD_BYTES);
    }
    var next := StepStore(rs, op).0.records;
    forall k | k in next
      ensures next[k].id == k && Stable(next[k].payload)
    {
      if k in rs.records { assert Stable(rs.records[k].payload); }
      if op.Restart? && op.id in rs.records { assert Stable(rs.records[op.id].payload); }
    }
  }

  /** The same for the hash of the Redis queue, over every run. */
  lemma {:induction false} RedisFollowsHistory(rs: Store, ops: seq<Op>)
    requires Filed(rs) && StablePayloads(rs.records)
    ensures var (end, outs) := RunStore(rs, ops);
            |outs| == |ops| && end.records == History(rs.records, ops, outs) && AnswersListed(rs, ops)
    decreases |ops|
  {
    if ops != [] {
      StoreNoted(rs, ops[0]);
      NotedStaysSound(rs, ops[0]);
      var (next, out) := StepStore(rs, ops[0]);
      RedisFollowsHistory(next, ops[1..]);
      var outs := RunStore(rs, ops).1;
      assert outs == [out] + RunStore(next, ops[1..]).1;
      assert outs[1..] == RunStore(next, ops[1..]).1;
    }
  }
}
