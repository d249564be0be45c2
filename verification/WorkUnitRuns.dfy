// What holds over whole runs of the in-memory queue of packages/compute/work_unit.py.
module WorkUnitRuns {
  import opened Wrappers
  import opened WorkerPolicy
  import opened WorkUnits

  /** One call, with the ids and clock readings the environment supplies. */
  datatype Op =
    | Enqueue(id: Id, ticket: Ticket, payload: Option<Payload>, now: Time)
    | Dequeue(session: Option<nat>, node: Option<nat>, now: Time)
    | Complete(id: Id, requested: Option<Status>, result: Option<UnitResult>, now: Time)
    | Restart(id: Id, newId: Id, t1: Time, t2: Time)
    | Count(session: Option<nat>)

  lemma PutStaysValid(st: State, rec: Record)
    requires Valid(st)
    ensures Valid(Put(st, rec))
  {
  }

  lemma EnqueueStaysValid(st: State, id: Id, ticket: Ticket, payload: Option<Payload>, now: Time)
    requires Valid(st)
    ensures Valid(EnqueueStep(st, id, ticket, payload, now).0)
  {
    var safe := Sanitized(payload, DEFAULT_MAX_PAYLOAD_BYTES);
    if safe.Ok? { PutStaysValid(st, NewRecord(id, ticket, safe.value, now)); }
  }

  lemma DequeueStaysValid(st: State, session: Option<nat>, node: Option<nat>, now: Time)
    requires Valid(st)
    ensures Valid(DequeueStep(st, session, node, now).0)
  {
    var s := SortedByCreation(Values(st));
    var i := FirstMatch(s, session);
    if i < |s| { PutStaysValid(st, AssignedTo(s[i], node, now)); }
  }

  lemma CompleteStaysValid(st: State, id: Id, requested: Option<Status>, result: Option<UnitResult>, now: Time)
    requires Valid(st)
    ensures Valid(CompleteStep(st, id, requested, result, now).0)
  {
    if id in st.units { PutStaysValid(st, Completed(st.units[id], requested, result, now)); }
  }

  lemma RestartStaysValid(st: State, id: Id, newId: Id, t1: Time, t2: Time)
    requires Valid(st)
    ensures Valid(RestartStep(st, id, newId, t1, t2).0)
  {
    if id in st.units {
      var rec := st.units[id];
      CompleteStaysValid(st, id, Some(Cancelled), None, t1);
      EnqueueStaysValid(CompleteStep(st, id, Some(Cancelled), None, t1).0, newId, rec.ticket, Some(rec.payload), t2);
    }
  }

  function Step(st: State, op: Op): (r: (State, Outcome))
    requires Valid(st)
    ensures Valid(r.0)
  {
    match op
    case Enqueue(id, ticket, payload, now) =>
      EnqueueStaysValid(st, id, ticket, payload, now);
      EnqueueStep(st, id, ticket, payload, now)
    case Dequeue(session, node, now) =>
      DequeueStaysValid(st, session, node, now);
      DequeueStep(st, session, node, now)
    case Complete(id, requested, result, now) =>
      CompleteStaysValid(st, id, requested, result, now);
      CompleteStep(st, id, requested, result, now)
    case Restart(id, newId, t1, t2) =>
      RestartStaysValid(st, id, newId, t1, t2);
      RestartStep(st, id, newId, t1, t2)
    case Count(session) => (st, Counted(CountStep(st, session)))
  }

  /** `uuid4` never returns an id that is in use. */
  predicate Fresh(st: State, op: Op) {
    match op
    case Enqueue(id, _, _, _) => id !in st.units
    case Restart(_, newId, _, _) => newId !in st.units
    case _ => true
  }

  ghost predicate FreshRun(st: State, ops: seq<Op>)
    requires Valid(st)
    decreases |ops|
  {
    ops == [] || (Fresh(st, ops[0]) && FreshRun(Step(st, ops[0]).0, ops[1..]))
  }

  /** No call asks `complete` for the word "queued". */
  predicate NeverRequeues(ops: seq<Op>) {
    forall op :: op in ops && op.Complete? ==> op.requested != Some(Queued)
  }

  function Run(st: State, ops: seq<Op>): (r: (State, seq<Outcome>))
    requires Valid(st)
    ensures Valid(r.0)
    decreases |ops|
  {
    if ops == [] then (st, [])
    else
      var (next, out) := Step(st, ops[0]);
      var (end, outs) := Run(next, ops[1..]);
      (end, [out] + outs)
  }

  // ---- Sorting ------------------------------------------------------------

  lemma {:induction false} InsertMultiset(s: seq<Record>, rec: Record)
    ensures multiset(InsertByCreation(s, rec)) == multiset(s) + multiset{rec}
  {
    if s == [] || s[|s| - 1].createdAt <= rec.createdAt {
    } else {
      InsertMultiset(s[..|s| - 1], rec);
      assert s == s[..|s| - 1] + [s[|s| - 1]];
    }
  }

  lemma {:induction false} SortedMultiset(s: seq<Record>)
    ensures multiset(SortedByCreation(s)) == multiset(s)
  {
    if s != [] {
      SortedMultiset(s[..|s| - 1]);
      InsertMultiset(SortedByCreation(s[..|s| - 1]), s[|s| - 1]);
      assert s == s[..|s| - 1] + [s[|s| - 1]];
    }
  }

  lemma SortedMember(st: State, rec: Record)
    requires Valid(st)
    ensures rec in SortedByCreation(Values(st)) <==> rec.id in st.units && st.units[rec.id] == rec
  {
    var s := Values(st);
    SortedMultiset(s);
    assert rec in SortedByCreation(s) <==> rec in multiset(SortedByCreation(s));
    assert rec in s <==> rec in multiset(s);
    if rec in s {
      var i :| 0 <= i < |s| && s[i] == rec;
      assert st.order[i] in st.order;
    }
    if rec.id in st.units && st.units[rec.id] == rec {
      var i :| 0 <= i < |st.order| && st.order[i] == rec.id;
      assert s[i] == rec;
    }
  }

  /** What a dequeue can return: None exactly when nothing matches, otherwise a stored match. */
  lemma DequeueFinds(st: State, session: Option<nat>, node: Option<nat>, now: Time)
    requires Valid(st)
    ensures var (st', out) := DequeueStep(st, session, node, now);
            && out.Unit?
            && (out.unit.None? <==> forall k :: k in st.units ==> !Matches(st.units[k], session))
            && (out.unit.None? ==> st' == st)
            && (out.unit.Some? ==>
                  var w := out.unit.value.id;
                  && w in st.units && Matches(st.units[w], session)
                  && out.unit.value == AssignedTo(st.units[w], node, now)
                  && st' == State(st.order, st.units[w := out.unit.value]))
  {
    var s := SortedByCreation(Values(st));
    var i := FirstMatch(s, session);
    if i == |s| {
      forall k | k in st.units
        ensures !Matches(st.units[k], session)
      {
        SortedMember(st, st.units[k]);
      }
    } else {
      SortedMember(st, s[i]);
    }
  }

  // ---- Oldest first -------------------------------------------------------

  /** Position of a key in the dict. */
  ghost function Rank(order: seq<Id>, k: Id): (i: nat)
    requires k in order
    ensures i < |order| && order[i] == k
  {
    if order[0] == k then 0 else 1 + Rank(order[1..], k)
  }

  /** `a` was created before `b`, or at the same instant and stored first. */
  ghost predicate Older(st: State, a: Record, b: Record)
    requires a.id in st.order && b.id in st.order
  {
    a.createdAt < b.createdAt || (a.createdAt == b.createdAt && Rank(st.order, a.id) <= Rank(st.order, b.id))
  }

  ghost predicate AllStored(st: State, s: seq<Record>) {
    forall i :: 0 <= i < |s| ==> s[i].id in st.order
  }

  ghost predicate OlderFirst(st: State, s: seq<Record>)
    requires AllStored(st, s)
  {
    forall i, j :: 0 <= i < j < |s| ==> Older(st, s[i], s[j])
  }

  lemma {:induction false} InsertKeepsOrder(st: State, s: seq<Record>, rec: Record)
    requires AllStored(st, s) && OlderFirst(st, s) && rec.id in st.order
    requires forall x :: x in s ==> Rank(st.order, x.id) <= Rank(st.order, rec.id)
    ensures AllStored(st, InsertByCreation(s, rec)) && OlderFirst(st, InsertByCreation(s, rec))
    ensures forall x :: x in InsertByCreation(s, rec) ==> x in s || x == rec
  {
    if s == [] || s[|s| - 1].createdAt <= rec.createdAt {
      forall i | 0 <= i < |s|
        ensures Older(st, s[i], rec)
      {
        if i < |s| - 1 { assert Older(st, s[i], s[|s| - 1]); }
      }
    } else {
      var init, last := s[..|s| - 1], s[|s| - 1];
      InsertKeepsOrder(st, init, rec);
      var r := InsertByCreation(init, rec);
      forall i | 0 <= i < |r|
        ensures r[i].id in st.order && Older(st, r[i], last)
      {
        if r[i] in init {
          var k :| 0 <= k < |init| && init[k] == r[i];
          assert Older(st, s[k], s[|s| - 1]);
        }
      }
    }
  }

  lemma {:induction false} SortKeepsOrder(st: State, n: nat)
    requires Valid(st) && n <= |st.order|
    ensures var s := SortedByCreation(Values(st)[..n]);
            && AllStored(st, s) && OlderFirst(st, s)
            && forall x :: x in s ==> Rank(st.order, x.id) < n
  {
    if n > 0 {
      var v := Values(st);
      SortKeepsOrder(st, n - 1);
      assert v[..n][..n - 1] == v[..n - 1];
      assert v[n - 1].id == st.order[n - 1];
      RankIs(st.order, n - 1);
      InsertKeepsOrder(st, SortedByCreation(v[..n - 1]), v[n - 1]);
    }
  }

  lemma {:induction false} RankIs(order: seq<Id>, i: nat)
    requires i < |order| && forall a, b :: 0 <= a < b < |order| ==> order[a] != order[b]
    ensures Rank(order, order[i]) == i
  {
    if i > 0 {
      assert order[0] != order[i];
      RankIs(order[1..], i - 1);
    }
  }

  lemma AllSorted(st: State)
    requires Valid(st)
    ensures AllStored(st, SortedByCreation(Values(st))) && OlderFirst(st, SortedByCreation(Values(st)))
  {
    assert Values(st)[..|st.order|] == Values(st);
    SortKeepsOrder(st, |st.order|);
  }

  /** Each dequeue takes the oldest queued unit that matches, whatever the clock did. */
  lemma DequeueTakesOldest(st: State, session: Option<nat>, node: Option<nat>, now: Time, k: Id)
    requires Valid(st) && k in st.units && Matches(st.units[k], session)
    ensures var out := DequeueStep(st, session, node, now).1;
            && out.Unit? && out.unit.Some? && out.unit.value.id in st.order
            && Older(st, out.unit.value, st.units[k])
  {
    var s := SortedByCreation(Values(st));
    AllSorted(st);
    SortedMember(st, st.units[k]);
    var i := FirstMatch(s, session);
    var j :| 0 <= j < |s| && s[j] == st.units[k];
    assert i <= j;
    if i < j { assert Older(st, s[i], s[j]); }
    SortedMember(st, s[i]);
  }

  // ---- What a step leaves alone -------------------------------------------

  /** A stored unit keeps its ticket, payload and creation time, and once terminal it keeps everything. */
  ghost predicate Preserved(a: State, b: State) {
    forall k :: k in a.units ==>
      && k in b.units
      && b.units[k].ticket == a.units[k].ticket && b.units[k].payload == a.units[k].payload
      && b.units[k].createdAt == a.units[k].createdAt && b.units[k].id == a.units[k].id
      && (Terminal(a.units[k].status) ==> b.units[k] == a.units[k])
  }

  lemma EnqueuePreserves(st: State, id: Id, ticket: Ticket, payload: Option<Payload>, now: Time)
    requires Valid(st) && id !in st.units
    ensures Preserved(st, EnqueueStep(st, id, ticket, payload, now).0)
  {
  }

  lemma DequeuePreserves(st: State, session: Option<nat>, node: Option<nat>, now: Time)
    requires Valid(st)
    ensures Preserved(st, DequeueStep(st, session, node, now).0)
  {
    DequeueFinds(st, session, node, now);
  }

  lemma CompletePreserves(st: State, id: Id, requested: Option<Status>, result: Option<UnitResult>, now: Time)
    requires Valid(st)
    ensures Preserved(st, CompleteStep(st, id, requested, result, now).0)
  {
  }

  lemma StepPreserves(st: State, op: Op)
    requires Valid(st) && Fresh(st, op)
    ensures Preserved(st, Step(st, op).0)
  {
    match op
    case Enqueue(id, ticket, payload, now) => EnqueuePreserves(st, id, ticket, payload, now);
    case Dequeue(session, node, now) => DequeuePreserves(st, session, node, now);
    case Complete(id, requested, result, now) => CompletePreserves(st, id, requested, result, now);
    case Restart(id, newId, t1, t2) =>
      CompletePreserves(st, id, Some(Cancelled), None, t1);
      if id in st.units {
        var rec := st.units[id];
        EnqueuePreserves(CompleteStep(st, id, Some(Cancelled), None, t1).0, newId, rec.ticket, Some(rec.payload), t2);
      }
    case Count(_) =>
  }

  /** In every run, terminal records never change, and ticket, payload and creation time never do. */
  lemma {:induction false} RunPreserves(st: State, ops: seq<Op>)
    requires Valid(st) && FreshRun(st, ops)
    ensures Preserved(st, Run(st, ops).0)
    decreases |ops|
  {
    if ops != [] {
      StepPreserves(st, ops[0]);
      RunPreserves(Step(st, ops[0]).0, ops[1..]);
    }
  }

  // ---- At most once -------------------------------------------------------

  /** How many dequeues of the run return unit `w`. */
  ghost function HandedOut(st: State, ops: seq<Op>, w: Id): nat
    requires Valid(st)
    decreases |ops|
  {
    if ops == [] then 0
    else
      var (next, out) := Step(st, ops[0]);
      HandedOut(next, ops[1..], w) +
      if ops[0].Dequeue? && out.Unit? && out.unit.Some? && out.unit.value.id == w then 1 else 0
  }

  predicate LeftQueue(st: State, w: Id) {
    w in st.units && !st.units[w].status.Queued?
  }

  /** The call puts a unit that had left the queue back into it: the word "queued" for a live unit. */
  predicate Revives(st: State, op: Op, w: Id) {
    op.Complete? && op.id == w && op.requested == Some(Queued) && LeftQueue(st, w) && !Terminal(st.units[w].status)
  }

  /** No call of the run revives a unit.  Asking for "queued" is harmless for a unit that is unknown,
      terminal or still queued. */
  ghost predicate NothingRevived(st: State, ops: seq<Op>)
    requires Valid(st)
    decreases |ops|
  {
    ops == [] || ((ops[0].Complete? ==> !Revives(st, ops[0], ops[0].id)) && NothingRevived(Step(st, ops[0]).0, ops[1..]))
  }

  /** How many calls of the run revive unit `w`. */
  ghost function Revivals(st: State, ops: seq<Op>, w: Id): nat
    requires Valid(st)
    decreases |ops|
  {
    if ops == [] then 0 else Revivals(Step(st, ops[0]).0, ops[1..], w) + if Revives(st, ops[0], w) then 1 else 0
  }

  lemma StepLeavesQueue(st: State, op: Op, w: Id)
    requires Valid(st) && Fresh(st, op)
    ensures var (next, out) := Step(st, op);
            && (LeftQueue(st, w) && !Revives(st, op, w) ==> LeftQueue(next, w))
            && (op.Dequeue? && out.Unit? && out.unit.Some? && out.unit.value.id == w ==> !LeftQueue(st, w) && LeftQueue(next, w))
  {
    if op.Dequeue? {
      DequeueFinds(st, op.session, op.node, op.now);
    }
  }

  /** In every run a unit is handed out once at most, plus once for every time it is revived, and after
      it has left the queue not at all unless it is revived. */
  lemma {:induction false} HandedOutAtMostOnce(st: State, ops: seq<Op>, w: Id)
    requires Valid(st) && FreshRun(st, ops)
    ensures HandedOut(st, ops, w) <= Revivals(st, ops, w) + if LeftQueue(st, w) then 0 else 1
    decreases |ops|
  {
    if ops != [] {
      StepLeavesQueue(st, ops[0], w);
      HandedOutAtMostOnce(Step(st, ops[0]).0, ops[1..], w);
    }
  }

  lemma {:induction false} NeverRequeuesNeverRevives(st: State, ops: seq<Op>, w: Id)
    requires Valid(st) && NeverRequeues(ops)
    ensures Revivals(st, ops, w) == 0
    decreases |ops|
  {
    if ops != [] {
      assert ops[0] in ops;
      NeverRequeuesNeverRevives(Step(st, ops[0]).0, ops[1..], w);
    }
  }

  // ---- Exactly which calls allow a second hand-out ------------------------

  ghost function QueuedUnits(st: State): set<Id> {
    set k | k in st.units && st.units[k].status.Queued?
  }

  /** An unfiltered dequeue takes one queued unit out of the queue. */
  lemma DequeueShrinks(st: State) returns (y: Id)
    requires Valid(st) && QueuedUnits(st) != {}
    ensures var (next, out) := DequeueStep(st, None, None, 0);
            && out.Unit? && out.unit.Some? && out.unit.value.id == y
            && y in QueuedUnits(st) && QueuedUnits(next) == QueuedUnits(st) - {y}
  {
    DequeueFinds(st, None, None, 0);
    var w :| w in QueuedUnits(st);
    assert Matches(st.units[w], None);
    y := DequeueStep(st, None, None, 0).1.unit.value.id;
  }

  /** Unfiltered dequeues hand out every queued unit sooner or later. */
  lemma Drains(st: State, w: Id) returns (ops: seq<Op>)
    requires Valid(st) && w in QueuedUnits(st)
    ensures FreshRun(st, ops) && NeverRequeues(ops) && HandedOut(st, ops, w) > 0
    decreases |QueuedUnits(st)|
  {
    var op := Dequeue(None, None, 0);
    var next := Step(st, op).0;
    var y := DequeueShrinks(st);
    var rest := [];
    if y != w {
      rest := Drains(next, w);
    } else {
      assert FreshRun(next, rest);
    }
    ops := [op] + rest;
    assert ops[1..] == rest;
  }

  /** A unit that has left the queue can be handed out after a `complete`, with no further revival,
      exactly when the call asks for "queued" and the unit is not terminal. */
  lemma HandedOutAgainIff(st: State, w: Id, requested: Option<Status>, result: Option<UnitResult>, now: Time)
    requires Valid(st) && LeftQueue(st, w)
    ensures var next := CompleteStep(st, w, requested, result, now).0;
            Valid(next) &&
            ((exists rest :: FreshRun(next, rest) && NeverRequeues(rest) && HandedOut(next, rest, w) > 0) <==>
             requested == Some(Queued) && !Terminal(st.units[w].status))
  {
    var next := Step(st, Complete(w, requested, result, now)).0;
    if requested == Some(Queued) && !Terminal(st.units[w].status) {
      var rest := Drains(next, w);
    } else {
      forall rest | FreshRun(next, rest) && NeverRequeues(rest)
        ensures HandedOut(next, rest, w) == 0
      {
        HandedOutAtMostOnce(next, rest, w);
        NeverRequeuesNeverRevives(next, rest, w);
      }
    }
  }

  // ---- Live units ---------------------------------------------------------

  ghost function Live(st: State): set<Id> {
    set k | k in st.units && !Terminal(st.units[k].status)
  }

  lemma LivePut(st: State, rec: Record)
    ensures Live(Put(st, rec)) == Live(st) - {rec.id} + if Terminal(rec.status) then {} else {rec.id}
  {
  }

  lemma LiveAfterComplete(st: State, id: Id, requested: Option<Status>, result: Option<UnitResult>, now: Time)
    requires Valid(st)
    ensures Live(CompleteStep(st, id, requested, result, now).0) ==
            Live(st) - if requested.None? || Terminal(requested.value) then {id} else {}
  {
    if id in st.units && !Terminal(st.units[id].status) {
      LivePut(st, Completed(st.units[id], requested, result, now));
    }
  }

  lemma LiveAfterEnqueue(st: State, id: Id, ticket: Ticket, payload: Option<Payload>, now: Time)
    requires id !in st.units
    ensures var (next, out) := EnqueueStep(st, id, ticket, payload, now);
            Live(next) == Live(st) + if out.Unit? then {id} else {}
  {
    var safe := Sanitized(payload, DEFAULT_MAX_PAYLOAD_BYTES);
    if safe.Ok? {
      LivePut(st, NewRecord(id, ticket, safe.value, now));
    }
  }

  lemma LiveAfterRestart(st: State, id: Id, newId: Id, t1: Time, t2: Time)
    requires Valid(st) && newId !in st.units
    ensures var (next, out) := RestartStep(st, id, newId, t1, t2);
            Live(next) == if id in Live(st) then Live(st) - {id} + (if out.Unit? then {newId} else {}) else Live(st)
  {
    if id in Live(st) {
      var rec := st.units[id];
      LiveAfterComplete(st, id, Some(Cancelled), None, t1);
      LiveAfterEnqueue(CompleteStep(st, id, Some(Cancelled), None, t1).0, newId, rec.ticket, Some(rec.payload), t2);
    }
  }

  /** Which units are live after a step: an enqueue adds one, completing a live unit with a terminal
      or unknown status removes it, a restart swaps the old one for the new one. */
  lemma LiveAfter(st: State, op: Op)
    requires Valid(st) && Fresh(st, op)
    ensures var (next, out) := Step(st, op);
            match op
            case Enqueue(id, _, _, _) => Live(next) == Live(st) + if out.Unit? then {id} else {}
            case Complete(id, requested, _, _) =>
              Live(next) == Live(st) - if requested.None? || Terminal(requested.value) then {id} else {}
            case Restart(id, newId, _, _) =>
              Live(next) == if id in Live(st) then Live(st) - {id} + (if out.Unit? then {newId} else {}) else Live(st)
            case _ => Live(next) == Live(st)
  {
    match op
    case Enqueue(id, ticket, payload, now) => LiveAfterEnqueue(st, id, ticket, payload, now);
    case Dequeue(session, node, now) =>
      DequeueFinds(st, session, node, now);
      var out := DequeueStep(st, session, node, now).1;
      if out.unit.Some? { LivePut(st, out.unit.value); }
    case Complete(id, requested, result, now) => LiveAfterComplete(st, id, requested, result, now);
    case Restart(id, newId, t1, t2) => LiveAfterRestart(st, id, newId, t1, t2);
    case Count(_) =>
  }

  // ---- Restart never refuses ----------------------------------------------

  ghost predicate Stable(payload: Payload) {
    Sanitized(Some(payload), DEFAULT_MAX_PAYLOAD_BYTES) == Ok(payload)
  }

  /** Every stored payload is what sanitising it again would give. */
  ghost predicate PayloadsStable(st: State) {
    forall k {:trigger Stable(st.units[k].payload)} :: k in st.units ==> Stable(st.units[k].payload)
  }

  lemma PutKeepsPayloads(st: State, rec: Record)
    requires PayloadsStable(st) && Stable(rec.payload)
    ensures PayloadsStable(Put(st, rec))
  {
    var next := Put(st, rec);
    forall k | k in next.units
      ensures Stable(next.units[k].payload)
    {
      if k != rec.id { assert Stable(st.units[k].payload); }
    }
  }

  lemma EnqueueKeepsPayloads(st: State, id: Id, ticket: Ticket, payload: Option<Payload>, now: Time)
    requires PayloadsStable(st)
    ensures PayloadsStable(EnqueueStep(st, id, ticket, payload, now).0)
  {
    var safe := Sanitized(payload, DEFAULT_MAX_PAYLOAD_BYTES);
    if safe.Ok? {
      SanitizedIsStable(payload, DEFAULT_MAX_PAYLOAD_BYTES);
      PutKeepsPayloads(st, NewRecord(id, ticket, safe.value, now));
    }
  }

  lemma CompleteKeepsPayloads(st: State, id: Id, requested: Option<Status>, result: Option<UnitResult>, now: Time)
    requires PayloadsStable(st)
    ensures PayloadsStable(CompleteStep(st, id, requested, result, now).0)
  {
    if id in st.units {
      assert Stable(st.units[id].payload);
      PutKeepsPayloads(st, Completed(st.units[id], requested, result, now));
    }
  }

  lemma DequeueKeepsPayloads(st: State, session: Option<nat>, node: Option<nat>, now: Time)
    requires Valid(st) && PayloadsStable(st)
    ensures PayloadsStable(DequeueStep(st, session, node, now).0)
  {
    DequeueFinds(st, session, node, now);
    var out := DequeueStep(st, session, node, now).1;
    if out.unit.Some? {
      assert Stable(st.units[out.unit.value.id].payload);
      PutKeepsPayloads(st, out.unit.value);
    }
  }

  lemma StepKeepsPayloads(st: State, op: Op)
    requires Valid(st) && PayloadsStable(st)
    ensures PayloadsStable(Step(st, op).0)
  {
    match op
    case Enqueue(id, ticket, payload, now) => EnqueueKeepsPayloads(st, id, ticket, payload, now);
    case Dequeue(session, node, now) => DequeueKeepsPayloads(st, session, node, now);
    case Complete(id, requested, result, now) => CompleteKeepsPayloads(st, id, requested, result, now);
    case Restart(id, newId, t1, t2) =>
      CompleteKeepsPayloads(st, id, Some(Cancelled), None, t1);
      if id in st.units {
        var rec := st.units[id];
        EnqueueKeepsPayloads(CompleteStep(st, id, Some(Cancelled), None, t1).0, newId, rec.ticket, Some(rec.payload), t2);
      }
    case Count(_) =>
  }

  lemma {:induction false} RunKeepsPayloads(st: State, ops: seq<Op>)
    requires Valid(st) && PayloadsStable(st)
    ensures PayloadsStable(Run(st, ops).0)
    decreases |ops|
  {
    if ops != [] {
      StepKeepsPayloads(st, ops[0]);
      RunKeepsPayloads(Step(st, ops[0]).0, ops[1..]);
    }
  }

  /** After any run from the empty queue, restarting a live unit never raises: it cancels the unit
      and queues a replacement with the same ticket and the same payload. */
  lemma RestartReplaces(ops: seq<Op>, id: Id, newId: Id, t1: Time, t2: Time)
    requires var st := Run(EMPTY, ops).0;
             id in st.units && !Terminal(st.units[id].status) && newId !in st.units
    ensures var st := Run(EMPTY, ops).0;
            var (next, out) := RestartStep(st, id, newId, t1, t2);
            && out == Unit(Some(NewRecord(newId, st.units[id].ticket, st.units[id].payload, t2)))
            && next.units == st.units[id := Completed(st.units[id], Some(Cancelled), None, t1)][newId := out.unit.value]
            && next.order == st.order + [newId]
  {
    RunKeepsPayloads(EMPTY, ops);
    assert Stable(Run(EMPTY, ops).0.units[id].payload);
  }

  ghost predicate OnlyQueued(st: State, w: Id) {
    forall k :: k in st.units ==> (Matches(st.units[k], None) <==> k == w)
  }

  lemma HandsOut(st: State, w: Id, now: Time, rest: seq<Op>)
    requires Valid(st) && w in st.units && OnlyQueued(st, w)
    ensures var next := DequeueStep(st, None, None, now).0;
            && w in next.units && next.units[w].status.Assigned?
            && (forall k :: k in next.units ==> !Matches(next.units[k], None))
            && HandedOut(st, [Dequeue(None, None, now)] + rest, w) == HandedOut(next, rest, w) + 1
  {
    DequeueFinds(st, None, None, now);
    assert Matches(st.units[w], None);
    assert ([Dequeue(None, None, now)] + rest)[1..] == rest;
  }

  lemma RevivesOnly(st: State, w: Id, now: Time, rest: seq<Op>)
    requires Valid(st) && w in st.units && st.units[w].status.Assigned?
    requires forall k :: k in st.units ==> !Matches(st.units[k], None)
    ensures var next := CompleteStep(st, w, Some(Queued), None, now).0;
            && w in next.units && OnlyQueued(next, w)
            && HandedOut(st, [Complete(w, Some(Queued), None, now)] + rest, w) == HandedOut(next, rest, w)
  {
    assert ([Complete(w, Some(Queued), None, now)] + rest)[1..] == rest;
  }

  /** Completing a unit as "queued" revives it: the same unit is then handed out twice. */
  lemma RequeuedUnitIsHandedOutTwice(st: State, w: Id, t1: Time, t2: Time, t3: Time)
    requires Valid(st) && w in st.units && OnlyQueued(st, w)
    ensures HandedOut(st, [Dequeue(None, None, t1)] + ([Complete(w, Some(Queued), None, t2)] + ([Dequeue(None, None, t3)] + [])), w) == 2
  {
    var s1 := DequeueStep(st, None, None, t1).0;
    HandsOut(st, w, t1, [Complete(w, Some(Queued), None, t2)] + ([Dequeue(None, None, t3)] + []));
    RevivesOnly(s1, w, t2, [Dequeue(None, None, t3)] + []);
    HandsOut(CompleteStep(s1, w, Some(Queued), None, t2).0, w, t3, []);
  }
}
