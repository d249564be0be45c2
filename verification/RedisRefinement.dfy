// When the Redis queue behaves like the in-memory queue, over whole runs.
module RedisRefinement {
  import opened Wrappers
  import opened WorkerPolicy
  import opened WorkUnits
  import opened WorkUnitRuns
  import opened RedisQueue

  predicate NoRepeats(ids: seq<Id>) {
    forall i, j :: 0 <= i < j < |ids| ==> ids[i] != ids[j]
  }

  function Without(ids: seq<Id>, y: Id): seq<Id> {
    if ids == [] then []
    else if ids[|ids| - 1] == y then Without(ids[..|ids| - 1], y)
    else Without(ids[..|ids| - 1], y) + [ids[|ids| - 1]]
  }

  // ---- Filtering ----------------------------------------------------------

  lemma {:induction false} NonStaleConcat(records: map<Id, Record>, a: seq<Id>, b: seq<Id>)
    ensures NonStale(records, a + b) == NonStale(records, a) + NonStale(records, b)
  {
    if b == [] {
      assert a + b == a;
    } else {
      NonStaleConcat(records, a, b[..|b| - 1]);
      assert (a + b)[..|a + b| - 1] == a + b[..|b| - 1];
    }
  }

  lemma {:induction false} NonStaleMember(records: map<Id, Record>, ids: seq<Id>, x: Id)
    ensures x in NonStale(records, ids) <==> x in ids && !Stale(records, x)
  {
    if ids != [] {
      NonStaleMember(records, ids[..|ids| - 1], x);
      assert ids == ids[..|ids| - 1] + [ids[|ids| - 1]];
    }
  }

  lemma NonStaleSnoc(records: map<Id, Record>, ids: seq<Id>, x: Id)
    ensures NonStale(records, ids + [x]) == if Stale(records, x) then NonStale(records, ids) else NonStale(records, ids) + [x]
  {
    assert (ids + [x])[..|ids|] == ids;
  }

  lemma {:induction false} NonStaleIdempotent(records: map<Id, Record>, ids: seq<Id>)
    ensures NonStale(records, NonStale(records, ids)) == NonStale(records, ids)
  {
    if ids != [] {
      NonStaleIdempotent(records, ids[..|ids| - 1]);
      NonStaleSnoc(records, NonStale(records, ids[..|ids| - 1]), ids[|ids| - 1]);
    }
  }

  /** The queued ids around a queued id. */
  lemma NonStaleSplit(records: map<Id, Record>, ids: seq<Id>, i: nat)
    requires i < |ids| && !Stale(records, ids[i])
    ensures NonStale(records, ids) == NonStale(records, ids[..i]) + [ids[i]] + NonStale(records, ids[i + 1..])
  {
    var front, r := ids[..i] + [ids[i]], ids[i + 1..];
    NonStaleConcat(records, front, r);
    NonStaleSnoc(records, ids[..i], ids[i]);
    assert front + r == ids;
  }

  lemma WithoutSnoc(ids: seq<Id>, x: Id, y: Id)
    ensures Without(ids + [x], y) == if x == y then Without(ids, y) else Without(ids, y) + [x]
  {
    assert (ids + [x])[..|ids|] == ids;
  }

  lemma {:induction false} WithoutConcat(a: seq<Id>, b: seq<Id>, y: Id)
    ensures Without(a + b, y) == Without(a, y) + Without(b, y)
  {
    if b == [] {
      assert a + b == a;
    } else {
      WithoutConcat(a, b[..|b| - 1], y);
      assert (a + b)[..|a + b| - 1] == a + b[..|b| - 1];
    }
  }

  lemma {:induction false} WithoutAbsent(ids: seq<Id>, y: Id)
    requires y !in ids
    ensures Without(ids, y) == ids
  {
    if ids != [] {
      WithoutAbsent(ids[..|ids| - 1], y);
    }
  }

  /** A record that leaves the queue takes its id, and nothing else, out of the queued ids. */
  lemma {:induction false} NonStaleUpdate(records: map<Id, Record>, ids: seq<Id>, y: Id, rec: Record)
    requires !rec.status.Queued?
    ensures NonStale(records[y := rec], ids) == Without(NonStale(records, ids), y)
  {
    if ids != [] {
      var init, last := ids[..|ids| - 1], ids[|ids| - 1];
      NonStaleUpdate(records, init, y, rec);
      if !Stale(records, last) {
        WithoutSnoc(NonStale(records, init), last, y);
      }
    }
  }

  lemma {:induction false} NonStaleFresh(records: map<Id, Record>, ids: seq<Id>, id: Id, rec: Record)
    requires id !in ids
    ensures NonStale(records[id := rec], ids) == NonStale(records, ids)
  {
    if ids != [] {
      NonStaleFresh(records, ids[..|ids| - 1], id, rec);
    }
  }

  lemma NoHitInNonStale(records: map<Id, Record>, ids: seq<Id>, session: Option<nat>)
    requires FirstHit(records, ids, session) == |ids|
    ensures FirstHit(records, NonStale(records, ids), session) == |NonStale(records, ids)|
  {
    var q := NonStale(records, ids);
    var k := FirstHit(records, q, session);
    if k < |q| {
      NonStaleMember(records, ids, q[k]);
    }
  }

  lemma {:induction false} FirstHitInFront(records: map<Id, Record>, a: seq<Id>, x: Id, b: seq<Id>, session: Option<nat>)
    requires FirstHit(records, a, session) == |a| && Hits(records, x, session)
    ensures FirstHit(records, a + [x] + b, session) == |a|
  {
    var s := a + [x] + b;
    var i := FirstHit(records, s, session);
    assert s[|a|] == x;
    assert forall k :: 0 <= k < |a| ==> s[k] == a[k];
  }

  /** The first hit depends only on the queued ids. */
  lemma HitInNonStale(records: map<Id, Record>, ids: seq<Id>, session: Option<nat>)
    ensures var i, k := FirstHit(records, ids, session), FirstHit(records, NonStale(records, ids), session);
            && (i == |ids| <==> k == |NonStale(records, ids)|)
            && (i < |ids| ==> k < |NonStale(records, ids)| && NonStale(records, ids)[k] == ids[i])
            && (i < |ids| ==> k == |NonStale(records, ids[..i])|)
  {
    var i := FirstHit(records, ids, session);
    if i < |ids| {
      NonStaleSplit(records, ids, i);
      var p := ids[..i];
      assert FirstHit(records, p, session) == |p| by {
        assert forall k :: 0 <= k < |p| ==> p[k] == ids[k];
      }
      NoHitInNonStale(records, p, session);
      FirstHitInFront(records, NonStale(records, p), ids[i], NonStale(records, ids[i + 1..]), session);
    } else {
      NoHitInNonStale(records, ids, session);
    }
  }

  lemma CountSnoc(records: map<Id, Record>, ids: seq<Id>, x: Id, session: Option<nat>)
    ensures CountHits(records, ids + [x], session) == CountHits(records, ids, session) + if Hits(records, x, session) then 1 else 0
  {
    assert (ids + [x])[..|ids|] == ids;
  }

  lemma {:induction false} CountInNonStale(records: map<Id, Record>, ids: seq<Id>, session: Option<nat>)
    ensures CountHits(records, ids, session) == CountHits(records, NonStale(records, ids), session)
  {
    if ids != [] {
      var init, last := ids[..|ids| - 1], ids[|ids| - 1];
      CountInNonStale(records, init, session);
      CountSnoc(records, NonStale(records, init), last, session);
    }
  }

  // ---- The in-memory side -------------------------------------------------

  lemma {:induction false} MatchIsHit(units: map<Id, Record>, ids: seq<Id>, s: seq<Record>, session: Option<nat>)
    requires |s| == |ids| && forall i :: 0 <= i < |ids| ==> ids[i] in units && units[ids[i]] == s[i]
    ensures FirstMatch(s, session) == FirstHit(units, ids, session)
  {
    if ids != [] {
      MatchIsHit(units, ids[1..], s[1..], session);
    }
  }

  lemma {:induction false} CountIsHits(units: map<Id, Record>, ids: seq<Id>, s: seq<Record>, session: Option<nat>)
    requires |s| == |ids| && forall i :: 0 <= i < |ids| ==> ids[i] in units && units[ids[i]] == s[i]
    ensures CountMatches(s, session) == CountHits(units, ids, session)
  {
    if ids != [] {
      CountIsHits(units, ids[..|ids| - 1], s[..|s| - 1], session);
    }
  }

  lemma ValuesAre(st: State)
    requires Valid(st)
    ensures var s := Values(st);
            |s| == |st.order| && forall i :: 0 <= i < |st.order| ==> st.order[i] in st.units && st.units[st.order[i]] == s[i]
  {
    forall i | 0 <= i < |st.order|
      ensures st.order[i] in st.units
    {
      assert st.order[i] in st.order;
    }
  }

  // ---- One dequeue --------------------------------------------------------

  lemma TakenIsGone(records: map<Id, Record>, ids: seq<Id>, y: Id, rec: Record)
    requires y !in ids && !rec.status.Queued?
    ensures NonStale(records[y := rec], ids) == NonStale(records, ids) == Without(NonStale(records, ids), y)
  {
    NonStaleUpdate(records, ids, y, rec);
    NonStaleMember(records, ids, y);
    WithoutAbsent(NonStale(records, ids), y);
  }

  /** The queued ids after a hit: the ones behind the taken id, then the skipped ones. */
  lemma QueuedAfterHit(records: map<Id, Record>, p: seq<Id>, y: Id, r: seq<Id>, rec: Record)
    requires y !in p && y !in r && !rec.status.Queued?
    ensures NonStale(records[y := rec], r + NonStale(records, p)) == NonStale(records, r) + NonStale(records, p)
  {
    var qp := NonStale(records, p);
    NonStaleMember(records, p, y);
    NonStaleConcat(records[y := rec], r, qp);
    TakenIsGone(records, r, y, rec);
    TakenIsGone(records, qp, y, rec);
    NonStaleIdempotent(records, p);
  }

  /** The queued ids without the taken one: the skipped ones, then the ones behind it. */
  lemma QueuedWithout(records: map<Id, Record>, ids: seq<Id>, i: nat)
    requires NoRepeats(ids) && i < |ids| && !Stale(records, ids[i])
    ensures Without(NonStale(records, ids), ids[i]) == NonStale(records, ids[..i]) + NonStale(records, ids[i + 1..])
  {
    var y, qp, qr := ids[i], NonStale(records, ids[..i]), NonStale(records, ids[i + 1..]);
    assert y !in ids[..i] && y !in ids[i + 1..];
    NonStaleMember(records, ids[..i], y);
    NonStaleMember(records, ids[i + 1..], y);
    NonStaleSplit(records, ids, i);
    WithoutConcat(qp + [y], qr, y);
    WithoutConcat(qp, [y], y);
    assert Without([y], y) == [];
    WithoutAbsent(qp, y);
    WithoutAbsent(qr, y);
  }

  lemma Commutes(a: seq<Id>, b: seq<Id>)
    requires forall x :: x in a ==> x !in b
    ensures a + b == b + a <==> a == [] || b == []
  {
    if a != [] && b != [] {
      assert (a + b)[0] == a[0] && (b + a)[0] == b[0];
      assert a[0] in a && b[0] in b;
    } else {
      assert a + b == b + a;
    }
  }

  lemma QueuedApart(records: map<Id, Record>, ids: seq<Id>, i: nat)
    requires NoRepeats(ids) && i < |ids|
    ensures forall x :: x in NonStale(records, ids[i + 1..]) ==> x !in NonStale(records, ids[..i])
  {
    forall x | x in NonStale(records, ids[i + 1..])
      ensures x !in NonStale(records, ids[..i])
    {
      NonStaleMember(records, ids[i + 1..], x);
      NonStaleMember(records, ids[..i], x);
    }
  }

  /** The queued units keep their order across a hit exactly when the dequeue skipped no queued unit
      or left none behind the one it took. */
  lemma OrderKeptIff(rs: Store, session: Option<nat>, node: Option<nat>, now: Time)
    requires NoRepeats(rs.list) && FirstHit(rs.records, rs.list, session) < |rs.list|
    requires rs.records[rs.list[FirstHit(rs.records, rs.list, session)]].id == rs.list[FirstHit(rs.records, rs.list, session)]
    ensures var i := FirstHit(rs.records, rs.list, session);
            var next := DequeueStore(rs, session, node, now).0;
            NonStale(next.records, next.list) == Without(NonStale(rs.records, rs.list), rs.list[i]) <==>
            NonStale(rs.records, rs.list[..i]) == [] || NonStale(rs.records, rs.list[i + 1..]) == []
  {
    var i := FirstHit(rs.records, rs.list, session);
    QueuedAfterHit(rs.records, rs.list[..i], rs.list[i], rs.list[i + 1..], AssignedTo(rs.records[rs.list[i]], node, now));
    QueuedWithout(rs.records, rs.list, i);
    QueuedApart(rs.records, rs.list, i);
    Commutes(NonStale(rs.records, rs.list[i + 1..]), NonStale(rs.records, rs.list[..i]));
  }

  // ---- Simulation ---------------------------------------------------------

  /** Both queues hold the same records, and the Redis list shows every queued unit once, in the order
      in which memory stored them, possibly mixed with stale ids. */
  ghost predicate Simulates(st: State, rs: Store) {
    && Valid(st)
    && rs.records == st.units
    && NoRepeats(rs.list)
    && (forall x :: x in rs.list ==> x in rs.records)
    && NonStale(rs.records, rs.list) == NonStale(st.units, st.order)
  }

  function StepStore(rs: Store, op: Op): (Store, Outcome) {
    match op
    case Enqueue(id, ticket, payload, now) => EnqueueStore(rs, id, ticket, payload, now)
    case Dequeue(session, node, now) => DequeueStore(rs, session, node, now)
    case Complete(id, requested, result, now) => CompleteStore(rs, id, requested, result, now)
    case Restart(id, newId, t1, t2) => RestartStore(rs, id, newId, t1, t2)
    case Count(session) => (rs, Counted(CountHits(rs.records, rs.list, session)))
  }

  /** What a dequeue for `session` would take, seen from memory: no match, the oldest queued unit, or the
      newest one.  These are the cases in which it skips no queued unit that has another one behind it. */
  ghost predicate KeepsOrder(st: State, session: Option<nat>) {
    var q := NonStale(st.units, st.order);
    var i := FirstHit(st.units, q, session);
    i == 0 || i + 1 >= |q|
  }

  /** Either every queued unit matches or none does. */
  ghost predicate AllOrNone(st: State, session: Option<nat>) {
    || session.None?
    || (forall k :: k in st.units && st.units[k].status.Queued? ==> Matches(st.units[k], session))
    || (forall k :: k in st.units ==> !Matches(st.units[k], session))
  }

  lemma AllOrNoneKeepsOrder(st: State, session: Option<nat>)
    requires AllOrNone(st, session)
    ensures KeepsOrder(st, session)
  {
    var q := NonStale(st.units, st.order);
    if q != [] && FirstHit(st.units, q, session) < |q| {
      NonStaleMember(st.units, st.order, q[0]);
    }
  }

  /** Appending a fresh queued unit on both sides. */
  lemma SimulatesEnqueue(st: State, rs: Store, id: Id, ticket: Ticket, payload: Option<Payload>, now: Time)
    requires Simulates(st, rs) && id !in st.units
    ensures EnqueueStore(rs, id, ticket, payload, now).1 == EnqueueStep(st, id, ticket, payload, now).1
    ensures Simulates(EnqueueStep(st, id, ticket, payload, now).0, EnqueueStore(rs, id, ticket, payload, now).0)
  {
    var safe := Sanitized(payload, DEFAULT_MAX_PAYLOAD_BYTES);
    if safe.Ok? {
      SimulatesAppend(st, rs, NewRecord(id, ticket, safe.value, now));
    }
  }

  lemma QueuedAppend(records: map<Id, Record>, ids: seq<Id>, rec: Record)
    requires rec.id !in ids && rec.status.Queued?
    ensures NonStale(records[rec.id := rec], ids + [rec.id]) == NonStale(records, ids) + [rec.id]
  {
    NonStaleFresh(records, ids, rec.id, rec);
    NonStaleSnoc(records[rec.id := rec], ids, rec.id);
  }

  lemma PutAppends(st: State, rec: Record)
    requires Valid(st) && rec.id !in st.units
    ensures Valid(Put(st, rec)) && Put(st, rec).order == st.order + [rec.id] && Put(st, rec).units == st.units[rec.id := rec]
    ensures rec.id !in st.order
  {
  }

  lemma ListAppend(records: map<Id, Record>, list: seq<Id>, rec: Record)
    requires NoRepeats(list) && rec.id !in list && forall x :: x in list ==> x in records
    ensures NoRepeats(list + [rec.id]) && forall x :: x in list + [rec.id] ==> x in records[rec.id := rec]
  {
  }

  lemma SimulatesAppend(st: State, rs: Store, rec: Record)
    requires Simulates(st, rs) && rec.id !in st.units && rec.status.Queued?
    ensures Simulates(Put(st, rec), Store(rs.list + [rec.id], rs.records[rec.id := rec]))
  {
    PutAppends(st, rec);
    ListAppend(rs.records, rs.list, rec);
    QueuedAppend(rs.records, rs.list, rec);
    QueuedAppend(rs.records, st.order, rec);
  }

  /** Updating a record that leaves the queue, or stays out of it, on both sides. */
  lemma SimulatesUpdate(st: State, rs: Store, list: seq<Id>, rec: Record)
    requires Simulates(st, rs) && rec.id in st.units && !rec.status.Queued?
    requires NoRepeats(list) && forall x :: x in list ==> x in rs.records
    requires NonStale(rs.records[rec.id := rec], list) == Without(NonStale(rs.records, rs.list), rec.id)
    ensures Simulates(Put(st, rec), Store(list, rs.records[rec.id := rec]))
  {
    NonStaleUpdate(st.units, st.order, rec.id, rec);
    PutUpdates(st, rec);
  }

  lemma PutUpdates(st: State, rec: Record)
    requires Valid(st) && rec.id in st.units
    ensures Valid(Put(st, rec)) && Put(st, rec).order == st.order && Put(st, rec).units == st.units[rec.id := rec]
  {
  }

  lemma {:induction false} NonStaleTouched(records: map<Id, Record>, ids: seq<Id>, y: Id, rec: Record)
    requires !Stale(records, y) && rec.status.Queued?
    ensures NonStale(records[y := rec], ids) == NonStale(records, ids)
  {
    if ids != [] {
      NonStaleTouched(records, ids[..|ids| - 1], y, rec);
    }
  }

  /** Updating a record that stays in the queue, on both sides. */
  lemma SimulatesTouch(st: State, rs: Store, rec: Record)
    requires Simulates(st, rs) && rec.id in st.units && st.units[rec.id].status.Queued? && rec.status.Queued?
    ensures Simulates(Put(st, rec), rs.(records := rs.records[rec.id := rec]))
  {
    NonStaleTouched(st.units, st.order, rec.id, rec);
    NonStaleTouched(rs.records, rs.list, rec.id, rec);
    PutUpdates(st, rec);
  }

  lemma SimulatesComplete(st: State, rs: Store, id: Id, requested: Option<Status>, result: Option<UnitResult>, now: Time)
    requires Simulates(st, rs) && !Revives(st, Complete(id, requested, result, now), id)
    ensures CompleteStore(rs, id, requested, result, now).1 == CompleteStep(st, id, requested, result, now).1
    ensures Simulates(CompleteStep(st, id, requested, result, now).0, CompleteStore(rs, id, requested, result, now).0)
  {
    if id in st.units && !Terminal(st.units[id].status) {
      var rec := Completed(st.units[id], requested, result, now);
      if rec.status.Queued? {
        SimulatesTouch(st, rs, rec);
      } else {
        NonStaleUpdate(rs.records, rs.list, id, rec);
        SimulatesUpdate(st, rs, rs.list, rec);
      }
    }
  }

  lemma SimulatesRestart(st: State, rs: Store, id: Id, newId: Id, t1: Time, t2: Time)
    requires Simulates(st, rs) && newId !in st.units
    ensures RestartStore(rs, id, newId, t1, t2).1 == RestartStep(st, id, newId, t1, t2).1
    ensures Simulates(RestartStep(st, id, newId, t1, t2).0, RestartStore(rs, id, newId, t1, t2).0)
  {
    if id in st.units && !Terminal(st.units[id].status) {
      var rec := st.units[id];
      SimulatesComplete(st, rs, id, Some(Cancelled), None, t1);
      var (st', _) := CompleteStep(st, id, Some(Cancelled), None, t1);
      var (rs', _) := CompleteStore(rs, id, Some(Cancelled), None, t1);
      SimulatesEnqueue(st', rs', newId, rec.ticket, Some(rec.payload), t2);
    }
  }

  lemma SimulatesCount(st: State, rs: Store, session: Option<nat>)
    requires Simulates(st, rs)
    ensures CountHits(rs.records, rs.list, session) == CountStep(st, session)
  {
    ValuesAre(st);
    CountIsHits(st.units, st.order, Values(st), session);
    CountInNonStale(rs.records, rs.list, session);
    CountInNonStale(st.units, st.order, session);
  }

  /** The clock agrees with the order of the calls, as far as this dequeue can tell: no match was created
      before the one stored first. */
  ghost predicate FirstIsOldest(st: State, session: Option<nat>)
    requires Valid(st)
  {
    var s := Values(st);
    var i := FirstMatch(s, session);
    forall j :: i < j < |s| && Matches(s[j], session) ==> s[i].createdAt <= s[j].createdAt
  }

  /** Redis takes the match that was stored first. */
  lemma RedisTakesFirst(st: State, rs: Store, session: Option<nat>, node: Option<nat>, now: Time)
    requires Simulates(st, rs)
    ensures var s := Values(st);
            var i := FirstMatch(s, session);
            DequeueStore(rs, session, node, now).1 == Unit(if i < |s| then Some(AssignedTo(s[i], node, now)) else None)
  {
    ValuesAre(st);
    MatchIsHit(st.units, st.order, Values(st), session);
    HitInNonStale(st.units, st.order, session);
    HitInNonStale(rs.records, rs.list, session);
  }

  lemma MemoryTakesNone(st: State, session: Option<nat>, node: Option<nat>, now: Time)
    requires Valid(st) && FirstMatch(Values(st), session) == |Values(st)|
    ensures DequeueStep(st, session, node, now).1 == Unit(None)
  {
    ValuesAre(st);
    DequeueFinds(st, session, node, now);
    forall k | k in st.units
      ensures !Matches(st.units[k], session)
    {
      var j :| 0 <= j < |st.order| && st.order[j] == k;
    }
  }

  /** Where memory keeps the unit it takes. */
  lemma TakenAt(st: State, session: Option<nat>, node: Option<nat>, now: Time) returns (j: nat)
    requires Valid(st) && FirstMatch(Values(st), session) < |Values(st)|
    ensures var s := Values(st);
            && FirstMatch(s, session) <= j < |s| && Matches(s[j], session)
            && DequeueStep(st, session, node, now).1 == Unit(Some(AssignedTo(s[j], node, now)))
  {
    var out := DequeueStep(st, session, node, now).1;
    ValuesAre(st);
    DequeueFinds(st, session, node, now);
    assert Matches(st.units[st.order[FirstMatch(Values(st), session)]], session);
    j :| 0 <= j < |st.order| && st.order[j] == out.unit.value.id;
  }

  /** No match is older than the one memory takes. */
  lemma TakenIsOldest(st: State, session: Option<nat>, node: Option<nat>, now: Time, j: nat, k: nat)
    requires Valid(st) && j < |Values(st)| && k < |Values(st)| && Matches(Values(st)[k], session)
    requires DequeueStep(st, session, node, now).1 == Unit(Some(AssignedTo(Values(st)[j], node, now)))
    ensures var s := Values(st); s[j].createdAt < s[k].createdAt || (s[j].createdAt == s[k].createdAt && j <= k)
  {
    ValuesAre(st);
    DequeueTakesOldest(st, session, node, now, st.order[k]);
    RankIs(st.order, j);
    RankIs(st.order, k);
  }

  lemma OldestIsTaken(st: State, session: Option<nat>, node: Option<nat>, now: Time)
    requires Valid(st) && FirstMatch(Values(st), session) < |Values(st)| && FirstIsOldest(st, session)
    ensures var s := Values(st);
            DequeueStep(st, session, node, now).1 == Unit(Some(AssignedTo(s[FirstMatch(s, session)], node, now)))
  {
    var j := TakenAt(st, session, node, now);
    TakenIsOldest(st, session, node, now, j, FirstMatch(Values(st), session));
  }

  lemma YoungerIsNotTaken(st: State, session: Option<nat>, node: Option<nat>, now: Time, k: nat)
    requires Valid(st) && FirstMatch(Values(st), session) < k < |Values(st)| && Matches(Values(st)[k], session)
    requires Values(st)[k].createdAt < Values(st)[FirstMatch(Values(st), session)].createdAt
    ensures var s := Values(st);
            DequeueStep(st, session, node, now).1 != Unit(Some(AssignedTo(s[FirstMatch(s, session)], node, now)))
  {
    var j := TakenAt(st, session, node, now);
    TakenIsOldest(st, session, node, now, j, k);
  }

  /** Memory takes the match stored first exactly when it is the oldest. */
  lemma MemoryTakesFirst(st: State, session: Option<nat>, node: Option<nat>, now: Time)
    requires Valid(st) && FirstMatch(Values(st), session) < |Values(st)|
    ensures var s := Values(st);
            DequeueStep(st, session, node, now).1 == Unit(Some(AssignedTo(s[FirstMatch(s, session)], node, now))) <==>
            FirstIsOldest(st, session)
  {
    if FirstIsOldest(st, session) {
      OldestIsTaken(st, session, node, now);
    } else {
      var s := Values(st);
      var i := FirstMatch(s, session);
      var k :| i < k < |s| && Matches(s[k], session) && s[k].createdAt < s[i].createdAt;
      YoungerIsNotTaken(st, session, node, now, k);
    }
  }

  /** Both queues pick the same unit, or none, exactly when no match was created before the one stored
      first: memory sorts by the time of creation, and the Redis list by the order of the calls. */
  lemma SamePickIff(st: State, rs: Store, session: Option<nat>, node: Option<nat>, now: Time)
    requires Simulates(st, rs)
    ensures DequeueStore(rs, session, node, now).1 == DequeueStep(st, session, node, now).1 <==> FirstIsOldest(st, session)
  {
    RedisTakesFirst(st, rs, session, node, now);
    if FirstMatch(Values(st), session) < |Values(st)| {
      MemoryTakesFirst(st, session, node, now);
    } else {
      MemoryTakesNone(st, session, node, now);
    }
  }

  /** The same condition, read off the Redis list: nothing queued was skipped, or nothing queued is behind. */
  lemma KeepsOrderInList(st: State, rs: Store, session: Option<nat>)
    requires Simulates(st, rs) && FirstHit(rs.records, rs.list, session) < |rs.list|
    ensures var i := FirstHit(rs.records, rs.list, session);
            KeepsOrder(st, session) <==>
            NonStale(rs.records, rs.list[..i]) == [] || NonStale(rs.records, rs.list[i + 1..]) == []
  {
    var i := FirstHit(rs.records, rs.list, session);
    HitInNonStale(rs.records, rs.list, session);
    NonStaleSplit(rs.records, rs.list, i);
  }

  lemma {:induction false} NonStaleNoRepeats(records: map<Id, Record>, ids: seq<Id>)
    requires NoRepeats(ids)
    ensures NoRepeats(NonStale(records, ids))
  {
    if ids != [] {
      var init, last := ids[..|ids| - 1], ids[|ids| - 1];
      NonStaleNoRepeats(records, init);
      NonStaleMember(records, init, last);
    }
  }

  /** The list after a hit holds no id twice and only ids that have a record. */
  lemma RotatedList(records: map<Id, Record>, list: seq<Id>, i: nat)
    requires i < |list| && NoRepeats(list) && forall x :: x in list ==> x in records
    ensures var next := list[i + 1..] + NonStale(records, list[..i]);
            NoRepeats(next) && forall x :: x in next ==> x in records
  {
    var p, r := NonStale(records, list[..i]), list[i + 1..];
    NonStaleNoRepeats(records, list[..i]);
    forall x | x in p
      ensures x in list[..i] && x in records && x !in r
    {
      NonStaleMember(records, list[..i], x);
    }
    forall a, b | 0 <= a < b < |r + p|
      ensures (r + p)[a] != (r + p)[b]
    {
      if a < |r| && b >= |r| { assert r[a] in r && p[b - |r|] in p; }
    }
  }

  lemma SimulatesMiss(st: State, rs: Store)
    requires Simulates(st, rs)
    ensures Simulates(st, rs.(list := NonStale(rs.records, rs.list)))
  {
    NonStaleNoRepeats(rs.records, rs.list);
    NonStaleIdempotent(rs.records, rs.list);
    forall x | x in NonStale(rs.records, rs.list)
      ensures x in rs.records
    {
      NonStaleMember(rs.records, rs.list, x);
    }
  }

  lemma SimulatesDequeue(st: State, rs: Store, session: Option<nat>, node: Option<nat>, now: Time)
    requires Simulates(st, rs) && KeepsOrder(st, session) && FirstIsOldest(st, session)
    ensures DequeueStore(rs, session, node, now).1 == DequeueStep(st, session, node, now).1
    ensures Simulates(DequeueStep(st, session, node, now).0, DequeueStore(rs, session, node, now).0)
  {
    SamePickIff(st, rs, session, node, now);
    DequeueFinds(st, session, node, now);
    var i := FirstHit(rs.records, rs.list, session);
    if i < |rs.list| {
      KeepsOrderInList(st, rs, session);
      OrderKeptIff(rs, session, node, now);
      RotatedList(rs.records, rs.list, i);
      SimulatesUpdate(st, rs, DequeueStore(rs, session, node, now).0.list, AssignedTo(rs.records[rs.list[i]], node, now));
    } else {
      SimulatesMiss(st, rs);
    }
  }

  // ---- Whole runs ---------------------------------------------------------

  function RunStore(rs: Store, ops: seq<Op>): (Store, seq<Outcome>)
    decreases |ops|
  {
    if ops == [] then (rs, [])
    else
      var (next, out) := StepStore(rs, ops[0]);
      var (end, outs) := RunStore(next, ops[1..]);
      (end, [out] + outs)
  }

  ghost predicate KeepsOrderRun(st: State, ops: seq<Op>)
    requires Valid(st)
    decreases |ops|
  {
    ops == [] || ((ops[0].Dequeue? ==> KeepsOrder(st, ops[0].session)) && KeepsOrderRun(Step(st, ops[0]).0, ops[1..]))
  }

  ghost predicate FirstIsOldestRun(st: State, ops: seq<Op>)
    requires Valid(st)
    decreases |ops|
  {
    ops == [] || ((ops[0].Dequeue? ==> FirstIsOldest(st, ops[0].session)) && FirstIsOldestRun(Step(st, ops[0]).0, ops[1..]))
  }

  lemma StepSimulates(st: State, rs: Store, op: Op)
    requires Simulates(st, rs) && Fresh(st, op)
    requires op.Complete? ==> !Revives(st, op, op.id)
    requires op.Dequeue? ==> KeepsOrder(st, op.session) && FirstIsOldest(st, op.session)
    ensures StepStore(rs, op).1 == Step(st, op).1
    ensures Simulates(Step(st, op).0, StepStore(rs, op).0)
  {
    match op
    case Enqueue(id, ticket, payload, now) => SimulatesEnqueue(st, rs, id, ticket, payload, now);
    case Dequeue(session, node, now) => SimulatesDequeue(st, rs, session, node, now);
    case Complete(id, requested, result, now) => SimulatesComplete(st, rs, id, requested, result, now);
    case Restart(id, newId, t1, t2) => SimulatesRestart(st, rs, id, newId, t1, t2);
    case Count(session) => SimulatesCount(st, rs, session);
  }

  /** Along every run whose dequeues keep the order of the queued units and find the oldest match stored
      first, both queues return the same units and counts and stay in step. */
  lemma {:induction false} RunSimulates(st: State, rs: Store, ops: seq<Op>)
    requires Simulates(st, rs) && FreshRun(st, ops) && NothingRevived(st, ops)
    requires KeepsOrderRun(st, ops) && FirstIsOldestRun(st, ops)
    ensures RunStore(rs, ops).1 == Run(st, ops).1
    ensures Simulates(Run(st, ops).0, RunStore(rs, ops).0)
    decreases |ops|
  {
    if ops != [] {
      StepSimulates(st, rs, ops[0]);
      RunSimulates(Step(st, ops[0]).0, StepStore(rs, ops[0]).0, ops[1..]);
    }
  }

  /** The two ways to use the queue for which a caller can tell that nothing is ever skipped. */
  predicate AllUnfiltered(ops: seq<Op>) {
    forall op :: op in ops && op.Dequeue? ==> op.session.None?
  }

  predicate OneSession(ops: seq<Op>, session: Option<nat>) {
    forall op :: op in ops && op.Enqueue? ==> op.ticket.sessionId == session
  }

  ghost predicate AllInSession(st: State, session: Option<nat>) {
    forall k :: k in st.units ==> st.units[k].ticket.sessionId == session
  }

  lemma {:induction false} UnfilteredNeverSkips(st: State, ops: seq<Op>)
    requires Valid(st) && AllUnfiltered(ops)
    ensures KeepsOrderRun(st, ops)
    decreases |ops|
  {
    if ops != [] {
      assert ops[0] in ops;
      if ops[0].Dequeue? { AllOrNoneKeepsOrder(st, ops[0].session); }
      UnfilteredNeverSkips(Step(st, ops[0]).0, ops[1..]);
    }
  }

  lemma PutInSession(st: State, rec: Record, session: Option<nat>)
    requires AllInSession(st, session) && rec.ticket.sessionId == session
    ensures AllInSession(Put(st, rec), session)
  {
  }

  lemma CompleteInSession(st: State, id: Id, requested: Option<Status>, result: Option<UnitResult>, now: Time, session: Option<nat>)
    requires AllInSession(st, session)
    ensures AllInSession(CompleteStep(st, id, requested, result, now).0, session)
  {
    if id in st.units { PutInSession(st, Completed(st.units[id], requested, result, now), session); }
  }

  lemma EnqueueInSession(st: State, id: Id, ticket: Ticket, payload: Option<Payload>, now: Time, session: Option<nat>)
    requires AllInSession(st, session) && ticket.sessionId == session
    ensures AllInSession(EnqueueStep(st, id, ticket, payload, now).0, session)
  {
    var safe := Sanitized(payload, DEFAULT_MAX_PAYLOAD_BYTES);
    if safe.Ok? { PutInSession(st, NewRecord(id, ticket, safe.value, now), session); }
  }

  lemma StaysInSession(st: State, op: Op, session: Option<nat>)
    requires Valid(st) && Fresh(st, op) && AllInSession(st, session)
    requires op.Enqueue? ==> op.ticket.sessionId == session
    ensures AllInSession(Step(st, op).0, session)
  {
    match op
    case Enqueue(id, ticket, payload, now) => EnqueueInSession(st, id, ticket, payload, now, session);
    case Dequeue(filter, node, now) => DequeueFinds(st, filter, node, now);
    case Complete(id, requested, result, now) => CompleteInSession(st, id, requested, result, now, session);
    case Restart(id, newId, t1, t2) =>
      if id in st.units {
        var rec := st.units[id];
        CompleteInSession(st, id, Some(Cancelled), None, t1, session);
        EnqueueInSession(CompleteStep(st, id, Some(Cancelled), None, t1).0, newId, rec.ticket, Some(rec.payload), t2, session);
      }
    case Count(_) =>
  }

  lemma {:induction false} OneSessionNeverSkips(st: State, ops: seq<Op>, session: Option<nat>)
    requires Valid(st) && FreshRun(st, ops) && AllInSession(st, session) && OneSession(ops, session)
    ensures KeepsOrderRun(st, ops)
    decreases |ops|
  {
    if ops != [] {
      assert ops[0] in ops;
      StaysInSession(st, ops[0], session);
      if ops[0].Dequeue? { AllOrNoneKeepsOrder(st, ops[0].session); }
      OneSessionNeverSkips(Step(st, ops[0]).0, ops[1..], session);
    }
  }

  // ---- Clocks that never go back ------------------------------------------

  /** Units are stored in creation order, as they are when the clock never goes back. */
  predicate CreationAscends(s: seq<Record>) {
    forall i, j :: 0 <= i < j < |s| ==> s[i].createdAt <= s[j].createdAt
  }

  lemma AscendingFirstIsOldest(st: State, session: Option<nat>)
    requires Valid(st) && CreationAscends(Values(st))
    ensures FirstIsOldest(st, session)
  {
  }

  /** The clock never goes back: nothing stored was created after the reading a new unit gets. */
  ghost predicate Timely(st: State, op: Op) {
    match op
    case Enqueue(_, _, _, now) => forall k :: k in st.units ==> st.units[k].createdAt <= now
    case Restart(_, _, _, t2) => forall k :: k in st.units ==> st.units[k].createdAt <= t2
    case _ => true
  }

  ghost predicate TimelyRun(st: State, ops: seq<Op>)
    requires Valid(st)
    decreases |ops|
  {
    ops == [] || (Timely(st, ops[0]) && TimelyRun(Step(st, ops[0]).0, ops[1..]))
  }

  lemma ValuesAppend(st: State, rec: Record)
    requires Valid(st) && rec.id !in st.units
    ensures Valid(Put(st, rec)) && Values(Put(st, rec)) == Values(st) + [rec]
  {
    PutAppends(st, rec);
    ValuesAre(st);
    ValuesAre(Put(st, rec));
  }

  lemma AscendsAppend(st: State, rec: Record)
    requires Valid(st) && CreationAscends(Values(st)) && rec.id !in st.units
    requires forall k :: k in st.units ==> st.units[k].createdAt <= rec.createdAt
    ensures Valid(Put(st, rec)) && CreationAscends(Values(Put(st, rec)))
  {
    ValuesAre(st);
    ValuesAppend(st, rec);
  }

  lemma AscendsUpdate(st: State, rec: Record)
    requires Valid(st) && CreationAscends(Values(st)) && rec.id in st.units && rec.createdAt == st.units[rec.id].createdAt
    ensures CreationAscends(Values(Put(st, rec)))
  {
    ValuesAre(st);
    ValuesAre(Put(st, rec));
    var s, t := Values(st), Values(Put(st, rec));
    forall i | 0 <= i < |t|
      ensures t[i].createdAt == s[i].createdAt
    {
    }
  }

  lemma AscendsEnqueue(st: State, id: Id, ticket: Ticket, payload: Option<Payload>, now: Time)
    requires Valid(st) && CreationAscends(Values(st)) && id !in st.units
    requires forall k :: k in st.units ==> st.units[k].createdAt <= now
    ensures Valid(EnqueueStep(st, id, ticket, payload, now).0)
    ensures CreationAscends(Values(EnqueueStep(st, id, ticket, payload, now).0))
  {
    var safe := Sanitized(payload, DEFAULT_MAX_PAYLOAD_BYTES);
    if safe.Ok? {
      PutAppends(st, NewRecord(id, ticket, safe.value, now));
      AscendsAppend(st, NewRecord(id, ticket, safe.value, now));
    }
  }

  lemma AscendsComplete(st: State, id: Id, requested: Option<Status>, result: Option<UnitResult>, now: Time)
    requires Valid(st) && CreationAscends(Values(st))
    ensures Valid(CompleteStep(st, id, requested, result, now).0)
    ensures CreationAscends(Values(CompleteStep(st, id, requested, result, now).0))
  {
    if id in st.units && !Terminal(st.units[id].status) {
      PutUpdates(st, Completed(st.units[id], requested, result, now));
      AscendsUpdate(st, Completed(st.units[id], requested, result, now));
    }
  }

  lemma AscendsDequeue(st: State, session: Option<nat>, node: Option<nat>, now: Time)
    requires Valid(st) && CreationAscends(Values(st))
    ensures Valid(DequeueStep(st, session, node, now).0) && CreationAscends(Values(DequeueStep(st, session, node, now).0))
  {
    var out := DequeueStep(st, session, node, now).1;
    DequeueFinds(st, session, node, now);
    if out.unit.Some? {
      PutUpdates(st, out.unit.value);
      AscendsUpdate(st, out.unit.value);
    }
  }

  lemma AscendsRestart(st: State, id: Id, newId: Id, t1: Time, t2: Time)
    requires Valid(st) && CreationAscends(Values(st)) && newId !in st.units
    requires forall k :: k in st.units ==> st.units[k].createdAt <= t2
    ensures Valid(RestartStep(st, id, newId, t1, t2).0) && CreationAscends(Values(RestartStep(st, id, newId, t1, t2).0))
  {
    if id in st.units && !Terminal(st.units[id].status) {
      var rec := st.units[id];
      AscendsComplete(st, id, Some(Cancelled), None, t1);
      AscendsEnqueue(CompleteStep(st, id, Some(Cancelled), None, t1).0, newId, rec.ticket, Some(rec.payload), t2);
    }
  }

  lemma StepAscends(st: State, op: Op)
    requires Valid(st) && CreationAscends(Values(st)) && Fresh(st, op) && Timely(st, op)
    ensures CreationAscends(Values(Step(st, op).0))
  {
    match op
    case Enqueue(id, ticket, payload, now) => AscendsEnqueue(st, id, ticket, payload, now);
    case Dequeue(session, node, now) => AscendsDequeue(st, session, node, now);
    case Complete(id, requested, result, now) => AscendsComplete(st, id, requested, result, now);
    case Restart(id, newId, t1, t2) => AscendsRestart(st, id, newId, t1, t2);
    case Count(_) =>
  }

  lemma {:induction false} TimelyRunAscends(st: State, ops: seq<Op>)
    requires Valid(st) && CreationAscends(Values(st)) && FreshRun(st, ops) && TimelyRun(st, ops)
    ensures FirstIsOldestRun(st, ops) && CreationAscends(Values(Run(st, ops).0))
    decreases |ops|
  {
    if ops != [] {
      if ops[0].Dequeue? { AscendingFirstIsOldest(st, ops[0].session); }
      StepAscends(st, ops[0]);
      TimelyRunAscends(Step(st, ops[0]).0, ops[1..]);
    }
  }

  /** From empty queues: with unfiltered dequeues, or with all units in one session, every run of the
      Redis queue gives what the in-memory queue gives. */
  lemma RedisMatchesInMemory(ops: seq<Op>)
    requires FreshRun(EMPTY, ops) && TimelyRun(EMPTY, ops) && NothingRevived(EMPTY, ops)
    requires AllUnfiltered(ops) || exists session :: OneSession(ops, session)
    ensures RunStore(EMPTY_STORE, ops).1 == Run(EMPTY, ops).1
    ensures RunStore(EMPTY_STORE, ops).0.records == Run(EMPTY, ops).0.units
    ensures Simulates(Run(EMPTY, ops).0, RunStore(EMPTY_STORE, ops).0) && CreationAscends(Values(Run(EMPTY, ops).0))
  {
    TimelyRunAscends(EMPTY, ops);
    if AllUnfiltered(ops) {
      UnfilteredNeverSkips(EMPTY, ops);
    } else {
      var session :| OneSession(ops, session);
      OneSessionNeverSkips(EMPTY, ops, session);
    }
    RunSimulates(EMPTY, EMPTY_STORE, ops);
  }

  // ---- Where they part ----------------------------------------------------

  lemma {:induction false} RunOne(st: State, rs: Store, op: Op, rest: seq<Op>)
    requires Valid(st)
    ensures Run(st, [op] + rest).1 == [Step(st, op).1] + Run(Step(st, op).0, rest).1
    ensures RunStore(rs, [op] + rest).1 == [StepStore(rs, op).1] + RunStore(StepStore(rs, op).0, rest).1
  {
    assert ([op] + rest)[1..] == rest;
  }

  /** Two steps that answer alike leave the comparison to the third. */
  lemma ThirdDecides(a: Op, b: Op, c: Op, st: State, rs: Store)
    requires StepStore(EMPTY_STORE, a).1 == Step(EMPTY, a).1
    requires StepStore(StepStore(EMPTY_STORE, a).0, b) == (rs, Step(Step(EMPTY, a).0, b).1)
    requires st == Step(Step(EMPTY, a).0, b).0
    ensures RunStore(EMPTY_STORE, [a, b, c]).1 == Run(EMPTY, [a, b, c]).1 <==> StepStore(rs, c).1 == Step(st, c).1
  {
    var st1, rs1 := Step(EMPTY, a).0, StepStore(EMPTY_STORE, a).0;
    RunOne(EMPTY, EMPTY_STORE, a, [b, c]);
    RunOne(st1, rs1, b, [c]);
    RunOne(st, rs, c, []);
    assert [a] + [b, c] == [a, b, c] && [b] + [c] == [b, c] && [c] + [] == [c];
    LastOfThree(Step(EMPTY, a).1, Step(st1, b).1, StepStore(rs, c).1, Step(st, c).1);
  }

  lemma LastOfThree(x: Outcome, y: Outcome, z: Outcome, w: Outcome)
    ensures [x] + ([y] + ([z] + [])) == [x] + ([y] + ([w] + [])) <==> z == w
  {
    assert ([x] + ([y] + ([z] + [])))[2] == z && ([x] + ([y] + ([w] + [])))[2] == w;
  }

  lemma EnqueueIs(st: State, rs: Store, id: Id, ticket: Ticket, now: Time)
    requires Valid(st)
    ensures var op, rec := Enqueue(id, ticket, None, now), NewRecord(id, ticket, [], now);
            && Step(st, op) == (Put(st, rec), Unit(Some(rec)))
            && StepStore(rs, op) == (Store(rs.list + [id], rs.records[id := rec]), Unit(Some(rec)))
  {
  }

  /** Both queues with the same two queued units. */
  lemma TwoStored(x: Record, y: Record)
    requires x.id != y.id
    ensures var records := map[x.id := x, y.id := y];
            && Simulates(State([x.id, y.id], records), Store([x.id, y.id], records))
            && Values(State([x.id, y.id], records)) == [x, y]
  {
  }

  lemma FirstEnqueued(a: Id, ticket: Ticket, now: Time)
    ensures var op, x := Enqueue(a, ticket, None, now), NewRecord(a, ticket, [], now);
            && Step(EMPTY, op) == (State([a], map[a := x]), Unit(Some(x)))
            && StepStore(EMPTY_STORE, op) == (Store([a], map[a := x]), Unit(Some(x)))
  {
    EnqueueIs(EMPTY, EMPTY_STORE, a, ticket, now);
    assert [] + [a] == [a];
  }

  lemma SecondEnqueued(x: Record, b: Id, ticket: Ticket, now: Time)
    requires x.id != b
    ensures Valid(State([x.id], map[x.id := x]))
    ensures var op, y := Enqueue(b, ticket, None, now), NewRecord(b, ticket, [], now);
            var records := map[x.id := x, b := y];
            && Step(State([x.id], map[x.id := x]), op) == (State([x.id, b], records), Unit(Some(y)))
            && StepStore(Store([x.id], map[x.id := x]), op) == (Store([x.id, b], records), Unit(Some(y)))
  {
    EnqueueIs(State([x.id], map[x.id := x]), Store([x.id], map[x.id := x]), b, ticket, now);
    assert [x.id] + [b] == [x.id, b];
  }

  lemma TwoInOrder(st: State, x: Record, y: Record)
    requires Valid(st) && Values(st) == [x, y] && Matches(x, None) && Matches(y, None)
    ensures FirstIsOldest(st, None) <==> x.createdAt <= y.createdAt
  {
    var s := Values(st);
    assert FirstMatch(s, None) == 0 && Matches(s[1], None);
  }

  /** Two units enqueued one after the other, then a dequeue: the queues agree exactly when the clock did
      not go back in between. */
  lemma ClockGoesBackIff(a: Id, b: Id, ticket: Ticket, t1: Time, t2: Time, now: Time)
    requires a != b
    ensures var ops := [Enqueue(a, ticket, None, t1), Enqueue(b, ticket, None, t2), Dequeue(None, None, now)];
            RunStore(EMPTY_STORE, ops).1 == Run(EMPTY, ops).1 <==> t1 <= t2
  {
    var x, y := NewRecord(a, ticket, [], t1), NewRecord(b, ticket, [], t2);
    var st, rs := State([a, b], map[a := x, b := y]), Store([a, b], map[a := x, b := y]);
    FirstEnqueued(a, ticket, t1);
    SecondEnqueued(x, b, ticket, t2);
    TwoStored(x, y);
    ThirdDecides(Enqueue(a, ticket, None, t1), Enqueue(b, ticket, None, t2), Dequeue(None, None, now), st, rs);
    SamePickIff(st, rs, None, None, now);
    TwoInOrder(st, x, y);
  }

  lemma FirstQueuedIsTaken(st: State, node: Option<nat>, now: Time, a: Id)
    requires Valid(st) && CreationAscends(Values(st))
    requires NonStale(st.units, st.order) != [] && NonStale(st.units, st.order)[0] == a
    ensures var out := DequeueStep(st, None, node, now).1;
            out.Unit? && out.unit.Some? && out.unit.value.id == a
  {
    ValuesAre(st);
    MatchIsHit(st.units, st.order, Values(st), None);
    HitInNonStale(st.units, st.order, None);
    NonStaleMember(st.units, st.order, a);
    AscendingFirstIsOldest(st, None);
    MemoryTakesFirst(st, None, node, now);
  }

  /** Every record is filed under its own id. */
  ghost predicate Filed(rs: Store) {
    forall id :: id in rs.records ==> rs.records[id].id == id
  }

  lemma FirstListedIsTaken(rs: Store, node: Option<nat>, now: Time, a: Id)
    requires Filed(rs) && NonStale(rs.records, rs.list) != [] && NonStale(rs.records, rs.list)[0] == a
    ensures var out := DequeueStore(rs, None, node, now).1;
            out.Unit? && out.unit.Some? && out.unit.value.id == a
  {
    NonStaleMember(rs.records, rs.list, a);
    HitInNonStale(rs.records, rs.list, None);
  }

  /** Memory puts back the record of the unit that Redis takes. */
  lemma TakenInMemory(st: State, rs: Store, session: Option<nat>, node: Option<nat>, now: Time)
    requires Simulates(st, rs) && FirstHit(rs.records, rs.list, session) < |rs.list| && CreationAscends(Values(st))
    ensures var y := rs.list[FirstHit(rs.records, rs.list, session)];
            DequeueStep(st, session, node, now).0 == Put(st, AssignedTo(st.units[y], node, now))
  {
    AscendingFirstIsOldest(st, session);
    SamePickIff(st, rs, session, node, now);
    DequeueFinds(st, session, node, now);
  }

  lemma QueuedAfterPut(st: State, rs: Store, i: nat, rec: Record)
    requires Simulates(st, rs) && i < |rs.list| && rec.id == rs.list[i] && !Stale(st.units, rec.id) && !rec.status.Queued?
    ensures NonStale(Put(st, rec).units, Put(st, rec).order) ==
            NonStale(rs.records, rs.list[..i]) + NonStale(rs.records, rs.list[i + 1..])
  {
    NonStaleUpdate(st.units, st.order, rec.id, rec);
    QueuedWithout(rs.records, rs.list, i);
  }

  /** The queued ids in memory, and in the Redis list, after a dequeue that took the unit at `i` of the list. */
  lemma QueuedInMemory(st: State, rs: Store, session: Option<nat>, node: Option<nat>, now: Time)
    requires Simulates(st, rs) && FirstHit(rs.records, rs.list, session) < |rs.list| && CreationAscends(Values(st))
    ensures var i := FirstHit(rs.records, rs.list, session);
            var st1 := DequeueStep(st, session, node, now).0;
            && Valid(st1) && CreationAscends(Values(st1))
            && NonStale(st1.units, st1.order) == NonStale(rs.records, rs.list[..i]) + NonStale(rs.records, rs.list[i + 1..])
  {
    var i := FirstHit(rs.records, rs.list, session);
    var rec := AssignedTo(st.units[rs.list[i]], node, now);
    AscendsDequeue(st, session, node, now);
    TakenInMemory(st, rs, session, node, now);
    QueuedAfterPut(st, rs, i, rec);
  }

  lemma DequeueFiles(rs: Store, session: Option<nat>, node: Option<nat>, now: Time)
    requires Filed(rs)
    ensures Filed(DequeueStore(rs, session, node, now).0)
  {
  }

  lemma QueuedInRedis(st: State, rs: Store, session: Option<nat>, node: Option<nat>, now: Time)
    requires Simulates(st, rs) && FirstHit(rs.records, rs.list, session) < |rs.list|
    ensures var i := FirstHit(rs.records, rs.list, session);
            var rs1 := DequeueStore(rs, session, node, now).0;
            && Filed(rs1)
            && NonStale(rs1.records, rs1.list) == NonStale(rs.records, rs.list[i + 1..]) + NonStale(rs.records, rs.list[..i])
  {
    var i := FirstHit(rs.records, rs.list, session);
    DequeueFiles(rs, session, node, now);
    QueuedAfterHit(rs.records, rs.list[..i], rs.list[i], rs.list[i + 1..], AssignedTo(rs.records[rs.list[i]], node, now));
  }

  predicate StartsWith(ids: seq<Id>, x: Id) {
    ids != [] && ids[0] == x
  }

  /** The oldest skipped unit and the oldest unit behind the one taken, when the order is not kept. */
  lemma SkippedAndBehind(st: State, rs: Store, session: Option<nat>) returns (a: Id, c: Id)
    requires Simulates(st, rs) && !KeepsOrder(st, session)
    ensures var i := FirstHit(rs.records, rs.list, session);
            && i < |rs.list| && a != c
            && StartsWith(NonStale(rs.records, rs.list[..i]), a) && StartsWith(NonStale(rs.records, rs.list[i + 1..]), c)
  {
    HitInNonStale(rs.records, rs.list, session);
    var i := FirstHit(rs.records, rs.list, session);
    KeepsOrderInList(st, rs, session);
    QueuedApart(rs.records, rs.list, i);
    var p, r := NonStale(rs.records, rs.list[..i]), NonStale(rs.records, rs.list[i + 1..]);
    a, c := p[0], r[0];
    assert a in p && c in r;
  }

  /** After such a dequeue memory takes the oldest unit it skipped, and Redis the oldest one behind. */
  lemma QueuesPart(st: State, rs: Store, session: Option<nat>, node: Option<nat>, now: Time, later: Time, a: Id, c: Id)
    requires Simulates(st, rs) && FirstHit(rs.records, rs.list, session) < |rs.list| && CreationAscends(Values(st))
    requires var i := FirstHit(rs.records, rs.list, session);
             StartsWith(NonStale(rs.records, rs.list[..i]), a) && StartsWith(NonStale(rs.records, rs.list[i + 1..]), c)
    ensures Valid(DequeueStep(st, session, node, now).0)
    ensures var out := DequeueStep(DequeueStep(st, session, node, now).0, None, None, later).1;
            out.Unit? && out.unit.Some? && out.unit.value.id == a
    ensures var out := DequeueStore(DequeueStore(rs, session, node, now).0, None, None, later).1;
            out.Unit? && out.unit.Some? && out.unit.value.id == c
  {
    QueuedInMemory(st, rs, session, node, now);
    QueuedInRedis(st, rs, session, node, now);
    FirstQueuedIsTaken(DequeueStep(st, session, node, now).0, None, later, a);
    FirstListedIsTaken(DequeueStore(rs, session, node, now).0, None, later, c);
  }

  /** After a dequeue the two queues answer the next unfiltered dequeue alike exactly when the first one
      kept the order; otherwise memory takes the oldest unit it skipped and Redis the oldest one behind. */
  lemma SkippedUnitLosesItsPlace(st: State, rs: Store, session: Option<nat>, node: Option<nat>, now: Time, later: Time)
    requires Simulates(st, rs) && CreationAscends(Values(st))
    ensures (DequeueStore(DequeueStore(rs, session, node, now).0, None, None, later).1 ==
             DequeueStep(DequeueStep(st, session, node, now).0, None, None, later).1) <==> KeepsOrder(st, session)
  {
    AscendingFirstIsOldest(st, session);
    if KeepsOrder(st, session) {
      SimulatesDequeue(st, rs, session, node, now);
      AscendsDequeue(st, session, node, now);
      AscendingFirstIsOldest(DequeueStep(st, session, node, now).0, None);
      SamePickIff(DequeueStep(st, session, node, now).0, DequeueStore(rs, session, node, now).0, None, None, later);
    } else {
      var a, c := SkippedAndBehind(st, rs, session);
      QueuesPart(st, rs, session, node, now, later, a, c);
    }
  }

  // ---- Units that no dequeue will ever return -----------------------------

  predicate FreshStore(rs: Store, op: Op) {
    match op
    case Enqueue(id, _, _, _) => id !in rs.records
    case Restart(_, newId, _, _) => newId !in rs.records
    case _ => true
  }

  ghost predicate FreshStoreRun(rs: Store, ops: seq<Op>)
    decreases |ops|
  {
    ops == [] || (FreshStore(rs, ops[0]) && FreshStoreRun(StepStore(rs, ops[0]).0, ops[1..]))
  }

  predicate Returns(op: Op, out: Outcome, w: Id) {
    op.Dequeue? && out.Unit? && out.unit.Some? && out.unit.value.id == w
  }

  /** How many dequeues of a run of the Redis queue return unit `w`. */
  ghost function HandedOutByStore(rs: Store, ops: seq<Op>, w: Id): nat
    decreases |ops|
  {
    if ops == [] then 0
    else
      var (next, out) := StepStore(rs, ops[0]);
      HandedOutByStore(next, ops[1..], w) + if Returns(ops[0], out, w) then 1 else 0
  }

  /** The unit's record says "queued", yet no run will ever hand it out. */
  ghost predicate Stranded(rs: Store, w: Id) {
    && w in rs.records && rs.records[w].status.Queued?
    && forall ops :: FreshStoreRun(rs, ops) ==> HandedOutByStore(rs, ops, w) == 0
  }

  /** Out of reach: terminal, or not in the list. */
  predicate OutOfReach(rs: Store, w: Id) {
    w in rs.records && (Terminal(rs.records[w].status) || w !in rs.list)
  }

  lemma DequeueKeepsOutOfReach(rs: Store, session: Option<nat>, node: Option<nat>, now: Time, w: Id)
    requires Filed(rs) && OutOfReach(rs, w)
    ensures var (next, out) := DequeueStore(rs, session, node, now);
            Filed(next) && OutOfReach(next, w) && out.Unit? && (out.unit.Some? ==> out.unit.value.id != w)
  {
    var i := FirstHit(rs.records, rs.list, session);
    if i == |rs.list| {
      if w !in rs.list { NonStaleMember(rs.records, rs.list, w); }
    } else {
      NonStaleMember(rs.records, rs.list[..i], w);
      assert rs.list[i] in rs.list;
    }
  }

  lemma StepKeepsOutOfReach(rs: Store, op: Op, w: Id)
    requires Filed(rs) && FreshStore(rs, op) && OutOfReach(rs, w)
    ensures var (next, out) := StepStore(rs, op);
            Filed(next) && OutOfReach(next, w) && !Returns(op, out, w)
  {
    if op.Dequeue? {
      DequeueKeepsOutOfReach(rs, op.session, op.node, op.now, w);
    }
  }

  lemma {:induction false} NeverHandedOut(rs: Store, ops: seq<Op>, w: Id)
    requires Filed(rs) && FreshStoreRun(rs, ops) && OutOfReach(rs, w)
    ensures HandedOutByStore(rs, ops, w) == 0
    decreases |ops|
  {
    if ops != [] {
      StepKeepsOutOfReach(rs, ops[0], w);
      NeverHandedOut(StepStore(rs, ops[0]).0, ops[1..], w);
    }
  }

  /** An unfiltered dequeue passes by stale ids only, so the list gets shorter and keeps what is behind. */
  lemma DequeueAdvances(rs: Store, w: Id)
    requires Filed(rs) && w in rs.list && !Stale(rs.records, w)
    ensures var (next, out) := DequeueStore(rs, None, None, 0);
            && Filed(next) && out.Unit? && out.unit.Some?
            && (out.unit.value.id != w ==> w in next.list && !Stale(next.records, w) && |next.list| < |rs.list|)
  {
    var i := FirstHit(rs.records, rs.list, None);
    var j :| 0 <= j < |rs.list| && rs.list[j] == w;
    assert Hits(rs.records, w, None);
    assert i <= j;
    if NonStale(rs.records, rs.list[..i]) != [] {
      NonStaleMember(rs.records, rs.list[..i], NonStale(rs.records, rs.list[..i])[0]);
    }
    if i < j { assert rs.list[i + 1..][j - i - 1] == w; }
  }

  lemma StoreDrains(rs: Store, w: Id) returns (ops: seq<Op>)
    requires Filed(rs) && w in rs.list && !Stale(rs.records, w)
    ensures FreshStoreRun(rs, ops) && HandedOutByStore(rs, ops, w) > 0
    decreases |rs.list|
  {
    var op := Dequeue(None, None, 0);
    var (next, out) := StepStore(rs, op);
    DequeueAdvances(rs, w);
    var rest := [];
    if out.unit.value.id != w {
      rest := StoreDrains(next, w);
    } else {
      assert FreshStoreRun(next, rest);
    }
    ops := [op] + rest;
    assert ops[1..] == rest;
  }

  /** Some run hands a unit out exactly when it is live and its id is in the list, stale or not. */
  lemma HandedOutSomedayIff(rs: Store, w: Id)
    requires Filed(rs) && w in rs.records
    ensures (exists ops :: FreshStoreRun(rs, ops) && HandedOutByStore(rs, ops, w) > 0) <==>
            !Terminal(rs.records[w].status) && w in rs.list
  {
    if OutOfReach(rs, w) {
      forall ops | FreshStoreRun(rs, ops)
        ensures HandedOutByStore(rs, ops, w) == 0
      {
        NeverHandedOut(rs, ops, w);
      }
    } else {
      var op := Complete(w, Some(Queued), None, 0);
      var next := StepStore(rs, op).0;
      var rest := StoreDrains(next, w);
      var ops := [op] + rest;
      assert ops[1..] == rest;
      assert FreshStoreRun(rs, ops) && HandedOutByStore(rs, ops, w) > 0;
    }
  }

  /** Completing a unit as "queued" leaves it stranded exactly when it is live and its id is not in the
      list; the call is what stranded it exactly when it was, besides, not queued before. */
  lemma RequeuedUnitIsStrandedIff(rs: Store, w: Id, result: Option<UnitResult>, now: Time)
    requires Filed(rs) && w in rs.records
    ensures var next := CompleteStore(rs, w, Some(Queued), result, now).0;
            && (Stranded(next, w) <==> !Terminal(rs.records[w].status) && w !in rs.list)
            && (Stranded(next, w) && !Stranded(rs, w) <==>
                !Terminal(rs.records[w].status) && !rs.records[w].status.Queued? && w !in rs.list)
  {
    var next := CompleteStore(rs, w, Some(Queued), result, now).0;
    StrandedIff(rs, w);
    StrandedIff(next, w);
  }

  lemma StrandedIff(rs: Store, w: Id)
    requires Filed(rs) && w in rs.records
    ensures Stranded(rs, w) <==> rs.records[w].status.Queued? && w !in rs.list
  {
    HandedOutSomedayIff(rs, w);
    if w !in rs.list {
      forall ops | FreshStoreRun(rs, ops)
        ensures HandedOutByStore(rs, ops, w) == 0
      {
        NeverHandedOut(rs, ops, w);
      }
    }
  }

  /** Completing a unit that has left the Redis list as "queued" revives it in memory, where the next
      dequeue finds a unit, but strands it in Redis, where the list and the count stay as they were. */
  lemma RequeuedUnitIsStranded(st: State, rs: Store, w: Id, now: Time)
    requires Simulates(st, rs) && w in st.units && !Terminal(st.units[w].status) && w !in rs.list
    ensures var st1, rs1 := CompleteStep(st, w, Some(Queued), None, now).0, CompleteStore(rs, w, Some(Queued), None, now).0;
            && DequeueStep(st1, None, None, now).1 != Unit(None)
            && CountHits(rs1.records, rs1.list, None) == CountHits(rs.records, rs.list, None)
            && w !in rs1.list
  {
    var rec := Completed(st.units[w], Some(Queued), None, now);
    DequeueFinds(CompleteStep(st, w, Some(Queued), None, now).0, None, None, now);
    assert Matches(rec, None);
    CountFresh(rs.records, rs.list, w, rec);
  }

  lemma {:induction false} CountFresh(records: map<Id, Record>, ids: seq<Id>, id: Id, rec: Record)
    requires id !in ids
    ensures CountHits(records[id := rec], ids, None) == CountHits(records, ids, None)
  {
    if ids != [] {
      CountFresh(records, ids[..|ids| - 1], id, rec);
    }
  }
}
