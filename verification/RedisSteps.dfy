// Many clients of packages/compute/work_unit_redis.py at once: a state machine in
// which every step is one Redis command of one client.
module RedisSteps {
  import opened Wrappers
  import opened WorkerPolicy
  import opened WorkUnits
  import opened RedisQueue
  import opened RedisRefinement

  type Client = nat

  /** What a client is in the middle of, by the command it sends next. */
  datatype Pc =
    | Idle
    | EnqueuePush(id: Id)                                                        // LPUSH the new id
    | DequeuePop(session: Option<nat>, node: Option<nat>, left: nat)             // BRPOP; `left` more turns may follow
    | DequeueLoad(session: Option<nat>, node: Option<nat>, left: nat, id: Id)    // HGET the popped id
    | DequeueReturn(session: Option<nat>, node: Option<nat>, left: nat, id: Id)  // LPUSH it back
    | DequeueSave(id: Id, rec: Record)                                           // HSET as assigned
    | CompleteSave(id: Id, rec: Record)                                          // HSET as done
    | RestartLoad(id: Id, rec: Record)                                           // HGET inside complete
    | RestartSave(id: Id, rec: Record, done: Record)                             // HSET as cancelled
    | RestartEnqueue(rec: Record)                                                // HSET the replacement

  /** The server, the clients, and the ids dequeues have returned so far. */
  datatype World = World(list: seq<Id>, records: map<Id, Record>, pcs: map<Client, Pc>, returned: seq<Id>)

  function At(w: World, c: Client): Pc {
    if c in w.pcs then w.pcs[c] else Idle
  }

  /** A call or the next command of a call, with what the environment supplies. */
  datatype Action =
    | CallEnqueue(c: Client, id: Id, ticket: Ticket, payload: Option<Payload>, now: Time)
    | CallDequeue(c: Client, session: Option<nat>, node: Option<nat>)
    | CallComplete(c: Client, id: Id, requested: Option<Status>, result: Option<UnitResult>, now: Time)
    | CallRestart(c: Client, id: Id)
    | Continue(c: Client, freshId: Id, now: Time)

  /** Calls start on idle clients, and ids that `uuid4` supplies are in use nowhere. */
  predicate Enabled(w: World, a: Action) {
    match a
    case CallEnqueue(c, id, _, _, _) => At(w, c).Idle? && id !in w.records
    case CallDequeue(c, _, _) => At(w, c).Idle?
    case CallComplete(c, _, _, _, _) => At(w, c).Idle?
    case CallRestart(c, _) => At(w, c).Idle?
    case Continue(c, freshId, _) => !At(w, c).Idle? && (At(w, c).RestartEnqueue? ==> freshId !in w.records)
  }

  /** HSET a freshly enqueued record, or raise before any command is sent. */
  function Begin(w: World, c: Client, id: Id, ticket: Ticket, payload: Option<Payload>, now: Time): World {
    var safe := Sanitized(payload, DEFAULT_MAX_PAYLOAD_BYTES);
    if safe.Err? then w.(pcs := w.pcs[c := Idle])
    else w.(records := w.records[id := NewRecord(id, ticket, safe.value, now)], pcs := w.pcs[c := EnqueuePush(id)])
  }

  /** The next turn of the dequeue loop, or its end. */
  function Again(session: Option<nat>, node: Option<nat>, left: nat): Pc {
    if left == 0 then Idle else DequeuePop(session, node, left - 1)
  }

  function ContinueStep(w: World, c: Client, freshId: Id, now: Time): World
    requires !At(w, c).Idle?
  {
    match At(w, c)
    case EnqueuePush(id) => w.(list := w.list + [id], pcs := w.pcs[c := Idle])
    case DequeuePop(session, node, left) =>
      if w.list == [] then w.(pcs := w.pcs[c := Idle])
      else w.(list := w.list[1..], pcs := w.pcs[c := DequeueLoad(session, node, left, w.list[0])])
    case DequeueLoad(session, node, left, id) =>
      if Stale(w.records, id) then w.(pcs := w.pcs[c := Again(session, node, left)])
      else if !Matches(w.records[id], session) then w.(pcs := w.pcs[c := DequeueReturn(session, node, left, id)])
      else w.(pcs := w.pcs[c := DequeueSave(id, AssignedTo(w.records[id], node, now))])
    case DequeueReturn(session, node, left, id) =>
      w.(list := w.list + [id], pcs := w.pcs[c := Again(session, node, left)])
    case DequeueSave(id, rec) =>
      w.(records := w.records[id := rec], pcs := w.pcs[c := Idle], returned := w.returned + [id])
    case CompleteSave(id, rec) => w.(records := w.records[id := rec], pcs := w.pcs[c := Idle])
    case RestartLoad(id, rec) =>
      if id !in w.records || Terminal(w.records[id].status) then w.(pcs := w.pcs[c := RestartEnqueue(rec)])
      else w.(pcs := w.pcs[c := RestartSave(id, rec, Completed(w.records[id], Some(Cancelled), None, now))])
    case RestartSave(id, rec, done) => w.(records := w.records[id := done], pcs := w.pcs[c := RestartEnqueue(rec)])
    case RestartEnqueue(rec) => Begin(w, c, freshId, rec.ticket, Some(rec.payload), now)
  }

  function Next(w: World, a: Action): World
    requires Enabled(w, a)
  {
    match a
    case CallEnqueue(c, id, ticket, payload, now) => Begin(w, c, id, ticket, payload, now)
    case CallDequeue(c, session, node) =>
      w.(pcs := w.pcs[c := DequeuePop(session, node, if |w.list| > 1 then |w.list| - 1 else 0)])
    case CallComplete(c, id, requested, result, now) =>
      if id !in w.records || Terminal(w.records[id].status) then w
      else w.(pcs := w.pcs[c := CompleteSave(id, Completed(w.records[id], requested, result, now))])
    case CallRestart(c, id) =>
      if id !in w.records || Terminal(w.records[id].status) then w
      else w.(pcs := w.pcs[c := RestartLoad(id, w.records[id])])
    case Continue(c, freshId, now) => ContinueStep(w, c, freshId, now)
  }

  const START := World([], map[], map[], [])

  ghost predicate EnabledRun(w: World, run: seq<Action>)
    decreases |run|
  {
    run == [] || (Enabled(w, run[0]) && EnabledRun(Next(w, run[0]), run[1..]))
  }

  function After(w: World, run: seq<Action>): World
    requires EnabledRun(w, run)
    decreases |run|
  {
    if run == [] then w else After(Next(w, run[0]), run[1..])
  }

  // ---- Where an id is -----------------------------------------------------

  /** The client has the id in hand: it popped it, or is about to push it. */
  predicate Carries(pc: Pc, id: Id) {
    match pc
    case EnqueuePush(i) => i == id
    case DequeueLoad(_, _, _, i) => i == id
    case DequeueReturn(_, _, _, i) => i == id
    case DequeueSave(i, _) => i == id
    case _ => false
  }

  /** An id is in the list, in one client's hands, or returned: in one place, and there once. */
  ghost predicate OnePlace(w: World) {
    && NoRepeats(w.list + w.returned)
    && (forall c, id :: c in w.pcs && Carries(w.pcs[c], id) ==> id !in w.list + w.returned)
    && (forall c, d, id :: c in w.pcs && d in w.pcs && c != d && Carries(w.pcs[c], id) ==> !Carries(w.pcs[d], id))
    && (forall id :: id in w.list + w.returned ==> id in w.records)
    && (forall c, id :: c in w.pcs && Carries(w.pcs[c], id) ==> id in w.records)
  }

  lemma Elsewhere(w: World, c: Client, pc: Pc)
    requires OnePlace(w) && forall id :: !Carries(pc, id)
    ensures OnePlace(w.(pcs := w.pcs[c := pc]))
  {
  }

  /** The client turns from one command to the next with the same id in hand. */
  lemma KeepsHolding(w: World, c: Client, pc: Pc)
    requires OnePlace(w) && forall id :: Carries(pc, id) ==> Carries(At(w, c), id)
    ensures OnePlace(w.(pcs := w.pcs[c := pc]))
  {
    var pcs := w.pcs[c := pc];
    forall d, e, id | d in pcs && e in pcs && d != e && Carries(pcs[d], id)
      ensures !Carries(pcs[e], id)
    {
      assert Carries(At(w, d), id);
      assert Carries(pcs[e], id) ==> Carries(At(w, e), id);
    }
    forall d, id | d in pcs && Carries(pcs[d], id)
      ensures id !in w.list + w.returned && id in w.records
    {
      assert Carries(At(w, d), id);
    }
  }

  lemma Pops(w: World, c: Client, pc: Pc)
    requires OnePlace(w) && w.list != [] && forall id :: Carries(pc, id) ==> id == w.list[0]
    ensures OnePlace(w.(list := w.list[1..], pcs := w.pcs[c := pc]))
  {
    var x := w.list[0];
    assert w.list + w.returned == [x] + (w.list[1..] + w.returned);
    assert (w.list + w.returned)[0] == x;
    forall i | 0 <= i < |w.list[1..] + w.returned|
      ensures (w.list[1..] + w.returned)[i] == (w.list + w.returned)[i + 1]
    {
    }
    assert x !in w.list[1..] + w.returned;
    assert x in w.list + w.returned;
    assert w.list == [x] + w.list[1..];
    assert forall y :: y in w.list[1..] ==> y in w.list;
    var pcs := w.pcs[c := pc];
    forall d, id | d in pcs && Carries(pcs[d], id)
      ensures id !in w.list[1..] + w.returned && id in w.records
      ensures d != c ==> id != x
    {
      if d == c {
        assert id == x;
      } else {
        assert Carries(w.pcs[d], id);
        assert id !in w.list + w.returned;
        assert id !in w.list && id !in w.returned;
      }
    }
  }

  lemma Releases(w: World, c: Client, id: Id, pc: Pc, toList: bool)
    requires OnePlace(w) && Carries(At(w, c), id) && forall x :: !Carries(pc, x)
    ensures OnePlace(World(if toList then w.list + [id] else w.list, w.records, w.pcs[c := pc],
                           if toList then w.returned else w.returned + [id]))
  {
    assert id !in w.list + w.returned;
    if toList {
      assert forall x :: x in (w.list + [id]) + w.returned <==> x == id || x in w.list + w.returned;
      InsertKeepsNoRepeats(w.list, id, w.returned);
    } else {
      assert w.list + (w.returned + [id]) == (w.list + w.returned) + [id];
    }
  }

  lemma InsertKeepsNoRepeats(a: seq<Id>, x: Id, b: seq<Id>)
    requires NoRepeats(a + b) && x !in a + b
    ensures NoRepeats((a + [x]) + b)
  {
    var s, t := a + b, (a + [x]) + b;
    forall i, j | 0 <= i < j < |t|
      ensures t[i] != t[j]
    {
      assert t[i] == if i < |a| then s[i] else if i == |a| then x else s[i - 1];
      assert t[j] == if j < |a| then s[j] else if j == |a| then x else s[j - 1];
    }
  }

  lemma BeginsNew(w: World, c: Client, id: Id, rec: Record)
    requires OnePlace(w) && id !in w.records
    ensures OnePlace(w.(records := w.records[id := rec], pcs := w.pcs[c := EnqueuePush(id)]))
  {
  }

  lemma Overwrites(w: World, id: Id, rec: Record)
    requires OnePlace(w)
    ensures OnePlace(w.(records := w.records[id := rec]))
  {
  }

  lemma BeginKeeps(w: World, c: Client, id: Id, ticket: Ticket, payload: Option<Payload>, now: Time)
    requires OnePlace(w) && id !in w.records
    ensures OnePlace(Begin(w, c, id, ticket, payload, now))
  {
    var safe := Sanitized(payload, DEFAULT_MAX_PAYLOAD_BYTES);
    if safe.Err? {
      Elsewhere(w, c, Idle);
    } else {
      BeginsNew(w, c, id, NewRecord(id, ticket, safe.value, now));
    }
  }

  lemma ContinueKeeps(w: World, c: Client, freshId: Id, now: Time)
    requires OnePlace(w) && !At(w, c).Idle? && (At(w, c).RestartEnqueue? ==> freshId !in w.records)
    ensures OnePlace(ContinueStep(w, c, freshId, now))
  {
    match At(w, c)
    case EnqueuePush(id) => Releases(w, c, id, Idle, true);
    case DequeuePop(session, node, left) =>
      if w.list == [] {
        Elsewhere(w, c, Idle);
      } else {
        Pops(w, c, DequeueLoad(session, node, left, w.list[0]));
      }
    case DequeueLoad(session, node, left, id) =>
      Elsewhere(w, c, Again(session, node, left));
      KeepsHolding(w, c, DequeueReturn(session, node, left, id));
      if !Stale(w.records, id) {
        KeepsHolding(w, c, DequeueSave(id, AssignedTo(w.records[id], node, now)));
      }
    case DequeueReturn(session, node, left, id) => Releases(w, c, id, Again(session, node, left), true);
    case DequeueSave(id, rec) =>
      Releases(w, c, id, Idle, false);
      Overwrites(World(w.list, w.records, w.pcs[c := Idle], w.returned + [id]), id, rec);
    case CompleteSave(id, rec) =>
      Elsewhere(w, c, Idle);
      Overwrites(w.(pcs := w.pcs[c := Idle]), id, rec);
    case RestartLoad(id, rec) =>
      Elsewhere(w, c, RestartEnqueue(rec));
      if id in w.records {
        Elsewhere(w, c, RestartSave(id, rec, Completed(w.records[id], Some(Cancelled), None, now)));
      }
    case RestartSave(id, rec, done) =>
      Elsewhere(w, c, RestartEnqueue(rec));
      Overwrites(w.(pcs := w.pcs[c := RestartEnqueue(rec)]), id, done);
    case RestartEnqueue(rec) => BeginKeeps(w, c, freshId, rec.ticket, Some(rec.payload), now);
    case Idle =>
  }

  lemma NextKeeps(w: World, a: Action)
    requires OnePlace(w) && Enabled(w, a)
    ensures OnePlace(Next(w, a))
  {
    match a
    case CallEnqueue(c, id, ticket, payload, now) => BeginKeeps(w, c, id, ticket, payload, now);
    case CallDequeue(c, session, node) => Elsewhere(w, c, DequeuePop(session, node, if |w.list| > 1 then |w.list| - 1 else 0));
    case CallComplete(c, id, requested, result, now) =>
      if id in w.records {
        Elsewhere(w, c, CompleteSave(id, Completed(w.records[id], requested, result, now)));
      }
    case CallRestart(c, id) =>
      if id in w.records {
        Elsewhere(w, c, RestartLoad(id, w.records[id]));
      }
    case Continue(c, freshId, now) => ContinueKeeps(w, c, freshId, now);
  }

  lemma {:induction false} RunKeeps(w: World, run: seq<Action>)
    requires OnePlace(w) && EnabledRun(w, run)
    ensures OnePlace(After(w, run))
    decreases |run|
  {
    if run != [] {
      NextKeeps(w, run[0]);
      RunKeeps(Next(w, run[0]), run[1..]);
    }
  }

  /** However the clients' commands interleave, no id is returned by two dequeues, no id is ever in
      the list twice, in the list and in a client's hands, or in the hands of two clients. */
  lemma ReturnedAtMostOnce(run: seq<Action>)
    requires EnabledRun(START, run)
    ensures NoRepeats(After(START, run).returned)
    ensures OnePlace(After(START, run))
  {
    RunKeeps(START, run);
    var w := After(START, run);
    forall i, j | 0 <= i < j < |w.returned|
      ensures w.returned[i] != w.returned[j]
    {
      assert w.returned[i] == (w.list + w.returned)[|w.list| + i];
      assert w.returned[j] == (w.list + w.returned)[|w.list| + j];
    }
  }

  // ---- No unit is lost ----------------------------------------------------

  ghost predicate Located(list: seq<Id>, pcs: map<Client, Pc>, id: Id) {
    id in list || exists c :: c in pcs && Carries(pcs[c], id)
  }

  /** Every unit whose record says "queued" is in the list or in some client's hands. */
  ghost predicate NoneLost(w: World) {
    forall id :: id in w.records && w.records[id].status.Queued? ==> Located(w.list, w.pcs, id)
  }

  /** A dequeuer writes an assigned record, and a restart a cancelled one. */
  predicate SavesSound(pc: Pc) {
    match pc
    case DequeueSave(_, rec) => rec.status.Assigned?
    case RestartSave(_, _, done) => done.status.Cancelled?
    case _ => true
  }

  ghost predicate AllSavesSound(w: World) {
    forall c :: c in w.pcs ==> SavesSound(w.pcs[c])
  }

  /** The step writes "queued" into the record of a unit that is neither in the list nor in anybody's hands. */
  ghost predicate Strands(w: World, a: Action) {
    && a.Continue? && At(w, a.c).CompleteSave? && At(w, a.c).rec.status.Queued?
    && !Located(w.list, w.pcs, At(w, a.c).id)
  }

  ghost predicate NothingStranded(w: World, run: seq<Action>)
    requires EnabledRun(w, run)
    decreases |run|
  {
    run == [] || (!Strands(w, run[0]) && NothingStranded(Next(w, run[0]), run[1..]))
  }

  /** One client moves on; what it lets go of is in the new list or no longer queued. */
  lemma MovesOn(w: World, c: Client, pc: Pc, list: seq<Id>, records: map<Id, Record>, returned: seq<Id>)
    requires NoneLost(w)
    requires forall id :: id in records && records[id].status.Queued? && (id in w.list || Carries(At(w, c), id)) ==>
                            id in list || Carries(pc, id)
    requires forall id :: id in records && records[id].status.Queued? ==>
                            (id in w.records && w.records[id].status.Queued?) || id in list || Carries(pc, id)
    ensures NoneLost(World(list, records, w.pcs[c := pc], returned))
  {
    var pcs := w.pcs[c := pc];
    forall id | id in records && records[id].status.Queued?
      ensures Located(list, pcs, id)
    {
      if id in list || Carries(pc, id) {
        assert Carries(pc, id) ==> c in pcs && Carries(pcs[c], id);
      } else {
        assert Located(w.list, w.pcs, id);
        var d :| d in w.pcs && Carries(w.pcs[d], id);
        assert d != c && d in pcs && Carries(pcs[d], id);
      }
    }
  }

  lemma BeginLosesNothing(w: World, c: Client, id: Id, ticket: Ticket, payload: Option<Payload>, now: Time)
    requires NoneLost(w) && (forall x :: !Carries(At(w, c), x))
    ensures NoneLost(Begin(w, c, id, ticket, payload, now))
  {
    var safe := Sanitized(payload, DEFAULT_MAX_PAYLOAD_BYTES);
    if safe.Err? {
      MovesOn(w, c, Idle, w.list, w.records, w.returned);
    } else {
      MovesOn(w, c, EnqueuePush(id), w.list, w.records[id := NewRecord(id, ticket, safe.value, now)], w.returned);
    }
  }

  lemma ContinueLosesNothing(w: World, c: Client, freshId: Id, now: Time)
    requires NoneLost(w) && !At(w, c).Idle? && SavesSound(At(w, c)) && !At(w, c).CompleteSave?
    ensures NoneLost(ContinueStep(w, c, freshId, now))
  {
    var next := ContinueStep(w, c, freshId, now);
    match At(w, c)
    case EnqueuePush(id) => MovesOn(w, c, Idle, next.list, w.records, w.returned);
    case DequeuePop(session, node, left) =>
      if w.list != [] { assert w.list == [w.list[0]] + w.list[1..]; }
      MovesOn(w, c, At(next, c), next.list, w.records, w.returned);
    case DequeueLoad(session, node, left, id) => MovesOn(w, c, At(next, c), w.list, w.records, w.returned);
    case DequeueReturn(session, node, left, id) => MovesOn(w, c, Again(session, node, left), next.list, w.records, w.returned);
    case DequeueSave(id, rec) => MovesOn(w, c, Idle, w.list, next.records, next.returned);
    case RestartLoad(id, rec) => MovesOn(w, c, At(next, c), w.list, w.records, w.returned);
    case RestartSave(id, rec, done) => MovesOn(w, c, RestartEnqueue(rec), w.list, next.records, w.returned);
    case RestartEnqueue(rec) => BeginLosesNothing(w, c, freshId, rec.ticket, Some(rec.payload), now);
    case _ =>
  }

  /** Writing a completed record loses a unit exactly when it strands it. */
  lemma CompleteLosesIff(w: World, a: Action)
    requires NoneLost(w) && Enabled(w, a) && a.Continue? && At(w, a.c).CompleteSave?
    ensures NoneLost(Next(w, a)) <==> !Strands(w, a)
  {
    var pc, next := At(w, a.c), Next(w, a);
    if Strands(w, a) {
      assert next.records[pc.id] == pc.rec;
    } else if pc.rec.status.Queued? {
      LocatedStays(w, a.c, pc.id);
      forall id | id in next.records && next.records[id].status.Queued?
        ensures Located(next.list, next.pcs, id)
      {
        LocatedStays(w, a.c, id);
      }
    } else {
      MovesOn(w, a.c, Idle, w.list, next.records, w.returned);
    }
  }

  lemma LocatedStays(w: World, c: Client, id: Id)
    requires Located(w.list, w.pcs, id) && At(w, c).CompleteSave?
    ensures Located(w.list, w.pcs[c := Idle], id)
  {
    if id !in w.list {
      var d :| d in w.pcs && Carries(w.pcs[d], id);
      assert d != c && Carries(w.pcs[c := Idle][d], id);
    }
  }

  /** A step loses a queued unit exactly when it strands it. */
  lemma NextLosesIff(w: World, a: Action)
    requires NoneLost(w) && AllSavesSound(w) && Enabled(w, a)
    ensures NoneLost(Next(w, a)) <==> !Strands(w, a)
  {
    var next := Next(w, a);
    match a
    case CallEnqueue(c, id, ticket, payload, now) => BeginLosesNothing(w, c, id, ticket, payload, now);
    case Continue(c, freshId, now) =>
      if At(w, c).CompleteSave? { CompleteLosesIff(w, a); } else { ContinueLosesNothing(w, c, freshId, now); }
    case CallDequeue(c, _, _) => MovesOn(w, c, At(next, c), w.list, w.records, w.returned);
    case CallComplete(c, id, _, _, _) =>
      if next != w { MovesOn(w, c, At(next, c), w.list, w.records, w.returned); }
    case CallRestart(c, id) =>
      if next != w { MovesOn(w, c, At(next, c), w.list, w.records, w.returned); }
  }

  lemma SavesStaySound(w: World, a: Action)
    requires AllSavesSound(w) && Enabled(w, a)
    ensures AllSavesSound(Next(w, a))
  {
    forall c | c in Next(w, a).pcs
      ensures SavesSound(Next(w, a).pcs[c])
    {
      assert c != a.c ==> c in w.pcs && Next(w, a).pcs[c] == w.pcs[c];
    }
  }

  /** However the commands interleave, a unit that is still queued can still be dequeued: its id is in
      the list or in the hands of a client that has yet to push or return it, as long as no step strands
      a unit by writing "queued" for one that is in neither place. */
  lemma {:induction false} QueuedUnitsAreNeverLost(w: World, run: seq<Action>)
    requires NoneLost(w) && AllSavesSound(w) && EnabledRun(w, run) && NothingStranded(w, run)
    ensures NoneLost(After(w, run)) && AllSavesSound(After(w, run))
    decreases |run|
  {
    if run != [] {
      NextLosesIff(w, run[0]);
      SavesStaySound(w, run[0]);
      QueuedUnitsAreNeverLost(Next(w, run[0]), run[1..]);
    }
  }

  // ---- Terminal records ---------------------------------------------------

  /** The client is about to write another record over that of `u`. */
  predicate WritesOver(pc: Pc, u: Id, rec: Record) {
    match pc
    case DequeueSave(id, r) => id == u && r != rec
    case CompleteSave(id, r) => id == u && r != rec
    case RestartSave(id, _, r) => id == u && r != rec
    case _ => false
  }

  ghost predicate Settles(w: World, u: Id) {
    && u in w.records && Terminal(w.records[u].status)
    && forall c :: c in w.pcs ==> !WritesOver(w.pcs[c], u, w.records[u])
  }

  lemma StepKeepsSettled(w: World, a: Action, u: Id)
    requires Settles(w, u) && Enabled(w, a)
    ensures Settles(Next(w, a), u) && Next(w, a).records[u] == w.records[u]
  {
    var next := Next(w, a);
    assert !WritesOver(At(w, a.c), u, w.records[u]);
    assert !WritesOver(At(next, a.c), u, w.records[u]);
    assert forall c :: c in next.pcs && c != a.c ==> c in w.pcs && next.pcs[c] == w.pcs[c];
  }

  ghost predicate Stays(w: World, run: seq<Action>, u: Id)
    requires u in w.records && EnabledRun(w, run)
  {
    u in After(w, run).records && After(w, run).records[u] == w.records[u]
  }

  lemma {:induction false} RunKeepsSettled(w: World, run: seq<Action>, u: Id)
    requires Settles(w, u) && EnabledRun(w, run)
    ensures Stays(w, run, u)
    decreases |run|
  {
    if run != [] {
      StepKeepsSettled(w, run[0], u);
      RunKeepsSettled(Next(w, run[0]), run[1..], u);
    }
  }

  /** A terminal record stays as it is over every run exactly when no client, having read the unit before
      it became terminal, is about to write another record over it. */
  lemma TerminalStaysIff(w: World, u: Id)
    requires u in w.records && Terminal(w.records[u].status)
    ensures (forall run :: EnabledRun(w, run) ==> Stays(w, run, u)) <==>
            (forall c :: c in w.pcs ==> !WritesOver(w.pcs[c], u, w.records[u]))
  {
    if Settles(w, u) {
      forall run | EnabledRun(w, run)
        ensures Stays(w, run, u)
      {
        RunKeepsSettled(w, run, u);
      }
    } else {
      var c :| c in w.pcs && WritesOver(w.pcs[c], u, w.records[u]);
      var a := Continue(c, 0, 0);
      OneStep(w, a);
      assert EnabledRun(w, [a]) && !Stays(w, [a], u);
    }
  }

  // ---- One client alone ---------------------------------------------------

  ghost predicate RunsTo(w: World, run: seq<Action>, end: World) {
    EnabledRun(w, run) && After(w, run) == end
  }

  lemma {:induction false} RunsOn(w: World, run: seq<Action>, mid: World, rest: seq<Action>, end: World)
    requires RunsTo(w, run, mid) && RunsTo(mid, rest, end)
    ensures RunsTo(w, run + rest, end)
    decreases |run|
  {
    if run == [] {
      assert run + rest == rest;
    } else {
      RunsOn(Next(w, run[0]), run[1..], mid, rest, end);
      assert (run + rest)[0] == run[0] && (run + rest)[1..] == run[1..] + rest;
    }
  }

  lemma OneStep(w: World, a: Action)
    requires Enabled(w, a)
    ensures RunsTo(w, [a], Next(w, a))
  {
    assert [a][1..] == [];
    assert EnabledRun(Next(w, a), []);
  }

  /** The dequeue loop with `left` turns after the next one. */
  function Attempts(rs: Store, session: Option<nat>, node: Option<nat>, left: nat, now: Time): (Store, Outcome)
    decreases left
  {
    if rs.list == [] then (rs, Unit(None))
    else
      var id, rest := rs.list[0], rs.(list := rs.list[1..]);
      if Hits(rs.records, id, session) then
        var rec := AssignedTo(rs.records[id], node, now);
        (rest.(records := rs.records[id := rec]), Unit(Some(rec)))
      else
        var turned := if Stale(rs.records, id) then rest else rest.(list := rest.list + [id]);
        if left == 0 then (turned, Unit(None)) else Attempts(turned, session, node, left - 1, now)
  }

  lemma {:induction false} AttemptsRotate(rs: Store, k: nat, session: Option<nat>, node: Option<nat>, left: nat, now: Time)
    requires forall id :: id in rs.records ==> rs.records[id].id == id
    requires k + left + 1 == |rs.list| && forall j :: 0 <= j < k ==> !Hits(rs.records, rs.list[j], session)
    ensures Attempts(rs.(list := Turned(rs.records, rs.list, k)), session, node, left, now) == DequeueStore(rs, session, node, now)
    decreases left
  {
    Rotates(rs.records, rs.list, k);
    if Hits(rs.records, rs.list[k], session) {
      LoopHits(rs.records, rs.list, k, session, node, now);
    } else if left > 0 {
      AttemptsRotate(rs, k + 1, session, node, left - 1, now);
    } else {
      LoopMisses(rs.records, rs.list, session, node, now);
    }
  }

  lemma AttemptsDequeue(rs: Store, session: Option<nat>, node: Option<nat>, now: Time)
    requires forall id :: id in rs.records ==> rs.records[id].id == id
    ensures Attempts(rs, session, node, if |rs.list| > 1 then |rs.list| - 1 else 0, now) == DequeueStore(rs, session, node, now)
  {
    if rs.list != [] {
      TurnedEnds(rs.records, rs.list);
      AttemptsRotate(rs, 0, session, node, |rs.list| - 1, now);
    }
  }

  ghost predicate AllBy(run: seq<Action>, c: Client) {
    forall a :: a in run ==> a.c == c
  }

  /** The world once `c` alone has done what `r` says and is idle again. */
  function Settled(w: World, c: Client, r: (Store, Outcome)): World {
    World(r.0.list, r.0.records, w.pcs[c := Idle],
          if r.1.Unit? && r.1.unit.Some? then w.returned + [r.1.unit.value.id] else w.returned)
  }

  /** One turn of the loop, when it does not take the unit. */
  lemma SoloTurn(w: World, c: Client, session: Option<nat>, node: Option<nat>, left: nat, now: Time) returns (run: seq<Action>)
    requires At(w, c) == DequeuePop(session, node, left) && w.list != [] && !Hits(w.records, w.list[0], session)
    ensures AllBy(run, c)
    ensures RunsTo(w, run, w.(pcs := w.pcs[c := Again(session, node, left)],
                              list := if Stale(w.records, w.list[0]) then w.list[1..] else w.list[1..] + [w.list[0]]))
  {
    var go := Continue(c, 0, now);
    var w1 := Next(w, go);
    OneStep(w, go);
    var w2 := Next(w1, go);
    OneStep(w1, go);
    RunsOn(w, [go], w1, [go], w2);
    run := [go] + [go];
    if Stale(w.records, w.list[0]) {
      assert w2 == w.(pcs := w.pcs[c := Again(session, node, left)], list := w.list[1..]);
    } else {
      OneStep(w2, go);
      var w3 := Next(w2, go);
      RunsOn(w, run, w2, [go], w3);
      run := run + [go];
      assert w3 == w.(pcs := w.pcs[c := Again(session, node, left)], list := w.list[1..] + [w.list[0]]);
    }
  }

  lemma SoloHit(w: World, c: Client, session: Option<nat>, node: Option<nat>, left: nat, now: Time) returns (run: seq<Action>)
    requires At(w, c) == DequeuePop(session, node, left) && w.list != [] && Hits(w.records, w.list[0], session)
    requires w.records[w.list[0]].id == w.list[0]
    ensures AllBy(run, c)
    ensures RunsTo(w, run, Settled(w, c, Attempts(Store(w.list, w.records), session, node, left, now)))
  {
    var go := Continue(c, 0, now);
    var w1 := Next(w, go);
    OneStep(w, go);
    var w2 := Next(w1, go);
    OneStep(w1, go);
    RunsOn(w, [go], w1, [go], w2);
    var w3 := Next(w2, go);
    OneStep(w2, go);
    RunsOn(w, [go] + [go], w2, [go], w3);
    run := [go] + [go] + [go];
    assert w3 == Settled(w, c, Attempts(Store(w.list, w.records), session, node, left, now));
  }

  lemma {:induction false} SoloAttempts(w: World, c: Client, session: Option<nat>, node: Option<nat>, left: nat, now: Time)
    returns (run: seq<Action>)
    requires At(w, c) == DequeuePop(session, node, left)
    requires forall id :: id in w.records ==> w.records[id].id == id
    ensures AllBy(run, c)
    ensures RunsTo(w, run, Settled(w, c, Attempts(Store(w.list, w.records), session, node, left, now)))
    decreases left
  {
    if w.list == [] {
      run := [Continue(c, 0, now)];
      OneStep(w, run[0]);
    } else if Hits(w.records, w.list[0], session) {
      run := SoloHit(w, c, session, node, left, now);
    } else {
      var turn := SoloTurn(w, c, session, node, left, now);
      var w1 := After(w, turn);
      if left == 0 {
        run := turn;
      } else {
        var rest := SoloAttempts(w1, c, session, node, left - 1, now);
        var end := After(w1, rest);
        RunsOn(w, turn, w1, rest, end);
        assert w.pcs[c := Again(session, node, left)][c := Idle] == w.pcs[c := Idle];
        run := turn + rest;
      }
    }
  }

  lemma StartsDequeue(w: World, c: Client, session: Option<nat>, node: Option<nat>) returns (w1: World)
    requires At(w, c).Idle?
    ensures RunsTo(w, [CallDequeue(c, session, node)], w1)
    ensures w1 == w.(pcs := w.pcs[c := DequeuePop(session, node, if |w.list| > 1 then |w.list| - 1 else 0)])
  {
    w1 := Next(w, CallDequeue(c, session, node));
    OneStep(w, CallDequeue(c, session, node));
  }

  lemma SettledLater(w: World, c: Client, pc: Pc, r: (Store, Outcome))
    ensures Settled(w.(pcs := w.pcs[c := pc]), c, r) == Settled(w, c, r)
  {
    assert w.pcs[c := pc][c := Idle] == w.pcs[c := Idle];
  }

  /** A client that dequeues with nobody in between can finish, and then has done exactly what the
      sequential queue does. */
  lemma SoloDequeueFinishes(w: World, c: Client, session: Option<nat>, node: Option<nat>, now: Time) returns (run: seq<Action>)
    requires At(w, c).Idle? && forall id :: id in w.records ==> w.records[id].id == id
    ensures AllBy(run, c)
    ensures RunsTo(w, run, Settled(w, c, DequeueStore(Store(w.list, w.records), session, node, now)))
  {
    var w1 := StartsDequeue(w, c, session, node);
    var left := if |w.list| > 1 then |w.list| - 1 else 0;
    var rest := SoloAttempts(w1, c, session, node, left, now);
    var r := Attempts(Store(w.list, w.records), session, node, left, now);
    SettledLater(w, c, DequeuePop(session, node, left), r);
    AttemptsDequeue(Store(w.list, w.records), session, node, now);
    RunsOn(w, [CallDequeue(c, session, node)], w1, rest, Settled(w, c, r));
    run := [CallDequeue(c, session, node)] + rest;
  }

  /** `c` sends commands of the call it is in, and nobody else sends any. */
  predicate Continues(run: seq<Action>, c: Client) {
    forall a :: a in run ==> a.Continue? && a.c == c
  }

  lemma Unfold(w: World, c: Client, run: seq<Action>) returns (next: World, rest: seq<Action>)
    requires EnabledRun(w, run) && Continues(run, c) && At(After(w, run), c).Idle? && !At(w, c).Idle?
    ensures run != [] && run[0].Continue? && rest == run[1..] && next == ContinueStep(w, c, run[0].freshId, run[0].now)
    ensures EnabledRun(next, rest) && Continues(rest, c) && After(w, run) == After(next, rest)
  {
    assert run[0] in run;
    next, rest := Next(w, run[0]), run[1..];
  }

  lemma IdleStops(w: World, c: Client, run: seq<Action>)
    requires At(w, c).Idle? && EnabledRun(w, run) && Continues(run, c)
    ensures After(w, run) == w
  {
  }

  /** A turn that does not take the unit, on the way of a run that ends idle. */
  lemma MissTurns(w: World, c: Client, session: Option<nat>, node: Option<nat>, left: nat, run: seq<Action>)
    returns (next: World, rest: seq<Action>)
    requires At(w, c) == DequeuePop(session, node, left) && w.list != [] && !Hits(w.records, w.list[0], session)
    requires EnabledRun(w, run) && Continues(run, c) && At(After(w, run), c).Idle?
    ensures next == w.(pcs := w.pcs[c := Again(session, node, left)],
                       list := if Stale(w.records, w.list[0]) then w.list[1..] else w.list[1..] + [w.list[0]])
    ensures EnabledRun(next, rest) && Continues(rest, c) && After(w, run) == After(next, rest)
  {
    next, rest := Unfold(w, c, run);
    next, rest := Unfold(next, c, rest);
    if !Stale(w.records, w.list[0]) {
      next, rest := Unfold(next, c, rest);
    }
  }

  lemma HitTurns(w: World, c: Client, session: Option<nat>, node: Option<nat>, left: nat, run: seq<Action>)
    returns (now: Time)
    requires At(w, c) == DequeuePop(session, node, left) && w.list != [] && Hits(w.records, w.list[0], session)
    requires w.records[w.list[0]].id == w.list[0]
    requires EnabledRun(w, run) && Continues(run, c) && At(After(w, run), c).Idle?
    ensures After(w, run) == Settled(w, c, Attempts(Store(w.list, w.records), session, node, left, now))
  {
    var next, rest := Unfold(w, c, run);
    now := rest[0].now;
    next, rest := Unfold(next, c, rest);
    HitEnds(w, c, session, node, left, next, rest, now);
  }

  /** However an undisturbed dequeue got to its end, it did what its attempts say. */
  lemma {:induction false} EverySoloRun(w: World, c: Client, session: Option<nat>, node: Option<nat>, left: nat, run: seq<Action>)
    returns (now: Time)
    requires At(w, c) == DequeuePop(session, node, left)
    requires forall id :: id in w.records ==> w.records[id].id == id
    requires EnabledRun(w, run) && Continues(run, c) && At(After(w, run), c).Idle?
    ensures After(w, run) == Settled(w, c, Attempts(Store(w.list, w.records), session, node, left, now))
    decreases left
  {
    now := 0;
    if w.list == [] {
      var next, rest := Unfold(w, c, run);
      IdleStops(next, c, rest);
    } else if Hits(w.records, w.list[0], session) {
      now := HitTurns(w, c, session, node, left, run);
    } else {
      var next, rest := MissTurns(w, c, session, node, left, run);
      if left == 0 {
        IdleStops(next, c, rest);
      } else {
        now := EverySoloRun(next, c, session, node, left - 1, rest);
        SettledLater(w, c, Again(session, node, left), Attempts(Store(next.list, w.records), session, node, left - 1, now));
      }
    }
  }

  lemma HitEnds(w: World, c: Client, session: Option<nat>, node: Option<nat>, left: nat, mid: World, run: seq<Action>, now: Time)
    requires w.list != [] && Hits(w.records, w.list[0], session) && w.records[w.list[0]].id == w.list[0]
    requires mid == w.(list := w.list[1..], pcs := mid.pcs)
    requires mid.pcs == w.pcs[c := DequeueSave(w.list[0], AssignedTo(w.records[w.list[0]], node, now))]
    requires EnabledRun(mid, run) && Continues(run, c) && At(After(mid, run), c).Idle?
    ensures After(mid, run) == Settled(w, c, Attempts(Store(w.list, w.records), session, node, left, now))
  {
    var end, rest := Unfold(mid, c, run);
    IdleStops(end, c, rest);
    assert mid.pcs[c := Idle] == w.pcs[c := Idle];
  }

  /** Whenever a client dequeues with nobody in between and ends idle, it has done exactly what the
      sequential queue does; `now` is the clock it read when it assigned the unit. */
  lemma SoloDequeue(w: World, c: Client, session: Option<nat>, node: Option<nat>, run: seq<Action>) returns (now: Time)
    requires At(w, c).Idle? && forall id :: id in w.records ==> w.records[id].id == id
    requires var go := [CallDequeue(c, session, node)] + run;
             EnabledRun(w, go) && Continues(run, c) && At(After(w, go), c).Idle?
    ensures After(w, [CallDequeue(c, session, node)] + run) ==
            Settled(w, c, DequeueStore(Store(w.list, w.records), session, node, now))
  {
    var go := [CallDequeue(c, session, node)] + run;
    assert go[1..] == run;
    var left := if |w.list| > 1 then |w.list| - 1 else 0;
    now := EverySoloRun(Next(w, go[0]), c, session, node, left, run);
    SettledLater(w, c, DequeuePop(session, node, left), Attempts(Store(w.list, w.records), session, node, left, now));
    AttemptsDequeue(Store(w.list, w.records), session, node, now);
  }

  // ---- What interleaving breaks -------------------------------------------

  lemma Then(w: World, run: seq<Action>, mid: World, a: Action) returns (longer: seq<Action>, end: World)
    requires RunsTo(w, run, mid) && Enabled(mid, a)
    ensures end == Next(mid, a) && longer == run + [a] && RunsTo(w, longer, end)
  {
    end, longer := Next(mid, a), run + [a];
    OneStep(mid, a);
    RunsOn(w, run, mid, [a], end);
  }

  /** Finality of terminal records, which every sequential run keeps, is lost when commands interleave:
      a unit cancelled between a dequeuer's read and its write is overwritten and handed out. */
  lemma CancelledUnitIsHandedOut(u: Id, ticket: Ticket) returns (run: seq<Action>, w1: World, a: Action)
    ensures RunsTo(START, run, w1) && u in w1.records && w1.records[u].status.Cancelled?
    ensures Enabled(w1, a) && Next(w1, a).returned == [u] && Next(w1, a).records[u].status.Assigned?
  {
    run, w1 := [], START;
    run, w1 := Then(START, run, w1, CallEnqueue(0, u, ticket, None, 0));
    assert w1 == World([], map[u := NewRecord(u, ticket, [], 0)], map[0 := EnqueuePush(u)], []);
    run, w1 := Then(START, run, w1, Continue(0, 0, 0));
    assert w1.list == [u];
    run, w1 := Then(START, run, w1, CallDequeue(1, None, None));
    run, w1 := Then(START, run, w1, Continue(1, 0, 1));
    assert At(w1, 1) == DequeueLoad(None, None, 0, u);
    run, w1 := Then(START, run, w1, Continue(1, 0, 1));
    assert At(w1, 1).DequeueSave?;
    run, w1 := Then(START, run, w1, CallComplete(2, u, Some(Cancelled), None, 2));
    assert At(w1, 2).CompleteSave?;
    run, w1 := Then(START, run, w1, Continue(2, 0, 2));
    a := Continue(1, 0, 3);
  }
}
