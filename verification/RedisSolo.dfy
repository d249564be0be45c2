// The calls of packages/compute/work_unit_redis.py, command by command but with nobody in between: what they
// do is what the sequential queue does.  `RedisSteps.SoloDequeue` is the fourth of them.
module RedisSolo {
  import opened Wrappers
  import opened WorkerPolicy
  import opened WorkUnits
  import opened RedisQueue
  import opened RedisSteps

  /** `c` is idle again, list and records are those of the sequential queue, and nothing else has changed. */
  ghost predicate Does(w: World, c: Client, end: World, rs: Store) {
    && At(end, c).Idle? && end.list == rs.list && end.records == rs.records && end.returned == w.returned
    && forall d :: d != c ==> At(end, d) == At(w, d)
  }

  /** The call, and then commands of `c` only, until it is idle again. */
  ghost predicate Alone(w: World, call: Action, run: seq<Action>) {
    && At(w, call.c).Idle? && EnabledRun(w, [call] + run) && Continues(run, call.c)
    && At(After(w, [call] + run), call.c).Idle?
  }

  lemma Starts(w: World, call: Action, run: seq<Action>)
    requires Alone(w, call, run)
    ensures Enabled(w, call) && EnabledRun(Next(w, call), run) && After(w, [call] + run) == After(Next(w, call), run)
  {
    assert ([call] + run)[1..] == run;
  }

  lemma BeginEnds(w: World, mid: World, c: Client, id: Id, ticket: Ticket, payload: Option<Payload>, now: Time, run: seq<Action>)
    requires mid == Begin(w, c, id, ticket, payload, now)
    requires EnabledRun(mid, run) && Continues(run, c) && At(After(mid, run), c).Idle?
    ensures Does(w, c, After(mid, run), EnqueueStore(Store(w.list, w.records), id, ticket, payload, now).0)
  {
    if At(mid, c).Idle? {
      IdleStops(mid, c, run);
    } else {
      var end, rest := Unfold(mid, c, run);
      IdleStops(end, c, rest);
    }
  }

  /** Enqueue: two commands, or none if the payload is refused. */
  lemma SoloEnqueue(w: World, c: Client, id: Id, ticket: Ticket, payload: Option<Payload>, now: Time, run: seq<Action>)
    requires Alone(w, CallEnqueue(c, id, ticket, payload, now), run)
    ensures Does(w, c, After(w, [CallEnqueue(c, id, ticket, payload, now)] + run),
                 EnqueueStore(Store(w.list, w.records), id, ticket, payload, now).0)
  {
    var call := CallEnqueue(c, id, ticket, payload, now);
    Starts(w, call, run);
    BeginEnds(w, Next(w, call), c, id, ticket, payload, now, run);
  }

  /** Complete: a read, and a write if the unit is known and live. */
  lemma SoloComplete(w: World, c: Client, id: Id, requested: Option<Status>, result: Option<UnitResult>, now: Time, run: seq<Action>)
    requires Alone(w, CallComplete(c, id, requested, result, now), run) && (id in w.records ==> w.records[id].id == id)
    ensures Does(w, c, After(w, [CallComplete(c, id, requested, result, now)] + run),
                 CompleteStore(Store(w.list, w.records), id, requested, result, now).0)
  {
    var call := CallComplete(c, id, requested, result, now);
    Starts(w, call, run);
    var mid := Next(w, call);
    if At(mid, c).Idle? {
      IdleStops(mid, c, run);
    } else {
      var end, rest := Unfold(mid, c, run);
      IdleStops(end, c, rest);
    }
  }

  /** Restart: it reads the unit, reads and writes it once more to cancel it, and enqueues; `newId`, `t1` and
      `t2` are the id and the clock readings it was given on the way. */
  lemma SoloRestart(w: World, c: Client, id: Id, run: seq<Action>) returns (newId: Id, t1: Time, t2: Time)
    requires Alone(w, CallRestart(c, id), run) && (id in w.records ==> w.records[id].id == id)
    ensures Does(w, c, After(w, [CallRestart(c, id)] + run), RestartStore(Store(w.list, w.records), id, newId, t1, t2).0)
  {
    newId, t1, t2 := 0, 0, 0;
    var call := CallRestart(c, id);
    Starts(w, call, run);
    var mid := Next(w, call);
    if At(mid, c).Idle? {
      IdleStops(mid, c, run);
    } else {
      var w1, rest1 := Unfold(mid, c, run);
      t1 := run[0].now;
      var w2, rest2 := Unfold(w1, c, rest1);
      newId, t2 := rest2[0].freshId, rest2[0].now;
      RestartEnds(w, c, id, w2, rest2, t1);
    }
  }

  lemma RestartEnds(w: World, c: Client, id: Id, w2: World, run: seq<Action>, t1: Time)
    requires id in w.records && w.records[id].id == id && !Terminal(w.records[id].status) && At(w, c).Idle?
    requires var done := Completed(w.records[id], Some(Cancelled), None, t1);
             && w2.list == w.list && w2.records == w.records[id := done] && w2.returned == w.returned
             && At(w2, c) == RestartEnqueue(w.records[id]) && forall d :: d != c ==> At(w2, d) == At(w, d)
    requires EnabledRun(w2, run) && Continues(run, c) && At(After(w2, run), c).Idle?
    ensures run != [] && Does(w, c, After(w2, run), RestartStore(Store(w.list, w.records), id, run[0].freshId, t1, run[0].now).0)
  {
    var rec := w.records[id];
    var mid, rest := Unfold(w2, c, run);
    BeginEnds(w2, mid, c, run[0].freshId, rec.ticket, Some(rec.payload), run[0].now, rest);
  }
}
