// Replaying a worker's events on the host: packages/compute/mesh_event_replay_legacy.py.
module MeshReplay {
  import opened Wrappers
  import opened WorkUnits

  /** A stored event of the run. */
  datatype Event = Event(id: string, body: string)

  function Ids(log: seq<Event>): set<string> {
    set e | e in log :: e.id
  }

  predicate DistinctIds(log: seq<Event>) {
    forall i, j :: 0 <= i < j < |log| ==> log[i].id != log[j].id
  }

  /** The rows that are not in the baseline, serialised. */
  function Collected(rows: seq<Event>, baseline: set<string>): seq<RawEvent> {
    if rows == [] then []
    else
      var init, last := rows[..|rows| - 1], rows[|rows| - 1];
      if last.id in baseline then Collected(init, baseline) else Collected(init, baseline) + [Mapping(last.id, last.body)]
  }

  /** A raw event with a usable id. */
  predicate Replayable(raw: RawEvent) {
    raw.Mapping? && raw.eventId != ""
  }

  /** The events a replay appends to a log that already holds `existing`: the first usable one of every
      id it does not know. */
  function NewEvents(existing: set<string>, raws: seq<RawEvent>): seq<Event> {
    if raws == [] then []
    else
      var before, last := NewEvents(existing, raws[..|raws| - 1]), raws[|raws| - 1];
      if Replayable(last) && last.eventId !in existing && last.eventId !in Ids(before)
      then before + [Event(last.eventId, last.body)]
      else before
  }

  class EventStore {
    var log: seq<Event>

    constructor ()
      ensures log == []
    {
      log := [];
    }

    method Append(e: Event)
      modifies this
      ensures log == old(log) + [e]
    {
      log := log + [e];
    }
  }

  method BaselineEventIds(store: EventStore) returns (ids: set<string>)
    ensures ids == Ids(store.log)
  {
    ids := set e | e in store.log :: e.id;
  }

  method CollectReplayEvents(store: EventStore, baseline: set<string>) returns (out: seq<RawEvent>)
    ensures out == Collected(store.log, baseline)
  {
    out := [];
    var rows := store.log;
    for i := 0 to |rows|
      invariant out == Collected(rows[..i], baseline)
    {
      assert rows[..i + 1][..i] == rows[..i];
      if rows[i].id in baseline {
        continue;
      }
      out := out + [Mapping(rows[i].id, rows[i].body)];
    }
    assert rows[..|rows|] == rows;
  }

  method ReplayEventsToStore(store: EventStore, raws: seq<RawEvent>) returns (appended: nat)
    modifies store
    ensures store.log == old(store.log) + NewEvents(Ids(old(store.log)), raws)
    ensures appended == |store.log| - |old(store.log)|
  {
    ghost var start := store.log;
    var existing := set e | e in store.log :: e.id;
    appended := 0;
    for i := 0 to |raws|
      invariant store.log == start + NewEvents(Ids(start), raws[..i])
      invariant existing == Ids(start) + Ids(NewEvents(Ids(start), raws[..i]))
      invariant appended == |store.log| - |start|
    {
      assert raws[..i + 1][..i] == raws[..i];
      if raws[i].NotAMapping? {
        continue;
      }
      var id := raws[i].eventId;
      if id == "" || id in existing {
        continue;
      }
      IdsSnoc(NewEvents(Ids(start), raws[..i]), Event(id, raws[i].body));
      store.Append(Event(id, raws[i].body));
      existing := existing + {id};
      appended := appended + 1;
    }
    assert raws[..|raws|] == raws;
  }

  lemma IdsSnoc(log: seq<Event>, e: Event)
    ensures Ids(log + [e]) == Ids(log) + {e.id}
  {
  }

  lemma IdsConcat(a: seq<Event>, b: seq<Event>)
    ensures Ids(a + b) == Ids(a) + Ids(b)
  {
  }

  // ---- What a replay adds -------------------------------------------------

  /** Ids that a batch can contribute. */
  function BatchIds(raws: seq<RawEvent>): set<string> {
    set r | r in raws && Replayable(r) :: r.eventId
  }

  /** The new events have distinct ids, exactly those of the batch that were not there before. */
  lemma {:induction false} NewEventsAre(existing: set<string>, raws: seq<RawEvent>)
    ensures DistinctIds(NewEvents(existing, raws))
    ensures Ids(NewEvents(existing, raws)) == BatchIds(raws) - existing
  {
    if raws != [] {
      var init, last := raws[..|raws| - 1], raws[|raws| - 1];
      NewEventsAre(existing, init);
      assert raws == init + [last];
      assert BatchIds(raws) == BatchIds(init) + if Replayable(last) then {last.eventId} else {};
      var before := NewEvents(existing, init);
      if Replayable(last) {
        IdsSnoc(before, Event(last.eventId, last.body));
      }
      forall i | 0 <= i < |before|
        ensures before[i].id in Ids(before)
      {
      }
    }
  }

  lemma {:induction false} NothingNew(existing: set<string>, raws: seq<RawEvent>)
    requires BatchIds(raws) <= existing
    ensures NewEvents(existing, raws) == []
  {
    if raws != [] {
      var init, last := raws[..|raws| - 1], raws[|raws| - 1];
      assert raws == init + [last];
      NothingNew(existing, init);
    }
  }

  /** Replaying a batch a second time adds nothing. */
  lemma ReplayTwice(log: seq<Event>, raws: seq<RawEvent>)
    ensures NewEvents(Ids(log + NewEvents(Ids(log), raws)), raws) == []
  {
    NewEventsAre(Ids(log), raws);
    IdsConcat(log, NewEvents(Ids(log), raws));
    NothingNew(Ids(log + NewEvents(Ids(log), raws)), raws);
  }

  function Replayed(log: seq<Event>, raws: seq<RawEvent>): seq<Event> {
    log + NewEvents(Ids(log), raws)
  }

  /** Two batches leave the same ids in either order, and the log stays free of repeated ids. */
  lemma ReplayOrder(log: seq<Event>, a: seq<RawEvent>, b: seq<RawEvent>)
    ensures Ids(Replayed(Replayed(log, a), b)) == Ids(Replayed(Replayed(log, b), a)) == Ids(log) + BatchIds(a) + BatchIds(b)
    ensures DistinctIds(log) ==> DistinctIds(Replayed(Replayed(log, a), b))
  {
    ReplayedIds(log, a);
    ReplayedIds(log, b);
    ReplayedIds(Replayed(log, a), b);
    ReplayedIds(Replayed(log, b), a);
  }

  lemma ReplayedIds(log: seq<Event>, raws: seq<RawEvent>)
    ensures Ids(Replayed(log, raws)) == Ids(log) + BatchIds(raws)
    ensures DistinctIds(log) ==> DistinctIds(Replayed(log, raws))
  {
    var added := NewEvents(Ids(log), raws);
    NewEventsAre(Ids(log), raws);
    IdsConcat(log, added);
    if DistinctIds(log) {
      forall i, j | 0 <= i < j < |log + added|
        ensures (log + added)[i].id != (log + added)[j].id
      {
        if i < |log| && j >= |log| {
          assert log[i].id in Ids(log) && added[j - |log|].id in Ids(added);
        }
      }
    }
  }

  // ---- The round trip -----------------------------------------------------

  function Raw(log: seq<Event>): seq<RawEvent> {
    seq(|log|, i requires 0 <= i < |log| => Mapping(log[i].id, log[i].body))
  }

  lemma {:induction false} CollectedIs(base: seq<Event>, n: nat, diff: seq<Event>)
    requires n <= |diff| && Ids(base) !! Ids(diff)
    ensures Collected(base + diff[..n], Ids(base)) == Raw(diff[..n])
  {
    if n == 0 {
      assert base + diff[..0] == base;
      CollectedNone(base, |base|);
      assert base[..|base|] == base;
    } else {
      var rows := base + diff[..n];
      assert rows[..|rows| - 1] == base + diff[..n - 1];
      assert rows[|rows| - 1] == diff[n - 1] && diff[n - 1].id in Ids(diff);
      CollectedIs(base, n - 1, diff);
      assert Raw(diff[..n]) == Raw(diff[..n - 1]) + [Mapping(diff[n - 1].id, diff[n - 1].body)];
    }
  }

  lemma {:induction false} CollectedNone(base: seq<Event>, n: nat)
    requires n <= |base|
    ensures Collected(base[..n], Ids(base)) == []
  {
    if n > 0 {
      assert base[..n][..n - 1] == base[..n - 1] && base[n - 1].id in Ids(base);
      CollectedNone(base, n - 1);
    }
  }

  lemma {:induction false} FreshAllNew(existing: set<string>, diff: seq<Event>, n: nat)
    requires n <= |diff| && DistinctIds(diff) && existing !! Ids(diff) && "" !in Ids(diff)
    ensures NewEvents(existing, Raw(diff[..n])) == diff[..n]
  {
    if n > 0 {
      FreshAllNew(existing, diff, n - 1);
      assert Raw(diff[..n])[..n - 1] == Raw(diff[..n - 1]);
      assert diff[n - 1].id in Ids(diff);
      assert diff[n - 1].id !in Ids(diff[..n - 1]);
      assert diff[..n] == diff[..n - 1] + [diff[n - 1]];
    }
  }

  /** Collecting on the worker and replaying on the host reproduces the worker's log exactly when what
      the worker added has distinct, non-empty ids that the baseline does not know. */
  lemma CollectThenReplayIff(base: seq<Event>, diff: seq<Event>)
    ensures Replayed(base, Collected(base + diff, Ids(base))) == base + diff <==>
            DistinctIds(diff) && Ids(base) !! Ids(diff) && "" !in Ids(diff)
  {
    var raws := Collected(base + diff, Ids(base));
    if DistinctIds(diff) && Ids(base) !! Ids(diff) && "" !in Ids(diff) {
      assert diff[..|diff|] == diff;
      CollectedIs(base, |diff|, diff);
      FreshAllNew(Ids(base), diff, |diff|);
    }
    if Replayed(base, raws) == base + diff {
      assert NewEvents(Ids(base), raws) == (base + diff)[|base|..] == diff;
      NewEventsAre(Ids(base), raws);
    }
  }

  /** The events of a log whose ids are not in `existing`, in order. */
  function Missing(log: seq<Event>, existing: set<string>): seq<Event> {
    if log == [] then []
    else
      var init, last := log[..|log| - 1], log[|log| - 1];
      if last.id in existing then Missing(init, existing) else Missing(init, existing) + [last]
  }

  lemma RawSnoc(init: seq<Event>, last: Event)
    ensures Raw(init + [last]) == Raw(init) + [Mapping(last.id, last.body)]
  {
  }

  lemma NewEventsSnoc(existing: set<string>, raws: seq<RawEvent>, last: Event)
    requires last.id != ""
    ensures NewEvents(existing, raws + [Mapping(last.id, last.body)]) ==
            NewEvents(existing, raws) +
            if last.id in existing || last.id in Ids(NewEvents(existing, raws)) then [] else [last]
  {
    assert (raws + [Mapping(last.id, last.body)])[..|raws|] == raws;
  }

  lemma MissingSnoc(existing: set<string>, init: seq<Event>, last: Event)
    ensures Missing(init + [last], existing) == Missing(init, existing) + if last.id in existing then [] else [last]
  {
    assert (init + [last])[..|init|] == init;
  }

  lemma DistinctPrefix(init: seq<Event>, last: Event)
    requires DistinctIds(init + [last])
    ensures DistinctIds(init) && last.id !in Ids(init)
  {
    var diff := init + [last];
    assert forall i :: 0 <= i < |init| ==> diff[i] == init[i] && diff[i].id != diff[|init|].id;
  }

  /** On any host log, a batch with distinct non-empty ids adds exactly its events the host lacks. */
  lemma {:induction false} ReplayAddsMissing(existing: set<string>, diff: seq<Event>)
    requires DistinctIds(diff) && "" !in Ids(diff)
    ensures NewEvents(existing, Raw(diff)) == Missing(diff, existing)
    ensures Ids(Missing(diff, existing)) <= Ids(diff)
  {
    if diff != [] {
      var init, last := diff[..|diff| - 1], diff[|diff| - 1];
      assert diff == init + [last];
      IdsSnoc(init, last);
      DistinctPrefix(init, last);
      ReplayAddsMissing(existing, init);
      RawSnoc(init, last);
      NewEventsSnoc(existing, Raw(init), last);
      MissingSnoc(existing, init, last);
      IdsSnoc(Missing(init, existing), last);
    }
  }
}
