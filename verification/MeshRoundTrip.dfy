// One stage from end to end: what a worker puts into its result
// (packages/compute/mesh_stage_runner_legacy.py), carried by the queue, reaches the host.
module MeshRoundTrip {
  import opened Wrappers
  import opened Utf8
  import opened WorkUnits
  import opened WorkUnitRuns
  import opened MeshReplay
  import opened FileTree
  import opened MeshFiles
  import opened MeshMerge
  import opened MeshAbsorb

  /** What the worker reports for a writer stage that appended `diff` to the log `base` and ran as `s`;
      an empty patch is left out. */
  function WorkerResult(base: seq<Event>, diff: seq<Event>, s: Stage): UnitResult
    requires ListsFiles(s.pre, s.preListing) && ListsFiles(s.post, s.postListing)
  {
    var patch := PatchOf(s, MAX_PATCH_BYTES);
    UnitResult(Some(Collected(base + diff, Ids(base))), if patch == [] then None else Some(patch))
  }

  /** The stage itself, as the log sees it: it stores its events one by one. */
  method StoreEvents(store: EventStore, diff: seq<Event>)
    modifies store
    ensures store.log == old(store.log) + diff
  {
    for i := 0 to |diff|
      invariant store.log == old(store.log) + diff[..i]
    {
      assert diff[..i + 1] == diff[..i] + [diff[i]];
      store.Append(diff[i]);
    }
    assert diff[..|diff|] == diff;
  }

  /** A writer stage on the worker: what was there is recorded before it runs, and only the difference
      is reported. */
  method ExecuteWriterStage(store: EventStore, diff: seq<Event>, s: Stage) returns (result: UnitResult)
    requires ListsFiles(s.pre, s.preListing) && ListsFiles(s.post, s.postListing)
    modifies store
    ensures store.log == old(store.log) + diff
    ensures result == WorkerResult(old(store.log), diff, s)
  {
    var beforeIds := BaselineEventIds(store);
    var beforeDigests := WorkspaceFileDigests(s.pre, s.preListing, s.digest);
    StoreEvents(store, diff);
    var replayEvents := CollectReplayEvents(store, beforeIds);
    var afterDigests := WorkspaceFileDigests(s.post, s.postListing, s.digest);
    var patch := DiffWorkspaceFiles(DictOf(beforeDigests), afterDigests, s.post, MAX_PATCH_BYTES);
    result := UnitResult(Some(replayEvents), None);
    if patch != [] {
      result := result.(workspaceFiles := Some(patch));
    }
  }

  /** The added events can be replayed: their ids are new, distinct and not empty. */
  ghost predicate Replays(base: seq<Event>, diff: seq<Event>) {
    DistinctIds(diff) && Ids(base) !! Ids(diff) && "" !in Ids(diff)
  }

  lemma CompletedSpeaks(st: State, w: Id, status: Status, result: UnitResult, now: Time, next: State)
    requires Valid(st) && w in st.units && !Terminal(st.units[w].status) && Terminal(status)
    requires Newest(st, st.units[w].ticket.runId, st.units[w].ticket.stageName, w)
    requires next == CompleteStep(st, w, Some(status), Some(result), now).0
    ensures Valid(next)
    ensures var ticket := st.units[w].ticket;
            var latest := LatestUnit(ListUnits(next, ticket.runId), ticket.stageName);
            latest.Some? && Terminal(latest.value.status) && latest.value.result == Some(result)
  {
    var ticket := st.units[w].ticket;
    StepKeepsNewest(st, Complete(w, Some(status), Some(result), now), ticket.runId, ticket.stageName, w);
    LatestIsNewest(next, ticket.runId, ticket.stageName);
  }

  lemma AbsorbOne(host: Host, units: seq<Record>, stage: string)
    ensures var rec := LatestUnit(units, stage);
            Absorb(host, units, [stage]) == AbsorbBatch(Absorbed(host, 0, 0, None), EventsOf(rec), FilesOf(rec))
  {
    assert [stage][..0] == [];
  }

  /** Nothing raised, and the host has the worker's log and, deletions apart, the worker's files. */
  ghost predicate Arrived(a: Absorbed, base: seq<Event>, diff: seq<Event>, s: Stage, host: Tree) {
    a.conflict.None? && a.host == Host(base + diff, Some(Merged(host, s.post)))
  }

  lemma BatchArrivesIff(base: seq<Event>, diff: seq<Event>, s: Stage, host: Tree)
    requires Sound(s) && WellFormed(host) && host.files == s.pre.files
    ensures var start := Absorbed(Host(base, Some(host)), 0, 0, None);
            Arrived(AbsorbBatch(start, Collected(base + diff, Ids(base)), PatchOf(s, MAX_PATCH_BYTES)), base, diff, s, host) <==>
            Replays(base, diff) && ChangesFit(s, 400_000) && ChangesPlaceable(s, host)
  {
    CollectThenReplayIff(base, diff);
    MergeCompleteIff(s, host, MAX_PATCH_BYTES);
  }

  /** When the newest unit of a stage completes, absorbing the stage brings a host that had the worker's
      old log and files to the worker's new log and files, deletions apart, without raising, exactly when
      the added events have new, distinct, non-empty ids, all changed files have safe names, are UTF-8 and
      fit the budget together, and each has a place in the host's workspace. */
  lemma {:induction false} StageReachesHostIff(
    st: State, w: Id, status: Status, now: Time, base: seq<Event>, diff: seq<Event>, s: Stage, host: Tree)
    requires Valid(st) && w in st.units && !Terminal(st.units[w].status) && Terminal(status)
    requires Newest(st, st.units[w].ticket.runId, st.units[w].ticket.stageName, w)
    requires Sound(s) && WellFormed(host) && host.files == s.pre.files
    ensures var ticket := st.units[w].ticket;
            var next := CompleteStep(st, w, Some(status), Some(WorkerResult(base, diff, s)), now).0;
            Valid(next) &&
            (Arrived(Absorb(Host(base, Some(host)), ListUnits(next, ticket.runId), [ticket.stageName]), base, diff, s, host) <==>
             Replays(base, diff) && ChangesFit(s, 400_000) && ChangesPlaceable(s, host))
  {
    var ticket, result := st.units[w].ticket, WorkerResult(base, diff, s);
    var next := CompleteStep(st, w, Some(status), Some(result), now).0;
    CompletedSpeaks(st, w, status, result, now, next);
    AbsorbOne(Host(base, Some(host)), ListUnits(next, ticket.runId), ticket.stageName);
    BatchArrivesIff(base, diff, s, host);
  }

  // ---- Which units contribute ---------------------------------------------

  function EventsIn(result: Option<UnitResult>): seq<RawEvent> {
    match result
    case Some(UnitResult(Some(events), _)) => events
    case _ => []
  }

  function FilesIn(result: Option<UnitResult>): seq<Item> {
    match result
    case Some(UnitResult(_, Some(files))) => files
    case _ => []
  }

  lemma AddsNothing(a: Absorbed)
    ensures a.conflict.None? ==> AbsorbBatch(a, [], []) == a
  {
    assert a.host.log + [] == a.host.log;
  }

  lemma EventsAre(rec: Record)
    ensures EventsOf(Some(rec)) == if rec.status in {Queued, Assigned, Running} then [] else EventsIn(rec.result)
    ensures FilesOf(Some(rec)) == if rec.status in {Queued, Assigned, Running} then [] else FilesIn(rec.result)
  {
  }

  lemma AbsorbMore(host: Host, units: seq<Record>, stages: seq<string>, stage: string)
    ensures var a, rec := Absorb(host, units, stages), LatestUnit(units, stage);
            Absorb(host, units, stages + [stage]) == if a.conflict.Some? then a else AbsorbBatch(a, EventsOf(rec), FilesOf(rec))
  {
    assert (stages + [stage])[..|stages|] == stages;
  }

  /** One more stage adds what its newest unit's result holds, and nothing while that unit is queued, assigned or
      running, or there is none. */
  lemma OnlyFinishedUnitsContribute(host: Host, units: seq<Record>, stages: seq<string>, stage: string)
    ensures var a, rec := Absorb(host, units, stages), LatestUnit(units, stage);
            Absorb(host, units, stages + [stage]) ==
            if a.conflict.Some? || rec.None? || rec.value.status in {Queued, Assigned, Running} then a
            else AbsorbBatch(a, EventsIn(rec.value.result), FilesIn(rec.value.result))
  {
    var rec := LatestUnit(units, stage);
    AbsorbMore(host, units, stages, stage);
    AddsNothing(Absorb(host, units, stages));
    if rec.Some? { EventsAre(rec.value); }
  }
}
