# Verified models of the scheduler, queues, mesh, configuration and codecs

A Dafny 4.11 model of five parts of the repository, with proofs of what they promise:

1. **The stage scheduler** (`packages/agent_core/stage_graph.py`): validation of a workflow graph, the
   worklist order, the snapshot of that order, and when a parallel group may start. `Digraph`, `StageGraph`,
   `StageOrder`, `StageSnapshot`, `SnapshotText`.
2. **The work-unit queue** (`packages/compute/work_unit.py`, `work_unit_redis.py`, `worker_policy.py`): the
   in-memory queue is the specification; the Redis queue is a sequential class that refines it and also a step
   system in which any number of clients interleave one Redis command at a time. `Json`, `JsonText`,
   `WorkerPolicy`, `PolicyLaws`, `WorkUnits`, `WorkUnitRuns`, `RedisQueue`, `RedisRefinement`, `UnitHistory`,
   `RedisSteps`, `RedisSolo`.
3. **Mesh absorb** (`packages/compute/mesh_*_legacy.py`): a worker collects its new events and changed files, the
   queue carries them, the host replays and merges them. `Utf8`, `FileTree`, `PathText`,
   `MeshReplay`, `MeshFiles`, `MeshMerge`, `MeshHidden`, `MeshBudget`, `MeshApplied`, `MeshAbsorb`, `MeshRoundTrip`.
4. **Configuration** (`packages/config/store.py`, `materializer.py`, `notify.py`): a versioned store with
   compare-and-set, caches, and the hub that empties them; whole calls in sequence, and also a step system in which
   threads interleave single accesses to the unlocked dicts. `ConfigStore`, `ConfigRuns`, `ConfigSteps`,
   `ConfigStale`, `ConfigTrouble`, `ConfigSolo`.
5. **Printers and parsers**: the `.env` editor and its readers (`Text`, `Dotenv`, `DotenvProofs`, `DotenvPieces`,
   `DotenvTwice`, `DotenvReload`, `DotenvForm`), the provider secrets (`Vault`, `VaultBits`), the run-list cursor
   (`Cursor`, `CursorForm`).

`dafny verify dfyconfig.toml` checks everything.

## How the model is laid out

Code that changes things step by step is a class or a method with loops, and each method is proved against a
function of the old state (`EnqueueStep`, `DequeueStore`, `Upserted`, `Absorb`, `EditedText`, ...); the laws are lemmas
about those functions and about runs of them. A raised exception is a `Result` or an `Outcome`. Ids from `uuid4`, clock
readings, nonces, the walk order of a directory and the hash function are parameters: an id is fresh, the hash has
32-byte digests, a file digest is injective; a clock may run backwards unless a lemma says otherwise.

The scheduler's order is specified without the algorithm: `IsSchedule` asks for a permutation of the stages,
dependencies first, in the order in which a first-in first-out worklist releases them (by the position of the latest
dependency, then by definition order). `ScheduleIsUnique` shows that this leaves one order only.

The small definitions that many modules share (which record a completion stores, what a version check accepts, which
files are hidden, who is in a group, how bytes are combined, how texts are cut) are pinned a second time, by laws that do
not use them: over the history of calls and answers (`UnitHistory`, `ConfigRuns.WriteAcceptedIff`), over nodes, and over
single characters and bits (`SnapshotText`, `PolicyLaws`, `PathText`, `MeshHidden`, `DotenvForm`, `VaultBits`,
`CursorForm`). The step systems are tied to the sequential ones by what each call does with nobody in between
(`RedisSolo`, `ConfigSolo`).

## What does not hold

The model keeps the code as it is. Each of these has a lemma with the exact condition, and where it helps a concrete run.

- A value with `"`, or with `\` next to a character that forces quotes, does not survive `set_env_var` and
  `read_env_file`: the editor escapes, no reader unescapes. A value with a line break also leaves pieces behind when
  the key is set again, and a key that is no identifier is appended every time (`DotenvProofs.SetThenReadIff`,
  `DotenvTwice.SetTwiceIff`). A null character raises after the file is written (`Dotenv.SetEnvVar`). Such values, and
  a key like `export A`, make a reload of the file differ from the environment that was set
  (`DotenvReload.ReloadAgreesIff`, `DotenvReload.ExportedKeyOnReload`).
- `complete` accepts the word "queued". In memory a unit that has left the queue can be handed out again exactly when the
  call says "queued" and the unit is not terminal (`WorkUnitRuns.HandedOutAgainIff`,
  `WorkUnitRuns.RequeuedUnitIsHandedOutTwice`). In Redis the call leaves the unit stranded, queued and never handed out,
  exactly when it is live and its id is not in the list (`RedisRefinement.RequeuedUnitIsStrandedIff`).
- A Redis dequeue for one session sends the units it skips to the back. The queues answer the next unfiltered dequeue
  alike exactly when nothing queued was skipped or nothing queued was behind
  (`RedisRefinement.OrderKeptIff`, `RedisRefinement.SkippedUnitLosesItsPlace`).
- Memory takes the unit with the earliest time of creation, Redis the one that was pushed first. The two answer one
  dequeue alike exactly when no match was created before the match stored first; when the clock goes back between two
  enqueues they do not (`RedisRefinement.SamePickIff`, `RedisRefinement.ClockGoesBackIff`).
- With interleaved Redis commands a terminal record is final exactly when no client that read the unit earlier is about
  to write another record over it (`RedisSteps.TerminalStaysIff`); a cancelled unit can be handed out that way
  (`RedisSteps.CancelledUnitIsHandedOut`). Handing a unit out twice stays impossible.
- The config store takes no lock. With threads interleaved, no update is lost exactly when no thread stores a row after
  the document has changed under it; otherwise two writers both succeed with one version
  (`ConfigSteps.NoUpdateLostIff`, `ConfigSteps.BothSucceed`).
- The config caches take no lock either. A cache stays stale, with all threads idle, in two cases: a reader caches
  content it loaded before the document changed, after the last listing that could drop it; or the `del` of a refresh
  raises, because another thread dropped the listed key first, and so ends a publication before it has reached a cache
  that nobody else will refresh (`ConfigStale.StepSettlesIff`, `ConfigTrouble.LateReaderSpoils`,
  `ConfigTrouble.AbandonedCacheStaysStale`). A read can raise for a document that exists, when its entry goes between
  the test and the read (`ConfigTrouble.HitCanRaise`).
- Applying a patch raises where a directory stands in the place of a file or a file in that of a directory, after the
  stage's events have been replayed (`MeshMerge.PatchApplies`, `MeshAbsorb.AbsorbIsOneBatch`).
- `_is_safe_rel_path` lets absolute paths pass, and those lead out of the workspace unless they name a place in it
  (`FileTree.SafeStaysInsideIff`).
- `encrypt_secret("")` yields a blob that `decrypt_secret` refuses (`Vault.DecryptInvertsEncryptIff`).
- `sanitize_work_unit_payload` says it strips secret-like keys; it strips those at the top and refuses a payload that
  has one further down (`WorkerPolicy.SanitizedAccepts`).
- Restarting a unit makes the replacement the one the host consults only if the clock has not run backwards past an
  earlier unit of the stage (`MeshAbsorb.ReplacementIsNewestIff`).

## Model

| member | source | states |
|---|---|---|
| StageGraph.ScheduleIsAcyclic | packages/agent_core/stage_graph.py:164-166 | if some order is a schedule, the dependency relation has no cycle, so a cyclic graph can only be refused |
| StageGraph.SortedByDepth | packages/agent_core/stage_graph.py:155-163 | in a schedule no stage precedes one whose longest dependency chain is strictly shorter |
| Digraph.DepthExists | packages/agent_core/stage_graph.py:155-163 | every stage of an acyclic graph has exactly one depth, so the statement above is about all stages |
| StageGraph.ScheduleIsUnique | packages/agent_core/stage_graph.py:155-167 | the first-in first-out worklist leaves no freedom: at most one order is a schedule |
| StageOrder.Keys | packages/agent_core/stage_graph.py:149-150 | the dict comprehensions keep each name once, in definition order when names are distinct |
| StageOrder.BuildTables | packages/agent_core/stage_graph.py:149-154 | indegrees and adjacency lists count repeated `depends_on` entries; fails exactly when a dependency names no stage |
| StageOrder.InitialQueue | packages/agent_core/stage_graph.py:155 | the deque starts with exactly the stages without dependency entries, in definition order |
| StageOrder.Emit | packages/agent_core/stage_graph.py:158-163 | one turn of the worklist keeps every loop invariant: released stages, pending counts, release order |
| StageOrder.RunWorklist | packages/agent_core/stage_graph.py:155-167 | the loop ends in the schedule exactly when names are distinct and dependencies acyclic, else reports a cycle |
| StageOrder.TopologicalOrder | packages/agent_core/stage_graph.py:148-167 | returns exactly for distinct names and acyclic dependencies, then the unique schedule; an undefined dependency is a KeyError |
| StageOrder.StuckIsCyclic | packages/agent_core/stage_graph.py:164-166 | when the deque runs empty before all names are out, an actual cycle exists |
| StageSnapshot.CheckDistinct | packages/agent_core/stage_graph.py:126-133 | passes exactly for distinct stage names, else blames a name that occurs twice |
| StageSnapshot.CheckNode | packages/agent_core/stage_graph.py:135-144 | passes exactly when the stage is known and all its dependencies are defined and known |
| StageSnapshot.ValidateStageGraph | packages/agent_core/stage_graph.py:125-145 | accepts exactly the acyclic graphs over distinct, known, defined stages; an error names a real defect |
| StageSnapshot.StageGraphMetadataSnapshot | packages/agent_core/stage_graph.py:170-189 | freezes the unique schedule, every stage's position in it, and the groups in definition order |
| StageSnapshot.StageGraphNodeLookup | packages/agent_core/stage_graph.py:201-211 | finds the last entry whose stripped name is the key, and nothing else |
| StageSnapshot.EventMetadataForStage | packages/agent_core/stage_graph.py:214-230 | hands out the order index and the stripped group of that entry, nothing for an unknown stage or no snapshot |
| StageSnapshot.OrderIndexIsPosition | packages/agent_core/stage_graph.py:170-189 | in a valid snapshot the index of a stage is the one position where the schedule holds it |
| StageSnapshot.OrderIndexAscends | packages/agent_core/stage_graph.py:214-230 | the index of a stage is strictly larger than that of each dependency |
| StageSnapshot.MembersOf | packages/agent_core/stage_graph.py:233-243 | in a valid snapshot the members of a group are the stages defined with it, in definition order |
| StageSnapshot.MembersAreDefined | packages/agent_core/stage_graph.py:178-189 | told from the nodes: a name is a member of a named group exactly when a node has that name and that group; members come once, in definition order; entries carry the group of their node; no group has the empty name |
| SnapshotText.OneMember | packages/agent_core/stage_graph.py:233-243 | one recorded text gives the member it names without its white space, or none if it is blank |
| SnapshotText.MembersAreNamed | packages/agent_core/stage_graph.py:233-243 | the members of a list are those of its parts, in order |
| SnapshotText.LookupIs | packages/agent_core/stage_graph.py:201-211 | in any snapshot a name finds the last entry whose text is that name with white space around it, and nothing if there is none |
| SnapshotText.ReadyIff | packages/agent_core/stage_graph.py:246-263 | in any snapshot: ready exactly when some recorded text is not blank and all that the entries named by the texts depend on, white space apart, is completed |
| StageSnapshot.StagesReadyForParallelGroup | packages/agent_core/stage_graph.py:246-263 | the loop answers true exactly when the group has members and every listed dependency of each is completed |
| StageSnapshot.ReadyWhenAncestorsDone | packages/agent_core/stage_graph.py:246-263 | for a dependency-closed completed set: ready exactly when the group is not empty and everything its members reach backwards is completed |
| StageSnapshot.GroupCanStartTogether | packages/agent_core/stage_graph.py:246-263 | some dependency-closed completed set without members makes the group ready exactly when it is not empty and no member reaches another |
| StageSnapshot.KnownGroupCanStartTogether | packages/orchestrator/ingress.py:106-120 | the same for any graph that validation against the repository's own stage list accepts, with no condition on names left |
| WorkerPolicy.WalkIsComplete | packages/compute/worker_policy.py:23-36 | the walk reports nothing exactly when no mapping at any depth pairs a secret-like key with a non-blank string |
| WorkerPolicy.SanitizeWorkUnitPayload | packages/compute/worker_policy.py:43-66 | the filter loop, the size check and the leak check give the specified result or error |
| WorkerPolicy.SanitizedIsStable | packages/compute/worker_policy.py:43-66 | sanitizing is idempotent; its output is leak free at every depth and contains only items of the input |
| WorkerPolicy.SanitizedAccepts | packages/compute/worker_policy.py:59-66 | a payload is accepted exactly when what survives the filter fits the size limit and has no leak |
| PolicyLaws.SecretLikeIff | packages/compute/worker_policy.py:52-55 | a key is secret-like exactly when one of the seven words occurs in it in any mixture of upper and lower case |
| PolicyLaws.Survivors | packages/compute/worker_policy.py:51-58 | the items kept are, in their order, exactly those whose key names no secret and whose value is no environment file name with white space around it |
| PolicyLaws.SentIff | packages/compute/worker_policy.py:49-66 | a payload is sent exactly when its survivors print to at most 512000 characters and no mapping at any depth pairs a key that names a secret with a text that is not blank; too long is reported first |
| PolicyLaws.WalkLeads | packages/compute/worker_policy.py:23-36 | every path the walk reports, printed with dots and item numbers, leads to such a pair |
| PolicyLaws.BlamedPath | packages/compute/worker_policy.py:62-65 | the path in the error leads to such a pair among the survivors |
| JsonText.WidthIsLength | packages/compute/worker_policy.py:39-40 | the size compared with the limit is the length of what `json.dumps` prints |
| WorkUnits.InMemoryWorkUnitQueue.Store | packages/compute/work_unit.py:144 | a new record goes to the end of the dict, an existing one keeps its place |
| WorkUnits.InMemoryWorkUnitQueue.Enqueue | packages/compute/work_unit.py:119-145 | stores a queued record with the sanitized payload, or raises and changes nothing |
| WorkUnits.InMemoryWorkUnitQueue.Dequeue | packages/compute/work_unit.py:147-177 | the loop over the sorted records assigns the first match and changes no other record |
| WorkUnits.InMemoryWorkUnitQueue.Complete | packages/compute/work_unit.py:179-209 | unknown id: None; terminal record: returned unchanged; otherwise the status, or "failed" for an unknown word |
| WorkUnits.InMemoryWorkUnitQueue.TerminateRestart | packages/compute/work_unit.py:211-226 | cancels a live unit and enqueues a replacement; does nothing for an unknown or terminal one |
| WorkUnits.InMemoryWorkUnitQueue.QueuedCount | packages/compute/work_unit.py:111-117 | counts the queued records of the session |
| WorkUnitRuns.DequeueFinds | packages/compute/work_unit.py:147-177 | returns None exactly when nothing queued matches; otherwise a stored match, and only that record changes |
| WorkUnitRuns.DequeueTakesOldest | packages/compute/work_unit.py:155-177 | the unit taken is no younger than any match, ties going to the one stored first, whatever the clock did |
| WorkUnitRuns.RunPreserves | packages/compute/work_unit.py:119-226 | over any run terminal records never change, and ticket, payload, creation time and id never do |
| WorkUnitRuns.HandedOutAtMostOnce | packages/compute/work_unit.py:147-209 | in every run a unit is returned by at most one dequeue, plus one for each call that revives it; after it left the queue only if revived |
| WorkUnitRuns.HandedOutAgainIff | packages/compute/work_unit.py:187-209 | a unit that left the queue can be handed out after a `complete`, without further revival, if and only if the call says "queued" and the unit is not terminal |
| WorkUnitRuns.RequeuedUnitIsHandedOutTwice | packages/compute/work_unit.py:190-192 | the concrete run: dequeue, complete as "queued", dequeue returns the unit twice |
| WorkUnitRuns.LiveAfter | packages/compute/work_unit.py:119-226 | the live set gains the unit on enqueue, loses it on a terminal or unknown completion, and swaps one for one on restart |
| WorkUnitRuns.RestartReplaces | packages/compute/work_unit.py:211-226 | after any run, restarting a live unit never raises and queues a replacement with the same ticket and payload |
| UnitHistory.MemoryFollowsHistory | packages/compute/work_unit.py:111-226 | over any run every field of every record, status included, is what a fold over the calls and answers gives; each answer is the record as it then stands, a dequeue takes a waiting unit that no waiting one is older than, a count counts those waiting |
| UnitHistory.WordIsStored | packages/compute/work_unit.py:187-209 | completing an open unit stores the requested word, or "failed" for an unknown one, with result and time, and if the word is final that is the record after every later run |
| RedisQueue.Rotates | packages/compute/work_unit_redis.py:172-183 | a turn of the dequeue loop that does not hit drops a stale id or moves the id behind the others |
| RedisQueue.RedisWorkUnitQueue.Enqueue | packages/compute/work_unit_redis.py:134-161 | saves the record and pushes its id behind all others |
| RedisQueue.RedisWorkUnitQueue.Dequeue | packages/compute/work_unit_redis.py:163-199 | the bounded loop turns P + [y] + R with first hit y into R followed by the non-stale ids of P; on a miss only stale ids go |
| RedisQueue.RedisWorkUnitQueue.TakeTurn | packages/compute/work_unit_redis.py:172-198 | one turn of the loop: either it passes one id by, or the dequeue ends as the sequential specification says |
| RedisQueue.RedisWorkUnitQueue.Complete | packages/compute/work_unit_redis.py:201-231 | updates the record only; the list keeps the id |
| RedisQueue.RedisWorkUnitQueue.TerminateRestart | packages/compute/work_unit_redis.py:233-248 | cancels a live unit in the hash and enqueues a replacement |
| RedisQueue.RedisWorkUnitQueue.QueuedCount | packages/compute/work_unit_redis.py:121-132 | counts the ids in the list whose record is queued and of the session |
| RedisQueue.DequeueNoneIffNothingQueued | packages/compute/work_unit_redis.py:121-132 | run alone, dequeue returns None exactly when the queued count of its session is 0 |
| UnitHistory.RedisFollowsHistory | packages/compute/work_unit_redis.py:121-248 | over any run the hash holds what the same fold gives; a dequeue takes the waiting unit that comes first in the list, and none only if no listed unit waits |
| RedisRefinement.OrderKeptIff | packages/compute/work_unit_redis.py:181-183 | a hit keeps the order of the queued units exactly when it skipped none or left none behind |
| RedisRefinement.RunSimulates | packages/compute/work_unit_redis.py:134-248 | every run that revives nothing, and whose dequeues find the oldest match stored first and take the oldest or the newest queued unit or none, returns what the in-memory queue returns; each queued id stays in the list once, in stored order |
| RedisRefinement.SamePickIff | packages/compute/work_unit_redis.py:172-198 | from any simulating state, whatever the clock did, both queues return the same unit or none if and only if no match was created before the one stored first |
| RedisRefinement.ClockGoesBackIff | packages/compute/work_unit.py:155 | from empty: two enqueues and a dequeue give the same answers if and only if the second clock reading is not before the first |
| RedisRefinement.RedisMatchesInMemory | packages/compute/work_unit_redis.py:134-248 | from empty, with a clock that never goes back and with unfiltered dequeues or one session: same answers, same records, same counts as in memory |
| RedisRefinement.SkippedUnitLosesItsPlace | packages/compute/work_unit_redis.py:181-183 | from any simulating state in creation order, the queues agree on the next unfiltered dequeue if and only if the one before kept the order |
| RedisRefinement.HandedOutSomedayIff | packages/compute/work_unit_redis.py:163-248 | some run of the Redis queue hands a unit out if and only if it is not terminal and its id is in the list, stale or not |
| RedisRefinement.RequeuedUnitIsStrandedIff | packages/compute/work_unit_redis.py:201-231 | completing as "queued" leaves a unit queued and out of reach of every run if and only if it is live and its id is not in the list; the call is the cause if and only if it was not queued before |
| RedisRefinement.RequeuedUnitIsStranded | packages/compute/work_unit_redis.py:214-231 | beside memory, where the next dequeue finds a unit, the Redis list and count stay as they were |
| RedisSteps.RunKeeps | packages/compute/work_unit_redis.py:134-199 | every interleaving keeps each id in one place: list, one client's hands, or returned |
| RedisSteps.ReturnedAtMostOnce | packages/compute/work_unit_redis.py:134-199 | however clients interleave single commands, no id is returned by two dequeues |
| RedisSteps.NextLosesIff | packages/compute/work_unit_redis.py:134-248 | one command loses a queued unit if and only if it writes "queued" for a unit that is neither in the list nor in a client's hands |
| RedisSteps.QueuedUnitsAreNeverLost | packages/compute/work_unit_redis.py:134-248 | over every interleaving without such a command a queued unit is in the list or in the hands of a client about to push or return it |
| RedisSteps.TerminalStaysIff | packages/compute/work_unit_redis.py:178-231 | a terminal record stays unchanged over every interleaving if and only if no client is about to write a different record it computed earlier |
| RedisSteps.SoloDequeue | packages/compute/work_unit_redis.py:163-199 | whenever a client dequeues undisturbed and ends idle, the world is exactly what the sequential dequeue gives |
| RedisSteps.SoloDequeueFinishes | packages/compute/work_unit_redis.py:163-199 | such a dequeue can always finish |
| RedisSolo.SoloEnqueue | packages/compute/work_unit_redis.py:134-161 | an enqueue command by command, undisturbed, does what the sequential one does |
| RedisSolo.SoloComplete | packages/compute/work_unit_redis.py:201-231 | so does a completion |
| RedisSolo.SoloRestart | packages/compute/work_unit_redis.py:233-248 | so does a restart, with some fresh id and two clock readings |
| RedisSteps.CancelledUnitIsHandedOut | packages/compute/work_unit_redis.py:178-198 | the concrete run: a unit cancelled between a dequeuer's read and write is handed out |
| Utf8.EncodeThenDecode | packages/compute/mesh_workspace_merge_legacy.py:46-47 | every text survives encoding and decoding as in section 3 of RFC 3629 |
| Utf8.DecodeThenEncode | packages/compute/mesh_workspace_merge_legacy.py:46-49 | bytes that decode are the encoding of what they decode to |
| Utf8.BytesOfChar | packages/compute/mesh_workspace_merge_legacy.py:46-63 | a character takes as many bytes as its code needs, each marked as section 3 of RFC 3629 says, and together they write the code |
| MeshReplay.CollectReplayEvents | packages/compute/mesh_event_replay_legacy.py:14-26 | the loop keeps, in order, exactly the rows outside the baseline |
| MeshReplay.ReplayEventsToStore | packages/compute/mesh_event_replay_legacy.py:29-45 | appends the new events only and returns the growth of the log |
| MeshReplay.NewEventsAre | packages/compute/mesh_event_replay_legacy.py:34-45 | what a replay appends has distinct ids, exactly those usable in the batch and not there before |
| MeshApplied.ReplayedAt | packages/compute/mesh_event_replay_legacy.py:36-44 | the events appended are, in the order of the batch, events at increasing places of it, with their ids and bodies |
| MeshApplied.NewAtIs | packages/compute/mesh_event_replay_legacy.py:36-44 | and these places are exactly those of the first event of each usable id that the log does not know |
| MeshReplay.ReplayTwice | packages/compute/mesh_event_replay_legacy.py:29-45 | replaying a batch again appends nothing |
| MeshReplay.ReplayOrder | packages/compute/mesh_event_replay_legacy.py:29-45 | two batches leave the same ids in either order and never a repeated id |
| MeshReplay.CollectThenReplayIff | packages/compute/mesh_event_replay_legacy.py:14-45 | host B and worker B + D: collect and replay gives exactly B + D if and only if D has new, distinct, non-empty ids |
| MeshReplay.ReplayAddsMissing | packages/compute/mesh_event_replay_legacy.py:29-45 | from any host log, the events added are those of the batch it lacks, in order |
| FileTree.PosixIsRead | packages/compute/mesh_workspace_merge_legacy.py:22-40 | the path text a worker sends leads back to the same file, from any workspace |
| FileTree.SafeStaysInsideIff | packages/compute/mesh_workspace_merge_legacy.py:9-11 | a path the guard accepts stays inside the workspace if and only if it is not absolute or names a place in it |
| PathText.SafeIff | packages/compute/mesh_workspace_merge_legacy.py:9-11 | a path is accepted exactly when it is not empty and has no two dots between slashes, backslashes or its ends |
| PathText.PartsAre | packages/compute/mesh_workspace_merge_legacy.py:41 | a slash joins the parts of both sides; a text without slash is one part, or none if it is empty or a dot |
| PathText.TargetIs | packages/compute/mesh_workspace_merge_legacy.py:60 | a path that starts with a slash leads to what is behind the workspace's own path or elsewhere, any other below the workspace |
| MeshFiles.WorkspaceFileDigests | packages/compute/mesh_workspace_merge_legacy.py:14-24 | one item per file without a hidden part in its path |
| MeshHidden.DigestedIff | packages/compute/mesh_workspace_merge_legacy.py:17-23 | a path is digested exactly when its file is listed and its text neither starts with a dot nor has one behind a slash; the digest is that of its content |
| MeshFiles.DiffWorkspaceFiles | packages/compute/mesh_workspace_merge_legacy.py:27-51 | the loop with its running total and early break computes the specified patch |
| MeshFiles.PatchWithinBudget | packages/compute/mesh_workspace_merge_legacy.py:44-50 | a non-empty patch never carries more than `max_bytes` of content |
| MeshFiles.PatchItem | packages/compute/mesh_workspace_merge_legacy.py:37-50 | every patched path is safe, changed, in the workspace, and carried with its whole content |
| MeshBudget.PatchIsCutOff | packages/compute/mesh_workspace_merge_legacy.py:37-50 | the patch is the UTF-8 text of the changed, safe files up to the first whose size, with those before it, exceeds the budget, even one that is not UTF-8; nothing behind it is carried |
| MeshFiles.Workspace.ApplyWorkspaceFiles | packages/compute/mesh_workspace_merge_legacy.py:54-64 | writes the safe paths in order and returns them, or raises at the first that has no place, keeping what was written before |
| MeshFiles.AppliedTwice | packages/compute/mesh_workspace_merge_legacy.py:54-64 | applying the same files again changes nothing and ends the same way, even if it raised |
| MeshApplied.AppliedAt | packages/compute/mesh_workspace_merge_legacy.py:54-64 | for any list of files that raises nothing: a file gets the content of the last item whose path is accepted, told from its characters, and leads to it; without one it stays as it was |
| MeshApplied.RaisesAt | packages/compute/mesh_workspace_merge_legacy.py:57-63 | it raises at the first accepted item whose file has no place by then, and what was written before stays |
| MeshApplied.ReportedPaths | packages/compute/mesh_workspace_merge_legacy.py:56-64 | the paths reported are those of the accepted items, in order |
| MeshMerge.PatchApplies | packages/compute/mesh_workspace_merge_legacy.py:27-64 | applying the patch to the files before the stage raises if and only if a directory or a file is in the way of some patched path; otherwise each gets its content after the stage and nothing else changes |
| MeshMerge.CarriesAllIff | packages/compute/mesh_workspace_merge_legacy.py:37-50 | the patch carries every change exactly when all changed files are safe, decodable and fit the budget together |
| MeshMerge.MergeCompleteIff | packages/compute/mesh_workspace_merge_legacy.py:27-64 | the host ends without raising with the worker's files, deletions apart, if and only if all changed files are safe, decodable, fit the budget together and have a place on the host |
| MeshHidden.MergedFiles | packages/compute/mesh_workspace_merge_legacy.py:14-64 | path by path after a complete merge: the worker's content where no dot starts the text or follows a slash, elsewhere what the host had |
| MeshHidden.HiddenStays | packages/compute/mesh_workspace_merge_legacy.py:20-21 | no patch that applies changes a hidden file |
| MeshAbsorb.LatestIsNewest | packages/compute/mesh_host_sync_legacy.py:43-47 | the unit consulted for a stage is the newest stored for run and stage (ties: stored last); none only if none is stored |
| MeshAbsorb.AbsorbStage | packages/compute/mesh_host_sync_legacy.py:151-165 | one turn replays the events of a terminal unit, then writes its files or raises; any other unit gives nothing |
| MeshAbsorb.AbsorbCompletedMeshUnits | packages/compute/mesh_host_sync_legacy.py:137-166 | the loop over the stages gives the host's new log and workspace and both counts, or the path at which writing raised |
| MeshAbsorb.AbsorbIsOneBatch | packages/compute/mesh_host_sync_legacy.py:137-166 | absorbing stage by stage equals one replay of the events of the stages reached and one application of all files; it raises exactly when that application does |
| MeshAbsorb.AbsorbReportsGrowth | packages/compute/mesh_host_sync_legacy.py:149-166 | the counted events are the growth of the log over the stages reached; old entries stay, no id is repeated |
| MeshAbsorb.DeliveredBy | packages/compute/mesh_host_sync_legacy.py:151-158 | an event id comes in exactly through the latest unit of one of the stages |
| MeshAbsorb.AbsorbTwice | packages/compute/mesh_host_sync_legacy.py:137-166 | absorbing again with an unchanged queue replays 0 events, leaves log and workspace alone, and raises exactly if the first pass did |
| MeshAbsorb.ReplacementIsNewestIff | packages/compute/work_unit.py:211-226 | after a restart the replacement is the newest unit exactly when no unit of the run and stage was created later |
| MeshAbsorb.OnlyReplacementConsulted | packages/compute/mesh_host_sync_legacy.py:43-47 | from then on, over any run that stores no other unit for the stage, only the replacement is consulted |
| MeshRoundTrip.ExecuteWriterStage | packages/compute/mesh_stage_runner_legacy.py:333-352 | ids and digests taken before the stage, and what is there after it, give a result with exactly the new events and the patch |
| MeshRoundTrip.OnlyFinishedUnitsContribute | packages/compute/mesh_host_sync_legacy.py:151-165 | one more stage adds what the result of its newest unit holds, and nothing while that unit is queued, assigned or running |
| MeshRoundTrip.StageReachesHostIff | packages/compute/mesh_stage_runner_legacy.py:333-352 | from worker through queue to host: log and files arrive without raising, deletions apart, if and only if the new ids are fresh, distinct and non-empty and all changes can be carried and have a place on the host |
| ConfigStore.WriteKeepsCacheIff | packages/config/store.py:216-217 | a write keeps a coherent cache coherent exactly when it is refreshed, lacks the key, or holds the same content |
| ConfigStore.InMemoryConfigStore.Upsert | packages/config/store.py:183-218 | compare-and-set or last write wins, with the next version; a success is published, a conflict changes nothing |
| ConfigStore.ConfigNotifyHub.Register | packages/config/notify.py:70-73 | each materializer is listed once |
| ConfigStore.ConfigNotifyHub.PublishLocal | packages/config/notify.py:94-117 | the namespace is emptied in every registered cache, the event recorded, the delivery counted |
| ConfigStore.ConfigMaterializer.Refresh | packages/config/materializer.py:78-86 | drops exactly the entries of the namespace, or all |
| ConfigStore.ConfigMaterializer.GetContent | packages/config/materializer.py:88-101 | the cached content, else the stored one, which is then cached; a missing document raises and caches nothing |
| ConfigStore.ConfigMaterializer.UpsertContent | packages/config/materializer.py:135-156 | a success is published twice, so the own entry is emptied again when registered; generations and deliveries counted |
| ConfigRuns.Perform | packages/config/materializer.py:78-156 | with notification on, any call by anyone answers as the store alone would and keeps every cache coherent |
| ConfigRuns.PerformAll | packages/config/materializer.py:78-156 | over any run with any number of registered materializers, caches are never visible in an answer |
| ConfigRuns.VersionCountsWrites | packages/config/store.py:195-218 | without deletes the version is the number of successful writes and the content is the last one written |
| ConfigRuns.ReadReturnsLastWrite | packages/config/materializer.py:88-101 | a read after any run returns the last successful write, or fails if there was none |
| ConfigRuns.VersionsDiffer | packages/config/store.py:196-207 | each version of a document admits at most one success |
| ConfigRuns.WriteAcceptedIff | packages/config/store.py:183-218 | after any run a write is accepted exactly when its content is a mapping and it expects nothing or the document exists at the expected version, which is the number of its successes; otherwise the matching error, and nothing changes |
| ConfigRuns.NoUpdateIsLost | packages/config/store.py:196-218 | however whole reads and whole writes interleave, a successful compare-and-set builds on the success immediately before it |
| ConfigRuns.SwapSucceedsIff | packages/config/store.py:195-203 | a compare-and-set of a mapping succeeds exactly when the writer has found the document and no success on it came after its last look; any other changes nothing |
| ConfigRuns.OverwriteSucceedsIff | packages/config/store.py:204-218 | a write that expects nothing succeeds exactly for a mapping, with the next version |
| ConfigSteps.NoUpdateLostIff | packages/config/store.py:183-218 | with threads interleaving single accesses, every success builds on the one before, equivalently each version admits one success, if and only if no thread stores a row after the document changed under it |
| ConfigSteps.NoOverlapNoLoss | packages/config/store.py:183-218 | writes of one document that do not overlap lose no update, whatever else interleaves |
| ConfigSteps.SwapReplacesWhatWasSeen | packages/config/store.py:195-207 | while no row is stored over a changed document, a compare-and-set replaces the very row its caller looked up at the expected version |
| ConfigSteps.BothSucceed | packages/config/store.py:195-216 | two writers that both read before either writes both succeed with one version, even with `expected_version` |
| ConfigStale.StepSettlesIff | packages/config/materializer.py:78-101 | one access unsettles the caches if and only if it caches content read before the document changed that no thread is going to drop, or is a raising `del` that leaves a stale entry no other thread is going to drop |
| ConfigStale.CachesAgreeAtRest | packages/config/notify.py:110-117 | in any run without such an access, all caches agree with the store whenever all threads are idle |
| ConfigStale.SpoilingShowsAtRest | packages/config/notify.py:110-117 | of the runs that come to rest with an access no such one precedes, exactly those where it is one itself end with a cache that differs from the store |
| ConfigStale.RaisesIffTaken | packages/config/materializer.py:84-86 | the `del` of a listed key raises if and only if another thread has taken the key out of the cache since the listing and it was not put back |
| ConfigStale.AnswersHeld | packages/config/materializer.py:88-101 | a read answers with content the store held since the call; while no cache is spoiled, a hit answers otherwise only from an entry that is about to be dropped |
| ConfigTrouble.LateReaderSpoils | packages/config/materializer.py:92-100 | the run from the start: a reader loads, a write comes and goes, the reader caches: stale with all threads idle |
| ConfigTrouble.AbandonedCacheStaysStale | packages/config/notify.py:110-117 | the run from the start: a second refresh makes the `del` of a publication raise, and the second cache stays stale with all threads idle and no reader late |
| ConfigTrouble.HitCanRaise | packages/config/materializer.py:90-91 | the run from the start: the read of a cache hit raises although the document exists |
| ConfigSolo.SoloWrite | packages/config/materializer.py:135-156 | a write access by access, undisturbed, does what the store alone does and empties the namespace in every registered cache, nothing if refused |
| ConfigSolo.SoloRead | packages/config/materializer.py:88-101 | a read, undisturbed, answers and caches the cached content, else the stored one |
| ConfigSolo.SoloRefresh | packages/config/materializer.py:78-86 | a refresh, undisturbed, drops the namespace, or everything, from its cache |
| ConfigSolo.OwnContentShows | packages/config/materializer.py:145-155 | the run from the start: between the two publications of a write-through another thread finds its content in the cache |
| Dotenv.ReplaceAssignments | packages/env/dotenv.py:80-92 | the loop replaces exactly the lines that assign the key and reports whether there was one |
| Dotenv.EditLines | packages/env/dotenv.py:78-96 | replaces every assignment, or appends one behind a blank line |
| Dotenv.SetEnvVar | packages/env/dotenv.py:68-100 | the new file text, then the new environment, or the exception the environment raises for a name or value it does not take |
| Dotenv.ReadEnvFile | packages/env/launcher_manage.py:37-50 | the mapping the lines give, later lines winning |
| Dotenv.LoadDotenv | packages/env/dotenv.py:37-50 | the environment after loading, with and without override, up to a value that raises |
| DotenvProofs.AssignsIsRead | packages/env/dotenv.py:82-88 | the editor replaces a line, matched unstripped, exactly when a reader, matching it stripped, takes the key from it |
| DotenvForm.CodesAre | packages/env/dotenv.py:80-84 | the character codes at which lines break and those that are white space |
| DotenvForm.FormIsRead | packages/env/dotenv.py:40-46 | a line of white space, perhaps "export" with white space, an identifier, an equals sign and a value is read as that key and value without its quotes |
| DotenvForm.ReadHasForm | packages/env/dotenv.py:40-46 | and no other line is read |
| DotenvForm.QuotesAreTaken | packages/env/dotenv.py:18-22 | one pair of equal quotes around a value, of either kind, is taken off |
| DotenvForm.OthersStay | packages/env/dotenv.py:18-22 | a value without such a pair around it stays |
| DotenvForm.KeysAre | packages/env/dotenv.py:88 | the keys are letters, digits and underscores with no digit in front |
| DotenvForm.ReplacedIs | packages/env/dotenv.py:83-93 | replacing keeps every line in its place but those that assign the key |
| DotenvForm.AppendedText | packages/env/dotenv.py:94-98 | the text after appending: a blank line in front of the new one unless the file is empty or ends with a blank line, and one line feed at the end |
| DotenvForm.EnvironTakesIff | packages/env/dotenv.py:99 | the environment takes a non-empty name without equals sign and a value, neither with a null character |
| DotenvForm.WrittenForm | packages/env/dotenv.py:61-65 | a value stays as it is exactly when no character needs quotes; otherwise it is written so that taking what a backslash precedes as it is gives it back |
| DotenvProofs.WrittenLineIsRead | packages/env/dotenv.py:61-65 | a written line is read back as its key with the escaped but never unescaped value |
| DotenvProofs.SplitJoin | packages/env/dotenv.py:97 | joining unbroken lines and splitting again gives the lines back |
| DotenvProofs.ReadAfterSet | packages/env/dotenv.py:68-100 | after an edit without line breaks every other key reads as before |
| DotenvProofs.SetThenReadIff | packages/env/launcher_manage.py:37-50 | `read_env_file` after `set_env_var(k, v)` is the old mapping with k set to v, if and only if k is an identifier and v has no line break, no double quote, and no backslash where quotes are needed |
| DotenvProofs.LoadedIs | packages/env/dotenv.py:39-50 | with override the file's last lines win over the environment, without it the environment and then the first lines win; raises exactly when a value to be set is not taken |
| DotenvProofs.SetTwiceIsSetOnce | packages/env/dotenv.py:68-100 | setting k to v and then to w leaves the text of setting w, for an identifier k and v without line break |
| DotenvTwice.SetTwiceIff | packages/env/dotenv.py:68-100 | for all keys and values that is also the only case |
| DotenvReload.ReloadAgreesIff | packages/env/dotenv.py:68-100 | for all keys and values, editing and then reloading the file over the new environment raise nothing and agree if and only if: for an identifier, the value round trips without null character and no other line has a value that raises; for any other key, nothing raises and the appended line sets nothing new |
| DotenvReload.ExportedKeyOnReload | packages/env/dotenv.py:61-65 | the line appended for the key `export A` and a value without line break is read as A: the reload agrees exactly if nothing raises and A had that value already |
| DotenvReload.ReadAfterAppend | packages/env/dotenv.py:93-97 | after an edit with a key that is no identifier, readers find what the old lines gave, then what the lines of the new assignment give, even if its value has line breaks |
| Vault.Keystream | packages/config/provider_vault.py:24-31 | the block loop gives exactly the first `length` bytes of the stream, and fails exactly when the counter needs a fifth byte |
| Vault.EncryptSecret | packages/config/provider_vault.py:34-40 | version byte, nonce, and the text's UTF-8 bytes combined with the stream |
| VaultBits.CipherBytes | packages/config/provider_vault.py:24-40 | version 1, the nonce, and bytes whose bits differ from those of the text exactly where byte i % 32 of the hash of key, nonce and the four bytes of i / 32 has a one |
| VaultBits.InTheClearIff | packages/config/provider_vault.py:39 | a byte is stored in the clear exactly when its stream byte is zero |
| VaultBits.StreamDecides | packages/config/provider_vault.py:39 | the same text byte is stored alike exactly under equal stream bytes |
| Vault.DecryptSecret | packages/config/provider_vault.py:43-54 | None for a missing or empty blob, an error for a wrong version, a short blob or bytes that are not UTF-8 |
| VaultBits.BlobIsRead | packages/config/provider_vault.py:43-54 | no answer exactly for a missing or empty blob; refused exactly when the first byte is not 1 or there are fewer than 18; text that is read has as many bytes as the cipher; a blob that is not UTF-8 encrypts nothing |
| Vault.DecryptInvertsEncryptIff | packages/config/provider_vault.py:34-54 | decrypting an encrypted text gives it back exactly when it is not empty |
| Vault.EncryptInvertsDecrypt | packages/config/provider_vault.py:34-54 | a blob that decrypts is the encryption of that text under its own nonce |
| Vault.PayloadRoundTrip | packages/config/provider_connections.py:80-124 | every accepted payload comes back under its kind as stripped key, stripped token with connected true, or flag; refused exactly when a key is needed and blank |
| VaultBits.PayloadText | packages/config/provider_connections.py:80-95 | what is encrypted for each kind: the stripped key, "sub_oauth:" and the stripped token, or "subscription:" and the flag |
| VaultBits.PlainIsRead | packages/config/provider_connections.py:98-124 | what any decrypted text stands for: behind "sub_oauth:" the token, connected; otherwise connected exactly for "subscription:1"; for other kinds the key |
| Cursor.B64RoundTrip | packages/api/run_list_cursor.py:10-15 | base64url (section 5 of RFC 4648) decodes to what was encoded |
| CursorForm.GroupsAre | packages/api/run_list_cursor.py:10 | each group of three bytes is written in its place by four symbols of the table of section 5 of RFC 4648 that write the same number; a short last group has zero bits and padding behind it |
| CursorForm.LengthIs | packages/api/run_list_cursor.py:10 | four characters for every group begun |
| Cursor.PaddingIsRestored | packages/api/run_list_cursor.py:10-14 | the padding computed from the length is what was stripped, the length is never 1 mod 4, the rest is URL-safe |
| Cursor.CursorTextIsRead | packages/api/run_list_cursor.py:9-17 | the JSON text of a cursor reads back as its number and UUID |
| CursorForm.CursorTextIs | packages/api/run_list_cursor.py:9 | the JSON text, character by character around number and UUID |
| CursorForm.IntForm | packages/api/run_list_cursor.py:9 | the number: decimal digits that write it, no leading zero, a minus sign in front of negative ones |
| CursorForm.UuidForm | packages/api/run_list_cursor.py:9 | the UUID: 36 characters, hyphens in their four places, lower-case hexadecimal digits that write it |
| Cursor.CursorRoundTrip | packages/api/run_list_cursor.py:8-17 | decoding an encoded cursor gives (n, id) for every integer n and every UUID id |

## Left out

- PostgreSQL stores and queue, HTTP, MCP, SSE, the consoles and desktop UI, `scripts/peel_*`: SQL, network and display code.
- The broker guards, polling with deadlines (`wait_for_mesh_units`), environment switches, and file-backed configuration.
- Stage execution by an orchestrator: what a stage does to log and tree is arbitrary.
- `stage_graph_from_workflow_profile`, `default_stage_graph` and the timeline summary: building graphs from profiles.
- Serialisation of records and events (`json`, `validate_event_dict`): taken to keep the id and the content.
- `content_sha256_16`, `updated_at` and the copying of content: documents are immutable values.
- `load_dotenv` after the loop: the default admin token and operator presets.
- StageSnapshot.StageGraphNodeLookup: snapshots are those the code builds, so ill-typed JSON entries that the readers skip are not modelled.
- StageSnapshot.OrderIndexIsPosition: known stage names carry no surrounding white space, as all names in the repository's list.
- WorkerPolicy.SanitizeWorkUnitPayload: mapping keys are strings, and lower-casing is that of ASCII letters; other letters whose lower case contains an ASCII letter are not modelled.
- WorkUnits.InMemoryWorkUnitQueue.Complete: results are the two fields the host reads; other fields are carried along unread.
- ConfigSteps.NoUpdateLostIff: notification is on, the set of registered caches is fixed, and `delete` is not part of these runs; a write counts as stored even if its publication raises afterwards.
- ConfigStale.StepSettlesIff: listing the keys of a cache and clearing a whole cache are one access each, as they are single calls on a dict.
- RedisSteps.ReturnedAtMostOnce: clients do not crash between commands, and a pop from an empty list ends the call at once instead of after its one-second wait.
- MeshFiles.WorkspaceFileDigests: names are those of POSIX systems; file systems that fold case, links, permissions and special files are not modelled.
- MeshFiles.Workspace.ApplyWorkspaceFiles: what writing an absolute path does outside the workspace is not modelled, so it counts as written, though it can raise; the workspace stays as it is.
- MeshFiles.DiffWorkspaceFiles: an absolute path outside the workspace counts as missing; the digests a worker takes hold none.
- MeshMerge.MergeCompleteIff: content is written without newline translation, as on POSIX systems.
- MeshAbsorb.AbsorbCompletedMeshUnits: run against the in-memory queue; keys and values of `workspace_files` are strings.
- ConfigRuns.PerformAll: `delete` and `unregister` are not part of these runs (deleting does not notify), and calls do not interleave inside one another; `ConfigSteps` has the interleaving.
- Dotenv.SetEnvVar: the file is text or missing; writing it is atomic.
- Vault.EncryptSecret: texts with lone surrogates, which Python refuses to encode, cannot be written as Dafny strings.
- Cursor.CursorRoundTrip: decoding covers base64 text made of symbols and JSON text of the shape the encoder prints; what Python's lenient decoders accept beyond that, and Python's limit on the digits of an integer, are not modelled.
