// Many threads in the config store, its caches and the hub at once: a state machine in which every step
// is one access to a shared dict.  Neither the documents nor the caches have a lock:
// packages/config/store.py, materializer.py, notify.py.
module ConfigSteps {
  import opened Wrappers
  import opened Json
  import opened ConfigStore

  type Thread = nat

  /** What dropping the listed keys of a cache is for: a call of `refresh`, or the publication of a write,
      which goes on with the next cache and may then cache its own content. */
  datatype Goal = Refresh | Publication(key: Key, own: Option<(nat, Json)>)

  /** What a thread is in the middle of, by the access it makes next.  `since` is the number of writes that
      had succeeded when a read was called. */
  datatype Pc =
    | Idle
    | SetRow(seen: Option<Row>, row: Row, through: Option<nat>)       // write the row computed from `seen`
    | Publish(key: Key, next: nat, own: Option<(nat, Json)>)          // list the keys of the registered cache `next`
    | ListKeys(i: nat, namespace: string)                             // list the keys to refresh
    | Dropping(i: nat, keys: seq<Key>, goal: Goal)                    // drop the first of the listed keys
    | PutOwn(i: nat, key: Key, content: Json)                         // cache the content written through
    | ReadHit(i: nat, key: Key, since: nat)                           // read the entry found in the cache
    | LoadRow(i: nat, key: Key, since: nat)                           // read the row after a cache miss
    | PutRead(i: nat, key: Key, content: Json, since: nat)            // cache the content read

  /** A successful write: the row it was computed from, and the row it stored. */
  datatype Success = Success(seen: Option<Row>, row: Row)

  /** The documents, the caches of the registered materializers, the threads, and the writes so far. */
  datatype World = World(docs: Docs, caches: seq<map<Key, Json>>, pcs: map<Thread, Pc>, log: seq<Success>)

  function At(w: World, t: Thread): Pc {
    if t in w.pcs then w.pcs[t] else Idle
  }

  function RowOf(docs: Docs, key: Key): Option<Row> {
    if key in docs then Some(docs[key]) else None
  }

  /** A call, or the next access of a call; `keys` is the order in which a dict lists its keys. */
  datatype Action =
    | CallWrite(t: Thread, key: Key, content: Json, expected: Option<int>, through: Option<nat>)
    | CallRead(t: Thread, i: nat, key: Key)
    | CallRefresh(t: Thread, i: nat, namespace: Option<string>)
    | Continue(t: Thread, keys: seq<Key>)

  /** The keys of the namespace, each once. */
  predicate IsListing(cache: map<Key, Json>, namespace: string, keys: seq<Key>) {
    && (forall k :: k in keys ==> k in cache && k.0 == namespace)
    && (forall k :: k in cache && k.0 == namespace ==> k in keys)
    && (forall a, b :: 0 <= a < b < |keys| ==> keys[a] != keys[b])
  }

  predicate Enabled(w: World, a: Action) {
    match a
    case CallWrite(t, _, _, _, through) => At(w, t).Idle? && (through.Some? ==> through.value < |w.caches|)
    case CallRead(t, i, _) => At(w, t).Idle? && i < |w.caches|
    case CallRefresh(t, i, _) => At(w, t).Idle? && i < |w.caches|
    case Continue(t, keys) =>
      match At(w, t)
      case Idle => false
      case SetRow(_, _, _) => true
      case Publish(key, next, _) => next < |w.caches| ==> IsListing(w.caches[next], key.0, keys)
      case ListKeys(i, namespace) => i < |w.caches| && IsListing(w.caches[i], namespace, keys)
      case Dropping(i, _, _) => i < |w.caches|
      case PutOwn(i, _, _) => i < |w.caches|
      case ReadHit(i, _, _) => i < |w.caches|
      case LoadRow(i, _, _) => i < |w.caches|
      case PutRead(i, _, _, _) => i < |w.caches|
  }

  /** Deleting the first listed key raises: it is no longer in the cache. */
  predicate Raises(w: World, a: Action) {
    && a.Continue? && At(w, a.t).Dropping? && At(w, a.t).i < |w.caches|
    && At(w, a.t).keys != [] && At(w, a.t).keys[0] !in w.caches[At(w, a.t).i]
  }

  /** After the last listed key a refresh returns and a publication goes on; a `del` that raises ends the
      whole call, and with it the publication. */
  function DropStep(w: World, t: Thread, i: nat, keys: seq<Key>, goal: Goal): World
    requires i < |w.caches|
  {
    if keys == [] then
      w.(pcs := w.pcs[t := if goal.Refresh? then Idle else Publish(goal.key, i + 1, goal.own)])
    else if keys[0] !in w.caches[i] then
      w.(pcs := w.pcs[t := Idle])
    else
      w.(caches := w.caches[i := w.caches[i] - {keys[0]}], pcs := w.pcs[t := Dropping(i, keys[1..], goal)])
  }

  function ContinueStep(w: World, t: Thread, listed: seq<Key>): World
    requires Enabled(w, Continue(t, listed))
  {
    match At(w, t)
    case SetRow(seen, row, through) =>
      World(w.docs[row.key := row], w.caches,
            w.pcs[t := Publish(row.key, 0, if through.Some? then Some((through.value, row.content)) else None)],
            w.log + [Success(seen, row)])
    case Publish(key, next, own) =>
      if next < |w.caches| then w.(pcs := w.pcs[t := Dropping(next, listed, Publication(key, own))])
      else w.(pcs := w.pcs[t := if own.Some? then PutOwn(own.value.0, key, own.value.1) else Idle])
    case ListKeys(i, namespace) => w.(pcs := w.pcs[t := Dropping(i, listed, Refresh)])
    case Dropping(i, keys, goal) => DropStep(w, t, i, keys, goal)
    case PutOwn(i, key, content) =>
      w.(caches := w.caches[i := w.caches[i][key := content]], pcs := w.pcs[t := Publish(key, 0, None)])
    case ReadHit(i, key, since) => w.(pcs := w.pcs[t := Idle])
    case LoadRow(i, key, since) =>
      w.(pcs := w.pcs[t := if key in w.docs then PutRead(i, key, w.docs[key].content, since) else Idle])
    case PutRead(i, key, content, since) =>
      w.(caches := w.caches[i := w.caches[i][key := content]], pcs := w.pcs[t := Idle])
  }

  function Next(w: World, a: Action): World
    requires Enabled(w, a)
  {
    match a
    case CallWrite(t, key, content, expected, through) =>
      var row := Upserted(w.docs, key, content, expected).1;
      if row.Err? then w else w.(pcs := w.pcs[t := SetRow(RowOf(w.docs, key), row.value, through)])
    case CallRead(t, i, key) =>
      w.(pcs := w.pcs[t := if key in w.caches[i] then ReadHit(i, key, |w.log|) else LoadRow(i, key, |w.log|)])
    case CallRefresh(t, i, namespace) =>
      if namespace.None? then w.(caches := w.caches[i := map[]])
      else w.(pcs := w.pcs[t := ListKeys(i, namespace.value)])
    case Continue(t, keys) => ContinueStep(w, t, keys)
  }

  /** An empty store and `n` registered materializers with empty caches. */
  function Start(n: nat): World {
    World(map[], seq(n, _ => map[]), map[], [])
  }

  ghost predicate EnabledRun(w: World, run: seq<Action>)
    decreases |run|
  {
    run == [] || (Enabled(w, run[0]) && EnabledRun(Next(w, run[0]), run[1..]))
  }

  function After(w: World, run: seq<Action>): World
    requires EnabledRun(w, run)
    decreases |run|
  {
    if run == [] then w else After(Next(w, run[0]), run[1..])
  }

  ghost predicate RunsTo(w: World, run: seq<Action>, end: World) {
    EnabledRun(w, run) && After(w, run) == end
  }

  /** One more step at the end of a run. */
  lemma {:induction false} Then(w: World, run: seq<Action>, mid: World, a: Action) returns (longer: seq<Action>, end: World)
    requires RunsTo(w, run, mid) && Enabled(mid, a)
    ensures longer == run + [a] && end == Next(mid, a) && RunsTo(w, longer, end)
    decreases |run|
  {
    longer, end := run + [a], Next(mid, a);
    if run == [] {
      assert longer == [a] && [a][1..] == [];
      assert EnabledRun(end, []);
    } else {
      var rest, _ := Then(Next(w, run[0]), run[1..], mid, a);
      assert longer[0] == run[0] && longer[1..] == run[1..] + [a];
    }
  }

  lemma {:induction false} PrefixRuns(w: World, run: seq<Action>, m: nat)
    requires EnabledRun(w, run) && m <= |run|
    ensures EnabledRun(w, run[..m]) && EnabledRun(After(w, run[..m]), run[m..])
    ensures After(w, run) == After(After(w, run[..m]), run[m..])
    decreases |run|
  {
    if m == 0 {
      assert run[0..] == run;
    } else {
      PrefixRuns(Next(w, run[0]), run[1..], m - 1);
      assert run[..m][0] == run[0] && run[..m][1..] == run[1..][..m - 1] && run[m..] == run[1..][m - 1..];
    }
  }

  // ---- Lost updates -------------------------------------------------------

  /** The row of the last success for a key. */
  function LastRow(log: seq<Success>, key: Key): Option<Row> {
    if log == [] then None
    else if log[|log| - 1].row.key == key then Some(log[|log| - 1].row)
    else LastRow(log[..|log| - 1], key)
  }

  /** Every success was computed from the row of the success immediately before it: no update is lost. */
  predicate Chained(log: seq<Success>) {
    log == [] ||
    (Chained(log[..|log| - 1]) && log[|log| - 1].seen == LastRow(log[..|log| - 1], log[|log| - 1].row.key))
  }

  /** The step stores a row although the document is no longer the one it was computed from. */
  predicate Overtaken(w: World, a: Action) {
    a.Continue? && At(w, a.t).SetRow? && At(w, a.t).seen != RowOf(w.docs, At(w, a.t).row.key)
  }

  ghost predicate NoneOvertaken(w: World, run: seq<Action>)
    requires EnabledRun(w, run)
    decreases |run|
  {
    run == [] || (!Overtaken(w, run[0]) && NoneOvertaken(Next(w, run[0]), run[1..]))
  }

  ghost predicate DocsFollowLog(w: World) {
    forall k :: RowOf(w.docs, k) == LastRow(w.log, k)
  }

  lemma LastRowSnoc(log: seq<Success>, s: Success, k: Key)
    ensures LastRow(log + [s], k) == if s.row.key == k then Some(s.row) else LastRow(log, k)
    ensures Chained(log + [s]) <==> Chained(log) && s.seen == LastRow(log, s.row.key)
  {
    assert (log + [s])[..|log|] == log;
  }

  lemma StepChains(w: World, a: Action)
    requires DocsFollowLog(w) && Enabled(w, a)
    ensures DocsFollowLog(Next(w, a))
    ensures Chained(Next(w, a).log) <==> Chained(w.log) && !Overtaken(w, a)
  {
    if a.Continue? && At(w, a.t).SetRow? {
      var s := Success(At(w, a.t).seen, At(w, a.t).row);
      forall k
        ensures RowOf(Next(w, a).docs, k) == LastRow(Next(w, a).log, k)
      {
        LastRowSnoc(w.log, s, k);
      }
      LastRowSnoc(w.log, s, s.row.key);
      assert RowOf(w.docs, s.row.key) == LastRow(w.log, s.row.key);
    }
  }

  lemma {:induction false} RunChainsIff(w: World, run: seq<Action>)
    requires DocsFollowLog(w) && EnabledRun(w, run)
    ensures Chained(After(w, run).log) <==> Chained(w.log) && NoneOvertaken(w, run)
    decreases |run|
  {
    if run != [] {
      StepChains(w, run[0]);
      RunChainsIff(Next(w, run[0]), run[1..]);
    }
  }

  // ---- Versions -----------------------------------------------------------

  function VersionAfter(seen: Option<Row>): int {
    if seen.Some? then seen.value.version + 1 else 1
  }

  predicate InLog(log: seq<Success>, key: Key, seen: Option<Row>) {
    seen.Some? ==> seen.value.key == key && exists i :: 0 <= i < |log| && log[i].row == seen.value
  }

  /** The success is numbered after the row it saw, which an earlier success stored. */
  predicate Numbered(log: seq<Success>, s: Success) {
    s.row.version == VersionAfter(s.seen) && InLog(log, s.row.key, s.seen)
  }

  predicate AllNumbered(log: seq<Success>) {
    log == [] || (AllNumbered(log[..|log| - 1]) && Numbered(log[..|log| - 1], log[|log| - 1]))
  }

  ghost predicate RowsSound(w: World) {
    && DocsFollowLog(w) && AllNumbered(w.log)
    && (forall k :: k in w.docs ==> w.docs[k].key == k)
    && forall t :: t in w.pcs && w.pcs[t].SetRow? ==> Numbered(w.log, Success(w.pcs[t].seen, w.pcs[t].row))
  }

  lemma {:induction false} LastRowInLog(log: seq<Success>, key: Key)
    ensures InLog(log, key, LastRow(log, key))
  {
    if log != [] && log[|log| - 1].row.key != key {
      LastRowInLog(log[..|log| - 1], key);
      if LastRow(log, key).Some? {
        var i :| 0 <= i < |log| - 1 && log[..|log| - 1][i].row == LastRow(log, key).value;
        assert log[i].row == LastRow(log, key).value;
      }
    }
  }

  lemma StaysInLog(log: seq<Success>, s: Success, key: Key, seen: Option<Row>)
    requires InLog(log, key, seen)
    ensures InLog(log + [s], key, seen)
  {
    if seen.Some? {
      var i :| 0 <= i < |log| && log[i].row == seen.value;
      assert (log + [s])[i].row == seen.value;
    }
  }

  lemma CallStaysSound(w: World, a: Action)
    requires RowsSound(w) && Enabled(w, a) && a.CallWrite?
    ensures RowsSound(Next(w, a))
  {
    LastRowInLog(w.log, a.key);
    assert RowOf(w.docs, a.key) == LastRow(w.log, a.key);
  }

  lemma SetStaysSound(w: World, a: Action)
    requires RowsSound(w) && Enabled(w, a) && a.Continue? && At(w, a.t).SetRow?
    ensures RowsSound(Next(w, a))
  {
    var s, next := Success(At(w, a.t).seen, At(w, a.t).row), Next(w, a);
    StepChains(w, a);
    assert next.log[..|w.log|] == w.log;
    forall t | t in next.pcs && next.pcs[t].SetRow?
      ensures Numbered(next.log, Success(next.pcs[t].seen, next.pcs[t].row))
    {
      assert next.pcs[t] == w.pcs[t];
      StaysInLog(w.log, s, w.pcs[t].row.key, w.pcs[t].seen);
    }
  }

  lemma StepStaysSound(w: World, a: Action)
    requires RowsSound(w) && Enabled(w, a)
    ensures RowsSound(Next(w, a))
  {
    if a.CallWrite? {
      CallStaysSound(w, a);
    } else if a.Continue? && At(w, a.t).SetRow? {
      SetStaysSound(w, a);
    } else {
      assert forall t :: t in Next(w, a).pcs && Next(w, a).pcs[t].SetRow? ==> t in w.pcs && Next(w, a).pcs[t] == w.pcs[t];
    }
  }

  lemma {:induction false} RunStaysSound(w: World, run: seq<Action>)
    requires RowsSound(w) && EnabledRun(w, run)
    ensures RowsSound(After(w, run))
    decreases |run|
  {
    if run != [] {
      StepStaysSound(w, run[0]);
      RunStaysSound(Next(w, run[0]), run[1..]);
    }
  }

  /** No two successes give a document the same version. */
  predicate VersionsDiffer(log: seq<Success>) {
    forall i, j :: 0 <= i < j < |log| && log[i].row.key == log[j].row.key ==> log[i].row.version != log[j].row.version
  }

  function LastVersion(log: seq<Success>, key: Key): int {
    if LastRow(log, key).Some? then LastRow(log, key).value.version else 0
  }

  /** In a chain the versions of a document are 1, 2, 3 and so on up to the last one, each once. */
  lemma {:induction false} ChainVersions(log: seq<Success>, key: Key)
    requires Chained(log) && AllNumbered(log)
    ensures LastVersion(log, key) >= 0
    ensures forall i :: 0 <= i < |log| && log[i].row.key == key ==> 1 <= log[i].row.version <= LastVersion(log, key)
    ensures forall i :: 0 <= i < |log| && log[i].row.key == key && log[i].row.version == LastVersion(log, key) ==>
                          LastRow(log, key) == Some(log[i].row)
    ensures forall v :: 1 <= v <= LastVersion(log, key) ==> HasVersion(log, key, v)
  {
    if log != [] {
      var init, last := log[..|log| - 1], log[|log| - 1];
      assert log == init + [last];
      ChainVersions(init, key);
      forall v | 1 <= v <= LastVersion(log, key)
        ensures HasVersion(log, key, v)
      {
        if v <= LastVersion(init, key) {
          assert HasVersion(init, key, v);
          var i :| 0 <= i < |init| && init[i].row.key == key && init[i].row.version == v;
          assert log[i].row.version == v;
        } else {
          assert log[|init|].row.version == v;
        }
      }
    }
  }

  predicate HasVersion(log: seq<Success>, key: Key, v: int) {
    exists i :: 0 <= i < |log| && log[i].row.key == key && log[i].row.version == v
  }

  /** A history without lost updates is one in which every version admits one success only. */
  lemma {:induction false} ChainedIffVersionsDiffer(log: seq<Success>)
    requires AllNumbered(log)
    ensures Chained(log) <==> VersionsDiffer(log)
  {
    if log != [] {
      var init, last := log[..|log| - 1], log[|log| - 1];
      assert log == init + [last];
      ChainedIffVersionsDiffer(init);
      if Chained(log) {
        ChainVersions(init, last.row.key);
        assert forall i :: 0 <= i < |init| ==> log[i] == init[i];
      }
      if VersionsDiffer(log) {
        assert forall i, j :: 0 <= i < j < |init| ==> init[i] == log[i] && init[j] == log[j];
        ChainVersions(init, last.row.key);
        SeenIsLast(init, last);
      }
    }
  }

  lemma SeenIsLast(init: seq<Success>, last: Success)
    requires Chained(init) && AllNumbered(init) && Numbered(init, last) && VersionsDiffer(init + [last])
    ensures last.seen == LastRow(init, last.row.key)
  {
    var key, log := last.row.key, init + [last];
    ChainVersions(init, key);
    LastRowInLog(init, key);
    assert forall i :: 0 <= i < |init| ==>
                         log[i] == init[i] && (init[i].row.key == key ==> log[i].row.version != log[|init|].row.version);
    assert !HasVersion(init, key, last.row.version);
    if last.seen.Some? {
      var j :| 0 <= j < |init| && init[j].row == last.seen.value;
      assert 1 <= init[j].row.version <= LastVersion(init, key);
    }
  }

  /** However the threads' accesses interleave, no update is lost, and equivalently each version admits one
      success only, exactly when no thread stores a row after the document has changed under it. */
  lemma NoUpdateLostIff(n: nat, run: seq<Action>)
    requires EnabledRun(Start(n), run)
    ensures Chained(After(Start(n), run).log) <==> NoneOvertaken(Start(n), run)
    ensures VersionsDiffer(After(Start(n), run).log) <==> NoneOvertaken(Start(n), run)
  {
    RunChainsIff(Start(n), run);
    RunStaysSound(Start(n), run);
    ChainedIffVersionsDiffer(After(Start(n), run).log);
  }

  // ---- What a caller can rely on ------------------------------------------

  /** No write of a document starts while another write of it has yet to store its row. */
  ghost predicate Apart(w: World, a: Action) {
    a.CallWrite? ==> forall t :: t in w.pcs && w.pcs[t].SetRow? ==> w.pcs[t].row.key != a.key
  }

  ghost predicate AllApart(w: World, run: seq<Action>)
    requires EnabledRun(w, run)
    decreases |run|
  {
    run == [] || (Apart(w, run[0]) && AllApart(Next(w, run[0]), run[1..]))
  }

  /** One write of a document at a time, and each still sees the row it will replace. */
  ghost predicate OneWriter(w: World) {
    && (forall k :: k in w.docs ==> w.docs[k].key == k)
    && (forall t :: t in w.pcs && w.pcs[t].SetRow? ==> w.pcs[t].seen == RowOf(w.docs, w.pcs[t].row.key))
    && (forall t, u :: t in w.pcs && u in w.pcs && t != u && w.pcs[t].SetRow? && w.pcs[u].SetRow? ==>
                         w.pcs[t].row.key != w.pcs[u].row.key)
  }

  /** The other threads, and the documents, as one thread moves on without storing a row. */
  lemma OthersKeepOneWriter(w: World, t: Thread, pc: Pc, caches: seq<map<Key, Json>>)
    requires OneWriter(w)
    requires pc.SetRow? ==> pc.seen == RowOf(w.docs, pc.row.key) &&
                            forall u :: u in w.pcs && w.pcs[u].SetRow? ==> w.pcs[u].row.key != pc.row.key
    ensures OneWriter(World(w.docs, caches, w.pcs[t := pc], w.log))
  {
  }

  lemma SetKeepsOneWriter(w: World, a: Action)
    requires OneWriter(w) && Enabled(w, a) && a.Continue? && At(w, a.t).SetRow?
    ensures OneWriter(Next(w, a)) && !Overtaken(w, a)
  {
    var next := Next(w, a);
    assert forall t :: t in next.pcs && t != a.t ==> t in w.pcs && next.pcs[t] == w.pcs[t];
  }

  lemma StepKeepsOneWriter(w: World, a: Action)
    requires OneWriter(w) && Enabled(w, a) && Apart(w, a)
    ensures OneWriter(Next(w, a)) && !Overtaken(w, a)
  {
    var next := Next(w, a);
    if a.Continue? && At(w, a.t).SetRow? {
      SetKeepsOneWriter(w, a);
    } else if next.pcs != w.pcs {
      OthersKeepOneWriter(w, a.t, next.pcs[a.t], next.caches);
    }
  }

  /** Writes of one document that do not overlap lose no update. */
  lemma {:induction false} ApartNeverOvertaken(w: World, run: seq<Action>)
    requires OneWriter(w) && EnabledRun(w, run) && AllApart(w, run)
    ensures NoneOvertaken(w, run)
    decreases |run|
  {
    if run != [] {
      StepKeepsOneWriter(w, run[0]);
      ApartNeverOvertaken(Next(w, run[0]), run[1..]);
    }
  }

  lemma NoOverlapNoLoss(n: nat, run: seq<Action>)
    requires EnabledRun(Start(n), run) && AllApart(Start(n), run)
    ensures VersionsDiffer(After(Start(n), run).log)
  {
    ApartNeverOvertaken(Start(n), run);
    NoUpdateLostIff(n, run);
  }

  lemma {:induction false} LogGrows(w: World, run: seq<Action>)
    requires EnabledRun(w, run)
    ensures w.log <= After(w, run).log
    decreases |run|
  {
    if run != [] {
      LogGrows(Next(w, run[0]), run[1..]);
    }
  }

  /** While no row is stored over a changed document, a version names one row: a document that was looked up
      earlier and has the same version now has not changed. */
  lemma VersionNamesRow(n: nat, run: seq<Action>, m: nat, key: Key)
    requires EnabledRun(Start(n), run) && m <= |run| && NoneOvertaken(Start(n), run)
    ensures EnabledRun(Start(n), run[..m]) &&
            var earlier, now := After(Start(n), run[..m]).docs, After(Start(n), run).docs;
            key in earlier && key in now && earlier[key].version == now[key].version ==> earlier[key] == now[key]
  {
    PrefixRuns(Start(n), run, m);
    var w, end := After(Start(n), run[..m]), After(Start(n), run);
    RunStaysSound(Start(n), run[..m]);
    RunStaysSound(Start(n), run);
    NoUpdateLostIff(n, run);
    LogGrows(w, run[m..]);
    if key in w.docs && key in end.docs && w.docs[key].version == end.docs[key].version {
      assert RowOf(w.docs, key) == LastRow(w.log, key) && RowOf(end.docs, key) == LastRow(end.log, key);
      LastRowInLog(w.log, key);
      ChainVersions(end.log, key);
      var i :| 0 <= i < |w.log| && w.log[i].row == w.docs[key];
      assert end.log[i] == w.log[i];
    }
  }

  /** A compare-and-set that is about to store its row, after its caller had looked the document up at the
      version it expects, replaces the very row its caller saw. */
  lemma SwapReplacesWhatWasSeen(n: nat, run: seq<Action>, m: nat, t: Thread)
    requires EnabledRun(Start(n), run) && m <= |run| && NoneOvertaken(Start(n), run)
    requires var w := After(Start(n), run);
             At(w, t).SetRow? && At(w, t).seen.Some? && !Overtaken(w, Continue(t, []))
    ensures EnabledRun(Start(n), run[..m]) &&
            var w, earlier := After(Start(n), run), After(Start(n), run[..m]).docs;
            var key := At(w, t).row.key;
            key in earlier && earlier[key].version == At(w, t).seen.value.version ==>
            RowOf(w.docs, key) == Some(earlier[key])
  {
    VersionNamesRow(n, run, m, At(After(Start(n), run), t).row.key);
  }

  predicate Agrees(docs: Docs, key: Key, content: Json) {
    key in docs && docs[key].content == content
  }

  /** Two threads that both read a row before either writes both succeed, even if both expected its
      version, and both successes carry the same version: the first update is lost. */
  lemma BothSucceed(w: World, t: Thread, u: Thread, key: Key, c: Json, d: Json, expected: Option<int>) returns (run: seq<Action>)
    requires t != u && At(w, t).Idle? && At(w, u).Idle? && (key in w.docs ==> w.docs[key].key == key)
    requires Upserted(w.docs, key, c, expected).1.Ok? && Upserted(w.docs, key, d, expected).1.Ok?
    ensures EnabledRun(w, run) && Agrees(After(w, run).docs, key, d)
    ensures var seen := RowOf(w.docs, key);
            After(w, run).log ==
            w.log + [Success(seen, Row(key, VersionAfter(seen), c)), Success(seen, Row(key, VersionAfter(seen), d))]
  {
    var end;
    assert EnabledRun(w, []);
    run, end := Then(w, [], w, CallWrite(t, key, c, expected, None));
    run, end := Then(w, run, end, CallWrite(u, key, d, expected, None));
    run, end := Then(w, run, end, Continue(t, []));
    run, end := Then(w, run, end, Continue(u, []));
  }
}
