// What the host takes from completed units: packages/compute/mesh_host_sync_legacy.py.
module MeshAbsorb {
  import opened Wrappers
  import opened WorkUnits
  import opened WorkUnitRuns
  import opened MeshReplay
  import opened FileTree
  import opened MeshFiles

  // ---- Which unit speaks for a stage --------------------------------------

  function Where(s: seq<Record>, keep: Record -> bool): seq<Record> {
    if s == [] then []
    else if keep(s[|s| - 1]) then Where(s[..|s| - 1], keep) + [s[|s| - 1]]
    else Where(s[..|s| - 1], keep)
  }

  function InRun(run: nat): Record -> bool {
    (u: Record) => u.ticket.runId == run
  }

  function InStage(stage: string): Record -> bool {
    (u: Record) => u.ticket.stageName == stage
  }

  /** The queue's `list_units(run_id=run)`. */
  function ListUnits(st: State, run: nat): seq<Record>
    requires Valid(st)
  {
    SortedByCreation(Where(Values(st), InRun(run)))
  }

  function LatestUnit(units: seq<Record>, stage: string): Option<Record> {
    var matches := SortedByCreation(Where(units, InStage(stage)));
    if matches == [] then None else Some(matches[|matches| - 1])
  }

  predicate Concerns(u: Record, run: nat, stage: string) {
    u.ticket.runId == run && u.ticket.stageName == stage
  }

  /** No unit of the run and stage was created after `w`; of those created at the same instant it was
      stored last. */
  ghost predicate Newest(st: State, run: nat, stage: string, w: Id)
    requires Valid(st)
  {
    && w in st.units && Concerns(st.units[w], run, stage)
    && forall k :: k in st.units && Concerns(st.units[k], run, stage) ==> Older(st, st.units[k], st.units[w])
  }

  lemma {:induction false} WhereHas(s: seq<Record>, keep: Record -> bool, x: Record)
    ensures x in Where(s, keep) <==> x in s && keep(x)
  {
    if s != [] {
      assert s == s[..|s| - 1] + [s[|s| - 1]];
      WhereHas(s[..|s| - 1], keep, x);
    }
  }

  lemma SortedHas(s: seq<Record>, x: Record)
    ensures x in SortedByCreation(s) <==> x in s
  {
    SortedMultiset(s);
    assert x in SortedByCreation(s) <==> x in multiset(SortedByCreation(s));
    assert x in s <==> x in multiset(s);
  }

  lemma WhereSnoc(s: seq<Record>, x: Record, keep: Record -> bool)
    ensures Where(s + [x], keep) == if keep(x) then Where(s, keep) + [x] else Where(s, keep)
  {
    assert (s + [x])[..|s|] == s;
  }

  lemma SortedSnoc(s: seq<Record>, x: Record)
    ensures SortedByCreation(s + [x]) == InsertByCreation(SortedByCreation(s), x)
  {
    assert (s + [x])[..|s|] == s;
  }

  lemma ValuesSnoc(st: State, n: nat)
    requires Valid(st) && 0 < n <= |st.order|
    ensures Values(st)[..n] == Values(st)[..n - 1] + [Values(st)[n - 1]]
    ensures Values(st)[n - 1].id == st.order[n - 1]
  {
    assert st.order[n - 1] in st.order;
  }

  /** Sorted records, all among the first `n` of the dict. */
  ghost predicate SortedBelow(st: State, s: seq<Record>, n: nat) {
    AllStored(st, s) && OlderFirst(st, s) && forall x :: x in s ==> x.id in st.order && Rank(st.order, x.id) < n
  }

  lemma {:induction false} RunSorted(st: State, run: nat, n: nat)
    requires Valid(st) && n <= |st.order|
    ensures SortedBelow(st, SortedByCreation(Where(Values(st)[..n], InRun(run))), n)
  {
    if n > 0 {
      RunSorted(st, run, n - 1);
      ValuesSnoc(st, n);
      var s, x := Values(st)[..n - 1], Values(st)[n - 1];
      WhereSnoc(s, x, InRun(run));
      SortedSnoc(Where(s, InRun(run)), x);
      RankIs(st.order, n - 1);
      if InRun(run)(x) {
        InsertKeepsOrder(st, SortedByCreation(Where(s, InRun(run))), x);
      }
    }
  }

  lemma {:induction false} WhereKeepsOrder(st: State, s: seq<Record>, keep: Record -> bool)
    requires AllStored(st, s) && OlderFirst(st, s)
    ensures AllStored(st, Where(s, keep)) && OlderFirst(st, Where(s, keep))
  {
    if s != [] {
      var init, last := s[..|s| - 1], s[|s| - 1];
      WhereKeepsOrder(st, init, keep);
      var w := Where(init, keep);
      forall i | 0 <= i < |w|
        ensures Older(st, w[i], last)
      {
        WhereHas(init, keep, w[i]);
        var j :| 0 <= j < |init| && init[j] == w[i];
        assert Older(st, s[j], s[|s| - 1]);
      }
    }
  }

  /** Sorting what is in order already changes nothing. */
  lemma {:induction false} SortedStays(st: State, s: seq<Record>)
    requires AllStored(st, s) && OlderFirst(st, s)
    ensures SortedByCreation(s) == s
  {
    if s != [] {
      var init := s[..|s| - 1];
      SortedStays(st, init);
      if init != [] { assert Older(st, s[|s| - 2], s[|s| - 1]); }
      assert s == init + [s[|s| - 1]];
    }
  }

  lemma MatchesAre(st: State, run: nat, stage: string)
    requires Valid(st)
    ensures var m := SortedByCreation(Where(ListUnits(st, run), InStage(stage)));
            && AllStored(st, m) && OlderFirst(st, m)
            && forall x :: x in m <==> x.id in st.units && st.units[x.id] == x && Concerns(x, run, stage)
  {
    var v, listed := Values(st), ListUnits(st, run);
    assert v[..|v|] == v;
    RunSorted(st, run, |v|);
    WhereKeepsOrder(st, listed, InStage(stage));
    var m := Where(listed, InStage(stage));
    SortedStays(st, m);
    forall x: Record
      ensures x in m <==> x.id in st.units && st.units[x.id] == x && Concerns(x, run, stage)
    {
      WhereHas(listed, InStage(stage), x);
      SortedHas(Where(v, InRun(run)), x);
      WhereHas(v, InRun(run), x);
      SortedMember(st, x);
      SortedHas(v, x);
    }
  }

  /** The unit consulted for a stage is the newest one stored for the run and stage, and there is none
      only when none is stored. */
  lemma LatestIsNewest(st: State, run: nat, stage: string)
    requires Valid(st)
    ensures var out := LatestUnit(ListUnits(st, run), stage);
            && (out.None? <==> forall k :: k in st.units ==> !Concerns(st.units[k], run, stage))
            && forall w :: w in st.units ==> (out == Some(st.units[w]) <==> Newest(st, run, stage, w))
  {
    MatchesAre(st, run, stage);
    var m := SortedByCreation(Where(ListUnits(st, run), InStage(stage)));
    if m == [] {
      forall k | k in st.units
        ensures !Concerns(st.units[k], run, stage)
      {
        assert st.units[k] !in m;
      }
    } else {
      var last := m[|m| - 1];
      assert last in m;
      LastIsNewest(st, run, stage, m);
      forall w | w in st.units && Newest(st, run, stage, w)
        ensures last == st.units[w]
      {
        assert Older(st, last, st.units[w]) && Older(st, st.units[w], last);
      }
    }
  }

  lemma LastIsNewest(st: State, run: nat, stage: string, m: seq<Record>)
    requires Valid(st) && m != [] && AllStored(st, m) && OlderFirst(st, m)
    requires forall x :: x in m <==> x.id in st.units && st.units[x.id] == x && Concerns(x, run, stage)
    ensures m[|m| - 1].id in st.units && Newest(st, run, stage, m[|m| - 1].id)
  {
    var last := m[|m| - 1];
    assert last in m;
    forall k | k in st.units && Concerns(st.units[k], run, stage)
      ensures Older(st, st.units[k], last)
    {
      assert st.units[k] in m;
      var i :| 0 <= i < |m| && m[i] == st.units[k];
      if i < |m| - 1 { assert Older(st, m[i], m[|m| - 1]); }
    }
  }

  // ---- Absorbing ----------------------------------------------------------

  /** The host's log and, if it has one, its workspace. */
  datatype Host = Host(log: seq<Event>, tree: Option<Tree>)

  /** How far the loop has come: the host, what was counted, and the path at which writing raised. */
  datatype Absorbed = Absorbed(host: Host, events: nat, files: nat, conflict: Option<string>)

  /** The events a unit contributes, once it is terminal. */
  function EventsOf(rec: Option<Record>): seq<RawEvent> {
    if rec.Some? && Terminal(rec.value.status) && rec.value.result.Some? && rec.value.result.value.replayEvents.Some?
    then rec.value.result.value.replayEvents.value
    else []
  }

  function FilesOf(rec: Option<Record>): seq<Item> {
    if rec.Some? && Terminal(rec.value.status) && rec.value.result.Some? && rec.value.result.value.workspaceFiles.Some?
    then rec.value.result.value.workspaceFiles.value
    else []
  }

  /** One stage: its events are replayed first, then its files are written, which may raise. */
  function AbsorbBatch(a: Absorbed, events: seq<RawEvent>, files: seq<Item>): Absorbed {
    var log, count := Replayed(a.host.log, events), a.events + |NewEvents(Ids(a.host.log), events)|;
    if a.host.tree.None? then Absorbed(Host(log, None), count, a.files, None)
    else
      var out := Applied(a.host.tree.value, files);
      Absorbed(Host(log, Some(out.tree)), count, a.files + |out.applied|, out.conflict)
  }

  /** The stages in order, up to the first one that raises. */
  function Absorb(host: Host, units: seq<Record>, stages: seq<string>): Absorbed {
    if stages == [] then Absorbed(host, 0, 0, None)
    else
      var a, rec := Absorb(host, units, stages[..|stages| - 1]), LatestUnit(units, stages[|stages| - 1]);
      if a.conflict.Some? then a else AbsorbBatch(a, EventsOf(rec), FilesOf(rec))
  }

  function HostOf(store: EventStore, workspace: Workspace?): Host
    reads store, workspace
  {
    Host(store.log, if workspace == null then None else Some(workspace.tree))
  }

  /** One turn of the loop: `before` is what the earlier turns absorbed. */
  method AbsorbStage(rec: Option<Record>, store: EventStore, workspace: Workspace?, ghost before: Absorbed)
    returns (events: nat, r: Result<nat, string>)
    requires before.host == HostOf(store, workspace)
    modifies store, workspace
    ensures var a := AbsorbBatch(before, EventsOf(rec), FilesOf(rec));
            && HostOf(store, workspace) == a.host && before.events + events == a.events
            && (r.Ok? ==> a.conflict.None? && before.files + r.value == a.files)
            && (r.Err? ==> a.conflict == Some(r.error))
  {
    events, r := 0, Ok(0);
    if rec.None? || !Terminal(rec.value.status) || rec.value.result.None? {
      return;
    }
    var result := rec.value.result.value;
    if result.replayEvents.Some? {
      events := ReplayEventsToStore(store, result.replayEvents.value);
    }
    if workspace != null && result.workspaceFiles.Some? && result.workspaceFiles.value != [] {
      var applied := workspace.ApplyWorkspaceFiles(result.workspaceFiles.value);
      r := match applied case Ok(paths) => Ok(|paths|) case Err(rel) => Err(rel);
    }
  }

  lemma {:induction false} RaisedStays(host: Host, units: seq<Record>, stages: seq<string>, i: nat)
    requires i <= |stages| && Absorb(host, units, stages[..i]).conflict.Some?
    ensures Absorb(host, units, stages) == Absorb(host, units, stages[..i])
  {
    if i < |stages| {
      assert stages[..|stages| - 1][..i] == stages[..i];
      RaisedStays(host, units, stages[..|stages| - 1], i);
    } else {
      assert stages[..i] == stages;
    }
  }

  /** The counts of events replayed and files merged, or the path at which writing raised. */
  method AbsorbCompletedMeshUnits(queue: InMemoryWorkUnitQueue, run: nat, stages: seq<string>,
                                  store: EventStore, workspace: Workspace?)
    returns (r: Result<(nat, nat), string>)
    requires Valid(queue.View())
    modifies store, workspace
    ensures var a := Absorb(old(HostOf(store, workspace)), ListUnits(old(queue.View()), run), stages);
            && HostOf(store, workspace) == a.host
            && r == match a.conflict case Some(rel) => Err(rel) case None => Ok((a.events, a.files))
  {
    ghost var host := HostOf(store, workspace);
    if stages == [] {
      return Ok((0, 0));
    }
    var units := ListUnits(queue.View(), run);
    var eventsReplayed: nat, filesMerged: nat := 0, 0;
    for i := 0 to |stages|
      invariant Absorb(host, units, stages[..i]) == Absorbed(HostOf(store, workspace), eventsReplayed, filesMerged, None)
    {
      assert stages[..i + 1][..i] == stages[..i];
      var events, files := AbsorbStage(LatestUnit(units, stages[i]), store, workspace, Absorb(host, units, stages[..i]));
      if files.Err? {
        RaisedStays(host, units, stages, i + 1);
        return Err(files.error);
      }
      eventsReplayed := eventsReplayed + events;
      filesMerged := filesMerged + files.value;
    }
    assert stages[..|stages|] == stages;
    r := Ok((eventsReplayed, filesMerged));
  }

  // ---- All stages at once -------------------------------------------------

  function AllEvents(units: seq<Record>, stages: seq<string>): seq<RawEvent> {
    if stages == [] then []
    else AllEvents(units, stages[..|stages| - 1]) + EventsOf(LatestUnit(units, stages[|stages| - 1]))
  }

  function AllFiles(units: seq<Record>, stages: seq<string>): seq<Item> {
    if stages == [] then []
    else AllFiles(units, stages[..|stages| - 1]) + FilesOf(LatestUnit(units, stages[|stages| - 1]))
  }

  /** How many stages have their events replayed: all of them, or those up to the one that raises. */
  function Reached(host: Host, units: seq<Record>, stages: seq<string>): (n: nat)
    ensures n <= |stages|
  {
    if stages == [] then 0
    else if Absorb(host, units, stages[..|stages| - 1]).conflict.Some? then Reached(host, units, stages[..|stages| - 1])
    else |stages|
  }

  lemma {:induction false} NewEventsConcat(existing: set<string>, a: seq<RawEvent>, b: seq<RawEvent>)
    ensures NewEvents(existing, a + b) ==
            NewEvents(existing, a) + NewEvents(existing + Ids(NewEvents(existing, a)), b)
  {
    if b == [] {
      assert a + b == a;
    } else {
      var init, last := b[..|b| - 1], b[|b| - 1];
      assert (a + b)[..|a + b| - 1] == a + init;
      NewEventsConcat(existing, a, init);
      var first := NewEvents(existing, a);
      IdsConcat(first, NewEvents(existing + Ids(first), init));
    }
  }

  lemma ReplayedConcat(log: seq<Event>, a: seq<RawEvent>, b: seq<RawEvent>)
    ensures Replayed(log, a + b) == Replayed(Replayed(log, a), b)
    ensures |NewEvents(Ids(log), a + b)| == |NewEvents(Ids(log), a)| + |NewEvents(Ids(Replayed(log, a)), b)|
  {
    NewEventsConcat(Ids(log), a, b);
    IdsConcat(log, NewEvents(Ids(log), a));
  }

  /** Applying after applying: the paths written are those of both. */
  lemma {:induction false} AppliedConcat(tree: Tree, a: seq<Item>, b: seq<Item>)
    requires Applied(tree, a).conflict.None?
    ensures var first, second, both := Applied(tree, a), Applied(Applied(tree, a).tree, b), Applied(tree, a + b);
            both == Applying(second.tree, first.applied + second.applied, second.conflict)
  {
    if b == [] {
      assert a + b == a;
    } else {
      var init, last := b[..|b| - 1], b[|b| - 1];
      assert (a + b)[..|a + b| - 1] == a + init;
      AppliedConcat(tree, a, init);
      var second := Applied(Applied(tree, a).tree, init);
      assert Applied(tree, a).applied + (second.applied + [last.0]) == (Applied(tree, a).applied + second.applied) + [last.0];
    }
  }

  /** What has been replayed so far is one replay of `events`. */
  ghost predicate OneReplay(log: seq<Event>, a: Absorbed, events: seq<RawEvent>) {
    a.host.log == Replayed(log, events) && a.events == |NewEvents(Ids(log), events)|
  }

  lemma ReplayMore(log: seq<Event>, a: Absorbed, events: seq<RawEvent>, more: seq<RawEvent>, files: seq<Item>)
    requires OneReplay(log, a, events)
    ensures OneReplay(log, AbsorbBatch(a, more, files), events + more)
  {
    ReplayedConcat(log, events, more);
  }

  /** The events side of absorbing: one replay of the events of all stages that were reached. */
  lemma {:induction false} AbsorbIsOneReplay(host: Host, units: seq<Record>, stages: seq<string>)
    ensures OneReplay(host.log, Absorb(host, units, stages), AllEvents(units, stages[..Reached(host, units, stages)]))
  {
    if stages != [] {
      var init, rec := stages[..|stages| - 1], LatestUnit(units, stages[|stages| - 1]);
      AbsorbIsOneReplay(host, units, init);
      ReachedEvents(host, units, stages);
      var a := Absorb(host, units, init);
      if a.conflict.None? {
        ReplayMore(host.log, a, AllEvents(units, init), EventsOf(rec), FilesOf(rec));
      }
    }
  }

  lemma ReachedEvents(host: Host, units: seq<Record>, stages: seq<string>)
    requires stages != []
    ensures var init, rec := stages[..|stages| - 1], LatestUnit(units, stages[|stages| - 1]);
            var n, m := Reached(host, units, stages), Reached(host, units, init);
            if Absorb(host, units, init).conflict.None?
            then init[..m] == init && AllEvents(units, stages[..n]) == AllEvents(units, init) + EventsOf(rec)
            else stages[..n] == init[..m]
  {
    var init := stages[..|stages| - 1];
    if Absorb(host, units, init).conflict.None? {
      ReachedAll(host, units, init);
      assert stages[..|stages|] == stages && init[..|init|] == init;
    }
  }

  lemma ReachedAll(host: Host, units: seq<Record>, stages: seq<string>)
    requires Absorb(host, units, stages).conflict.None?
    ensures Reached(host, units, stages) == |stages|
  {
  }

  /** The files side: one application of the files of all stages. */
  lemma {:induction false} AbsorbIsOneApplication(host: Host, units: seq<Record>, stages: seq<string>)
    requires host.tree.Some?
    ensures var a, out := Absorb(host, units, stages), Applied(host.tree.value, AllFiles(units, stages));
            a.host.tree == Some(out.tree) && a.files == |out.applied| && a.conflict == out.conflict
  {
    if stages != [] {
      var init, last := stages[..|stages| - 1], stages[|stages| - 1];
      var before, own := AllFiles(units, init), FilesOf(LatestUnit(units, last));
      AbsorbIsOneApplication(host, units, init);
      if Absorb(host, units, init).conflict.None? {
        AppliedConcat(host.tree.value, before, own);
      } else {
        ConflictSticks(host.tree.value, before, own);
      }
    }
  }

  lemma {:induction false} NoWorkspaceNeverRaises(host: Host, units: seq<Record>, stages: seq<string>)
    requires host.tree.None?
    ensures Absorb(host, units, stages).conflict.None? && Absorb(host, units, stages).host.tree.None?
    ensures Absorb(host, units, stages).files == 0
  {
    if stages != [] {
      NoWorkspaceNeverRaises(host, units, stages[..|stages| - 1]);
    }
  }

  /** Absorbing stage by stage is one replay of the events of the stages reached and one application of
      the files of all stages; it raises exactly when that application does, and then the events of the
      stage that raises have been replayed already. */
  lemma AbsorbIsOneBatch(host: Host, units: seq<Record>, stages: seq<string>)
    ensures var a, n := Absorb(host, units, stages), Reached(host, units, stages);
            && a.host.log == Replayed(host.log, AllEvents(units, stages[..n]))
            && a.host.tree == (if host.tree.None? then None else Some(Applied(host.tree.value, AllFiles(units, stages)).tree))
            && a.conflict == (if host.tree.None? then None else Applied(host.tree.value, AllFiles(units, stages)).conflict)
            && (a.conflict.None? ==> n == |stages|)
            && (n < |stages| ==> Absorb(host, units, stages[..n]).conflict.Some?)
  {
    AbsorbIsOneReplay(host, units, stages);
    if host.tree.Some? {
      AbsorbIsOneApplication(host, units, stages);
    } else {
      NoWorkspaceNeverRaises(host, units, stages);
    }
    ReachedRaises(host, units, stages);
    if Absorb(host, units, stages).conflict.None? { ReachedAll(host, units, stages); }
  }

  lemma {:induction false} ReachedRaises(host: Host, units: seq<Record>, stages: seq<string>)
    ensures var n := Reached(host, units, stages);
            n < |stages| ==> Absorb(host, units, stages[..n]).conflict.Some?
  {
    if stages != [] && Absorb(host, units, stages[..|stages| - 1]).conflict.Some? {
      var init := stages[..|stages| - 1];
      ReachedRaises(host, units, init);
      assert stages[..Reached(host, units, init)] == init[..Reached(host, units, init)];
      assert init[..|init|] == init;
    }
  }

  /** The report is the growth of the host's log over all stages: the log keeps what it had, gains no
      repeated id, and ends with the ids it had and those of the stages reached. */
  lemma AbsorbReportsGrowth(host: Host, units: seq<Record>, stages: seq<string>)
    ensures var a := Absorb(host, units, stages);
            && host.log <= a.host.log && a.events == |a.host.log| - |host.log|
            && Ids(a.host.log) == Ids(host.log) + BatchIds(AllEvents(units, stages[..Reached(host, units, stages)]))
            && (DistinctIds(host.log) ==> DistinctIds(a.host.log))
  {
    AbsorbIsOneReplay(host, units, stages);
    ReplayedIds(host.log, AllEvents(units, stages[..Reached(host, units, stages)]));
  }

  /** An event id comes in exactly through the latest unit of one of the stages. */
  lemma {:induction false} DeliveredBy(units: seq<Record>, stages: seq<string>, id: string)
    ensures id in BatchIds(AllEvents(units, stages)) <==>
            exists stage :: stage in stages && id in BatchIds(EventsOf(LatestUnit(units, stage)))
  {
    if stages != [] {
      var init, last := stages[..|stages| - 1], stages[|stages| - 1];
      var a, b := AllEvents(units, init), EventsOf(LatestUnit(units, last));
      DeliveredBy(units, init, id);
      assert stages == init + [last];
      assert BatchIds(a + b) == BatchIds(a) + BatchIds(b);
    }
  }

  lemma {:induction false} MoreStagesMoreEvents(units: seq<Record>, stages: seq<string>, m: nat)
    requires m <= |stages|
    ensures BatchIds(AllEvents(units, stages[..m])) <= BatchIds(AllEvents(units, stages))
  {
    if m < |stages| {
      var init := stages[..|stages| - 1];
      assert init[..m] == stages[..m];
      MoreStagesMoreEvents(units, init, m);
      var a, b := AllEvents(units, init), EventsOf(LatestUnit(units, stages[|stages| - 1]));
      assert BatchIds(a + b) == BatchIds(a) + BatchIds(b);
    } else {
      assert stages[..m] == stages;
    }
  }

  /** A second pass gets no further than the first. */
  lemma SecondPassReaches(host: Host, units: seq<Record>, stages: seq<string>)
    requires host.tree.Some? ==> WellFormed(host.tree.value)
    ensures Reached(Absorb(host, units, stages).host, units, stages) <= Reached(host, units, stages)
  {
    var again, n := Absorb(host, units, stages).host, Reached(host, units, stages);
    AbsorbIsOneBatch(host, units, stages);
    if n < |stages| {
      var some := stages[..n];
      if host.tree.None? { NoWorkspaceNeverRaises(host, units, some); }
      AbsorbIsOneApplication(host, units, some);
      RaisedStays(host, units, stages, n);
      AppliedTwice(host.tree.value, AllFiles(units, some));
      AbsorbIsOneApplication(again, units, some);
      ReachedAtMost(again, units, stages, n);
    }
  }

  lemma {:induction false} ReachedAtMost(host: Host, units: seq<Record>, stages: seq<string>, n: nat)
    requires n <= |stages| && Absorb(host, units, stages[..n]).conflict.Some?
    ensures Reached(host, units, stages) <= n
  {
    if n < |stages| {
      var init := stages[..|stages| - 1];
      assert init[..n] == stages[..n];
      RaisedStays(host, units, init, n);
      ReachedAtMost(host, units, init, n);
    }
  }

  /** Absorbing again while the queue is unchanged replays nothing, leaves log and tree alone, and raises
      exactly if the first pass did. */
  lemma AbsorbTwice(host: Host, units: seq<Record>, stages: seq<string>)
    requires host.tree.Some? ==> WellFormed(host.tree.value)
    ensures var a := Absorb(host, units, stages);
            var again := Absorb(a.host, units, stages);
            again.host == a.host && again.events == 0 && again.conflict == a.conflict
  {
    var a := Absorb(host, units, stages);
    var n, m := Reached(host, units, stages), Reached(a.host, units, stages);
    SecondPassReaches(host, units, stages);
    AbsorbIsOneBatch(host, units, stages);
    AbsorbIsOneBatch(a.host, units, stages);
    AbsorbReportsGrowth(host, units, stages);
    AbsorbReportsGrowth(a.host, units, stages);
    MoreStagesMoreEvents(units, stages[..n], m);
    assert stages[..n][..m] == stages[..m];
    NothingNew(Ids(a.host.log), AllEvents(units, stages[..m]));
    if host.tree.Some? {
      AppliedTwice(host.tree.value, AllFiles(units, stages));
    }
  }

  // ---- After a restart ----------------------------------------------------

  /** No unit of the run and stage carries a creation time after `t`. */
  ghost predicate NoneLater(st: State, run: nat, stage: string, t: Time) {
    forall k :: k in st.units && Concerns(st.units[k], run, stage) ==> st.units[k].createdAt <= t
  }

  /** The step may store another unit of the run and stage. */
  predicate Rival(st: State, op: Op, run: nat, stage: string) {
    match op
    case Enqueue(_, ticket, _, _) => ticket.runId == run && ticket.stageName == stage
    case Restart(id, _, _, _) => id in st.units && Concerns(st.units[id], run, stage)
    case _ => false
  }

  ghost predicate NoRivals(st: State, ops: seq<Op>, run: nat, stage: string)
    requires Valid(st)
    decreases |ops|
  {
    ops == [] || (!Rival(st, ops[0], run, stage) && NoRivals(Step(st, ops[0]).0, ops[1..], run, stage))
  }

  /** The steps keep the dict's order and add at the end. */
  lemma StepExtends(st: State, op: Op)
    requires Valid(st) && Fresh(st, op)
    ensures st.order <= Step(st, op).0.order
  {
    if op.Dequeue? {
      DequeueFinds(st, op.session, op.node, op.now);
    }
  }

  lemma {:induction false} RankExtends(order: seq<Id>, more: seq<Id>, k: Id)
    requires k in order && order <= more
    ensures k in more && Rank(more, k) == Rank(order, k)
  {
    if order[0] != k {
      assert more[0] == order[0];
      RankExtends(order[1..], more[1..], k);
    }
  }

  lemma StepAddsNoRival(st: State, op: Op, run: nat, stage: string, k: Id)
    requires Valid(st) && Fresh(st, op) && !Rival(st, op, run, stage)
    requires k in Step(st, op).0.units && Concerns(Step(st, op).0.units[k], run, stage)
    ensures k in st.units
  {
    if op.Dequeue? {
      DequeueFinds(st, op.session, op.node, op.now);
    }
  }

  lemma StepKeepsNewest(st: State, op: Op, run: nat, stage: string, w: Id)
    requires Valid(st) && Fresh(st, op) && !Rival(st, op, run, stage) && Newest(st, run, stage, w)
    ensures Newest(Step(st, op).0, run, stage, w)
  {
    var next := Step(st, op).0;
    StepPreserves(st, op);
    StepExtends(st, op);
    RankExtends(st.order, next.order, w);
    forall k | k in next.units && Concerns(next.units[k], run, stage)
      ensures Older(next, next.units[k], next.units[w])
    {
      StepAddsNoRival(st, op, run, stage, k);
      RankExtends(st.order, next.order, k);
      assert Older(st, st.units[k], st.units[w]);
    }
  }

  lemma {:induction false} RunKeepsNewest(st: State, ops: seq<Op>, run: nat, stage: string, w: Id)
    requires Valid(st) && FreshRun(st, ops) && NoRivals(st, ops, run, stage) && Newest(st, run, stage, w)
    ensures Newest(Run(st, ops).0, run, stage, w)
    decreases |ops|
  {
    if ops != [] {
      StepKeepsNewest(st, ops[0], run, stage, w);
      RunKeepsNewest(Step(st, ops[0]).0, ops[1..], run, stage, w);
    }
  }

  /** A unit stored last is the newest of its run and stage exactly when no other was created later. */
  lemma AppendedIsNewestIff(st: State, next: State, w: Id, run: nat, stage: string)
    requires Valid(st) && Valid(next) && w !in st.units && next.order == st.order + [w]
    requires Concerns(next.units[w], run, stage)
    requires forall k :: k in st.units ==> next.units[k].ticket == st.units[k].ticket && next.units[k].createdAt == st.units[k].createdAt
    ensures Newest(next, run, stage, w) <==> NoneLater(st, run, stage, next.units[w].createdAt)
  {
    RankIs(next.order, |st.order|);
    forall k | k in st.units && Concerns(st.units[k], run, stage)
      ensures Older(next, next.units[k], next.units[w]) <==> st.units[k].createdAt <= next.units[w].createdAt
    {
      assert k in next.order;
    }
    if Newest(next, run, stage, w) {
      forall k | k in st.units && Concerns(st.units[k], run, stage)
        ensures st.units[k].createdAt <= next.units[w].createdAt
      {
        assert k in next.order && Older(next, next.units[k], next.units[w]);
      }
    }
  }

  /** The replacement becomes the newest unit exactly when the clock did not run backwards past an
      earlier unit of the run and stage. */
  lemma ReplacementIsNewestIff(ops: seq<Op>, id: Id, newId: Id, t1: Time, t2: Time)
    requires var st := Run(EMPTY, ops).0;
             id in st.units && !Terminal(st.units[id].status) && newId !in st.units
    ensures var st := Run(EMPTY, ops).0;
            var next, ticket := Step(st, Restart(id, newId, t1, t2)).0, st.units[id].ticket;
            Newest(next, ticket.runId, ticket.stageName, newId) <==> NoneLater(st, ticket.runId, ticket.stageName, t2)
  {
    var st := Run(EMPTY, ops).0;
    var next, ticket := Step(st, Restart(id, newId, t1, t2)).0, st.units[id].ticket;
    var run, stage := ticket.runId, ticket.stageName;
    RestartReplaces(ops, id, newId, t1, t2);
    assert next.units[newId].createdAt == t2;
    AppendedIsNewestIff(st, next, newId, run, stage);
  }

  /** After a restart only the replacement is consulted, never the cancelled unit, however the queue is
      used afterwards short of storing another unit for the run and stage. */
  lemma OnlyReplacementConsulted(ops: seq<Op>, id: Id, newId: Id, t1: Time, t2: Time, more: seq<Op>)
    requires var st := Run(EMPTY, ops).0;
             && id in st.units && !Terminal(st.units[id].status) && newId !in st.units
             && NoneLater(st, st.units[id].ticket.runId, st.units[id].ticket.stageName, t2)
             && var next := Step(st, Restart(id, newId, t1, t2)).0;
             && FreshRun(next, more) && NoRivals(next, more, st.units[id].ticket.runId, st.units[id].ticket.stageName)
    ensures var st := Run(EMPTY, ops).0;
            var end, ticket := Run(Step(st, Restart(id, newId, t1, t2)).0, more).0, st.units[id].ticket;
            newId in end.units && LatestUnit(ListUnits(end, ticket.runId), ticket.stageName) == Some(end.units[newId])
  {
    var st := Run(EMPTY, ops).0;
    var next, ticket := Step(st, Restart(id, newId, t1, t2)).0, st.units[id].ticket;
    ReplacementIsNewestIff(ops, id, newId, t1, t2);
    RunKeepsNewest(next, more, ticket.runId, ticket.stageName, newId);
    LatestIsNewest(Run(next, more).0, ticket.runId, ticket.stageName);
  }
}
