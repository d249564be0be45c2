// Validation, the frozen snapshot and parallel-group readiness of
// packages/agent_core/stage_graph.py.
module StageSnapshot {
  import opened Wrappers
  import opened Digraph
  import opened StageGraph
  import opened StageOrder
  import opened Text

  const KNOWN_STAGE_GRAPH_STAGES: set<string> := {
    "plan", "implementation", "test_writer", "frontend_writer", "implementation.critique",
    "test_writer.critique", "planner.critique", "frontend_writer.critique", "module_integrator.critique",
    "bundle_compatibility", "scraper:fetch", "self_refinement:policy", "agent_evaluator.critique",
    "slice.plan", "slice.implement", "slice.verify", "slice.critique", "slice.test", "slice.contract",
    "slice.e2e", "slice.gate", "launch_test.plan", "launch_test.write", "launch_test.critique",
    "dev_env.human_fidelity", "refactor.loc_accord"
  }

  /** Non-empty and without surrounding white space, so that `strip` leaves it alone. */
  predicate Clean(name: string) {
    name != "" && Trimmed(name)
  }

  predicate ValidNames(g: Graph, known: set<string>) {
    Names(g) <= known && forall k :: k in known ==> Clean(k)
  }

  ghost predicate ValidGraph(g: Graph, known: set<string>) {
    DistinctNames(g) && Names(g) <= known && Closed(g) && Acyclic(EdgesOf(g))
  }

  method CheckDistinct(g: Graph) returns (duplicate: Option<string>, names: set<string>)
    ensures duplicate.None? <==> DistinctNames(g)
    ensures duplicate.None? ==> names == Names(g)
    ensures duplicate.Some? ==> exists i, j :: 0 <= i < j < |g.nodes| && g.nodes[i].stageName == g.nodes[j].stageName == duplicate.value
  {
    names := {};
    for i := 0 to |g.nodes|
      invariant names == set k | 0 <= k < i :: g.nodes[k].stageName
      invariant forall j, k :: 0 <= j < k < i ==> g.nodes[j].stageName != g.nodes[k].stageName
    {
      var name := g.nodes[i].stageName;
      if name in names {
        ghost var k :| 0 <= k < i && g.nodes[k].stageName == name;
        assert NameSeq(g)[k] == NameSeq(g)[i];
        return Some(name), names;
      }
      names := names + {name};
    }
    duplicate := None;
  }

  /** The checks on one node after the duplicate pass, in the order the source makes them. */
  method CheckNode(node: StageNode, names: set<string>, known: set<string>) returns (error: Option<GraphError>)
    ensures error.None? <==> node.stageName in known && forall d :: d in node.dependsOn ==> d in names && d in known
    ensures error.Some? ==> Blamed(node, names, known, error.value)
  {
    if node.stageName !in known {
      return Some(UnknownStage(node.stageName));
    }
    for j := 0 to |node.dependsOn|
      invariant forall k :: 0 <= k < j ==> node.dependsOn[k] in names && node.dependsOn[k] in known
    {
      var dep := node.dependsOn[j];
      if dep !in names {
        return Some(UndefinedDependency(dep, node.stageName));
      }
      if dep !in known {
        return Some(UnknownStage(dep));
      }
    }
    error := None;
  }

  /** What an error from `CheckNode` says about the node. */
  predicate Blamed(node: StageNode, names: set<string>, known: set<string>, error: GraphError) {
    match error
    case UnknownStage(name) => name !in known && (name == node.stageName || name in node.dependsOn)
    case UndefinedDependency(dep, name) => dep !in names && dep in node.dependsOn && name == node.stageName
    case _ => false
  }

  /** Why a graph was refused. */
  ghost predicate Refused(g: Graph, known: set<string>, error: GraphError) {
    match error
    case DuplicateStage(name) =>
      exists i, j :: 0 <= i < j < |g.nodes| && g.nodes[i].stageName == g.nodes[j].stageName == name
    case CycleDetected => DistinctNames(g) && Closed(g) && !Acyclic(EdgesOf(g))
    case UnknownDependency(_) => false
    case _ => exists n :: n in g.nodes && Blamed(n, Names(g), known, error)
  }

  /** Validation accepts exactly the acyclic graphs over distinct, known and defined stages. */
  method ValidateStageGraph(g: Graph, known: set<string>) returns (error: Option<GraphError>)
    ensures error.None? <==> ValidGraph(g, known)
    ensures error.Some? ==> Refused(g, known, error.value)
  {
    var duplicate, names := CheckDistinct(g);
    if duplicate.Some? {
      return Some(DuplicateStage(duplicate.value));
    }
    for i := 0 to |g.nodes|
      invariant forall k :: 0 <= k < i ==> NodeFine(g.nodes[k], names, known)
    {
      error := CheckNode(g.nodes[i], names, known);
      if error.Some? {
        assert g.nodes[i] in g.nodes;
        assert !NodeFine(g.nodes[i], names, known);
        NodesFine(g, known);
        return;
      }
    }
    NodesFine(g, known);
    var order := TopologicalOrder(g);
    error := if order.Ok? then None else Some(order.error);
  }

  predicate NodeFine(node: StageNode, names: set<string>, known: set<string>) {
    node.stageName in known && forall d :: d in node.dependsOn ==> d in names && d in known
  }

  lemma NodesFine(g: Graph, known: set<string>)
    ensures (forall n :: n in g.nodes ==> NodeFine(n, Names(g), known)) <==> Names(g) <= known && Closed(g)
  {
    if Names(g) <= known && Closed(g) {
      forall n | n in g.nodes
        ensures NodeFine(n, Names(g), known)
      {
        assert n.stageName in Names(g);
      }
    }
    if forall n :: n in g.nodes ==> NodeFine(n, Names(g), known) {
      forall n, d | n in g.nodes && d in n.dependsOn
        ensures d in Names(g)
      {
        assert NodeFine(n, Names(g), known);
      }
    }
  }

  // ---- The snapshot -------------------------------------------------------

  datatype NodeEntry = NodeEntry(stageName: string, dependsOn: seq<string>, orderIndex: nat, parallelGroup: Option<string>)

  datatype Snapshot = Snapshot(nodes: seq<NodeEntry>, orderedStageNames: seq<string>, parallelGroups: map<string, seq<string>>)

  /** A parallel group that Python takes for true. */
  predicate HasGroup(n: StageNode) {
    n.parallelGroup.Some? && n.parallelGroup.value != ""
  }

  /** The stages of a group among the first `i` nodes, in definition order. */
  ghost function GroupMembers(nodes: seq<StageNode>, i: nat, group: string): seq<string>
    requires i <= |nodes|
  {
    if i == 0 then []
    else
      GroupMembers(nodes, i - 1, group) +
      if HasGroup(nodes[i - 1]) && nodes[i - 1].parallelGroup.value == group then [nodes[i - 1].stageName] else []
  }

  ghost predicate EntryOf(n: StageNode, e: NodeEntry, order: seq<string>) {
    && e.stageName == n.stageName && e.dependsOn == n.dependsOn
    && e.orderIndex < |order| && order[e.orderIndex] == n.stageName
    && e.parallelGroup == if HasGroup(n) then n.parallelGroup else None
  }

  ghost predicate GroupsOf(nodes: seq<StageNode>, i: nat, groups: map<string, seq<string>>)
    requires i <= |nodes|
  {
    forall k :: (k in groups <==> GroupMembers(nodes, i, k) != []) && (k in groups ==> groups[k] == GroupMembers(nodes, i, k))
  }

  /** The snapshot freezes the schedule, the position of every stage in it, and the groups. */
  ghost predicate IsSnapshotOf(g: Graph, s: Snapshot) {
    && IsSchedule(g, s.orderedStageNames)
    && |s.nodes| == |g.nodes|
    && (forall i :: 0 <= i < |g.nodes| ==> EntryOf(g.nodes[i], s.nodes[i], s.orderedStageNames))
    && GroupsOf(g.nodes, |g.nodes|, s.parallelGroups)
  }

  /** Positions by name: the `enumerate` comprehension. */
  method OrderIndex(order: seq<string>) returns (index: map<string, nat>)
    requires NoDuplicates(order)
    ensures index.Keys == Elements(order)
    ensures forall x :: x in index ==> index[x] < |order| && order[index[x]] == x
  {
    index := map[];
    for i := 0 to |order|
      invariant index.Keys == Elements(order[..i])
      invariant forall x :: x in index ==> index[x] < i && order[index[x]] == x
    {
      assert order[..i + 1] == order[..i] + [order[i]];
      index := index[order[i] := i];
    }
    assert order[..|order|] == order;
  }

  /** `setdefault(...).append(...)` for one node. */
  method EnterGroup(nodes: seq<StageNode>, i: nat, groups0: map<string, seq<string>>) returns (groups: map<string, seq<string>>)
    requires i < |nodes| && GroupsOf(nodes, i, groups0)
    ensures GroupsOf(nodes, i + 1, groups)
  {
    groups := groups0;
    if HasGroup(nodes[i]) {
      var group := nodes[i].parallelGroup.value;
      groups := groups[group := (if group in groups then groups[group] else []) + [nodes[i].stageName]];
    }
  }

  /** The entries of the first nodes. */
  ghost predicate EntriesMade(nodes: seq<StageNode>, entries: seq<NodeEntry>, order: seq<string>) {
    |entries| <= |nodes| && forall k :: 0 <= k < |entries| ==> EntryOf(nodes[k], entries[k], order)
  }

  method AddEntry(nodes: seq<StageNode>, entries0: seq<NodeEntry>, ghost order: seq<string>, index: map<string, nat>)
    returns (entries: seq<NodeEntry>)
    requires EntriesMade(nodes, entries0, order) && |entries0| < |nodes|
    requires var name := nodes[|entries0|].stageName; name in index && index[name] < |order| && order[index[name]] == name
    ensures EntriesMade(nodes, entries, order) && |entries| == |entries0| + 1
  {
    var n := nodes[|entries0|];
    entries := entries0 + [NodeEntry(n.stageName, n.dependsOn, index[n.stageName], if HasGroup(n) then n.parallelGroup else None)];
  }

  lemma ScheduleHolds(g: Graph, order: seq<string>)
    requires IsSchedule(g, order)
    ensures NoDuplicates(order)
    ensures forall i :: 0 <= i < |g.nodes| ==> g.nodes[i].stageName in Elements(order)
  {
    SameElements(order, NameSeq(g));
    assert forall i :: 0 <= i < |g.nodes| ==> NameSeq(g)[i] == g.nodes[i].stageName;
  }

  method SnapshotParts(nodes: seq<StageNode>, order: seq<string>) returns (entries: seq<NodeEntry>, groups: map<string, seq<string>>)
    requires NoDuplicates(order)
    requires forall i :: 0 <= i < |nodes| ==> nodes[i].stageName in Elements(order)
    ensures EntriesMade(nodes, entries, order) && |entries| == |nodes|
    ensures GroupsOf(nodes, |nodes|, groups)
  {
    var index := OrderIndex(order);
    groups := map[];
    entries := [];
    for i := 0 to |nodes|
      invariant EntriesMade(nodes, entries, order) && |entries| == i
      invariant GroupsOf(nodes, i, groups)
    {
      groups := EnterGroup(nodes, i, groups);
      entries := AddEntry(nodes, entries, order, index);
    }
  }

  method StageGraphMetadataSnapshot(g: Graph) returns (r: Result<Snapshot, GraphError>)
    ensures Closed(g) ==> (r.Ok? <==> DistinctNames(g) && Acyclic(EdgesOf(g)))
    ensures !Closed(g) ==> r.Err? && r.error.UnknownDependency?
    ensures r.Ok? ==> IsSnapshotOf(g, r.value)
  {
    var order := TopologicalOrder(g);
    if order.Err? {
      return Err(order.error);
    }
    ScheduleHolds(g, order.value);
    var entries, groups := SnapshotParts(g.nodes, order.value);
    r := Ok(Snapshot(entries, order.value, groups));
  }

  // ---- Reading a snapshot -------------------------------------------------

  /** The last of the first `i` entries whose stripped name is `key`. */
  ghost function FindEntry(nodes: seq<NodeEntry>, i: nat, key: string): Option<NodeEntry>
    requires i <= |nodes|
  {
    if i == 0 || key == "" then None
    else if Strip(nodes[i - 1].stageName) == key then Some(nodes[i - 1])
    else FindEntry(nodes, i - 1, key)
  }

  method StageGraphNodeLookup(s: Snapshot) returns (lookup: map<string, NodeEntry>)
    ensures forall k :: FindEntry(s.nodes, |s.nodes|, k) == if k in lookup then Some(lookup[k]) else None
  {
    lookup := map[];
    for i := 0 to |s.nodes|
      invariant forall k :: FindEntry(s.nodes, i, k) == if k in lookup then Some(lookup[k]) else None
    {
      var name := Strip(s.nodes[i].stageName);
      if name != "" {
        lookup := lookup[name := s.nodes[i]];
      }
    }
  }

  datatype EventMetadata = EventMetadata(parallelGroup: Option<string>, orderIndex: Option<nat>)

  method EventMetadataForStage(snapshot: Option<Snapshot>, stageName: string) returns (meta: EventMetadata)
    ensures snapshot.None? ==> meta == EventMetadata(None, None)
    ensures snapshot.Some? ==>
              var found := FindEntry(snapshot.value.nodes, |snapshot.value.nodes|, stageName);
              meta.orderIndex == if found.Some? then Some(found.value.orderIndex) else None
    ensures snapshot.Some? ==>
              var found := FindEntry(snapshot.value.nodes, |snapshot.value.nodes|, stageName);
              var grouped := found.Some? && found.value.parallelGroup.Some? && Strip(found.value.parallelGroup.value) != "";
              meta.parallelGroup == if grouped then Some(Strip(found.value.parallelGroup.value)) else None
  {
    if snapshot.None? {
      return EventMetadata(None, None);
    }
    var lookup := StageGraphNodeLookup(snapshot.value);
    if stageName !in lookup {
      assert FindEntry(snapshot.value.nodes, |snapshot.value.nodes|, stageName) == None;
      return EventMetadata(None, None);
    }
    var node := lookup[stageName];
    assert FindEntry(snapshot.value.nodes, |snapshot.value.nodes|, stageName) == Some(node);
    var group := None;
    if node.parallelGroup.Some? && Strip(node.parallelGroup.value) != "" {
      group := Some(Strip(node.parallelGroup.value));
    }
    meta := EventMetadata(group, Some(node.orderIndex));
  }

  lemma StripClean(name: string)
    requires Clean(name)
    ensures Strip(name) == name
  {
    StripIs("", name, "");
    assert "" + name + "" == name;
  }

  lemma {:induction false} FindInSnapshot(g: Graph, known: set<string>, s: Snapshot, i: nat, k: nat)
    requires ValidNames(g, known) && DistinctNames(g) && IsSnapshotOf(g, s) && k < i <= |g.nodes|
    ensures FindEntry(s.nodes, i, g.nodes[k].stageName) == Some(s.nodes[k])
  {
    var name := g.nodes[k].stageName;
    assert g.nodes[k] in g.nodes && name in Names(g);
    assert g.nodes[i - 1] in g.nodes && g.nodes[i - 1].stageName in Names(g);
    assert EntryOf(g.nodes[i - 1], s.nodes[i - 1], s.orderedStageNames);
    StripClean(g.nodes[i - 1].stageName);
    if k < i - 1 {
      assert NameSeq(g)[k] != NameSeq(g)[i - 1];
      FindInSnapshot(g, known, s, i - 1, k);
    }
  }

  lemma StageHasNode(g: Graph, name: string) returns (k: nat)
    requires name in Names(g)
    ensures k < |g.nodes| && g.nodes[k].stageName == name
  {
    k :| 0 <= k < |g.nodes| && g.nodes[k].stageName == name;
  }

  /** In a valid snapshot the recorded index of a stage is its position in the schedule. */
  lemma OrderIndexIsPosition(g: Graph, known: set<string>, s: Snapshot, name: string) returns (k: nat)
    requires ValidNames(g, known) && IsSnapshotOf(g, s) && DistinctNames(g) && name in Names(g)
    ensures k < |g.nodes| && g.nodes[k].stageName == name
    ensures FindEntry(s.nodes, |s.nodes|, name) == Some(s.nodes[k])
    ensures s.nodes[k].orderIndex < |s.orderedStageNames|
    ensures forall i :: 0 <= i < |s.orderedStageNames| ==> (s.orderedStageNames[i] == name <==> i == s.nodes[k].orderIndex)
  {
    k := StageHasNode(g, name);
    FindInSnapshot(g, known, s, |g.nodes|, k);
    assert EntryOf(g.nodes[k], s.nodes[k], s.orderedStageNames);
  }

  /** The index handed out for a stage is strictly larger than that of each of its dependencies. */
  lemma OrderIndexAscends(g: Graph, known: set<string>, s: Snapshot, dep: string, name: string)
    requires ValidNames(g, known) && IsSnapshotOf(g, s) && DistinctNames(g) && Closed(g)
    requires Edge(EdgesOf(g), dep, name)
    ensures var d, n := FindEntry(s.nodes, |s.nodes|, dep), FindEntry(s.nodes, |s.nodes|, name);
            d.Some? && n.Some? && d.value.orderIndex < n.value.orderIndex
  {
    var node :| node in g.nodes && dep in node.dependsOn && node.stageName == name;
    assert dep in Names(g) && name in Names(g);
    var kd := OrderIndexIsPosition(g, known, s, dep);
    var kn := OrderIndexIsPosition(g, known, s, name);
    var o := s.orderedStageNames;
    var j := s.nodes[kn].orderIndex;
    assert o[j] == name;
    assert dep in o[..j];
    var i :| 0 <= i < j && o[i] == dep;
    assert i == s.nodes[kd].orderIndex;
  }

  // ---- Parallel groups ----------------------------------------------------

  /** Strip every name and drop those that strip to nothing. */
  function CleanUp(raw: seq<string>): seq<string> {
    if raw == [] then []
    else (if Strip(raw[0]) != "" then [Strip(raw[0])] else []) + CleanUp(raw[1..])
  }

  function ParallelGroupMembers(s: Snapshot, group: string): seq<string> {
    if group in s.parallelGroups then CleanUp(s.parallelGroups[group]) else []
  }

  ghost predicate DependenciesMet(nodes: seq<NodeEntry>, stageName: string, completed: set<string>) {
    var node := FindEntry(nodes, |nodes|, stageName);
    node.Some? ==> forall d :: d in node.value.dependsOn ==> Strip(d) == "" || Strip(d) in completed
  }

  ghost predicate Ready(s: Snapshot, completed: set<string>, group: string) {
    var members := ParallelGroupMembers(s, group);
    members != [] && forall m :: m in members ==> DependenciesMet(s.nodes, m, completed)
  }

  method StagesReadyForParallelGroup(s: Snapshot, completed: set<string>, group: string) returns (ready: bool)
    ensures ready <==> Ready(s, completed, group)
  {
    var lookup := StageGraphNodeLookup(s);
    var members := ParallelGroupMembers(s, group);
    for i := 0 to |members|
      invariant forall k :: 0 <= k < i ==> DependenciesMet(s.nodes, members[k], completed)
    {
      if members[i] in lookup {
        var deps := lookup[members[i]].dependsOn;
        assert FindEntry(s.nodes, |s.nodes|, members[i]) == Some(lookup[members[i]]);
        for j := 0 to |deps|
          invariant forall k :: 0 <= k < j ==> Strip(deps[k]) == "" || Strip(deps[k]) in completed
        {
          var key := Strip(deps[j]);
          if key != "" && key !in completed {
            assert deps[j] in deps && !DependenciesMet(s.nodes, members[i], completed);
            return false;
          }
        }
      } else {
        assert FindEntry(s.nodes, |s.nodes|, members[i]) == None;
      }
    }
    ready := members != [];
  }

  ghost predicate DependencyClosed(e: Edges, completed: set<string>) {
    forall d, x :: x in completed && Edge(e, d, x) ==> d in completed
  }

  lemma {:induction false} CleanUpClean(raw: seq<string>)
    requires forall x :: x in raw ==> Clean(x)
    ensures CleanUp(raw) == raw
  {
    if raw != [] {
      StripClean(raw[0]);
      CleanUpClean(raw[1..]);
    }
  }

  lemma {:induction false} MembersAreStages(g: Graph, i: nat, group: string)
    requires i <= |g.nodes|
    ensures forall m :: m in GroupMembers(g.nodes, i, group) ==> m in Names(g)
  {
    if i > 0 {
      MembersAreStages(g, i - 1, group);
      assert g.nodes[i - 1] in g.nodes;
    }
  }

  /** In a valid snapshot the members of a group are the stages defined with it. */
  lemma MembersOf(g: Graph, known: set<string>, s: Snapshot, group: string)
    requires ValidNames(g, known) && IsSnapshotOf(g, s)
    ensures ParallelGroupMembers(s, group) == GroupMembers(g.nodes, |g.nodes|, group)
    ensures forall m :: m in ParallelGroupMembers(s, group) ==> m in Names(g)
  {
    MembersAreStages(g, |g.nodes|, group);
    var raw := GroupMembers(g.nodes, |g.nodes|, group);
    CleanUpClean(raw);
    assert group in s.parallelGroups <==> raw != [];
  }

  /** The nodes behind the members of a group, without saying how a group is collected: those defined with it,
      in definition order. */
  lemma {:induction false} MemberNodes(nodes: seq<StageNode>, i: nat, group: string) returns (at: seq<nat>)
    requires i <= |nodes| && group != ""
    ensures |at| == |GroupMembers(nodes, i, group)|
    ensures forall k :: 0 <= k < |at| ==> at[k] < i && nodes[at[k]].stageName == GroupMembers(nodes, i, group)[k]
    ensures forall k, l :: 0 <= k < l < |at| ==> at[k] < at[l]
    ensures forall j :: 0 <= j < i ==> (nodes[j].parallelGroup == Some(group) <==> j in at)
  {
    at := [];
    if i > 0 {
      at := MemberNodes(nodes, i - 1, group);
      if nodes[i - 1].parallelGroup == Some(group) {
        at := at + [i - 1];
      }
    }
  }

  lemma {:induction false} NoNamelessGroup(nodes: seq<StageNode>, i: nat)
    requires i <= |nodes|
    ensures GroupMembers(nodes, i, "") == []
  {
    if i > 0 {
      NoNamelessGroup(nodes, i - 1);
    }
  }

  /** The nodes that a graph defines with a parallel group. */
  ghost predicate DefinedIn(g: Graph, group: string, name: string) {
    exists n :: n in g.nodes && n.stageName == name && n.parallelGroup == Some(group)
  }

  /** In a valid snapshot the members of a named group are exactly the stages whose node names it, once each and
      in definition order; each of these nodes, and no other, carries the group in its entry.  No group is keyed
      by the empty text. */
  lemma MembersAreDefined(g: Graph, known: set<string>, s: Snapshot, group: string) returns (at: seq<nat>)
    requires ValidNames(g, known) && DistinctNames(g) && IsSnapshotOf(g, s) && group != ""
    ensures var members := ParallelGroupMembers(s, group);
            && |at| == |members| && (group in s.parallelGroups <==> at != [])
            && (forall k :: 0 <= k < |at| ==> at[k] < |g.nodes| && g.nodes[at[k]].stageName == members[k])
            && (forall k, l :: 0 <= k < l < |at| ==> at[k] < at[l] && members[k] != members[l])
            && (forall j :: 0 <= j < |g.nodes| ==> (g.nodes[j].parallelGroup == Some(group) <==> j in at))
            && (forall name :: name in members <==> DefinedIn(g, group, name))
    ensures forall j :: 0 <= j < |g.nodes| ==> (g.nodes[j].parallelGroup == Some(group) <==> s.nodes[j].parallelGroup == Some(group))
    ensures "" !in s.parallelGroups && ParallelGroupMembers(s, "") == []
  {
    MembersOf(g, known, s, group);
    at := MemberNodes(g.nodes, |g.nodes|, group);
    NoNamelessGroup(g.nodes, |g.nodes|);
    DefinedMembers(g, group, at);
    MembersDiffer(g, group, at);
    forall j | 0 <= j < |g.nodes|
      ensures g.nodes[j].parallelGroup == Some(group) <==> s.nodes[j].parallelGroup == Some(group)
    {
      assert EntryOf(g.nodes[j], s.nodes[j], s.orderedStageNames);
    }
  }

  lemma DefinedMembers(g: Graph, group: string, at: seq<nat>)
    requires |at| == |GroupMembers(g.nodes, |g.nodes|, group)|
    requires forall k :: 0 <= k < |at| ==> at[k] < |g.nodes| && g.nodes[at[k]].stageName == GroupMembers(g.nodes, |g.nodes|, group)[k]
    requires forall j :: 0 <= j < |g.nodes| ==> (g.nodes[j].parallelGroup == Some(group) <==> j in at)
    ensures forall name :: name in GroupMembers(g.nodes, |g.nodes|, group) <==> DefinedIn(g, group, name)
  {
    var members := GroupMembers(g.nodes, |g.nodes|, group);
    forall name
      ensures name in members <==> DefinedIn(g, group, name)
    {
      if name in members {
        var k :| 0 <= k < |members| && members[k] == name;
        assert at[k] in at && g.nodes[at[k]] in g.nodes;
      }
      if DefinedIn(g, group, name) {
        var n :| n in g.nodes && n.stageName == name && n.parallelGroup == Some(group);
        var j :| 0 <= j < |g.nodes| && g.nodes[j] == n;
        var k :| 0 <= k < |at| && at[k] == j;
        assert members[k] == name;
      }
    }
  }

  lemma MembersDiffer(g: Graph, group: string, at: seq<nat>)
    requires DistinctNames(g) && |at| == |GroupMembers(g.nodes, |g.nodes|, group)|
    requires forall k :: 0 <= k < |at| ==> at[k] < |g.nodes| && g.nodes[at[k]].stageName == GroupMembers(g.nodes, |g.nodes|, group)[k]
    requires forall k, l :: 0 <= k < l < |at| ==> at[k] < at[l]
    ensures var members := GroupMembers(g.nodes, |g.nodes|, group);
            forall k, l :: 0 <= k < l < |at| ==> members[k] != members[l]
  {
    forall k, l | 0 <= k < l < |at|
      ensures GroupMembers(g.nodes, |g.nodes|, group)[k] != GroupMembers(g.nodes, |g.nodes|, group)[l]
    {
      assert NameSeq(g)[at[k]] != NameSeq(g)[at[l]];
    }
  }

  lemma StageDependenciesMet(g: Graph, known: set<string>, s: Snapshot, m: string, completed: set<string>)
    requires ValidNames(g, known) && ValidGraph(g, known) && IsSnapshotOf(g, s) && m in Names(g)
    ensures DependenciesMet(s.nodes, m, completed) <==> forall d :: Edge(EdgesOf(g), d, m) ==> d in completed
  {
    var k := OrderIndexIsPosition(g, known, s, m);
    assert EntryOf(g.nodes[k], s.nodes[k], s.orderedStageNames);
    forall d
      ensures Edge(EdgesOf(g), d, m) <==> d in g.nodes[k].dependsOn
    {
      assert g.nodes[k] in g.nodes;
      if Edge(EdgesOf(g), d, m) {
        var n :| n in g.nodes && d in n.dependsOn && n.stageName == m;
        var j :| 0 <= j < |g.nodes| && g.nodes[j] == n;
        assert NameSeq(g)[j] == NameSeq(g)[k];
        assert j == k;
      }
    }
    forall d | d in g.nodes[k].dependsOn
      ensures Strip(d) == d && d != ""
    {
      assert d in Names(g);
      StripClean(d);
    }
  }

  lemma {:induction false} ClosedUnderPaths(e: Edges, completed: set<string>, p: seq<string>)
    requires DependencyClosed(e, completed) && IsPath(e, p) && p[|p| - 1] in completed
    ensures p[0] in completed
  {
    if |p| > 1 {
      assert Edge(e, p[|p| - 2], p[|p| - 1]);
      SubPath(e, p, 0, |p| - 1);
      ClosedUnderPaths(e, completed, p[0..|p| - 1]);
    }
  }

  /** For a dependency-closed set of completed stages, a group is ready exactly when it is not empty
      and every stage that one of its members depends on, directly or not, is completed. */
  lemma ReadyWhenAncestorsDone(g: Graph, known: set<string>, s: Snapshot, completed: set<string>, group: string)
    requires ValidNames(g, known) && ValidGraph(g, known) && IsSnapshotOf(g, s)
    requires DependencyClosed(EdgesOf(g), completed)
    ensures Ready(s, completed, group) <==>
            && ParallelGroupMembers(s, group) != []
            && forall a, m :: m in ParallelGroupMembers(s, group) && Reaches(EdgesOf(g), a, m) ==> a in completed
  {
    var e, members := EdgesOf(g), ParallelGroupMembers(s, group);
    MembersOf(g, known, s, group);
    forall m | m in members
      ensures DependenciesMet(s.nodes, m, completed) <==> forall a :: Reaches(e, a, m) ==> a in completed
    {
      StageDependenciesMet(g, known, s, m, completed);
      forall a | Reaches(e, a, m) && forall d :: Edge(e, d, m) ==> d in completed
        ensures a in completed
      {
        var p :| IsPathBetween(e, p, a, m);
        assert Edge(e, p[|p| - 2], p[|p| - 1]);
        SubPath(e, p, 0, |p| - 1);
        ClosedUnderPaths(e, completed, p[0..|p| - 1]);
      }
      forall d | Edge(e, d, m)
        ensures Reaches(e, d, m)
      {
        EdgeReaches(e, d, m);
      }
    }
  }

  /** Readiness is monotone in the completed stages. */
  lemma ReadyIsMonotone(s: Snapshot, completed: set<string>, more: set<string>, group: string)
    requires completed <= more && Ready(s, completed, group)
    ensures Ready(s, more, group)
  {
    forall m | m in ParallelGroupMembers(s, group)
      ensures DependenciesMet(s.nodes, m, more)
    {
      assert DependenciesMet(s.nodes, m, completed);
    }
  }

  /** A set of completed stages that lets the whole group start at once. */
  ghost predicate Releases(g: Graph, s: Snapshot, group: string, completed: set<string>) {
    && DependencyClosed(EdgesOf(g), completed)
    && (forall m :: m in ParallelGroupMembers(s, group) ==> m !in completed)
    && Ready(s, completed, group)
  }

  /** Some run can start a whole group together exactly when the group is not empty and no member
      depends, directly or not, on another. */
  lemma GroupCanStartTogether(g: Graph, known: set<string>, s: Snapshot, group: string)
    requires ValidNames(g, known) && ValidGraph(g, known) && IsSnapshotOf(g, s)
    ensures (exists completed :: Releases(g, s, group, completed)) <==>
            && ParallelGroupMembers(s, group) != []
            && forall a, b :: a in ParallelGroupMembers(s, group) && b in ParallelGroupMembers(s, group) ==> !Reaches(EdgesOf(g), a, b)
  {
    var e, members := EdgesOf(g), ParallelGroupMembers(s, group);
    if completed :| Releases(g, s, group, completed) {
      ReadyWhenAncestorsDone(g, known, s, completed, group);
    }
    if members != [] && forall a, b :: a in members && b in members ==> !Reaches(e, a, b) {
      var completed := set a | a in Names(g) && exists m :: m in members && Reaches(e, a, m);
      forall d, x | x in completed && Edge(e, d, x)
        ensures d in completed
      {
        var m :| m in members && Reaches(e, x, m);
        EdgeReaches(e, d, x);
        ReachesTransitive(e, d, x, m);
        var n :| n in g.nodes && d in n.dependsOn;
        assert d in Names(g);
      }
      forall a, m | m in members && Reaches(e, a, m)
        ensures a in completed
      {
        var p :| IsPathBetween(e, p, a, m);
        assert Edge(e, p[0], p[1]);
        var n :| n in g.nodes && a in n.dependsOn;
        assert a in Names(g);
      }
      ReadyWhenAncestorsDone(g, known, s, completed, group);
      assert Releases(g, s, group, completed);
    }
  }

  lemma KnownStagesAreClean(name: string)
    requires name in KNOWN_STAGE_GRAPH_STAGES
    ensures Clean(name)
  {
  }

  /** The same for the repository's own stages, told from the nodes: passing validation is all it takes, some
      node has to name the group, and none that does may reach another. */
  lemma KnownGroupCanStartTogether(g: Graph, s: Snapshot, group: string)
    requires ValidGraph(g, KNOWN_STAGE_GRAPH_STAGES) && IsSnapshotOf(g, s)
    ensures (exists completed :: Releases(g, s, group, completed)) <==>
            && group != "" && (exists name :: DefinedIn(g, group, name))
            && forall a, b :: DefinedIn(g, group, a) && DefinedIn(g, group, b) ==> !Reaches(EdgesOf(g), a, b)
  {
    forall k | k in KNOWN_STAGE_GRAPH_STAGES
      ensures Clean(k)
    {
      KnownStagesAreClean(k);
    }
    var members := ParallelGroupMembers(s, group);
    GroupCanStartTogether(g, KNOWN_STAGE_GRAPH_STAGES, s, group);
    if group != "" {
      var at := MembersAreDefined(g, KNOWN_STAGE_GRAPH_STAGES, s, group);
      if members != [] { assert members[0] in members; }
    } else {
      var at := MembersAreDefined(g, KNOWN_STAGE_GRAPH_STAGES, s, "x");
    }
  }
}
