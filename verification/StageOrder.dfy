// Kahn's algorithm as packages/agent_core/stage_graph.py runs it: an indegree
// dictionary, adjacency lists and a first-in first-out deque.
module StageOrder {
  import opened Wrappers
  import opened Digraph
  import opened StageGraph

  datatype GraphError =
    | DuplicateStage(name: string)
    | UnknownStage(name: string)
    | UndefinedDependency(dep: string, name: string)
    | UnknownDependency(dep: string)
    | CycleDetected

  // ---- Dependency entries -------------------------------------------------

  /** One `depends_on` entry: (dependency, stage that lists it). */
  type Entry = (string, string)

  /** The first `j` entries of a node. */
  ghost function NodeEntries(n: StageNode, j: nat): seq<Entry>
    requires j <= |n.dependsOn|
  {
    seq(j, k requires 0 <= k < j => (n.dependsOn[k], n.stageName))
  }

  /** The entries of the first `i` nodes, repetitions included, in the order the source visits them. */
  ghost function EntriesOf(nodes: seq<StageNode>, i: nat): seq<Entry>
    requires i <= |nodes|
  {
    if i == 0 then []
    else EntriesOf(nodes, i - 1) + NodeEntries(nodes[i - 1], |nodes[i - 1].dependsOn|)
  }

  /** Entries of stage `x` whose dependency is not in `done`. */
  ghost function Pending(es: seq<Entry>, done: set<string>, x: string): nat {
    if es == [] then 0
    else
      var last := es[|es| - 1];
      Pending(es[..|es| - 1], done, x) + if last.1 == x && last.0 !in done then 1 else 0
  }

  /** The stages that list `c`, once for every time they list it. */
  ghost function Successors(es: seq<Entry>, c: string): seq<string> {
    if es == [] then []
    else
      var last := es[|es| - 1];
      Successors(es[..|es| - 1], c) + if last.0 == c then [last.1] else []
  }

  /** Emitting `c` meets exactly the entries that its adjacency list holds. */
  lemma {:induction false} PendingMeets(es: seq<Entry>, done: set<string>, c: string, x: string)
    requires c !in done
    ensures Pending(es, done + {c}, x) == Pending(es, done, x) - multiset(Successors(es, c))[x]
  {
    if es != [] {
      PendingMeets(es[..|es| - 1], done, c, x);
    }
  }

  /** Nothing is pending for `x` exactly when everything it depends on is done. */
  lemma {:induction false} PendingZero(es: seq<Entry>, done: set<string>, x: string)
    ensures Pending(es, done, x) == 0 <==> forall d :: (d, x) in es ==> d in done
  {
    if es != [] {
      var init, last := es[..|es| - 1], es[|es| - 1];
      PendingZero(init, done, x);
      assert es == init + [last];
    }
  }

  lemma {:induction false} SuccessorsAreEntries(es: seq<Entry>, c: string, x: string)
    requires x in Successors(es, c)
    ensures (c, x) in es
  {
    if es != [] {
      var init, last := es[..|es| - 1], es[|es| - 1];
      assert es == init + [last];
      if x in Successors(init, c) {
        SuccessorsAreEntries(init, c, x);
      }
    }
  }

  lemma {:induction false} EntriesAreEdges(g: Graph, i: nat)
    requires i <= |g.nodes|
    ensures forall d, x :: (d, x) in EntriesOf(g.nodes, i) <==>
                           exists k :: 0 <= k < i && g.nodes[k].stageName == x && d in g.nodes[k].dependsOn
  {
    if i > 0 {
      EntriesAreEdges(g, i - 1);
      var n := g.nodes[i - 1];
      var own := NodeEntries(n, |n.dependsOn|);
      forall d, x
        ensures (d, x) in own <==> n.stageName == x && d in n.dependsOn
      {
        if n.stageName == x && d in n.dependsOn {
          var k :| 0 <= k < |n.dependsOn| && n.dependsOn[k] == d;
          assert own[k] == (d, x);
        }
      }
    }
  }

  lemma EntriesCoverEdges(g: Graph, d: string, x: string)
    ensures (d, x) in EntriesOf(g.nodes, |g.nodes|) <==> Edge(EdgesOf(g), d, x)
  {
    EntriesAreEdges(g, |g.nodes|);
    if Edge(EdgesOf(g), d, x) {
      var n :| n in g.nodes && d in n.dependsOn && n.stageName == x;
      var k :| 0 <= k < |g.nodes| && g.nodes[k] == n;
    }
  }

  // ---- Definition order ---------------------------------------------------

  ghost predicate InDefinitionOrder(g: Graph, l: seq<string>) {
    && (forall x :: x in l ==> x in NameSeq(g))
    && (forall s, t {:trigger IndexOf(NameSeq(g), l[s]), IndexOf(NameSeq(g), l[t])} ::
         0 <= s < t < |l| ==> IndexOf(NameSeq(g), l[s]) <= IndexOf(NameSeq(g), l[t]))
  }

  lemma IndexOfNode(g: Graph, i: nat)
    requires DistinctNames(g) && i < |g.nodes|
    ensures NameSeq(g)[i] == g.nodes[i].stageName
    ensures IndexOf(NameSeq(g), g.nodes[i].stageName) == i
  {
    assert NameSeq(g)[i] == g.nodes[i].stageName;
  }

  /** Entries come in the definition order of the stages that list them. */
  ghost predicate SortedEntries(g: Graph, es: seq<Entry>) {
    && (forall p :: p in es ==> p.1 in NameSeq(g))
    && (forall s, t {:trigger es[s], es[t]} :: 0 <= s < t < |es| ==> IndexOf(NameSeq(g), es[s].1) <= IndexOf(NameSeq(g), es[t].1))
  }

  lemma {:induction false} EntriesSorted(g: Graph, i: nat)
    requires DistinctNames(g) && i <= |g.nodes|
    ensures SortedEntries(g, EntriesOf(g.nodes, i))
    ensures forall p :: p in EntriesOf(g.nodes, i) ==> IndexOf(NameSeq(g), p.1) < i
  {
    if i > 0 {
      EntriesSorted(g, i - 1);
      IndexOfNode(g, i - 1);
      var prev, own := EntriesOf(g.nodes, i - 1), NodeEntries(g.nodes[i - 1], |g.nodes[i - 1].dependsOn|);
      assert forall p :: p in own ==> p.1 == NameSeq(g)[i - 1];
      SortedConcat(g, prev, own, i - 1);
    }
  }

  lemma SortedConcat(g: Graph, a: seq<Entry>, b: seq<Entry>, m: nat)
    requires SortedEntries(g, a) && forall p :: p in a ==> IndexOf(NameSeq(g), p.1) < m
    requires forall p :: p in b ==> p.1 in NameSeq(g) && IndexOf(NameSeq(g), p.1) == m
    ensures SortedEntries(g, a + b)
  {
    var es := a + b;
    forall s, t | 0 <= s < t < |es|
      ensures IndexOf(NameSeq(g), es[s].1) <= IndexOf(NameSeq(g), es[t].1)
    {
      assert es[s] == if s < |a| then a[s] else b[s - |a|];
      assert es[t] == if t < |a| then a[t] else b[t - |a|];
    }
  }

  lemma EarlierEntry(g: Graph, init: seq<Entry>, last: Entry, p: Entry)
    requires SortedEntries(g, init + [last]) && p in init
    ensures p.1 in NameSeq(g) && last.1 in NameSeq(g) && IndexOf(NameSeq(g), p.1) <= IndexOf(NameSeq(g), last.1)
  {
    var es := init + [last];
    var s :| 0 <= s < |init| && init[s] == p;
    assert es[s] == p && es[|init|] == last;
  }

  lemma SortedPrefix(g: Graph, init: seq<Entry>, last: Entry)
    requires SortedEntries(g, init + [last])
    ensures SortedEntries(g, init)
  {
    var es := init + [last];
    forall s, t | 0 <= s < t < |init|
      ensures init[s].1 in NameSeq(g) && init[t].1 in NameSeq(g)
      ensures IndexOf(NameSeq(g), init[s].1) <= IndexOf(NameSeq(g), init[t].1)
    {
      assert es[s] == init[s] && es[t] == init[t];
    }
  }

  lemma {:induction false} SuccessorsSorted(g: Graph, es: seq<Entry>, c: string)
    requires SortedEntries(g, es)
    ensures InDefinitionOrder(g, Successors(es, c))
  {
    if es != [] {
      var init, last := es[..|es| - 1], es[|es| - 1];
      assert es == init + [last];
      SortedPrefix(g, init, last);
      SuccessorsSorted(g, init, c);
      if last.0 == c {
        forall x | x in Successors(init, c)
          ensures IndexOf(NameSeq(g), x) <= IndexOf(NameSeq(g), last.1)
        {
          SuccessorsAreEntries(init, c, x);
          EarlierEntry(g, init, last, (c, x));
        }
        LastInOrder(g, Successors(init, c), last.1);
      }
    }
  }

  lemma LastInOrder(g: Graph, l: seq<string>, x: string)
    requires InDefinitionOrder(g, l) && x in NameSeq(g)
    requires forall y :: y in l ==> IndexOf(NameSeq(g), y) <= IndexOf(NameSeq(g), x)
    ensures InDefinitionOrder(g, l + [x])
  {
    var m := l + [x];
    forall s, t | 0 <= s < t < |m|
      ensures IndexOf(NameSeq(g), m[s]) <= IndexOf(NameSeq(g), m[t])
    {
      assert m[s] in l;
      if t < |l| { assert l[s] == m[s] && l[t] == m[t]; }
    }
  }

  lemma NameSeqElements(g: Graph)
    ensures Elements(NameSeq(g)) == Names(g)
  {
    forall x
      ensures x in Elements(NameSeq(g)) <==> x in Names(g)
    {
      if x in NameSeq(g) {
        var i :| 0 <= i < |NameSeq(g)| && NameSeq(g)[i] == x;
        assert g.nodes[i] in g.nodes;
      }
      if x in Names(g) {
        var i :| 0 <= i < |g.nodes| && g.nodes[i].stageName == x;
        assert NameSeq(g)[i] == x;
      }
    }
  }

  /** The dictionary comprehensions: one key per name, in order of first occurrence. */
  method Keys(g: Graph) returns (keys: seq<string>)
    ensures NoDuplicates(keys) && Elements(keys) == Names(g)
    ensures DistinctNames(g) ==> keys == NameSeq(g)
  {
    keys := [];
    for i := 0 to |g.nodes|
      invariant NoDuplicates(keys) && Elements(keys) == Names(Graph(g.nodes[..i]))
      invariant DistinctNames(g) ==> keys == NameSeq(g)[..i]
    {
      var name := g.nodes[i].stageName;
      assert g.nodes[..i + 1] == g.nodes[..i] + [g.nodes[i]];
      assert Names(Graph(g.nodes[..i + 1])) == Names(Graph(g.nodes[..i])) + {name};
      assert name == NameSeq(g)[i];
      if name !in keys {
        assert Elements(keys + [name]) == Elements(keys) + {name};
        keys := keys + [name];
      } else {
        assert name in Elements(keys);
      }
    }
    assert g.nodes[..|g.nodes|] == g.nodes;
  }

  // ---- The tables ---------------------------------------------------------

  /** What the two dictionaries hold once the entries `es` are in. */
  ghost predicate Tables(names: set<string>, es: seq<Entry>, indegree: map<string, int>, adj: map<string, seq<string>>) {
    && indegree.Keys == adj.Keys == names
    && (forall x {:trigger indegree[x]} :: x in names ==> indegree[x] == Pending(es, {}, x))
    && (forall c {:trigger adj[c]} :: c in names ==> adj[c] == Successors(es, c))
  }

  lemma NodeEntriesStep(es: seq<Entry>, node: StageNode, j: nat)
    requires j < |node.dependsOn|
    ensures es + NodeEntries(node, j + 1) == (es + NodeEntries(node, j)) + [(node.dependsOn[j], node.stageName)]
  {
  }

  /** Enter one dependency. */
  method Enter(ghost names: set<string>, ghost es: seq<Entry>,
               indegree0: map<string, int>, adj0: map<string, seq<string>>, dep: string, name: string)
    returns (indegree: map<string, int>, adj: map<string, seq<string>>)
    requires Tables(names, es, indegree0, adj0) && dep in names && name in names
    ensures Tables(names, es + [(dep, name)], indegree, adj)
  {
    assert (es + [(dep, name)])[..|es|] == es;
    adj := adj0[dep := adj0[dep] + [name]];
    indegree := indegree0[name := indegree0[name] + 1];
  }

  /** Enter the dependencies of one node. */
  method EnterNode(node: StageNode, ghost names: set<string>, ghost es: seq<Entry>,
                   indegree0: map<string, int>, adj0: map<string, seq<string>>)
    returns (missing: Option<string>, indegree: map<string, int>, adj: map<string, seq<string>>)
    requires node.stageName in names && Tables(names, es, indegree0, adj0)
    ensures missing.None? <==> DependenciesUpto(node, |node.dependsOn|, names)
    ensures missing.Some? ==> missing.value !in names && missing.value in node.dependsOn
    ensures missing.None? ==> Tables(names, es + NodeEntries(node, |node.dependsOn|), indegree, adj)
  {
    indegree, adj := indegree0, adj0;
    ghost var sofar := es;
    for j := 0 to |node.dependsOn|
      invariant sofar == es + NodeEntries(node, j)
      invariant Tables(names, sofar, indegree, adj)
      invariant DependenciesUpto(node, j, names)
    {
      var dep := node.dependsOn[j];
      if dep !in adj {
        missing := Some(dep);
        DependenciesUptoFails(node, j, names);
        return;
      }
      NodeEntriesStep(es, node, j);
      indegree, adj := Enter(names, sofar, indegree, adj, dep, node.stageName);
      sofar := sofar + [(dep, node.stageName)];
    }
    missing := None;
  }

  ghost predicate DependenciesUpto(node: StageNode, j: nat, names: set<string>)
    requires j <= |node.dependsOn|
  {
    j == 0 || (DependenciesUpto(node, j - 1, names) && node.dependsOn[j - 1] in names)
  }

  lemma {:induction false} DependenciesUptoAll(node: StageNode, j: nat, names: set<string>)
    requires j <= |node.dependsOn|
    ensures DependenciesUpto(node, j, names) <==> forall k :: 0 <= k < j ==> node.dependsOn[k] in names
  {
    if j > 0 {
      DependenciesUptoAll(node, j - 1, names);
    }
  }

  lemma DependenciesUptoFails(node: StageNode, j: nat, names: set<string>)
    requires j < |node.dependsOn| && node.dependsOn[j] !in names
    ensures !DependenciesUpto(node, |node.dependsOn|, names)
  {
    DependenciesUptoAll(node, |node.dependsOn|, names);
  }

  ghost predicate DependenciesIn(nodes: seq<StageNode>, i: nat, names: set<string>)
    requires i <= |nodes|
  {
    i == 0 || (DependenciesIn(nodes, i - 1, names) && DependenciesUpto(nodes[i - 1], |nodes[i - 1].dependsOn|, names))
  }

  lemma {:induction false} DependenciesInAll(nodes: seq<StageNode>, i: nat, names: set<string>)
    requires i <= |nodes|
    ensures DependenciesIn(nodes, i, names) <==>
            forall k :: 0 <= k < i ==> DependenciesUpto(nodes[k], |nodes[k].dependsOn|, names)
  {
    if i > 0 {
      DependenciesInAll(nodes, i - 1, names);
    }
  }

  lemma DependenciesInFails(nodes: seq<StageNode>, i: nat, names: set<string>)
    requires i < |nodes| && !DependenciesUpto(nodes[i], |nodes[i].dependsOn|, names)
    ensures !DependenciesIn(nodes, |nodes|, names)
  {
    DependenciesInAll(nodes, |nodes|, names);
  }

  /** The dictionary comprehensions. */
  method EmptyTables(keys: seq<string>) returns (indegree: map<string, int>, adj: map<string, seq<string>>)
    ensures Tables(Elements(keys), [], indegree, adj)
  {
    indegree := map x | x in keys :: 0;
    adj := map x | x in keys :: [];
  }

  /** Fill the indegree dictionary and the adjacency lists; a dependency that names no stage is
      the `KeyError` of the source. */
  method BuildTables(nodes: seq<StageNode>, keys: seq<string>)
    returns (missing: Option<string>, indegree: map<string, int>, adj: map<string, seq<string>>)
    requires forall k :: 0 <= k < |nodes| ==> nodes[k].stageName in keys
    ensures missing.None? <==> DependenciesIn(nodes, |nodes|, Elements(keys))
    ensures missing.Some? ==> missing.value !in keys && exists k :: 0 <= k < |nodes| && missing.value in nodes[k].dependsOn
    ensures missing.None? ==> Tables(Elements(keys), EntriesOf(nodes, |nodes|), indegree, adj)
  {
    indegree, adj := EmptyTables(keys);
    ghost var names := Elements(keys);
    for i := 0 to |nodes|
      invariant Tables(names, EntriesOf(nodes, i), indegree, adj)
      invariant DependenciesIn(nodes, i, names)
    {
      assert nodes[i].stageName in names;
      missing, indegree, adj := EnterNode(nodes[i], names, EntriesOf(nodes, i), indegree, adj);
      if missing.Some? {
        DependenciesInFails(nodes, i, names);
        return;
      }
    }
    missing := None;
  }

  // ---- The worklist -------------------------------------------------------

  /** The stages emitted so far and those waiting: no repetition, and nothing is released before
      all its dependencies are emitted. */
  ghost predicate Released(e: Edges, ordered: seq<string>, queue: seq<string>) {
    && NoDuplicates(ordered + queue)
    && DependenciesFirst(e, ordered + queue)
    && (forall d, x :: x in ordered + queue && Edge(e, d, x) ==> d in ordered)
  }

  /** Indegrees count the entries still unmet, where of the entries of the stage being emitted only
      those in `l` have been met. */
  ghost predicate Counts(names: set<string>, es: seq<Entry>, done: set<string>, l: seq<string>, indegree: map<string, int>) {
    && indegree.Keys == names
    && (forall x {:trigger indegree[x]} :: x in names ==> indegree[x] == Pending(es, done, x) - multiset(l)[x])
  }

  ghost predicate ZeroIsReleased(names: set<string>, all: seq<string>, indegree: map<string, int>) {
    && indegree.Keys == names && Elements(all) <= names
    && (forall x {:trigger indegree[x]} :: x in names ==> (indegree[x] == 0 <==> x in all))
  }

  lemma PendingZeroEdges(g: Graph, done: set<string>, x: string)
    ensures Pending(EntriesOf(g.nodes, |g.nodes|), done, x) == 0 <==> forall d :: Edge(EdgesOf(g), d, x) ==> d in done
  {
    var es := EntriesOf(g.nodes, |g.nodes|);
    PendingZero(es, done, x);
    forall d
      ensures (d, x) in es <==> Edge(EdgesOf(g), d, x)
    {
      EntriesCoverEdges(g, d, x);
    }
  }

  /** Appending an element that no earlier one depends on leaves their latest dependency alone. */
  lemma LatestAppend(e: Edges, o: seq<string>, n: string, x: string)
    requires !Edge(e, n, x)
    ensures LatestDependency(e, o + [n], x) == LatestDependency(e, o, x)
  {
    assert (o + [n])[..|o|] == o;
  }

  lemma {:induction false} LatestInFront(e: Edges, a: seq<string>, b: seq<string>, x: string)
    requires forall q :: 0 <= q < |b| ==> !Edge(e, b[q], x)
    ensures LatestDependency(e, a + b, x) == LatestDependency(e, a, x)
    decreases |b|
  {
    if b == [] {
      assert a + b == a;
    } else {
      var b' := b[..|b| - 1];
      assert a + b == (a + b') + [b[|b| - 1]];
      LatestAppend(e, a + b', b[|b| - 1], x);
      LatestInFront(e, a, b', x);
    }
  }

  /** A stage released by the last emitted one: its latest dependency is that one. */
  lemma LatestIsLastEmitted(e: Edges, ordered: seq<string>, queue: seq<string>, x: string)
    requires ordered != [] && Released(e, ordered, queue) && x !in ordered + queue
    requires Edge(e, ordered[|ordered| - 1], x) && forall d :: Edge(e, d, x) ==> d in ordered
    ensures LatestDependency(e, ordered + queue + [x], x) == |ordered| - 1
  {
    assert !Edge(e, x, x);
    LatestAppend(e, ordered + queue, x, x);
    forall q | 0 <= q < |queue|
      ensures !Edge(e, queue[q], x)
    {
      var all := ordered + queue;
      assert all[|ordered| + q] == queue[q];
      assert forall i :: 0 <= i < |ordered| ==> all[i] == ordered[i];
    }
    LatestInFront(e, ordered, queue, x);
  }

  lemma ReleaseNext(e: Edges, ordered: seq<string>, queue: seq<string>, x: string)
    requires Released(e, ordered, queue) && x !in ordered + queue
    requires forall d :: Edge(e, d, x) ==> d in ordered
    ensures Released(e, ordered, queue + [x])
  {
    var all := ordered + queue;
    assert ordered + (queue + [x]) == all + [x];
    forall j, d | 0 <= j < |all + [x]| && Edge(e, d, (all + [x])[j])
      ensures d in (all + [x])[..j]
    {
      if j < |all| {
        assert d in all[..j];
        assert (all + [x])[..j] == all[..j];
      } else {
        assert (all + [x])[..j] == all;
      }
    }
  }

  /** Of the stages released so far, those waiting for the last emitted stage are all in `l`. */
  ghost predicate FreshlyReleased(e: Edges, ordered: seq<string>, queue: seq<string>, l: seq<string>) {
    ordered != [] && forall x :: x in ordered + queue && Edge(e, ordered[|ordered| - 1], x) ==> x in l
  }

  lemma ReleaseFifo(g: Graph, ordered: seq<string>, queue: seq<string>, l: seq<string>, j: nat)
    requires Released(EdgesOf(g), ordered, queue) && FifoOrdered(g, ordered + queue)
    requires j < |l| && FreshlyReleased(EdgesOf(g), ordered, queue, l[..j])
    requires InDefinitionOrder(g, l) && l[j] !in ordered + queue
    requires Edge(EdgesOf(g), ordered[|ordered| - 1], l[j])
    requires forall d :: Edge(EdgesOf(g), d, l[j]) ==> d in ordered
    ensures FifoOrdered(g, ordered + (queue + [l[j]]))
  {
    var e, all, x := EdgesOf(g), ordered + queue, l[j];
    var new_ := all + [x];
    assert new_ == ordered + (queue + [x]);
    LatestIsLastEmitted(e, ordered, queue, x);
    forall y | y in all
      ensures LatestDependency(e, new_, y) == LatestDependency(e, all, y)
      ensures ReleasedBefore(g, new_, y, x)
    {
      ReleasedEarlier(g, ordered, queue, l, j, y);
    }
    forall s, t | 0 <= s < t < |new_|
      ensures ReleasedBefore(g, new_, new_[s], new_[t])
    {
      assert new_[s] == all[s];
      if t < |all| {
        assert new_[t] == all[t];
        assert ReleasedBefore(g, all, all[s], all[t]);
      }
    }
  }

  lemma ReleasedEarlier(g: Graph, ordered: seq<string>, queue: seq<string>, l: seq<string>, j: nat, y: string)
    requires Released(EdgesOf(g), ordered, queue) && y in ordered + queue && y in NameSeq(g)
    requires j < |l| && FreshlyReleased(EdgesOf(g), ordered, queue, l[..j])
    requires InDefinitionOrder(g, l) && l[j] !in ordered + queue
    requires LatestDependency(EdgesOf(g), ordered + queue + [l[j]], l[j]) == |ordered| - 1
    ensures LatestDependency(EdgesOf(g), ordered + queue + [l[j]], y) == LatestDependency(EdgesOf(g), ordered + queue, y)
    ensures ReleasedBefore(g, ordered + queue + [l[j]], y, l[j])
  {
    var e, all, x := EdgesOf(g), ordered + queue, l[j];
    assert !Edge(e, x, y);
    LatestAppend(e, all, x, y);
    var p := LatestDependency(e, all, y);
    if p >= 0 {
      assert all[p] in ordered;
      var i :| 0 <= i < |ordered| && ordered[i] == all[p];
      assert all[i] == ordered[i];
      assert i == p;
      if p == |ordered| - 1 {
        assert y in l[..j];
        var s :| 0 <= s < j && l[s] == y;
        assert IndexOf(NameSeq(g), l[s]) <= IndexOf(NameSeq(g), l[j]);
      }
    }
  }

  // ---- Emitting one stage -------------------------------------------------

  /** Everything the inner loop keeps while the successors `l` of the stage just emitted are visited;
      `i` of them have been. */
  ghost predicate Emitting(g: Graph, ordered: seq<string>, queue: seq<string>, l: seq<string>, i: nat, indegree: map<string, int>)
    requires i <= |l|
  {
    && ordered != []
    && l == Successors(EntriesOf(g.nodes, |g.nodes|), ordered[|ordered| - 1])
    && Released(EdgesOf(g), ordered, queue)
    && Counts(Names(g), EntriesOf(g.nodes, |g.nodes|), Elements(ordered[..|ordered| - 1]), l[..i], indegree)
    && ZeroIsReleased(Names(g), ordered + queue, indegree)
    && FreshlyReleased(EdgesOf(g), ordered, queue, l[..i])
    && (DistinctNames(g) ==> FifoOrdered(g, ordered + queue))
  }

  /** What the outer loop keeps. */
  ghost predicate Between(g: Graph, ordered: seq<string>, queue: seq<string>, indegree: map<string, int>) {
    && Released(EdgesOf(g), ordered, queue)
    && Counts(Names(g), EntriesOf(g.nodes, |g.nodes|), Elements(ordered), [], indegree)
    && ZeroIsReleased(Names(g), ordered + queue, indegree)
    && (DistinctNames(g) ==> FifoOrdered(g, ordered + queue))
  }

  lemma VisitCounts(names: set<string>, es: seq<Entry>, done: set<string>, c: string, i: nat, indegree: map<string, int>)
    requires c !in done
    requires var l := Successors(es, c); i < |l| && l[i] in names && Counts(names, es, done, l[..i], indegree)
    ensures var l := Successors(es, c);
            && indegree[l[i]] > 0
            && Counts(names, es, done, l[..i + 1], indegree[l[i] := indegree[l[i]] - 1])
            && (indegree[l[i]] == 1 ==> Pending(es, done + {c}, l[i]) == 0)
  {
    var l := Successors(es, c);
    var x := l[i];
    MetSoFar(l, i);
    PendingMeets(es, done, c, x);
    assert indegree[x] == Pending(es, done, x) - multiset(l[..i])[x];
  }

  lemma MetSoFar(l: seq<string>, i: nat)
    requires i < |l|
    ensures multiset(l[..i + 1]) == multiset(l[..i]) + multiset{l[i]}
    ensures multiset(l[..i])[l[i]] + 1 <= multiset(l)[l[i]]
  {
    assert l[..i + 1] == l[..i] + [l[i]];
    assert l == l[..i + 1] + l[i + 1..];
  }

  lemma CountsDone(names: set<string>, es: seq<Entry>, done: set<string>, c: string, indegree: map<string, int>)
    requires c !in done && Counts(names, es, done, Successors(es, c), indegree)
    ensures Counts(names, es, done + {c}, [], indegree)
  {
    forall x | x in names
      ensures indegree[x] == Pending(es, done + {c}, x) - multiset([])[x]
    {
      PendingMeets(es, done, c, x);
      assert indegree[x] == Pending(es, done, x) - multiset(Successors(es, c))[x];
    }
  }

  lemma LastEmittedIsNew(e: Edges, ordered: seq<string>, queue: seq<string>)
    requires Released(e, ordered, queue) && ordered != []
    ensures ordered[|ordered| - 1] !in Elements(ordered[..|ordered| - 1])
    ensures Elements(ordered) == Elements(ordered[..|ordered| - 1]) + {ordered[|ordered| - 1]}
  {
    var init, last := ordered[..|ordered| - 1], ordered[|ordered| - 1];
    assert ordered == init + [last];
    assert forall k :: 0 <= k < |ordered| ==> (ordered + queue)[k] == ordered[k];
  }

  /** What the indegree of the visited stage says. */
  lemma Visited(g: Graph, ordered: seq<string>, queue: seq<string>, l: seq<string>, i: nat, indegree: map<string, int>)
    requires i < |l| && Emitting(g, ordered, queue, l, i, indegree) && Closed(g)
    ensures l[i] in Names(g) && indegree[l[i]] > 0 && l[i] !in ordered + queue
    ensures Edge(EdgesOf(g), ordered[|ordered| - 1], l[i])
    ensures Counts(Names(g), EntriesOf(g.nodes, |g.nodes|), Elements(ordered[..|ordered| - 1]), l[..i + 1],
                   indegree[l[i] := indegree[l[i]] - 1])
    ensures indegree[l[i]] == 1 ==> forall d :: Edge(EdgesOf(g), d, l[i]) ==> d in ordered
  {
    var es, x, cur := EntriesOf(g.nodes, |g.nodes|), l[i], ordered[|ordered| - 1];
    SuccessorsAreEntries(es, cur, x);
    EntriesCoverEdges(g, cur, x);
    var n :| n in g.nodes && cur in n.dependsOn && n.stageName == x;
    assert x in Names(g);
    LastEmittedIsNew(EdgesOf(g), ordered, queue);
    VisitCounts(Names(g), es, Elements(ordered[..|ordered| - 1]), cur, i, indegree);
    assert l[i] !in ordered + queue;
    if indegree[x] == 1 {
      PendingZeroEdges(g, Elements(ordered), x);
    }
  }

  lemma FreshGrows(e: Edges, ordered: seq<string>, queue: seq<string>, l: seq<string>, i: nat)
    requires i < |l| && FreshlyReleased(e, ordered, queue, l[..i])
    ensures FreshlyReleased(e, ordered, queue, l[..i + 1])
    ensures FreshlyReleased(e, ordered, queue + [l[i]], l[..i + 1])
  {
    assert l[..i + 1] == l[..i] + [l[i]];
    assert ordered + (queue + [l[i]]) == (ordered + queue) + [l[i]];
  }

  /** The stage stays blocked. */
  lemma VisitBlocked(g: Graph, ordered: seq<string>, queue: seq<string>, l: seq<string>, i: nat, indegree: map<string, int>)
    requires i < |l| && Emitting(g, ordered, queue, l, i, indegree) && Closed(g)
    requires l[i] in indegree && indegree[l[i]] != 1
    ensures Emitting(g, ordered, queue, l, i + 1, indegree[l[i] := indegree[l[i]] - 1])
  {
    Visited(g, ordered, queue, l, i, indegree);
    FreshGrows(EdgesOf(g), ordered, queue, l, i);
  }

  lemma ZeroGrows(names: set<string>, all: seq<string>, indegree: map<string, int>, x: string)
    requires ZeroIsReleased(names, all, indegree) && x in names && indegree[x] == 1
    ensures ZeroIsReleased(names, all + [x], indegree[x := 0])
  {
  }

  lemma SuccessorsInOrder(g: Graph, c: string)
    requires DistinctNames(g)
    ensures InDefinitionOrder(g, Successors(EntriesOf(g.nodes, |g.nodes|), c))
  {
    EntriesSorted(g, |g.nodes|);
    SuccessorsSorted(g, EntriesOf(g.nodes, |g.nodes|), c);
  }

  /** The stage is released. */
  lemma VisitReleased(g: Graph, ordered: seq<string>, queue: seq<string>, l: seq<string>, i: nat, indegree: map<string, int>)
    requires i < |l| && Emitting(g, ordered, queue, l, i, indegree) && Closed(g)
    requires l[i] in indegree && indegree[l[i]] == 1
    ensures Emitting(g, ordered, queue + [l[i]], l, i + 1, indegree[l[i] := 0])
  {
    var e := EdgesOf(g);
    Visited(g, ordered, queue, l, i, indegree);
    FreshGrows(e, ordered, queue, l, i);
    ReleaseNext(e, ordered, queue, l[i]);
    ZeroGrows(Names(g), ordered + queue, indegree, l[i]);
    assert ordered + (queue + [l[i]]) == (ordered + queue) + [l[i]];
    if DistinctNames(g) {
      SuccessorsInOrder(g, ordered[|ordered| - 1]);
      ReleaseFifo(g, ordered, queue, l, i);
    }
  }

  /** The body of the worklist loop: meet the entries of the stage just emitted and queue every
      stage whose indegree reaches zero. */
  method Emit(g: Graph, ordered: seq<string>, queue0: seq<string>, l: seq<string>, indegree0: map<string, int>)
    returns (queue: seq<string>, indegree: map<string, int>)
    requires Closed(g) && Emitting(g, ordered, queue0, l, 0, indegree0)
    ensures Between(g, ordered, queue, indegree)
  {
    queue, indegree := queue0, indegree0;
    for i := 0 to |l|
      invariant Emitting(g, ordered, queue, l, i, indegree)
    {
      var nxt := l[i];
      Visited(g, ordered, queue, l, i, indegree);
      if indegree[nxt] == 1 {
        VisitReleased(g, ordered, queue, l, i, indegree);
      } else {
        VisitBlocked(g, ordered, queue, l, i, indegree);
      }
      indegree := indegree[nxt := indegree[nxt] - 1];
      if indegree[nxt] == 0 {
        queue := queue + [nxt];
      }
    }
    EmittedAll(g, ordered, queue, l, indegree);
  }

  lemma EmittedAll(g: Graph, ordered: seq<string>, queue: seq<string>, l: seq<string>, indegree: map<string, int>)
    requires Emitting(g, ordered, queue, l, |l|, indegree)
    ensures Between(g, ordered, queue, indegree)
  {
    assert l[..|l|] == l;
    LastEmittedIsNew(EdgesOf(g), ordered, queue);
    CountsDone(Names(g), EntriesOf(g.nodes, |g.nodes|), Elements(ordered[..|ordered| - 1]), ordered[|ordered| - 1], indegree);
  }

  // ---- The algorithm ------------------------------------------------------

  lemma Popped(g: Graph, ordered: seq<string>, queue: seq<string>, indegree: map<string, int>)
    requires queue != [] && Between(g, ordered, queue, indegree)
    ensures Emitting(g, ordered + [queue[0]], queue[1..], Successors(EntriesOf(g.nodes, |g.nodes|), queue[0]), 0, indegree)
  {
    var e, cur, rest := EdgesOf(g), queue[0], queue[1..];
    var ordered' := ordered + [cur];
    assert ordered' + rest == ordered + queue;
    assert ordered'[..|ordered|] == ordered;
    assert (ordered + queue)[|ordered|] == cur;
    assert forall k :: 0 <= k < |ordered| ==> (ordered + queue)[k] == ordered[k];
    assert cur !in ordered;
    var l := Successors(EntriesOf(g.nodes, |g.nodes|), cur);
    assert l[..0] == [];
  }

  lemma ReleasedBound(g: Graph, ordered: seq<string>, queue: seq<string>, indegree: map<string, int>)
    requires Between(g, ordered, queue, indegree)
    ensures NoDuplicates(ordered) && Elements(ordered) <= Names(g)
    ensures |ordered| + |queue| <= |Names(g)| <= |g.nodes|
    ensures |ordered| == |Names(g)| ==> Elements(ordered) == Names(g)
    ensures |Names(g)| == |g.nodes| <==> DistinctNames(g)
  {
    assert forall k :: 0 <= k < |ordered| ==> (ordered + queue)[k] == ordered[k];
    NoDuplicatesBound(ordered + queue, Names(g));
    NoDuplicatesBound(ordered, Names(g));
    NameCount(NameSeq(g));
    NameSeqElements(g);
  }

  lemma {:induction false} NameCount(s: seq<string>)
    ensures |Elements(s)| <= |s|
    ensures |Elements(s)| == |s| <==> NoDuplicates(s)
  {
    if s != [] {
      var init, last := s[..|s| - 1], s[|s| - 1];
      NameCount(init);
      assert s == init + [last];
      assert Elements(s) == Elements(init) + {last};
      if last in init {
        var i :| 0 <= i < |init| && init[i] == last;
        assert s[i] == s[|s| - 1];
        assert Elements(s) == Elements(init);
      } else {
        assert NoDuplicates(init) ==> NoDuplicates(s);
      }
      assert NoDuplicates(s) ==> NoDuplicates(init);
    }
  }

  ghost predicate PendingStarts(es: seq<Entry>, indegree: map<string, int>) {
    forall x {:trigger indegree[x]} :: x in indegree ==> indegree[x] == Pending(es, {}, x)
  }

  /** The deque starts with the stages that have no dependency entry, in key order. */
  method InitialQueue(keys: seq<string>, indegree: map<string, int>) returns (queue: seq<string>)
    requires forall x :: x in keys ==> x in indegree
    requires NoDuplicates(keys)
    ensures NoDuplicates(queue)
    ensures forall x :: x in queue <==> x in keys && indegree[x] == 0
    ensures forall s, t :: 0 <= s < t < |queue| ==> IndexOf(keys, queue[s]) < IndexOf(keys, queue[t])
  {
    queue := [];
    for i := 0 to |keys|
      invariant NoDuplicates(queue)
      invariant forall x :: x in queue <==> x in keys[..i] && indegree[x] == 0
      invariant forall s :: 0 <= s < |queue| ==> queue[s] in keys && IndexOf(keys, queue[s]) < i
      invariant forall s, t :: 0 <= s < t < |queue| ==> IndexOf(keys, queue[s]) < IndexOf(keys, queue[t])
    {
      assert keys[..i + 1] == keys[..i] + [keys[i]];
      assert IndexOf(keys, keys[i]) == i;
      if indegree[keys[i]] == 0 {
        assert keys[i] !in keys[..i];
        queue := queue + [keys[i]];
      }
    }
    assert keys[..|keys|] == keys;
  }

  lemma StartedReleased(g: Graph, queue: seq<string>, indegree: map<string, int>)
    requires PendingStarts(EntriesOf(g.nodes, |g.nodes|), indegree)
    requires NoDuplicates(queue) && forall x :: x in queue ==> x in indegree && indegree[x] == 0
    ensures forall x, d :: x in queue ==> !Edge(EdgesOf(g), d, x)
    ensures Released(EdgesOf(g), [], queue)
  {
    var e := EdgesOf(g);
    assert [] + queue == queue;
    forall x, d | x in queue
      ensures !Edge(e, d, x)
    {
      assert indegree[x] == 0;
      PendingZeroEdges(g, {}, x);
    }
  }

  lemma StartedFifo(g: Graph, queue: seq<string>)
    requires forall x, d :: x in queue ==> !Edge(EdgesOf(g), d, x)
    requires forall x :: x in queue ==> x in NameSeq(g)
    requires forall s, t :: 0 <= s < t < |queue| ==> IndexOf(NameSeq(g), queue[s]) < IndexOf(NameSeq(g), queue[t])
    ensures FifoOrdered(g, queue)
  {
    forall s, t | 0 <= s < t < |queue|
      ensures ReleasedBefore(g, queue, queue[s], queue[t])
    {
      var p := LatestDependency(EdgesOf(g), queue, queue[s]);
      var q := LatestDependency(EdgesOf(g), queue, queue[t]);
      assert p == -1 && q == -1;
    }
  }

  lemma Started(g: Graph, keys: seq<string>, queue: seq<string>, indegree: map<string, int>)
    requires Elements(keys) == Names(g) == indegree.Keys && (DistinctNames(g) ==> keys == NameSeq(g))
    requires PendingStarts(EntriesOf(g.nodes, |g.nodes|), indegree)
    requires NoDuplicates(queue) && forall x :: x in queue <==> x in keys && indegree[x] == 0
    requires forall s, t :: 0 <= s < t < |queue| ==> IndexOf(keys, queue[s]) < IndexOf(keys, queue[t])
    ensures Between(g, [], queue, indegree)
  {
    StartedReleased(g, queue, indegree);
    if DistinctNames(g) {
      StartedFifo(g, queue);
    }
    assert [] + queue == queue;
    assert Elements([]) == {};
    forall x | x in Names(g)
      ensures indegree[x] == 0 <==> x in queue
    {
      assert x in Elements(keys);
    }
    assert Elements(queue) <= Elements(keys);
  }

  /** A finished worklist that did not emit every stage leaves a cycle behind. */
  lemma StuckIsCyclic(g: Graph, ordered: seq<string>, indegree: map<string, int>)
    requires Closed(g) && Between(g, ordered, [], indegree) && |ordered| < |Names(g)|
    ensures !Acyclic(EdgesOf(g))
  {
    var e, u := EdgesOf(g), Names(g) - Elements(ordered);
    assert ordered + [] == ordered;
    ReleasedBound(g, ordered, [], indegree);
    NameCount(ordered);
    assert Elements(ordered) != Names(g);
    var missed :| missed in Names(g) && missed !in Elements(ordered);
    assert missed in u;
    forall x | x in u
      ensures HasDependencyIn(e, u, x)
    {
      StuckHasDependency(g, ordered, indegree, x);
    }
    StuckSetHasCycle(e, u);
  }

  lemma StuckHasDependency(g: Graph, ordered: seq<string>, indegree: map<string, int>, x: string)
    requires Closed(g) && Between(g, ordered, [], indegree) && x in Names(g) && x !in Elements(ordered)
    ensures HasDependencyIn(EdgesOf(g), Names(g) - Elements(ordered), x)
  {
    assert ordered + [] == ordered;
    assert indegree[x] != 0;
    PendingZeroEdges(g, Elements(ordered), x);
    var d :| Edge(EdgesOf(g), d, x) && d !in Elements(ordered);
    var n :| n in g.nodes && d in n.dependsOn && n.stageName == x;
    assert d in Names(g) - Elements(ordered);
  }

  lemma FinishedIsSchedule(g: Graph, ordered: seq<string>, indegree: map<string, int>)
    requires Between(g, ordered, [], indegree) && |ordered| == |g.nodes|
    ensures DistinctNames(g) && IsSchedule(g, ordered)
  {
    ReleasedBound(g, ordered, [], indegree);
    assert ordered + [] == ordered;
    NameSeqElements(g);
    SameMultiset(ordered, NameSeq(g));
  }

  lemma {:induction false} SameMultiset(a: seq<string>, b: seq<string>)
    requires NoDuplicates(a) && NoDuplicates(b) && Elements(a) == Elements(b)
    ensures multiset(a) == multiset(b)
  {
    forall x
      ensures multiset(a)[x] == multiset(b)[x]
    {
      CountOnce(a, x);
      CountOnce(b, x);
      assert x in a <==> x in Elements(a);
      assert x in b <==> x in Elements(b);
    }
  }

  lemma {:induction false} CountOnce(s: seq<string>, x: string)
    requires NoDuplicates(s)
    ensures multiset(s)[x] == if x in s then 1 else 0
  {
    if s != [] {
      CountOnce(s[..|s| - 1], x);
      assert s == s[..|s| - 1] + [s[|s| - 1]];
    }
  }

  lemma ClosedNodes(g: Graph)
    ensures Closed(g) <==> DependenciesIn(g.nodes, |g.nodes|, Names(g))
  {
    DependenciesInAll(g.nodes, |g.nodes|, Names(g));
    forall k | 0 <= k < |g.nodes| {
      DependenciesUptoAll(g.nodes[k], |g.nodes[k].dependsOn|, Names(g));
    }
    if DependenciesIn(g.nodes, |g.nodes|, Names(g)) {
      forall n, d | n in g.nodes && d in n.dependsOn
        ensures d in Names(g)
      {
        var k :| 0 <= k < |g.nodes| && g.nodes[k] == n;
        var j :| 0 <= j < |n.dependsOn| && n.dependsOn[j] == d;
      }
    } else {
      var k :| 0 <= k < |g.nodes| && !DependenciesUpto(g.nodes[k], |g.nodes[k].dependsOn|, Names(g));
      assert g.nodes[k] in g.nodes;
    }
  }

  /** The scheduler's order.  It exists exactly when the names are distinct and the dependencies
      acyclic, and then it is the one schedule of the graph. */
  method TopologicalOrder(g: Graph) returns (r: Result<seq<string>, GraphError>)
    ensures Closed(g) <==> !(r.Err? && r.error.UnknownDependency?)
    ensures Closed(g) ==> (r.Ok? <==> DistinctNames(g) && Acyclic(EdgesOf(g)))
    ensures r.Ok? ==> IsSchedule(g, r.value)
    ensures r.Err? ==> r.error == CycleDetected || (r.error.UnknownDependency? && r.error.dep !in Names(g) &&
                                                    exists n :: n in g.nodes && r.error.dep in n.dependsOn)
  {
    var keys := Keys(g);
    assert forall k :: 0 <= k < |g.nodes| ==> g.nodes[k].stageName in Elements(keys);
    var missing, indegree, adj := BuildTables(g.nodes, keys);
    ClosedNodes(g);
    if missing.Some? {
      return Err(UnknownDependency(missing.value));
    }
    r := RunWorklist(g, keys, indegree, adj);
  }

  method RunWorklist(g: Graph, keys: seq<string>, indegree0: map<string, int>, adj: map<string, seq<string>>)
    returns (r: Result<seq<string>, GraphError>)
    requires Closed(g) && Elements(keys) == Names(g) && NoDuplicates(keys) && (DistinctNames(g) ==> keys == NameSeq(g))
    requires Tables(Names(g), EntriesOf(g.nodes, |g.nodes|), indegree0, adj)
    ensures r.Ok? <==> DistinctNames(g) && Acyclic(EdgesOf(g))
    ensures r.Ok? ==> IsSchedule(g, r.value)
    ensures r.Err? ==> r.error == CycleDetected
  {
    var indegree := indegree0;
    assert forall x :: x in keys ==> x in Elements(keys);
    var queue := InitialQueue(keys, indegree);
    var ordered := [];
    Started(g, keys, queue, indegree);
    while queue != []
      invariant Between(g, ordered, queue, indegree)
      decreases |Names(g)| - |ordered|
    {
      ReleasedBound(g, ordered, queue, indegree);
      Popped(g, ordered, queue, indegree);
      var cur := queue[0];
      assert cur in ordered + queue;
      assert cur in Names(g);
      ordered := ordered + [cur];
      queue, indegree := Emit(g, ordered, queue[1..], adj[cur], indegree);
    }
    ReleasedBound(g, ordered, queue, indegree);
    if |ordered| != |g.nodes| {
      if DistinctNames(g) {
        StuckIsCyclic(g, ordered, indegree);
      }
      return Err(CycleDetected);
    }
    FinishedIsSchedule(g, ordered, indegree);
    ScheduleIsAcyclic(g, ordered);
    r := Ok(ordered);
  }
}
