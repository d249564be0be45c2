// The workflow graph of packages/agent_core/stage_graph.py and the order its
// first-in first-out worklist produces.
module StageGraph {
  import opened Wrappers
  import opened Digraph

  datatype StageNode = StageNode(stageName: string, dependsOn: seq<string>, parallelGroup: Option<string>)

  datatype Graph = Graph(nodes: seq<StageNode>)

  function Names(g: Graph): set<string> {
    set n | n in g.nodes :: n.stageName
  }

  function NameSeq(g: Graph): seq<string> {
    seq(|g.nodes|, i requires 0 <= i < |g.nodes| => g.nodes[i].stageName)
  }

  function EdgesOf(g: Graph): Edges {
    set n, d | n in g.nodes && d in n.dependsOn :: (d, n.stageName)
  }

  /** No two nodes carry the same stage name. */
  predicate DistinctNames(g: Graph) {
    NoDuplicates(NameSeq(g))
  }

  /** Every dependency names a stage of the graph. */
  predicate Closed(g: Graph) {
    forall n, d :: n in g.nodes && d in n.dependsOn ==> d in Names(g)
  }

  /** Position in `o` of the dependency of `x` that comes last, or -1 if `x` has none there. */
  ghost function LatestDependency(e: Edges, o: seq<string>, x: string): (p: int)
    ensures -1 <= p < |o|
    ensures p >= 0 ==> Edge(e, o[p], x)
    ensures forall q :: p < q < |o| ==> !Edge(e, o[q], x)
  {
    if |o| == 0 then -1
    else if Edge(e, o[|o| - 1], x) then |o| - 1
    else LatestDependency(e, o[..|o| - 1], x)
  }

  /** Position of the first occurrence of `x`. */
  ghost function IndexOf(s: seq<string>, x: string): (i: nat)
    requires x in s
    ensures i < |s| && s[i] == x && x !in s[..i]
  {
    if s[0] == x then 0 else 1 + IndexOf(s[1..], x)
  }

  /** `a` is released before `b`: its latest dependency was emitted earlier, or both were released
      by the same stage and `a` is defined first. */
  ghost predicate ReleasedBefore(g: Graph, o: seq<string>, a: string, b: string)
    requires a in NameSeq(g) && b in NameSeq(g)
  {
    var p, q := LatestDependency(EdgesOf(g), o, a), LatestDependency(EdgesOf(g), o, b);
    p < q || (p == q && IndexOf(NameSeq(g), a) < IndexOf(NameSeq(g), b))
  }

  /** Stages appear in the order in which a first-in first-out worklist releases them. */
  ghost predicate FifoOrdered(g: Graph, o: seq<string>) {
    && (forall x :: x in o ==> x in NameSeq(g))
    && (forall i, j {:trigger ReleasedBefore(g, o, o[i], o[j])} ::
         0 <= i < j < |o| ==> ReleasedBefore(g, o, o[i], o[j]))
  }

  /** The specification of the scheduler's order: a permutation of the stages, dependencies first,
      in release order.  `ScheduleIsUnique` shows that no two orders meet it. */
  ghost predicate IsSchedule(g: Graph, o: seq<string>) {
    && multiset(o) == multiset(NameSeq(g))
    && NoDuplicates(o)
    && DependenciesFirst(EdgesOf(g), o)
    && FifoOrdered(g, o)
  }

  lemma SameElements(a: seq<string>, b: seq<string>)
    requires multiset(a) == multiset(b)
    ensures Elements(a) == Elements(b) && |a| == |b|
  {
    assert |a| == |multiset(a)| && |b| == |multiset(b)|;
    forall x
      ensures x in a <==> x in b
    {
      assert x in a <==> x in multiset(a);
      assert x in b <==> x in multiset(b);
    }
  }

  /** A schedule exists only for an acyclic graph. */
  lemma ScheduleIsAcyclic(g: Graph, o: seq<string>)
    requires Closed(g) && IsSchedule(g, o)
    ensures Acyclic(EdgesOf(g))
  {
    SameElements(o, NameSeq(g));
    forall a, b | Edge(EdgesOf(g), a, b)
      ensures a in o
    {
      assert a in Names(g);
      var i :| 0 <= i < |g.nodes| && g.nodes[i].stageName == a;
      assert NameSeq(g)[i] == a;
      assert a in Elements(o);
    }
    OrderedIsAcyclic(EdgesOf(g), o);
  }

  // ---- Depth --------------------------------------------------------------

  /** Whatever `o[i]` waits for, a later `o[j]` waits for something at least as late. */
  ghost predicate WaitsLonger(e: Edges, o: seq<string>, i: nat, j: nat)
    requires i < |o| && j < |o|
  {
    forall p {:trigger Edge(e, o[p], o[i])} :: 0 <= p < i && Edge(e, o[p], o[i]) ==>
      exists q :: p <= q < j && Edge(e, o[q], o[j])
  }

  lemma FifoWaitsLonger(g: Graph, o: seq<string>, i: nat, j: nat)
    requires FifoOrdered(g, o) && DependenciesFirst(EdgesOf(g), o) && NoDuplicates(o) && i < j < |o|
    ensures WaitsLonger(EdgesOf(g), o, i, j)
  {
    var e := EdgesOf(g);
    var b := LatestDependency(e, o, o[j]);
    assert ReleasedBefore(g, o, o[i], o[j]);
    forall p | 0 <= p < i && Edge(e, o[p], o[i])
      ensures exists q :: p <= q < j && Edge(e, o[q], o[j])
    {
      assert p <= b && Edge(e, o[b], o[j]);
      assert o[b] in o[..j];
    }
  }

  lemma {:induction false} ChainCarriesOver(g: Graph, o: seq<string>, i: nat, j: nat, k: nat)
    requires FifoOrdered(g, o) && DependenciesFirst(EdgesOf(g), o) && NoDuplicates(o)
    requires i < j < |o| && HasChain(EdgesOf(g), o[i], k)
    ensures HasChain(EdgesOf(g), o[j], k)
    decreases k
  {
    if k > 0 {
      var p, q := ChainStep(g, o, i, j, k);
      if p < q {
        ChainCarriesOver(g, o, p, q, k - 1);
      }
      ChainExtends(EdgesOf(g), o[q], o[j], k);
    }
  }

  lemma ChainExtends(e: Edges, d: string, x: string, k: nat)
    requires k > 0 && Edge(e, d, x) && HasChain(e, d, k - 1)
    ensures HasChain(e, x, k)
  {
  }

  lemma ChainStep(g: Graph, o: seq<string>, i: nat, j: nat, k: nat) returns (p: nat, q: nat)
    requires FifoOrdered(g, o) && DependenciesFirst(EdgesOf(g), o) && NoDuplicates(o)
    requires i < j < |o| && k > 0 && HasChain(EdgesOf(g), o[i], k)
    ensures p <= q < j && HasChain(EdgesOf(g), o[p], k - 1) && Edge(EdgesOf(g), o[q], o[j])
  {
    var e := EdgesOf(g);
    var d :| Edge(e, d, o[i]) && HasChain(e, d, k - 1);
    p :| 0 <= p < i && o[p] == d;
    FifoWaitsLonger(g, o, i, j);
    q :| p <= q < j && Edge(e, o[q], o[j]);
  }

  /** The order is sorted by dependency depth: no stage precedes one of strictly smaller depth. */
  lemma SortedByDepth(g: Graph, o: seq<string>, i: nat, j: nat, ki: nat, kj: nat)
    requires IsSchedule(g, o) && i < j < |o|
    requires IsDepth(EdgesOf(g), o[i], ki) && IsDepth(EdgesOf(g), o[j], kj)
    ensures ki <= kj
  {
    ChainCarriesOver(g, o, i, j, ki);
    if kj < ki { ShorterChain(EdgesOf(g), o[j], ki, kj + 1); }
  }

  // ---- Uniqueness ---------------------------------------------------------

  /** Where a prefix holds every dependency of `x`, the rest of the order does not matter. */
  lemma {:induction false} LatestInPrefix(e: Edges, o: seq<string>, n: nat, x: string)
    requires n <= |o| && NoDuplicates(o)
    requires forall d :: Edge(e, d, x) ==> d in o[..n]
    ensures LatestDependency(e, o, x) == LatestDependency(e, o[..n], x)
  {
    if n == |o| {
      assert o[..n] == o;
    } else {
      var last := o[|o| - 1];
      assert last !in o[..n];
      assert !Edge(e, last, x);
      assert o[..|o| - 1][..n] == o[..n];
      LatestInPrefix(e, o[..|o| - 1], n, x);
    }
  }

  lemma OccursLater(o1: seq<string>, o2: seq<string>, n: nat) returns (j: nat)
    requires Elements(o1) == Elements(o2) && NoDuplicates(o1)
    requires n < |o1| && n < |o2| && o1[..n] == o2[..n] && o1[n] != o2[n]
    ensures n < j < |o2| && o2[j] == o1[n]
  {
    assert o1[n] in Elements(o2);
    j :| 0 <= j < |o2| && o2[j] == o1[n];
  }

  lemma SameNext(g: Graph, o1: seq<string>, o2: seq<string>, n: nat)
    requires IsSchedule(g, o1) && IsSchedule(g, o2)
    requires n < |o1| && n < |o2| && o1[..n] == o2[..n]
    ensures o1[n] == o2[n]
  {
    if o1[n] != o2[n] {
      var e := EdgesOf(g);
      SameElements(o1, NameSeq(g));
      SameElements(o2, NameSeq(g));
      var jx := OccursLater(o1, o2, n);
      var jy := OccursLater(o2, o1, n);
      LatestInPrefix(e, o1, n, o1[n]);
      LatestInPrefix(e, o1, n, o2[n]);
      LatestInPrefix(e, o2, n, o1[n]);
      LatestInPrefix(e, o2, n, o2[n]);
      var r1 := ReleasedBefore(g, o1, o1[n], o1[jy]);
      var r2 := ReleasedBefore(g, o2, o2[n], o2[jx]);
    }
  }

  lemma {:induction false} SamePrefix(g: Graph, o1: seq<string>, o2: seq<string>, n: nat)
    requires IsSchedule(g, o1) && IsSchedule(g, o2) && n <= |o1| && n <= |o2|
    ensures o1[..n] == o2[..n]
  {
    if n > 0 {
      SamePrefix(g, o1, o2, n - 1);
      SameNext(g, o1, o2, n - 1);
      assert o1[..n] == o1[..n - 1] + [o1[n - 1]];
      assert o2[..n] == o2[..n - 1] + [o2[n - 1]];
    }
  }

  /** At most one order is a schedule, so `IsSchedule` pins the result of the algorithm. */
  lemma ScheduleIsUnique(g: Graph, o1: seq<string>, o2: seq<string>)
    requires IsSchedule(g, o1) && IsSchedule(g, o2)
    ensures o1 == o2
  {
    SameElements(o1, NameSeq(g));
    SameElements(o2, NameSeq(g));
    SamePrefix(g, o1, o2, |o1|);
    assert o1[..|o1|] == o1 && o2[..|o2|] == o2;
  }
}
