// Finite dependency graphs: paths, cycles and chain length, independent of how
// a scheduler walks them.
module Digraph {

  /** (dependency, dependent) pairs. */
  type Edges = set<(string, string)>

  function Elements(s: seq<string>): set<string> {
    set x | x in s
  }

  predicate NoDuplicates(s: seq<string>) {
    forall i, j :: 0 <= i < j < |s| ==> s[i] != s[j]
  }

  predicate Edge(e: Edges, dep: string, name: string) {
    (dep, name) in e
  }

  /** A walk along edges, from a dependency towards its dependents. */
  ghost predicate IsPath(e: Edges, p: seq<string>) {
    |p| > 0 && forall i, j :: 0 <= i && j == i + 1 && j < |p| ==> Edge(e, p[i], p[j])
  }

  ghost predicate IsCycle(e: Edges, p: seq<string>) {
    IsPath(e, p) && |p| >= 2 && p[0] == p[|p| - 1]
  }

  ghost predicate Acyclic(e: Edges) {
    forall p :: !IsCycle(e, p)
  }

  ghost predicate IsPathBetween(e: Edges, p: seq<string>, a: string, b: string) {
    IsPath(e, p) && |p| >= 2 && p[0] == a && p[|p| - 1] == b
  }

  /** `b` depends on `a` through one or more edges. */
  ghost predicate Reaches(e: Edges, a: string, b: string) {
    exists p :: IsPathBetween(e, p, a, b)
  }

  /** There is a chain of `k` edges that ends in `x`. */
  ghost predicate HasChain(e: Edges, x: string, k: nat)
    decreases k
  {
    k == 0 || exists d :: Edge(e, d, x) && HasChain(e, d, k - 1)
  }

  /** The longest chain that ends in `x` has `k` edges. */
  ghost predicate IsDepth(e: Edges, x: string, k: nat) {
    HasChain(e, x, k) && !HasChain(e, x, k + 1)
  }

  ghost predicate HasDependencyIn(e: Edges, u: set<string>, x: string) {
    exists d :: d in u && Edge(e, d, x)
  }

  /** Every element comes after all of its dependencies. */
  ghost predicate DependenciesFirst(e: Edges, o: seq<string>) {
    forall j, d :: 0 <= j < |o| && Edge(e, d, o[j]) ==> d in o[..j]
  }

  lemma SubPath(e: Edges, p: seq<string>, i: nat, j: nat)
    requires IsPath(e, p) && i < j <= |p|
    ensures IsPath(e, p[i..j])
  {
    var q := p[i..j];
    forall s, t | 0 <= s && t == s + 1 && t < |q|
      ensures Edge(e, q[s], q[t])
    {
      assert q[s] == p[i + s] && q[t] == p[i + t];
    }
  }

  lemma JoinPaths(e: Edges, p: seq<string>, q: seq<string>)
    requires IsPath(e, p) && IsPath(e, q) && p[|p| - 1] == q[0]
    ensures IsPath(e, p + q[1..])
  {
    var r := p + q[1..];
    forall s, t | 0 <= s && t == s + 1 && t < |r|
      ensures Edge(e, r[s], r[t])
    {
      if t < |p| {
        assert r[s] == p[s] && r[t] == p[t];
      } else {
        assert r[s] == q[s - |p| + 1] && r[t] == q[t - |p| + 1];
      }
    }
  }

  /** Reachability is transitive. */
  lemma ReachesTransitive(e: Edges, a: string, b: string, c: string)
    requires Reaches(e, a, b) && Reaches(e, b, c)
    ensures Reaches(e, a, c)
  {
    var p :| IsPathBetween(e, p, a, b);
    var q :| IsPathBetween(e, q, b, c);
    JoinPaths(e, p, q);
    assert IsPathBetween(e, p + q[1..], a, c);
  }

  lemma EdgeReaches(e: Edges, a: string, b: string)
    requires Edge(e, a, b)
    ensures Reaches(e, a, b)
  {
    assert IsPathBetween(e, [a, b], a, b);
  }

  /** An order with dependencies first strictly ascends along every path. */
  lemma {:induction false} PathAscends(e: Edges, o: seq<string>, p: seq<string>, i: nat, j: nat)
    requires NoDuplicates(o) && DependenciesFirst(e, o)
    requires i < |o| && j < |o| && IsPathBetween(e, p, o[i], o[j])
    ensures i < j
    decreases |p|
  {
    var d := p[|p| - 2];
    assert Edge(e, d, o[j]);
    var k :| 0 <= k < j && o[k] == d;
    if |p| > 2 {
      SubPath(e, p, 0, |p| - 1);
      PathAscends(e, o, p[0..|p| - 1], i, k);
    }
  }

  /** A graph that has an order with dependencies first is acyclic. */
  lemma OrderedIsAcyclic(e: Edges, o: seq<string>)
    requires NoDuplicates(o) && DependenciesFirst(e, o)
    requires forall a, b :: Edge(e, a, b) ==> a in o
    ensures Acyclic(e)
  {
    forall p
      ensures !IsCycle(e, p)
    {
      if IsCycle(e, p) {
        assert Edge(e, p[0], p[1]);
        var i :| 0 <= i < |o| && o[i] == p[0];
        PathAscends(e, o, p, i, i);
      }
    }
  }

  lemma {:induction false} NoDuplicatesBound(s: seq<string>, u: set<string>)
    requires NoDuplicates(s) && Elements(s) <= u
    ensures |s| <= |u|
    ensures |s| == |u| ==> Elements(s) == u
  {
    if |s| == 0 {
    } else {
      var x, rest := s[0], s[1..];
      assert Elements(s) == {x} + Elements(rest);
      assert x !in Elements(rest);
      NoDuplicatesBound(rest, u - {x});
    }
  }

  lemma PrependToPath(e: Edges, d: string, p: seq<string>)
    requires IsPath(e, p) && Edge(e, d, p[0])
    ensures IsPath(e, [d] + p)
  {
    var q := [d] + p;
    forall s, t | 0 <= s && t == s + 1 && t < |q|
      ensures Edge(e, q[s], q[t])
    {
      if s > 0 { assert q[s] == p[s - 1] && q[t] == p[t - 1]; }
    }
  }

  /** Walking from stage to dependency inside a set that always offers one must repeat a stage. */
  lemma {:induction false} FindCycle(e: Edges, u: set<string>, p: seq<string>) returns (c: seq<string>)
    requires forall x {:trigger HasDependencyIn(e, u, x)} :: x in u ==> HasDependencyIn(e, u, x)
    requires IsPath(e, p) && NoDuplicates(p) && Elements(p) <= u
    ensures IsCycle(e, c)
    decreases |u| - |p|
  {
    NoDuplicatesBound(p, u);
    assert p[0] in Elements(p);
    assert HasDependencyIn(e, u, p[0]);
    var d :| d in u && Edge(e, d, p[0]);
    PrependToPath(e, d, p);
    var q := [d] + p;
    if d in p {
      var i :| 0 <= i < |p| && p[i] == d;
      c := q[0..i + 2];
      SubPath(e, q, 0, i + 2);
    } else {
      assert Elements(q) == {d} + Elements(p);
      NoDuplicatesBound(q, u);
      c := FindCycle(e, u, q);
    }
  }

  /** A non-empty set in which everything has a dependency contains a cycle. */
  lemma StuckSetHasCycle(e: Edges, u: set<string>)
    requires u != {}
    requires forall x {:trigger HasDependencyIn(e, u, x)} :: x in u ==> HasDependencyIn(e, u, x)
    ensures !Acyclic(e)
  {
    var x :| x in u;
    assert Elements([x]) <= u;
    var c := FindCycle(e, u, [x]);
    assert IsCycle(e, c);
  }

  // ---- Depth --------------------------------------------------------------

  lemma {:induction false} ShorterChain(e: Edges, x: string, k: nat, m: nat)
    requires HasChain(e, x, k) && m <= k
    ensures HasChain(e, x, m)
    decreases m
  {
    if m > 0 {
      var d :| Edge(e, d, x) && HasChain(e, d, k - 1);
      ShorterChain(e, d, k - 1, m - 1);
    }
  }

  lemma {:induction false} ChainIsPath(e: Edges, x: string, k: nat) returns (p: seq<string>)
    requires HasChain(e, x, k)
    ensures IsPath(e, p) && |p| == k + 1 && p[k] == x
    decreases k
  {
    if k == 0 {
      p := [x];
    } else {
      var d :| Edge(e, d, x) && HasChain(e, d, k - 1);
      var q := ChainIsPath(e, d, k - 1);
      JoinPaths(e, q, [d, x]);
      p := q + [d, x][1..];
    }
  }

  /** In an acyclic graph every chain visits different nodes, so its length is bounded. */
  lemma ChainBound(e: Edges, v: set<string>, x: string)
    requires Acyclic(e) && x in v && forall a, b :: Edge(e, a, b) ==> a in v
    ensures !HasChain(e, x, |v|)
  {
    if HasChain(e, x, |v|) {
      var p := ChainIsPath(e, x, |v|);
      forall i | 0 <= i < |p|
        ensures p[i] in v
      {
        if i < |p| - 1 { assert Edge(e, p[i], p[i + 1]); }
      }
      assert Elements(p) <= v;
      forall i, j | 0 <= i < j < |p|
        ensures p[i] != p[j]
      {
        SubPath(e, p, i, j + 1);
        assert !IsCycle(e, p[i..j + 1]);
      }
      NoDuplicatesBound(p, v);
    }
  }

  lemma {:induction false} SearchDepth(e: Edges, x: string, lo: nat, hi: nat) returns (k: nat)
    requires lo <= hi && HasChain(e, x, lo) && !HasChain(e, x, hi)
    ensures IsDepth(e, x, k)
    decreases hi - lo
  {
    if HasChain(e, x, lo + 1) {
      k := SearchDepth(e, x, lo + 1, hi);
    } else {
      k := lo;
    }
  }

  lemma DepthUnique(e: Edges, x: string, k: nat, m: nat)
    requires IsDepth(e, x, k) && IsDepth(e, x, m)
    ensures k == m
  {
    if k < m { ShorterChain(e, x, m, k + 1); }
    if m < k { ShorterChain(e, x, k, m + 1); }
  }

  /** Depth is well defined: every node of an acyclic graph has exactly one. */
  lemma DepthExists(e: Edges, v: set<string>, x: string) returns (k: nat)
    requires Acyclic(e) && x in v && forall a, b :: Edge(e, a, b) ==> a in v
    ensures IsDepth(e, x, k) && forall m :: IsDepth(e, x, m) ==> m == k
  {
    ChainBound(e, v, x);
    k := SearchDepth(e, x, 0, |v|);
    forall m | IsDepth(e, x, m)
      ensures m == k
    {
      DepthUnique(e, x, k, m);
    }
  }
}
