// Reading a snapshot whose names carry white space: packages/agent_core/stage_graph.py strips them everywhere.
module SnapshotText {
  import opened Wrappers
  import opened Text
  import opened Digraph
  import opened StageGraph
  import opened StageOrder
  import opened StageSnapshot

  /** `name` is what the raw text names, white space apart. */
  ghost predicate NamedBy(raw: string, name: string) {
    name != "" && Trimmed(name) && Around(raw, name)
  }

  lemma NamedIff(raw: string, name: string)
    requires name != ""
    ensures NamedBy(raw, name) <==> Strip(raw) == name
  {
    var a, b := StripParts(raw);
    if Trimmed(name) { StripIff(raw, name); }
  }

  /** One text of a recorded group gives the member it names, or none if it is blank. */
  lemma OneMember(r: string)
    ensures if AllSpace(r) then CleanUp([r]) == [] else |CleanUp([r])| == 1 && NamedBy(r, CleanUp([r])[0])
  {
    assert [r][1..] == [];
    BlankIff(r);
    if Strip(r) != "" { NamedIff(r, Strip(r)); }
  }

  /** The members of a recorded group come one text at a time, in their order: see `OneMember`. */
  lemma {:induction false} MembersAreNamed(a: seq<string>, b: seq<string>)
    ensures CleanUp(a + b) == CleanUp(a) + CleanUp(b)
  {
    if a == [] {
      assert a + b == b;
    } else {
      assert (a + b)[1..] == a[1..] + b;
      MembersAreNamed(a[1..], b);
    }
  }

  lemma {:induction false} MemberIff(raw: seq<string>, name: string)
    ensures name in CleanUp(raw) <==> exists r :: r in raw && NamedBy(r, name)
  {
    if raw != [] {
      MemberIff(raw[1..], name);
      assert raw == [raw[0]] + raw[1..];
      if name != "" { NamedIff(raw[0], name); }
    }
  }

  /** Entry `j` is the last one of that name. */
  ghost predicate LastNamed(nodes: seq<NodeEntry>, j: int, name: string) {
    && 0 <= j < |nodes| && NamedBy(nodes[j].stageName, name)
    && forall k :: j < k < |nodes| ==> !NamedBy(nodes[k].stageName, name)
  }

  lemma {:induction false} FoundIsLast(nodes: seq<NodeEntry>, i: nat, name: string)
    requires i <= |nodes| && forall k :: i <= k < |nodes| ==> !NamedBy(nodes[k].stageName, name)
    ensures var found := FindEntry(nodes, i, name);
            && (found.None? ==> forall j :: 0 <= j < |nodes| ==> !NamedBy(nodes[j].stageName, name))
            && (found.Some? ==> exists j :: LastNamed(nodes, j, name) && found.value == nodes[j])
  {
    if i > 0 && name != "" {
      NamedIff(nodes[i - 1].stageName, name);
      if Strip(nodes[i - 1].stageName) == name {
        assert LastNamed(nodes, i - 1, name);
      } else {
        FoundIsLast(nodes, i - 1, name);
      }
    }
  }

  /** The lookup of a name gives the last entry whose text names it, and nothing if there is none. */
  lemma LookupIs(nodes: seq<NodeEntry>, name: string, j: nat)
    ensures LastNamed(nodes, j, name) ==> FindEntry(nodes, |nodes|, name) == Some(nodes[j])
    ensures (forall k :: 0 <= k < |nodes| ==> !NamedBy(nodes[k].stageName, name)) ==> FindEntry(nodes, |nodes|, name) == None
  {
    FoundIsLast(nodes, |nodes|, name);
    var found := FindEntry(nodes, |nodes|, name);
    if found.Some? {
      var k :| LastNamed(nodes, k, name) && found.value == nodes[k];
      assert LastNamed(nodes, j, name) ==> j == k;
    }
  }

  /** Everything that the last entry of that name says it depends on is completed. */
  ghost predicate Met(nodes: seq<NodeEntry>, name: string, completed: set<string>) {
    forall j, d, x :: LastNamed(nodes, j, name) && d in nodes[j].dependsOn && NamedBy(d, x) ==> x in completed
  }

  lemma MetIff(nodes: seq<NodeEntry>, name: string, completed: set<string>)
    ensures DependenciesMet(nodes, name, completed) <==> Met(nodes, name, completed)
  {
    FoundIsLast(nodes, |nodes|, name);
    var found := FindEntry(nodes, |nodes|, name);
    if found.Some? {
      var j :| LastNamed(nodes, j, name) && found.value == nodes[j];
      forall k | LastNamed(nodes, k, name)
        ensures k == j
      {
      }
      forall d | d in nodes[j].dependsOn
        ensures (Strip(d) == "" || Strip(d) in completed) <==> forall x :: NamedBy(d, x) ==> x in completed
      {
        NamedOnly(d);
      }
    }
  }

  /** A text names what stripping leaves of it, and nothing if that is empty. */
  lemma NamedOnly(d: string)
    ensures forall x :: NamedBy(d, x) <==> x != "" && Strip(d) == x
  {
    forall x
      ensures NamedBy(d, x) <==> x != "" && Strip(d) == x
    {
      if x != "" { NamedIff(d, x); }
    }
  }

  /** A group is ready, in any snapshot, exactly when some text in its list is not blank, and for everything the
      texts name, whatever the last entry of that name depends on is completed. */
  lemma ReadyIff(s: Snapshot, completed: set<string>, group: string)
    ensures Ready(s, completed, group) <==>
            && group in s.parallelGroups && (exists r :: r in s.parallelGroups[group] && !AllSpace(r))
            && forall r, name :: r in s.parallelGroups[group] && NamedBy(r, name) ==> Met(s.nodes, name, completed)
  {
    if group in s.parallelGroups {
      var raw, members := s.parallelGroups[group], ParallelGroupMembers(s, group);
      forall name
        ensures name in members <==> exists r :: r in raw && NamedBy(r, name)
        ensures DependenciesMet(s.nodes, name, completed) <==> Met(s.nodes, name, completed)
      {
        MemberIff(raw, name);
        MetIff(s.nodes, name, completed);
      }
      if r :| r in raw && !AllSpace(r) {
        BlankIff(r);
        NamedIff(r, Strip(r));
        assert Strip(r) in members;
      }
      if members != [] {
        assert members[0] in members;
        var r :| r in raw && NamedBy(r, members[0]);
        NamedIff(r, members[0]);
        BlankIff(r);
      }
    }
  }
}
