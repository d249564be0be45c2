// What writing an arbitrary list of files does to a workspace, file by file, and what a replay adds, event by
// event: packages/compute/mesh_workspace_merge_legacy.py and mesh_event_replay_legacy.py.
module MeshApplied {
  import opened Wrappers
  import opened Utf8
  import opened WorkUnits
  import opened FileTree
  import opened PathText
  import opened MeshFiles
  import opened MeshReplay

  // ---- Files --------------------------------------------------------------

  /** The path is accepted, told from its characters. */
  ghost predicate Accepted(rel: string) {
    rel != "" && forall i: nat :: !ClimbsAt(rel, i)
  }

  /** The item writes the file `p` of a workspace at `root`. */
  ghost predicate WritesTo(root: Path, item: Item, p: Path) {
    Accepted(item.0) && Target(root, item.0) == Some(p)
  }

  ghost predicate LastWrites(root: Path, files: seq<Item>, j: int, p: Path) {
    && 0 <= j < |files| && WritesTo(root, files[j], p)
    && forall k :: j < k < |files| ==> !WritesTo(root, files[k], p)
  }

  lemma WritesIff(root: Path, item: Item, p: Path)
    ensures WritesTo(root, item, p) <==> IsSafeRelPath(item.0) && Target(root, item.0) == Some(p)
  {
    SafeIff(item.0);
  }

  lemma LastStays(root: Path, init: seq<Item>, last: Item, j: int, p: Path)
    requires LastWrites(root, init, j, p) && !WritesTo(root, last, p)
    ensures LastWrites(root, init + [last], j, p)
  {
    var files := init + [last];
    forall k | j < k < |files|
      ensures !WritesTo(root, files[k], p)
    {
      if k < |init| { assert files[k] == init[k]; }
    }
  }

  lemma WrittenMore(root: Path, init: seq<Item>, last: Item, p: Path)
    ensures var w, more := Written(root, init), Written(root, init + [last]);
            if WritesTo(root, last, p) then p in more && more[p] == Encode(last.1)
            else (p in more <==> p in w) && (p in w ==> more[p] == w[p])
  {
    assert (init + [last])[..|init|] == init;
    WritesIff(root, last, p);
  }

  /** The last item that writes the file, if one does. */
  ghost predicate Explained(root: Path, files: seq<Item>, p: Path) {
    if p in Written(root, files) then exists j :: LastWrites(root, files, j, p) && Written(root, files)[p] == Encode(files[j].1)
    else forall k :: 0 <= k < |files| ==> !WritesTo(root, files[k], p)
  }

  lemma ExplainedMore(root: Path, init: seq<Item>, last: Item, p: Path)
    requires Explained(root, init, p)
    ensures Explained(root, init + [last], p)
  {
    var files := init + [last];
    WrittenMore(root, init, last, p);
    if WritesTo(root, last, p) {
      assert LastWrites(root, files, |init|, p);
    } else if p in Written(root, init) {
      var j :| LastWrites(root, init, j, p) && Written(root, init)[p] == Encode(init[j].1);
      LastStays(root, init, last, j, p);
      assert files[j] == init[j];
    } else {
      forall k | 0 <= k < |files|
        ensures !WritesTo(root, files[k], p)
      {
        if k < |init| { assert files[k] == init[k]; }
      }
    }
  }

  lemma LastItem(files: seq<Item>)
    requires files != []
    ensures files[..|files| - 1] + [files[|files| - 1]] == files
  {
  }

  lemma {:induction false} WrittenAt(root: Path, files: seq<Item>, p: Path)
    ensures Explained(root, files, p)
  {
    if files != [] {
      WrittenAt(root, files[..|files| - 1], p);
      ExplainedMore(root, files[..|files| - 1], files[|files| - 1], p);
      LastItem(files);
    }
  }

  /** If nothing raises, a file of the workspace has the content of the last item that is accepted and leads to
      it, and without such an item it is as it was. */
  lemma AppliedAt(tree: Tree, files: seq<Item>, p: Path)
    requires Applied(tree, files).conflict.None?
    ensures var after := Applied(tree, files).tree.files;
            && (forall j :: LastWrites(tree.root, files, j, p) ==> p in after && after[p] == Encode(files[j].1))
            && ((forall k :: 0 <= k < |files| ==> !WritesTo(tree.root, files[k], p)) ==>
                  (p in after <==> p in tree.files) && (p in after ==> after[p] == tree.files[p]))
  {
    AppliedIsOverlay(tree, files);
    WrittenAt(tree.root, files, p);
    if p in Written(tree.root, files) {
      var j :| LastWrites(tree.root, files, j, p) && Written(tree.root, files)[p] == Encode(files[j].1);
      assert forall k :: LastWrites(tree.root, files, k, p) ==> k == j;
    }
  }

  /** It raises at the first accepted item whose file has no place by then; what was written before stays. */
  lemma {:induction false} RaisesAt(tree: Tree, files: seq<Item>) returns (i: nat)
    requires Applied(tree, files).conflict.Some?
    ensures i < |files| && Applied(tree, files[..i]).conflict.None?
    ensures var before, target := Applied(tree, files[..i]), Target(tree.root, files[i].0);
            && Accepted(files[i].0) && target.Some? && !Placeable(before.tree, target.value)
            && Applied(tree, files) == before.(conflict := Some(files[i].0))
  {
    var n := |files| - 1;
    if Applied(tree, files[..n]).conflict.Some? {
      i := RaisesAt(tree, files[..n]);
      assert files[..n][..i] == files[..i];
    } else {
      i := n;
      SafeIff(files[n].0);
      AppliedIsOverlay(tree, files[..n]);
    }
  }

  /** The reported paths: those of the accepted items, in order. */
  lemma {:induction false} ReportedPaths(files: seq<Item>, more: Item)
    ensures SafePaths(files + [more]) == SafePaths(files) + if Accepted(more.0) then [more.0] else []
  {
    assert (files + [more])[..|files|] == files;
    SafeIff(more.0);
  }

  // ---- Events -------------------------------------------------------------

  /** Event `i` of the batch has a usable id that the log does not know and no event before it has. */
  predicate IsNew(existing: set<string>, raws: seq<RawEvent>, i: int) {
    && 0 <= i < |raws| && raws[i].Mapping? && raws[i].eventId != "" && raws[i].eventId !in existing
    && forall k :: 0 <= k < i ==> !(raws[k].Mapping? && raws[k].eventId == raws[i].eventId)
  }

  lemma IdsOfNew(existing: set<string>, raws: seq<RawEvent>, id: string)
    requires id != "" && id !in existing
    ensures id in Ids(NewEvents(existing, raws)) <==> exists k :: 0 <= k < |raws| && raws[k].Mapping? && raws[k].eventId == id
  {
    NewEventsAre(existing, raws);
    if k :| 0 <= k < |raws| && raws[k].Mapping? && raws[k].eventId == id {
      assert raws[k] in raws && Replayable(raws[k]);
    }
  }

  lemma LastIsNew(existing: set<string>, raws: seq<RawEvent>)
    requires raws != []
    ensures var init, last := raws[..|raws| - 1], raws[|raws| - 1];
            NewEvents(existing, raws) ==
            NewEvents(existing, init) + if IsNew(existing, raws, |raws| - 1) then [Event(last.eventId, last.body)] else []
  {
    var init, last := raws[..|raws| - 1], raws[|raws| - 1];
    if Replayable(last) && last.eventId !in existing {
      IdsOfNew(existing, init, last.eventId);
      assert forall k :: 0 <= k < |init| ==> init[k] == raws[k];
    }
  }

  /** Their numbers in the batch. */
  function NewAt(existing: set<string>, raws: seq<RawEvent>): seq<nat> {
    if raws == [] then []
    else NewAt(existing, raws[..|raws| - 1]) + if IsNew(existing, raws, |raws| - 1) then [|raws| - 1] else []
  }

  lemma NewBefore(existing: set<string>, raws: seq<RawEvent>, i: int)
    requires raws != [] && i < |raws| - 1
    ensures IsNew(existing, raws, i) <==> IsNew(existing, raws[..|raws| - 1], i)
  {
    var init := raws[..|raws| - 1];
    assert forall k :: 0 <= k < |init| ==> init[k] == raws[k];
  }

  lemma {:induction false} NewAtIs(existing: set<string>, raws: seq<RawEvent>, i: nat)
    requires i < |raws|
    ensures forall k :: 0 <= k < |NewAt(existing, raws)| ==> NewAt(existing, raws)[k] < |raws|
    ensures i in NewAt(existing, raws) <==> IsNew(existing, raws, i)
  {
    var n := |raws| - 1;
    if n > 0 { NewAtIs(existing, raws[..n], if i < n then i else 0); }
    if i < n { NewBefore(existing, raws, i); }
  }

  /** A replay appends, in the order of the batch, the first event of every usable id the log does not know. */
  lemma {:induction false} ReplayedAt(existing: set<string>, raws: seq<RawEvent>)
    ensures var at, added := NewAt(existing, raws), NewEvents(existing, raws);
            && |at| == |added|
            && (forall k :: 0 <= k < |at| ==> at[k] < |raws| && raws[at[k]].Mapping? &&
                                              added[k] == Event(raws[at[k]].eventId, raws[at[k]].body))
            && forall k, l :: 0 <= k < l < |at| ==> at[k] < at[l]
  {
    if raws != [] {
      ReplayedAt(existing, raws[..|raws| - 1]);
      LastIsNew(existing, raws);
    }
  }
}
