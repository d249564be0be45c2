// Carrying a worker's file changes to the host:
// packages/compute/mesh_workspace_merge_legacy.py.
module MeshFiles {
  import opened Wrappers
  import opened Utf8
  import opened FileTree

  const MAX_PATCH_BYTES: int := 400_000

  /** One item of a dict from paths to digests or to text. */
  type Item = (string, string)

  /** No part of the path starts with a dot. */
  predicate Visible(p: Path) {
    forall part :: part in p ==> part == "" || part[0] != '.'
  }

  // ---- Digests ------------------------------------------------------------

  /** A digest that tells different contents apart. */
  ghost predicate Injective(digest: seq<Byte> -> string) {
    forall a, b :: digest(a) == digest(b) ==> a == b
  }

  /** A list of files of the tree. */
  predicate ListsFiles(tree: Tree, listing: seq<Path>) {
    forall p :: p in listing ==> p in tree.files
  }

  function DigestItems(tree: Tree, listing: seq<Path>, digest: seq<Byte> -> string): seq<Item>
    requires ListsFiles(tree, listing)
  {
    if listing == [] then []
    else
      var init, last := listing[..|listing| - 1], listing[|listing| - 1];
      if Visible(last) then DigestItems(tree, init, digest) + [(Posix(last), digest(tree.files[last]))]
      else DigestItems(tree, init, digest)
  }

  /** `listing` is the order in which the directory walk meets the files. */
  method WorkspaceFileDigests(tree: Tree, listing: seq<Path>, digest: seq<Byte> -> string) returns (items: seq<Item>)
    requires ListsFiles(tree, listing)
    ensures items == DigestItems(tree, listing, digest)
  {
    items := [];
    for i := 0 to |listing|
      invariant items == DigestItems(tree, listing[..i], digest)
    {
      assert listing[..i + 1][..i] == listing[..i];
      if !Visible(listing[i]) {
        continue;
      }
      items := items + [(Posix(listing[i]), digest(tree.files[listing[i]]))];
    }
    assert listing[..|listing|] == listing;
  }

  /** The dict with these items. */
  function DictOf(items: seq<Item>): map<string, string> {
    if items == [] then map[] else DictOf(items[..|items| - 1])[items[|items| - 1].0 := items[|items| - 1].1]
  }

  // ---- Diff ---------------------------------------------------------------

  predicate Unchanged(before: map<string, string>, item: Item) {
    item.0 in before && before[item.0] == item.1
  }

  /** What the loop does with one item. */
  datatype Verdict = Skip | Stop | Take(text: string, size: nat)

  function Judged(before: map<string, string>, item: Item, ws: Tree, maxBytes: int, total: nat): Verdict {
    var raw := ReadAt(ws, item.0);
    if !IsSafeRelPath(item.0) || Unchanged(before, item) || raw.None? then Skip
    else if total + |raw.value| > maxBytes then Stop
    else
      var text := Decode(raw.value);
      if text.None? then Skip else Take(text.value, |raw.value|)
  }

  /** The patch: changed, safe, existing files in order, until one would exceed the budget; files that
      are not UTF-8 are passed over. */
  function Patch(before: map<string, string>, after: seq<Item>, ws: Tree, maxBytes: int, total: nat): seq<Item>
    decreases |after|
  {
    if after == [] then []
    else
      match Judged(before, after[0], ws, maxBytes, total)
      case Skip => Patch(before, after[1..], ws, maxBytes, total)
      case Stop => []
      case Take(text, size) => [(after[0].0, text)] + Patch(before, after[1..], ws, maxBytes, total + size)
  }

  method Judge(before: map<string, string>, item: Item, ws: Tree, maxBytes: int, total: nat) returns (v: Verdict)
    ensures v == Judged(before, item, ws, maxBytes, total)
  {
    if !IsSafeRelPath(item.0) || Unchanged(before, item) {
      return Skip;
    }
    var raw := ReadAt(ws, item.0);
    if raw.None? {
      return Skip;
    }
    if total + |raw.value| > maxBytes {
      return Stop;
    }
    var text := Decode(raw.value);
    if text.None? {
      return Skip;
    }
    v := Take(text.value, |raw.value|);
  }

  /** One turn of the loop, with `changed` collected so far. */
  lemma PatchAt(before: map<string, string>, after: seq<Item>, i: nat, ws: Tree, maxBytes: int, total: nat, changed: seq<Item>)
    requires i < |after|
    ensures changed + Patch(before, after[i..], ws, maxBytes, total) ==
            match Judged(before, after[i], ws, maxBytes, total)
            case Skip => changed + Patch(before, after[i + 1..], ws, maxBytes, total)
            case Stop => changed
            case Take(text, size) => (changed + [(after[i].0, text)]) + Patch(before, after[i + 1..], ws, maxBytes, total + size)
  {
    assert after[i..][0] == after[i] && after[i..][1..] == after[i + 1..];
  }

  method DiffTurn(before: map<string, string>, after: seq<Item>, i: nat, ws: Tree, maxBytes: int, total0: nat, changed0: seq<Item>)
    returns (stop: bool, total: nat, changed: seq<Item>)
    requires i < |after|
    ensures changed0 + Patch(before, after[i..], ws, maxBytes, total0) ==
            if stop then changed else changed + Patch(before, after[i + 1..], ws, maxBytes, total)
  {
    PatchAt(before, after, i, ws, maxBytes, total0, changed0);
    var v := Judge(before, after[i], ws, maxBytes, total0);
    stop, total, changed := v.Stop?, total0, changed0;
    if v.Take? {
      total, changed := total0 + v.size, changed0 + [(after[i].0, v.text)];
    }
  }

  method DiffWorkspaceFiles(before: map<string, string>, after: seq<Item>, ws: Tree, maxBytes: int) returns (changed: seq<Item>)
    ensures changed == Patch(before, after, ws, maxBytes, 0)
  {
    changed := [];
    var total: nat := 0;
    ghost var patch := Patch(before, after, ws, maxBytes, 0);
    assert after[0..] == after;
    for i := 0 to |after|
      invariant patch == changed + Patch(before, after[i..], ws, maxBytes, total)
    {
      var stop;
      stop, total, changed := DiffTurn(before, after, i, ws, maxBytes, total, changed);
      if stop {
        return;
      }
    }
    assert after[|after|..] == [];
  }

  /** Bytes of content a patch carries. */
  function PatchBytes(patch: seq<Item>): nat {
    if patch == [] then 0 else |Encode(patch[0].1)| + PatchBytes(patch[1..])
  }

  /** A patch never carries more than the budget. */
  lemma {:induction false} PatchWithinBudget(before: map<string, string>, after: seq<Item>, ws: Tree, maxBytes: int, total: nat)
    ensures var patch := Patch(before, after, ws, maxBytes, total);
            patch != [] ==> total + PatchBytes(patch) <= maxBytes
    decreases |after|
  {
    if after != [] {
      match Judged(before, after[0], ws, maxBytes, total)
      case Skip => PatchWithinBudget(before, after[1..], ws, maxBytes, total);
      case Stop =>
      case Take(text, size) =>
        PatchWithinBudget(before, after[1..], ws, maxBytes, total + size);
        DecodeThenEncode(ReadAt(ws, after[0].0).value);
    }
  }

  /** Every item of a patch is a safe, changed file of the workspace with its whole content. */
  lemma {:induction false} PatchItem(before: map<string, string>, after: seq<Item>, ws: Tree, maxBytes: int, total: nat, item: Item)
    requires item in Patch(before, after, ws, maxBytes, total)
    ensures IsSafeRelPath(item.0) && ReadAt(ws, item.0) == Some(Encode(item.1))
    ensures exists k :: 0 <= k < |after| && after[k].0 == item.0 && !Unchanged(before, after[k])
    decreases |after|
  {
    var v := Judged(before, after[0], ws, maxBytes, total);
    if v.Take? && item == (after[0].0, v.text) {
      DecodeThenEncode(ReadAt(ws, after[0].0).value);
      assert after[0].0 == item.0;
    } else {
      PatchItem(before, after[1..], ws, maxBytes, if v.Take? then total + v.size else total, item);
      var k :| 0 <= k < |after[1..]| && after[1..][k].0 == item.0 && !Unchanged(before, after[1..][k]);
      assert after[k + 1].0 == item.0;
    }
  }

  // ---- Apply --------------------------------------------------------------

  /** The tree so far, the paths written so far, and the path at which writing raised, if it did. */
  datatype Applying = Applying(tree: Tree, applied: seq<string>, conflict: Option<string>)

  /** One item: an unsafe path is skipped; a path outside the workspace leaves the tree alone; a file that
      stands where a directory is needed, or the reverse, raises and changes nothing. */
  function ApplyOne(a: Applying, item: Item): Applying {
    var target := Target(a.tree.root, item.0);
    if !IsSafeRelPath(item.0) then a
    else if target.None? then a.(applied := a.applied + [item.0])
    else if Placeable(a.tree, target.value) then
      Applying(Place(a.tree, target.value, Encode(item.1)), a.applied + [item.0], a.conflict)
    else a.(conflict := Some(item.0))
  }

  function Applied(tree: Tree, files: seq<Item>): Applying {
    if files == [] then Applying(tree, [], None)
    else
      var a := Applied(tree, files[..|files| - 1]);
      if a.conflict.Some? then a else ApplyOne(a, files[|files| - 1])
  }

  class Workspace {
    var tree: Tree

    constructor (tree: Tree)
      ensures this.tree == tree
    {
      this.tree := tree;
    }

    /** `target.parent.mkdir(parents=True, exist_ok=True)` and `target.write_text(content)`. */
    method WriteText(target: Path, content: string) returns (ok: bool)
      modifies this
      ensures ok == Placeable(old(tree), target)
      ensures tree == if ok then Place(old(tree), target, Encode(content)) else old(tree)
    {
      ok := Placeable(tree, target);
      if ok {
        tree := Place(tree, target, Encode(content));
      }
    }

    /** The paths written, or the first path at which writing raises; what was written before it stays. */
    method ApplyWorkspaceFiles(files: seq<Item>) returns (r: Result<seq<string>, string>)
      modifies this
      ensures tree == Applied(old(tree), files).tree
      ensures r == match Applied(old(tree), files).conflict
                   case Some(rel) => Err(rel)
                   case None => Ok(Applied(old(tree), files).applied)
    {
      var applied: seq<string> := [];
      for i := 0 to |files|
        invariant Applied(old(tree), files[..i]) == Applying(tree, applied, None)
      {
        assert files[..i + 1][..i] == files[..i];
        if !IsSafeRelPath(files[i].0) {
          continue;
        }
        var target := Target(tree.root, files[i].0);
        if target.Some? {
          var ok := WriteText(target.value, files[i].1);
          if !ok {
            ConflictSticks(old(tree), files[..i + 1], files[i + 1..]);
            assert files[..i + 1] + files[i + 1..] == files;
            return Err(files[i].0);
          }
        }
        applied := applied + [files[i].0];
      }
      assert files[..|files|] == files;
      r := Ok(applied);
    }
  }

  lemma {:induction false} ConflictSticks(tree: Tree, a: seq<Item>, b: seq<Item>)
    requires Applied(tree, a).conflict.Some?
    ensures Applied(tree, a + b) == Applied(tree, a)
  {
    if b == [] {
      assert a + b == a;
    } else {
      assert (a + b)[..|a + b| - 1] == a + b[..|b| - 1];
      ConflictSticks(tree, a, b[..|b| - 1]);
    }
  }

  // ---- What applying does -------------------------------------------------

  lemma {:induction false} AppliedStaysWell(tree: Tree, files: seq<Item>)
    requires WellFormed(tree)
    ensures WellFormed(Applied(tree, files).tree) && Applied(tree, files).tree.root == tree.root
  {
    if files != [] {
      AppliedStaysWell(tree, files[..|files| - 1]);
      var a, item := Applied(tree, files[..|files| - 1]), files[|files| - 1];
      var target := Target(tree.root, item.0);
      if target.Some? && Placeable(a.tree, target.value) {
        PlaceStaysWell(a.tree, target.value, Encode(item.1));
      }
    }
  }

  /** What the items write below the workspace when nothing raises. */
  function Written(root: Path, files: seq<Item>): map<Path, seq<Byte>> {
    if files == [] then map[]
    else
      var before, item := Written(root, files[..|files| - 1]), files[|files| - 1];
      var target := Target(root, item.0);
      if IsSafeRelPath(item.0) && target.Some? then before[target.value := Encode(item.1)] else before
  }

  /** The safe paths among the items. */
  function SafePaths(files: seq<Item>): seq<string> {
    if files == [] then []
    else if IsSafeRelPath(files[|files| - 1].0) then SafePaths(files[..|files| - 1]) + [files[|files| - 1].0]
    else SafePaths(files[..|files| - 1])
  }

  /** Directories above any of the paths. */
  function AllAbove(paths: set<Path>): set<Path> {
    set p, q | p in paths && q in Above(p) :: q
  }

  lemma AllAboveOne(paths: set<Path>, p: Path)
    ensures AllAbove(paths + {p}) == AllAbove(paths) + Above(p)
  {
  }

  /** The tree with more files, and the directories these need. */
  function Overlaid(tree: Tree, w: map<Path, seq<Byte>>): Tree {
    tree.(files := tree.files + w, dirs := tree.dirs + AllAbove(w.Keys))
  }

  lemma PlaceOverlaid(tree: Tree, w: map<Path, seq<Byte>>, p: Path, content: seq<Byte>)
    ensures Place(Overlaid(tree, w), p, content) == Overlaid(tree, w[p := content])
  {
    AllAboveOne(w.Keys, p);
    assert w[p := content].Keys == w.Keys + {p};
    assert (tree.files + w)[p := content] == tree.files + w[p := content];
  }

  /** Without a conflict the tree is overlaid with what the items write. */
  lemma {:induction false} AppliedIsOverlay(tree: Tree, files: seq<Item>)
    requires Applied(tree, files).conflict.None?
    ensures Applied(tree, files) == Applying(Overlaid(tree, Written(tree.root, files)), SafePaths(files), None)
  {
    if files != [] {
      var init, item := files[..|files| - 1], files[|files| - 1];
      AppliedIsOverlay(tree, init);
      var target := Target(tree.root, item.0);
      if IsSafeRelPath(item.0) && target.Some? {
        PlaceOverlaid(tree, Written(tree.root, init), target.value, Encode(item.1));
      }
    } else {
      assert AllAbove({}) == {};
      assert Overlaid(tree, map[]) == tree;
    }
  }

  /** Files that are all there can be written again. */
  lemma {:induction false} ThereIsNoConflict(tree: Tree, files: seq<Item>)
    requires WellFormed(tree) && Written(tree.root, files).Keys <= tree.files.Keys
    ensures Applied(tree, files).conflict.None?
  {
    if files != [] {
      var init, item := files[..|files| - 1], files[|files| - 1];
      ThereIsNoConflict(tree, init);
      AppliedIsOverlay(tree, init);
      AppliedStaysWell(tree, init);
      var target := Target(tree.root, item.0);
      if IsSafeRelPath(item.0) && target.Some? {
        assert target.value in Written(tree.root, files);
        ThereIsPlaceable(Applied(tree, init).tree, target.value);
      }
    }
  }

  lemma OverlayTwice(tree: Tree, files: seq<Item>)
    requires WellFormed(tree) && Applied(tree, files).conflict.None?
    ensures Applied(Applied(tree, files).tree, files) == Applied(tree, files)
  {
    var t := Applied(tree, files).tree;
    AppliedIsOverlay(tree, files);
    AppliedStaysWell(tree, files);
    ThereIsNoConflict(t, files);
    AppliedIsOverlay(t, files);
    var w := Written(tree.root, files);
    assert tree.files + w + w == tree.files + w;
  }

  /** Applying the same files again changes nothing and ends the same way, even if it raised. */
  lemma {:induction false} AppliedTwice(tree: Tree, files: seq<Item>)
    requires WellFormed(tree)
    ensures Applied(Applied(tree, files).tree, files) == Applied(tree, files)
  {
    if files != [] {
      AppliedTwice(tree, files[..|files| - 1]);
      if Applied(tree, files).conflict.None? {
        OverlayTwice(tree, files);
      }
    }
  }
}
