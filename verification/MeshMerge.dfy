// What a worker's patch does to the host's workspace.
module MeshMerge {
  import opened Wrappers
  import opened Utf8
  import opened FileTree
  import opened MeshFiles

  /** A stage as the worker sees it: its workspace before and after, the order in which each directory
      walk met the files, and the file digest. */
  datatype Stage = Stage(pre: Tree, preListing: seq<Path>, post: Tree, postListing: seq<Path>, digest: seq<Byte> -> string)

  /** `listing` names every file of the tree once. */
  ghost predicate Lists(tree: Tree, listing: seq<Path>) {
    && (forall p :: p in listing <==> p in tree.files)
    && (forall i, j :: 0 <= i < j < |listing| ==> listing[i] != listing[j])
  }

  ghost predicate Sound(s: Stage) {
    && WellFormed(s.pre) && Named(s.pre) && Lists(s.pre, s.preListing)
    && WellFormed(s.post) && Named(s.post) && Lists(s.post, s.postListing)
    && Injective(s.digest)
  }

  /** The digests taken before the stage, and those taken after it. */
  function Before(s: Stage): map<string, string>
    requires ListsFiles(s.pre, s.preListing)
  {
    DictOf(DigestItems(s.pre, s.preListing, s.digest))
  }

  function After(s: Stage): seq<Item>
    requires ListsFiles(s.post, s.postListing)
  {
    DigestItems(s.post, s.postListing, s.digest)
  }

  /** The patch the worker sends. */
  function PatchOf(s: Stage, maxBytes: int): seq<Item>
    requires ListsFiles(s.pre, s.preListing) && ListsFiles(s.post, s.postListing)
  {
    Patch(Before(s), After(s), s.post, maxBytes, 0)
  }

  /** A visible file that the stage created or gave other content. */
  predicate Changed(pre: Tree, post: Tree, p: Path) {
    p in post.files && Visible(p) && !(p in pre.files && pre.files[p] == post.files[p])
  }

  /** The host's workspace, overlaid with every visible file of the stage's result and the directories
      these need.  Deletions are not carried. */
  function Merged(host: Tree, post: Tree): Tree {
    var visible := set p | p in post.files && Visible(p);
    host.(files := host.files + map p | p in visible :: post.files[p], dirs := host.dirs + AllAbove(visible))
  }

  function Rels(items: seq<Item>): set<string> {
    set i | i in items :: i.0
  }

  function PatchedPaths(items: seq<Item>): set<Path> {
    set i | i in items :: Parts(i.0)
  }

  ghost predicate DistinctPaths(items: seq<Item>) {
    forall i, j :: 0 <= i < j < |items| ==> items[i].0 != items[j].0
  }

  // ---- Digest items -------------------------------------------------------

  lemma {:induction false} DigestItemsHas(tree: Tree, listing: seq<Path>, digest: seq<Byte> -> string, p: Path)
    requires ListsFiles(tree, listing) && p in listing && Visible(p)
    ensures (Posix(p), digest(tree.files[p])) in DigestItems(tree, listing, digest)
  {
    var init, last := listing[..|listing| - 1], listing[|listing| - 1];
    assert listing == init + [last];
    if p != last {
      DigestItemsHas(tree, init, digest, p);
    }
  }

  lemma {:induction false} DigestItemOf(tree: Tree, listing: seq<Path>, digest: seq<Byte> -> string, item: Item) returns (p: Path)
    requires ListsFiles(tree, listing) && item in DigestItems(tree, listing, digest)
    ensures p in listing && Visible(p) && item == (Posix(p), digest(tree.files[p]))
  {
    var init, last := listing[..|listing| - 1], listing[|listing| - 1];
    assert listing == init + [last];
    if item in DigestItems(tree, init, digest) {
      p := DigestItemOf(tree, init, digest, item);
    } else {
      p := last;
    }
  }

  lemma {:induction false} DigestPathsDistinct(tree: Tree, listing: seq<Path>, digest: seq<Byte> -> string)
    requires ListsFiles(tree, listing) && Named(tree)
    requires forall i, j :: 0 <= i < j < |listing| ==> listing[i] != listing[j]
    ensures DistinctPaths(DigestItems(tree, listing, digest))
  {
    if listing != [] {
      var init, last := listing[..|listing| - 1], listing[|listing| - 1];
      DigestPathsDistinct(tree, init, digest);
      var items := DigestItems(tree, init, digest);
      forall i | 0 <= i < |items|
        ensures items[i].0 != Posix(last)
      {
        var p := DigestItemOf(tree, init, digest, items[i]);
        PosixIsRead([], p);
        PosixIsRead([], last);
      }
    }
  }

  lemma {:induction false} DictHas(items: seq<Item>, item: Item)
    requires DistinctPaths(items)
    ensures Unchanged(DictOf(items), item) <==> item in items
    ensures item.0 in DictOf(items) <==> item.0 in Rels(items)
  {
    if items != [] {
      var init, last := items[..|items| - 1], items[|items| - 1];
      assert items == init + [last];
      DictHas(init, item);
    }
  }

  /** The digest taken after the stage differs from the one taken before exactly when the file changed. */
  lemma UnchangedMeans(s: Stage, p: Path)
    requires Sound(s) && p in s.post.files && Visible(p)
    ensures Unchanged(Before(s), (Posix(p), s.digest(s.post.files[p]))) <==> !Changed(s.pre, s.post, p)
  {
    var items, item := DigestItems(s.pre, s.preListing, s.digest), (Posix(p), s.digest(s.post.files[p]));
    DigestPathsDistinct(s.pre, s.preListing, s.digest);
    DictHas(items, item);
    if item in items {
      var q := DigestItemOf(s.pre, s.preListing, s.digest, item);
      PosixIsRead([], p);
      PosixIsRead([], q);
    }
    if p in s.pre.files {
      DigestItemsHas(s.pre, s.preListing, s.digest, p);
    }
  }

  // ---- What the patch holds and what applying it does ---------------------

  /** The item carries a file of the tree whole. */
  predicate Carried(post: Tree, item: Item) {
    var p := Parts(item.0);
    && IsSafeRelPath(item.0) && GoodPath(p) && item.0 == Posix(p)
    && p in post.files && Encode(item.1) == post.files[p]
  }

  lemma PatchCarries(s: Stage, maxBytes: int, item: Item)
    requires Sound(s) && item in PatchOf(s, maxBytes)
    ensures Carried(s.post, item) && Changed(s.pre, s.post, Parts(item.0))
  {
    PatchItem(Before(s), After(s), s.post, maxBytes, 0, item);
    var k :| 0 <= k < |After(s)| && After(s)[k].0 == item.0 && !Unchanged(Before(s), After(s)[k]);
    var p := DigestItemOf(s.post, s.postListing, s.digest, After(s)[k]);
    PosixIsRead(s.post.root, p);
    UnchangedMeans(s, p);
  }

  lemma WrittenSnoc(root: Path, files: seq<Item>, post: Tree, last: Item)
    requires Carried(post, last)
    ensures Written(root, files + [last]) == Written(root, files)[Parts(last.0) := Encode(last.1)]
    ensures PatchedPaths(files + [last]) == PatchedPaths(files) + {Parts(last.0)}
  {
    assert (files + [last])[..|files|] == files;
    PosixIsRead(root, Parts(last.0));
  }

  lemma {:induction false} WrittenIs(root: Path, post: Tree, files: seq<Item>)
    requires forall f :: f in files ==> Carried(post, f)
    ensures Written(root, files).Keys == PatchedPaths(files)
    ensures forall p :: p in Written(root, files) ==> p in post.files && Written(root, files)[p] == post.files[p]
  {
    if files != [] {
      var init, last := files[..|files| - 1], files[|files| - 1];
      assert files == init + [last];
      WrittenIs(root, post, init);
      WrittenSnoc(root, init, post, last);
    }
  }

  /** What some files of a well-formed tree put in the way of another is nothing. */
  lemma PlaceableBeside(host: Tree, post: Tree, w: map<Path, seq<Byte>>, p: Path)
    requires WellFormed(post) && w.Keys <= post.files.Keys && p in post.files
    ensures Placeable(Overlaid(host, w), p) <==> Placeable(host, p)
  {
    assert p !in AllAbove(w.Keys);
    assert forall k :: 0 <= k < |p| ==> p[..k] !in w;
  }

  lemma ConflictSnoc(host: Tree, post: Tree, init: seq<Item>, last: Item)
    requires WellFormed(post) && Carried(post, last) && forall f :: f in init ==> Carried(post, f)
    requires Applied(host, init).conflict.None?
    ensures Applied(host, init + [last]).conflict.None? <==> Placeable(host, Parts(last.0))
  {
    assert (init + [last])[..|init|] == init;
    AppliedIsOverlay(host, init);
    WrittenIs(host.root, post, init);
    PosixIsRead(host.root, Parts(last.0));
    PlaceableBeside(host, post, Written(host.root, init), Parts(last.0));
  }

  /** Applying raises exactly when some carried file has no place in the host's workspace. */
  lemma {:induction false} ConflictIff(host: Tree, post: Tree, files: seq<Item>)
    requires WellFormed(post) && forall f :: f in files ==> Carried(post, f)
    ensures Applied(host, files).conflict.None? <==> forall p :: p in PatchedPaths(files) ==> Placeable(host, p)
  {
    if files != [] {
      var init, last := files[..|files| - 1], files[|files| - 1];
      assert files == init + [last];
      ConflictIff(host, post, init);
      WrittenSnoc(host.root, init, post, last);
      if Applied(host, init).conflict.None? {
        ConflictSnoc(host, post, init, last);
      }
    }
  }

  /** The worker's patch holds changed files only.  Applying it to a workspace with the files the stage
      started from raises exactly when one of them has no place there: a directory stands where the file
      goes, or a file where a directory is needed.  Otherwise every patched path gets its content after the
      stage, and nothing else changes but the directories these paths need. */
  lemma PatchApplies(s: Stage, host: Tree, maxBytes: int)
    requires Sound(s) && WellFormed(host) && host.files == s.pre.files
    ensures var patch := PatchOf(s, maxBytes);
            var out, paths := Applied(host, patch), PatchedPaths(patch);
            && (forall p :: p in paths ==> Changed(host, s.post, p))
            && (out.conflict.None? <==> forall p :: p in paths ==> Placeable(host, p))
            && (out.conflict.None? ==>
                  && out.tree.files.Keys == host.files.Keys + paths
                  && (forall p :: p in out.tree.files ==> out.tree.files[p] == if p in paths then s.post.files[p] else host.files[p])
                  && out.tree.dirs == host.dirs + AllAbove(paths)
                  && out.tree.root == host.root)
  {
    var patch := PatchOf(s, maxBytes);
    forall f | f in patch
      ensures Carried(s.post, f) && Changed(s.pre, s.post, Parts(f.0))
    {
      PatchCarries(s, maxBytes, f);
    }
    ConflictIff(host, s.post, patch);
    WrittenIs(host.root, s.post, patch);
    if Applied(host, patch).conflict.None? {
      AppliedIsOverlay(host, patch);
    }
  }

  // ---- When everything fits -----------------------------------------------

  function SizeAt(ws: Tree, rel: string): nat {
    if ReadAt(ws, rel).Some? then |ReadAt(ws, rel).value| else 0
  }

  /** Size of the changed files among the items. */
  function ChangedBytes(before: map<string, string>, after: seq<Item>, ws: Tree): nat {
    if after == [] then 0
    else
      (if !Unchanged(before, after[0]) then SizeAt(ws, after[0].0) else 0) + ChangedBytes(before, after[1..], ws)
  }

  /** The changed file can be carried at all. */
  predicate Portable(ws: Tree, rel: string) {
    IsSafeRelPath(rel) && ReadAt(ws, rel).Some? && Decode(ReadAt(ws, rel).value).Some?
  }

  predicate SomeChanged(before: map<string, string>, after: seq<Item>) {
    exists k :: 0 <= k < |after| && !Unchanged(before, after[k])
  }

  /** Every changed item is portable, and together they stay within the budget. */
  ghost predicate Fits(before: map<string, string>, after: seq<Item>, ws: Tree, maxBytes: int, total: nat) {
    && (forall k :: 0 <= k < |after| && !Unchanged(before, after[k]) ==> Portable(ws, after[k].0))
    && (SomeChanged(before, after) ==> total + ChangedBytes(before, after, ws) <= maxBytes)
  }

  /** Every changed item is in the patch. */
  ghost predicate Carries(before: map<string, string>, after: seq<Item>, patch: seq<Item>) {
    forall k :: 0 <= k < |after| && !Unchanged(before, after[k]) ==> after[k].0 in Rels(patch)
  }

  lemma PatchPaths(before: map<string, string>, after: seq<Item>, ws: Tree, maxBytes: int, total: nat, p: string)
    requires p in Rels(Patch(before, after, ws, maxBytes, total))
    ensures exists k :: 0 <= k < |after| && after[k].0 == p
  {
    var f :| f in Patch(before, after, ws, maxBytes, total) && f.0 == p;
    PatchItem(before, after, ws, maxBytes, total, f);
  }

  lemma TailCarries(before: map<string, string>, after: seq<Item>, head: Item, rest: seq<Item>)
    requires after != [] && DistinctPaths(after) && head.0 == after[0].0
    ensures Carries(before, after[1..], [head] + rest) ==> Carries(before, after[1..], rest)
    ensures Carries(before, after[1..], rest) ==> Carries(before, after, [head] + rest)
  {
    assert Rels([head] + rest) == {head.0} + Rels(rest);
    if Carries(before, after[1..], [head] + rest) {
      forall k | 0 <= k < |after[1..]| && !Unchanged(before, after[1..][k])
        ensures after[1..][k].0 in Rels(rest)
      {
        assert after[1..][k] == after[k + 1] && after[k + 1].0 != after[0].0;
      }
    }
    if Carries(before, after[1..], rest) {
      forall k | 0 <= k < |after| && !Unchanged(before, after[k])
        ensures after[k].0 in Rels([head] + rest)
      {
        if k > 0 { assert after[k] == after[1..][k - 1]; }
      }
    }
  }

  lemma ChangedTail(before: map<string, string>, after: seq<Item>, patch: seq<Item>)
    requires after != []
    ensures Carries(before, after, patch) <==>
            (Unchanged(before, after[0]) || after[0].0 in Rels(patch)) && Carries(before, after[1..], patch)
    ensures SomeChanged(before, after) <==> !Unchanged(before, after[0]) || SomeChanged(before, after[1..])
  {
    assert forall k :: 0 <= k < |after| - 1 ==> after[1..][k] == after[k + 1];
    if SomeChanged(before, after) && Unchanged(before, after[0]) {
      var k :| 0 <= k < |after| && !Unchanged(before, after[k]);
      assert after[1..][k - 1] == after[k];
    }
    if Carries(before, after, patch) {
      forall k | 0 <= k < |after| - 1 && !Unchanged(before, after[1..][k])
        ensures after[1..][k].0 in Rels(patch)
      {
        assert after[k + 1] == after[1..][k];
      }
    }
    if (Unchanged(before, after[0]) || after[0].0 in Rels(patch)) && Carries(before, after[1..], patch) {
      forall k | 0 <= k < |after| && !Unchanged(before, after[k])
        ensures after[k].0 in Rels(patch)
      {
        if k > 0 { assert after[1..][k - 1] == after[k]; }
      }
    }
  }

  lemma TailItems(after: seq<Item>)
    requires after != []
    ensures forall k :: 0 <= k < |after| - 1 ==> after[1..][k] == after[k + 1]
    ensures forall k :: 0 < k < |after| ==> after[k] == after[1..][k - 1]
  {
  }

  lemma FitsUnchanged(before: map<string, string>, after: seq<Item>, ws: Tree, maxBytes: int, total: nat)
    requires after != [] && Unchanged(before, after[0])
    ensures Fits(before, after, ws, maxBytes, total) <==> Fits(before, after[1..], ws, maxBytes, total)
  {
    TailItems(after);
    ChangedTail(before, after, []);
  }

  lemma FitsPortable(before: map<string, string>, after: seq<Item>, ws: Tree, maxBytes: int, total: nat)
    requires after != [] && !Unchanged(before, after[0]) && Portable(ws, after[0].0)
    ensures Fits(before, after, ws, maxBytes, total) <==>
            total + SizeAt(ws, after[0].0) <= maxBytes && Fits(before, after[1..], ws, maxBytes, total + SizeAt(ws, after[0].0))
  {
    TailItems(after);
    ChangedTail(before, after, []);
    NothingChangedIsFree(before, after[1..], ws);
  }

  lemma {:induction false} NothingChangedIsFree(before: map<string, string>, after: seq<Item>, ws: Tree)
    ensures !SomeChanged(before, after) ==> ChangedBytes(before, after, ws) == 0
  {
    if after != [] {
      ChangedTail(before, after, []);
      NothingChangedIsFree(before, after[1..], ws);
    }
  }

  /** A changed file that cannot be carried is missing from the patch. */
  lemma NotPortableIsMissing(before: map<string, string>, after: seq<Item>, ws: Tree, maxBytes: int, total: nat)
    requires after != [] && DistinctPaths(after) && !Unchanged(before, after[0]) && !Portable(ws, after[0].0)
    ensures after[0].0 !in Rels(Patch(before, after, ws, maxBytes, total))
  {
    var rel := after[0].0;
    if rel in Rels(Patch(before, after, ws, maxBytes, total)) {
      assert Patch(before, after, ws, maxBytes, total) == Patch(before, after[1..], ws, maxBytes, total)
          || Patch(before, after, ws, maxBytes, total) == [];
      PatchPaths(before, after[1..], ws, maxBytes, total, rel);
    }
  }

  /** A file that is carried: its item, then the patch of the rest with less budget. */
  lemma PatchHead(before: map<string, string>, after: seq<Item>, ws: Tree, maxBytes: int, total: nat)
    requires after != [] && !Unchanged(before, after[0]) && Portable(ws, after[0].0)
    ensures var rel := after[0].0;
            Patch(before, after, ws, maxBytes, total) ==
            if total + SizeAt(ws, rel) > maxBytes then []
            else [(rel, Decode(ReadAt(ws, rel).value).value)] + Patch(before, after[1..], ws, maxBytes, total + SizeAt(ws, rel))
  {
  }

  /** The patch carries every change exactly when all changes fit. */
  ghost predicate CarriesIfFits(before: map<string, string>, after: seq<Item>, ws: Tree, maxBytes: int, total: nat) {
    Carries(before, after, Patch(before, after, ws, maxBytes, total)) <==> Fits(before, after, ws, maxBytes, total)
  }

  lemma PassesBy(before: map<string, string>, after: seq<Item>, ws: Tree, maxBytes: int, total: nat)
    requires after != [] && Unchanged(before, after[0]) && CarriesIfFits(before, after[1..], ws, maxBytes, total)
    ensures CarriesIfFits(before, after, ws, maxBytes, total)
  {
    FitsUnchanged(before, after, ws, maxBytes, total);
    ChangedTail(before, after, Patch(before, after[1..], ws, maxBytes, total));
  }

  lemma CannotCarry(before: map<string, string>, after: seq<Item>, ws: Tree, maxBytes: int, total: nat)
    requires after != [] && DistinctPaths(after) && !Unchanged(before, after[0]) && !Portable(ws, after[0].0)
    ensures CarriesIfFits(before, after, ws, maxBytes, total)
  {
    NotPortableIsMissing(before, after, ws, maxBytes, total);
  }

  lemma TakesAlong(before: map<string, string>, after: seq<Item>, ws: Tree, maxBytes: int, total: nat)
    requires after != [] && DistinctPaths(after) && !Unchanged(before, after[0]) && Portable(ws, after[0].0)
    requires var next := total + SizeAt(ws, after[0].0);
             next <= maxBytes ==> CarriesIfFits(before, after[1..], ws, maxBytes, next)
    ensures CarriesIfFits(before, after, ws, maxBytes, total)
  {
    FitsPortable(before, after, ws, maxBytes, total);
    CarriesHead(before, after, ws, maxBytes, total);
  }

  /** The patch carries every change exactly when all changed files are portable and fit together. */
  lemma {:induction false} CarriesAllIff(before: map<string, string>, after: seq<Item>, ws: Tree, maxBytes: int, total: nat)
    requires DistinctPaths(after)
    ensures CarriesIfFits(before, after, ws, maxBytes, total)
    decreases |after|
  {
    if after != [] {
      if Unchanged(before, after[0]) {
        CarriesAllIff(before, after[1..], ws, maxBytes, total);
        PassesBy(before, after, ws, maxBytes, total);
      } else if !Portable(ws, after[0].0) {
        CannotCarry(before, after, ws, maxBytes, total);
      } else {
        CarriesAllIff(before, after[1..], ws, maxBytes, total + SizeAt(ws, after[0].0));
        TakesAlong(before, after, ws, maxBytes, total);
      }
    }
  }

  lemma CarriesHead(before: map<string, string>, after: seq<Item>, ws: Tree, maxBytes: int, total: nat)
    requires after != [] && DistinctPaths(after) && !Unchanged(before, after[0]) && Portable(ws, after[0].0)
    ensures var size := SizeAt(ws, after[0].0);
            Carries(before, after, Patch(before, after, ws, maxBytes, total)) <==>
            total + size <= maxBytes && Carries(before, after[1..], Patch(before, after[1..], ws, maxBytes, total + size))
  {
    var rel := after[0].0;
    PatchHead(before, after, ws, maxBytes, total);
    if total + SizeAt(ws, rel) <= maxBytes {
      HeadCarried(before, after, (rel, Decode(ReadAt(ws, rel).value).value), Patch(before, after[1..], ws, maxBytes, total + SizeAt(ws, rel)));
    }
  }

  lemma HeadCarried(before: map<string, string>, after: seq<Item>, head: Item, rest: seq<Item>)
    requires after != [] && DistinctPaths(after) && head.0 == after[0].0
    ensures Carries(before, after, [head] + rest) <==> Carries(before, after[1..], rest)
  {
    TailCarries(before, after, head, rest);
    ChangedTail(before, after, [head] + rest);
  }

  /** Every changed file of the stage is in the patch. */
  ghost predicate CarriesChanges(s: Stage, patch: seq<Item>)
  {
    forall p :: Changed(s.pre, s.post, p) ==> p in PatchedPaths(patch)
  }

  /** All changes can be carried: the changed files have safe names, are UTF-8 and fit the budget. */
  ghost predicate ChangesFit(s: Stage, maxBytes: int)
    requires ListsFiles(s.pre, s.preListing) && ListsFiles(s.post, s.postListing)
  {
    Fits(Before(s), After(s), s.post, maxBytes, 0)
  }

  /** All changes have a place in the host's workspace. */
  ghost predicate ChangesPlaceable(s: Stage, host: Tree) {
    forall p :: Changed(s.pre, s.post, p) ==> Placeable(host, p)
  }

  lemma ChangesCarriedIff(s: Stage, maxBytes: int)
    requires Sound(s)
    ensures CarriesChanges(s, PatchOf(s, maxBytes)) <==> ChangesFit(s, maxBytes)
  {
    DigestPathsDistinct(s.post, s.postListing, s.digest);
    CarriesAllIff(Before(s), After(s), s.post, maxBytes, 0);
    CarriesChanged(s, maxBytes);
  }

  /** The changed items are the changed files. */
  lemma CarriesChanged(s: Stage, maxBytes: int)
    requires Sound(s)
    ensures Carries(Before(s), After(s), PatchOf(s, maxBytes)) <==> CarriesChanges(s, PatchOf(s, maxBytes))
  {
    var patch := PatchOf(s, maxBytes);
    if Carries(Before(s), After(s), patch) {
      forall p | Changed(s.pre, s.post, p)
        ensures p in PatchedPaths(patch)
      {
        ChangedIsCarried(s, patch, p);
      }
    }
    if CarriesChanges(s, patch) {
      forall k | 0 <= k < |After(s)| && !Unchanged(Before(s), After(s)[k])
        ensures After(s)[k].0 in Rels(patch)
      {
        CarriedIsListed(s, maxBytes, k);
      }
    }
  }

  lemma ChangedIsCarried(s: Stage, patch: seq<Item>, p: Path)
    requires Sound(s) && Carries(Before(s), After(s), patch) && Changed(s.pre, s.post, p)
    ensures p in PatchedPaths(patch)
  {
    DigestItemsHas(s.post, s.postListing, s.digest, p);
    UnchangedMeans(s, p);
    var k :| 0 <= k < |After(s)| && After(s)[k] == (Posix(p), s.digest(s.post.files[p]));
    var f :| f in patch && f.0 == Posix(p);
    PosixIsRead([], p);
  }

  lemma CarriedIsListed(s: Stage, maxBytes: int, k: nat)
    requires Sound(s) && CarriesChanges(s, PatchOf(s, maxBytes))
    requires k < |After(s)| && !Unchanged(Before(s), After(s)[k])
    ensures After(s)[k].0 in Rels(PatchOf(s, maxBytes))
  {
    var p := DigestItemOf(s.post, s.postListing, s.digest, After(s)[k]);
    UnchangedMeans(s, p);
    var f :| f in PatchOf(s, maxBytes) && Parts(f.0) == p;
    PatchCarries(s, maxBytes, f);
  }

  lemma OverlaysMerge(s: Stage, host: Tree, paths: set<Path>, out: Tree)
    requires host.files == s.pre.files && out.root == host.root && WellFormed(host)
    requires forall p :: p in paths ==> Changed(host, s.post, p)
    requires out.files.Keys == host.files.Keys + paths && out.dirs == host.dirs + AllAbove(paths)
    requires forall p :: p in out.files ==>
                           if p in paths then p in s.post.files && out.files[p] == s.post.files[p]
                           else p in host.files && out.files[p] == host.files[p]
    ensures out == Merged(host, s.post) <==> forall p :: Changed(s.pre, s.post, p) ==> p in paths
  {
    var merged := Merged(host, s.post);
    if out == merged {
      forall p | Changed(s.pre, s.post, p)
        ensures p in paths
      {
        assert merged.files[p] == s.post.files[p];
      }
    }
    if forall p :: Changed(s.pre, s.post, p) ==> p in paths {
      assert out.files == merged.files;
      SameDirs(host, s.post, paths);
    }
  }

  /** The directories above unchanged files are there already. */
  lemma SameDirs(host: Tree, post: Tree, paths: set<Path>)
    requires WellFormed(host) && forall p :: p in paths ==> Changed(host, post, p)
    requires forall p :: Changed(host, post, p) ==> p in paths
    ensures host.dirs + AllAbove(paths) == host.dirs + AllAbove(set p | p in post.files && Visible(p))
  {
    var visible := set p | p in post.files && Visible(p);
    assert paths <= visible;
    forall d | d in AllAbove(visible)
      ensures d in host.dirs + AllAbove(paths)
    {
      var p :| p in visible && d in Above(p);
      if p !in paths { assert p in host.files; }
    }
  }

  /** The host ends with the worker's tree, deletions apart, and nothing raises, exactly when every changed
      file has a safe name, is UTF-8, fits the budget with the others, and has a place on the host. */
  lemma MergeCompleteIff(s: Stage, host: Tree, maxBytes: int)
    requires Sound(s) && WellFormed(host) && host.files == s.pre.files
    ensures var out := Applied(host, PatchOf(s, maxBytes));
            out.conflict.None? && out.tree == Merged(host, s.post) <==> ChangesFit(s, maxBytes) && ChangesPlaceable(s, host)
  {
    var patch := PatchOf(s, maxBytes);
    PatchApplies(s, host, maxBytes);
    ChangesCarriedIff(s, maxBytes);
    if Applied(host, patch).conflict.None? {
      OverlaysMerge(s, host, PatchedPaths(patch), Applied(host, patch).tree);
    }
  }
}
