// Which files a worker's patch leaves out, told from the text of their paths:
// packages/compute/mesh_workspace_merge_legacy.py.
module MeshHidden {
  import opened Wrappers
  import opened Utf8
  import opened FileTree
  import opened MeshFiles
  import opened MeshMerge

  // ---- Hidden files, by the text of their path ----------------------------

  /** The text starts with a dot, or a dot follows a slash in it. */
  predicate Dotted(text: string) {
    exists i :: 0 <= i < |text| && text[i] == '.' && (i == 0 || text[i - 1] == '/')
  }

  lemma DottedName(n: string)
    requires GoodName(n)
    ensures Dotted(n) <==> n[0] == '.'
  {
    assert forall j :: 0 <= j < |n| ==> n[j] != '/';
  }

  lemma DottedBehind(n: string, rest: string)
    requires GoodName(n)
    ensures Dotted(n + "/" + rest) <==> n[0] == '.' || Dotted(rest)
  {
    var text := n + "/" + rest;
    assert forall j :: 0 <= j < |n| ==> n[j] != '/' && text[j] == n[j];
    if n[0] == '.' { assert text[0] == '.'; }
    if Dotted(rest) {
      var i :| 0 <= i < |rest| && rest[i] == '.' && (i == 0 || rest[i - 1] == '/');
      assert text[|n| + 1 + i] == '.' && text[|n| + i] == if i == 0 then '/' else rest[i - 1];
    }
    if Dotted(text) && n[0] != '.' {
      var i :| 0 <= i < |text| && text[i] == '.' && (i == 0 || text[i - 1] == '/');
      assert i > |n|;
      var k := i - |n| - 1;
      assert rest[k] == text[i] && (k == 0 || rest[k - 1] == text[i - 1]);
    }
  }

  lemma {:induction false} VisibleIff(p: Path)
    requires GoodPath(p)
    ensures Visible(p) <==> !Dotted(Posix(p))
  {
    assert p[0] in p;
    if |p| == 1 {
      DottedName(p[0]);
    } else {
      assert p == [p[0]] + p[1..];
      assert GoodPath(p[1..]);
      VisibleIff(p[1..]);
      DottedBehind(p[0], Posix(p[1..]));
    }
  }

  /** A path is digested exactly when its file is listed, and its text does not start with a dot and has none
      behind a slash; then it is digested with the content of that file. */
  lemma DigestedIff(tree: Tree, listing: seq<Path>, digest: seq<Byte> -> string, p: Path)
    requires ListsFiles(tree, listing) && Named(tree) && GoodPath(p)
    ensures Posix(p) in Rels(DigestItems(tree, listing, digest)) <==> p in listing && !Dotted(Posix(p))
    ensures forall item :: item in DigestItems(tree, listing, digest) && item.0 == Posix(p) ==>
                             p in tree.files && item.1 == digest(tree.files[p])
  {
    var items := DigestItems(tree, listing, digest);
    VisibleIff(p);
    forall item | item in items && item.0 == Posix(p)
      ensures p in listing && Visible(p) && item.1 == digest(tree.files[p])
    {
      var q := DigestItemOf(tree, listing, digest, item);
      PosixIsRead([], p);
      PosixIsRead([], q);
    }
    if p in listing && Visible(p) {
      DigestItemsHas(tree, listing, digest, p);
      assert (Posix(p), digest(tree.files[p])).0 in Rels(items);
    }
  }

  /** The files the host has after a complete merge, by the text of their path: the worker's where no part of it
      is hidden, and otherwise, or if the worker has none, those it had before. */
  lemma MergedFiles(s: Stage, host: Tree, maxBytes: int, p: Path)
    requires Sound(s) && WellFormed(host) && host.files == s.pre.files && GoodPath(p)
    requires ChangesFit(s, maxBytes) && ChangesPlaceable(s, host)
    ensures var files := Applied(host, PatchOf(s, maxBytes)).tree.files;
            if p in s.post.files && !Dotted(Posix(p)) then p in files && files[p] == s.post.files[p]
            else (p in files <==> p in host.files) && (p in files ==> files[p] == host.files[p])
  {
    MergeCompleteIff(s, host, maxBytes);
    VisibleIff(p);
  }

  /** No patch touches a hidden file, even when it is not complete. */
  lemma HiddenStays(s: Stage, host: Tree, maxBytes: int, p: Path)
    requires Sound(s) && WellFormed(host) && host.files == s.pre.files && GoodPath(p) && Dotted(Posix(p))
    requires Applied(host, PatchOf(s, maxBytes)).conflict.None?
    ensures var files := Applied(host, PatchOf(s, maxBytes)).tree.files;
            (p in files <==> p in host.files) && (p in files ==> files[p] == host.files[p])
  {
    PatchApplies(s, host, maxBytes);
    VisibleIff(p);
  }
}
