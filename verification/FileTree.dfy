// A workspace as a tree of files and directories, and how pathlib turns a text into a place in it.
module FileTree {
  import opened Wrappers
  import opened Utf8

  /** The names on the way from some directory down to a file or directory. */
  type Path = seq<string>

  /** A workspace: where it is, its regular files with their content, and its directories, by their path
      below it. */
  datatype Tree = Tree(root: Path, files: map<Path, seq<Byte>>, dirs: set<Path>)

  /** Every directory on the way to something in the tree is in the tree, and nothing is a file and a
      directory at once. */
  ghost predicate WellFormed(t: Tree) {
    && [] in t.dirs
    && t.files.Keys !! t.dirs
    && (forall p, k :: p in t.files && 0 <= k < |p| ==> p[..k] in t.dirs)
    && (forall p, k :: p in t.dirs && 0 <= k < |p| ==> p[..k] in t.dirs)
  }

  /** What the directory names of a POSIX system can be. */
  predicate GoodName(n: string) {
    n != "" && n != "." && n != ".." && '/' !in n
  }

  predicate GoodPath(p: Path) {
    p != [] && forall n :: n in p ==> GoodName(n)
  }

  ghost predicate Named(t: Tree) {
    forall p :: p in t.files ==> GoodPath(p)
  }

  // ---- Writing a file -----------------------------------------------------

  /** The directories above a path. */
  function Above(p: Path): set<Path> {
    set k | 0 <= k < |p| :: p[..k]
  }

  /** `mkdir` of the parent and `write_text` succeed: no directory stands where the file goes, and no file
      where a directory is needed. */
  predicate Placeable(t: Tree, p: Path) {
    p !in t.dirs && forall k :: 0 <= k < |p| ==> p[..k] !in t.files
  }

  function Place(t: Tree, p: Path, content: seq<Byte>): Tree {
    t.(files := t.files[p := content], dirs := t.dirs + Above(p))
  }

  lemma PlaceStaysWell(t: Tree, p: Path, content: seq<Byte>)
    requires WellFormed(t) && Placeable(t, p)
    ensures WellFormed(Place(t, p, content))
  {
    var next := Place(t, p, content);
    forall q, k | q in next.dirs && 0 <= k < |q|
      ensures q[..k] in next.dirs
    {
      if q !in t.dirs {
        var j :| 0 <= j < |p| && q == p[..j];
        assert q[..k] == p[..k];
      }
    }
    assert p !in Above(p);
  }

  /** A file that is there can be written again. */
  lemma ThereIsPlaceable(t: Tree, p: Path)
    requires WellFormed(t) && p in t.files
    ensures Placeable(t, p) && Above(p) <= t.dirs
  {
  }

  // ---- Texts --------------------------------------------------------------

  /** `str.split("/")`. */
  function SplitSlash(s: string): (parts: seq<string>)
    ensures parts != []
  {
    if s == "" then [""]
    else
      var rest := SplitSlash(s[1..]);
      if s[0] == '/' then [""] + rest else [[s[0]] + rest[0]] + rest[1..]
  }

  function Slashed(s: string): string {
    seq(|s|, i requires 0 <= i < |s| => if s[i] == '\\' then '/' else s[i])
  }

  predicate IsSafeRelPath(rel: string) {
    rel != "" && ".." !in SplitSlash(Slashed(rel))
  }

  /** The parts of a pathlib path: empty parts and "." are dropped. */
  function Parts(rel: string): Path {
    Kept(SplitSlash(rel))
  }

  function Kept(parts: seq<string>): Path {
    if parts == [] then []
    else if parts[0] == "" || parts[0] == "." then Kept(parts[1..])
    else [parts[0]] + Kept(parts[1..])
  }

  predicate Absolute(rel: string) {
    rel != "" && rel[0] == '/'
  }

  /** `as_posix()`. */
  function Posix(p: Path): string {
    if p == [] then "."
    else if |p| == 1 then p[0] else p[0] + "/" + Posix(p[1..])
  }

  /** Where `workspace / rel` is below the workspace; None if it is elsewhere. */
  function Target(root: Path, rel: string): Option<Path> {
    if !Absolute(rel) then Some(Parts(rel))
    else if root <= Parts(rel) then Some(Parts(rel)[|root|..])
    else None
  }

  /** The content `workspace / rel` has if it is a file of the workspace. */
  function ReadAt(t: Tree, rel: string): Option<seq<Byte>> {
    var p := Target(t.root, rel);
    if p.Some? && p.value in t.files then Some(t.files[p.value]) else None
  }

  lemma {:induction false} SplitName(n: string, rest: string)
    requires '/' !in n
    ensures SplitSlash(n) == [n] && SplitSlash(n + "/" + rest) == [n] + SplitSlash(rest)
  {
    if n == "" {
      assert n + "/" + rest == "/" + rest && ("/" + rest)[1..] == rest;
    } else {
      SplitName(n[1..], rest);
      assert n[0] in n;
      assert (n + "/" + rest)[1..] == n[1..] + "/" + rest;
      assert [n[0]] + n[1..] == n;
    }
  }

  lemma {:induction false} SplitPosix(p: Path)
    requires GoodPath(p)
    ensures SplitSlash(Posix(p)) == p
  {
    assert p[0] in p;
    if |p| == 1 {
      SplitName(p[0], "");
      assert p == [p[0]];
    } else {
      assert forall n :: n in p[1..] ==> n in p;
      SplitPosix(p[1..]);
      SplitName(p[0], Posix(p[1..]));
      assert p == [p[0]] + p[1..];
    }
  }

  lemma {:induction false} KeptAll(parts: seq<string>)
    requires forall n :: n in parts ==> GoodName(n)
    ensures Kept(parts) == parts
  {
    if parts != [] {
      assert parts[0] in parts;
      assert forall n :: n in parts[1..] ==> n in parts;
      KeptAll(parts[1..]);
      assert parts == [parts[0]] + parts[1..];
    }
  }

  /** The text of a path leads back to the path, from any workspace. */
  lemma PosixIsRead(root: Path, p: Path)
    requires GoodPath(p)
    ensures Parts(Posix(p)) == p && Target(root, Posix(p)) == Some(p)
  {
    SplitPosix(p);
    KeptAll(p);
    assert p[0] in p && p[0][0] in p[0];
    assert Posix(p)[0] == p[0][0];
  }

  // ---- Staying inside the workspace ---------------------------------------

  /** Follow the parts of a path, ".." leading up. */
  function Walk(from: Path, parts: seq<string>): Path
    decreases parts
  {
    if parts == [] then from
    else if parts[0] == ".." then Walk(if from == [] then [] else from[..|from| - 1], parts[1..])
    else Walk(from + [parts[0]], parts[1..])
  }

  /** The absolute place that `workspace / rel` names. */
  function Resolved(root: Path, rel: string): Path {
    Walk(if Absolute(rel) then [] else root, Parts(rel))
  }

  lemma {:induction false} WalkDown(from: Path, parts: seq<string>)
    requires ".." !in parts
    ensures Walk(from, parts) == from + parts
    decreases parts
  {
    if parts != [] {
      WalkDown(from + [parts[0]], parts[1..]);
      assert parts == [parts[0]] + parts[1..];
    }
  }

  lemma {:induction false} KeptOf(parts: seq<string>, n: string)
    ensures n in Kept(parts) ==> n in parts
  {
    if parts != [] {
      KeptOf(parts[1..], n);
    }
  }

  /** What cutting at backslashes as well does to a list of parts: those without backslash stay, the
      first one first and the others behind it. */
  ghost predicate CutUp(a: seq<string>, b: seq<string>) {
    && a != [] && b != []
    && ('\\' !in a[0] ==> b[0] == a[0])
    && forall n :: n in a[1..] && '\\' !in n ==> n in b[1..]
  }

  lemma CutAtBoth(a: seq<string>, b: seq<string>)
    requires CutUp(a, b)
    ensures CutUp([""] + a, [""] + b)
  {
    assert ([""] + a)[1..] == a && ([""] + b)[1..] == b;
    forall n | n in a && '\\' !in n
      ensures n in b
    {
      assert n == a[0] || n in a[1..];
    }
  }

  lemma CutAtOne(c: char, a: seq<string>, b: seq<string>)
    requires CutUp(a, b) && c == '\\'
    ensures CutUp([[c] + a[0]] + a[1..], [""] + b)
  {
    var d := [[c] + a[0]] + a[1..];
    assert d[0][0] == c && d[1..] == a[1..] && ([""] + b)[1..] == b;
  }

  lemma CutAtNone(c: char, a: seq<string>, b: seq<string>)
    requires CutUp(a, b) && c != '\\'
    ensures CutUp([[c] + a[0]] + a[1..], [[c] + b[0]] + b[1..])
  {
    var d, e := [[c] + a[0]] + a[1..], [[c] + b[0]] + b[1..];
    assert d[1..] == a[1..] && e[1..] == b[1..];
    assert forall x :: x in a[0] ==> x in d[0];
  }

  lemma {:induction false} SlashedParts(s: string)
    ensures CutUp(SplitSlash(s), SplitSlash(Slashed(s)))
  {
    if s != "" {
      SlashedParts(s[1..]);
      assert Slashed(s)[1..] == Slashed(s[1..]);
      var a, b := SplitSlash(s[1..]), SplitSlash(Slashed(s[1..]));
      if s[0] == '/' {
        CutAtBoth(a, b);
      } else if s[0] == '\\' {
        CutAtOne(s[0], a, b);
      } else {
        CutAtNone(s[0], a, b);
      }
    }
  }

  /** A safe path leads out of the workspace exactly when it is absolute and names a place elsewhere; a
      safe path that stays inside has the target the model gives it. */
  lemma SafeStaysInsideIff(root: Path, rel: string)
    requires IsSafeRelPath(rel)
    ensures root <= Resolved(root, rel) <==> !Absolute(rel) || root <= Parts(rel)
    ensures Target(root, rel) == if root <= Resolved(root, rel) then Some(Resolved(root, rel)[|root|..]) else None
  {
    SlashedParts(rel);
    KeptOf(SplitSlash(rel), "..");
    WalkDown(if Absolute(rel) then [] else root, Parts(rel));
    assert [] + Parts(rel) == Parts(rel);
    assert (root + Parts(rel))[|root|..] == Parts(rel);
  }
}
