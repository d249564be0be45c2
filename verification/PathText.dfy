// How the texts of paths are cut, told from their characters: the safety check of
// packages/compute/mesh_workspace_merge_legacy.py and what pathlib makes of a text.
module PathText {
  import opened Wrappers
  import opened FileTree

  // ---- Segments -----------------------------------------------------------

  /** The word stands at position `i`, between slashes or the ends of the text. */
  predicate SegmentAt(s: string, word: string, i: nat) {
    && i + |word| <= |s| && s[i..i + |word|] == word
    && (i == 0 || s[i - 1] == '/') && (i + |word| == |s| || s[i + |word|] == '/')
  }

  lemma SegmentBehind(c: char, s: string, word: string, i: nat)
    requires i > 0
    ensures SegmentAt([c] + s, word, i + 1) <==> SegmentAt(s, word, i)
  {
    var t := [c] + s;
    if i + |word| <= |s| {
      assert t[i + 1..i + 1 + |word|] == s[i..i + |word|];
    }
  }

  lemma SegmentBehindSlash(s: string, word: string)
    ensures SegmentAt("/" + s, word, 1) <==> SegmentAt(s, word, 0)
  {
    if |word| <= |s| {
      assert ("/" + s)[1..1 + |word|] == s[0..|word|];
    }
  }

  lemma SegmentInFront(c: char, s: string, word: string)
    requires c != '/' && '/' !in word
    ensures SegmentAt([c] + s, word, 0) <==> word != "" && word[0] == c && SegmentAt(s, word[1..], 0)
    ensures !SegmentAt([c] + s, word, 1)
  {
    var t := [c] + s;
    if word != "" && |word| <= |t| {
      assert t[0..|word|] == [c] + s[0..|word| - 1];
      assert word == [word[0]] + word[1..];
    }
  }

  /** The first part of a cut text is the segment at its start, and the others are the segments behind. */
  lemma {:induction false} FirstPart(s: string, word: string)
    requires '/' !in word
    ensures SplitSlash(s)[0] == word <==> SegmentAt(s, word, 0)
  {
    if s == "" {
    } else if s[0] == '/' {
      if word != "" { assert word[0] in word; }
    } else {
      var rest := SplitSlash(s[1..]);
      assert s == [s[0]] + s[1..];
      SegmentInFront(s[0], s[1..], word);
      if word != "" {
        assert forall c :: c in word[1..] ==> c in word;
        FirstPart(s[1..], word[1..]);
        assert word == [word[0]] + word[1..];
      }
    }
  }

  ghost predicate LaterSegment(s: string, word: string) {
    exists i: nat :: i > 0 && SegmentAt(s, word, i)
  }

  lemma LaterBehind(c: char, s: string, word: string)
    ensures LaterSegment([c] + s, word) <==> SegmentAt([c] + s, word, 1) || LaterSegment(s, word)
  {
    if LaterSegment([c] + s, word) {
      var i: nat :| i > 0 && SegmentAt([c] + s, word, i);
      if i > 1 { SegmentBehind(c, s, word, i - 1); }
    }
    if LaterSegment(s, word) {
      var i: nat :| i > 0 && SegmentAt(s, word, i);
      SegmentBehind(c, s, word, i);
    }
  }

  lemma {:induction false} LaterParts(s: string, word: string)
    requires '/' !in word
    ensures word in SplitSlash(s)[1..] <==> LaterSegment(s, word)
  {
    if s == "" {
      assert SplitSlash(s)[1..] == [];
    } else {
      var rest := SplitSlash(s[1..]);
      assert s == [s[0]] + s[1..];
      LaterBehind(s[0], s[1..], word);
      LaterParts(s[1..], word);
      if s[0] == '/' {
        assert SplitSlash(s)[1..] == rest && rest == [rest[0]] + rest[1..];
        SegmentBehindSlash(s[1..], word);
        FirstPart(s[1..], word);
      } else {
        assert SplitSlash(s)[1..] == rest[1..];
        SegmentInFront(s[0], s[1..], word);
      }
    }
  }

  lemma PartsAreSegments(s: string, word: string)
    requires '/' !in word
    ensures word in SplitSlash(s) <==> exists i: nat :: SegmentAt(s, word, i)
  {
    var parts := SplitSlash(s);
    assert parts == [parts[0]] + parts[1..];
    FirstPart(s, word);
    LaterParts(s, word);
    if i: nat :| SegmentAt(s, word, i) {
      assert i > 0 ==> LaterSegment(s, word);
    }
  }

  // ---- The safety check ---------------------------------------------------

  predicate Separates(c: char) {
    c == '/' || c == '\\'
  }

  /** Two dots stand at position `i`, between slashes or backslashes or the ends of the text. */
  predicate ClimbsAt(rel: string, i: nat) {
    && i + 2 <= |rel| && rel[i] == '.' && rel[i + 1] == '.'
    && (i == 0 || Separates(rel[i - 1])) && (i + 2 == |rel| || Separates(rel[i + 2]))
  }

  lemma ClimbsIff(rel: string, i: nat)
    ensures SegmentAt(Slashed(rel), "..", i) <==> ClimbsAt(rel, i)
  {
    var s := Slashed(rel);
    if i + 2 <= |rel| {
      assert s[i..i + 2] == [s[i], s[i + 1]];
    }
  }

  /** A path is accepted exactly when it is not empty and has no two dots between separators, of either kind. */
  lemma SafeIff(rel: string)
    ensures IsSafeRelPath(rel) <==> rel != "" && forall i: nat :: !ClimbsAt(rel, i)
  {
    PartsAreSegments(Slashed(rel), "..");
    forall i: nat
      ensures SegmentAt(Slashed(rel), "..", i) <==> ClimbsAt(rel, i)
    {
      ClimbsIff(rel, i);
    }
  }

  // ---- What pathlib makes of a text ---------------------------------------

  lemma {:induction false} KeptConcat(a: seq<string>, b: seq<string>)
    ensures Kept(a + b) == Kept(a) + Kept(b)
  {
    if a == [] {
      assert a + b == b;
    } else {
      assert (a + b)[1..] == a[1..] + b;
      KeptConcat(a[1..], b);
    }
  }

  /** One more character in front of a text that is cut into `parts`. */
  function InFront(c: char, parts: seq<string>): seq<string>
    requires parts != []
  {
    if c == '/' then [""] + parts else [[c] + parts[0]] + parts[1..]
  }

  lemma SplitInFront(c: char, s: string)
    ensures SplitSlash([c] + s) == InFront(c, SplitSlash(s))
  {
    assert ([c] + s)[1..] == s;
  }

  lemma InFrontOfBoth(c: char, a: seq<string>, b: seq<string>)
    requires a != []
    ensures InFront(c, a + b) == InFront(c, a) + b
  {
    assert (a + b)[1..] == a[1..] + b;
  }

  lemma {:induction false} SplitAround(a: string, b: string)
    ensures SplitSlash(a + "/" + b) == SplitSlash(a) + SplitSlash(b)
  {
    if a == "" {
      assert a + "/" + b == ['/'] + b;
      SplitInFront('/', b);
    } else {
      var c, rest := a[0], a[1..];
      SplitAround(rest, b);
      assert a == [c] + rest && a + "/" + b == [c] + (rest + "/" + b);
      SplitInFront(c, rest);
      SplitInFront(c, rest + "/" + b);
      InFrontOfBoth(c, SplitSlash(rest), SplitSlash(b));
    }
  }

  /** The parts of a text: a slash joins the parts on both sides, and a text without slash is its own part
      unless it is empty or a single dot. */
  lemma PartsAre(a: string, b: string)
    ensures Parts(a + "/" + b) == Parts(a) + Parts(b)
    ensures '/' !in a ==> Parts(a) == if a == "" || a == "." then [] else [a]
  {
    SplitAround(a, b);
    KeptConcat(SplitSlash(a), SplitSlash(b));
    if '/' !in a {
      SplitName(a, "");
      assert [a][1..] == [];
    }
  }

  /** Where a text leads from a workspace: below it, along its parts, unless it starts with a slash; then to
      what is behind the workspace's own path, if it begins with that, and elsewhere if not. */
  lemma TargetIs(root: Path, rel: string)
    ensures rel == "" || rel[0] != '/' ==> Target(root, rel) == Some(Parts(rel))
    ensures Target(root, "/" + rel) == if root <= Parts(rel) then Some(Parts(rel)[|root|..]) else None
  {
    PartsAre("", rel);
    assert "" + "/" + rel == "/" + rel;
    assert Parts("") + Parts(rel) == Parts(rel);
  }
}
