// Setting a key twice: when the second edit of packages/env/dotenv.py makes the first one disappear.
// Otherwise pieces of the first value stay behind, which shows in the amount of ink in the file.
module DotenvTwice {
  import opened Wrappers
  import opened Text
  import opened Dotenv
  import opened DotenvProofs
  import opened DotenvPieces

  // ---- Ink ----------------------------------------------------------------

  /** The number of characters that are not white space. */
  function Ink(s: string): nat {
    if s == "" then 0 else Ink(s[..|s| - 1]) + if IsSpace(s[|s| - 1]) then 0 else 1
  }

  lemma {:induction false} InkConcat(a: string, b: string)
    ensures Ink(a + b) == Ink(a) + Ink(b)
  {
    if b == "" {
      assert a + b == a;
    } else {
      assert (a + b)[..|a + b| - 1] == a + b[..|b| - 1];
      InkConcat(a, b[..|b| - 1]);
    }
  }

  lemma {:induction false} InkOfSpace(s: string)
    requires AllSpace(s)
    ensures Ink(s) == 0
  {
    if s != "" {
      InkOfSpace(s[..|s| - 1]);
    }
  }

  lemma InkOfRStrip(s: string)
    ensures Ink(RStrip(s)) == Ink(s)
  {
    var b := RStripParts(s);
    InkConcat(RStrip(s), b);
    InkOfSpace(b);
  }

  lemma InkThere(s: string, i: nat)
    requires i < |s| && !IsSpace(s[i])
    ensures Ink(s) > 0
  {
    assert s == s[..i + 1] + s[i + 1..] && s[..i + 1][..i] == s[..i];
    InkConcat(s[..i + 1], s[i + 1..]);
  }

  // ---- Weight: the ink a line has once the key is set to a text with `g` ink --

  function Weight(line: string, k: string, g: nat): nat {
    if Assigns(line, k) then g else Ink(line)
  }

  function TotalWeight(lines: seq<string>, k: string, g: nat): nat {
    if lines == [] then 0 else TotalWeight(lines[..|lines| - 1], k, g) + Weight(lines[|lines| - 1], k, g)
  }

  function TextWeight(t: string, k: string, g: nat): nat {
    TotalWeight(SplitLines(t), k, g)
  }

  lemma {:induction false} TotalWeightConcat(a: seq<string>, b: seq<string>, k: string, g: nat)
    ensures TotalWeight(a + b, k, g) == TotalWeight(a, k, g) + TotalWeight(b, k, g)
  {
    if b == [] {
      assert a + b == a;
    } else {
      assert (a + b)[..|a + b| - 1] == a + b[..|b| - 1];
      TotalWeightConcat(a, b[..|b| - 1], k, g);
    }
  }

  lemma TotalWeightCons(l: string, rest: seq<string>, k: string, g: nat)
    ensures TotalWeight([l] + rest, k, g) == Weight(l, k, g) + TotalWeight(rest, k, g)
  {
    TotalWeightConcat([l], rest, k, g);
    assert [l][..0] == [];
  }

  lemma FirstLineWeight(l: string, br: string, rest: string, k: string, g: nat)
    requires NoBreak(l) && BreaksBefore(br, rest)
    ensures TextWeight(l + (br + rest), k, g) == Weight(l, k, g) + TextWeight(rest, k, g)
  {
    SplitAtBreak(l, br, rest);
    TotalWeightCons(l, SplitLines(rest), k, g);
  }

  lemma WeightOfLine(l: string, k: string, g: nat)
    requires NoBreak(l)
    ensures TextWeight(l, k, g) == Weight(l, k, g)
  {
    SplitLine(l);
    if l == "" {
      AssignsRStripped("", k);
    } else {
      TotalWeightCons(l, [], k, g);
      assert [l] + [] == [l];
    }
  }

  /** Trailing white space and blank lines weigh nothing. */
  lemma {:induction false} SolidWeight(lines: seq<string>, k: string, g: nat)
    ensures TotalWeight(Solid(lines), k, g) == TotalWeight(lines, k, g)
  {
    if lines != [] {
      var init, last := lines[..|lines| - 1], lines[|lines| - 1];
      SolidWeight(init, k, g);
      AssignsRStripped(last, k);
      InkOfRStrip(last);
      if RStrip(last) != "" { assert (Solid(init) + [RStrip(last)])[..|Solid(init)|] == Solid(init); }
    }
  }

  /** Ink has weight wherever it stands. */
  lemma {:induction false} InkHasWeight(t: string, k: string, g: nat)
    requires Ink(t) > 0 && g > 0
    ensures TextWeight(t, k, g) > 0
    decreases |t|
  {
    if LineEnd(t) == |t| {
      assert NoBreak(t);
      WeightOfLine(t, k, g);
    } else {
      var l, br, rest := FirstLine(t);
      FirstLineWeight(l, br, rest, k, g);
      InkConcat(l, br + rest);
      InkConcat(br, rest);
      BreakIsSpace(br, rest);
      InkOfSpace(br);
      if Ink(rest) > 0 { InkHasWeight(rest, k, g); }
    }
  }

  // ---- The weight of an edited file ---------------------------------------

  /** The lines of `lines`, each split where it breaks. */
  function PartWeights(lines: seq<string>, k: string, g: nat): nat {
    if lines == [] then 0 else PartWeights(lines[..|lines| - 1], k, g) + TextWeight(lines[|lines| - 1], k, g)
  }

  lemma {:induction false} PiecesWeight(lines: seq<string>, k: string, g: nat)
    ensures TotalWeight(AllPieces(lines), k, g) == PartWeights(lines, k, g)
  {
    if lines != [] {
      var init, last := lines[..|lines| - 1], lines[|lines| - 1];
      PiecesWeight(init, k, g);
      TotalWeightConcat(AllPieces(init), Pieces(last), k, g);
      SolidWeight(SplitLines(last), k, g);
    }
  }

  lemma {:induction false} InkOfJoin(lines: seq<string>)
    ensures Ink(Join(lines)) == InkOfLines(lines)
  {
    if lines != [] {
      var init, last := lines[..|lines| - 1], lines[|lines| - 1];
      InkOfJoin(init);
      if |lines| > 1 {
        InkConcat(Join(init) + "\n", last);
        InkConcat(Join(init), "\n");
        InkOfSpace("\n");
      }
    }
  }

  function InkOfLines(lines: seq<string>): nat {
    if lines == [] then 0 else InkOfLines(lines[..|lines| - 1]) + Ink(lines[|lines| - 1])
  }

  lemma {:induction false} InkOfReplaced(lines: seq<string>, k: string, f: string)
    ensures InkOfLines(Replaced(lines, k, f)) == TotalWeight(lines, k, Ink(f))
  {
    if lines != [] {
      InkOfReplaced(lines[..|lines| - 1], k, f);
    }
  }

  lemma InkOfSnoc(lines: seq<string>, l: string)
    ensures InkOfLines(lines + [l]) == InkOfLines(lines) + Ink(l)
  {
    assert (lines + [l])[..|lines|] == lines;
  }

  lemma InkOfEditedLines(lines: seq<string>, k: string, f: string)
    ensures InkOfLines(Edited(lines, k, f)) == TotalWeight(lines, k, Ink(f)) + if AnyAssigns(lines, k) then 0 else Ink(f)
  {
    InkOfReplaced(lines, k, f);
    if !AnyAssigns(lines, k) {
      NothingReplaced(lines, k, f);
      InkOfSnoc(lines, f);
      InkOfSnoc(lines, "");
      InkOfSnoc(lines + [""], f);
      assert lines + ["", f] == (lines + [""]) + [f];
    }
  }

  /** An edit writes the weight of the old lines, and the new line once more if it is appended. */
  lemma InkOfEdited(text: Option<string>, k: string, w: string)
    ensures var lines, f := LinesOf(text), Assignment(k, w);
            Ink(EditedText(text, k, w)) == TotalWeight(lines, k, Ink(f)) + if AnyAssigns(lines, k) then 0 else Ink(f)
  {
    var e := Edited(LinesOf(text), k, Assignment(k, w));
    InkOfEditedLines(LinesOf(text), k, Assignment(k, w));
    InkOfJoin(e);
    InkOfRStrip(Join(e));
    InkConcat(RStrip(Join(e)), "\n");
    InkOfSpace("\n");
  }

  lemma WeightOfEdited(text: Option<string>, k: string, v: string, g: nat)
    ensures TextWeight(EditedText(text, k, v), k, g) == PartWeights(Edited(LinesOf(text), k, Assignment(k, v)), k, g)
  {
    var e := Edited(LinesOf(text), k, Assignment(k, v));
    SolidWeight(SplitLines(EditedText(text, k, v)), k, g);
    PiecesOfEdited(text, k, v);
    PiecesWeight(e, k, g);
  }

  /** Replacing by a line that weighs more than `g` adds weight, if anything is replaced. */
  lemma {:induction false} PartsOfReplaced(lines: seq<string>, k: string, f: string, g: nat)
    requires Unbroken(lines) && TextWeight(f, k, g) > g
    ensures if AnyAssigns(lines, k) then PartWeights(Replaced(lines, k, f), k, g) > TotalWeight(lines, k, g)
            else PartWeights(Replaced(lines, k, f), k, g) == TotalWeight(lines, k, g)
  {
    if lines != [] {
      var init, last := lines[..|lines| - 1], lines[|lines| - 1];
      UnbrokenParts(lines);
      PartsOfReplaced(init, k, f, g);
      PartsOfSnoc(Replaced(init, k, f), if Assigns(last, k) then f else last, k, g);
      WeightOfLine(last, k, g);
    }
  }

  lemma PartsOfSnoc(lines: seq<string>, l: string, k: string, g: nat)
    ensures PartWeights(lines + [l], k, g) == PartWeights(lines, k, g) + TextWeight(l, k, g)
  {
    assert (lines + [l])[..|lines|] == lines;
  }

  lemma PartsOfAppended(lines: seq<string>, f: string, k: string, g: nat)
    ensures PartWeights(lines + [f], k, g) == PartWeights(lines + ["", f], k, g) == PartWeights(lines, k, g) + TextWeight(f, k, g)
  {
    PartsOfSnoc(lines, f, k, g);
    PartsOfSnoc(lines, "", k, g);
    PartsOfSnoc(lines + [""], f, k, g);
    assert lines + ["", f] == (lines + [""]) + [f];
  }

  /** If the written line weighs more than what may replace it, so does the whole edited file. */
  lemma EditedWeighsMore(text: Option<string>, k: string, v: string, g: nat)
    requires TextWeight(Assignment(k, v), k, g) > g
    ensures var lines := LinesOf(text);
            TextWeight(EditedText(text, k, v), k, g) > TotalWeight(lines, k, g) + if AnyAssigns(lines, k) then 0 else g
  {
    var lines, f := LinesOf(text), Assignment(k, v);
    if text.Some? { SplitUnbroken(text.value); }
    WeightOfEdited(text, k, v, g);
    PartsOfReplaced(lines, k, f, g);
    if !AnyAssigns(lines, k) {
      NothingReplaced(lines, k, f);
      PartsOfAppended(lines, f, k, g);
    }
  }

  // ---- A value with a line break ------------------------------------------

  /** The first piece of a broken assignment still assigns the key, and the closing quote follows. */
  lemma BrokenAssignment(k: string, v: string, g: nat)
    requires ValidKey(k) && !NoBreak(v) && g > 0
    ensures TextWeight(Assignment(k, v), k, g) > g
  {
    var l, br, rest := BrokenInTwo(k, v);
    FirstLineWeight(l, br, rest, k, g);
    LastInk(l, br, rest);
    InkHasWeight(rest, k, g);
  }

  lemma LastInk(l: string, br: string, rest: string)
    requires BreaksBefore(br, rest)
    requires var f := l + (br + rest); !IsSpace(f[|f| - 1])
    ensures Ink(rest) > 0
  {
    BreakIsSpace(br, rest);
    var f := l + (br + rest);
    if rest != "" {
      assert f[|f| - 1] == rest[|rest| - 1];
      InkThere(rest, |rest| - 1);
    }
  }

  // ---- A key that is no identifier ----------------------------------------

  lemma {:induction false} NothingAssignedIsInk(lines: seq<string>, k: string, g: nat)
    requires !AnyAssigns(lines, k)
    ensures TotalWeight(lines, k, g) == InkOfLines(lines)
  {
    if lines != [] {
      NothingAssignedIsInk(lines[..|lines| - 1], k, g);
    }
  }

  lemma EqualsSign(k: string, v: string)
    ensures Ink(Assignment(k, v)) > 0
  {
    var f := Assignment(k, v);
    assert f[|k|] == '=';
    InkThere(f, |k|);
  }

  /** Setting a key and then setting it again leaves the same text as setting it the second time only,
      exactly when the key is an identifier and the first value has no line break.  The second value
      does not matter. */
  lemma SetTwiceIff(text: Option<string>, k: string, v: string, w: string)
    ensures EditedText(Some(EditedText(text, k, v)), k, w) == EditedText(text, k, w) <==> ValidKey(k) && NoBreak(v)
  {
    var once := EditedText(text, k, v);
    var g := Ink(Assignment(k, w));
    EqualsSign(k, w);
    InkOfEdited(text, k, w);
    InkOfEdited(Some(once), k, w);
    if !ValidKey(k) {
      BadKeyAddsInk(text, k, v, w);
    } else if NoBreak(v) {
      SetTwiceIsSetOnce(text, k, v, w);
    } else {
      BrokenAssignment(k, v, g);
      EditedWeighsMore(text, k, v, g);
    }
  }

  lemma BadKeyAddsInk(text: Option<string>, k: string, v: string, w: string)
    requires !ValidKey(k)
    ensures Ink(EditedText(Some(EditedText(text, k, v)), k, w)) > Ink(EditedText(text, k, w))
  {
    var once := EditedText(text, k, v);
    var g := Ink(Assignment(k, w));
    SplitUnbroken(once);
    if text.Some? { SplitUnbroken(text.value); }
    EqualsSign(k, v);
    InkOfEdited(text, k, v);
    InkOfEdited(text, k, w);
    InkOfEdited(Some(once), k, w);
    OnlyIdentifiersAssigned(LinesOf(text), k);
    OnlyIdentifiersAssigned(SplitLines(once), k);
    NothingAssignedIsInk(LinesOf(text), k, g);
    NothingAssignedIsInk(LinesOf(text), k, Ink(Assignment(k, v)));
    NothingAssignedIsInk(SplitLines(once), k, g);
    InkOfSplit(once);
  }

  /** Splitting loses breaks only. */
  lemma {:induction false} InkOfSplit(t: string)
    ensures InkOfLines(SplitLines(t)) == Ink(t)
    decreases |t|
  {
    if LineEnd(t) == |t| {
      LineEndUnbroken(t);
      LineEndIs(t, "");
      assert t + "" == t;
      if t != "" { assert [t][..0] == []; }
    } else {
      var l, br, rest := FirstLine(t);
      SplitAtBreak(l, br, rest);
      BreakIsSpace(br, rest);
      InkOfSpace(br);
      InkConcat(l, br + rest);
      InkConcat(br, rest);
      InkOfSplit(rest);
      InkOfCons(l, SplitLines(rest));
    }
  }

  lemma {:induction false} InkOfCons(l: string, rest: seq<string>)
    ensures InkOfLines([l] + rest) == Ink(l) + InkOfLines(rest)
  {
    if rest == [] {
      assert [l] + rest == [l] && [l][..0] == [];
    } else {
      assert ([l] + rest)[..|rest|] == [l] + rest[..|rest| - 1];
      InkOfCons(l, rest[..|rest| - 1]);
    }
  }
}
