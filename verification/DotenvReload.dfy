// Reloading the file over the environment that the editor of packages/env/dotenv.py has set: when the two
// agree, for every key and every value.
module DotenvReload {
  import opened Wrappers
  import opened Text
  import opened Dotenv
  import opened DotenvProofs
  import opened DotenvPieces

  // ---- What readers find depends on the pieces only -----------------------

  lemma {:induction false} ReadSolid(lines: seq<string>)
    ensures ReadLines(Solid(lines)) == ReadLines(lines)
    ensures AllTaken(Solid(lines), None) <==> AllTaken(lines, None)
  {
    if lines != [] {
      var init, last := lines[..|lines| - 1], lines[|lines| - 1];
      assert lines == init + [last];
      ReadSolid(init);
      ReadRStripped(last);
      TakenSnoc(init, last, None);
      TakenSnoc(Solid(init), RStrip(last), None);
      assert (Solid(init) + [RStrip(last)])[..|Solid(init)|] == Solid(init);
    }
  }

  lemma {:induction false} ReadConcat(a: seq<string>, b: seq<string>)
    ensures ReadLines(a + b) == ReadLines(a) + ReadLines(b)
  {
    if b == [] {
      assert a + b == a;
    } else {
      var init, r := b[..|b| - 1], ReadLine(b[|b| - 1]);
      assert (a + b)[..|a + b| - 1] == a + init;
      ReadConcat(a, init);
      if r.Some? { AddAbove(ReadLines(a), ReadLines(init), r.value.0, r.value.1); }
    }
  }

  lemma TakenConcat(a: seq<string>, b: seq<string>)
    ensures AllTaken(a + b, None) <==> AllTaken(a, None) && AllTaken(b, None)
  {
    assert forall l :: l in a + b <==> l in a || l in b;
  }

  lemma {:induction false} PiecesOfUnbroken(lines: seq<string>)
    requires Unbroken(lines)
    ensures AllPieces(lines) == Solid(lines)
  {
    if lines != [] {
      var init, last := lines[..|lines| - 1], lines[|lines| - 1];
      UnbrokenParts(lines);
      PiecesOfUnbroken(init);
      PieceOfLine(last);
      SolidOne(last);
    }
  }

  /** The pieces of a file to which a line was appended. */
  lemma PiecesOfAppended(lines: seq<string>, f: string)
    requires Unbroken(lines)
    ensures AllPieces(lines + [f]) == AllPieces(lines + ["", f]) == Solid(lines) + Pieces(f)
  {
    PiecesOfUnbroken(lines);
    assert (lines + [f])[..|lines|] == lines;
    assert (lines + ["", f])[..|lines| + 1] == lines + [""] && (lines + [""])[..|lines|] == lines;
    assert Pieces("") == [];
    assert Solid(lines) + [] == Solid(lines);
  }

  /** What readers find in the file after an edit with a key that is no identifier: the old lines, then the
      pieces of the new one. */
  lemma ReadAfterAppend(text: Option<string>, k: string, v: string)
    requires !ValidKey(k)
    ensures var after, appended := SplitLines(EditedText(text, k, v)), SplitLines(Assignment(k, v));
            && ReadLines(after) == ReadLines(LinesOf(text)) + ReadLines(appended)
            && (AllTaken(after, None) <==> AllTaken(LinesOf(text), None) && AllTaken(appended, None))
  {
    var lines, f, t := LinesOf(text), Assignment(k, v), EditedText(text, k, v);
    if text.Some? { SplitUnbroken(text.value); }
    OnlyIdentifiersAssigned(lines, k);
    NothingReplaced(lines, k, f);
    PiecesOfEdited(text, k, v);
    PiecesOfAppended(lines, f);
    ReadSolid(SplitLines(t));
    ReadSolid(lines);
    ReadSolid(SplitLines(f));
    ReadConcat(Solid(lines), Pieces(f));
    TakenConcat(Solid(lines), Pieces(f));
  }

  // ---- Three cases --------------------------------------------------------

  /** Neither the edit nor the reload raises, and the environment after the reload is what the editor made of
      it and of the old file. */
  ghost predicate ReloadAgrees(text: Option<string>, environ: map<string, string>, k: string, v: string) {
    && EnvironTakes(k, v)
    && Loaded(environ[k := v], SplitLines(EditedText(text, k, v)), true) ==
       Loading((environ + ReadLines(LinesOf(text)))[k := v], false)
  }

  lemma ReloadPlain(text: Option<string>, environ: map<string, string>, k: string, v: string)
    requires ValidKey(k) && NoBreak(v)
    ensures ReloadAgrees(text, environ, k, v) <==> RoundTrips(v) && '\0' !in v && AllTaken(LinesOf(text), Some(k))
  {
    var lines := SplitLines(EditedText(text, k, v));
    LoadedOver(environ[k := v], lines);
    ReadAfterSet(text, k, v);
    ReadBackIsValue(v);
    OverrideKey(environ, ReadLines(LinesOf(text)), k, v, ReadBack(v));
    LinesAfterSet(text, k, v);
    WrittenLineIsRead(k, v);
    TakenTrimmed(Edited(LinesOf(text), k, Assignment(k, v)));
    TakenEdited(LinesOf(text), k, Assignment(k, v));
    WrittenTaken(k, v);
  }

  lemma {:induction false} ReadMeansAssigned(lines: seq<string>, k: string)
    ensures k in ReadLines(lines) <==> AnyAssigns(lines, k)
  {
    if lines != [] {
      ReadMeansAssigned(lines[..|lines| - 1], k);
      AssignsIsRead(lines[|lines| - 1], k);
    }
  }

  lemma {:induction false} AssignedConcat(a: seq<string>, b: seq<string>, k: string)
    ensures AnyAssigns(a + b, k) <==> AnyAssigns(a, k) || AnyAssigns(b, k)
  {
    if b == [] {
      assert a + b == a;
    } else {
      assert (a + b)[..|a + b| - 1] == a + b[..|b| - 1];
      AssignedConcat(a, b[..|b| - 1], k);
    }
  }

  /** A line whose pieces assign the key makes the file assign it. */
  lemma {:induction false} AssignedPiece(lines: seq<string>, i: nat, k: string)
    requires i < |lines| && AnyAssigns(Pieces(lines[i]), k)
    ensures AnyAssigns(AllPieces(lines), k)
  {
    var init, last := lines[..|lines| - 1], lines[|lines| - 1];
    AssignedConcat(AllPieces(init), Pieces(last), k);
    if i < |init| {
      AssignedPiece(init, i, k);
    }
  }

  lemma {:induction false} ReplacedHolds(lines: seq<string>, k: string, f: string) returns (i: nat)
    requires AnyAssigns(lines, k)
    ensures i < |Replaced(lines, k, f)| && Replaced(lines, k, f)[i] == f
  {
    var init := lines[..|lines| - 1];
    if AnyAssigns(init, k) {
      i := ReplacedHolds(init, k, f);
    } else {
      i := |Replaced(init, k, f)|;
    }
  }

  lemma EditedHolds(lines: seq<string>, k: string, f: string) returns (i: nat)
    ensures i < |Edited(lines, k, f)| && Edited(lines, k, f)[i] == f
  {
    if AnyAssigns(lines, k) {
      i := ReplacedHolds(lines, k, f);
    } else {
      i := |Edited(lines, k, f)| - 1;
    }
  }

  /** A value with a line break is never what the file gives back: its first piece assigns the key. */
  lemma ReloadBroken(text: Option<string>, environ: map<string, string>, k: string, v: string)
    requires ValidKey(k) && !NoBreak(v)
    ensures !ReloadAgrees(text, environ, k, v)
  {
    var f, lines := Assignment(k, v), SplitLines(EditedText(text, k, v));
    var l, br, rest := BrokenInTwo(k, v);
    FirstPiece(l, br, rest);
    AssignsRStripped(l, k);
    SolidOne(l);
    AssignedConcat(Solid([l]), Pieces(rest), k);
    assert [RStrip(l)][..0] == [];
    var i := EditedHolds(LinesOf(text), k, f);
    AssignedPiece(Edited(LinesOf(text), k, f), i, k);
    PiecesOfEdited(text, k, v);
    ReadMeansAssigned(Pieces(EditedText(text, k, v)), k);
    ReadSolid(lines);
    SplitUnbroken(EditedText(text, k, v));
    ReadLinesShape(lines, k);
    LoadedOver(environ[k := v], lines);
  }

  /** Every variable the new line sets has that value already. */
  predicate SetsNothingNew(base: map<string, string>, added: map<string, string>) {
    forall x :: x in added ==> x in base && base[x] == added[x]
  }

  lemma OverlayAgrees(environ: map<string, string>, before: map<string, string>, added: map<string, string>, k: string, v: string)
    requires k !in before && k !in added
    ensures environ[k := v] + (before + added) == (environ + before)[k := v] <==> SetsNothingNew(environ + before, added)
  {
    var left, right := environ[k := v] + (before + added), (environ + before)[k := v];
    if left == right {
      forall x | x in added
        ensures x in environ + before && (environ + before)[x] == added[x]
      {
        assert left[x] == added[x] && x != k;
      }
    }
    if SetsNothingNew(environ + before, added) {
      assert left.Keys == right.Keys;
    }
  }

  lemma ReloadAppended(text: Option<string>, environ: map<string, string>, k: string, v: string)
    requires !ValidKey(k)
    ensures var appended := SplitLines(Assignment(k, v));
            ReloadAgrees(text, environ, k, v) <==>
            && EnvironTakes(k, v) && AllTaken(LinesOf(text), None) && AllTaken(appended, None)
            && SetsNothingNew(environ + ReadLines(LinesOf(text)), ReadLines(appended))
  {
    var appended := SplitLines(Assignment(k, v));
    ReadAfterAppend(text, k, v);
    LoadedOver(environ[k := v], SplitLines(EditedText(text, k, v)));
    SplitUnbroken(Assignment(k, v));
    if text.Some? { SplitUnbroken(text.value); }
    OnlyIdentifiersAssigned(LinesOf(text), k);
    OnlyIdentifiersAssigned(appended, k);
    ReadMeansAssigned(LinesOf(text), k);
    ReadMeansAssigned(appended, k);
    OverlayAgrees(environ, ReadLines(LinesOf(text)), ReadLines(appended), k, v);
  }

  /** The editor also sets the process environment.  Reloading the file over it raises nothing and agrees
      with it exactly under these conditions.  For an identifier: the value round trips and has no null
      character, and no other line of the old file has a value the environment does not take.  For any
      other key, whose line is appended: the environment takes the key and what the old lines and the new one
      assign, and the new one assigns nothing but values that are there already. */
  lemma ReloadAgreesIff(text: Option<string>, environ: map<string, string>, k: string, v: string)
    ensures var appended := SplitLines(Assignment(k, v));
            ReloadAgrees(text, environ, k, v) <==>
            if ValidKey(k) then RoundTrips(v) && '\0' !in v && AllTaken(LinesOf(text), Some(k))
            else && EnvironTakes(k, v) && AllTaken(LinesOf(text), None) && AllTaken(appended, None)
                 && SetsNothingNew(environ + ReadLines(LinesOf(text)), ReadLines(appended))
  {
    if !ValidKey(k) {
      ReloadAppended(text, environ, k, v);
    } else if NoBreak(v) {
      ReloadPlain(text, environ, k, v);
    } else {
      ReloadBroken(text, environ, k, v);
    }
  }

  // ---- A key with the word "export" ---------------------------------------

  lemma ReadOne(l: string)
    ensures ReadLines([l]) == if ReadLine(l).None? then map[] else map[ReadLine(l).value.0 := ReadLine(l).value.1]
  {
    assert [l][..0] == [];
  }

  lemma PrefixParts(inner: string)
    ensures var s := "export " + inner; "export" <= s && s[6] == ' ' && s[6..] == " " + inner
  {
  }

  /** The word in front of a trimmed text is not stripped, and behind it the text is. */
  lemma ExportStripped(inner: string)
    requires inner != "" && Trimmed(inner)
    ensures var s := "export " + inner; LStrip(s) == s && Strip(s) == s && LStrip(s[6..]) == inner
  {
    var s := "export " + inner;
    PrefixParts(inner);
    LStripTrimmed(s);
    assert s[|s| - 1] == inner[|inner| - 1];
    LStripSkips(" ", inner);
    LStripTrimmed(inner);
  }

  lemma ExportMatched(a: string, f: string)
    requires ValidKey(a) && LStrip(f) == f && Trimmed(a + "=" + f)
    ensures MatchLine("export " + (a + "=" + f)) == Some((a, f))
  {
    PrefixParts(a + "=" + f);
    ExportStripped(a + "=" + f);
    MatchAssignmentIs(a, f);
  }

  lemma AssignmentTrimmed(a: string, v: string)
    requires ValidKey(a)
    ensures Trimmed(Assignment(a, v)) && Assignment("export " + a, v) == "export " + Assignment(a, v)
  {
    var f := FormatEnvValue(v);
    var s := a + "=" + f;
    FormattedTrimmed(v);
    assert s[0] == a[0] && a[0] in a;
    assert s[|s| - 1] == if f == "" then '=' else f[|f| - 1];
    assert "export " + a + "=" + f == "export " + s;
  }

  lemma ExportedLineIsRead(a: string, v: string)
    requires ValidKey(a)
    ensures ReadLine(Assignment("export " + a, v)) == Some((a, ReadBack(v)))
  {
    AssignmentTrimmed(a, v);
    FormattedTrimmed(v);
    ExportStripped(Assignment(a, v));
    ExportMatched(a, FormatEnvValue(v));
    assert ("export " + Assignment(a, v))[0] == 'e';
  }

  lemma ExportedSplit(a: string, v: string)
    requires ValidKey(a) && NoBreak(v)
    ensures !ValidKey("export " + a)
    ensures SplitLines(Assignment("export " + a, v)) == ["export " + Assignment(a, v)]
  {
    var k, f := "export " + a, "export " + Assignment(a, v);
    assert k[6] == ' ' && k[6] in k;
    AssignmentTrimmed(a, v);
    WrittenNoBreak(a, v);
    assert NoBreak(f);
    SplitLine(f);
  }

  lemma ExportedEnviron(a: string, v: string)
    requires ValidKey(a)
    ensures EnvironTakes("export " + a, v) <==> '\0' !in v
  {
    assert forall c :: c in a ==> IdentPart(c);
  }

  lemma ExportedTaken(a: string, v: string)
    requires ValidKey(a) && NoBreak(v)
    ensures var added := SplitLines(Assignment("export " + a, v));
            && ReadLines(added) == map[a := ReadBack(v)]
            && (AllTaken(added, None) <==> '\0' !in v)
  {
    ExportedSplit(a, v);
    AssignmentTrimmed(a, v);
    ExportedLineIsRead(a, v);
    ReadOne("export " + Assignment(a, v));
    WrittenTaken(a, v);
    WrittenLineIsRead(a, v);
  }

  /** Setting "export A" appends a line that every reader takes for A: the reload agrees with the editor only
      if A had that value already. */
  lemma ExportedKeyOnReload(text: Option<string>, environ: map<string, string>, a: string, v: string)
    requires ValidKey(a) && NoBreak(v)
    ensures var base := environ + ReadLines(LinesOf(text));
            ReloadAgrees(text, environ, "export " + a, v) <==>
            AllTaken(LinesOf(text), None) && '\0' !in v && a in base && base[a] == ReadBack(v)
  {
    ExportedSplit(a, v);
    ExportedTaken(a, v);
    ReloadAgreesIff(text, environ, "export " + a, v);
    ExportedEnviron(a, v);
  }
}
