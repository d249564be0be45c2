// Which values survive the .env editor and its readers.
module DotenvProofs {
  import opened Wrappers
  import opened Text
  import opened Dotenv

  // ---- Text ---------------------------------------------------------------

  lemma LStripTrimmed(s: string)
    requires s == "" || !IsSpace(s[0])
    ensures LStrip(s) == s
  {
  }

  /** Trailing white space does not move the front of a text that is not all white space. */
  lemma {:induction false} LStripBefore(s: string, b: string)
    requires AllSpace(b)
    ensures if LStrip(s) == "" then LStrip(s + b) == "" else LStrip(s + b) == LStrip(s) + b
  {
    if s == "" {
      assert s + b == b + "";
      LStripSkips(b, "");
    } else if IsSpace(s[0]) {
      assert (s + b)[1..] == s[1..] + b;
      LStripBefore(s[1..], b);
    }
  }

  lemma StripAfter(s: string, b: string)
    requires AllSpace(b)
    ensures Strip(s + b) == Strip(s)
  {
    LStripBefore(s, b);
    if LStrip(s) != "" {
      RStripSkips(LStrip(s), b);
    }
  }

  lemma {:induction false} LStripTwice(s: string)
    ensures LStrip(LStrip(s)) == LStrip(s)
  {
    var a := LStripParts(s);
    LStripTrimmed(LStrip(s));
  }

  lemma StripLStrip(s: string)
    ensures Strip(LStrip(s)) == Strip(s)
  {
    LStripTwice(s);
  }

  // ---- Matching a line with white space around it -------------------------

  lemma {:induction false} PartLengthBefore(s: string, b: string)
    requires AllSpace(b)
    ensures PartLength(s + b) == PartLength(s)
  {
    if s == "" {
      assert s + b == b;
    } else if IdentPart(s[0]) {
      assert (s + b)[1..] == s[1..] + b;
      PartLengthBefore(s[1..], b);
    }
  }

  ghost predicate SameAssignment(m: Option<(string, string)>, n: Option<(string, string)>) {
    m.Some? == n.Some? && (m.Some? ==> m.value.0 == n.value.0 && Strip(m.value.1) == Strip(n.value.1))
  }

  lemma AssignmentBefore(s: string, b: string)
    requires AllSpace(b)
    ensures SameAssignment(MatchAssignment(s), MatchAssignment(s + b))
  {
    if s == "" {
      assert s + b == b;
    } else if IdentStart(s[0]) {
      PartLengthBefore(s, b);
      var n := PartLength(s);
      assert (s + b)[..n] == s[..n] && (s + b)[n..] == s[n..] + b;
      LStripBefore(s[n..], b);
      var rest := LStrip(s[n..]);
      if rest != "" && rest[0] == '=' {
        assert (rest + b)[1..] == rest[1..] + b;
        StripLStrip(rest[1..] + b);
        StripLStrip(rest[1..]);
        StripAfter(rest[1..], b);
      }
    }
  }

  /** The editor, which matches the raw line, and the readers, which strip it first, see the same key. */
  lemma MatchStripped(line: string)
    ensures SameAssignment(MatchLine(Strip(line)), MatchLine(line))
  {
    var a, b := StripParts(line);
    var s := Strip(line);
    assert line == a + (s + b);
    LStripSkips(a, s + b);
    if s == "" {
      assert s + b == b + "";
      LStripSkips(b, "");
    } else {
      LStripTrimmed(s);
      LStripTrimmed(s + b);
      MatchBefore(s, b);
    }
  }

  lemma ExportFits(s: string, b: string)
    requires AllSpace(b) && "export" <= s + b
    ensures |s| >= 6
  {
    var i := if |s| < 6 then |s| else 0;
    assert (s + b)[i] == "export"[i];
    assert !IsSpace("export"[i]);
  }

  lemma MatchBefore(s: string, b: string)
    requires AllSpace(b) && Trimmed(s) && s != "" && LStrip(s) == s && LStrip(s + b) == s + b
    ensures SameAssignment(MatchLine(s), MatchLine(s + b))
  {
    AssignmentBefore(s, b);
    if "export" <= s + b && |s + b| > 6 && IsSpace((s + b)[6]) {
      if |s| > 6 {
        assert s[..6] == (s + b)[..6];
        assert (s + b)[6..] == s[6..] + b;
        LStripBefore(s[6..], b);
        AssignmentBefore(LStrip(s[6..]), b);
      } else {
        ExportFits(s, b);
        assert (s + b)[6..] == b;
        assert b == b + "";
        LStripSkips(b, "");
      }
    }
  }

  /** A line is replaced exactly when the readers take the key from it. */
  lemma AssignsIsRead(line: string, key: string)
    ensures Assigns(line, key) <==> ReadLine(line).Some? && ReadLine(line).value.0 == key
  {
    MatchStripped(line);
  }

  lemma SameStripSameRead(a: string, b: string)
    requires Strip(a) == Strip(b)
    ensures ReadLine(a) == ReadLine(b)
  {
  }

  // ---- The line the editor writes -----------------------------------------

  /** What a reader makes of a formatted value: quoted values stay escaped. */
  function ReadBack(value: string): string {
    if NeedsQuotes(value) then Escape(value) else value
  }

  lemma {:induction false} EscapeLength(v: string)
    ensures |Escape(v)| >= |v|
    ensures |Escape(v)| == |v| <==> '"' !in v && '\\' !in v
    ensures '"' !in v && '\\' !in v ==> Escape(v) == v
  {
    if v != "" {
      EscapeLength(v[1..]);
      assert v == [v[0]] + v[1..];
    }
  }

  lemma ReadBackIsValue(value: string)
    requires NoBreak(value)
    ensures ReadBack(value) == value <==> RoundTrips(value)
  {
    EscapeLength(value);
    if '"' in value { assert Special('"'); }
  }

  lemma FormattedTrimmed(value: string)
    ensures Trimmed(FormatEnvValue(value))
    ensures StripQuotes(FormatEnvValue(value)) == ReadBack(value)
    ensures LStrip(FormatEnvValue(value)) == FormatEnvValue(value)
  {
    var f := FormatEnvValue(value);
    if NeedsQuotes(value) {
      assert f[1..|f| - 1] == Escape(value);
    } else if value != "" {
      assert !Special(value[0]) && !Special(value[|value| - 1]);
    }
    StripIs("", f, "");
    assert "" + f + "" == f;
    LStripTrimmed(f);
  }

  lemma {:induction false} PartLengthIs(k: string, rest: string)
    requires (forall c :: c in k ==> IdentPart(c)) && rest != "" && !IdentPart(rest[0])
    ensures PartLength(k + rest) == |k|
  {
    if k == "" {
      assert k + rest == rest;
    } else {
      assert (k + rest)[1..] == k[1..] + rest;
      PartLengthIs(k[1..], rest);
    }
  }

  lemma MatchAssignmentIs(k: string, f: string)
    requires ValidKey(k) && LStrip(f) == f
    ensures MatchAssignment(k + "=" + f) == Some((k, f))
  {
    var s := k + "=" + f;
    assert s == k + ("=" + f);
    PartLengthIs(k, "=" + f);
    assert s[|k|..] == "=" + f && s[..|k|] == k;
    LStripTrimmed("=" + f);
    assert ("=" + f)[1..] == f;
  }

  lemma MatchLineIs(k: string, f: string)
    requires ValidKey(k) && LStrip(f) == f
    ensures MatchLine(k + "=" + f) == Some((k, f))
  {
    var s := k + "=" + f;
    assert s[0] == k[0] && IdentPart(k[0]);
    LStripTrimmed(s);
    MatchAssignmentIs(k, f);
    if "export" <= s && |s| > 6 {
      assert s[|k|] == '=';
      if |k| > 6 { assert s[6] == k[6] && k[6] in k; }
      assert !IsSpace(s[6]);
    }
  }

  /** The line written for a value without a line break is read as that key and `ReadBack`. */
  lemma WrittenLineIsRead(k: string, value: string)
    requires ValidKey(k)
    ensures ReadLine(Assignment(k, value)) == Some((k, ReadBack(value)))
    ensures Strip(Assignment(k, value)) != "" && RStrip(Assignment(k, value)) == Assignment(k, value)
  {
    var f := FormatEnvValue(value);
    var s := k + "=" + f;
    FormattedTrimmed(value);
    assert s[0] == k[0] && k[0] in k;
    assert s[|s| - 1] == if f == "" then '=' else f[|f| - 1];
    assert Trimmed(s);
    StripIs("", s, "");
    assert "" + s + "" == s;
    MatchLineIs(k, f);
  }

  // ---- What a reader can return -------------------------------------------

  lemma PartOfLine(s: string, i: nat, j: nat)
    requires i <= j <= |s| && NoBreak(s)
    ensures NoBreak(s[i..j])
  {
  }

  lemma LStripNoBreak(s: string)
    requires NoBreak(s)
    ensures NoBreak(LStrip(s))
  {
    var a := LStripParts(s);
    assert forall c :: c in LStrip(s) ==> c in a + LStrip(s);
  }

  lemma StripNoBreak(s: string)
    requires NoBreak(s)
    ensures NoBreak(Strip(s))
  {
    var a, b := StripParts(s);
    assert forall c :: c in Strip(s) ==> c in a + Strip(s) + b;
  }

  lemma AssignmentNoBreak(s: string)
    requires NoBreak(s) && MatchAssignment(s).Some?
    ensures NoBreak(MatchAssignment(s).value.1) && ValidKey(MatchAssignment(s).value.0)
  {
    var n := PartLength(s);
    PartOfLine(s, n, |s|);
    assert s[n..|s|] == s[n..];
    LStripNoBreak(s[n..]);
    var rest := LStrip(s[n..]);
    PartOfLine(rest, 1, |rest|);
    assert rest[1..|rest|] == rest[1..];
    LStripNoBreak(rest[1..]);
    assert IdentPart(s[0]) && n > 0;
  }

  /** Keys are always identifiers and values never hold a line break. */
  lemma ReadLineShape(raw: string)
    requires NoBreak(raw) && ReadLine(raw).Some?
    ensures ValidKey(ReadLine(raw).value.0) && NoBreak(ReadLine(raw).value.1)
  {
    StripNoBreak(raw);
    var line := Strip(raw);
    LStripNoBreak(line);
    var s := LStrip(line);
    if "export" <= s && |s| > 6 && IsSpace(s[6]) && MatchAssignment(LStrip(s[6..])).Some? {
      PartOfLine(s, 6, |s|);
      assert s[6..|s|] == s[6..];
      LStripNoBreak(s[6..]);
      AssignmentNoBreak(LStrip(s[6..]));
    } else {
      AssignmentNoBreak(s);
    }
    var v := MatchLine(line).value.1;
    StripNoBreak(v);
    var t := Strip(v);
    if |t| >= 2 { PartOfLine(t, 1, |t| - 1); }
  }

  // ---- Joining and splitting ----------------------------------------------

  ghost predicate Unbroken(lines: seq<string>) {
    forall l :: l in lines ==> NoBreak(l)
  }

  lemma {:induction false} LineEndIs(l: string, rest: string)
    requires NoBreak(l) && (rest != "" ==> IsBreak(rest[0]))
    ensures LineEnd(l + rest) == |l|
  {
    if l == "" {
      assert l + rest == rest;
    } else {
      assert l[0] in l;
      assert (l + rest)[1..] == l[1..] + rest;
      LineEndIs(l[1..], rest);
    }
  }

  lemma SplitFirst(l: string, rest: string)
    requires NoBreak(l)
    ensures SplitLines(l + "\n" + rest) == [l] + SplitLines(rest)
  {
    var t := l + ("\n" + rest);
    assert l + "\n" + rest == t;
    LineEndIs(l, "\n" + rest);
    assert t[..|l|] == l && t[|l|..] == "\n" + rest;
    assert ("\n" + rest)[1..] == rest;
  }

  /** The lines, each with a newline behind it. */
  function Terminated(lines: seq<string>): string {
    if lines == [] then "" else lines[0] + "\n" + Terminated(lines[1..])
  }

  lemma {:induction false} TerminatedSnoc(lines: seq<string>, l: string)
    ensures Terminated(lines + [l]) == Terminated(lines) + l + "\n"
  {
    if lines != [] {
      assert (lines + [l])[1..] == lines[1..] + [l];
      TerminatedSnoc(lines[1..], l);
    }
  }

  lemma {:induction false} JoinTerminated(lines: seq<string>)
    requires lines != []
    ensures Join(lines) + "\n" == Terminated(lines)
  {
    var init, last := lines[..|lines| - 1], lines[|lines| - 1];
    assert lines == init + [last];
    TerminatedSnoc(init, last);
    if |lines| == 1 {
      assert Terminated(init) == "";
    } else {
      JoinTerminated(init);
    }
  }

  lemma {:induction false} SplitTerminated(lines: seq<string>)
    requires Unbroken(lines)
    ensures SplitLines(Terminated(lines)) == lines
  {
    if lines != [] {
      assert lines[0] in lines;
      assert forall l :: l in lines[1..] ==> l in lines;
      SplitTerminated(lines[1..]);
      SplitFirst(lines[0], Terminated(lines[1..]));
    }
  }

  /** Lines without breaks come back from the text they are joined into. */
  lemma SplitJoin(lines: seq<string>)
    requires Unbroken(lines) && lines != []
    ensures SplitLines(Join(lines) + "\n") == lines
  {
    JoinTerminated(lines);
    SplitTerminated(lines);
  }

  lemma {:induction false} SplitUnbroken(t: string)
    ensures Unbroken(SplitLines(t))
    decreases |t|
  {
    if t != "" {
      var n := LineEnd(t);
      if n < |t| {
        SplitUnbroken(t[n..][BreakWidth(t[n..])..]);
      }
    }
  }

  // ---- Trimming the end of the file ---------------------------------------

  /** The lines that `rstrip` leaves: blank ones at the end go, and the last one loses its tail. */
  function TrimTail(lines: seq<string>): seq<string> {
    if lines == [] then []
    else
      var init, last := lines[..|lines| - 1], RStrip(lines[|lines| - 1]);
      if last == "" then TrimTail(init) else init + [last]
  }

  lemma RStripBehind(a: string, s: string)
    requires RStrip(s) != ""
    ensures RStrip(a + s) == a + RStrip(s)
  {
    var b := RStripParts(s);
    assert a + s == (a + RStrip(s)) + b;
    RStripSkips(a + RStrip(s), b);
  }

  lemma RStripBlank(a: string, s: string)
    requires RStrip(s) == ""
    ensures RStrip(a + s) == RStrip(a)
  {
    var b := RStripParts(s);
    assert s == b;
    RStripSkips(a, b);
  }

  lemma {:induction false} RStripJoin(lines: seq<string>)
    ensures RStrip(Join(lines)) == Join(TrimTail(lines))
  {
    if lines != [] {
      var init, last := lines[..|lines| - 1], lines[|lines| - 1];
      RStripJoin(init);
      if |lines| == 1 {
        assert init == [];
        assert TrimTail(lines) == if RStrip(last) == "" then [] else [RStrip(last)];
      } else {
        assert Join(lines) == Join(init) + ("\n" + last);
        if RStrip(last) == "" {
          RStripBlank("\n", last);
          assert RStrip("\n") == "";
          RStripBlank(Join(init), "\n" + last);
        } else {
          RStripBehind("\n", last);
          RStripBehind(Join(init), "\n" + last);
          var r := init + [RStrip(last)];
          assert r[..|r| - 1] == init;
        }
      }
    }
  }

  lemma {:induction false} TrimTailUnbroken(lines: seq<string>)
    requires Unbroken(lines)
    ensures Unbroken(TrimTail(lines))
  {
    if lines != [] {
      var init, last := lines[..|lines| - 1], lines[|lines| - 1];
      TrimTailUnbroken(init);
      var b := RStripParts(last);
      assert last in lines;
      forall c | c in RStrip(last)
        ensures !IsBreak(c)
      {
        assert c in RStrip(last) + b;
      }
      assert forall l :: l in init ==> l in lines;
    }
  }

  lemma ReadRStripped(l: string)
    ensures ReadLine(RStrip(l)) == ReadLine(l)
    ensures RStrip(l) == "" ==> ReadLine(l) == None
  {
    var b := RStripParts(l);
    StripAfter(RStrip(l), b);
    SameStripSameRead(RStrip(l), l);
  }

  lemma {:induction false} ReadTrimTail(lines: seq<string>)
    ensures ReadLines(TrimTail(lines)) == ReadLines(lines)
  {
    if lines != [] {
      var init, last := lines[..|lines| - 1], lines[|lines| - 1];
      ReadTrimTail(init);
      ReadRStripped(last);
      var r := init + [RStrip(last)];
      assert r[..|r| - 1] == init;
    }
  }

  // ---- Editing and reading ------------------------------------------------

  lemma {:induction false} ReplacedReads(lines: seq<string>, k: string, f: string, u: string)
    requires ReadLine(f) == Some((k, u))
    ensures ReadLines(Replaced(lines, k, f)) ==
            if AnyAssigns(lines, k) then ReadLines(lines)[k := u] else ReadLines(lines)
  {
    if lines != [] {
      var init, last := lines[..|lines| - 1], lines[|lines| - 1];
      ReplacedReads(init, k, f, u);
      AssignsIsRead(last, k);
    }
  }

  lemma ReadAppended(lines: seq<string>, k: string, f: string, u: string)
    requires ReadLine(f) == Some((k, u))
    ensures ReadLines(lines + [f]) == ReadLines(lines)[k := u]
  {
    assert (lines + [f])[..|lines|] == lines;
  }

  lemma ReadBlank(lines: seq<string>)
    ensures ReadLines(lines + [""]) == ReadLines(lines)
  {
    assert (lines + [""])[..|lines|] == lines;
    assert ReadLine("") == None;
  }

  lemma EditedReads(lines: seq<string>, k: string, f: string, u: string)
    requires ReadLine(f) == Some((k, u))
    ensures ReadLines(Edited(lines, k, f)) == ReadLines(lines)[k := u]
  {
    if AnyAssigns(lines, k) {
      ReplacedReads(lines, k, f, u);
    } else {
      ReadAppended(lines, k, f, u);
      ReadBlank(lines);
      ReadAppended(lines + [""], k, f, u);
      assert lines + ["", f] == (lines + [""]) + [f];
    }
  }

  lemma {:induction false} EscapeNoBreak(v: string)
    requires NoBreak(v)
    ensures NoBreak(Escape(v))
  {
    if v != "" {
      assert v[0] in v;
      EscapeNoBreak(v[1..]);
    }
  }

  lemma WrittenNoBreak(k: string, v: string)
    requires ValidKey(k) && NoBreak(v)
    ensures NoBreak(Assignment(k, v))
  {
    EscapeNoBreak(v);
    var f := FormatEnvValue(v);
    forall c | c in f
      ensures !IsBreak(c)
    {
      if NeedsQuotes(v) { assert c == '"' || c in Escape(v); }
    }
    assert forall c :: c in k ==> IdentPart(c) && !IsBreak(c);
  }

  lemma {:induction false} ReplacedUnbroken(lines: seq<string>, k: string, f: string)
    requires Unbroken(lines) && NoBreak(f)
    ensures Unbroken(Replaced(lines, k, f))
  {
    if lines != [] {
      var init, last := lines[..|lines| - 1], lines[|lines| - 1];
      assert last in lines && forall l :: l in init ==> l in lines;
      ReplacedUnbroken(init, k, f);
    }
  }

  lemma EditedUnbroken(lines: seq<string>, k: string, f: string)
    requires Unbroken(lines) && NoBreak(f)
    ensures Unbroken(Edited(lines, k, f))
  {
    ReplacedUnbroken(lines, k, f);
  }

  /** The lines a reader finds after an edit. */
  lemma LinesAfterSet(text: Option<string>, k: string, v: string)
    requires ValidKey(k) && NoBreak(v)
    ensures SplitLines(EditedText(text, k, v)) == TrimTail(Edited(LinesOf(text), k, Assignment(k, v)))
  {
    var lines, f := LinesOf(text), Assignment(k, v);
    if text.Some? { SplitUnbroken(text.value); }
    WrittenNoBreak(k, v);
    WrittenLineIsRead(k, v);
    var e := Edited(lines, k, f);
    EditedUnbroken(lines, k, f);
    TrimTailUnbroken(e);
    RStripJoin(e);
    EditedReads(lines, k, f, ReadBack(v));
    ReadTrimTail(e);
    assert TrimTail(e) != [] by {
      assert k in ReadLines(TrimTail(e));
    }
    SplitJoin(TrimTail(e));
  }

  /** Reading back an edit: the key gets `ReadBack` of its value and nothing else changes. */
  lemma ReadAfterSet(text: Option<string>, k: string, v: string)
    requires ValidKey(k) && NoBreak(v)
    ensures ReadLines(SplitLines(EditedText(text, k, v))) == ReadLines(LinesOf(text))[k := ReadBack(v)]
  {
    LinesAfterSet(text, k, v);
    WrittenLineIsRead(k, v);
    EditedReads(LinesOf(text), k, Assignment(k, v), ReadBack(v));
    ReadTrimTail(Edited(LinesOf(text), k, Assignment(k, v)));
  }

  lemma {:induction false} ReadLinesShape(lines: seq<string>, k: string)
    requires Unbroken(lines) && k in ReadLines(lines)
    ensures ValidKey(k) && NoBreak(ReadLines(lines)[k])
  {
    var init, last := lines[..|lines| - 1], lines[|lines| - 1];
    assert last in lines && forall l :: l in init ==> l in lines;
    if ReadLine(last).Some? && ReadLine(last).value.0 == k {
      ReadLineShape(last);
    } else {
      ReadLinesShape(init, k);
    }
  }

  /** Writing a key and reading the file gives the old mapping with the key set, and every other key
      unchanged, exactly for identifier keys and values that hold no line break, no double quote and,
      if they need quoting, no backslash. */
  lemma SetThenReadIff(text: Option<string>, k: string, v: string)
    ensures ReadLines(SplitLines(EditedText(text, k, v))) == ReadLines(LinesOf(text))[k := v] <==>
            ValidKey(k) && RoundTrips(v)
  {
    var read := ReadLines(SplitLines(EditedText(text, k, v)));
    if ValidKey(k) && NoBreak(v) {
      ReadAfterSet(text, k, v);
      ReadBackIsValue(v);
      assert read[k] == ReadBack(v);
    } else {
      SplitUnbroken(EditedText(text, k, v));
      if k in read {
        ReadLinesShape(SplitLines(EditedText(text, k, v)), k);
      }
    }
  }

  // ---- Setting twice ------------------------------------------------------

  lemma {:induction false} ReplacedTwice(lines: seq<string>, k: string, f: string, g: string)
    requires Assigns(f, k)
    ensures Replaced(Replaced(lines, k, f), k, g) == Replaced(lines, k, g)
    ensures AnyAssigns(Replaced(lines, k, f), k) <==> AnyAssigns(lines, k)
  {
    if lines != [] {
      ReplacedTwice(lines[..|lines| - 1], k, f, g);
      var r := Replaced(lines, k, f);
      assert r[..|r| - 1] == Replaced(lines[..|lines| - 1], k, f);
    }
  }

  lemma ReplacedSnoc(lines: seq<string>, l: string, k: string, g: string)
    ensures Replaced(lines + [l], k, g) == Replaced(lines, k, g) + [if Assigns(l, k) then g else l]
    ensures AnyAssigns(lines + [l], k) <==> AnyAssigns(lines, k) || Assigns(l, k)
  {
    assert (lines + [l])[..|lines|] == lines;
  }

  lemma EditedTwice(lines: seq<string>, k: string, f: string, g: string)
    requires Assigns(f, k)
    ensures Replaced(Edited(lines, k, f), k, g) == Edited(lines, k, g)
    ensures AnyAssigns(Edited(lines, k, f), k)
  {
    ReplacedTwice(lines, k, f, g);
    if !AnyAssigns(lines, k) {
      NothingReplaced(lines, k, g);
      ReplacedSnoc(lines, f, k, g);
      ReplacedSnoc(lines, "", k, g);
      ReplacedSnoc(lines + [""], f, k, g);
      assert lines + ["", f] == (lines + [""]) + [f];
      assert lines + ["", g] == (lines + [""]) + [g];
      assert !Assigns("", k);
    }
  }

  lemma AssignsRStripped(l: string, k: string)
    ensures Assigns(RStrip(l), k) <==> Assigns(l, k)
    ensures RStrip(l) == "" ==> !Assigns(l, k)
    ensures RStrip(RStrip(l)) == RStrip(l)
  {
    ReadRStripped(l);
    AssignsIsRead(l, k);
    AssignsIsRead(RStrip(l), k);
    var b := RStripParts(l);
  }

  lemma TrimTailSnoc(lines: seq<string>, l: string)
    ensures TrimTail(lines + [l]) == if RStrip(l) == "" then TrimTail(lines) else lines + [RStrip(l)]
  {
    assert (lines + [l])[..|lines|] == lines;
  }

  /** Trimming the tail commutes with replacing. */
  lemma {:induction false} TrimReplaced(lines: seq<string>, k: string, g: string)
    requires RStrip(g) == g && g != ""
    ensures TrimTail(Replaced(TrimTail(lines), k, g)) == TrimTail(Replaced(lines, k, g))
    ensures AnyAssigns(TrimTail(lines), k) <==> AnyAssigns(lines, k)
  {
    if lines != [] {
      var init, last := lines[..|lines| - 1], lines[|lines| - 1];
      TrimReplaced(init, k, g);
      AssignsRStripped(last, k);
      ReplacedSnoc(init, RStrip(last), k, g);
      TrimTailSnoc(Replaced(init, k, g), if Assigns(last, k) then g else RStrip(last));
      TrimTailSnoc(Replaced(init, k, g), if Assigns(last, k) then g else last);
    }
  }

  /** Setting a key to a value without line breaks and then to another leaves the same text as
      setting it to the other one directly. */
  lemma SetTwiceIsSetOnce(text: Option<string>, k: string, v: string, w: string)
    requires ValidKey(k) && NoBreak(v)
    ensures EditedText(Some(EditedText(text, k, v)), k, w) == EditedText(text, k, w)
  {
    var lines, f, g := LinesOf(text), Assignment(k, v), Assignment(k, w);
    LinesAfterSet(text, k, v);
    WrittenLineIsRead(k, v);
    WrittenLineIsRead(k, w);
    AssignsIsRead(f, k);
    EditedTwice(lines, k, f, g);
    var e := Edited(lines, k, f);
    TrimReplaced(e, k, g);
    assert Edited(TrimTail(e), k, g) == Replaced(TrimTail(e), k, g);
    RStripJoin(Replaced(TrimTail(e), k, g));
    RStripJoin(Edited(lines, k, g));
  }

  // ---- Loading into the environment ---------------------------------------

  /** Earlier lines win. */
  function ReadFirst(lines: seq<string>): map<string, string> {
    if lines == [] then map[]
    else
      var before, r := ReadFirst(lines[..|lines| - 1]), ReadLine(lines[|lines| - 1]);
      if r.None? || r.value.0 in before then before else before[r.value.0 := r.value.1]
  }

  lemma AddAbove(env: map<string, string>, file: map<string, string>, k: string, v: string)
    ensures (env + file)[k := v] == env + file[k := v]
  {
  }

  lemma AddBelow(env: map<string, string>, file: map<string, string>, k: string, v: string)
    ensures k in file + env <==> k in file || k in env
    ensures k in env ==> file[k := v] + env == file + env
    ensures k !in env ==> (file + env)[k := v] == file[k := v] + env
  {
  }

  /** The environment takes whatever the readers find in the lines, the key `k` apart (None: no exception). */
  predicate AllTaken(lines: seq<string>, k: Option<string>) {
    forall l :: l in lines ==>
      var r := ReadLine(l);
      r.Some? && k != Some(r.value.0) ==> EnvironTakes(r.value.0, r.value.1)
  }

  lemma TakenSnoc(init: seq<string>, last: string, k: Option<string>)
    ensures AllTaken(init + [last], k) <==> AllTaken(init, k) && AllTaken([last], k)
  {
    assert forall l :: l in init + [last] <==> l in init || l == last;
  }

  lemma {:induction false} LoadedOver(env: map<string, string>, lines: seq<string>)
    ensures Loaded(env, lines, true).raised <==> !AllTaken(lines, None)
    ensures !Loaded(env, lines, true).raised ==> Loaded(env, lines, true).environ == env + ReadLines(lines)
  {
    if lines != [] {
      var init, last := lines[..|lines| - 1], lines[|lines| - 1];
      LoadedOver(env, init);
      assert lines == init + [last];
      TakenSnoc(init, last, None);
      var r := ReadLine(last);
      if r.Some? { AddAbove(env, ReadLines(init), r.value.0, r.value.1); }
    }
  }

  /** Some variable that is not set yet gets a value the environment does not take. */
  ghost predicate SomeRefused(env: map<string, string>, file: map<string, string>) {
    exists k :: k in file && k !in env && !EnvironTakes(k, file[k])
  }

  lemma {:induction false} LoadedUnder(env: map<string, string>, lines: seq<string>)
    ensures Loaded(env, lines, false).raised <==> SomeRefused(env, ReadFirst(lines))
    ensures !Loaded(env, lines, false).raised ==> Loaded(env, lines, false).environ == ReadFirst(lines) + env
  {
    if lines != [] {
      var init, r := lines[..|lines| - 1], ReadLine(lines[|lines| - 1]);
      LoadedUnder(env, init);
      if r.Some? {
        AddBelow(env, ReadFirst(init), r.value.0, r.value.1);
        RefusedMore(env, ReadFirst(init), r.value.0, r.value.1);
      }
    }
  }

  lemma RefusedMore(env: map<string, string>, file: map<string, string>, k: string, v: string)
    ensures k !in file ==>
              (SomeRefused(env, file[k := v]) <==> SomeRefused(env, file) || (k !in env && !EnvironTakes(k, v)))
  {
    if k !in file {
      if SomeRefused(env, file) {
        var x :| x in file && x !in env && !EnvironTakes(x, file[x]);
        assert x in file[k := v] && file[k := v][x] == file[x];
      }
      if k !in env && !EnvironTakes(k, v) { assert k in file[k := v]; }
    }
  }

  /** With override the file wins and its last lines decide; without, the environment wins and the first
      line of a key decides.  Loading raises exactly when a value that is to be set is not taken. */
  lemma LoadedIs(env: map<string, string>, lines: seq<string>)
    ensures var over := Loaded(env, lines, true);
            if over.raised then !AllTaken(lines, None) else AllTaken(lines, None) && over.environ == env + ReadLines(lines)
    ensures var under := Loaded(env, lines, false);
            if under.raised then SomeRefused(env, ReadFirst(lines))
            else !SomeRefused(env, ReadFirst(lines)) && under.environ == ReadFirst(lines) + env
  {
    LoadedOver(env, lines);
    LoadedUnder(env, lines);
  }

  lemma OverrideKey(env: map<string, string>, file: map<string, string>, k: string, v: string, u: string)
    ensures env[k := v] + file[k := u] == (env + file)[k := u]
    ensures (env + file)[k := u] == (env + file)[k := v] <==> u == v
  {
    assert (env + file)[k := u][k] == u && (env + file)[k := v][k] == v;
  }

  lemma {:induction false} TakenTrimmed(lines: seq<string>)
    ensures AllTaken(TrimTail(lines), None) <==> AllTaken(lines, None)
  {
    if lines != [] {
      var init, last := lines[..|lines| - 1], lines[|lines| - 1];
      assert lines == init + [last];
      TakenTrimmed(init);
      ReadRStripped(last);
      TakenSnoc(init, last, None);
      TakenSnoc(init, RStrip(last), None);
    }
  }

  lemma {:induction false} TakenReplaced(lines: seq<string>, k: string, f: string)
    requires ReadLine(f).Some? && ReadLine(f).value.0 == k
    ensures AllTaken(Replaced(lines, k, f), None) <==> AllTaken(lines, Some(k)) && (AnyAssigns(lines, k) ==> AllTaken([f], None))
  {
    if lines != [] {
      var init, last := lines[..|lines| - 1], lines[|lines| - 1];
      assert lines == init + [last];
      TakenReplaced(init, k, f);
      AssignsIsRead(last, k);
      TakenSnoc(init, last, Some(k));
      TakenSnoc(Replaced(init, k, f), if Assigns(last, k) then f else last, None);
    }
  }

  lemma TakenEdited(lines: seq<string>, k: string, f: string)
    requires ReadLine(f).Some? && ReadLine(f).value.0 == k
    ensures AllTaken(Edited(lines, k, f), None) <==> AllTaken(lines, Some(k)) && AllTaken([f], None)
  {
    TakenReplaced(lines, k, f);
    if !AnyAssigns(lines, k) {
      NothingReplaced(lines, k, f);
      TakenAppended(lines, f);
    }
  }

  lemma TakenAppended(lines: seq<string>, f: string)
    ensures AllTaken(lines + [f], None) <==> AllTaken(lines, None) && AllTaken([f], None)
    ensures AllTaken(lines + ["", f], None) <==> AllTaken(lines, None) && AllTaken([f], None)
  {
    TakenSnoc(lines, f, None);
    TakenSnoc(lines, "", None);
    TakenSnoc(lines + [""], f, None);
    assert lines + ["", f] == (lines + [""]) + [f];
    assert ReadLine("") == None;
  }

  lemma {:induction false} NullEscaped(v: string)
    ensures '\0' in Escape(v) <==> '\0' in v
  {
    if v != "" {
      NullEscaped(v[1..]);
      assert v == [v[0]] + v[1..];
    }
  }

  lemma WrittenTaken(k: string, v: string)
    requires ValidKey(k)
    ensures AllTaken([Assignment(k, v)], None) <==> EnvironTakes(k, v)
    ensures EnvironTakes(k, v) <==> '\0' !in v
  {
    WrittenLineIsRead(k, v);
    NullEscaped(v);
    assert forall c :: c in k ==> IdentPart(c);
    assert Assignment(k, v) in [Assignment(k, v)];
  }
}
