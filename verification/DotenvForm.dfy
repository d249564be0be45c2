// The text format of packages/env/dotenv.py, told from its characters: what a written value looks like, which
// keys there are, and which lines readers take an assignment from.
module DotenvForm {
  import opened Wrappers
  import opened Text
  import opened Dotenv
  import opened DotenvProofs

  // ---- Written values -----------------------------------------------------

  /** No character that makes the editor quote a value. */
  predicate Plain(v: string) {
    '#' !in v && '=' !in v && '"' !in v && '\'' !in v && forall c :: c in v ==> !IsSpace(c)
  }

  /** What a text between double quotes stands for, where a backslash takes the next character as it is; None
      if a quote or the end comes too early. */
  function Unescaped(s: string): Option<string> {
    if s == "" then Some("")
    else if s[0] == '"' || (s[0] == '\\' && |s| == 1) then None
    else
      var taken, rest := if s[0] == '\\' then s[1] else s[0], Unescaped(if s[0] == '\\' then s[2..] else s[1..]);
      if rest.None? then None else Some([taken] + rest.value)
  }

  lemma {:induction false} EscapedIsRead(v: string)
    ensures Unescaped(Escape(v)) == Some(v)
  {
    if v != "" {
      var rest := Escape(v[1..]);
      EscapedIsRead(v[1..]);
      assert v == [v[0]] + v[1..];
      if v[0] == '\\' {
        assert ("\\\\" + rest)[2..] == rest;
      } else if v[0] == '"' {
        assert ("\\\"" + rest)[2..] == rest;
      } else {
        assert ([v[0]] + rest)[1..] == rest;
      }
    }
  }

  /** A value is written as it is when none of its characters needs quotes, and otherwise between double quotes
      in a way that gives it back to any reader that takes what a backslash precedes as it is. */
  lemma WrittenForm(v: string)
    ensures if Plain(v) then FormatEnvValue(v) == v
            else exists inner :: FormatEnvValue(v) == "\"" + inner + "\"" && Unescaped(inner) == Some(v)
  {
    EscapedIsRead(v);
    assert NeedsQuotes(v) <==> !Plain(v) by {
      if NeedsQuotes(v) {
        var c :| c in v && Special(c);
      }
      if !Plain(v) {
        assert Special('#') && Special('=') && Special('"') && Special('\'');
        if c :| c in v && IsSpace(c) { assert Special(c); }
      }
    }
  }

  // ---- Characters ---------------------------------------------------------

  /** Where `str.splitlines` breaks, and what `str.isspace` and the pattern `\s` accept, by character code. */
  lemma CodesAre(c: char)
    ensures IsBreak(c) <==> c as int in {10, 11, 12, 13, 28, 29, 30, 133, 8232, 8233}
    ensures IsSpace(c) <==> c as int in {9, 10, 11, 12, 13, 28, 29, 30, 31, 32, 133, 160, 5760, 8192, 8193, 8194, 8195, 8196,
                                         8197, 8198, 8199, 8200, 8201, 8202, 8232, 8233, 8239, 8287, 12288}
  {
  }

  /** The environment takes a name without equals sign and a value, neither with a null character. */
  lemma EnvironTakesIff(k: string, v: string)
    ensures EnvironTakes(k, v) <==>
            k != "" && (forall i :: 0 <= i < |k| ==> k[i] as int !in {0, 61}) && forall i :: 0 <= i < |v| ==> v[i] as int != 0
  {
    assert forall i :: 0 <= i < |k| ==> k[i] in k && (k[i] == '=' <==> k[i] as int == 61) && (k[i] == '\0' <==> k[i] as int == 0);
    assert forall i :: 0 <= i < |v| ==> v[i] in v && (v[i] == '\0' <==> v[i] as int == 0);
  }

  // ---- Edited files -------------------------------------------------------

  /** Replacing keeps every line in its place but those that assign the key. */
  lemma {:induction false} ReplacedIs(lines: seq<string>, k: string, f: string)
    ensures |Replaced(lines, k, f)| == |lines|
    ensures forall i :: 0 <= i < |lines| ==> Replaced(lines, k, f)[i] == if Assigns(lines[i], k) then f else lines[i]
  {
    if lines != [] {
      ReplacedIs(lines[..|lines| - 1], k, f);
    }
  }

  lemma AssignmentEndsInk(k: string, v: string)
    ensures var f := Assignment(k, v); f != "" && !IsSpace(f[|f| - 1]) && RStrip(f) == f
  {
    var q := FormatEnvValue(v);
    FormattedTrimmed(v);
    assert Assignment(k, v)[|Assignment(k, v)| - 1] == if q == "" then '=' else q[|q| - 1];
  }

  lemma JoinSnoc(lines: seq<string>, l: string)
    ensures Join(lines + [l]) == if lines == [] then l else Join(lines) + "\n" + l
  {
    assert (lines + [l])[..|lines|] == lines;
  }

  lemma JoinBehindBlank(lines: seq<string>, f: string)
    requires lines != []
    ensures Join(lines + ["", f]) == Join(lines) + "\n\n" + f
  {
    JoinSnoc(lines, "");
    JoinSnoc(lines + [""], f);
    assert lines + [""] + [f] == lines + ["", f];
    assert Join(lines) + "\n" + "" + "\n" + f == Join(lines) + "\n\n" + f;
  }

  /** A key that no line assigns is appended: behind a blank line, unless the file is empty or ends with one.
      The text ends with one line feed. */
  lemma AppendedText(text: Option<string>, k: string, v: string)
    requires !AnyAssigns(LinesOf(text), k)
    ensures var lines, f := LinesOf(text), Assignment(k, v);
            EditedText(text, k, v) ==
            (if lines == [] then f else Join(lines) + (if AllSpace(lines[|lines| - 1]) then "\n" else "\n\n") + f) + "\n"
  {
    var lines, f := LinesOf(text), Assignment(k, v);
    AssignmentEndsInk(k, v);
    if lines == [] {
      assert [] + [f] == [f];
    } else {
      BlankIff(lines[|lines| - 1]);
      if AllSpace(lines[|lines| - 1]) {
        JoinSnoc(lines, f);
        RStripBehind(Join(lines) + "\n", f);
      } else {
        JoinBehindBlank(lines, f);
        RStripBehind(Join(lines) + "\n\n", f);
      }
    }
  }

  // ---- Keys ---------------------------------------------------------------

  /** A character by its number: a letter or the underscore, or, not in front, a digit. */
  predicate KeyCode(n: int, front: bool) {
    65 <= n <= 90 || 97 <= n <= 122 || n == 95 || (!front && 48 <= n <= 57)
  }

  /** A key that readers take: letters, digits and underscores, with no digit in front. */
  lemma KeysAre(k: string)
    ensures ValidKey(k) <==> k != "" && KeyCode(k[0] as int, true) && forall i :: 0 <= i < |k| ==> KeyCode(k[i] as int, false)
  {
    forall i | 0 <= i < |k|
      ensures IdentPart(k[i]) <==> KeyCode(k[i] as int, false)
    {
    }
    if ValidKey(k) { assert forall i :: 0 <= i < |k| ==> k[i] in k; }
  }

  // ---- Values between quotes ----------------------------------------------

  /** What readers make of the text behind the equals sign: one pair of equal quotes around it is taken off. */
  lemma QuotesAreTaken(x: string)
    ensures StripQuotes("\"" + x + "\"") == x && StripQuotes("'" + x + "'") == x
  {
    Taken('"', x);
    Taken('\'', x);
  }

  lemma Taken(q: char, x: string)
    requires q == '"' || q == '\''
    ensures StripQuotes([q] + x + [q]) == x
  {
    var s := [q] + x + [q];
    assert s[0] == q && s[|s| - 1] == q && Trimmed(s);
    StripIs("", s, "");
    assert "" + s + "" == s && s[1..|s| - 1] == x;
  }

  lemma OthersStay(x: string)
    requires Trimmed(x) && (|x| < 2 || x[0] != x[|x| - 1] || (x[0] != '"' && x[0] != '\''))
    ensures StripQuotes(x) == x
  {
    StripIs("", x, "");
    assert "" + x + "" == x;
  }

  // ---- Lines --------------------------------------------------------------

  /** The pieces of a line that assigns: white space, perhaps the word "export" with white space behind it, the
      key, the equals sign, the value, and white space around all of these. */
  datatype Form = Form(pre: string, gap: Option<string>, key: string, b: string, c: string, value: string, post: string)

  function Exporting(gap: Option<string>): string {
    if gap.Some? then "export" + gap.value else ""
  }

  function LineOf(f: Form): string {
    f.pre + (Exporting(f.gap) + (f.key + (f.b + ("=" + (f.c + f.value))))) + f.post
  }

  predicate Proper(f: Form) {
    && AllSpace(f.pre) && AllSpace(f.b) && AllSpace(f.c) && AllSpace(f.post)
    && (f.gap.Some? ==> f.gap.value != "" && AllSpace(f.gap.value))
    && ValidKey(f.key) && Trimmed(f.value)
  }

  lemma AssignmentForm(k: string, b: string, y: string)
    requires ValidKey(k) && AllSpace(b)
    ensures MatchAssignment(k + (b + ("=" + y))) == Some((k, LStrip(y)))
  {
    var rest := b + ("=" + y);
    var s := k + rest;
    PartLengthIs(k, rest);
    assert s[0] == k[0];
    assert s[|k|..] == rest && s[..|k|] == k;
    LStripSkips(b, "=" + y);
    LStripTrimmed("=" + y);
    assert ("=" + y)[1..] == y;
  }

  lemma KeyIsInk(k: string, rest: string)
    requires ValidKey(k)
    ensures (k + rest)[0] == k[0] && IdentPart(k[0]) && !IsSpace(k[0]) && k[0] != '#' && LStrip(k + rest) == k + rest
  {
    assert k[0] in k;
    LStripTrimmed(k + rest);
  }

  /** Where the word "export" could stand, a longer key has another character behind it. */
  lemma NotExported(k: string, b: string, y: string)
    requires ValidKey(k) && AllSpace(b)
    ensures var s := k + (b + ("=" + y));
            "export" <= s && |s| > 6 && IsSpace(s[6]) ==> |k| == 6 && s[6..] == b + ("=" + y)
  {
    var s := k + (b + ("=" + y));
    assert forall i :: 0 <= i < |k| ==> s[i] == k[i] && k[i] in k;
    assert s[|k|] == if b == "" then '=' else b[0];
  }

  lemma MatchForm(gap: Option<string>, k: string, b: string, y: string)
    requires ValidKey(k) && AllSpace(b) && (gap.Some? ==> gap.value != "" && AllSpace(gap.value))
    ensures MatchLine(Exporting(gap) + (k + (b + ("=" + y)))) == Some((k, LStrip(y)))
  {
    var inner := k + (b + ("=" + y));
    AssignmentForm(k, b, y);
    KeyIsInk(k, b + ("=" + y));
    if gap.Some? {
      ExportForm(gap.value, inner);
    } else {
      assert "" + inner == inner;
      NotExported(k, b, y);
      LStripSkips(b, "=" + y);
      LStripTrimmed("=" + y);
    }
  }

  lemma ExportForm(gap: string, inner: string)
    requires gap != "" && AllSpace(gap) && LStrip(inner) == inner
    ensures var s := "export" + gap + inner;
            LStrip(s) == s && "export" <= s && |s| > 6 && IsSpace(s[6]) && LStrip(s[6..]) == inner
  {
    var s := "export" + gap + inner;
    LStripTrimmed(s);
    assert s[6..] == gap + inner && s[6] == gap[0];
    LStripSkips(gap, inner);
  }

  /** The text between the white space: a key or the word "export" in front, the value or the equals sign last. */
  lemma CoreTrimmed(gap: Option<string>, k: string, b: string, y: string)
    requires ValidKey(k) && (y != "" ==> !IsSpace(y[|y| - 1]))
    ensures var core := Exporting(gap) + (k + (b + ("=" + y)));
            core != "" && Trimmed(core) && core[0] != '#'
  {
    var tail := k + (b + ("=" + y));
    var core := Exporting(gap) + tail;
    KeyIsInk(k, b + ("=" + y));
    assert core[0] == if gap.Some? then 'e' else tail[0];
    assert core[|core| - 1] == if y == "" then '=' else y[|y| - 1];
  }

  /** Every line of that form is read as its key and its value without quotes. */
  lemma FormIsRead(f: Form)
    requires Proper(f)
    ensures ReadLine(LineOf(f)) == Some((f.key, StripQuotes(f.value)))
  {
    var y, behind := if f.value == "" then "" else f.c + f.value, if f.value == "" then f.c + f.post else f.post;
    var core := Exporting(f.gap) + (f.key + (f.b + ("=" + y)));
    CoreTrimmed(f.gap, f.key, f.b, y);
    CoreOf(f, y, core, behind);
    StripIs(f.pre, core, behind);
    MatchForm(f.gap, f.key, f.b, y);
    LStripSkips(f.c, f.value);
    LStripTrimmed(f.value);
  }

  lemma CoreOf(f: Form, y: string, core: string, behind: string)
    requires y == if f.value == "" then "" else f.c + f.value
    requires behind == if f.value == "" then f.c + f.post else f.post
    requires core == Exporting(f.gap) + (f.key + (f.b + ("=" + y)))
    ensures LineOf(f) == f.pre + core + behind
  {
    if f.value == "" {
      assert f.c + f.value == f.c;
      MoveBehind(f.pre, Exporting(f.gap), f.key, f.b, f.c, f.post);
    }
  }

  lemma MoveBehind(pre: string, e: string, k: string, b: string, c: string, post: string)
    ensures pre + (e + (k + (b + ("=" + c)))) + post == pre + (e + (k + (b + ("=" + "")))) + (c + post)
  {
    assert e + (k + (b + ("=" + c))) == (e + (k + (b + ("=" + "")))) + c;
  }

  // ---- And no others ------------------------------------------------------

  lemma AssignmentHasForm(t: string) returns (b: string, c: string)
    requires MatchAssignment(t).Some?
    ensures var (k, x) := MatchAssignment(t).value;
            ValidKey(k) && AllSpace(b) && AllSpace(c) && t == k + (b + ("=" + (c + x))) && (x != "" ==> !IsSpace(x[0]))
  {
    var n := PartLength(t);
    b := LStripParts(t[n..]);
    var rest := LStrip(t[n..]);
    c := LStripParts(rest[1..]);
    assert rest == "=" + rest[1..];
    assert t == t[..n] + t[n..];
    assert t[0] == t[..n][0] by { assert IdentPart(t[0]) && n > 0; }
    assert forall x :: x in t[..n] ==> IdentPart(x);
  }

  /** The white space behind the word, and the assignment behind that. */
  lemma ExportParts(line: string) returns (g: string)
    requires "export" <= line && |line| > 6 && IsSpace(line[6])
    ensures g != "" && AllSpace(g) && line == "export" + g + LStrip(line[6..])
  {
    g := LStripParts(line[6..]);
    assert line[6..][0] == line[6];
    assert line == line[..6] + line[6..] && line[..6] == "export";
  }

  lemma MatchHasForm(line: string) returns (gap: Option<string>, b: string, c: string)
    requires line != "" && !IsSpace(line[0]) && MatchLine(line).Some?
    ensures var (k, x) := MatchLine(line).value;
            && ValidKey(k) && AllSpace(b) && AllSpace(c) && (gap.Some? ==> gap.value != "" && AllSpace(gap.value))
            && line == Exporting(gap) + (k + (b + ("=" + (c + x)))) && (x != "" ==> !IsSpace(x[0]))
  {
    LStripTrimmed(line);
    if "export" <= line && |line| > 6 && IsSpace(line[6]) && MatchAssignment(LStrip(line[6..])).Some? {
      var g := ExportParts(line);
      gap := Some(g);
      b, c := AssignmentHasForm(LStrip(line[6..]));
    } else {
      gap := None;
      b, c := AssignmentHasForm(line);
      assert "" + line == line;
    }
  }

  /** Only lines of that form are read: together with `FormIsRead`, readers pass over exactly the others. */
  lemma ReadHasForm(raw: string) returns (f: Form)
    requires ReadLine(raw).Some?
    ensures Proper(f) && LineOf(f) == raw && ReadLine(raw) == Some((f.key, StripQuotes(f.value)))
  {
    var pre, post := StripParts(raw);
    var line := Strip(raw);
    var gap, b, c := MatchHasForm(line);
    var (k, x) := MatchLine(line).value;
    f := Form(pre, gap, k, b, c, x, post);
    if x != "" { LastOfLine(Exporting(gap) + (k + (b + ("=" + c))), x, line, Exporting(gap), k, b, c); }
  }

  lemma LastOfLine(front: string, x: string, line: string, e: string, k: string, b: string, c: string)
    requires x != "" && line == e + (k + (b + ("=" + (c + x))))
    ensures line[|line| - 1] == x[|x| - 1]
  {
  }
}
