// The .env editor of packages/env/dotenv.py and the readers of the same format in
// packages/env/dotenv.py and packages/env/launcher_manage.py.
module Dotenv {
  import opened Wrappers
  import opened Text

  // ---- Lines --------------------------------------------------------------

  /** The characters at which Python's str.splitlines breaks; each of them is white space. */
  predicate IsBreak(c: char) {
    var n := c as int;
    0x0A <= n <= 0x0D || 0x1C <= n <= 0x1E || n == 0x85 || n == 0x2028 || n == 0x2029
  }

  predicate NoBreak(s: string) {
    forall c :: c in s ==> !IsBreak(c)
  }

  /** Length of the first line. */
  function LineEnd(t: string): (n: nat)
    ensures n <= |t| && (n < |t| ==> IsBreak(t[n]))
    ensures forall i :: 0 <= i < n ==> !IsBreak(t[i])
  {
    if t == "" || IsBreak(t[0]) then 0 else 1 + LineEnd(t[1..])
  }

  /** Width of the break at the front of `t`; "\r\n" is one break. */
  function BreakWidth(t: string): (n: nat)
    requires t != ""
    ensures 1 <= n <= |t|
  {
    if t[0] == '\r' && |t| > 1 && t[1] == '\n' then 2 else 1
  }

  function SplitLines(t: string): seq<string>
    decreases |t|
  {
    if t == "" then []
    else
      var n := LineEnd(t);
      if n == |t| then [t] else [t[..n]] + SplitLines(t[n..][BreakWidth(t[n..])..])
  }

  /** "\n".join. */
  function Join(lines: seq<string>): string {
    if lines == [] then ""
    else if |lines| == 1 then lines[0]
    else Join(lines[..|lines| - 1]) + "\n" + lines[|lines| - 1]
  }

  // ---- One line -----------------------------------------------------------

  predicate IdentStart(c: char) {
    'a' <= c <= 'z' || 'A' <= c <= 'Z' || c == '_'
  }

  predicate IdentPart(c: char) {
    IdentStart(c) || '0' <= c <= '9'
  }

  predicate ValidKey(k: string) {
    k != "" && IdentStart(k[0]) && forall c :: c in k ==> IdentPart(c)
  }

  function PartLength(s: string): (n: nat)
    ensures n <= |s| && (n < |s| ==> !IdentPart(s[n]))
    ensures forall i :: 0 <= i < n ==> IdentPart(s[i])
  {
    if s == "" || !IdentPart(s[0]) then 0 else 1 + PartLength(s[1..])
  }

  /** Matcher for `([A-Za-z_][A-Za-z0-9_]*)\s*=\s*(.*)$` at the front of one line. */
  function MatchAssignment(s: string): Option<(string, string)> {
    if s == "" || !IdentStart(s[0]) then None
    else
      var n := PartLength(s);
      var rest := LStrip(s[n..]);
      if rest == "" || rest[0] != '=' then None else Some((s[..n], LStrip(rest[1..])))
  }

  /** Matcher for `^\s*(?:export\s+)?` followed by an assignment: the prefix is tried first. */
  function MatchLine(line: string): Option<(string, string)> {
    var s := LStrip(line);
    var exported := "export" <= s && |s| > 6 && IsSpace(s[6]);
    if exported && MatchAssignment(LStrip(s[6..])).Some? then MatchAssignment(LStrip(s[6..])) else MatchAssignment(s)
  }

  function StripQuotes(value: string): string {
    var s := Strip(value);
    if |s| >= 2 && s[0] == s[|s| - 1] && (s[0] == '"' || s[0] == '\'') then s[1..|s| - 1] else s
  }

  predicate Skipped(stripped: string) {
    stripped == "" || stripped[0] == '#'
  }

  /** What a reader takes from a line. */
  function ReadLine(raw: string): Option<(string, string)> {
    var line := Strip(raw);
    if Skipped(line) then None
    else
      var m := MatchLine(line);
      if m.None? then None else Some((m.value.0, StripQuotes(m.value.1)))
  }

  // ---- Values -------------------------------------------------------------

  predicate Special(c: char) {
    c == '#' || c == '=' || c == '"' || c == '\'' || IsSpace(c)
  }

  predicate NeedsQuotes(value: string) {
    exists c :: c in value && Special(c)
  }

  function Escape(value: string): string {
    if value == "" then ""
    else
      (if value[0] == '\\' then "\\\\" else if value[0] == '"' then "\\\"" else [value[0]]) + Escape(value[1..])
  }

  function FormatEnvValue(value: string): string {
    if NeedsQuotes(value) then "\"" + Escape(value) + "\"" else value
  }

  function Assignment(key: string, value: string): string {
    key + "=" + FormatEnvValue(value)
  }

  /** The values that survive being written and read back. */
  predicate RoundTrips(value: string) {
    NoBreak(value) && '"' !in value && (NeedsQuotes(value) ==> '\\' !in value)
  }

  // ---- Whole files, as functions ------------------------------------------

  /** Later lines win. */
  function ReadLines(lines: seq<string>): map<string, string> {
    if lines == [] then map[]
    else
      var before, r := ReadLines(lines[..|lines| - 1]), ReadLine(lines[|lines| - 1]);
      if r.None? then before else before[r.value.0 := r.value.1]
  }

  function LinesOf(text: Option<string>): seq<string> {
    if text.None? then [] else SplitLines(text.value)
  }

  /** The line assigns `key`, as the editor sees it. */
  predicate Assigns(line: string, key: string) {
    var m := MatchLine(line);
    !Skipped(Strip(line)) && m.Some? && m.value.0 == key
  }

  function Replaced(lines: seq<string>, key: string, formatted: string): seq<string> {
    if lines == [] then []
    else
      var init, last := lines[..|lines| - 1], lines[|lines| - 1];
      Replaced(init, key, formatted) + [if Assigns(last, key) then formatted else last]
  }

  predicate AnyAssigns(lines: seq<string>, key: string) {
    lines != [] && (AnyAssigns(lines[..|lines| - 1], key) || Assigns(lines[|lines| - 1], key))
  }

  function Edited(lines: seq<string>, key: string, formatted: string): seq<string> {
    if AnyAssigns(lines, key) then Replaced(lines, key, formatted)
    else if lines != [] && Strip(lines[|lines| - 1]) != "" then lines + ["", formatted]
    else lines + [formatted]
  }

  function EditedText(text: Option<string>, key: string, value: string): string {
    RStrip(Join(Edited(LinesOf(text), key, Assignment(key, value)))) + "\n"
  }

  /** What `os.environ[key] = value` takes: a name that is not empty and has no "=", and no null
      character in either; otherwise it raises. */
  predicate EnvironTakes(key: string, value: string) {
    key != "" && '=' !in key && '\0' !in key && '\0' !in value
  }

  /** The environment so far, and whether setting a variable raised. */
  datatype Loading = Loading(environ: map<string, string>, raised: bool)

  /** `load_dotenv` on the lines of the file: without override, what is already set stays. */
  function Loaded(env: map<string, string>, lines: seq<string>, override: bool): Loading {
    if lines == [] then Loading(env, false)
    else
      var before := Loaded(env, lines[..|lines| - 1], override);
      if before.raised then before else LoadedLine(before.environ, lines[|lines| - 1], override)
  }

  function LoadedLine(env: map<string, string>, raw: string, override: bool): Loading {
    var r := ReadLine(raw);
    if r.None? || (!override && r.value.0 in env) then Loading(env, false)
    else if !EnvironTakes(r.value.0, r.value.1) then Loading(env, true)
    else Loading(env[r.value.0 := r.value.1], false)
  }

  // ---- The loops ----------------------------------------------------------

  method ReplaceAssignments(lines: seq<string>, key: string, formatted: string) returns (out: seq<string>, replaced: bool)
    ensures out == Replaced(lines, key, formatted)
    ensures replaced <==> AnyAssigns(lines, key)
  {
    replaced := false;
    out := [];
    for i := 0 to |lines|
      invariant out == Replaced(lines[..i], key, formatted)
      invariant replaced <==> AnyAssigns(lines[..i], key)
    {
      var line := lines[i];
      assert lines[..i + 1][..i] == lines[..i];
      var stripped := Strip(line);
      if stripped == "" || stripped[0] == '#' {
        out := out + [line];
        continue;
      }
      var m := MatchLine(line);
      if m.Some? && m.value.0 == key {
        out := out + [formatted];
        replaced := true;
      } else {
        out := out + [line];
      }
    }
    assert lines[..|lines|] == lines;
  }

  /** Replace every assignment of the key, or append one behind a blank line. */
  method EditLines(lines: seq<string>, key: string, formatted: string) returns (out: seq<string>)
    ensures out == Edited(lines, key, formatted)
  {
    var replaced;
    out, replaced := ReplaceAssignments(lines, key, formatted);
    if !replaced {
      NothingReplaced(lines, key, formatted);
      if out != [] && Strip(out[|out| - 1]) != "" {
        out := out + ["", formatted];
      } else {
        out := out + [formatted];
      }
    }
  }

  /** Set a key in the file text (None: no file) and in the process environment; the file is written first,
      so it stays changed if the environment raises. */
  method SetEnvVar(text: Option<string>, environ: map<string, string>, key: string, value: string)
    returns (newText: string, loading: Loading)
    ensures newText == EditedText(text, key, value)
    ensures loading == if EnvironTakes(key, value) then Loading(environ[key := value], false) else Loading(environ, true)
  {
    var lines := if text.Some? then SplitLines(text.value) else [];
    var out := EditLines(lines, key, Assignment(key, value));
    newText := RStrip(Join(out)) + "\n";
    if EnvironTakes(key, value) {
      loading := Loading(environ[key := value], false);
    } else {
      loading := Loading(environ, true);
    }
  }

  lemma {:induction false} NothingReplaced(lines: seq<string>, key: string, formatted: string)
    requires !AnyAssigns(lines, key)
    ensures Replaced(lines, key, formatted) == lines
  {
    if lines != [] {
      NothingReplaced(lines[..|lines| - 1], key, formatted);
    }
  }

  method ReadEnvFile(text: Option<string>) returns (values: map<string, string>)
    ensures values == ReadLines(LinesOf(text))
  {
    values := map[];
    if text.None? {
      return;
    }
    var lines := SplitLines(text.value);
    for i := 0 to |lines|
      invariant values == ReadLines(lines[..i])
    {
      assert lines[..i + 1][..i] == lines[..i];
      var line := Strip(lines[i]);
      if line == "" || line[0] == '#' {
        continue;
      }
      var m := MatchLine(line);
      if m.None? {
        continue;
      }
      values := values[m.value.0 := StripQuotes(m.value.1)];
    }
    assert lines[..|lines|] == lines;
  }

  /** One turn of the loop. */
  method LoadLine(raw: string, environ: map<string, string>, override: bool) returns (loading: Loading)
    ensures loading == LoadedLine(environ, raw, override)
  {
    loading := Loading(environ, false);
    var line := Strip(raw);
    if line == "" || line[0] == '#' {
      return;
    }
    var m := MatchLine(line);
    if m.None? {
      return;
    }
    var key, value := m.value.0, StripQuotes(m.value.1);
    if !override && key in environ {
      return;
    }
    if EnvironTakes(key, value) {
      loading := Loading(environ[key := value], false);
    } else {
      loading := Loading(environ, true);
    }
  }

  lemma {:induction false} RaisedEnds(env: map<string, string>, lines: seq<string>, i: nat, override: bool)
    requires i <= |lines| && Loaded(env, lines[..i], override).raised
    ensures Loaded(env, lines, override) == Loaded(env, lines[..i], override)
  {
    if i < |lines| {
      assert lines[..|lines| - 1][..i] == lines[..i];
      RaisedEnds(env, lines[..|lines| - 1], i, override);
    } else {
      assert lines[..i] == lines;
    }
  }

  method LoadDotenv(text: Option<string>, environ: map<string, string>, override: bool) returns (loading: Loading)
    ensures loading == Loaded(environ, LinesOf(text), override)
  {
    loading := Loading(environ, false);
    if text.None? {
      return;
    }
    var lines := SplitLines(text.value);
    for i := 0 to |lines|
      invariant !loading.raised && loading == Loaded(environ, lines[..i], override)
    {
      assert lines[..i + 1][..i] == lines[..i];
      loading := LoadLine(lines[i], loading.environ, override);
      if loading.raised {
        RaisedEnds(environ, lines, i + 1, override);
        return;
      }
    }
    assert lines[..|lines|] == lines;
  }
}
