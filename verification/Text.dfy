// Python's str.strip family.
module Text {

  /** The characters for which Python's str.isspace holds, which are also those regex `\s` matches. */
  predicate IsSpace(c: char) {
    var n := c as int;
    || 0x09 <= n <= 0x0D || 0x1C <= n <= 0x20 || n == 0x85 || n == 0xA0 || n == 0x1680
    || 0x2000 <= n <= 0x200A || n == 0x2028 || n == 0x2029 || n == 0x202F || n == 0x205F || n == 0x3000
  }

  predicate AllSpace(s: string) {
    forall i :: 0 <= i < |s| ==> IsSpace(s[i])
  }

  function LStrip(s: string): string {
    if s != "" && IsSpace(s[0]) then LStrip(s[1..]) else s
  }

  function RStrip(s: string): string {
    if s != "" && IsSpace(s[|s| - 1]) then RStrip(s[..|s| - 1]) else s
  }

  function Strip(s: string): string {
    RStrip(LStrip(s))
  }

  /** No white space at either end. */
  predicate Trimmed(s: string) {
    s != "" ==> !IsSpace(s[0]) && !IsSpace(s[|s| - 1])
  }

  lemma {:induction false} LStripParts(s: string) returns (a: string)
    ensures s == a + LStrip(s) && AllSpace(a)
    ensures LStrip(s) != "" ==> !IsSpace(LStrip(s)[0])
  {
    if s != "" && IsSpace(s[0]) {
      var b := LStripParts(s[1..]);
      a := [s[0]] + b;
    } else {
      a := "";
    }
  }

  lemma {:induction false} RStripParts(s: string) returns (b: string)
    ensures s == RStrip(s) + b && AllSpace(b)
    ensures RStrip(s) != "" ==> !IsSpace(RStrip(s)[|RStrip(s)| - 1])
  {
    if s != "" && IsSpace(s[|s| - 1]) {
      var c := RStripParts(s[..|s| - 1]);
      b := c + [s[|s| - 1]];
    } else {
      b := "";
    }
  }

  /** Stripping removes white space on both sides and nothing else. */
  lemma StripParts(s: string) returns (a: string, b: string)
    ensures s == a + Strip(s) + b && AllSpace(a) && AllSpace(b) && Trimmed(Strip(s))
  {
    a := LStripParts(s);
    b := RStripParts(LStrip(s));
    FrontStays(LStrip(s), b);
    assert a + (Strip(s) + b) == a + Strip(s) + b;
  }

  lemma FrontStays(l: string, b: string)
    requires l == RStrip(l) + b
    ensures RStrip(l) != "" ==> l != "" && RStrip(l)[0] == l[0]
  {
  }

  lemma {:induction false} LStripSkips(a: string, s: string)
    requires AllSpace(a)
    ensures LStrip(a + s) == LStrip(s)
  {
    if a == "" {
      assert a + s == s;
    } else {
      assert (a + s)[1..] == a[1..] + s;
      LStripSkips(a[1..], s);
    }
  }

  lemma {:induction false} RStripSkips(s: string, b: string)
    requires AllSpace(b)
    ensures RStrip(s + b) == RStrip(s)
  {
    if b == "" {
      assert s + b == s;
    } else {
      assert (s + b)[..|s + b| - 1] == s + b[..|b| - 1];
      RStripSkips(s, b[..|b| - 1]);
    }
  }

  /** Stripping is determined by the trimmed text between the white space. */
  lemma StripIs(a: string, s: string, b: string)
    requires AllSpace(a) && AllSpace(b) && Trimmed(s)
    ensures Strip(a + s + b) == s
  {
    assert a + s + b == a + (s + b);
    LStripSkips(a, s + b);
    if s == "" {
      assert s + b == b + "";
      LStripSkips(b, "");
    } else {
      assert LStrip(s + b) == s + b;
    }
    RStripSkips(s, b);
  }

  /** The text is `inner` with white space around it. */
  ghost predicate Around(s: string, inner: string) {
    exists a, b :: AllSpace(a) && AllSpace(b) && s == a + inner + b
  }

  lemma StripIff(s: string, inner: string)
    requires Trimmed(inner)
    ensures Strip(s) == inner <==> Around(s, inner)
  {
    var a, b := StripParts(s);
    if Around(s, inner) {
      var c, d :| AllSpace(c) && AllSpace(d) && s == c + inner + d;
      StripIs(c, inner, d);
    }
  }

  lemma BlankIff(s: string)
    ensures Strip(s) == "" <==> AllSpace(s)
  {
    var a, b := StripParts(s);
    if AllSpace(s) {
      StripIs(s, "", "");
      assert s + "" + "" == s;
    }
  }
}
