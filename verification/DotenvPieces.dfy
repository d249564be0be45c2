// A .env text as its readers see it: the lines that hold something, without trailing white space.
// Joining, stripping and line breaks inside a written value come down to concatenation there.
module DotenvPieces {
  import opened Wrappers
  import opened Text
  import opened Dotenv
  import opened DotenvProofs

  /** The lines without trailing white space, blank ones left out. */
  function Solid(lines: seq<string>): seq<string> {
    if lines == [] then []
    else
      var init, last := lines[..|lines| - 1], RStrip(lines[|lines| - 1]);
      if last == "" then Solid(init) else Solid(init) + [last]
  }

  function Pieces(t: string): seq<string> {
    Solid(SplitLines(t))
  }

  lemma {:induction false} SolidConcat(a: seq<string>, b: seq<string>)
    ensures Solid(a + b) == Solid(a) + Solid(b)
  {
    if b == [] {
      assert a + b == a;
    } else {
      assert (a + b)[..|a + b| - 1] == a + b[..|b| - 1];
      SolidConcat(a, b[..|b| - 1]);
    }
  }

  lemma SolidOne(l: string)
    ensures Solid([l]) == if RStrip(l) == "" then [] else [RStrip(l)]
  {
    assert [l][..0] == [];
  }

  lemma SolidBeforeSpace(l: string, c: char)
    requires IsSpace(c)
    ensures Solid([l + [c]]) == Solid([l])
  {
    RStripSkips(l, [c]);
    SolidOne(l);
    SolidOne(l + [c]);
  }

  // ---- Splitting at breaks ------------------------------------------------

  /** `br` is one break before `rest`. */
  predicate BreaksBefore(br: string, rest: string) {
    br != "" && IsBreak(br[0]) && BreakWidth(br + rest) == |br|
  }

  lemma SplitAtBreak(l: string, br: string, rest: string)
    requires NoBreak(l) && BreaksBefore(br, rest)
    ensures SplitLines(l + (br + rest)) == [l] + SplitLines(rest)
  {
    var t := l + (br + rest);
    LineEndIs(l, br + rest);
    assert t[..|l|] == l && t[|l|..] == br + rest;
    assert (br + rest)[|br|..] == rest;
  }

  /** The first line of a text that does not end with it. */
  lemma FirstLine(t: string) returns (l: string, br: string, rest: string)
    requires LineEnd(t) < |t|
    ensures t == l + (br + rest) && NoBreak(l) && BreaksBefore(br, rest)
  {
    var n := LineEnd(t);
    var w := BreakWidth(t[n..]);
    l, br, rest := t[..n], t[n..][..w], t[n..][w..];
    assert br + rest == t[n..];
  }

  /** More text behind leaves the first break alone, unless it completes a carriage return. */
  lemma BreakStays(br: string, rest: string, more: string)
    requires BreaksBefore(br, rest)
    ensures BreaksBefore(br, rest + more) || (br == "\r" && rest == "" && more != "" && more[0] == '\n')
  {
    if rest != "" || |br| == 2 {
      assert (br + (rest + more))[..2] == (br + rest)[..2];
    }
  }

  lemma {:induction false} EscapeKeepsBreak(v: string)
    requires !NoBreak(v)
    ensures !NoBreak(Escape(v))
  {
    if IsBreak(v[0]) {
      assert Escape(v)[0] == v[0];
    } else {
      assert v == [v[0]] + v[1..];
      EscapeKeepsBreak(v[1..]);
      var c :| c in Escape(v[1..]) && IsBreak(c);
      assert c in Escape(v);
    }
  }

  lemma LineEndUnbroken(s: string)
    requires LineEnd(s) == |s|
    ensures NoBreak(s)
  {
  }

  lemma SplitLine(l: string)
    requires NoBreak(l)
    ensures SplitLines(l) == if l == "" then [] else [l]
  {
    LineEndIs(l, "");
    assert l + "" == l;
  }

  lemma PieceOfLine(l: string)
    requires NoBreak(l)
    ensures Pieces(l) == Solid([l])
  {
    SplitLine(l);
    SolidOne(l);
  }

  lemma FirstPiece(l: string, br: string, rest: string)
    requires NoBreak(l) && BreaksBefore(br, rest)
    ensures Pieces(l + (br + rest)) == Solid([l]) + Pieces(rest)
  {
    SplitAtBreak(l, br, rest);
    SolidConcat([l], SplitLines(rest));
  }

  lemma Regroup(l: string, br: string, rest: string, more: string)
    ensures l + (br + rest) + more == l + (br + (rest + more))
  {
  }

  lemma ReturnAndFeed(l: string, b: string)
    ensures l + ("\r" + ("" + ("\n" + b))) == l + ("\r\n" + b)
  {
  }

  lemma Associates(a: seq<string>, b: seq<string>, c: seq<string>)
    ensures a + b + c == a + (b + c)
  {
  }

  /** A line feed between two texts keeps their pieces apart. */
  lemma {:induction false} PiecesJoined(a: string, b: string)
    ensures Pieces(a + ("\n" + b)) == Pieces(a) + Pieces(b)
    decreases |a|
  {
    if LineEnd(a) == |a| {
      LineEndUnbroken(a);
      FirstPiece(a, "\n", b);
      PieceOfLine(a);
    } else {
      var l, br, rest := FirstLine(a);
      FirstPiece(l, br, rest);
      BreakStays(br, rest, "\n" + b);
      Regroup(l, br, rest, "\n" + b);
      if BreaksBefore(br, rest + ("\n" + b)) {
        PiecesJoined(rest, b);
        FirstPiece(l, br, rest + ("\n" + b));
        Associates(Solid([l]), Pieces(rest), Pieces(b));
      } else {
        FirstPiece(l, "\r\n", b);
        ReturnAndFeed(l, b);
      }
    }
  }

  lemma OneLineSpaced(t: string, c: char)
    requires IsSpace(c) && NoBreak(t)
    ensures Pieces(t + [c]) == Pieces(t)
  {
    PieceOfLine(t);
    if IsBreak(c) {
      assert [c] + "" == [c];
      FirstPiece(t, [c], "");
    } else {
      PieceOfLine(t + [c]);
      SolidBeforeSpace(t, c);
    }
  }

  lemma {:induction false} PiecesSpaced(t: string, c: char)
    requires IsSpace(c)
    ensures Pieces(t + [c]) == Pieces(t)
    decreases |t|
  {
    if LineEnd(t) == |t| {
      LineEndUnbroken(t);
      OneLineSpaced(t, c);
    } else {
      var l, br, rest := FirstLine(t);
      FirstPiece(l, br, rest);
      BreakStays(br, rest, [c]);
      Regroup(l, br, rest, [c]);
      if BreaksBefore(br, rest + [c]) {
        PiecesSpaced(rest, c);
        FirstPiece(l, br, rest + [c]);
      } else {
        FirstPiece(l, "\r\n", "");
        ReturnAndFeed(l, "");
        assert [c] == "\n" + "";
      }
    }
  }

  lemma {:induction false} PiecesStripped(t: string)
    ensures Pieces(RStrip(t)) == Pieces(t)
  {
    if t != "" && IsSpace(t[|t| - 1]) {
      PiecesStripped(t[..|t| - 1]);
      PiecesSpaced(t[..|t| - 1], t[|t| - 1]);
      LastCharacter(t);
    }
  }

  lemma LastCharacter(t: string)
    requires t != ""
    ensures t[..|t| - 1] + [t[|t| - 1]] == t
  {
  }

  lemma BreakIsSpace(br: string, rest: string)
    requires BreaksBefore(br, rest)
    ensures AllSpace(br)
  {
    if |br| == 2 { assert (br + rest)[1] == br[1]; }
  }

  // ---- An edited file -----------------------------------------------------

  /** The pieces of each line, which may itself break. */
  function AllPieces(lines: seq<string>): seq<string> {
    if lines == [] then [] else AllPieces(lines[..|lines| - 1]) + Pieces(lines[|lines| - 1])
  }

  lemma Between(a: string, b: string)
    ensures a + "\n" + b == a + ("\n" + b)
  {
  }

  lemma {:induction false} PiecesOfJoin(lines: seq<string>)
    ensures Pieces(Join(lines)) == AllPieces(lines)
  {
    if lines != [] {
      var init, last := lines[..|lines| - 1], lines[|lines| - 1];
      PiecesOfJoin(init);
      if |lines| > 1 {
        PiecesJoined(Join(init), last);
        Between(Join(init), last);
      } else {
        assert init == [] && Join(lines) == last;
      }
    }
  }

  /** The pieces of an edited file are those of its lines, whatever breaks the new one holds. */
  lemma PiecesOfEdited(text: Option<string>, k: string, v: string)
    ensures Pieces(EditedText(text, k, v)) == AllPieces(Edited(LinesOf(text), k, Assignment(k, v)))
  {
    var e := Edited(LinesOf(text), k, Assignment(k, v));
    PiecesSpaced(RStrip(Join(e)), '\n');
    PiecesStripped(Join(e));
    PiecesOfJoin(e);
  }

  lemma UnbrokenParts(lines: seq<string>)
    requires Unbroken(lines) && lines != []
    ensures Unbroken(lines[..|lines| - 1]) && NoBreak(lines[|lines| - 1])
  {
    assert lines[|lines| - 1] in lines;
    assert forall l :: l in lines[..|lines| - 1] ==> l in lines;
  }

  lemma {:induction false} OnlyIdentifiersAssigned(lines: seq<string>, k: string)
    requires Unbroken(lines) && !ValidKey(k)
    ensures !AnyAssigns(lines, k)
  {
    if lines != [] {
      var last := lines[|lines| - 1];
      UnbrokenParts(lines);
      OnlyIdentifiersAssigned(lines[..|lines| - 1], k);
      AssignsIsRead(last, k);
      if ReadLine(last).Some? { ReadLineShape(last); }
    }
  }

  // ---- A value with a line break ------------------------------------------

  /** The first piece of a broken assignment still assigns the key. */
  lemma BrokenInTwo(k: string, v: string) returns (l: string, br: string, rest: string)
    requires ValidKey(k) && !NoBreak(v)
    ensures Assignment(k, v) == l + (br + rest) && NoBreak(l) && BreaksBefore(br, rest) && Assigns(l, k)
    ensures !IsSpace(Assignment(k, v)[|Assignment(k, v)| - 1])
  {
    var quoted, f := FormatEnvValue(v), Assignment(k, v);
    var c :| c in v && IsBreak(c);
    assert Special(c);
    EscapeKeepsBreak(v);
    var d :| d in Escape(v) && IsBreak(d);
    assert d in f;
    if LineEnd(f) == |f| { LineEndUnbroken(f); }
    l, br, rest := FirstLine(f);
    FirstPieceAssigns(k, quoted, l, br, rest);
  }

  lemma FirstPieceAssigns(k: string, quoted: string, l: string, br: string, rest: string)
    requires ValidKey(k) && quoted != "" && quoted[0] == '"'
    requires k + "=" + quoted == l + (br + rest) && BreaksBefore(br, rest)
    ensures Assigns(l, k)
  {
    var f, n := k + "=" + quoted, |k| + 1;
    assert f[..n] == k + "=" && f[n] == '"';
    assert forall i :: 0 <= i < |k| ==> f[i] == k[i] && k[i] in k;
    assert f[|l|] == (br + rest)[0] == br[0];
    assert |l| > n;
    assert l == f[..|l|];
    assert l == k + "=" + l[n..] && l[n] == '"';
    LStripTrimmed(l[n..]);
    MatchLineIs(k, l[n..]);
    assert l[0] == k[0] && k[0] in k;
    StartsInk(l);
  }

  lemma StartsInk(s: string)
    requires s != "" && !IsSpace(s[0])
    ensures Strip(s) != "" && Strip(s)[0] == s[0]
  {
    LStripTrimmed(s);
    var b := RStripParts(s);
  }
}
