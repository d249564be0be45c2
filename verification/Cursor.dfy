// The run-list cursor of packages/api/run_list_cursor.py.
module Cursor {
  import opened Wrappers
  import opened Utf8
  import opened Json

  // ---- Base64url: section 5 of RFC 4648 -----------------------------------

  function Symbol(n: nat): char
    requires n < 64
  {
    if n < 26 then ('A' as int + n) as char
    else if n < 52 then ('a' as int + n - 26) as char
    else if n < 62 then ('0' as int + n - 52) as char
    else if n == 62 then '-'
    else '_'
  }

  function SymbolValue(c: char): Option<nat> {
    if 'A' <= c <= 'Z' then Some(c as int - 'A' as int)
    else if 'a' <= c <= 'z' then Some(c as int - 'a' as int + 26)
    else if '0' <= c <= '9' then Some(c as int - '0' as int + 52)
    else if c == '-' then Some(62)
    else if c == '_' then Some(63)
    else None
  }

  predicate AllSymbols(s: string) {
    forall i :: 0 <= i < |s| ==> SymbolValue(s[i]).Some?
  }

  /** The four sextets of three bytes. */
  function Sextets(x: Byte, y: Byte, z: Byte): (q: (nat, nat, nat, nat))
    ensures q.0 < 64 && q.1 < 64 && q.2 < 64 && q.3 < 64
  {
    (x / 4, x % 4 * 16 + y / 16, y % 16 * 4 + z / 64, z % 64)
  }

  /** The three bytes of four sextets. */
  function Octets(p: nat, q: nat, r: nat, s: nat): (Byte, Byte, Byte)
    requires p < 64 && q < 64 && r < 64 && s < 64
  {
    (p * 4 + q / 16, q % 16 * 16 + r / 4, r % 4 * 64 + s)
  }

  /** The symbols of one group of three bytes. */
  function Group(x: Byte, y: Byte, z: Byte): (g: string)
    ensures |g| == 4
  {
    var q := Sextets(x, y, z);
    [Symbol(q.0), Symbol(q.1), Symbol(q.2), Symbol(q.3)]
  }

  /** The bytes of four symbols; None if one of them is no symbol. */
  function Ungroup(g: string): Option<(Byte, Byte, Byte)>
    requires |g| == 4
  {
    var p, q, r, s := SymbolValue(g[0]), SymbolValue(g[1]), SymbolValue(g[2]), SymbolValue(g[3]);
    if p.None? || q.None? || r.None? || s.None? then None else Some(Octets(p.value, q.value, r.value, s.value))
  }

  /** `base64.urlsafe_b64encode`: groups of three bytes become four symbols; a short last group is filled
      with zero bits and padded. */
  function B64Encode(b: seq<Byte>): string {
    if b == [] then ""
    else if |b| == 1 then Group(b[0], 0, 0)[..2] + "=="
    else if |b| == 2 then Group(b[0], b[1], 0)[..3] + "="
    else Group(b[0], b[1], b[2]) + B64Encode(b[3..])
  }

  /** `base64.urlsafe_b64decode` on text made of symbols and final padding; None where the padding is
      wrong or another character occurs.  Left-over bits are dropped. */
  function B64Decode(s: string): Option<seq<Byte>> {
    if s == "" then Some([])
    else if |s| < 4 then None
    else if |s| == 4 && s[2..] == "==" then
      var g := Ungroup(s[..2] + "AA");
      if g.None? then None else Some([g.value.0])
    else if |s| == 4 && s[3..] == "=" then
      var g := Ungroup(s[..3] + "A");
      if g.None? then None else Some([g.value.0, g.value.1])
    else
      var g, rest := Ungroup(s[..4]), B64Decode(s[4..]);
      if g.None? || rest.None? then None else Some([g.value.0, g.value.1, g.value.2] + rest.value)
  }

  /** `str.rstrip("=")`. */
  function Unpadded(s: string): string {
    if s != "" && s[|s| - 1] == '=' then Unpadded(s[..|s| - 1]) else s
  }

  /** The padding the decoder computes from the length it is given. */
  function Padding(length: nat): string {
    Equals((4 - length % 4) % 4)
  }

  function Equals(k: nat): string {
    if k == 0 then "" else Equals(k - 1) + "="
  }

  lemma SymbolIsRead(n: nat)
    requires n < 64
    ensures SymbolValue(Symbol(n)) == Some(n) && Symbol(n) != '='
  {
  }

  lemma Between16(k: nat, low: nat)
    requires low < 16
    ensures (k * 16 + low) / 16 == k && (k * 16 + low) % 16 == low
  {
  }

  lemma Between4(k: nat, low: nat)
    requires low < 4
    ensures (k * 4 + low) / 4 == k && (k * 4 + low) % 4 == low
  {
  }

  lemma Regroup(x: Byte, y: Byte, z: Byte)
    ensures var q := Sextets(x, y, z);
            Octets(q.0, q.1, q.2, q.3) == (x, y, z)
  {
    Between16(x % 4, y / 16);
    Between4(y % 16, z / 64);
  }

  lemma GroupIsRead(x: Byte, y: Byte, z: Byte)
    ensures Ungroup(Group(x, y, z)) == Some((x, y, z))
    ensures AllSymbols(Group(x, y, z))
    ensures z == 0 ==> Group(x, y, z)[3] == 'A'
    ensures y == 0 && z == 0 ==> Group(x, y, z)[2] == 'A'
  {
    var q := Sextets(x, y, z);
    Regroup(x, y, z);
    SymbolIsRead(q.0);
    SymbolIsRead(q.1);
    SymbolIsRead(q.2);
    SymbolIsRead(q.3);
  }

  lemma OneByteIsRead(x: Byte)
    ensures B64Decode(B64Encode([x])) == Some([x])
  {
    var g, e := Group(x, 0, 0), B64Encode([x]);
    GroupIsRead(x, 0, 0);
    assert g == g[..2] + "AA";
    assert e[..2] == g[..2] && e[2..] == "==";
  }

  lemma TwoBytesAreRead(x: Byte, y: Byte)
    ensures B64Decode(B64Encode([x, y])) == Some([x, y])
  {
    var g, e := Group(x, y, 0), B64Encode([x, y]);
    GroupIsRead(x, y, 0);
    assert g == g[..3] + "A";
    assert e[..3] == g[..3] && e[3..] == "=" && e[2] == g[2] && SymbolValue(g[2]).Some?;
  }

  lemma LongDecodes(g: string, s: string, x: Byte, y: Byte, z: Byte, rest: seq<Byte>)
    requires |g| == 4 && AllSymbols(g) && Ungroup(g) == Some((x, y, z)) && B64Decode(s) == Some(rest)
    ensures B64Decode(g + s) == Some([x, y, z] + rest)
  {
    assert (g + s)[..4] == g && (g + s)[4..] == s;
    assert SymbolValue(g[2]).Some? && SymbolValue(g[3]).Some?;
    assert (g + s)[2] == g[2] && (g + s)[3] == g[3];
  }

  lemma {:induction false} B64RoundTrip(b: seq<Byte>)
    ensures B64Decode(B64Encode(b)) == Some(b)
  {
    if b == [] {
    } else if |b| == 1 {
      OneByteIsRead(b[0]);
      assert b == [b[0]];
    } else if |b| == 2 {
      TwoBytesAreRead(b[0], b[1]);
      assert b == [b[0], b[1]];
    } else {
      B64RoundTrip(b[3..]);
      LongIsRead(b);
    }
  }

  lemma FirstThree(b: seq<Byte>)
    requires |b| >= 3
    ensures b == [b[0], b[1], b[2]] + b[3..]
  {
  }

  lemma LongIsRead(b: seq<Byte>)
    requires |b| >= 3 && B64Decode(B64Encode(b[3..])) == Some(b[3..])
    ensures B64Decode(B64Encode(b)) == Some(b)
  {
    GroupIsRead(b[0], b[1], b[2]);
    LongDecodes(Group(b[0], b[1], b[2]), B64Encode(b[3..]), b[0], b[1], b[2], b[3..]);
    FirstThree(b);
  }

  lemma {:induction false} UnpaddedIs(cut: string, k: nat)
    requires AllSymbols(cut)
    ensures Unpadded(cut + Equals(k)) == cut
  {
    if k == 0 {
      assert cut + "" == cut;
    } else {
      assert (cut + Equals(k))[..|cut + Equals(k)| - 1] == cut + Equals(k - 1);
      UnpaddedIs(cut, k - 1);
    }
  }

  /** How a text of symbols is padded: four symbols to a group, the last group possibly short. */
  ghost predicate PaddedText(s: string, cut: string) {
    && s == cut + Padding(|cut|)
    && |cut| % 4 != 1
    && AllSymbols(cut)
  }

  lemma PadsAre(n: nat)
    ensures Padding(n + 4) == Padding(n) && (n + 4) % 4 == n % 4
    ensures Padding(2) == "==" && Padding(3) == "="
  {
    assert Equals(1) == "=" && Equals(2) == "==";
  }

  lemma PaddedBehind(g: string, s: string, cut: string)
    requires |g| == 4 && AllSymbols(g) && PaddedText(s, cut)
    ensures PaddedText(g + s, g + cut)
  {
    PadsAre(|cut|);
    assert g + s == (g + cut) + Padding(|cut|);
  }

  lemma ShortParts(g: string)
    requires |g| == 4 && AllSymbols(g)
    ensures PaddedText(g[..2] + "==", g[..2]) && PaddedText(g[..3] + "=", g[..3])
  {
    PadsAre(0);
  }

  lemma {:induction false} B64Parts(b: seq<Byte>) returns (cut: string)
    ensures PaddedText(B64Encode(b), cut)
  {
    if b == [] {
      cut := "";
    } else {
      var y: Byte, z: Byte := if |b| > 1 then b[1] else 0, if |b| > 2 then b[2] else 0;
      var g := Group(b[0], y, z);
      GroupIsRead(b[0], y, z);
      ShortParts(g);
      if |b| <= 2 {
        cut := g[..|b| + 1];
      } else {
        var rest := B64Parts(b[3..]);
        cut := g + rest;
        PaddedBehind(g, B64Encode(b[3..]), rest);
      }
    }
  }

  /** What is stripped is what the decoder puts back, no unpadded length is 1 more than a multiple of 4,
      and what is left is safe in a URL. */
  lemma PaddingIsRestored(b: seq<Byte>)
    ensures var cut := Unpadded(B64Encode(b));
            B64Encode(b) == cut + Padding(|cut|) && |cut| % 4 != 1 && AllSymbols(cut)
  {
    var cut := B64Parts(b);
    UnpaddedIs(cut, (4 - |cut| % 4) % 4);
  }

  // ---- Numbers ------------------------------------------------------------

  function DigitValue(c: char): Option<nat> {
    if '0' <= c <= '9' then Some(c as int - '0' as int)
    else if 'a' <= c <= 'f' then Some(c as int - 'a' as int + 10)
    else if 'A' <= c <= 'F' then Some(c as int - 'A' as int + 10)
    else None
  }

  /** The number a text of digits in some base spells; the empty text spells 0. */
  function Number(s: string, base: nat): Option<nat> {
    if s == "" then Some(0)
    else
      var init, digit := Number(s[..|s| - 1], base), DigitValue(s[|s| - 1]);
      if init.None? || digit.None? || digit.value >= base then None else Some(init.value * base + digit.value)
  }

  lemma {:induction false} DecimalIsRead(n: nat)
    ensures Number(Decimal(n), 10) == Some(n)
    ensures Decimal(n) != "" && forall i :: 0 <= i < |Decimal(n)| ==> '0' <= Decimal(n)[i] <= '9'
    ensures n > 0 ==> Decimal(n)[0] != '0'
  {
    if n >= 10 {
      DecimalIsRead(n / 10);
      assert Decimal(n)[..|Decimal(n)| - 1] == Decimal(n / 10);
    }
  }

  function IntText(n: int): string {
    if n < 0 then "-" + Decimal(-n) else Decimal(n)
  }

  /** A JSON integer: no plus sign and no leading zero. */
  function ParseInt(s: string): Option<int> {
    var digits := if s != "" && s[0] == '-' then s[1..] else s;
    if digits == "" || (digits[0] == '0' && |digits| > 1) then None
    else
      var n := Number(digits, 10);
      if n.None? then None
      else
        var value: int := n.value;
        Some(if s[0] == '-' then -value else value)
  }

  lemma NaturalIsRead(n: int)
    requires n >= 0
    ensures ParseInt(Decimal(n)) == Some(n)
    ensures n > 0 ==> ParseInt("-" + Decimal(n)) == Some(-n)
    ensures ',' !in Decimal(n)
  {
    DecimalIsRead(n);
    assert ("-" + Decimal(n))[1..] == Decimal(n);
    if n == 0 { assert Decimal(0) == "0"; }
  }

  lemma IntIsRead(n: int)
    ensures ParseInt(IntText(n)) == Some(n) && ',' !in IntText(n)
  {
    NaturalIsRead(if n < 0 then -n else n);
  }

  // ---- Identifiers --------------------------------------------------------

  function Pow16(k: nat): nat {
    if k == 0 then 1 else 16 * Pow16(k - 1)
  }

  function HexDigit(n: nat): char
    requires n < 16
  {
    if n < 10 then ('0' as int + n) as char else ('a' as int + n - 10) as char
  }

  function Hex(n: nat, width: nat): string {
    if width == 0 then "" else Hex(n / 16, width - 1) + [HexDigit(n % 16)]
  }

  lemma {:induction false} HexIsRead(n: nat, width: nat)
    requires n < Pow16(width)
    ensures Number(Hex(n, width), 16) == Some(n)
    ensures |Hex(n, width)| == width && '-' !in Hex(n, width)
  {
    if width > 0 {
      HexIsRead(n / 16, width - 1);
      assert Hex(n, width)[..width - 1] == Hex(n / 16, width - 1);
    }
  }

  /** A UUID is a number of 128 bits. */
  predicate IsUuid(id: nat) {
    id < Pow16(32)
  }

  /** `str(uuid)`: 32 hexadecimal digits in groups of 8, 4, 4, 4 and 12. */
  function UuidText(id: nat): string
    requires IsUuid(id)
  {
    HexIsRead(id, 32);
    var h := Hex(id, 32);
    h[..8] + "-" + h[8..12] + "-" + h[12..16] + "-" + h[16..20] + "-" + h[20..]
  }

  function WithoutHyphens(s: string): string {
    if s == "" then ""
    else if s[|s| - 1] == '-' then WithoutHyphens(s[..|s| - 1])
    else WithoutHyphens(s[..|s| - 1]) + [s[|s| - 1]]
  }

  /** `UUID(text)`: hyphens do not matter, 32 digits do. */
  function ParseUuid(s: string): Option<nat> {
    var h := WithoutHyphens(s);
    if |h| == 32 then Number(h, 16) else None
  }

  lemma {:induction false} WithoutHyphensConcat(a: string, b: string)
    ensures WithoutHyphens(a + b) == WithoutHyphens(a) + WithoutHyphens(b)
  {
    if b == "" {
      assert a + b == a;
    } else {
      assert (a + b)[..|a + b| - 1] == a + b[..|b| - 1];
      WithoutHyphensConcat(a, b[..|b| - 1]);
    }
  }

  lemma {:induction false} NoHyphens(s: string)
    requires '-' !in s
    ensures WithoutHyphens(s) == s
  {
    if s != "" {
      NoHyphens(s[..|s| - 1]);
    }
  }

  /** A hyphen between two parts disappears. */
  lemma Hyphenated(a: string, b: string)
    requires '-' !in b
    ensures WithoutHyphens(a + "-" + b) == WithoutHyphens(a) + b
  {
    WithoutHyphensConcat(a + "-", b);
    WithoutHyphensConcat(a, "-");
    assert WithoutHyphens("-") == "";
    NoHyphens(b);
  }

  lemma FiveGroups(a: string, b: string, c: string, d: string, e: string)
    requires '-' !in a && '-' !in b && '-' !in c && '-' !in d && '-' !in e
    ensures WithoutHyphens(a + "-" + b + "-" + c + "-" + d + "-" + e) == a + b + c + d + e
  {
    NoHyphens(a);
    Hyphenated(a, b);
    Hyphenated(a + "-" + b, c);
    Hyphenated(a + "-" + b + "-" + c, d);
    Hyphenated(a + "-" + b + "-" + c + "-" + d, e);
  }

  lemma FiveParts(h: string)
    requires |h| == 32
    ensures h[..8] + h[8..12] + h[12..16] + h[16..20] + h[20..] == h
  {
    assert h[..8] + h[8..12] == h[..12];
    assert h[..12] + h[12..16] == h[..16];
    assert h[..16] + h[16..20] == h[..20];
  }

  lemma UuidIsRead(id: nat)
    requires IsUuid(id)
    ensures ParseUuid(UuidText(id)) == Some(id)
  {
    HexIsRead(id, 32);
    var h := Hex(id, 32);
    FiveGroups(h[..8], h[8..12], h[12..16], h[16..20], h[20..]);
    FiveParts(h);
  }

  // ---- The cursor ---------------------------------------------------------

  const OPENING := "{\"s\":"
  const MIDDLE := ",\"r\":\""
  const CLOSING := "\"}"

  /** The JSON text of a cursor. */
  function CursorText(n: int, id: nat): string
    requires IsUuid(id)
  {
    OPENING + IntText(n) + MIDDLE + UuidText(id) + CLOSING
  }

  function IndexOf(s: string, c: char): (i: nat)
    ensures i <= |s| && c !in s[..i] && (i < |s| ==> s[i] == c)
  {
    if s == "" || s[0] == c then 0 else 1 + IndexOf(s[1..], c)
  }

  /** Reads a JSON text of that one shape. */
  function ReadCursorText(text: string): Option<(int, nat)> {
    if !(OPENING <= text) then None
    else
      var rest := text[|OPENING|..];
      var k := IndexOf(rest, ',');
      var number, tail := ParseInt(rest[..k]), rest[k..];
      if number.None? || !(MIDDLE <= tail) || |tail| < |MIDDLE| + |CLOSING| || tail[|tail| - |CLOSING|..] != CLOSING then None
      else
        var id := ParseUuid(tail[|MIDDLE|..|tail| - |CLOSING|]);
        if id.None? then None else Some((number.value, id.value))
  }

  function EncodeRunListCursor(n: int, id: nat): string
    requires IsUuid(id)
  {
    Unpadded(B64Encode(Encode(CursorText(n, id))))
  }

  function DecodeRunListCursor(value: string): Option<(int, nat)> {
    var raw := B64Decode(value + Padding(|value|));
    if raw.None? then None
    else
      var text := Decode(raw.value);
      if text.None? then None else ReadCursorText(text.value)
  }

  lemma IndexIs(a: string, c: char, b: string)
    requires c !in a
    ensures IndexOf(a + [c] + b, c) == |a|
  {
    var s := a + [c] + b;
    assert s[|a|] == c && s[..|a|] == a;
  }

  lemma TextParts(opening: string, number: string, middle: string, id: string, closing: string)
    requires ',' !in number && middle != "" && middle[0] == ','
    ensures var text := opening + number + middle + id + closing;
            opening <= text &&
            var rest := text[|opening|..];
            var k := IndexOf(rest, ',');
            var tail := rest[k..];
            && rest[..k] == number && tail == middle + id + closing
  {
    var text, tail := opening + number + middle + id + closing, middle + id + closing;
    var rest := text[|opening|..];
    assert rest == number + tail;
    assert number + [','] + tail[1..] == rest;
    IndexIs(number, ',', tail[1..]);
  }

  lemma TailParts(middle: string, id: string, closing: string)
    ensures var tail := middle + id + closing;
            && middle <= tail && |tail| >= |middle| + |closing|
            && tail[|middle|..|tail| - |closing|] == id && tail[|tail| - |closing|..] == closing
  {
  }

  lemma CursorTextIsRead(n: int, id: nat)
    requires IsUuid(id)
    ensures ReadCursorText(CursorText(n, id)) == Some((n, id))
  {
    IntIsRead(n);
    UuidIsRead(id);
    TextParts(OPENING, IntText(n), MIDDLE, UuidText(id), CLOSING);
    TailParts(MIDDLE, UuidText(id), CLOSING);
  }

  /** Every cursor reads back as what was encoded, for every integer and every UUID, and it consists of
      URL-safe symbols only. */
  lemma CursorRoundTrip(n: int, id: nat)
    requires IsUuid(id)
    ensures DecodeRunListCursor(EncodeRunListCursor(n, id)) == Some((n, id))
    ensures AllSymbols(EncodeRunListCursor(n, id)) && |EncodeRunListCursor(n, id)| % 4 != 1
  {
    var text := CursorText(n, id);
    PaddingIsRestored(Encode(text));
    B64RoundTrip(Encode(text));
    EncodeThenDecode(text);
    CursorTextIsRead(n, id);
  }
}
