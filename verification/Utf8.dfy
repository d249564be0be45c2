// UTF-8 as in section 3 of RFC 3629: Python's bytes.decode("utf-8") and str.encode("utf-8").
module Utf8 {
  import opened Wrappers

  type Byte = b: int | 0 <= b < 256

  predicate Tail(b: Byte) {
    0x80 <= b <= 0xBF
  }

  function EncodeChar(c: char): seq<Byte> {
    var n := c as int;
    if n < 0x80 then [n]
    else if n < 0x800 then [0xC0 + n / 0x40, 0x80 + n % 0x40]
    else if n < 0x10000 then [0xE0 + n / 0x1000, 0x80 + n / 0x40 % 0x40, 0x80 + n % 0x40]
    else [0xF0 + n / 0x40000, 0x80 + n / 0x1000 % 0x40, 0x80 + n / 0x40 % 0x40, 0x80 + n % 0x40]
  }

  function Encode(s: string): seq<Byte> {
    if s == "" then [] else EncodeChar(s[0]) + Encode(s[1..])
  }

  /** The first character and its width; None where no valid sequence starts.  Overlong forms,
      surrogates and anything above 0x10FFFF are invalid. */
  function DecodeChar(b: seq<Byte>): (r: Option<(char, nat)>)
    requires b != []
    ensures r.Some? ==> 0 < r.value.1 <= |b|
  {
    var x: int := b[0];
    if x < 0x80 then Some((x as char, 1))
    else if 0xC2 <= x <= 0xDF then
      if |b| >= 2 && Tail(b[1]) then
        var y: int := b[1];
        Some((((x - 0xC0) * 0x40 + (y - 0x80)) as char, 2))
      else None
    else if 0xE0 <= x <= 0xEF then
      if |b| >= 3 && Tail(b[1]) && Tail(b[2]) && (x == 0xE0 ==> b[1] >= 0xA0) && (x == 0xED ==> b[1] < 0xA0) then
        var y: int, z: int := b[1], b[2];
        Some((((x - 0xE0) * 0x1000 + (y - 0x80) * 0x40 + (z - 0x80)) as char, 3))
      else None
    else if 0xF0 <= x <= 0xF4 then
      if |b| >= 4 && Tail(b[1]) && Tail(b[2]) && Tail(b[3]) && (x == 0xF0 ==> b[1] >= 0x90) && (x == 0xF4 ==> b[1] < 0x90) then
        var y: int, z: int, w: int := b[1], b[2], b[3];
        Some((((x - 0xF0) * 0x40000 + (y - 0x80) * 0x1000 + (z - 0x80) * 0x40 + (w - 0x80)) as char, 4))
      else None
    else None
  }

  /** None is Python's UnicodeDecodeError. */
  function Decode(b: seq<Byte>): Option<string> {
    if b == [] then Some("")
    else
      var first := DecodeChar(b);
      if first.None? then None
      else
        var rest := Decode(b[first.value.1..]);
        if rest.None? then None else Some([first.value.0] + rest.value)
  }

  lemma FromDigits(n: nat)
    ensures n == (n / 0x40000) * 0x40000 + (n / 0x1000 % 0x40) * 0x1000 + (n / 0x40 % 0x40) * 0x40 + n % 0x40
    ensures n / 0x1000 == (n / 0x40000) * 0x40 + n / 0x1000 % 0x40
    ensures n / 0x40 == (n / 0x1000) * 0x40 + n / 0x40 % 0x40
  {
    assert n / 0x40 / 0x40 == n / 0x1000;
    assert n / 0x1000 / 0x40 == n / 0x40000;
  }

  lemma EncodedCharDecodes(c: char, rest: seq<Byte>)
    ensures DecodeChar(EncodeChar(c) + rest) == Some((c, |EncodeChar(c)|))
  {
    var n, e := c as int, EncodeChar(c);
    var b := e + rest;
    assert forall i :: 0 <= i < |e| ==> b[i] == e[i];
    FromDigits(n);
  }

  /** Two, three and four digits in base 0x40. */
  lemma Digits(n: int, a: nat, b: nat, c: nat, d: nat)
    requires b < 0x40 && c < 0x40 && d < 0x40 && n == a * 0x40000 + b * 0x1000 + c * 0x40 + d
    ensures n % 0x40 == d && n / 0x40 % 0x40 == c && n / 0x1000 % 0x40 == b && n / 0x40000 == a
    ensures n / 0x40 == a * 0x1000 + b * 0x40 + c && n / 0x1000 == a * 0x40 + b
  {
    assert n / 0x40 == a * 0x1000 + b * 0x40 + c;
    assert n / 0x1000 == a * 0x40 + b;
  }

  lemma DecodedCharEncodes(b: seq<Byte>)
    requires b != [] && DecodeChar(b).Some?
    ensures EncodeChar(DecodeChar(b).value.0) == b[..DecodeChar(b).value.1]
  {
    var (c, w) := DecodeChar(b).value;
    var n, x := c as int, b[0] as int;
    if w == 2 {
      Digits(n, 0, 0, x - 0xC0, b[1] as int - 0x80);
    } else if w == 3 {
      Digits(n, 0, x - 0xE0, b[1] as int - 0x80, b[2] as int - 0x80);
    } else if w == 4 {
      Digits(n, x - 0xF0, b[1] as int - 0x80, b[2] as int - 0x80, b[3] as int - 0x80);
    }
  }

  /** Every text survives encoding and decoding. */
  lemma {:induction false} EncodeThenDecode(s: string)
    ensures Decode(Encode(s)) == Some(s)
  {
    if s != "" {
      EncodedCharDecodes(s[0], Encode(s[1..]));
      assert Encode(s)[|EncodeChar(s[0])|..] == Encode(s[1..]);
      EncodeThenDecode(s[1..]);
      assert [s[0]] + s[1..] == s;
    }
  }

  lemma EncodeCons(c: char, s: string)
    ensures Encode([c] + s) == EncodeChar(c) + Encode(s)
  {
    assert ([c] + s)[1..] == s;
  }

  /** Bytes that decode are exactly the encoding of what they decode to. */
  lemma {:induction false} DecodeThenEncode(b: seq<Byte>)
    requires Decode(b).Some?
    ensures Encode(Decode(b).value) == b
  {
    if b != [] {
      var (c, w) := DecodeChar(b).value;
      DecodedCharEncodes(b);
      DecodeThenEncode(b[w..]);
      EncodeCons(c, Decode(b[w..]).value);
      TwoParts(b, w);
    }
  }

  lemma TwoParts(b: seq<Byte>, w: nat)
    requires w <= |b|
    ensures b == b[..w] + b[w..]
  {
  }

  /** The code that the bytes of one character write: six bits in each byte behind the first, and in the first
      what the marks 110, 1110 and 11110 leave. */
  function CodeOf(b: seq<Byte>): int
    requires 1 <= |b| <= 4
  {
    var w: int := b[0];
    if |b| == 1 then w
    else
      var x: int := b[1];
      if |b| == 2 then (w - 192) * 64 + (x - 128)
      else
        var y: int := b[2];
        if |b| == 3 then (w - 224) * 4096 + (x - 128) * 64 + (y - 128)
        else
          var z: int := b[3];
          (w - 240) * 262144 + (x - 128) * 4096 + (y - 128) * 64 + (z - 128)
  }

  predicate MarkedFor(b: seq<Byte>) {
    && 1 <= |b| <= 4
    && (if |b| == 1 then b[0] < 128 else if |b| == 2 then 192 <= b[0] < 224 else if |b| == 3 then 224 <= b[0] < 240
        else 240 <= b[0] < 248)
    && forall i :: 1 <= i < |b| ==> 128 <= b[i] < 192
  }

  /** Every character takes as many bytes as its code needs, marked as the standard says, and they write its code. */
  lemma BytesOfChar(c: char)
    ensures var n, b := c as int, EncodeChar(c);
            && |b| == (if n < 128 then 1 else if n < 2048 then 2 else if n < 65536 then 3 else 4)
            && MarkedFor(b) && CodeOf(b) == n
  {
    FromDigits(c as int);
  }
}
