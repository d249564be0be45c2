// What packages/api/run_list_cursor.py prints, symbol by symbol.
module CursorForm {
  import opened Wrappers
  import opened Utf8
  import opened Json
  import opened Cursor

  // ---- Base64url, from section 5 of RFC 4648 ------------------------------

  /** The table, by character code: A to Z, a to z, 0 to 9, the hyphen and the underscore. */
  predicate StandsFor(c: char, n: nat) {
    var code := c as int;
    || (n < 26 && code == 65 + n) || (26 <= n < 52 && code == 97 + n - 26) || (52 <= n < 62 && code == 48 + n - 52)
    || (n == 62 && code == 45) || (n == 63 && code == 95)
  }

  /** The number that sextets write, the highest first, and the number that bytes write. */
  function Number64(digits: seq<nat>): nat {
    if digits == [] then 0 else Number64(digits[..|digits| - 1]) * 64 + digits[|digits| - 1]
  }

  function Number256(bytes: seq<Byte>): nat {
    if bytes == [] then 0 else Number256(bytes[..|bytes| - 1]) * 256 + bytes[|bytes| - 1] as nat
  }

  /** The symbols stand for sextets that write the number of the bytes, shifted up by `zeros` bits. */
  ghost predicate Spells(symbols: string, bytes: seq<Byte>, factor: nat) {
    exists digits: seq<nat> :: SpellsBy(symbols, bytes, factor, digits)
  }

  predicate SpellsBy(symbols: string, bytes: seq<Byte>, factor: nat, digits: seq<nat>) {
    && |digits| == |symbols|
    && (forall k :: 0 <= k < |symbols| ==> StandsFor(symbols[k], digits[k]))
    && Number64(digits) == Number256(bytes) * factor
  }

  lemma Four(p: nat, q: nat, r: nat, s: nat)
    ensures Number64([p, q]) == p * 64 + q
    ensures Number64([p, q, r]) == p * 0x1000 + q * 64 + r
    ensures Number64([p, q, r, s]) == p * 0x40000 + q * 0x1000 + r * 64 + s
  {
    assert [p, q, r, s][..3] == [p, q, r] && [p, q, r][..2] == [p, q] && [p, q][..1] == [p] && [p][..0] == [];
    assert Number64([p]) == p;
    assert Number64([p, q]) == p * 64 + q;
  }

  lemma Three(x: Byte, y: Byte, z: Byte)
    ensures Number256([x]) == x && Number256([x, y]) == x * 256 + y && Number256([x, y, z]) == x * 0x1_0000 + y * 256 + z
  {
    assert [x, y, z][..2] == [x, y] && [x, y][..1] == [x] && [x][..0] == [];
    assert Number256([x]) == x;
    assert Number256([x, y]) == x * 256 + y;
  }

  lemma SextetsWrite(x: Byte, y: Byte, z: Byte)
    ensures var q := Sextets(x, y, z);
            q.0 * 0x40000 + q.1 * 0x1000 + q.2 * 64 + q.3 == x * 0x1_0000 + y * 256 + z
  {
  }

  lemma ShortSextetsWrite(x: Byte, y: Byte)
    ensures var q := Sextets(x, y, 0); q.0 * 0x1000 + q.1 * 64 + q.2 == (x * 256 + y) * 4
    ensures var q := Sextets(x, 0, 0); q.0 * 64 + q.1 == x * 16
  {
  }

  lemma ThreeSpelled(x: Byte, y: Byte, z: Byte)
    ensures Spells(Group(x, y, z), [x, y, z], 1)
  {
    var q := Sextets(x, y, z);
    Three(x, y, z);
    SextetsWrite(x, y, z);
    Four(q.0, q.1, q.2, q.3);
    assert SpellsBy(Group(x, y, z), [x, y, z], 1, [q.0, q.1, q.2, q.3]);
  }

  lemma ShortNumbers(x: Byte, y: Byte)
    ensures var q := Sextets(x, y, 0); Number64([q.0, q.1, q.2]) == Number256([x, y]) * 4
    ensures var q := Sextets(x, 0, 0); Number64([q.0, q.1]) == Number256([x]) * 16
  {
    var q, r := Sextets(x, y, 0), Sextets(x, 0, 0);
    Three(x, y, 0);
    ShortSextetsWrite(x, y);
    Four(q.0, q.1, q.2, q.3);
    Four(r.0, r.1, r.2, r.3);
  }

  lemma TwoSpelled(x: Byte, y: Byte)
    ensures Spells(Group(x, y, 0)[..3], [x, y], 4)
  {
    var q := Sextets(x, y, 0);
    ShortNumbers(x, y);
    assert SpellsBy(Group(x, y, 0)[..3], [x, y], 4, [q.0, q.1, q.2]);
  }

  lemma OneSpelled(x: Byte)
    ensures Spells(Group(x, 0, 0)[..2], [x], 16)
  {
    var q := Sextets(x, 0, 0);
    ShortNumbers(x, 0);
    assert SpellsBy(Group(x, 0, 0)[..2], [x], 16, [q.0, q.1]);
  }

  /** One group of the text: four symbols, or fewer with padding, for the bytes it stands for. */
  ghost predicate GroupIs(group: string, bytes: seq<Byte>) {
    && |group| == 4
    && (|bytes| == 3 ==> Spells(group, bytes, 1))
    && (|bytes| == 2 ==> Spells(group[..3], bytes, 4) && group[3] == '=')
    && (|bytes| == 1 ==> Spells(group[..2], bytes, 16) && group[2] == '=' && group[3] == '=')
  }

  /** The bytes of group `i`: three, or what is left. */
  function Part(b: seq<Byte>, i: nat): seq<Byte>
    requires 3 * i < |b|
  {
    b[3 * i..if |b| < 3 * i + 3 then |b| else 3 * i + 3]
  }

  lemma FirstGroup(b: seq<Byte>)
    requires b != []
    ensures |B64Encode(b)| >= 4 && GroupIs(B64Encode(b)[..4], Part(b, 0))
  {
    var e := B64Encode(b);
    if |b| == 1 {
      OneSpelled(b[0]);
      assert Part(b, 0) == [b[0]] && e[..4][..2] == Group(b[0], 0, 0)[..2];
    } else if |b| == 2 {
      TwoSpelled(b[0], b[1]);
      assert Part(b, 0) == [b[0], b[1]] && e[..4][..3] == Group(b[0], b[1], 0)[..3];
    } else {
      ThreeSpelled(b[0], b[1], b[2]);
      assert Part(b, 0) == [b[0], b[1], b[2]] && e[..4] == Group(b[0], b[1], b[2]);
    }
  }

  /** Four characters for every group. */
  lemma {:induction false} LengthIs(b: seq<Byte>)
    ensures |B64Encode(b)| == 4 * ((|b| + 2) / 3)
    decreases |b|
  {
    if |b| >= 3 {
      var n := |b| - 3;
      LengthIs(b[3..]);
      assert (n + 3 + 2) / 3 == (n + 2) / 3 + 1;
    }
  }

  lemma LaterText(g: string, e: string, i: nat)
    requires |g| == 4 && |e| >= 4 * i + 4
    ensures (g + e)[4 * (i + 1)..4 * (i + 1) + 4] == e[4 * i..4 * i + 4]
  {
  }

  lemma LaterPart(b: seq<Byte>, i: nat)
    requires 3 * (i + 1) < |b|
    ensures Part(b[3..], i) == Part(b, i + 1)
  {
    var low, high := 3 * i, if |b| - 3 < 3 * i + 3 then |b| - 3 else 3 * i + 3;
    assert Part(b[3..], i) == b[3..][low..high] && Part(b, i + 1) == b[low + 3..high + 3];
    SliceBehind(b, 3, low, high);
  }

  lemma SliceBehind(b: seq<Byte>, d: nat, low: nat, high: nat)
    requires d <= |b| && low <= high <= |b| - d
    ensures b[d..][low..high] == b[d + low..d + high]
  {
  }

  /** Every group of three bytes, and the short one at the end, is written by four characters in its place. */
  lemma {:induction false} GroupsAre(b: seq<Byte>, i: nat)
    requires 3 * i < |b|
    ensures |B64Encode(b)| >= 4 * i + 4 && GroupIs(B64Encode(b)[4 * i..4 * i + 4], Part(b, i))
    decreases |b|
  {
    LengthIs(b);
    if i == 0 {
      FirstGroup(b);
    } else {
      GroupsAre(b[3..], i - 1);
      LaterText(Group(b[0], b[1], b[2]), B64Encode(b[3..]), i - 1);
      LaterPart(b, i - 1);
    }
  }

  // ---- The JSON text ------------------------------------------------------

  /** The texts around number and UUID. */
  lemma FrameIs()
    ensures OPENING == "{\"s\":" && MIDDLE == ",\"r\":\"" && CLOSING == "\"}"
  {
    assert OPENING == ['{', '"', 's', '"', ':'];
    assert MIDDLE == [',', '"', 'r', '"', ':', '"'];
    assert CLOSING == ['"', '}'];
  }

  lemma CursorTextIs(n: int, id: nat)
    requires IsUuid(id)
    ensures CursorText(n, id) == "{\"s\":" + IntText(n) + ",\"r\":\"" + UuidText(id) + "\"}"
  {
    FrameIs();
  }

  /** The value of a digit by its code: 0 to 9, then a to f; 16 for any other character. */
  function DigitOf(c: char): nat {
    var code := c as int;
    if 48 <= code <= 57 then code - 48 else if 97 <= code <= 102 then code - 87 else 16
  }

  /** The number that digits write, the highest first. */
  function NumberOf(s: string, base: nat): nat {
    if s == "" then 0 else NumberOf(s[..|s| - 1], base) * base + DigitOf(s[|s| - 1])
  }

  predicate AllDigits(s: string, base: nat) {
    forall i :: 0 <= i < |s| ==> DigitOf(s[i]) < base
  }

  lemma {:induction false} HexWrites(n: nat, width: nat)
    requires n < Pow16(width)
    ensures |Hex(n, width)| == width && AllDigits(Hex(n, width), 16) && NumberOf(Hex(n, width), 16) == n
  {
    if width > 0 {
      HexWrites(n / 16, width - 1);
      assert Hex(n, width)[..width - 1] == Hex(n / 16, width - 1);
    }
  }

  lemma {:induction false} DecimalWrites(n: nat)
    ensures Decimal(n) != "" && AllDigits(Decimal(n), 10) && NumberOf(Decimal(n), 10) == n
    ensures n > 0 ==> DigitOf(Decimal(n)[0]) > 0
  {
    if n >= 10 {
      DecimalWrites(n / 10);
      assert Decimal(n)[..|Decimal(n)| - 1] == Decimal(n / 10);
    } else {
      assert Decimal(n)[..0] == "";
    }
  }

  /** A cursor's number: its decimal digits, without leading zero, behind a minus sign if it is negative. */
  lemma IntForm(n: int)
    ensures var digits := if n < 0 then IntText(n)[1..] else IntText(n);
            && (n < 0 ==> IntText(n)[0] == '-') && AllDigits(digits, 10) && digits != ""
            && NumberOf(digits, 10) == (if n < 0 then -n else n) && (n != 0 ==> DigitOf(digits[0]) > 0)
  {
    DecimalWrites(if n < 0 then -n else n);
    if n < 0 { assert ("-" + Decimal(-n))[1..] == Decimal(-n); }
  }

  lemma HyphenSlices(h: string)
    requires |h| == 32
    ensures var t := h[..8] + "-" + h[8..12] + "-" + h[12..16] + "-" + h[16..20] + "-" + h[20..];
            && |t| == 36 && t[8] == '-' && t[13] == '-' && t[18] == '-' && t[23] == '-'
            && t[..8] == h[..8] && t[9..13] == h[8..12] && t[14..18] == h[12..16] && t[19..23] == h[16..20] && t[24..] == h[20..]
  {
  }

  /** A cursor's UUID: 36 characters, hyphens at 8, 13, 18 and 23, and between them 32 lower-case hexadecimal
      digits that write it. */
  lemma UuidForm(id: nat)
    requires IsUuid(id)
    ensures var t := UuidText(id);
            && |t| == 36 && t[8] == '-' && t[13] == '-' && t[18] == '-' && t[23] == '-'
            && var digits := t[..8] + t[9..13] + t[14..18] + t[19..23] + t[24..];
            AllDigits(digits, 16) && NumberOf(digits, 16) == id
  {
    HexWrites(id, 32);
    HyphenSlices(Hex(id, 32));
    FiveParts(Hex(id, 32));
  }
}
