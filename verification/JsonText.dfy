// What json.dumps prints with its defaults, and that `Width` is the length of it.
module JsonText {
  import opened Json
  import Cursor

  function Escaped(c: char): string {
    if c == '"' then "\\\""
    else if c == '\\' then "\\\\"
    else if c == '\n' then "\\n"
    else if c == '\r' then "\\r"
    else if c == '\t' then "\\t"
    else if c as int == 8 then "\\b"
    else if c as int == 12 then "\\f"
    else if ' ' <= c <= '~' then [c]
    else if c as int < 0x10000 then "\\u" + Cursor.Hex(c as int, 4)
    else
      var n := c as int - 0x10000;
      "\\u" + Cursor.Hex(0xD800 + n / 0x400, 4) + "\\u" + Cursor.Hex(0xDC00 + n % 0x400, 4)
  }

  function EscapedText(s: string): string {
    if s == "" then "" else Escaped(s[0]) + EscapedText(s[1..])
  }

  function Dumped(j: Json): string
    decreases j, 0
  {
    match j
    case Null => "null"
    case Bool(truth) => if truth then "true" else "false"
    case Number(text) => text
    case String(text) => "\"" + EscapedText(text) + "\""
    case Array(items) => "[" + DumpedItems(items) + "]"
    case Object(members) => "{" + DumpedMembers(members) + "}"
  }

  function DumpedItems(items: seq<Json>): string
    decreases items, 1
  {
    if items == [] then ""
    else Dumped(items[0]) + (if |items| > 1 then ", " else "") + DumpedItems(items[1..])
  }

  function DumpedMembers(members: seq<Member>): string
    decreases members, 1
  {
    if members == [] then ""
    else
      "\"" + EscapedText(members[0].key) + "\": " + Dumped(members[0].value) + (if |members| > 1 then ", " else "") +
      DumpedMembers(members[1..])
  }

  lemma {:induction false} HexLength(n: nat, width: nat)
    ensures |Cursor.Hex(n, width)| == width
  {
    if width > 0 {
      HexLength(n / 16, width - 1);
    }
  }

  lemma EscapedWidth(c: char)
    ensures |Escaped(c)| == CharWidth(c)
  {
    HexLength(c as int, 4);
    if c as int >= 0x10000 {
      var n := c as int - 0x10000;
      HexLength(0xD800 + n / 0x400, 4);
      HexLength(0xDC00 + n % 0x400, 4);
    }
  }

  lemma {:induction false} TextIsAsWide(s: string)
    ensures |EscapedText(s)| == TextWidth(s)
  {
    if s != "" {
      EscapedWidth(s[0]);
      TextIsAsWide(s[1..]);
    }
  }

  /** The size that is compared with the limit is the length of the printed JSON text, which is ASCII. */
  lemma {:induction false} WidthIsLength(j: Json)
    ensures Width(j) == |Dumped(j)|
    decreases j, 0
  {
    match j
    case String(text) => TextIsAsWide(text);
    case Array(items) => ItemsAreAsWide(items);
    case Object(members) => MembersAreAsWide(members);
    case _ =>
  }

  lemma {:induction false} ItemsAreAsWide(items: seq<Json>)
    ensures ItemsWidth(items) == |DumpedItems(items)|
    decreases items, 1
  {
    if items != [] {
      WidthIsLength(items[0]);
      ItemsAreAsWide(items[1..]);
    }
  }

  lemma {:induction false} MembersAreAsWide(members: seq<Member>)
    ensures MembersWidth(members) == |DumpedMembers(members)|
    decreases members, 1
  {
    if members != [] {
      TextIsAsWide(members[0].key);
      WidthIsLength(members[0].value);
      MembersAreAsWide(members[1..]);
    }
  }
}
