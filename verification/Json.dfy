// JSON values as Python's json module sees them, and the length of what json.dumps prints.
module Json {

  datatype Json =
    | Null
    | Bool(truth: bool)
    | Number(text: string)
    | String(text: string)
    | Array(items: seq<Json>)
    | Object(members: seq<Member>)

  /** One item of a dict; a dict is the sequence of its items in insertion order. */
  datatype Member = Member(key: string, value: Json)

  function Decimal(n: nat): string {
    var digit := ['0', '1', '2', '3', '4', '5', '6', '7', '8', '9'][n % 10];
    if n < 10 then [digit] else Decimal(n / 10) + [digit]
  }

  /** `sub` is `j` itself or occurs at some depth inside it. */
  ghost predicate Within(sub: Json, j: Json)
    decreases j
  {
    sub == j ||
    match j
    case Array(items) => exists i :: 0 <= i < |items| && Within(sub, items[i])
    case Object(members) => exists i :: 0 <= i < |members| && Within(sub, members[i].value)
    case _ => false
  }

  /** Printed width of one character with `ensure_ascii`. */
  function CharWidth(c: char): nat {
    if c == '"' || c == '\\' || c == '\n' || c == '\r' || c == '\t' || c as int == 8 || c as int == 12 then 2
    else if ' ' <= c <= '~' then 1
    else if c as int < 0x10000 then 6
    else 12
  }

  function TextWidth(s: string): nat {
    if s == "" then 0 else CharWidth(s[0]) + TextWidth(s[1..])
  }

  /** Length of `json.dumps(j)` with the default separators. */
  function Width(j: Json): nat
    decreases j, 0
  {
    match j
    case Null => 4
    case Bool(truth) => if truth then 4 else 5
    case Number(text) => |text|
    case String(text) => 2 + TextWidth(text)
    case Array(items) => 2 + ItemsWidth(items)
    case Object(members) => 2 + MembersWidth(members)
  }

  function ItemsWidth(items: seq<Json>): nat
    decreases items, 1
  {
    if items == [] then 0
    else Width(items[0]) + (if |items| > 1 then 2 else 0) + ItemsWidth(items[1..])
  }

  function MembersWidth(members: seq<Member>): nat
    decreases members, 1
  {
    if members == [] then 0
    else 2 + TextWidth(members[0].key) + 2 + Width(members[0].value) + (if |members| > 1 then 2 else 0) + MembersWidth(members[1..])
  }
}
