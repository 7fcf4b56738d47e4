/** JSON trees, and their text as the printer lays it out. */
module JsonTree {
  import opened Bytes
  import opened JsonString

  /** Strings are what a C string holds; a number is the exact value of its decimal text. */
  datatype Json =
    | Null
    | False
    | True
    | Number(value: real)
    | String(text: seq<byte>)
    | Array(items: seq<Json>)
    | Object(members: seq<Member>)

  datatype Member = Member(key: seq<byte>, value: Json)

  const NESTING_LIMIT := 1000

  /** Numbers are ints; strings and keys hold no NUL. */
  predicate ValidTree(t: Json)
  {
    match t
    case Number(v) => v == v.Floor as real && INT_MIN <= v.Floor <= INT_MAX
    case String(text) => NUL !in text
    case Array(items) => forall k :: 0 <= k < |items| ==> ValidTree(items[k])
    case Object(members) => forall k :: 0 <= k < |members| ==> ValidMember(members[k])
    case _ => true
  }

  predicate ValidMember(m: Member)
  {
    NUL !in m.key && ValidTree(m.value)
  }

  predicate ValidItems(items: seq<Json>)
  {
    forall k :: 0 <= k < |items| ==> ValidTree(items[k])
  }

  predicate ValidMembers(members: seq<Member>)
  {
    forall k :: 0 <= k < |members| ==> ValidMember(members[k])
  }

  function Max(a: nat, b: nat): nat { if a < b then b else a }

  /** How deep arrays and objects nest. */
  function Nesting(t: Json): nat
    decreases t, 0
  {
    match t
    case Array(items) => 1 + ItemsNesting(items, 0)
    case Object(members) => 1 + MembersNesting(members, 0)
    case _ => 0
  }

  function ItemsNesting(items: seq<Json>, k: nat): nat
    requires k <= |items|
    decreases items, |items| - k
  {
    if k == |items| then 0 else Max(Nesting(items[k]), ItemsNesting(items, k + 1))
  }

  function MembersNesting(members: seq<Member>, k: nat): nat
    requires k <= |members|
    decreases members, |members| - k
  {
    if k == |members| then 0 else Max(Nesting(members[k].value), MembersNesting(members, k + 1))
  }

  // ---------------------------------------------------------------- text

  /** `%d`. */
  function DecimalText(n: int): seq<byte>
  {
    if n < 0 then [0x2D] + Digits(-n) else Digits(n)
  }

  function Digits(n: nat): (d: seq<byte>)
    ensures |d| > 0
  {
    if n < 10 then [0x30 + n] else Digits(n / 10) + [0x30 + n % 10]
  }

  function HexChar(v: nat): byte
    requires v < 16
  {
    if v < 10 then 0x30 + v else 0x61 + v - 10
  }

  predicate NeedsEscape(b: byte)
  {
    b < 0x20 || b == QUOTE || b == BACKSLASH
  }

  /** The letter of a two-character escape, or -1. */
  function EscapeLetter(b: byte): int
  {
    if b == QUOTE || b == BACKSLASH then b
    else if b == 8 then 0x62
    else if b == 12 then 0x66
    else if b == 10 then 0x6E
    else if b == 13 then 0x72
    else if b == 9 then 0x74
    else -1
  }

  function EscapeByte(b: byte): (e: seq<byte>)
    ensures 1 <= |e| <= 6
  {
    if !NeedsEscape(b) then [b]
    else if EscapeLetter(b) >= 0 then [BACKSLASH, EscapeLetter(b)]
    else [BACKSLASH, 0x75, 0x30, 0x30, HexChar(b / 16), HexChar(b % 16)]
  }

  /** The escaped bytes of `t` from `k` on. */
  function EscapeText(t: seq<byte>, k: nat): seq<byte>
    requires k <= |t|
    decreases |t| - k
  {
    if k == |t| then [] else EscapeByte(t[k]) + EscapeText(t, k + 1)
  }

  function StringText(t: seq<byte>): seq<byte>
  {
    [QUOTE] + EscapeText(t, 0) + [QUOTE]
  }

  function Tabs(n: nat): (s: seq<byte>)
    ensures |s| == n && forall k :: 0 <= k < n ==> s[k] == HT
  {
    seq(n, _ => HT)
  }

  const NULL_TEXT: seq<byte> := [0x6E, 0x75, 0x6C, 0x6C]
  const FALSE_TEXT: seq<byte> := [0x66, 0x61, 0x6C, 0x73, 0x65]
  const TRUE_TEXT: seq<byte> := [0x74, 0x72, 0x75, 0x65]

  const COMMA: byte := 0x2C
  const COLON: byte := 0x3A

  function ItemSep(more: bool, format: bool): seq<byte>
  {
    if !more then [] else if format then [COMMA, SP] else [COMMA]
  }

  function ObjectOpen(format: bool): seq<byte> { if format then [0x7B, LF] else [0x7B] }

  function ObjectClose(depth: nat, format: bool): seq<byte> { if format then Tabs(depth) + [0x7D] else [0x7D] }

  function Indent(depth: nat, format: bool): seq<byte> { if format then Tabs(depth) else [] }

  function KeySep(format: bool): seq<byte> { if format then [COLON, HT] else [COLON] }

  function MemberSep(more: bool, format: bool): seq<byte>
  {
    (if more then [COMMA] else []) + (if format then [LF] else [])
  }

  /** The text of a value printed at nesting `depth`. */
  function ValueText(t: Json, depth: nat, format: bool): seq<byte>
    requires ValidTree(t)
    decreases t, 0
  {
    match t
    case Null => NULL_TEXT
    case False => FALSE_TEXT
    case True => TRUE_TEXT
    case Number(v) => DecimalText(v.Floor)
    case String(text) => StringText(text)
    case Array(items) => [0x5B] + ItemsText(items, 0, depth + 1, format) + [0x5D]
    case Object(members) => ObjectOpen(format) + MembersText(members, 0, depth + 1, format) + ObjectClose(depth, format)
  }

  /** The items of an array from `k` on. */
  function ItemsText(items: seq<Json>, k: nat, depth: nat, format: bool): seq<byte>
    requires ValidItems(items) && k <= |items|
    decreases items, |items| - k
  {
    if k == |items| then []
    else ValueText(items[k], depth, format) + ItemSep(k + 1 < |items|, format) + ItemsText(items, k + 1, depth, format)
  }

  /** The key of a member, with what stands before and after it. */
  function KeyText(key: seq<byte>, depth: nat, format: bool): seq<byte>
  {
    Indent(depth, format) + StringText(key) + KeySep(format)
  }

  function MembersText(members: seq<Member>, k: nat, depth: nat, format: bool): seq<byte>
    requires ValidMembers(members) && k <= |members|
    decreases members, |members| - k
  {
    if k == |members| then []
    else
      KeyText(members[k].key, depth, format)
      + (ValueText(members[k].value, depth, format) + MemberSep(k + 1 < |members|, format))
      + MembersText(members, k + 1, depth, format)
  }
}
