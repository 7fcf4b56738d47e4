/**
 The parser as functions of its input (`parse_value` and what it calls).  The input of `cJSON_Parse`
 is a C string with its terminator, so every read is inside it and the end tests only have to
 hold, never to decide.
 */
module JsonGrammar {
  import opened Bytes
  import opened JsonString
  import opened JsonTree

  predicate Terminated(s: seq<byte>)
  {
    s != [] && s[|s| - 1] == NUL
  }

  datatype Parsed = Parsed(value: Json, next: nat) | Bad

  // ---------------------------------------------------------------- white space and words

  function WsEnd(s: seq<byte>, i: nat): (e: nat)
    requires i <= |s|
    ensures i <= e <= |s| && (e < |s| ==> s[e] > SP)
    decreases |s| - i
  {
    if i < |s| && s[i] <= SP then WsEnd(s, i + 1) else i
  }

  /** `buffer_skip_whitespace`: steps back onto the last byte if everything is white space. */
  function SkipWs(s: seq<byte>, i: nat): (e: nat)
    requires i < |s|
    ensures i <= e < |s|
  {
    if WsEnd(s, i) == |s| then |s| - 1 else WsEnd(s, i)
  }

  predicate IsWord4(s: seq<byte>, i: nat, a: byte, b: byte, c: byte, d: byte)
  {
    i + 4 <= |s| && s[i] == a && s[i + 1] == b && s[i + 2] == c && s[i + 3] == d
  }

  predicate IsNull(s: seq<byte>, i: nat) { IsWord4(s, i, 0x6E, 0x75, 0x6C, 0x6C) }

  predicate IsFalse(s: seq<byte>, i: nat)
  {
    i + 5 <= |s| && IsWord4(s, i, 0x66, 0x61, 0x6C, 0x73) && s[i + 4] == 0x65
  }

  predicate IsTrue(s: seq<byte>, i: nat) { IsWord4(s, i, 0x74, 0x72, 0x75, 0x65) }

  // ---------------------------------------------------------------- numbers

  predicate IsDigit(b: byte) { 0x30 <= b <= 0x39 }

  const PLUS: byte := 0x2B
  const MINUS: byte := 0x2D
  const POINT: byte := 0x2E

  predicate IsExponentMark(b: byte) { b == 0x45 || b == 0x65 }

  /** The bytes that `parse_number` copies for `strtod`. */
  predicate IsNumberChar(b: byte)
  {
    IsDigit(b) || b == PLUS || b == MINUS || b == POINT || IsExponentMark(b)
  }

  /** The end of the at most `n` number characters from `i` on. */
  function NumberCharsEnd(s: seq<byte>, i: nat, n: nat): (e: nat)
    requires i <= |s|
    ensures i <= e <= |s| && e <= i + n
    decreases n
  {
    if n > 0 && i < |s| && IsNumberChar(s[i]) then NumberCharsEnd(s, i + 1, n - 1) else i
  }

  function DigitsEnd(s: seq<byte>, i: nat, e: nat): (d: nat)
    requires i <= e <= |s|
    ensures i <= d <= e && forall k :: i <= k < d ==> IsDigit(s[k])
    decreases e - i
  {
    if i < e && IsDigit(s[i]) then DigitsEnd(s, i + 1, e) else i
  }

  /** The number that the digits `s[i..j]` spell. */
  function Natural(s: seq<byte>, i: nat, j: nat): nat
    requires i <= j <= |s| && forall k :: i <= k < j ==> IsDigit(s[k])
    decreases j - i
  {
    if i == j then 0
    else
      assert IsDigit(s[j - 1]);
      Natural(s, i, j - 1) * 10 + (s[j - 1] as int - 0x30)
  }

  function SignEnd(s: seq<byte>, i: nat, e: nat): (d: nat)
    requires i <= e <= |s|
    ensures i <= d <= e
  {
    if i < e && (s[i] == MINUS || s[i] == PLUS) then i + 1 else i
  }

  function Sign(s: seq<byte>, i: nat, e: nat): int
    requires i <= e <= |s|
  {
    if i < e && s[i] == MINUS then -1 else 1
  }

  /** The fraction after the integer digits that end at `b`; `b` itself if there is no point. */
  function FractionEnd(s: seq<byte>, b: nat, e: nat): (c: nat)
    requires b <= e <= |s|
    ensures b <= c <= e && (c > b ==> forall k :: b + 1 <= k < c ==> IsDigit(s[k]))
  {
    if b < e && s[b] == POINT then DigitsEnd(s, b + 1, e) else b
  }

  /** The exponent at `c`, if there is one with digits; `c` itself if not. */
  function ExponentEnd(s: seq<byte>, c: nat, e: nat): (x: nat)
    requires c <= e <= |s|
    ensures c <= x <= e
    ensures x > c ==> forall k :: SignEnd(s, c + 1, e) <= k < x ==> IsDigit(s[k])
    ensures x > c ==> SignEnd(s, c + 1, e) <= x
  {
    if c < e && IsExponentMark(s[c]) && DigitsEnd(s, SignEnd(s, c + 1, e), e) > SignEnd(s, c + 1, e) then
      DigitsEnd(s, SignEnd(s, c + 1, e), e)
    else c
  }

  function Exponent(s: seq<byte>, c: nat, e: nat): int
    requires c <= e <= |s|
  {
    if ExponentEnd(s, c, e) > c then
      Sign(s, c + 1, e) * Natural(s, SignEnd(s, c + 1, e), ExponentEnd(s, c, e))
    else 0
  }

  function TenTo(n: nat): real
  {
    if n == 0 then 1.0 else 10.0 * TenTo(n - 1)
  }

  lemma {:induction false} TenToPositive(n: nat)
    ensures TenTo(n) > 0.0
  {
    if n > 0 { TenToPositive(n - 1); }
  }

  function Scale(m: real, exp: int): real
  {
    if exp >= 0 then m * TenTo(exp)
    else
      TenToPositive(-exp);
      m / TenTo(-exp)
  }

  /** The digits before and after the point as one integer. */
  function Mantissa(s: seq<byte>, a: nat, b: nat, c: nat): real
    requires a <= b <= c <= |s| && forall k :: a <= k < c && k != b ==> IsDigit(s[k])
    requires c > b ==> c >= b + 1
  {
    if c == b then Natural(s, a, b) as real
    else Natural(s, a, b) as real * TenTo(c - b - 1) + Natural(s, b + 1, c) as real
  }

  /** `strtod` of the number characters `s[i..e]`, as an exact value; the end is `i` if it converts nothing. */
  function NumberEnd(s: seq<byte>, i: nat, e: nat): (x: nat)
    requires i <= e <= |s|
    ensures i <= x <= e
  {
    var a := SignEnd(s, i, e);
    var b := DigitsEnd(s, a, e);
    var c := FractionEnd(s, b, e);
    if b == a && c <= b + 1 then i else ExponentEnd(s, c, e)
  }

  function NumberValue(s: seq<byte>, i: nat, e: nat): real
    requires i <= e <= |s|
  {
    var a := SignEnd(s, i, e);
    var b := DigitsEnd(s, a, e);
    var c := FractionEnd(s, b, e);
    var fraction := if c > b then c - b - 1 else 0;
    Sign(s, i, e) as real * Scale(Mantissa(s, a, b, c), Exponent(s, c, e) - fraction)
  }

  function ParseNumber(s: seq<byte>, i: nat): (r: Parsed)
    requires i < |s| && Terminated(s)
    ensures r.Parsed? ==> i < r.next < |s|
  {
    var e := NumberCharsEnd(s, i, 63);
    if NumberEnd(s, i, e) == i then Bad else Parsed(Number(NumberValue(s, i, e)), NumberEnd(s, i, e))
  }

  // ---------------------------------------------------------------- strings

  /** `parse_string`: the bytes of the literal at `i` up to the first NUL, and the position behind it. */
  datatype ParsedString = ParsedString(text: seq<byte>, next: nat) | BadString

  function ParseString(s: seq<byte>, i: nat): (r: ParsedString)
    requires i < |s| && Terminated(s)
    ensures r.ParsedString? ==> i < r.next < |s|
  {
    if s[i] != QUOTE || LiteralEnd(s, i + 1).None? then BadString
    else
      match Unescape(s, i + 1, LiteralEnd(s, i + 1).value, [])
      case None => BadString
      case Some(out) => ParsedString(CString(out), LiteralEnd(s, i + 1).value + 1)
  }

  // ---------------------------------------------------------------- values

  /** `parse_value`. */
  function ParseValue(s: seq<byte>, i: nat, depth: nat): (r: Parsed)
    requires i < |s| && Terminated(s)
    ensures r.Parsed? ==> i < r.next < |s|
    decreases |s| - i, 1
  {
    if IsNull(s, i) then Parsed(Null, i + 4)
    else if IsFalse(s, i) then Parsed(False, i + 5)
    else if IsTrue(s, i) then Parsed(True, i + 4)
    else if s[i] == QUOTE then
      match ParseString(s, i)
      case ParsedString(text, next) => Parsed(String(text), next)
      case BadString => Bad
    else if s[i] == MINUS || IsDigit(s[i]) then ParseNumber(s, i)
    else if s[i] == 0x5B then ParseArray(s, i, depth)
    else if s[i] == 0x7B then ParseObject(s, i, depth)
    else Bad
  }

  function ParseArray(s: seq<byte>, i: nat, depth: nat): (r: Parsed)
    requires i < |s| && Terminated(s) && s[i] == 0x5B
    ensures r.Parsed? ==> i < r.next < |s|
    decreases |s| - i, 0
  {
    if depth >= NESTING_LIMIT then Bad
    else if s[SkipWs(s, i + 1)] == 0x5D then Parsed(Array([]), SkipWs(s, i + 1) + 1)
    else ParseItems(s, SkipWs(s, i + 1), depth + 1, [])
  }

  /** The items from `i` on, each after optional white space; `got` are the items before. */
  function ParseItems(s: seq<byte>, i: nat, depth: nat, got: seq<Json>): (r: Parsed)
    requires i < |s| && Terminated(s)
    ensures r.Parsed? ==> i < r.next < |s|
    decreases |s| - i, 2
  {
    match ParseValue(s, SkipWs(s, i), depth)
    case Bad => Bad
    case Parsed(v, next) => AfterItem(s, SkipWs(s, next), depth, got + [v])
  }

  /** What follows an item: a comma and more items, or the end of the array. */
  function AfterItem(s: seq<byte>, i: nat, depth: nat, got: seq<Json>): (r: Parsed)
    requires i < |s| && Terminated(s)
    ensures r.Parsed? ==> i < r.next < |s|
    decreases |s| - i, 0
  {
    if s[i] == COMMA then ParseItems(s, i + 1, depth, got)
    else if s[i] == 0x5D then Parsed(Array(got), i + 1)
    else Bad
  }

  function ParseObject(s: seq<byte>, i: nat, depth: nat): (r: Parsed)
    requires i < |s| && Terminated(s) && s[i] == 0x7B
    ensures r.Parsed? ==> i < r.next < |s|
    decreases |s| - i, 0
  {
    if depth >= NESTING_LIMIT then Bad
    else if s[SkipWs(s, i + 1)] == 0x7D then Parsed(Object([]), SkipWs(s, i + 1) + 1)
    else ParseMembers(s, SkipWs(s, i + 1), depth + 1, [])
  }

  function ParseMembers(s: seq<byte>, i: nat, depth: nat, got: seq<Member>): (r: Parsed)
    requires i < |s| && Terminated(s)
    ensures r.Parsed? ==> i < r.next < |s|
    decreases |s| - i, 2
  {
    match ParseString(s, SkipWs(s, i))
    case BadString => Bad
    case ParsedString(key, next) => AfterKey(s, SkipWs(s, next), depth, got, key)
  }

  function AfterKey(s: seq<byte>, i: nat, depth: nat, got: seq<Member>, key: seq<byte>): (r: Parsed)
    requires i < |s| && Terminated(s)
    ensures r.Parsed? ==> i < r.next < |s|
    decreases |s| - i, 0
  {
    if s[i] != COLON then Bad
    else
      match ParseValue(s, SkipWs(s, i + 1), depth)
      case Bad => Bad
      case Parsed(v, next) => AfterMember(s, SkipWs(s, next), depth, got + [Member(key, v)])
  }

  function AfterMember(s: seq<byte>, i: nat, depth: nat, got: seq<Member>): (r: Parsed)
    requires i < |s| && Terminated(s)
    ensures r.Parsed? ==> i < r.next < |s|
    decreases |s| - i, 0
  {
    if s[i] == COMMA then ParseMembers(s, i + 1, depth, got)
    else if s[i] == 0x7D then Parsed(Object(got), i + 1)
    else Bad
  }

  /** Where `skip_utf8_bom` starts. */
  function BomEnd(s: seq<byte>): nat
  {
    if |s| > 4 && s[0] == 0xEF && s[1] == 0xBB && s[2] == 0xBF then 3 else 0
  }

  /** `cJSON_Parse`: bytes after the value are not looked at. */
  function Parse(s: seq<byte>): Parsed
    requires Terminated(s)
  {
    ParseValue(s, SkipWs(s, BomEnd(s)), 0)
  }
}
