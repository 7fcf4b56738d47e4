/** Printed text parses back to the tree it was printed from, up to the nesting limit and no deeper. */
module JsonRoundTrip {
  import opened Bytes
  import opened JsonString
  import opened JsonTree
  import opened JsonGrammar

  // ---------------------------------------------------------------- white space

  lemma {:induction false} WsRun(s: seq<byte>, i: nat, j: nat)
    requires i <= j < |s| && s[j] > SP && forall k :: i <= k < j ==> s[k] <= SP
    ensures SkipWs(s, i) == j && WsEnd(s, i) == j
    decreases j - i
  {
    if i == j {
    } else {
      WsRun(s, i + 1, j);
    }
  }

  // ---------------------------------------------------------------- strings

  /** One escaped byte is stepped over by both passes, and comes back as itself. */
  lemma {:induction false} EscapedByteRun(s: seq<byte>, i: nat, end: nat, b: byte, out: seq<byte>)
    requires b != NUL && At(s, i, EscapeByte(b)) && i + |EscapeByte(b)| <= end < |s|
    ensures LiteralEnd(s, i) == LiteralEnd(s, i + |EscapeByte(b)|)
    ensures Unescape(s, i, end, out) == Unescape(s, i + |EscapeByte(b)|, end, out + [b])
  {
    var e := EscapeByte(b);
    AtElements(s, i, e);
    assert s[i] == e[0];
    if NeedsEscape(b) {
      assert s[i + 1] == e[1];
      if EscapeLetter(b) < 0 {
        assert s[i + 2] == e[2] && s[i + 3] == e[3] && s[i + 4] == e[4] && s[i + 5] == e[5];
        ControlEscape(s, i, end, b);
        LiteralSkip(s, i + 2, i + 6);
      }
    }
  }

  /** `u%04x` of a control character reads back as that character. */
  lemma {:induction false} ControlEscape(s: seq<byte>, i: nat, end: nat, b: byte)
    requires 0 < b < 0x20 && i + 6 <= end < |s|
    requires s[i + 1] == 0x75 && s[i + 2] == 0x30 && s[i + 3] == 0x30
    requires s[i + 4] == HexChar(b / 16) && s[i + 5] == HexChar(b % 16)
    ensures EscapeAt(s, i, end) == Escape([b], 6)
  {
    assert DecodeHex(s[i + 4]) == b / 16 && DecodeHex(s[i + 5]) == b % 16;
    assert Hex4(s, i + 2) == b;
  }

  lemma {:induction false} EscapeTextRun(s: seq<byte>, i: nat, end: nat, t: seq<byte>, k: nat)
    requires NUL !in t && k <= |t| && At(s, i, EscapeText(t, k)) && i + |EscapeText(t, k)| == end < |s|
             && s[end] == QUOTE
    ensures LiteralEnd(s, i) == Some(end)
    ensures Unescape(s, i, end, t[..k]) == Some(t)
    decreases |t| - k
  {
    hide EscapeByte, At;
    if k == |t| {
      assert t[..k] == t;
    } else {
      AtParts(s, i, EscapeByte(t[k]), EscapeText(t, k + 1));
      assert t[..k] + [t[k]] == t[..k + 1];
      EscapeTextRun(s, i + |EscapeByte(t[k])|, end, t, k + 1);
      EscapedByteRun(s, i, end, t[k], t[..k]);
    }
  }

  lemma {:induction false} StringRun(s: seq<byte>, i: nat, t: seq<byte>)
    requires Terminated(s) && i < |s| && NUL !in t && At(s, i, StringText(t))
    ensures s[i] == QUOTE && ParseString(s, i).ParsedString?
    ensures ParseString(s, i).text == t && ParseString(s, i).next == i + |StringText(t)|
  {
    AtParts(s, i, [QUOTE] + EscapeText(t, 0), [QUOTE]);
    AtParts(s, i, [QUOTE], EscapeText(t, 0));
    var end := i + 1 + |EscapeText(t, 0)|;
    AtElements(s, i, [QUOTE]);
    AtElements(s, end, [QUOTE]);
    EscapeTextRun(s, i + 1, end, t, 0);
    assert t[..0] == [];
  }

  // ---------------------------------------------------------------- numbers

  lemma {:induction false} DigitsBytes(n: nat)
    ensures forall k :: 0 <= k < |Digits(n)| ==> IsDigit(Digits(n)[k])
  {
    if n >= 10 {
      DigitsBytes(n / 10);
    }
  }

  lemma {:induction false} DigitsLength(n: nat, bound: nat, width: nat)
    requires n < bound && width >= 1 && bound == TenPower(width)
    ensures |Digits(n)| <= width
    decreases n
  {
    if n >= 10 {
      DigitsLength(n / 10, TenPower(width - 1), width - 1);
    }
  }

  function TenPower(n: nat): nat
  {
    if n == 0 then 1 else 10 * TenPower(n - 1)
  }

  lemma {:induction false} NaturalRun(s: seq<byte>, i: nat, n: nat)
    requires At(s, i, Digits(n)) && forall k :: i <= k < i + |Digits(n)| ==> IsDigit(s[k])
    ensures Natural(s, i, i + |Digits(n)|) == n
    decreases n
  {
    var j := i + |Digits(n)|;
    AtElements(s, i, Digits(n));
    assert s[j - 1] == Digits(n)[|Digits(n)| - 1];
    if n >= 10 {
      AtParts(s, i, Digits(n / 10), [0x30 + n % 10]);
      NaturalRun(s, i, n / 10);
    } else {
      assert Natural(s, i, i) == 0;
    }
  }

  lemma {:induction false} NumberCharsRun(s: seq<byte>, i: nat, j: nat, n: nat)
    requires i <= j <= i + n && j < |s| && !IsNumberChar(s[j]) && forall k :: i <= k < j ==> IsNumberChar(s[k])
    ensures NumberCharsEnd(s, i, n) == j
    decreases n
  {
    if i == j {
    } else {
      NumberCharsRun(s, i + 1, j, n - 1);
    }
  }

  lemma {:induction false} DigitsRun(s: seq<byte>, i: nat, e: nat)
    requires i <= e <= |s| && forall k :: i <= k < e ==> IsDigit(s[k])
    ensures DigitsEnd(s, i, e) == e
    decreases e - i
  {
    if i == e {
    } else {
      DigitsRun(s, i + 1, e);
    }
  }

  /** `strtod` of a sign and digits and nothing more. */
  lemma {:induction false} IntegerRun(s: seq<byte>, i: nat, e: nat, a: nat, n: nat)
    requires i <= a < e <= |s| && a == SignEnd(s, i, e) && (forall k :: a <= k < e ==> IsDigit(s[k]))
             && Natural(s, a, e) == n
    ensures NumberEnd(s, i, e) == e && NumberValue(s, i, e) == (Sign(s, i, e) * n) as real
  {
    DigitsRun(s, a, e);
    assert FractionEnd(s, e, e) == e && ExponentEnd(s, e, e) == e && Exponent(s, e, e) == 0;
    assert Mantissa(s, a, e, e) == n as real && Scale(n as real, 0) == n as real;
  }

  /** The decimal text of an int is short. */
  lemma {:induction false} IntTextLength(n: int)
    requires INT_MIN <= n <= INT_MAX
    ensures |DecimalText(n)| <= 11
  {
    assert TenPower(10) == 10_000_000_000;
    DigitsLength(if n < 0 then -n else n, 10_000_000_000, 10);
  }

  /** Integers of up to 63 characters, which is all that the parser looks at. */
  lemma {:induction false} DecimalRun(s: seq<byte>, i: nat, n: int)
    requires Terminated(s) && |DecimalText(n)| <= 63 && At(s, i, DecimalText(n))
    requires i + |DecimalText(n)| < |s| && !IsNumberChar(s[i + |DecimalText(n)|])
    ensures s[i] == MINUS || IsDigit(s[i])
    ensures ParseNumber(s, i).Parsed? && ParseNumber(s, i).value == Number(n as real)
    ensures ParseNumber(s, i).next == i + |DecimalText(n)|
  {
    hide NumberCharsEnd, NumberEnd, NumberValue, At;
    var m := if n < 0 then -n else n;
    var a := if n < 0 then i + 1 else i;
    var e := i + |DecimalText(n)|;
    DigitsBytes(m);
    if n < 0 {
      AtParts(s, i, [MINUS], Digits(m));
      AtElements(s, i, [MINUS]);
    }
    AtElements(s, a, Digits(m));
    NaturalRun(s, a, m);
    NumberCharsRun(s, i, e, 63);
    IntegerRun(s, i, e, a, m);
  }

  // ---------------------------------------------------------------- the first byte of a value

  lemma {:induction false} ValueStart(t: Json, d: nat, format: bool)
    requires ValidTree(t)
    ensures ValueText(t, d, format) != []
    ensures var b := ValueText(t, d, format)[0]; b > SP && b != 0x5D
  {
    match t
    case Number(v) =>
      if v.Floor >= 0 { DigitsBytes(v.Floor); }
    case _ =>
  }

  lemma {:induction false} ValueAt(s: seq<byte>, i: nat, t: Json, d: nat, format: bool)
    requires ValidTree(t) && At(s, i, ValueText(t, d, format))
    ensures i < |s| && s[i] > SP && s[i] != 0x5D && SkipWs(s, i) == i
  {
    ValueStart(t, d, format);
    AtElements(s, i, ValueText(t, d, format));
    assert s[i] == ValueText(t, d, format)[0];
    WsRun(s, i, i);
  }

  // ---------------------------------------------------------------- values without children

  lemma {:induction false} WordRun(s: seq<byte>, i: nat, t: Json, d: nat, format: bool, depth: nat)
    requires Terminated(s) && (t.Null? || t.False? || t.True?) && At(s, i, ValueText(t, d, format))
    requires i + |ValueText(t, d, format)| < |s|
    ensures var r := ParseValue(s, i, depth); r.Parsed? && r.value == t && r.next == i + |ValueText(t, d, format)|
  {
    var w := ValueText(t, d, format);
    AtElements(s, i, w);
    assert s[i] == w[0] && s[i + 1] == w[1] && s[i + 2] == w[2] && s[i + 3] == w[3];
    if t.False? {
      assert s[i + 4] == w[4];
    }
  }

  lemma {:induction false} LeafRun(s: seq<byte>, i: nat, t: Json, d: nat, format: bool, depth: nat)
    requires Terminated(s) && ValidTree(t) && !t.Array? && !t.Object? && At(s, i, ValueText(t, d, format))
    requires i + |ValueText(t, d, format)| < |s| && !IsNumberChar(s[i + |ValueText(t, d, format)|])
    ensures var r := ParseValue(s, i, depth); r.Parsed? && r.value == t && r.next == i + |ValueText(t, d, format)|
  {
    hide ParseNumber, ParseString, DecimalText, StringText;
    match t
    case Number(v) =>
      IntTextLength(v.Floor);
      DecimalRun(s, i, v.Floor);
    case String(text) => StringRun(s, i, text);
    case _ => WordRun(s, i, t, d, format, depth);
  }

  // ---------------------------------------------------------------- arrays

  /** What parsing text of a value of this nesting at this depth gives. */
  ghost predicate Outcome(r: Parsed, depth: nat, nesting: nat, t: Json, next: nat)
  {
    if depth + nesting <= NESTING_LIMIT then r.Parsed? && r.value == t && r.next == next else r.Bad?
  }

  /** The items of an array from `k` on stand at `i`, and the bracket behind them at `close`. */
  ghost predicate AtItems(s: seq<byte>, i: nat, close: nat, items: seq<Json>, k: nat, d: nat, format: bool)
  {
    && Terminated(s) && ValidItems(items) && k <= |items| && At(s, i, ItemsText(items, k, d, format))
    && i + |ItemsText(items, k, d, format)| == close < |s| && s[close] == 0x5D
  }

  lemma {:induction false} NoItems(items: seq<Json>, d: nat, format: bool)
    ensures ValidItems(items) ==> ItemsText(items, |items|, d, format) == []
  {
  }

  lemma {:induction false} ItemsParts(s: seq<byte>, i: nat, items: seq<Json>, k: nat, d: nat, format: bool)
    requires ValidItems(items) && k < |items| && At(s, i, ItemsText(items, k, d, format))
    ensures var v, sep := ValueText(items[k], d, format), ItemSep(k + 1 < |items|, format);
            && At(s, i, v) && At(s, i + |v|, sep) && At(s, i + |v| + |sep|, ItemsText(items, k + 1, d, format))
            && |ItemsText(items, k, d, format)| == |v| + |sep| + |ItemsText(items, k + 1, d, format)|
  {
    hide ValueText, At;
    var v, sep, rest := ValueText(items[k], d, format), ItemSep(k + 1 < |items|, format),
      ItemsText(items, k + 1, d, format);
    assert ItemsText(items, k, d, format) == v + sep + rest;
    AtParts(s, i, v + sep, rest);
    AtParts(s, i, v, sep);
  }

  /** The first of these items, the byte behind it, and where the next item starts. */
  lemma {:induction false} FirstItem(s: seq<byte>, i: nat, close: nat, items: seq<Json>, k: nat, d: nat, format: bool)
      returns (e: nat, next: nat)
    requires AtItems(s, i, close, items, k, d, format) && k < |items|
    ensures At(s, i, ValueText(items[k], d, format)) && i + |ValueText(items[k], d, format)| == e < |s|
    ensures s[e] == if k + 1 < |items| then COMMA else 0x5D
    ensures k + 1 == |items| ==> e == close
    ensures k + 1 < |items| ==> e < next && AtItems(s, next, close, items, k + 1, d, format) && SkipWs(s, e + 1) == next
  {
    hide ValueText, ValidTree, SkipWs, At;
    ItemsParts(s, i, items, k, d, format);
    var sep := ItemSep(k + 1 < |items|, format);
    e := i + |ValueText(items[k], d, format)|;
    next := e + |sep|;
    AtElements(s, e, sep);
    if k + 1 < |items| {
      ItemsParts(s, next, items, k + 1, d, format);
      ValueAt(s, next, items[k + 1], d, format);
      WsRun(s, e + 1, next);
    }
  }

  /** One item: its outcome decides the array, or hands over to what follows it. */
  lemma {:induction false} ItemStep(s: seq<byte>, i0: nat, i: nat, depth: nat, got: seq<Json>, e: nat, t: Json)
    requires Terminated(s) && i0 < |s| && SkipWs(s, i0) == i && e < |s| && s[e] > SP
    requires Outcome(ParseValue(s, i, depth), depth, Nesting(t), t, e)
    ensures ParseItems(s, i0, depth, got)
         == if depth + Nesting(t) <= NESTING_LIMIT then AfterItem(s, e, depth, got + [t]) else Bad
  {
    hide ParseValue;
    WsRun(s, e, e);
  }

  lemma {:induction false} NestingOfRest(items: seq<Json>, k: nat, depth: nat)
    requires k < |items|
    ensures depth + ItemsNesting(items, k) <= NESTING_LIMIT
       <==> depth + Nesting(items[k]) <= NESTING_LIMIT && depth + ItemsNesting(items, k + 1) <= NESTING_LIMIT
  {
  }

  lemma {:induction false} ItemsRun(s: seq<byte>, i0: nat, i: nat, close: nat, items: seq<Json>, k: nat, d: nat,
      format: bool, depth: nat)
    requires AtItems(s, i, close, items, k, d, format) && k < |items|
    requires i0 <= i && SkipWs(s, i0) == i && depth <= NESTING_LIMIT
    ensures Outcome(ParseItems(s, i0, depth, items[..k]), depth, ItemsNesting(items, k), Array(items), close + 1)
    decreases items, |items| - k
  {
    hide ParseValue, ParseItems, ValueText, ItemsText, SkipWs, At;
    var e, next := FirstItem(s, i, close, items, k, d, format);
    assert items[..k] + [items[k]] == items[..k + 1];
    assert items[..|items|] == items;
    NestingOfRest(items, k, depth);
    ValueRun(s, i, items[k], d, format, depth);
    ItemStep(s, i0, i, depth, items[..k], e, items[k]);
    if k + 1 < |items| && depth + Nesting(items[k]) <= NESTING_LIMIT {
      ItemsRun(s, e + 1, next, close, items, k + 1, d, format, depth);
    }
  }

  lemma {:induction false} ArrayParts(s: seq<byte>, i: nat, t: Json, d: nat, format: bool)
    requires ValidTree(t) && t.Array? && At(s, i, ValueText(t, d, format))
    ensures var text := ItemsText(t.items, 0, d + 1, format);
            && At(s, i, [0x5B]) && At(s, i + 1, text) && At(s, i + 1 + |text|, [0x5D])
            && |ValueText(t, d, format)| == 2 + |text|
  {
    hide ItemsText, At;
    var text := ItemsText(t.items, 0, d + 1, format);
    assert ValueText(t, d, format) == [0x5B] + text + [0x5D];
    AtParts(s, i, [0x5B] + text, [0x5D]);
    AtParts(s, i, [0x5B], text);
  }

  /** The brackets of a printed array and what is between them. */
  lemma {:induction false} ArrayShape(s: seq<byte>, i: nat, t: Json, d: nat, format: bool) returns (close: nat)
    requires Terminated(s) && ValidTree(t) && t.Array?
    requires At(s, i, ValueText(t, d, format)) && i + |ValueText(t, d, format)| < |s|
    ensures close + 1 == i + |ValueText(t, d, format)| && AtItems(s, i + 1, close, t.items, 0, d + 1, format)
    ensures s[i] == 0x5B && SkipWs(s, i + 1) == i + 1
    ensures s[i + 1] == 0x5D <==> t.items == []
    ensures t.items == [] ==> close == i + 1
  {
    hide SkipWs, At, ValueText, ItemsText;
    ArrayParts(s, i, t, d, format);
    close := i + |ValueText(t, d, format)| - 1;
    AtElements(s, i, [0x5B]);
    AtElements(s, close, [0x5D]);
    if t.items == [] {
      NoItems(t.items, d + 1, format);
      WsRun(s, i + 1, i + 1);
    } else {
      ItemsParts(s, i + 1, t.items, 0, d + 1, format);
      ValueAt(s, i + 1, t.items[0], d + 1, format);
    }
  }

  lemma {:induction false} OpenArray(s: seq<byte>, i: nat, depth: nat)
    requires Terminated(s) && i < |s| && s[i] == 0x5B && SkipWs(s, i + 1) == i + 1
    ensures ParseValue(s, i, depth)
         == if depth >= NESTING_LIMIT then Bad
            else if s[i + 1] == 0x5D then Parsed(Array([]), i + 2)
            else ParseItems(s, i + 1, depth + 1, [])
  {
  }

  lemma {:induction false} ArrayRun(s: seq<byte>, i: nat, t: Json, d: nat, format: bool, depth: nat)
    requires Terminated(s) && ValidTree(t) && t.Array? && depth <= NESTING_LIMIT
    requires At(s, i, ValueText(t, d, format)) && i + |ValueText(t, d, format)| < |s|
    ensures Outcome(ParseValue(s, i, depth), depth, Nesting(t), t, i + |ValueText(t, d, format)|)
    decreases t, 0
  {
    hide ParseValue, ParseItems, ItemsText, SkipWs, At;
    assert t.items[..0] == [];
    var close := ArrayShape(s, i, t, d, format);
    OpenArray(s, i, depth);
    if t.items != [] && depth < NESTING_LIMIT {
      ItemsRun(s, i + 1, i + 1, close, t.items, 0, d + 1, format, depth + 1);
    }
  }

  // ---------------------------------------------------------------- objects

  /** The members from `k` on stand at `i`, and the brace behind them at `close`. */
  ghost predicate AtMembers(s: seq<byte>, i: nat, close: nat, members: seq<Member>, k: nat, d: nat, format: bool)
  {
    && Terminated(s) && ValidMembers(members) && k <= |members| && d > 0 && At(s, i, MembersText(members, k, d, format))
    && var tail := i + |MembersText(members, k, d, format)|;
       && At(s, tail, ObjectClose(d - 1, format)) && close + 1 == tail + |ObjectClose(d - 1, format)| < |s|
  }

  lemma {:induction false} NoMembers(members: seq<Member>, d: nat, format: bool)
    ensures ValidMembers(members) ==> MembersText(members, |members|, d, format) == []
  {
  }

  lemma {:induction false} MembersParts(s: seq<byte>, i: nat, members: seq<Member>, k: nat, d: nat, format: bool)
    requires ValidMembers(members) && k < |members| && At(s, i, MembersText(members, k, d, format))
    ensures var key, v := KeyText(members[k].key, d, format), ValueText(members[k].value, d, format);
            var sep, e := MemberSep(k + 1 < |members|, format), i + |key| + |v|;
            && At(s, i, key) && At(s, i + |key|, v) && At(s, e, sep)
              && At(s, e + |sep|, MembersText(members, k + 1, d, format))
            && |MembersText(members, k, d, format)| == |key| + |v| + |sep| + |MembersText(members, k + 1, d, format)|
  {
    hide ValueText, KeyText, At;
    var key, v := KeyText(members[k].key, d, format), ValueText(members[k].value, d, format);
    var sep, rest := MemberSep(k + 1 < |members|, format), MembersText(members, k + 1, d, format);
    assert MembersText(members, k, d, format) == key + (v + sep) + rest;
    AtParts(s, i, key + (v + sep), rest);
    AtParts(s, i, key, v + sep);
    AtParts(s, i + |key|, v, sep);
  }

  /** The key that stands behind the indent at `i`. */
  lemma {:induction false} KeyRun(s: seq<byte>, i: nat, key: seq<byte>, d: nat, format: bool)
    requires Terminated(s) && NUL !in key && At(s, i, KeyText(key, d, format)) && i + |KeyText(key, d, format)| < |s|
    ensures var q := i + |Indent(d, format)|;
            && s[q] == QUOTE && (forall j :: i <= j < q ==> s[j] <= SP)
            && ParseString(s, q).ParsedString? && ParseString(s, q).text == key
            && ParseString(s, q).next == q + |StringText(key)|
    ensures var c := i + |Indent(d, format)| + |StringText(key)|;
            s[c] == COLON && forall j :: c + 1 <= j < i + |KeyText(key, d, format)| ==> s[j] <= SP
  {
    hide ParseString, StringText, At;
    var indent, name, sep := Indent(d, format), StringText(key), KeySep(format);
    AtParts(s, i, indent + name, sep);
    AtParts(s, i, indent, name);
    AtElements(s, i, indent);
    AtElements(s, i + |indent| + |name|, sep);
    StringRun(s, i + |indent|, key);
  }

  /** From the end of the last value the parser reaches the brace. */
  lemma {:induction false} CloseRun(s: seq<byte>, e: nat, close: nat, d: nat, format: bool)
    requires d > 0 && At(s, e, MemberSep(false, format))
             && At(s, e + |MemberSep(false, format)|, ObjectClose(d - 1, format))
    requires close + 1 == e + |MemberSep(false, format)| + |ObjectClose(d - 1, format)| < |s|
    ensures s[close] == 0x7D && SkipWs(s, e) == close && !IsNumberChar(s[e])
  {
    var sep, tail := MemberSep(false, format), ObjectClose(d - 1, format);
    AtElements(s, e, sep);
    AtElements(s, e + |sep|, tail);
    assert s[close] == tail[|tail| - 1];
    WsRun(s, e, close);
  }

  /** Behind the value at `e` a comma leads to the key of the next member. */
  lemma {:induction false} NextMember(s: seq<byte>, e: nat, members: seq<Member>, k: nat, d: nat, format: bool)
    requires Terminated(s) && ValidMembers(members) && 0 < k < |members|
    requires At(s, e, MemberSep(true, format))
             && At(s, e + |MemberSep(true, format)|, MembersText(members, k, d, format))
    requires e + |MemberSep(true, format)| + |MembersText(members, k, d, format)| < |s|
    ensures s[e] == COMMA && SkipWs(s, e) == e && |MemberSep(true, format)| > 0
    ensures SkipWs(s, e + 1) == e + |MemberSep(true, format)| + |Indent(d, format)|
  {
    hide ValueText, KeyText, MembersText, ParseString, SkipWs, WsEnd, At;
    var next := e + |MemberSep(true, format)|;
    AtElements(s, e, MemberSep(true, format));
    WsRun(s, e, e);
    MembersParts(s, next, members, k, d, format);
    KeyRun(s, next, members[k].key, d, format);
    WsRun(s, e + 1, next + |Indent(d, format)|);
  }

  /** The first of these members: key, colon, value, and what follows. */
  lemma {:induction false} FirstMember(s: seq<byte>, i: nat, close: nat, members: seq<Member>, k: nat, d: nat,
      format: bool)
    returns (v: nat, e: nat, next: nat)
    requires AtMembers(s, i, close, members, k, d, format) && k < |members|
    ensures v == i + |KeyText(members[k].key, d, format)| && At(s, i, KeyText(members[k].key, d, format))
    ensures At(s, v, ValueText(members[k].value, d, format)) && v + |ValueText(members[k].value, d, format)| == e < |s|
    ensures !IsNumberChar(s[e])
    ensures if k + 1 < |members| then s[e] == COMMA && SkipWs(s, e) == e && e < next
            && AtMembers(s, next, close, members, k + 1, d, format)
            else s[close] == 0x7D && SkipWs(s, e) == close
    ensures k + 1 < |members| ==> SkipWs(s, e + 1) == next + |Indent(d, format)|
  {
    hide ValueText, KeyText, MembersText, ObjectClose, MemberSep, Indent, SkipWs, At;
    MembersParts(s, i, members, k, d, format);
    v := i + |KeyText(members[k].key, d, format)|;
    e := v + |ValueText(members[k].value, d, format)|;
    next := e + |MemberSep(k + 1 < |members|, format)|;
    assert next + |MembersText(members, k + 1, d, format)| == i + |MembersText(members, k, d, format)|;
    if k + 1 < |members| {
      NextMember(s, e, members, k + 1, d, format);
    } else {
      NoMembers(members, d, format);
      CloseRun(s, e, close, d, format);
    }
  }

  lemma {:induction false} MemberStep(s: seq<byte>, i0: nat, q: nat, c: nat, v: nat, depth: nat, got: seq<Member>,
      e: nat, m: Member)
    requires Terminated(s) && i0 < |s| && SkipWs(s, i0) == q && q < |s| && c + 1 < |s| && v < |s| && e < |s|
    requires ParseString(s, q).ParsedString? && ParseString(s, q).text == m.key && ParseString(s, q).next == c
    requires s[c] == COLON && SkipWs(s, c) == c && SkipWs(s, c + 1) == v
    requires Outcome(ParseValue(s, v, depth), depth, Nesting(m.value), m.value, e)
    ensures ParseMembers(s, i0, depth, got)
         == if depth + Nesting(m.value) <= NESTING_LIMIT then AfterMember(s, SkipWs(s, e), depth, got + [m]) else Bad
  {
    hide ParseValue, ParseString;
    assert ParseMembers(s, i0, depth, got) == AfterKey(s, c, depth, got, m.key);
    assert m == Member(m.key, m.value);
  }

  lemma {:induction false} NestingOfMembers(members: seq<Member>, k: nat, depth: nat)
    requires k < |members|
    ensures depth + MembersNesting(members, k) <= NESTING_LIMIT
            <==>
            && depth + Nesting(members[k].value) <= NESTING_LIMIT
            && depth + MembersNesting(members, k + 1) <= NESTING_LIMIT
  {
  }

  lemma {:induction false} MembersRun(s: seq<byte>, i0: nat, i: nat, close: nat, members: seq<Member>, k: nat,
      d: nat, format: bool, depth: nat)
    requires AtMembers(s, i, close, members, k, d, format) && k < |members|
    requires i0 < |s| && SkipWs(s, i0) == i + |Indent(d, format)| && depth <= NESTING_LIMIT
    ensures Outcome(ParseMembers(s, i0, depth, members[..k]), depth, MembersNesting(members, k), Object(members),
            close + 1)
    decreases members, |members| - k
  {
    hide ParseValue, ParseMembers, ParseString, ValueText, MembersText, StringText, MemberSep, ObjectClose, At, SkipWs;
    assert members[..k] + [members[k]] == members[..k + 1];
    assert members[..|members|] == members;
    NestingOfMembers(members, k, depth);
    var m := members[k];
    var v, e, next := FirstMember(s, i, close, members, k, d, format);
    var q := i + |Indent(d, format)|;
    var c := q + |StringText(m.key)|;
    KeyRun(s, i, m.key, d, format);
    WsRun(s, c, c);
    ValueAt(s, v, m.value, d, format);
    WsRun(s, c + 1, v);
    ValueRun(s, v, m.value, d, format, depth);
    MemberStep(s, i0, q, c, v, depth, members[..k], e, m);
    if k + 1 < |members| && depth + Nesting(m.value) <= NESTING_LIMIT {
      MembersRun(s, e + 1, next, close, members, k + 1, d, format, depth);
    }
  }

  lemma {:induction false} ObjectParts(s: seq<byte>, i: nat, t: Json, d: nat, format: bool)
    requires ValidTree(t) && t.Object? && At(s, i, ValueText(t, d, format))
    ensures var open, text, tail := ObjectOpen(format), MembersText(t.members, 0, d + 1, format),
            ObjectClose(d, format);
            && At(s, i, open) && At(s, i + |open|, text) && At(s, i + |open| + |text|, tail)
            && |ValueText(t, d, format)| == |open| + |text| + |tail|
  {
    hide MembersText, ObjectOpen, ObjectClose, At;
    var open, text, tail := ObjectOpen(format), MembersText(t.members, 0, d + 1, format), ObjectClose(d, format);
    assert ValueText(t, d, format) == open + text + tail;
    AtParts(s, i, open + text, tail);
    AtParts(s, i, open, text);
  }

  /** Behind the opening brace the parser reaches the first key, or the closing brace. */
  lemma {:induction false} InsideObject(s: seq<byte>, i: nat, close: nat, members: seq<Member>, d: nat, format: bool)
    requires At(s, i, ObjectOpen(format)) && AtMembers(s, i + |ObjectOpen(format)|, close, members, 0, d + 1, format)
    ensures s[i] == 0x7B && s[close] == 0x7D
    ensures SkipWs(s, i + 1) == if members == [] then close else i + |ObjectOpen(format)| + |Indent(d + 1, format)|
    ensures members != [] ==> s[SkipWs(s, i + 1)] == QUOTE
  {
    hide ValueText, KeyText, MembersText, StringText, ParseString, SkipWs, WsEnd, At;
    var j, tail := i + |ObjectOpen(format)|, ObjectClose(d, format);
    AtElements(s, i, ObjectOpen(format));
    AtElements(s, j + |MembersText(members, 0, d + 1, format)|, tail);
    assert s[close] == tail[|tail| - 1];
    if members == [] {
      NoMembers(members, d + 1, format);
      WsRun(s, i + 1, close);
    } else {
      MembersParts(s, j, members, 0, d + 1, format);
      KeyRun(s, j, members[0].key, d + 1, format);
      WsRun(s, i + 1, j + |Indent(d + 1, format)|);
    }
  }

  /** The braces of a printed object and what is between them. */
  lemma {:induction false} ObjectShape(s: seq<byte>, i: nat, t: Json, d: nat, format: bool) returns (j: nat, close: nat)
    requires Terminated(s) && ValidTree(t) && t.Object?
    requires At(s, i, ValueText(t, d, format)) && i + |ValueText(t, d, format)| < |s|
    ensures close + 1 == i + |ValueText(t, d, format)| && AtMembers(s, j, close, t.members, 0, d + 1, format)
    ensures s[i] == 0x7B && s[close] == 0x7D
    ensures SkipWs(s, i + 1) == if t.members == [] then close else j + |Indent(d + 1, format)|
    ensures t.members != [] ==> s[SkipWs(s, i + 1)] == QUOTE
  {
    hide ValueText, MembersText, ObjectOpen, Indent, SkipWs, WsEnd, At;
    ObjectParts(s, i, t, d, format);
    j := i + |ObjectOpen(format)|;
    close := i + |ValueText(t, d, format)| - 1;
    InsideObject(s, i, close, t.members, d, format);
  }

  lemma {:induction false} OpenObject(s: seq<byte>, i: nat, depth: nat)
    requires Terminated(s) && i < |s| && s[i] == 0x7B
    ensures ParseValue(s, i, depth)
         == if depth >= NESTING_LIMIT then Bad
            else if s[SkipWs(s, i + 1)] == 0x7D then Parsed(Object([]), SkipWs(s, i + 1) + 1)
            else ParseMembers(s, SkipWs(s, i + 1), depth + 1, [])
  {
  }

  lemma {:induction false} ObjectRun(s: seq<byte>, i: nat, t: Json, d: nat, format: bool, depth: nat)
    requires Terminated(s) && ValidTree(t) && t.Object? && depth <= NESTING_LIMIT
    requires At(s, i, ValueText(t, d, format)) && i + |ValueText(t, d, format)| < |s|
    ensures Outcome(ParseValue(s, i, depth), depth, Nesting(t), t, i + |ValueText(t, d, format)|)
    decreases t, 0
  {
    hide ParseValue, ParseMembers, MembersText, ParseString, At;
    assert t.members[..0] == [];
    var j, close := ObjectShape(s, i, t, d, format);
    OpenObject(s, i, depth);
    if t.members != [] && depth < NESTING_LIMIT {
      var q := SkipWs(s, i + 1);
      WsRun(s, q, q);
      MembersRun(s, q, j, close, t.members, 0, d + 1, format, depth + 1);
    }
  }

  // ---------------------------------------------------------------- all values

  lemma {:induction false} ValueRun(s: seq<byte>, i: nat, t: Json, d: nat, format: bool, depth: nat)
    requires Terminated(s) && ValidTree(t) && depth <= NESTING_LIMIT && At(s, i, ValueText(t, d, format))
    requires i + |ValueText(t, d, format)| < |s| && !IsNumberChar(s[i + |ValueText(t, d, format)|])
    ensures Outcome(ParseValue(s, i, depth), depth, Nesting(t), t, i + |ValueText(t, d, format)|)
    decreases t, 1
  {
    hide ParseValue, ValueText, At;
    if t.Array? {
      ArrayRun(s, i, t, d, format, depth);
    } else if t.Object? {
      ObjectRun(s, i, t, d, format, depth);
    } else {
      LeafRun(s, i, t, d, format, depth);
    }
  }

  /**
   Parsing printed text, formatted or not and whatever follows it, gives back the tree and stops
   exactly at its end, if and only if the tree nests at most 1000 deep.
   */
  lemma {:induction false} RoundTrip(t: Json, format: bool, rest: seq<byte>)
    requires ValidTree(t) && Terminated(rest) && !IsNumberChar(rest[0])
    ensures var text := ValueText(t, 0, format);
            Terminated(text + rest) && if Nesting(t) <= NESTING_LIMIT then Parse(text + rest) == Parsed(t, |text|)
                                       else Parse(text + rest) == Bad
  {
    var text := ValueText(t, 0, format);
    var s := text + rest;
    ValueAt(s, 0, t, 0, format) by { AtSlice(s, 0, |text|); assert s[0..|text|] == text; }
    assert At(s, 0, text) by { AtSlice(s, 0, |text|); assert s[0..|text|] == text; }
    ValueFirstByte(t, 0, format);
    ValueRun(s, 0, t, 0, format, 0);
  }

  /** No printed text starts like a byte order mark. */
  lemma {:induction false} ValueFirstByte(t: Json, d: nat, format: bool)
    requires ValidTree(t)
    ensures ValueText(t, d, format) != [] && ValueText(t, d, format)[0] < 0x80
  {
    if t.Number? {
      DigitsBytes(if t.value.Floor < 0 then -t.value.Floor else t.value.Floor);
    }
  }
}
