/**
 What a string literal denotes.  A literal that is well-formed UTF-8 and whose `\u` escapes all have
 four digits is a list of items; unescaping gives exactly the UTF-8 of the code points it denotes,
 or refuses it because it denotes nothing.
 */
module JsonUnicode {
  import opened Bytes
  import opened JsonString

  /** An unescaped character, a backslash before a character other than `u`, or `\u` and four digits. */
  datatype Item = Plain(c: nat) | Letter(c: nat) | Unit(digits: seq<byte>)

  /** Unicode scalar values: what UTF-8 may encode. */
  predicate IsScalar(c: nat)
  {
    c <= 0x10_FFFF && !HighSurrogate(c) && !LowSurrogate(c)
  }

  predicate ValidItem(item: Item)
  {
    match item
    case Plain(c) => IsScalar(c) && c != QUOTE && c != BACKSLASH
    case Letter(c) => IsScalar(c) && c != 0x75
    case Unit(digits) => |digits| == 4 && FourDigits(digits, 0)
  }

  predicate ValidItems(items: seq<Item>)
  {
    forall k :: 0 <= k < |items| ==> ValidItem(items[k])
  }

  function ItemText(item: Item): seq<byte>
    requires ValidItem(item)
  {
    match item
    case Plain(c) => Utf8(c)
    case Letter(c) => [BACKSLASH] + Utf8(c)
    case Unit(digits) => [BACKSLASH, 0x75] + digits
  }

  /** The literal's contents from item `k` on. */
  function Text(items: seq<Item>, k: nat): seq<byte>
    requires ValidItems(items) && k <= |items|
    decreases |items| - k
  {
    if k == |items| then [] else ItemText(items[k]) + Text(items, k + 1)
  }

  function UnitValue(item: Item): nat
    requires item.Unit? && ValidItem(item)
  {
    Hex4(item.digits, 0)
  }

  predicate IsLowUnit(items: seq<Item>, k: nat)
    requires ValidItems(items)
  {
    k < |items| && items[k].Unit? && LowSurrogate(UnitValue(items[k]))
  }

  /** The code point that the items at `k` denote, and how many of them it takes. */
  datatype Meaning = Meaning(c: nat, count: nat) | Nothing

  function MeaningAt(items: seq<Item>, k: nat): (m: Meaning)
    requires ValidItems(items) && k < |items|
    ensures m.Meaning? ==> IsScalar(m.c) && 1 <= m.count && k + m.count <= |items|
  {
    match items[k]
    case Plain(c) => Meaning(c, 1)
    case Letter(c) => if c < 0x80 && Unletter(c) >= 0 then Meaning(Unletter(c), 1) else Nothing
    case Unit(_) =>
      var v := UnitValue(items[k]);
      if LowSurrogate(v) then Nothing
      else if !HighSurrogate(v) then Meaning(v, 1)
      else if IsLowUnit(items, k + 1) then Meaning(Combine(v, UnitValue(items[k + 1])), 2)
      else Nothing
  }

  /** The UTF-8 of all code points denoted from item `k` on, after `out`. */
  function Denoted(items: seq<Item>, k: nat, out: seq<byte>): Option<seq<byte>>
    requires ValidItems(items) && k <= |items|
    decreases |items| - k
  {
    if k == |items| then Some(out)
    else
      match MeaningAt(items, k)
      case Nothing => None
      case Meaning(c, count) => Denoted(items, k + count, out + Utf8(c))
  }

  // ---------------------------------------------------------------- bytes of characters

  lemma {:induction false} Utf8Bytes(c: nat)
    requires IsScalar(c) && c != QUOTE && c != BACKSLASH
    ensures forall k :: 0 <= k < |Utf8(c)| ==> Utf8(c)[k] != QUOTE && Utf8(c)[k] != BACKSLASH
    ensures c >= 0x80 ==> Unletter(Utf8(c)[0]) == -1 && Utf8(c)[0] != 0x75
  {
  }

  lemma {:induction false} PlainRun(s: seq<byte>, i: nat, end: nat, out: seq<byte>, w: seq<byte>, n: nat)
    requires i + |w| <= end < |s| && n <= |w|
    requires forall k :: i <= k < i + |w| ==> s[k] == w[k - i] && s[k] != BACKSLASH
    ensures Unescape(s, i, end, out) == Unescape(s, i + n, end, out + w[..n])
    decreases n
  {
    if n == 0 {
      assert out + w[..0] == out;
    } else {
      PlainRun(s, i, end, out, w, n - 1);
      assert out + w[..n - 1] + [w[n - 1]] == out + w[..n];
    }
  }

  lemma {:induction false} Hex4At(s: seq<byte>, i: nat, digits: seq<byte>)
    requires |digits| == 4 && i + 4 <= |s| && forall k :: i <= k < i + 4 ==> s[k] == digits[k - i]
    ensures Hex4(s, i) == Hex4(digits, 0) && FourDigits(s, i) == FourDigits(digits, 0)
  {
    assert s[i] == digits[0] && s[i + 1] == digits[1] && s[i + 2] == digits[2] && s[i + 3] == digits[3];
  }

  // ---------------------------------------------------------------- items are stepped over

  lemma {:induction false} ItemLiteral(s: seq<byte>, i: nat, item: Item)
    requires ValidItem(item) && At(s, i, ItemText(item))
    ensures LiteralEnd(s, i) == LiteralEnd(s, i + |ItemText(item)|)
  {
    AtElements(s, i, ItemText(item));
    match item
    case Plain(c) =>
      Utf8Bytes(c);
      LiteralSkip(s, i, i + |Utf8(c)|);
    case Letter(c) =>
      assert s[i] == ItemText(item)[0];
      if c >= 0x80 {
        Utf8Bytes(c);
        LiteralSkip(s, i + 2, i + 1 + |Utf8(c)|);
      }
    case Unit(digits) =>
      assert s[i] == ItemText(item)[0] && s[i + 1] == ItemText(item)[1];
      forall k | i + 2 <= k < i + 6 ensures s[k] != QUOTE && s[k] != BACKSLASH {
        assert s[k] == digits[k - i - 2];
        assert DecodeHex(digits[0]) >= 0 && DecodeHex(digits[1]) >= 0 && DecodeHex(digits[2]) >= 0
               && DecodeHex(digits[3]) >= 0;
      }
      LiteralSkip(s, i + 2, i + 6);
  }

  lemma {:induction false} TextLiteral(s: seq<byte>, i: nat, items: seq<Item>, k: nat)
    requires ValidItems(items) && k <= |items| && At(s, i, Text(items, k))
    requires i + |Text(items, k)| < |s| && s[i + |Text(items, k)|] == QUOTE
    ensures LiteralEnd(s, i) == Some(i + |Text(items, k)|)
    decreases |items| - k
  {
    hide ItemText, ValidItem, At;
    if k == |items| {
    } else {
      AtParts(s, i, ItemText(items[k]), Text(items, k + 1));
      ItemLiteral(s, i, items[k]);
      TextLiteral(s, i + |ItemText(items[k])|, items, k + 1);
    }
  }

  // ---------------------------------------------------------------- what a step of the second pass means

  /** The items from `k` on stand at `i` and the closing quote follows them at `end`. */
  ghost predicate Inside(s: seq<byte>, i: nat, end: nat, items: seq<Item>, k: nat)
  {
    && ValidItems(items) && k <= |items|
    && At(s, i, Text(items, k)) && i + |Text(items, k)| == end < |s| && s[end] == QUOTE
  }

  lemma {:induction false} InsideNext(s: seq<byte>, i: nat, end: nat, items: seq<Item>, k: nat)
    requires Inside(s, i, end, items, k) && k < |items|
    ensures At(s, i, ItemText(items[k])) && Inside(s, i + |ItemText(items[k])|, end, items, k + 1)
  {
    AtParts(s, i, ItemText(items[k]), Text(items, k + 1));
  }

  lemma {:induction false} PlainMeaning(s: seq<byte>, i: nat, end: nat, items: seq<Item>, k: nat, out: seq<byte>)
    requires Inside(s, i, end, items, k) && k < |items| && items[k].Plain?
    ensures Unescape(s, i, end, out) == Unescape(s, i + |ItemText(items[k])|, end, out + Utf8(items[k].c))
  {
    InsideNext(s, i, end, items, k);
    var w := Utf8(items[k].c);
    AtElements(s, i, w);
    Utf8Bytes(items[k].c);
    PlainRun(s, i, end, out, w, |w|);
    assert w[..|w|] == w;
  }

  lemma {:induction false} LetterBytes(s: seq<byte>, i: nat, end: nat, items: seq<Item>, k: nat)
    requires Inside(s, i, end, items, k) && k < |items| && items[k].Letter?
    ensures i + 2 <= end && s[i] == BACKSLASH && s[i + 1] == Utf8(items[k].c)[0] && s[i + 1] != 0x75
  {
    hide Utf8;
    InsideNext(s, i, end, items, k);
    var c := items[k].c;
    AtElements(s, i, ItemText(items[k]));
    assert s[i] == ItemText(items[k])[0] && s[i + 1] == Utf8(c)[0];
    if c >= 0x80 {
      Utf8Bytes(c);
    } else {
      assert Utf8(c)[0] == c by { OneByte(c); }
    }
  }

  lemma {:induction false} OneByte(c: nat)
    requires c < 0x80
    ensures Utf8(c) == [c]
  {
  }

  lemma {:induction false} LetterMeaning(s: seq<byte>, i: nat, end: nat, items: seq<Item>, k: nat)
    requires Inside(s, i, end, items, k) && k < |items| && items[k].Letter?
    ensures i < end && s[i] == BACKSLASH && s[i + 1] != 0x75
    ensures match MeaningAt(items, k)
            case Nothing => EscapeAt(s, i, end) == BadEscape
            case Meaning(c, count) =>
              EscapeAt(s, i, end) == Escape(Utf8(c), 2) && count == 1 && |ItemText(items[k])| == 2
  {
    hide Utf8, At;
    LetterBytes(s, i, end, items, k);
    var c := items[k].c;
    if c < 0x80 {
      OneByte(c);
      if Unletter(c) >= 0 { OneByte(Unletter(c)); }
    } else {
      Utf8Bytes(c);
    }
  }

  lemma {:induction false} UnitBytes(s: seq<byte>, i: nat, end: nat, items: seq<Item>, k: nat)
    requires Inside(s, i, end, items, k) && k < |items| && items[k].Unit?
    ensures i + 6 <= end && s[i] == BACKSLASH && s[i + 1] == 0x75 && Hex4(s, i + 2) == UnitValue(items[k])
  {
    InsideNext(s, i, end, items, k);
    var w := ItemText(items[k]);
    AtElements(s, i, w);
    assert s[i] == w[0] && s[i + 1] == w[1];
    Hex4At(s, i + 2, items[k].digits);
  }

  lemma {:induction false} PlainByte(s: seq<byte>, i: nat, end: nat, items: seq<Item>, k: nat)
    requires Inside(s, i, end, items, k) && k < |items| && items[k].Plain?
    ensures i < end && s[i] != BACKSLASH
  {
    hide Text;
    InsideNext(s, i, end, items, k);
    AtElements(s, i, Utf8(items[k].c));
    Utf8Bytes(items[k].c);
    assert s[i] == Utf8(items[k].c)[0];
  }

  lemma {:induction false} InsideEnd(s: seq<byte>, i: nat, end: nat, items: seq<Item>)
    requires Inside(s, i, end, items, |items|)
    ensures i == end
  {
  }

  /** After a high surrogate a pair is completed exactly by a low unit. */
  lemma {:induction false} PairMeaning(s: seq<byte>, i: nat, end: nat, items: seq<Item>, k: nat)
    requires Inside(s, i, end, items, k) && k < |items| && items[k].Unit? && HighSurrogate(UnitValue(items[k]))
    requires i + 6 <= end
    ensures PairEscape(s, i, end, UnitValue(items[k]))
         == if IsLowUnit(items, k + 1) then Escape(Utf8(Combine(UnitValue(items[k]), UnitValue(items[k + 1]))), 12)
           else BadEscape
  {
    hide Text, At, Hex4, Utf8, Combine, UnitValue;
    InsideNext(s, i, end, items, k);
    assert Inside(s, i + 6, end, items, k + 1);
    hide Inside, ItemText;
    if k + 1 == |items| {
      InsideEnd(s, i + 6, end, items);
    } else {
      match items[k + 1]
      case Plain(_) => PlainByte(s, i + 6, end, items, k + 1);
      case Letter(_) => LetterBytes(s, i + 6, end, items, k + 1);
      case Unit(_) => UnitBytes(s, i + 6, end, items, k + 1);
    }
  }

  lemma {:induction false} UnitMeaning(s: seq<byte>, i: nat, end: nat, items: seq<Item>, k: nat)
    requires Inside(s, i, end, items, k) && k < |items| && items[k].Unit?
    ensures i < end && s[i] == BACKSLASH
    ensures match MeaningAt(items, k)
            case Nothing => EscapeAt(s, i, end) == BadEscape
            case Meaning(c, count) => EscapeAt(s, i, end) == Escape(Utf8(c), 6 * count)
  {
    hide Text, At, Hex4, Utf8, Combine, PairEscape;
    UnitBytes(s, i, end, items, k);
    if HighSurrogate(UnitValue(items[k])) {
      PairMeaning(s, i, end, items, k);
    }
  }

  lemma {:induction false} UnescapeEscape(s: seq<byte>, i: nat, end: nat, out: seq<byte>)
    requires i < end < |s| && s[i] == BACKSLASH
    ensures EscapeAt(s, i, end).BadEscape? ==> Unescape(s, i, end, out) == None
    ensures EscapeAt(s, i, end).Escape? ==>
              Unescape(s, i, end, out) == Unescape(s, i + EscapeAt(s, i, end).len, end, out + EscapeAt(s, i, end).bytes)
  {
  }

  /** An escape sequence reads what its items denote and leads behind them, or is refused. */
  lemma {:induction false} EscapeMeaning(s: seq<byte>, i: nat, end: nat, items: seq<Item>, k: nat)
    requires Inside(s, i, end, items, k) && k < |items| && !items[k].Plain?
    ensures i < end && s[i] == BACKSLASH
    ensures MeaningAt(items, k).Nothing? ==> EscapeAt(s, i, end) == BadEscape
    ensures MeaningAt(items, k).Meaning? ==>
              && EscapeAt(s, i, end).Escape? && EscapeAt(s, i, end).bytes == Utf8(MeaningAt(items, k).c)
              && Inside(s, i + EscapeAt(s, i, end).len, end, items, k + MeaningAt(items, k).count)
  {
    hide Inside, EscapeAt, Utf8, Combine;
    InsideNext(s, i, end, items, k);
    if items[k].Letter? {
      LetterMeaning(s, i, end, items, k);
    } else {
      UnitMeaning(s, i, end, items, k);
      if MeaningAt(items, k).Meaning? && MeaningAt(items, k).count == 2 {
        InsideNext(s, i + 6, end, items, k + 1);
      }
    }
  }

  lemma {:induction false} StepMeaning(s: seq<byte>, i: nat, end: nat, items: seq<Item>, k: nat, out: seq<byte>)
      returns (next: nat)
    requires Inside(s, i, end, items, k) && k < |items|
    ensures MeaningAt(items, k).Nothing? ==> Unescape(s, i, end, out) == None
    ensures MeaningAt(items, k).Meaning? ==>
              && Inside(s, next, end, items, k + MeaningAt(items, k).count)
              && Unescape(s, i, end, out) == Unescape(s, next, end, out + Utf8(MeaningAt(items, k).c))
  {
    if items[k].Plain? {
      hide Unescape, Utf8, At, Text;
      InsideNext(s, i, end, items, k);
      PlainMeaning(s, i, end, items, k, out);
      next := i + |ItemText(items[k])|;
    } else {
      EscapeMeaning(s, i, end, items, k);
      hide *;
      UnescapeEscape(s, i, end, out);
      next := if EscapeAt(s, i, end).Escape? then i + EscapeAt(s, i, end).len else i;
    }
  }

  lemma {:induction false} UnescapeItems(s: seq<byte>, i: nat, end: nat, items: seq<Item>, k: nat, out: seq<byte>)
    requires Inside(s, i, end, items, k)
    ensures Unescape(s, i, end, out) == Denoted(items, k, out)
    decreases |items| - k
  {
    hide Utf8, At, Text, EscapeAt;
    if k == |items| {
      InsideEnd(s, i, end, items);
    } else {
      var next := StepMeaning(s, i, end, items, k, out);
      var m := MeaningAt(items, k);
      if m.Meaning? {
        UnescapeItems(s, next, end, items, k + m.count, out + Utf8(m.c));
      }
    }
  }

  /** A well-formed literal is closed where its items end, and unescapes to exactly what they denote. */
  lemma {:induction false} LiteralDenotes(s: seq<byte>, start: nat, items: seq<Item>)
    requires ValidItems(items) && At(s, start, Text(items, 0))
    requires start + |Text(items, 0)| < |s| && s[start + |Text(items, 0)|] == QUOTE
    ensures LiteralEnd(s, start) == Some(start + |Text(items, 0)|)
    ensures Unescape(s, start, start + |Text(items, 0)|, []) == Denoted(items, 0, [])
  {
    TextLiteral(s, start, items, 0);
    UnescapeItems(s, start, start + |Text(items, 0)|, items, 0, []);
  }

  /** What is denoted is well-formed UTF-8: the encodings of scalar values, one after the other. */
  lemma {:induction false} DenotedIsUtf8(items: seq<Item>, k: nat, out: seq<byte>) returns (cs: seq<nat>)
    requires ValidItems(items) && k <= |items| && Denoted(items, k, out).Some?
    ensures AllScalars(cs)
    ensures Denoted(items, k, out).value == out + EncodeAll(cs, 0)
    decreases |items| - k
  {
    hide Utf8, ItemText, UnitValue, Combine;
    if k == |items| {
      cs := [];
      assert out + [] == out;
    } else {
      var m := MeaningAt(items, k);
      var rest := DenotedIsUtf8(items, k + m.count, out + Utf8(m.c));
      cs := [m.c] + rest;
      EncodeTail(m.c, rest, 0);
      assert out + Utf8(m.c) + EncodeAll(rest, 0) == out + (Utf8(m.c) + EncodeAll(rest, 0));
    }
  }

  predicate AllScalars(cs: seq<nat>)
  {
    forall k :: 0 <= k < |cs| ==> IsScalar(cs[k])
  }

  function EncodeAll(cs: seq<nat>, k: nat): seq<byte>
    requires k <= |cs| && AllScalars(cs)
    decreases |cs| - k
  {
    if k == |cs| then [] else Utf8(cs[k]) + EncodeAll(cs, k + 1)
  }

  lemma {:induction false} EncodeTail(c: nat, rest: seq<nat>, k: nat)
    requires k <= |rest| && IsScalar(c) && AllScalars(rest)
    ensures EncodeAll([c] + rest, k + 1) == EncodeAll(rest, k)
    decreases |rest| - k
  {
    if k == |rest| {
    } else {
      EncodeTail(c, rest, k + 1);
    }
  }
}
