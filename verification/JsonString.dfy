/**
 String literals of the JSON parser: a first pass finds the closing quote and sizes the output, a
 second pass unescapes (section 7 of RFC 8259) and encodes \u escapes as UTF-8 (section 3 of RFC 3629).

 A `\u` whose digits are bad is taken as U+0000 and still swallows six bytes, so the second pass
 can fall out of step with the first one.
 */
module JsonString {
  import opened Bytes
  import Bits

  const QUOTE: byte := 0x22
  const BACKSLASH: byte := 0x5C

  // ---------------------------------------------------------------- first pass

  /** The closing quote of the literal whose contents start at `i`. */
  function LiteralEnd(s: seq<byte>, i: nat): (e: Option<nat>)
    requires i <= |s|
    ensures e.Some? ==> i <= e.value < |s| && s[e.value] == QUOTE
    decreases |s| - i
  {
    if i == |s| then None
    else if s[i] == QUOTE then Some(i)
    else if s[i] != BACKSLASH then LiteralEnd(s, i + 1)
    else if i + 1 == |s| then None
    else LiteralEnd(s, i + 2)
  }

  /** The escapes that the first pass counts from `i` on. */
  function Escapes(s: seq<byte>, i: nat): nat
    requires i <= |s|
    decreases |s| - i
  {
    if i == |s| || s[i] == QUOTE then 0
    else if s[i] != BACKSLASH then Escapes(s, i + 1)
    else if i + 1 == |s| then 0
    else 1 + Escapes(s, i + 2)
  }

  // ---------------------------------------------------------------- escape sequences

  predicate FourDigits(s: seq<byte>, i: nat)
    requires i + 4 <= |s|
  {
    DecodeHex(s[i]) >= 0 && DecodeHex(s[i + 1]) >= 0 && DecodeHex(s[i + 2]) >= 0 && DecodeHex(s[i + 3]) >= 0
  }

  /** `parse_hex4`: 0 if a digit is bad. */
  function Hex4(s: seq<byte>, i: nat): (v: nat)
    requires i + 4 <= |s|
    ensures v < 0x1_0000 && (v != 0 ==> FourDigits(s, i))
  {
    if FourDigits(s, i) then
      ((DecodeHex(s[i]) * 16 + DecodeHex(s[i + 1])) * 16 + DecodeHex(s[i + 2])) * 16 + DecodeHex(s[i + 3])
    else 0
  }

  /** UTF-8 of a code point (section 3 of RFC 3629). */
  function Utf8(c: nat): (u: seq<byte>)
    requires c <= 0x10_FFFF
    ensures 1 <= |u| <= 4 && (c < 0x1_0000 ==> |u| <= 3)
  {
    if c < 0x80 then [c]
    else if c < 0x800 then [0xC0 + c / 0x40, 0x80 + c % 0x40]
    else if c < 0x1_0000 then [0xE0 + c / 0x1000, 0x80 + c / 0x40 % 0x40, 0x80 + c % 0x40]
    else [0xF0 + c / 0x4_0000, 0x80 + c / 0x1000 % 0x40, 0x80 + c / 0x40 % 0x40, 0x80 + c % 0x40]
  }

  predicate HighSurrogate(v: nat) { 0xD800 <= v <= 0xDBFF }

  predicate LowSurrogate(v: nat) { 0xDC00 <= v <= 0xDFFF }

  function Combine(high: nat, low: nat): (c: nat)
    requires HighSurrogate(high) && LowSurrogate(low)
    ensures 0x1_0000 <= c <= 0x10_FFFF
  {
    0x1_0000 + (high - 0xD800) * 0x400 + (low - 0xDC00)
  }

  /** What an escape sequence stands for, and how many bytes of input it takes. */
  datatype Escape = Escape(bytes: seq<byte>, len: nat) | BadEscape

  /** The second half of a surrogate pair. */
  function PairEscape(s: seq<byte>, i: nat, end: nat, high: nat): (r: Escape)
    requires i + 6 <= end < |s| && HighSurrogate(high)
    ensures r.Escape? ==> r.len == 12 && 1 <= |r.bytes| <= 4 && i + 12 <= end
  {
    if end - (i + 6) < 6 || s[i + 6] != BACKSLASH || s[i + 7] != 0x75 then BadEscape
    else if LowSurrogate(Hex4(s, i + 8)) then Escape(Utf8(Combine(high, Hex4(s, i + 8))), 12)
    else BadEscape
  }

  /** `utf16_literal_to_utf8`. */
  function UnicodeEscape(s: seq<byte>, i: nat, end: nat): (r: Escape)
    requires i <= end < |s|
    ensures r.Escape? ==> i + r.len <= end && 1 <= |r.bytes|
    ensures r.Escape? ==> (r.len == 6 && |r.bytes| <= 3) || (r.len == 12 && |r.bytes| <= 4)
  {
    if end - i < 6 || LowSurrogate(Hex4(s, i + 2)) then BadEscape
    else if HighSurrogate(Hex4(s, i + 2)) then PairEscape(s, i, end, Hex4(s, i + 2))
    else Escape(Utf8(Hex4(s, i + 2)), 6)
  }

  /** The byte that a one-letter escape stands for, or -1. */
  function Unletter(b: byte): (v: int)
    ensures -1 <= v < 256
  {
    if b == 0x62 then 8
    else if b == 0x66 then 12
    else if b == 0x6E then 10
    else if b == 0x72 then 13
    else if b == 0x74 then 9
    else if b == QUOTE || b == BACKSLASH || b == 0x2F then b
    else -1
  }

  function EscapeAt(s: seq<byte>, i: nat, end: nat): (r: Escape)
    requires i < end < |s|
    ensures r.Escape? ==> 1 <= |r.bytes| && ((r.len == 2 && |r.bytes| == 1)
                          || (i + r.len <= end && ((r.len == 6 && |r.bytes| <= 3) || (r.len == 12 && |r.bytes| <= 4))))
  {
    if s[i + 1] == 0x75 then UnicodeEscape(s, i, end)
    else if Unletter(s[i + 1]) >= 0 then Escape([Unletter(s[i + 1])], 2)
    else BadEscape
  }

  // ---------------------------------------------------------------- second pass

  /** The contents from `i` on up to the quote at `end`, unescaped after `out`; the last step may pass the quote. */
  function Unescape(s: seq<byte>, i: nat, end: nat, out: seq<byte>): Option<seq<byte>>
    requires i <= end + 1 && end < |s|
    decreases end + 1 - i
  {
    if i >= end then Some(out)
    else if s[i] != BACKSLASH then Unescape(s, i + 1, end, out + [s[i]])
    else
      match EscapeAt(s, i, end)
      case Escape(bytes, len) => Unescape(s, i + len, end, out + bytes)
      case BadEscape => None
  }

  /** The bytes that later readers of a C string see. */
  function CString(t: seq<byte>): (r: seq<byte>)
    ensures r <= t && NUL !in r && (NUL !in t ==> r == t)
  {
    if t == [] || t[0] == NUL then [] else [t[0]] + CString(t[1..])
  }

  // ---------------------------------------------------------------- the passes stay in step well enough

  lemma {:induction false} LiteralSkip(s: seq<byte>, i: nat, j: nat)
    requires i <= j <= |s| && forall k :: i <= k < j ==> s[k] != QUOTE && s[k] != BACKSLASH
    ensures LiteralEnd(s, i) == LiteralEnd(s, j)
    decreases j - i
  {
    if i == j {
    } else {
      LiteralSkip(s, i + 1, j);
    }
  }

  /** Every escape takes two bytes of input in the first pass. */
  lemma {:induction false} EscapesTakeTwo(s: seq<byte>, q: nat, target: nat) returns (q': nat)
    requires q <= target <= |s| && LiteralEnd(s, q).Some? && target <= LiteralEnd(s, q).value
    ensures target <= q' <= target + 1 && q' <= |s| && LiteralEnd(s, q') == LiteralEnd(s, q)
    ensures 2 * Escapes(s, q) <= 2 * Escapes(s, q') + (q' - q)
    decreases |s| - q
  {
    if q == target {
      q' := q;
    } else if s[q] != BACKSLASH {
      q' := EscapesTakeTwo(s, q + 1, target);
    } else if q + 1 == target {
      q' := q + 2;
    } else {
      q' := EscapesTakeTwo(s, q + 2, target);
    }
  }

  lemma {:induction false} EscapesAtEnd(s: seq<byte>, q: nat)
    requires q <= |s| && LiteralEnd(s, q).Some?
    ensures 2 * Escapes(s, q) <= LiteralEnd(s, q).value - q
    decreases |s| - q
  {
    if s[q] != QUOTE {
      EscapesAtEnd(s, if s[q] == BACKSLASH then q + 2 else q + 1);
    }
  }

  /**
   The second pass at `p` has written `o` bytes: `q` is where the first pass stopped at or just
   after `p`, and the bytes saved so far make up for the escapes counted so far.
   */
  predicate InStep(s: seq<byte>, start: nat, end: nat, p: nat, q: nat, o: nat)
    requires start <= |s|
  {
    && start <= p <= end + 1 && q <= end < |s|
    && (p <= end ==> p <= q <= p + 1) && (p > end ==> q == end)
    && LiteralEnd(s, q) == Some(end)
    && o + Escapes(s, start) <= (p - start) + Escapes(s, q)
  }

  /** In step means within the allocation, with room for the terminator. */
  lemma {:induction false} RoomLeft(s: seq<byte>, start: nat, end: nat, p: nat, q: nat, o: nat)
    requires start <= |s| && InStep(s, start, end, p, q, o)
    ensures o + Escapes(s, start) <= end + 1 - start
  {
    EscapesAtEnd(s, q);
  }

  lemma {:induction false} PlainStep(s: seq<byte>, start: nat, end: nat, p: nat, q: nat, o: nat) returns (q': nat)
    requires start <= |s| && InStep(s, start, end, p, q, o) && p < end && s[p] != BACKSLASH
    ensures InStep(s, start, end, p + 1, q', o + 1)
  {
    q' := p + 1;
  }

  lemma {:induction false} EscapeStep(s: seq<byte>, start: nat, end: nat, p: nat, q: nat, o: nat) returns (q': nat)
    requires start <= |s| && InStep(s, start, end, p, q, o) && p < end && s[p] == BACKSLASH
             && EscapeAt(s, p, end).Escape?
    ensures InStep(s, start, end, p + EscapeAt(s, p, end).len, q', o + |EscapeAt(s, p, end).bytes|)
  {
    var target := p + EscapeAt(s, p, end).len;
    if target <= end {
      q' := EscapesTakeTwo(s, q, if q <= target then target else q);
    } else {
      q' := end;
    }
  }

  /**
   The passes do fall out of step: in `\uxxx\\` the bad `\u` swallows the first of the two
   backslashes, and the second one then takes the closing quote as its letter.
   */
  lemma {:induction false} SecondPassMayPassTheQuote()
    ensures var s: seq<byte> := [0x5C, 0x75, 0x78, 0x78, 0x78, 0x5C, 0x5C, 0x22];
            LiteralEnd(s, 0) == Some(7) && EscapeAt(s, 0, 7) == Escape([NUL], 6)
              && EscapeAt(s, 6, 7) == Escape([QUOTE], 2)
  {
    var s: seq<byte> := [0x5C, 0x75, 0x78, 0x78, 0x78, 0x5C, 0x5C, 0x22];
    assert LiteralEnd(s, 7) == Some(7) && LiteralEnd(s, 5) == Some(7) && LiteralEnd(s, 3) == Some(7);
  }

  // ---------------------------------------------------------------- UTF-8 as it is written

  /** `first_byte_mark`. */
  function FirstMark(n: nat): nat
  {
    match n case 2 => 0xC0 case 3 => 0xE0 case 4 => 0xF0 case _ => 0
  }

  /** `(codepoint | 0x80) & 0xBF`, as a byte. */
  method ContinuationByte(c: nat) returns (b: byte)
    ensures b == 0x80 + c % 0x40
  {
    hide Bits.And, Bits.Or;
    Bits.Continuation(c);
    b := Bits.And(Bits.And(Bits.Or(c, 0x80), 0xBF), 0xFF);
  }

  /** `codepoint | first_byte_mark`, as a byte, or `codepoint & 0x7F`. */
  method LeadByte(c: nat, n: nat) returns (b: byte)
    requires (n == 1 && c < 0x80) || (n == 2 && c < 0x20) || (n == 3 && c < 0x10) || (n == 4 && c < 8)
    ensures b == if n == 1 then c else FirstMark(n) + c
  {
    hide Bits.And, Bits.Or;
    if n > 1 {
      Bits.FirstByte(c, FirstMark(n));
      b := Bits.And(Bits.Or(c, FirstMark(n)), 0xFF);
    } else {
      Bits.Low7(c);
      b := Bits.And(c, 0x7F);
    }
  }

  /** `0x10000 + (((first & 0x3FF) << 10) | (second & 0x3FF))`. */
  method PairPoint(first: nat, second: nat) returns (c: nat)
    requires HighSurrogate(first) && LowSurrogate(second)
    ensures c == Combine(first, second)
  {
    hide Bits.And, Bits.Or;
    Bits.Pair(first, second);
    c := 0x1_0000 + Bits.Or(0x400 * Bits.And(first, 0x3FF), Bits.And(second, 0x3FF));
  }

  /** Writes the UTF-8 of `codepoint` at `output[o..]`, last byte first. */
  method EncodeUtf8(codepoint: nat, output: array<byte>, o: nat) returns (n: nat)
    requires codepoint <= 0x10_FFFF && o + |Utf8(codepoint)| <= output.Length
    modifies output
    ensures n == |Utf8(codepoint)|
    ensures output[..o + n] == old(output[..o]) + Utf8(codepoint)
  {
    n := if codepoint < 0x80 then 1 else if codepoint < 0x800 then 2 else if codepoint < 0x1_0000 then 3 else 4;
    var c, position := codepoint, n - 1;
    ghost var u, before := Utf8(codepoint), output[..o];
    while position > 0
      invariant 0 <= position < n
      invariant output[..o] == before
      invariant forall k :: o + position < k < o + n ==> output[k] == u[k - o]
      invariant c == Shifted(codepoint, n - 1 - position)
    {
      output[o + position] := ContinuationByte(c);
      c := c / 0x40;
      position := position - 1;
    }
    output[o] := LeadByte(c, n);
    assert output[..o + n] == output[..o] + u;
  }

  function Shifted(c: nat, k: nat): nat
  {
    match k case 0 => c case 1 => c / 0x40 case 2 => c / 0x40 / 0x40 case _ => c / 0x40 / 0x40 / 0x40
  }

  // ---------------------------------------------------------------- the passes as they run

  method ParseHex4(s: seq<byte>, i: nat) returns (h: nat)
    requires i + 4 <= |s|
    ensures h == Hex4(s, i)
  {
    h := 0;
    var k := 0;
    while k < 4
      invariant 0 <= k <= 4
      invariant forall j :: i <= j < i + k ==> DecodeHex(s[j]) >= 0
      invariant h == match k
                     case 0 => 0
                     case 1 => DecodeHex(s[i]) * 16
                     case 2 => (DecodeHex(s[i]) * 16 + DecodeHex(s[i + 1])) * 16
                     case 3 => ((DecodeHex(s[i]) * 16 + DecodeHex(s[i + 1])) * 16 + DecodeHex(s[i + 2])) * 16
                     case _ => Hex4(s, i)
    {
      var d := DecodeHex(s[i + k]);
      if d < 0 {
        return 0;
      }
      h := h + d;
      if k < 3 {
        h := h * 16;
      }
      k := k + 1;
    }
  }

  /** Decodes the `\u` escape at `i` into `output[o..]`; `len` is 0 if it is refused. */
  method Utf16LiteralToUtf8(s: seq<byte>, i: nat, end: nat, output: array<byte>, o: nat) returns (len: nat, n: nat)
    requires i <= end < |s| && o <= output.Length
    requires var e := UnicodeEscape(s, i, end); e.Escape? ==> o + |e.bytes| <= output.Length
    modifies output
    ensures match UnicodeEscape(s, i, end)
            case BadEscape => len == 0
            case Escape(bytes, l) => len == l && n == |bytes| && output[..o + n] == old(output[..o]) + bytes
  {
    if end - i < 6 {
      return 0, 0;
    }
    var first := ParseHex4(s, i + 2);
    if 0xDC00 <= first <= 0xDFFF {
      return 0, 0;
    }
    var codepoint := first;
    len := 6;
    if 0xD800 <= first <= 0xDBFF {
      len := 12;
      if end - (i + 6) < 6 {
        return 0, 0;
      }
      if s[i + 6] != BACKSLASH || s[i + 7] != 0x75 {
        return 0, 0;
      }
      var second := ParseHex4(s, i + 8);
      if second < 0xDC00 || second > 0xDFFF {
        return 0, 0;
      }
      codepoint := PairPoint(first, second);
    }
    n := EncodeUtf8(codepoint, output, o);
  }

  /** The first pass: the closing quote, and the number of escapes on the way. */
  method FindEnd(s: seq<byte>, start: nat) returns (end: Option<nat>, skipped: nat)
    requires start <= |s|
    ensures end == LiteralEnd(s, start)
    ensures end.Some? ==> skipped == Escapes(s, start)
  {
    var i := start;
    skipped := 0;
    while i < |s| && s[i] != QUOTE
      invariant start <= i <= |s| && LiteralEnd(s, i) == LiteralEnd(s, start)
      invariant skipped + Escapes(s, i) == Escapes(s, start)
    {
      if s[i] == BACKSLASH {
        if i + 1 >= |s| {
          return None, skipped;
        }
        skipped := skipped + 1;
        i := i + 1;
      }
      i := i + 1;
    }
    end := if i >= |s| then None else Some(i);
  }

  /** One escape sequence of the second pass. */
  method UnescapeOne(s: seq<byte>, i: nat, end: nat, output: array<byte>, o: nat) returns (len: nat, n: nat)
    requires i < end < |s| && o <= output.Length
    requires var e := EscapeAt(s, i, end); e.Escape? ==> o + |e.bytes| <= output.Length
    modifies output
    ensures match EscapeAt(s, i, end)
            case BadEscape => len == 0
            case Escape(bytes, l) => len == l && n == |bytes| && output[..o + n] == old(output[..o]) + bytes
  {
    if s[i + 1] == 0x75 {
      len, n := Utf16LiteralToUtf8(s, i, end, output, o);
      return;
    }
    var b := Unletter(s[i + 1]);
    if b < 0 {
      return 0, 0;
    }
    output[o] := b;
    len, n := 2, 1;
    assert output[..o + 1] == old(output[..o]) + [b as byte];
  }

  /** The second pass, into an array of exactly the size that the first pass computed. */
  method FillOutput(s: seq<byte>, start: nat, end: nat, output: array<byte>) returns (ok: bool, n: nat)
    requires start <= |s| && LiteralEnd(s, start) == Some(end)
    requires output.Length == end + 2 - start - Escapes(s, start)
    modifies output
    ensures match Unescape(s, start, end, [])
            case None => !ok
            case Some(out) => ok && n == |out| < output.Length && output[..n] == out
  {
    hide LiteralEnd, Escapes, EscapeAt;
    var i: nat := start;
    ghost var q := start;
    n := 0;
    while i < end
      invariant InStep(s, start, end, i, q, n) && n <= output.Length
      invariant Unescape(s, i, end, output[..n]) == Unescape(s, start, end, [])
      decreases end + 1 - i
    {
      ghost var out := output[..n];
      if s[i] != BACKSLASH {
        q := PlainStep(s, start, end, i, q, n);
        RoomLeft(s, start, end, i + 1, q, n + 1);
        output[n] := s[i];
        assert output[..n + 1] == out + [s[i]];
        i, n := i + 1, n + 1;
      } else {
        q := RoomForEscape(s, start, end, i, q, n, output.Length);
        var len, k := UnescapeOne(s, i, end, output, n);
        if len == 0 {
          return false, n;
        }
        i, n := i + len, n + k;
      }
    }
    RoomLeft(s, start, end, i, q, n);
    ok := true;
  }

  lemma {:induction false} RoomForEscape(s: seq<byte>, start: nat, end: nat, p: nat, q: nat, o: nat, size: nat)
      returns (q': nat)
    requires start <= |s| && InStep(s, start, end, p, q, o) && p < end && s[p] == BACKSLASH
    requires size == end + 2 - start - Escapes(s, start)
    ensures var e := EscapeAt(s, p, end);
            e.Escape? ==> InStep(s, start, end, p + e.len, q', o + |e.bytes|) && o + |e.bytes| < size
  {
    q' := q;
    var e := EscapeAt(s, p, end);
    if e.Escape? {
      q' := EscapeStep(s, start, end, p, q, o);
      RoomLeft(s, start, end, p + e.len, q', o + |e.bytes|);
    }
  }

  /**
   `parse_string` on the literal whose opening quote is at `open`: one pass sizes the output, the
   other fills it and ends it with a terminator.
   */
  method ParseLiteral(s: seq<byte>, open: nat) returns (output: array<byte>, n: nat, end: Option<nat>)
    requires open < |s|
    ensures match LiteralEnd(s, open + 1)
            case None => end == None
            case Some(e) =>
              match Unescape(s, open + 1, e, [])
              case None => end == None
              case Some(out) => end == Some(e) && output.Length == (e - open) - Escapes(s, open + 1) + 1
                                && n == |out| < output.Length && output[..n] == out && output[n] == NUL
  {
    n := 0;
    var skipped;
    end, skipped := FindEnd(s, open + 1);
    if end.None? {
      output := new byte[0];
      return;
    }
    EscapesAtEnd(s, open + 1);
    output := new byte[(end.value - open) - skipped + 1];
    var ok;
    ok, n := FillOutput(s, open + 1, end.value, output);
    if !ok {
      return output, n, None;
    }
    output[n] := NUL;
  }
}
