/**
 The tables behind string literals, told from the standards: which byte sequences are UTF-8 and for which
 scalar value (section 4 of RFC 3629), surrogate pairs (section 2.1 of RFC 2781), hexadecimal digits, and
 the short escapes (section 7 of RFC 8259).
 */
module JsonEscapes {
  import opened Bytes
  import opened JsonString
  import opened JsonUnicode

  predicate Continues(b: byte) { 0x80 <= b <= 0xBF }

  /** The well-formed byte sequences of section 4 of RFC 3629. */
  predicate WellFormed(u: seq<byte>)
  {
    || (|u| == 1 && u[0] <= 0x7F)
    || (|u| == 2 && 0xC2 <= u[0] <= 0xDF && Continues(u[1]))
    || (|u| == 3 && u[0] == 0xE0 && 0xA0 <= u[1] <= 0xBF && Continues(u[2]))
    || (|u| == 3 && (0xE1 <= u[0] <= 0xEC || 0xEE <= u[0] <= 0xEF) && Continues(u[1]) && Continues(u[2]))
    || (|u| == 3 && u[0] == 0xED && 0x80 <= u[1] <= 0x9F && Continues(u[2]))
    || (|u| == 4 && u[0] == 0xF0 && 0x90 <= u[1] <= 0xBF && Continues(u[2]) && Continues(u[3]))
    || (|u| == 4 && 0xF1 <= u[0] <= 0xF3 && Continues(u[1]) && Continues(u[2]) && Continues(u[3]))
    || (|u| == 4 && u[0] == 0xF4 && 0x80 <= u[1] <= 0x8F && Continues(u[2]) && Continues(u[3]))
  }

  /** The value of a well-formed sequence: the free bits of its bytes, one after the other. */
  function Decoded(u: seq<byte>): int
    requires WellFormed(u)
  {
    if |u| == 1 then u[0]
    else if |u| == 2 then (u[0] as int - 0xC0) * 64 + (u[1] as int - 0x80)
    else if |u| == 3 then ((u[0] as int - 0xE0) * 64 + (u[1] as int - 0x80)) * 64 + (u[2] as int - 0x80)
    else (((u[0] as int - 0xF0) * 64 + (u[1] as int - 0x80)) * 64 + (u[2] as int - 0x80)) * 64 + (u[3] as int - 0x80)
  }

  /** The encoder writes the well-formed sequence of every scalar value. */
  lemma {:induction false} EncodedDecodes(c: nat)
    requires c <= 0x10_FFFF && !(0xD800 <= c <= 0xDFFF)
    ensures WellFormed(Utf8(c)) && Decoded(Utf8(c)) == c
  {
    Parts(c);
  }

  lemma {:induction false} Parts(c: nat)
    ensures c == c / 0x40 * 0x40 + c % 0x40 && c / 0x40 / 0x40 == c / 0x1000 && c / 0x1000 / 0x40 == c / 0x4_0000
    ensures c / 0x40 == c / 0x1000 * 0x40 + c / 0x40 % 0x40 && c / 0x1000 == c / 0x4_0000 * 0x40 + c / 0x1000 % 0x40
  {
  }

  lemma {:induction false} Split(a: nat, b: nat)
    requires b < 64
    ensures (a * 64 + b) / 0x40 == a && (a * 64 + b) % 0x40 == b
  {
  }

  lemma {:induction false} ThreeBytes(x: nat, y: nat, z: nat)
    requires x < 16 && y < 64 && z < 64 && (x > 0 || y >= 0x20)
    ensures Utf8((x * 64 + y) * 64 + z) == [0xE0 + x, 0x80 + y, 0x80 + z]
  {
    var c := (x * 64 + y) * 64 + z;
    Split(x * 64 + y, z);
    Split(x, y);
    Parts(c);
    assert 0x800 <= c < 0x1_0000;
  }

  lemma {:induction false} FourBytes(w: nat, x: nat, y: nat, z: nat)
    requires x < 64 && y < 64 && z < 64 && (if w == 0 then x >= 0x10 else w < 4 || (w == 4 && x < 0x10))
    ensures var c := ((w * 64 + x) * 64 + y) * 64 + z;
            0x1_0000 <= c <= 0x10_FFFF && Utf8(c) == [0xF0 + w, 0x80 + x, 0x80 + y, 0x80 + z]
  {
    var c := ((w * 64 + x) * 64 + y) * 64 + z;
    Split((w * 64 + x) * 64 + y, z);
    Split(w * 64 + x, y);
    Split(w, x);
    Parts(c);
  }

  /** And no other sequence is well formed. */
  lemma {:induction false} DecodedEncodes(u: seq<byte>)
    requires WellFormed(u)
    ensures 0 <= Decoded(u) <= 0x10_FFFF && IsScalar(Decoded(u)) && Utf8(Decoded(u)) == u
  {
    if |u| == 2 {
      Split(u[0] as int - 0xC0, u[1] as int - 0x80);
    } else if |u| == 3 {
      ThreeBytes(u[0] as int - 0xE0, u[1] as int - 0x80, u[2] as int - 0x80);
      hide Utf8;
    } else if |u| == 4 {
      FourBytes(u[0] as int - 0xF0, u[1] as int - 0x80, u[2] as int - 0x80, u[3] as int - 0x80);
      hide Utf8;
    }
  }

  /** A surrogate pair is the two halves of what lies above 0xFFFF. */
  lemma {:induction false} PairsCombine(c: nat)
    requires 0x1_0000 <= c <= 0x10_FFFF
    ensures var high, low := 0xD800 + (c - 0x1_0000) / 1024, 0xDC00 + (c - 0x1_0000) % 1024;
            HighSurrogate(high) && LowSurrogate(low) && Combine(high, low) == c
  {
  }

  const LOWER: seq<byte> := [0x30, 0x31, 0x32, 0x33, 0x34, 0x35, 0x36, 0x37, 0x38, 0x39, 0x61, 0x62, 0x63, 0x64,
    0x65, 0x66]
  const UPPER: seq<byte> := [0x30, 0x31, 0x32, 0x33, 0x34, 0x35, 0x36, 0x37, 0x38, 0x39, 0x41, 0x42, 0x43, 0x44,
    0x45, 0x46]

  /** A byte is a hexadecimal digit of value `v` exactly if it is the `v`-th of one of these. */
  lemma {:induction false} HexDigits(b: byte, v: nat)
    requires v < 16
    ensures DecodeHex(b) == v <==> b == LOWER[v] || b == UPPER[v]
  {
  }

  /** Four digits in either case are read as the number they spell. */
  lemma {:induction false} Hex4Spells(s: seq<byte>, i: nat, a: nat, b: nat, c: nat, d: nat)
    requires i + 4 <= |s| && a < 16 && b < 16 && c < 16 && d < 16
    requires (s[i] == LOWER[a] || s[i] == UPPER[a]) && (s[i + 1] == LOWER[b] || s[i + 1] == UPPER[b])
    requires (s[i + 2] == LOWER[c] || s[i + 2] == UPPER[c]) && (s[i + 3] == LOWER[d] || s[i + 3] == UPPER[d])
    ensures Hex4(s, i) == 4096 * a + 256 * b + 16 * c + d
  {
    HexDigits(s[i], a);
    HexDigits(s[i + 1], b);
    HexDigits(s[i + 2], c);
    HexDigits(s[i + 3], d);
  }

  /** The short escapes, letter by letter; `u` starts another kind, and every other letter is refused. */
  lemma {:induction false} ShortEscapes(s: seq<byte>, i: nat, end: nat)
    requires i < end < |s| && s[i + 1] != 0x75
    ensures EscapeAt(s, i, end)
         == match s[i + 1]
            case 0x22 => Escape([0x22], 2)
            case 0x5C => Escape([0x5C], 2)
            case 0x2F => Escape([0x2F], 2)
            case 0x62 => Escape([0x08], 2)
            case 0x66 => Escape([0x0C], 2)
            case 0x6E => Escape([0x0A], 2)
            case 0x72 => Escape([0x0D], 2)
            case 0x74 => Escape([0x09], 2)
            case _ => BadEscape
  {
  }
}
