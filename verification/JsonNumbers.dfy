/**
 Decimal numbers as they are written, and that the parser gives each of them its value: an equation
 between integers and powers of ten, told without the parser's own functions.
 */
module JsonNumbers {
  import opened Bytes
  import opened JsonString
  import opened JsonTree
  import opened JsonGrammar
  import opened JsonRoundTrip

  // ---------------------------------------------------------------- decimals

  datatype Exp = Exp(mark: byte, sign: seq<byte>, digits: seq<byte>)

  datatype Decimal = Decimal(minus: bool, whole: seq<byte>, fraction: Option<seq<byte>>, exponent: Option<Exp>)

  predicate AllDigits(d: seq<byte>)
  {
    forall k :: 0 <= k < |d| ==> 0x30 <= d[k] <= 0x39
  }

  /** The digits behind the point. */
  function Places(d: Decimal): seq<byte> { if d.fraction.Some? then d.fraction.value else [] }

  predicate ValidExponent(x: Exp)
  {
    && (x.mark == 0x45 || x.mark == 0x65) && (x.sign == [] || x.sign == [0x2B] || x.sign == [0x2D])
    && x.digits != [] && AllDigits(x.digits)
  }

  /** A digit in front of the point or, behind a minus sign, behind it; at most 63 characters. */
  predicate ValidDecimal(d: Decimal)
  {
    && AllDigits(d.whole) && AllDigits(Places(d)) && (d.whole != [] || (d.minus && Places(d) != []))
    && (d.exponent.Some? ==> ValidExponent(d.exponent.value)) && |RenderDecimal(d)| <= 63
  }

  function SignText(d: Decimal): seq<byte> { if d.minus then [0x2D] else [] }

  function FractionText(d: Decimal): seq<byte> { if d.fraction.Some? then [0x2E] + d.fraction.value else [] }

  function ExponentText(d: Decimal): seq<byte>
  {
    if d.exponent.Some? then [d.exponent.value.mark] + d.exponent.value.sign + d.exponent.value.digits else []
  }

  function RenderDecimal(d: Decimal): seq<byte>
  {
    SignText(d) + d.whole + FractionText(d) + ExponentText(d)
  }

  /** The number that digits spell. */
  function Spelled(digits: seq<byte>): nat
    requires AllDigits(digits)
  {
    if digits == [] then 0 else Spelled(digits[..|digits| - 1]) * 10 + (digits[|digits| - 1] as int - 0x30)
  }

  function Power10(n: nat): (p: nat)
    ensures p > 0
  {
    if n == 0 then 1 else 10 * Power10(n - 1)
  }

  /** The exponent, which may be negative. */
  function ExponentOf(d: Decimal): int
    requires ValidDecimal(d)
  {
    if d.exponent.None? then 0
    else (if d.exponent.value.sign == [0x2D] then -1 else 1) * Spelled(d.exponent.value.digits)
  }

  /** All digits in front of the exponent as one integer, with the sign. */
  function Signed(d: Decimal): int
    requires ValidDecimal(d)
  {
    DigitsSplit(d.whole, Places(d));
    (if d.minus then -1 else 1) * Spelled(d.whole + Places(d))
  }

  lemma {:induction false} DigitsSplit(a: seq<byte>, b: seq<byte>)
    ensures AllDigits(a) && AllDigits(b) ==> AllDigits(a + b)
  {
  }

  /** What `v` has to be multiplied with, and what then comes out. */
  function Below(d: Decimal): (n: nat)
    requires ValidDecimal(d)
    ensures n > 0
  {
    Power10(|Places(d)| + if ExponentOf(d) < 0 then -ExponentOf(d) else 0)
  }

  function Above(d: Decimal): int
    requires ValidDecimal(d)
  {
    Signed(d) * Power10(if ExponentOf(d) > 0 then ExponentOf(d) else 0)
  }

  /**
   `v` is the value: v * 10^(places - x) == digits if the exponent x is negative, and
   v * 10^places == digits * 10^x if not.
   */
  predicate Spells(d: Decimal, v: real)
    requires ValidDecimal(d)
  {
    v * Below(d) as real == Above(d) as real
  }

  function DecimalValue(d: Decimal): real
    requires ValidDecimal(d)
  {
    Above(d) as real / Below(d) as real
  }

  lemma {:induction false} SpellsOneValue(d: Decimal, v: real)
    requires ValidDecimal(d)
    ensures Spells(d, v) <==> v == DecimalValue(d)
  {
    hide Above, Below;
    OneQuotient(v, Above(d) as real, Below(d) as real);
  }

  lemma {:induction false} OneQuotient(v: real, a: real, b: real)
    requires b > 0.0
    ensures v * b == a <==> v == a / b
  {
    assert (a / b) * b == a;
    if v * b == a {
      assert v == (v * b) / b;
    }
  }

  // ---------------------------------------------------------------- the parser's arithmetic

  lemma {:induction false} TenToIsPower(n: nat)
    ensures TenTo(n) == Power10(n) as real
  {
    if n == 0 {
    } else {
      TenToIsPower(n - 1);
    }
  }

  lemma {:induction false} TenToSum(a: nat, b: nat)
    ensures TenTo(a + b) == TenTo(a) * TenTo(b)
  {
    if a == 0 {
    } else {
      TenToSum(a - 1, b);
      ProductThree(10.0, TenTo(a - 1), TenTo(b));
    }
  }

  lemma {:induction false} LastDigit(d: seq<byte>)
    requires AllDigits(d) && d != []
    ensures Spelled(d) == Spelled(d[..|d| - 1]) * 10 + (d[|d| - 1] as int - 0x30)
  {
  }

  lemma {:induction false} TenTimes(x: nat, p: nat, y: nat, v: nat)
    ensures (x * p + y) * 10 + v == x * (10 * p) + (y * 10 + v)
  {
  }

  lemma {:induction false} SpelledSum(a: seq<byte>, b: seq<byte>)
    requires AllDigits(a) && AllDigits(b)
    ensures AllDigits(a + b) && Spelled(a + b) == Spelled(a) * Power10(|b|) + Spelled(b)
    decreases |b|
  {
    if b == [] {
      assert a + b == a;
    } else {
      var n := |b| - 1;
      assert (a + b)[..|a + b| - 1] == a + b[..n] && (a + b)[|a + b| - 1] == b[n];
      SpelledSum(a, b[..n]);
      LastDigit(a + b);
      LastDigit(b);
      hide Spelled;
      TenTimes(Spelled(a), Power10(n), Spelled(b[..n]), b[n] as int - 0x30);
    }
  }

  lemma {:induction false} NaturalIsSpelled(s: seq<byte>, i: nat, j: nat)
    requires i <= j <= |s| && forall k :: i <= k < j ==> IsDigit(s[k])
    ensures AllDigits(s[i..j]) && Natural(s, i, j) == Spelled(s[i..j])
    decreases j - i
  {
    if i == j {
      assert s[i..j] == [];
    } else {
      NaturalIsSpelled(s, i, j - 1);
      assert s[i..j][..j - i - 1] == s[i..j - 1];
    }
  }

  lemma {:induction false} ScaleUp(m: real, n: nat)
    ensures Scale(m, n) == m * TenTo(n)
  {
  }

  lemma {:induction false} ScaleDown(m: real, n: nat)
    requires n > 0
    ensures TenTo(n) > 0.0 && Scale(m, 0 - n) == m / TenTo(n)
  {
    TenToPositive(n);
  }

  /** Scaling by 10^(x - places), where x is `up` or `-down`. */
  lemma {:induction false} ScaleIs(m: real, places: nat, up: nat, down: nat)
    requires up == 0 || down == 0
    ensures Scale(m, up - down - places) * TenTo(places + down) == m * TenTo(up)
  {
    hide TenTo, Scale;
    var n := up - down - places;
    if n >= 0 {
      ScaleUp(m, n);
      TenToSum(n, places + down);
      assert n + (places + down) == up;
      ProductThree(m, TenTo(n), TenTo(places + down));
    } else {
      ScaleDown(m, -n);
      TenToSum(-n, up);
      assert -n + up == places + down;
      QuotientProduct(m, TenTo(-n), TenTo(up), TenTo(places + down));
    }
  }

  lemma {:induction false} ProductThree(m: real, a: real, b: real)
    ensures m * a * b == m * (a * b)
  {
  }

  lemma {:induction false} QuotientProduct(m: real, n: real, u: real, pd: real)
    requires n > 0.0 && pd == n * u
    ensures m / n * pd == m * u
  {
    assert m / n * n == m;
    ProductThree(m / n, n, u);
  }

  // ---------------------------------------------------------------- what strtod reads is a decimal

  /** The ends of the sign, the digits, the fraction, the exponent's sign and the exponent. */
  datatype Places5 = Places5(a: nat, b: nat, c: nat, g: nat, x: nat)

  function Cut(s: seq<byte>, i: nat, e: nat): Places5
    requires i <= e <= |s|
  {
    var a := SignEnd(s, i, e);
    var b := DigitsEnd(s, a, e);
    var c := FractionEnd(s, b, e);
    var x := ExponentEnd(s, c, e);
    Places5(a, b, c, if c < x then SignEnd(s, c + 1, e) else c, x)
  }

  /** These are the ends of the pieces of a number. */
  predicate Cuts(s: seq<byte>, i: nat, p: Places5)
  {
    && i <= p.a <= p.b <= p.c <= p.x <= |s| && p.a <= i + 1 && (i < p.a ==> s[i] == MINUS)
    && (forall k :: p.a <= k < p.b ==> IsDigit(s[k]))
    && (p.b < p.c ==> s[p.b] == POINT && forall k :: p.b + 1 <= k < p.c ==> IsDigit(s[k]))
    && (p.c < p.x ==> IsExponentMark(s[p.c]) && p.c < p.g < p.x && p.g <= p.c + 2
                      && (p.g == p.c + 2 ==> s[p.c + 1] == PLUS || s[p.c + 1] == MINUS)
                      && forall k :: p.g <= k < p.x ==> IsDigit(s[k]))
  }

  function Pieces(s: seq<byte>, i: nat, p: Places5): Decimal
    requires Cuts(s, i, p)
  {
    Decimal(i < p.a, s[p.a..p.b], if p.b < p.c then Some(s[p.b + 1..p.c]) else None,
            if p.c < p.x then Some(Exp(s[p.c], s[p.c + 1..p.g], s[p.g..p.x])) else None)
  }

  lemma {:induction false} FourSlices(s: seq<byte>, i: nat, a: nat, b: nat, c: nat, x: nat)
    requires i <= a <= b <= c <= x <= |s|
    ensures s[i..x] == s[i..a] + s[a..b] + s[b..c] + s[c..x]
  {
    assert s[i..b] == s[i..a] + s[a..b];
    assert s[i..c] == s[i..b] + s[b..c];
  }

  lemma {:induction false} FirstOfSlice(s: seq<byte>, i: nat, j: nat)
    requires i < j <= |s|
    ensures s[i..j] == [s[i]] + s[i + 1..j]
  {
  }

  lemma {:induction false} ExponentSlices(s: seq<byte>, c: nat, g: nat, x: nat)
    requires c < g <= x <= |s|
    ensures s[c..x] == [s[c]] + s[c + 1..g] + s[g..x]
  {
    FirstOfSlice(s, c, g);
    assert s[c..x] == s[c..g] + s[g..x];
  }

  lemma {:induction false} PiecesText(s: seq<byte>, i: nat, p: Places5)
    requires Cuts(s, i, p)
    ensures var d := Pieces(s, i, p);
            s[i..p.a] == SignText(d) && s[p.b..p.c] == FractionText(d) && s[p.c..p.x] == ExponentText(d)
  {
    var d := Pieces(s, i, p);
    assert s[p.b..p.c] == FractionText(d) by {
      if p.b < p.c { FirstOfSlice(s, p.b, p.c); }
    }
    assert s[p.c..p.x] == ExponentText(d) by {
      if p.c < p.x { ExponentSlices(s, p.c, p.g, p.x); }
    }
    assert s[i..p.a] == SignText(d) by {
      if i < p.a { FirstOfSlice(s, i, p.a); }
    }
  }

  lemma {:induction false} PiecesValid(s: seq<byte>, i: nat, p: Places5)
    requires Cuts(s, i, p) && (p.a < p.b || (i < p.a && p.b + 1 < p.c))
    requires |RenderDecimal(Pieces(s, i, p))| <= 63
    ensures ValidDecimal(Pieces(s, i, p))
  {
    hide RenderDecimal;
  }

  lemma {:induction false} PiecesStand(s: seq<byte>, i: nat, p: Places5)
    requires Cuts(s, i, p) && (p.a < p.b || (i < p.a && p.b + 1 < p.c)) && p.x - i <= 63
    ensures ValidDecimal(Pieces(s, i, p)) && s[i..p.x] == RenderDecimal(Pieces(s, i, p))
  {
    hide ValidDecimal, SignText, FractionText, ExponentText;
    PiecesText(s, i, p);
    FourSlices(s, i, p.a, p.b, p.c, p.x);
    PiecesValid(s, i, p);
  }

  /** What `strtod` takes is cut like this. */
  lemma {:induction false} NumberCuts(s: seq<byte>, i: nat, e: nat)
    requires i < e <= |s| && (s[i] == MINUS || IsDigit(s[i])) && NumberEnd(s, i, e) > i
    ensures var p := Cut(s, i, e);
            && Cuts(s, i, p) && (p.a < p.b || (i < p.a && p.b + 1 < p.c)) && NumberEnd(s, i, e) == p.x
  {
  }

  lemma {:induction false} MantissaIs(s: seq<byte>, a: nat, b: nat, c: nat)
    requires a <= b <= c <= |s| && forall k :: a <= k < c && k != b ==> IsDigit(s[k])
    ensures var w, f := s[a..b], if b < c then s[b + 1..c] else [];
            AllDigits(w + f) && Mantissa(s, a, b, c) == Spelled(w + f) as real
  {
    hide Natural, Spelled;
    NaturalIsSpelled(s, a, b);
    if b < c {
      NaturalIsSpelled(s, b + 1, c);
      SpelledSum(s[a..b], s[b + 1..c]);
      TenToIsPower(c - b - 1);
    } else {
      assert s[a..b] + [] == s[a..b];
    }
  }

  lemma {:induction false} ExponentIs(s: seq<byte>, c: nat, e: nat)
    requires c <= e <= |s| && c < ExponentEnd(s, c, e)
    ensures var g, x := SignEnd(s, c + 1, e), ExponentEnd(s, c, e);
            AllDigits(s[g..x]) && c < g
              && Exponent(s, c, e) == (if s[c + 1..g] == [0x2D] then -1 else 1) * Spelled(s[g..x])
  {
    hide Natural, Spelled, DigitsEnd;
    NaturalIsSpelled(s, SignEnd(s, c + 1, e), ExponentEnd(s, c, e));
  }

  lemma {:induction false} SignedProduct(sign: int, v: real, n: nat, below: nat, above: nat)
    requires v * below as real == n as real * above as real
    ensures (sign as real * v) * below as real == (sign * n * above) as real
  {
    assert (sign as real * v) * below as real == sign as real * (v * below as real);
    assert sign as real * (n as real * above as real) == (sign * n * above) as real;
  }

  /** The parser's value of the pieces, from the value of the digits and of the exponent. */
  lemma {:induction false} PiecesSpell(s: seq<byte>, i: nat, p: Places5, m: real, v: real)
    requires Cuts(s, i, p) && ValidDecimal(Pieces(s, i, p))
    requires var d := Pieces(s, i, p);
             && AllDigits(d.whole + Places(d)) && m == Spelled(d.whole + Places(d)) as real
             && v == (if d.minus then -1 else 1) as real * Scale(m, ExponentOf(d) - |Places(d)|)
    ensures v == DecimalValue(Pieces(s, i, p))
  {
    hide Cuts, Spelled, Scale, TenTo, Power10, AllDigits, ValidDecimal, ExponentOf;
    var d := Pieces(s, i, p);
    var up, down := if ExponentOf(d) > 0 then ExponentOf(d) else 0, if ExponentOf(d) < 0 then -ExponentOf(d) else 0;
    ScaleIs(m, |Places(d)|, up, down);
    TenToIsPower(|Places(d)| + down);
    TenToIsPower(up);
    SignedProduct(if d.minus then -1 else 1, Scale(m, ExponentOf(d) - |Places(d)|), Spelled(d.whole + Places(d)),
      Power10(|Places(d)| + down), Power10(up));
    SpellsOneValue(d, v);
  }

  lemma {:induction false} MantissaOfCut(s: seq<byte>, i: nat, p: Places5)
    requires Cuts(s, i, p)
    ensures forall k :: p.a <= k < p.c && k != p.b ==> IsDigit(s[k])
    ensures p.c > p.b ==> p.c >= p.b + 1
    ensures var d := Pieces(s, i, p);
            AllDigits(d.whole + Places(d)) && Mantissa(s, p.a, p.b, p.c) == Spelled(d.whole + Places(d)) as real
  {
    hide Mantissa, Spelled;
    MantissaIs(s, p.a, p.b, p.c);
  }

  lemma {:induction false} ExponentOfCut(s: seq<byte>, i: nat, e: nat)
    requires i <= e <= |s| && Cuts(s, i, Cut(s, i, e)) && ValidDecimal(Pieces(s, i, Cut(s, i, e)))
    ensures Exponent(s, Cut(s, i, e).c, e) == ExponentOf(Pieces(s, i, Cut(s, i, e)))
  {
    hide Spelled, Natural, DigitsEnd, ValidDecimal;
    var p := Cut(s, i, e);
    if p.c < p.x { ExponentIs(s, p.c, e); }
  }

  lemma {:induction false} ValueOfCut(s: seq<byte>, i: nat, e: nat)
    requires i <= e <= |s| && Cuts(s, i, Cut(s, i, e)) && (i < e ==> s[i] != PLUS)
    requires var p := Cut(s, i, e);
             (forall k :: p.a <= k < p.c && k != p.b ==> IsDigit(s[k])) && (p.c > p.b ==> p.c >= p.b + 1)
    ensures var p := Cut(s, i, e);
            var d := Pieces(s, i, p);
            NumberValue(s, i, e)
            == (if d.minus then -1 else 1) as real
               * Scale(Mantissa(s, p.a, p.b, p.c), Exponent(s, p.c, e) - |Places(d)|)
  {
    hide Scale, Mantissa, Exponent, DigitsEnd, Cuts;
  }

  /** What `strtod` takes is a decimal, and what the parser makes of it is its value. */
  lemma {:induction false} DecimalTaken(s: seq<byte>, i: nat, e: nat) returns (d: Decimal)
    requires i < e <= |s| && e - i <= 63 && (s[i] == MINUS || IsDigit(s[i])) && NumberEnd(s, i, e) > i
    ensures Cuts(s, i, Cut(s, i, e)) && d == Pieces(s, i, Cut(s, i, e))
    ensures ValidDecimal(d) && s[i..NumberEnd(s, i, e)] == RenderDecimal(d) && NumberValue(s, i, e) == DecimalValue(d)
  {
    hide Spelled, Scale, Mantissa, Exponent, RenderDecimal, DecimalValue, Cuts, Cut, Pieces, AllDigits, NumberValue,
      ValidDecimal, NumberEnd;
    var p := Cut(s, i, e);
    NumberCuts(s, i, e);
    d := Pieces(s, i, p);
    PiecesStand(s, i, p);
    MantissaOfCut(s, i, p);
    ExponentOfCut(s, i, e);
    ValueOfCut(s, i, e);
    PiecesSpell(s, i, p, Mantissa(s, p.a, p.b, p.c), NumberValue(s, i, e));
  }

  // ---------------------------------------------------------------- every decimal is taken whole

  lemma {:induction false} DigitsUpTo(s: seq<byte>, i: nat, j: nat, e: nat)
    requires i <= j <= e <= |s| && (forall k :: i <= k < j ==> IsDigit(s[k])) && (j < e ==> !IsDigit(s[j]))
    ensures DigitsEnd(s, i, e) == j
    decreases j - i
  {
    if i == j {
    } else {
      DigitsUpTo(s, i + 1, j, e);
    }
  }

  /** Where the pieces of a decimal end that stands at `i`. */
  function EndsOf(d: Decimal, i: nat): Places5
  {
    var a := i + |SignText(d)|;
    var b := a + |d.whole|;
    var c := b + |FractionText(d)|;
    Places5(a, b, c, if d.exponent.Some? then c + 1 + |d.exponent.value.sign| else c, c + |ExponentText(d)|)
  }

  lemma {:induction false} DecimalParts(s: seq<byte>, i: nat, d: Decimal)
    requires At(s, i, RenderDecimal(d))
    ensures var p := EndsOf(d, i);
            && At(s, i, SignText(d)) && At(s, p.a, d.whole) && At(s, p.b, FractionText(d))
              && At(s, p.c, ExponentText(d))
            && p.x == i + |RenderDecimal(d)|
  {
    hide SignText, FractionText, ExponentText;
    AtParts(s, i, SignText(d) + d.whole + FractionText(d), ExponentText(d));
    AtParts(s, i, SignText(d) + d.whole, FractionText(d));
    AtParts(s, i, SignText(d), d.whole);
  }

  lemma {:induction false} ExponentBytes(s: seq<byte>, c: nat, x: Exp)
    requires ValidExponent(x) && At(s, c, [x.mark] + x.sign + x.digits)
    ensures var g := c + 1 + |x.sign|;
            && s[c] == x.mark && s[c + 1..g] == x.sign && s[g..g + |x.digits|] == x.digits
            && (x.sign != [] ==> s[c + 1] == x.sign[0]) && forall k :: g <= k < g + |x.digits| ==> IsDigit(s[k])
  {
    AtParts(s, c, [x.mark] + x.sign, x.digits);
    AtParts(s, c, [x.mark], x.sign);
    AtElements(s, c, [x.mark]);
    AtElements(s, c + 1, x.sign);
    AtElements(s, c + 1 + |x.sign|, x.digits);
  }

  lemma {:induction false} AtIsSlice(s: seq<byte>, i: nat, w: seq<byte>)
    requires At(s, i, w)
    ensures i + |w| <= |s| && s[i..i + |w|] == w
  {
    AtElements(s, i, w);
  }

  lemma {:induction false} DigitsAt(s: seq<byte>, i: nat, w: seq<byte>)
    requires At(s, i, w) && AllDigits(w)
    ensures i + |w| <= |s| && s[i..i + |w|] == w && forall k :: i <= k < i + |w| ==> IsDigit(s[k])
  {
    AtElements(s, i, w);
  }

  lemma {:induction false} FractionBytes(s: seq<byte>, b: nat, f: seq<byte>)
    requires At(s, b, [0x2E] + f) && AllDigits(f)
    ensures b + 1 + |f| <= |s| && s[b] == POINT && s[b + 1..b + 1 + |f|] == f
    ensures forall k :: b + 1 <= k < b + 1 + |f| ==> IsDigit(s[k])
  {
    AtParts(s, b, [0x2E], f);
    AtElements(s, b, [0x2E]);
    DigitsAt(s, b + 1, f);
  }

  /** The characters of a decimal, piece by piece. */
  lemma {:induction false} DecimalBytes(s: seq<byte>, i: nat, d: Decimal)
    requires ValidDecimal(d) && At(s, i, RenderDecimal(d))
    ensures var p := EndsOf(d, i);
            && Cuts(s, i, p) && Pieces(s, i, p) == d && p.x == i + |RenderDecimal(d)| <= |s|
            && (p.a < p.b || (i < p.a && p.b + 1 < p.c)) && (p.c == p.x ==> p.g == p.c)
  {
    var p := EndsOf(d, i);
    DecimalNotEmpty(d);
    DecimalParts(s, i, d);
    hide RenderDecimal, At, AllDigits;
    AtIsSlice(s, i, SignText(d));
    DigitsAt(s, p.a, d.whole);
    if d.minus {
      assert s[i..p.a][0] == MINUS;
    }
    if d.fraction.Some? {
      FractionBytes(s, p.b, d.fraction.value);
    }
    if d.exponent.Some? {
      ExponentBytes(s, p.c, d.exponent.value);
    }
    AtIsSlice(s, p.c, ExponentText(d));
  }

  lemma {:induction false} ExponentTaken(s: seq<byte>, c: nat, g: nat, e: nat)
    requires c < g < e <= |s| && g <= c + 2 && IsExponentMark(s[c])
    requires if g == c + 2 then s[c + 1] == PLUS || s[c + 1] == MINUS else IsDigit(s[c + 1])
    requires forall k :: g <= k < e ==> IsDigit(s[k])
    ensures SignEnd(s, c + 1, e) == g && ExponentEnd(s, c, e) == e
  {
    DigitsUpTo(s, g, e, e);
  }

  lemma {:induction false} SignTaken(s: seq<byte>, i: nat, p: Places5)
    requires Cuts(s, i, p) && (p.a < p.b || (i < p.a && p.b + 1 < p.c))
    ensures i < p.x && SignEnd(s, i, p.x) == p.a && (s[i] == MINUS || IsDigit(s[i]))
  {
    assert i == p.a ==> IsDigit(s[i]);
    assert i < p.a && p.a < p.b ==> IsDigit(s[p.a]);
  }

  lemma {:induction false} FractionTaken(s: seq<byte>, i: nat, p: Places5)
    requires Cuts(s, i, p)
    ensures DigitsEnd(s, p.a, p.x) == p.b && FractionEnd(s, p.b, p.x) == p.c
  {
    DigitsUpTo(s, p.a, p.b, p.x);
    if p.b < p.c {
      DigitsUpTo(s, p.b + 1, p.c, p.x);
    }
  }

  /** `strtod` stops exactly at the ends of these pieces. */
  lemma {:induction false} CutOf(s: seq<byte>, i: nat, p: Places5)
    requires Cuts(s, i, p) && (p.a < p.b || (i < p.a && p.b + 1 < p.c))
    requires p.c == p.x ==> p.g == p.c
    ensures i < p.x && Cut(s, i, p.x) == p && NumberEnd(s, i, p.x) == p.x && (s[i] == MINUS || IsDigit(s[i]))
  {
    hide DigitsEnd, SignEnd, FractionEnd;
    SignTaken(s, i, p);
    FractionTaken(s, i, p);
    if p.c < p.x {
      ExponentTaken(s, p.c, p.g, p.x);
    }
    assert ExponentEnd(s, p.c, p.x) == p.x;
  }

  lemma {:induction false} DecimalCut(s: seq<byte>, i: nat, d: Decimal)
    requires ValidDecimal(d) && At(s, i, RenderDecimal(d))
    ensures var e := i + |RenderDecimal(d)|;
            && i < e <= |s| && Cut(s, i, e) == EndsOf(d, i) && NumberEnd(s, i, e) == e
            && (s[i] == MINUS || IsDigit(s[i]))
    ensures Cuts(s, i, EndsOf(d, i)) && Pieces(s, i, EndsOf(d, i)) == d
  {
    hide RenderDecimal, ValidDecimal, Cut, NumberEnd, EndsOf, Cuts, At;
    DecimalBytes(s, i, d);
    CutOf(s, i, EndsOf(d, i));
  }

  lemma {:induction false} DecimalNotEmpty(d: Decimal)
    requires ValidDecimal(d)
    ensures d.whole != [] || (d.minus && d.fraction.Some? && d.fraction.value != [])
  {
  }

  lemma {:induction false} NumberBytes(s: seq<byte>, i: nat, p: Places5)
    requires Cuts(s, i, p)
    ensures forall k :: i <= k < p.x ==> IsNumberChar(s[k])
  {
  }

  /** The parser gives a decimal that no number character follows its value, and stops behind it. */
  lemma {:induction false} DecimalParses(s: seq<byte>, i: nat, d: Decimal)
    requires Terminated(s) && ValidDecimal(d) && At(s, i, RenderDecimal(d))
    requires i + |RenderDecimal(d)| < |s| && !IsNumberChar(s[i + |RenderDecimal(d)|])
    ensures s[i] == MINUS || IsDigit(s[i])
    ensures ParseNumber(s, i).Parsed? && ParseNumber(s, i).next == i + |RenderDecimal(d)|
    ensures ParseNumber(s, i).value == Number(DecimalValue(d)) && Spells(d, DecimalValue(d))
  {
    hide NumberCharsEnd, NumberEnd, NumberValue, DecimalValue, Spells, Cuts, RenderDecimal, At;
    var e := i + |RenderDecimal(d)|;
    assert |RenderDecimal(d)| <= 63;
    DecimalCut(s, i, d);
    var d' := DecimalTaken(s, i, e);
    NumberBytes(s, i, EndsOf(d, i));
    assert EndsOf(d, i).x == e by { DecimalParts(s, i, d); }
    NumberCharsRun(s, i, e, 63);
    SpellsOneValue(d, DecimalValue(d));
  }

  /** A number that the parser takes is a decimal with its value. */
  lemma {:induction false} AcceptDecimal(s: seq<byte>, i: nat) returns (d: Decimal)
    requires i < |s| && Terminated(s) && (s[i] == MINUS || IsDigit(s[i])) && ParseNumber(s, i).Parsed?
    ensures ValidDecimal(d) && At(s, i, RenderDecimal(d)) && ParseNumber(s, i).next == i + |RenderDecimal(d)|
    ensures ParseNumber(s, i).value == Number(DecimalValue(d))
  {
    hide NumberEnd, NumberValue, DecimalValue, ValidDecimal, RenderDecimal;
    var e := NumberCharsEnd(s, i, 63);
    d := DecimalTaken(s, i, e);
    AtSlice(s, i, NumberEnd(s, i, e) - i);
  }

  // ---------------------------------------------------------------- decimals that are no integers

  lemma {:induction false} SpelledBound(d: seq<byte>)
    requires AllDigits(d)
    ensures Spelled(d) < Power10(|d|)
    ensures (exists k :: 0 <= k < |d| && d[k] != 0x30) ==> Spelled(d) > 0
    decreases |d|
  {
    if d == [] {
    } else {
      var n := |d| - 1;
      SpelledBound(d[..n]);
      if k :| 0 <= k < |d| && d[k] != 0x30 {
        assert k < n ==> d[..n][k] == d[k];
      }
    }
  }

  /** A decimal without an exponent that has a digit other than 0 behind its point. */
  predicate HasFraction(d: Decimal)
  {
    ValidDecimal(d) && d.exponent.None? && exists k :: 0 <= k < |Places(d)| && Places(d)[k] != 0x30
  }

  lemma {:induction false} PlainParts(d: Decimal)
    requires HasFraction(d)
    ensures Below(d) == Power10(|Places(d)|) && Above(d) == Signed(d)
    ensures Signed(d) == (if d.minus then -1 else 1) * (Spelled(d.whole) * Power10(|Places(d)|) + Spelled(Places(d)))
    ensures 0 < Spelled(Places(d)) < Power10(|Places(d)|)
  {
    SpelledSum(d.whole, Places(d));
    SpelledBound(Places(d));
    assert Power10(0) == 1;
  }

  /** Then no integer times the power of ten is its digits. */
  lemma {:induction false} NoWhole(d: Decimal, k: int)
    requires HasFraction(d)
    ensures k * Below(d) != Above(d)
  {
    PlainParts(d);
    hide *;
    NoMultiple(if d.minus then -k else k, Spelled(d.whole), Below(d), Spelled(Places(d)));
    NegatedProduct(k, Below(d));
  }

  lemma {:induction false} NegatedProduct(k: int, p: int)
    ensures (-k) * p == -(k * p)
  {
  }

  lemma {:induction false} NoMultiple(m: int, a: int, p: int, b: int)
    requires 0 < b < p
    ensures m * p != a * p + b
  {
    if m <= a {
      assert (a - m) * p >= 0;
      assert m * p == a * p - (a - m) * p;
    } else {
      assert (m - a - 1) * p >= 0;
      assert m * p == a * p + p + (m - a - 1) * p;
    }
  }

  lemma {:induction false} ValueTimes(d: Decimal)
    requires ValidDecimal(d)
    ensures DecimalValue(d) * Below(d) as real == Above(d) as real
  {
    hide Above, Below, DecimalValue, ValidDecimal;
    SpellsOneValue(d, DecimalValue(d));
  }
}
