/** The bit operations of C on unsigned numbers, and what they give for the masks of UTF-8 and of surrogates. */
module Bits {

  /** `a & b`. */
  function And(a: nat, b: nat): nat
    decreases b
  {
    if b == 0 then 0 else 2 * And(a / 2, b / 2) + (if a % 2 == 1 && b % 2 == 1 then 1 else 0)
  }

  /** `a | b`. */
  function Or(a: nat, b: nat): nat
    decreases b
  {
    if b == 0 then a else 2 * Or(a / 2, b / 2) + (if a % 2 == 1 || b % 2 == 1 then 1 else 0)
  }

  function TwoTo(n: nat): (p: nat)
    ensures p >= 1
  {
    if n == 0 then 1 else 2 * TwoTo(n - 1)
  }

  lemma {:induction false} {:induction false} Halves(m: nat)
    ensures (2 * m + 1) / 2 == m && (2 * m + 1) % 2 == 1 && 2 * m / 2 == m && 2 * m % 2 == 0
  {
  }

  lemma {:induction false} {:induction false} AndOne(a: nat, m: nat)
    ensures And(a, 2 * m + 1) == 2 * And(a / 2, m) + a % 2
  {
    Halves(m);
  }

  lemma {:induction false} {:induction false} AndZero(a: nat, m: nat)
    ensures And(a, 2 * m) == 2 * And(a / 2, m)
  {
    Halves(m);
  }

  lemma {:induction false} {:induction false} OrZero(a: nat, m: nat)
    ensures Or(a, 2 * m) == 2 * Or(a / 2, m) + a % 2
  {
    Halves(m);
  }

  lemma {:induction false} AndThree(a: nat, m: nat)
    ensures And(a, 8 * m + 7) == 8 * And(a / 8, m) + a % 8
  {
    hide And;
    AndOne(a, 4 * m + 3);
    AndOne(a / 2, 2 * m + 1);
    AndOne(a / 4, m);
    assert a / 2 / 2 == a / 4 && a / 4 / 2 == a / 8;
  }

  lemma {:induction false} OrThree(a: nat, m: nat)
    ensures Or(a, 8 * m) == 8 * Or(a / 8, m) + a % 8
  {
    hide Or;
    OrZero(a, 4 * m);
    OrZero(a / 2, 2 * m);
    OrZero(a / 4, m);
    assert a / 2 / 2 == a / 4 && a / 4 / 2 == a / 8;
  }

  lemma {:induction false} LowSix(a: nat)
    ensures 8 * (a / 8 % 8) + a % 8 == a % 0x40
  {
    assert a / 8 / 8 == a / 0x40;
    assert a / 8 == 8 * (a / 0x40) + a / 8 % 8;
    assert a == 8 * (a / 8) + a % 8;
  }

  lemma {:induction false} Low6(a: nat)
    ensures And(a, 0x3F) == a % 0x40
  {
    assert And(a / 8 / 8, 0) == 0;
    hide And;
    AndThree(a, 7);
    AndThree(a / 8, 0);
    LowSix(a);
  }

  /** The low seven, eight and ten bits. */
  lemma {:induction false} Low7(a: nat)
    ensures And(a, 0x7F) == a % 0x80
  {
    hide And;
    AndOne(a, 0x3F);
    Low6(a / 2);
    assert a / 2 / 0x40 == a / 0x80;
    assert a / 2 == 0x40 * (a / 0x80) + a / 2 % 0x40 && a == 2 * (a / 2) + a % 2;
  }

  lemma {:induction false} Low8(a: nat)
    ensures And(a, 0xFF) == a % 0x100
  {
    hide And;
    AndOne(a, 0x7F);
    Low7(a / 2);
    assert a / 2 / 0x80 == a / 0x100;
    assert a / 2 == 0x80 * (a / 0x100) + a / 2 % 0x80 && a == 2 * (a / 2) + a % 2;
  }

  lemma {:induction false} Low10(a: nat)
    ensures And(a, 0x3FF) == a % 0x400
  {
    hide And;
    AndOne(a, 0x1FF);
    AndOne(a / 2, 0xFF);
    Low8(a / 4);
  }

  /** Bits below a shifted number are added to it. */
  lemma {:induction false} {:induction false} OrShifted(x: nat, y: nat, n: nat)
    requires y < TwoTo(n)
    ensures Or(TwoTo(n) * x, y) == TwoTo(n) * x + y
    decreases n
  {
    if n == 0 {
      assert y == 0;
    } else {
      assert TwoTo(n) * x == 2 * (TwoTo(n - 1) * x);
      OrShifted(x, y / 2, n - 1);
    }
  }

  lemma {:induction false} {:induction false} OrNone(m: nat)
    ensures Or(0, m) == m
  {
    if m == 0 {
      assert Or(0, 0) == 0;
    } else {
      OrNone(m / 2);
    }
  }

  lemma {:induction false} Bit7Set(c: nat)
    ensures Or(c, 0x80) == 0x100 * (c / 0x100) + 0x80 + c % 0x80
  {
    assert Or(c / 0x80, 1) == 2 * Or(c / 0x80 / 2, 0) + 1;
    hide Or;
    OrThree(c, 0x10);
    OrThree(c / 8, 2);
    OrZero(c / 8 / 8, 1);
    assert c / 8 / 8 / 2 == c / 0x80 && c / 0x80 / 2 == c / 0x100;
  }

  lemma {:induction false} Bit6Clear(x: nat)
    ensures And(x, 0xBF) == 0x80 * (x / 0x80 % 2) + x % 0x40
  {
    assert And(x / 0x80, 1) == x / 0x80 % 2;
    hide And;
    LowSix(x);
    AndThree(x, 0x17);
    AndThree(x / 8, 2);
    AndZero(x / 8 / 8, 1);
    assert x / 8 / 8 / 2 == x / 0x80;
  }

  lemma {:induction false} Low7Split(a: nat, b: nat)
    requires b < 0x80
    ensures (0x80 * a + b) / 0x80 == a && (0x80 * a + b) % 0x40 == b % 0x40
  {
    assert b == 0x40 * (b / 0x40) + b % 0x40;
    assert 0x80 * a + b == 0x40 * (2 * a + b / 0x40) + b % 0x40;
  }

  lemma {:induction false} BitsAgain(c: nat, x: nat)
    requires x == 0x100 * (c / 0x100) + 0x80 + c % 0x80
    ensures x / 0x80 % 2 == 1 && x % 0x40 == c % 0x40
  {
    Low7Split(2 * (c / 0x100) + 1, c % 0x80);
    Low7Split(c / 0x80, c % 0x80);
  }

  /** A continuation byte. */
  lemma {:induction false} Continuation(c: nat)
    ensures And(And(Or(c, 0x80), 0xBF), 0xFF) == 0x80 + c % 0x40
  {
    hide And, Or;
    Bit7Set(c);
    Bit6Clear(Or(c, 0x80));
    BitsAgain(c, Or(c, 0x80));
    Low8(0x80 + c % 0x40);
  }

  /** The first byte of two, three and four. */
  lemma {:induction false} FirstByte(c: nat, mark: nat)
    requires (mark == 0xC0 && c < 0x20) || (mark == 0xE0 && c < 0x10) || (mark == 0xF0 && c < 8)
    ensures And(Or(c, mark), 0xFF) == mark + c
  {
    hide And, Or;
    OrThree(c, mark / 8);
    OrNone(mark / 8);
    OrNone(mark / 0x10);
    OrNone(mark / 0x20);
    OrZero(c / 8, mark / 0x10);
    OrZero(c / 8 / 2, mark / 0x20);
    Low8(mark + c);
  }

  /** The code point of a surrogate pair. */
  lemma {:induction false} Pair(high: nat, low: nat)
    requires 0xD800 <= high <= 0xDBFF && 0xDC00 <= low <= 0xDFFF
    ensures 0x1_0000 + Or(0x400 * And(high, 0x3FF), And(low, 0x3FF))
            == 0x1_0000 + (high - 0xD800) * 0x400 + (low - 0xDC00)
  {
    hide And, Or;
    Low10(high);
    Low10(low);
    assert TwoTo(5) == 0x20 && TwoTo(10) == 0x20 * 0x20;
    OrShifted(high % 0x400, low % 0x400, 10);
  }
}
