/** Words written in hexadecimal, to compute exclusive or digit by digit. */
module Hexadecimal {
  import opened Words

  datatype Quad = Quad(d3: nat, d2: nat, d1: nat, d0: nat)
  datatype Hex = Hex(q3: Quad, q2: Quad, q1: Quad, q0: Quad)

  predicate IsQuad(q: Quad) {
    q.d3 < 16 && q.d2 < 16 && q.d1 < 16 && q.d0 < 16
  }

  predicate IsHex(h: Hex) {
    IsQuad(h.q3) && IsQuad(h.q2) && IsQuad(h.q1) && IsQuad(h.q0)
  }

  function QuadValue(q: Quad): nat {
    0x1000 * q.d3 + 0x100 * q.d2 + 0x10 * q.d1 + q.d0
  }

  function HexValue(h: Hex): nat {
    0x1_0000_0000_0000 * QuadValue(h.q3) + 0x1_0000_0000 * QuadValue(h.q2)
    + 0x1_0000 * QuadValue(h.q1) + QuadValue(h.q0)
  }

  function XorBit(a: bool, b: bool): nat {
    if a == b then 0 else 1
  }

  /** What is left of a number below 2 * place without its bit at that place. */
  function Below(a: nat, place: nat): nat {
    if a >= place then a - place else a
  }

  function XorDigit(a: nat, b: nat): nat {
    var a2, b2 := Below(a, 8), Below(b, 8);
    var a1, b1 := Below(a2, 4), Below(b2, 4);
    var a0, b0 := Below(a1, 2), Below(b1, 2);
    8 * XorBit(a >= 8, b >= 8) + 4 * XorBit(a2 >= 4, b2 >= 4) + 2 * XorBit(a1 >= 2, b1 >= 2) + XorBit(a0 >= 1, b0 >= 1)
  }

  function XorQuad(p: Quad, q: Quad): Quad {
    Quad(XorDigit(p.d3, q.d3), XorDigit(p.d2, q.d2), XorDigit(p.d1, q.d1), XorDigit(p.d0, q.d0))
  }

  function XorHex(g: Hex, h: Hex): Hex {
    Hex(XorQuad(g.q3, h.q3), XorQuad(g.q2, h.q2), XorQuad(g.q1, h.q1), XorQuad(g.q0, h.q0))
  }

  /** Appending one binary digit to each side. */
  lemma XorOneBit(x: nat, y: nat, a: nat, b: nat, n: nat)
    requires a < 2 && b < 2
    ensures XorDigits(2 * x + a, 2 * y + b, n + 1) == XorBit(a >= 1, b >= 1) + 2 * XorDigits(x, y, n)
  {
    assert (2 * x + a) / 2 == x && (2 * y + b) / 2 == y;
    assert (2 * x + a) % 2 == a && (2 * y + b) % 2 == b;
  }

  function Bit(a: nat, place: nat): (bit: nat)
    ensures bit < 2
  {
    if a >= place then 1 else 0
  }

  lemma XorTwoBits(x: nat, y: nat, a1: nat, a0: nat, b1: nat, b0: nat, n: nat)
    requires a1 < 2 && a0 < 2 && b1 < 2 && b0 < 2
    ensures XorDigits(4 * x + 2 * a1 + a0, 4 * y + 2 * b1 + b0, n + 2)
         == XorBit(a0 >= 1, b0 >= 1) + 2 * XorBit(a1 >= 1, b1 >= 1) + 4 * XorDigits(x, y, n)
  {
    hide XorDigits, XorBit;
    XorOneBit(2 * x + a1, 2 * y + b1, a0, b0, n + 1);
    XorOneBit(x, y, a1, b1, n);
  }

  lemma XorFourBits(x: nat, y: nat, a3: nat, a2: nat, a1: nat, a0: nat, b3: nat, b2: nat, b1: nat, b0: nat, n: nat)
    requires a3 < 2 && a2 < 2 && a1 < 2 && a0 < 2 && b3 < 2 && b2 < 2 && b1 < 2 && b0 < 2
    ensures XorDigits(0x10 * x + (8 * a3 + 4 * a2 + 2 * a1 + a0), 0x10 * y + (8 * b3 + 4 * b2 + 2 * b1 + b0), n + 4)
         == 8 * XorBit(a3 >= 1, b3 >= 1) + 4 * XorBit(a2 >= 1, b2 >= 1) + 2 * XorBit(a1 >= 1, b1 >= 1)
            + XorBit(a0 >= 1, b0 >= 1) + 0x10 * XorDigits(x, y, n)
  {
    hide XorDigits, XorBit;
    XorTwoBits(4 * x + 2 * a3 + a2, 4 * y + 2 * b3 + b2, a1, a0, b1, b0, n + 2);
    XorTwoBits(x, y, a3, a2, b3, b2, n);
  }

  lemma DigitByBits(a: nat)
    requires a < 16
    ensures var a2 := Below(a, 8);
            var a1 := Below(a2, 4);
            var a0 := Below(a1, 2);
            a0 < 2 && a == 8 * Bit(a, 8) + 4 * Bit(a2, 4) + 2 * Bit(a1, 2) + a0
  {}

  lemma BitIsAtPlace(a: nat, place: nat)
    ensures Bit(a, place) >= 1 <==> a >= place
  {}

  lemma XorOneDigit(x: nat, y: nat, a: nat, b: nat, n: nat)
    requires a < 16 && b < 16
    ensures XorDigits(0x10 * x + a, 0x10 * y + b, n + 4) == XorDigit(a, b) + 0x10 * XorDigits(x, y, n)
  {
    hide XorDigits, XorBit, Below, Bit;
    var a2, b2 := Below(a, 8), Below(b, 8);
    var a1, b1 := Below(a2, 4), Below(b2, 4);
    var a0, b0 := Below(a1, 2), Below(b1, 2);
    DigitByBits(a);
    DigitByBits(b);
    BitIsAtPlace(a, 8);
    BitIsAtPlace(b, 8);
    BitIsAtPlace(a2, 4);
    BitIsAtPlace(b2, 4);
    BitIsAtPlace(a1, 2);
    BitIsAtPlace(b1, 2);
    XorFourBits(x, y, Bit(a, 8), Bit(a2, 4), Bit(a1, 2), a0, Bit(b, 8), Bit(b2, 4), Bit(b1, 2), b0, n);
  }

  lemma XorOneQuad(x: nat, y: nat, p: Quad, q: Quad, n: nat)
    requires IsQuad(p) && IsQuad(q)
    ensures XorDigits(0x1_0000 * x + QuadValue(p), 0x1_0000 * y + QuadValue(q), n + 16)
         == QuadValue(XorQuad(p, q)) + 0x1_0000 * XorDigits(x, y, n)
  {
    hide XorDigits, XorDigit;
    XorOneDigit(0x1000 * x + 0x100 * p.d3 + 0x10 * p.d2 + p.d1, 0x1000 * y + 0x100 * q.d3 + 0x10 * q.d2 + q.d1,
                p.d0, q.d0, n + 12);
    XorOneDigit(0x100 * x + 0x10 * p.d3 + p.d2, 0x100 * y + 0x10 * q.d3 + q.d2, p.d1, q.d1, n + 8);
    XorOneDigit(0x10 * x + p.d3, 0x10 * y + q.d3, p.d2, q.d2, n + 4);
    XorOneDigit(x, y, p.d3, q.d3, n);
  }

  /** Exclusive or, digit by digit. */
  lemma XorByDigits(g: Hex, h: Hex)
    requires IsHex(g) && IsHex(h)
    requires HexValue(g) < 0x1_0000_0000_0000_0000 && HexValue(h) < 0x1_0000_0000_0000_0000
    ensures Xor(HexValue(g), HexValue(h)) == HexValue(XorHex(g, h))
  {
    hide XorDigits, XorQuad, Xor, QuadValue;
    XorAddsDigits(HexValue(g), HexValue(h));
    var g1, h1 := 0x1_0000 * QuadValue(g.q3) + QuadValue(g.q2), 0x1_0000 * QuadValue(h.q3) + QuadValue(h.q2);
    var g2, h2 := 0x1_0000 * g1 + QuadValue(g.q1), 0x1_0000 * h1 + QuadValue(h.q1);
    XorOneQuad(g2, h2, g.q0, h.q0, 48);
    XorOneQuad(g1, h1, g.q1, h.q1, 32);
    XorOneQuad(QuadValue(g.q3), QuadValue(h.q3), g.q2, h.q2, 16);
    XorOneQuad(0, 0, g.q3, h.q3, 0);
    NoDigits(0, 0);
  }

  lemma NoDigits(x: nat, y: nat)
    ensures XorDigits(x, y, 0) == 0
  {}

  /** Numbers of one digit. */
  lemma XorSmall(a: nat, b: nat)
    requires a < 16 && b < 16
    ensures Xor(a, b) == XorDigit(a, b)
  {
    hide XorDigits, XorDigit, Xor;
    XorAddsDigits(a, b);
    XorOneDigit(0, 0, a, b, 60);
    ZeroDigits(60);
  }

  lemma XorDigitZero(a: nat)
    requires a < 16
    ensures XorDigit(a, 0) == a && XorDigit(0, a) == a
  {}

  lemma XorQuadApart(a: nat)
    requires a < 16
    ensures QuadValue(XorQuad(Quad(0, 0, 0, a), NO_QUAD)) == a
  {
    hide XorDigit;
    XorDigitZero(a);
    XorDigitZero(0);
  }

  lemma OneDigitAlone(b: nat)
    requires b < 16
    ensures XorDigits(0, b, 48) == b
  {
    hide XorDigits, XorDigit;
    XorOneDigit(0, 0, 0, b, 44);
    XorDigitZero(b);
    ZeroDigits(44);
  }

  lemma LowQuad(a: nat)
    ensures QuadValue(Quad(0, 0, 0, a)) == a
  {}

  /** Numbers of one digit, sixteen binary places apart. */
  lemma XorApart(a: nat, b: nat)
    requires a < 16 && b < 16
    ensures Xor(a, 0x1_0000 * b) == a + 0x1_0000 * b
  {
    hide XorDigits, XorDigit, XorQuad, Xor, QuadValue;
    XorAddsDigits(a, 0x1_0000 * b);
    LowQuad(a);
    NoQuadIsZero();
    XorOneQuad(0, b, Quad(0, 0, 0, a), NO_QUAD, 48);
    XorQuadApart(a);
    OneDigitAlone(b);
  }

  lemma {:induction false} ZeroDigits(n: nat)
    ensures XorDigits(0, 0, n) == 0
  {
    if n > 0 {
      ZeroDigits(n - 1);
    }
  }

  /** A word by its four parts of sixteen binary digits. */
  lemma ValueByParts(h: Hex, a: nat, b: nat, c: nat, d: nat)
    requires QuadValue(h.q3) == a && QuadValue(h.q2) == b && QuadValue(h.q1) == c && QuadValue(h.q0) == d
    ensures HexValue(h) == 0x1_0000_0000_0000 * a + 0x1_0000_0000 * b + 0x1_0000 * c + d
  {}

  const NO_QUAD := Quad(0, 0, 0, 0)

  lemma NoQuadIsZero()
    ensures QuadValue(NO_QUAD) == 0
  {}

  lemma ValueByLowParts(h: Hex, b: nat, c: nat, d: nat)
    requires h.q3 == NO_QUAD
    requires QuadValue(h.q2) == b && QuadValue(h.q1) == c && QuadValue(h.q0) == d
    ensures HexValue(h) == 0x1_0000_0000 * b + 0x1_0000 * c + d
  {
    hide QuadValue;
    NoQuadIsZero();
  }

  lemma ValueByHalf(h: Hex, c: nat, d: nat)
    requires h.q3 == h.q2 == NO_QUAD
    requires QuadValue(h.q1) == c && QuadValue(h.q0) == d
    ensures HexValue(h) == 0x1_0000 * c + d
  {
    hide QuadValue;
    NoQuadIsZero();
  }

  lemma ValueByLowPart(h: Hex, d: nat)
    requires h.q3 == h.q2 == h.q1 == NO_QUAD
    requires QuadValue(h.q0) == d
    ensures HexValue(h) == d
  {
    hide QuadValue;
    NoQuadIsZero();
  }

  /** The same, for the values of words and not for their digits. */
  lemma XorOfValues(x: Word, y: Word, z: Word, g: Hex, h: Hex, k: Hex)
    requires IsHex(g) && IsHex(h) && XorHex(g, h) == k
    requires HexValue(g) == x && HexValue(h) == y && HexValue(k) == z
    ensures Xor(x, y) == z
  {
    XorByDigits(g, h);
  }

  // ----- the sums needed for published values -----

  lemma BasisXorLetterDigits(g: Hex, h: Hex)
    requires g == Hex(Quad(0xc, 0xb, 0xf, 2), Quad(9, 0xc, 0xe, 4), Quad(8, 4, 2, 2), Quad(2, 3, 2, 5))
    requires h == Hex(NO_QUAD, NO_QUAD, NO_QUAD, Quad(0, 0, 6, 1))
    ensures XorHex(g, h) == Hex(Quad(0xc, 0xb, 0xf, 2), Quad(9, 0xc, 0xe, 4), Quad(8, 4, 2, 2), Quad(2, 3, 4, 4))
  {}

  lemma BasisXorLetter()
    ensures Xor(0xcbf29ce484222325, 0x61) == 0xcbf29ce484222344
  {
    hide Xor, XorHex, HexValue;
    var g := Hex(Quad(0xc, 0xb, 0xf, 2), Quad(9, 0xc, 0xe, 4), Quad(8, 4, 2, 2), Quad(2, 3, 2, 5));
    var h := Hex(NO_QUAD, NO_QUAD, NO_QUAD, Quad(0, 0, 6, 1));
    BasisXorLetterDigits(g, h);
    ValueByParts(g, 0xcbf2, 0x9ce4, 0x8422, 0x2325);
    ValueByLowPart(h, 0x61);
    ValueByParts(XorHex(g, h), 0xcbf2, 0x9ce4, 0x8422, 0x2344);
    hide QuadValue;
    XorOfValues(0xcbf29ce484222325, 0x61, 0xcbf29ce484222344, g, h, XorHex(g, h));
  }

  lemma FirstXorDigits(g: Hex, h: Hex)
    requires g == Hex(Quad(9, 0xe, 3, 7), Quad(7, 9, 0xb, 9), Quad(7, 0xf, 5, 0xd), Quad(5, 2, 9, 0xc))
    requires h == Hex(NO_QUAD, Quad(0, 0, 0, 2), Quad(7, 8, 0xd, 0xd), Quad(0xe, 6, 0xe, 5))
    ensures XorHex(g, h) == Hex(Quad(9, 0xe, 3, 7), Quad(7, 9, 0xb, 0xb), Quad(0, 7, 8, 0), Quad(0xb, 4, 7, 9))
  {}

  lemma FirstXor()
    ensures Xor(0x9e3779b97f5d529c, 0x278dde6e5) == 0x9e3779bb0780b479
  {
    hide Xor, XorHex, HexValue;
    var g := Hex(Quad(9, 0xe, 3, 7), Quad(7, 9, 0xb, 9), Quad(7, 0xf, 5, 0xd), Quad(5, 2, 9, 0xc));
    var h := Hex(NO_QUAD, Quad(0, 0, 0, 2), Quad(7, 8, 0xd, 0xd), Quad(0xe, 6, 0xe, 5));
    FirstXorDigits(g, h);
    ValueByParts(g, 0x9e37, 0x79b9, 0x7f5d, 0x529c);
    ValueByLowParts(h, 0x2, 0x78dd, 0xe6e5);
    ValueByParts(XorHex(g, h), 0x9e37, 0x79bb, 0x780, 0xb479);
    hide QuadValue;
    XorOfValues(0x9e3779b97f5d529c, 0x278dde6e5, 0x9e3779bb0780b479, g, h, XorHex(g, h));
  }

  lemma SecondXorDigits(g: Hex, h: Hex)
    requires g == Hex(Quad(0, 9, 0xd, 2), Quad(6, 0xe, 0xc, 1), Quad(8, 5, 3, 6), Quad(0xa, 8, 7, 1))
    requires h == Hex(NO_QUAD, Quad(0, 0, 0, 1), Quad(3, 0xa, 4, 0xd), Quad(0xd, 8, 3, 0))
    ensures XorHex(g, h) == Hex(Quad(0, 9, 0xd, 2), Quad(6, 0xe, 0xc, 0), Quad(0xb, 0xf, 7, 0xb), Quad(7, 0, 4, 1))
  {}

  lemma SecondXor()
    ensures Xor(0x9d26ec18536a871, 0x13a4dd830) == 0x9d26ec0bf7b7041
  {
    hide Xor, XorHex, HexValue;
    var g := Hex(Quad(0, 9, 0xd, 2), Quad(6, 0xe, 0xc, 1), Quad(8, 5, 3, 6), Quad(0xa, 8, 7, 1));
    var h := Hex(NO_QUAD, Quad(0, 0, 0, 1), Quad(3, 0xa, 4, 0xd), Quad(0xd, 8, 3, 0));
    SecondXorDigits(g, h);
    ValueByParts(g, 0x9d2, 0x6ec1, 0x8536, 0xa871);
    ValueByLowParts(h, 0x1, 0x3a4d, 0xd830);
    ValueByParts(XorHex(g, h), 0x9d2, 0x6ec0, 0xbf7b, 0x7041);
    hide QuadValue;
    XorOfValues(0x9d26ec18536a871, 0x13a4dd830, 0x9d26ec0bf7b7041, g, h, XorHex(g, h));
  }

  lemma ThirdXorDigits(g: Hex, h: Hex)
    requires g == Hex(Quad(5, 9, 9, 0xe), Quad(0xd, 0, 1, 7), Quad(4, 8, 3, 5), Quad(5, 0xc, 0xa, 0xb))
    requires h == Hex(NO_QUAD, NO_QUAD, Quad(0xb, 3, 3, 0xd), Quad(0xa, 0, 2, 0xe))
    ensures XorHex(g, h) == Hex(Quad(5, 9, 9, 0xe), Quad(0xd, 0, 1, 7), Quad(0xf, 0xb, 0, 8), Quad(0xf, 0xc, 8, 5))
  {}

  lemma ThirdXor()
    ensures Xor(0x599ed01748355cab, 0xb33da02e) == 0x599ed017fb08fc85
  {
    hide Xor, XorHex, HexValue;
    var g := Hex(Quad(5, 9, 9, 0xe), Quad(0xd, 0, 1, 7), Quad(4, 8, 3, 5), Quad(5, 0xc, 0xa, 0xb));
    var h := Hex(NO_QUAD, NO_QUAD, Quad(0xb, 3, 3, 0xd), Quad(0xa, 0, 2, 0xe));
    ThirdXorDigits(g, h);
    ValueByParts(g, 0x599e, 0xd017, 0x4835, 0x5cab);
    ValueByHalf(h, 0xb33d, 0xa02e);
    ValueByParts(XorHex(g, h), 0x599e, 0xd017, 0xfb08, 0xfc85);
    hide QuadValue;
    XorOfValues(0x599ed01748355cab, 0xb33da02e, 0x599ed017fb08fc85, g, h, XorHex(g, h));
  }
}
