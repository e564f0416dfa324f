/**
 * 64-bit words as integers, with the operators of `uint64_t`: wrap-around sum and product,
 * exclusive or, shifts and rotation. The bitwise operators act on the binary digits of a word.
 */
module Words {

  type Byte = x: nat | x < 256
  type Word = x: nat | x < 0x1_0000_0000_0000_0000

  /** Binary digits, least significant first. */
  type Bits = s: seq<bool> | |s| == 64 witness seq(64, _ => false)

  // ----- binary notation -----

  function ValueOf(s: seq<bool>): nat {
    if s == [] then 0 else (if s[0] then 1 else 0) + 2 * ValueOf(s[1..])
  }

  function DigitsOf(x: nat, count: nat): (s: seq<bool>)
    ensures |s| == count
  {
    if count == 0 then [] else [x % 2 == 1] + DigitsOf(x / 2, count - 1)
  }

  function Pow2(n: nat): nat {
    if n == 0 then 1 else 2 * Pow2(n - 1)
  }

  lemma {:induction false} ValueBound(s: seq<bool>)
    ensures ValueOf(s) < Pow2(|s|)
  {
    if s != [] {
      ValueBound(s[1..]);
    }
  }

  lemma {:induction false} BinaryOfValue(s: seq<bool>)
    ensures DigitsOf(ValueOf(s), |s|) == s
  {
    if s != [] {
      BinaryOfValue(s[1..]);
    }
  }

  lemma {:induction false} ValueOfBinary(x: nat, count: nat)
    requires x < Pow2(count)
    ensures ValueOf(DigitsOf(x, count)) == x
  {
    if count != 0 {
      ValueOfBinary(x / 2, count - 1);
      assert DigitsOf(x, count)[1..] == DigitsOf(x / 2, count - 1);
    }
  }

  lemma DoubleProduct(p: nat, x: nat)
    ensures (2 * p) * x == 2 * (p * x)
  {}

  lemma {:induction false} ValueSplits(s: seq<bool>, n: nat)
    requires n <= |s|
    ensures ValueOf(s) == ValueOf(s[..n]) + Pow2(n) * ValueOf(s[n..])
  {
    if n == 0 {
      assert s[0..] == s;
      assert ValueOf(s[..0]) == 0;
    } else {
      ValueSplits(s[1..], n - 1);
      assert s[..n][1..] == s[1..][..n - 1] && s[n..] == s[1..][n - 1..];
      assert ValueOf(s[..n]) == (if s[0] then 1 else 0) + 2 * ValueOf(s[..n][1..]);
      DoubleProduct(Pow2(n - 1), ValueOf(s[n..]));
    }
  }

  function ToBits(x: Word): Bits {
    DigitsOf(x, 64)
  }

  lemma Pow2Plus4(n: nat)
    ensures Pow2(n + 4) == 16 * Pow2(n)
  {
    assert Pow2(n + 2) == 4 * Pow2(n);
  }

  lemma Pow2Plus16(n: nat)
    ensures Pow2(n + 16) == 0x1_0000 * Pow2(n)
  {
    Pow2Plus4(n);
    Pow2Plus4(n + 4);
    Pow2Plus4(n + 8);
    Pow2Plus4(n + 12);
  }

  lemma Pow2Of64()
    ensures Pow2(8) == 256 && Pow2(64) == 0x1_0000_0000_0000_0000
  {
    Pow2Plus4(0);
    Pow2Plus4(4);
    Pow2Plus16(0);
    Pow2Plus16(16);
    Pow2Plus16(32);
    Pow2Plus16(48);
  }

  function FromBits(b: Bits): Word {
    Pow2Of64();
    ValueBound(b);
    ValueOf(b)
  }

  lemma WordThereAndBack(x: Word)
    ensures FromBits(ToBits(x)) == x
  {
    Pow2Of64();
    ValueOfBinary(x, 64);
  }

  lemma BitsThereAndBack(b: Bits)
    ensures ToBits(FromBits(b)) == b
  {
    BinaryOfValue(b);
  }

  // ----- arithmetic -----

  function Plus(x: Word, y: nat): Word {
    (x + y) % 0x1_0000_0000_0000_0000
  }

  function Times(x: Word, factor: nat): Word {
    (x * factor) % 0x1_0000_0000_0000_0000
  }

  lemma ModShift(x: int, z: int, y: int)
    requires 0 <= x < 0x1_0000_0000_0000_0000
    requires y == x + 0x1_0000_0000_0000_0000 * z
    ensures y % 0x1_0000_0000_0000_0000 == x
  {}

  // ----- bitwise operators -----

  function XorBits(a: Bits, b: Bits): Bits {
    seq(64, i requires 0 <= i < 64 => a[i] != b[i])
  }

  function OrBits(a: Bits, b: Bits): Bits {
    seq(64, i requires 0 <= i < 64 => a[i] || b[i])
  }

  function ShlBits(a: Bits, k: nat): Bits {
    seq(64, i requires 0 <= i < 64 => i >= k && a[i - k])
  }

  function ShrBits(a: Bits, k: nat): Bits {
    seq(64, i requires 0 <= i < 64 => i + k < 64 && a[i + k])
  }

  function Xor(x: Word, y: Word): Word { FromBits(XorBits(ToBits(x), ToBits(y))) }

  function Or(x: Word, y: Word): Word { FromBits(OrBits(ToBits(x), ToBits(y))) }

  function Shl(x: Word, k: nat): Word { FromBits(ShlBits(ToBits(x), k)) }

  function Shr(x: Word, k: nat): Word { FromBits(ShrBits(ToBits(x), k)) }

  // ----- what the shifts compute -----

  lemma {:induction false} ZerosAreZero(s: seq<bool>)
    requires true !in s
    ensures ValueOf(s) == 0
  {
    if s != [] {
      ZerosAreZero(s[1..]);
    }
  }

  lemma {:induction false} Pow2Sum(m: nat, n: nat)
    ensures Pow2(m) * Pow2(n) == Pow2(m + n)
  {
    if m > 0 {
      Pow2Sum(m - 1, n);
      DoubleProduct(Pow2(m - 1), Pow2(n));
    }
  }

  lemma Quotient(x: nat, p: nat, low: nat, high: nat)
    requires low < p && x == low + p * high
    ensures x / p == high
  {
    var q, r := x / p, x % p;
    assert x == r + p * q;
    if q > high {
      BiggerProduct(p, high, q);
    } else if q < high {
      BiggerProduct(p, q, high);
    }
  }

  lemma {:induction false} BiggerProduct(p: nat, a: nat, b: nat)
    requires a < b
    ensures p * b >= p * a + p
  {
    assert p * b == p * (b - 1) + p;
    if a < b - 1 {
      BiggerProduct(p, a, b - 1);
    }
  }

  /** Shifting right divides by a power of two. */
  lemma ShrDivides(x: Word, k: nat)
    requires k <= 64
    ensures Pow2(k) > 0 && Shr(x, k) == x / Pow2(k)
  {
    hide ShrBits, ValueOf, DigitsOf;
    var b, r := ToBits(x), ShrBits(ToBits(x), k);
    ShrBitsSplit(b, k);
    ValueSplits(r, 64 - k);
    ZerosAreZero(r[64 - k..]);
    ValueSplits(b, k);
    ValueBound(b[..k]);
    WordThereAndBack(x);
    Quotient(x, Pow2(k), ValueOf(b[..k]), ValueOf(b[k..]));
  }

  lemma ShrBitsSplit(b: Bits, k: nat)
    requires k <= 64
    ensures ShrBits(b, k)[..64 - k] == b[k..]
    ensures true !in ShrBits(b, k)[64 - k..]
  {}

  /** Shifting left multiplies by a power of two, modulo 2^64. */
  lemma ShlMultiplies(x: Word, k: nat)
    requires k <= 64
    ensures Shl(x, k) == Times(x, Pow2(k))
  {
    hide ValueOf, DigitsOf, ToBits, FromBits, ShlBits, Shl, Pow2;
    var b := ToBits(x);
    var low, high := ValueOf(b[..64 - k]), ValueOf(b[64 - k..]);
    WordSplits(x, 64 - k);
    ShlValue(x, k);
    Pow2Sum(64 - k, k);
    Pow2Of64();
    Regroup(low, Pow2(64 - k), high, Pow2(k));
    ModShift(Shl(x, k), high, x * Pow2(k));
  }

  lemma WordSplits(x: Word, n: nat)
    requires n <= 64
    ensures x == ValueOf(ToBits(x)[..n]) + Pow2(n) * ValueOf(ToBits(x)[n..])
  {
    ValueSplits(ToBits(x), n);
    WordThereAndBack(x);
  }

  lemma ShlValue(x: Word, k: nat)
    requires k <= 64
    ensures Shl(x, k) == Pow2(k) * ValueOf(ToBits(x)[..64 - k])
  {
    hide ShlBits, ValueOf, DigitsOf;
    var r := ShlBits(ToBits(x), k);
    ShlBitsSplit(ToBits(x), k);
    ValueSplits(r, k);
    ZerosAreZero(r[..k]);
  }

  lemma Regroup(low: nat, p: nat, high: nat, q: nat)
    ensures (low + p * high) * q == low * q + (p * q) * high
  {}

  lemma ShlBitsSplit(b: Bits, k: nat)
    requires k <= 64
    ensures ShlBits(b, k)[k..] == b[..64 - k]
    ensures true !in ShlBits(b, k)[..k]
  {}

  // ----- exclusive or -----

  lemma XorTwice(x: Word, y: Word)
    ensures Xor(Xor(x, y), y) == x && Xor(Xor(y, x), y) == x
  {
    hide ToBits, FromBits;
    var a, b := ToBits(x), ToBits(y);
    BitsThereAndBack(XorBits(a, b));
    BitsThereAndBack(XorBits(b, a));
    assert XorBits(XorBits(a, b), b) == a && XorBits(XorBits(b, a), b) == a;
    WordThereAndBack(x);
  }

  /** Exclusive or loses nothing of either operand once the other is fixed. */
  lemma XorInjective(x: Word, y: Word, z: Word)
    requires Xor(x, z) == Xor(y, z) || Xor(z, x) == Xor(z, y)
    ensures x == y
  {
    hide Xor;
    XorTwice(x, z);
    XorTwice(y, z);
  }

  lemma {:induction false} SmallHasNoHighDigits(x: nat, n: nat, count: nat)
    requires x < Pow2(n) && n <= count
    ensures forall i | n <= i < count :: !DigitsOf(x, count)[i]
  {
    if count > 0 {
      if n == 0 {
        assert x / 2 == 0;
        SmallHasNoHighDigits(0, 0, count - 1);
      } else {
        SmallHasNoHighDigits(x / 2, n - 1, count - 1);
      }
    }
  }

  /** A byte reaches only the low eight bits of a word. */
  lemma XorByteKeepsHighBits(h: Word, c: Byte)
    ensures Xor(h, c) / 256 == h / 256
  {
    hide Xor, ToBits, FromBits, XorBits;
    var a, x := ToBits(h), ToBits(Xor(h, c));
    XorHighBits(h, c);
    HighPart(a);
    HighPart(x);
    WordThereAndBack(h);
    WordThereAndBack(Xor(h, c));
  }

  lemma XorHighBits(h: Word, c: Byte)
    ensures ToBits(Xor(h, c))[8..] == ToBits(h)[8..]
  {
    hide FromBits, ValueOf, DigitsOf;
    Pow2Of64();
    SmallHasNoHighDigits(c, 8, 64);
    assert forall i | 8 <= i < 64 :: !ToBits(c)[i];
    BitsThereAndBack(XorBits(ToBits(h), ToBits(c)));
  }

  lemma HighPart(b: Bits)
    ensures FromBits(b) / 256 == ValueOf(b[8..])
  {
    Pow2Of64();
    ValueSplits(b, 8);
    ValueBound(b[..8]);
  }

  /** Words that a byte brings together, or takes apart, agree above their low bytes. */
  lemma XorBytesStayNear(u: Word, v: Word, a: Byte, b: Byte)
    ensures -256 < Xor(u, a) - Xor(u, b) < 256
    ensures Xor(u, a) == Xor(v, b) ==> -256 < u - v < 256
  {
    hide Xor;
    XorByteKeepsHighBits(u, a);
    XorByteKeepsHighBits(u, b);
    XorByteKeepsHighBits(v, b);
  }

  // ----- exclusive or in plain arithmetic -----

  /** Exclusive or of the last n binary digits: their sums modulo 2. */
  function XorDigits(x: nat, y: nat, n: nat): nat {
    if n == 0 then 0 else (x % 2 + y % 2) % 2 + 2 * XorDigits(x / 2, y / 2, n - 1)
  }

  lemma {:induction false} XorDigitsOfDigits(x: nat, y: nat, n: nat, z: seq<bool>)
    requires |z| == n && forall i | 0 <= i < n :: z[i] == (DigitsOf(x, n)[i] != DigitsOf(y, n)[i])
    ensures ValueOf(z) == XorDigits(x, y, n)
  {
    if n > 0 {
      assert DigitsOf(x, n)[1..] == DigitsOf(x / 2, n - 1) && DigitsOf(y, n)[1..] == DigitsOf(y / 2, n - 1);
      XorDigitsOfDigits(x / 2, y / 2, n - 1, z[1..]);
    }
  }

  lemma XorAddsDigits(x: Word, y: Word)
    ensures Xor(x, y) == XorDigits(x, y, 64)
  {
    hide XorDigits;
    XorDigitsOfDigits(x, y, 64, XorBits(ToBits(x), ToBits(y)));
  }

  // ----- shifts and rotations -----

  lemma BitsOfXor(x: Word, y: Word)
    ensures ToBits(Xor(x, y)) == XorBits(ToBits(x), ToBits(y))
  {
    BitsThereAndBack(XorBits(ToBits(x), ToBits(y)));
  }

  lemma BitsOfShl(x: Word, k: nat)
    ensures ToBits(Shl(x, k)) == ShlBits(ToBits(x), k)
  {
    BitsThereAndBack(ShlBits(ToBits(x), k));
  }

  lemma BitsOfShr(x: Word, k: nat)
    ensures ToBits(Shr(x, k)) == ShrBits(ToBits(x), k)
  {
    BitsThereAndBack(ShrBits(ToBits(x), k));
  }

  lemma SameBits(x: Word, y: Word)
    requires ToBits(x) == ToBits(y)
    ensures x == y
  {
    WordThereAndBack(x);
    WordThereAndBack(y);
  }

  /** `(x << k) | (x >> (64 - k))` */
  function RotateLeft(x: Word, k: nat): Word
    requires 0 < k < 64
  {
    Or(Shl(x, k), Shr(x, 64 - k))
  }

  lemma BitsOfRotate(x: Word, k: nat)
    requires 0 < k < 64
    ensures forall i | 0 <= i < 64 ::
              ToBits(RotateLeft(x, k))[i] == ToBits(x)[if i >= k then i - k else i - k + 64]
  {
    hide ToBits, FromBits, Shl, Shr;
    BitsOfShl(x, k);
    BitsOfShr(x, 64 - k);
    BitsThereAndBack(OrBits(ToBits(Shl(x, k)), ToBits(Shr(x, 64 - k))));
  }

  /** Rotating left shifts left and adds what was shifted out. */
  lemma RotateAdds(x: Word, k: nat)
    requires 0 < k < 64
    ensures Pow2(64 - k) > 0 && RotateLeft(x, k) == Times(x, Pow2(k)) + x / Pow2(64 - k)
  {
    hide ToBits, ValueOf, Shl, Shr, RotateLeft, Times;
    var b, r := ToBits(x), ToBits(RotateLeft(x, k));
    BitsOfRotate(x, k);
    assert r[..k] == b[64 - k..] && r[k..] == b[..64 - k];
    WordSplits(RotateLeft(x, k), k);
    ShlValue(x, k);
    ShlMultiplies(x, k);
    TopDigits(x, 64 - k);
  }

  lemma TopDigits(x: Word, n: nat)
    requires n <= 64
    ensures Pow2(n) > 0 && x / Pow2(n) == ValueOf(ToBits(x)[n..])
  {
    hide ValueOf, DigitsOf, ToBits;
    WordSplits(x, n);
    ValueBound(ToBits(x)[..n]);
    Quotient(x, Pow2(n), ValueOf(ToBits(x)[..n]), ValueOf(ToBits(x)[n..]));
  }

  /** Rotating the rest of the way round restores the word. */
  lemma RotateBack(x: Word, k: nat)
    requires 0 < k < 64
    ensures RotateLeft(RotateLeft(x, k), 64 - k) == x
  {
    hide ToBits, RotateLeft;
    BitsOfRotate(x, k);
    BitsOfRotate(RotateLeft(x, k), 64 - k);
    SameBits(RotateLeft(RotateLeft(x, k), 64 - k), x);
  }

  /** `x ^ (x << k)` and its inverse, for shifts of a quarter word or more. */
  function MixUp(x: Word, k: nat): Word {
    Xor(x, Shl(x, k))
  }

  function UnmixUp(y: Word, k: nat): Word {
    Xor(Xor(Xor(y, Shl(y, k)), Shl(y, 2 * k)), Shl(y, 3 * k))
  }

  /** `x ^ (x >> k)` and its inverse, for shifts of a third of a word or more. */
  function MixDown(x: Word, k: nat): Word {
    Xor(x, Shr(x, k))
  }

  function UnmixDown(y: Word, k: nat): Word {
    Xor(Xor(y, Shr(y, k)), Shr(y, 2 * k))
  }

  lemma BitsOfMixDown(x: Word, k: nat)
    ensures ToBits(MixDown(x, k)) == XorBits(ToBits(x), ShrBits(ToBits(x), k))
    ensures ToBits(UnmixDown(x, k)) ==
            XorBits(XorBits(ToBits(x), ShrBits(ToBits(x), k)), ShrBits(ToBits(x), 2 * k))
  {
    hide ToBits, Xor, Shr;
    BitsOfShr(x, k);
    BitsOfShr(x, 2 * k);
    BitsOfXor(x, Shr(x, k));
    BitsOfXor(Xor(x, Shr(x, k)), Shr(x, 2 * k));
  }

  function MixUpBits(b: Bits, k: nat): Bits {
    XorBits(b, ShlBits(b, k))
  }

  function UnmixUpBits(b: Bits, k: nat): Bits {
    XorBits(XorBits(XorBits(b, ShlBits(b, k)), ShlBits(b, 2 * k)), ShlBits(b, 3 * k))
  }

  /** Four overlapping copies telescope: what is shifted four times is gone. */
  lemma MixUpBitsInvertible(b: Bits, k: nat)
    requires 16 <= k
    ensures UnmixUpBits(MixUpBits(b, k), k) == b
  {
    var m := MixUpBits(b, k);
    forall i | 0 <= i < 64
      ensures UnmixUpBits(m, k)[i] == b[i]
    {
      assert i >= k ==> m[i - k] == (b[i - k] != (i >= 2 * k && b[i - 2 * k]));
      assert i >= 2 * k ==> m[i - 2 * k] == (b[i - 2 * k] != (i >= 3 * k && b[i - 3 * k]));
      assert i >= 3 * k ==> m[i - 3 * k] == b[i - 3 * k];
    }
  }

  lemma UnmixUpBitsInvertible(b: Bits, k: nat)
    requires 16 <= k
    ensures MixUpBits(UnmixUpBits(b, k), k) == b
  {
    var u := UnmixUpBits(b, k);
    forall i | 0 <= i < 64
      ensures MixUpBits(u, k)[i] == b[i]
    {
      assert i >= k ==> u[i - k] == (((b[i - k] != (i >= 2 * k && b[i - 2 * k])) != (i >= 3 * k && b[i - 3 * k])));
    }
  }

  lemma BitsOfMixUp(x: Word, k: nat)
    ensures ToBits(MixUp(x, k)) == MixUpBits(ToBits(x), k)
    ensures ToBits(UnmixUp(x, k)) == UnmixUpBits(ToBits(x), k)
  {
    hide ToBits, Xor, Shl;
    BitsOfShl(x, k);
    BitsOfShl(x, 2 * k);
    BitsOfShl(x, 3 * k);
    BitsOfXor(x, Shl(x, k));
    BitsOfXor(Xor(x, Shl(x, k)), Shl(x, 2 * k));
    BitsOfXor(Xor(Xor(x, Shl(x, k)), Shl(x, 2 * k)), Shl(x, 3 * k));
  }

  lemma MixUpInvertible(x: Word, k: nat)
    requires 16 <= k
    ensures UnmixUp(MixUp(x, k), k) == x && MixUp(UnmixUp(x, k), k) == x
  {
    hide ToBits, MixUp, UnmixUp, MixUpBits, UnmixUpBits;
    MixUpBitsInvertible(ToBits(x), k);
    UnmixUpBitsInvertible(ToBits(x), k);
    BitsOfMixUp(x, k);
    BitsOfMixUp(MixUp(x, k), k);
    BitsOfMixUp(UnmixUp(x, k), k);
    SameBits(UnmixUp(MixUp(x, k), k), x);
    SameBits(MixUp(UnmixUp(x, k), k), x);
  }

  lemma MixDownInvertible(x: Word, k: nat)
    requires 22 <= k
    ensures UnmixDown(MixDown(x, k), k) == x && MixDown(UnmixDown(x, k), k) == x
  {
    hide ToBits, MixDown, UnmixDown;
    BitsOfMixDown(x, k);
    BitsOfMixDown(MixDown(x, k), k);
    BitsOfMixDown(UnmixDown(x, k), k);
    SameBits(UnmixDown(MixDown(x, k), k), x);
    SameBits(MixDown(UnmixDown(x, k), k), x);
  }
}
