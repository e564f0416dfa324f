/** FNV-1a, 64-bit variant (core/routing/FnvHash.hpp), over bytes, with exact wrap-around. */
module FnvHash {
  import opened Words

  type Bytes = seq<Byte>

  const FNV_OFFSET_BASIS: Word := 14695981039346656037
  const FNV_PRIME: nat := 1099511628211

  /** One round: xor the byte in, then multiply by the prime modulo 2^64. */
  function Absorb(hash: Word, c: Byte): Word {
    Times(Xor(hash, c), FNV_PRIME)
  }

  function Fold(hash: Word, data: Bytes): Word
    decreases |data|
  {
    if data == [] then hash else Fold(Absorb(hash, data[0]), data[1..])
  }

  /** The hash of a byte string: what `Hash64` computes. */
  function HashOf(data: Bytes): Word {
    Fold(FNV_OFFSET_BASIS, data)
  }

  method Hash64(data: Bytes) returns (hash: Word)
    ensures hash == HashOf(data)
  {
    hash := FNV_OFFSET_BASIS;
    for i := 0 to |data|
      invariant Fold(hash, data[i..]) == HashOf(data)
    {
      assert data[i..][0] == data[i] && data[i..][1..] == data[i + 1..];
      hash := Xor(hash, data[i]);
      hash := Times(hash, FNV_PRIME);
    }
  }

  // ----- one round is a bijection -----

  /** The prime is odd: its inverse modulo 2^64 undoes the multiplication. */
  lemma PrimeInvertible(x: Word)
    ensures Times(Times(x, FNV_PRIME), 0xce965057aff6957b) == x
  {
    var k := (x * FNV_PRIME) / 0x1_0000_0000_0000_0000;
    var r: int := Times(x, FNV_PRIME);
    assert r == x * FNV_PRIME - k * 0x1_0000_0000_0000_0000;
    assert FNV_PRIME * 0xce965057aff6957b == 1 + 0x1_0000_0000_0000_0000 * 887285111055;
    ModShift(x, x * 887285111055 - k * 0xce965057aff6957b, r * 0xce965057aff6957b);
  }

  lemma AbsorbInjective(x: Word, y: Word, c: Byte)
    requires Absorb(x, c) == Absorb(y, c)
    ensures x == y
  {
    hide Xor;
    PrimeInvertible(Xor(x, c));
    PrimeInvertible(Xor(y, c));
    XorInjective(x, y, c);
  }

  /** Absorbing the same bytes never merges two hash states. */
  lemma {:induction false} FoldInjective(x: Word, y: Word, data: Bytes)
    requires Fold(x, data) == Fold(y, data)
    ensures x == y
    decreases |data|
  {
    if data != [] {
      FoldInjective(Absorb(x, data[0]), Absorb(y, data[0]), data[1..]);
      AbsorbInjective(x, y, data[0]);
    }
  }

  lemma {:induction false} FoldConcat(hash: Word, a: Bytes, b: Bytes)
    ensures Fold(hash, a + b) == Fold(Fold(hash, a), b)
    decreases |a|
  {
    if a == [] {
      assert a + b == b;
    } else {
      assert (a + b)[1..] == a[1..] + b;
      FoldConcat(Absorb(hash, a[0]), a[1..], b);
    }
  }

  // ----- two rounds never merge different pairs of bytes -----

  /** The prime exceeds 2^40, so it throws words less than 256 apart far from each other. */
  lemma PrimeSpreads(x: Word, y: Word)
    requires -256 < x - y < 256
    requires -256 < Times(x, FNV_PRIME) - Times(y, FNV_PRIME) < 256
    ensures x == y
  {}

  /** Words that one round brings together agree above their low bytes. */
  lemma RoundMeetsOnlyNear(u: Word, v: Word, a: Byte, b: Byte)
    requires Absorb(u, a) == Absorb(v, b)
    ensures Xor(u, a) == Xor(v, b)
    ensures -256 < u - v < 256
  {
    hide Xor;
    PrimeInvertible(Xor(u, a));
    PrimeInvertible(Xor(v, b));
    XorBytesStayNear(u, v, a, b);
  }

  lemma TwoRoundsInjective(h: Word, a1: Byte, b1: Byte, a2: Byte, b2: Byte)
    requires Absorb(Absorb(h, a1), b1) == Absorb(Absorb(h, a2), b2)
    ensures a1 == a2 && b1 == b2
  {
    hide Xor, Times;
    var u, v := Absorb(h, a1), Absorb(h, a2);
    RoundMeetsOnlyNear(u, v, b1, b2);
    XorBytesStayNear(h, h, a1, a2);
    PrimeSpreads(Xor(h, a1), Xor(h, a2));
    XorInjective(a1, a2, h);
    XorInjective(b1, b2, u);
  }

  // ----- collision freedom for short differences -----

  /** Equal lengths, and equal everywhere except perhaps at positions i and i + 1. */
  ghost predicate DifferOnlyWithin(s: Bytes, t: Bytes, i: nat) {
    |s| == |t| && forall j | 0 <= j < |s| && j != i && j != i + 1 :: s[j] == t[j]
  }

  /**
   * Two byte strings that differ only within two adjacent positions never collide:
   * their hashes are equal exactly when the strings are.
   */
  lemma ShortDifferencesNeverCollide(s: Bytes, t: Bytes, i: nat)
    requires DifferOnlyWithin(s, t, i)
    ensures HashOf(s) == HashOf(t) <==> s == t
  {
    if HashOf(s) == HashOf(t) && i < |s| {
      assert s[..i] == t[..i] && s == s[..i] + s[i..] && t == t[..i] + t[i..];
      FoldConcat(FNV_OFFSET_BASIS, s[..i], s[i..]);
      FoldConcat(FNV_OFFSET_BASIS, t[..i], t[i..]);
      TailsAgree(Fold(FNV_OFFSET_BASIS, s[..i]), s[i..], t[i..]);
    }
  }

  lemma TailsAgree(h: Word, s: Bytes, t: Bytes)
    requires 0 < |s| == |t|
    requires forall j | 2 <= j < |s| :: s[j] == t[j]
    requires Fold(h, s) == Fold(h, t)
    ensures s == t
  {
    var u, v := Absorb(h, s[0]), Absorb(h, t[0]);
    if |s| == 1 {
      assert s[1..] == t[1..] == [];
      assert Fold(u, []) == u && Fold(v, []) == v;
      TwoRoundsInjective(h, s[0], 0, t[0], 0);
    } else {
      assert s[1..][1..] == s[2..] == t[2..] == t[1..][1..];
      assert Fold(h, s) == Fold(Absorb(u, s[1]), s[2..]);
      assert Fold(h, t) == Fold(Absorb(v, t[1]), t[2..]);
      FoldInjective(Absorb(u, s[1]), Absorb(v, t[1]), s[2..]);
      TwoRoundsInjective(h, s[0], s[1], t[0], t[1]);
    }
  }
}
