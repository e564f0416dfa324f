/** xoshiro256** seeded by SplitMix64 (core/routing/Xoshiro256.cpp; Blackman and Vigna). */
module Xoshiro256 {
  import opened Words

  // ----- SplitMix64 -----

  const GOLDEN_GAMMA: Word := 0x9e3779b97f4a7c15

  /** The output function of SplitMix64. */
  function Scramble(z: Word): Word {
    MixDown(Times(MixDown(Times(MixDown(z, 30), 0xbf58476d1ce4e5b9), 27), 0x94d049bb133111eb), 31)
  }

  function Unscramble(r: Word): Word {
    UnmixDown(Times(UnmixDown(Times(UnmixDown(r, 31), 0x319642b2d24d8ec3), 27), 0x96de1b173f119089), 30)
  }

  method SplitMix64(state: Word) returns (z: Word, newState: Word)
    ensures newState == Plus(state, GOLDEN_GAMMA) && z == Scramble(newState)
  {
    newState := Plus(state, GOLDEN_GAMMA);
    z := newState;
    z := Times(Xor(z, Shr(z, 30)), 0xbf58476d1ce4e5b9);
    z := Times(Xor(z, Shr(z, 27)), 0x94d049bb133111eb);
    z := Xor(z, Shr(z, 31));
  }

  /** Multiplication by each odd constant is undone by its inverse modulo 2^64, both ways round. */
  lemma OddFactorsInvertible(x: Word)
    ensures Times(Times(x, 0xbf58476d1ce4e5b9), 0x96de1b173f119089) == x
    ensures Times(Times(x, 0x96de1b173f119089), 0xbf58476d1ce4e5b9) == x
    ensures Times(Times(x, 0x94d049bb133111eb), 0x319642b2d24d8ec3) == x
    ensures Times(Times(x, 0x319642b2d24d8ec3), 0x94d049bb133111eb) == x
  {
    InverseFactors(x, 0xbf58476d1ce4e5b9, 0x96de1b173f119089, 8125545580553827436);
    InverseFactors(x, 0x96de1b173f119089, 0xbf58476d1ce4e5b9, 8125545580553827436);
    InverseFactors(x, 0x94d049bb133111eb, 0x319642b2d24d8ec3, 2077064247507883091);
    InverseFactors(x, 0x319642b2d24d8ec3, 0x94d049bb133111eb, 2077064247507883091);
  }

  lemma InverseFactors(x: Word, p: nat, q: nat, t: nat)
    requires p * q == 1 + 0x1_0000_0000_0000_0000 * t
    ensures Times(Times(x, p), q) == x
  {
    var m := 0x1_0000_0000_0000_0000;
    var k := x * p / m;
    var r: int := Times(x, p);
    assert r == x * p - k * m;
    assert r * q == x * (p * q) - (k * q) * m;
    assert x * (p * q) == x + m * (x * t);
    assert r * q == x + m * (x * t - k * q);
    ModShift(x, x * t - k * q, r * q);
  }

  /** The output function is a bijection. */
  lemma ScrambleInvertible(z: Word)
    ensures Unscramble(Scramble(z)) == z && Scramble(Unscramble(z)) == z
  {
    hide Times, MixDown, UnmixDown;
    var a := MixDown(z, 30);
    var b := MixDown(Times(a, 0xbf58476d1ce4e5b9), 27);
    MixDownInvertible(z, 30);
    OddFactorsInvertible(a);
    MixDownInvertible(Times(a, 0xbf58476d1ce4e5b9), 27);
    OddFactorsInvertible(b);
    MixDownInvertible(Times(b, 0x94d049bb133111eb), 31);
    var c := UnmixDown(z, 31);
    var d := UnmixDown(Times(c, 0x319642b2d24d8ec3), 27);
    MixDownInvertible(z, 31);
    OddFactorsInvertible(c);
    MixDownInvertible(Times(c, 0x319642b2d24d8ec3), 27);
    OddFactorsInvertible(d);
    MixDownInvertible(Times(d, 0x96de1b173f119089), 30);
  }

  lemma ScrambleInjective(x: Word, y: Word)
    requires Scramble(x) == Scramble(y)
    ensures x == y
  {
    ScrambleInvertible(x);
    ScrambleInvertible(y);
  }

  // ----- the generator -----

  datatype State = State(s0: Word, s1: Word, s2: Word, s3: Word)

  function Seeded(seed: Word): State {
    var a := Plus(seed, GOLDEN_GAMMA);
    var b := Plus(a, GOLDEN_GAMMA);
    var c := Plus(b, GOLDEN_GAMMA);
    var d := Plus(c, GOLDEN_GAMMA);
    State(Scramble(a), Scramble(b), Scramble(c), Scramble(d))
  }

  function Output(s: State): Word {
    Times(RotateLeft(Times(s.s1, 5), 7), 9)
  }

  function Next(s: State): State {
    var x2, x3 := Xor(s.s2, s.s0), Xor(s.s3, s.s1);
    State(Xor(s.s0, x3), Xor(s.s1, x2), Xor(x2, Shl(s.s1, 17)), RotateLeft(x3, 45))
  }

  /** Running backwards. */
  function Previous(s: State): State {
    var x3 := RotateLeft(s.s3, 19);
    var s0, s1 := Xor(s.s0, x3), UnmixUp(Xor(s.s1, s.s2), 17);
    State(s0, s1, Xor(Xor(s.s1, s1), s0), Xor(x3, s1))
  }

  class Xoshiro256StarStar {
    const state: array<Word>

    ghost predicate Valid() {
      state.Length == 4
    }

    function View(): State
      requires Valid()
      reads this, state
    {
      State(state[0], state[1], state[2], state[3])
    }

    constructor (seed: Word)
      ensures Valid() && fresh(state) && View() == Seeded(seed)
    {
      state := new Word[4];
      new;
      var z, s := SplitMix64(seed);
      state[0] := z;
      z, s := SplitMix64(s);
      state[1] := z;
      z, s := SplitMix64(s);
      state[2] := z;
      z, s := SplitMix64(s);
      state[3] := z;
    }

    /** `operator()` */
    method Generate() returns (result: Word)
      requires Valid()
      modifies state
      ensures View() == Next(old(View())) && result == Output(old(View()))
    {
      result := Times(RotateLeft(Times(state[1], 5), 7), 9);
      var t := Shl(state[1], 17);
      state[2] := Xor(state[2], state[0]);
      state[3] := Xor(state[3], state[1]);
      state[1] := Xor(state[1], state[2]);
      state[0] := Xor(state[0], state[3]);
      state[2] := Xor(state[2], t);
      state[3] := RotateLeft(state[3], 45);
    }
  }

  // ----- what is put out -----

  lemma SmallPowers()
    ensures Pow2(7) == 128 && Pow2(57) == 0x200_0000_0000_0000
  {
    assert Pow2(9) == 512;
    hide Pow2;
    Pow2Plus16(9);
    Pow2Plus16(25);
    Pow2Plus16(41);
    Pow2Plus4(3);
    EightIsPow2();
  }

  lemma EightIsPow2()
    ensures Pow2(3) == 8
  {}

  /** The output, in plain arithmetic modulo 2^64, from the second word alone. */
  lemma OutputIsArithmetic(s: State)
    ensures var x := 5 * s.s1 % 0x1_0000_0000_0000_0000;
            Output(s) == 9 * (128 * x + x / 0x200_0000_0000_0000) % 0x1_0000_0000_0000_0000
  {
    hide RotateLeft, Pow2;
    var x: Word := Times(s.s1, 5);
    RotateAdds(x, 7);
    SmallPowers();
    NineTimes(x, x / 0x200_0000_0000_0000);
  }

  lemma NineTimes(x: Word, high: nat)
    ensures 9 * (128 * x % 0x1_0000_0000_0000_0000 + high) % 0x1_0000_0000_0000_0000
         == 9 * (128 * x + high) % 0x1_0000_0000_0000_0000
  {
    var m := 0x1_0000_0000_0000_0000;
    var q, r := 128 * x / m, 9 * (128 * x % m + high) % m;
    assert 128 * x == 128 * x % m + m * q;
    ModShift(r, 9 * (128 * x % m + high) / m + 9 * q, 9 * (128 * x + high));
  }

  /** States give equal outputs exactly when their second words are equal. */
  lemma OutputTellsSecondWords(s: State, t: State)
    ensures Output(s) == Output(t) <==> s.s1 == t.s1
  {
    hide RotateLeft, Times;
    if Output(s) == Output(t) {
      var x, y := Times(s.s1, 5), Times(t.s1, 5);
      InverseFactors(RotateLeft(x, 7), 9, 0x8e38e38e38e38e39, 5);
      InverseFactors(RotateLeft(y, 7), 9, 0x8e38e38e38e38e39, 5);
      RotateBack(x, 7);
      RotateBack(y, 7);
      InverseFactors(s.s1, 5, 0xcccccccccccccccd, 4);
      InverseFactors(t.s1, 5, 0xcccccccccccccccd, 4);
    }
  }

  // ----- the step is a bijection -----

  /** p ^ q ^ q ^ r == p ^ r */
  lemma XorMiddle(p: Word, q: Word, r: Word)
    ensures Xor(Xor(p, q), Xor(q, r)) == Xor(p, r)
  {
    hide ToBits, Xor;
    BitsOfXor(p, q);
    BitsOfXor(q, r);
    BitsOfXor(Xor(p, q), Xor(q, r));
    BitsOfXor(p, r);
    assert XorBits(XorBits(ToBits(p), ToBits(q)), XorBits(ToBits(q), ToBits(r))) == XorBits(ToBits(p), ToBits(r));
    SameBits(Xor(Xor(p, q), Xor(q, r)), Xor(p, r));
  }

  lemma XorAssociates(p: Word, q: Word, r: Word)
    ensures Xor(Xor(p, q), r) == Xor(p, Xor(q, r))
  {
    hide ToBits, Xor;
    BitsOfXor(p, q);
    BitsOfXor(q, r);
    BitsOfXor(Xor(p, q), r);
    BitsOfXor(p, Xor(q, r));
    assert XorBits(XorBits(ToBits(p), ToBits(q)), ToBits(r)) == XorBits(ToBits(p), XorBits(ToBits(q), ToBits(r)));
    SameBits(Xor(Xor(p, q), r), Xor(p, Xor(q, r)));
  }

  lemma XorSwap(p: Word, q: Word)
    ensures Xor(p, q) == Xor(q, p)
  {
    assert XorBits(ToBits(p), ToBits(q)) == XorBits(ToBits(q), ToBits(p));
  }

  lemma PreviousUndoesNext(s: State)
    ensures Previous(Next(s)) == s
  {
    hide Xor, RotateLeft, Shl, UnmixUp;
    var x2, x3, t := Xor(s.s2, s.s0), Xor(s.s3, s.s1), Shl(s.s1, 17);
    RotateBack(x3, 45);
    XorTwice(s.s0, x3);
    XorMiddle(s.s1, x2, t);
    MixUpInvertible(s.s1, 17);
    XorTwice(x2, s.s1);
    XorTwice(s.s2, s.s0);
    XorTwice(s.s3, s.s1);
  }

  lemma NextUndoesPrevious(s: State)
    ensures Next(Previous(s)) == s
  {
    hide Xor, RotateLeft, Shl, UnmixUp;
    var u, x3 := Previous(s), RotateLeft(s.s3, 19);
    RotateBack(s.s3, 19);
    XorTwice(x3, u.s1);
    XorTwice(s.s0, x3);
    XorTwice(Xor(s.s1, u.s1), u.s0);
    assert Xor(u.s2, u.s0) == Xor(s.s1, u.s1);
    XorSwap(u.s1, Xor(s.s1, u.s1));
    XorTwice(s.s1, u.s1);
    MixUpInvertible(Xor(s.s1, s.s2), 17);
    XorAssociates(s.s1, u.s1, Shl(u.s1, 17));
    XorSwap(s.s1, Xor(s.s1, s.s2));
    XorTwice(s.s2, s.s1);
  }

  lemma NextInjective(s: State, t: State)
    requires Next(s) == Next(t)
    ensures s == t
  {
    hide *;
    PreviousUndoesNext(s);
    PreviousUndoesNext(t);
  }

  const ZERO := State(0, 0, 0, 0)

  lemma NextFixesZero()
    ensures Next(ZERO) == ZERO
  {
    hide Shl, RotateLeft, Xor;
    XorTwice(0, 0);
    assert Xor(0, 0) == 0 by {
      SelfXor(0);
    }
    ZeroShiftsToZero(17);
    ZeroRotatesToZero(45);
  }

  lemma SelfXor(x: Word)
    ensures Xor(x, x) == 0
  {
    hide ToBits, Xor;
    BitsOfXor(x, x);
    ZeroBits();
    SameBits(Xor(x, x), 0);
  }

  lemma ZeroBits()
    ensures forall i | 0 <= i < 64 :: !ToBits(0)[i]
  {
    SmallHasNoHighDigits(0, 0, 64);
  }

  lemma ZeroShiftsToZero(k: nat)
    ensures Shl(0, k) == 0
  {
    hide ToBits, Shl;
    ZeroBits();
    BitsOfShl(0, k);
    SameBits(Shl(0, k), 0);
  }

  lemma ZeroRotatesToZero(k: nat)
    requires 0 < k < 64
    ensures RotateLeft(0, k) == 0
  {
    hide ToBits, RotateLeft;
    ZeroBits();
    BitsOfRotate(0, k);
    SameBits(RotateLeft(0, k), 0);
  }

  // ----- orbits -----

  function After(steps: nat, s: State): State {
    if steps == 0 then s else Next(After(steps - 1, s))
  }

  lemma {:induction false} AfterInjective(steps: nat, s: State, t: State)
    requires After(steps, s) == After(steps, t)
    ensures s == t
  {
    hide Next;
    if steps > 0 {
      NextInjective(After(steps - 1, s), After(steps - 1, t));
      AfterInjective(steps - 1, s, t);
    }
  }

  lemma {:induction false} ZeroStaysZero(steps: nat)
    ensures After(steps, ZERO) == ZERO
  {
    hide Next;
    NextFixesZero();
    if steps > 0 {
      ZeroStaysZero(steps - 1);
    }
  }

  lemma ScrambleDistinct(x: Word, y: Word)
    ensures Scramble(x) == Scramble(y) <==> x == y
  {
    hide Scramble;
    if Scramble(x) == Scramble(y) {
      ScrambleInjective(x, y);
    }
  }

  lemma GammaStepsDiffer(a: Word)
    ensures var b := Plus(a, GOLDEN_GAMMA);
            var c := Plus(b, GOLDEN_GAMMA);
            a != b && a != c && a != Plus(c, GOLDEN_GAMMA)
  {
    hide Plus;
    var b := Plus(a, GOLDEN_GAMMA);
    PlusWraps(a);
    PlusWraps(b);
    PlusWraps(Plus(b, GOLDEN_GAMMA));
  }

  lemma PlusWraps(x: Word)
    ensures var sum := x + GOLDEN_GAMMA;
            var m := 0x1_0000_0000_0000_0000;
            Plus(x, GOLDEN_GAMMA) == if sum < m then sum else sum - m
  {}

  /** Different seeds give different first words; the four words of one seed all differ. */
  lemma SeedingIsInjective(seed: Word, other: Word)
    ensures Seeded(seed) == Seeded(other) <==> seed == other
    ensures var s := Seeded(seed);
            s.s0 != s.s1 && s.s0 != s.s2 && s.s0 != s.s3 && s.s1 != s.s2 && s.s1 != s.s3 && s.s2 != s.s3
  {
    hide Scramble, Plus;
    var a, a' := Plus(seed, GOLDEN_GAMMA), Plus(other, GOLDEN_GAMMA);
    var b := Plus(a, GOLDEN_GAMMA);
    var c := Plus(b, GOLDEN_GAMMA);
    var d := Plus(c, GOLDEN_GAMMA);
    PlusInjective(seed, other);
    ScrambleDistinct(a, a');
    GammaStepsDiffer(a);
    GammaStepsDiffer(b);
    GammaStepsDiffer(c);
    ScrambleDistinct(a, b);
    ScrambleDistinct(a, c);
    ScrambleDistinct(a, d);
    ScrambleDistinct(b, c);
    ScrambleDistinct(b, d);
    ScrambleDistinct(c, d);
  }

  lemma PlusInjective(x: Word, y: Word)
    ensures Plus(x, GOLDEN_GAMMA) == Plus(y, GOLDEN_GAMMA) <==> x == y
  {
    hide Plus;
    PlusWraps(x);
    PlusWraps(y);
  }

  /** From every seed, after any number of steps, the state is never the all-zero fixed point. */
  lemma NeverStuckAtZero(seed: Word, steps: nat)
    ensures After(steps, Seeded(seed)) != ZERO
  {
    hide After, Seeded;
    if After(steps, Seeded(seed)) == ZERO {
      ZeroStaysZero(steps);
      AfterInjective(steps, Seeded(seed), ZERO);
      SeedingIsInjective(seed, seed);
    }
  }

  /** Generators with different seeds never share a state at the same step. */
  lemma DifferentSeedsNeverMeet(seed: Word, other: Word, steps: nat)
    ensures After(steps, Seeded(seed)) == After(steps, Seeded(other)) <==> seed == other
  {
    hide After, Seeded;
    if After(steps, Seeded(seed)) == After(steps, Seeded(other)) {
      AfterInjective(steps, Seeded(seed), Seeded(other));
      SeedingIsInjective(seed, other);
    }
  }
}
