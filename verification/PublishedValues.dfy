/** Values published for the algorithms the engine uses, and its constants as they reach the wire. */
module PublishedValues {
  import opened Words
  import opened Hexadecimal
  import opened FnvHash
  import opened Labels
  import opened Decimal
  import opened ServiceNodes
  import opened Xoshiro256

  // ----- FNV-1a -----

  lemma HashOfNothing()
    ensures HashOf([]) == 0xcbf29ce484222325
  {}

  /** The hash of the one letter "a". */
  lemma HashOfLetter()
    ensures HashOf([97]) == 0xaf63dc4c8601ec8c
  {
    hide Xor;
    BasisXorLetter();
    assert [97][1..] == [];
    assert Absorb(FNV_OFFSET_BASIS, 97) == 0xaf63dc4c8601ec8c;
    assert Fold(FNV_OFFSET_BASIS, [97]) == Fold(0xaf63dc4c8601ec8c, []);
  }

  // ----- text -----

  /** "a#0" and "a#149", in ASCII. */
  lemma LabelsInAscii()
    ensures Label([97], 0) == [97, 35, 48]
    ensures Label([97], 149) == [97, 35, 49, 52, 57]
  {
    assert Digits(149) == [1, 4, 9];
  }

  /** "127.0.0.1", in ASCII. */
  lemma LoopbackInAscii()
    ensures Dotted(127, 0, 0, 1) == [49, 50, 55, 46, 48, 46, 48, 46, 49]
  {
    assert Digits(127) == [1, 2, 7];
  }

  // ----- SplitMix64 -----

  lemma Pow2Values()
    ensures Pow2(17) == 0x2_0000 && Pow2(19) == 0x8_0000 && Pow2(45) == 0x2000_0000_0000
    ensures Pow2(27) == 0x800_0000 && Pow2(30) == 0x4000_0000 && Pow2(31) == 0x8000_0000
  {
    assert Pow2(1) == 2 && Pow2(3) == 8 && Pow2(11) == 0x800;
    assert Pow2(13) == 0x2000 && Pow2(14) == 0x4000 && Pow2(15) == 0x8000;
    hide Pow2;
    Pow2Plus16(1);
    Pow2Plus16(3);
    Pow2Plus16(11);
    Pow2Plus16(13);
    Pow2Plus16(14);
    Pow2Plus16(15);
    Pow2Plus16(29);
  }

  lemma MixIs(z: Word, k: nat, high: Word)
    requires k <= 64 && Pow2(k) > 0 && z / Pow2(k) == high
    ensures MixDown(z, k) == Xor(z, high)
  {
    hide Xor, Shr;
    ShrDivides(z, k);
  }

  /** The first output of SplitMix64 for the seed 1234567. */
  lemma SplitMixOutput()
    ensures Plus(1234567, GOLDEN_GAMMA) == 0x9e3779b97f5d529c
    ensures Scramble(0x9e3779b97f5d529c) == 6457827717110365317
    ensures Seeded(1234567).s0 == 6457827717110365317
  {
    hide MixDown, Xor, Pow2;
    Pow2Values();
    MixIs(0x9e3779b97f5d529c, 30, 0x278dde6e5);
    FirstXor();
    assert Times(0x9e3779bb0780b479, 0xbf58476d1ce4e5b9) == 0x9d26ec18536a871;
    MixIs(0x9d26ec18536a871, 27, 0x13a4dd830);
    SecondXor();
    assert Times(0x9d26ec0bf7b7041, 0x94d049bb133111eb) == 0x599ed01748355cab;
    MixIs(0x599ed01748355cab, 31, 0xb33da02e);
    ThirdXor();
  }

  /** The four words of a seed are the outputs of SplitMix64 at its first four states. */
  lemma SeededWords(seed: Word)
    ensures Seeded(seed) == State(Scramble((seed + 0x9e3779b97f4a7c15) % 0x1_0000_0000_0000_0000),
                                  Scramble((seed + 2 * 0x9e3779b97f4a7c15) % 0x1_0000_0000_0000_0000),
                                  Scramble((seed + 3 * 0x9e3779b97f4a7c15) % 0x1_0000_0000_0000_0000),
                                  Scramble((seed + 4 * 0x9e3779b97f4a7c15) % 0x1_0000_0000_0000_0000))
  {
    hide Scramble, Plus;
    var gamma := 0x9e3779b97f4a7c15;
    PlusAgain(seed, gamma);
    PlusAgain(seed + gamma, gamma);
    PlusAgain(seed + 2 * gamma, gamma);
    PlusAgain(seed + 3 * gamma, gamma);
  }

  lemma PlusAgain(x: nat, y: nat)
    ensures Plus(x % 0x1_0000_0000_0000_0000, y) == (x + y) % 0x1_0000_0000_0000_0000
  {
    var m := 0x1_0000_0000_0000_0000;
    var sum := x % m + y;
    ModShift(sum % m, sum / m + x / m, x + y);
  }

  // ----- xoshiro256** -----

  /** The first two outputs from the state 1, 2, 3, 4, and the state in between. */
  lemma XoshiroOutputs()
    ensures Output(State(1, 2, 3, 4)) == 11520
    ensures Next(State(1, 2, 3, 4)) == State(7, 0, 0x4_0002, 0xc000_0000_0000)
    ensures Output(State(7, 0, 0x4_0002, 0xc000_0000_0000)) == 0
  {
    hide Xor, Shl, RotateLeft, Output, Pow2;
    OutputIsArithmetic(State(1, 2, 3, 4));
    OutputIsArithmetic(State(7, 0, 0x4_0002, 0xc000_0000_0000));
    Pow2Values();
    XorSmall(3, 1);
    XorSmall(4, 2);
    XorSmall(1, 6);
    XorSmall(2, 2);
    assert XorDigit(3, 1) == 2 && XorDigit(4, 2) == 6 && XorDigit(1, 6) == 7 && XorDigit(2, 2) == 0;
    hide XorDigit;
    ShlMultiplies(2, 17);
    XorApart(2, 4);
    RotateAdds(6, 45);
  }
}
