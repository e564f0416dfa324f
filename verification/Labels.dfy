/** The labels hashed onto the ring: `std::format("{}#{}", name, v)`. */
module Labels {
  import opened Words
  import opened FnvHash
  import opened Decimal

  const VNODES_PER_SERVICE: nat := 150
  const HASH_SIGN: Byte := 35

  function Label(name: Bytes, v: nat): Bytes {
    name + [HASH_SIGN] + DigitBytes(v)
  }

  /** Where a service's v-th virtual node sits on the ring. */
  function Point(name: Bytes, v: nat): Word {
    HashOf(Label(name, v))
  }

  lemma LastHashSign(name: Bytes, v: nat)
    ensures Label(name, v)[|name|] == HASH_SIGN
    ensures forall i | |name| < i < |Label(name, v)| :: Label(name, v)[i] != HASH_SIGN
  {
    assert forall i | |name| < i < |Label(name, v)| :: Label(name, v)[i] == DigitBytes(v)[i - |name| - 1];
  }

  /** The digits hold no '#', so a label is unambiguous even when names do. */
  lemma LabelInjective(m: Bytes, v: nat, n: Bytes, w: nat)
    requires Label(m, v) == Label(n, w)
    ensures m == n && v == w
  {
    LastHashSign(m, v);
    LastHashSign(n, w);
    assert |m| == |n|;
    assert m == Label(m, v)[..|m|] && n == Label(n, w)[..|n|];
    assert DigitBytes(v) == Label(m, v)[|m| + 1..] == DigitBytes(w);
    DigitBytesInjective(v, w);
  }

  /** Numbers that share all but their last two digits. */
  lemma LastTwoDigits(v: nat, w: nat)
    requires v / 100 == w / 100 && |Digits(v)| == |Digits(w)|
    ensures forall i | 0 <= i < |Digits(v)| - 2 :: Digits(v)[i] == Digits(w)[i]
  {
    if v >= 100 {
      assert v / 10 / 10 == v / 100 && w / 10 / 10 == w / 100;
      assert Digits(v) == Digits(v / 100) + [v / 10 % 10] + [v % 10];
      assert Digits(w) == Digits(w / 100) + [w / 10 % 10] + [w % 10];
    } else if v >= 10 {
      assert Digits(v / 10) == [v / 10];
    }
  }

  /** Two labels of one service whose numbers differ only in their last two digits never collide. */
  lemma NearbyLabelsNeverCollide(name: Bytes, v: nat, w: nat)
    requires v / 100 == w / 100 && |Digits(v)| == |Digits(w)|
    ensures Point(name, v) == Point(name, w) <==> v == w
  {
    LastTwoDigits(v, w);
    var s, t, len := Label(name, v), Label(name, w), |Digits(v)|;
    var i: nat := |name| + 1 + if len >= 2 then len - 2 else 0;
    forall j | 0 <= j < |s| && j != i && j != i + 1
      ensures s[j] == t[j]
    {
      if j > |name| {
        var d := j - |name| - 1;
        assert s[j] == DigitBytes(v)[d] && t[j] == DigitBytes(w)[d];
      }
    }
    assert DifferOnlyWithin(s, t, i);
    ShortDifferencesNeverCollide(s, t, i);
    if s == t {
      LabelInjective(name, v, name, w);
    }
  }

  /** The 150 labels of a service collide only across different digit counts, if at all. */
  lemma ServiceLabelsOfOneLengthNeverCollide(name: Bytes, v: nat, w: nat)
    requires v < VNODES_PER_SERVICE && w < VNODES_PER_SERVICE
    requires |Label(name, v)| == |Label(name, w)|
    ensures Point(name, v) == Point(name, w) <==> v == w
  {
    DigitCount(v);
    DigitCount(w);
    NearbyLabelsNeverCollide(name, v, w);
  }
}
