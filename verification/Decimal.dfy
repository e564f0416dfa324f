/** Decimal notation without leading zeros, as `std::format("{}", n)` prints it. */
module Decimal {
  import opened Words

  predicate IsDigits(ds: seq<nat>) {
    forall i | 0 <= i < |ds| :: ds[i] < 10
  }

  function Digits(n: nat): (ds: seq<nat>)
    ensures 0 < |ds| && IsDigits(ds)
  {
    if n < 10 then [n] else Digits(n / 10) + [n % 10]
  }

  /** The number a digit sequence denotes. */
  function Value(ds: seq<nat>): nat {
    if ds == [] then 0 else 10 * Value(ds[..|ds| - 1]) + ds[|ds| - 1]
  }

  lemma {:induction false} ValueOfDigits(n: nat)
    ensures Value(Digits(n)) == n
  {
    if n < 10 {
      assert Digits(n)[..0] == [];
    } else {
      var ds := Digits(n / 10);
      assert (ds + [n % 10])[..|ds|] == ds;
      ValueOfDigits(n / 10);
    }
  }

  /** Equal notations denote equal numbers. */
  lemma DigitsInjective(m: nat, n: nat)
    requires Digits(m) == Digits(n)
    ensures m == n
  {
    ValueOfDigits(m);
    ValueOfDigits(n);
  }

  /** No leading zero, except in the notation of zero itself. */
  lemma {:induction false} NoLeadingZero(n: nat)
    ensures Digits(n)[0] == 0 <==> n == 0
  {
    if n >= 10 {
      NoLeadingZero(n / 10);
    }
  }

  lemma DigitCount(n: nat)
    requires n < 1000
    ensures |Digits(n)| == if n < 10 then 1 else if n < 100 then 2 else 3
  {
    if n >= 100 {
      assert |Digits(n / 10)| == |Digits(n / 10 / 10)| + 1;
    }
  }

  lemma {:induction false} ValueOfLeading(ds: seq<nat>)
    requires ds != [] && ds[0] != 0
    ensures Value(ds) > 0
  {
    if |ds| > 1 {
      ValueOfLeading(ds[..|ds| - 1]);
    }
  }

  /** A digit sequence without leading zeros is the notation of its value. */
  lemma {:induction false} DigitsOfValue(ds: seq<nat>)
    requires ds != [] && IsDigits(ds) && (|ds| > 1 ==> ds[0] != 0)
    ensures Digits(Value(ds)) == ds
  {
    var front, last := ds[..|ds| - 1], ds[|ds| - 1];
    assert ds == front + [last];
    if front == [] {
      assert Value(ds) == last;
    } else {
      DigitsOfValue(front);
      ValueOfLeading(front);
      assert Value(ds) / 10 == Value(front) && Value(ds) % 10 == last;
    }
  }

  // ----- as text -----

  const ZERO_SIGN: Byte := 48

  function DigitBytes(n: nat): (bs: seq<Byte>)
    ensures |bs| == |Digits(n)|
  {
    var ds := Digits(n);
    seq(|ds|, i requires 0 <= i < |ds| => ZERO_SIGN + ds[i])
  }

  lemma DigitBytesInjective(m: nat, n: nat)
    requires DigitBytes(m) == DigitBytes(n)
    ensures m == n
  {
    assert forall i | 0 <= i < |Digits(m)| :: DigitBytes(m)[i] - ZERO_SIGN == Digits(m)[i];
    assert forall i | 0 <= i < |Digits(n)| :: DigitBytes(n)[i] - ZERO_SIGN == Digits(n)[i];
    assert Digits(m) == Digits(n);
    DigitsInjective(m, n);
  }
}
