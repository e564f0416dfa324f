/** Weighted sums over sequences, for counting and for measures of work left, and inserting and removing elements. */
module Sums {

  function Sum<T>(s: seq<T>, weight: T -> nat): nat {
    if s == [] then 0 else weight(s[0]) + Sum(s[1..], weight)
  }

  function Removed<T>(s: seq<T>, i: nat): (r: seq<T>)
    requires i < |s|
    ensures |r| == |s| - 1
    ensures forall k | 0 <= k < |r| :: r[k] == s[if k < i then k else k + 1]
  {
    s[..i] + s[i + 1..]
  }

  lemma {:induction false} SumConcat<T>(a: seq<T>, b: seq<T>, weight: T -> nat)
    ensures Sum(a + b, weight) == Sum(a, weight) + Sum(b, weight)
  {
    if a == [] {
      assert a + b == b;
    } else {
      assert (a + b)[1..] == a[1..] + b;
      SumConcat(a[1..], b, weight);
    }
  }

  lemma SumAppend<T>(s: seq<T>, x: T, weight: T -> nat)
    ensures Sum(s + [x], weight) == Sum(s, weight) + weight(x)
  {
    SumConcat(s, [x], weight);
    assert [x][1..] == [];
  }

  lemma SumAround<T>(s: seq<T>, i: nat, weight: T -> nat)
    requires i < |s|
    ensures Sum(s, weight) == Sum(s[..i], weight) + weight(s[i]) + Sum(s[i + 1..], weight)
  {
    assert s == s[..i] + s[i..] && s[i..][1..] == s[i + 1..];
    SumConcat(s[..i], s[i..], weight);
  }

  lemma SumRemove<T>(s: seq<T>, i: nat, weight: T -> nat)
    requires i < |s|
    ensures Sum(Removed(s, i), weight) == Sum(s, weight) - weight(s[i])
  {
    SumAround(s, i, weight);
    SumConcat(s[..i], s[i + 1..], weight);
  }

  lemma SumUpdate<T>(s: seq<T>, i: nat, x: T, weight: T -> nat)
    requires i < |s|
    ensures Sum(s[i := x], weight) == Sum(s, weight) - weight(s[i]) + weight(x)
  {
    SumAround(s, i, weight);
    SumAround(s[i := x], i, weight);
    assert s[i := x][..i] == s[..i] && s[i := x][i + 1..] == s[i + 1..];
  }

  lemma SumTwo<T>(s: seq<T>, i: nat, j: nat, weight: T -> nat)
    requires i < |s| && j < |s| && i != j
    ensures weight(s[i]) + weight(s[j]) <= Sum(s, weight)
  {
    SumRemove(s, i, weight);
    var k := if j < i then j else j - 1;
    assert Removed(s, i)[k] == s[j];
    SumRemove(Removed(s, i), k, weight);
  }

  lemma SumOne<T>(s: seq<T>, i: nat, weight: T -> nat)
    requires i < |s|
    ensures weight(s[i]) <= Sum(s, weight)
  {
    SumRemove(s, i, weight);
  }

  lemma {:induction false} SumMonotone<T>(s: seq<T>, t: seq<T>, weight: T -> nat)
    requires |s| == |t| && forall i | 0 <= i < |s| :: weight(s[i]) <= weight(t[i])
    ensures Sum(s, weight) <= Sum(t, weight)
  {
    if s != [] {
      SumMonotone(s[1..], t[1..], weight);
    }
  }

  lemma {:induction false} SumDominated<T>(s: seq<T>, lesser: T -> nat, greater: T -> nat)
    requires forall x | x in s :: lesser(x) <= greater(x)
    ensures Sum(s, lesser) <= Sum(s, greater)
  {
    if s != [] {
      SumDominated(s[1..], lesser, greater);
    }
  }

  lemma {:induction false} SumZero<T>(s: seq<T>, weight: T -> nat)
    ensures Sum(s, weight) == 0 <==> forall i | 0 <= i < |s| :: weight(s[i]) == 0
  {
    if s != [] {
      SumZero(s[1..], weight);
      assert forall i | 0 < i < |s| :: s[i] == s[1..][i - 1];
      if Sum(s, weight) == 0 {
        assert Sum(s[1..], weight) == 0;
      }
      if forall i | 0 <= i < |s| :: weight(s[i]) == 0 {
        assert weight(s[0]) == 0;
      }
    }
  }

  lemma InsertedBag<T>(s: seq<T>, i: nat, x: T)
    requires i <= |s|
    ensures multiset(s[..i] + [x] + s[i..]) == multiset(s + [x])
  {
    assert s == s[..i] + s[i..];
  }
}
