/**
 * What the consistent hash ring is for, stated without a ring: among the points of the
 * healthy services, the one met first going clockwise from the key wins.
 */
module HashRing {
  import opened Words
  import opened FnvHash
  import opened Labels

  /** How far clockwise from `k` the point `h` lies: (h - k) modulo 2^64. */
  function Clockwise(k: Word, h: Word): Word {
    if k <= h then h - k else h - k + 0x1_0000_0000_0000_0000
  }

  lemma ClockwiseIsModular(k: Word, h: Word)
    ensures Clockwise(k, h) == (h - k) % 0x1_0000_0000_0000_0000
  {}

  /** No two labels of the named services share a point. */
  ghost predicate CollisionFree(names: set<Bytes>) {
    forall m, v: nat, n, w: nat |
      m in names && n in names && v < VNODES_PER_SERVICE && w < VNODES_PER_SERVICE
      && Point(m, v) == Point(n, w) :: m == n && v == w
  }

  /** The v-th point of `n` is at least as close to `k` as every point of every name. */
  ghost predicate Leads(names: set<Bytes>, k: Word, n: Bytes, v: nat) {
    forall m, w: nat | m in names && w < VNODES_PER_SERVICE ::
      Clockwise(k, Point(n, v)) <= Clockwise(k, Point(m, w))
  }

  /** `n` owns the point closest to `k`. */
  ghost predicate Wins(names: set<Bytes>, k: Word, n: Bytes) {
    n in names && exists v: nat | v < VNODES_PER_SERVICE :: Leads(names, k, n, v)
  }

  lemma ClockwiseInjective(k: Word, g: Word, h: Word)
    requires Clockwise(k, g) == Clockwise(k, h)
    ensures g == h
  {}

  /** The key and the set of healthy names determine the service: there is one winner. */
  lemma WinnerUnique(names: set<Bytes>, k: Word, m: Bytes, n: Bytes)
    requires CollisionFree(names) && Wins(names, k, m) && Wins(names, k, n)
    ensures m == n
  {
    hide Clockwise, Point;
    var v: nat :| v < VNODES_PER_SERVICE && Leads(names, k, m, v);
    var w: nat :| w < VNODES_PER_SERVICE && Leads(names, k, n, w);
    ClockwiseInjective(k, Point(m, v), Point(n, w));
  }

  /** A winner keeps winning when other names leave. */
  lemma WinnerAmongFewer(names: set<Bytes>, fewer: set<Bytes>, k: Word, n: Bytes)
    requires fewer <= names && n in fewer && Wins(names, k, n)
    ensures Wins(fewer, k, n)
  {
    hide Clockwise, Point;
    var v: nat :| v < VNODES_PER_SERVICE && Leads(names, k, n, v);
    assert Leads(fewer, k, n, v);
  }

  /**
   * Whatever set of services goes down and whatever set comes up: a key changes service only
   * if its old service went down or its new service came up.
   */
  lemma MovesOnlyForCause(before: set<Bytes>, after: set<Bytes>, k: Word, m: Bytes, n: Bytes)
    requires CollisionFree(before)
    requires Wins(before, k, m) && Wins(after, k, n)
    ensures m == n || m !in after || n !in before
  {
    if m in after && n in before {
      WinnerAmongFewer(before, before * after, k, m);
      WinnerAmongFewer(after, before * after, k, n);
      WinnerUnique(before * after, k, m, n);
    }
  }

  /** One service going down moves exactly its own keys. */
  lemma DownMovesOnlyItsKeys(names: set<Bytes>, down: Bytes, k: Word, m: Bytes, n: Bytes)
    requires CollisionFree(names)
    requires Wins(names, k, m) && Wins(names - {down}, k, n)
    ensures m != n <==> m == down
  {
    MovesOnlyForCause(names, names - {down}, k, m, n);
  }

  /** One service coming up takes keys only for itself. */
  lemma UpTakesOnlyForItself(names: set<Bytes>, up: Bytes, k: Word, m: Bytes, n: Bytes)
    requires CollisionFree(names) && up !in names
    requires Wins(names, k, m) && Wins(names + {up}, k, n)
    ensures m != n <==> n == up
  {
    MovesOnlyForCause(names, names + {up}, k, m, n);
  }

  /** A service that goes down and comes back leaves every key where it was. */
  lemma DownThenUpRestores(names: set<Bytes>, service: Bytes, k: Word, m: Bytes, n: Bytes)
    requires CollisionFree(names) && service in names
    requires Wins(names, k, m) && Wins((names - {service}) + {service}, k, n)
    ensures m == n
  {
    hide CollisionFree, Wins;
    assert (names - {service}) + {service} == names;
    WinnerUnique(names, k, m, n);
  }

  /**
   * Over any history of health changes: a key whose service stays up, and which no newly
   * risen service wins, stays where it was at the start.
   */
  lemma {:induction false} StaysThroughHistory(history: seq<set<Bytes>>, k: Word, winners: seq<Bytes>)
    requires 0 < |history| == |winners|
    requires forall i | 0 <= i < |history| :: CollisionFree(history[i]) && Wins(history[i], k, winners[i])
    requires forall i | 0 <= i < |history| - 1 ::
               winners[i] in history[i + 1] && winners[i + 1] in history[i]
    ensures forall i | 0 <= i < |history| :: winners[i] == winners[0]
  {
    hide CollisionFree, Wins;
    if |history| > 1 {
      var last := |history| - 1;
      StaysThroughHistory(history[..last], k, winners[..last]);
      assert forall i | 0 <= i < last :: winners[i] == winners[..last][i];
      MovesOnlyForCause(history[last - 1], history[last], k, winners[last - 1], winners[last]);
    }
  }
}
