/** The ring itself (core/routing/ConsistentHashStrategy.cpp): built, sorted, checked, searched and walked. */
module ConsistentHash {
  import opened Outcomes
  import opened Words
  import opened Sums
  import opened FnvHash
  import opened Labels
  import opened HashRing
  import opened ServicePools
  import opened Routing

  /** A virtual node: its point, and the index of the service that owns it. */
  datatype VNode = VNode(hash: Word, owner: nat)

  type Ring = seq<VNode>

  // ----- filling -----

  /** The virtual nodes in the order the constructor appends them. */
  function AllVNodes(names: seq<Bytes>): (ring: Ring) {
    seq(VNODES_PER_SERVICE * |names|, j requires 0 <= j < VNODES_PER_SERVICE * |names| =>
      VNode(Point(names[j / VNODES_PER_SERVICE], j % VNODES_PER_SERVICE), j / VNODES_PER_SERVICE))
  }

  method Fill(pool: ServicePool) returns (ring: Ring)
    ensures ring == AllVNodes(pool.Names())
  {
    hide Label, HashOf;
    ghost var all := AllVNodes(pool.Names());
    ring := [];
    for i := 0 to |pool.services|
      invariant ring == all[..VNODES_PER_SERVICE * i]
    {
      var name := pool.services[i].node.name;
      for v := 0 to VNODES_PER_SERVICE
        invariant ring == all[..VNODES_PER_SERVICE * i + v]
      {
        var hash := Hash64(Label(name, v));
        assert all[VNODES_PER_SERVICE * i + v] == VNode(Point(name, v), i);
        ring := ring + [VNode(hash, i)];
      }
    }
  }

  // ----- sorting -----

  ghost predicate Sorted(ring: Ring) {
    forall i, j | 0 <= i < j < |ring| :: ring[i].hash <= ring[j].hash
  }

  ghost predicate StrictlySorted(ring: Ring) {
    forall i, j | 0 <= i < j < |ring| :: ring[i].hash < ring[j].hash
  }

  ghost predicate Permutation(r: Ring, s: Ring) {
    multiset(r) == multiset(s)
  }

  /** Inserts after the last virtual node whose hash does not exceed x's. */
  method InsertSorted(ring: Ring, x: VNode) returns (r: Ring)
    requires Sorted(ring)
    ensures Sorted(r) && Permutation(r, ring + [x])
  {
    var i := |ring|;
    while i > 0 && ring[i - 1].hash > x.hash
      invariant 0 <= i <= |ring|
      invariant forall j | i <= j < |ring| :: ring[j].hash > x.hash
    {
      i := i - 1;
    }
    InsertedBag(ring, i, x);
    r := ring[..i] + [x] + ring[i..];
  }

  /** The contract of `std::ranges::sort` by hash: a sorted rearrangement. */
  method SortByHash(ring: Ring) returns (sorted: Ring)
    ensures Sorted(sorted) && Permutation(sorted, ring)
  {
    sorted := [];
    for i := 0 to |ring|
      invariant Sorted(sorted) && Permutation(sorted, ring[..i])
    {
      assert ring[..i + 1] == ring[..i] + [ring[i]];
      sorted := InsertSorted(sorted, ring[i]);
    }
    assert ring[..|ring|] == ring;
  }

  // ----- collisions -----

  function Hashes(ring: Ring): (hashes: seq<Word>)
    ensures |hashes| == |ring|
    ensures forall i | 0 <= i < |ring| :: hashes[i] == ring[i].hash
  {
    if ring == [] then [] else Hashes(ring[..|ring| - 1]) + [ring[|ring| - 1].hash]
  }

  ghost predicate AllDistinct<T>(s: seq<T>) {
    forall i, j | 0 <= i < j < |s| :: s[i] != s[j]
  }

  lemma {:induction false} DistinctMeansCountOne<T>(s: seq<T>)
    ensures AllDistinct(s) <==> forall x | x in s :: multiset(s)[x] == 1
  {
    if s != [] {
      var front, last := s[..|s| - 1], s[|s| - 1];
      assert s == front + [last];
      DistinctMeansCountOne(front);
      assert forall x :: multiset(s)[x] == multiset(front)[x] + if x == last then 1 else 0;
      if AllDistinct(s) {
        assert last !in front;
      }
      if forall x | x in s :: multiset(s)[x] == 1 {
        assert last !in front;
        assert forall x | x in front :: x in s && x != last;
      }
    }
  }

  lemma RemoveAt<T>(s: seq<T>, i: nat)
    requires i < |s|
    ensures multiset(Removed(s, i)) == multiset(s) - multiset{s[i]}
  {
    assert s == s[..i] + [s[i]] + s[i + 1..];
  }

  lemma HashesWithout(ring: Ring, i: nat)
    requires i < |ring|
    ensures Hashes(Removed(ring, i)) == Removed(Hashes(ring), i)
  {}

  lemma RemoveFromRing(ring: Ring, i: nat)
    requires i < |ring|
    ensures multiset(Removed(ring, i)) == multiset(ring) - multiset{ring[i]}
    ensures multiset(Hashes(Removed(ring, i))) == multiset(Hashes(ring)) - multiset{ring[i].hash}
  {
    hide Hashes;
    RemoveAt(ring, i);
    RemoveAt(Hashes(ring), i);
    HashesWithout(ring, i);
  }

  lemma SameBagSameDistinctness<T>(s: seq<T>, t: seq<T>)
    requires multiset(s) == multiset(t)
    ensures AllDistinct(s) <==> AllDistinct(t)
  {
    DistinctMeansCountOne(s);
    DistinctMeansCountOne(t);
    assert forall x :: x in s <==> x in multiset(s);
    assert forall x :: x in t <==> x in multiset(t);
  }

  lemma RestoreBoth<T>(a: multiset<T>, b: multiset<T>, x: T)
    requires x in a && x in b && a - multiset{x} == b - multiset{x}
    ensures a == b
  {
    assert a == (a - multiset{x}) + multiset{x};
    assert b == (b - multiset{x}) + multiset{x};
  }

  lemma HashOccurs(ring: Ring, i: nat)
    requires i < |ring|
    ensures ring[i].hash in multiset(Hashes(ring))
  {
    assert Hashes(ring)[i] == ring[i].hash;
  }

  /** Rearranging the ring rearranges its hashes. */
  lemma {:induction false} PermutationOfHashes(r: Ring, s: Ring)
    requires Permutation(r, s)
    ensures multiset(Hashes(r)) == multiset(Hashes(s))
    decreases |r|
  {
    assert |r| == |multiset(r)| == |multiset(s)| == |s|;
    if r != [] {
      hide Hashes, Removed;
      assert r[0] in multiset(r);
      assert r[0] in s;
      var i :| 0 <= i < |s| && s[i] == r[0];
      RemoveFromRing(r, 0);
      RemoveFromRing(s, i);
      PermutationOfHashes(Removed(r, 0), Removed(s, i));
      HashOccurs(r, 0);
      HashOccurs(s, i);
      RestoreBoth(multiset(Hashes(r)), multiset(Hashes(s)), r[0].hash);
    }
  }

  lemma SortedDistinctIsStrict(ring: Ring)
    requires Sorted(ring)
    ensures StrictlySorted(ring) <==> AllDistinct(Hashes(ring))
  {
    if AllDistinct(Hashes(ring)) {
      forall i, j | 0 <= i < j < |ring|
        ensures ring[i].hash < ring[j].hash
      {
        assert Hashes(ring)[i] != Hashes(ring)[j];
      }
    }
  }

  /** The adjacent-pair scan: the first position whose hash equals its predecessor's, if any. */
  method FindCollision(ring: Ring) returns (collision: Option<nat>)
    requires Sorted(ring)
    ensures collision.None? <==> StrictlySorted(ring)
    ensures collision.Some? ==>
              && 0 < collision.value < |ring|
              && ring[collision.value - 1].hash == ring[collision.value].hash
              && StrictlySorted(ring[..collision.value])
  {
    if |ring| == 0 {
      return None;
    }
    for i := 1 to |ring|
      invariant StrictlySorted(ring[..i])
    {
      if ring[i].hash == ring[i - 1].hash {
        return Some(i);
      }
      assert forall j | 0 <= j < i :: ring[..i][j].hash <= ring[i - 1].hash;
    }
    assert ring[..|ring|] == ring;
    return None;
  }

  /** Sorting brings a collision to position i, and none before it. */
  ghost predicate CollidesAt(sorted: Ring, filled: Ring, i: nat) {
    && Sorted(sorted) && Permutation(sorted, filled)
    && 0 < i < |sorted| && sorted[i - 1].hash == sorted[i].hash
    && StrictlySorted(sorted[..i])
  }

  method SortAndCheck(filled: Ring) returns (sorted: Ring, collision: Option<nat>)
    ensures Permutation(sorted, filled)
    ensures collision.None? ==> StrictlySorted(sorted)
    ensures collision.None? <==> AllDistinct(Hashes(filled))
    ensures collision.Some? ==> CollidesAt(sorted, filled, collision.value)
  {
    sorted := SortByHash(filled);
    collision := FindCollision(sorted);
    PermutationOfHashes(sorted, filled);
    SortedDistinctIsStrict(sorted);
    SameBagSameDistinctness(Hashes(sorted), Hashes(filled));
  }

  // ----- searching -----

  /** The owner of the healthy virtual node met first going clockwise from `k`. */
  ghost predicate Nearest(ring: Ring, health: seq<bool>, k: Word, owner: nat)
    requires OwnersWithin(ring, |health|)
  {
    owner < |health| && health[owner]
    && exists j | 0 <= j < |ring| :: ring[j].owner == owner && FirstHealthy(ring, health, k, j)
  }

  ghost predicate FirstHealthy(ring: Ring, health: seq<bool>, k: Word, j: nat)
    requires OwnersWithin(ring, |health|) && j < |ring|
  {
    forall i | 0 <= i < |ring| && health[ring[i].owner] ::
      Clockwise(k, ring[j].hash) <= Clockwise(k, ring[i].hash)
  }

  ghost predicate OwnersWithin(ring: Ring, size: nat) {
    forall i | 0 <= i < |ring| :: ring[i].owner < size
  }

  ghost predicate SomeHealthy(ring: Ring, health: seq<bool>)
    requires OwnersWithin(ring, |health|)
  {
    exists i | 0 <= i < |ring| :: health[ring[i].owner]
  }

  /** `start` splits the ring into hashes below `k` and the rest. */
  ghost predicate IsLowerBound(ring: Ring, k: Word, start: nat) {
    && start <= |ring|
    && (forall i | 0 <= i < start :: ring[i].hash < k)
    && (forall i | start <= i < |ring| :: k <= ring[i].hash)
  }

  method LowerBound(ring: Ring, k: Word) returns (start: nat)
    requires Sorted(ring)
    ensures IsLowerBound(ring, k, start)
  {
    start := 0;
    var count := |ring|;
    while count > 0
      invariant 0 <= start <= start + count <= |ring|
      invariant forall i | 0 <= i < start :: ring[i].hash < k
      invariant forall i | start + count <= i < |ring| :: k <= ring[i].hash
    {
      var half := count / 2;
      if ring[start + half].hash < k {
        start, count := start + half + 1, count - half - 1;
      } else {
        count := half;
      }
    }
  }

  /** Where the walk stands after `walked` steps from `start`. */
  function WalkIndex(start: nat, walked: nat, size: nat): (idx: nat)
    requires 0 < size
    ensures idx < size
  {
    (start + walked) % size
  }

  lemma WalkWraps(start: nat, walked: nat, size: nat)
    requires start <= size && walked < size
    ensures WalkIndex(start, walked, size) == if start + walked < size then start + walked else start + walked - size
  {}

  /** A whole walk visits every position exactly once. */
  lemma WalkVisitsEachOnce(start: nat, size: nat, i: nat)
    requires start <= size && i < size
    ensures exists w: nat | w < size :: WalkIndex(start, w, size) == i
    ensures forall w: nat, x: nat | w < x < size :: WalkIndex(start, w, size) != WalkIndex(start, x, size)
  {
    var w := if start <= i then i - start else i - start + size;
    forall w: nat | w < size
      ensures WalkIndex(start, w, size) == if start + w < size then start + w else start + w - size
    {
      WalkWraps(start, w, size);
    }
    assert WalkIndex(start, w, size) == i;
  }

  /** From the lower bound on, the walk meets virtual nodes in clockwise order. */
  lemma WalkIsClockwise(ring: Ring, k: Word, start: nat, w: nat, x: nat)
    requires StrictlySorted(ring) && IsLowerBound(ring, k, start) && w <= x < |ring|
    ensures Clockwise(k, ring[WalkIndex(start, w, |ring|)].hash) <= Clockwise(k, ring[WalkIndex(start, x, |ring|)].hash)
  {
    WalkWraps(start, w, |ring|);
    WalkWraps(start, x, |ring|);
  }

  /** The first `walked` virtual nodes of the walk are all unhealthy. */
  ghost predicate WalkedPast(ring: Ring, health: seq<bool>, start: nat, walked: nat)
    requires OwnersWithin(ring, |health|) && ring != []
  {
    forall w: nat | w < walked :: !health[ring[WalkIndex(start, w, |ring|)].owner]
  }

  lemma WalkStopsAtNearest(ring: Ring, health: seq<bool>, k: Word, start: nat, walked: nat)
    requires StrictlySorted(ring) && OwnersWithin(ring, |health|) && IsLowerBound(ring, k, start)
    requires walked < |ring| && WalkedPast(ring, health, start, walked)
    requires health[ring[WalkIndex(start, walked, |ring|)].owner]
    ensures SomeHealthy(ring, health)
    ensures Nearest(ring, health, k, ring[WalkIndex(start, walked, |ring|)].owner)
  {
    hide WalkIndex, Clockwise;
    var idx := WalkIndex(start, walked, |ring|);
    forall i | 0 <= i < |ring| && health[ring[i].owner]
      ensures Clockwise(k, ring[idx].hash) <= Clockwise(k, ring[i].hash)
    {
      WalkVisitsEachOnce(start, |ring|, i);
      var w: nat :| w < |ring| && WalkIndex(start, w, |ring|) == i;
      WalkIsClockwise(ring, k, start, walked, w);
    }
    assert FirstHealthy(ring, health, k, idx);
  }

  lemma WalkMissesNone(ring: Ring, health: seq<bool>, start: nat)
    requires OwnersWithin(ring, |health|) && ring != [] && start <= |ring|
    requires WalkedPast(ring, health, start, |ring|)
    ensures !SomeHealthy(ring, health)
  {
    hide WalkIndex;
    forall i | 0 <= i < |ring|
      ensures !health[ring[i].owner]
    {
      WalkVisitsEachOnce(start, |ring|, i);
    }
  }

  // ----- the strategy -----

  /** What a lookup of key hash `k` returns: the nearest healthy owner, or why there is none. */
  ghost predicate Selects(ring: Ring, health: seq<bool>, k: Word, r: Result<nat, RoutingError>)
    requires |health| > 0 ==> OwnersWithin(ring, |health|)
  {
    && (r == Failure(PoolEmpty) <==> |health| == 0 || ring == [])
    && (r == Failure(NoHealthyServices) <==> |health| > 0 && ring != [] && !SomeHealthy(ring, health))
    && (r.Success? ==> |health| > 0 && Nearest(ring, health, k, r.value))
  }

  /** A collision-free ring for services of these names. */
  ghost predicate IsRingOf(ring: Ring, names: seq<Bytes>) {
    StrictlySorted(ring) && Permutation(ring, AllVNodes(names))
  }

  class ConsistentHashStrategy {
    const ring: Ring

    constructor (ring: Ring)
      ensures this.ring == ring
    {
      this.ring := ring;
    }

    /**
     * The constructor, which throws `HashCollisionError(i)` when the scan finds a collision:
     * it succeeds exactly when all label hashes are distinct.
     */
    static method Create(pool: ServicePool) returns (r: Result<ConsistentHashStrategy, nat>)
      ensures r.Success? <==> AllDistinct(Hashes(AllVNodes(pool.Names())))
      ensures r.Success? ==> fresh(r.value) && IsRingOf(r.value.ring, pool.Names())
      ensures r.Failure? ==> exists sorted :: CollidesAt(sorted, AllVNodes(pool.Names()), r.error)
    {
      var filled := Fill(pool);
      var sorted, collision := SortAndCheck(filled);
      match collision
      case Some(i) =>
        r := Failure(i);
      case None =>
        var strategy := new ConsistentHashStrategy(sorted);
        r := Success(strategy);
    }

    /** How many virtual nodes are skipped before a healthy owner is met, if one is. */
    method WalkToHealthy(pool: ServicePool, startIdx: nat) returns (steps: Option<nat>)
      requires ring != [] && OwnersWithin(ring, |pool.services|)
      ensures steps.None? ==> WalkedPast(ring, pool.Health(), startIdx, |ring|)
      ensures steps.Some? ==>
                && steps.value < |ring| && WalkedPast(ring, pool.Health(), startIdx, steps.value)
                && pool.Health()[ring[WalkIndex(startIdx, steps.value, |ring|)].owner]
    {
      hide WalkIndex;
      for walked := 0 to |ring|
        invariant WalkedPast(ring, pool.Health(), startIdx, walked)
      {
        var idx := WalkIndex(startIdx, walked, |ring|);
        if pool.services[ring[idx].owner].healthy {
          return Some(walked);
        }
      }
      return None;
    }

    method SelectService(pool: ServicePool, routingKey: Bytes) returns (r: Result<nat, RoutingError>)
      requires StrictlySorted(ring)
      requires |pool.services| > 0 ==> OwnersWithin(ring, |pool.services|)
      ensures Selects(ring, pool.Health(), HashOf(routingKey), r)
    {
      hide HashOf, Nearest, SomeHealthy, WalkedPast, WalkIndex;
      if |pool.services| == 0 || |ring| == 0 {
        return Failure(PoolEmpty);
      }
      var hash := Hash64(routingKey);
      var startIdx := LowerBound(ring, hash);
      var walked := WalkToHealthy(pool, startIdx);
      if walked.Some? {
        WalkStopsAtNearest(ring, pool.Health(), hash, startIdx, walked.value);
        return Success(ring[WalkIndex(startIdx, walked.value, |ring|)].owner);
      }
      WalkMissesNone(ring, pool.Health(), startIdx);
      return Failure(NoHealthyServices);
    }
  }

  // ----- what the ring decides -----

  /** The names of the healthy services. */
  ghost function HealthyNames(names: seq<Bytes>, health: seq<bool>): set<Bytes>
    requires |names| == |health|
  {
    set i | 0 <= i < |names| && health[i] :: names[i]
  }

  ghost function NameSet(names: seq<Bytes>): set<Bytes> {
    set i | 0 <= i < |names| :: names[i]
  }

  /** x is one of the 150 virtual nodes of its owner. */
  ghost predicate IsPointOfOwner(x: VNode, names: seq<Bytes>) {
    x.owner < |names| && exists v: nat | v < VNODES_PER_SERVICE :: x.hash == Point(names[x.owner], v)
  }

  /** The ring holds the 150 points of every service, and nothing else. */
  lemma RingContents(ring: Ring, names: seq<Bytes>)
    requires Permutation(ring, AllVNodes(names))
    ensures |ring| == 150 * |names| && OwnersWithin(ring, |names|)
    ensures forall j | 0 <= j < |ring| :: IsPointOfOwner(ring[j], names)
    ensures forall i, v: nat | 0 <= i < |names| && v < VNODES_PER_SERVICE ::
              VNode(Point(names[i], v), i) in ring
  {
    hide Point;
    var all := AllVNodes(names);
    assert |ring| == |multiset(ring)| == |multiset(all)| == |all|;
    forall j | 0 <= j < |ring|
      ensures IsPointOfOwner(ring[j], names)
    {
      assert ring[j] in multiset(ring);
      assert ring[j] in all;
      var a :| 0 <= a < |all| && all[a] == ring[j];
      assert ring[j].hash == Point(names[ring[j].owner], a % VNODES_PER_SERVICE);
    }
    forall i, v: nat | 0 <= i < |names| && v < VNODES_PER_SERVICE
      ensures VNode(Point(names[i], v), i) in ring
    {
      assert all[VNODES_PER_SERVICE * i + v] == VNode(Point(names[i], v), i);
      assert VNode(Point(names[i], v), i) in multiset(all);
    }
  }

  /** Lookup in the ring answers the question about points: the owner found is the winner. */
  lemma NearestIsWinner(ring: Ring, names: seq<Bytes>, health: seq<bool>, k: Word, owner: nat)
    requires Permutation(ring, AllVNodes(names)) && |names| == |health|
    requires OwnersWithin(ring, |health|)
    requires Nearest(ring, health, k, owner)
    ensures Wins(HealthyNames(names, health), k, names[owner])
  {
    hide Point, Clockwise, AllVNodes;
    RingContents(ring, names);
    var j :| 0 <= j < |ring| && ring[j].owner == owner && FirstHealthy(ring, health, k, j);
    assert IsPointOfOwner(ring[j], names);
    var v: nat :| v < VNODES_PER_SERVICE && ring[j].hash == Point(names[owner], v);
    forall m, w: nat | m in HealthyNames(names, health) && w < VNODES_PER_SERVICE
      ensures Clockwise(k, Point(names[owner], v)) <= Clockwise(k, Point(m, w))
    {
      var i :| 0 <= i < |names| && health[i] && names[i] == m;
      assert VNode(Point(names[i], w), i) in ring;
    }
    assert Leads(HealthyNames(names, health), k, names[owner], v);
  }

  lemma HashAt(names: seq<Bytes>, i: nat, v: nat)
    requires i < |names| && v < VNODES_PER_SERVICE
    ensures VNODES_PER_SERVICE * i + v < |Hashes(AllVNodes(names))|
    ensures Hashes(AllVNodes(names))[VNODES_PER_SERVICE * i + v] == Point(names[i], v)
  {
    hide Point;
    assert AllVNodes(names)[VNODES_PER_SERVICE * i + v] == VNode(Point(names[i], v), i);
  }

  lemma DistinctHashesGiveDistinctPoints(names: seq<Bytes>)
    requires AllDistinct(Hashes(AllVNodes(names)))
    ensures AllDistinct(names) && CollisionFree(NameSet(names))
  {
    hide Point, AllVNodes, Hashes;
    forall i, j | 0 <= i < j < |names|
      ensures names[i] != names[j]
    {
      HashAt(names, i, 0);
      HashAt(names, j, 0);
    }
    forall m, v: nat, n, w: nat |
      m in NameSet(names) && n in NameSet(names) && v < VNODES_PER_SERVICE && w < VNODES_PER_SERVICE
      && Point(m, v) == Point(n, w)
      ensures m == n && v == w
    {
      var i :| 0 <= i < |names| && names[i] == m;
      var j :| 0 <= j < |names| && names[j] == n;
      HashAt(names, i, v);
      HashAt(names, j, w);
      assert VNODES_PER_SERVICE * i + v == VNODES_PER_SERVICE * j + w;
    }
  }

  lemma DistinctPointsGiveDistinctHashes(names: seq<Bytes>)
    requires AllDistinct(names) && CollisionFree(NameSet(names))
    ensures AllDistinct(Hashes(AllVNodes(names)))
  {
    hide Point, Hashes;
    var hashes := Hashes(AllVNodes(names));
    assert |hashes| == VNODES_PER_SERVICE * |names|;
    forall a, b | 0 <= a < b < |hashes|
      ensures hashes[a] != hashes[b]
    {
      HashAt(names, a / VNODES_PER_SERVICE, a % VNODES_PER_SERVICE);
      HashAt(names, b / VNODES_PER_SERVICE, b % VNODES_PER_SERVICE);
    }
  }

  /** Construction succeeds exactly for distinct names none of whose points collide. */
  lemma DistinctHashesMeanCollisionFree(names: seq<Bytes>)
    ensures AllDistinct(Hashes(AllVNodes(names))) <==> AllDistinct(names) && CollisionFree(NameSet(names))
  {
    hide *;
    if AllDistinct(Hashes(AllVNodes(names))) {
      DistinctHashesGiveDistinctPoints(names);
    }
    if AllDistinct(names) && CollisionFree(NameSet(names)) {
      DistinctPointsGiveDistinctHashes(names);
    }
  }

  /** Two services of one name always make construction fail. */
  lemma EqualNamesCollide(names: seq<Bytes>, i: nat, j: nat)
    requires i < j < |names| && names[i] == names[j]
    ensures !AllDistinct(Hashes(AllVNodes(names)))
  {
    DistinctHashesMeanCollisionFree(names);
  }

  /**
   * Skipping unhealthy owners is as good as rebuilding: a ring built afresh from the healthy
   * services alone, listed in any order, builds without a collision and chooses the same name.
   */
  lemma SkippingEqualsRebuilding(
    ring: Ring, names: seq<Bytes>, health: seq<bool>, k: Word, owner: nat,
    rebuilt: Ring, survivors: seq<Bytes>, newOwner: nat)
    requires IsRingOf(ring, names) && |names| == |health|
    requires OwnersWithin(ring, |health|) && Nearest(ring, health, k, owner)
    requires AllDistinct(survivors) && NameSet(survivors) == HealthyNames(names, health)
    requires Permutation(rebuilt, AllVNodes(survivors)) && OwnersWithin(rebuilt, |survivors|)
    requires Nearest(rebuilt, AllUp(|survivors|), k, newOwner)
    ensures AllDistinct(Hashes(AllVNodes(survivors)))
    ensures survivors[newOwner] == names[owner]
  {
    hide Point, Clockwise, AllVNodes, Wins;
    SubsetBuilds(ring, names, health, survivors);
    NearestIsWinner(ring, names, health, k, owner);
    NearestIsWinner(rebuilt, survivors, AllUp(|survivors|), k, newOwner);
    assert HealthyNames(survivors, AllUp(|survivors|)) == NameSet(survivors);
    WinnerUnique(HealthyNames(names, health), k, names[owner], survivors[newOwner]);
  }

  /** And both lookups fail together: when no service is healthy, the rebuilt ring is empty. */
  lemma SkippingFailsLikeRebuilding(ring: Ring, names: seq<Bytes>, health: seq<bool>, survivors: seq<Bytes>)
    requires Permutation(ring, AllVNodes(names)) && |names| == |health|
    requires OwnersWithin(ring, |health|)
    requires NameSet(survivors) == HealthyNames(names, health)
    ensures !SomeHealthy(ring, health) <==> survivors == []
  {
    NoHealthyOwnerMeansNoneHealthy(ring, names, health);
    if survivors == [] {
      assert NameSet(survivors) == {};
      assert forall i: nat | i < |health| && health[i] :: names[i] in HealthyNames(names, health);
      assert HealthyIndices(health) == {};
    } else {
      assert survivors[0] in HealthyNames(names, health);
      var i :| 0 <= i < |names| && health[i] && names[i] == survivors[0];
      assert i in HealthyIndices(health);
    }
  }

  ghost function AllUp(size: nat): (health: seq<bool>)
    ensures |health| == size && forall i | 0 <= i < size :: health[i]
  {
    seq(size, i => true)
  }

  lemma SubsetBuilds(ring: Ring, names: seq<Bytes>, health: seq<bool>, survivors: seq<Bytes>)
    requires IsRingOf(ring, names) && |names| == |health|
    requires AllDistinct(survivors) && NameSet(survivors) == HealthyNames(names, health)
    ensures AllDistinct(Hashes(AllVNodes(survivors)))
    ensures CollisionFree(HealthyNames(names, health))
  {
    hide Point, AllVNodes;
    SortedDistinctIsStrict(ring);
    PermutationOfHashes(ring, AllVNodes(names));
    SameBagSameDistinctness(Hashes(ring), Hashes(AllVNodes(names)));
    DistinctHashesMeanCollisionFree(names);
    assert HealthyNames(names, health) <= NameSet(names);
    DistinctHashesMeanCollisionFree(survivors);
  }

  /** Every service owns a virtual node, so no healthy owner means no healthy service. */
  lemma NoHealthyOwnerMeansNoneHealthy(ring: Ring, names: seq<Bytes>, health: seq<bool>)
    requires Permutation(ring, AllVNodes(names)) && |names| == |health|
    requires OwnersWithin(ring, |health|)
    ensures ring == [] <==> names == []
    ensures !SomeHealthy(ring, health) <==> |HealthyIndices(health)| == 0
  {
    hide Point, AllVNodes;
    RingContents(ring, names);
    if names != [] {
      assert VNode(Point(names[0], 0), 0) in ring;
    }
    if !SomeHealthy(ring, health) {
      forall i: nat | i < |health|
        ensures !health[i]
      {
        assert VNode(Point(names[i], 0), i) in ring;
      }
      assert HealthyIndices(health) == {};
    } else {
      var i :| 0 <= i < |ring| && health[ring[i].owner];
      assert ring[i].owner in HealthyIndices(health);
    }
  }

  /** On the pool the ring was built from, a lookup fails exactly as the other strategy does. */
  lemma LookupAnswers(ring: Ring, names: seq<Bytes>, health: seq<bool>, k: Word, r: Result<nat, RoutingError>)
    requires IsRingOf(ring, names) && |names| == |health|
    requires |health| > 0 ==> OwnersWithin(ring, |health|)
    requires Selects(ring, health, k, r)
    ensures Answers(health, r)
  {
    hide AllVNodes, SomeHealthy;
    if |health| > 0 {
      NoHealthyOwnerMeansNoneHealthy(ring, names, health);
    }
  }
}
