/** The soft-404 tracker: greedy clustering of fingerprints with a list kept in order of count. */
module Simhash {
  import opened Fingerprints

  datatype Cluster = Cluster(centroid: Fingerprint, count: int)

  const MAX_CENTROIDS: nat := 5000

  // ---------- the loops of IsSoftFour, on values ----------

  predicate Near(c: Cluster, h: Fingerprint, threshold: int) {
    Distance(c.centroid, h) <= if threshold < 0 then 0 else threshold
  }

  /** The first cluster near the fingerprint from index i on, or the length of the list. */
  function FirstNear(cs: seq<Cluster>, h: Fingerprint, threshold: int, i: nat): (r: nat)
    requires i <= |cs|
    ensures i <= r <= |cs|
    ensures forall k :: i <= k < r ==> !Near(cs[k], h, threshold)
    ensures r < |cs| ==> Near(cs[r], h, threshold)
    decreases |cs| - i
  {
    if i == |cs| || Near(cs[i], h, threshold) then i else FirstNear(cs, h, threshold, i + 1)
  }

  /** Where the bubble-up of element i ends. */
  function Rises(cs: seq<Cluster>, i: nat): (r: nat)
    requires i < |cs|
    ensures r <= i
    ensures forall k :: r <= k < i ==> cs[k].count < cs[i].count
    ensures r > 0 ==> cs[r - 1].count >= cs[i].count
  {
    RisesFrom(cs, i, i)
  }

  function RisesFrom(cs: seq<Cluster>, i: nat, at: nat): (r: nat)
    requires at <= i < |cs|
    requires forall k :: at <= k < i ==> cs[k].count < cs[i].count
    ensures r <= at
    ensures forall k :: r <= k < i ==> cs[k].count < cs[i].count
    ensures r > 0 ==> cs[r - 1].count >= cs[i].count
  {
    if at > 0 && cs[i].count > cs[at - 1].count then RisesFrom(cs, i, at - 1) else at
  }

  /** Element i moved to position r, those between one place back. */
  function Moved(cs: seq<Cluster>, i: nat, r: nat): (m: seq<Cluster>)
    requires r <= i < |cs|
    ensures |m| == |cs|
  {
    cs[..r] + [cs[i]] + cs[r..i] + cs[i + 1..]
  }

  /** One swap of the bubble-up. */
  lemma MovedSwap(cs: seq<Cluster>, i: nat, r: nat)
    requires 0 < r <= i < |cs|
    ensures var m := Moved(cs, i, r);
            && m[r] == cs[i] && m[r - 1] == cs[r - 1]
            && m[r := m[r - 1]][r - 1 := m[r]] == Moved(cs, i, r - 1)
  {
  }

  function Hit(cs: seq<Cluster>, i: nat): seq<Cluster>
    requires i < |cs|
  {
    cs[i := cs[i].(count := cs[i].count + 1)]
  }

  /** One more response for cluster i, which bubbles up. */
  function Placed(cs: seq<Cluster>, i: nat): seq<Cluster>
    requires i < |cs|
  {
    Moved(Hit(cs, i), i, Rises(Hit(cs, i), i))
  }

  /** A new cluster, in place of the last when the list is full. */
  function Admit(cs: seq<Cluster>, h: Fingerprint): seq<Cluster> {
    if |cs| >= MAX_CENTROIDS then cs[|cs| - 1 := Cluster(h, 1)] else cs + [Cluster(h, 1)]
  }

  function Observe(cs: seq<Cluster>, h: Fingerprint, threshold: int, limit: int): seq<Cluster> {
    if limit <= 0 then cs
    else
      var i := FirstNear(cs, h, threshold, 0);
      if i < |cs| then Placed(cs, i) else Admit(cs, h)
  }

  predicate Verdict(cs: seq<Cluster>, h: Fingerprint, threshold: int, limit: int) {
    && limit > 0
    && var i := FirstNear(cs, h, threshold, 0);
       i < |cs| && cs[i].count + 1 >= limit
  }

  function Seed(cs: seq<Cluster>, h: Fingerprint, limit: int): seq<Cluster> {
    [Cluster(h, limit)] + cs
  }

  // ---------- the tracker object ----------

  class SimhashTracker {
    var clusters: seq<Cluster>
    var threshold: int
    var clusterLimit: int

    constructor (threshold: int, limit: int)
      ensures clusters == [] && this.threshold == threshold && clusterLimit == limit
    {
      clusters := [];
      this.threshold := threshold;
      clusterLimit := limit;
    }

    method Configure(threshold: int, limit: int)
      modifies this
      ensures this.threshold == threshold && clusterLimit == limit && clusters == old(clusters)
    {
      this.threshold := threshold;
      clusterLimit := limit;
    }

    method Clear()
      modifies this`clusters
      ensures clusters == []
    {
      clusters := [];
    }

    method SeedBaseline(h: Fingerprint)
      modifies this`clusters
      ensures clusters == Seed(old(clusters), h, clusterLimit)
    {
      clusters := [Cluster(h, clusterLimit)] + clusters;
    }

    /** The bubble-up loop, one swap at a time. */
    method BubbleUp(i: nat) returns (curr: nat)
      requires i < |clusters|
      modifies this`clusters
      ensures curr == Rises(old(clusters), i) && clusters == Moved(old(clusters), i, curr)
      ensures clusters[curr] == old(clusters)[i]
    {
      curr := i;
      ghost var cs := clusters;
      assert Moved(cs, i, i) == cs;
      while curr > 0 && clusters[curr].count > clusters[curr - 1].count
        invariant curr <= i < |clusters| && clusters == Moved(cs, i, curr)
        invariant forall k :: curr <= k < i ==> cs[k].count < cs[i].count
        invariant RisesFrom(cs, i, curr) == Rises(cs, i)
      {
        MovedSwap(cs, i, curr);
        clusters := clusters[curr := clusters[curr - 1]][curr - 1 := clusters[curr]];
        curr := curr - 1;
      }
      if curr > 0 {
        MovedSwap(cs, i, curr);
      }
    }

    method IsSoftFour(h: Fingerprint) returns (soft: bool)
      modifies this`clusters
      ensures clusters == Observe(old(clusters), h, threshold, clusterLimit)
      ensures soft == Verdict(old(clusters), h, threshold, clusterLimit)
    {
      var t := if threshold < 0 then 0 else threshold;
      if clusterLimit <= 0 {
        return false;
      }
      var i := 0;
      while i < |clusters|
        invariant 0 <= i <= |clusters| && clusters == old(clusters)
        invariant FirstNear(clusters, h, threshold, 0) == FirstNear(clusters, h, threshold, i)
      {
        if Distance(clusters[i].centroid, h) <= t {
          assert FirstNear(clusters, h, threshold, 0) == i;
          clusters := Hit(clusters, i);
          var curr := BubbleUp(i);
          assert clusters == Placed(old(clusters), i);
          return clusters[curr].count >= clusterLimit;
        }
        i := i + 1;
      }
      if |clusters| >= MAX_CENTROIDS {
        clusters := clusters[|clusters| - 1 := Cluster(h, 1)];
      } else {
        clusters := clusters + [Cluster(h, 1)];
      }
      return false;
    }
  }

  // ---------- verdict and list, counted in bits ----------

  /** The fingerprint differs from the centroid in no more bits than the threshold, which counts as zero when it is
      negative. */
  ghost predicate Within(c: Cluster, h: Fingerprint, threshold: int) {
    Differing(c.centroid, h) <= threshold || (threshold < 0 && c.centroid == h)
  }

  lemma NearIff(c: Cluster, h: Fingerprint, threshold: int)
    ensures Near(c, h, threshold) <==> Within(c, h, threshold)
  {
    DistanceCounts(c.centroid, h);
    DistanceZero(c.centroid, h);
  }

  ghost predicate FirstWithin(cs: seq<Cluster>, h: Fingerprint, threshold: int, i: nat) {
    i < |cs| && Within(cs[i], h, threshold) && forall k: nat :: k < i ==> !Within(cs[k], h, threshold)
  }

  lemma FirstIff(cs: seq<Cluster>, h: Fingerprint, threshold: int)
    ensures var r := FirstNear(cs, h, threshold, 0);
            if r < |cs| then FirstWithin(cs, h, threshold, r)
            else forall k :: 0 <= k < |cs| ==> !Within(cs[k], h, threshold)
  {
    forall k | 0 <= k < |cs| ensures Near(cs[k], h, threshold) <==> Within(cs[k], h, threshold) {
      NearIff(cs[k], h, threshold);
    }
  }

  /** A response is judged soft exactly when the first cluster within the threshold reaches the limit with it; a
      limit of zero or less switches the judgement off. */
  lemma SoftIff(cs: seq<Cluster>, h: Fingerprint, threshold: int, limit: int)
    ensures Verdict(cs, h, threshold, limit)
            <==> limit > 0 && exists i: nat :: FirstWithin(cs, h, threshold, i) && cs[i].count + 1 >= limit
  {
    FirstIff(cs, h, threshold);
  }

  /** The response is counted in that cluster, and nothing else changes but the order. */
  lemma ObserveCounts(cs: seq<Cluster>, h: Fingerprint, threshold: int, limit: int, i: nat)
    requires limit > 0 && FirstWithin(cs, h, threshold, i)
    ensures multiset(Observe(cs, h, threshold, limit)) == multiset(cs[i := Cluster(cs[i].centroid, cs[i].count + 1)])
  {
    FirstIs(cs, h, threshold, i);
    ObservePlaces(cs, h, threshold, limit);
    PlacedCounts(cs, i);
  }

  lemma FirstIs(cs: seq<Cluster>, h: Fingerprint, threshold: int, i: nat)
    requires FirstWithin(cs, h, threshold, i)
    ensures FirstNear(cs, h, threshold, 0) == i
  {
    FirstIff(cs, h, threshold);
  }

  lemma ObservePlaces(cs: seq<Cluster>, h: Fingerprint, threshold: int, limit: int)
    requires limit > 0 && FirstNear(cs, h, threshold, 0) < |cs|
    ensures Observe(cs, h, threshold, limit) == Placed(cs, FirstNear(cs, h, threshold, 0))
  {
  }

  /** Without such a cluster it founds one of its own at the end of the list, where it takes the place of the last when
      there are 5000; and without a limit nothing changes. */
  lemma ObserveFounds(cs: seq<Cluster>, h: Fingerprint, threshold: int, limit: int)
    requires limit > 0 ==> forall k :: 0 <= k < |cs| ==> !Within(cs[k], h, threshold)
    ensures Observe(cs, h, threshold, limit)
            == if limit <= 0 then cs else (if |cs| >= 5000 then cs[..|cs| - 1] else cs) + [Cluster(h, 1)]
  {
    FirstIff(cs, h, threshold);
    AdmitIs(cs, h);
  }

  lemma PlacedCounts(cs: seq<Cluster>, i: nat)
    requires i < |cs|
    ensures multiset(Placed(cs, i)) == multiset(cs[i := Cluster(cs[i].centroid, cs[i].count + 1)])
  {
    MovedSame(Hit(cs, i), i, Rises(Hit(cs, i), i));
  }

  lemma AdmitIs(cs: seq<Cluster>, h: Fingerprint)
    ensures Admit(cs, h) == (if |cs| >= 5000 then cs[..|cs| - 1] else cs) + [Cluster(h, 1)]
  {
  }

  lemma MovedSame(cs: seq<Cluster>, i: nat, r: nat)
    requires r <= i < |cs|
    ensures multiset(Moved(cs, i, r)) == multiset(cs)
  {
    assert cs == cs[..r] + cs[r..i] + [cs[i]] + cs[i + 1..];
  }

  // ---------- suppression ----------

  /** Some cluster near the fingerprint has reached the limit. */
  ghost predicate Suppressed(cs: seq<Cluster>, x: Fingerprint, threshold: int, limit: int) {
    exists i :: 0 <= i < |cs| && Near(cs[i], x, threshold) && cs[i].count >= limit
  }

  /** Clusters at or over the limit come before those under it; counts are positive. */
  ghost predicate Partitioned(cs: seq<Cluster>, limit: int) {
    && (forall i, j :: 0 <= i < j < |cs| && cs[j].count >= limit ==> cs[i].count >= limit)
    && (forall i :: 0 <= i < |cs| ==> cs[i].count >= 1)
  }

  ghost predicate Sorted(cs: seq<Cluster>) {
    && (forall i, j :: 0 <= i < j < |cs| ==> cs[i].count >= cs[j].count)
    && (forall i :: 0 <= i < |cs| ==> cs[i].count >= 1)
  }

  /** Where the elements of a moved list come from. */
  function Origin(i: nat, r: nat, k: nat): nat {
    if k == r then i else if r < k <= i then k - 1 else k
  }

  lemma MovedAt(cs: seq<Cluster>, i: nat, r: nat, k: nat)
    requires r <= i < |cs| && k < |cs|
    ensures Moved(cs, i, r)[k] == cs[Origin(i, r, k)]
  {
  }

  lemma MovedFrom(cs: seq<Cluster>, i: nat, r: nat, k: nat) returns (at: nat)
    requires r <= i < |cs| && k < |cs|
    ensures at < |cs| && Origin(i, r, at) == k && Moved(cs, i, r)[at] == cs[k]
  {
    at := if k == i then r else if r <= k < i then k + 1 else k;
    MovedAt(cs, i, r, at);
  }

  /** Partitioned, or sorted, but for element i, whose count just grew. */
  ghost predicate NearlyPartitioned(hit: seq<Cluster>, i: nat, limit: int) {
    forall a, b :: 0 <= a < b < |hit| && b != i && hit[b].count >= limit ==> hit[a].count >= limit
  }

  ghost predicate NearlySorted(hit: seq<Cluster>, i: nat) {
    forall a, b :: 0 <= a < b < |hit| && b != i ==> hit[a].count >= hit[b].count
  }

  ghost predicate Positive(cs: seq<Cluster>) {
    forall i :: 0 <= i < |cs| ==> cs[i].count >= 1
  }

  lemma MovedPositive(hit: seq<Cluster>, i: nat)
    requires i < |hit| && Positive(hit)
    ensures Positive(Moved(hit, i, Rises(hit, i)))
  {
    forall k | 0 <= k < |hit| ensures Moved(hit, i, Rises(hit, i))[k].count >= 1 {
      MovedAt(hit, i, Rises(hit, i), k);
    }
  }

  lemma MovedPartitions(hit: seq<Cluster>, i: nat, limit: int)
    requires i < |hit| && NearlyPartitioned(hit, i, limit) && Positive(hit)
    ensures Partitioned(Moved(hit, i, Rises(hit, i)), limit)
  {
    var r := Rises(hit, i);
    var m := Moved(hit, i, r);
    MovedPositive(hit, i);
    forall k, l | 0 <= k < l < |m| && m[l].count >= limit ensures m[k].count >= limit {
      MovedAt(hit, i, r, k);
      MovedAt(hit, i, r, l);
    }
  }

  lemma MovedSorts(hit: seq<Cluster>, i: nat)
    requires i < |hit| && NearlySorted(hit, i) && Positive(hit)
    ensures Sorted(Moved(hit, i, Rises(hit, i)))
  {
    var r := Rises(hit, i);
    var m := Moved(hit, i, r);
    MovedPositive(hit, i);
    forall k, l | 0 <= k < l < |m| ensures m[k].count >= m[l].count {
      MovedAt(hit, i, r, k);
      MovedAt(hit, i, r, l);
    }
  }

  lemma PlacedKeeps(cs: seq<Cluster>, i: nat, limit: int)
    requires i < |cs|
    ensures Partitioned(cs, limit) ==> Partitioned(Placed(cs, i), limit)
    ensures Sorted(cs) ==> Sorted(Placed(cs, i))
  {
    if Partitioned(cs, limit) {
      MovedPartitions(Hit(cs, i), i, limit);
    }
    if Sorted(cs) {
      MovedSorts(Hit(cs, i), i);
    }
  }

  lemma AdmitKeeps(cs: seq<Cluster>, h: Fingerprint, limit: int)
    ensures Partitioned(cs, limit) ==> Partitioned(Admit(cs, h), limit)
    ensures Sorted(cs) ==> Sorted(Admit(cs, h))
  {
  }

  lemma ObserveKeeps(cs: seq<Cluster>, h: Fingerprint, threshold: int, limit: int)
    ensures Partitioned(cs, limit) ==> Partitioned(Observe(cs, h, threshold, limit), limit)
    ensures Sorted(cs) ==> Sorted(Observe(cs, h, threshold, limit))
  {
    var i := FirstNear(cs, h, threshold, 0);
    if i < |cs| {
      PlacedKeeps(cs, i, limit);
    } else {
      AdmitKeeps(cs, h, limit);
    }
  }

  /** A seed keeps the list sorted exactly when no cluster has outgrown the limit, as is the case
      while only seeds have been entered. */
  lemma SeedSortsIff(cs: seq<Cluster>, h: Fingerprint, limit: int)
    requires Sorted(cs) && limit > 0
    ensures Sorted(Seed(cs, h, limit)) <==> cs == [] || cs[0].count <= limit
  {
    var t := Seed(cs, h, limit);
    assert t[0].count == limit && forall i :: 0 < i < |t| ==> t[i] == cs[i - 1];
    if cs != [] && cs[0].count > limit {
      assert t[1].count > t[0].count;
    }
  }

  lemma SeedPartitions(cs: seq<Cluster>, h: Fingerprint, limit: int)
    requires Partitioned(cs, limit) && limit > 0
    ensures Partitioned(Seed(cs, h, limit), limit)
  {
  }

  /** On a partitioned list the first near cluster decides: the verdict is positive for everything
      suppressed, and a positive verdict leaves its fingerprint suppressed. */
  lemma VerdictSound(cs: seq<Cluster>, h: Fingerprint, threshold: int, limit: int)
    requires limit > 0 && Partitioned(cs, limit)
    ensures Suppressed(cs, h, threshold, limit) ==> Verdict(cs, h, threshold, limit)
    ensures Verdict(cs, h, threshold, limit) ==> Suppressed(Observe(cs, h, threshold, limit), h, threshold, limit)
  {
    var i := FirstNear(cs, h, threshold, 0);
    if i < |cs| {
      var hit := Hit(cs, i);
      var at := MovedFrom(hit, i, Rises(hit, i), i);
      assert Near(hit[i], h, threshold);
    }
  }

  /** The one way a suppressed fingerprint is forgotten: a new cluster replaces the last of a full
      list, the last was the only cluster suppressing it, and the new one does not. */
  ghost predicate Evicts(cs: seq<Cluster>, h: Fingerprint, x: Fingerprint, threshold: int, limit: int) {
    && |cs| >= MAX_CENTROIDS && FirstNear(cs, h, threshold, 0) == |cs|
    && !Suppressed(cs[..|cs| - 1], x, threshold, limit)
    && !(limit <= 1 && Near(Cluster(h, 1), x, threshold))
  }

  lemma HitKeepsSuppressed(cs: seq<Cluster>, i: nat, x: Fingerprint, threshold: int, limit: int)
    requires i < |cs| && Suppressed(cs, x, threshold, limit)
    ensures Suppressed(Placed(cs, i), x, threshold, limit)
  {
    var k :| 0 <= k < |cs| && Near(cs[k], x, threshold) && cs[k].count >= limit;
    var hit := Hit(cs, i);
    assert Near(hit[k], x, threshold) && hit[k].count >= limit;
    var at := MovedFrom(hit, i, Rises(hit, i), k);
  }

  /** A suppressed fingerprint stays suppressed over an observation exactly when it is not evicted;
      with fewer than 5000 clusters it always does. */
  lemma SuppressionSurvivesIff(cs: seq<Cluster>, h: Fingerprint, x: Fingerprint, threshold: int, limit: int)
    requires limit > 0 && Suppressed(cs, x, threshold, limit)
    ensures Suppressed(Observe(cs, h, threshold, limit), x, threshold, limit) <==> !Evicts(cs, h, x, threshold, limit)
  {
    var i := FirstNear(cs, h, threshold, 0);
    var k :| 0 <= k < |cs| && Near(cs[k], x, threshold) && cs[k].count >= limit;
    if i < |cs| {
      HitKeepsSuppressed(cs, i, x, threshold, limit);
    } else if |cs| < MAX_CENTROIDS {
      assert (cs + [Cluster(h, 1)])[k] == cs[k];
    } else {
      ReplaceLast(cs, h, x, threshold, limit);
    }
  }

  lemma ReplaceLast(cs: seq<Cluster>, h: Fingerprint, x: Fingerprint, threshold: int, limit: int)
    requires cs != []
    ensures Suppressed(cs[|cs| - 1 := Cluster(h, 1)], x, threshold, limit) <==>
            Suppressed(cs[..|cs| - 1], x, threshold, limit) || (limit <= 1 && Near(Cluster(h, 1), x, threshold))
  {
    var last := |cs| - 1;
    var t := cs[last := Cluster(h, 1)];
    if Suppressed(t, x, threshold, limit) {
      var i :| 0 <= i < |t| && Near(t[i], x, threshold) && t[i].count >= limit;
      if i < last {
        assert cs[..last][i] == t[i];
      }
    }
    if Suppressed(cs[..last], x, threshold, limit) {
      var i :| 0 <= i < last && Near(cs[..last][i], x, threshold) && cs[..last][i].count >= limit;
      assert t[i] == cs[i];
    }
    if limit <= 1 && Near(Cluster(h, 1), x, threshold) {
      assert t[last] == Cluster(h, 1);
    }
  }

  lemma SeedSuppresses(cs: seq<Cluster>, h: Fingerprint, x: Fingerprint, threshold: int, limit: int)
    ensures Near(Cluster(h, limit), x, threshold) || Suppressed(cs, x, threshold, limit) ==>
              Suppressed(Seed(cs, h, limit), x, threshold, limit)
  {
    var t := Seed(cs, h, limit);
    assert t[0] == Cluster(h, limit);
    if Suppressed(cs, x, threshold, limit) {
      var k :| 0 <= k < |cs| && Near(cs[k], x, threshold) && cs[k].count >= limit;
      assert t[k + 1] == cs[k];
    }
  }

  // ---------- runs with fixed settings ----------

  datatype Event = Seeded(h: Fingerprint) | Observed(h: Fingerprint)

  function Next(cs: seq<Cluster>, e: Event, threshold: int, limit: int): seq<Cluster> {
    if e.Seeded? then Seed(cs, e.h, limit) else Observe(cs, e.h, threshold, limit)
  }

  function After(cs: seq<Cluster>, events: seq<Event>, threshold: int, limit: int): seq<Cluster>
    decreases |events|
  {
    if events == [] then cs else After(Next(cs, events[0], threshold, limit), events[1..], threshold, limit)
  }

  /** The list has under 5000 clusters at every event of the run. */
  predicate Roomy(cs: seq<Cluster>, events: seq<Event>, threshold: int, limit: int)
    decreases |events|
  {
    events == [] ||
    (|cs| < MAX_CENTROIDS && Roomy(Next(cs, events[0], threshold, limit), events[1..], threshold, limit))
  }

  lemma {:induction false} AfterPartitioned(cs: seq<Cluster>, events: seq<Event>, threshold: int, limit: int)
    requires limit > 0 && Partitioned(cs, limit)
    ensures Partitioned(After(cs, events, threshold, limit), limit)
    decreases |events|
  {
    if events != [] {
      match events[0] {
        case Seeded(h) => SeedPartitions(cs, h, limit);
        case Observed(h) => ObserveKeeps(cs, h, threshold, limit);
      }
      AfterPartitioned(Next(cs, events[0], threshold, limit), events[1..], threshold, limit);
    }
  }

  lemma {:induction false} StaysSuppressed(cs: seq<Cluster>, events: seq<Event>, x: Fingerprint, threshold: int, limit: int)
    requires limit > 0 && Suppressed(cs, x, threshold, limit) && Roomy(cs, events, threshold, limit)
    ensures Suppressed(After(cs, events, threshold, limit), x, threshold, limit)
    decreases |events|
  {
    if events != [] {
      match events[0] {
        case Seeded(h) => SeedSuppresses(cs, h, x, threshold, limit);
        case Observed(h) => SuppressionSurvivesIff(cs, h, x, threshold, limit);
      }
      StaysSuppressed(Next(cs, events[0], threshold, limit), events[1..], x, threshold, limit);
    }
  }

  /** Suppression is stable, for seeds and observations in any order: a fingerprint once judged soft
      is judged soft at every later time of a run under 5000 clusters. */
  lemma OnceSoftAlwaysSoft(before: seq<Event>, x: Fingerprint, between: seq<Event>, threshold: int, limit: int)
    requires limit > 0 && Verdict(After([], before, threshold, limit), x, threshold, limit)
    requires Roomy(Observe(After([], before, threshold, limit), x, threshold, limit), between, threshold, limit)
    ensures Verdict(After(Observe(After([], before, threshold, limit), x, threshold, limit), between, threshold, limit),
                    x, threshold, limit)
  {
    var cs := After([], before, threshold, limit);
    var next := Observe(cs, x, threshold, limit);
    AfterPartitioned([], before, threshold, limit);
    VerdictSound(cs, x, threshold, limit);
    ObserveKeeps(cs, x, threshold, limit);
    StaysSuppressed(next, between, x, threshold, limit);
    AfterPartitioned(next, between, threshold, limit);
    VerdictSound(After(next, between, threshold, limit), x, threshold, limit);
  }

  /** Whatever is within the threshold of a seed is judged soft from the seeding on. */
  lemma SeedsAlwaysSuppress(before: seq<Event>, seed: Fingerprint, between: seq<Event>, x: Fingerprint, threshold: int, limit: int)
    requires limit > 0 && Near(Cluster(seed, limit), x, threshold)
    requires Roomy(Seed(After([], before, threshold, limit), seed, limit), between, threshold, limit)
    ensures Verdict(After(Seed(After([], before, threshold, limit), seed, limit), between, threshold, limit), x, threshold, limit)
  {
    var cs := After([], before, threshold, limit);
    var next := Seed(cs, seed, limit);
    AfterPartitioned([], before, threshold, limit);
    SeedPartitions(cs, seed, limit);
    SeedSuppresses(cs, seed, x, threshold, limit);
    StaysSuppressed(next, between, x, threshold, limit);
    AfterPartitioned(next, between, threshold, limit);
    VerdictSound(After(next, between, threshold, limit), x, threshold, limit);
  }

  // ---------- sortedness, seeds first ----------

  predicate SeedsFirst(events: seq<Event>) {
    forall i, j :: 0 <= i < j < |events| && events[j].Seeded? ==> events[i].Seeded?
  }

  lemma RestSeedsFirst(events: seq<Event>)
    requires events != [] && SeedsFirst(events)
    ensures SeedsFirst(events[1..])
    ensures |events| > 1 && events[1].Seeded? ==> events[0].Seeded?
  {
  }

  lemma {:induction false} SortedRun(cs: seq<Cluster>, events: seq<Event>, threshold: int, limit: int)
    requires limit > 0 && Sorted(cs) && SeedsFirst(events)
    requires events != [] && events[0].Seeded? ==> forall i :: 0 <= i < |cs| ==> cs[i].count == limit
    ensures Sorted(After(cs, events, threshold, limit))
    decreases |events|
  {
    if events != [] {
      var rest := events[1..];
      match events[0] {
        case Seeded(h) => SeedSortsIff(cs, h, limit);
        case Observed(h) => ObserveKeeps(cs, h, threshold, limit);
      }
      RestSeedsFirst(events);
      SortedRun(Next(cs, events[0], threshold, limit), rest, threshold, limit);
    }
  }

  // ---------- what each cluster lets through ----------

  /** The centroid of the cluster an observation is counted in. */
  function CountedIn(cs: seq<Cluster>, h: Fingerprint, threshold: int): Fingerprint {
    var i := FirstNear(cs, h, threshold, 0);
    if i < |cs| then cs[i].centroid else h
  }

  /** How many observations of a run are counted in the cluster at `c` and not judged soft. */
  function Passes(cs: seq<Cluster>, events: seq<Event>, c: Fingerprint, threshold: int, limit: int): nat
    decreases |events|
  {
    if events == [] then 0
    else
      var e := events[0];
      (if e.Observed? && CountedIn(cs, e.h, threshold) == c && !Verdict(cs, e.h, threshold, limit) then 1 else 0)
      + Passes(Next(cs, e, threshold, limit), events[1..], c, threshold, limit)
  }

  ghost predicate AtLimit(cs: seq<Cluster>, c: Fingerprint, limit: int) {
    exists x :: x in cs && x.centroid == c && x.count >= limit
  }

  /** No two clusters under the limit share a centroid. */
  ghost predicate OneLow(cs: seq<Cluster>, limit: int) {
    forall i, j :: 0 <= i < |cs| && 0 <= j < |cs| && i != j && cs[i].count < limit && cs[j].count < limit ==>
      cs[i].centroid != cs[j].centroid
  }

  function MaxPasses(limit: int): nat { if limit > 1 then limit - 1 else 1 }

  /** `n` covers what the cluster at `c` may still let through. */
  ghost predicate Covers(cs: seq<Cluster>, c: Fingerprint, limit: int, n: int) {
    || AtLimit(cs, c, limit)
    || ((forall x :: x in cs && x.centroid == c ==> n >= limit - 1 - x.count)
        && ((exists x :: x in cs && x.centroid == c) || n >= MaxPasses(limit)))
  }

  lemma PlacedMembers(cs: seq<Cluster>, i: nat, x: Cluster)
    requires i < |cs|
    ensures x in Placed(cs, i) <==> x in Hit(cs, i)
  {
    var hit := Hit(cs, i);
    var r := Rises(hit, i);
    if x in Placed(cs, i) {
      var k :| 0 <= k < |cs| && Placed(cs, i)[k] == x;
      MovedAt(hit, i, r, k);
    }
    if x in hit {
      var k :| 0 <= k < |cs| && hit[k] == x;
      var at := MovedFrom(hit, i, r, k);
    }
  }

  lemma PlacedOneLow(cs: seq<Cluster>, i: nat, limit: int)
    requires i < |cs| && OneLow(cs, limit)
    ensures OneLow(Placed(cs, i), limit)
  {
    var hit := Hit(cs, i);
    var r := Rises(hit, i);
    assert OneLow(hit, limit);
    forall k, l | 0 <= k < |cs| && 0 <= l < |cs| && k != l
                  && Placed(cs, i)[k].count < limit && Placed(cs, i)[l].count < limit
      ensures Placed(cs, i)[k].centroid != Placed(cs, i)[l].centroid
    {
      MovedAt(hit, i, r, k);
      MovedAt(hit, i, r, l);
    }
  }

  lemma NearSame(a: Cluster, b: Cluster, h: Fingerprint, threshold: int)
    requires a.centroid == b.centroid
    ensures Near(a, h, threshold) == Near(b, h, threshold)
    ensures Near(Cluster(h, 1), h, threshold)
  {
    DistanceZero(h, h);
  }

  lemma HitMembers(cs: seq<Cluster>, i: nat, x: Cluster)
    requires i < |cs|
    ensures x in Placed(cs, i) ==> x == Hit(cs, i)[i] || x in cs
    ensures x in cs && x != cs[i] ==> x in Placed(cs, i)
    ensures Hit(cs, i)[i] in Placed(cs, i)
  {
    var hit := Hit(cs, i);
    PlacedMembers(cs, i, x);
    PlacedMembers(cs, i, hit[i]);
    assert hit[i] in hit;
    if x in hit {
      var k :| 0 <= k < |cs| && hit[k] == x;
      assert k != i ==> cs[k] == x;
    }
    if x in cs && x != cs[i] {
      var k :| 0 <= k < |cs| && cs[k] == x;
      assert hit[k] == x;
    }
  }

  lemma AloneThere(cs: seq<Cluster>, i: nat, h: Fingerprint, threshold: int, limit: int)
    requires limit > 0 && i < |cs| && i == FirstNear(cs, h, threshold, 0)
    requires Partitioned(cs, limit) && OneLow(cs, limit) && cs[i].count < limit
    ensures forall k :: 0 <= k < |cs| && cs[k].centroid == cs[i].centroid ==> k == i
  {
    forall k | 0 <= k < |cs| && cs[k].centroid == cs[i].centroid ensures k == i {
      NearSame(cs[k], cs[i], h, threshold);
    }
  }

  /** A pass in the cluster at `c` uses up one of its allowance. */
  lemma PassCovers(cs: seq<Cluster>, i: nat, h: Fingerprint, threshold: int, limit: int, n: int)
    requires limit > 0 && i < |cs| && i == FirstNear(cs, h, threshold, 0)
    requires Partitioned(cs, limit) && OneLow(cs, limit) && Covers(cs, cs[i].centroid, limit, n)
    requires cs[i].count + 1 < limit
    ensures Covers(Placed(cs, i), cs[i].centroid, limit, n - 1) && n >= 1
  {
    var c := cs[i].centroid;
    AloneThere(cs, i, h, threshold, limit);
    assert !AtLimit(cs, c, limit);
    assert cs[i] in cs;
    assert n >= limit - 1 - cs[i].count;
    forall x | x in Placed(cs, i) && x.centroid == c ensures x == Hit(cs, i)[i] || x == cs[i] {
      HitMembers(cs, i, x);
    }
    HitGone(cs, i);
    HitMembers(cs, i, cs[i]);
  }

  /** The old cluster is no longer in the list, if no other has its centroid. */
  lemma HitGone(cs: seq<Cluster>, i: nat)
    requires i < |cs| && forall k :: 0 <= k < |cs| && cs[k].centroid == cs[i].centroid ==> k == i
    ensures cs[i] !in Placed(cs, i)
  {
    PlacedMembers(cs, i, cs[i]);
  }

  lemma HitCovers(cs: seq<Cluster>, i: nat, c: Fingerprint, limit: int, n: int)
    requires limit > 0 && i < |cs| && Covers(cs, c, limit, n)
    requires cs[i].centroid != c || cs[i].count + 1 >= limit
    ensures Covers(Placed(cs, i), c, limit, n)
  {
    forall x
      ensures x in Placed(cs, i) ==> x == Hit(cs, i)[i] || x in cs
      ensures x in cs && x != cs[i] ==> x in Placed(cs, i)
      ensures Hit(cs, i)[i] in Placed(cs, i)
    {
      HitMembers(cs, i, x);
    }
  }

  lemma NoneThere(cs: seq<Cluster>, h: Fingerprint, threshold: int)
    requires FirstNear(cs, h, threshold, 0) == |cs|
    ensures forall k :: 0 <= k < |cs| ==> cs[k].centroid != h
  {
    forall k | 0 <= k < |cs| ensures cs[k].centroid != h {
      if cs[k].centroid == h {
        NearSame(cs[k], Cluster(h, 1), h, threshold);
      }
    }
  }

  lemma AdmitOneLow(cs: seq<Cluster>, h: Fingerprint, threshold: int, limit: int)
    requires FirstNear(cs, h, threshold, 0) == |cs| < MAX_CENTROIDS && OneLow(cs, limit)
    ensures OneLow(Admit(cs, h), limit)
  {
    NoneThere(cs, h, threshold);
  }

  lemma AdmitMembers(cs: seq<Cluster>, h: Fingerprint, x: Cluster)
    requires |cs| < MAX_CENTROIDS
    ensures x in Admit(cs, h) <==> x in cs || x == Cluster(h, 1)
  {
    var t := cs + [Cluster(h, 1)];
    assert t[|cs|] == Cluster(h, 1);
    if x in cs {
      var k :| 0 <= k < |cs| && cs[k] == x;
      assert t[k] == x;
    }
  }

  lemma AdmitCovers(cs: seq<Cluster>, h: Fingerprint, c: Fingerprint, threshold: int, limit: int, n: int)
    requires limit > 0 && FirstNear(cs, h, threshold, 0) == |cs| < MAX_CENTROIDS && Covers(cs, c, limit, n)
    ensures Covers(Admit(cs, h), c, limit, if h == c then n - 1 else n) && (h == c ==> n >= 1)
  {
    var t := Admit(cs, h);
    NoneThere(cs, h, threshold);
    forall x ensures x in t <==> x in cs || x == Cluster(h, 1) { AdmitMembers(cs, h, x); }
    assert Cluster(h, 1) in t;
    assert h == c ==> forall x :: x in cs ==> x.centroid != c;
  }

  lemma SeedCovers(cs: seq<Cluster>, h: Fingerprint, c: Fingerprint, limit: int, n: int)
    requires OneLow(cs, limit) && Covers(cs, c, limit, n)
    ensures Covers(Seed(cs, h, limit), c, limit, n) && OneLow(Seed(cs, h, limit), limit)
  {
    var t := Seed(cs, h, limit);
    assert t[0] in t && forall x :: x in t <==> x in cs || x == Cluster(h, limit);
  }

  lemma {:induction false} PassesCovered(cs: seq<Cluster>, events: seq<Event>, c: Fingerprint, threshold: int, limit: int, n: nat)
    requires limit > 0 && Partitioned(cs, limit) && OneLow(cs, limit) && Covers(cs, c, limit, n)
    requires Roomy(cs, events, threshold, limit)
    ensures Passes(cs, events, c, threshold, limit) <= n
    decreases |events|
  {
    if events != [] {
      var next := Next(cs, events[0], threshold, limit);
      match events[0] {
        case Seeded(h) =>
          SeedCovers(cs, h, c, limit, n);
          SeedPartitions(cs, h, limit);
          PassesCovered(next, events[1..], c, threshold, limit, n);
        case Observed(h) =>
          ObserveKeeps(cs, h, threshold, limit);
          var i := FirstNear(cs, h, threshold, 0);
          if i < |cs| {
            if cs[i].centroid == c && cs[i].count + 1 < limit {
              PassCovers(cs, i, h, threshold, limit, n);
            } else {
              HitCovers(cs, i, c, limit, n);
            }
            PlacedOneLow(cs, i, limit);
          } else {
            AdmitCovers(cs, h, c, threshold, limit, n);
            AdmitOneLow(cs, h, threshold, limit);
          }
          var passed := CountedIn(cs, h, threshold) == c && !Verdict(cs, h, threshold, limit);
          PassesCovered(next, events[1..], c, threshold, limit, if passed then n - 1 else n);
      }
    }
  }

  lemma SeedOneLow(cs: seq<Cluster>, h: Fingerprint, limit: int)
    requires OneLow(cs, limit)
    ensures OneLow(Seed(cs, h, limit), limit)
  {
    var t := Seed(cs, h, limit);
    assert t[0].count == limit && forall i :: 0 < i < |t| ==> t[i] == cs[i - 1];
  }

  lemma NextOneLow(cs: seq<Cluster>, e: Event, threshold: int, limit: int)
    requires limit > 0 && OneLow(cs, limit) && |cs| < MAX_CENTROIDS
    ensures OneLow(Next(cs, e, threshold, limit), limit)
  {
    match e
    case Seeded(h) => SeedOneLow(cs, h, limit);
    case Observed(h) =>
      var i := FirstNear(cs, h, threshold, 0);
      if i < |cs| {
        PlacedOneLow(cs, i, limit);
      } else {
        AdmitOneLow(cs, h, threshold, limit);
      }
  }

  lemma NextPartitioned(cs: seq<Cluster>, e: Event, threshold: int, limit: int)
    requires limit > 0 && Partitioned(cs, limit)
    ensures Partitioned(Next(cs, e, threshold, limit), limit)
  {
    match e
    case Seeded(h) => SeedPartitions(cs, h, limit);
    case Observed(h) => ObserveKeeps(cs, h, threshold, limit);
  }

  /** Where the first part of a run leads, the rest can go on. */
  lemma {:induction false} RunSplit(cs: seq<Cluster>, before: seq<Event>, rest: seq<Event>, threshold: int, limit: int)
    requires limit > 0 && Roomy(cs, before + rest, threshold, limit) && OneLow(cs, limit) && Partitioned(cs, limit)
    ensures var mid := After(cs, before, threshold, limit);
            Roomy(mid, rest, threshold, limit) && OneLow(mid, limit) && Partitioned(mid, limit)
    decreases |before|
  {
    if before == [] {
      assert before + rest == rest;
    } else {
      var e := before[0];
      assert (before + rest)[0] == e && (before + rest)[1..] == before[1..] + rest;
      NextOneLow(cs, e, threshold, limit);
      NextPartitioned(cs, e, threshold, limit);
      RunSplit(Next(cs, e, threshold, limit), before[1..], rest, threshold, limit);
    }
  }

  /** Once its centroid is seeded a cluster lets nothing through. */
  lemma SeededPassNone(cs: seq<Cluster>, c: Fingerprint, after: seq<Event>, threshold: int, limit: int)
    requires limit > 0 && OneLow(cs, limit) && Partitioned(cs, limit) && Roomy(cs, [Seeded(c)] + after, threshold, limit)
    ensures Passes(cs, [Seeded(c)] + after, c, threshold, limit) == 0
  {
    var t := Seed(cs, c, limit);
    var events := [Seeded(c)] + after;
    assert events[0] == Seeded(c) && events[1..] == after;
    assert t[0] in t && t[0] == Cluster(c, limit);
    SeedOneLow(cs, c, limit);
    SeedPartitions(cs, c, limit);
    PassesCovered(t, after, c, threshold, limit, 0);
  }

  /** From any point of a run at which its centroid is seeded, a cluster lets nothing through. */
  lemma SeededCluster(before: seq<Event>, c: Fingerprint, after: seq<Event>, threshold: int, limit: int)
    requires limit > 0 && Roomy([], before + ([Seeded(c)] + after), threshold, limit)
    ensures Passes(After([], before, threshold, limit), [Seeded(c)] + after, c, threshold, limit) == 0
  {
    RunSplit([], before, [Seeded(c)] + after, threshold, limit);
    SeededPassNone(After([], before, threshold, limit), c, after, threshold, limit);
  }

  lemma SeededAt(events: seq<Event>, n: nat, c: Fingerprint, threshold: int, limit: int)
    requires limit > 0 && Roomy([], events, threshold, limit) && n < |events| && events[n] == Seeded(c)
    ensures Passes(After([], events[..n], threshold, limit), events[n..], c, threshold, limit) == 0
  {
    assert events[n..] == [Seeded(c)] + events[n + 1..];
    assert events == events[..n] + events[n..];
    SeededCluster(events[..n], c, events[n + 1..], threshold, limit);
  }

  /** Over a whole run under 5000 clusters, in any order of seeds and observations, the cluster at
      any centroid lets through at most max(limit - 1, 1) responses, and from any point at which its
      centroid is seeded none. */
  lemma ClusterPasses(events: seq<Event>, c: Fingerprint, threshold: int, limit: int)
    requires limit > 0 && Roomy([], events, threshold, limit)
    ensures Passes([], events, c, threshold, limit) <= MaxPasses(limit)
    ensures forall n :: 0 <= n < |events| && events[n] == Seeded(c) ==>
              Passes(After([], events[..n], threshold, limit), events[n..], c, threshold, limit) == 0
  {
    PassesCovered([], events, c, threshold, limit, MaxPasses(limit));
    forall n | 0 <= n < |events| && events[n] == Seeded(c)
      ensures Passes(After([], events[..n], threshold, limit), events[n..], c, threshold, limit) == 0
    {
      SeededAt(events, n, c, threshold, limit);
    }
  }

  // ---------- centroids stay apart ----------

  /** Clusters whose centroid was never seeded lie more than the threshold apart. */
  ghost predicate Apart(cs: seq<Cluster>, seeds: set<Fingerprint>, threshold: int) {
    forall i, j :: 0 <= i < |cs| && 0 <= j < |cs| && i != j && cs[i].centroid !in seeds && cs[j].centroid !in seeds ==>
      !Near(cs[i], cs[j].centroid, threshold)
  }

  function SeedsOf(events: seq<Event>): set<Fingerprint> {
    set i | 0 <= i < |events| && events[i].Seeded? :: events[i].h
  }

  lemma PlacedApart(cs: seq<Cluster>, i: nat, seeds: set<Fingerprint>, threshold: int)
    requires i < |cs| && Apart(cs, seeds, threshold)
    ensures Apart(Placed(cs, i), seeds, threshold)
  {
    var hit := Hit(cs, i);
    var r := Rises(hit, i);
    forall k, l | 0 <= k < |cs| && 0 <= l < |cs| && k != l
                  && Placed(cs, i)[k].centroid !in seeds && Placed(cs, i)[l].centroid !in seeds
      ensures !Near(Placed(cs, i)[k], Placed(cs, i)[l].centroid, threshold)
    {
      MovedAt(hit, i, r, k);
      MovedAt(hit, i, r, l);
    }
  }

  lemma AdmitApart(cs: seq<Cluster>, h: Fingerprint, seeds: set<Fingerprint>, threshold: int)
    requires FirstNear(cs, h, threshold, 0) == |cs| && Apart(cs, seeds, threshold)
    ensures Apart(Admit(cs, h), seeds, threshold)
  {
    forall k | 0 <= k < |cs| ensures !Near(Cluster(h, 1), cs[k].centroid, threshold) {
      DistanceSymmetric(h, cs[k].centroid);
    }
  }

  lemma {:induction false} StaysApart(cs: seq<Cluster>, events: seq<Event>, seeds: set<Fingerprint>, threshold: int, limit: int)
    requires Apart(cs, seeds, threshold) && SeedsOf(events) <= seeds
    ensures Apart(After(cs, events, threshold, limit), seeds, threshold)
    decreases |events|
  {
    if events != [] {
      match events[0] {
        case Seeded(h) => assert h in SeedsOf(events);
        case Observed(h) =>
          var i := FirstNear(cs, h, threshold, 0);
          if i < |cs| {
            PlacedApart(cs, i, seeds, threshold);
          } else {
            AdmitApart(cs, h, seeds, threshold);
          }
      }
      assert SeedsOf(events[1..]) <= SeedsOf(events);
      StaysApart(Next(cs, events[0], threshold, limit), events[1..], seeds, threshold, limit);
    }
  }

  /** In every run the unseeded centroids are pairwise more than the threshold apart, and with the
      seeds first the list is in descending order of count. */
  lemma ClustersApartAndSorted(events: seq<Event>, threshold: int, limit: int)
    requires limit > 0
    ensures Apart(After([], events, threshold, limit), SeedsOf(events), threshold)
    ensures SeedsFirst(events) ==> Sorted(After([], events, threshold, limit))
  {
    StaysApart([], events, SeedsOf(events), threshold, limit);
    if SeedsFirst(events) {
      SortedRun([], events, threshold, limit);
    }
  }
}
