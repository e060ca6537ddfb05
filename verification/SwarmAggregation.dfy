/** `AggregateSwarmResults`: exact deduplication followed by greedy similarity clustering over the
    results of all swarm workers, in one pass. */
module SwarmAggregation {
  import opened Fingerprints
  import opened Subsequences

  /** A result with its identity key and similarity fingerprint; `rest` stands for what neither sees. */
  datatype Result = Result(key: string, fingerprint: Fingerprint, rest: int)

  datatype Cluster = Cluster(fingerprint: Fingerprint, count: nat)

  /** What the loop carries. */
  datatype State = State(seen: set<string>, clusters: seq<Cluster>, out: seq<Result>)

  const START := State({}, [], [])

  /** The first cluster within the threshold, or the length of the list. */
  function Find(clusters: seq<Cluster>, fp: Fingerprint, threshold: int, i: nat := 0): (r: nat)
    requires i <= |clusters|
    ensures i <= r <= |clusters|
    ensures forall k :: i <= k < r ==> Distance(fp, clusters[k].fingerprint) > threshold
    ensures r < |clusters| ==> Distance(fp, clusters[r].fingerprint) <= threshold
    decreases |clusters| - i
  {
    if i == |clusters| || Distance(fp, clusters[i].fingerprint) <= threshold then i
    else Find(clusters, fp, threshold, i + 1)
  }

  predicate Clustering(threshold: int, limit: int) { threshold >= 0 && limit > 0 }

  function Step(s: State, r: Result, threshold: int, limit: int): State {
    if r.key in s.seen then s
    else
      var seen := s.seen + {r.key};
      if !Clustering(threshold, limit) then State(seen, s.clusters, s.out + [r])
      else
        var i := Find(s.clusters, r.fingerprint, threshold);
        if i < |s.clusters| then
          if s.clusters[i].count >= limit then State(seen, s.clusters, s.out)
          else State(seen, s.clusters[i := s.clusters[i].(count := s.clusters[i].count + 1)], s.out + [r])
        else State(seen, s.clusters + [Cluster(r.fingerprint, 1)], s.out + [r])
  }

  function Run(results: seq<Result>, threshold: int, limit: int): State
    decreases |results|
  {
    if results == [] then START
    else Step(Run(results[..|results| - 1], threshold, limit), results[|results| - 1], threshold, limit)
  }

  function Aggregate(results: seq<Result>, threshold: int, limit: int): seq<Result> {
    Run(results, threshold, limit).out
  }

  method FindResultCluster(clusters: seq<Cluster>, fp: Fingerprint, threshold: int) returns (idx: int)
    ensures idx == if Find(clusters, fp, threshold) < |clusters| then Find(clusters, fp, threshold) else -1
    ensures -1 <= idx < |clusters| && (idx != -1 ==> Differing(fp, clusters[idx].fingerprint) <= threshold)
    ensures forall k :: 0 <= k < |clusters| && (idx == -1 || k < idx) ==> Differing(fp, clusters[k].fingerprint) > threshold
  {
    for i := 0 to |clusters|
      invariant Find(clusters, fp, threshold) == Find(clusters, fp, threshold, i)
      invariant forall k :: 0 <= k < i ==> Differing(fp, clusters[k].fingerprint) > threshold
    {
      DistanceCounts(fp, clusters[i].fingerprint);
      if Distance(fp, clusters[i].fingerprint) <= threshold {
        return i;
      }
    }
    return -1;
  }

  method AggregateSwarmResults(results: seq<Result>, threshold: int, limit: int) returns (out: seq<Result>)
    ensures out == Aggregate(results, threshold, limit)
  {
    if |results| == 0 {
      return [];
    }
    var seen: set<string> := {};
    var clusters: seq<Cluster> := [];
    out := [];
    for n := 0 to |results|
      invariant State(seen, clusters, out) == Run(results[..n], threshold, limit)
    {
      var res := results[n];
      assert results[..n + 1][..n] == results[..n] && results[..n + 1][n] == res;
      if res.key in seen {
        continue;
      }
      seen := seen + {res.key};
      if threshold >= 0 && limit > 0 {
        var idx := FindResultCluster(clusters, res.fingerprint, threshold);
        if idx >= 0 {
          if clusters[idx].count >= limit {
            continue;
          }
          clusters := clusters[idx := clusters[idx].(count := clusters[idx].count + 1)];
        } else {
          clusters := clusters + [Cluster(res.fingerprint, 1)];
        }
      }
      out := out + [res];
    }
    assert results[..|results|] == results;
  }

  // ---------- what the output is ----------

  ghost predicate DistinctKeys(rs: seq<Result>) {
    forall i, j :: 0 <= i < j < |rs| ==> rs[i].key != rs[j].key
  }

  ghost predicate FarApart(clusters: seq<Cluster>, threshold: int) {
    forall i, j :: 0 <= i < |clusters| && 0 <= j < |clusters| && i != j ==>
      Distance(clusters[i].fingerprint, clusters[j].fingerprint) > threshold
  }

  /** How many results fall into cluster c. */
  function Members(rs: seq<Result>, clusters: seq<Cluster>, c: nat, threshold: int): nat {
    if rs == [] then 0
    else
      (if Find(clusters, rs[|rs| - 1].fingerprint, threshold) == c then 1 else 0)
      + Members(rs[..|rs| - 1], clusters, c, threshold)
  }

  ghost predicate Keyed(s: State) {
    DistinctKeys(s.out) && forall r :: r in s.out ==> r.key in s.seen
  }

  ghost predicate Placed(s: State, threshold: int) {
    forall r :: r in s.out ==> Find(s.clusters, r.fingerprint, threshold) < |s.clusters|
  }

  ghost predicate Counted(s: State, threshold: int, limit: int) {
    forall c :: 0 <= c < |s.clusters| ==>
      1 <= s.clusters[c].count <= limit && Members(s.out, s.clusters, c, threshold) == s.clusters[c].count
  }

  ghost predicate Inv(s: State, threshold: int, limit: int) {
    && Keyed(s)
    && (Clustering(threshold, limit) ==>
          FarApart(s.clusters, threshold) && Placed(s, threshold) && Counted(s, threshold, limit))
  }

  /** Counting a result, or founding a cluster at the end, does not move the others. */
  lemma FindStable(a: seq<Cluster>, b: seq<Cluster>, fp: Fingerprint, threshold: int)
    requires |a| <= |b| && forall k :: 0 <= k < |a| ==> b[k].fingerprint == a[k].fingerprint
    requires Find(a, fp, threshold) < |a|
    ensures Find(b, fp, threshold) == Find(a, fp, threshold)
  {
    var i, j := Find(a, fp, threshold), Find(b, fp, threshold);
    assert b[i].fingerprint == a[i].fingerprint;
    assert j <= i;
    assert b[j].fingerprint == a[j].fingerprint;
  }

  lemma {:induction false} MembersStable(rs: seq<Result>, a: seq<Cluster>, b: seq<Cluster>, c: nat, threshold: int)
    requires |a| <= |b| && forall k :: 0 <= k < |a| ==> b[k].fingerprint == a[k].fingerprint
    requires forall r :: r in rs ==> Find(a, r.fingerprint, threshold) < |a|
    ensures Members(rs, b, c, threshold) == Members(rs, a, c, threshold)
  {
    if rs != [] {
      FindStable(a, b, rs[|rs| - 1].fingerprint, threshold);
      MembersStable(rs[..|rs| - 1], a, b, c, threshold);
    }
  }

  lemma {:induction false} NoMembers(rs: seq<Result>, clusters: seq<Cluster>, c: nat, threshold: int)
    requires forall r :: r in rs ==> Find(clusters, r.fingerprint, threshold) != c
    ensures Members(rs, clusters, c, threshold) == 0
  {
    if rs != [] {
      NoMembers(rs[..|rs| - 1], clusters, c, threshold);
    }
  }

  lemma MembersSnoc(rs: seq<Result>, r: Result, clusters: seq<Cluster>, c: nat, threshold: int)
    ensures Members(rs + [r], clusters, c, threshold)
            == Members(rs, clusters, c, threshold) + if Find(clusters, r.fingerprint, threshold) == c then 1 else 0
  {
    assert (rs + [r])[..|rs|] == rs;
  }

  lemma KeyedStep(s: State, r: Result, threshold: int, limit: int)
    requires Keyed(s)
    ensures Keyed(Step(s, r, threshold, limit))
  {
  }

  /** A result joins a cluster that still has room. */
  lemma JoinKeeps(s: State, t: State, r: Result, threshold: int, limit: int)
    requires FarApart(s.clusters, threshold) && Placed(s, threshold) && Counted(s, threshold, limit)
    requires Find(s.clusters, r.fingerprint, threshold) < |s.clusters|
    requires var i := Find(s.clusters, r.fingerprint, threshold);
             && s.clusters[i].count < limit && t.out == s.out + [r]
             && t.clusters == s.clusters[i := s.clusters[i].(count := s.clusters[i].count + 1)]
    ensures FarApart(t.clusters, threshold) && Placed(t, threshold) && Counted(t, threshold, limit)
  {
    forall x | x in t.out ensures Find(t.clusters, x.fingerprint, threshold) < |t.clusters| {
      FindStable(s.clusters, t.clusters, x.fingerprint, threshold);
    }
    FindStable(s.clusters, t.clusters, r.fingerprint, threshold);
    forall c | 0 <= c < |t.clusters|
      ensures 1 <= t.clusters[c].count <= limit && Members(t.out, t.clusters, c, threshold) == t.clusters[c].count
    {
      MembersStable(s.out, s.clusters, t.clusters, c, threshold);
      MembersSnoc(s.out, r, t.clusters, c, threshold);
    }
  }

  lemma FoundApart(s: State, t: State, r: Result, threshold: int)
    requires FarApart(s.clusters, threshold)
    requires Find(s.clusters, r.fingerprint, threshold) == |s.clusters| && t.clusters == s.clusters + [Cluster(r.fingerprint, 1)]
    ensures FarApart(t.clusters, threshold)
    ensures threshold >= 0 ==> Find(t.clusters, r.fingerprint, threshold) == |s.clusters|
  {
    DistanceZero(r.fingerprint, r.fingerprint);
    forall k | 0 <= k < |s.clusters| ensures Distance(s.clusters[k].fingerprint, r.fingerprint) > threshold {
      DistanceSymmetric(s.clusters[k].fingerprint, r.fingerprint);
    }
    assert t.clusters[|s.clusters|].fingerprint == r.fingerprint;
    assert forall k :: 0 <= k < |s.clusters| ==> Distance(r.fingerprint, t.clusters[k].fingerprint) > threshold;
  }

  /** A result founds a cluster of its own. */
  lemma FoundKeeps(s: State, t: State, r: Result, threshold: int, limit: int)
    requires Placed(s, threshold) && Counted(s, threshold, limit) && FarApart(s.clusters, threshold)
    requires Clustering(threshold, limit) && Find(s.clusters, r.fingerprint, threshold) == |s.clusters|
    requires t.out == s.out + [r] && t.clusters == s.clusters + [Cluster(r.fingerprint, 1)]
    ensures Placed(t, threshold) && Counted(t, threshold, limit)
  {
    var n := |s.clusters|;
    FoundApart(s, t, r, threshold);
    forall x | x in s.out ensures Find(t.clusters, x.fingerprint, threshold) == Find(s.clusters, x.fingerprint, threshold) {
      FindStable(s.clusters, t.clusters, x.fingerprint, threshold);
    }
    forall c | 0 <= c < |t.clusters|
      ensures 1 <= t.clusters[c].count <= limit && Members(t.out, t.clusters, c, threshold) == t.clusters[c].count
    {
      MembersSnoc(s.out, r, t.clusters, c, threshold);
      if c < n {
        MembersStable(s.out, s.clusters, t.clusters, c, threshold);
      } else {
        NoMembers(s.out, t.clusters, c, threshold);
      }
    }
  }

  lemma StepKeeps(s: State, r: Result, threshold: int, limit: int)
    requires Inv(s, threshold, limit)
    ensures Inv(Step(s, r, threshold, limit), threshold, limit)
  {
    var t := Step(s, r, threshold, limit);
    KeyedStep(s, r, threshold, limit);
    if r.key !in s.seen && Clustering(threshold, limit) {
      var i := Find(s.clusters, r.fingerprint, threshold);
      if i == |s.clusters| {
        FoundApart(s, t, r, threshold);
        FoundKeeps(s, t, r, threshold, limit);
      } else if s.clusters[i].count < limit {
        JoinKeeps(s, t, r, threshold, limit);
      }
    }
  }

  lemma {:induction false} RunInv(results: seq<Result>, threshold: int, limit: int)
    ensures Inv(Run(results, threshold, limit), threshold, limit)
    decreases |results|
  {
    if results != [] {
      RunInv(results[..|results| - 1], threshold, limit);
      StepKeeps(Run(results[..|results| - 1], threshold, limit), results[|results| - 1], threshold, limit);
    }
  }

  lemma {:induction false} RunSubsequence(results: seq<Result>, threshold: int, limit: int)
    ensures Subsequence(Aggregate(results, threshold, limit), results)
    decreases |results|
  {
    if results != [] {
      var n := |results| - 1;
      RunSubsequence(results[..n], threshold, limit);
      var out := Aggregate(results, threshold, limit);
      var before := Aggregate(results[..n], threshold, limit);
      if out != before {
        assert out == before + [results[n]];
        assert out[..|out| - 1] == before;
      }
    }
  }

  /** The output is a subsequence of the input with distinct identity keys; with clustering on, its
      cluster fingerprints are pairwise more than the threshold apart, every result lies in one
      cluster, and each cluster holds between one and `limit` of them. */
  lemma Aggregated(results: seq<Result>, threshold: int, limit: int)
    ensures var s := Run(results, threshold, limit);
            && Subsequence(s.out, results) && DistinctKeys(s.out)
            && (threshold >= 0 && limit > 0 ==>
                  && FarApart(s.clusters, threshold)
                  && (forall r :: r in s.out ==> Find(s.clusters, r.fingerprint, threshold) < |s.clusters|)
                  && (forall c :: 0 <= c < |s.clusters| ==> 1 <= Members(s.out, s.clusters, c, threshold) <= limit))
  {
    RunInv(results, threshold, limit);
    RunSubsequence(results, threshold, limit);
  }

  /** Results of one cluster lie at most twice the threshold apart. */
  lemma ClusterDiameter(results: seq<Result>, threshold: int, limit: int, a: Result, b: Result)
    requires threshold >= 0 && limit > 0 && a in Aggregate(results, threshold, limit) && b in Aggregate(results, threshold, limit)
    requires var clusters := Run(results, threshold, limit).clusters;
             Find(clusters, a.fingerprint, threshold) == Find(clusters, b.fingerprint, threshold)
    ensures Distance(a.fingerprint, b.fingerprint) <= 2 * threshold
  {
    var s := Run(results, threshold, limit);
    Aggregated(results, threshold, limit);
    var centre := s.clusters[Find(s.clusters, a.fingerprint, threshold)].fingerprint;
    DistanceSymmetric(b.fingerprint, centre);
    DistanceTriangle(a.fingerprint, centre, b.fingerprint);
  }

  // ---------- nothing is dropped without cause ----------

  /** The result is kept, or shares its key with an earlier one, or its cluster is full. */
  ghost predicate Justified(s: State, results: seq<Result>, k: nat, threshold: int, limit: int)
    requires k < |results|
  {
    || results[k] in s.out
    || (exists j :: 0 <= j < k && results[j].key == results[k].key)
    || (threshold >= 0 && limit > 0 &&
        var c := Find(s.clusters, results[k].fingerprint, threshold);
        c < |s.clusters| && s.clusters[c].count >= limit)
  }

  lemma {:induction false} SeenAre(results: seq<Result>, threshold: int, limit: int, key: string)
    ensures key in Run(results, threshold, limit).seen <==> exists j :: 0 <= j < |results| && results[j].key == key
    decreases |results|
  {
    if results != [] {
      var n := |results| - 1;
      SeenAre(results[..n], threshold, limit, key);
      if key in Run(results[..n], threshold, limit).seen {
        var j :| 0 <= j < n && results[..n][j].key == key;
        assert results[j].key == key;
      }
      if j :| 0 <= j < |results| && results[j].key == key {
        if j < n {
          assert results[..n][j].key == key;
        }
      }
    }
  }

  lemma StepJustifies(s: State, results: seq<Result>, k: nat, r: Result, threshold: int, limit: int)
    requires k < |results| && Justified(s, results, k, threshold, limit)
    ensures Justified(Step(s, r, threshold, limit), results, k, threshold, limit)
  {
    var t := Step(s, r, threshold, limit);
    assert results[k] in s.out ==> results[k] in t.out;
    if Clustering(threshold, limit) && Find(s.clusters, results[k].fingerprint, threshold) < |s.clusters| {
      FindStable(s.clusters, t.clusters, results[k].fingerprint, threshold);
    }
  }

  /** Every result missing from the output repeats an earlier key or belongs to a full cluster. */
  lemma {:induction false} DroppedForCause(results: seq<Result>, k: nat, threshold: int, limit: int)
    requires k < |results|
    ensures Justified(Run(results, threshold, limit), results, k, threshold, limit)
    decreases |results|
  {
    var n := |results| - 1;
    var s := Run(results[..n], threshold, limit);
    if k < n {
      DroppedForCause(results[..n], k, threshold, limit);
      if j :| 0 <= j < k && results[..n][j].key == results[..n][k].key {
        assert results[j].key == results[k].key;
      }
      assert Justified(s, results, k, threshold, limit);
      StepJustifies(s, results, k, results[n], threshold, limit);
    } else if results[n].key in s.seen {
      SeenAre(results[..n], threshold, limit, results[n].key);
      var j :| 0 <= j < n && results[..n][j].key == results[n].key;
      assert results[j].key == results[n].key;
    }
  }

  /** The next result is kept exactly when no earlier one, kept or not, has its key, and, with clustering on, its
      cluster is new or holds fewer than `limit` kept results. */
  lemma KeptIff(results: seq<Result>, r: Result, threshold: int, limit: int)
    ensures var s := Run(results, threshold, limit); var c := Find(s.clusters, r.fingerprint, threshold);
            var kept := (forall j :: 0 <= j < |results| ==> results[j].key != r.key)
                        && (threshold >= 0 && limit > 0 && c < |s.clusters| ==>
                              Members(s.out, s.clusters, c, threshold) < limit);
            Aggregate(results + [r], threshold, limit) == Aggregate(results, threshold, limit) + if kept then [r] else []
  {
    SeenAre(results, threshold, limit, r.key);
    RunInv(results, threshold, limit);
    assert (results + [r])[..|results|] == results;
  }

  // ---------- idempotence ----------

  /** `again` carries the same clusters and output as `s`, having seen no more keys. */
  ghost predicate Mirrors(again: State, s: State) {
    again.out == s.out && again.clusters == s.clusters && again.seen <= s.seen
  }

  lemma MirrorStep(again: State, s: State, r: Result, threshold: int, limit: int)
    requires Mirrors(again, s)
    ensures var t := Step(s, r, threshold, limit);
            if t.out == s.out then Mirrors(again, t)
            else t.out == s.out + [r] && Mirrors(Step(again, r, threshold, limit), t)
  {
    assert s.out + [r] != s.out;
  }

  /** A pass over the output rebuilds the same clusters, and keeps everything. */
  lemma {:induction false} Replays(results: seq<Result>, threshold: int, limit: int)
    ensures Mirrors(Run(Aggregate(results, threshold, limit), threshold, limit), Run(results, threshold, limit))
    decreases |results|
  {
    if results != [] {
      var n := |results| - 1;
      var before, s := Run(results[..n], threshold, limit), Run(results, threshold, limit);
      Replays(results[..n], threshold, limit);
      MirrorStep(Run(before.out, threshold, limit), before, results[n], threshold, limit);
      if s.out != before.out {
        assert s.out[..|s.out| - 1] == before.out;
      }
    }
  }

  /** Aggregating aggregated results changes nothing. */
  lemma Idempotent(results: seq<Result>, threshold: int, limit: int)
    ensures Aggregate(Aggregate(results, threshold, limit), threshold, limit) == Aggregate(results, threshold, limit)
  {
    Replays(results, threshold, limit);
  }
}
