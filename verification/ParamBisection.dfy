/** `discoverParamHits`: hidden-parameter discovery by probing whole chunks of candidates and
    bisecting those that match, against probing every candidate on its own. */
module ParamBisection {
  import opened Subsequences

  type Candidate = string

  /** What a probe request shows: an error or no difference counts as no match. */
  datatype Outcome = Failed | Same | Match(response: int)

  datatype Hit = Hit(params: seq<Candidate>, response: int)

  const CHUNK: nat := 50

  type Probe = seq<Candidate> -> Outcome

  /** Bisection of one chunk: the hits, and the number of probes sent. */
  function Bisect(probe: Probe, cs: seq<Candidate>): (r: (seq<Hit>, nat))
    decreases |cs|
  {
    if cs == [] then ([], 0)
    else
      match probe(cs)
      case Match(response) =>
        if |cs| == 1 then ([Hit(cs, response)], 1)
        else
          var left := Bisect(probe, cs[..|cs| / 2]);
          var right := Bisect(probe, cs[|cs| / 2..]);
          (left.0 + right.0, 1 + left.1 + right.1)
      case _ => ([], 1)
  }

  /** The whole list, chunk by chunk. */
  function Discover(probe: Probe, cs: seq<Candidate>): (r: (seq<Hit>, nat))
    decreases |cs|
  {
    if |cs| <= CHUNK then Bisect(probe, cs)
    else
      var first := Bisect(probe, cs[..CHUNK]);
      var rest := Discover(probe, cs[CHUNK..]);
      (first.0 + rest.0, first.1 + rest.1)
  }

  method DiscoverParamHits(probe: Probe, cs: seq<Candidate>) returns (hits: seq<Hit>, probes: nat)
    ensures (hits, probes) == Discover(probe, cs)
    decreases |cs|
  {
    if |cs| == 0 {
      return [], 0;
    }
    if |cs| > CHUNK {
      hits, probes := [], 0;
      var start := 0;
      ghost var whole := Discover(probe, cs);
      assert cs[0..] == cs && [] + whole.0 == whole.0;
      while start < |cs|
        invariant 0 <= start <= |cs|
        invariant whole.0 == hits + Discover(probe, cs[start..]).0
        invariant whole.1 == probes + Discover(probe, cs[start..]).1
        decreases |cs| - start
      {
        var end := if start + CHUNK > |cs| then |cs| else start + CHUNK;
        NextChunk(probe, cs, start, end);
        var chunkHits, chunkProbes := DiscoverParamHits(probe, cs[start..end]);
        assert hits + (chunkHits + Discover(probe, cs[end..]).0) == (hits + chunkHits) + Discover(probe, cs[end..]).0;
        hits, probes := hits + chunkHits, probes + chunkProbes;
        start := end;
      }
      assert cs[start..] == [] && hits + [] == hits;
      return;
    }
    var outcome := probe(cs);
    if !outcome.Match? {
      return [], 1;
    }
    if |cs| == 1 {
      return [Hit(cs, outcome.response)], 1;
    }
    var mid := |cs| / 2;
    var left, leftProbes := DiscoverParamHits(probe, cs[..mid]);
    var right, rightProbes := DiscoverParamHits(probe, cs[mid..]);
    hits, probes := left + right, 1 + leftProbes + rightProbes;
  }

  lemma NextChunk(probe: Probe, cs: seq<Candidate>, start: nat, end: nat)
    requires start < |cs| && end == if start + CHUNK > |cs| then |cs| else start + CHUNK
    ensures var rest, chunk, later := Discover(probe, cs[start..]), Discover(probe, cs[start..end]), Discover(probe, cs[end..]);
            rest.0 == chunk.0 + later.0 && rest.1 == chunk.1 + later.1
  {
    var rest := cs[start..];
    if |rest| <= CHUNK {
      assert cs[start..end] == rest && cs[end..] == [];
    } else {
      assert rest[..CHUNK] == cs[start..end] && rest[CHUNK..] == cs[end..];
    }
  }

  /** Fifty candidates at a time: up to fifty are one bisection, and more go on behind the first fifty. */
  lemma FiftyAtATime(probe: Probe, cs: seq<Candidate>)
    ensures |cs| <= 50 ==> Discover(probe, cs) == Bisect(probe, cs)
    ensures |cs| > 50 ==>
              Discover(probe, cs) == (Bisect(probe, cs[..50]).0 + Discover(probe, cs[50..]).0,
                                      Bisect(probe, cs[..50]).1 + Discover(probe, cs[50..]).1)
  {
  }

  // ---------- linear probing ----------

  /** Every candidate probed on its own. */
  function Linear(probe: Probe, cs: seq<Candidate>): seq<Hit>
    decreases |cs|
  {
    if cs == [] then []
    else
      Linear(probe, cs[..|cs| - 1]) +
      match probe([cs[|cs| - 1]])
      case Match(response) => [Hit([cs[|cs| - 1]], response)]
      case _ => []
  }

  lemma {:induction false} LinearAppend(probe: Probe, a: seq<Candidate>, b: seq<Candidate>)
    ensures Linear(probe, a + b) == Linear(probe, a) + Linear(probe, b)
    decreases |b|
  {
    if b == [] {
      assert a + b == a;
    } else {
      assert (a + b)[..|a + b| - 1] == a + b[..|b| - 1];
      LinearAppend(probe, a, b[..|b| - 1]);
    }
  }

  lemma {:induction false} BisectSound(probe: Probe, cs: seq<Candidate>)
    ensures Subsequence(Bisect(probe, cs).0, Linear(probe, cs))
    decreases |cs|
  {
    if cs != [] && probe(cs).Match? {
      if |cs| == 1 {
        assert cs == [cs[0]] && cs[..0] == [];
        assert Linear(probe, cs[..0]) == [];
        SubsequenceRefl(Linear(probe, cs));
      } else {
        var mid := |cs| / 2;
        BisectSound(probe, cs[..mid]);
        BisectSound(probe, cs[mid..]);
        assert cs == cs[..mid] + cs[mid..];
        LinearAppend(probe, cs[..mid], cs[mid..]);
        SubsequenceAppend(Bisect(probe, cs[..mid]).0, Linear(probe, cs[..mid]),
                          Bisect(probe, cs[mid..]).0, Linear(probe, cs[mid..]));
      }
    }
  }

  /** Whatever the server does: every hit is a single candidate whose own probe matched, with that
      probe's response, and the hits come in candidate order. */
  lemma {:induction false} DiscoverSound(probe: Probe, cs: seq<Candidate>)
    ensures Subsequence(Discover(probe, cs).0, Linear(probe, cs))
    decreases |cs|
  {
    if |cs| <= CHUNK {
      BisectSound(probe, cs);
    } else {
      BisectSound(probe, cs[..CHUNK]);
      DiscoverSound(probe, cs[CHUNK..]);
      assert cs == cs[..CHUNK] + cs[CHUNK..];
      LinearAppend(probe, cs[..CHUNK], cs[CHUNK..]);
      SubsequenceAppend(Bisect(probe, cs[..CHUNK]).0, Linear(probe, cs[..CHUNK]),
                        Discover(probe, cs[CHUNK..]).0, Linear(probe, cs[CHUNK..]));
    }
  }

  // ---------- when nothing is missed ----------

  /** Along the bisection, every set with a member that matches alone matches itself. */
  predicate Unmasked(probe: Probe, cs: seq<Candidate>)
    decreases |cs|
  {
    Linear(probe, cs) == [] ||
    (probe(cs).Match? &&
     (|cs| > 1 ==> Unmasked(probe, cs[..|cs| / 2]) && Unmasked(probe, cs[|cs| / 2..])))
  }

  predicate AllUnmasked(probe: Probe, cs: seq<Candidate>)
    decreases |cs|
  {
    if |cs| <= CHUNK then Unmasked(probe, cs)
    else Unmasked(probe, cs[..CHUNK]) && AllUnmasked(probe, cs[CHUNK..])
  }

  lemma HalvesAgree(a: seq<Hit>, b: seq<Hit>, c: seq<Hit>, d: seq<Hit>)
    requires Subsequence(a, b) && Subsequence(c, d)
    ensures a + c == b + d <==> a == b && c == d
  {
    SubsequenceShorter(a, b);
    SubsequenceShorter(c, d);
    if a + c == b + d {
      assert |a + c| == |b + d|;
    }
  }

  lemma {:induction false} BisectCompleteIff(probe: Probe, cs: seq<Candidate>)
    ensures Bisect(probe, cs).0 == Linear(probe, cs) <==> Unmasked(probe, cs)
    decreases |cs|
  {
    if |cs| == 1 {
      assert cs == [cs[0]] && cs[..0] == [];
      assert Linear(probe, cs[..0]) == [];
    } else if |cs| > 1 && probe(cs).Match? {
      BisectCompleteIff(probe, cs[..|cs| / 2]);
      BisectCompleteIff(probe, cs[|cs| / 2..]);
      BisectHalves(probe, cs);
    }
  }

  lemma BisectHalves(probe: Probe, cs: seq<Candidate>)
    requires |cs| > 1 && probe(cs).Match?
    ensures var l, r := cs[..|cs| / 2], cs[|cs| / 2..];
            && (Bisect(probe, cs).0 == Linear(probe, cs) <==>
                  Bisect(probe, l).0 == Linear(probe, l) && Bisect(probe, r).0 == Linear(probe, r))
            && (Linear(probe, cs) == [] ==> Bisect(probe, cs).0 == [])
  {
    var l, r := cs[..|cs| / 2], cs[|cs| / 2..];
    assert cs == l + r;
    LinearAppend(probe, l, r);
    BisectSound(probe, l);
    BisectSound(probe, r);
    HalvesAgree(Bisect(probe, l).0, Linear(probe, l), Bisect(probe, r).0, Linear(probe, r));
    BisectSound(probe, cs);
    SubsequenceShorter(Bisect(probe, cs).0, Linear(probe, cs));
  }

  /** Bisection finds exactly the candidates linear probing finds if and only if no bisected set
      hides a member that matches alone. */
  lemma {:induction false} DiscoverCompleteIff(probe: Probe, cs: seq<Candidate>)
    ensures Discover(probe, cs).0 == Linear(probe, cs) <==> AllUnmasked(probe, cs)
    decreases |cs|
  {
    if |cs| <= CHUNK {
      BisectCompleteIff(probe, cs);
    } else {
      var l, r := cs[..CHUNK], cs[CHUNK..];
      assert cs == l + r;
      LinearAppend(probe, l, r);
      BisectCompleteIff(probe, l);
      DiscoverCompleteIff(probe, r);
      BisectSound(probe, l);
      DiscoverSound(probe, r);
      HalvesAgree(Bisect(probe, l).0, Linear(probe, l), Discover(probe, r).0, Linear(probe, r));
    }
  }

  // ---------- additive servers ----------

  /** A set matches exactly when some member matches alone. */
  ghost predicate Additive(probe: Probe) {
    forall cs: seq<Candidate> {:trigger AnyAlone(probe, cs)} :: probe(cs).Match? <==> AnyAlone(probe, cs)
  }

  predicate AnyAlone(probe: Probe, cs: seq<Candidate>) {
    exists i :: 0 <= i < |cs| && probe([cs[i]]).Match?
  }

  lemma {:induction false} LinearEmptyIff(probe: Probe, cs: seq<Candidate>)
    ensures Linear(probe, cs) == [] <==> !AnyAlone(probe, cs)
    decreases |cs|
  {
    if cs != [] {
      var rest := cs[..|cs| - 1];
      LinearEmptyIff(probe, rest);
      assert forall i :: 0 <= i < |rest| ==> rest[i] == cs[i];
    }
  }

  lemma {:induction false} AdditiveUnmasked(probe: Probe, cs: seq<Candidate>)
    requires Additive(probe)
    ensures Unmasked(probe, cs)
    decreases |cs|
  {
    LinearEmptyIff(probe, cs);
    if |cs| > 1 {
      AdditiveUnmasked(probe, cs[..|cs| / 2]);
      AdditiveUnmasked(probe, cs[|cs| / 2..]);
    }
  }

  lemma {:induction false} AdditiveAllUnmasked(probe: Probe, cs: seq<Candidate>)
    requires Additive(probe)
    ensures AllUnmasked(probe, cs)
    decreases |cs|
  {
    if |cs| <= CHUNK {
      AdditiveUnmasked(probe, cs);
    } else {
      AdditiveUnmasked(probe, cs[..CHUNK]);
      AdditiveAllUnmasked(probe, cs[CHUNK..]);
    }
  }

  /** On an additive server the hits are exactly the matching candidates. */
  lemma AdditiveComplete(probe: Probe, cs: seq<Candidate>)
    requires Additive(probe)
    ensures Discover(probe, cs).0 == Linear(probe, cs)
  {
    AdditiveAllUnmasked(probe, cs);
    DiscoverCompleteIff(probe, cs);
  }

  // ---------- what it costs ----------

  function CeilLog2(n: nat): nat {
    if n <= 1 then 0 else 1 + CeilLog2((n + 1) / 2)
  }

  function Pow2(n: nat): nat { if n == 0 then 1 else 2 * Pow2(n - 1) }

  /** `CeilLog2(n)` is the least exponent whose power of two reaches n. */
  lemma {:induction false} CeilLog2Is(n: nat)
    ensures n <= Pow2(CeilLog2(n))
    ensures n > 1 ==> Pow2(CeilLog2(n) - 1) < n
  {
    if n > 1 {
      CeilLog2Is((n + 1) / 2);
    }
  }

  lemma {:induction false} CeilLog2Mono(m: nat, n: nat)
    requires m <= n
    ensures CeilLog2(m) <= CeilLog2(n)
  {
    if m > 1 {
      CeilLog2Mono((m + 1) / 2, (n + 1) / 2);
    }
  }

  /** 1 + 2k * log probes, a single one when nothing matches. */
  function Bound(k: nat, log: nat): nat { 1 + 2 * (k * log) }

  lemma BoundStep(k: nat, l: nat, logLeft: nat, logRight: nat, log: nat)
    requires k + l > 0 && logLeft < log && logRight < log
    ensures 1 + Bound(k, logLeft) + Bound(l, logRight) <= Bound(k + l, log)
  {
    MulMono(k, logLeft, log - 1);
    MulMono(l, logRight, log - 1);
    assert k * log == k * (log - 1) + k;
    assert l * log == l * (log - 1) + l;
    assert (k + l) * log == k * log + l * log;
  }

  lemma MulMono(k: nat, a: nat, b: nat)
    requires a <= b
    ensures k * a <= k * b
  {
  }

  /** The sizes a matching set of two or more splits into. */
  lemma SplitSizes(probe: Probe, cs: seq<Candidate>)
    requires Additive(probe) && |cs| > 1 && probe(cs).Match?
    ensures var l, r := cs[..|cs| / 2], cs[|cs| / 2..];
            && |Linear(probe, cs)| == |Linear(probe, l)| + |Linear(probe, r)| > 0
            && CeilLog2(|l|) < CeilLog2(|cs|) && CeilLog2(|r|) < CeilLog2(|cs|)
  {
    var l, r := cs[..|cs| / 2], cs[|cs| / 2..];
    CeilLog2Mono(|l|, (|cs| + 1) / 2);
    CeilLog2Mono(|r|, (|cs| + 1) / 2);
    LinearEmptyIff(probe, cs);
    assert cs == l + r;
    LinearAppend(probe, l, r);
  }

  /** A chunk of n candidates of which k match costs at most 1 + 2k * ceil(log2 n) probes. */
  lemma {:induction false} BisectCost(probe: Probe, cs: seq<Candidate>)
    requires Additive(probe)
    ensures Bisect(probe, cs).1 <= Bound(|Linear(probe, cs)|, CeilLog2(|cs|))
    decreases |cs|
  {
    if |cs| > 1 && probe(cs).Match? {
      var l, r := cs[..|cs| / 2], cs[|cs| / 2..];
      BisectCost(probe, l);
      BisectCost(probe, r);
      SplitSizes(probe, cs);
      BoundStep(|Linear(probe, l)|, |Linear(probe, r)|, CeilLog2(|l|), CeilLog2(|r|), CeilLog2(|cs|));
    } else {
      assert Bisect(probe, cs).1 <= 1;
    }
  }

  /** The whole list: one probe a chunk, and at most twelve for each candidate that matches. */
  lemma {:induction false} DiscoverCost(probe: Probe, cs: seq<Candidate>)
    requires Additive(probe)
    ensures Discover(probe, cs).1 <= (|cs| + 49) / 50 + 12 * |Linear(probe, cs)|
    decreases |cs|
  {
    if |cs| <= CHUNK {
      ChunkCost(probe, cs);
    } else {
      var l, r := cs[..CHUNK], cs[CHUNK..];
      assert cs == l + r;
      LinearAppend(probe, l, r);
      ChunkCost(probe, l);
      DiscoverCost(probe, r);
    }
  }

  lemma ChunkCost(probe: Probe, cs: seq<Candidate>)
    requires Additive(probe) && |cs| <= CHUNK
    ensures Bisect(probe, cs).1 <= (if cs == [] then 0 else 1) + 12 * |Linear(probe, cs)|
  {
    BisectCost(probe, cs);
    CeilLog2Mono(|cs|, CHUNK);
    assert CeilLog2(50) == 1 + CeilLog2(25) && CeilLog2(25) == 1 + CeilLog2(13) && CeilLog2(13) == 1 + CeilLog2(7);
    assert CeilLog2(7) == 1 + CeilLog2(4) && CeilLog2(4) == 2;
    MulMono(|Linear(probe, cs)|, CeilLog2(|cs|), 6);
  }
}
