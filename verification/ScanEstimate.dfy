/** The capped worst-case job estimate of a recursive scan, in 64-bit arithmetic. */
module ScanEstimate {

  newtype Int64 = x: int | -0x8000_0000_0000_0000 <= x < 0x8000_0000_0000_0000

  const CAP: Int64 := 1_000_000_000
  const MAX_INT64: Int64 := 0x7FFF_FFFF_FFFF_FFFF

  function Power(jobs: nat, n: nat): nat {
    if n == 0 then 1 else jobs * Power(jobs, n - 1)
  }

  /** Jobs at depth 0 to `depth`: every job of a level may open `jobs` more on the next. */
  function Total(jobs: nat, depth: nat): nat {
    Power(jobs, depth + 1) + if depth == 0 then 0 else Total(jobs, depth - 1)
  }

  lemma {:induction false} TotalGrows(jobs: nat, d: nat, e: nat)
    requires d <= e
    ensures Total(jobs, d) <= Total(jobs, e)
    decreases e - d
  {
    if d < e {
      TotalGrows(jobs, d, e - 1);
    }
  }

  function MaxInt64(a: Int64, b: Int64): Int64 { if a > b then a else b }

  /** The division in the guard decides whether the product would pass the cap. */
  lemma GuardExact(level: nat, factor: nat)
    requires factor > 0
    ensures level > 1_000_000_000 / factor <==> level * factor > 1_000_000_000
  {
    var q := 1_000_000_000 / factor;
    assert q * factor <= 1_000_000_000 < (q + 1) * factor;
    if level > q {
      assert level * factor >= (q + 1) * factor;
    } else {
      assert level * factor <= q * factor;
    }
  }

  /** The type checks that no intermediate value leaves 64 bits.  For a recursive scan the estimate is
      the sum over all depths, capped; `capped` says that the true sum is larger than the cap.  Only
      without any jobs and with the largest depth would the loop counter wrap, and the loop not end. */
  method RecursiveWorst(jobs: Int64, recursive: bool, maxDepth: Int64) returns (worst: Int64, capped: bool)
    requires 0 <= jobs && (jobs > 0 || maxDepth < MAX_INT64)
    ensures recursive && maxDepth > 0 ==>
              var total := Total(jobs as nat, maxDepth as nat);
              && worst as int == (if total > CAP as int then CAP as int else total)
              && (capped <==> total > CAP as int)
    ensures !(recursive && maxDepth > 0) ==> worst == jobs && !capped
  {
    worst, capped := jobs, false;
    if recursive && maxDepth > 0 {
      var level := jobs;
      var depth: Int64 := 1;
      assert Power(jobs as nat, 0) == 1 && Power(jobs as nat, 1) == jobs as nat;
      while depth <= maxDepth
        invariant 1 <= depth as int <= maxDepth as int + 1 && 0 <= level
        invariant level as int == Power(jobs as nat, depth as nat)
        invariant worst as int == Total(jobs as nat, (depth - 1) as nat)
        invariant depth == 1 || worst <= CAP
        invariant !capped
        decreases maxDepth - depth
      {
        GuardExact(level as nat, MaxInt64(jobs, 1) as nat);
        NextLevel(jobs as nat, depth as nat);
        TotalGrows(jobs as nat, depth as nat, maxDepth as nat);
        TotalAtLeast(jobs as nat, depth as nat);
        if level > CAP / MaxInt64(jobs, 1) {
          capped := true;
          worst := CAP;
          return;
        }
        level := level * MaxInt64(jobs, 1);
        worst := worst + level;
        if worst > CAP {
          capped := true;
          worst := CAP;
          return;
        }
        depth := depth + 1;
      }
    }
  }

  lemma NextLevel(jobs: nat, depth: nat)
    requires depth > 0
    ensures Power(jobs, depth) * (if jobs > 1 then jobs else 1) == Power(jobs, depth + 1)
    ensures Total(jobs, depth) == Total(jobs, depth - 1) + Power(jobs, depth + 1)
    ensures Power(jobs, depth) >= jobs
  {
    if jobs == 1 {
      PowerOne(depth);
      PowerOne(depth + 1);
    } else if jobs > 1 {
      PowerAtLeast(jobs, depth);
    }
  }

  lemma {:induction false} PowerOne(n: nat)
    ensures Power(1, n) == 1
  {
    if n > 0 {
      PowerOne(n - 1);
    }
  }

  lemma {:induction false} PowerAtLeast(jobs: nat, n: nat)
    requires jobs > 1 && n > 0
    ensures Power(jobs, n) >= jobs
  {
    if n > 1 {
      PowerAtLeast(jobs, n - 1);
      assert jobs * Power(jobs, n - 1) >= jobs * 1;
    } else {
      assert Power(jobs, 0) == 1;
    }
  }

  /** Each depth adds a job, so the cap ends the loop long before the counter could wrap. */
  lemma {:induction false} TotalAtLeast(jobs: nat, depth: nat)
    ensures jobs > 0 ==> Total(jobs, depth) > depth
  {
    if jobs == 1 {
      PowerOne(depth + 1);
    } else if jobs > 1 {
      PowerAtLeast(jobs, depth + 1);
    }
    if depth > 0 {
      TotalAtLeast(jobs, depth - 1);
    }
  }

  // ---------- when the loop ends ----------

  /** The loop before a pass, with the 64-bit values it holds, or behind it. */
  datatype Pass = Ended | Before(depth: int, level: int, worst: int)

  function Wrap(x: int): (r: int)
    ensures r <= MAX_INT64 as int
    ensures -0x8000_0000_0000_0000 <= x <= MAX_INT64 as int ==> r == x
  {
    (x + 0x8000_0000_0000_0000) % 0x1_0000_0000_0000_0000 - 0x8000_0000_0000_0000
  }

  function AtLeastOne(jobs: nat): (n: nat)
    ensures n > 0
  {
    if jobs > 1 then jobs else 1
  }

  /** One pass, in arithmetic that wraps. */
  function NextPass(p: Pass, jobs: nat, maxDepth: int): Pass {
    if p.Ended? || p.depth > maxDepth || p.level > 1_000_000_000 / AtLeastOne(jobs) then Ended
    else
      var level := Wrap(p.level * AtLeastOne(jobs));
      var worst := Wrap(p.worst + level);
      if worst > 1_000_000_000 then Ended else Before(Wrap(p.depth + 1), level, worst)
  }

  function Passes(jobs: nat, maxDepth: int, n: nat): Pass {
    if n == 0 then Before(1, jobs, jobs) else NextPass(Passes(jobs, maxDepth, n - 1), jobs, maxDepth)
  }

  /** A pass without jobs only counts. */
  lemma IdlePass(depth: int, maxDepth: int)
    ensures depth <= maxDepth ==> NextPass(Before(depth, 0, 0), 0, maxDepth) == Before(Wrap(depth + 1), 0, 0)
  {
  }

  lemma {:induction false} NoJobs(maxDepth: int, n: nat)
    requires 0 < maxDepth <= MAX_INT64 as int
    ensures maxDepth == MAX_INT64 as int ==>
              var p := Passes(0, maxDepth, n); p.Before? && p == Before(p.depth, 0, 0) && p.depth <= maxDepth
    ensures n <= maxDepth < MAX_INT64 as int ==> Passes(0, maxDepth, n) == Before(1 + n, 0, 0)
  {
    if n > 0 {
      NoJobs(maxDepth, n - 1);
      var p := Passes(0, maxDepth, n - 1);
      if p.Before? {
        IdlePass(p.depth, maxDepth);
      }
    }
  }

  /** The loop is over, or has counted n passes and at least as many jobs. */
  ghost predicate Counted(p: Pass, n: nat, jobs: nat) {
    || p.Ended?
    || (p.depth == n + 1 && p.level >= 1 && p.worst >= n + 1
        && if n == 0 then p.level == p.worst == jobs else p.worst <= 1_000_000_000)
  }

  /** With jobs, each pass adds to the total and to the depth alike. */
  lemma BusyPass(p: Pass, n: nat, jobs: nat, maxDepth: int)
    requires jobs > 0 && Counted(p, n, jobs)
    ensures Counted(NextPass(p, jobs, maxDepth), n + 1, jobs)
  {
    if p.Before? && p.level <= 1_000_000_000 / AtLeastOne(jobs) {
      var product := p.level * AtLeastOne(jobs);
      GuardExact(p.level, AtLeastOne(jobs));
      SmallProduct(p.level, AtLeastOne(jobs));
      assert 1 <= product <= 1_000_000_000 && (n == 0 ==> p.worst <= product);
      assert Wrap(product) == product;
    }
  }

  lemma SmallProduct(level: nat, jobs: nat)
    requires level >= 1 && jobs >= 1
    ensures level * jobs >= level
  {
  }

  lemma {:induction false} SomeJobs(jobs: nat, maxDepth: int, n: nat)
    requires jobs > 0
    ensures Counted(Passes(jobs, maxDepth, n), n, jobs)
  {
    if n > 0 {
      SomeJobs(jobs, maxDepth, n - 1);
      BusyPass(Passes(jobs, maxDepth, n - 1), n - 1, jobs, maxDepth);
    }
  }

  /** The loop ends unless there are no jobs and the depth is the largest there is. */
  lemma EndsIff(jobs: nat, maxDepth: int)
    requires 0 < maxDepth <= MAX_INT64 as int
    ensures (exists n :: Passes(jobs, maxDepth, n).Ended?) <==> jobs > 0 || maxDepth < MAX_INT64 as int
  {
    if jobs > 0 {
      SomeJobs(jobs, maxDepth, 1_000_000_000);
      assert Passes(jobs, maxDepth, 1_000_000_000).Ended?;
    } else if maxDepth < MAX_INT64 as int {
      NoJobs(maxDepth, maxDepth);
      assert Passes(0, maxDepth, maxDepth + 1).Ended?;
    } else {
      forall n ensures !Passes(0, maxDepth, n).Ended? {
        NoJobs(maxDepth, n);
      }
    }
  }
}
