/** The per-tool sliding-window rate limiter.  Times and durations are in nanoseconds. */
module RateLimiter {

  /** `sort.Search` for the first call after the cutoff, between lo and hi. */
  function Search(calls: seq<int>, cutoff: int, lo: nat, hi: nat): (idx: nat)
    requires lo <= hi <= |calls|
    ensures lo <= idx <= hi
    decreases hi - lo
  {
    if lo == hi then lo
    else
      var mid := (lo + hi) / 2;
      if calls[mid] > cutoff then Search(calls, cutoff, lo, mid) else Search(calls, cutoff, mid + 1, hi)
  }

  function Pruned(calls: seq<int>, cutoff: int): seq<int> {
    calls[Search(calls, cutoff, 0, |calls|)..]
  }

  datatype Verdict = Verdict(calls: seq<int>, retryAfter: int, ok: bool)

  predicate Limiting(limit: int, window: int) { limit > 0 && window > 0 }

  /** One call of `allow` on the calls kept for its tool. */
  function Decide(calls: seq<int>, limit: int, window: int, now: int): Verdict
    requires Limiting(limit, window)
  {
    var kept := Pruned(calls, now - window);
    if |kept| >= limit then
      var wait := kept[0] + window - now;
      Verdict(kept, if wait < 0 then 0 else wait, false)
    else Verdict(kept + [now], 0, true)
  }

  function CallsOf(calls: map<string, seq<int>>, tool: string): seq<int> {
    if tool in calls then calls[tool] else []
  }

  method SortSearch(calls: seq<int>, cutoff: int) returns (idx: nat)
    ensures idx <= |calls| && idx == Search(calls, cutoff, 0, |calls|)
  {
    var lo, hi := 0, |calls|;
    while lo < hi
      invariant 0 <= lo <= hi <= |calls|
      invariant Search(calls, cutoff, lo, hi) == Search(calls, cutoff, 0, |calls|)
    {
      var mid := (lo + hi) / 2;
      if calls[mid] > cutoff {
        hi := mid;
      } else {
        lo := mid + 1;
      }
    }
    idx := lo;
  }

  class ToolRateLimiter {
    var calls: map<string, seq<int>>

    constructor ()
      ensures calls == map[]
    {
      calls := map[];
    }

    /** Only the entry of `tool` changes; a rule without limit or window changes nothing. */
    method Allow(tool: string, limit: int, window: int, now: int) returns (retryAfter: int, ok: bool)
      modifies this
      ensures limit <= 0 || window <= 0 ==> ok && retryAfter == 0 && calls == old(calls)
      ensures limit > 0 && window > 0 ==>
                var v := Decide(CallsOf(old(calls), tool), limit, window, now);
                calls == old(calls)[tool := v.calls] && retryAfter == v.retryAfter && ok == v.ok
    {
      if limit <= 0 || window <= 0 {
        return 0, true;
      }
      var mine := CallsOf(calls, tool);
      var cutoff := now - window;
      var idx := SortSearch(mine, cutoff);
      mine := mine[idx..];
      if |mine| >= limit {
        var oldest := mine[0];
        retryAfter := oldest + window - now;
        if retryAfter < 0 {
          retryAfter := 0;
        }
        calls := calls[tool := mine];
        return retryAfter, false;
      }
      calls := calls[tool := mine + [now]];
      return 0, true;
    }
  }

  // ---------- the binary search ----------

  ghost predicate Sorted(s: seq<int>) {
    forall i, j :: 0 <= i <= j < |s| ==> s[i] <= s[j]
  }

  lemma {:induction false} SearchSplits(calls: seq<int>, cutoff: int, lo: nat, hi: nat)
    requires Sorted(calls) && lo <= hi <= |calls|
    requires forall i :: 0 <= i < lo ==> calls[i] <= cutoff
    requires forall i :: hi <= i < |calls| ==> calls[i] > cutoff
    ensures var idx := Search(calls, cutoff, lo, hi);
            && (forall i :: 0 <= i < idx ==> calls[i] <= cutoff)
            && (forall i :: idx <= i < |calls| ==> calls[i] > cutoff)
    decreases hi - lo
  {
    if lo < hi {
      var mid := (lo + hi) / 2;
      if calls[mid] > cutoff {
        SearchSplits(calls, cutoff, lo, mid);
      } else {
        SearchSplits(calls, cutoff, mid + 1, hi);
      }
    }
  }

  // ---------- runs of one tool under one rule ----------

  /** The calls kept, and every call ever allowed, in order. */
  datatype Log = Log(calls: seq<int>, allowed: seq<int>)

  function Step(log: Log, limit: int, window: int, now: int): Log
    requires Limiting(limit, window)
  {
    var v := Decide(log.calls, limit, window, now);
    Log(v.calls, if v.ok then log.allowed + [now] else log.allowed)
  }

  function Run(times: seq<int>, limit: int, window: int): Log
    requires Limiting(limit, window)
    decreases |times|
  {
    if times == [] then Log([], [])
    else Step(Run(times[..|times| - 1], limit, window), limit, window, times[|times| - 1])
  }

  /** `last` is a time not before any call so far. */
  ghost predicate Inv(log: Log, limit: int, window: int, last: int) {
    var cut := |log.allowed| - |log.calls|;
    && 0 <= cut && log.calls == log.allowed[cut..]
    && Sorted(log.allowed)
    && (forall i :: 0 <= i < |log.allowed| ==> log.allowed[i] <= last)
    && (forall i :: 0 <= i < cut ==> log.allowed[i] <= last - window)
    && |log.calls| <= limit
    && Spaced(log.allowed, limit, window)
  }

  /** Pruning the tail of the allowed calls leaves a shorter tail: exactly those after the cutoff. */
  lemma PrunedTail(allowed: seq<int>, cut: nat, cutoff: int) returns (kept: nat)
    requires Sorted(allowed) && cut <= |allowed| && forall i :: 0 <= i < cut ==> allowed[i] <= cutoff
    ensures cut <= kept <= |allowed| && Pruned(allowed[cut..], cutoff) == allowed[kept..]
    ensures forall i :: 0 <= i < kept ==> allowed[i] <= cutoff
    ensures forall i :: kept <= i < |allowed| ==> allowed[i] > cutoff
  {
    var calls := allowed[cut..];
    assert Sorted(calls);
    SearchSplits(calls, cutoff, 0, |calls|);
    var idx := Search(calls, cutoff, 0, |calls|);
    kept := cut + idx;
    assert calls[idx..] == allowed[kept..];
    forall i | cut <= i < |allowed| ensures i < kept ==> allowed[i] <= cutoff
                                    ensures i >= kept ==> allowed[i] > cutoff
    {
      assert allowed[i] == calls[i - cut];
    }
  }

  /** What the limiter works with at a later time. */
  lemma KeptAt(log: Log, limit: int, window: int, last: int, now: int) returns (kept: nat)
    requires Limiting(limit, window) && Inv(log, limit, window, last) && last <= now
    ensures kept <= |log.allowed| && |log.allowed| - kept <= limit
    ensures Pruned(log.calls, now - window) == log.allowed[kept..]
    ensures forall i :: 0 <= i < kept ==> log.allowed[i] <= now - window
    ensures forall i :: kept <= i < |log.allowed| ==> log.allowed[i] > now - window
  {
    var cut := |log.allowed| - |log.calls|;
    kept := PrunedTail(log.allowed, cut, now - window);
  }

  /** The decision in terms of the allowed calls of the last window. */
  lemma DecideOn(calls: seq<int>, allowed: seq<int>, kept: nat, limit: int, window: int, now: int)
    requires Limiting(limit, window) && kept <= |allowed| && Pruned(calls, now - window) == allowed[kept..]
    ensures var v := Decide(calls, limit, window, now);
            && (v.ok <==> |allowed| - kept < limit)
            && (v.ok ==> v.calls == allowed[kept..] + [now])
            && (!v.ok ==> v.calls == allowed[kept..] && kept < |allowed|
                          && v.retryAfter == if allowed[kept] + window < now then 0 else allowed[kept] + window - now)
  {
  }

  lemma RefuseKeeps(allowed: seq<int>, kept: nat, limit: int, window: int, now: int)
    requires kept <= |allowed| && |allowed| - kept <= limit
    requires Sorted(allowed) && forall i :: 0 <= i < |allowed| ==> allowed[i] <= now
    requires forall i :: 0 <= i < kept ==> allowed[i] <= now - window
    requires Spaced(allowed, limit, window)
    ensures Inv(Log(allowed[kept..], allowed), limit, window, now)
  {
  }

  lemma StepKeeps(log: Log, limit: int, window: int, last: int, now: int)
    requires Limiting(limit, window) && Inv(log, limit, window, last) && last <= now
    ensures Inv(Step(log, limit, window, now), limit, window, now)
  {
    var kept := KeptAt(log, limit, window, last, now);
    DecideOn(log.calls, log.allowed, kept, limit, window, now);
    if |log.allowed| - kept < limit {
      AllowKeeps(log.allowed, kept, limit, window, now);
    } else {
      RefuseKeeps(log.allowed, kept, limit, window, now);
    }
  }

  lemma AllowKeeps(allowed: seq<int>, kept: nat, limit: int, window: int, now: int)
    requires kept <= |allowed| && |allowed| - kept < limit
    requires Sorted(allowed) && forall i :: 0 <= i < |allowed| ==> allowed[i] <= now
    requires forall i :: 0 <= i < kept ==> allowed[i] <= now - window
    requires Spaced(allowed, limit, window)
    ensures Inv(Log(allowed[kept..] + [now], allowed + [now]), limit, window, now)
  {
    assert allowed[kept..] + [now] == (allowed + [now])[kept..];
  }

  ghost predicate NonDecreasing(times: seq<int>) { Sorted(times) }

  lemma {:induction false} RunInv(times: seq<int>, limit: int, window: int, last: int)
    requires Limiting(limit, window) && NonDecreasing(times)
    requires forall i :: 0 <= i < |times| ==> times[i] <= last
    ensures Inv(Run(times, limit, window), limit, window, last)
    decreases |times|
  {
    if times != [] {
      var n := |times| - 1;
      RunInv(times[..n], limit, window, times[n]);
      StepKeeps(Run(times[..n], limit, window), limit, window, times[n], times[n]);
    }
  }

  // ---------- exactness ----------

  /** How many allowed calls have from < time <= to. */
  function Within(allowed: seq<int>, from: int, to: int): nat {
    if allowed == [] then 0
    else
      Within(allowed[..|allowed| - 1], from, to) +
      (if from < allowed[|allowed| - 1] <= to then 1 else 0)
  }

  lemma {:induction false} WithinTail(allowed: seq<int>, from: int, to: int, cut: nat)
    requires cut <= |allowed| && forall i :: 0 <= i < cut ==> allowed[i] <= from
    ensures Within(allowed, from, to) <= |allowed| - cut
    ensures (forall i :: cut <= i < |allowed| ==> from < allowed[i] <= to) ==> Within(allowed, from, to) == |allowed| - cut
  {
    if allowed != [] {
      var n := |allowed| - 1;
      WithinTail(allowed[..n], from, to, if cut > n then n else cut);
    }
  }

  ghost predicate Spaced(allowed: seq<int>, limit: int, window: int) {
    forall i, j :: 0 <= i < j < |allowed| && j == i + limit ==> allowed[i] + window <= allowed[j]
  }

  lemma {:induction false} WithinBounded(allowed: seq<int>, limit: int, window: int, from: int)
    requires Limiting(limit, window) && Sorted(allowed) && Spaced(allowed, limit, window)
    ensures Within(allowed, from, from + window) <= limit
  {
    if allowed != [] {
      var n := |allowed| - 1;
      if from < allowed[n] <= from + window && n >= limit {
        var cut := n + 1 - limit;
        assert allowed[cut - 1] + window <= allowed[n];
        forall i | 0 <= i < cut ensures allowed[i] <= from {
          assert allowed[i] <= allowed[cut - 1];
        }
        WithinTail(allowed, from, from + window, cut);
      } else if from < allowed[n] <= from + window {
        WithinTail(allowed, from, from + window, 0);
      } else {
        WithinBounded(allowed[..n], limit, window, from);
      }
    }
  }

  /** No window of length W ever holds more than Limit allowed calls: calls that are Limit apart in
      order are at least W apart in time. */
  lemma WindowHoldsLimit(times: seq<int>, limit: int, window: int, from: int)
    requires Limiting(limit, window) && NonDecreasing(times)
    ensures Within(Run(times, limit, window).allowed, from, from + window) <= limit
    ensures Spaced(Run(times, limit, window).allowed, limit, window)
  {
    RunInv(times, limit, window, if times == [] then 0 else times[|times| - 1]);
    WithinBounded(Run(times, limit, window).allowed, limit, window, from);
  }

  lemma RunInvAt(times: seq<int>, limit: int, window: int, now: int)
    requires Limiting(limit, window) && NonDecreasing(times + [now])
    ensures Inv(Run(times, limit, window), limit, window, now)
  {
    var all := times + [now];
    assert forall i :: 0 <= i < |times| ==> times[i] == all[i];
    assert forall i :: 0 <= i < |times| ==> all[i] <= all[|times|];
    RunInv(times, limit, window, now);
  }

  /** A call at `now` is refused exactly when Limit calls were allowed in the last window. */
  lemma RefusedIff(times: seq<int>, limit: int, window: int, now: int)
    requires Limiting(limit, window) && NonDecreasing(times + [now])
    ensures var log := Run(times, limit, window);
            !Decide(log.calls, limit, window, now).ok <==> Within(log.allowed, now - window, now) == limit
  {
    RunInvAt(times, limit, window, now);
    RefusedAt(Run(times, limit, window), limit, window, now);
  }

  lemma RefusedAt(log: Log, limit: int, window: int, now: int)
    requires Limiting(limit, window) && Inv(log, limit, window, now)
    ensures !Decide(log.calls, limit, window, now).ok <==> Within(log.allowed, now - window, now) == limit
  {
    var kept := KeptAt(log, limit, window, now, now);
    DecideOn(log.calls, log.allowed, kept, limit, window, now);
    WithinKept(log.allowed, kept, limit, window, now);
  }

  lemma WithinKept(allowed: seq<int>, kept: nat, limit: int, window: int, now: int)
    requires kept <= |allowed| && |allowed| - kept <= limit
    requires forall i :: 0 <= i < kept ==> allowed[i] <= now - window
    requires forall i :: kept <= i < |allowed| ==> now - window < allowed[i]
    requires forall i :: 0 <= i < |allowed| ==> allowed[i] <= now
    ensures |allowed| - kept >= limit <==> Within(allowed, now - window, now) == limit
  {
    WithinTail(allowed, now - window, now, kept);
  }

  /** `retryAfter` of a refusal is exactly the least wait after which the call is allowed, if no
      other call comes in between. */
  lemma RetryAfterIsLeast(times: seq<int>, limit: int, window: int, now: int, wait: int)
    requires Limiting(limit, window) && NonDecreasing(times + [now]) && wait >= 0
    requires !Decide(Run(times, limit, window).calls, limit, window, now).ok
    ensures var v := Decide(Run(times, limit, window).calls, limit, window, now);
            && v.retryAfter > 0
            && (Decide(v.calls, limit, window, now + wait).ok <==> wait >= v.retryAfter)
  {
    RunInvAt(times, limit, window, now);
    RetryAt(Run(times, limit, window), limit, window, now, wait);
  }

  lemma RetryAt(log: Log, limit: int, window: int, now: int, wait: int)
    requires Limiting(limit, window) && Inv(log, limit, window, now) && wait >= 0
    requires !Decide(log.calls, limit, window, now).ok
    ensures var v := Decide(log.calls, limit, window, now);
            && v.retryAfter > 0
            && (Decide(v.calls, limit, window, now + wait).ok <==> wait >= v.retryAfter)
  {
    var kept := KeptAt(log, limit, window, now, now);
    DecideOn(log.calls, log.allowed, kept, limit, window, now);
    RetryFrom(Decide(log.calls, limit, window, now), log.allowed, kept, limit, window, now, wait);
  }

  lemma RetryFrom(v: Verdict, allowed: seq<int>, kept: nat, limit: int, window: int, now: int, wait: int)
    requires Limiting(limit, window) && wait >= 0 && kept < |allowed| == kept + limit
    requires Sorted(allowed) && allowed[kept] > now - window
    requires forall i :: 0 <= i < kept ==> allowed[i] <= now - window
    requires v.calls == allowed[kept..]
    requires v.retryAfter == if allowed[kept] + window < now then 0 else allowed[kept] + window - now
    ensures v.retryAfter > 0 && (Decide(v.calls, limit, window, now + wait).ok <==> wait >= v.retryAfter)
  {
    LaterDecision(v.calls, allowed, kept, limit, window, now + wait);
  }

  /** With a full window, a later call is allowed exactly when the oldest call has left it. */
  lemma LaterDecision(calls: seq<int>, allowed: seq<int>, kept: nat, limit: int, window: int, at: int)
    requires Limiting(limit, window) && Sorted(allowed) && kept < |allowed| == kept + limit
    requires forall i :: 0 <= i < kept ==> allowed[i] <= at - window
    requires calls == allowed[kept..]
    ensures Decide(calls, limit, window, at).ok <==> allowed[kept] <= at - window
  {
    var later := PrunedTail(allowed, kept, at - window);
    DecideOn(calls, allowed, later, limit, window, at);
  }
}
