/** What the job protocol guarantees in every reachable state, for every interleaving and any number of restarts. */
module JobGuarantees {
  import opened JobInvariants
  import opened JobProtocol
  import opened Options

  /** A goroutine for which `activeJobs` owes a Done. */
  predicate Owes(p: Proc) {
    || p.held.Some?
    || (p.life == Live && (p.kind == Branch || p.kind == Aux))
    || p.pc.Pushing? || p.pc.PushFailed?
    || p.pc.BranchReserved? || p.pc.BranchRegistered? || p.pc.AuxReserved?
  }

  /** Termination detection: `activeJobs` counts the queued jobs, the submitters between Add and
      the end of Push, the jobs workers hold, the live branch and auxiliary tasks with their
      reservations, and the drained jobs not yet released.  No counter ever goes negative, and
      `activeJobs` is zero exactly when there is no such work. */
  lemma TerminationDetection(t: State)
    requires Reachable(t)
    ensures t.activeJobs == |t.queue| + Sum(ActiveJobs, t.procs) + Pending(t.ctl)
    ensures t.activeJobs >= 0 && t.submissionWg >= 0 && t.scannerWg >= 0 && t.workerWg >= 0
    ensures t.activeJobs == 0 <==>
            t.queue == multiset{} && Pending(t.ctl) == 0 && forall i :: 0 <= i < |t.procs| ==> !Owes(t.procs[i])
  {
    assert Counted(t) by { ReachableInv(t); }
    assert forall g :: Count(g, t) >= 0;
    assert Count(ActiveJobs, t) >= 0 && Count(Submissions, t) >= 0 && Count(Scanners, t) >= 0 && Count(Workers, t) >= 0;
    SumOwes(t.procs);
  }

  lemma {:induction false} SumOwes(procs: seq<Proc>)
    ensures Sum(ActiveJobs, procs) == 0 <==> forall i :: 0 <= i < |procs| ==> !Owes(procs[i])
  {
    if procs != [] {
      SumOwes(procs[..|procs|-1]);
      assert procs == procs[..|procs|-1] + [procs[|procs|-1]];
    }
  }

  /** Nothing left: an empty queue, and every goroutine is an idle worker, dead, or a branch past
      its last submission. */
  ghost predicate Finished(s: State) {
    && s.queue == multiset{}
    && s.activeJobs == 0
    && forall i :: 0 <= i < |s.procs| ==>
         s.procs[i].pc == Run && s.procs[i].held.None? && (s.procs[i].life == Live ==> s.procs[i].kind == Worker)
  }

  lemma QuietIsFinished(s: State)
    requires Inv(s) && NoScanner(s) && s.activeJobs == 0
    ensures Finished(s)
  {
    Unregistered(s, ActiveJobs);
    forall i | 0 <= i < |s.procs|
      ensures s.procs[i].pc == Run && s.procs[i].held.None? && (s.procs[i].life == Live ==> s.procs[i].kind == Worker)
    {
      assert Shaped(s.procs[i]) && Weight(ActiveJobs, s.procs[i]) == 0;
    }
  }

  lemma {:induction false} QuietRun(s: State, steps: seq<Step>, t: State)
    requires Inv(s) && NoScanner(s) && s.activeJobs == 0
    requires Leads(s, steps, t) && forall i :: 0 <= i < |steps| ==> !Kicks(steps[i])
    ensures Finished(t)
    decreases |steps|
  {
    if steps == [] {
      QuietIsFinished(s);
    } else {
      assert !Kicks(steps[0]);
      match steps[0] {
        case Own(p, act) =>
          OwnKeepsInv(s, p, act);
          OwnNoScanner(s, p, act);
          OwnStaysQuiet(s, p, act);
        case Ctl(c) =>
          ControlKeepsInv(s, c);
          ControlStaysQuiet(s, c);
      }
      QuietRun(Apply(s, steps[0]), steps[1..], t);
    }
  }

  /** `Wait` is final: if no scanner was kicked off between its two waits, then when it returns the
      queue is empty, no worker holds a job, no task is live, and this stays so along every later
      run of the engine, until someone kicks off a scanner. */
  lemma WaitIsFinal(t: State, steps: seq<Step>, u: State)
    requires Reachable(t) && t.waiter == Returned(true)
    requires Leads(t, steps, u) && forall i :: 0 <= i < |steps| ==> !Kicks(steps[i])
    ensures Finished(t) && Finished(u)
  {
    ReachableInv(t);
    QuietIsFinished(t);
    QuietRun(t, steps, u);
  }

  /** Between the two waits of `Wait`, of `Shutdown`, and after the drain of `ChangeWordlist`,
      every `activeJobs.Add` finds the counter positive: no Add races the Wait at zero. */
  lemma NoAddFromZero(t: State, p: nat, act: Act)
    requires Reachable(t) && Enabled(t, Own(p, act))
    requires t.waiter == ScannersSeen(true) || t.stop == StopScanners || t.ctl.Draining?
    requires Apply(t, Own(p, act)).activeJobs > t.activeJobs
    ensures t.activeJobs > 0
  {
    ReachableInv(t);
    Registers(t, p, ActiveJobs);
    Registers(t, p, Submissions);
    assert Shaped(t.procs[p]);
  }

  /** What adds to the two other groups. */
  lemma ActAdds(s: State, q: Proc, act: Act)
    requires CanAct(s, q, act)
    ensures Shared(s, q, act).scannerWg > s.scannerWg <==> act.BranchRegister?
    ensures Shared(s, q, act).submissionWg > s.submissionWg ==> act.Submit? && !s.restarting
  {
  }

  lemma ControlAdds(s: State, c: Control)
    requires CanControl(s, c)
    ensures DoControl(s, c).scannerWg > s.scannerWg <==> c.KickoffCall? || c.KickoffPassive? || c.RestartKick?
    ensures DoControl(s, c).submissionWg == s.submissionWg
  {
  }

  /** While `ChangeWordlist` waits for the submissions none is added, and while it waits for the scanners
      none of those is. */
  lemma NoAddInRestart(t: State, step: Step)
    requires Reachable(t) && Enabled(t, step)
    ensures t.ctl == Closed ==> Apply(t, step).submissionWg <= t.submissionWg
    ensures t.ctl == ActiveDrained ==> Apply(t, step).scannerWg <= t.scannerWg
  {
    assert Counted(t) && AllShaped(t) && Staged(t) by { ReachableInv(t); }
    match step
    case Own(p, act) =>
      ActAdds(t, t.procs[p], act);
      if act.BranchRegister? {
        Registers(t, p, ActiveJobs);
      }
    case Ctl(c) => ControlAdds(t, c);
  }

  ghost predicate Reserving(t: State) { exists p :: 0 <= p < |t.procs| && t.procs[p].pc.BranchReserved? }

  ghost predicate AddsScanner(t: State, step: Step) { Enabled(t, step) && Apply(t, step).scannerWg > t.scannerWg }

  /** The scanner waits of `Wait` and `Shutdown` have no such guard.  With the group at zero some step adds to it
      exactly when a worker stands between `activeJobs.Add` and `AddScanner`, or a scanner is about to be kicked
      off; once a `Shutdown` has begun only the former. */
  lemma ScannerAddFromZeroIff(t: State)
    requires Reachable(t) && t.scannerWg == 0
    ensures (exists step :: AddsScanner(t, step))
            <==> Reserving(t) || CanControl(t, KickoffCall) || CanControl(t, RestartKick)
    ensures t.stop == Cancelled ==> !CanControl(t, KickoffCall) && !CanControl(t, RestartKick)
  {
    assert Counted(t) && Stopped(t) by { ReachableInv(t); }
    if step :| AddsScanner(t, step) {
      AddedBy(t, step);
    }
    if Reserving(t) || CanControl(t, KickoffCall) || CanControl(t, RestartKick) {
      var step := Adding(t);
    }
  }

  lemma Adding(t: State) returns (step: Step)
    requires Reserving(t) || CanControl(t, KickoffCall) || CanControl(t, RestartKick)
    ensures AddsScanner(t, step)
  {
    if Reserving(t) {
      var p: nat :| p < |t.procs| && t.procs[p].pc.BranchReserved?;
      step := Own(p, BranchRegister);
      ActAdds(t, t.procs[p], BranchRegister);
    } else if CanControl(t, KickoffCall) {
      step := Ctl(KickoffCall);
      ControlAdds(t, KickoffCall);
    } else {
      step := Ctl(RestartKick);
      ControlAdds(t, RestartKick);
    }
  }

  lemma AddedBy(t: State, step: Step)
    requires Counted(t) && t.scannerWg == 0 && AddsScanner(t, step)
    ensures Reserving(t) || CanControl(t, KickoffCall) || CanControl(t, RestartKick)
  {
    match step
    case Own(p, act) => ActAdds(t, t.procs[p], act);
    case Ctl(c) =>
      ControlAdds(t, c);
      assert Count(Scanners, t) == Sum(Scanners, t.procs);
  }

  /** Generation isolation: while admission is open every queued, held or mid-submission job carries
      the current RunID; while it is closed and the filter not yet reset, the previous one. */
  lemma GenerationIsolation(t: State)
    requires Reachable(t)
    ensures !t.restarting ==>
              && (forall job :: job in t.queue ==> job.runId == t.runId)
              && (forall i :: 0 <= i < |t.procs| ==> JobsOf(t.procs[i], t.runId))
    ensures t.restarting && t.ctl != Cleared ==>
              && (forall job :: job in t.queue ==> job.runId == t.runId - 1)
              && (forall i :: 0 <= i < |t.procs| ==> JobsOf(t.procs[i], t.runId - 1))
  {
    ReachableInv(t);
  }

  /** The stale check in terms of the restart alone: a popped job is dropped exactly while admission is closed,
      and processed exactly while it is open. */
  lemma PoppedDecides(t: State, p: nat)
    requires Reachable(t) && p < |t.procs| && t.procs[p].pc.Popped?
    ensures Enabled(t, Own(p, StaleDrop)) <==> t.restarting
    ensures Enabled(t, Own(p, StaleOk)) <==> !t.restarting
  {
    assert Isolated(t) && Staged(t) && AllShaped(t) && Counted(t) && Owned(t) by { ReachableInv(t); }
    assert Shaped(t.procs[p]) && JobsOf(t.procs[p], Generation(t));
    if t.ctl == Cleared {
      Emptied(t);
    }
  }

  /** No step turns a worker with a popped job into a busy one while admission is closed, and none makes it lose
      the job while admission is open. */
  lemma PoppedStays(t: State, p: nat, step: Step)
    requires Reachable(t) && p < |t.procs| && t.procs[p].pc.Popped? && Enabled(t, step)
    ensures p < |Apply(t, step).procs|
    ensures t.restarting ==> !Busy(Apply(t, step).procs[p])
    ensures !t.restarting ==> Apply(t, step).procs[p].held == t.procs[p].held
  {
    assert Shaped(t.procs[p]) by { ReachableInv(t); }
    PoppedDecides(t, p);
    match step
    case Own(i, act) => OwnAt(t, i, act, p);
    case Ctl(c) => ControlAt(t, c, p);
  }

  /** A goroutine's step changes it as `Next` says, and no other goroutine. */
  lemma OwnAt(s: State, i: nat, act: Act, p: nat)
    requires Enabled(s, Own(i, act)) && p < |s.procs|
    ensures p < |Apply(s, Own(i, act)).procs|
    ensures Apply(s, Own(i, act)).procs[p] == if i == p then Next(s, s.procs[p], act) else s.procs[p]
    ensures s.procs[p].pc.Popped? && i == p ==> act == StaleDrop || act == StaleOk || act == BranchEnd
  {
  }

  lemma ControlAt(s: State, c: Control, p: nat)
    requires CanControl(s, c) && p < |s.procs|
    ensures p < |DoControl(s, c).procs| && DoControl(s, c).procs[p] == s.procs[p]
  {
  }

  /** The filter and the counters are reset only when nothing is queued, held or being submitted
      and every scanner, branch and auxiliary task has ended; and this still holds when admission
      reopens. */
  lemma ResetIsQuiet(t: State)
    requires Reachable(t)
    requires Enabled(t, Ctl(RestartReset)) || Enabled(t, Ctl(RestartReopen))
    ensures t.restarting && t.queue == multiset{}
    ensures Enabled(t, Ctl(RestartReopen)) ==> t.filter == {}
    ensures forall i :: 0 <= i < |t.procs| ==> t.procs[i] == IDLE_WORKER || t.procs[i].life == Dead
    ensures forall i :: 0 <= i < |t.procs| ==> t.procs[i].held.None? && !Submitting(t.procs[i].pc)
  {
    ReachableInv(t);
    Emptied(t);
    forall i | 0 <= i < |t.procs|
      ensures t.procs[i].held.None? && !Submitting(t.procs[i].pc)
    {
      assert Shaped(t.procs[i]);
    }
  }

  /** Across any number of restarts the filter lets each (generation, key) through at most once,
      and no job is ever in flight twice, nor without having been let through. */
  lemma NoJobTwice(t: State, job: Job)
    requires Reachable(t)
    ensures forall i, j :: 0 <= i < j < |t.accepted| ==> t.accepted[i] != t.accepted[j]
    ensures InFlight(t, job) <= 1
    ensures job in t.queue || (exists i :: 0 <= i < |t.procs| && t.procs[i].held == Some(job)) ==> job in t.accepted
  {
    ReachableInv(t);
    assert InFlight(t, job) <= if job in t.accepted then 1 else 0;
    if i :| 0 <= i < |t.procs| && t.procs[i].held == Some(job) {
      SumAtLeast(Copies(job), t.procs, i);
    }
  }

  /** `jobs.Close` runs only when the queue is empty and nobody can submit, and no Push is ever
      under way on a closed queue. */
  lemma CloseIsSafe(t: State)
    requires Reachable(t)
    ensures Enabled(t, Ctl(StopCloseJobs)) ==>
              t.queue == multiset{} && forall i :: 0 <= i < |t.procs| ==> !Active(t.procs[i]) && !Submitting(t.procs[i].pc)
    ensures t.queueClosed ==> forall i :: 0 <= i < |t.procs| ==> !Submitting(t.procs[i].pc)
  {
    ReachableInv(t);
    if Rank(t.stop) >= 3 {
      QuietIsFinished(t);
    }
  }

  /** No result is ever sent on the closed `Results` channel: once it is closed, and already when it
      is about to be, every worker, scanner, branch and auxiliary task is past its last send. */
  lemma NoSendAfterClose(t: State, p: nat)
    requires Reachable(t) && (t.resultsClosed || t.stop == WorkersDone) && p < |t.procs|
    ensures !CanAct(t, t.procs[p], SendResult)
    ensures t.procs[p].life != Live
  {
    assert Inv(t) && Rank(t.stop) >= 5 by { ReachableInv(t); }
    assert Finished(t) by { QuietIsFinished(t); }
    assert Weight(Workers, t.procs[p]) == 0 by { Registers(t, p, Workers); }
  }
}
