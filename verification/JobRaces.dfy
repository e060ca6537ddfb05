/** Runs of the job protocol that show where its guarantees end. */
module JobRaces {
  import opened JobGuarantees
  import opened JobInvariants
  import opened JobProtocol
  import opened Options

  // ---------- Wait against ChangeWordlist ----------

  lemma {:induction false} LeadsSnoc(s: State, steps: seq<Step>, t: State, step: Step)
    requires Leads(s, steps, t) && Enabled(t, step)
    ensures Leads(s, steps + [step], Apply(t, step))
    decreases |steps|
  {
    if steps == [] {
      assert (steps + [step])[1..] == [];
    } else {
      assert (steps + [step])[1..] == steps[1..] + [step];
      LeadsSnoc(Apply(s, steps[0]), steps[1..], t, step);
    }
  }

  lemma ReachStep(s: State, step: Step) returns (t: State)
    requires Reachable(s) && Enabled(s, step)
    ensures Reachable(t) && t == Apply(s, step)
  {
    var workers: nat, steps :| Leads(Init(workers), steps, s);
    LeadsSnoc(Init(workers), steps, s, step);
    t := Apply(s, step);
    assert Leads(Init(workers), steps + [step], t);
  }

  // ---------- a run in which the last scanner leaves before its job is done ----------

  const SCANNER: Proc := Proc(Scanner, Live, None, Run)

  /** The states of an engine with one worker and one wordlist scanner. */
  function OneJob(submissionWg: int, activeJobs: int, scannerWg: int, queue: multiset<Job>, seen: seq<Job>,
                  worker: Proc, scanner: Proc): State
  {
    State(0, false, submissionWg, activeJobs, scannerWg, 1, queue, false, false,
          if seen == [] then {} else {seen[0].key}, seen, [worker, scanner], Idle, Waiting, NotStopping)
  }

  lemma OwnStep(s: State, p: nat, act: Act, t: State)
    requires Reachable(s) && Enabled(s, Own(p, act)) && Spawned(act) == []
    requires t.procs == s.procs[p := Next(s, s.procs[p], act)] && Shared(s, s.procs[p], act).(procs := t.procs) == t
    ensures Reachable(t)
  {
    assert s.procs[p := Next(s, s.procs[p], act)] + [] == t.procs;
    var u := ReachStep(s, Own(p, act));
  }

  lemma Launched() returns (t: State)
    ensures Reachable(t) && t == OneJob(0, 0, 1, multiset{}, [], IDLE_WORKER, SCANNER)
  {
    t := Init(1);
    assert Leads(Init(1), [], t) && t.procs == [IDLE_WORKER];
    t := ReachStep(t, Ctl(KickoffCall));
    t := ReachStep(t, Ctl(SpawnWordlist));
    assert t.procs == [IDLE_WORKER, SCANNER];
  }

  lemma Filtered(job: Job) returns (t: State)
    requires job.runId == 0
    ensures Reachable(t) && t == OneJob(1, 0, 1, multiset{}, [job], IDLE_WORKER, SCANNER.(pc := Accepted(job)))
  {
    var s := Launched();
    var u := OneJob(1, 0, 1, multiset{}, [], IDLE_WORKER, SCANNER.(pc := Admitted(job)));
    OwnStep(s, 1, Submit(job), u);
    t := OneJob(1, 0, 1, multiset{}, [job], IDLE_WORKER, SCANNER.(pc := Accepted(job)));
    OwnStep(u, 1, SubmitFilter(false), t);
  }

  lemma Queued(job: Job) returns (t: State)
    requires job.runId == 0
    ensures Reachable(t) && t == OneJob(1, 1, 1, multiset{job}, [job], IDLE_WORKER, SCANNER.(pc := Leaving))
  {
    var s := Filtered(job);
    var u := OneJob(1, 1, 1, multiset{}, [job], IDLE_WORKER, SCANNER.(pc := Pushing(job)));
    OwnStep(s, 1, SubmitReserve, u);
    t := OneJob(1, 1, 1, multiset{job}, [job], IDLE_WORKER, SCANNER.(pc := Leaving));
    OwnStep(u, 1, PushOk, t);
  }

  lemma LeftAlone(job: Job) returns (t: State)
    requires job.runId == 0
    ensures Reachable(t) && t == OneJob(0, 1, 0, multiset{job}, [job], IDLE_WORKER, SCANNER.(life := Dead))
  {
    var s := Queued(job);
    var u := OneJob(0, 1, 1, multiset{job}, [job], IDLE_WORKER, SCANNER);
    OwnStep(s, 1, SubmitReturn, u);
    t := OneJob(0, 1, 0, multiset{job}, [job], IDLE_WORKER, SCANNER.(life := Dead));
    OwnStep(u, 1, ScannerEnd, t);
  }

  lemma AtWork(job: Job) returns (t: State)
    requires job.runId == 0
    ensures Reachable(t)
    ensures t == OneJob(0, 1, 0, multiset{}, [job], IDLE_WORKER.(held := Some(job)), SCANNER.(life := Dead))
  {
    var s := LeftAlone(job);
    var u := OneJob(0, 1, 0, multiset{}, [job], IDLE_WORKER.(held := Some(job), pc := Popped), SCANNER.(life := Dead));
    OwnStep(s, 0, Pop(job), u);
    t := OneJob(0, 1, 0, multiset{}, [job], IDLE_WORKER.(held := Some(job)), SCANNER.(life := Dead));
    OwnStep(u, 0, StaleOk, t);
  }

  /** Whenever the last scanner is gone while a worker still processes a job, one step of that worker leads
      to such an Add, whoever is waiting. */
  lemma BranchRacesWait(t: State, p: nat) returns (u: State)
    requires Reachable(t) && t.scannerWg == 0 && p < |t.procs| && Busy(t.procs[p])
    ensures Reachable(u) && u.waiter == t.waiter && u.stop == t.stop && u.scannerWg == 0
    ensures Enabled(u, Own(p, BranchRegister)) && Apply(u, Own(p, BranchRegister)).scannerWg == 1
  {
    u := ReachStep(t, Own(p, BranchReserve));
  }

  /** The race of `ScannerAddFromZeroIff` is reached, against `Wait` and against `Shutdown`. */
  lemma ScannerRaceReached(key: string) returns (waiting: State, stopping: State)
    ensures Reachable(waiting) && waiting.waiter == Waiting && waiting.scannerWg == 0 && Reserving(waiting)
    ensures Reachable(stopping) && stopping.stop == Cancelled && stopping.scannerWg == 0 && Reserving(stopping)
  {
    var t := AtWork(Job(0, key));
    waiting := BranchRacesWait(t, 0);
    t := ReachStep(t, Ctl(StopCancel));
    stopping := BranchRacesWait(t, 0);
  }

  /** The condition of `WaitIsFinal` is needed in every case: from every reachable state between the two waits
      with no job active, a kickoff lets `Wait` return while a scanner is live and not finished. */
  lemma KickBreaksWait(t: State, kick: Control) returns (u: State)
    requires Reachable(t) && t.waiter.ScannersSeen? && t.activeJobs == 0
    requires Kicks(Ctl(kick)) && CanControl(t, kick)
    ensures Reachable(u) && u.waiter == Returned(false) && !Finished(u)
    ensures exists p: nat :: p < |u.procs| && u.procs[p].kind == Scanner && Active(u.procs[p])
    ensures u.runId == t.runId && u.restarting == t.restarting == false
  {
    ReachableInv(t);
    u := ReachStep(t, Ctl(kick));
    u := ReachStep(u, Ctl(SpawnWordlist));
    u := ReachStep(u, Ctl(WaitActive));
    assert u.procs[|t.procs|] == Proc(Scanner, Live, None, Run);
  }

  /** And the condition of `NoAddFromZero` is needed: after such a kickoff the new scanner can submit a job, and
      its `activeJobs.Add` finds the counter at zero while `Wait` waits for it. */
  lemma KickAddsFromZero(t: State, kick: Control, key: string) returns (u: State, p: nat)
    requires Reachable(t) && t.waiter.ScannersSeen? && t.activeJobs == 0 && key !in t.filter
    requires Kicks(Ctl(kick)) && CanControl(t, kick)
    ensures Reachable(u) && u.waiter == ScannersSeen(false) && u.activeJobs == 0
    ensures Enabled(u, Own(p, SubmitReserve)) && Apply(u, Own(p, SubmitReserve)).activeJobs == 1
  {
    assert Staged(t) by { ReachableInv(t); }
    var job := Job(t.runId, key);
    u, p := KickedOff(t, kick);
    u := ReachStep(u, Own(p, Submit(job)));
    u := ReachStep(u, Own(p, SubmitFilter(false)));
  }

  lemma KickedOff(t: State, kick: Control) returns (u: State, p: nat)
    requires Reachable(t) && Staged(t) && t.waiter.ScannersSeen? && Kicks(Ctl(kick)) && CanControl(t, kick)
    ensures Reachable(u) && p < |u.procs| && u.procs[p] == SCANNER && !u.restarting
    ensures u.waiter == ScannersSeen(false) && u.activeJobs == t.activeJobs && u.filter == t.filter && u.runId == t.runId
  {
    u := ReachStep(t, Ctl(kick));
    u := ReachStep(u, Ctl(SpawnWordlist));
    p := |t.procs|;
  }

  /** Such a state is reached in the gap of a restart, with any number of workers. */
  lemma WaitRacesRestart(workers: nat) returns (t: State)
    ensures Reachable(t) && t.waiter == Returned(false) && !Finished(t)
    ensures exists p: nat :: p < |t.procs| && t.procs[p].kind == Scanner && Active(t.procs[p])
                       && Admits(t, Job(t.runId, "GET:/admin"))
  {
    t := Restarted(workers);
    t := KickBreaksWait(t, RestartKick);
  }

  /** A restart whose gap a Wait uses to see the scanners drained. */
  lemma Restarted(workers: nat) returns (t: State)
    ensures Reachable(t) && t == Init(workers).(ctl := Reopened, runId := 1, waiter := ScannersSeen(true))
  {
    t := RestartGap(workers);
    t := ReachStep(t, Ctl(WaitScanners));
    t := ReachStep(t, Ctl(RestartReset));
    t := ReachStep(t, Ctl(RestartReopen));
  }

  lemma RestartGap(workers: nat) returns (t: State)
    ensures Reachable(t) && t == Init(workers).(ctl := Quiet, restarting := true, runId := 1)
  {
    t := Init(workers);
    assert Leads(Init(workers), [], t);
    t := ReachStep(t, Ctl(RestartClose));
    t := ReachStep(t, Ctl(RestartSubsWait));
    t := ReachStep(t, Ctl(RestartDrain));
    assert t == Init(workers).(ctl := Draining(0), restarting := true, runId := 1);
    t := ReachStep(t, Ctl(RestartActiveWait));
    t := ReachStep(t, Ctl(RestartScannerWait));
  }
}
