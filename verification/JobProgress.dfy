/** What the steps of the job protocol achieve: a job goes through the queue, a restart and a shutdown run to their
    end, and no goroutine is ever stuck. */
module JobProgress {
  import opened JobGuarantees
  import opened JobInvariants
  import opened JobProtocol
  import opened JobRaces
  import opened Options

  // ---------- the life of a job ----------

  /** One goroutine changes, and the shared state as given. */
  lemma Moves(s: State, p: nat, act: Act, t: State, q: Proc)
    requires Reachable(s) && Enabled(s, Own(p, act)) && Spawned(act) == []
    requires q == Next(s, s.procs[p], act) && t == Shared(s, s.procs[p], act).(procs := s.procs[p := q])
    ensures Reachable(t)
  {
    OwnStep(s, p, act, t);
  }

  /** A submission of a job of another run, or while admission is closed, changes nothing. */
  lemma NotAdmitted(t: State, p: nat, job: Job)
    requires Enabled(t, Own(p, Submit(job))) && (t.restarting || job.runId != t.runId)
    ensures Apply(t, Own(p, Submit(job))) == t
  {
    assert t.procs[p := t.procs[p]] + [] == t.procs;
  }

  /** The state with goroutine p at another place. */
  function At(t: State, p: nat, pc: Pc): State
    requires p < |t.procs|
  {
    t.(procs := t.procs[p := t.procs[p].(pc := pc)])
  }

  lemma Admitting(t: State, p: nat, key: string) returns (u: State)
    requires Reachable(t) && p < |t.procs| && Active(t.procs[p]) && !t.restarting && key !in t.filter
    ensures Reachable(u)
    ensures u == At(t, p, Accepted(Job(t.runId, key)))
                 .(submissionWg := t.submissionWg + 1, filter := t.filter + {key}, accepted := t.accepted + [Job(t.runId, key)])
  {
    var job := Job(t.runId, key);
    var s := At(t, p, Admitted(job)).(submissionWg := t.submissionWg + 1);
    Moves(t, p, Submit(job), s, t.procs[p].(pc := Admitted(job)));
    u := At(s, p, Accepted(job)).(filter := t.filter + {key}, accepted := t.accepted + [job]);
    Moves(s, p, SubmitFilter(false), u, s.procs[p].(pc := Accepted(job)));
    assert u.procs == t.procs[p := t.procs[p].(pc := Accepted(job))];
  }

  lemma PushDone(t: State, p: nat, job: Job) returns (u: State)
    requires Reachable(t) && p < |t.procs| && t.procs[p].pc == Accepted(job) && !t.queueClosed
    ensures Reachable(u) && u == At(t, p, Leaving).(activeJobs := t.activeJobs + 1, queue := t.queue + multiset{job})
  {
    var s := At(t, p, Pushing(job)).(activeJobs := t.activeJobs + 1);
    Moves(t, p, SubmitReserve, s, t.procs[p].(pc := Pushing(job)));
    u := At(s, p, Leaving).(queue := t.queue + multiset{job});
    Moves(s, p, PushOk, u, s.procs[p].(pc := Leaving));
    assert u.procs == t.procs[p := t.procs[p].(pc := Leaving)];
  }

  lemma SubmitDone(t: State, p: nat) returns (u: State)
    requires Reachable(t) && p < |t.procs| && t.procs[p].pc == Leaving
    ensures Reachable(u) && u == At(t, p, Run).(submissionWg := t.submissionWg - 1)
  {
    u := At(t, p, Run).(submissionWg := t.submissionWg - 1);
    Moves(t, p, SubmitReturn, u, t.procs[p].(pc := Run));
  }

  /** Whoever is at work while admission is open can bring a new key into the queue: the job is queued, accepted and
      counted once, and nothing else has changed. */
  lemma JobIsQueued(t: State, p: nat, key: string) returns (u: State)
    requires Reachable(t) && p < |t.procs| && Active(t.procs[p]) && !t.restarting && key !in t.filter
    ensures Reachable(u)
    ensures u == t.(activeJobs := t.activeJobs + 1, queue := t.queue + multiset{Job(t.runId, key)},
                    filter := t.filter + {key}, accepted := t.accepted + [Job(t.runId, key)])
  {
    u := Admitting(t, p, key);
    CloseIsSafe(u);
    u := PushDone(u, p, Job(t.runId, key));
    u := SubmitDone(u, p);
    assert u.procs == t.procs;
  }

  /** Without the push the submission leaves nothing behind but the key in the filter. */
  lemma JobIsCancelled(t: State, p: nat, key: string, pushed: bool) returns (u: State)
    requires Reachable(t) && p < |t.procs| && Active(t.procs[p]) && !t.restarting && key !in t.filter
    ensures Reachable(u)
    ensures u == t.(filter := t.filter + {key}, accepted := t.accepted + [Job(t.runId, key)])
  {
    var job := Job(t.runId, key);
    var s := Admitting(t, p, key);
    var v := At(s, p, Leaving);
    if pushed {
      FailingPush(s, p, job, v);
    } else {
      Moves(s, p, SubmitCancelled, v, s.procs[p].(pc := Leaving));
    }
    u := SubmitDone(v, p);
    assert u.procs == t.procs;
  }

  lemma FailingPush(s: State, p: nat, job: Job, v: State)
    requires Reachable(s) && p < |s.procs| && s.procs[p].pc == Accepted(job) && v == At(s, p, Leaving)
    ensures Reachable(v)
  {
    var a := At(s, p, Pushing(job)).(activeJobs := s.activeJobs + 1);
    Moves(s, p, SubmitReserve, a, s.procs[p].(pc := Pushing(job)));
    var b := At(a, p, PushFailed);
    Moves(a, p, PushErr, b, a.procs[p].(pc := PushFailed));
    assert v.procs == b.procs[p := b.procs[p].(pc := Leaving)];
    Moves(b, p, PushUndo, v, b.procs[p].(pc := Leaving));
  }

  /** A path that is excluded leaves nothing behind at all, and a key that was seen, or taken for seen, nothing but
      itself. */
  lemma JobIsRefused(t: State, p: nat, job: Job, excluded: bool) returns (u: State)
    requires Reachable(t) && p < |t.procs| && Active(t.procs[p]) && !t.restarting && job.runId == t.runId
    ensures Reachable(u) && u == if excluded then t else t.(filter := t.filter + {job.key})
  {
    var s := At(t, p, Admitted(job)).(submissionWg := t.submissionWg + 1);
    Moves(t, p, Submit(job), s, t.procs[p].(pc := Admitted(job)));
    var v := At(s, p, Leaving).(filter := if excluded then t.filter else t.filter + {job.key});
    Moves(s, p, if excluded then SubmitExcluded else SubmitFilter(true), v, s.procs[p].(pc := Leaving));
    u := SubmitDone(v, p);
    assert u.procs == t.procs;
  }

  lemma JobIsPopped(t: State, p: nat, job: Job) returns (u: State)
    requires Reachable(t) && p < |t.procs| && Parked(t.procs[p]) && job in t.queue
    ensures Reachable(u)
    ensures u == t.(queue := t.queue - multiset{job}, procs := t.procs[p := t.procs[p].(held := Some(job), pc := Popped)])
  {
    u := t.(queue := t.queue - multiset{job}, procs := t.procs[p := t.procs[p].(held := Some(job), pc := Popped)]);
    Moves(t, p, Pop(job), u, t.procs[p].(held := Some(job), pc := Popped));
  }

  /** A parked worker can take any queued job out of the engine: processed while admission is open and dropped while
      it is closed, and either way released exactly once. */
  lemma JobIsDone(t: State, p: nat, job: Job) returns (u: State)
    requires Reachable(t) && p < |t.procs| && Parked(t.procs[p]) && job in t.queue
    ensures Reachable(u)
    ensures u == t.(queue := t.queue - multiset{job}, activeJobs := t.activeJobs - 1)
  {
    u := JobIsPopped(t, p, job);
    PoppedDecides(u, p);
    if t.restarting {
      u := Dropped(u, p);
    } else {
      u := Processed(u, p);
    }
    assert u.procs == t.procs;
  }

  lemma Processed(t: State, p: nat) returns (u: State)
    requires Reachable(t) && Enabled(t, Own(p, StaleOk)) && Shaped(t.procs[p]) && t.procs[p].life == Live
    ensures Reachable(u)
    ensures u == t.(activeJobs := t.activeJobs - 1, procs := t.procs[p := t.procs[p].(held := None, pc := Run)])
  {
    var s := At(t, p, Run);
    Moves(t, p, StaleOk, s, t.procs[p].(pc := Run));
    u := t.(activeJobs := t.activeJobs - 1, procs := t.procs[p := t.procs[p].(held := None, pc := Run)]);
    assert u.procs == s.procs[p := s.procs[p].(held := None)];
    Moves(s, p, JobDone, u, s.procs[p].(held := None));
  }

  lemma Dropped(t: State, p: nat) returns (u: State)
    requires Reachable(t) && Enabled(t, Own(p, StaleDrop))
    ensures Reachable(u)
    ensures u == t.(activeJobs := t.activeJobs - 1, procs := t.procs[p := t.procs[p].(held := None, pc := Run)])
  {
    u := t.(activeJobs := t.activeJobs - 1, procs := t.procs[p := t.procs[p].(held := None, pc := Run)]);
    Moves(t, p, StaleDrop, u, t.procs[p].(held := None, pc := Run));
  }

  // ---------- tasks ----------

  /** One goroutine changes and another starts. */
  lemma Starts(s: State, p: nat, act: Act, t: State, q: Proc, started: Proc)
    requires Reachable(s) && Enabled(s, Own(p, act)) && Spawned(act) == [started]
    requires q == Next(s, s.procs[p], act) && t == Shared(s, s.procs[p], act).(procs := s.procs[p := q] + [started])
    ensures Reachable(t)
  {
    var u := ReachStep(s, Own(p, act));
  }

  /** The state with a goroutine that has come and gone. */
  function Past(t: State, kind: Kind): State { t.(procs := t.procs + [Proc(kind, Dead, None, Run)]) }

  lemma Ends(t: State, kind: Kind) returns (u: State)
    requires Reachable(t) && t.procs != [] && t.procs[|t.procs| - 1] == Proc(kind, Live, None, Run)
    requires kind == Aux || kind.Fetcher?
    ensures Reachable(u)
    ensures u == t.(activeJobs := t.activeJobs - (if kind == Aux then 1 else 0),
                    procs := t.procs[..|t.procs| - 1] + [Proc(kind, Dead, None, Run)])
  {
    var n := |t.procs| - 1;
    u := t.(activeJobs := t.activeJobs - (if kind == Aux then 1 else 0), procs := t.procs[n := Proc(kind, Dead, None, Run)]);
    Moves(t, n, if kind == Aux then AuxEnd else FetchEnd, u, Proc(kind, Dead, None, Run));
    assert u.procs == t.procs[..n] + [Proc(kind, Dead, None, Run)];
  }

  /** A worker at a job can schedule a bypass or source-map task, and when that has run the counters are what they
      were. */
  lemma TaskRuns(t: State, p: nat) returns (u: State)
    requires Reachable(t) && p < |t.procs| && Busy(t.procs[p])
    ensures Reachable(u) && u == Past(t, Aux)
  {
    var s := At(t, p, AuxReserved).(activeJobs := t.activeJobs + 1);
    Moves(t, p, AuxReserve, s, t.procs[p].(pc := AuxReserved));
    var v := t.(activeJobs := t.activeJobs + 1, procs := t.procs + [Proc(Aux, Live, None, Run)]);
    assert s.procs[p := s.procs[p].(pc := Run)] == t.procs;
    Starts(s, p, AuxSpawn, v, s.procs[p].(pc := Run), Proc(Aux, Live, None, Run));
    u := Ends(v, Aux);
  }

  /** A passive scanner can fetch a source. */
  lemma FetchRuns(t: State, p: nat) returns (u: State)
    requires Reachable(t) && p < |t.procs| && Active(t.procs[p]) && t.procs[p].kind == Scanner
    ensures Reachable(u) && u == Past(t, Fetcher(p))
  {
    var v := t.(procs := t.procs + [Proc(Fetcher(p), Live, None, Run)]);
    assert t.procs[p := t.procs[p]] == t.procs;
    Starts(t, p, FetchSpawn(p), v, t.procs[p], Proc(Fetcher(p), Live, None, Run));
    u := Ends(v, Fetcher(p));
  }

  lemma BranchStarts(t: State, p: nat) returns (u: State)
    requires Reachable(t) && p < |t.procs| && Busy(t.procs[p])
    ensures Reachable(u)
    ensures u == t.(activeJobs := t.activeJobs + 1, scannerWg := t.scannerWg + 1,
                    procs := t.procs + [Proc(Branch, Live, None, Run)])
  {
    var s := BranchCounted(t, p);
    u := t.(activeJobs := t.activeJobs + 1, scannerWg := t.scannerWg + 1,
            procs := t.procs + [Proc(Branch, Live, None, Run)]);
    assert s.procs[p := s.procs[p].(pc := Run)] == t.procs;
    Starts(s, p, BranchSpawn, u, s.procs[p].(pc := Run), Proc(Branch, Live, None, Run));
  }

  lemma BranchCounted(t: State, p: nat) returns (u: State)
    requires Reachable(t) && p < |t.procs| && Busy(t.procs[p])
    ensures Reachable(u)
    ensures u == At(t, p, BranchRegistered).(activeJobs := t.activeJobs + 1, scannerWg := t.scannerWg + 1)
  {
    var s := At(t, p, BranchReserved).(activeJobs := t.activeJobs + 1);
    Moves(t, p, BranchReserve, s, t.procs[p].(pc := BranchReserved));
    u := At(s, p, BranchRegistered).(scannerWg := t.scannerWg + 1);
    Moves(s, p, BranchRegister, u, s.procs[p].(pc := BranchRegistered));
    assert u.procs == t.procs[p := t.procs[p].(pc := BranchRegistered)];
  }

  /** A worker at a job can open a branch, which is counted twice while it runs and not at all afterwards. */
  lemma BranchRuns(t: State, p: nat) returns (u: State)
    requires Reachable(t) && p < |t.procs| && Busy(t.procs[p])
    ensures Reachable(u) && u == Past(t, Branch)
  {
    var n := |t.procs|;
    var s := BranchStarts(t, p);
    var v := s.(activeJobs := t.activeJobs, procs := t.procs + [Proc(Branch, Finishing, None, Run)]);
    assert v.procs == s.procs[n := Proc(Branch, Finishing, None, Run)];
    Moves(s, n, BranchDone, v, Proc(Branch, Finishing, None, Run));
    u := Past(t, Branch);
    assert u.procs == v.procs[n := Proc(Branch, Dead, None, Run)];
    Moves(v, n, BranchEnd, u, Proc(Branch, Dead, None, Run));
  }

  /** Whoever is at work can publish a result, which changes nothing here. */
  lemma ResultIsSent(t: State, p: nat)
    requires Reachable(t) && p < |t.procs| && Active(t.procs[p])
    ensures Enabled(t, Own(p, SendResult)) && Apply(t, Own(p, SendResult)) == t && !t.resultsClosed
  {
    if t.resultsClosed {
      NoSendAfterClose(t, p);
    }
    assert t.procs[p := t.procs[p]] + [] == t.procs;
  }

  /** A kickoff, the first one or that of a restart, starts the wordlist scanner, and the passive one with it or not;
      nothing else changes but that a pending `Wait` takes note. */
  lemma ScannersStart(t: State, kick: Control, passive: bool) returns (u: State)
    requires Reachable(t) && (if kick == RestartKick then t.ctl == Reopened else kick == KickoffCall && t.ctl == Idle)
    requires t.stop == NotStopping
    ensures Reachable(u)
    ensures var started := if passive then [SCANNER, SCANNER] else [SCANNER];
            u == t.(ctl := Idle, scannerWg := t.scannerWg + |started|, waiter := Dirty(t.waiter),
                    procs := t.procs + started)
  {
    u := ScannerReserved(t, kick);
    if passive {
      u := PassiveStarts(u);
    }
    u := ReachStep(u, Ctl(SpawnWordlist));
    assert u.procs == t.procs + if passive then [SCANNER, SCANNER] else [SCANNER];
  }

  lemma ScannerReserved(t: State, kick: Control) returns (u: State)
    requires Reachable(t) && (if kick == RestartKick then t.ctl == Reopened else kick == KickoffCall && t.ctl == Idle)
    requires t.stop == NotStopping
    ensures Reachable(u)
    ensures u == t.(ctl := KickOne, scannerWg := t.scannerWg + 1, waiter := Dirty(t.waiter))
  {
    u := ReachStep(t, Ctl(kick));
  }

  lemma PassiveStarts(t: State) returns (u: State)
    requires Reachable(t) && t.ctl == KickOne
    ensures Reachable(u) && u == t.(ctl := KickLast, scannerWg := t.scannerWg + 1, procs := t.procs + [SCANNER])
  {
    u := ReachStep(t, Ctl(KickoffPassive));
    u := ReachStep(u, Ctl(SpawnPassive));
  }

  // ---------- restart and shutdown ----------

  lemma {:induction false} ReleaseDrained(t: State, n: nat) returns (u: State)
    requires Reachable(t) && t.ctl == Draining(n)
    ensures Reachable(u) && u == t.(ctl := Draining(0), activeJobs := t.activeJobs - n)
    decreases n
  {
    if n == 0 {
      u := t;
    } else {
      u := ReachStep(t, Ctl(RestartDrainDone));
      u := ReleaseDrained(u, n - 1);
    }
  }

  /** When only queued jobs are left, `ChangeWordlist` runs through by its own steps: every queued job is released,
      and admission is open again for the next run with an empty filter. */
  lemma RestartCompletes(t: State) returns (u: State)
    requires Reachable(t) && t.ctl == Idle && t.stop == NotStopping
    requires t.submissionWg == 0 && t.scannerWg == 0 && t.activeJobs == |t.queue|
    ensures Reachable(u)
    ensures u == t.(runId := t.runId + 1, restarting := false, queue := multiset{}, activeJobs := 0, filter := {},
                    ctl := Reopened)
  {
    u := RestartDrained(t);
    u := ReachStep(u, Ctl(RestartActiveWait));
    u := ReachStep(u, Ctl(RestartScannerWait));
    u := ReachStep(u, Ctl(RestartReset));
    u := ReachStep(u, Ctl(RestartReopen));
  }

  lemma RestartDrained(t: State) returns (u: State)
    requires Reachable(t) && t.ctl == Idle && t.stop == NotStopping && t.submissionWg == 0
    ensures Reachable(u)
    ensures u == t.(runId := t.runId + 1, restarting := true, queue := multiset{}, activeJobs := t.activeJobs - |t.queue|,
                    ctl := Draining(0))
  {
    u := ReachStep(t, Ctl(RestartClose));
    u := ReachStep(u, Ctl(RestartSubsWait));
    u := ReachStep(u, Ctl(RestartDrain));
    u := ReleaseDrained(u, |t.queue|);
  }

  /** When no scanner is registered and no job active, a call of `Wait` can return, and then the work is finished. */
  lemma WaitCompletes(t: State) returns (u: State)
    requires Reachable(t) && t.scannerWg == 0 && t.activeJobs == 0
    ensures Reachable(u) && u == t.(waiter := Returned(true)) && Finished(u)
  {
    u := ReachStep(t, Ctl(WaitCall));
    u := ReachStep(u, Ctl(WaitScanners));
    u := ReachStep(u, Ctl(WaitActive));
    WaitIsFinal(u, [], u);
  }

  lemma LiveWorker(t: State) returns (p: nat)
    requires Reachable(t) && t.workerWg > 0
    ensures p < |t.procs| && t.procs[p].kind == Worker && t.procs[p].life == Live
  {
    assert Counted(t) by { ReachableInv(t); }
    assert Count(Workers, t) == Sum(Workers, t.procs);
    p := Heavy(Workers, t.procs);
  }

  lemma {:induction false} Heavy(g: Group, procs: seq<Proc>) returns (p: nat)
    requires Sum(g, procs) > 0
    ensures p < |procs| && Weight(g, procs[p]) > 0
  {
    if Weight(g, procs[|procs| - 1]) > 0 {
      p := |procs| - 1;
    } else {
      p := Heavy(g, procs[..|procs| - 1]);
    }
  }

  lemma {:induction false} WorkersLeave(t: State) returns (u: State)
    requires Reachable(t) && t.workerWg >= 0 && Finished(t)
    ensures Reachable(u) && Finished(u) && u == t.(workerWg := 0, procs := u.procs)
    decreases t.workerWg
  {
    if t.workerWg == 0 {
      u := t;
    } else {
      var p := LiveWorker(t);
      var s := t.(workerWg := t.workerWg - 1, procs := t.procs[p := t.procs[p].(life := Dead)]);
      Moves(t, p, WorkerExit, s, t.procs[p].(life := Dead));
      u := WorkersLeave(s);
    }
  }

  /** When the work is done, `Shutdown` runs through: the workers leave, and queue and results are closed. */
  lemma StopCompletes(t: State) returns (u: State)
    requires Reachable(t) && t.ctl == Idle && t.stop == NotStopping && t.scannerWg == 0 && Finished(t)
    ensures Reachable(u) && u.stop == AllClosed && u.queueClosed && u.resultsClosed
  {
    u := JobsClosing(t);
    TerminationDetection(u);
    u := WorkersLeave(u);
    u := ReachStep(u, Ctl(StopWorkerWait));
    u := ReachStep(u, Ctl(StopCloseResults));
  }

  lemma JobsClosing(t: State) returns (u: State)
    requires Reachable(t) && t.ctl == Idle && t.stop == NotStopping && t.scannerWg == 0 && Finished(t)
    ensures Reachable(u) && u == t.(stop := JobsClosed, queueClosed := true) && Finished(u)
  {
    u := ReachStep(t, Ctl(StopCancel));
    u := ReachStep(u, Ctl(StopScannerWait));
    u := ReachStep(u, Ctl(StopActiveWait));
    u := ReachStep(u, Ctl(StopCloseJobs));
  }

  // ---------- no goroutine is stuck ----------

  /** What a goroutine that is neither parked nor dead can do next. */
  function NextAct(t: State, q: Proc): Act {
    match q.pc
    case Run =>
      if q.life == Finishing then BranchEnd
      else
        (match q.kind
         case Worker => JobDone
         case Scanner => ScannerEnd
         case Branch => BranchDone
         case Aux => AuxEnd
         case Fetcher(_) => FetchEnd)
    case Popped => if t.restarting then StaleDrop else StaleOk
    case Admitted(_) => SubmitFilter(true)
    case Accepted(_) => SubmitReserve
    case Pushing(_) => if t.queueClosed then PushErr else PushOk
    case PushFailed => PushUndo
    case Leaving => SubmitReturn
    case BranchReserved => BranchRegister
    case BranchRegistered => BranchSpawn
    case AuxReserved => AuxSpawn
  }

  lemma NextIsOpen(t: State, q: Proc)
    requires Shaped(q) && q.life != Dead && !Parked(q) && !q.pc.Popped?
    ensures CanAct(t, q, NextAct(t, q)) && !NextAct(t, q).FetchSpawn?
    ensures NextAct(t, q) == ScannerEnd ==> q.kind == Scanner
  {
  }

  lemma ScannerNotStuck(t: State, p: nat)
    requires AllShaped(t) && p < |t.procs| && CanAct(t, t.procs[p], ScannerEnd)
    ensures Enabled(t, Own(p, ScannerEnd)) || exists i: nat :: Fetching(t, p, i)
  {
    if !Joined(t.procs, p) {
      var i: nat :| i < |t.procs| && t.procs[i].kind == Fetcher(p) && t.procs[i].life != Dead;
      assert Shaped(t.procs[i]);
      NextIsOpen(t, t.procs[i]);
      assert Fetching(t, p, i);
    }
  }

  /** Goroutine i fetches for scanner p and can go on. */
  ghost predicate Fetching(t: State, p: nat, i: nat) {
    i < |t.procs| && t.procs[i].kind == Fetcher(p) && Enabled(t, Own(i, NextAct(t, t.procs[i])))
  }

  /** In every reachable state every goroutine that is neither a parked worker nor dead has a step, except a scanner
      that waits for a fetcher, which then has one. */
  lemma NoneStuck(t: State, p: nat)
    requires Reachable(t) && p < |t.procs| && t.procs[p].life != Dead && !Parked(t.procs[p])
    ensures Enabled(t, Own(p, NextAct(t, t.procs[p]))) || exists i: nat :: Fetching(t, p, i)
  {
    assert AllShaped(t) by { ReachableInv(t); }
    assert Shaped(t.procs[p]);
    if t.procs[p].pc.Popped? {
      PoppedDecides(t, p);
    } else {
      NextIsOpen(t, t.procs[p]);
      if NextAct(t, t.procs[p]) == ScannerEnd {
        ScannerNotStuck(t, p);
      }
    }
  }
}
