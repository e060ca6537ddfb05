/** Every step of the job protocol keeps its invariant, so it holds in every reachable state. */
module JobInvariants {
  import opened JobProtocol
  import opened Options

  // ---------- the initial state ----------

  lemma InitInv(workers: nat)
    ensures Inv(Init(workers))
  {
    forall g ensures Sum(g, Init(workers).procs) == if g == Workers then workers else 0 {
      SumIdle(g, Init(workers).procs);
    }
  }

  // ---------- goroutine actions keep the invariant ----------

  /** The counter moves by what the goroutines come to stand for. */
  predicate Moved(g: Group, s: State, q: Proc, act: Act)
    requires CanAct(s, q, act)
  {
    Count(g, Shared(s, q, act)) - Count(g, s)
    == Weight(g, Next(s, q, act)) - Weight(g, q) + (if Spawned(act) == [] then 0 else Weight(g, Spawned(act)[0]))
  }

  /** The actions of Submit. */
  predicate Submits(act: Act) {
    || act.Submit? || act.SubmitExcluded? || act.SubmitFilter? || act.SubmitCancelled? || act.SubmitReserve?
    || act.PushOk? || act.PushErr? || act.PushUndo? || act.SubmitReturn?
  }

  lemma SubmitActiveJobs(s: State, q: Proc, act: Act)
    requires CanAct(s, q, act) && Shaped(q) && Submits(act)
    ensures Moved(ActiveJobs, s, q, act)
  {
  }

  lemma OtherActiveJobs(s: State, q: Proc, act: Act)
    requires CanAct(s, q, act) && Shaped(q) && !Submits(act)
    ensures Moved(ActiveJobs, s, q, act)
  {
  }

  lemma ActiveJobsBalanced(s: State, q: Proc, act: Act)
    requires CanAct(s, q, act) && Shaped(q)
    ensures Moved(ActiveJobs, s, q, act)
  {
    if Submits(act) {
      SubmitActiveJobs(s, q, act);
    } else {
      OtherActiveJobs(s, q, act);
    }
  }

  lemma SubmissionsBalanced(s: State, q: Proc, act: Act)
    requires CanAct(s, q, act) && Shaped(q)
    ensures Moved(Submissions, s, q, act)
  {
  }

  lemma SubmitScanners(s: State, q: Proc, act: Act)
    requires CanAct(s, q, act) && Shaped(q) && Submits(act)
    ensures Moved(Scanners, s, q, act)
  {
  }

  lemma OtherScanners(s: State, q: Proc, act: Act)
    requires CanAct(s, q, act) && Shaped(q) && !Submits(act)
    ensures Moved(Scanners, s, q, act)
  {
  }

  lemma ScannersBalanced(s: State, q: Proc, act: Act)
    requires CanAct(s, q, act) && Shaped(q)
    ensures Moved(Scanners, s, q, act)
  {
    if Submits(act) {
      SubmitScanners(s, q, act);
    } else {
      OtherScanners(s, q, act);
    }
  }

  lemma WorkersBalanced(s: State, q: Proc, act: Act)
    requires CanAct(s, q, act) && Shaped(q)
    ensures Moved(Workers, s, q, act)
  {
  }

  /** Every Add and Done is matched by what the goroutine now stands for. */
  lemma ActBalanced(s: State, q: Proc, act: Act, g: Group)
    requires CanAct(s, q, act) && Shaped(q) && !g.Copies?
    ensures Moved(g, s, q, act)
  {
    match g
    case ActiveJobs => ActiveJobsBalanced(s, q, act);
    case Submissions => SubmissionsBalanced(s, q, act);
    case Scanners => ScannersBalanced(s, q, act);
    case Workers => WorkersBalanced(s, q, act);
  }

  lemma ActShaped(s: State, q: Proc, act: Act)
    requires CanAct(s, q, act) && Shaped(q)
    ensures Shaped(Next(s, q, act))
    ensures forall n :: n in Spawned(act) ==> Shaped(n)
  {
  }

  lemma SumsAct(s: State, p: nat, act: Act, g: Group)
    requires Enabled(s, Own(p, act))
    ensures Sum(g, Apply(s, Own(p, act)).procs)
            == Sum(g, s.procs) - Weight(g, s.procs[p]) + Weight(g, Next(s, s.procs[p], act))
               + (if Spawned(act) == [] then 0 else Weight(g, Spawned(act)[0]))
  {
    var moved := s.procs[p := Next(s, s.procs[p], act)];
    SumUpdate(g, s.procs, p, Next(s, s.procs[p], act));
    if Spawned(act) == [] {
      assert moved + Spawned(act) == moved;
    } else {
      SumAppend(g, moved, Spawned(act)[0]);
    }
  }

  lemma OwnCounted(s: State, p: nat, act: Act)
    requires Counted(s) && AllShaped(s) && Enabled(s, Own(p, act))
    ensures Counted(Apply(s, Own(p, act)))
  {
    forall g ensures Count(g, Apply(s, Own(p, act))) == Sum(g, Apply(s, Own(p, act)).procs) {
      if !g.Copies? {
        ActBalanced(s, s.procs[p], act, g);
        SumsAct(s, p, act, g);
      }
    }
  }

  /** A goroutine registered with a group keeps the group's counter positive. */
  lemma Registers(s: State, p: nat, g: Group)
    requires Counted(s) && p < |s.procs|
    ensures Weight(g, s.procs[p]) <= Sum(g, s.procs) == Count(g, s)
  {
    SumAtLeast(g, s.procs, p);
  }

  lemma ActKeepsGeneration(s: State, q: Proc, act: Act, generation: int)
    requires CanAct(s, q, act) && JobsOf(q, generation)
    requires s.restarting || s.runId == generation
    requires forall job :: job in s.queue ==> job.runId == generation
    ensures JobsOf(Next(s, q, act), generation)
  {
  }

  lemma ActKeepsQueue(s: State, q: Proc, act: Act, job: Job)
    requires CanAct(s, q, act) && job in Shared(s, q, act).queue
    ensures job in s.queue || (q.pc.Pushing? && q.pc.job == job)
  {
  }

  lemma OwnIsolated(s: State, p: nat, act: Act)
    requires Isolated(s) && Staged(s) && Enabled(s, Own(p, act))
    ensures Isolated(Apply(s, Own(p, act)))
  {
    var t, q := Apply(s, Own(p, act)), s.procs[p];
    OwnLeaves(s, q, act);
    ActKeepsGeneration(s, q, act, Generation(s));
    forall job | job in t.queue ensures job.runId == Generation(t) {
      ActKeepsQueue(s, q, act, job);
    }
  }

  lemma OwnShaped(s: State, p: nat, act: Act)
    requires AllShaped(s) && Enabled(s, Own(p, act))
    ensures AllShaped(Apply(s, Own(p, act)))
  {
    ActShaped(s, s.procs[p], act);
  }

  lemma OwnOwned(s: State, p: nat, act: Act)
    requires AllShaped(s) && Owned(s) && Enabled(s, Own(p, act))
    ensures Owned(Apply(s, Own(p, act)))
  {
    var t := Apply(s, Own(p, act));
    forall i | 0 <= i < |t.procs| && t.procs[i].kind.Fetcher? && t.procs[i].life == Live
      ensures var owner := t.procs[i].kind.owner;
              owner < |t.procs| && t.procs[owner].kind == Scanner && t.procs[owner].life == Live
    {
      if i < |s.procs| {
        assert s.procs[i].kind == t.procs[i].kind && s.procs[i].life == Live;
      }
    }
  }

  /** Past a wait nothing can re-enter what was waited for: Add needs work already registered. */
  lemma ActStaged(s: State, q: Proc, act: Act)
    requires CanAct(s, q, act) && Shaped(q) && Staged(s)
    requires s.submissionWg >= Weight(Submissions, q) && s.activeJobs >= Weight(ActiveJobs, q)
    requires s.scannerWg >= Weight(Scanners, q)
    ensures Staged(Shared(s, q, act))
  {
  }

  lemma OwnStaged(s: State, p: nat, act: Act)
    requires Counted(s) && AllShaped(s) && Staged(s) && Enabled(s, Own(p, act))
    ensures Staged(Apply(s, Own(p, act)))
  {
    Registers(s, p, ActiveJobs);
    Registers(s, p, Submissions);
    Registers(s, p, Scanners);
    ActStaged(s, s.procs[p], act);
  }

  /** The recorded jobs of this generation are all in the filter, so a job the filter calls new is
      not among them. */
  lemma FilterIsNew(s: State, p: nat)
    requires Isolated(s) && Counted(s) && Staged(s) && Recorded(s) && Enabled(s, Own(p, SubmitFilter(false)))
    ensures s.ctl != Cleared && s.procs[p].pc.job !in s.accepted
    ensures s.procs[p].pc.job.runId == Generation(s)
  {
    Registers(s, p, Submissions);
    assert JobsOf(s.procs[p], Generation(s));
  }

  lemma FilterRecorded(s: State, p: nat, dup: bool)
    requires Isolated(s) && Counted(s) && Staged(s) && Recorded(s) && Enabled(s, Own(p, SubmitFilter(dup)))
    ensures Recorded(Apply(s, Own(p, SubmitFilter(dup))))
  {
    if !dup {
      FilterIsNew(s, p);
    }
  }

  lemma ActLeavesRecord(s: State, q: Proc, act: Act)
    requires CanAct(s, q, act) && !act.SubmitFilter?
    ensures SameRecord(s, Shared(s, q, act))
  {
  }

  ghost predicate SameRecord(s: State, t: State) {
    t.accepted == s.accepted && t.filter == s.filter && t.ctl == s.ctl && t.runId == s.runId
  }

  lemma RecordStays(s: State, t: State)
    requires Recorded(s) && SameRecord(s, t)
    ensures Recorded(t)
  {
  }

  lemma OwnRecorded(s: State, p: nat, act: Act)
    requires Isolated(s) && Counted(s) && Staged(s) && Recorded(s) && Enabled(s, Own(p, act))
    ensures Recorded(Apply(s, Own(p, act)))
  {
    if act.SubmitFilter? {
      FilterRecorded(s, p, act.dup);
    } else {
      ActLeavesRecord(s, s.procs[p], act);
      RecordStays(s, Apply(s, Own(p, act)));
    }
  }

  /** A job enters flight only when the filter records it; Pop and Push hand it over. */
  ghost predicate HandsOver(s: State, q: Proc, act: Act, job: Job)
    requires CanAct(s, q, act)
  {
    Shared(s, q, act).queue[job] + Weight(Copies(job), Next(s, q, act))
    <= s.queue[job] + Weight(Copies(job), q) + (if act == SubmitFilter(false) && q.pc.job == job then 1 else 0)
  }

  lemma SubmitAccounted(s: State, q: Proc, act: Act, job: Job)
    requires CanAct(s, q, act) && Shaped(q) && Submits(act)
    ensures HandsOver(s, q, act, job)
  {
  }

  lemma OtherAccounted(s: State, q: Proc, act: Act, job: Job)
    requires CanAct(s, q, act) && Shaped(q) && !Submits(act)
    ensures HandsOver(s, q, act, job)
  {
  }

  lemma ActAccounted(s: State, q: Proc, act: Act, job: Job)
    requires CanAct(s, q, act) && Shaped(q)
    ensures HandsOver(s, q, act, job)
    ensures Spawned(act) != [] ==> Weight(Copies(job), Spawned(act)[0]) == 0
  {
    if Submits(act) {
      SubmitAccounted(s, q, act, job);
    } else {
      OtherAccounted(s, q, act, job);
    }
  }

  lemma OwnAccounted(s: State, p: nat, act: Act)
    requires AllShaped(s) && Isolated(s) && Counted(s) && Staged(s) && Recorded(s) && Accounted(s)
    requires Enabled(s, Own(p, act))
    ensures Accounted(Apply(s, Own(p, act)))
  {
    var t := Apply(s, Own(p, act));
    var q := s.procs[p];
    assert Shaped(q);
    forall job ensures InFlight(t, job) <= if job in t.accepted then 1 else 0 {
      assert InFlight(s, job) <= if job in s.accepted then 1 else 0;
      SumsAct(s, p, act, Copies(job));
      ActAccounted(s, q, act, job);
      AcceptedGrows(s, p, act, job);
    }
  }

  lemma AcceptedGrows(s: State, p: nat, act: Act, job: Job)
    requires Isolated(s) && Counted(s) && Staged(s) && Recorded(s) && Enabled(s, Own(p, act))
    ensures job in s.accepted ==> job in Apply(s, Own(p, act)).accepted
    ensures act == SubmitFilter(false) && s.procs[p].pc.job == job ==>
              job !in s.accepted && job in Apply(s, Own(p, act)).accepted
  {
    if act == SubmitFilter(false) {
      FilterIsNew(s, p);
    } else {
      assert Shared(s, s.procs[p], act).accepted == s.accepted || act.SubmitFilter?;
    }
  }

  lemma OwnNoScanner(s: State, p: nat, act: Act)
    requires AllShaped(s) && NoScanner(s) && Enabled(s, Own(p, act))
    ensures NoScanner(Apply(s, Own(p, act)))
  {
  }

  /** Once the scanners are gone and no job is active, nothing can become active again. */
  lemma OwnStaysQuiet(s: State, p: nat, act: Act)
    requires Counted(s) && AllShaped(s) && NoScanner(s) && s.activeJobs == 0 && Enabled(s, Own(p, act))
    ensures Apply(s, Own(p, act)).activeJobs == 0
  {
    Registers(s, p, ActiveJobs);
  }

  lemma OwnWaited(s: State, p: nat, act: Act)
    requires Counted(s) && AllShaped(s) && Waited(s) && Enabled(s, Own(p, act))
    ensures Waited(Apply(s, Own(p, act)))
  {
    if NoScanner(s) {
      OwnNoScanner(s, p, act);
      if s.activeJobs == 0 {
        OwnStaysQuiet(s, p, act);
      }
    }
  }

  /** A goroutine never touches the controller's, waiter's or stopper's state. */
  lemma OwnLeaves(s: State, q: Proc, act: Act)
    requires CanAct(s, q, act)
    ensures var t := Shared(s, q, act);
            t.ctl == s.ctl && t.runId == s.runId && t.stop == s.stop && t.queueClosed == s.queueClosed && t.resultsClosed == s.resultsClosed
    ensures Shared(s, q, act).workerWg == s.workerWg - (if act.WorkerExit? then 1 else 0)
  {
  }

  lemma OwnStopped(s: State, p: nat, act: Act)
    requires Counted(s) && AllShaped(s) && Stopped(s) && Enabled(s, Own(p, act))
    ensures Stopped(Apply(s, Own(p, act)))
  {
    Registers(s, p, Workers);
    OwnLeaves(s, s.procs[p], act);
    if Rank(s.stop) >= 2 {
      OwnNoScanner(s, p, act);
    }
    if Rank(s.stop) >= 3 {
      OwnStaysQuiet(s, p, act);
    }
  }

  lemma OwnKeepsInv(s: State, p: nat, act: Act)
    requires Inv(s) && Enabled(s, Own(p, act))
    ensures Inv(Apply(s, Own(p, act)))
  {
    OwnCounted(s, p, act);
    OwnShaped(s, p, act);
    OwnOwned(s, p, act);
    OwnIsolated(s, p, act);
    OwnStaged(s, p, act);
    OwnRecorded(s, p, act);
    OwnAccounted(s, p, act);
    OwnWaited(s, p, act);
    OwnStopped(s, p, act);
  }

  // ---------- controller, waiter and stopper actions keep it too ----------

  lemma SumsControl(s: State, c: Control, g: Group)
    requires CanControl(s, c)
    ensures Sum(g, DoControl(s, c).procs) - Sum(g, s.procs)
            == if c.SpawnPassive? || c.SpawnWordlist? then Weight(g, Proc(Scanner, Live, None, Run)) else 0
  {
    if c.SpawnPassive? || c.SpawnWordlist? {
      SumAppend(g, s.procs, Proc(Scanner, Live, None, Run));
    }
  }

  lemma ControlBalanced(s: State, c: Control, g: Group)
    requires CanControl(s, c) && !g.Copies?
    ensures Count(g, DoControl(s, c)) - Count(g, s)
            == if c.SpawnPassive? || c.SpawnWordlist? then Weight(g, Proc(Scanner, Live, None, Run)) else 0
  {
  }

  lemma ControlCounted(s: State, c: Control)
    requires Counted(s) && CanControl(s, c)
    ensures Counted(DoControl(s, c))
  {
    forall g ensures Count(g, DoControl(s, c)) == Sum(g, DoControl(s, c).procs) {
      if !g.Copies? {
        SumsControl(s, c, g);
        ControlBalanced(s, c, g);
      }
    }
  }

  /** A wait group at zero: no goroutine stands for anything in it. */
  lemma Unregistered(s: State, g: Group)
    requires Counted(s) && Count(g, s) == 0
    ensures forall i :: 0 <= i < |s.procs| ==> Weight(g, s.procs[i]) == 0
  {
    SumZero(g, s.procs);
  }

  lemma Emptied(s: State)
    requires Counted(s) && AllShaped(s) && Owned(s) && Staged(s) && (s.ctl == Quiet || s.ctl == Cleared)
    ensures s.queue == multiset{}
    ensures forall i :: 0 <= i < |s.procs| ==> s.procs[i] == IDLE_WORKER || s.procs[i].life == Dead
    ensures forall i, generation :: 0 <= i < |s.procs| ==> JobsOf(s.procs[i], generation)
  {
    Unregistered(s, ActiveJobs);
    Unregistered(s, Submissions);
    Unregistered(s, Scanners);
    ScannersGone(s);
    forall i | 0 <= i < |s.procs|
      ensures s.procs[i] == IDLE_WORKER || s.procs[i].life == Dead
      ensures s.procs[i].pc == Run && s.procs[i].held.None?
    {
      WeightlessIsIdle(s.procs[i]);
    }
  }

  lemma WeightlessIsIdle(p: Proc)
    requires Shaped(p) && Weight(ActiveJobs, p) == Weight(Submissions, p) == Weight(Scanners, p) == 0
    requires p.kind.Fetcher? ==> p.life == Dead
    ensures p == IDLE_WORKER || p.life == Dead
    ensures p.pc == Run && p.held.None?
  {
  }

  /** A controller step leaves the goroutines alone, or starts a scanner. */
  lemma ControlShaped(s: State, c: Control)
    requires AllShaped(s) && Owned(s) && CanControl(s, c)
    ensures AllShaped(DoControl(s, c)) && Owned(DoControl(s, c))
  {
    var t := DoControl(s, c);
    assert t.procs == s.procs || t.procs == s.procs + [Proc(Scanner, Live, None, Run)];
  }

  lemma ControlIsolated(s: State, c: Control)
    requires Counted(s) && AllShaped(s) && Owned(s) && Isolated(s) && Staged(s) && CanControl(s, c)
    ensures Isolated(DoControl(s, c))
  {
    if c.RestartReset? {
      Emptied(s);
    } else {
      assert Generation(DoControl(s, c)) == Generation(s);
    }
  }

  predicate Restarts(c: Control) {
    || c.RestartClose? || c.RestartSubsWait? || c.RestartDrain? || c.RestartDrainDone? || c.RestartActiveWait?
    || c.RestartScannerWait? || c.RestartReset? || c.RestartReopen?
  }

  lemma RestartStaged(s: State, c: Control)
    requires Counted(s) && Staged(s) && CanControl(s, c) && Restarts(c)
    ensures Staged(DoControl(s, c))
  {
    assert Count(ActiveJobs, s) == Sum(ActiveJobs, s.procs);
  }

  lemma OtherStaged(s: State, c: Control)
    requires Staged(s) && CanControl(s, c) && !Restarts(c)
    ensures Staged(DoControl(s, c))
  {
  }

  lemma ControlStaged(s: State, c: Control)
    requires Counted(s) && Staged(s) && CanControl(s, c)
    ensures Staged(DoControl(s, c))
  {
    if Restarts(c) {
      RestartStaged(s, c);
    } else {
      OtherStaged(s, c);
    }
  }

  lemma ControlRecorded(s: State, c: Control)
    requires Staged(s) && Recorded(s) && CanControl(s, c)
    ensures Recorded(DoControl(s, c))
  {
  }

  lemma ControlAccounted(s: State, c: Control)
    requires Accounted(s) && CanControl(s, c)
    ensures Accounted(DoControl(s, c))
  {
    var t := DoControl(s, c);
    forall job ensures InFlight(t, job) <= if job in t.accepted then 1 else 0 {
      assert InFlight(s, job) <= if job in s.accepted then 1 else 0;
      SumsControl(s, c, Copies(job));
    }
  }

  /** No scanner is registered: none is live, nor one of its fetchers. */
  lemma ScannersGone(s: State)
    requires Counted(s) && AllShaped(s) && Owned(s) && s.scannerWg == 0
    ensures NoScanner(s)
  {
    assert Count(Scanners, s) == Sum(Scanners, s.procs);
    Unregistered(s, Scanners);
    forall i | 0 <= i < |s.procs| && s.procs[i].kind.Fetcher? ensures s.procs[i].life == Dead {
      assert Shaped(s.procs[i]);
      if s.procs[i].life == Live {
        assert Weight(Scanners, s.procs[s.procs[i].kind.owner]) == 0;
      }
    }
  }

  predicate Kicks(step: Step) {
    step == Ctl(KickoffCall) || step == Ctl(RestartKick)
  }

  lemma ControlStaysQuiet(s: State, c: Control)
    requires Counted(s) && NoScanner(s) && s.activeJobs == 0 && CanControl(s, c) && !Kicks(Ctl(c))
    ensures NoScanner(DoControl(s, c)) && DoControl(s, c).activeJobs == 0
  {
    assert Count(ActiveJobs, s) >= 0;
  }

  lemma ControlWaited(s: State, c: Control)
    requires Counted(s) && AllShaped(s) && Owned(s) && Waited(s) && CanControl(s, c)
    ensures Waited(DoControl(s, c))
  {
    if c.WaitScanners? {
      ScannersGone(s);
    } else if NoScanner(s) && s.activeJobs == 0 && !Kicks(Ctl(c)) {
      ControlStaysQuiet(s, c);
    }
  }

  lemma ControlStopped(s: State, c: Control)
    requires Counted(s) && AllShaped(s) && Owned(s) && Stopped(s) && CanControl(s, c)
    ensures Stopped(DoControl(s, c))
  {
    if c.StopScannerWait? {
      ScannersGone(s);
    }
  }

  lemma ControlKeepsInv(s: State, c: Control)
    requires Inv(s) && CanControl(s, c)
    ensures Inv(DoControl(s, c))
  {
    ControlCounted(s, c);
    ControlShaped(s, c);
    ControlIsolated(s, c);
    ControlStaged(s, c);
    ControlRecorded(s, c);
    ControlAccounted(s, c);
    ControlWaited(s, c);
    ControlStopped(s, c);
  }

  // ---------- every reachable state ----------

  lemma {:induction false} LeadsInv(s: State, steps: seq<Step>, t: State)
    requires Inv(s) && Leads(s, steps, t)
    ensures Inv(t)
    decreases |steps|
  {
    if steps != [] {
      match steps[0] {
        case Own(p, act) => OwnKeepsInv(s, p, act);
        case Ctl(c) => ControlKeepsInv(s, c);
      }
      LeadsInv(Apply(s, steps[0]), steps[1..], t);
    }
  }

  lemma ReachableInv(t: State)
    requires Reachable(t)
    ensures Inv(t)
  {
    var workers: nat, steps :| Leads(Init(workers), steps, t);
    InitInv(workers);
    LeadsInv(Init(workers), steps, t);
  }
}
