/** The engine's job protocol as a transition system.

    Goroutines (workers, wordlist and passive scanners with their source fetchers, recursive
    branches, bypass and source-map tasks) run `Submit` and the worker loop while one controller performs
    `KickoffScanner` and `ChangeWordlist`, a waiter performs `Wait`, and a stopper performs
    `Shutdown`.  A step is one atomic action of one of them: an Add, Done or Wait on a wait
    group, a queue operation, or a section guarded by `submissionMu`.  `Apply` says what a
    step does, `Enabled` when it can happen, and a run is any interleaving of enabled steps.
 */
module JobProtocol {
  import opened Options

  /** `key` is the filter key, `Method + ":" + Path`. */
  datatype Job = Job(runId: int, key: string)

  /** A passive scanner starts fetchers and joins them before it ends; `owner` is its place. */
  datatype Kind = Worker | Scanner | Branch | Aux | Fetcher(owner: nat)

  /** A branch is `Finishing` between its `activeJobs.Done` and its `scannerWg.Done`. */
  datatype Life = Live | Finishing | Dead

  /** Where a goroutine stands in its code. */
  datatype Pc =
    | Run
    | Popped               // worker: job popped, stale check still to come
    | Admitted(job: Job)   // Submit: submissionWg.Add done
    | Accepted(job: Job)   // Submit: past the exclusion rules and the filter
    | Pushing(job: Job)    // Submit: activeJobs.Add done, Push under way
    | PushFailed           // Submit: Push failed, activeJobs.Done still to come
    | Leaving              // Submit: deferred submissionWg.Done still to come
    | BranchReserved       // ProcessHit: activeJobs.Add done
    | BranchRegistered     // ProcessHit: AddScanner done as well
    | AuxReserved          // bypass or source-map task: activeJobs.Add done

  datatype Proc = Proc(kind: Kind, life: Life, held: Option<Job>, pc: Pc)

  /** The controller: `KickoffScanner` and `ChangeWordlist`. */
  datatype Ctl =
    | Idle
    | Closed               // admission closed, RunID advanced
    | SubsDrained          // submissionWg.Wait returned
    | Draining(pending: nat)  // queue drained, `pending` activeJobs.Done still to come
    | ActiveDrained        // activeJobs.Wait returned
    | Quiet                // scannerWg.Wait returned
    | Cleared              // filter and counters reset
    | Reopened             // admission open again
    | KickOne              // KickoffScanner: one scanner registered
    | KickTwo              // KickoffScanner: the passive scanner registered as well
    | KickLast             // KickoffScanner: passive scanner launched

  /** `clean` records that no scanner has been kicked off since the scanner wait returned. */
  datatype Waiter = Waiting | ScannersSeen(clean: bool) | Returned(clean: bool)

  datatype Stop =
    | NotStopping | Cancelled | StopScanners | StopActive | JobsClosed | WorkersDone | AllClosed

  datatype State = State(
    runId: int,
    restarting: bool,
    submissionWg: int,
    activeJobs: int,
    scannerWg: int,
    workerWg: int,
    queue: multiset<Job>,
    queueClosed: bool,
    resultsClosed: bool,
    filter: set<string>,
    accepted: seq<Job>,     // every job the filter ever let through, in order
    procs: seq<Proc>,
    ctl: Ctl,
    waiter: Waiter,
    stop: Stop)

  /** Atomic actions of a goroutine. */
  datatype Act =
    // Submit
    | Submit(job: Job) | SubmitExcluded | SubmitFilter(dup: bool) | SubmitCancelled | SubmitReserve
    | PushOk | PushErr | PushUndo | SubmitReturn
    // the worker loop, with ProcessHit and the scheduling of auxiliary tasks
    | Pop(job: Job) | StaleDrop | StaleOk | JobDone | WorkerExit
    | BranchReserve | BranchRegister | BranchSpawn | AuxReserve | AuxSpawn
    // publishing a result, and the ends of the other goroutines
    | SendResult | ScannerEnd | BranchDone | BranchEnd | AuxEnd
    // the sources of passive harvesting
    | FetchSpawn(owner: nat) | FetchEnd

  /** Atomic actions of the controller, the waiter and the stopper. */
  datatype Control =
    | KickoffCall | KickoffPassive | SpawnPassive | SpawnWordlist
    | RestartClose | RestartSubsWait | RestartDrain | RestartDrainDone | RestartActiveWait
    | RestartScannerWait | RestartReset | RestartReopen | RestartKick
    | WaitCall | WaitScanners | WaitActive
    | StopCancel | StopScannerWait | StopActiveWait | StopCloseJobs | StopWorkerWait | StopCloseResults

  datatype Step = Own(p: nat, act: Act) | Ctl(control: Control)

  const IDLE_WORKER := Proc(Worker, Live, None, Run)

  function Init(workers: nat): (s: State) {
    State(0, false, 0, 0, 0, workers, multiset{}, false, false, {}, [],
          seq(workers, i => IDLE_WORKER), Idle, Waiting, NotStopping)
  }

  // ---------- goroutine actions ----------

  /** Code that may submit jobs or publish results: any live goroutine but an idle worker. */
  predicate Active(q: Proc) {
    q.life == Live && q.pc == Run && (q.kind == Worker ==> q.held.Some?)
  }

  predicate Busy(q: Proc) {
    Active(q) && q.kind == Worker
  }

  predicate Parked(q: Proc) {
    q.life == Live && q.pc == Run && q.kind == Worker && q.held.None?
  }

  predicate CanAct(s: State, q: Proc, act: Act) {
    match act
    case Submit(job) => Active(q)
    case SubmitExcluded => q.pc.Admitted?
    // a Bloom filter may report a new key as seen, never a seen key as new
    case SubmitFilter(dup) => q.pc.Admitted? && (q.pc.job.key in s.filter ==> dup)
    case SubmitCancelled => q.pc.Accepted?
    case SubmitReserve => q.pc.Accepted?
    case PushOk => q.pc.Pushing? && !s.queueClosed
    case PushErr => q.pc.Pushing?
    case PushUndo => q.pc.PushFailed?
    case SubmitReturn => q.pc.Leaving?
    case Pop(job) => Parked(q) && job in s.queue
    case StaleDrop => q.pc.Popped? && q.held.Some? && q.held.value.runId != s.runId
    case StaleOk => q.pc.Popped? && q.held.Some? && q.held.value.runId == s.runId
    case JobDone => Busy(q)
    case WorkerExit => Parked(q)
    case BranchReserve => Busy(q)
    case BranchRegister => q.pc.BranchReserved?
    case BranchSpawn => q.pc.BranchRegistered?
    case AuxReserve => Busy(q)
    case AuxSpawn => q.pc.AuxReserved?
    case SendResult => Active(q)
    case ScannerEnd => Active(q) && q.kind == Scanner
    case BranchDone => Active(q) && q.kind == Branch
    case BranchEnd => q.life == Finishing
    case AuxEnd => Active(q) && q.kind == Aux
    case FetchSpawn(_) => Active(q) && q.kind == Scanner
    case FetchEnd => Active(q) && q.kind.Fetcher?
  }

  /** Submit admits a job only while admission is open and only for the current run. */
  predicate Admits(s: State, job: Job) {
    !s.restarting && job.runId == s.runId
  }

  /** The acting goroutine afterwards. */
  function Next(s: State, q: Proc, act: Act): Proc
    requires CanAct(s, q, act)
  {
    match act
    case Submit(job) => if Admits(s, job) then q.(pc := Admitted(job)) else q
    case SubmitExcluded => q.(pc := Leaving)
    case SubmitFilter(dup) => q.(pc := if dup then Leaving else Accepted(q.pc.job))
    case SubmitCancelled => q.(pc := Leaving)
    case SubmitReserve => q.(pc := Pushing(q.pc.job))
    case PushOk => q.(pc := Leaving)
    case PushErr => q.(pc := PushFailed)
    case PushUndo => q.(pc := Leaving)
    case SubmitReturn => q.(pc := Run)
    case Pop(job) => q.(held := Some(job), pc := Popped)
    case StaleDrop => q.(held := None, pc := Run)
    case StaleOk => q.(pc := Run)
    case JobDone => q.(held := None)
    case WorkerExit => q.(life := Dead)
    case BranchReserve => q.(pc := BranchReserved)
    case BranchRegister => q.(pc := BranchRegistered)
    case BranchSpawn => q.(pc := Run)
    case AuxReserve => q.(pc := AuxReserved)
    case AuxSpawn => q.(pc := Run)
    case SendResult => q
    case ScannerEnd => q.(life := Dead)
    case BranchDone => q.(life := Finishing)
    case BranchEnd => q.(life := Dead)
    case AuxEnd => q.(life := Dead)
    case FetchSpawn(_) => q
    case FetchEnd => q.(life := Dead)
  }

  /** The goroutine it starts, if any. */
  function Spawned(act: Act): seq<Proc> {
    match act
    case BranchSpawn => [Proc(Branch, Live, None, Run)]
    case AuxSpawn => [Proc(Aux, Live, None, Run)]
    case FetchSpawn(owner) => [Proc(Fetcher(owner), Live, None, Run)]
    case _ => []
  }

  /** The shared state afterwards. */
  function Shared(s: State, q: Proc, act: Act): (t: State)
    requires CanAct(s, q, act)
  {
    match act
    case Submit(job) => if Admits(s, job) then s.(submissionWg := s.submissionWg + 1) else s
    case SubmitFilter(dup) =>
      var t := s.(filter := s.filter + {q.pc.job.key});
      if dup then t else t.(accepted := s.accepted + [q.pc.job])
    case SubmitReserve => s.(activeJobs := s.activeJobs + 1)
    case PushOk => s.(queue := s.queue + multiset{q.pc.job})
    case PushUndo => s.(activeJobs := s.activeJobs - 1)
    case SubmitReturn => s.(submissionWg := s.submissionWg - 1)
    case Pop(job) => s.(queue := s.queue - multiset{job})
    case StaleDrop => s.(activeJobs := s.activeJobs - 1)
    case JobDone => s.(activeJobs := s.activeJobs - 1)
    case WorkerExit => s.(workerWg := s.workerWg - 1)
    case BranchReserve => s.(activeJobs := s.activeJobs + 1)
    case BranchRegister => s.(scannerWg := s.scannerWg + 1)
    case AuxReserve => s.(activeJobs := s.activeJobs + 1)
    case ScannerEnd => s.(scannerWg := s.scannerWg - 1)
    case BranchDone => s.(activeJobs := s.activeJobs - 1)
    case BranchEnd => s.(scannerWg := s.scannerWg - 1)
    case AuxEnd => s.(activeJobs := s.activeJobs - 1)
    case _ => s
  }

  // ---------- controller, waiter and stopper actions ----------

  predicate CanControl(s: State, c: Control) {
    match c
    case KickoffCall => s.ctl == Idle && s.stop == NotStopping
    case KickoffPassive => s.ctl == KickOne
    case SpawnPassive => s.ctl == KickTwo
    case SpawnWordlist => s.ctl == KickOne || s.ctl == KickLast
    case RestartClose => s.ctl == Idle && s.stop == NotStopping
    case RestartSubsWait => s.ctl == Closed && s.submissionWg == 0
    case RestartDrain => s.ctl == SubsDrained
    case RestartDrainDone => s.ctl.Draining? && s.ctl.pending > 0
    case RestartActiveWait => s.ctl == Draining(0) && s.activeJobs == 0
    case RestartScannerWait => s.ctl == ActiveDrained && s.scannerWg == 0
    case RestartReset => s.ctl == Quiet
    case RestartReopen => s.ctl == Cleared
    case RestartKick => s.ctl == Reopened
    case WaitCall => true
    case WaitScanners => s.waiter == Waiting && s.scannerWg == 0
    case WaitActive => s.waiter.ScannersSeen? && s.activeJobs == 0
    case StopCancel => s.stop == NotStopping && s.ctl == Idle
    case StopScannerWait => s.stop == Cancelled && s.scannerWg == 0
    case StopActiveWait => s.stop == StopScanners && s.activeJobs == 0
    case StopCloseJobs => s.stop == StopActive
    case StopWorkerWait => s.stop == JobsClosed && s.workerWg == 0
    case StopCloseResults => s.stop == WorkersDone
  }

  function Dirty(w: Waiter): Waiter {
    match w
    case Waiting => Waiting
    case ScannersSeen(_) => ScannersSeen(false)
    case Returned(_) => Returned(false)
  }

  function Launch(s: State, c: Ctl): State {
    s.(ctl := c, procs := s.procs + [Proc(Scanner, Live, None, Run)])
  }

  function DoControl(s: State, c: Control): (t: State)
    requires CanControl(s, c)
  {
    match c
    case KickoffCall => s.(ctl := KickOne, scannerWg := s.scannerWg + 1, waiter := Dirty(s.waiter))
    case KickoffPassive => s.(ctl := KickTwo, scannerWg := s.scannerWg + 1)
    case SpawnPassive => Launch(s, KickLast)
    case SpawnWordlist => Launch(s, Idle)
    case RestartClose => s.(ctl := Closed, restarting := true, runId := s.runId + 1)
    case RestartSubsWait => s.(ctl := SubsDrained)
    case RestartDrain => s.(ctl := Draining(|s.queue|), queue := multiset{})
    case RestartDrainDone => s.(ctl := Draining(s.ctl.pending - 1), activeJobs := s.activeJobs - 1)
    case RestartActiveWait => s.(ctl := ActiveDrained)
    case RestartScannerWait => s.(ctl := Quiet)
    case RestartReset => s.(ctl := Cleared, filter := {})
    case RestartReopen => s.(ctl := Reopened, restarting := false)
    case RestartKick => s.(ctl := KickOne, scannerWg := s.scannerWg + 1, waiter := Dirty(s.waiter))
    case WaitCall => s.(waiter := Waiting)
    case WaitScanners => s.(waiter := ScannersSeen(true))
    case WaitActive => s.(waiter := Returned(s.waiter.clean))
    case StopCancel => s.(stop := Cancelled)
    case StopScannerWait => s.(stop := StopScanners)
    case StopActiveWait => s.(stop := StopActive)
    case StopCloseJobs => s.(stop := JobsClosed, queueClosed := true)
    case StopWorkerWait => s.(stop := WorkersDone)
    case StopCloseResults => s.(stop := AllClosed, resultsClosed := true)
  }

  // ---------- runs ----------

  /** All fetchers of a scanner have ended. */
  predicate Joined(procs: seq<Proc>, p: nat) {
    forall i :: 0 <= i < |procs| && procs[i].kind == Fetcher(p) ==> procs[i].life == Dead
  }

  predicate Enabled(s: State, step: Step) {
    match step
    case Own(p, act) =>
      && p < |s.procs| && CanAct(s, s.procs[p], act)
      && (act.FetchSpawn? ==> act.owner == p)
      && (act == ScannerEnd ==> Joined(s.procs, p))
    case Ctl(c) => CanControl(s, c)
  }

  function Apply(s: State, step: Step): (t: State)
    requires Enabled(s, step)
  {
    match step
    case Own(p, act) =>
      Shared(s, s.procs[p], act).(procs := s.procs[p := Next(s, s.procs[p], act)] + Spawned(act))
    case Ctl(c) => DoControl(s, c)
  }

  /** `steps` leads from `s` to `t`. */
  ghost predicate Leads(s: State, steps: seq<Step>, t: State)
    decreases |steps|
  {
    if steps == [] then s == t
    else Enabled(s, steps[0]) && Leads(Apply(s, steps[0]), steps[1..], t)
  }

  ghost predicate Reachable(t: State) {
    exists workers: nat, steps: seq<Step> :: Leads(Init(workers), steps, t)
  }

  // ---------- sums over goroutines: the four wait groups, and the copies of a job ----------

  datatype Group = ActiveJobs | Submissions | Scanners | Workers | Copies(job: Job)

  /** The job a goroutine is past the filter with, in Submit. */
  function Offered(pc: Pc): Option<Job> {
    if pc.Accepted? || pc.Pushing? then Some(pc.job) else None
  }

  predicate Submitting(pc: Pc) {
    pc.Admitted? || pc.Accepted? || pc.Pushing? || pc.PushFailed? || pc.Leaving?
  }

  function Weight(g: Group, p: Proc): nat {
    match g
    case ActiveJobs =>
      (if p.held.Some? then 1 else 0)
      + (if p.life == Live && (p.kind == Branch || p.kind == Aux) then 1 else 0)
      + (if p.pc.Pushing? || p.pc.PushFailed? || p.pc.BranchReserved? || p.pc.BranchRegistered? || p.pc.AuxReserved?
         then 1 else 0)
    case Submissions => if Submitting(p.pc) then 1 else 0
    case Scanners =>
      (if (p.kind == Scanner || p.kind == Branch) && p.life != Dead then 1 else 0)
      + (if p.pc.BranchRegistered? then 1 else 0)
    case Workers => if p.kind == Worker && p.life == Live then 1 else 0
    case Copies(job) => (if p.held == Some(job) then 1 else 0) + (if Offered(p.pc) == Some(job) then 1 else 0)
  }

  function Sum(g: Group, procs: seq<Proc>): nat {
    if procs == [] then 0 else Sum(g, procs[..|procs|-1]) + Weight(g, procs[|procs|-1])
  }

  lemma {:induction false} SumAppend(g: Group, procs: seq<Proc>, p: Proc)
    ensures Sum(g, procs + [p]) == Sum(g, procs) + Weight(g, p)
  {
    assert (procs + [p])[..|procs|] == procs;
  }

  lemma {:induction false} SumUpdate(g: Group, procs: seq<Proc>, i: nat, p: Proc)
    requires i < |procs|
    ensures Sum(g, procs[i := p]) == Sum(g, procs) - Weight(g, procs[i]) + Weight(g, p)
  {
    var last := |procs| - 1;
    if i == last {
      assert procs[i := p][..last] == procs[..last];
    } else {
      assert procs[i := p][..last] == procs[..last][i := p];
      SumUpdate(g, procs[..last], i, p);
    }
  }

  lemma {:induction false} SumAtLeast(g: Group, procs: seq<Proc>, i: nat)
    requires i < |procs|
    ensures Sum(g, procs) >= Weight(g, procs[i])
  {
    if i < |procs| - 1 {
      SumAtLeast(g, procs[..|procs|-1], i);
    }
  }

  lemma SumZero(g: Group, procs: seq<Proc>)
    requires Sum(g, procs) == 0
    ensures forall i :: 0 <= i < |procs| ==> Weight(g, procs[i]) == 0
  {
    forall i | 0 <= i < |procs| ensures Weight(g, procs[i]) == 0 {
      SumAtLeast(g, procs, i);
    }
  }

  lemma {:induction false} SumIdle(g: Group, procs: seq<Proc>)
    requires forall i :: 0 <= i < |procs| ==> procs[i] == IDLE_WORKER
    ensures Sum(g, procs) == if g == Workers then |procs| else 0
  {
    if procs != [] {
      SumIdle(g, procs[..|procs|-1]);
    }
  }

  // ---------- the invariant ----------

  function Pending(c: Ctl): nat { if c.Draining? then c.pending else 0 }

  function Registered(c: Ctl): nat {
    if c == KickOne || c == KickLast then 1 else if c == KickTwo then 2 else 0
  }

  predicate Kicking(c: Ctl) { Registered(c) > 0 }

  /** A wait group's counter, less what the queue and the controller stand for. */
  function Count(g: Group, s: State): int {
    match g
    case ActiveJobs => s.activeJobs - |s.queue| - Pending(s.ctl)
    case Submissions => s.submissionWg
    case Scanners => s.scannerWg - Registered(s.ctl)
    case Workers => s.workerWg
    case Copies(job) => Sum(g, s.procs)
  }

  /** Each wait group counts exactly the work registered with it. */
  ghost predicate Counted(s: State) {
    forall g :: Count(g, s) == Sum(g, s.procs)
  }

  predicate Shaped(p: Proc) {
    && (p.life == Dead ==> p.pc == Run && p.held.None?)
    && (p.life == Finishing ==> p.kind == Branch && p.pc == Run)
    && (p.kind != Worker ==> p.held.None?)
    && (p.held.None? ==> !p.pc.Popped? && !p.pc.BranchReserved? && !p.pc.BranchRegistered? && !p.pc.AuxReserved?)
    && (p.kind == Worker && p.held.None? ==> p.pc == Run)
  }

  ghost predicate AllShaped(s: State) {
    forall i :: 0 <= i < |s.procs| ==> Shaped(s.procs[i])
  }

  /** A live fetcher's scanner is live: it waits for its fetchers. */
  ghost predicate Owned(s: State) {
    forall i :: 0 <= i < |s.procs| && s.procs[i].kind.Fetcher? && s.procs[i].life == Live ==>
      var owner := s.procs[i].kind.owner;
      owner < |s.procs| && s.procs[owner].kind == Scanner && s.procs[owner].life == Live
  }

  /** The generation the filter, and every job in the engine, belongs to: the previous one from
      the moment admission closes until the reset. */
  function Generation(s: State): int {
    if s.ctl == Closed || s.ctl == SubsDrained || s.ctl.Draining? || s.ctl == ActiveDrained || s.ctl == Quiet
    then s.runId - 1 else s.runId
  }

  predicate JobsOf(p: Proc, generation: int) {
    && (p.held.Some? ==> p.held.value.runId == generation)
    && (p.pc.Admitted? || p.pc.Accepted? || p.pc.Pushing? ==> p.pc.job.runId == generation)
  }

  ghost predicate Isolated(s: State) {
    && (forall job :: job in s.queue ==> job.runId == Generation(s))
    && (forall i :: 0 <= i < |s.procs| ==> JobsOf(s.procs[i], Generation(s)))
  }

  /** What `ChangeWordlist` has established by each of its stages. */
  ghost predicate Staged(s: State) {
    && (s.restarting <==> Generation(s) != s.runId || s.ctl == Cleared)
    && (s.ctl == SubsDrained || s.ctl.Draining? || s.ctl == ActiveDrained || s.ctl == Quiet || s.ctl == Cleared ==>
          s.submissionWg == 0)
    && (s.ctl.Draining? || s.ctl == ActiveDrained || s.ctl == Quiet || s.ctl == Cleared ==> s.queue == multiset{})
    && (s.ctl == ActiveDrained || s.ctl == Quiet || s.ctl == Cleared ==> s.activeJobs == 0)
    && (s.ctl == Quiet || s.ctl == Cleared ==> s.scannerWg == 0)
    && (s.ctl == Cleared ==> s.filter == {})
  }

  /** Everything the filter let through is of a past generation, or still in the filter. */
  ghost predicate Recorded(s: State) {
    && (forall i :: 0 <= i < |s.accepted| ==>
          && s.accepted[i].runId <= Generation(s)
          && (s.accepted[i].runId == Generation(s) ==> s.ctl != Cleared && s.accepted[i].key in s.filter))
    && (forall i, j :: 0 <= i < j < |s.accepted| ==> s.accepted[i] != s.accepted[j])
  }

  /** How often a job is queued, held by a worker, or past the filter in Submit. */
  function InFlight(s: State, job: Job): nat { s.queue[job] + Sum(Copies(job), s.procs) }

  /** Every job in flight was let through by the filter, and is in flight once. */
  ghost predicate Accounted(s: State) {
    forall job :: InFlight(s, job) <= if job in s.accepted then 1 else 0
  }

  ghost predicate NoScanner(s: State) {
    && !Kicking(s.ctl)
    && forall i :: 0 <= i < |s.procs| && (s.procs[i].kind == Scanner || s.procs[i].kind.Fetcher?) ==>
         s.procs[i].life == Dead
  }

  ghost predicate Waited(s: State) {
    && (s.waiter.ScannersSeen? && s.waiter.clean ==> NoScanner(s))
    && (s.waiter.Returned? && s.waiter.clean ==> NoScanner(s) && s.activeJobs == 0)
  }

  function Rank(stop: Stop): nat {
    match stop
    case NotStopping => 0 case Cancelled => 1 case StopScanners => 2 case StopActive => 3
    case JobsClosed => 4 case WorkersDone => 5 case AllClosed => 6
  }

  ghost predicate Stopped(s: State) {
    && (Rank(s.stop) >= 1 ==> s.ctl == Idle)
    && (Rank(s.stop) >= 2 ==> NoScanner(s))
    && (Rank(s.stop) >= 3 ==> s.activeJobs == 0)
    && (s.queueClosed <==> Rank(s.stop) >= 4)
    && (Rank(s.stop) >= 5 ==> s.workerWg == 0)
    && (s.resultsClosed <==> Rank(s.stop) >= 6)
  }

  ghost predicate Inv(s: State) {
    && Counted(s)
    && AllShaped(s)
    && Owned(s)
    && Isolated(s)
    && Staged(s)
    && Recorded(s)
    && Accounted(s)
    && Waited(s)
    && Stopped(s)
  }
}
