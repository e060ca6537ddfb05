/** Any number of producers and consumers at one queue, blocking outside the lock in a `select` between the
    context and a channel. */
module QueueSystem {
  import opened JobHeap
  import opened JobQueue

  // ---------- producers and consumers ----------

  /** `Trying`: on the way to the lock; `Parked`: released the lock, in the select; `Woken`: received
      from the channel, on the way back to the lock. */
  datatype Pc = Trying | Parked | Woken | Done

  datatype Proc = Producer(job: Job, pc: Pc) | Consumer(pc: Pc)

  /** `accepted`, `popped` and `drained` list the jobs that entered and left, in order. */
  datatype System = System(q: Queue, procs: seq<Proc>, accepted: seq<Job>, popped: seq<Job>, drained: seq<Job>)

  datatype Step =
    | CallPush(job: Job)
    | CallPop
    | Lock(p: nat)      // one pass through the critical section
    | Wake(p: nat)      // the select takes the channel
    | Cancel(p: nat)    // the select takes ctx.Done
    | CallClose
    | CallDrain

  function Channel(s: System, p: Proc): Chan {
    if p.Producer? then s.q.notFull else s.q.notEmpty
  }

  predicate Enabled(s: System, step: Step) {
    match step
    case Lock(p) => p < |s.procs| && (s.procs[p].pc == Trying || s.procs[p].pc == Woken)
    case Wake(p) => p < |s.procs| && s.procs[p].pc == Parked &&
                    (Channel(s, s.procs[p]).token || Channel(s, s.procs[p]).closed)
    case Cancel(p) => p < |s.procs| && s.procs[p].pc == Parked
    case _ => true
  }

  function Go(s: System, p: nat, pc: Pc): System
    requires p < |s.procs|
  {
    s.(procs := s.procs[p := s.procs[p].(pc := pc)])
  }

  function Apply(s: System, step: Step): (t: System)
    requires Enabled(s, step)
  {
    match step
    case CallPush(job) => s.(procs := s.procs + [Producer(job, Trying)])
    case CallPop => s.(procs := s.procs + [Consumer(Trying)])
    case Lock(p) =>
      (match s.procs[p]
       case Producer(job, _) =>
         var outcome := PushOutcome(s.q);
         Go(s, p, if outcome == Full then Parked else Done)
           .(q := PushSection(s.q, job), accepted := s.accepted + if outcome == Pushed then [job] else [])
       case Consumer(_) =>
         var outcome := PopOutcome(s.q);
         Go(s, p, if outcome == Empty then Parked else Done)
           .(q := PopSection(s.q), popped := s.popped + if outcome.Popped? then [outcome.job] else []))
    case Wake(p) =>
      var t := Go(s, p, Woken);
      if s.procs[p].Producer? then t.(q := s.q.(notFull := s.q.notFull.(token := false)))
      else t.(q := s.q.(notEmpty := s.q.notEmpty.(token := false)))
    case Cancel(p) => Go(s, p, Done)
    case CallClose => s.(q := CloseSection(s.q))
    case CallDrain => s.(q := DrainSection(s.q), drained := s.drained + s.q.h)
  }

  function Init(maxLen: int): System { System(New(maxLen), [], [], [], []) }

  ghost predicate Leads(s: System, steps: seq<Step>, t: System)
    decreases |steps|
  {
    if steps == [] then s == t
    else Enabled(s, steps[0]) && Leads(Apply(s, steps[0]), steps[1..], t)
  }

  ghost predicate Reachable(t: System) {
    exists maxLen: int, steps: seq<Step> :: Leads(Init(maxLen), steps, t)
  }

  // ---------- the invariant ----------

  predicate Is(p: Proc, producer: bool, pc: Pc) { p.Producer? == producer && p.pc == pc }

  ghost predicate Any(s: System, producer: bool, pc: Pc) {
    exists i :: 0 <= i < |s.procs| && Is(s.procs[i], producer, pc)
  }

  ghost predicate Sound(q: Queue) {
    && !q.panicked
    && q.notEmpty.closed == q.closed && q.notFull.closed == q.closed
    && (q.maxLen > 0 ==> |q.h| <= q.maxLen)
  }

  /** Work waiting in an open queue has a wake-up on its way to a consumer. */
  ghost predicate WorkSignalled(s: System) {
    !s.q.closed && s.q.h != [] ==> s.q.notEmpty.token || Any(s, false, Woken)
  }

  /** Room in an open bounded queue has a wake-up on its way to a producer, if one is parked. */
  ghost predicate RoomSignalled(s: System) {
    !s.q.closed && 0 < s.q.maxLen && |s.q.h| < s.q.maxLen && Any(s, true, Parked) ==>
      s.q.notFull.token || Any(s, true, Woken)
  }

  ghost predicate Conserved(s: System) {
    multiset(s.accepted) == multiset(s.q.h) + multiset(s.popped) + multiset(s.drained)
  }

  ghost predicate Inv(s: System) {
    && Sound(s.q)
    && WorkSignalled(s)
    && RoomSignalled(s)
    && Conserved(s)
    && (Any(s, true, Parked) ==> s.q.maxLen != 0)
  }

  lemma PushSound(q: Queue, job: Job)
    requires Sound(q)
    ensures Sound(PushSection(q, job))
    ensures var t := PushSection(q, job);
            t.closed == q.closed && t.maxLen == q.maxLen &&
            if PushOutcome(q) == Pushed then
              |t.h| == |q.h| + 1 && multiset(t.h) == multiset(q.h) + multiset{job} && t.notEmpty.token
              && (0 < q.maxLen && |t.h| < q.maxLen ==> t.notFull.token)
            else t == q
  {
    UpKeeps(q.h + [job], |q.h|);
  }

  lemma PopSound(q: Queue)
    requires Sound(q)
    ensures Sound(PopSection(q))
    ensures var t := PopSection(q);
            t.closed == q.closed && t.maxLen == q.maxLen &&
            if q.h != [] then
              |t.h| == |q.h| - 1 && multiset(q.h) == multiset(t.h) + multiset{q.h[0]}
              && (!q.closed && t.h != [] ==> t.notEmpty.token)
              && (!q.closed && 0 < q.maxLen ==> t.notFull.token)
            else t == q
  {
    if q.h != [] {
      PopKeeps(q.h);
    }
  }

  lemma PopKeeps(h: seq<Job>)
    requires h != []
    ensures multiset(h) == multiset(HeapPop(h)) + multiset{h[0]}
  {
    SwapKeeps(h, 0, |h| - 1);
    DownKeeps(Swap(h, 0, |h| - 1), 0, |h| - 1);
    assert Rotated(h) == HeapPop(h) + [h[0]];
  }

  /** Only goroutine `p` moved, and new ones are `Trying`. */
  ghost predicate OnlyMoves(s: System, p: nat, t: System) {
    && |s.procs| <= |t.procs|
    && (forall i :: 0 <= i < |s.procs| && i != p ==> t.procs[i] == s.procs[i])
    && (forall i :: |s.procs| <= i < |t.procs| ==> t.procs[i].pc == Trying)
  }

  lemma OthersStay(s: System, p: nat, t: System, producer: bool, pc: Pc)
    requires OnlyMoves(s, p, t)
    ensures Any(s, producer, pc) && !(p < |s.procs| && Is(s.procs[p], producer, pc)) ==> Any(t, producer, pc)
    ensures Any(t, producer, pc) && pc != Trying && !(p < |t.procs| && Is(t.procs[p], producer, pc)) ==> Any(s, producer, pc)
    ensures p < |t.procs| && Is(t.procs[p], producer, pc) ==> Any(t, producer, pc)
    ensures p < |s.procs| && Is(s.procs[p], producer, pc) ==> Any(s, producer, pc)
  {
    if Any(s, producer, pc) && !(p < |s.procs| && Is(s.procs[p], producer, pc)) {
      var i :| 0 <= i < |s.procs| && Is(s.procs[i], producer, pc);
      assert Is(t.procs[i], producer, pc);
    }
    if Any(t, producer, pc) && pc != Trying && !(p < |t.procs| && Is(t.procs[p], producer, pc)) {
      var i :| 0 <= i < |t.procs| && Is(t.procs[i], producer, pc);
      assert Is(s.procs[i], producer, pc);
    }
  }

  lemma Movers(s: System, p: nat, t: System)
    requires OnlyMoves(s, p, t)
    ensures forall producer: bool, pc: Pc ::
              && (Any(s, producer, pc) && !(p < |s.procs| && Is(s.procs[p], producer, pc)) ==> Any(t, producer, pc))
              && (Any(t, producer, pc) && pc != Trying && !(p < |t.procs| && Is(t.procs[p], producer, pc)) ==>
                    Any(s, producer, pc))
              && (p < |t.procs| && Is(t.procs[p], producer, pc) ==> Any(t, producer, pc))
              && (p < |s.procs| && Is(s.procs[p], producer, pc) ==> Any(s, producer, pc))
  {
    forall producer: bool, pc: Pc
      ensures && (Any(s, producer, pc) && !(p < |s.procs| && Is(s.procs[p], producer, pc)) ==> Any(t, producer, pc))
              && (Any(t, producer, pc) && pc != Trying && !(p < |t.procs| && Is(t.procs[p], producer, pc)) ==>
                    Any(s, producer, pc))
              && (p < |t.procs| && Is(t.procs[p], producer, pc) ==> Any(t, producer, pc))
              && (p < |s.procs| && Is(s.procs[p], producer, pc) ==> Any(s, producer, pc))
    {
      OthersStay(s, p, t, producer, pc);
    }
  }

  lemma PushConserves(s: System, p: nat, job: Job)
    requires Sound(s.q) && Conserved(s) && Enabled(s, Lock(p)) && s.procs[p].Producer? && s.procs[p].job == job
    ensures Conserved(Apply(s, Lock(p)))
  {
    PushSound(s.q, job);
    assert multiset(s.accepted + [job]) == multiset(s.accepted) + multiset{job};
  }

  lemma PopConserves(s: System, p: nat)
    requires Sound(s.q) && Conserved(s) && Enabled(s, Lock(p)) && s.procs[p].Consumer?
    ensures Conserved(Apply(s, Lock(p)))
  {
    PopSound(s.q);
    if s.q.h != [] {
      assert multiset(s.popped + [s.q.h[0]]) == multiset(s.popped) + multiset{s.q.h[0]};
    }
  }

  lemma LockConserves(s: System, p: nat)
    requires Inv(s) && Enabled(s, Lock(p))
    ensures Conserved(Apply(s, Lock(p)))
  {
    match s.procs[p]
    case Producer(job, _) => PushConserves(s, p, job);
    case Consumer(_) => PopConserves(s, p);
  }

  lemma LockKeepsInv(s: System, p: nat)
    requires Inv(s) && Enabled(s, Lock(p))
    ensures Inv(Apply(s, Lock(p)))
  {
    LockConserves(s, p);
    Movers(s, p, Apply(s, Lock(p)));
    match s.procs[p]
    case Producer(job, _) => PushSignals(s, p, job);
    case Consumer(_) => PopSignals(s, p);
  }

  /** What a pass of Push leaves behind, in terms of `PushSound` only. */
  lemma PushSignals(s: System, p: nat, job: Job)
    requires Inv(s) && Enabled(s, Lock(p)) && s.procs[p].Producer? && s.procs[p].job == job
    ensures var t := Apply(s, Lock(p));
            Sound(t.q) && WorkSignalled(t) && RoomSignalled(t) && (Any(t, true, Parked) ==> t.q.maxLen != 0)
  {
    Movers(s, p, Apply(s, Lock(p)));
    PushSound(s.q, job);
  }

  lemma PopSignals(s: System, p: nat)
    requires Inv(s) && Enabled(s, Lock(p)) && s.procs[p].Consumer?
    ensures var t := Apply(s, Lock(p));
            Sound(t.q) && WorkSignalled(t) && RoomSignalled(t) && (Any(t, true, Parked) ==> t.q.maxLen != 0)
  {
    Movers(s, p, Apply(s, Lock(p)));
    PopSound(s.q);
  }

  lemma WakeKeepsInv(s: System, p: nat)
    requires Inv(s) && Enabled(s, Wake(p))
    ensures Inv(Apply(s, Wake(p)))
  {
    Movers(s, p, Apply(s, Wake(p)));
  }

  lemma CancelKeepsInv(s: System, p: nat)
    requires Inv(s) && Enabled(s, Cancel(p))
    ensures Inv(Apply(s, Cancel(p)))
  {
    Movers(s, p, Apply(s, Cancel(p)));
  }

  lemma CallKeepsInv(s: System, step: Step)
    requires Inv(s) && (step.CallPush? || step.CallPop?)
    ensures Inv(Apply(s, step))
  {
    Movers(s, |Apply(s, step).procs|, Apply(s, step));
  }

  lemma CloseKeepsInv(s: System, step: Step)
    requires Inv(s) && (step.CallClose? || step.CallDrain?)
    ensures Inv(Apply(s, step))
  {
    assert multiset(s.drained + s.q.h) == multiset(s.drained) + multiset(s.q.h);
  }

  lemma StepKeepsInv(s: System, step: Step)
    requires Inv(s) && Enabled(s, step)
    ensures Inv(Apply(s, step))
  {
    match step {
      case Lock(p) => LockKeepsInv(s, p);
      case Wake(p) => WakeKeepsInv(s, p);
      case Cancel(p) => CancelKeepsInv(s, p);
      case CallPush(_) => CallKeepsInv(s, step);
      case CallPop => CallKeepsInv(s, step);
      case CallClose => CloseKeepsInv(s, step);
      case CallDrain => CloseKeepsInv(s, step);
    }
  }

  lemma {:induction false} LeadsInv(s: System, steps: seq<Step>, t: System)
    requires Inv(s) && Leads(s, steps, t)
    ensures Inv(t)
    decreases |steps|
  {
    if steps != [] {
      StepKeepsInv(s, steps[0]);
      LeadsInv(Apply(s, steps[0]), steps[1..], t);
    }
  }

  lemma ReachableInv(t: System)
    requires Reachable(t)
    ensures Inv(t)
  {
    var maxLen: int, steps :| Leads(Init(maxLen), steps, t);
    LeadsInv(Init(maxLen), steps, t);
  }

  // ---------- every reachable state ----------

  /** No lost wakeups, no send on a closed channel, no double close. */
  lemma NoLostWakeup(t: System)
    requires Reachable(t)
    ensures !t.q.closed && t.q.h != [] ==> t.q.notEmpty.token || Any(t, false, Woken)
    ensures !t.q.closed && 0 < t.q.maxLen && |t.q.h| < t.q.maxLen && Any(t, true, Parked) ==>
              t.q.notFull.token || Any(t, true, Woken)
    ensures !t.q.panicked
  {
    ReachableInv(t);
  }

  /** Whoever is parked for good is parked for a reason: if no goroutine can take the lock or a
      channel, then consumers are parked only on an empty open queue, producers only on a full one.
      In particular one Drain frees every parked producer there is room for. */
  lemma BlockedForAReason(t: System)
    requires Reachable(t) && forall p: nat :: !Enabled(t, Lock(p)) && !Enabled(t, Wake(p))
    ensures Any(t, false, Parked) ==> t.q.h == [] && !t.q.closed
    ensures Any(t, true, Parked) ==> !HasRoom(t.q) && !t.q.closed
  {
    ReachableInv(t);
    NoneAt(t, true, Woken);
    NoneAt(t, false, Woken);
    if Any(t, false, Parked) {
      var i: nat :| i < |t.procs| && Is(t.procs[i], false, Parked);
      assert !Enabled(t, Wake(i));
    }
    if Any(t, true, Parked) {
      var i: nat :| i < |t.procs| && Is(t.procs[i], true, Parked);
      assert !Enabled(t, Wake(i));
    }
  }

  lemma NoneAt(t: System, producer: bool, pc: Pc)
    requires (pc == Trying || pc == Woken) && forall p: nat :: !Enabled(t, Lock(p))
    ensures !Any(t, producer, pc)
  {
    if Any(t, producer, pc) {
      var i: nat :| i < |t.procs| && Is(t.procs[i], producer, pc);
      assert Enabled(t, Lock(i));
    }
  }

  /** What a pass through the lock decides: a producer is done if its job went in, which it does exactly when the queue
      is open and has room, or if the queue is closed, and else parks; a consumer is done if it got a job, which it does
      exactly when there is one, even in a closed queue, or if the queue is closed, and else parks.  Whoever parks has
      left the queue as it was. */
  lemma LockDecides(t: System, p: nat)
    requires Reachable(t) && Enabled(t, Lock(p))
    ensures var u, room := Apply(t, Lock(p)), t.q.maxLen == 0 || |t.q.h| < t.q.maxLen;
            if t.procs[p].Producer? then
              && u.popped == t.popped
              && u.accepted == (if !t.q.closed && room then t.accepted + [t.procs[p].job] else t.accepted)
              && u.procs[p].pc == (if t.q.closed || room then Done else Parked)
              && (u.procs[p].pc == Parked ==> u.q == t.q)
            else
              && u.accepted == t.accepted
              && |u.popped| == |t.popped| + (if t.q.h != [] then 1 else 0)
              && u.procs[p].pc == (if t.q.h != [] || t.q.closed then Done else Parked)
              && (u.procs[p].pc == Parked ==> u.q == t.q)
  {
  }

  /** A token wakes one goroutine: the one that takes it leaves none in its channel, unless the channel is closed, when
      everyone parked can wake.  Whoever is parked can also give up, and then has changed nothing. */
  lemma TokenWakesOne(t: System, p: nat)
    requires Reachable(t) && p < |t.procs| && t.procs[p].pc == Parked
    ensures Enabled(t, Cancel(p)) && Apply(t, Cancel(p)) == t.(procs := t.procs[p := t.procs[p].(pc := Done)])
    ensures t.q.closed ==> Enabled(t, Wake(p))
    ensures !t.q.closed ==>
              (Enabled(t, Wake(p)) <==> if t.procs[p].Producer? then t.q.notFull.token else t.q.notEmpty.token)
    ensures Enabled(t, Wake(p)) ==>
              var u := Apply(t, Wake(p));
              && u.procs == t.procs[p := t.procs[p].(pc := Woken)]
              && u.q == if t.procs[p].Producer? then t.q.(notFull := Chan(false, t.q.closed))
                        else t.q.(notEmpty := Chan(false, t.q.closed))
  {
    ReachableInv(t);
  }

  /** Every accepted job leaves exactly once, by Pop or by Drain, or is still queued; and a positive
      bound is never exceeded. */
  lemma BoundedAndConserved(t: System)
    requires Reachable(t)
    ensures multiset(t.accepted) == multiset(t.q.h) + multiset(t.popped) + multiset(t.drained)
    ensures t.q.maxLen > 0 ==> |t.q.h| <= t.q.maxLen
  {
    ReachableInv(t);
  }

  // ---------- what Pop returns ----------

  /** As long as the accepted jobs carry creation times as their classes say, the heap is in order for
      them. */
  ghost predicate InOrder(s: System, ties: Ties) {
    Dated(s.accepted, ties) ==> Ordered(s.q.h, ties)
  }

  lemma PushInOrder(s: System, p: nat, ties: Ties)
    requires InOrder(s, ties) && Enabled(s, Lock(p)) && s.procs[p].Producer? && PushOutcome(s.q) == Pushed
    ensures InOrder(Apply(s, Lock(p)), ties)
  {
    var job := s.procs[p].job;
    assert Apply(s, Lock(p)).accepted == s.accepted + [job];
    if Dated(s.accepted + [job], ties) {
      assert job in s.accepted + [job] && forall other :: other in s.accepted ==> other in s.accepted + [job];
      PushKeepsOrder(s.q.h, job, ties);
    }
  }

  lemma PopInOrder(s: System, p: nat, ties: Ties)
    requires InOrder(s, ties) && Enabled(s, Lock(p)) && s.procs[p].Consumer? && s.q.h != []
    ensures InOrder(Apply(s, Lock(p)), ties)
  {
    if Dated(s.accepted, ties) {
      PopTakesFirst(s.q.h, ties);
    }
  }

  lemma StepKeepsOrder(s: System, step: Step, ties: Ties)
    requires InOrder(s, ties) && Enabled(s, step)
    ensures InOrder(Apply(s, step), ties)
  {
    if step.Lock? && s.procs[step.p].Producer? && PushOutcome(s.q) == Pushed {
      PushInOrder(s, step.p, ties);
    } else if step.Lock? && s.procs[step.p].Consumer? && s.q.h != [] {
      PopInOrder(s, step.p, ties);
    } else {
      assert Apply(s, step).accepted == s.accepted && (Apply(s, step).q.h == s.q.h || Apply(s, step).q.h == []);
    }
  }

  lemma {:induction false} LeadsInOrder(s: System, steps: seq<Step>, t: System, ties: Ties)
    requires InOrder(s, ties) && Leads(s, steps, t)
    ensures InOrder(t, ties)
    decreases |steps|
  {
    if steps != [] {
      StepKeepsOrder(s, steps[0], ties);
      LeadsInOrder(Apply(s, steps[0]), steps[1..], t, ties);
    }
  }

  /** Two types that Pop does not tell apart. */
  predicate Alike(a: JobType, b: JobType) {
    || a == b
    || ((a == Fuzz || a == Unset) && (b == Fuzz || b == Unset))
    || (a.Other? && b.Other?)
  }

  lemma AlikeClass(a: Job, b: Job)
    ensures ClassOf(a) == ClassOf(b) <==> Alike(a.kind, b.kind) && a.priority == b.priority
  {
  }

  /** Of one priority as well. */
  predicate Equal(a: Job, b: Job) { Alike(a.kind, b.kind) && a.priority == b.priority }

  ghost predicate Queued(t: System, kind: JobType) { exists job :: job in t.q.h && job.kind == kind }

  /** Whatever the mix of dated and undated jobs and whatever the interleaving, Pop returns a validation job if
      one is queued, else a parameter job, else a discovery job, else a fuzz or untyped one, and a job of another
      type only if there is nothing else. */
  lemma PopByType(t: System, p: nat)
    requires Reachable(t) && Enabled(t, Lock(p)) && t.procs[p].Consumer? && t.q.h != []
    ensures var kind := PopOutcome(t.q).job.kind;
            && (Queued(t, Validation) ==> kind == Validation)
            && (Queued(t, ParamFuzz) ==> kind == Validation || kind == ParamFuzz)
            && (Queued(t, Discovery) ==> kind == Validation || kind == ParamFuzz || kind == Discovery)
            && (Queued(t, Fuzz) || Queued(t, Unset) ==> !kind.Other?)
  {
    PopIsFirst(t, p, Ties(iset{}, iset{}));
  }

  /** Among the jobs of the type it takes Pop returns one of the highest priority; and if the accepted jobs of
      that type and priority all carry a creation time, an oldest one, and if none does, one of the earliest
      run. */
  lemma PopIsBest(t: System, p: nat)
    requires Reachable(t) && Enabled(t, Lock(p)) && t.procs[p].Consumer? && t.q.h != []
    ensures var job := PopOutcome(t.q).job;
            && job in t.q.h
            && (forall other :: other in t.q.h && Alike(other.kind, job.kind) ==> other.priority <= job.priority)
            && ((forall other :: other in t.accepted && Equal(other, job) ==> other.created != 0) ==>
                  forall other :: other in t.q.h && Equal(other, job) ==> job.created <= other.created)
            && ((forall other :: other in t.accepted && Equal(other, job) ==> other.created == 0) ==>
                  forall other :: other in t.q.h && Equal(other, job) ==> job.runId <= other.runId)
  {
    var job := t.q.h[0];
    PopIsFirst(t, p, Ties(iset{}, iset{}));
    forall other ensures Equal(other, job) <==> ClassOf(other) == ClassOf(job) {
      AlikeClass(other, job);
    }
    if forall other :: other in t.accepted && Equal(other, job) ==> other.created != 0 {
      PopIsFirst(t, p, Ties(iset{ClassOf(job)}, iset{}));
    }
    if forall other :: other in t.accepted && Equal(other, job) ==> other.created == 0 {
      PopIsFirst(t, p, Ties(iset{}, iset{ClassOf(job)}));
    }
  }

  lemma PopIsFirst(t: System, p: nat, ties: Ties)
    requires Reachable(t) && Enabled(t, Lock(p)) && t.procs[p].Consumer? && t.q.h != [] && Dated(t.accepted, ties)
    ensures forall job :: job in t.q.h ==> Before(t.q.h[0], job, ties)
  {
    var maxLen: int, steps :| Leads(Init(maxLen), steps, t);
    LeadsInOrder(Init(maxLen), steps, t, ties);
    PopTakesFirst(t.q.h, ties);
  }
}
