/** The bounded priority queue and its two one-token channels.

    Everything between `q.mu.Lock` and `q.mu.Unlock` is one atomic section, given as a function on
    `Queue` values and implemented by `PriorityJobQueue`.
 */
module JobQueue {
  import opened JobHeap

  /** A channel of capacity one. */
  datatype Chan = Chan(token: bool, closed: bool)

  /** `panicked` records a send on a closed channel, or a second close. */
  datatype Queue = Queue(h: seq<Job>, closed: bool, maxLen: int, notEmpty: Chan, notFull: Chan, panicked: bool)

  datatype Outcome = Pushed | Full | Refused | Popped(job: Job) | Empty | Ended

  function New(maxLen: int): Queue {
    Queue([], false, maxLen, Chan(false, false), Chan(false, false), false)
  }

  // ---------- critical sections ----------

  /** A non-blocking send: it panics on a closed channel and is dropped when a token is there. */
  function SendNotEmpty(q: Queue): Queue {
    if q.notEmpty.closed then q.(panicked := true) else q.(notEmpty := Chan(true, false))
  }

  function SendNotFull(q: Queue): Queue {
    if q.notFull.closed then q.(panicked := true) else q.(notFull := Chan(true, false))
  }

  function SignalNotEmpty(q: Queue): Queue {
    if q.closed || |q.h| == 0 then q else SendNotEmpty(q)
  }

  function SignalNotFull(q: Queue): Queue {
    if q.closed || q.maxLen == 0 || |q.h| >= q.maxLen then q else SendNotFull(q)
  }

  predicate HasRoom(q: Queue) { q.maxLen == 0 || |q.h| < q.maxLen }

  function PushOutcome(q: Queue): Outcome {
    if q.closed then Refused else if HasRoom(q) then Pushed else Full
  }

  function PushSection(q: Queue, job: Job): Queue {
    if PushOutcome(q) == Pushed then SignalNotFull(SignalNotEmpty(q.(h := HeapPush(q.h, job)))) else q
  }

  function PopOutcome(q: Queue): Outcome {
    if q.h != [] then Popped(q.h[0]) else if q.closed then Ended else Empty
  }

  function PopSection(q: Queue): Queue {
    if q.h != [] then SignalNotFull(SignalNotEmpty(q.(h := HeapPop(q.h)))) else q
  }

  function CloseSection(q: Queue): Queue {
    if q.closed then q
    else q.(closed := true,
            panicked := q.panicked || q.notEmpty.closed || q.notFull.closed,
            notEmpty := q.notEmpty.(closed := true), notFull := q.notFull.(closed := true))
  }

  function DrainSection(q: Queue): Queue {
    if q.h != [] then SignalNotFull(q.(h := [])) else q
  }

  // ---------- the tokens ----------

  /** In an open queue whose channels are open a push leaves a token for consumers exactly when the job went in, and one
      for producers exactly when a bounded queue still has room behind it; tokens that were there stay. */
  lemma PushSignalsIff(q: Queue, job: Job)
    requires !q.closed && !q.notEmpty.closed && !q.notFull.closed
    ensures var t, fits := PushSection(q, job), q.maxLen == 0 || |q.h| < q.maxLen;
            && (t.notEmpty.token <==> q.notEmpty.token || fits)
            && (t.notFull.token <==> q.notFull.token || (fits && q.maxLen != 0 && |q.h| + 1 < q.maxLen))
            && t.panicked == q.panicked
  {
  }

  /** A pop leaves a token for consumers exactly when it took a job and left another, and one for producers exactly when
      it took a job out of a bounded queue within its bound. */
  lemma PopSignalsIff(q: Queue)
    requires !q.closed && !q.notEmpty.closed && !q.notFull.closed
    ensures var t := PopSection(q);
            && (t.notEmpty.token <==> q.notEmpty.token || |q.h| > 1)
            && (t.notFull.token <==> q.notFull.token || (q.h != [] && q.maxLen != 0 && |q.h| <= q.maxLen))
            && t.panicked == q.panicked
  {
  }

  /** A drain signals producers exactly when it took something out of a bounded queue, and consumers never. */
  lemma DrainSignalsIff(q: Queue)
    requires !q.closed && !q.notEmpty.closed && !q.notFull.closed
    ensures var t := DrainSection(q);
            && (t.notEmpty.token <==> q.notEmpty.token)
            && (t.notFull.token <==> q.notFull.token || (q.h != [] && q.maxLen > 0))
            && t.panicked == q.panicked && t.h == []
  {
  }

  // ---------- the queue object ----------

  class PriorityJobQueue {
    const slice: JobSlice
    const maxLen: int
    var closed: bool
    var notEmpty: Chan
    var notFull: Chan
    ghost var panicked: bool

    ghost function State(): Queue
      reads this, slice
    {
      Queue(slice.h, closed, maxLen, notEmpty, notFull, panicked)
    }

    constructor (maxLen: int)
      ensures State() == New(maxLen) && fresh(slice)
    {
      slice := new JobSlice();
      this.maxLen := maxLen;
      closed := false;
      notEmpty, notFull := Chan(false, false), Chan(false, false);
      panicked := false;
    }

    method SignalNotEmptyLocked()
      modifies this
      ensures State() == SignalNotEmpty(old(State()))
    {
      if closed || |slice.h| == 0 {
        return;
      }
      if notEmpty.closed {
        panicked := true;
      } else {
        notEmpty := Chan(true, false);
      }
    }

    method SignalNotFullLocked()
      modifies this
      ensures State() == SignalNotFull(old(State()))
    {
      if closed || maxLen == 0 || |slice.h| >= maxLen {
        return;
      }
      if notFull.closed {
        panicked := true;
      } else {
        notFull := Chan(true, false);
      }
    }

    /** One pass of Push through the lock. */
    method PushLocked(job: Job) returns (outcome: Outcome)
      modifies this, slice
      ensures outcome == PushOutcome(old(State())) && State() == PushSection(old(State()), job)
    {
      if closed {
        return Refused;
      }
      if maxLen == 0 || |slice.h| < maxLen {
        slice.Push(job);
        SignalNotEmptyLocked();
        SignalNotFullLocked();
        return Pushed;
      }
      return Full;
    }

    /** One pass of Pop through the lock. */
    method PopLocked() returns (outcome: Outcome)
      modifies this, slice
      ensures outcome == PopOutcome(old(State())) && State() == PopSection(old(State()))
    {
      if |slice.h| > 0 {
        var job := slice.Pop();
        SignalNotEmptyLocked();
        SignalNotFullLocked();
        return Popped(job);
      }
      if closed {
        return Ended;
      }
      return Empty;
    }

    method Close()
      modifies this
      ensures State() == CloseSection(old(State()))
    {
      if !closed {
        closed := true;
        panicked := panicked || notEmpty.closed || notFull.closed;
        notEmpty := notEmpty.(closed := true);
        notFull := notFull.(closed := true);
      }
    }

    method Drain() returns (count: nat)
      modifies this, slice
      ensures count == |old(slice.h)| && State() == DrainSection(old(State()))
    {
      count := |slice.h|;
      slice.h := [];
      if count > 0 {
        SignalNotFullLocked();
      }
    }
  }
}
