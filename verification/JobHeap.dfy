/** The ordering of queued jobs and the binary heap that keeps it, as `container/heap` runs it over
    the job slice.

    `Less` is not a strict weak order once some jobs carry a creation time and others do not, so the
    heap is not ordered by `Less`.  What it is ordered by is `Before(a, b, ties)`: first the type
    score, then the priority, and then, for the classes all of whose members carry a creation time,
    the time, and for those none of whose members does, the run.
 */
module JobHeap {

  /** The job types the score knows, the empty one, and any other string. */
  datatype JobType = Validation | ParamFuzz | Discovery | Fuzz | Unset | Other(name: string)

  /** `created == 0` is the zero time. */
  datatype Job = Job(id: nat, kind: JobType, priority: int, created: int, runId: int)

  function TypeScore(kind: JobType): int {
    match kind
    case Validation => 40
    case ParamFuzz => 30
    case Discovery => 20
    case Fuzz => 10
    case Unset => 10
    case Other(_) => 0
  }

  predicate Less(a: Job, b: Job) {
    if TypeScore(a.kind) != TypeScore(b.kind) then TypeScore(a.kind) > TypeScore(b.kind)
    else if a.priority != b.priority then a.priority > b.priority
    else if a.created != 0 && b.created != 0 then a.created < b.created
    else a.runId < b.runId
  }

  /** Type score and priority: what the queue promises to respect in every case. */
  datatype Class = Class(score: int, priority: int)

  function ClassOf(job: Job): Class { Class(TypeScore(job.kind), job.priority) }

  predicate Above(a: Class, b: Class) {
    a.score > b.score || (a.score == b.score && a.priority > b.priority)
  }

  /** The classes whose jobs all carry a creation time, and those whose jobs all do not. */
  datatype Ties = Ties(dated: iset<Class>, undated: iset<Class>)

  /** `a` may leave before `b`. */
  ghost predicate Before(a: Job, b: Job, ties: Ties) {
    || Above(ClassOf(a), ClassOf(b))
    || (&& ClassOf(a) == ClassOf(b)
        && (ClassOf(a) in ties.dated ==> a.created <= b.created)
        && (ClassOf(a) in ties.undated ==> a.runId <= b.runId))
  }

  ghost predicate Fits(job: Job, ties: Ties) {
    && (ClassOf(job) in ties.dated ==> job.created != 0)
    && (ClassOf(job) in ties.undated ==> job.created == 0)
  }

  /** All jobs carry a creation time, or carry none, as their classes say. */
  ghost predicate Dated(jobs: seq<Job>, ties: Ties) {
    forall job :: job in jobs ==> Fits(job, ties)
  }

  /** A comparison decides `Before` both ways, for jobs that are dated where they should be. */
  lemma LessDecides(a: Job, b: Job, ties: Ties)
    requires Dated([a, b], ties)
    ensures Less(a, b) ==> Before(a, b, ties)
    ensures !Less(a, b) ==> Before(b, a, ties)
  {
    assert a in [a, b] && b in [a, b];
  }

  /** `Less` itself is no strict weak order: these three are incomparable in a chain, yet the ends
      are comparable. */
  lemma LessIsNotWeakOrder()
    ensures var a, b, c := Job(1, Fuzz, 0, 5, 0), Job(2, Fuzz, 0, 0, 0), Job(3, Fuzz, 0, 3, 0);
            !Less(a, b) && !Less(b, a) && !Less(b, c) && !Less(c, b) && Less(c, a)
  {
  }

  // ---------- the heap algorithms, on values ----------

  function Parent(k: nat): nat { if k == 0 then 0 else (k - 1) / 2 }

  function Swap(h: seq<Job>, i: nat, j: nat): (r: seq<Job>)
    requires i < |h| && j < |h|
    ensures |r| == |h|
  {
    h[i := h[j]][j := h[i]]
  }

  lemma SwapKeeps(h: seq<Job>, i: nat, j: nat)
    requires i < |h| && j < |h|
    ensures multiset(Swap(h, i, j)) == multiset(h)
  {
  }

  function Up(h: seq<Job>, j: nat): (r: seq<Job>)
    requires j < |h|
    ensures |r| == |h|
    decreases j
  {
    var i := Parent(j);
    if i == j || !Less(h[j], h[i]) then h else Up(Swap(h, i, j), i)
  }

  /** The child `down` compares with; the right one only if it is strictly less. */
  function Child(h: seq<Job>, i: nat, n: nat): (j: nat)
    requires n <= |h| && 2 * i + 1 < n
    ensures i < j < n
  {
    if 2 * i + 2 < n && Less(h[2 * i + 2], h[2 * i + 1]) then 2 * i + 2 else 2 * i + 1
  }

  function Down(h: seq<Job>, i: nat, n: nat): (r: seq<Job>)
    requires n <= |h|
    ensures |r| == |h|
    decreases n - i
  {
    if 2 * i + 1 >= n then h
    else
      var j := Child(h, i, n);
      if !Less(h[j], h[i]) then h else Down(Swap(h, i, j), j, n)
  }

  lemma {:induction false} UpKeeps(h: seq<Job>, j: nat)
    requires j < |h|
    ensures multiset(Up(h, j)) == multiset(h)
    decreases j
  {
    var i := Parent(j);
    if i != j && Less(h[j], h[i]) {
      SwapKeeps(h, i, j);
      UpKeeps(Swap(h, i, j), i);
    }
  }

  lemma {:induction false} DownKeeps(h: seq<Job>, i: nat, n: nat)
    requires n <= |h|
    ensures multiset(Down(h, i, n)) == multiset(h) && Down(h, i, n)[n..] == h[n..]
    decreases n - i
  {
    if 2 * i + 1 < n && Less(h[Child(h, i, n)], h[i]) {
      SwapKeeps(h, i, Child(h, i, n));
      DownKeeps(Swap(h, i, Child(h, i, n)), Child(h, i, n), n);
    }
  }

  lemma DownUnfolds(h: seq<Job>, i: nat, n: nat)
    requires n <= |h| && 2 * i + 1 < n
    ensures var j := if 2 * i + 2 < n && Less(h[2 * i + 2], h[2 * i + 1]) then 2 * i + 2 else 2 * i + 1;
            Down(h, i, n) == if !Less(h[j], h[i]) then h else Down(Swap(h, i, j), j, n)
  {
  }

  function HeapPush(h: seq<Job>, job: Job): seq<Job> {
    Up(h + [job], |h|)
  }

  /** The heap before the last element is cut off: the popped job is its last element. */
  function Rotated(h: seq<Job>): (r: seq<Job>)
    requires h != []
    ensures |r| == |h| && r[|h|-1] == h[0]
  {
    var n := |h| - 1;
    var r := Down(Swap(h, 0, n), 0, n);
    DownKeeps(Swap(h, 0, n), 0, n);
    assert r[n..] == Swap(h, 0, n)[n..];
    assert r[n] == r[n..][0];
    r
  }

  function HeapPop(h: seq<Job>): seq<Job>
    requires h != []
  {
    Rotated(h)[..|h|-1]
  }

  // ---------- what they keep ----------

  ghost predicate Ordered(h: seq<Job>, ties: Ties) {
    && Dated(h, ties)
    && forall k: nat :: 0 < k < |h| ==> Before(h[Parent(k)], h[k], ties)
  }

  /** Ordered but for element `j` against its parent. */
  ghost predicate OrderedBut(h: seq<Job>, j: nat, ties: Ties) {
    && Dated(h, ties)
    && (forall k: nat :: 0 < k < |h| && k != j ==> Before(h[Parent(k)], h[k], ties))
    && (forall k: nat :: 0 < k < |h| && Parent(k) == j < |h| && 0 < j ==> Before(h[Parent(j)], h[k], ties))
  }

  /** The first `n` ordered but for element `i` against its children. */
  ghost predicate OrderedBelow(h: seq<Job>, i: nat, n: nat, ties: Ties) {
    && n <= |h|
    && Dated(h, ties)
    && (forall k: nat :: 0 < k < n && Parent(k) != i ==> Before(h[Parent(k)], h[k], ties))
    && (forall k: nat :: 0 < k < n && Parent(k) == i && 0 < i ==> Before(h[Parent(i)], h[k], ties))
  }

  lemma DatedSame(h: seq<Job>, r: seq<Job>, ties: Ties)
    requires Dated(h, ties) && multiset(r) == multiset(h)
    ensures Dated(r, ties)
  {
    forall job | job in r ensures Fits(job, ties) {
      assert job in multiset(r);
      assert job in h;
    }
  }

  lemma {:induction false} UpOrders(h: seq<Job>, j: nat, ties: Ties)
    requires j < |h| && OrderedBut(h, j, ties)
    ensures Ordered(Up(h, j), ties)
    decreases j
  {
    var i := Parent(j);
    if i != j && Less(h[j], h[i]) {
      UpStep(h, j, ties);
      UpOrders(Swap(h, i, j), i, ties);
    } else {
      LessDecides(h[j], h[i], ties);
    }
  }

  lemma UpStep(h: seq<Job>, j: nat, ties: Ties)
    requires j < |h| && OrderedBut(h, j, ties) && Parent(j) != j && Less(h[j], h[Parent(j)])
    ensures OrderedBut(Swap(h, Parent(j), j), Parent(j), ties)
  {
    SwapKeeps(h, Parent(j), j);
    DatedSame(h, Swap(h, Parent(j), j), ties);
    SwapOrders(h, j, ties);
    SwapSkips(h, j, ties);
  }

  lemma SwapOrders(h: seq<Job>, j: nat, ties: Ties)
    requires j < |h| && OrderedBut(h, j, ties) && Parent(j) != j && Less(h[j], h[Parent(j)])
    ensures var r := Swap(h, Parent(j), j);
            forall k: nat :: 0 < k < |r| && k != Parent(j) ==> Before(r[Parent(k)], r[k], ties)
  {
    LessDecides(h[j], h[Parent(j)], ties);
  }

  lemma SwapSkips(h: seq<Job>, j: nat, ties: Ties)
    requires j < |h| && OrderedBut(h, j, ties) && Parent(j) != j && Less(h[j], h[Parent(j)])
    ensures var r, i := Swap(h, Parent(j), j), Parent(j);
            forall k: nat :: 0 < k < |r| && Parent(k) == i && 0 < i ==> Before(r[Parent(i)], r[k], ties)
  {
    LessDecides(h[j], h[Parent(j)], ties);
  }

  lemma {:induction false} DownOrders(h: seq<Job>, i: nat, n: nat, ties: Ties)
    requires OrderedBelow(h, i, n, ties)
    ensures Ordered(Down(h, i, n)[..n], ties)
    decreases n - i
  {
    if 2 * i + 1 < n && Less(h[Child(h, i, n)], h[i]) {
      DownStep(h, i, n, ties);
      DownOrders(Swap(h, i, Child(h, i, n)), Child(h, i, n), n, ties);
    } else if 2 * i + 1 < n {
      ChildLeads(h, i, n, ties);
      LessDecides(h[Child(h, i, n)], h[i], ties);
    }
  }

  lemma DownStep(h: seq<Job>, i: nat, n: nat, ties: Ties)
    requires OrderedBelow(h, i, n, ties) && 2 * i + 1 < n && Less(h[Child(h, i, n)], h[i])
    ensures OrderedBelow(Swap(h, i, Child(h, i, n)), Child(h, i, n), n, ties)
  {
    var j := Child(h, i, n);
    ChildLeads(h, i, n, ties);
    LessDecides(h[j], h[i], ties);
    SwapKeeps(h, i, j);
    DatedSame(h, Swap(h, i, j), ties);
  }

  lemma ChildLeads(h: seq<Job>, i: nat, n: nat, ties: Ties)
    requires n <= |h| && 2 * i + 1 < n && Dated(h, ties)
    ensures forall k: nat :: 0 < k < n && Parent(k) == i ==> Before(h[Child(h, i, n)], h[k], ties)
  {
    if 2 * i + 2 < n {
      LessDecides(h[2 * i + 2], h[2 * i + 1], ties);
    }
    forall k: nat | 0 < k < n && Parent(k) == i ensures k == 2 * i + 1 || k == 2 * i + 2 {}
  }

  lemma {:induction false} RootLeads(h: seq<Job>, k: nat, ties: Ties)
    requires k < |h| && Ordered(h, ties)
    ensures Before(h[0], h[k], ties)
  {
    if k > 0 {
      RootLeads(h, Parent(k), ties);
    }
  }

  /** Push adds the job and keeps the order, for every choice of classes. */
  lemma PushKeepsOrder(h: seq<Job>, job: Job, ties: Ties)
    requires Ordered(h, ties) && Fits(job, ties)
    ensures Ordered(HeapPush(h, job), ties)
    ensures multiset(HeapPush(h, job)) == multiset(h) + multiset{job}
  {
    UpOrders(h + [job], |h|, ties);
    UpKeeps(h + [job], |h|);
  }

  /** Pop takes out a job of the highest class, an oldest one if that class is dated and one of the
      earliest run if it is undated, and keeps the order of the rest. */
  lemma PopTakesFirst(h: seq<Job>, ties: Ties)
    requires h != [] && Ordered(h, ties)
    ensures forall job :: job in h ==> Before(h[0], job, ties)
    ensures Ordered(HeapPop(h), ties)
    ensures multiset(h) == multiset(HeapPop(h)) + multiset{h[0]}
  {
    forall job | job in h ensures Before(h[0], job, ties) {
      var k :| 0 <= k < |h| && h[k] == job;
      RootLeads(h, k, ties);
    }
    var n := |h| - 1;
    var s := Swap(h, 0, n);
    SwapKeeps(h, 0, n);
    DatedSame(h, s, ties);
    DownOrders(s, 0, n, ties);
    DownKeeps(s, 0, n);
    assert Rotated(h) == HeapPop(h) + [h[0]];
  }

  /** Without the dates the promise on age fails, for all dated jobs and any undated one of their class
      and run.
      Pushed behind a more urgent job, and with that popped, the undated job stands between the two, and the
      next pop takes the younger. */
  lemma UndatedBreaksAge(urgent: Job, undated: Job, older: Job, younger: Job) returns (h: seq<Job>)
    requires ClassOf(undated) == ClassOf(older) == ClassOf(younger) && Above(ClassOf(urgent), ClassOf(older))
    requires undated.created == 0 && older.created != 0 && younger.created != 0 && older.created < younger.created
    requires undated.runId == younger.runId <= older.runId
    ensures h == HeapPop(HeapPush(HeapPush(HeapPush(HeapPush([], urgent), undated), older), younger))
    ensures h != [] && h[0] == younger && older in h
  {
    FourStay(urgent, undated, older, younger);
    h := [younger, undated, older];
    assert h[2] == older;
  }

  lemma FourStay(a: Job, b: Job, c: Job, d: Job)
    requires !Less(b, a) && !Less(c, a) && !Less(d, b) && !Less(c, b) && !Less(b, d)
    ensures HeapPop(HeapPush(HeapPush(HeapPush(HeapPush([], a), b), c), d)) == [d, b, c]
  {
    ThreeStay(a, b, c);
    PushStays([a, b, c], d);
    PopStays([a, b, c] + [d]);
    assert [d] + ([a, b, c] + [d])[1..3] == [d, b, c];
  }

  lemma ThreeStay(a: Job, b: Job, c: Job)
    requires !Less(b, a) && !Less(c, a)
    ensures HeapPush(HeapPush(HeapPush([], a), b), c) == [a, b, c]
  {
    PushStays([], a);
    PushStays([] + [a], b);
    PushStays([] + [a] + [b], c);
    assert [] + [a] + [b] + [c] == [a, b, c];
  }

  /** A push that does not rise. */
  lemma PushStays(h: seq<Job>, job: Job)
    requires h != [] ==> !Less(job, h[Parent(|h|)])
    ensures HeapPush(h, job) == h + [job]
  {
  }

  /** A pop of four whose last element does not sink. */
  lemma PopStays(h: seq<Job>)
    requires |h| == 4 && !Less(h[2], h[1]) && !Less(h[1], h[3])
    ensures HeapPop(h) == [h[3]] + h[1..3]
  {
    var s := Swap(h, 0, 3);
    assert Child(s, 0, 3) == 1;
    assert Down(s, 0, 3) == s;
  }

  // ---------- the same in place ----------

  /** The slice behind the queue, and `container/heap`'s loops over it. */
  class JobSlice {
    var h: seq<Job>

    constructor ()
      ensures h == []
    {
      h := [];
    }

    method SiftUp(start: nat)
      requires start < |h|
      modifies this
      ensures h == Up(old(h), start)
    {
      var j: nat := start;
      while true
        invariant j < |h|
        invariant Up(h, j) == Up(old(h), start)
        decreases j
      {
        var i := Parent(j);
        if i == j || !Less(h[j], h[i]) {
          return;
        }
        h := Swap(h, i, j);
        j := i;
      }
    }

    method SiftDown(start: nat, n: nat)
      requires n <= |h|
      modifies this
      ensures h == Down(old(h), start, n)
    {
      var i: nat := start;
      ghost var sunk := Down(h, start, n);
      while 2 * i + 1 < n
        invariant n <= |h|
        invariant Down(h, i, n) == sunk
        decreases n - i
      {
        DownUnfolds(h, i, n);
        var j := 2 * i + 1;
        if j + 1 < n && Less(h[j + 1], h[j]) {
          j := j + 1;
        }
        if !Less(h[j], h[i]) {
          return;
        }
        h := Swap(h, i, j);
        i := j;
      }
      assert Down(h, i, n) == h;
    }

    method Push(job: Job)
      modifies this
      ensures h == HeapPush(old(h), job)
    {
      h := h + [job];
      SiftUp(|h| - 1);
    }

    method Pop() returns (job: Job)
      requires h != []
      modifies this
      ensures job == old(h)[0] && h == HeapPop(old(h))
    {
      var n := |h| - 1;
      h := Swap(h, 0, n);
      SiftDown(0, n);
      assert h == Rotated(old(h));
      job := h[n];
      h := h[..n];
    }
  }
}
