/** The thread pool under the nested directory scan: read_directory spawns a job for every
    subdirectory through enqueue_or_run and then waits for all of them, so pool jobs block on
    other pool jobs.  Every lock-protected section is one step. */
module Pool {
  import opened Sums

  /** The directories of a finite tree, numbered so that a directory comes before its
      subdirectories: subs[d] lists the subdirectories of d in the order readdir returns them. */
  datatype Tree = Tree(subs: seq<seq<nat>>, parent: seq<nat>, slot: seq<nat>)

  predicate TreeOk(t: Tree) {
    && |t.subs| == |t.parent| == |t.slot| > 0
    && (forall d, k :: 0 <= d < |t.subs| && 0 <= k < |t.subs[d]| ==>
          d < t.subs[d][k] < |t.subs| && t.parent[t.subs[d][k]] == d && t.slot[t.subs[d][k]] == k)
    && (forall c :: 0 < c < |t.subs| ==>
          t.parent[c] < c && t.slot[c] < |t.subs[t.parent[c]]| && t.subs[t.parent[c]][t.slot[c]] == c)
  }

  /** Where one activation of read_directory is. */
  datatype Phase =
    | Reading(k: nat)   // about to handle subdirectory k, or waiting when there is none left
    | Added(k: nat)     // the wait group counts k
    | Holding(k: nat)   // the semaphore granted a token for k
    | Calling(k: nat)   // no token: k is being read on this very thread
    | Returned          // the wait returned

  datatype Job =
    | Unseen
    | Pending                               // counted, not yet started
    | Queued
    | Active(phase: Phase, pooled: bool)
    | Releasing                             // done, the semaphore not yet notified
    | Over

  datatype Worker = Idle | Busy(job: nat) | Leaving

  datatype State = State(sem: int, queue: seq<nat>, workers: seq<Worker>, jobs: seq<Job>, wg: seq<int>, scans: seq<nat>)

  datatype Action =
    | Add(d: nat) | TryWait(d: nat) | Enqueue(d: nat)
    | Dequeue(w: nat) | WaitReturns(d: nat) | Done(d: nat) | Notify(w: nat) | Loop(w: nat)

  function Init(t: Tree, n: nat): State
    requires |t.subs| > 0
  {
    State(n, [], seq(n, _ => Idle),
          seq(|t.subs|, d => if d == 0 then Active(Reading(0), false) else Unseen),
          seq(|t.subs|, _ => 0), seq(|t.subs|, d => if d == 0 then 1 else 0))
  }

  predicate Shaped(t: Tree, n: nat, s: State) {
    && |s.jobs| == |s.wg| == |s.scans| == |t.subs| && |s.workers| == n
    && (forall i :: 0 <= i < |s.queue| ==> s.queue[i] < |s.jobs|)
  }

  predicate Enabled(t: Tree, n: nat, s: State, a: Action)
    requires Shaped(t, n, s)
  {
    match a
    case Add(d) => d < |s.jobs| && s.jobs[d].Active? && s.jobs[d].phase.Reading? && s.jobs[d].phase.k < |t.subs[d]|
    case TryWait(d) => d < |s.jobs| && s.jobs[d].Active? && s.jobs[d].phase.Added?
    case Enqueue(d) => d < |s.jobs| && s.jobs[d].Active? && s.jobs[d].phase.Holding?
    case Dequeue(w) => w < n && s.workers[w].Idle? && s.queue != []
    case WaitReturns(d) =>
      d < |s.jobs| && s.jobs[d].Active? && s.jobs[d].phase.Reading? && s.jobs[d].phase.k >= |t.subs[d]| && s.wg[d] <= 0
    case Done(d) => 0 < d < |s.jobs| && s.jobs[d].Active? && s.jobs[d].phase.Returned?
    case Notify(w) => w < n && s.workers[w].Busy? && s.workers[w].job < |s.jobs| && s.jobs[s.workers[w].job].Releasing?
    case Loop(w) => w < n && s.workers[w].Leaving?
  }

  /** The child that directory d is handling. */
  function Current(t: Tree, s: State, d: nat): nat
    requires TreeOk(t) && Shaped(t, |s.workers|, s) && d < |s.jobs| && s.jobs[d].Active? && !s.jobs[d].phase.Returned?
    ensures Current(t, s, d) < |s.jobs|
  {
    if s.jobs[d].phase.k < |t.subs[d]| then t.subs[d][s.jobs[d].phase.k] else 0
  }

  /** The inline call of read_directory is over: its caller goes on with the next entry. */
  function Resume(j: Job, k: nat): Job {
    match j
    case Active(_, pooled) => Active(Reading(k), pooled)
    case _ => j
  }

  function Next(t: Tree, n: nat, s: State, a: Action): (s': State)
    requires TreeOk(t) && Shaped(t, n, s) && Enabled(t, n, s, a)
    ensures Shaped(t, n, s')
  {
    match a
    case Add(d) =>
      var c := Current(t, s, d);
      s.(jobs := s.jobs[d := Active(Added(s.jobs[d].phase.k), s.jobs[d].pooled)][c := Pending],
         wg := s.wg[d := s.wg[d] + 1])
    case TryWait(d) =>
      var c := Current(t, s, d);
      if s.sem > 0 then
        s.(sem := s.sem - 1, jobs := s.jobs[d := Active(Holding(s.jobs[d].phase.k), s.jobs[d].pooled)])
      else
        s.(jobs := s.jobs[d := Active(Calling(s.jobs[d].phase.k), s.jobs[d].pooled)][c := Active(Reading(0), false)],
           scans := s.scans[c := s.scans[c] + 1])
    case Enqueue(d) =>
      var c := Current(t, s, d);
      s.(queue := s.queue + [c],
         jobs := s.jobs[d := Active(Reading(s.jobs[d].phase.k + 1), s.jobs[d].pooled)][c := Queued])
    case Dequeue(w) =>
      var c := s.queue[0];
      s.(queue := s.queue[1..], workers := s.workers[w := Busy(c)],
         jobs := s.jobs[c := Active(Reading(0), true)], scans := s.scans[c := s.scans[c] + 1])
    case WaitReturns(d) =>
      s.(jobs := s.jobs[d := Active(Returned, s.jobs[d].pooled)])
    case Done(d) =>
      var p := t.parent[d];
      var s' := s.(wg := s.wg[p := s.wg[p] - 1]);
      if s.jobs[d].pooled then
        s'.(jobs := s.jobs[d := Releasing])
      else
        s'.(jobs := s.jobs[p := Resume(s.jobs[p], t.slot[d] + 1)][d := Over])
    case Notify(w) =>
      s.(sem := s.sem + 1, jobs := s.jobs[s.workers[w].job := Over], workers := s.workers[w := Leaving])
    case Loop(w) =>
      s.(workers := s.workers[w := Idle])
  }

  // ---------------------------------------------------------------- the invariant

  predicate Finished(j: Job) { j.Releasing? || j.Over? }

  /** Counted by the wait group of its parent. */
  predicate Counted(j: Job) { j.Pending? || j.Queued? || j.Active? }

  /** What the state of a directory says about its subdirectory k. */
  predicate ChildOk(p: Job, k: nat, c: Job) {
    match p
    case Unseen => c.Unseen?
    case Pending => c.Unseen?
    case Queued => c.Unseen?
    case Releasing => Finished(c)
    case Over => Finished(c)
    case Active(phase, _) =>
      match phase
      case Reading(i) => if k < i then Launched(c) else c.Unseen?
      case Added(i) => if k < i then Launched(c) else if k == i then c.Pending? else c.Unseen?
      case Holding(i) => if k < i then Launched(c) else if k == i then c.Pending? else c.Unseen?
      case Calling(i) => if k < i then Launched(c) else if k == i then c.Active? && !c.pooled else c.Unseen?
      case Returned => Finished(c)
  }

  /** Handed to the pool at some time, or read inline and over. */
  predicate Launched(c: Job) { c.Queued? || Finished(c) || (c.Active? && c.pooled) }

  function Bit(b: bool): nat { if b then 1 else 0 }

  function KidBits(t: Tree, jobs: seq<Job>, d: nat): seq<nat>
    requires TreeShape(t, jobs) && d < |t.subs|
  {
    seq(|t.subs[d]|, k requires 0 <= k < |t.subs[d]| => Bit(Counted(jobs[t.subs[d][k]])))
  }

  predicate TreeShape(t: Tree, jobs: seq<Job>) {
    |jobs| == |t.subs| && forall d, k :: 0 <= d < |t.subs| && 0 <= k < |t.subs[d]| ==> t.subs[d][k] < |jobs|
  }

  function HeldBits(jobs: seq<Job>): seq<nat> {
    seq(|jobs|, d requires 0 <= d < |jobs| => Bit(jobs[d].Active? && jobs[d].phase.Holding?))
  }

  function BusyBits(workers: seq<Worker>): seq<nat> {
    seq(|workers|, w requires 0 <= w < |workers| => Bit(workers[w].Busy?))
  }

  ghost predicate Inv(t: Tree, n: nat, s: State)
    requires TreeOk(t) && Shaped(t, n, s)
  {
    ShapeInv(t, n, s) && CountInv(t, n, s)
  }

  /** Who is where. */
  ghost predicate ShapeInv(t: Tree, n: nat, s: State)
    requires TreeOk(t) && Shaped(t, n, s)
  {
    && s.jobs[0].Active? && !s.jobs[0].pooled
    && ChildrenOk(t, s.jobs) && PhasesOk(t, s.jobs)
    && QueueOk(s.queue, s.jobs) && WorkersOk(s.workers, s.jobs) && ScansOk(s.scans, s.jobs)
  }

  /** What the semaphore and the wait groups count. */
  ghost predicate CountInv(t: Tree, n: nat, s: State)
    requires TreeOk(t) && Shaped(t, n, s)
  {
    TokensOk(n, s) && GroupsOk(t, s.jobs, s.wg)
  }

  /** Every token is in the semaphore, with a job being enqueued, in the queue or on a worker. */
  predicate TokensOk(n: nat, s: State) {
    s.sem >= 0 && s.sem + Sum(HeldBits(s.jobs)) + |s.queue| + Sum(BusyBits(s.workers)) == n
  }

  predicate ChildrenOk(t: Tree, jobs: seq<Job>)
    requires TreeShape(t, jobs)
  {
    forall d, k :: 0 <= d < |t.subs| && 0 <= k < |t.subs[d]| ==> ChildOk(jobs[d], k, jobs[t.subs[d][k]])
  }

  predicate PhasesOk(t: Tree, jobs: seq<Job>)
    requires |jobs| == |t.subs|
  {
    forall d :: 0 <= d < |t.subs| ==> PhaseOk(jobs[d], |t.subs[d]|)
  }

  /** Every wait group counts the unfinished jobs it is waiting for. */
  predicate GroupsOk(t: Tree, jobs: seq<Job>, wg: seq<int>)
    requires TreeShape(t, jobs) && |wg| == |jobs|
  {
    forall d :: 0 <= d < |t.subs| ==> wg[d] == Sum(KidBits(t, jobs, d))
  }

  predicate ScansOk(scans: seq<nat>, jobs: seq<Job>)
    requires |scans| == |jobs|
  {
    forall d :: 0 <= d < |jobs| ==> scans[d] == Bit(jobs[d].Active? || Finished(jobs[d]))
  }

  predicate PhaseOk(j: Job, n: nat) {
    j.Active? && !j.phase.Returned? ==> if j.phase.Reading? then j.phase.k <= n else j.phase.k < n
  }

  ghost predicate QueueOk(queue: seq<nat>, jobs: seq<Job>) {
    && (forall i :: 0 <= i < |queue| ==> queue[i] < |jobs| && jobs[queue[i]].Queued?)
    && (forall i, j :: 0 <= i < j < |queue| ==> queue[i] != queue[j])
    && (forall c :: 0 <= c < |jobs| && jobs[c].Queued? ==> c in queue)
  }

  predicate OnWorker(j: Job) { j.Releasing? || (j.Active? && j.pooled) }

  ghost predicate WorkersOk(workers: seq<Worker>, jobs: seq<Job>) {
    && (forall w :: 0 <= w < |workers| && workers[w].Busy? ==>
         workers[w].job < |jobs| && OnWorker(jobs[workers[w].job]))
    && (forall v, w :: 0 <= v < w < |workers| && workers[v].Busy? && workers[w].Busy? ==>
         workers[v].job != workers[w].job)
    && (forall c :: 0 <= c < |jobs| && OnWorker(jobs[c]) ==> exists w :: 0 <= w < |workers| && workers[w] == Busy(c))
  }

  // ---------------------------------------------------------------- every step keeps it

  lemma InitInv(t: Tree, n: nat)
    requires TreeOk(t)
    ensures Shaped(t, n, Init(t, n)) && Inv(t, n, Init(t, n))
  {
    var s := Init(t, n);
    SumZero(HeldBits(s.jobs));
    SumZero(BusyBits(s.workers));
    forall d | 0 <= d < |t.subs|
      ensures Sum(KidBits(t, s.jobs, d)) == 0
    {
      SumZero(KidBits(t, s.jobs, d));
    }
  }

  function KidDelta(t: Tree, jobs: seq<Job>, c: nat, j: Job, d: nat): int
    requires TreeOk(t) && |jobs| == |t.subs| && c < |jobs|
  {
    if c > 0 && d == t.parent[c] then Bit(Counted(j)) - Bit(Counted(jobs[c])) else 0
  }

  lemma HeldChange(jobs: seq<Job>, c: nat, j: Job)
    requires c < |jobs|
    ensures Sum(HeldBits(jobs[c := j]))
         == Sum(HeldBits(jobs)) - Bit(jobs[c].Active? && jobs[c].phase.Holding?) + Bit(j.Active? && j.phase.Holding?)
  {
    hide Sum;
    var held := Bit(j.Active? && j.phase.Holding?);
    assert HeldBits(jobs[c := j]) == HeldBits(jobs)[c := held];
    SumUpdate(HeldBits(jobs), c, held);
  }

  /** What the change of one job does to the counts. */
  lemma JobChange(t: Tree, jobs: seq<Job>, c: nat, j: Job)
    requires TreeOk(t) && |jobs| == |t.subs| && c < |jobs|
    ensures Sum(HeldBits(jobs[c := j]))
         == Sum(HeldBits(jobs)) - Bit(jobs[c].Active? && jobs[c].phase.Holding?) + Bit(j.Active? && j.phase.Holding?)
    ensures forall d :: 0 <= d < |t.subs| ==>
              Sum(KidBits(t, jobs[c := j], d)) == Sum(KidBits(t, jobs, d)) + KidDelta(t, jobs, c, j, d)
  {
    HeldChange(jobs, c, j);
    hide HeldBits, Sum, Counted;
    var jobs' := jobs[c := j];
    forall d | 0 <= d < |t.subs|
      ensures Sum(KidBits(t, jobs', d)) == Sum(KidBits(t, jobs, d)) + KidDelta(t, jobs, c, j, d)
    {
      if c > 0 && d == t.parent[c] {
        assert KidBits(t, jobs', d) == KidBits(t, jobs, d)[t.slot[c] := Bit(Counted(j))];
        SumUpdate(KidBits(t, jobs, d), t.slot[c], Bit(Counted(j)));
      } else {
        assert KidBits(t, jobs', d) == KidBits(t, jobs, d);
      }
    }
  }

  /** A directory that stays active, and the subdirectory it is handling. */
  lemma PairChange(t: Tree, jobs: seq<Job>, d: nat, k: nat, j: Job, i: Job)
    requires TreeOk(t) && |jobs| == |t.subs| && d < |jobs| && k < |t.subs[d]|
    requires !i.Active? || i == Active(Reading(0), false)
    requires jobs[d].Active? && j.Active? && (jobs[t.subs[d][k]].Active? ==> !jobs[t.subs[d][k]].phase.Holding?)
    ensures Sum(HeldBits(jobs[d := j][t.subs[d][k] := i])) ==
              Sum(HeldBits(jobs)) - Bit(jobs[d].phase.Holding?) + Bit(j.phase.Holding?)
    ensures forall e :: 0 <= e < |t.subs| ==>
              Sum(KidBits(t, jobs[d := j][t.subs[d][k] := i], e)) ==
                  Sum(KidBits(t, jobs, e)) + KidDelta(t, jobs, t.subs[d][k], i, e)
  {
    JobChange(t, jobs, d, j);
    JobChange(t, jobs[d := j], t.subs[d][k], i);
  }

  lemma WorkerChange(workers: seq<Worker>, w: nat, x: Worker)
    requires w < |workers|
    ensures Sum(BusyBits(workers[w := x])) == Sum(BusyBits(workers)) - Bit(workers[w].Busy?) + Bit(x.Busy?)
  {
    assert BusyBits(workers[w := x]) == BusyBits(workers)[w := Bit(x.Busy?)];
    SumUpdate(BusyBits(workers), w, Bit(x.Busy?));
  }

  /** jobs' is jobs with the jobs x and y changed. */
  predicate Changed(jobs: seq<Job>, jobs': seq<Job>, x: nat, y: nat) {
    && |jobs'| == |jobs| && x < |jobs| && y < |jobs|
    && forall i :: 0 <= i < |jobs| && i != x && i != y ==> jobs'[i] == jobs[i]
  }

  /** x is in order with its subdirectories and with its parent. */
  predicate LocalOk(t: Tree, jobs: seq<Job>, x: nat)
    requires TreeOk(t) && TreeShape(t, jobs) && x < |jobs|
  {
    && (forall k :: 0 <= k < |t.subs[x]| ==> ChildOk(jobs[x], k, jobs[t.subs[x][k]]))
    && (x > 0 ==> ChildOk(jobs[t.parent[x]], t.slot[x], jobs[x]))
    && PhaseOk(jobs[x], |t.subs[x]|)
  }

  lemma ChildrenKept(t: Tree, jobs: seq<Job>, jobs': seq<Job>, x: nat, y: nat)
    requires TreeOk(t) && |jobs| == |t.subs| && Changed(jobs, jobs', x, y)
    requires ChildrenOk(t, jobs) && PhasesOk(t, jobs)
    requires LocalOk(t, jobs', x) && LocalOk(t, jobs', y)
    ensures ChildrenOk(t, jobs') && PhasesOk(t, jobs')
  {
    forall d, k | 0 <= d < |t.subs| && 0 <= k < |t.subs[d]|
      ensures ChildOk(jobs'[d], k, jobs'[t.subs[d][k]])
    {
      assert ChildOk(jobs[d], k, jobs[t.subs[d][k]]);
    }
  }

  /** A job nobody queues or takes from the queue, or hands to a worker or takes from it. */
  lemma HandlingKept(queue: seq<nat>, workers: seq<Worker>, jobs: seq<Job>, jobs': seq<Job>, x: nat, y: nat)
    requires Changed(jobs, jobs', x, y) && QueueOk(queue, jobs) && WorkersOk(workers, jobs)
    requires jobs'[x].Queued? == jobs[x].Queued? && jobs'[y].Queued? == jobs[y].Queued?
    requires OnWorker(jobs'[x]) == OnWorker(jobs[x]) && OnWorker(jobs'[y]) == OnWorker(jobs[y])
    ensures QueueOk(queue, jobs') && WorkersOk(workers, jobs')
  {
    forall c | 0 <= c < |jobs'|
      ensures jobs'[c].Queued? == jobs[c].Queued? && OnWorker(jobs'[c]) == OnWorker(jobs[c])
    {}
  }

  lemma LocalAt(t: Tree, jobs: seq<Job>, x: nat)
    requires TreeOk(t) && |jobs| == |t.subs| && x < |jobs| && ChildrenOk(t, jobs) && PhasesOk(t, jobs)
    ensures LocalOk(t, jobs, x)
  {
    if x > 0 { assert ChildOk(jobs[t.parent[x]], t.slot[x], jobs[t.subs[t.parent[x]][t.slot[x]]]); }
  }

  /** One job changes in a way that leaves it in order. */
  lemma OneChanges(t: Tree, jobs: seq<Job>, d: nat, j: Job)
    requires TreeOk(t) && |jobs| == |t.subs| && ChildrenOk(t, jobs) && PhasesOk(t, jobs) && d < |jobs|
    requires forall k :: 0 <= k < |t.subs[d]| && ChildOk(jobs[d], k, jobs[t.subs[d][k]]) ==>
               ChildOk(j, k, jobs[t.subs[d][k]])
    requires forall p, k :: ChildOk(p, k, jobs[d]) && d > 0 && p == jobs[t.parent[d]] && k == t.slot[d] ==>
               ChildOk(p, k, j)
    requires PhaseOk(j, |t.subs[d]|)
    ensures ChildrenOk(t, jobs[d := j]) && PhasesOk(t, jobs[d := j])
  {
    LocalAt(t, jobs, d);
    var jobs' := jobs[d := j];
    assert LocalOk(t, jobs', d);
    ChildrenKept(t, jobs, jobs', d, d);
  }

  predicate PairMoves(t: Tree, jobs: seq<Job>, d: nat, k: nat, j: Job, i: Job)
    requires TreeOk(t) && |jobs| == |t.subs| && d < |jobs| && k < |t.subs[d]|
  {
    && jobs[d].Active? && j.Active? && j.pooled == jobs[d].pooled && PhaseOk(j, |t.subs[d]|)
    && jobs[d].phase in {Reading(k), Added(k), Holding(k), Calling(k)}
    && j.phase in {Added(k), Holding(k), Calling(k), Reading(k + 1)} && ChildOk(j, k, i)
    && if i.Over? then jobs[t.subs[d][k]] == Active(Returned, false)
       else && (i.Pending? || i.Queued? || i == Active(Reading(0), false))
            && (jobs[t.subs[d][k]].Unseen? || jobs[t.subs[d][k]].Pending?)
  }

  lemma MovesOn(t: Tree, jobs: seq<Job>, d: nat, k: nat, j: Job, i: Job)
    requires TreeOk(t) && |jobs| == |t.subs| && d < |jobs| && k < |t.subs[d]| && LocalOk(t, jobs, d)
    requires PairMoves(t, jobs, d, k, j, i)
    ensures LocalOk(t, jobs[d := j][t.subs[d][k] := i], d)
  {}

  lemma ComesAlong(t: Tree, jobs: seq<Job>, d: nat, k: nat, j: Job, i: Job)
    requires TreeOk(t) && |jobs| == |t.subs| && d < |jobs| && k < |t.subs[d]| && LocalOk(t, jobs, t.subs[d][k])
    requires PairMoves(t, jobs, d, k, j, i)
    ensures LocalOk(t, jobs[d := j][t.subs[d][k] := i], t.subs[d][k])
  {}

  /** A directory moves on together with the subdirectory k it is handling. */
  lemma BothChange(t: Tree, jobs: seq<Job>, d: nat, k: nat, j: Job, i: Job)
    requires TreeOk(t) && |jobs| == |t.subs| && ChildrenOk(t, jobs) && PhasesOk(t, jobs) && d < |jobs|
    requires k < |t.subs[d]| && PairMoves(t, jobs, d, k, j, i)
    ensures ChildrenOk(t, jobs[d := j][t.subs[d][k] := i]) && PhasesOk(t, jobs[d := j][t.subs[d][k] := i])
  {
    hide ChildrenOk, PhasesOk, PairMoves, LocalOk;
    var c := t.subs[d][k];
    var jobs' := jobs[d := j][c := i];
    LocalAt(t, jobs, d);
    LocalAt(t, jobs, c);
    assert LocalOk(t, jobs', d) by { MovesOn(t, jobs, d, k, j, i); }
    assert LocalOk(t, jobs', c) by { ComesAlong(t, jobs, d, k, j, i); }
    ChildrenKept(t, jobs, jobs', d, c);
  }

  /** The subdirectory that an active directory is handling. */
  lemma HandledAt(t: Tree, n: nat, s: State, d: nat)
    requires TreeOk(t) && Shaped(t, n, s) && ShapeInv(t, n, s) && d < |s.jobs| && s.jobs[d].Active?
    requires !s.jobs[d].phase.Returned? && (s.jobs[d].phase.Reading? ==> s.jobs[d].phase.k < |t.subs[d]|)
    ensures var k := s.jobs[d].phase.k;
            k < |t.subs[d]| && PhaseOk(s.jobs[d], |t.subs[d]|) && ChildOk(s.jobs[d], k, s.jobs[t.subs[d][k]])
  {
    hide ChildOk, QueueOk, WorkersOk, ScansOk;
    assert PhaseOk(s.jobs[d], |t.subs[d]|);
  }

  lemma ParentAt(t: Tree, n: nat, s: State, d: nat)
    requires TreeOk(t) && Shaped(t, n, s) && ShapeInv(t, n, s) && 0 < d < |s.jobs|
    ensures var p, k := t.parent[d], t.slot[d];
            k < |t.subs[p]| && t.subs[p][k] == d && p < d && ChildOk(s.jobs[p], k, s.jobs[d])
  {
    hide ChildOk, QueueOk, WorkersOk, ScansOk, PhasesOk;
    assert ChildOk(s.jobs[t.parent[d]], t.slot[d], s.jobs[t.subs[t.parent[d]][t.slot[d]]]);
  }

  lemma ScansStay(scans: seq<nat>, jobs: seq<Job>, d: nat, j: Job)
    requires |scans| == |jobs| && d < |jobs| && ScansOk(scans, jobs)
    requires (j.Active? || Finished(j)) == (jobs[d].Active? || Finished(jobs[d]))
    ensures ScansOk(scans, jobs[d := j])
  {}

  lemma AddShape(t: Tree, n: nat, s: State, d: nat)
    requires TreeOk(t) && Shaped(t, n, s) && ShapeInv(t, n, s) && Enabled(t, n, s, Add(d))
    ensures ShapeInv(t, n, Next(t, n, s, Add(d)))
  {
    var k := s.jobs[d].phase.k;
    var j, c := Active(Added(k), s.jobs[d].pooled), t.subs[d][k];
    assert ChildOk(s.jobs[d], k, s.jobs[c]);
    BothChange(t, s.jobs, d, k, j, Pending);
    HandlingKept(s.queue, s.workers, s.jobs, s.jobs[d := j][c := Pending], d, c);
  }

  lemma AddCount(t: Tree, n: nat, s: State, d: nat)
    requires TreeOk(t) && Shaped(t, n, s) && Inv(t, n, s) && Enabled(t, n, s, Add(d))
    ensures CountInv(t, n, Next(t, n, s, Add(d)))
  {
    var k := s.jobs[d].phase.k;
    var j, c := Active(Added(k), s.jobs[d].pooled), t.subs[d][k];
    assert ChildOk(s.jobs[d], k, s.jobs[c]);
    PairChange(t, s.jobs, d, k, j, Pending);
    assert Next(t, n, s, Add(d)).jobs == s.jobs[d := j][c := Pending];
  }

  lemma GrantedShape(t: Tree, n: nat, s: State, d: nat)
    requires TreeOk(t) && Shaped(t, n, s) && ShapeInv(t, n, s) && Enabled(t, n, s, TryWait(d))
    requires s.sem > 0
    ensures ShapeInv(t, n, Next(t, n, s, TryWait(d)))
  {
    hide ChildrenOk, PhasesOk, QueueOk, WorkersOk, ScansOk;
    HandledAt(t, n, s, d);
    var j := Active(Holding(s.jobs[d].phase.k), s.jobs[d].pooled);
    OneChanges(t, s.jobs, d, j);
    HandlingKept(s.queue, s.workers, s.jobs, s.jobs[d := j], d, d);
    ScansStay(s.scans, s.jobs, d, j);
  }

  lemma InlineShape(t: Tree, n: nat, s: State, d: nat)
    requires TreeOk(t) && Shaped(t, n, s) && ShapeInv(t, n, s) && Enabled(t, n, s, TryWait(d))
    requires s.sem <= 0
    ensures ShapeInv(t, n, Next(t, n, s, TryWait(d)))
  {
    var k := s.jobs[d].phase.k;
    var c := t.subs[d][k];
    assert PhaseOk(s.jobs[d], |t.subs[d]|);
    assert ChildOk(s.jobs[d], k, s.jobs[c]);
    var j, i := Active(Calling(k), s.jobs[d].pooled), Active(Reading(0), false);
    BothChange(t, s.jobs, d, k, j, i);
    HandlingKept(s.queue, s.workers, s.jobs, s.jobs[d := j][c := i], d, c);
  }

  lemma GrantedCount(t: Tree, n: nat, s: State, d: nat)
    requires TreeOk(t) && Shaped(t, n, s) && Inv(t, n, s) && Enabled(t, n, s, TryWait(d))
    requires s.sem > 0
    ensures CountInv(t, n, Next(t, n, s, TryWait(d)))
  {
    var k := s.jobs[d].phase.k;
    var c := t.subs[d][k];
    assert PhaseOk(s.jobs[d], |t.subs[d]|);
    assert ChildOk(s.jobs[d], k, s.jobs[c]);
    var j := Active(Holding(k), s.jobs[d].pooled);
    JobChange(t, s.jobs, d, j);
  }

  lemma InlineCount(t: Tree, n: nat, s: State, d: nat)
    requires TreeOk(t) && Shaped(t, n, s) && Inv(t, n, s) && Enabled(t, n, s, TryWait(d))
    requires s.sem <= 0
    ensures CountInv(t, n, Next(t, n, s, TryWait(d)))
  {
    var k := s.jobs[d].phase.k;
    var c := t.subs[d][k];
    assert PhaseOk(s.jobs[d], |t.subs[d]|);
    assert ChildOk(s.jobs[d], k, s.jobs[c]);
    var j, i := Active(Calling(k), s.jobs[d].pooled), Active(Reading(0), false);
    PairChange(t, s.jobs, d, k, j, i);
    assert Next(t, n, s, TryWait(d)).jobs == s.jobs[d := j][c := i];
  }

  lemma EnqueueShape(t: Tree, n: nat, s: State, d: nat)
    requires TreeOk(t) && Shaped(t, n, s) && ShapeInv(t, n, s) && Enabled(t, n, s, Enqueue(d))
    ensures ShapeInv(t, n, Next(t, n, s, Enqueue(d)))
  {
    hide ChildrenOk, PhasesOk, QueueOk, WorkersOk, ScansOk;
    HandledAt(t, n, s, d);
    var k := s.jobs[d].phase.k;
    var j, c := Active(Reading(k + 1), s.jobs[d].pooled), t.subs[d][k];
    BothChange(t, s.jobs, d, k, j, Queued);
    PushKeeps(s.queue, s.workers, s.jobs, s.jobs[d := j][c := Queued], d, c);
    ScansStay(s.scans, s.jobs, d, j);
    ScansStay(s.scans, s.jobs[d := j], c, Queued);
  }

  lemma EnqueueCount(t: Tree, n: nat, s: State, d: nat)
    requires TreeOk(t) && Shaped(t, n, s) && Inv(t, n, s) && Enabled(t, n, s, Enqueue(d))
    ensures CountInv(t, n, Next(t, n, s, Enqueue(d)))
  {
    var k := s.jobs[d].phase.k;
    var j, c := Active(Reading(k + 1), s.jobs[d].pooled), t.subs[d][k];
    assert PhaseOk(s.jobs[d], |t.subs[d]|);
    assert ChildOk(s.jobs[d], k, s.jobs[c]);
    PairChange(t, s.jobs, d, k, j, Queued);
    assert Next(t, n, s, Enqueue(d)).jobs == s.jobs[d := j][c := Queued];
  }

  lemma PushKeeps(queue: seq<nat>, workers: seq<Worker>, jobs: seq<Job>, jobs': seq<Job>, d: nat, c: nat)
    requires Changed(jobs, jobs', d, c) && QueueOk(queue, jobs) && WorkersOk(workers, jobs) && c != d
    requires !jobs[c].Queued? && jobs'[c].Queued? && !OnWorker(jobs[c])
    requires jobs'[d].Queued? == jobs[d].Queued? && OnWorker(jobs'[d]) == OnWorker(jobs[d])
    ensures QueueOk(queue + [c], jobs') && WorkersOk(workers, jobs')
  {
    forall i | 0 <= i < |jobs'|
      ensures jobs'[i].Queued? == (jobs[i].Queued? || i == c) && OnWorker(jobs'[i]) == OnWorker(jobs[i])
    {}
  }

  lemma DequeueShape(t: Tree, n: nat, s: State, w: nat)
    requires TreeOk(t) && Shaped(t, n, s) && ShapeInv(t, n, s) && Enabled(t, n, s, Dequeue(w))
    ensures ShapeInv(t, n, Next(t, n, s, Dequeue(w)))
  {
    var c := s.queue[0];
    var j := Active(Reading(0), true);
    OneChanges(t, s.jobs, c, j);
    PopKeeps(s.queue, s.workers, s.jobs, w, j);
  }

  lemma DequeueCount(t: Tree, n: nat, s: State, w: nat)
    requires TreeOk(t) && Shaped(t, n, s) && Inv(t, n, s) && Enabled(t, n, s, Dequeue(w))
    ensures CountInv(t, n, Next(t, n, s, Dequeue(w)))
  {
    var c := s.queue[0];
    var j := Active(Reading(0), true);
    JobChange(t, s.jobs, c, j);
    WorkerChange(s.workers, w, Busy(c));
  }

  lemma PopKeeps(queue: seq<nat>, workers: seq<Worker>, jobs: seq<Job>, w: nat, j: Job)
    requires QueueOk(queue, jobs) && WorkersOk(workers, jobs) && queue != []
    requires w < |workers| && !workers[w].Busy? && OnWorker(j)
    ensures QueueOk(queue[1..], jobs[queue[0] := j]) && WorkersOk(workers[w := Busy(queue[0])], jobs[queue[0] := j])
  {
    var c, workers', jobs' := queue[0], workers[w := Busy(queue[0])], jobs[queue[0] := j];
    forall i | 0 <= i < |jobs'| && OnWorker(jobs'[i])
      ensures exists v :: 0 <= v < |workers'| && workers'[v] == Busy(i)
    {
      if i == c { assert workers'[w] == Busy(c); }
      else { var v :| 0 <= v < |workers| && workers[v] == Busy(i); assert workers'[v] == Busy(i); }
    }
  }

  lemma WaitReturnsShape(t: Tree, n: nat, s: State, d: nat)
    requires TreeOk(t) && Shaped(t, n, s) && Inv(t, n, s) && Enabled(t, n, s, WaitReturns(d))
    ensures ShapeInv(t, n, Next(t, n, s, WaitReturns(d)))
  {
    var j := Active(Returned, s.jobs[d].pooled);
    WaitMeansFinished(t, s.jobs, s.wg, d);
    hide GroupsOk, KidBits, HeldBits, Sum, TokensOk;
    OneChanges(t, s.jobs, d, j);
    HandlingKept(s.queue, s.workers, s.jobs, s.jobs[d := j], d, d);
  }

  lemma WaitReturnsCount(t: Tree, n: nat, s: State, d: nat)
    requires TreeOk(t) && Shaped(t, n, s) && Inv(t, n, s) && Enabled(t, n, s, WaitReturns(d))
    ensures CountInv(t, n, Next(t, n, s, WaitReturns(d)))
  {
    var j := Active(Returned, s.jobs[d].pooled);
    JobChange(t, s.jobs, d, j);
  }

  /** The wait cannot return early: once the count is zero every subdirectory has been read. */
  lemma WaitMeansFinished(t: Tree, jobs: seq<Job>, wg: seq<int>, d: nat)
    requires TreeOk(t) && |jobs| == |t.subs| == |wg| && ChildrenOk(t, jobs) && PhasesOk(t, jobs)
    requires GroupsOk(t, jobs, wg)
    requires d < |jobs| && jobs[d].Active? && jobs[d].phase == Reading(|t.subs[d]|) && wg[d] <= 0
    ensures forall k :: 0 <= k < |t.subs[d]| ==> Finished(jobs[t.subs[d][k]])
  {
    SumZero(KidBits(t, jobs, d));
    forall k | 0 <= k < |t.subs[d]|
      ensures Finished(jobs[t.subs[d][k]])
    {
      assert KidBits(t, jobs, d)[k] == 0;
      assert ChildOk(jobs[d], k, jobs[t.subs[d][k]]);
    }
  }

  lemma PooledDoneShape(t: Tree, n: nat, s: State, d: nat)
    requires TreeOk(t) && Shaped(t, n, s) && ShapeInv(t, n, s) && Enabled(t, n, s, Done(d))
    requires s.jobs[d].pooled
    ensures ShapeInv(t, n, Next(t, n, s, Done(d)))
  {
    var p, k := t.parent[d], t.slot[d];
    assert ChildOk(s.jobs[p], k, s.jobs[t.subs[p][k]]);
    OneChanges(t, s.jobs, d, Releasing);
    HandlingKept(s.queue, s.workers, s.jobs, s.jobs[d := Releasing], d, d);
  }

  lemma InlineDoneShape(t: Tree, n: nat, s: State, d: nat)
    requires TreeOk(t) && Shaped(t, n, s) && ShapeInv(t, n, s) && Enabled(t, n, s, Done(d))
    requires !s.jobs[d].pooled
    ensures ShapeInv(t, n, Next(t, n, s, Done(d)))
  {
    var p, k := t.parent[d], t.slot[d];
    assert ChildOk(s.jobs[p], k, s.jobs[t.subs[p][k]]);
    var j := Resume(s.jobs[p], k + 1);
    BothChange(t, s.jobs, p, k, j, Over);
    assert Next(t, n, s, Done(d)).jobs == s.jobs[p := j][d := Over];
    HandlingKept(s.queue, s.workers, s.jobs, s.jobs[p := j][d := Over], p, d);
  }

  lemma PooledDoneCount(t: Tree, n: nat, s: State, d: nat)
    requires TreeOk(t) && Shaped(t, n, s) && Inv(t, n, s) && Enabled(t, n, s, Done(d))
    requires s.jobs[d].pooled
    ensures CountInv(t, n, Next(t, n, s, Done(d)))
  {
    var p, k := t.parent[d], t.slot[d];
    assert ChildOk(s.jobs[p], k, s.jobs[t.subs[p][k]]);
    JobChange(t, s.jobs, d, Releasing);
  }

  lemma InlineDoneCount(t: Tree, n: nat, s: State, d: nat)
    requires TreeOk(t) && Shaped(t, n, s) && Inv(t, n, s) && Enabled(t, n, s, Done(d))
    requires !s.jobs[d].pooled
    ensures CountInv(t, n, Next(t, n, s, Done(d)))
  {
    hide ShapeInv, KidBits, HeldBits, BusyBits, Sum;
    ParentAt(t, n, s, d);
    var p, k := t.parent[d], t.slot[d];
    PairChange(t, s.jobs, p, k, Resume(s.jobs[p], k + 1), Over);
  }

  lemma NotifyShape(t: Tree, n: nat, s: State, w: nat)
    requires TreeOk(t) && Shaped(t, n, s) && ShapeInv(t, n, s) && Enabled(t, n, s, Notify(w))
    ensures ShapeInv(t, n, Next(t, n, s, Notify(w)))
  {
    var c := s.workers[w].job;
    OneChanges(t, s.jobs, c, Over);
    ReleaseKeeps(s.queue, s.workers, s.jobs, w);
  }

  lemma NotifyCount(t: Tree, n: nat, s: State, w: nat)
    requires TreeOk(t) && Shaped(t, n, s) && Inv(t, n, s) && Enabled(t, n, s, Notify(w))
    ensures CountInv(t, n, Next(t, n, s, Notify(w)))
  {
    hide ShapeInv, KidBits, HeldBits, BusyBits, Sum;
    var c := s.workers[w].job;
    JobChange(t, s.jobs, c, Over);
    WorkerChange(s.workers, w, Leaving);
  }

  lemma ReleaseKeeps(queue: seq<nat>, workers: seq<Worker>, jobs: seq<Job>, w: nat)
    requires QueueOk(queue, jobs) && WorkersOk(workers, jobs)
    requires w < |workers| && workers[w].Busy? && jobs[workers[w].job].Releasing?
    ensures QueueOk(queue, jobs[workers[w].job := Over])
    ensures WorkersOk(workers[w := Leaving], jobs[workers[w].job := Over])
  {
    var workers', jobs' := workers[w := Leaving], jobs[workers[w].job := Over];
    forall i | 0 <= i < |jobs'| && OnWorker(jobs'[i])
      ensures exists v :: 0 <= v < |workers'| && workers'[v] == Busy(i)
    {
      var v :| 0 <= v < |workers| && workers[v] == Busy(i);
      assert workers'[v] == Busy(i);
    }
  }

  lemma LoopShape(t: Tree, n: nat, s: State, w: nat)
    requires TreeOk(t) && Shaped(t, n, s) && ShapeInv(t, n, s) && Enabled(t, n, s, Loop(w))
    ensures ShapeInv(t, n, Next(t, n, s, Loop(w)))
  {
    var workers' := s.workers[w := Idle];
    forall i | 0 <= i < |s.jobs| && OnWorker(s.jobs[i])
      ensures exists v :: 0 <= v < |workers'| && workers'[v] == Busy(i)
    {
      var v :| 0 <= v < |s.workers| && s.workers[v] == Busy(i);
      assert workers'[v] == Busy(i);
    }
  }

  lemma LoopCount(t: Tree, n: nat, s: State, w: nat)
    requires TreeOk(t) && Shaped(t, n, s) && Inv(t, n, s) && Enabled(t, n, s, Loop(w))
    ensures CountInv(t, n, Next(t, n, s, Loop(w)))
  {
    WorkerChange(s.workers, w, Idle);
  }

  lemma StepKeeps(t: Tree, n: nat, s: State, a: Action)
    requires TreeOk(t) && Shaped(t, n, s) && Inv(t, n, s) && Enabled(t, n, s, a)
    ensures Inv(t, n, Next(t, n, s, a))
  {
    match a
    case Add(d) => AddShape(t, n, s, d); AddCount(t, n, s, d);
    case TryWait(d) =>
      if s.sem > 0 { GrantedShape(t, n, s, d); GrantedCount(t, n, s, d); }
      else { InlineShape(t, n, s, d); InlineCount(t, n, s, d); }
    case Enqueue(d) => EnqueueShape(t, n, s, d); EnqueueCount(t, n, s, d);
    case Dequeue(w) => DequeueShape(t, n, s, w); DequeueCount(t, n, s, w);
    case WaitReturns(d) => WaitReturnsShape(t, n, s, d); WaitReturnsCount(t, n, s, d);
    case Done(d) =>
      if s.jobs[d].pooled { PooledDoneShape(t, n, s, d); PooledDoneCount(t, n, s, d); }
      else { InlineDoneShape(t, n, s, d); InlineDoneCount(t, n, s, d); }
    case Notify(w) => NotifyShape(t, n, s, w); NotifyCount(t, n, s, w);
    case Loop(w) => LoopShape(t, n, s, w); LoopCount(t, n, s, w);
  }

  // ---------------------------------------------------------------- progress

  ghost predicate CanStep(t: Tree, n: nat, s: State)
    requires Shaped(t, n, s)
  {
    exists a :: Enabled(t, n, s, a)
  }

  /** The bound the semaphore puts on pool jobs: a queued job never lacks a worker. */
  lemma QueuedHasWorker(t: Tree, n: nat, s: State)
    requires TreeOk(t) && Shaped(t, n, s) && Inv(t, n, s) && s.queue != []
    ensures exists w :: 0 <= w < n && !s.workers[w].Busy?
    ensures CanStep(t, n, s)
  {
    if forall w :: 0 <= w < n ==> s.workers[w].Busy? {
      assert forall w :: 0 <= w < n ==> BusyBits(s.workers)[w] == 1;
      AllOnes(BusyBits(s.workers));
      assert false;
    }
    var w :| 0 <= w < n && !s.workers[w].Busy?;
    assert Enabled(t, n, s, if s.workers[w].Idle? then Dequeue(w) else Loop(w));
  }

  lemma {:induction false} AllOnes(s: seq<nat>)
    requires forall i :: 0 <= i < |s| ==> s[i] == 1
    ensures Sum(s) == |s|
  {
    if s != [] { AllOnes(s[1..]); }
  }

  /** A directory that is being read can go on, or one of the directories below it can. */
  lemma {:induction false} ActiveGoesOn(t: Tree, n: nat, s: State, d: nat)
    requires TreeOk(t) && Shaped(t, n, s) && Inv(t, n, s) && s.queue == []
    requires d < |t.subs| && s.jobs[d].Active? && (d == 0 ==> !s.jobs[d].phase.Returned?)
    ensures CanStep(t, n, s)
    decreases |t.subs| - d
  {
    assert PhaseOk(s.jobs[d], |t.subs[d]|);
    match s.jobs[d].phase
    case Added(_) => assert Enabled(t, n, s, TryWait(d));
    case Holding(_) => assert Enabled(t, n, s, Enqueue(d));
    case Returned => assert Enabled(t, n, s, Done(d));
    case Calling(k) =>
      assert ChildOk(s.jobs[d], k, s.jobs[t.subs[d][k]]);
      ActiveGoesOn(t, n, s, t.subs[d][k]);
    case Reading(k) =>
      if k < |t.subs[d]| {
        assert Enabled(t, n, s, Add(d));
      } else if s.wg[d] <= 0 {
        assert Enabled(t, n, s, WaitReturns(d));
      } else {
        SumZero(KidBits(t, s.jobs, d));
        var i :| 0 <= i < |t.subs[d]| && KidBits(t, s.jobs, d)[i] != 0;
        var c := t.subs[d][i];
        assert ChildOk(s.jobs[d], i, s.jobs[c]);
        assert !s.jobs[c].Queued?;
        ActiveGoesOn(t, n, s, c);
      }
  }

  /** No deadlock: until the scan of the root returns, some step is enabled. */
  lemma Progress(t: Tree, n: nat, s: State)
    requires TreeOk(t) && Shaped(t, n, s) && Inv(t, n, s) && !s.jobs[0].phase.Returned?
    ensures CanStep(t, n, s)
  {
    if s.queue == [] { ActiveGoesOn(t, n, s, 0); } else { QueuedHasWorker(t, n, s); }
  }

  /** When the scan of the root returns, every directory has been read exactly once. */
  lemma {:induction false} AllRead(t: Tree, n: nat, s: State, d: nat)
    requires TreeOk(t) && Shaped(t, n, s) && Inv(t, n, s) && s.jobs[0].phase.Returned? && d < |t.subs|
    ensures s.scans[d] == 1 && (d > 0 ==> Finished(s.jobs[d]))
  {
    if d > 0 {
      AllRead(t, n, s, t.parent[d]);
      assert ChildOk(s.jobs[t.parent[d]], t.slot[d], s.jobs[t.subs[t.parent[d]][t.slot[d]]]);
    }
  }

  // ---------------------------------------------------------------- termination

  function JobWeight(j: Job, n: nat): nat {
    match j
    case Unseen => 7 + 3 * n
    case Pending => 6 + 3 * n
    case Queued => 5 + 3 * n
    case Active(phase, _) =>
      (match phase
       case Reading(k) => if k <= n then 4 + 3 * (n - k) else 4
       case Added(k) => if k <= n then 3 + 3 * (n - k) else 3
       case Holding(k) => if k <= n then 2 + 3 * (n - k) else 2
       case Calling(k) => if k <= n then 2 + 3 * (n - k) else 2
       case Returned => 3)
    case Releasing => 2
    case Over => 0
  }

  function JobWeights(t: Tree, jobs: seq<Job>): seq<nat>
    requires |jobs| == |t.subs|
  {
    seq(|jobs|, d requires 0 <= d < |jobs| => JobWeight(jobs[d], |t.subs[d]|))
  }

  function WorkerWeights(workers: seq<Worker>): seq<nat> {
    seq(|workers|, w requires 0 <= w < |workers| => Bit(workers[w].Leaving?))
  }

  function Measure(t: Tree, s: State): nat
    requires |s.jobs| == |t.subs|
  {
    Sum(JobWeights(t, s.jobs)) + Sum(WorkerWeights(s.workers))
  }

  lemma WeightChange(t: Tree, jobs: seq<Job>, d: nat, j: Job)
    requires |jobs| == |t.subs| && d < |jobs|
    ensures Sum(JobWeights(t, jobs[d := j])) ==
              Sum(JobWeights(t, jobs)) - JobWeight(jobs[d], |t.subs[d]|) + JobWeight(j, |t.subs[d]|)
  {
    assert JobWeights(t, jobs[d := j]) == JobWeights(t, jobs)[d := JobWeight(j, |t.subs[d]|)];
    SumUpdate(JobWeights(t, jobs), d, JobWeight(j, |t.subs[d]|));
  }

  lemma WeightsChange(t: Tree, jobs: seq<Job>, d: nat, j: Job, c: nat, i: Job)
    requires |jobs| == |t.subs| && d < |jobs| && c < |jobs| && c != d
    ensures Sum(JobWeights(t, jobs[d := j][c := i]))
         == Sum(JobWeights(t, jobs)) - JobWeight(jobs[d], |t.subs[d]|) + JobWeight(j, |t.subs[d]|)
            - JobWeight(jobs[c], |t.subs[c]|) + JobWeight(i, |t.subs[c]|)
  {
    WeightChange(t, jobs, d, j);
    WeightChange(t, jobs[d := j], c, i);
  }

  lemma LeavingChange(workers: seq<Worker>, w: nat, x: Worker)
    requires w < |workers|
    ensures Sum(WorkerWeights(workers[w := x])) ==
              Sum(WorkerWeights(workers)) - Bit(workers[w].Leaving?) + Bit(x.Leaving?)
  {
    assert WorkerWeights(workers[w := x]) == WorkerWeights(workers)[w := Bit(x.Leaving?)];
    SumUpdate(WorkerWeights(workers), w, Bit(x.Leaving?));
  }

  /** Every step uses up some of the work that is left. */
  lemma StepShrinks(t: Tree, n: nat, s: State, a: Action)
    requires TreeOk(t) && Shaped(t, n, s) && Inv(t, n, s) && Enabled(t, n, s, a)
    ensures Measure(t, Next(t, n, s, a)) < Measure(t, s)
  {
    hide ChildrenOk, QueueOk, WorkersOk, ScansOk, CountInv, JobWeights, WorkerWeights, Sum;
    match a
    case Add(d) => DirectoryShrinks(t, n, s, a, d);
    case TryWait(d) => DirectoryShrinks(t, n, s, a, d);
    case Enqueue(d) => DirectoryShrinks(t, n, s, a, d);
    case WaitReturns(d) =>
      assert PhaseOk(s.jobs[d], |t.subs[d]|);
      WeightChange(t, s.jobs, d, Active(Returned, s.jobs[d].pooled));
    case Done(d) =>
      if s.jobs[d].pooled { WeightChange(t, s.jobs, d, Releasing); } else { InlineDoneShrinks(t, n, s, d); }
    case Dequeue(w) => WorkerShrinks(t, n, s, a, w);
    case Notify(w) => WorkerShrinks(t, n, s, a, w);
    case Loop(w) => WorkerShrinks(t, n, s, a, w);
  }

  lemma WorkerShrinks(t: Tree, n: nat, s: State, a: Action, w: nat)
    requires TreeOk(t) && Shaped(t, n, s) && Inv(t, n, s) && Enabled(t, n, s, a)
    requires a == Dequeue(w) || a == Notify(w) || a == Loop(w)
    ensures Measure(t, Next(t, n, s, a)) < Measure(t, s)
  {
    hide ChildrenOk, PhasesOk, WorkersOk, ScansOk, CountInv, TreeOk, JobWeights, WorkerWeights, Sum;
    if a == Dequeue(w) {
      WeightChange(t, s.jobs, s.queue[0], Active(Reading(0), true));
      LeavingChange(s.workers, w, Busy(s.queue[0]));
    } else if a == Notify(w) {
      WeightChange(t, s.jobs, s.workers[w].job, Over);
      LeavingChange(s.workers, w, Leaving);
    } else {
      LeavingChange(s.workers, w, Idle);
    }
  }

  /** Directory d goes on, and its subdirectory c with it or not: only their weights count. */
  lemma PairShrinks(t: Tree, s: State, s': State, d: nat, j: Job, c: nat, i: Job)
    requires |s.jobs| == |t.subs| && d < |s.jobs| && c < |s.jobs| && c != d
    requires s'.jobs == s.jobs[d := j][c := i] && s'.workers == s.workers
    requires JobWeight(j, |t.subs[d]|) + JobWeight(i, |t.subs[c]|) <
               JobWeight(s.jobs[d], |t.subs[d]|) + JobWeight(s.jobs[c], |t.subs[c]|)
    ensures Measure(t, s') < Measure(t, s)
  {
    hide JobWeight, JobWeights, WorkerWeights, Sum;
    WeightsChange(t, s.jobs, d, j, c, i);
  }

  lemma DirectoryShrinks(t: Tree, n: nat, s: State, a: Action, d: nat)
    requires TreeOk(t) && Shaped(t, n, s) && Inv(t, n, s) && Enabled(t, n, s, a)
    requires a == Add(d) || a == TryWait(d) || a == Enqueue(d)
    ensures Measure(t, Next(t, n, s, a)) < Measure(t, s)
  {
    hide ShapeInv, CountInv, Measure;
    HandledAt(t, n, s, d);
    var k, pooled, s' := s.jobs[d].phase.k, s.jobs[d].pooled, Next(t, n, s, a);
    var c := t.subs[d][k];
    if a == Add(d) {
      PairShrinks(t, s, s', d, Active(Added(k), pooled), c, Pending);
    } else if a == Enqueue(d) {
      PairShrinks(t, s, s', d, Active(Reading(k + 1), pooled), c, Queued);
    } else if s.sem > 0 {
      PairShrinks(t, s, s', d, Active(Holding(k), pooled), c, s.jobs[c]);
    } else {
      PairShrinks(t, s, s', d, Active(Calling(k), pooled), c, Active(Reading(0), false));
    }
  }

  lemma InlineDoneShrinks(t: Tree, n: nat, s: State, d: nat)
    requires TreeOk(t) && Shaped(t, n, s) && Inv(t, n, s) && Enabled(t, n, s, Done(d)) && !s.jobs[d].pooled
    ensures Measure(t, Next(t, n, s, Done(d))) < Measure(t, s)
  {
    hide ShapeInv, CountInv, Measure;
    ParentAt(t, n, s, d);
    PairShrinks(t, s, Next(t, n, s, Done(d)), t.parent[d], Resume(s.jobs[t.parent[d]], t.slot[d] + 1), d, Over);
  }

  // ---------------------------------------------------------------- every run

  /** s can be reached in the given number of steps. */
  ghost predicate Reachable(t: Tree, n: nat, s: State, steps: nat)
    requires TreeOk(t)
    decreases steps
  {
    if steps == 0 then s == Init(t, n)
    else exists s0, a :: Follows(t, n, s0, a, s) && Reachable(t, n, s0, steps - 1)
  }

  ghost predicate Follows(t: Tree, n: nat, s0: State, a: Action, s: State)
    requires TreeOk(t)
  {
    Shaped(t, n, s0) && Enabled(t, n, s0, a) && s == Next(t, n, s0, a)
  }

  lemma {:induction false} ReachableInv(t: Tree, n: nat, s: State, steps: nat)
    requires TreeOk(t) && Reachable(t, n, s, steps)
    ensures Shaped(t, n, s) && Inv(t, n, s) && Measure(t, s) + steps <= Measure(t, Init(t, n))
    decreases steps
  {
    hide Inv, Measure, Next, Init;
    if steps == 0 {
      InitInv(t, n);
    } else {
      var s0, a :| Follows(t, n, s0, a, s) && Reachable(t, n, s0, steps - 1);
      ReachableInv(t, n, s0, steps - 1);
      StepKeeps(t, n, s0, a);
      StepShrinks(t, n, s0, a);
    }
  }

  /** For every tree, every number of workers and every interleaving: the tokens add up, a queued
      job has a worker that is or is about to be free, no state before the end is stuck, every run is
      finite, and at the end every directory has been read exactly once. */
  lemma ScanTheorem(t: Tree, n: nat, s: State, steps: nat)
    requires TreeOk(t) && Reachable(t, n, s, steps)
    ensures Shaped(t, n, s) && s.sem >= 0
    ensures s.sem + Sum(HeldBits(s.jobs)) + |s.queue| + Sum(BusyBits(s.workers)) == n
    ensures s.queue != [] ==> exists w :: 0 <= w < n && !s.workers[w].Busy?
    ensures forall d :: 0 <= d < |t.subs| ==> s.scans[d] <= 1
    ensures s.jobs[0].Active?
    ensures if s.jobs[0].phase.Returned? then forall d :: 0 <= d < |t.subs| ==> s.scans[d] == 1 else CanStep(t, n, s)
    ensures steps <= Measure(t, Init(t, n))
  {
    ReachableInv(t, n, s, steps);
    if s.queue != [] { QueuedHasWorker(t, n, s); }
    if s.jobs[0].phase.Returned? {
      forall d | 0 <= d < |t.subs| ensures s.scans[d] == 1 { AllRead(t, n, s, d); }
    } else {
      Progress(t, n, s);
    }
  }

  // ---------------------------------------------------------------- first in, first out

  /** s' can be reached from s in the given number of steps. */
  ghost predicate Leads(t: Tree, n: nat, s: State, s': State, steps: nat)
    requires TreeOk(t)
    decreases steps
  {
    if steps == 0 then s' == s
    else exists s0, a :: Follows(t, n, s0, a, s') && Leads(t, n, s, s0, steps - 1)
  }

  predicate Started(j: Job) { j.Active? || Finished(j) }

  /** The first k jobs of what was the queue have been started, the others are at its front. */
  ghost predicate Taken(queue: seq<nat>, k: nat, s: State) {
    && k <= |queue| && queue[k..] <= s.queue
    && forall i :: 0 <= i < k ==> queue[i] < |s.jobs| && Started(s.jobs[queue[i]])
  }

  /** A job that has been started is never queued again: only subdirectories that are unseen or pending are. */
  lemma StartedStays(t: Tree, n: nat, s: State, a: Action, c: nat)
    requires TreeOk(t) && Shaped(t, n, s) && Inv(t, n, s) && Enabled(t, n, s, a) && c < |s.jobs| && Started(s.jobs[c])
    ensures Started(Next(t, n, s, a).jobs[c])
  {
    hide CountInv, ShapeInv;
    match a
    case Add(d) => HandledFresh(t, n, s, d);
    case TryWait(d) => HandledFresh(t, n, s, d);
    case Enqueue(d) => HandledFresh(t, n, s, d);
    case _ =>
  }

  lemma HandledFresh(t: Tree, n: nat, s: State, d: nat)
    requires TreeOk(t) && Shaped(t, n, s) && ShapeInv(t, n, s) && d < |s.jobs| && s.jobs[d].Active?
    requires Enabled(t, n, s, Add(d)) || Enabled(t, n, s, TryWait(d)) || Enabled(t, n, s, Enqueue(d))
    ensures !Started(s.jobs[Current(t, s, d)])
  {
    hide ShapeInv;
    HandledAt(t, n, s, d);
  }

  lemma StepTakes(t: Tree, n: nat, s: State, a: Action, queue: seq<nat>, k: nat) returns (k': nat)
    requires TreeOk(t) && Shaped(t, n, s) && Inv(t, n, s) && Enabled(t, n, s, a) && Taken(queue, k, s)
    ensures Taken(queue, k', Next(t, n, s, a))
  {
    hide Inv, TreeOk, Started;
    var s' := Next(t, n, s, a);
    forall i | 0 <= i < k ensures Started(s'.jobs[queue[i]]) { StartedStays(t, n, s, a, queue[i]); }
    k' := k;
    if a.Dequeue? && k < |queue| {
      k' := k + 1;
      assert queue[k] == queue[k..][0] == s.queue[0] && queue[k + 1..] == queue[k..][1..];
      assert Started(s'.jobs[queue[k]]) by { JustStarted(t, n, s, a.w); }
    }
  }

  lemma JustStarted(t: Tree, n: nat, s: State, w: nat)
    requires TreeOk(t) && Shaped(t, n, s) && Enabled(t, n, s, Dequeue(w))
    ensures Started(Next(t, n, s, Dequeue(w)).jobs[s.queue[0]])
  {}

  lemma {:induction false} LeadsTakes(t: Tree, n: nat, s: State, s': State, steps: nat) returns (k: nat)
    requires TreeOk(t) && Shaped(t, n, s) && Inv(t, n, s) && Leads(t, n, s, s', steps)
    ensures Shaped(t, n, s') && Inv(t, n, s') && Taken(s.queue, k, s')
    decreases steps
  {
    hide Inv, Next, Taken;
    if steps == 0 {
      k := 0;
      NoneTaken(s);
    } else {
      var s0, a :| Follows(t, n, s0, a, s') && Leads(t, n, s, s0, steps - 1);
      var k0 := LeadsTakes(t, n, s, s0, steps - 1);
      StepKeeps(t, n, s0, a);
      k := StepTakes(t, n, s0, a, s.queue, k0);
    }
  }

  lemma NoneTaken(s: State)
    ensures Taken(s.queue, 0, s)
  {}

  /** In every interleaving a job of the queue is started only after all that were queued before it. */
  lemma FirstComeFirstServed(t: Tree, n: nat, s: State, steps: nat, s': State, more: nat, i: nat, j: nat)
    requires TreeOk(t) && Reachable(t, n, s, steps) && Leads(t, n, s, s', more) && i < j < |s.queue|
    ensures Shaped(t, n, s) && Shaped(t, n, s')
    ensures s.jobs[s.queue[j]].Queued?
    ensures Started(s'.jobs[s.queue[j]]) ==> Started(s'.jobs[s.queue[i]])
  {
    hide CountInv, ChildrenOk, PhasesOk, WorkersOk, ScansOk, Reachable, Leads, TreeOk;
    ReachableInv(t, n, s, steps);
    var k := LeadsTakes(t, n, s, s', more);
    if j >= k { assert s'.queue[j - k] == s.queue[k..][j - k] == s.queue[j]; }
  }

  /** A subdirectory is read on the scanning thread itself only when every worker is spoken for: each has a
      job, or one waits for it in the queue or is about to. */
  lemma InlineOnlyWhenFull(t: Tree, n: nat, s: State, steps: nat, a: Action, s': State, c: nat)
    requires TreeOk(t) && Reachable(t, n, s, steps) && Follows(t, n, s, a, s') && c < |t.subs|
    requires Shaped(t, n, s) && Shaped(t, n, s') && !s.jobs[c].Active? && s'.jobs[c].Active? && !s'.jobs[c].pooled
    ensures Sum(HeldBits(s.jobs)) + |s.queue| + Sum(BusyBits(s.workers)) == n
  {
    ReachableInv(t, n, s, steps);
    NoTokenLeft(t, n, s, a, s', c);
    hide HeldBits, BusyBits, Sum, ShapeInv, GroupsOk, Reachable, TreeOk;
  }

  lemma NoTokenLeft(t: Tree, n: nat, s: State, a: Action, s': State, c: nat)
    requires TreeOk(t) && Follows(t, n, s, a, s') && c < |t.subs|
    requires Shaped(t, n, s) && Shaped(t, n, s') && !s.jobs[c].Active? && s'.jobs[c].Active? && !s'.jobs[c].pooled
    ensures s.sem <= 0
  {}
}
