/** cache::pull: rounds of two waits each.  First every directory of the round is fetched and read in
    parallel; then tasks append the children, collect the directories for the next round and start
    further tasks for the files, which the same wait group counts. */
module Pull {
  import opened Entries
  import opened Trees

  /** The remote, or what is in the local cache: tree objects and file objects. */
  datatype Objects = Objects(trees: Store, files: Store)

  /** What a task for a directory does next: look its object up in the cache, copy it from the remote, or
      read it. */
  datatype Stage = Look | Copy | Load

  /** Get fetches and reads directory i of the round; Walk appends the next child; Dispatch decides what
      to do with an appended child; Fetch looks a file object up and, if it is missing, copies it.  No lock
      is held from the look-up to the copy. */
  datatype Job =
    | Get(i: nat, stage: Stage)
    | Walk(todo: seq<Entry>)
    | Dispatch(e: Entry, todo: seq<Entry>)
    | Fetch(d: Digest, missing: bool)

  datatype Main = Loading(next: nat) | Walking(next: nat) | Returned | Threw

  datatype State = State(main: Main, trees: seq<Entry>, kids: map<nat, seq<Entry>>, jobs: seq<Job>, count: nat,
                         failed: bool,
                         found: seq<Entry>, index: seq<Entry>, local: Objects)

  function Start(root: Entry, local: Objects): State { State(Loading(0), [root], map[], [], 0, false, [], [], local) }

  // ---------------------------------------------------------------- steps

  ghost predicate EnqueueGet(s: State, s': State) {
    s.main.Loading? && s.main.next < |s.trees|
    && s' == s.(main := Loading(s.main.next + 1), jobs := s.jobs + [Get(s.main.next, Look)], count := s.count + 1)
  }

  /** The first wait of a round. */
  ghost predicate AllLoaded(s: State, s': State) {
    s.main.Loading? && s.main.next == |s.trees| && s.count == 0
    && s' == if s.failed then s.(main := Threw) else s.(main := Walking(0))
  }

  ghost predicate EnqueueWalk(s: State, s': State) {
    s.main.Walking? && s.main.next < |s.trees|
    && var todo := if s.main.next in s.kids then s.kids[s.main.next] else [];
       s' == s.(main := Walking(s.main.next + 1), jobs := s.jobs + [Walk(todo)], count := s.count + 1)
  }

  /** The second wait of a round. */
  ghost predicate AllWalked(s: State, s': State) {
    s.main.Walking? && s.main.next == |s.trees| && s.count == 0
    && s' == if s.failed then s.(main := Threw)
             else if s.found == [] then s.(main := Returned, trees := [], kids := map[])
             else s.(main := Loading(0), trees := s.found, kids := map[], found := [])
  }

  /** The task list with task j replaced by these. */
  function Put(jobs: seq<Job>, j: nat, now: seq<Job>): seq<Job>
    requires j < |jobs|
  {
    jobs[..j] + now + jobs[j + 1..]
  }

  /** The task ends: wait_group::done or wait_group::exception. */
  function Finish(s: State, j: nat, failed: bool): State
    requires j < |s.jobs| && s.count > 0
  {
    s.(jobs := Put(s.jobs, j, []), count := s.count - 1, failed := s.failed || failed)
  }

  /** pull_tree. */
  function AfterGet(remote: Objects, s: State, j: nat): State
    requires j < |s.jobs| && s.jobs[j].Get? && s.jobs[j].i < |s.trees| && s.count > 0
  {
    var i, d := s.jobs[j].i, s.trees[s.jobs[j].i].hash;
    match s.jobs[j].stage
    case Look => s.(jobs := Put(s.jobs, j, [Get(i, if d in s.local.trees then Load else Copy)]))
    case Copy =>
      if d in remote.trees then
        s.(jobs := Put(s.jobs, j, [Get(i, Load)]), local := s.local.(trees := s.local.trees[d := remote.trees[d]]))
      else Finish(s, j, true)
    case Load =>
      if Readable(s.local.trees, s.trees[i]) then
        Finish(s, j, false).(kids := s.kids[i := Children(s.local.trees, s.trees[i])])
      else Finish(s, j, true)
  }

  function AfterWalk(s: State, j: nat): State
    requires j < |s.jobs| && s.jobs[j].Walk? && s.count > 0
  {
    var todo := s.jobs[j].todo;
    if todo == [] then Finish(s, j, false)
    else s.(jobs := Put(s.jobs, j, [Dispatch(todo[0], todo[1..])]), index := s.index + [todo[0]])
  }

  predicate NeedsFile(e: Entry) { e.kind != Symlink && e.kind != Directory }

  function AfterDispatch(s: State, j: nat): State
    requires j < |s.jobs| && s.jobs[j].Dispatch?
  {
    var e, walk := s.jobs[j].e, Walk(s.jobs[j].todo);
    if e.kind == Symlink then s.(jobs := Put(s.jobs, j, [walk]))
    else if e.kind == Directory then s.(jobs := Put(s.jobs, j, [walk]), found := s.found + [e])
    else s.(jobs := Put(s.jobs, j, [walk, Fetch(e.hash, false)]), count := s.count + 1)
  }

  /** pull_object. */
  function AfterFetch(remote: Objects, s: State, j: nat): State
    requires j < |s.jobs| && s.jobs[j].Fetch? && s.count > 0
  {
    var d := s.jobs[j].d;
    if !s.jobs[j].missing then
      if d in s.local.files then Finish(s, j, false) else s.(jobs := Put(s.jobs, j, [Fetch(d, true)]))
    else if d in remote.files then
      Finish(s, j, false).(local := s.local.(files := s.local.files[d := remote.files[d]]))
    else Finish(s, j, true)
  }

  ghost predicate Work(remote: Objects, s: State, s': State, j: nat)
    requires j < |s.jobs|
  {
    s.count > 0 &&
    match s.jobs[j]
    case Get(i, _) => i < |s.trees| && s' == AfterGet(remote, s, j)
    case Walk(_) => s' == AfterWalk(s, j)
    case Dispatch(_, _) => s' == AfterDispatch(s, j)
    case Fetch(_, _) => s' == AfterFetch(remote, s, j)
  }

  ghost predicate Step(remote: Objects, s: State, s': State) {
    EnqueueGet(s, s') || AllLoaded(s, s') || EnqueueWalk(s, s') || AllWalked(s, s')
    || exists j :: 0 <= j < |s.jobs| && Work(remote, s, s', j)
  }

  ghost predicate Run(remote: Objects, root: Entry, local: Objects, run: seq<State>) {
    run != [] && run[0] == Start(root, local) && forall i :: 0 <= i < |run| - 1 ==> Step(remote, run[i], run[i + 1])
  }

  // ---------------------------------------------------------------- the wait cannot return early

  predicate LoadJob(s: State, job: Job) { job.Get? && s.main.Loading? && job.i < s.main.next }

  /** The children that have been read are those of the tree object in the cache. */
  predicate KidsRead(s: State) {
    forall i :: i in s.kids ==>
      i < |s.trees| && Readable(s.local.trees, s.trees[i]) && s.kids[i] == Children(s.local.trees, s.trees[i])
  }

  predicate Getting(jobs: seq<Job>, i: nat) { Get(i, Look) in jobs || Get(i, Copy) in jobs || Get(i, Load) in jobs }

  /** A directory of the round has been read, or its task is unfinished, or one has failed. */
  predicate KidsComing(s: State) {
    match s.main
    case Loading(next) => forall i: nat :: i < next ==> i in s.kids || Getting(s.jobs, i) || s.failed
    case Walking(_) => forall i: nat :: i < |s.trees| ==> i in s.kids
    case _ => true
  }

  /** The wait group counts the unfinished tasks, nested ones included, and each of the two waits has
      only its own tasks to wait for. */
  ghost predicate Orderly(s: State) {
    && s.count == |s.jobs| && KidsRead(s) && KidsComing(s)
    && match s.main
       case Loading(next) =>
         next <= |s.trees| && s.found == [] && forall j :: 0 <= j < |s.jobs| ==> LoadJob(s, s.jobs[j])
       case Walking(next) => next <= |s.trees| && forall j :: 0 <= j < |s.jobs| ==> !s.jobs[j].Get?
       case Returned => s.jobs == [] && s.found == [] && !s.failed
       case Threw => s.jobs == [] && s.failed
  }

  /** What a task is about to copy may have been copied by another one meanwhile, but then it is the same
      object. */
  ghost predicate CopiesAgree(remote: Objects, s: State) {
    forall j :: 0 <= j < |s.jobs| ==> CopyAgrees(remote, s, s.jobs[j])
  }

  predicate CopyAgrees(remote: Objects, s: State, job: Job) {
    match job
    case Get(i, stage) => stage == Copy && i < |s.trees| ==> SameObject(remote.trees, s.local.trees, s.trees[i].hash)
    case Fetch(d, missing) => missing ==> SameObject(remote.files, s.local.files, d)
    case _ => true
  }

  predicate SameObject(from: Store, to: Store, d: Digest) { d in to ==> d in from && to[d] == from[d] }

  lemma PutIn(jobs: seq<Job>, j: nat, now: seq<Job>)
    requires j < |jobs|
    ensures forall x :: x in Put(jobs, j, now) ==> x in jobs || x in now
    ensures forall x :: x in now ==> x in Put(jobs, j, now)
    ensures forall x :: x in jobs && x != jobs[j] ==> x in Put(jobs, j, now)
  {
    forall x | x in jobs && x != jobs[j] ensures x in Put(jobs, j, now) {
      var k :| 0 <= k < |jobs| && jobs[k] == x;
      if k < j { assert jobs[..j][k] == x; } else { assert jobs[j + 1..][k - j - 1] == x; }
    }
  }

  lemma GrowsReads(a: Store, d: Digest, v: string, e: Entry)
    requires (d in a ==> a[d] == v) && Readable(a, e)
    ensures Readable(a[d := v], e) && Children(a[d := v], e) == Children(a, e)
  {}

  /** What becomes of a task for a directory. */
  function NowGet(remote: Objects, s: State, j: nat): seq<Job>
    requires j < |s.jobs| && s.jobs[j].Get? && s.jobs[j].i < |s.trees|
  {
    var i, d := s.jobs[j].i, s.trees[s.jobs[j].i].hash;
    match s.jobs[j].stage
    case Look => [Get(i, if d in s.local.trees then Load else Copy)]
    case Copy => if d in remote.trees then [Get(i, Load)] else []
    case Load => []
  }

  lemma GetChanges(remote: Objects, s: State, j: nat)
    requires j < |s.jobs| && s.jobs[j].Get? && s.jobs[j].i < |s.trees| && s.count > 0
    ensures var s', now := AfterGet(remote, s, j), NowGet(remote, s, j);
            && s'.jobs == Put(s.jobs, j, now) && s'.count == s.count - 1 + |now| && s'.main == s.main &&
               s'.trees == s.trees
            && s'.found == s.found && s'.index == s.index && s'.local.files == s.local.files && (s.failed ==> s'.failed)
            && (now == [] ==> s.jobs[j].i in s'.kids || s'.failed) &&
               (now != [] ==> |now| == 1 && Getting(now, s.jobs[j].i))
  {
    hide Put, Readable, Children;
  }

  /** The cache stays, or gets the remote's object, which it may have already. */
  lemma GetLocal(remote: Objects, s: State, j: nat)
    requires j < |s.jobs| && s.jobs[j].Get? && s.jobs[j].i < |s.trees| && s.count > 0 && CopiesAgree(remote, s)
    ensures var s', d := AfterGet(remote, s, j), s.trees[s.jobs[j].i].hash;
            || s'.local.trees == s.local.trees
            || (d in remote.trees && s'.local.trees == s.local.trees[d := remote.trees[d]]
                && (d in s.local.trees ==> s.local.trees[d] == remote.trees[d]))
  {
    hide Put, Readable, Children;
    assert CopyAgrees(remote, s, s.jobs[j]);
  }

  lemma GetReads(remote: Objects, s: State, j: nat, e: Entry)
    requires j < |s.jobs| && s.jobs[j].Get? && s.jobs[j].i < |s.trees| && s.count > 0 && CopiesAgree(remote, s)
    requires Readable(s.local.trees, e)
    ensures var s' := AfterGet(remote, s, j);
            Readable(s'.local.trees, e) && Children(s'.local.trees, e) == Children(s.local.trees, e)
  {
    hide Readable, Children, AfterGet, CopiesAgree;
    GetLocal(remote, s, j);
    var d := s.trees[s.jobs[j].i].hash;
    if d in remote.trees && (d in s.local.trees ==> s.local.trees[d] == remote.trees[d]) {
      GrowsReads(s.local.trees, d, remote.trees[d], e);
    }
  }

  lemma GetKids(remote: Objects, s: State, j: nat)
    requires j < |s.jobs| && s.jobs[j].Get? && s.jobs[j].i < |s.trees| && s.count > 0 && KidsRead(s)
    requires CopiesAgree(remote, s)
    ensures KidsRead(AfterGet(remote, s, j))
  {
    hide Readable, Children, Put, CopiesAgree;
    var s' := AfterGet(remote, s, j);
    forall k | k in s'.kids
      ensures k < |s'.trees| && Readable(s'.local.trees, s'.trees[k])
      ensures s'.kids[k] == Children(s'.local.trees, s'.trees[k])
    {
      if k in s.kids { GetReads(remote, s, j, s.trees[k]); }
    }
  }

  lemma GettingPut(jobs: seq<Job>, j: nat, now: seq<Job>, k: nat)
    requires j < |jobs| && Getting(jobs, k)
    ensures Getting(Put(jobs, j, now), k) || (jobs[j].Get? && jobs[j].i == k)
  {
    hide Put;
    PutIn(jobs, j, now);
  }

  lemma GettingNow(jobs: seq<Job>, j: nat, now: seq<Job>, k: nat)
    requires j < |jobs| && Getting(now, k)
    ensures Getting(Put(jobs, j, now), k)
  {
    hide Put;
    PutIn(jobs, j, now);
  }

  lemma GetOrderly(remote: Objects, s: State, j: nat)
    requires Orderly(s) && CopiesAgree(remote, s) && j < |s.jobs| && s.jobs[j].Get? && s.jobs[j].i < |s.trees|
    ensures Orderly(AfterGet(remote, s, j))
  {
    hide AfterGet, NowGet, KidsRead, Put, CopiesAgree, Getting;
    var s', now, i := AfterGet(remote, s, j), NowGet(remote, s, j), s.jobs[j].i;
    assert s.main.Loading?;
    GetChanges(remote, s, j);
    GetKids(remote, s, j);
    PutIn(s.jobs, j, now);
    PutLength(s.jobs, j, now);
    KidsStay(remote, s, j);
    forall k: nat | k < s.main.next ensures k in s'.kids || Getting(s'.jobs, k) || s'.failed {
      if k == i { if now != [] { GettingNow(s.jobs, j, now, k); } }
      else if Getting(s.jobs, k) { GettingPut(s.jobs, j, now, k); }
    }
    forall x | x in s'.jobs ensures LoadJob(s', x) { if x in now { NowLoads(remote, s, j, x); } }
  }

  lemma KidsStay(remote: Objects, s: State, j: nat)
    requires j < |s.jobs| && s.jobs[j].Get? && s.jobs[j].i < |s.trees| && s.count > 0
    ensures forall k :: k in s.kids ==> k in AfterGet(remote, s, j).kids
  {
    hide Put, Readable, Children;
  }

  lemma NowLoads(remote: Objects, s: State, j: nat, x: Job)
    requires j < |s.jobs| && s.jobs[j].Get? && s.jobs[j].i < |s.trees| && x in NowGet(remote, s, j)
    ensures x.Get? && x.i == s.jobs[j].i
  {}

  /** A store that has only grown by objects of another one. */
  ghost predicate Grown(from: Store, a: Store, b: Store) {
    forall d :: d in b ==> (d in a && b[d] == a[d]) || (d in from && b[d] == from[d])
  }

  lemma WorkGrows(remote: Objects, s: State, s': State, j: nat)
    requires j < |s.jobs| && Work(remote, s, s', j)
    ensures s'.trees == s.trees && (s.jobs[j].Get? ==> s.jobs[j].i < |s.trees|)
    ensures Grown(remote.trees, s.local.trees, s'.local.trees) && Grown(remote.files, s.local.files, s'.local.files)
  {
    hide Put, Readable, Children, AfterGet, NowGet, NowOther, Grown;
    if s.jobs[j].Get? {
      GetGrows(remote, s, s', j);
    } else {
      OtherGrows(remote, s, s', j);
    }
  }

  lemma GetGrows(remote: Objects, s: State, s': State, j: nat)
    requires j < |s.jobs| && s.jobs[j].Get? && Work(remote, s, s', j)
    ensures s'.trees == s.trees && s.jobs[j].i < |s.trees|
    ensures Grown(remote.trees, s.local.trees, s'.local.trees) && Grown(remote.files, s.local.files, s'.local.files)
  {
    hide Put, Readable, Children;
  }

  lemma OtherGrows(remote: Objects, s: State, s': State, j: nat)
    requires j < |s.jobs| && !s.jobs[j].Get? && Work(remote, s, s', j)
    ensures s'.trees == s.trees
    ensures Grown(remote.trees, s.local.trees, s'.local.trees) && Grown(remote.files, s.local.files, s'.local.files)
  {
    hide Put, Grown;
    OtherStores(remote, s, s', j);
    Same(remote.trees, s.local.trees);
    Same(remote.files, s.local.files);
    if s'.local != s.local { Gains(remote.files, s.local.files, s.jobs[j].d); }
  }

  lemma OtherStores(remote: Objects, s: State, s': State, j: nat)
    requires j < |s.jobs| && !s.jobs[j].Get? && Work(remote, s, s', j)
    ensures s'.trees == s.trees && s'.local.trees == s.local.trees
    ensures s'.local == s.local || (s.jobs[j].Fetch? && s.jobs[j].d in remote.files &&
              s'.local.files == s.local.files[s.jobs[j].d := remote.files[s.jobs[j].d]])
  {
    hide Put;
  }

  lemma Same(from: Store, a: Store)
    ensures Grown(from, a, a)
  {}

  lemma Gains(from: Store, a: Store, d: Digest)
    requires d in from
    ensures Grown(from, a, a[d := from[d]])
  {}

  lemma AgreesStill(remote: Objects, s: State, s': State, x: Job)
    requires CopyAgrees(remote, s, x) && s'.trees == s.trees
    requires Grown(remote.trees, s.local.trees, s'.local.trees) && Grown(remote.files, s.local.files, s'.local.files)
    ensures CopyAgrees(remote, s', x)
  {}

  /** A task copies only what it has not found. */
  lemma NowAgrees(remote: Objects, s: State, s': State, j: nat, x: Job)
    requires j < |s.jobs| && Work(remote, s, s', j) && x in Now(remote, s, j)
    ensures CopyAgrees(remote, s', x)
  {
    hide Put, Readable, Children;
  }

  function Now(remote: Objects, s: State, j: nat): seq<Job>
    requires j < |s.jobs| && (s.jobs[j].Get? ==> s.jobs[j].i < |s.trees|)
  {
    if s.jobs[j].Get? then NowGet(remote, s, j) else NowOther(s, j)
  }

  lemma WorkPuts(remote: Objects, s: State, s': State, j: nat)
    requires j < |s.jobs| && Work(remote, s, s', j)
    ensures s'.jobs == Put(s.jobs, j, Now(remote, s, j))
  {
    hide Put, AfterGet, NowGet, NowOther;
    if s.jobs[j].Get? {
      GetWorks(remote, s, s', j);
      GetChanges(remote, s, j);
    } else {
      OtherChanges(remote, s, s', j);
    }
  }

  lemma WorkAgrees(remote: Objects, s: State, s': State, j: nat)
    requires CopiesAgree(remote, s) && j < |s.jobs| && Work(remote, s, s', j)
    ensures CopiesAgree(remote, s')
  {
    hide Put, Work, Now, CopyAgrees, Grown;
    WorkGrows(remote, s, s', j);
    WorkPuts(remote, s, s', j);
    PutIn(s.jobs, j, Now(remote, s, j));
    forall k | 0 <= k < |s'.jobs| ensures CopyAgrees(remote, s', s'.jobs[k]) {
      var x := s'.jobs[k];
      assert x in s'.jobs;
      if x in Now(remote, s, j) {
        NowAgrees(remote, s, s', j, x);
      } else {
        var y :| 0 <= y < |s.jobs| && s.jobs[y] == x;
        AgreesStill(remote, s, s', s.jobs[y]);
      }
    }
  }

  /** What becomes of any other task. */
  function NowOther(s: State, j: nat): seq<Job>
    requires j < |s.jobs|
  {
    match s.jobs[j]
    case Walk(todo) => if todo == [] then [] else [Dispatch(todo[0], todo[1..])]
    case Dispatch(e, todo) => if NeedsFile(e) then [Walk(todo), Fetch(e.hash, false)] else [Walk(todo)]
    case Fetch(d, missing) => if missing || d in s.local.files then [] else [Fetch(d, true)]
    case _ => []
  }

  lemma PutLength(jobs: seq<Job>, j: nat, now: seq<Job>)
    requires j < |jobs|
    ensures |Put(jobs, j, now)| == |jobs| - 1 + |now|
  {}

  lemma OtherChanges(remote: Objects, s: State, s': State, j: nat)
    requires j < |s.jobs| && !s.jobs[j].Get? && Work(remote, s, s', j)
    ensures var now := NowOther(s, j);
            && s'.jobs == Put(s.jobs, j, now) && s'.count == s.count - 1 + |now| && s'.main == s.main &&
               s'.trees == s.trees
            && s'.kids == s.kids && s'.local.trees == s.local.trees && forall x :: x in now ==> !x.Get?
  {
    hide Put, Readable, Children, AfterGet;
    match s.jobs[j]
    case Walk(_) => {}
    case Dispatch(_, _) => {}
    case Fetch(_, _) => {}
    case Get(_, _) => {}
  }

  lemma WorkOrderly(remote: Objects, s: State, s': State, j: nat)
    requires Orderly(s) && CopiesAgree(remote, s) && j < |s.jobs| && Work(remote, s, s', j)
    ensures Orderly(s')
  {
    hide Readable, Children, Put, Work, CopiesAgree, Getting, NowOther;
    if s.jobs[j].Get? {
      GetWorks(remote, s, s', j);
      GetOrderly(remote, s, j);
    } else {
      assert s.main.Walking?;
      OtherChanges(remote, s, s', j);
      PutIn(s.jobs, j, NowOther(s, j));
      PutLength(s.jobs, j, NowOther(s, j));
      forall k | 0 <= k < |s'.jobs| ensures !s'.jobs[k].Get? { assert s'.jobs[k] in s'.jobs; }
    }
  }

  lemma GetWorks(remote: Objects, s: State, s': State, j: nat)
    requires j < |s.jobs| && s.jobs[j].Get? && Work(remote, s, s', j)
    ensures s.count > 0 && s.jobs[j].i < |s.trees| && s' == AfterGet(remote, s, j)
  {}

  lemma StepOrderly(remote: Objects, s: State, s': State)
    requires Orderly(s) && CopiesAgree(remote, s) && Step(remote, s, s')
    ensures Orderly(s') && CopiesAgree(remote, s')
  {
    hide Readable, Children, Work;
    if EnqueueGet(s, s') {
      var k := s.main.next;
      forall i: nat | i < k + 1 ensures i in s'.kids || Getting(s'.jobs, i) || s'.failed {
        if i == k { assert s'.jobs[|s.jobs|] == Get(i, Look); }
      }
      forall y | 0 <= y < |s'.jobs| ensures CopyAgrees(remote, s', s'.jobs[y]) {
        if y < |s.jobs| { assert CopyAgrees(remote, s, s.jobs[y]); }
      }
    } else if AllLoaded(s, s') {
      assert s.jobs == [];
    } else if EnqueueWalk(s, s') {
      forall y | 0 <= y < |s'.jobs| ensures CopyAgrees(remote, s', s'.jobs[y]) {
        if y < |s.jobs| { assert CopyAgrees(remote, s, s.jobs[y]); }
      }
    } else if AllWalked(s, s') {
    } else {
      var j :| 0 <= j < |s.jobs| && Work(remote, s, s', j);
      WorkOrderly(remote, s, s', j);
      WorkAgrees(remote, s, s', j);
    }
  }

  // ---------------------------------------------------------------- nothing is left out

  ghost predicate Dispatching(jobs: seq<Job>, e: Entry) { exists x :: x in jobs && x.Dispatch? && x.e == e }

  /** c is in the index or a task is about to append it. */
  ghost predicate Coming(s: State, c: Entry) {
    c in s.index || exists x :: x in s.jobs && (x.Walk? || x.Dispatch?) && c in x.todo
  }

  /** The directories of the round whose children no task has taken up yet. */
  function Waiting(s: State): seq<Entry> {
    match s.main
    case Loading(_) => s.trees
    case Walking(next) => if next <= |s.trees| then s.trees[next..] else []
    case _ => []
  }

  /** The tree object of d is in the cache and all its children are in the index or on their way. */
  ghost predicate Taken(s: State, d: Entry) {
    Readable(s.local.trees, d) && forall c :: c in Children(s.local.trees, d) ==> Coming(s, c)
  }

  ghost predicate DirCovered(s: State, d: Entry) {
    d in Waiting(s) || d in s.found || Dispatching(s.jobs, d) || Taken(s, d)
  }

  predicate Fetching(jobs: seq<Job>, d: Digest) { Fetch(d, false) in jobs || Fetch(d, true) in jobs }

  ghost predicate FileCovered(s: State, e: Entry) {
    e.hash in s.local.files || Fetching(s.jobs, e.hash) || Dispatching(s.jobs, e) || s.failed
  }

  /** Whatever is in the index is taken care of. */
  ghost predicate Covered(root: Entry, s: State) {
    && (forall d :: (d == root || d in s.index) && d.kind == Directory ==> DirCovered(s, d))
    && (forall e :: e in s.index && NeedsFile(e) ==> FileCovered(s, e))
  }

  lemma PutKeeps(jobs: seq<Job>, j: nat, now: seq<Job>)
    requires j < |jobs|
    ensures forall e :: Dispatching(jobs, e) ==>
              Dispatching(Put(jobs, j, now), e) || (jobs[j].Dispatch? && jobs[j].e == e)
  {
    hide Put;
    PutIn(jobs, j, now);
    forall e | Dispatching(jobs, e)
      ensures Dispatching(Put(jobs, j, now), e) || (jobs[j].Dispatch? && jobs[j].e == e)
    {
      var x :| x in jobs && x.Dispatch? && x.e == e;
      if x != jobs[j] { assert x in Put(jobs, j, now); }
    }
  }

  /** A task that goes on with at least the children it had, or puts one in the index, loses none. */
  lemma ComingKeeps(s: State, s': State, j: nat, now: seq<Job>, c: Entry)
    requires j < |s.jobs| && s'.jobs == Put(s.jobs, j, now) && s.index <= s'.index && Coming(s, c)
    requires (s.jobs[j].Walk? || s.jobs[j].Dispatch?) && c in s.jobs[j].todo ==> Coming(s', c)
    ensures Coming(s', c)
  {
    hide Put;
    PutIn(s.jobs, j, now);
    if c !in s.index {
      var x :| x in s.jobs && (x.Walk? || x.Dispatch?) && c in x.todo;
      if x != s.jobs[j] { assert x in s'.jobs; }
    } else {
      var k :| 0 <= k < |s.index| && s.index[k] == c;
      assert s'.index[k] == c;
    }
  }

  lemma DirKeeps(s: State, s': State, d: Entry)
    requires DirCovered(s, d) && Waiting(s') == Waiting(s) && s.found <= s'.found
    requires Dispatching(s.jobs, d) ==> DirCovered(s', d)
    requires Readable(s.local.trees, d) ==>
               Readable(s'.local.trees, d) && Children(s'.local.trees, d) == Children(s.local.trees, d)
    requires forall c :: Coming(s, c) ==> Coming(s', c)
    ensures DirCovered(s', d)
  {
    hide Readable, Children, Dispatching, Coming, Waiting;
    if d in s.found {
      var k :| 0 <= k < |s.found| && s.found[k] == d;
      assert s'.found[k] == d;
    }
  }

  lemma WalkCovered(root: Entry, s: State, j: nat)
    requires Covered(root, s) && j < |s.jobs| && s.jobs[j].Walk? && s.count > 0
    ensures Covered(root, AfterWalk(s, j))
  {
    var s', todo := AfterWalk(s, j), s.jobs[j].todo;
    hide Readable, Children, Put, Waiting;
    var now := if todo == [] then [] else [Dispatch(todo[0], todo[1..])];
    PutIn(s.jobs, j, now);
    PutKeeps(s.jobs, j, now);
    if todo != [] {
      assert Dispatch(todo[0], todo[1..]) in s'.jobs;
      assert s'.index[|s.index|] == todo[0] && todo == [todo[0]] + todo[1..];
    }
    assert forall c :: c in todo ==> Coming(s', c);
    forall c | Coming(s, c) ensures Coming(s', c) { ComingKeeps(s, s', j, now, c); }
    SameWaiting(s, s');
    forall d | (d == root || d in s'.index) && d.kind == Directory ensures DirCovered(s', d) {
      if d == root || d in s.index { DirKeeps(s, s', d); } else { assert d == todo[0]; }
    }
    forall e | e in s'.index && NeedsFile(e) ensures FileCovered(s', e) {
      if e !in s.index { assert e == todo[0]; }
    }
  }

  lemma SameWaiting(s: State, s': State)
    requires s.main == s'.main && s.trees == s'.trees
    ensures Waiting(s) == Waiting(s')
  {}

  lemma DispatchCovered(root: Entry, s: State, j: nat)
    requires Covered(root, s) && j < |s.jobs| && s.jobs[j].Dispatch? && s.count > 0
    ensures Covered(root, AfterDispatch(s, j))
  {
    var s', x := AfterDispatch(s, j), s.jobs[j];
    hide Readable, Children, Put, Waiting;
    var now := if NeedsFile(x.e) then [Walk(x.todo), Fetch(x.e.hash, false)] else [Walk(x.todo)];
    PutIn(s.jobs, j, now);
    PutKeeps(s.jobs, j, now);
    assert Walk(x.todo) in s'.jobs;
    assert NeedsFile(x.e) ==> Fetch(x.e.hash, false) in now;
    forall c | Coming(s, c) ensures Coming(s', c) { ComingKeeps(s, s', j, now, c); }
    SameWaiting(s, s');
    forall d | (d == root || d in s'.index) && d.kind == Directory ensures DirCovered(s', d) {
      if d == x.e { assert s'.found[|s.found|] == d; }
      DirKeeps(s, s', d);
    }
  }

  lemma FetchCovered(remote: Objects, root: Entry, s: State, j: nat)
    requires Covered(root, s) && j < |s.jobs| && s.jobs[j].Fetch? && s.count > 0
    ensures Covered(root, AfterFetch(remote, s, j))
  {
    var s', now := AfterFetch(remote, s, j), NowOther(s, j);
    hide Readable, Children, Put, Waiting;
    PutIn(s.jobs, j, now);
    PutKeeps(s.jobs, j, now);
    forall c | Coming(s, c) ensures Coming(s', c) { ComingKeeps(s, s', j, now, c); }
    SameWaiting(s, s');
    forall d | (d == root || d in s'.index) && d.kind == Directory ensures DirCovered(s', d) {
      DirKeeps(s, s', d);
    }
    forall e | e in s'.index && NeedsFile(e) ensures FileCovered(s', e) { assert FileCovered(s, e); }
  }

  lemma GetCovered(remote: Objects, root: Entry, s: State, j: nat)
    requires Covered(root, s) && CopiesAgree(remote, s)
    requires j < |s.jobs| && s.jobs[j].Get? && s.jobs[j].i < |s.trees| && s.count > 0
    ensures Covered(root, AfterGet(remote, s, j))
  {
    hide Readable, Children, Put, Waiting, AfterGet, NowGet, CopiesAgree;
    var s', now := AfterGet(remote, s, j), NowGet(remote, s, j);
    GetChanges(remote, s, j);
    PutIn(s.jobs, j, now);
    PutKeeps(s.jobs, j, now);
    forall c | Coming(s, c) ensures Coming(s', c) { ComingKeeps(s, s', j, now, c); }
    SameWaiting(s, s');
    forall d | (d == root || d in s'.index) && d.kind == Directory ensures DirCovered(s', d) {
      if Readable(s.local.trees, d) { GetReads(remote, s, j, d); }
      DirKeeps(s, s', d);
    }
    forall e | e in s'.index && NeedsFile(e) ensures FileCovered(s', e) { assert FileCovered(s, e); }
  }

  lemma WorkCovered(remote: Objects, root: Entry, s: State, s': State, j: nat)
    requires Covered(root, s) && CopiesAgree(remote, s) && j < |s.jobs| && Work(remote, s, s', j)
    ensures Covered(root, s')
  {
    hide CopiesAgree, Covered, AfterGet, AfterWalk, AfterDispatch, AfterFetch;
    match s.jobs[j]
    case Get(_, _) => GetCovered(remote, root, s, j);
    case Walk(_) => WalkCovered(root, s, j);
    case Dispatch(_, _) => DispatchCovered(root, s, j);
    case Fetch(_, _) => FetchCovered(remote, root, s, j);
  }

  /** The main thread hands the children of the next directory to a task. */
  lemma EnqueueWalkCovered(root: Entry, s: State, s': State)
    requires Orderly(s) && Covered(root, s) && EnqueueWalk(s, s')
    ensures Covered(root, s')
  {
    hide Readable, Children;
    var k := s.main.next;
    assert Waiting(s) == [s.trees[k]] + Waiting(s');
    assert s'.jobs[|s.jobs|] == Walk(s.kids[k]);
    assert forall x :: x in s.jobs ==> x in s'.jobs;
    forall c | Coming(s, c) ensures Coming(s', c) {}
    assert Taken(s', s.trees[k]);
    forall d | (d == root || d in s'.index) && d.kind == Directory ensures DirCovered(s', d) {
      assert DirCovered(s, d);
    }
    forall e | e in s'.index && NeedsFile(e) ensures FileCovered(s', e) { assert FileCovered(s, e); }
  }

  lemma StepCovered(remote: Objects, root: Entry, s: State, s': State)
    requires Orderly(s) && CopiesAgree(remote, s) && Covered(root, s) && Step(remote, s, s') && s'.main != Threw
    ensures Covered(root, s')
  {
    hide Readable, Children, Work;
    if EnqueueGet(s, s') {
      assert forall x :: x in s.jobs ==> x in s'.jobs;
      forall d | (d == root || d in s'.index) && d.kind == Directory ensures DirCovered(s', d) {
        assert DirCovered(s, d);
      }
      forall e | e in s'.index && NeedsFile(e) ensures FileCovered(s', e) { assert FileCovered(s, e); }
    } else if AllLoaded(s, s') {
      assert Waiting(s') == Waiting(s);
    } else if EnqueueWalk(s, s') {
      EnqueueWalkCovered(root, s, s');
    } else if AllWalked(s, s') {
      assert s.jobs == [];
    } else {
      var j :| 0 <= j < |s.jobs| && Work(remote, s, s', j);
      WorkCovered(remote, root, s, s', j);
    }
  }

  lemma {:induction false} RunCovered(remote: Objects, root: Entry, local: Objects, run: seq<State>, i: nat)
    requires Run(remote, root, local, run) && i < |run|
    ensures Orderly(run[i]) && CopiesAgree(remote, run[i]) && (run[i].main != Threw ==> Covered(root, run[i]))
  {
    hide Orderly, Covered, Step, CopiesAgree;
    if i == 0 {
      StartCovered(remote, root, local);
    } else {
      RunCovered(remote, root, local, run, i - 1);
      assert Step(remote, run[i - 1], run[i - 1 + 1]);
      StepOrderly(remote, run[i - 1], run[i]);
      if run[i - 1].main == Threw { ThrewStays(remote, run[i - 1], run[i]); }
      if run[i].main != Threw { StepCovered(remote, root, run[i - 1], run[i]); }
    }
  }

  lemma StartCovered(remote: Objects, root: Entry, local: Objects)
    ensures Orderly(Start(root, local)) && CopiesAgree(remote, Start(root, local)) && Covered(root, Start(root, local))
  {
    assert root in Waiting(Start(root, local));
  }

  lemma ThrewStays(remote: Objects, s: State, s': State)
    requires Orderly(s) && Step(remote, s, s')
    ensures s.main != Threw
  {}

  /** However the tasks interleave and whatever the cache and the remote hold: once pull returns, no
      task is left, the tree object of the root and of every directory in the index is in the cache,
      everything that these objects describe is in the index, and so is every file in the cache. */
  lemma PullComplete(remote: Objects, root: Entry, local: Objects, run: seq<State>)
    requires Run(remote, root, local, run) && root.kind == Directory && run[|run| - 1].main == Returned
    ensures var s := run[|run| - 1];
            && s.jobs == [] && s.count == 0
            && (forall d :: (d == root || d in s.index) && d.kind == Directory ==>
                  Readable(s.local.trees, d) && forall c :: c in Children(s.local.trees, d) ==> c in s.index)
            && (forall e :: e in s.index && e.kind != Directory && e.kind != Symlink ==> e.hash in s.local.files)
            && (forall n, x :: x in Reach(s.local.trees, root, n) ==> x in s.index)
  {
    hide Readable, Children, Step, Reach;
    RunCovered(remote, root, local, run, |run| - 1);
    var s := run[|run| - 1];
    assert s.jobs == [] && s.found == [] && Waiting(s) == [];
    forall d | (d == root || d in s.index) && d.kind == Directory
      ensures Readable(s.local.trees, d) && forall c :: c in Children(s.local.trees, d) ==> c in s.index
    {
      assert DirCovered(s, d);
    }
    forall e | e in s.index && e.kind != Directory && e.kind != Symlink ensures e.hash in s.local.files {
      assert NeedsFile(e) && FileCovered(s, e);
    }
    forall n, x | x in Reach(s.local.trees, root, n) ensures x in s.index {
      ReachListed(s.local.trees, root, s.index, root, n, x);
    }
  }

  /** A list that has the children of the root and of all its directories has everything. */
  lemma {:induction false} ReachListed(src: Store, root: Entry, index: seq<Entry>, d: Entry, n: nat, x: Entry)
    requires forall d :: (d == root || d in index) && d.kind == Directory ==>
               Readable(src, d) && forall c :: c in Children(src, d) ==> c in index
    requires (d == root || d in index) && x in Reach(src, d, n)
    ensures x in index
    decreases n, 0
  {
    hide Readable, Children, ReachAll;
    if d.kind == Directory && n > 0 { AllListed(src, root, index, Children(src, d), n - 1, x); }
  }

  lemma {:induction false} AllListed(src: Store, root: Entry, index: seq<Entry>, es: seq<Entry>, n: nat, x: Entry)
    requires forall d :: (d == root || d in index) && d.kind == Directory ==>
               Readable(src, d) && forall c :: c in Children(src, d) ==> c in index
    requires (forall e :: e in es ==> e in index) && x in ReachAll(src, es, n)
    ensures x in index
    decreases n, |es| + 1
  {
    hide Readable, Children, Reach;
    if x == es[0] {
    } else if x in Reach(src, es[0], n) {
      ReachListed(src, root, index, es[0], n, x);
    } else {
      AllListed(src, root, index, es[1..], n, x);
    }
  }
}
