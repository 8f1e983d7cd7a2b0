/** cache::index_from_tree: reads a tree from the cache, one level of directories at a time with
    parallel tasks. */
module Reading {
  import opened Entries
  import opened Codec
  import opened Trees

  // ---------------------------------------------------------------- index_from_tree

  /** A task of the pool: it reads the tree object of a directory, then appends the children. */
  datatype Job = Load(dir: Entry) | Walk(todo: seq<Entry>)

  /** The main thread enqueues tasks for the directories of this round (it waits when it has enqueued
      them all), has returned, or has thrown. */
  datatype Main = Round(next: nat) | Returned | Threw

  /** `count` is the wait group's, `failed` its exception. */
  datatype State = State(main: Main, trees: seq<Entry>, jobs: seq<Job>, count: nat, failed: bool, found: seq<Entry>,
                         index: seq<Entry>)

  function Start(root: Entry): State { State(Round(0), [root], [], 0, false, [], []) }

  /** Adds one to the wait group and hands the next directory to the pool. */
  ghost predicate Enqueue(s: State, s': State) {
    s.main.Round? && s.main.next < |s.trees|
    && s' == s.(main := Round(s.main.next + 1), jobs := s.jobs + [Load(s.trees[s.main.next])], count := s.count + 1)
  }

  /** The wait is over once the count is zero; a recorded exception is thrown; the directories found
      are the next round. */
  ghost predicate Proceed(s: State, s': State) {
    s.main.Round? && s.main.next == |s.trees| && s.count == 0
    && s' == if s.failed then s.(main := Threw)
             else if s.found == [] then s.(main := Returned, trees := [])
             else s.(main := Round(0), trees := s.found, found := [])
  }

  /** Task j reads its tree object, appends a child or ends. */
  function AfterWork(src: Store, s: State, j: nat): State
    requires j < |s.jobs| && s.count > 0
  {
    var before, after := s.jobs[..j], s.jobs[j + 1..];
    match s.jobs[j]
    case Load(d) =>
      if Readable(src, d) then s.(jobs := before + [Walk(Children(src, d))] + after)
      else s.(jobs := before + after, count := s.count - 1, failed := true)
    case Walk(todo) =>
      if todo == [] then s.(jobs := before + after, count := s.count - 1)
      else s.(jobs := before + [Walk(todo[1..])] + after, index := s.index + [todo[0]],
              found := s.found + if todo[0].kind == Directory then [todo[0]] else [])
  }

  ghost predicate Work(src: Store, s: State, s': State, j: nat)
    requires j < |s.jobs|
  {
    s.count > 0 && s' == AfterWork(src, s, j)
  }

  ghost predicate Step(src: Store, s: State, s': State) {
    Enqueue(s, s') || Proceed(s, s') || exists j :: 0 <= j < |s.jobs| && Work(src, s, s', j)
  }

  // ---------------------------------------------------------------- what every step keeps

  ghost function Pend(src: Store, j: Job, n: nat): multiset<Entry> {
    match j
    case Load(d) => Reach(src, d, n)
    case Walk(todo) => ReachAll(src, todo, n)
  }

  ghost function Pending(src: Store, jobs: seq<Job>, n: nat): multiset<Entry> {
    if jobs == [] then multiset{} else Pend(src, jobs[0], n) + Pending(src, jobs[1..], n)
  }

  lemma {:induction false} PendingAppend(src: Store, a: seq<Job>, b: seq<Job>, n: nat)
    ensures Pending(src, a + b, n) == Pending(src, a, n) + Pending(src, b, n)
  {
    hide Pend;
    if a == [] { assert a + b == b; } else { assert (a + b)[1..] == a[1..] + b; PendingAppend(src, a[1..], b, n); }
  }

  lemma PendingOne(src: Store, j: Job, n: nat)
    ensures Pending(src, [j], n) == Pend(src, j, n)
  {
    hide Pend;
    assert [j][1..] == [];
  }

  /** The list of tasks around task j. */
  lemma PendingAt(src: Store, jobs: seq<Job>, j: nat, x: Job, n: nat)
    requires j < |jobs|
    ensures Pending(src, jobs, n) == Pending(src, jobs[..j] + jobs[j + 1..], n) + Pend(src, jobs[j], n)
    ensures Pending(src, jobs[..j] + [x] + jobs[j + 1..], n) ==
              Pending(src, jobs[..j] + jobs[j + 1..], n) + Pend(src, x, n)
  {
    hide Pend, Pending;
    var a, b := jobs[..j], jobs[j + 1..];
    assert jobs == a + [jobs[j]] + b;
    PendingAppend(src, a, b, n);
    PendingAppend(src, a, [jobs[j]], n);
    PendingAppend(src, a + [jobs[j]], b, n);
    PendingAppend(src, a, [x], n);
    PendingAppend(src, a + [x], b, n);
    PendingOne(src, jobs[j], n);
    PendingOne(src, x, n);
  }

  predicate JobOk(src: Store, j: Job, n: nat) {
    match j
    case Load(d) => d.kind == Directory && Complete(src, d, n)
    case Walk(todo) => AllComplete(src, todo, n)
  }

  predicate JobsOk(src: Store, jobs: seq<Job>, n: nat) {
    forall j :: 0 <= j < |jobs| ==> JobOk(src, jobs[j], n)
  }

  /** The directories the main thread has not enqueued yet. */
  function Waiting(s: State): seq<Entry> {
    if s.main.Round? && s.main.next <= |s.trees| then s.trees[s.main.next..] else []
  }

  /** The wait group counts the unfinished tasks; what has been appended and what is still to come
      are together everything below the root. */
  ghost predicate Good(src: Store, root: Entry, n: nat, s: State) {
    && s.count == |s.jobs| && !s.failed && s.main != Threw
    && (s.main.Round? ==> s.main.next <= |s.trees|)
    && (s.main == Returned ==> s.jobs == [] && s.found == [])
    && DirsOk(src, Waiting(s), n) && DirsOk(src, s.found, n)
    && JobsOk(src, s.jobs, n)
    && multiset(s.index) + Pending(src, s.jobs, n) + BelowDirs(src, Waiting(s), n) + BelowDirs(src, s.found, n) ==
         Reach(src, root, n)
  }

  lemma StartGood(src: Store, root: Entry, n: nat)
    requires Complete(src, root, n) && root.kind == Directory
    ensures Good(src, root, n, Start(root))
  {
    hide Reach, Complete;
    BelowOne(src, root, n);
  }

  lemma JobsGrow(src: Store, jobs: seq<Job>, d: Entry, n: nat)
    requires JobsOk(src, jobs, n) && d.kind == Directory && Complete(src, d, n)
    ensures JobsOk(src, jobs + [Load(d)], n)
  {
    hide Complete, AllComplete;
  }

  lemma PendLoad(src: Store, d: Entry, n: nat)
    ensures Pend(src, Load(d), n) == Reach(src, d, n)
  {}

  /** The directory enqueued next is one that waits; the others still do. */
  lemma WaitingNext(src: Store, s: State, s': State, n: nat)
    requires Enqueue(s, s') && DirsOk(src, Waiting(s), n)
    ensures var d := s.trees[s.main.next];
            && Waiting(s) == [d] + Waiting(s') && DirsOk(src, Waiting(s'), n)
            && d.kind == Directory && Complete(src, d, n)
  {
    hide Complete;
    var was, now := Waiting(s), Waiting(s');
    assert was[0] == s.trees[s.main.next] && was == [was[0]] + now;
    forall i | 0 <= i < |now| ensures now[i].kind == Directory && Complete(src, now[i], n) {
      assert now[i] == was[i + 1];
    }
  }

  lemma EnqueueKeeps(src: Store, root: Entry, n: nat, s: State, s': State)
    requires Good(src, root, n, s) && Enqueue(s, s')
    ensures Good(src, root, n, s')
  {
    hide Reach, ReachAll, Complete, BelowDirs, Pending, JobsOk, JobOk, Pend, DirsOk, Waiting;
    var d := s.trees[s.main.next];
    WaitingNext(src, s, s', n);
    JobsGrow(src, s.jobs, d, n);
    PendLoad(src, d, n);
    BelowAppend(src, [d], Waiting(s'), n);
    BelowOne(src, d, n);
    PendingAppend(src, s.jobs, [Load(d)], n);
    PendingOne(src, Load(d), n);
    Handed(multiset(s.index) + Pending(src, s.jobs, n), Reach(src, d, n), BelowDirs(src, Waiting(s'), n));
  }

  lemma Handed(a: multiset<Entry>, b: multiset<Entry>, c: multiset<Entry>)
    ensures (a + b) + c == a + (b + c)
  {}

  lemma ProceedKeeps(src: Store, root: Entry, n: nat, s: State, s': State)
    requires Good(src, root, n, s) && Proceed(s, s')
    ensures Good(src, root, n, s')
  {
    hide Reach, ReachAll, Complete;
    assert Waiting(s) == [];
    assert Waiting(s') == s.found;
  }

  lemma JobsMove(src: Store, jobs: seq<Job>, j: nat, x: Job, n: nat)
    requires JobsOk(src, jobs, n) && j < |jobs| && JobOk(src, x, n)
    ensures JobsOk(src, jobs[..j] + jobs[j + 1..], n) && JobsOk(src, jobs[..j] + [x] + jobs[j + 1..], n)
  {
    hide JobOk;
  }

  lemma JobAt(src: Store, jobs: seq<Job>, j: nat, n: nat)
    requires JobsOk(src, jobs, n) && j < |jobs|
    ensures JobOk(src, jobs[j], n)
  {
    hide JobOk;
  }

  lemma LoadKeeps(src: Store, root: Entry, n: nat, s: State, s': State, j: nat)
    requires Good(src, root, n, s) && j < |s.jobs| && s.jobs[j].Load? && Work(src, s, s', j)
    ensures Good(src, root, n, s')
  {
    hide Reach, ReachAll, Complete, DecodeTree, Children, Readable, BelowDirs, Pending, DirsOk, AllComplete, JobsOk;
    var d := s.jobs[j].dir;
    JobAt(src, s.jobs, j, n);
    assert Waiting(s') == Waiting(s);
    Unfold(src, d, n);
    JobsMove(src, s.jobs, j, Walk(Children(src, d)), n);
    PendingAt(src, s.jobs, j, Walk(Children(src, d)), n);
  }

  lemma WalkKeeps(src: Store, root: Entry, n: nat, s: State, s': State, j: nat)
    requires Good(src, root, n, s) && j < |s.jobs| && s.jobs[j].Walk? && Work(src, s, s', j)
    ensures Good(src, root, n, s')
  {
    hide Reach, ReachAll, Complete, DecodeTree, Children, Readable, BelowDirs, Pending, DirsOk, AllComplete, JobsOk;
    var todo := s.jobs[j].todo;
    JobAt(src, s.jobs, j, n);
    assert Waiting(s') == Waiting(s);
    WalkStep(src, todo, s.found, n);
    JobsMove(src, s.jobs, j, Walk(if todo == [] then [] else todo[1..]), n);
    if todo == [] {
      PendingAt(src, s.jobs, j, s.jobs[j], n);
    } else {
      PendingAt(src, s.jobs, j, Walk(todo[1..]), n);
      assert multiset(s'.index) == multiset(s.index) + multiset{todo[0]};
      Regroup(Pending(src, s.jobs[..j] + s.jobs[j + 1..], n), ReachAll(src, todo, n), BelowDirs(src, s.found, n),
              multiset{todo[0]}, ReachAll(src, todo[1..], n), BelowDirs(src, s'.found, n));
      Moved(multiset(s.index), Pending(src, s.jobs, n), BelowDirs(src, Waiting(s), n), BelowDirs(src, s.found, n),
            multiset{todo[0]}, Pending(src, s'.jobs, n), BelowDirs(src, s'.found, n));
    }
  }

  lemma StepKeeps(src: Store, root: Entry, n: nat, s: State, s': State)
    requires Good(src, root, n, s) && Step(src, s, s')
    ensures Good(src, root, n, s')
  {
    hide Good, Enqueue, Proceed, Work;
    if Enqueue(s, s') {
      EnqueueKeeps(src, root, n, s, s');
    } else if Proceed(s, s') {
      ProceedKeeps(src, root, n, s, s');
    } else {
      var j :| 0 <= j < |s.jobs| && Work(src, s, s', j);
      if s.jobs[j].Load? { LoadKeeps(src, root, n, s, s', j); } else { WalkKeeps(src, root, n, s, s', j); }
    }
  }

  // ---------------------------------------------------------------- runs

  ghost predicate Run(src: Store, root: Entry, run: seq<State>) {
    run != [] && run[0] == Start(root) && forall i :: 0 <= i < |run| - 1 ==> Step(src, run[i], run[i + 1])
  }

  lemma {:induction false} RunGood(src: Store, root: Entry, n: nat, run: seq<State>, i: nat)
    requires Run(src, root, run) && Complete(src, root, n) && root.kind == Directory && i < |run|
    ensures Good(src, root, n, run[i])
  {
    hide Good, Step, Complete;
    if i == 0 {
      StartGood(src, root, n);
    } else {
      RunGood(src, root, n, run, i - 1);
      assert Step(src, run[i - 1], run[i - 1 + 1]);
      StepKeeps(src, root, n, run[i - 1], run[i]);
    }
  }

  /** As long as index_from_tree has not returned, something can happen. */
  lemma Progress(src: Store, root: Entry, n: nat, s: State)
    requires Good(src, root, n, s) && s.main != Returned
    ensures exists s' :: Step(src, s, s')
  {
    hide Reach, ReachAll, Complete, Children, Readable, BelowDirs, Pending, DecodeTree;
    if s.main.next < |s.trees| {
      var s1 := s.(main := Round(s.main.next + 1), jobs := s.jobs + [Load(s.trees[s.main.next])], count := s.count + 1);
      assert Enqueue(s, s1);
      assert Step(src, s, s1);
    } else if s.jobs == [] {
      var s1 := if s.found == [] then s.(main := Returned, trees := [])
                else s.(main := Round(0), trees := s.found, found := []);
      assert Proceed(s, s1);
      assert Step(src, s, s1);
    } else {
      var s1 := AfterWork(src, s, 0);
      assert Work(src, s, s1, 0);
      assert Step(src, s, s1);
    }
  }

  function JobWeight(j: Job): nat { if j.Load? then 2 else 1 }

  function Weight(jobs: seq<Job>): nat {
    if jobs == [] then 0 else JobWeight(jobs[0]) + Weight(jobs[1..])
  }

  lemma {:induction false} WeightAppend(a: seq<Job>, b: seq<Job>)
    ensures Weight(a + b) == Weight(a) + Weight(b)
  {
    if a == [] { assert a + b == b; } else { assert (a + b)[1..] == a[1..] + b; WeightAppend(a[1..], b); }
  }

  lemma WeightAt(jobs: seq<Job>, j: nat, x: Job)
    requires j < |jobs|
    ensures Weight(jobs) == Weight(jobs[..j] + jobs[j + 1..]) + JobWeight(jobs[j])
    ensures Weight(jobs[..j] + [x] + jobs[j + 1..]) == Weight(jobs[..j] + jobs[j + 1..]) + JobWeight(x)
  {
    hide Weight, JobWeight;
    var a, b := jobs[..j], jobs[j + 1..];
    assert jobs == a + [jobs[j]] + b;
    WeightOne(jobs[j]);
    WeightOne(x);
    WeightAppend(a, b);
    WeightAppend(a, [jobs[j]]);
    WeightAppend(a + [jobs[j]], b);
    WeightAppend(a, [x]);
    WeightAppend(a + [x], b);
  }

  /** An upper bound for the number of steps left. */
  ghost function Fuel(src: Store, root: Entry, n: nat, s: State): int {
    5 * (|Reach(src, root, n)| - |s.index|) + 4 * |s.found| + 3 * |Waiting(s)| + Weight(s.jobs) +
        if s.main.Round? then 1 else 0
  }

  lemma StepShrinks(src: Store, root: Entry, n: nat, s: State, s': State)
    requires Good(src, root, n, s) && Step(src, s, s')
    ensures 0 <= Fuel(src, root, n, s') < Fuel(src, root, n, s)
  {
    hide Good, Enqueue, Proceed, Work, Fuel;
    StepKeeps(src, root, n, s, s');
    FuelPositive(src, root, n, s');
    if Enqueue(s, s') {
      EnqueueShrinks(src, root, n, s, s');
    } else if Proceed(s, s') {
      ProceedShrinks(src, root, n, s, s');
    } else {
      var j :| 0 <= j < |s.jobs| && Work(src, s, s', j);
      WorkShrinks(src, root, n, s, s', j);
    }
  }

  lemma FuelPositive(src: Store, root: Entry, n: nat, s: State)
    requires Good(src, root, n, s)
    ensures Fuel(src, root, n, s) >= 0
  {
    hide Good;
    IndexBound(src, root, n, s);
  }

  lemma EnqueueShrinks(src: Store, root: Entry, n: nat, s: State, s': State)
    requires Enqueue(s, s')
    ensures Fuel(src, root, n, s') < Fuel(src, root, n, s)
  {
    hide Reach, Weight;
    assert Waiting(s) == [s.trees[s.main.next]] + Waiting(s');
    WeightAppend(s.jobs, [Load(s.trees[s.main.next])]);
    WeightOne(Load(s.trees[s.main.next]));
  }

  lemma ProceedShrinks(src: Store, root: Entry, n: nat, s: State, s': State)
    requires Good(src, root, n, s) && Proceed(s, s')
    ensures Fuel(src, root, n, s') < Fuel(src, root, n, s)
  {
    hide Reach, Weight, Pending, BelowDirs, JobsOk, DirsOk;
  }

  lemma WeightOne(j: Job)
    ensures Weight([j]) == JobWeight(j)
  {
    assert [j][1..] == [];
  }

  lemma WorkShrinks(src: Store, root: Entry, n: nat, s: State, s': State, j: nat)
    requires j < |s.jobs| && Work(src, s, s', j)
    ensures Fuel(src, root, n, s') < Fuel(src, root, n, s)
  {
    hide Children, Readable, Weight, Reach;
    match s.jobs[j]
    case Load(d) => WeightAt(s.jobs, j, Walk(if Readable(src, d) then Children(src, d) else []));
    case Walk(todo) => WeightAt(s.jobs, j, Walk(if todo == [] then [] else todo[1..]));
  }

  lemma IndexBound(src: Store, root: Entry, n: nat, s: State)
    requires Good(src, root, n, s)
    ensures |s.index| <= |Reach(src, root, n)|
  {
    hide Reach, ReachAll, Complete, Children, Readable, BelowDirs, Pending, DecodeTree, JobOk, DirsOk;
    assert |multiset(s.index)| == |s.index|;
  }

  lemma {:induction false} RunBound(src: Store, root: Entry, n: nat, run: seq<State>, i: nat)
    requires Run(src, root, run) && Complete(src, root, n) && root.kind == Directory && i < |run|
    ensures i + Fuel(src, root, n, run[i]) <= Fuel(src, root, n, run[0]) && Fuel(src, root, n, run[i]) >= 0
  {
    hide Good, Step, Complete, Fuel;
    if i == 0 {
      FuelStart(src, root, n);
    } else {
      RunBound(src, root, n, run, i - 1);
      RunGood(src, root, n, run, i - 1);
      assert Step(src, run[i - 1], run[i - 1 + 1]);
      StepShrinks(src, root, n, run[i - 1], run[i]);
    }
  }

  lemma FuelStart(src: Store, root: Entry, n: nat)
    ensures Fuel(src, root, n, Start(root)) == 5 * |Reach(src, root, n)| + 4
  {
    assert Waiting(Start(root)) == [root];
  }

  /** Whatever the tasks' order: a read of a complete tree never fails, is never stuck, ends after a
      bounded number of steps, and the index is then everything below the root, each once. */
  lemma ReadTheorem(src: Store, root: Entry, n: nat, run: seq<State>)
    requires Complete(src, root, n) && root.kind == Directory && Run(src, root, run)
    ensures |run| <= 5 * |Reach(src, root, n)| + 5
    ensures var s := run[|run| - 1]; s.main != Threw && (s.main != Returned ==> exists s' :: Step(src, s, s'))
    ensures var s := run[|run| - 1]; s.main == Returned ==> multiset(s.index) == Reach(src, root, n) && s.count == 0
  {
    var s := run[|run| - 1];
    RunGood(src, root, n, run, |run| - 1);
    RunBound(src, root, n, run, |run| - 1);
    FuelStart(src, root, n);
    if s.main != Returned { Progress(src, root, n, s); }
  }
}
