/** How cache::pull ends, whatever the cache and the remote hold: it returns exactly when they hold the whole tree
    between them, throws otherwise, and the cache gains nothing but objects that the index lists. */
module PullOutcome {
  import opened Entries
  import opened Trees
  import opened Pull
  import opened PullExact

  // ---------------------------------------------------------------- what the cache gains

  /** The root of the tree or a directory of the index. */
  predicate DirListed(root: Entry, index: seq<Entry>, e: Entry) { e == root || (e in index && e.kind == Directory) }

  ghost predicate TreeListed(root: Entry, index: seq<Entry>, d: Digest) {
    exists e :: DirListed(root, index, e) && e.hash == d
  }

  ghost predicate FileListed(index: seq<Entry>, d: Digest) {
    exists e :: e in index && e.kind != Directory && e.kind != Symlink && e.hash == d
  }

  /** The cache keeps what it has, and what it gains are objects of the remote that the index lists. */
  ghost predicate Gains(remote: Objects, root: Entry, local: Objects, index: seq<Entry>, now: Objects) {
    && (forall d :: d in local.trees ==> d in now.trees && now.trees[d] == local.trees[d])
    && (forall d :: d in local.files ==> d in now.files && now.files[d] == local.files[d])
    && (forall d :: d in now.trees && d !in local.trees ==>
          d in remote.trees && now.trees[d] == remote.trees[d] && TreeListed(root, index, d))
    && (forall d :: d in now.files && d !in local.files ==>
          d in remote.files && now.files[d] == remote.files[d] && FileListed(index, d))
  }

  ghost predicate JobListed(index: seq<Entry>, x: Job) {
    match x
    case Dispatch(e, _) => e in index
    case Fetch(d, _) => FileListed(index, d)
    case _ => true
  }

  ghost predicate DirsListed(root: Entry, s: State) {
    forall e :: e in s.trees || e in s.found ==> DirListed(root, s.index, e)
  }

  ghost predicate JobsListed(s: State) { forall x :: x in s.jobs ==> JobListed(s.index, x) }

  ghost predicate Lean(remote: Objects, root: Entry, local: Objects, s: State) {
    DirsListed(root, s) && JobsListed(s) && Gains(remote, root, local, s.index, s.local)
  }

  /** What the index lists it goes on listing. */
  lemma GainsStay(remote: Objects, root: Entry, local: Objects, s: State, s': State)
    requires Gains(remote, root, local, s.index, s.local) && s.index <= s'.index && s'.local == s.local
    ensures Gains(remote, root, local, s'.index, s'.local)
  {
    assert forall e :: e in s.index ==> e in s'.index;
    forall d | TreeListed(root, s.index, d) ensures TreeListed(root, s'.index, d) {
      var e :| DirListed(root, s.index, e) && e.hash == d;
      assert DirListed(root, s'.index, e);
    }
    forall d | FileListed(s.index, d) ensures FileListed(s'.index, d) {}
  }

  lemma JobsPut(s: State, s': State, j: nat, now: seq<Job>)
    requires JobsListed(s) && j < |s.jobs| && s'.jobs == Put(s.jobs, j, now) && s.index <= s'.index
    requires forall x :: x in now ==> JobListed(s'.index, x)
    ensures JobsListed(s')
  {
    hide Put, JobListed;
    PutIn(s.jobs, j, now);
    forall x | x in s'.jobs ensures JobListed(s'.index, x) {
      if x in s.jobs { JobStays(s, s', x); }
    }
  }

  lemma JobStays(s: State, s': State, x: Job)
    requires JobListed(s.index, x) && s.index <= s'.index
    ensures JobListed(s'.index, x)
  {
    assert forall e :: e in s.index ==> e in s'.index;
  }

  lemma MainLean(remote: Objects, root: Entry, local: Objects, s: State, s': State)
    requires Lean(remote, root, local, s)
    requires EnqueueGet(s, s') || AllLoaded(s, s') || EnqueueWalk(s, s') || AllWalked(s, s')
    ensures Lean(remote, root, local, s')
  {
    hide Gains;
    forall x | x in s'.jobs ensures JobListed(s'.index, x) {
      if x in s.jobs { assert JobListed(s.index, x); }
    }
  }

  lemma TreeGained(remote: Objects, root: Entry, local: Objects, index: seq<Entry>, now: Objects, d: Digest)
    requires Gains(remote, root, local, index, now) && SameObject(remote.trees, now.trees, d) && d in remote.trees
    requires TreeListed(root, index, d)
    ensures Gains(remote, root, local, index, now.(trees := now.trees[d := remote.trees[d]]))
  {
    hide TreeListed, FileListed;
  }

  lemma FileGained(remote: Objects, root: Entry, local: Objects, index: seq<Entry>, now: Objects, d: Digest)
    requires Gains(remote, root, local, index, now) && SameObject(remote.files, now.files, d) && d in remote.files
    requires FileListed(index, d)
    ensures Gains(remote, root, local, index, now.(files := now.files[d := remote.files[d]]))
  {
    hide TreeListed, FileListed;
  }

  lemma GetLean(remote: Objects, root: Entry, local: Objects, s: State, s': State, j: nat)
    requires Lean(remote, root, local, s) && CopiesAgree(remote, s) && j < |s.jobs| && s.jobs[j].Get?
    requires s.count > 0 && s.jobs[j].i < |s.trees| && s' == AfterGet(remote, s, j)
    ensures Lean(remote, root, local, s')
  {
    hide Put, Readable, Children, Gains, JobListed, SameObject;
    GetChanges(remote, s, j);
    forall x | x in NowGet(remote, s, j) ensures JobListed(s.index, x) { GetListed(s.index, x); }
    JobsPut(s, s', j, NowGet(remote, s, j));
    var e := s.trees[s.jobs[j].i];
    if s.jobs[j].stage == Copy && e.hash in remote.trees {
      assert TreeListed(root, s.index, e.hash) by { assert e in s.trees && DirListed(root, s.index, e); }
      assert CopyAgrees(remote, s, s.jobs[j]);
      TreeGained(remote, root, local, s.index, s.local, e.hash);
    }
  }

  lemma GetListed(index: seq<Entry>, x: Job)
    requires x.Get?
    ensures JobListed(index, x)
  {}

  lemma FetchLean(remote: Objects, root: Entry, local: Objects, s: State, s': State, j: nat)
    requires Lean(remote, root, local, s) && CopiesAgree(remote, s) && j < |s.jobs| && s.jobs[j].Fetch?
    requires s.count > 0 && s' == AfterFetch(remote, s, j)
    ensures Lean(remote, root, local, s')
  {
    hide Put, Gains, FileListed, SameObject;
    var d := s.jobs[j].d;
    assert s.jobs[j] in s.jobs && JobListed(s.index, s.jobs[j]);
    JobsPut(s, s', j, if s.jobs[j].missing || d in s.local.files then [] else [Fetch(d, true)]);
    if s.jobs[j].missing && d in remote.files {
      assert CopyAgrees(remote, s, s.jobs[j]);
      FileGained(remote, root, local, s.index, s.local, d);
    }
  }

  lemma WorkLean(remote: Objects, root: Entry, local: Objects, s: State, s': State, j: nat)
    requires Lean(remote, root, local, s) && CopiesAgree(remote, s) && j < |s.jobs| && Work(remote, s, s', j)
    ensures Lean(remote, root, local, s')
  {
    hide Put, Gains, CopiesAgree, AfterGet, AfterFetch;
    assert s.jobs[j] in s.jobs;
    match s.jobs[j]
    case Get(_, _) => GetLean(remote, root, local, s, s', j);
    case Fetch(_, _) => FetchLean(remote, root, local, s, s', j);
    case Walk(todo) => {
      GainsStay(remote, root, local, s, s');
      JobsPut(s, s', j, if todo == [] then [] else [Dispatch(todo[0], todo[1..])]);
    }
    case Dispatch(e, todo) => {
      GainsStay(remote, root, local, s, s');
      assert JobListed(s.index, s.jobs[j]);
      JobsPut(s, s', j, if NeedsFile(e) then [Walk(todo), Fetch(e.hash, false)] else [Walk(todo)]);
    }
  }

  lemma StepLean(remote: Objects, root: Entry, local: Objects, s: State, s': State)
    requires Lean(remote, root, local, s) && CopiesAgree(remote, s) && Step(remote, s, s')
    ensures Lean(remote, root, local, s')
  {
    hide Lean, CopiesAgree, Work, EnqueueGet, AllLoaded, EnqueueWalk, AllWalked;
    if EnqueueGet(s, s') || AllLoaded(s, s') || EnqueueWalk(s, s') || AllWalked(s, s') {
      MainLean(remote, root, local, s, s');
    } else {
      var j :| 0 <= j < |s.jobs| && Work(remote, s, s', j);
      WorkLean(remote, root, local, s, s', j);
    }
  }

  lemma {:induction false} RunLean(remote: Objects, root: Entry, local: Objects, run: seq<State>, i: nat)
    requires Run(remote, root, local, run) && i < |run|
    ensures Lean(remote, root, local, run[i])
  {
    hide Step, Orderly, CopiesAgree, Covered;
    if i > 0 {
      RunLean(remote, root, local, run, i - 1);
      RunCovered(remote, root, local, run, i - 1);
      assert Step(remote, run[i - 1], run[i - 1 + 1]);
      StepLean(remote, root, local, run[i - 1], run[i]);
    }
  }

  lemma SameSources(remote: Objects, root: Entry, local: Objects, s: State)
    requires Gains(remote, root, local, s.index, s.local)
    ensures Sources(remote, s.local) == Sources(remote, local)
    ensures FileSources(remote, s.local) == FileSources(remote, local)
  {
    hide TreeListed, FileListed;
  }

  // ---------------------------------------------------------------- what has been read was complete

  predicate JobComplete(src: Store, x: Job, n: nat) {
    match x
    case Walk(todo) => AllComplete(src, todo, n)
    case Dispatch(e, todo) => Complete(src, e, n) && AllComplete(src, todo, n)
    case _ => true
  }

  predicate JobsComplete(src: Store, jobs: seq<Job>, n: nat) { forall x :: x in jobs ==> JobComplete(src, x, n) }

  /** Whatever is still to be pulled is complete, at most n levels deep. */
  predicate RestComplete(src: Store, s: State, n: nat) {
    AllComplete(src, Waiting(s), n) && AllComplete(src, s.found, n) && JobsComplete(src, s.jobs, n)
  }

  /** Unless a task has failed, the whole tree is complete as soon as the rest is. */
  ghost predicate Grounded(src: Store, root: Entry, s: State, k: nat) {
    !s.failed ==> forall n: nat :: RestComplete(src, s, n) ==> Complete(src, root, n + k)
  }

  lemma StartGrounded(src: Store, root: Entry, local: Objects)
    ensures Grounded(src, root, Start(root, local), 0)
  {
    hide Complete;
    assert Waiting(Start(root, local))[0] == root;
  }

  lemma AllDeeper(src: Store, es: seq<Entry>, n: nat)
    requires AllComplete(src, es, n)
    ensures AllComplete(src, es, n + 1)
  {
    hide Complete;
    forall i | 0 <= i < |es| ensures Complete(src, es[i], n + 1) { Deeper(src, es[i], n); }
  }

  lemma RestDeeper(src: Store, s: State, n: nat)
    requires RestComplete(src, s, n)
    ensures RestComplete(src, s, n + 1)
  {
    hide Complete, AllComplete;
    AllDeeper(src, Waiting(s), n);
    AllDeeper(src, s.found, n);
    forall x | x in s.jobs ensures JobComplete(src, x, n + 1) {
      assert JobComplete(src, x, n);
      match x {
        case Walk(todo) => AllDeeper(src, todo, n);
        case Dispatch(e, todo) => AllDeeper(src, todo, n); Deeper(src, e, n);
        case _ =>
      }
    }
  }

  /** A directory is complete when its children are. */
  lemma Whole(src: Store, d: Entry, n: nat)
    requires Readable(src, d) && AllComplete(src, Children(src, d), n)
    ensures Complete(src, d, n + 1)
  {
    hide Readable, Children;
  }

  /** What can be read in the cache reads the same in cache and remote together. */
  lemma ReadsTogether(remote: Objects, local: Objects, d: Entry)
    requires Readable(local.trees, d)
    ensures Readable(Sources(remote, local), d) && Children(Sources(remote, local), d) == Children(local.trees, d)
  {}

  lemma EnqueueWalkBack(remote: Objects, s: State, s': State, n: nat)
    requires Orderly(s) && EnqueueWalk(s, s') && RestComplete(Sources(remote, s.local), s', n)
    ensures RestComplete(Sources(remote, s.local), s, n + 1)
  {
    hide Complete, Readable, Children, Sources;
    var src, k := Sources(remote, s.local), s.main.next;
    var d, kids := s.trees[k], Children(s.local.trees, s.trees[k]);
    assert s'.jobs[|s.jobs|] == Walk(kids) && JobComplete(src, Walk(kids), n);
    ReadsTogether(remote, s.local, d);
    Whole(src, d, n);
    assert Waiting(s) == [d] + Waiting(s');
    AllDeeper(src, Waiting(s'), n);
    AllDeeper(src, s.found, n);
    RestDeeper(src, s', n);
    assert forall x :: x in s.jobs ==> x in s'.jobs;
  }

  lemma JobsBack(src: Store, jobs: seq<Job>, j: nat, now: seq<Job>, n: nat)
    requires j < |jobs| && JobsComplete(src, Put(jobs, j, now), n)
    ensures forall x :: x in now ==> JobComplete(src, x, n)
    ensures JobComplete(src, jobs[j], n) ==> JobsComplete(src, jobs, n)
  {
    hide Put, JobComplete;
    PutIn(jobs, j, now);
  }

  lemma WorkBack(src: Store, remote: Objects, s: State, s': State, j: nat, n: nat)
    requires j < |s.jobs| && Work(remote, s, s', j) && RestComplete(src, s', n)
    ensures RestComplete(src, s, n)
  {
    hide Put, Complete, Readable, Children, JobsComplete, AllComplete, AfterGet;
    assert Waiting(s') == Waiting(s) by { WaitingStays(remote, s, s', j); }
    match s.jobs[j]
    case Get(_, _) => GetChanges(remote, s, j); JobsBack(src, s.jobs, j, NowGet(remote, s, j), n);
    case Fetch(d, missing) =>
      JobsBack(src, s.jobs, j, if missing || d in s.local.files then [] else [Fetch(d, true)], n);
    case Walk(todo) =>
      var now := if todo == [] then [] else [Dispatch(todo[0], todo[1..])];
      JobsBack(src, s.jobs, j, now, n);
      if todo != [] { assert JobComplete(src, now[0], n); }
      HeadBack(src, todo, n);
    case Dispatch(e, todo) =>
      var now := if NeedsFile(e) then [Walk(todo), Fetch(e.hash, false)] else [Walk(todo)];
      JobsBack(src, s.jobs, j, now, n);
      assert JobComplete(src, now[0], n);
      FoundBack(src, s, s', e, n);
  }

  lemma WaitingStays(remote: Objects, s: State, s': State, j: nat)
    requires j < |s.jobs| && Work(remote, s, s', j)
    ensures s'.main == s.main && s'.trees == s.trees
  {
    hide Put, Readable, Children;
  }

  lemma HeadBack(src: Store, es: seq<Entry>, n: nat)
    ensures es == [] || (Complete(src, es[0], n) && AllComplete(src, es[1..], n)) ==> AllComplete(src, es, n)
  {
    hide Complete;
    if es != [] { assert forall i :: 0 < i < |es| ==> es[i] == es[1..][i - 1]; }
  }

  lemma FoundBack(src: Store, s: State, s': State, e: Entry, n: nat)
    requires AllComplete(src, s'.found, n) && s'.found == s.found + if e.kind == Directory then [e] else []
    ensures AllComplete(src, s.found, n) && Complete(src, e, n)
  {
    assert forall i :: 0 <= i < |s.found| ==> s'.found[i] == s.found[i];
    if e.kind == Directory { assert s'.found[|s.found|] == e; }
  }

  lemma StepBack(remote: Objects, s: State, s': State, n: nat)
    requires Orderly(s) && Step(remote, s, s') && !s'.failed && RestComplete(Sources(remote, s.local), s', n)
    ensures RestComplete(Sources(remote, s.local), s, n + 1)
  {
    hide Complete, AllComplete, JobComplete, Work, Sources, KidsRead, KidsComing;
    var src := Sources(remote, s.local);
    if EnqueueWalk(s, s') {
      EnqueueWalkBack(remote, s, s', n);
    } else {
      if EnqueueGet(s, s') {
        assert forall x :: x in s.jobs ==> x in s'.jobs;
      } else if AllLoaded(s, s') {
        assert Waiting(s') == Waiting(s);
      } else if AllWalked(s, s') {
        assert Waiting(s) == [] && Waiting(s') == s.found;
        NothingComplete(src, n);
      } else {
        var j :| 0 <= j < |s.jobs| && Work(remote, s, s', j);
        WorkBack(src, remote, s, s', j, n);
      }
      RestDeeper(src, s, n);
    }
  }

  lemma NothingComplete(src: Store, n: nat)
    ensures AllComplete(src, [], n)
  {}

  lemma FailedStays(remote: Objects, s: State, s': State)
    requires Step(remote, s, s') && s.failed
    ensures s'.failed
  {
    hide Put, Readable, Children;
  }

  lemma StepGrounded(remote: Objects, root: Entry, s: State, s': State, k: nat)
    requires Orderly(s) && Grounded(Sources(remote, s.local), root, s, k) && Step(remote, s, s')
    ensures Grounded(Sources(remote, s.local), root, s', k + 1)
  {
    hide Step, RestComplete, Complete, Orderly, Sources;
    if s.failed { FailedStays(remote, s, s'); }
    if !s'.failed {
      forall n: nat | RestComplete(Sources(remote, s.local), s', n)
        ensures Complete(Sources(remote, s.local), root, n + (k + 1))
      {
        StepBack(remote, s, s', n);
        assert n + 1 + k == n + (k + 1);
      }
    }
  }

  lemma {:induction false} RunGrounded(remote: Objects, root: Entry, local: Objects, run: seq<State>, i: nat)
    requires Run(remote, root, local, run) && i < |run|
    ensures Grounded(Sources(remote, local), root, run[i], i)
  {
    hide Step, Grounded, Orderly, CopiesAgree, Covered, Sources, FileSources, Gains;
    if i == 0 {
      StartGrounded(Sources(remote, local), root, local);
    } else {
      RunGrounded(remote, root, local, run, i - 1);
      RunCovered(remote, root, local, run, i - 1);
      RunLean(remote, root, local, run, i - 1);
      SameSources(remote, root, local, run[i - 1]);
      assert Step(remote, run[i - 1], run[i - 1 + 1]);
      StepGrounded(remote, root, run[i - 1], run[i], i - 1);
    }
  }

  // ---------------------------------------------------------------- the end

  /** The cache and the remote hold the whole tree between them. */
  ghost predicate AllThere(remote: Objects, root: Entry, local: Objects, n: nat) {
    && Complete(Sources(remote, local), root, n)
    && FilesThere(Sources(remote, local), FileSources(remote, local), root, n)
  }

  lemma NothingLeft(src: Store, s: State)
    requires Orderly(s) && s.main == Returned
    ensures RestComplete(src, s, 0) && !s.failed
  {
    assert Waiting(s) == [];
  }

  /** Once pull has returned, everything was there. */
  lemma ReturnedHadAll(remote: Objects, root: Entry, local: Objects, run: seq<State>)
    requires Run(remote, root, local, run) && root.kind == Directory && run[|run| - 1].main == Returned
    ensures exists n: nat :: AllThere(remote, root, local, n)
  {
    hide Step, Orderly, CopiesAgree, Covered, Complete, RestComplete, Readable, Children, Reach, Sources, FileSources;
    hide Gains;
    var last, s := |run| - 1, run[|run| - 1];
    var src := Sources(remote, local);
    RunCovered(remote, root, local, run, last);
    RunGrounded(remote, root, local, run, last);
    NothingLeft(src, s);
    assert Complete(src, root, 0 + last);
    RunLean(remote, root, local, run, last);
    SameSources(remote, root, local, s);
    PullComplete(remote, root, local, run);
    forall d | (d == root || d in s.index) && d.kind == Directory
      ensures Readable(src, d) && forall c :: c in Children(src, d) ==> c in s.index
    {
      ReadsTogether(remote, s.local, d);
    }
    forall e | e in Reach(src, root, last) && e.kind != Directory && e.kind != Symlink
      ensures e.hash in FileSources(remote, local)
    {
      ReachListed(src, root, s.index, root, last, e);
      InSources(remote, s.local, e.hash);
    }
    assert AllThere(remote, root, local, last);
  }

  lemma InSources(remote: Objects, local: Objects, d: Digest)
    requires d in local.files
    ensures d in FileSources(remote, local)
  {}

  /** In every interleaving, whatever the cache and the remote hold: a pull that cannot go on has returned if they
      hold the whole tree between them, and then the index is everything below the root, each as often as it
      occurs; and it has thrown if they do not.  At any time the cache has kept all it held, and has gained
      only objects of the remote that the index lists. */
  lemma Outcome(remote: Objects, root: Entry, local: Objects, run: seq<State>)
    requires Run(remote, root, local, run) && root.kind == Directory
    ensures var s := run[|run| - 1];
            && (s.main == Returned ==>
                  exists n: nat ::
                    AllThere(remote, root, local, n) && multiset(s.index) == Reach(Sources(remote, local), root, n))
            && (s.main == Threw ==> forall n: nat :: !AllThere(remote, root, local, n))
            && (s.main == Returned || s.main == Threw || exists s' :: Step(remote, s, s'))
            && Gains(remote, root, local, s.index, s.local)
  {
    hide Step, Orderly, CopiesAgree, Covered, Complete, Reach, Sources, FileSources, FilesThere, Gains;
    var s := run[|run| - 1];
    RunLean(remote, root, local, run, |run| - 1);
    RunCovered(remote, root, local, run, |run| - 1);
    if s.main == Returned {
      ReturnedHadAll(remote, root, local, run);
      var n: nat :| AllThere(remote, root, local, n);
      PullExactly(remote, root, local, n, run);
    } else if s.main == Threw {
      forall n: nat ensures !AllThere(remote, root, local, n) {
        if AllThere(remote, root, local, n) { PullExactly(remote, root, local, n, run); }
      }
    } else {
      Progress(remote, s);
    }
  }
}
