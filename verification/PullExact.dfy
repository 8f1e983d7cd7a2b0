/** cache::pull when the cache and the remote together hold the whole tree: it does not fail, it is
    never stuck, it ends, and the index has every inode below the root once. */
module PullExact {
  import opened Entries
  import opened Trees
  import opened Pull

  // ---------------------------------------------------------------- what is still to come

  ghost function Pend(src: Store, job: Job, n: nat): multiset<Entry> {
    match job
    case Walk(todo) => ReachAll(src, todo, n)
    case Dispatch(e, todo) => Reach(src, e, n) + ReachAll(src, todo, n)
    case _ => multiset{}
  }

  ghost function Pending(src: Store, jobs: seq<Job>, n: nat): multiset<Entry> {
    if jobs == [] then multiset{} else Pend(src, jobs[0], n) + Pending(src, jobs[1..], n)
  }

  lemma {:induction false} PendingAppend(src: Store, a: seq<Job>, b: seq<Job>, n: nat)
    ensures Pending(src, a + b, n) == Pending(src, a, n) + Pending(src, b, n)
  {
    hide Pend;
    if a == [] { assert a + b == b; } else { assert (a + b)[1..] == a[1..] + b; PendingAppend(src, a[1..], b, n); }
  }

  lemma PendingOne(src: Store, job: Job, n: nat)
    ensures Pending(src, [job], n) == Pend(src, job, n)
  {
    hide Pend;
    assert [job][1..] == [];
  }

  lemma PendingPut(src: Store, jobs: seq<Job>, j: nat, now: seq<Job>, n: nat)
    requires j < |jobs|
    ensures Pending(src, jobs, n) == Pending(src, jobs[..j] + jobs[j + 1..], n) + Pend(src, jobs[j], n)
    ensures Pending(src, Put(jobs, j, now), n) == Pending(src, jobs[..j] + jobs[j + 1..], n) + Pending(src, now, n)
  {
    hide Pend, Pending;
    var a, b := jobs[..j], jobs[j + 1..];
    assert jobs == a + [jobs[j]] + b && Put(jobs, j, now) == a + now + b;
    PendingAppend(src, a, b, n);
    PendingAppend(src, a, [jobs[j]], n);
    PendingAppend(src, a + [jobs[j]], b, n);
    PendingAppend(src, a, now, n);
    PendingAppend(src, a + now, b, n);
    PendingOne(src, jobs[j], n);
  }

  predicate JobOk(src: Store, files: set<Digest>, s: State, job: Job, n: nat) {
    match job
    case Get(i, stage) => i < |s.trees| && (stage == Load ==> s.trees[i].hash in s.local.trees)
    case Walk(todo) => AllComplete(src, todo, n)
    case Dispatch(e, todo) => Complete(src, e, n) && AllComplete(src, todo, n) && (NeedsFile(e) ==> e.hash in files)
    case Fetch(d, _) => d in files
  }

  predicate JobsOk(src: Store, files: set<Digest>, s: State, n: nat) {
    forall x :: x in s.jobs ==> JobOk(src, files, s, x, n)
  }

  lemma JobAt(src: Store, files: set<Digest>, s: State, j: nat, n: nat)
    requires JobsOk(src, files, s, n) && j < |s.jobs|
    ensures JobOk(src, files, s, s.jobs[j], n)
  {
    assert s.jobs[j] in s.jobs;
  }

  lemma JobsKept(src: Store, files: set<Digest>, s: State, s': State, j: nat, now: seq<Job>, n: nat)
    requires JobsOk(src, files, s, n) && j < |s.jobs| && s'.jobs == Put(s.jobs, j, now) && s'.trees == s.trees
    requires s.local.trees.Keys <= s'.local.trees.Keys
    requires forall k :: 0 <= k < |now| ==> JobOk(src, files, s', now[k], n)
    ensures JobsOk(src, files, s', n)
  {
    hide Put, Complete, AllComplete;
    PutIn(s.jobs, j, now);
    forall x | x in s'.jobs ensures JobOk(src, files, s', x, n) {
      if x in s.jobs { assert JobOk(src, files, s, x, n); }
    }
  }

  /** The files of the tree can be had. */
  ghost predicate FilesThere(src: Store, files: set<Digest>, root: Entry, n: nat) {
    forall e :: e in Reach(src, root, n) && e.kind != Directory && e.kind != Symlink ==> e.hash in files
  }

  /** What the cache and the remote hold together: the cache comes first. */
  function Sources(remote: Objects, local: Objects): Store { remote.trees + local.trees }
  function FileSources(remote: Objects, local: Objects): set<Digest> { remote.files.Keys + local.files.Keys }

  ghost function Total(src: Store, n: nat, s: State): multiset<Entry> {
    multiset(s.index) + Pending(src, s.jobs, n) + BelowDirs(src, Waiting(s), n) + BelowDirs(src, s.found, n)
  }

  /** What is in the index and what is still to come are together everything below the root. */
  ghost predicate Exact(remote: Objects, src: Store, files: set<Digest>, root: Entry, n: nat, s: State) {
    && Orderly(s) && CopiesAgree(remote, s) && !s.failed && s.main != Threw
    && Sources(remote, s.local) == src && FileSources(remote, s.local) == files
    && DirsOk(src, Waiting(s), n) && DirsOk(src, s.found, n) && JobsOk(src, files, s, n)
    && Total(src, n, s) == Reach(src, root, n)
  }

  lemma StartExact(remote: Objects, local: Objects, root: Entry, n: nat)
    requires Complete(Sources(remote, local), root, n) && root.kind == Directory
    ensures Exact(remote, Sources(remote, local), FileSources(remote, local), root, n, Start(root, local))
  {
    hide Reach, Complete;
    BelowOne(Sources(remote, local), root, n);
  }

  lemma ReadsAlike(a: Store, src: Store, d: Entry)
    requires d.hash in a && d.hash in src && a[d.hash] == src[d.hash] && Readable(src, d)
    ensures Readable(a, d) && Children(a, d) == Children(src, d)
  {}

  // ---------------------------------------------------------------- the tasks

  /** The cache gets objects only from the remote, and has no other ones under their digests. */
  ghost predicate Copied(remote: Objects, a: Objects, b: Objects) {
    || b == a
    || (exists d ::
         d in remote.trees && SameObject(remote.trees, a.trees, d) && b == a.(trees := a.trees[d := remote.trees[d]]))
    || (exists d ::
         d in remote.files && SameObject(remote.files, a.files, d) && b == a.(files := a.files[d := remote.files[d]]))
  }

  lemma WorkCopies(remote: Objects, s: State, s': State, j: nat)
    requires j < |s.jobs| && Work(remote, s, s', j) && CopiesAgree(remote, s)
    ensures Copied(remote, s.local, s'.local)
  {
    hide Put, Readable, Children;
    var job := s.jobs[j];
    assert CopyAgrees(remote, s, job);
    if job.Get? && job.stage == Copy && s.trees[job.i].hash in remote.trees {
      assert Copied(remote, s.local, s'.local);
    } else if job.Fetch? && job.missing && job.d in remote.files {
      assert Copied(remote, s.local, s'.local);
    } else {
      assert s'.local == s.local;
    }
  }

  /** The cache and the remote together hold what they held. */
  lemma SourcesSame(remote: Objects, s: State, s': State, j: nat)
    requires j < |s.jobs| && Work(remote, s, s', j) && CopiesAgree(remote, s)
    ensures Sources(remote, s'.local) == Sources(remote, s.local)
    ensures FileSources(remote, s'.local) == FileSources(remote, s.local)
    ensures s.local.trees.Keys <= s'.local.trees.Keys
  {
    hide Work, CopiesAgree;
    WorkCopies(remote, s, s', j);
  }

  // the first pass of a round

  lemma GetTotal(remote: Objects, src: Store, n: nat, s: State, j: nat)
    requires j < |s.jobs| && s.jobs[j].Get? && s.jobs[j].i < |s.trees| && s.count > 0
    ensures Total(src, n, AfterGet(remote, s, j)) == Total(src, n, s)
  {
    hide Readable, Children, Reach, ReachAll, BelowDirs, Pending, Put;
    GetChanges(remote, s, j);
    hide AfterGet, NowGet;
    var now := NowGet(remote, s, j);
    SameWaiting(s, AfterGet(remote, s, j));
    PendingPut(src, s.jobs, j, now, n);
    if now == [] { PendingNone(src, n); } else { PendingOne(src, now[0], n); assert now == [now[0]]; }
  }

  lemma GetExact(remote: Objects, src: Store, files: set<Digest>, root: Entry, n: nat, s: State, s': State, j: nat)
    requires Exact(remote, src, files, root, n, s) && j < |s.jobs| && s.jobs[j].Get? && Work(remote, s, s', j)
    ensures Exact(remote, src, files, root, n, s')
  {
    hide Readable, Children, Complete, Reach, ReachAll, AllComplete, Total, Put, JobsOk, DirsOk, Orderly, CopiesAgree;
    hide Sources, FileSources, Waiting;
    WorkOrderly(remote, s, s', j);
    WorkAgrees(remote, s, s', j);
    GetsLoad(s, j);
    GetTotal(remote, src, n, s, j);
    SourcesSame(remote, s, s', j);
    JobAt(src, files, s, j, n);
    SameWaiting(s, s');
    var i, tree := s.jobs[j].i, s.trees[s.jobs[j].i];
    WaitingAll(s);
    DirAt(src, Waiting(s), i, n);
    Unfold(src, tree, n);
    SrcHas(src, tree);
    HasSource(remote, s.local, tree.hash);
    CopyThere(remote, s, j);
    if s.jobs[j].stage == Load { ReadsAlike(s.local.trees, src, tree); }
    JobsKept(src, files, s, s', j, NowGet(remote, s, j), n);
  }

  lemma CopyThere(remote: Objects, s: State, j: nat)
    requires CopiesAgree(remote, s) && j < |s.jobs|
    ensures CopyAgrees(remote, s, s.jobs[j])
  {}

  lemma DirAt(src: Store, ds: seq<Entry>, i: nat, n: nat)
    requires DirsOk(src, ds, n) && i < |ds|
    ensures ds[i].kind == Directory && Complete(src, ds[i], n)
  {}

  lemma HasFile(remote: Objects, local: Objects, d: Digest)
    requires d in FileSources(remote, local)
    ensures d in remote.files || d in local.files
  {}

  lemma WaitingAll(s: State)
    requires s.main.Loading?
    ensures Waiting(s) == s.trees
  {}

  lemma HasSource(remote: Objects, local: Objects, d: Digest)
    requires d in Sources(remote, local)
    ensures d in local.trees ==> Sources(remote, local)[d] == local.trees[d]
    ensures d in remote.trees || d in local.trees
  {}

  // the second pass

  lemma WalkTotal(src: Store, n: nat, s: State, j: nat)
    requires j < |s.jobs| && s.jobs[j].Walk? && s.count > 0 && AllComplete(src, s.jobs[j].todo, n)
    ensures Total(src, n, AfterWalk(s, j)) == Total(src, n, s)
  {
    hide AllComplete, Reach, ReachAll, BelowDirs, Pending, Put;
    var todo := s.jobs[j].todo;
    SameWaiting(s, AfterWalk(s, j));
    if todo == [] {
      PendingPut(src, s.jobs, j, [], n);
      PendingNone(src, n);
      ReachNone(src, n);
    } else {
      var next := Dispatch(todo[0], todo[1..]);
      PendingPut(src, s.jobs, j, [next], n);
      PendingOne(src, next, n);
      ReachHead(src, todo, n);
      Appended(multiset(s.index), Pending(src, s.jobs[..j] + s.jobs[j + 1..], n), ReachAll(src, todo, n),
               BelowDirs(src, Waiting(s), n), BelowDirs(src, s.found, n),
               multiset{todo[0]}, Reach(src, todo[0], n) + ReachAll(src, todo[1..], n));
      assert multiset(AfterWalk(s, j).index) == multiset(s.index) + multiset{todo[0]};
    }
  }

  lemma IndexReached(src: Store, root: Entry, n: nat, s: State, e: Entry)
    requires Total(src, n, s) == Reach(src, root, n) && e in s.index
    ensures e in Reach(src, root, n)
  {
    hide Reach, Pending, BelowDirs;
    assert e in multiset(s.index);
  }

  lemma WalkExact(remote: Objects, src: Store, files: set<Digest>, root: Entry, n: nat, s: State, s': State, j: nat)
    requires Exact(remote, src, files, root, n, s) && j < |s.jobs| && s.jobs[j].Walk? && Work(remote, s, s', j)
    requires FilesThere(src, files, root, n)
    ensures Exact(remote, src, files, root, n, s')
  {
    hide Readable, Children, Complete, Reach, ReachAll, AllComplete, Total, Put, JobsOk, DirsOk, Orderly, CopiesAgree;
    hide Sources, FileSources, Waiting;
    WorkOrderly(remote, s, s', j);
    WorkAgrees(remote, s, s', j);
    SourcesSame(remote, s, s', j);
    JobAt(src, files, s, j, n);
    SameWaiting(s, s');
    WalkTotal(src, n, s, j);
    var todo := s.jobs[j].todo;
    if todo == [] {
      JobsKept(src, files, s, s', j, [], n);
    } else {
      ReachHead(src, todo, n);
      assert s'.index[|s.index|] == todo[0];
      IndexReached(src, root, n, s', todo[0]);
      JobsKept(src, files, s, s', j, [Dispatch(todo[0], todo[1..])], n);
    }
  }

  lemma DispatchTotal(src: Store, n: nat, s: State, j: nat)
    requires j < |s.jobs| && s.jobs[j].Dispatch? && s.count > 0
    ensures Total(src, n, AfterDispatch(s, j)) == Total(src, n, s)
  {
    hide Reach, ReachAll, BelowDirs, Pending, Put, Waiting;
    var e, walk, s' := s.jobs[j].e, Walk(s.jobs[j].todo), AfterDispatch(s, j);
    var now := if NeedsFile(e) then [walk, Fetch(e.hash, false)] else [walk];
    SameWaiting(s, s');
    PendingPut(src, s.jobs, j, now, n);
    PendingNow(src, walk, Fetch(e.hash, false), n);
    FoundGrows(src, s.found, e, n);
    Dispatched(multiset(s.index), Pending(src, s.jobs[..j] + s.jobs[j + 1..], n), Reach(src, e, n),
               ReachAll(src, walk.todo, n),
               BelowDirs(src, Waiting(s), n), BelowDirs(src, s.found, n));
  }

  lemma FoundGrows(src: Store, found: seq<Entry>, e: Entry, n: nat)
    ensures BelowDirs(src, if e.kind == Directory then found + [e] else found, n) ==
              BelowDirs(src, found, n) + Reach(src, e, n)
  {
    hide Reach, BelowDirs;
    BelowAppend(src, found, [e], n);
    BelowOne(src, e, n);
    if e.kind != Directory { NothingBelow(src, e, n); }
  }

  lemma DirsAppend(src: Store, ds: seq<Entry>, e: Entry, n: nat)
    requires DirsOk(src, ds, n) && e.kind == Directory && Complete(src, e, n)
    ensures DirsOk(src, ds + [e], n)
  {
    hide Complete;
  }

  lemma DispatchExact(remote: Objects, src: Store, files: set<Digest>, root: Entry, n: nat, s: State, s': State, j: nat)
    requires Exact(remote, src, files, root, n, s) && j < |s.jobs| && s.jobs[j].Dispatch? && Work(remote, s, s', j)
    ensures Exact(remote, src, files, root, n, s')
  {
    hide Readable, Children, Complete, Reach, ReachAll, AllComplete, Total, Put, JobsOk, DirsOk, Orderly, CopiesAgree;
    hide Sources, FileSources, Waiting;
    WorkOrderly(remote, s, s', j);
    WorkAgrees(remote, s, s', j);
    SourcesSame(remote, s, s', j);
    JobAt(src, files, s, j, n);
    SameWaiting(s, s');
    DispatchTotal(src, n, s, j);
    var e, walk := s.jobs[j].e, Walk(s.jobs[j].todo);
    JobsKept(src, files, s, s', j, if NeedsFile(e) then [walk, Fetch(e.hash, false)] else [walk], n);
    if e.kind == Directory { DirsAppend(src, s.found, e, n); }
  }

  lemma FetchExact(remote: Objects, src: Store, files: set<Digest>, root: Entry, n: nat, s: State, s': State, j: nat)
    requires Exact(remote, src, files, root, n, s) && j < |s.jobs| && s.jobs[j].Fetch? && Work(remote, s, s', j)
    ensures Exact(remote, src, files, root, n, s')
  {
    hide Readable, Children, Complete, Reach, ReachAll, AllComplete, Total, Put, JobsOk, DirsOk, Orderly, CopiesAgree;
    hide Sources, FileSources, Waiting;
    WorkOrderly(remote, s, s', j);
    WorkAgrees(remote, s, s', j);
    SourcesSame(remote, s, s', j);
    JobAt(src, files, s, j, n);
    SameWaiting(s, s');
    FetchTotal(remote, src, n, s, j);
    HasFile(remote, s.local, s.jobs[j].d);
    CopyThere(remote, s, j);
    JobsKept(src, files, s, s', j, NowOther(s, j), n);
  }

  lemma FetchTotal(remote: Objects, src: Store, n: nat, s: State, j: nat)
    requires j < |s.jobs| && s.jobs[j].Fetch? && s.count > 0
    ensures Total(src, n, AfterFetch(remote, s, j)) == Total(src, n, s)
  {
    hide Reach, ReachAll, BelowDirs, Pending, Put, AfterFetch;
    var next := Fetch(s.jobs[j].d, true);
    FetchChanges(remote, s, j);
    SameWaiting(s, AfterFetch(remote, s, j));
    PendingPut(src, s.jobs, j, NowOther(s, j), n);
    PendingNone(src, n);
    PendingOne(src, next, n);
  }

  lemma FetchChanges(remote: Objects, s: State, j: nat)
    requires j < |s.jobs| && s.jobs[j].Fetch? && s.count > 0
    ensures var s' := AfterFetch(remote, s, j);
            && s'.jobs == Put(s.jobs, j, NowOther(s, j)) && s'.main == s.main && s'.trees == s.trees
            && s'.index == s.index && s'.found == s.found
  {
    hide Put;
  }

  lemma PendingNone(src: Store, n: nat)
    ensures Pending(src, [], n) == multiset{}
  {}

  lemma GetsLoad(s: State, j: nat)
    requires Orderly(s) && j < |s.jobs| && s.jobs[j].Get?
    ensures s.main.Loading? && s.jobs[j].i < |s.trees|
  {
    assert s.main.Loading? ==> LoadJob(s, s.jobs[j]);
  }

  lemma SrcHas(src: Store, d: Entry)
    requires Readable(src, d)
    ensures d.hash in src
  {}

  lemma ReachNone(src: Store, n: nat)
    ensures ReachAll(src, [], n) == multiset{}
  {}

  lemma ReachHead(src: Store, todo: seq<Entry>, n: nat)
    requires AllComplete(src, todo, n) && todo != []
    ensures ReachAll(src, todo, n) == multiset{todo[0]} + (Reach(src, todo[0], n) + ReachAll(src, todo[1..], n))
    ensures Complete(src, todo[0], n) && AllComplete(src, todo[1..], n)
  {
    hide Reach, Complete;
  }

  lemma Appended(i: multiset<Entry>, r: multiset<Entry>, a: multiset<Entry>, w: multiset<Entry>, b: multiset<Entry>,
                 x: multiset<Entry>, c: multiset<Entry>)
    requires a == x + c
    ensures i + (r + a) + w + b == (i + x) + (r + c) + w + b
  {
    assert i + (r + a) == (i + x) + (r + c);
  }

  lemma PendingNow(src: Store, walk: Job, fetch: Job, n: nat)
    requires fetch.Fetch?
    ensures Pending(src, [walk], n) == Pend(src, walk, n)
    ensures Pending(src, [walk, fetch], n) == Pend(src, walk, n)
  {
    hide ReachAll, Reach;
    assert [walk, fetch][1..] == [fetch] && [fetch][1..] == [] && [walk][1..] == [];
  }

  lemma Dispatched(i: multiset<Entry>, r: multiset<Entry>, e: multiset<Entry>, a: multiset<Entry>, w: multiset<Entry>,
                   b: multiset<Entry>)
    ensures i + (r + (e + a)) + w + b == i + (r + a) + w + (b + e)
  {}

  // ---------------------------------------------------------------- the main thread

  lemma EnqueueGetExact(remote: Objects, src: Store, files: set<Digest>, root: Entry, n: nat, s: State, s': State)
    requires Exact(remote, src, files, root, n, s) && EnqueueGet(s, s') && Orderly(s') && CopiesAgree(remote, s')
    ensures Exact(remote, src, files, root, n, s')
  {
    hide Readable, Children, Complete, Reach, ReachAll, BelowDirs, Pending, KidsRead, KidsComing, CopiesAgree;
    PendingAppend(src, s.jobs, [Get(s.main.next, Look)], n);
    PendingOne(src, Get(s.main.next, Look), n);
    assert Waiting(s') == Waiting(s);
  }

  lemma AllLoadedExact(remote: Objects, src: Store, files: set<Digest>, root: Entry, n: nat, s: State, s': State)
    requires Exact(remote, src, files, root, n, s) && AllLoaded(s, s') && Orderly(s') && CopiesAgree(remote, s')
    ensures Exact(remote, src, files, root, n, s')
  {
    hide Readable, Children, Complete, Reach, ReachAll, BelowDirs, Pending, KidsRead, KidsComing, CopiesAgree;
    assert Waiting(s') == Waiting(s);
  }

  lemma EnqueueWalkExact(remote: Objects, src: Store, files: set<Digest>, root: Entry, n: nat, s: State, s': State)
    requires Exact(remote, src, files, root, n, s) && EnqueueWalk(s, s') && Orderly(s') && CopiesAgree(remote, s')
    ensures Exact(remote, src, files, root, n, s')
  {
    hide Readable, Children, Complete, Reach, ReachAll, BelowDirs, Pending;
    var k := s.main.next;
    var d := s.trees[k];
    assert Waiting(s) == [d] + Waiting(s') && Waiting(s)[0] == d;
    Unfold(src, d, n);
    SrcHas(src, d);
    SrcHas(s.local.trees, d);
    ReadsAlike(s.local.trees, src, d);
    assert s.kids[k] == Children(src, d);
    BelowAppend(src, [d], Waiting(s'), n);
    BelowOne(src, d, n);
    PendingAppend(src, s.jobs, [Walk(s.kids[k])], n);
    PendingOne(src, Walk(s.kids[k]), n);
  }

  lemma AllWalkedExact(remote: Objects, src: Store, files: set<Digest>, root: Entry, n: nat, s: State, s': State)
    requires Exact(remote, src, files, root, n, s) && AllWalked(s, s') && Orderly(s') && CopiesAgree(remote, s')
    ensures Exact(remote, src, files, root, n, s')
  {
    hide Readable, Children, Complete, Reach, ReachAll, KidsRead, KidsComing;
    assert Waiting(s) == [];
    assert Waiting(s') == s.found;
  }

  lemma StepExact(remote: Objects, src: Store, files: set<Digest>, root: Entry, n: nat, s: State, s': State)
    requires Exact(remote, src, files, root, n, s) && Step(remote, s, s') && FilesThere(src, files, root, n)
    ensures Exact(remote, src, files, root, n, s')
  {
    ExactOrderly(remote, src, files, root, n, s);
    StepOrderly(remote, s, s');
    hide Exact, EnqueueGet, AllLoaded, EnqueueWalk, AllWalked, Work, Orderly, CopiesAgree, FilesThere;
    if EnqueueGet(s, s') {
      EnqueueGetExact(remote, src, files, root, n, s, s');
    } else if AllLoaded(s, s') {
      AllLoadedExact(remote, src, files, root, n, s, s');
    } else if EnqueueWalk(s, s') {
      EnqueueWalkExact(remote, src, files, root, n, s, s');
    } else if AllWalked(s, s') {
      AllWalkedExact(remote, src, files, root, n, s, s');
    } else {
      var j :| 0 <= j < |s.jobs| && Work(remote, s, s', j);
      match s.jobs[j]
      case Get(_, _) => GetExact(remote, src, files, root, n, s, s', j);
      case Walk(_) => WalkExact(remote, src, files, root, n, s, s', j);
      case Dispatch(_, _) => DispatchExact(remote, src, files, root, n, s, s', j);
      case Fetch(_, _) => FetchExact(remote, src, files, root, n, s, s', j);
    }
  }

  lemma ExactOrderly(remote: Objects, src: Store, files: set<Digest>, root: Entry, n: nat, s: State)
    requires Exact(remote, src, files, root, n, s)
    ensures Orderly(s) && CopiesAgree(remote, s)
  {}

  // ---------------------------------------------------------------- never stuck

  lemma Progress(remote: Objects, s: State)
    requires Orderly(s) && s.main != Returned && s.main != Threw
    ensures exists s' :: Step(remote, s, s')
  {
    hide Readable, Children, Put, KidsRead, KidsComing, AfterGet, AfterWalk, AfterDispatch, AfterFetch;
    if s.jobs != [] {
      var s1: State;
      match s.jobs[0] {
        case Get(i, _) => GetsLoad(s, 0); s1 := AfterGet(remote, s, 0);
        case Walk(_) => s1 := AfterWalk(s, 0);
        case Dispatch(_, _) => s1 := AfterDispatch(s, 0);
        case Fetch(_, _) => s1 := AfterFetch(remote, s, 0);
      }
      assert Work(remote, s, s1, 0);
      assert Step(remote, s, s1);
    } else {
      var s1 := MainStep(s);
      MainCanMove(s, s1);
      assert Step(remote, s, s1);
    }
  }

  lemma MainCanMove(s: State, s1: State)
    requires Orderly(s) && s.jobs == [] && s.main != Returned && s.main != Threw && s1 == MainStep(s)
    ensures EnqueueGet(s, s1) || AllLoaded(s, s1) || EnqueueWalk(s, s1) || AllWalked(s, s1)
  {}

  /** What the main thread does next when no task is left. */
  function MainStep(s: State): State {
    match s.main
    case Loading(k) =>
      if k < |s.trees| then s.(main := Loading(k + 1), jobs := s.jobs + [Get(k, Look)], count := s.count + 1)
      else if s.failed then s.(main := Threw)
      else s.(main := Walking(0))
    case Walking(k) =>
      if k < |s.trees| then
        s.(main := Walking(k + 1), jobs := s.jobs + [Walk(if k in s.kids then s.kids[k] else [])], count := s.count + 1)
      else if s.failed then s.(main := Threw)
      else if s.found == [] then s.(main := Returned, trees := [], kids := map[])
      else s.(main := Loading(0), trees := s.found, kids := map[], found := [])
    case _ => s
  }

  // ---------------------------------------------------------------- an end in sight

  function JobWeight(job: Job): nat {
    match job
    case Get(_, stage) => if stage == Look then 3 else if stage == Copy then 2 else 1
    case Walk(_) => 2
    case Dispatch(_, _) => 12
    case Fetch(_, missing) => if missing then 1 else 2
  }

  function Weight(jobs: seq<Job>): nat {
    if jobs == [] then 0 else JobWeight(jobs[0]) + Weight(jobs[1..])
  }

  lemma {:induction false} WeightAppend(a: seq<Job>, b: seq<Job>)
    ensures Weight(a + b) == Weight(a) + Weight(b)
  {
    if a == [] { assert a + b == b; } else { assert (a + b)[1..] == a[1..] + b; WeightAppend(a[1..], b); }
  }

  lemma WeightOne(job: Job)
    ensures Weight([job]) == JobWeight(job)
  {
    assert [job][1..] == [];
  }

  lemma WeightPut(jobs: seq<Job>, j: nat, now: seq<Job>)
    requires j < |jobs|
    ensures Weight(Put(jobs, j, now)) == Weight(jobs) - JobWeight(jobs[j]) + Weight(now)
  {
    hide Weight;
    var a, b := jobs[..j], jobs[j + 1..];
    assert jobs == a + [jobs[j]] + b && Put(jobs, j, now) == a + now + b;
    WeightAppend(a, [jobs[j]]);
    WeightAppend(a + [jobs[j]], b);
    WeightAppend(a, now);
    WeightAppend(a + now, b);
    WeightOne(jobs[j]);
  }

  function MainWeight(s: State): int {
    match s.main
    case Loading(next) => 2 + 7 * (|s.trees| - next) + 3 * next
    case Walking(next) => 1 + 3 * (|s.trees| - next)
    case _ => 0
  }

  /** An upper bound for the number of steps left. */
  ghost function Fuel(src: Store, root: Entry, n: nat, s: State): int {
    16 * (|Reach(src, root, n)| - |s.index|) + 9 * |s.found| + Weight(s.jobs) + MainWeight(s)
  }

  /** Task j becomes `now`: the rest of the state decides the rest. */
  lemma PutShrinks(src: Store, root: Entry, n: nat, s: State, s': State, j: nat, now: seq<Job>)
    requires j < |s.jobs| && s'.jobs == Put(s.jobs, j, now) && s'.main == s.main && s'.trees == s.trees
    requires 9 * |s'.found| - 16 * |s'.index| + Weight(now) < 9 * |s.found| - 16 * |s.index| + JobWeight(s.jobs[j])
    ensures Fuel(src, root, n, s') < Fuel(src, root, n, s)
  {
    hide Reach, Weight, Put;
    WeightPut(s.jobs, j, now);
  }

  lemma GetShrinks(remote: Objects, src: Store, root: Entry, n: nat, s: State, s': State, j: nat)
    requires j < |s.jobs| && s.jobs[j].Get? && Work(remote, s, s', j)
    ensures Fuel(src, root, n, s') < Fuel(src, root, n, s)
  {
    hide Weight, Put, Readable, Children, Fuel, AfterGet;
    GetChanges(remote, s, j);
    WeightNone();
    var now := NowGet(remote, s, j);
    if now != [] { WeightOne(now[0]); assert now == [now[0]]; }
    PutShrinks(src, root, n, s, s', j, now);
  }

  lemma OtherShrinks(remote: Objects, src: Store, root: Entry, n: nat, s: State, s': State, j: nat)
    requires j < |s.jobs| && !s.jobs[j].Get? && Work(remote, s, s', j)
    ensures Fuel(src, root, n, s') < Fuel(src, root, n, s)
  {
    hide Weight, Put, Readable, Children, Fuel, AfterGet;
    OtherChanges(remote, s, s', j);
    WeightNone();
    match s.jobs[j] {
      case Walk(todo) => if todo != [] { WeightOne(Dispatch(todo[0], todo[1..])); }
      case Dispatch(e, todo) => WeightTwo(Walk(todo), Fetch(e.hash, false));
      case Fetch(d, _) => WeightOne(Fetch(d, true));
      case Get(_, _) => {}
    }
    PutShrinks(src, root, n, s, s', j, NowOther(s, j));
  }

  lemma WorkShrinks(remote: Objects, src: Store, root: Entry, n: nat, s: State, s': State, j: nat)
    requires j < |s.jobs| && Work(remote, s, s', j)
    ensures Fuel(src, root, n, s') < Fuel(src, root, n, s)
  {
    hide Work, Fuel;
    if s.jobs[j].Get? {
      GetShrinks(remote, src, root, n, s, s', j);
    } else {
      OtherShrinks(remote, src, root, n, s, s', j);
    }
  }

  lemma WeightTwo(a: Job, b: Job)
    ensures Weight([a]) == JobWeight(a) && Weight([a, b]) == JobWeight(a) + JobWeight(b)
  {
    WeightOne(a);
    WeightOne(b);
    WeightAppend([a], [b]);
    assert [a] + [b] == [a, b];
  }

  lemma WeightNone()
    ensures Weight([]) == 0
  {}

  lemma MainShrinks(src: Store, root: Entry, n: nat, s: State, s': State)
    requires Orderly(s) && (EnqueueGet(s, s') || AllLoaded(s, s') || EnqueueWalk(s, s') || AllWalked(s, s'))
    ensures Fuel(src, root, n, s') < Fuel(src, root, n, s)
  {
    hide Reach, Weight, KidsRead, KidsComing;
    if s.main.next < |s.trees| {
      var job := s'.jobs[|s.jobs|];
      WeightAppend(s.jobs, [job]);
      WeightOne(job);
    }
  }

  lemma StepShrinks(remote: Objects, src: Store, files: set<Digest>, root: Entry, n: nat, s: State, s': State)
    requires Exact(remote, src, files, root, n, s) && Step(remote, s, s') && FilesThere(src, files, root, n)
    ensures 0 <= Fuel(src, root, n, s') < Fuel(src, root, n, s)
  {
    StepExact(remote, src, files, root, n, s, s');
    FuelPositive(remote, src, files, root, n, s');
    ExactOrderly(remote, src, files, root, n, s);
    hide Exact, Orderly, Fuel, Work, EnqueueGet, AllLoaded, EnqueueWalk, AllWalked;
    if EnqueueGet(s, s') || AllLoaded(s, s') || EnqueueWalk(s, s') || AllWalked(s, s') {
      MainShrinks(src, root, n, s, s');
    } else {
      var j :| 0 <= j < |s.jobs| && Work(remote, s, s', j);
      WorkShrinks(remote, src, root, n, s, s', j);
    }
  }

  lemma FuelPositive(remote: Objects, src: Store, files: set<Digest>, root: Entry, n: nat, s: State)
    requires Exact(remote, src, files, root, n, s)
    ensures Fuel(src, root, n, s) >= 0
  {
    hide Reach, Weight, KidsRead, KidsComing, Pending, BelowDirs, JobsOk, DirsOk, Sources, FileSources;
    assert |multiset(s.index)| == |s.index|;
  }

  // ---------------------------------------------------------------- every run

  lemma {:induction false} RunExact(remote: Objects, root: Entry, local: Objects, n: nat, run: seq<State>, i: nat)
    requires Run(remote, root, local, run) && Complete(Sources(remote, local), root, n) && root.kind == Directory
    requires i < |run|
    requires FilesThere(Sources(remote, local), FileSources(remote, local), root, n)
    ensures Exact(remote, Sources(remote, local), FileSources(remote, local), root, n, run[i])
    ensures i + Fuel(Sources(remote, local), root, n, run[i]) <= 16 * |Reach(Sources(remote, local), root, n)| + 9
  {
    hide Exact, Step, Complete, Fuel, FilesThere, Sources, FileSources;
    var src, files := Sources(remote, local), FileSources(remote, local);
    if i == 0 {
      StartExact(remote, local, root, n);
      FuelStart(src, root, n, local);
    } else {
      RunExact(remote, root, local, n, run, i - 1);
      assert Step(remote, run[i - 1], run[i - 1 + 1]);
      StepExact(remote, src, files, root, n, run[i - 1], run[i]);
      StepShrinks(remote, src, files, root, n, run[i - 1], run[i]);
    }
  }

  lemma FuelStart(src: Store, root: Entry, n: nat, local: Objects)
    ensures Fuel(src, root, n, Start(root, local)) == 16 * |Reach(src, root, n)| + 9
  {
    hide Reach;
  }

  /** When cache and remote together hold the whole tree, a pull does not throw, is never stuck and
      ends after a bounded number of steps; the index is then exactly everything below the root. */
  lemma PullExactly(remote: Objects, root: Entry, local: Objects, n: nat, run: seq<State>)
    requires Run(remote, root, local, run) && Complete(Sources(remote, local), root, n) && root.kind == Directory
    requires FilesThere(Sources(remote, local), FileSources(remote, local), root, n)
    ensures |run| <= 16 * |Reach(Sources(remote, local), root, n)| + 10
    ensures var s := run[|run| - 1]; s.main != Threw && (s.main != Returned ==> exists s' :: Step(remote, s, s'))
    ensures var s := run[|run| - 1]; s.main == Returned ==> multiset(s.index) == Reach(Sources(remote, local), root, n)
  {
    var s, src, files := run[|run| - 1], Sources(remote, local), FileSources(remote, local);
    hide Step, Complete, FilesThere, Sources, FileSources, Reach, Fuel;
    RunExact(remote, root, local, n, run, |run| - 1);
    FuelPositive(remote, src, files, root, n, s);
    ExactOrderly(remote, src, files, root, n, s);
    if s.main == Returned {
      NothingToCome(remote, src, files, root, n, s);
    } else {
      NotThrown(remote, src, files, root, n, s);
      Progress(remote, s);
    }
  }

  lemma NotThrown(remote: Objects, src: Store, files: set<Digest>, root: Entry, n: nat, s: State)
    requires Exact(remote, src, files, root, n, s)
    ensures s.main != Threw
  {}

  lemma NothingToCome(remote: Objects, src: Store, files: set<Digest>, root: Entry, n: nat, s: State)
    requires Exact(remote, src, files, root, n, s) && s.main == Returned
    ensures multiset(s.index) == Reach(src, root, n)
  {
    hide Reach, Sources, FileSources, JobsOk, DirsOk, KidsRead, KidsComing;
  }
}
