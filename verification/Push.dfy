/** cache::push: a main thread checks trees against the remote while workers push what is missing
    and put pushed trees back on the list of trees to check.  Every access to the remote, to the
    list and to the wait group is one step. */
module Push {
  import opened Entries
  import opened Sums

  /** A tree object refers to trees and files.  On the remote both are objects named by digest. */
  datatype Ref = TreeRef(d: Digest) | FileRef(d: Digest)

  /** The tree objects of the local cache, by digest. */
  type Graph = map<Digest, set<Ref>>

  /** The cache holds whole trees, and a tree cannot contain itself. */
  ghost predicate GraphOk(g: Graph, rank: Digest -> nat) {
    forall d, c :: d in g && c in g[d] && c.TreeRef? ==> c.d in g && rank(c.d) < rank(d)
  }

  /** From r one reaches x. */
  ghost predicate Reach(g: Graph, rank: Digest -> nat, r: Ref, x: Ref)
    requires GraphOk(g, rank)
    decreases if r.TreeRef? then rank(r.d) + 1 else 0
  {
    x == r || (r.TreeRef? && r.d in g && exists c :: c in g[r.d] && Reach(g, rank, c, x))
  }

  /** x is the first absent object on some walk from r through present trees. */
  ghost predicate FirstMissing(g: Graph, rank: Digest -> nat, r: Ref, x: Ref, present: set<Digest>)
    requires GraphOk(g, rank)
    decreases if r.TreeRef? then rank(r.d) + 1 else 0
  {
    if r.d !in present then x == r
    else r.TreeRef? && r.d in g && exists c :: c in g[r.d] && FirstMissing(g, rank, c, x, present)
  }

  /** Whatever is absent below r is below one of the objects first missing from r. */
  lemma {:induction false} MissingCovers(g: Graph, rank: Digest -> nat, r: Ref, x: Ref, present: set<Digest>)
    requires GraphOk(g, rank) && Reach(g, rank, r, x) && x.d !in present
    ensures exists m :: FirstMissing(g, rank, r, m, present) && Reach(g, rank, m, x)
    decreases if r.TreeRef? then rank(r.d) + 1 else 0
  {
    if r.d !in present {
      assert FirstMissing(g, rank, r, r, present);
    } else {
      var c :| c in g[r.d] && Reach(g, rank, c, x);
      MissingCovers(g, rank, c, x, present);
      var m :| FirstMissing(g, rank, c, m, present) && Reach(g, rank, m, x);
      assert FirstMissing(g, rank, r, m, present);
    }
  }

  lemma {:induction false} MissingIsAbsent(g: Graph, rank: Digest -> nat, r: Ref, x: Ref, present: set<Digest>)
    requires GraphOk(g, rank) && FirstMissing(g, rank, r, x, present)
    ensures x.d !in present && Reach(g, rank, r, x)
    decreases if r.TreeRef? then rank(r.d) + 1 else 0
  {
    if r.d in present {
      var c :| c in g[r.d] && FirstMissing(g, rank, c, x, present);
      MissingIsAbsent(g, rank, c, x, present);
    }
  }

  lemma {:induction false} ReachTransitive(g: Graph, rank: Digest -> nat, r: Ref, m: Ref, x: Ref)
    requires GraphOk(g, rank) && Reach(g, rank, r, m) && Reach(g, rank, m, x)
    ensures Reach(g, rank, r, x)
    decreases if r.TreeRef? then rank(r.d) + 1 else 0
  {
    if m != r {
      var c :| c in g[r.d] && Reach(g, rank, c, m);
      ReachTransitive(g, rank, c, m, x);
    }
  }

  /** Trees reached from a tree of the cache are in the cache and rank no higher. */
  lemma {:induction false} ReachRank(g: Graph, rank: Digest -> nat, r: Ref, x: Ref)
    requires GraphOk(g, rank) && Reach(g, rank, r, x) && r.TreeRef? && x.TreeRef? && r.d in g
    ensures x.d in g && rank(x.d) <= rank(r.d) && (x != r ==> rank(x.d) < rank(r.d))
    decreases rank(r.d)
  {
    if x != r {
      var c :| c in g[r.d] && Reach(g, rank, c, x);
      if c.TreeRef? { ReachRank(g, rank, c, x); }
    }
  }

  // ---------------------------------------------------------------- the protocol

  datatype Task =
    | PushFile(d: Digest)
    | PushTree(d: Digest)
    | Requeue(d: Digest)      // pushed, not yet back on the list
    | Finishing               // not yet taken off the wait group

  datatype Pc =
    | Pop
    | Query(h: Digest)
    | Spawn(trees: seq<Digest>, files: seq<Digest>)
    | Test                    // is there another tree to check already?
    | Wait
    | Loop                    // the condition of the loop, after the wait
    | Exit
    | Thrown

  /** `seen` is what the remote held when the last query began. */
  datatype State = State(remote: set<Digest>, seen: set<Digest>, check: seq<Digest>, tasks: seq<Task>, wg: int,
                         failed: bool, pc: Pc)

  /** What is pushed: the root digest, the index (links left out) and the kind of remote. */
  datatype Config = Config(g: Graph, root: Digest, index: set<Ref>, hasTree: bool)

  ghost predicate ConfigOk(k: Config, rank: Digest -> nat) {
    && GraphOk(k.g, rank) && k.root in k.g
    && (forall x :: x in k.index ==> Reach(k.g, rank, TreeRef(k.root), x))
    && (forall x :: Reach(k.g, rank, TreeRef(k.root), x) ==> x == TreeRef(k.root) || x in k.index)
  }

  function Init(k: Config, remote: set<Digest>): State {
    State(remote, remote, [k.root], [], 0, false, Pop)
  }

  /** remote::has_tree: what is first missing from h, at some moment of the query. */
  ghost predicate TreeAnswer(k: Config, rank: Digest -> nat, s: State, h: Digest, trees: seq<Digest>,
                             files: seq<Digest>)
    requires ConfigOk(k, rank)
  {
    exists present :: AnswerAt(k, rank, s, h, trees, files, present)
  }

  ghost predicate AnswerAt(k: Config, rank: Digest -> nat, s: State, h: Digest, trees: seq<Digest>, files: seq<Digest>,
                           present: set<Digest>)
    requires ConfigOk(k, rank)
  {
    && s.seen <= present <= s.remote
    && (forall d :: d in trees <==> FirstMissing(k.g, rank, TreeRef(h), TreeRef(d), present))
    && (forall d :: d in files <==> FirstMissing(k.g, rank, TreeRef(h), FileRef(d), present))
  }

  /** Where has_tree is not supported: has_object for h and for every inode of the index, each
      asked at its own moment. */
  ghost predicate ObjectAnswer(k: Config, s: State, h: Digest, trees: seq<Digest>, files: seq<Digest>) {
    && (forall d :: d in trees ==> (d == h || TreeRef(d) in k.index) && d !in s.seen)
    && (forall d :: d in files ==> FileRef(d) in k.index && d !in s.seen)
    && (forall d :: (d == h || TreeRef(d) in k.index) && d !in s.remote ==> d in trees)
    && (forall d :: FileRef(d) in k.index && d !in s.remote ==> d in files)
  }

  ghost predicate MainStep(k: Config, rank: Digest -> nat, s: State, s': State)
    requires ConfigOk(k, rank)
  {
    match s.pc
    case Pop =>
      s.check != [] &&
          s' == s.(pc := Query(s.check[|s.check| - 1]), check := s.check[..|s.check| - 1], seen := s.remote)
    case Query(h) =>
      && s'.pc.Spawn? && s' == s.(pc := s'.pc, seen := s.remote)
      && if k.hasTree then TreeAnswer(k, rank, s, h, s'.pc.trees, s'.pc.files)
         else ObjectAnswer(k, s, h, s'.pc.trees, s'.pc.files)
    case Spawn(trees, files) =>
      s' == if files != [] then
              s.(wg := s.wg + 1, tasks := s.tasks + [PushFile(files[0])], pc := Spawn(trees, files[1..]))
            else if trees != [] then
              s.(wg := s.wg + 1, tasks := s.tasks + [PushTree(trees[0])], pc := Spawn(trees[1..], files))
            else s.(pc := Test)
    case Test => s' == s.(pc := if s.check != [] then Pop else Wait)
    case Wait => s.wg <= 0 && s' == s.(pc := if s.failed then Thrown else Loop)
    case Loop => s' == s.(pc := if s.check != [] then Pop else Exit)
    case Exit => false
    case Thrown => false
  }

  function Drop(tasks: seq<Task>, i: nat): seq<Task>
    requires i < |tasks|
  {
    tasks[..i] + tasks[i + 1..]
  }

  /** One step of the task i; `fails` when the remote reports an error. */
  ghost predicate TaskStep(s: State, i: nat, fails: bool, s': State) {
    && i < |s.tasks| && !s.pc.Thrown?
    && match s.tasks[i]
       case PushFile(d) =>
         s' == if fails then s.(failed := true, wg := s.wg - 1, tasks := Drop(s.tasks, i))
               else s.(remote := s.remote + {d}, tasks := s.tasks[i := Finishing])
       case PushTree(d) =>
         s' == if fails then s.(failed := true, wg := s.wg - 1, tasks := Drop(s.tasks, i))
               else s.(remote := s.remote + {d}, tasks := s.tasks[i := Requeue(d)])
       case Requeue(d) => !fails && s' == s.(check := s.check + [d], tasks := s.tasks[i := Finishing])
       case Finishing => !fails && s' == s.(wg := s.wg - 1, tasks := Drop(s.tasks, i))
  }

  ghost predicate Step(k: Config, rank: Digest -> nat, s: State, s': State)
    requires ConfigOk(k, rank)
  {
    MainStep(k, rank, s, s') || exists i, fails :: TaskStep(s, i, fails, s')
  }

  // ---------------------------------------------------------------- safety

  /** Something that is still to happen will make x present or have it looked for. */
  ghost predicate Covered(k: Config, rank: Digest -> nat, s: State, x: Ref)
    requires ConfigOk(k, rank)
  {
    || (exists i :: 0 <= i < |s.tasks| && TaskCovers(k, rank, s.tasks[i], x))
    || (exists i :: 0 <= i < |s.check| && Reach(k.g, rank, TreeRef(s.check[i]), x))
    || PcCovers(k, rank, s.pc, x)
  }

  ghost predicate TaskCovers(k: Config, rank: Digest -> nat, t: Task, x: Ref)
    requires ConfigOk(k, rank)
  {
    match t
    case PushFile(d) => x == FileRef(d)
    case PushTree(d) => Reach(k.g, rank, TreeRef(d), x)
    case Requeue(d) => Reach(k.g, rank, TreeRef(d), x)
    case Finishing => false
  }

  ghost predicate PcCovers(k: Config, rank: Digest -> nat, pc: Pc, x: Ref)
    requires ConfigOk(k, rank)
  {
    match pc
    case Query(h) => Reach(k.g, rank, TreeRef(h), x)
    case Spawn(trees, files) =>
      || (exists i :: 0 <= i < |trees| && Reach(k.g, rank, TreeRef(trees[i]), x))
      || (exists i :: 0 <= i < |files| && x == FileRef(files[i]))
    case _ => false
  }

  /** Every tree the protocol handles is one of those to push. */
  ghost predicate Known(k: Config, rank: Digest -> nat, d: Digest)
    requires ConfigOk(k, rank)
  {
    Reach(k.g, rank, TreeRef(k.root), TreeRef(d))
  }

  ghost predicate TaskKnown(k: Config, rank: Digest -> nat, t: Task)
    requires ConfigOk(k, rank)
  {
    t.PushTree? || t.Requeue? ==> Known(k, rank, t.d)
  }

  ghost predicate PcKnown(k: Config, rank: Digest -> nat, pc: Pc)
    requires ConfigOk(k, rank)
  {
    match pc
    case Query(h) => Known(k, rank, h)
    case Spawn(trees, _) => forall i :: 0 <= i < |trees| ==> Known(k, rank, trees[i])
    case _ => true
  }

  ghost predicate Inv(k: Config, rank: Digest -> nat, s: State)
    requires ConfigOk(k, rank)
  {
    && s.wg == |s.tasks| && s.seen <= s.remote
    && (s.pc.Pop? ==> s.check != [])
    && (s.pc.Exit? ==> s.tasks == [] && s.check == [] && !s.failed)
    && (s.pc.Loop? ==> s.tasks == [] && !s.failed)
    && (forall i :: 0 <= i < |s.tasks| ==> TaskKnown(k, rank, s.tasks[i]))
    && (forall i :: 0 <= i < |s.check| ==> Known(k, rank, s.check[i]))
    && PcKnown(k, rank, s.pc)
    && (!s.failed ==> AllCovered(k, rank, s))
  }

  /** Everything below the root that the remote lacks is covered. */
  ghost predicate AllCovered(k: Config, rank: Digest -> nat, s: State)
    requires ConfigOk(k, rank)
  {
    forall x :: Reach(k.g, rank, TreeRef(k.root), x) && x.d !in s.remote ==> Covered(k, rank, s, x)
  }

  lemma InitInv(k: Config, rank: Digest -> nat, remote: set<Digest>)
    requires ConfigOk(k, rank)
    ensures Inv(k, rank, Init(k, remote))
  {
    var s := Init(k, remote);
    forall x | Reach(k.g, rank, TreeRef(k.root), x)
      ensures Covered(k, rank, s, x)
    {
      assert Reach(k.g, rank, TreeRef(s.check[0]), x);
    }
  }

  lemma PopKeeps(k: Config, rank: Digest -> nat, s: State, s': State)
    requires ConfigOk(k, rank) && Inv(k, rank, s) && s.pc.Pop? && MainStep(k, rank, s, s')
    ensures Inv(k, rank, s')
  {
    if !s.failed {
      forall x | Reach(k.g, rank, TreeRef(k.root), x) && x.d !in s'.remote
        ensures Covered(k, rank, s', x)
      {
        assert Covered(k, rank, s, x);
        if i :| 0 <= i < |s.check| && Reach(k.g, rank, TreeRef(s.check[i]), x) {
          if i < |s'.check| { assert s'.check[i] == s.check[i]; }
        }
      }
    }
  }

  /** Both kinds of remote report something that covers whatever is absent below h. */
  lemma AnswerCovers(k: Config, rank: Digest -> nat, s: State, s': State, h: Digest, x: Ref)
    requires ConfigOk(k, rank) && s.pc == Query(h) && MainStep(k, rank, s, s') && s.seen <= s.remote
    requires Known(k, rank, h) && Reach(k.g, rank, TreeRef(h), x) && x.d !in s.remote
    ensures PcCovers(k, rank, s'.pc, x)
  {
    var trees, files := s'.pc.trees, s'.pc.files;
    if k.hasTree {
      var present :| AnswerAt(k, rank, s, h, trees, files, present);
      MissingCovers(k.g, rank, TreeRef(h), x, present);
      var m :| FirstMissing(k.g, rank, TreeRef(h), m, present) && Reach(k.g, rank, m, x);
      if m.TreeRef? {
        assert m.d in trees;
        var i :| 0 <= i < |trees| && trees[i] == m.d;
      } else {
        assert m.d in files && x == m;
        var i :| 0 <= i < |files| && files[i] == m.d;
      }
    } else {
      ReachTransitive(k.g, rank, TreeRef(k.root), TreeRef(h), x);
      if x == TreeRef(k.root) && h != k.root {
        ReachRank(k.g, rank, TreeRef(k.root), TreeRef(h));
        ReachRank(k.g, rank, TreeRef(h), x);
      }
      if x.TreeRef? {
        assert x.d in trees;
        var i :| 0 <= i < |trees| && trees[i] == x.d;
      } else {
        assert x.d in files;
        var i :| 0 <= i < |files| && files[i] == x.d;
      }
    }
  }

  lemma AnswerKnown(k: Config, rank: Digest -> nat, s: State, s': State, h: Digest, d: Digest)
    requires ConfigOk(k, rank) && s.pc == Query(h) && MainStep(k, rank, s, s')
    requires Known(k, rank, h) && d in s'.pc.trees
    ensures Known(k, rank, d) && d !in s.seen
  {
    if k.hasTree {
      var present :| AnswerAt(k, rank, s, h, s'.pc.trees, s'.pc.files, present);
      MissingIsAbsent(k.g, rank, TreeRef(h), TreeRef(d), present);
      ReachTransitive(k.g, rank, TreeRef(k.root), TreeRef(h), TreeRef(d));
    }
  }

  lemma QueryKeeps(k: Config, rank: Digest -> nat, s: State, s': State)
    requires ConfigOk(k, rank) && Inv(k, rank, s) && s.pc.Query? && MainStep(k, rank, s, s')
    ensures Inv(k, rank, s')
  {
    var h := s.pc.h;
    forall i | 0 <= i < |s'.pc.trees| ensures Known(k, rank, s'.pc.trees[i]) {
      AnswerKnown(k, rank, s, s', h, s'.pc.trees[i]);
    }
    if !s.failed {
      forall x | Reach(k.g, rank, TreeRef(k.root), x) && x.d !in s'.remote
        ensures Covered(k, rank, s', x)
      {
        assert Covered(k, rank, s, x);
        if PcCovers(k, rank, s.pc, x) { AnswerCovers(k, rank, s, s', h, x); }
      }
    }
  }

  lemma SpawnKeeps(k: Config, rank: Digest -> nat, s: State, s': State)
    requires ConfigOk(k, rank) && Inv(k, rank, s) && s.pc.Spawn? && MainStep(k, rank, s, s')
    ensures Inv(k, rank, s')
  {
    if !s.failed {
      forall x | Reach(k.g, rank, TreeRef(k.root), x) && x.d !in s'.remote
        ensures Covered(k, rank, s', x)
      {
        assert Covered(k, rank, s, x);
        SpawnCovers(k, rank, s, s', x);
      }
    }
  }

  lemma SpawnCovers(k: Config, rank: Digest -> nat, s: State, s': State, x: Ref)
    requires ConfigOk(k, rank) && s.pc.Spawn? && MainStep(k, rank, s, s') && Covered(k, rank, s, x)
    ensures Covered(k, rank, s', x)
  {
    var n := |s.tasks|;
    if i :| 0 <= i < n && TaskCovers(k, rank, s.tasks[i], x) {
      assert s'.tasks[i] == s.tasks[i];
    } else if i :| 0 <= i < |s.check| && Reach(k.g, rank, TreeRef(s.check[i]), x) {
      assert s'.check[i] == s.check[i];
    } else if i :| 0 <= i < |s.pc.trees| && Reach(k.g, rank, TreeRef(s.pc.trees[i]), x) {
      if s.pc.files != [] { assert s'.pc.trees[i] == s.pc.trees[i]; }
      else if i == 0 { assert TaskCovers(k, rank, s'.tasks[n], x); }
      else { assert s'.pc.trees[i - 1] == s.pc.trees[i]; }
    } else {
      var i :| 0 <= i < |s.pc.files| && x == FileRef(s.pc.files[i]);
      if i == 0 { assert TaskCovers(k, rank, s'.tasks[n], x); }
      else { assert s'.pc.files[i - 1] == s.pc.files[i]; }
    }
  }

  lemma MainKeeps(k: Config, rank: Digest -> nat, s: State, s': State)
    requires ConfigOk(k, rank) && Inv(k, rank, s) && MainStep(k, rank, s, s')
    ensures Inv(k, rank, s')
  {
    if s.pc.Pop? { PopKeeps(k, rank, s, s'); }
    else if s.pc.Query? { QueryKeeps(k, rank, s, s'); }
    else if s.pc.Spawn? { SpawnKeeps(k, rank, s, s'); }
    else { TurnKeeps(k, rank, s, s'); }
  }

  lemma TurnKeeps(k: Config, rank: Digest -> nat, s: State, s': State)
    requires ConfigOk(k, rank) && Inv(k, rank, s) && MainStep(k, rank, s, s')
    requires (s.pc.Test? || s.pc.Wait? || s.pc.Loop?)
    ensures Inv(k, rank, s')
  {
    if !s.failed {
      forall x | Reach(k.g, rank, TreeRef(k.root), x) && x.d !in s'.remote
        ensures Covered(k, rank, s', x)
      {
        assert Covered(k, rank, s, x);
      }
    }
  }

  lemma TaskKeepsCover(k: Config, rank: Digest -> nat, s: State, i: nat, s': State, x: Ref)
    requires ConfigOk(k, rank) && TaskStep(s, i, false, s') && Covered(k, rank, s, x) && x.d !in s'.remote
    ensures Covered(k, rank, s', x)
  {
    if j :| 0 <= j < |s.tasks| && TaskCovers(k, rank, s.tasks[j], x) {
      if j != i {
        if s.tasks[i].Finishing? {
          assert s'.tasks[if j < i then j else j - 1] == s.tasks[j];
        } else {
          assert s'.tasks[j] == s.tasks[j];
        }
      } else if s.tasks[i].Requeue? {
        assert s'.check[|s.check|] == s.tasks[i].d;
      } else {
        assert TaskCovers(k, rank, s'.tasks[i], x);
      }
    } else if j :| 0 <= j < |s.check| && Reach(k.g, rank, TreeRef(s.check[j]), x) {
      assert s'.check[j] == s.check[j];
    }
  }

  lemma TaskKeeps(k: Config, rank: Digest -> nat, s: State, i: nat, fails: bool, s': State)
    requires ConfigOk(k, rank) && Inv(k, rank, s) && TaskStep(s, i, fails, s')
    ensures Inv(k, rank, s')
  {
    forall j | 0 <= j < |s'.tasks| ensures TaskKnown(k, rank, s'.tasks[j]) {
      if |s'.tasks| == |s.tasks| {
        if j != i { assert s'.tasks[j] == s.tasks[j]; } else { assert TaskKnown(k, rank, s.tasks[i]); }
      } else {
        assert s'.tasks[j] == s.tasks[if j < i then j else j + 1];
      }
    }
    assert TaskKnown(k, rank, s.tasks[i]);
    if !s'.failed {
      forall x | Reach(k.g, rank, TreeRef(k.root), x) && x.d !in s'.remote
        ensures Covered(k, rank, s', x)
      {
        assert Covered(k, rank, s, x);
        TaskKeepsCover(k, rank, s, i, s', x);
      }
    }
  }

  lemma StepKeeps(k: Config, rank: Digest -> nat, s: State, s': State)
    requires ConfigOk(k, rank) && Inv(k, rank, s) && Step(k, rank, s, s')
    ensures Inv(k, rank, s')
  {
    if MainStep(k, rank, s, s') {
      MainKeeps(k, rank, s, s');
    } else {
      var i, fails :| TaskStep(s, i, fails, s');
      TaskKeeps(k, rank, s, i, fails, s');
    }
  }

  /** The states of a run, from an arbitrary remote. */
  ghost predicate Run(k: Config, rank: Digest -> nat, remote: set<Digest>, run: seq<State>)
    requires ConfigOk(k, rank)
  {
    && run != [] && run[0] == Init(k, remote)
    && forall i :: 0 <= i < |run| - 1 ==> Step(k, rank, run[i], run[i + 1])
  }

  lemma {:induction false} RunInv(k: Config, rank: Digest -> nat, remote: set<Digest>, run: seq<State>, i: nat)
    requires ConfigOk(k, rank) && Run(k, rank, remote, run) && i < |run|
    ensures Inv(k, rank, run[i])
  {
    if i == 0 {
      InitInv(k, rank, remote);
    } else {
      RunInv(k, rank, remote, run, i - 1);
      StepKeeps(k, rank, run[i - 1], run[i]);
    }
  }

  /** In every interleaving, with either kind of remote: while no push has failed everything the
      remote lacks is in flight or below a tree in flight or still to be checked; and when push
      returns, the remote holds everything below the root. */
  lemma PushSafety(k: Config, rank: Digest -> nat, remote: set<Digest>, run: seq<State>, i: nat, x: Ref)
    requires ConfigOk(k, rank) && Run(k, rank, remote, run) && i < |run|
    requires Reach(k.g, rank, TreeRef(k.root), x)
    ensures !run[i].failed && x.d !in run[i].remote ==> Covered(k, rank, run[i], x)
    ensures run[i].pc.Exit? ==> x.d in run[i].remote
    ensures run[i].pc.Pop? ==> run[i].check != []
  {
    RunInv(k, rank, remote, run, i);
  }

  // ---------------------------------------------------------------- termination

  /** Trees that the remote lacks, now and when the last query began. */
  function MissingTrees(k: Config, s: State): nat {
    |k.g.Keys - s.remote| + |k.g.Keys - s.seen|
  }

  /** Checks to come.  A push of a tree that the remote lacks costs nothing here: it makes a tree
      present. */
  function TaskChecks(t: Task, remote: set<Digest>): nat {
    match t
    case PushTree(d) => if d in remote then 4 else 0
    case Requeue(_) => 3
    case _ => 0
  }

  function TasksChecks(tasks: seq<Task>, remote: set<Digest>): seq<nat> {
    seq(|tasks|, i requires 0 <= i < |tasks| => TaskChecks(tasks[i], remote))
  }

  function SpawnChecks(trees: seq<Digest>, remote: set<Digest>): seq<nat> {
    seq(|trees|, i requires 0 <= i < |trees| => TaskChecks(PushTree(trees[i]), remote))
  }

  function PcChecks(pc: Pc, remote: set<Digest>): nat {
    match pc
    case Query(_) => 1
    case Spawn(trees, _) => Sum(SpawnChecks(trees, remote))
    case _ => 0
  }

  function Checks(s: State): nat {
    Sum(TasksChecks(s.tasks, s.remote)) + 2 * |s.check| + PcChecks(s.pc, s.remote)
  }

  /** Turns of the main thread and of the workers that involve no check. */
  function TaskTurns(t: Task): nat {
    match t
    case PushFile(_) => 2
    case PushTree(_) => 3
    case Requeue(_) => 2
    case Finishing => 1
  }

  function TasksTurns(tasks: seq<Task>): seq<nat> {
    seq(|tasks|, i requires 0 <= i < |tasks| => TaskTurns(tasks[i]))
  }

  function PcTurns(pc: Pc): nat {
    match pc
    case Spawn(trees, files) => 4 + 4 * (|trees| + |files|)
    case Test => 3
    case Wait => 2
    case Loop => 1
    case _ => 0
  }

  function Turns(s: State): nat { Sum(TasksTurns(s.tasks)) + PcTurns(s.pc) }

  /** The measure: missing trees, then checks, then turns. */
  predicate Smaller(k: Config, s': State, s: State) {
    || MissingTrees(k, s') < MissingTrees(k, s)
    || (MissingTrees(k, s') == MissingTrees(k, s) &&
       (Checks(s') < Checks(s) || (Checks(s') == Checks(s) && Turns(s') < Turns(s))))
  }

  /** The remote only grows; either it gains a tree or it lacks the same trees as before. */
  lemma MissingShrinks(k: Config, s: State, s': State)
    requires s.remote <= s'.remote && s.seen <= s'.seen
    ensures MissingTrees(k, s') <= MissingTrees(k, s)
    ensures MissingTrees(k, s') == MissingTrees(k, s)
      ==> k.g.Keys - s'.remote == k.g.Keys - s.remote && k.g.Keys - s'.seen == k.g.Keys - s.seen
  {
    SubsetSize(k.g.Keys - s.remote, k.g.Keys - s'.remote);
    SubsetSize(k.g.Keys - s.seen, k.g.Keys - s'.seen);
  }

  lemma KnownInCache(k: Config, rank: Digest -> nat, d: Digest)
    requires ConfigOk(k, rank) && Known(k, rank, d)
    ensures d in k.g
  {
    ReachRank(k.g, rank, TreeRef(k.root), TreeRef(d));
  }

  /** A remote that lacks the same trees of the cache gives the same count. */
  lemma SameChecks(k: Config, rank: Digest -> nat, tasks: seq<Task>, pc: Pc, a: set<Digest>, b: set<Digest>)
    requires ConfigOk(k, rank) && k.g.Keys - a == k.g.Keys - b
    requires (forall i :: 0 <= i < |tasks| ==> TaskKnown(k, rank, tasks[i])) && PcKnown(k, rank, pc)
    ensures TasksChecks(tasks, a) == TasksChecks(tasks, b) && PcChecks(pc, a) == PcChecks(pc, b)
  {
    forall d | Known(k, rank, d)
      ensures d in a <==> d in b
    {
      KnownInCache(k, rank, d);
      assert d in a <==> d !in k.g.Keys - a;
      assert d in b <==> d !in k.g.Keys - b;
    }
    forall i | 0 <= i < |tasks| ensures TaskChecks(tasks[i], a) == TaskChecks(tasks[i], b) {
      assert TaskKnown(k, rank, tasks[i]);
    }
    if pc.Spawn? { assert SpawnChecks(pc.trees, a) == SpawnChecks(pc.trees, b); }
  }

  lemma AnswerShrinks(k: Config, rank: Digest -> nat, s: State, s': State)
    requires ConfigOk(k, rank) && Inv(k, rank, s) && s.pc.Query? && MainStep(k, rank, s, s')
    ensures Smaller(k, s', s)
  {
    MissingShrinks(k, s, s');
    if MissingTrees(k, s') == MissingTrees(k, s) {
      var trees := s'.pc.trees;
      forall i | 0 <= i < |trees| ensures SpawnChecks(trees, s.remote)[i] == 0 {
        AnswerKnown(k, rank, s, s', s.pc.h, trees[i]);
        KnownInCache(k, rank, trees[i]);
        assert trees[i] in k.g.Keys - s.seen;
      }
      SumZero(SpawnChecks(trees, s.remote));
    }
  }

  lemma AppendSums(tasks: seq<Task>, t: Task, remote: set<Digest>)
    ensures Sum(TasksChecks(tasks + [t], remote)) == Sum(TasksChecks(tasks, remote)) + TaskChecks(t, remote)
    ensures Sum(TasksTurns(tasks + [t])) == Sum(TasksTurns(tasks)) + TaskTurns(t)
  {
    hide TaskChecks;
    var c, u := TaskChecks(t, remote), TaskTurns(t);
    assert TasksChecks(tasks + [t], remote) == TasksChecks(tasks, remote) + [c];
    assert TasksTurns(tasks + [t]) == TasksTurns(tasks) + [u];
    SumAppend(TasksChecks(tasks, remote), [c]);
    SumAppend(TasksTurns(tasks), [u]);
    assert Sum([c]) == c && Sum([u]) == u;
  }

  lemma SpawnHead(trees: seq<Digest>, remote: set<Digest>)
    requires trees != []
    ensures SpawnChecks(trees, remote)[1..] == SpawnChecks(trees[1..], remote)
  {}

  lemma SpawnShrinks(k: Config, rank: Digest -> nat, s: State, s': State)
    requires ConfigOk(k, rank) && s.pc.Spawn? && MainStep(k, rank, s, s')
    ensures Smaller(k, s', s)
  {
    hide ConfigOk, TasksChecks, TasksTurns, SpawnChecks;
    if s.pc.files != [] {
      AppendSums(s.tasks, PushFile(s.pc.files[0]), s.remote);
    } else if s.pc.trees != [] {
      AppendSums(s.tasks, PushTree(s.pc.trees[0]), s.remote);
      SpawnHead(s.pc.trees, s.remote);
      SpawnFirst(s.pc.trees, s.remote);
    }
  }

  lemma SpawnFirst(trees: seq<Digest>, remote: set<Digest>)
    requires trees != []
    ensures Sum(SpawnChecks(trees, remote)) ==
              TaskChecks(PushTree(trees[0]), remote) + Sum(SpawnChecks(trees[1..], remote))
  {
    SpawnHead(trees, remote);
  }

  lemma AllKnown(k: Config, rank: Digest -> nat, s: State)
    requires ConfigOk(k, rank) && Inv(k, rank, s)
    ensures (forall i :: 0 <= i < |s.tasks| ==> TaskKnown(k, rank, s.tasks[i])) && PcKnown(k, rank, s.pc)
    ensures s.seen <= s.remote
  {}

  lemma ReplaceSums(tasks: seq<Task>, i: nat, t: Task, remote: set<Digest>)
    requires i < |tasks|
    ensures Sum(TasksChecks(tasks[i := t], remote))
         == Sum(TasksChecks(tasks, remote)) - TaskChecks(tasks[i], remote) + TaskChecks(t, remote)
    ensures Sum(TasksTurns(tasks[i := t])) == Sum(TasksTurns(tasks)) - TaskTurns(tasks[i]) + TaskTurns(t)
  {
    assert TasksChecks(tasks[i := t], remote) == TasksChecks(tasks, remote)[i := TaskChecks(t, remote)];
    SumUpdate(TasksChecks(tasks, remote), i, TaskChecks(t, remote));
    assert TasksTurns(tasks[i := t]) == TasksTurns(tasks)[i := TaskTurns(t)];
    SumUpdate(TasksTurns(tasks), i, TaskTurns(t));
  }

  lemma DropSums(tasks: seq<Task>, i: nat, remote: set<Digest>)
    requires i < |tasks|
    ensures Sum(TasksChecks(Drop(tasks, i), remote)) == Sum(TasksChecks(tasks, remote)) - TaskChecks(tasks[i], remote)
    ensures Sum(TasksTurns(Drop(tasks, i))) == Sum(TasksTurns(tasks)) - TaskTurns(tasks[i])
  {
    var was, turns := TasksChecks(tasks, remote), TasksTurns(tasks);
    assert TasksChecks(Drop(tasks, i), remote) == was[..i] + was[i + 1..];
    SumDrop(was, i);
    assert TasksTurns(Drop(tasks, i)) == turns[..i] + turns[i + 1..];
    SumDrop(turns, i);
  }

  /** A task's step, counted against the remote it leaves: a pushed tree is one check nearer its end. */
  lemma TaskSums(s: State, i: nat, fails: bool, s': State)
    requires TaskStep(s, i, fails, s')
    ensures s.remote <= s'.remote && s.seen == s'.seen
    ensures var was := Sum(TasksChecks(s.tasks, s'.remote)) + 2 * |s.check| + PcChecks(s.pc, s'.remote);
            Checks(s') < was || (Checks(s') == was && Turns(s') < Turns(s))
  {
    hide TasksChecks, TasksTurns, Sum, PcChecks, PcTurns;
    if |s'.tasks| == |s.tasks| {
      ReplaceSums(s.tasks, i, s'.tasks[i], s'.remote);
    } else {
      DropSums(s.tasks, i, s'.remote);
    }
  }

  lemma TaskShrinks(k: Config, rank: Digest -> nat, s: State, i: nat, fails: bool, s': State)
    requires ConfigOk(k, rank) && Inv(k, rank, s) && TaskStep(s, i, fails, s')
    ensures Smaller(k, s', s)
  {
    hide Inv, ConfigOk, TaskStep, TaskKnown, PcKnown, TasksChecks, Sum, PcChecks, Turns, MissingTrees;
    AllKnown(k, rank, s);
    TaskSums(s, i, fails, s');
    MissingShrinks(k, s, s');
    if MissingTrees(k, s') == MissingTrees(k, s) {
      SameChecks(k, rank, s.tasks, s.pc, s.remote, s'.remote);
    }
  }

  /** Every step, also a repeated push of the same tree, makes the measure smaller. */
  lemma StepShrinks(k: Config, rank: Digest -> nat, s: State, s': State)
    requires ConfigOk(k, rank) && Inv(k, rank, s) && Step(k, rank, s, s')
    ensures Smaller(k, s', s)
  {
    if MainStep(k, rank, s, s') {
      if s.pc.Query? { AnswerShrinks(k, rank, s, s'); }
      else if s.pc.Spawn? { SpawnShrinks(k, rank, s, s'); }
      else { MissingShrinks(k, s, s'); }
    } else {
      var i, fails :| TaskStep(s, i, fails, s');
      TaskShrinks(k, rank, s, i, fails, s');
    }
  }

  lemma {:induction false} RunStops(k: Config, rank: Digest -> nat, trace: nat -> State, i: nat)
    requires ConfigOk(k, rank) && Inv(k, rank, trace(i))
    ensures exists j: nat :: j >= i && !Step(k, rank, trace(j), trace(j + 1))
    decreases MissingTrees(k, trace(i)), Checks(trace(i)), Turns(trace(i))
  {
    if Step(k, rank, trace(i), trace(i + 1)) {
      StepKeeps(k, rank, trace(i), trace(i + 1));
      StepShrinks(k, rank, trace(i), trace(i + 1));
      RunStops(k, rank, trace, i + 1);
    }
  }

  /** There is no infinite run, whatever the scheduler and the remote do. */
  lemma PushTerminates(k: Config, rank: Digest -> nat, remote: set<Digest>, trace: nat -> State)
    requires ConfigOk(k, rank) && trace(0) == Init(k, remote)
    ensures exists j: nat :: !Step(k, rank, trace(j), trace(j + 1))
  {
    InitInv(k, rank, remote);
    RunStops(k, rank, trace, 0);
  }

  // ---------------------------------------------------------------- progress

  ghost function Listed(s: set<Digest>): (q: seq<Digest>)
    ensures forall d :: d in q <==> d in s
  {
    if s == {} then [] else var d :| d in s; [d] + Listed(s - {d})
  }

  /** The digests mentioned in the cache. */
  function Mentioned(g: Graph): set<Digest> { set d, c | d in g && c in g[d] :: c.d }

  lemma {:induction false} ReachMentioned(g: Graph, rank: Digest -> nat, r: Ref, x: Ref)
    requires GraphOk(g, rank) && Reach(g, rank, r, x)
    ensures x == r || x.d in Mentioned(g)
    decreases if r.TreeRef? then rank(r.d) + 1 else 0
  {
    if x != r {
      var c :| c in g[r.d] && Reach(g, rank, c, x);
      ReachMentioned(g, rank, c, x);
    }
  }

  /** Every query has an answer. */
  lemma AnswerExists(k: Config, rank: Digest -> nat, s: State, h: Digest)
    returns (trees: seq<Digest>, files: seq<Digest>)
    requires ConfigOk(k, rank) && s.seen <= s.remote
    ensures if k.hasTree then TreeAnswer(k, rank, s, h, trees, files) else ObjectAnswer(k, s, h, trees, files)
  {
    if k.hasTree {
      var all := Mentioned(k.g) + {h};
      trees := Listed(set d | d in all && FirstMissing(k.g, rank, TreeRef(h), TreeRef(d), s.remote));
      files := Listed(set d | d in all && FirstMissing(k.g, rank, TreeRef(h), FileRef(d), s.remote));
      forall x | FirstMissing(k.g, rank, TreeRef(h), x, s.remote) ensures x.d in all {
        MissingIsAbsent(k.g, rank, TreeRef(h), x, s.remote);
        ReachMentioned(k.g, rank, TreeRef(h), x);
      }
      assert AnswerAt(k, rank, s, h, trees, files, s.remote);
    } else {
      var asked := k.index + {TreeRef(h)};
      trees := Listed(set x | x in asked && x.TreeRef? && x.d !in s.remote :: x.d);
      files := Listed(set x | x in asked && x.FileRef? && x.d !in s.remote :: x.d);
      forall d | (d == h || TreeRef(d) in k.index) && d !in s.remote ensures d in trees {
        assert TreeRef(d) in asked;
      }
      forall d | FileRef(d) in k.index && d !in s.remote ensures d in files {
        assert FileRef(d) in asked;
      }
    }
  }

  /** Until push returns or throws, the main thread or a worker can take a step. */
  lemma PushProgress(k: Config, rank: Digest -> nat, s: State)
    requires ConfigOk(k, rank) && Inv(k, rank, s) && !s.pc.Exit? && !s.pc.Thrown?
    ensures exists s' :: Step(k, rank, s, s')
  {
    if s.pc.Query? {
      var trees, files := AnswerExists(k, rank, s, s.pc.h);
      var s' := s.(pc := Spawn(trees, files), seen := s.remote);
      assert MainStep(k, rank, s, s') && Step(k, rank, s, s');
    } else if s.pc.Wait? && s.wg > 0 {
      var s' := match s.tasks[0]
        case PushFile(d) => s.(remote := s.remote + {d}, tasks := s.tasks[0 := Finishing])
        case PushTree(d) => s.(remote := s.remote + {d}, tasks := s.tasks[0 := Requeue(d)])
        case Requeue(d) => s.(check := s.check + [d], tasks := s.tasks[0 := Finishing])
        case Finishing => s.(wg := s.wg - 1, tasks := Drop(s.tasks, 0));
      assert TaskStep(s, 0, false, s') && Step(k, rank, s, s');
    } else {
      var s' := MainTurn(s);
      assert MainStep(k, rank, s, s') && Step(k, rank, s, s');
    }
  }

  /** The turn of the main thread where it does not depend on the remote. */
  function MainTurn(s: State): State {
    match s.pc
    case Pop => if s.check == [] then s
                else s.(pc := Query(s.check[|s.check| - 1]), check := s.check[..|s.check| - 1], seen := s.remote)
    case Spawn(trees, files) =>
      if files != [] then s.(wg := s.wg + 1, tasks := s.tasks + [PushFile(files[0])], pc := Spawn(trees, files[1..]))
      else if trees != [] then
        s.(wg := s.wg + 1, tasks := s.tasks + [PushTree(trees[0])], pc := Spawn(trees[1..], files))
      else s.(pc := Test)
    case Test => s.(pc := if s.check != [] then Pop else Wait)
    case Wait => s.(pc := if s.failed then Thrown else Loop)
    case Loop => s.(pc := if s.check != [] then Pop else Exit)
    case _ => s
  }
}
