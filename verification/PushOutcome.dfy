/** How a push ends: it throws exactly when some push to the remote has failed, and otherwise the remote has
    gained exactly what it lacked below the root. */
module PushOutcome {
  import opened Entries
  import opened Push

  // ---------------------------------------------------------------- throwing

  /** The remote reports an error to some task. */
  ghost predicate Fails(s: State, s': State) { exists i: nat :: TaskStep(s, i, true, s') }

  ghost predicate FailsBefore(run: seq<State>, i: nat)
    requires i < |run|
  {
    exists n: nat :: n < i && Fails(run[n], run[n + 1])
  }

  ghost predicate SomeFails(run: seq<State>) { run != [] && FailsBefore(run, |run| - 1) }

  ghost predicate CanStep(k: Config, rank: Digest -> nat, s: State)
    requires ConfigOk(k, rank)
  {
    exists s' :: Step(k, rank, s, s')
  }

  /** Failures are recorded when they happen and not forgotten; nothing else throws. */
  lemma StepFails(k: Config, rank: Digest -> nat, s: State, s': State)
    requires ConfigOk(k, rank) && Step(k, rank, s, s')
    ensures s'.failed <==> s.failed || Fails(s, s')
    ensures s'.pc.Thrown? ==> s.pc.Wait? && s.failed
  {
    hide ConfigOk, TreeAnswer, ObjectAnswer;
    if !MainStep(k, rank, s, s') {
      var i, fails :| TaskStep(s, i, fails, s');
      if s'.failed && !s.failed { assert TaskStep(s, i, true, s'); }
    }
  }

  lemma {:induction false} FailedIff(k: Config, rank: Digest -> nat, remote: set<Digest>, run: seq<State>, i: nat)
    requires ConfigOk(k, rank) && Run(k, rank, remote, run) && i < |run|
    ensures run[i].failed <==> FailsBefore(run, i)
    ensures run[i].pc.Thrown? ==> run[i].failed
  {
    hide ConfigOk, Step, Fails;
    if i > 0 {
      FailedIff(k, rank, remote, run, i - 1);
      assert Step(k, rank, run[i - 1], run[i]);
      StepFails(k, rank, run[i - 1], run[i]);
    }
  }

  // ---------------------------------------------------------------- what the remote gains

  /** The object lies below the root, and the remote did not hold it at the start. */
  ghost predicate Wanted(k: Config, rank: Digest -> nat, remote: set<Digest>, x: Ref)
    requires ConfigOk(k, rank)
  {
    Reach(k.g, rank, TreeRef(k.root), x) && x.d !in remote
  }

  ghost predicate TaskWanted(k: Config, rank: Digest -> nat, remote: set<Digest>, t: Task)
    requires ConfigOk(k, rank)
  {
    match t
    case PushFile(d) => Wanted(k, rank, remote, FileRef(d))
    case PushTree(d) => Wanted(k, rank, remote, TreeRef(d))
    case _ => true
  }

  ghost predicate TasksWanted(k: Config, rank: Digest -> nat, remote: set<Digest>, tasks: seq<Task>)
    requires ConfigOk(k, rank)
  {
    forall i :: 0 <= i < |tasks| ==> TaskWanted(k, rank, remote, tasks[i])
  }

  ghost predicate PcWanted(k: Config, rank: Digest -> nat, remote: set<Digest>, pc: Pc)
    requires ConfigOk(k, rank)
  {
    pc.Spawn? ==>
      && (forall i :: 0 <= i < |pc.trees| ==> Wanted(k, rank, remote, TreeRef(pc.trees[i])))
      && (forall i :: 0 <= i < |pc.files| ==> Wanted(k, rank, remote, FileRef(pc.files[i])))
  }

  ghost predicate Gained(k: Config, rank: Digest -> nat, remote: set<Digest>, now: set<Digest>)
    requires ConfigOk(k, rank)
  {
    remote <= now && forall d :: d in now && d !in remote ==> exists x :: Wanted(k, rank, remote, x) && x.d == d
  }

  /** Only objects below the root that the remote did not hold at the start are pushed. */
  ghost predicate OnlyWanted(k: Config, rank: Digest -> nat, remote: set<Digest>, s: State)
    requires ConfigOk(k, rank)
  {
    && remote <= s.seen && Gained(k, rank, remote, s.remote)
    && TasksWanted(k, rank, remote, s.tasks) && PcWanted(k, rank, remote, s.pc)
  }

  lemma TreeAnswerWanted(k: Config, rank: Digest -> nat, remote: set<Digest>, s: State, h: Digest,
                         trees: seq<Digest>, files: seq<Digest>)
    requires ConfigOk(k, rank) && Known(k, rank, h) && remote <= s.seen
    requires TreeAnswer(k, rank, s, h, trees, files)
    ensures PcWanted(k, rank, remote, Spawn(trees, files))
  {
    hide Reach, FirstMissing, GraphOk;
    var present :| AnswerAt(k, rank, s, h, trees, files, present);
    forall x | FirstMissing(k.g, rank, TreeRef(h), x, present) ensures Wanted(k, rank, remote, x) {
      MissingIsAbsent(k.g, rank, TreeRef(h), x, present);
      ReachTransitive(k.g, rank, TreeRef(k.root), TreeRef(h), x);
    }
    forall i | 0 <= i < |trees| ensures Wanted(k, rank, remote, TreeRef(trees[i])) { assert trees[i] in trees; }
    forall i | 0 <= i < |files| ensures Wanted(k, rank, remote, FileRef(files[i])) { assert files[i] in files; }
  }

  lemma ObjectAnswerWanted(k: Config, rank: Digest -> nat, remote: set<Digest>, s: State, h: Digest,
                           trees: seq<Digest>, files: seq<Digest>)
    requires ConfigOk(k, rank) && Known(k, rank, h) && remote <= s.seen
    requires ObjectAnswer(k, s, h, trees, files)
    ensures PcWanted(k, rank, remote, Spawn(trees, files))
  {
    hide Reach, GraphOk;
    forall i | 0 <= i < |trees| ensures Wanted(k, rank, remote, TreeRef(trees[i])) { assert trees[i] in trees; }
    forall i | 0 <= i < |files| ensures Wanted(k, rank, remote, FileRef(files[i])) { assert files[i] in files; }
  }

  lemma SpawnWanted(k: Config, rank: Digest -> nat, remote: set<Digest>, tasks: seq<Task>, t: Task)
    requires ConfigOk(k, rank) && TasksWanted(k, rank, remote, tasks) && TaskWanted(k, rank, remote, t)
    ensures TasksWanted(k, rank, remote, tasks + [t])
  {
    hide ConfigOk, TaskWanted;
  }

  lemma MainWanted(k: Config, rank: Digest -> nat, remote: set<Digest>, s: State, s': State)
    requires ConfigOk(k, rank) && Inv(k, rank, s) && OnlyWanted(k, rank, remote, s) && MainStep(k, rank, s, s')
    ensures OnlyWanted(k, rank, remote, s')
  {
    hide Wanted, Gained, AllCovered, TasksWanted;
    hide ConfigOk, TreeAnswer, ObjectAnswer, TaskKnown, Known;
    match s.pc {
      case Query(h) =>
        if k.hasTree {
          TreeAnswerWanted(k, rank, remote, s, h, s'.pc.trees, s'.pc.files);
        } else {
          ObjectAnswerWanted(k, rank, remote, s, h, s'.pc.trees, s'.pc.files);
        }
        SeenMore(k, rank, remote, s, s');
      case Spawn(trees, files) =>
        if files != [] {
          SpawnWanted(k, rank, remote, s.tasks, PushFile(files[0]));
        } else if trees != [] {
          SpawnWanted(k, rank, remote, s.tasks, PushTree(trees[0]));
        }
      case _ =>
        SeenMore(k, rank, remote, s, s');
    }
  }

  lemma SeenMore(k: Config, rank: Digest -> nat, remote: set<Digest>, s: State, s': State)
    requires ConfigOk(k, rank) && OnlyWanted(k, rank, remote, s) && (s'.seen == s.seen || s'.seen == s.remote)
    ensures remote <= s'.seen
  {
    hide ConfigOk, Wanted, TasksWanted;
  }

  lemma TaskGains(k: Config, rank: Digest -> nat, remote: set<Digest>, now: set<Digest>, x: Ref)
    requires ConfigOk(k, rank) && Gained(k, rank, remote, now) && Wanted(k, rank, remote, x)
    ensures Gained(k, rank, remote, now + {x.d})
  {
    hide ConfigOk, Wanted;
  }

  lemma LeftWanted(k: Config, rank: Digest -> nat, remote: set<Digest>, tasks: seq<Task>, i: nat, t: Task)
    requires ConfigOk(k, rank) && TasksWanted(k, rank, remote, tasks) && i < |tasks| && TaskWanted(k, rank, remote, t)
    ensures TasksWanted(k, rank, remote, Drop(tasks, i)) && TasksWanted(k, rank, remote, tasks[i := t])
  {
    hide ConfigOk, TaskWanted;
    forall j | 0 <= j < |Drop(tasks, i)| ensures TaskWanted(k, rank, remote, Drop(tasks, i)[j]) {
      assert Drop(tasks, i)[j] == tasks[if j < i then j else j + 1];
    }
  }

  lemma WorkerWanted(k: Config, rank: Digest -> nat, remote: set<Digest>, s: State, i: nat, fails: bool, s': State)
    requires ConfigOk(k, rank) && OnlyWanted(k, rank, remote, s) && TaskStep(s, i, fails, s')
    ensures OnlyWanted(k, rank, remote, s')
  {
    hide ConfigOk, Wanted, Gained, TasksWanted;
    var t := s.tasks[i];
    assert TaskWanted(k, rank, remote, t) by { TaskAt(k, rank, remote, s.tasks, i); }
    LeftWanted(k, rank, remote, s.tasks, i, Finishing);
    match t {
      case PushFile(d) => if !fails { TaskGains(k, rank, remote, s.remote, FileRef(d)); }
      case PushTree(d) =>
        LeftWanted(k, rank, remote, s.tasks, i, Requeue(d));
        if !fails { TaskGains(k, rank, remote, s.remote, TreeRef(d)); }
      case _ =>
    }
  }

  lemma TaskAt(k: Config, rank: Digest -> nat, remote: set<Digest>, tasks: seq<Task>, i: nat)
    requires ConfigOk(k, rank) && TasksWanted(k, rank, remote, tasks) && i < |tasks|
    ensures TaskWanted(k, rank, remote, tasks[i])
  {}

  lemma StepWanted(k: Config, rank: Digest -> nat, remote: set<Digest>, s: State, s': State)
    requires ConfigOk(k, rank) && Inv(k, rank, s) && OnlyWanted(k, rank, remote, s) && Step(k, rank, s, s')
    ensures OnlyWanted(k, rank, remote, s')
  {
    hide ConfigOk, OnlyWanted, Inv, MainStep, TaskStep;
    if MainStep(k, rank, s, s') {
      MainWanted(k, rank, remote, s, s');
    } else {
      var i, fails :| TaskStep(s, i, fails, s');
      WorkerWanted(k, rank, remote, s, i, fails, s');
    }
  }

  lemma {:induction false} RunWanted(k: Config, rank: Digest -> nat, remote: set<Digest>, run: seq<State>, i: nat)
    requires ConfigOk(k, rank) && Run(k, rank, remote, run) && i < |run|
    ensures OnlyWanted(k, rank, remote, run[i])
  {
    hide ConfigOk, Step, Inv;
    if i > 0 {
      RunWanted(k, rank, remote, run, i - 1);
      RunInv(k, rank, remote, run, i - 1);
      StepWanted(k, rank, remote, run[i - 1], run[i]);
    }
  }

  // ---------------------------------------------------------------- the end

  lemma AllThere(k: Config, rank: Digest -> nat, remote: set<Digest>, run: seq<State>)
    requires ConfigOk(k, rank) && Run(k, rank, remote, run) && run[|run| - 1].pc.Exit?
    ensures forall x :: Reach(k.g, rank, TreeRef(k.root), x) ==> x.d in run[|run| - 1].remote
  {
    hide Reach, Step, GraphOk;
    assert GraphOk(k.g, rank);
    forall x | Reach(k.g, rank, TreeRef(k.root), x) ensures x.d in run[|run| - 1].remote {
      PushSafety(k, rank, remote, run, |run| - 1, x);
    }
  }

  /** A run that cannot go on has thrown exactly when some push failed, and otherwise push has returned; then
      the remote holds what it held, everything below the root, and nothing else. */
  lemma Outcome(k: Config, rank: Digest -> nat, remote: set<Digest>, run: seq<State>)
    requires ConfigOk(k, rank) && Run(k, rank, remote, run)
    requires !CanStep(k, rank, run[|run| - 1])
    ensures run[|run| - 1].pc == if SomeFails(run) then Thrown else Exit
    ensures !SomeFails(run) ==> forall d ::
              d in run[|run| - 1].remote <==>
              d in remote || exists x :: Reach(k.g, rank, TreeRef(k.root), x) && x.d == d
  {
    hide ConfigOk, Step, Reach, GraphOk;
    var last := run[|run| - 1];
    FailedIff(k, rank, remote, run, |run| - 1);
    RunInv(k, rank, remote, run, |run| - 1);
    RunWanted(k, rank, remote, run, |run| - 1);
    if !last.pc.Exit? && !last.pc.Thrown? { PushProgress(k, rank, last); }
    if last.pc.Exit? { AllThere(k, rank, remote, run); }
  }

  /** As long as no push fails, push does not throw. */
  lemma NoneThrown(k: Config, rank: Digest -> nat, remote: set<Digest>, run: seq<State>)
    requires ConfigOk(k, rank) && Run(k, rank, remote, run) && !SomeFails(run)
    ensures forall i :: 0 <= i < |run| ==> !run[i].pc.Thrown?
  {
    hide ConfigOk, Step, Fails;
    forall i | 0 <= i < |run| ensures !run[i].pc.Thrown? {
      FailedIff(k, rank, remote, run, i);
    }
  }
}
