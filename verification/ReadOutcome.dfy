/** How index_from_tree ends, whatever the cache holds: it returns only if the whole tree was there, and throws
    only if it was not. */
module ReadOutcome {
  import opened Entries
  import opened Trees
  import opened Reading

  predicate JobComplete(src: Store, j: Job, n: nat) {
    match j
    case Load(d) => Complete(src, d, n)
    case Walk(todo) => AllComplete(src, todo, n)
  }

  /** Whatever is still to be read is complete, at most n levels deep. */
  predicate RestComplete(src: Store, s: State, n: nat) {
    && AllComplete(src, Waiting(s), n) && AllComplete(src, s.found, n)
    && forall j :: 0 <= j < |s.jobs| ==> JobComplete(src, s.jobs[j], n)
  }

  /** Unless a task has failed, what has been read so far was complete: the whole tree is as soon as the
      rest is. */
  ghost predicate Grounded(src: Store, root: Entry, s: State, k: nat) {
    && s.count == |s.jobs| && (s.main.Round? ==> s.main.next <= |s.trees|)
    && (s.main == Returned ==> !s.failed && s.jobs == [] && s.found == [])
    && (!s.failed ==> forall n: nat :: RestComplete(src, s, n) ==> Complete(src, root, n + k))
  }

  lemma StartGrounded(src: Store, root: Entry)
    ensures Grounded(src, root, Start(root), 0)
  {
    hide Complete;
    assert Waiting(Start(root))[0] == root;
  }

  lemma Deeper2(src: Store, es: seq<Entry>, n: nat)
    requires AllComplete(src, es, n)
    ensures AllComplete(src, es, n + 1)
  {
    hide Complete;
    forall i | 0 <= i < |es| ensures Complete(src, es[i], n + 1) { Deeper(src, es[i], n); }
  }

  lemma JobDeeper(src: Store, j: Job, n: nat)
    requires JobComplete(src, j, n)
    ensures JobComplete(src, j, n + 1)
  {
    hide Complete, AllComplete;
    match j
    case Load(d) => Deeper(src, d, n);
    case Walk(todo) => Deeper2(src, todo, n);
  }

  lemma EnqueueBack(src: Store, s: State, s': State, n: nat)
    requires Enqueue(s, s') && RestComplete(src, s', n)
    ensures RestComplete(src, s, n)
  {
    hide Complete;
    assert Waiting(s) == [s.trees[s.main.next]] + Waiting(s');
    assert s'.jobs[|s.jobs|] == Load(s.trees[s.main.next]);
    forall j | 0 <= j < |s.jobs| ensures JobComplete(src, s.jobs[j], n) { assert s.jobs[j] == s'.jobs[j]; }
  }

  lemma ProceedBack(src: Store, s: State, s': State, n: nat)
    requires Proceed(s, s') && s.count == |s.jobs| && !s.failed && RestComplete(src, s', n)
    ensures RestComplete(src, s, n)
  {
    hide Complete;
    if s.found != [] { assert Waiting(s') == s.found; }
  }

  /** The object of a directory that has been read: the children's trees make up its own. */
  lemma LoadBack(src: Store, s: State, s': State, j: nat, n: nat)
    requires j < |s.jobs| && s.jobs[j].Load? && Work(src, s, s', j) && !s'.failed && RestComplete(src, s', n)
    ensures RestComplete(src, s, n + 1)
  {
    hide Complete, AllComplete, Readable, Children;
    var d := s.jobs[j].dir;
    assert Waiting(s') == Waiting(s);
    Deeper2(src, Waiting(s), n);
    Deeper2(src, s.found, n);
    assert s'.jobs[j] == Walk(Children(src, d));
    assert JobComplete(src, s'.jobs[j], n);
    Whole(src, d, n);
    forall i | 0 <= i < |s.jobs| ensures JobComplete(src, s.jobs[i], n + 1) {
      if i != j {
        assert s'.jobs[i] == s.jobs[i];
        JobDeeper(src, s.jobs[i], n);
      }
    }
  }

  lemma Whole(src: Store, d: Entry, n: nat)
    requires Readable(src, d) && AllComplete(src, Children(src, d), n)
    ensures Complete(src, d, n + 1)
  {
    hide Readable, Children;
  }

  lemma WalkBack(src: Store, s: State, s': State, j: nat, n: nat)
    requires j < |s.jobs| && s.jobs[j].Walk? && Work(src, s, s', j) && RestComplete(src, s', n)
    ensures RestComplete(src, s, n)
  {
    hide Complete;
    var todo := s.jobs[j].todo;
    assert Waiting(s') == Waiting(s);
    forall i | 0 <= i < |s.jobs| && i != j ensures JobComplete(src, s.jobs[i], n) {
      assert s.jobs[i] == s'.jobs[if i < j || todo != [] then i else i - 1];
    }
    forall i | 0 <= i < |s.found| ensures Complete(src, s.found[i], n) { assert s.found[i] == s'.found[i]; }
    if todo != [] {
      assert s'.jobs[j] == Walk(todo[1..]) && JobComplete(src, s'.jobs[j], n);
      if todo[0].kind == Directory { assert s'.found[|s.found|] == todo[0]; } else { NoDirectory(src, todo[0], n); }
      assert forall i :: 0 < i < |todo| ==> todo[i] == todo[1..][i - 1];
    }
  }

  lemma NoDirectory(src: Store, e: Entry, n: nat)
    requires e.kind != Directory
    ensures Complete(src, e, n)
  {}

  lemma MoreComplete(src: Store, s: State, n: nat)
    requires RestComplete(src, s, n)
    ensures RestComplete(src, s, n + 1)
  {
    hide AllComplete, JobComplete;
    Deeper2(src, Waiting(s), n);
    Deeper2(src, s.found, n);
    forall j | 0 <= j < |s.jobs| ensures JobComplete(src, s.jobs[j], n + 1) { JobDeeper(src, s.jobs[j], n); }
  }

  lemma StepBack(src: Store, s: State, s': State, n: nat)
    requires Step(src, s, s') && s.count == |s.jobs| && !s'.failed && !s.failed && RestComplete(src, s', n)
    ensures RestComplete(src, s, n + 1)
  {
    hide RestComplete, Enqueue, Proceed, Work;
    if Enqueue(s, s') {
      EnqueueBack(src, s, s', n);
      MoreComplete(src, s, n);
    } else if Proceed(s, s') {
      ProceedBack(src, s, s', n);
      MoreComplete(src, s, n);
    } else {
      var j :| 0 <= j < |s.jobs| && Work(src, s, s', j);
      if s.jobs[j].Load? {
        LoadBack(src, s, s', j, n);
      } else {
        WalkBack(src, s, s', j, n);
        MoreComplete(src, s, n);
      }
    }
  }

  lemma StepShape(src: Store, s: State, s': State)
    requires Step(src, s, s') && s.count == |s.jobs| && (s.main.Round? ==> s.main.next <= |s.trees|)
    requires s.main == Returned ==> !s.failed && s.jobs == [] && s.found == []
    ensures s'.count == |s'.jobs| && (s'.main == Returned ==> !s'.failed && s'.jobs == [] && s'.found == [])
    ensures (s'.main.Round? ==> s'.main.next <= |s'.trees|) && (s.failed ==> s'.failed)
  {
    hide Children, Readable;
  }

  lemma StepGrounded(src: Store, root: Entry, s: State, s': State, k: nat)
    requires Grounded(src, root, s, k) && Step(src, s, s')
    ensures Grounded(src, root, s', k + 1)
  {
    hide Step, RestComplete, Complete;
    StepShape(src, s, s');
    if !s'.failed {
      forall n: nat | RestComplete(src, s', n) ensures Complete(src, root, n + (k + 1)) {
        StepBack(src, s, s', n);
        assert n + 1 + k == n + (k + 1);
      }
    }
  }

  lemma {:induction false} RunGrounded(src: Store, root: Entry, run: seq<State>, i: nat)
    requires Run(src, root, run) && i < |run|
    ensures Grounded(src, root, run[i], i)
  {
    hide Step, Grounded;
    if i == 0 {
      StartGrounded(src, root);
    } else {
      RunGrounded(src, root, run, i - 1);
      assert Step(src, run[i - 1], run[i - 1 + 1]);
      StepGrounded(src, root, run[i - 1], run[i], i - 1);
    }
  }

  lemma NothingLeft(src: Store, s: State)
    requires s.main == Returned && s.jobs == [] && s.found == []
    ensures RestComplete(src, s, 0)
  {
    assert Waiting(s) == [];
  }

  /** Until it has returned or thrown, something can happen. */
  lemma Proceeds(src: Store, s: State)
    requires s.main.Round? && s.main.next <= |s.trees| && s.count == |s.jobs|
    ensures exists s' :: Step(src, s, s')
  {
    hide Readable, Children, AfterWork;
    var s' := if s.jobs != [] then AfterWork(src, s, 0)
              else if s.main.next < |s.trees| then
                s.(main := Round(s.main.next + 1), jobs := s.jobs + [Load(s.trees[s.main.next])], count := s.count + 1)
              else if s.failed then s.(main := Threw)
              else if s.found == [] then s.(main := Returned, trees := [])
              else s.(main := Round(0), trees := s.found, found := []);
    if s.jobs != [] { assert Work(src, s, s', 0); } else { assert Enqueue(s, s') || Proceed(s, s'); }
    assert Step(src, s, s');
  }

  /** In every interleaving and for every cache: a read that cannot go on has returned if all tree objects are
      there, and then the index is everything below the root, each as often as it occurs; and it has thrown
      if some object is not. */
  lemma Outcome(src: Store, root: Entry, run: seq<State>)
    requires root.kind == Directory && Run(src, root, run)
    ensures var s := run[|run| - 1];
            && (s.main == Returned ==>
                 exists n: nat :: Complete(src, root, n) && multiset(s.index) == Reach(src, root, n))
            && (s.main == Threw ==> forall n: nat :: !Complete(src, root, n))
            && (s.main == Returned || s.main == Threw || exists s' :: Step(src, s, s'))
  {
    hide Step, Complete, Reach, RestComplete;
    var s := run[|run| - 1];
    RunGrounded(src, root, run, |run| - 1);
    if s.main.Round? { Proceeds(src, s); }
    if s.main == Returned {
      NothingLeft(src, s);
      assert Complete(src, root, 0 + (|run| - 1));
      ReadTheorem(src, root, |run| - 1, run);
    }
    if s.main == Threw {
      forall n: nat ensures !Complete(src, root, n) {
        if Complete(src, root, n) { ReadTheorem(src, root, n, run); }
      }
    }
  }
}
