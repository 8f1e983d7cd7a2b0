/** index::refresh and inode::set_dirty: a merge of the scanned tree with the old index that keeps
    the hashes of unchanged files and directories. */
module Refresh {
  import opened Paths
  import opened Entries
  import opened Inodes

  // ---------------------------------------------------------------- the specification

  /** A digest of the hash function the program is built with. */
  predicate Current(alg: Algorithm, d: Digest) {
    d.alg == alg && |d.hex| == match alg case Sha1 => 40 case Blake3 => 64 case NoAlgorithm => 0
  }

  /** The old index: sorted, and with every directory above an entry. */
  ghost predicate IndexOk(nodes: seq<Entry>) {
    && SortedByPath(nodes)
    && forall i, q :: 0 <= i < |nodes| && Below(nodes[i].path, q) ==> HasPath(nodes, q)
  }

  predicate Accepts(alg: Algorithm, e: Entry, n: Inode) { Current(alg, e.hash) && n.Equivalent(e) }

  /** The index holds the path of n, but not n's state with a hash that can be used. */
  ghost predicate Rejected(alg: Algorithm, nodes: seq<Entry>, n: Inode) {
    exists k :: 0 <= k < |nodes| && nodes[k].path == n.path && !Accepts(alg, nodes[k], n)
  }

  ghost predicate Accepted(alg: Algorithm, nodes: seq<Entry>, n: Inode, k: int) {
    0 <= k < |nodes| && nodes[k].path == n.path && Accepts(alg, nodes[k], n)
  }

  /** One of the first t inodes is rejected and lies below n. */
  ghost predicate RejectedBelow(alg: Algorithm, nodes: seq<Entry>, tree: seq<Inode>, n: Inode, t: int) {
    exists j :: 0 <= j < t <= |tree| && Below(tree[j].path, n.path) && Rejected(alg, nodes, tree[j])
  }

  /** The hash inode n keeps, judging by the first t inodes: the one the index has for it, if the
      index has its very state and nothing below it was rejected. */
  ghost predicate Kept(alg: Algorithm, nodes: seq<Entry>, tree: seq<Inode>, n: Inode, t: int, hash: Digest) {
    if RejectedBelow(alg, nodes, tree, n, t) then hash == EMPTY
    else if k :| Accepted(alg, nodes, n, k) then hash == nodes[k].hash
    else hash == EMPTY
  }

  // ---------------------------------------------------------------- dirtiness goes up

  /** Among inodes that the index holds, a dirty one has been rejected or has a rejected one below
      it, so everything above it is dirty too: set_dirty may stop at the first dirty inode. */
  lemma DirtyGoesUp(alg: Algorithm, nodes: seq<Entry>, tree: seq<Inode>, root: Inode, t: nat, k: nat)
    requires alg != NoAlgorithm && Scanned(tree, root) && IndexOk(nodes)
    requires t < |tree| && k < |nodes| && nodes[k].path == tree[t].path && root.hash == EMPTY
    requires forall i :: 0 <= i < t ==> Kept(alg, nodes, tree, tree[i], t, tree[i].hash)
    ensures forall m :: CleanRun(tree[t].above) <= m < |tree[t].above| ==> tree[t].above[m].hash == EMPTY
  {
    hide Less, Rejected, Accepts;
    var above := tree[t].above;
    var c := CleanRun(above);
    if c < |above| {
      AboveInTree(tree, root, t, c);
      if above[c] == root {
        tree[t].AboveIsShorter(c);
        assert above[c + 1..] == [];
      } else {
        var j :| 0 <= j < t && tree[j] == above[c] && Below(tree[t].path, tree[j].path);
        DirtyMeansRejected(alg, nodes, tree, j, t, k);
        var r :| 0 <= r < t && (r == j || Below(tree[r].path, tree[j].path)) && Rejected(alg, nodes, tree[r]);
        forall m | c < m < |above| ensures above[m].hash == EMPTY {
          AboveRejected(alg, nodes, tree, root, t, c, j, r, m);
        }
      }
    }
  }

  lemma AboveRejected(alg: Algorithm, nodes: seq<Entry>, tree: seq<Inode>, root: Inode, t: nat, c: nat, j: nat, r: nat,
                      m: nat)
    requires Scanned(tree, root) && j < t < |tree| && c < m < |tree[t].above| && tree[t].above[c] == tree[j]
    requires r < t && (r == j || Below(tree[r].path, tree[j].path)) && Rejected(alg, nodes, tree[r])
    requires root.hash == EMPTY && forall i :: 0 <= i < t ==> Kept(alg, nodes, tree, tree[i], t, tree[i].hash)
    ensures tree[t].above[m].hash == EMPTY
  {
    hide Less, Rejected, Accepts;
    tree[t].AboveIsShorter(c);
    assert tree[j].above[m - c - 1] == tree[t].above[m];
    AboveInTree(tree, root, j, m - c - 1);
    if tree[t].above[m] != root {
      var i :| 0 <= i < j && tree[i] == tree[t].above[m] && Below(tree[j].path, tree[i].path);
      if r != j { BelowTransitive(tree[r].path, tree[j].path, tree[i].path); }
      assert RejectedBelow(alg, nodes, tree, tree[i], t);
    }
  }

  lemma DirtyMeansRejected(alg: Algorithm, nodes: seq<Entry>, tree: seq<Inode>, j: nat, t: nat, k: nat)
    requires alg != NoAlgorithm && IndexOk(nodes)
    requires j < t < |tree| && k < |nodes| && nodes[k].path == tree[t].path && Below(tree[t].path, tree[j].path)
    requires Kept(alg, nodes, tree, tree[j], t, tree[j].hash) && tree[j].IsDirty()
    ensures exists r :: 0 <= r < t && (r == j || Below(tree[r].path, tree[j].path)) && Rejected(alg, nodes, tree[r])
    ensures tree[j].hash == EMPTY
  {
    assert HasPath(nodes, tree[j].path);
    var x :| 0 <= x < |nodes| && nodes[x].path == tree[j].path;
    if RejectedBelow(alg, nodes, tree, tree[j], t) {
      var r :| 0 <= r < t <= |tree| && Below(tree[r].path, tree[j].path) && Rejected(alg, nodes, tree[r]);
    } else if Accepts(alg, nodes[x], tree[j]) {
      assert Accepted(alg, nodes, tree[j], x);
    } else {
      assert Rejected(alg, nodes, tree[j]);
    }
  }

  // ---------------------------------------------------------------- the merge

  /** The next inode is not in the index. */
  lemma StepNew(alg: Algorithm, nodes: seq<Entry>, tree: seq<Inode>, root: Inode, t: nat)
    requires Scanned(tree, root) && t < |tree| && !HasPath(nodes, tree[t].path) && tree[t].hash == EMPTY
    requires forall i :: 0 <= i < t ==> Kept(alg, nodes, tree, tree[i], t, tree[i].hash)
    ensures forall i :: 0 <= i < t + 1 ==> Kept(alg, nodes, tree, tree[i], t + 1, tree[i].hash)
  {
    assert !Rejected(alg, nodes, tree[t]);
    forall i | 0 <= i < t + 1
      ensures Kept(alg, nodes, tree, tree[i], t + 1, tree[i].hash)
    {
      SameRejects(alg, nodes, tree, tree[i], t);
    }
  }

  lemma SameRejects(alg: Algorithm, nodes: seq<Entry>, tree: seq<Inode>, n: Inode, t: nat)
    requires t < |tree| && !(Below(tree[t].path, n.path) && Rejected(alg, nodes, tree[t]))
    ensures RejectedBelow(alg, nodes, tree, n, t + 1) == RejectedBelow(alg, nodes, tree, n, t)
  {
    if RejectedBelow(alg, nodes, tree, n, t) {
      var j :| 0 <= j < t <= |tree| && Below(tree[j].path, n.path) && Rejected(alg, nodes, tree[j]);
    }
  }

  lemma OnlyMatch(alg: Algorithm, nodes: seq<Entry>, n: Inode, k: nat)
    requires IndexOk(nodes) && k < |nodes| && nodes[k].path == n.path
    ensures Rejected(alg, nodes, n) == !Accepts(alg, nodes[k], n)
    ensures forall x :: Accepted(alg, nodes, n, x) ==> x == k
  {
    forall x | 0 <= x < |nodes| && nodes[x].path == n.path
      ensures x == k
    {
      SortedDistinct(nodes, x, k);
    }
  }

  /** The next inode is in the index, which has a hash for it that can be used. */
  lemma StepAccepted(alg: Algorithm, nodes: seq<Entry>, tree: seq<Inode>, root: Inode, t: nat, k: nat)
    requires Scanned(tree, root) && IndexOk(nodes) && t < |tree| && k < |nodes| && nodes[k].path == tree[t].path
    requires Accepts(alg, nodes[k], tree[t]) && tree[t].hash == nodes[k].hash
    requires forall i :: 0 <= i < t ==> Kept(alg, nodes, tree, tree[i], t, tree[i].hash)
    ensures forall i :: 0 <= i < t + 1 ==> Kept(alg, nodes, tree, tree[i], t + 1, tree[i].hash)
  {
    OnlyMatch(alg, nodes, tree[t], k);
    forall i | 0 <= i < t + 1
      ensures Kept(alg, nodes, tree, tree[i], t + 1, tree[i].hash)
    {
      SameRejects(alg, nodes, tree, tree[i], t);
      if i == t {
        NothingBelowYet(alg, nodes, tree, root, t);
        assert Accepted(alg, nodes, tree[t], k);
      }
    }
  }

  lemma NothingBelowYet(alg: Algorithm, nodes: seq<Entry>, tree: seq<Inode>, root: Inode, t: nat)
    requires Scanned(tree, root) && t < |tree|
    ensures !RejectedBelow(alg, nodes, tree, tree[t], t + 1)
  {
    if RejectedBelow(alg, nodes, tree, tree[t], t + 1) {
      var j :| 0 <= j < t + 1 <= |tree| && Below(tree[j].path, tree[t].path) && Rejected(alg, nodes, tree[j]);
      BelowIsLater(tree, root, j, t);
    }
  }

  /** The next inode was rejected: it and everything above it are dirty now, the rest is as before. */
  lemma StepRejected(alg: Algorithm, nodes: seq<Entry>, tree: seq<Inode>, root: Inode, t: nat, k: nat, was: seq<Digest>)
    requires Scanned(tree, root) && IndexOk(nodes) && t < |tree| && k < |nodes| && nodes[k].path == tree[t].path
    requires !Accepts(alg, nodes[k], tree[t]) && |was| == t
    requires forall i :: 0 <= i < t ==> Kept(alg, nodes, tree, tree[i], t, was[i])
    requires tree[t].hash == EMPTY && forall m :: 0 <= m < |tree[t].above| ==> tree[t].above[m].hash == EMPTY
    requires forall i :: 0 <= i < t && tree[i] !in tree[t].above ==> tree[i].hash == was[i]
    ensures forall i :: 0 <= i < t + 1 ==> Kept(alg, nodes, tree, tree[i], t + 1, tree[i].hash)
  {
    OnlyMatch(alg, nodes, tree[t], k);
    forall i | 0 <= i < t + 1
      ensures Kept(alg, nodes, tree, tree[i], t + 1, tree[i].hash)
    {
      if i < t {
        if tree[i] in tree[t].above {
          var m :| 0 <= m < |tree[t].above| && tree[t].above[m] == tree[i];
          AboveInTree(tree, root, t, m);
          var j :| 0 <= j < t && tree[j] == tree[i] && Below(tree[t].path, tree[j].path);
          assert RejectedBelow(alg, nodes, tree, tree[i], t + 1);
        } else {
          if Below(tree[t].path, tree[i].path) { BelowInAbove(tree, root, t, i); }
          SameRejects(alg, nodes, tree, tree[i], t);
        }
      }
    }
  }

  lemma PassOver(nodes: seq<Entry>, tree: seq<Inode>, root: Inode, ti: nat, ii: nat)
    requires Scanned(tree, root) && ti < |tree| && ii < |nodes| && Less(nodes[ii].path, tree[ti].path)
    ensures forall i :: ti <= i < |tree| ==> Less(nodes[ii].path, tree[i].path)
  {
    forall i | ti < i < |tree| ensures Less(nodes[ii].path, tree[i].path) {
      LessTransitive(nodes[ii].path, tree[ti].path, tree[i].path);
    }
  }

  lemma NotListed(nodes: seq<Entry>, tree: seq<Inode>, ti: nat, ii: nat)
    requires SortedByPath(nodes) && ti < |tree| && ii <= |nodes|
    requires (ii < |nodes| ==> Less(tree[ti].path, nodes[ii].path))
    requires forall k :: 0 <= k < ii ==> Less(nodes[k].path, tree[ti].path)
    ensures forall k :: ii <= k < |nodes| ==> Less(tree[ti].path, nodes[k].path)
    ensures !HasPath(nodes, tree[ti].path)
  {
    LessIrreflexive(tree[ti].path);
    forall k | ii < k < |nodes| ensures Less(tree[ti].path, nodes[k].path) {
      LessTransitive(tree[ti].path, nodes[ii].path, nodes[k].path);
    }
  }

  lemma BothPass(nodes: seq<Entry>, tree: seq<Inode>, root: Inode, ti: nat, ii: nat)
    requires Scanned(tree, root) && SortedByPath(nodes) && ti < |tree| && ii < |nodes|
    requires tree[ti].path == nodes[ii].path
    ensures forall k :: ii < k < |nodes| ==> Less(tree[ti].path, nodes[k].path)
    ensures forall i :: ti < i < |tree| ==> Less(nodes[ii].path, tree[i].path)
  {}

  /** The path is in both lists: the hash is taken over, or the inode is marked as dirty. */
  method Match(alg: Algorithm, nodes: seq<Entry>, tree: seq<Inode>, root: Inode, t: nat, k: nat)
    requires alg != NoAlgorithm && Scanned(tree, root) && IndexOk(nodes)
    requires t < |tree| && k < |nodes| && nodes[k].path == tree[t].path
    requires root.hash == EMPTY && forall i :: t <= i < |tree| ==> tree[i].hash == EMPTY
    requires forall i :: 0 <= i < t ==> Kept(alg, nodes, tree, tree[i], t, tree[i].hash)
    modifies root`hash, (set n | n in tree)`hash
    ensures root.hash == EMPTY && forall i :: t < i < |tree| ==> tree[i].hash == EMPTY
    ensures forall i :: 0 <= i < t + 1 ==> Kept(alg, nodes, tree, tree[i], t + 1, tree[i].hash)
  {
    forall i | 0 <= i < |tree| && i != t ensures tree[i] != tree[t] {
      LessIrreflexive(tree[i].path);
    }
    if !Current(alg, nodes[k].hash) {
      Reject(alg, nodes, tree, root, t, k);
    } else if tree[t].Equivalent(nodes[k]) {
      label before:
      tree[t].hash := nodes[k].hash;
      assert forall i :: 0 <= i < t ==> tree[i].hash == old@before(tree[i].hash);
      StepAccepted(alg, nodes, tree, root, t, k);
    } else {
      Reject(alg, nodes, tree, root, t, k);
    }
  }

  method Reject(alg: Algorithm, nodes: seq<Entry>, tree: seq<Inode>, root: Inode, t: nat, k: nat)
    requires alg != NoAlgorithm && Scanned(tree, root) && IndexOk(nodes)
    requires t < |tree| && k < |nodes| && nodes[k].path == tree[t].path && !Accepts(alg, nodes[k], tree[t])
    requires root.hash == EMPTY && forall i :: t <= i < |tree| ==> tree[i].hash == EMPTY
    requires forall i :: 0 <= i < t ==> Kept(alg, nodes, tree, tree[i], t, tree[i].hash)
    modifies root`hash, (set n | n in tree)`hash
    ensures root.hash == EMPTY && forall i :: t < i < |tree| ==> tree[i].hash == EMPTY
    ensures forall i :: 0 <= i < t + 1 ==> Kept(alg, nodes, tree, tree[i], t + 1, tree[i].hash)
  {
    ghost var was := Hashes(tree[..t]);
    DirtyGoesUp(alg, nodes, tree, root, t, k);
    AboveIsEarlier(tree, root, t);
    assert tree[t] in tree;
    tree[t].SetDirty();
    StepRejected(alg, nodes, tree, root, t, k, was);
  }

  /** When an inode has a hash, and which. */
  lemma CleanExactlyWhen(alg: Algorithm, nodes: seq<Entry>, tree: seq<Inode>, i: nat)
    requires alg != NoAlgorithm && IndexOk(nodes) && i < |tree| && Kept(alg, nodes, tree, tree[i], |tree|, tree[i].hash)
    ensures !tree[i].IsDirty() <==>
              (exists k :: Accepted(alg, nodes, tree[i], k)) && !RejectedBelow(alg, nodes, tree, tree[i], |tree|)
    ensures !tree[i].IsDirty() ==> exists k :: Accepted(alg, nodes, tree[i], k) && tree[i].hash == nodes[k].hash
  {}

  /** An index entry that looks exactly like the inode, with a full digest of the algorithm the program is
      built with. */
  predicate Usable(alg: Algorithm, e: Entry, n: Inode) {
    && e.path == n.path && e.kind == n.kind && e.perms == n.perms && e.mtime == n.mtime && e.target == n.target
    && e.hash.alg == alg && ((alg == Sha1 && |e.hash.hex| == 40) || (alg == Blake3 && |e.hash.hex| == 64))
  }

  /** Whatever the index holds below p is usable. */
  ghost predicate AllUsableBelow(alg: Algorithm, nodes: seq<Entry>, tree: seq<Inode>, p: string) {
    forall j, x :: 0 <= j < |tree| && 0 <= x < |nodes| && Below(tree[j].path, p) && nodes[x].path == tree[j].path ==>
      Usable(alg, nodes[x], tree[j])
  }

  /** The hash of an inode after a refresh: the one the index has for it, if that is usable and so is
      whatever the index holds below it, and none otherwise. */
  ghost predicate Reused(alg: Algorithm, nodes: seq<Entry>, tree: seq<Inode>, n: Inode)
    reads n`hash
  {
    && (!HasPath(nodes, n.path) ==> n.hash == EMPTY)
    && forall k :: 0 <= k < |nodes| && nodes[k].path == n.path ==>
         n.hash == if Usable(alg, nodes[k], n) && AllUsableBelow(alg, nodes, tree, n.path) then nodes[k].hash else EMPTY
  }

  lemma UsableIsAccepted(alg: Algorithm, e: Entry, n: Inode)
    requires alg != NoAlgorithm
    ensures Usable(alg, e, n) <==> Accepts(alg, e, n)
  {}

  lemma UsableBelow(alg: Algorithm, nodes: seq<Entry>, tree: seq<Inode>, n: Inode)
    requires alg != NoAlgorithm && IndexOk(nodes)
    ensures AllUsableBelow(alg, nodes, tree, n.path) <==> !RejectedBelow(alg, nodes, tree, n, |tree|)
  {
    hide Usable, Accepts, Below;
    forall e, m: Inode ensures Usable(alg, e, m) <==> Accepts(alg, e, m) { UsableIsAccepted(alg, e, m); }
    if j :| 0 <= j < |tree| && Below(tree[j].path, n.path) && Rejected(alg, nodes, tree[j]) {
      var x :| 0 <= x < |nodes| && nodes[x].path == tree[j].path && !Accepts(alg, nodes[x], tree[j]);
      assert !Usable(alg, nodes[x], tree[j]);
    }
    if j, x :| 0 <= j < |tree| && 0 <= x < |nodes| && Below(tree[j].path, n.path) && nodes[x].path == tree[j].path &&
               !Usable(alg, nodes[x], tree[j])
    {
      assert Rejected(alg, nodes, tree[j]);
    }
  }

  lemma KeptIsReused(alg: Algorithm, nodes: seq<Entry>, tree: seq<Inode>, n: Inode)
    requires alg != NoAlgorithm && IndexOk(nodes) && Kept(alg, nodes, tree, n, |tree|, n.hash)
    ensures Reused(alg, nodes, tree, n)
  {
    hide Usable, Accepts, AllUsableBelow, RejectedBelow, SortedByPath;
    UsableBelow(alg, nodes, tree, n);
    forall k | 0 <= k < |nodes| && nodes[k].path == n.path
      ensures n.hash ==
                if Usable(alg, nodes[k], n) && AllUsableBelow(alg, nodes, tree, n.path) then nodes[k].hash else EMPTY
    {
      UsableIsAccepted(alg, nodes[k], n);
      OnlyMatch(alg, nodes, n, k);
      if Accepts(alg, nodes[k], n) { assert Accepted(alg, nodes, n, k); }
    }
  }

  /** Replaces the index by the scanned tree, in order.  Afterwards an inode has a hash exactly when the
      index has its very state under a digest of the current algorithm and no inode below it was
      rejected; it is the digest of the index. */
  method Refresh(alg: Algorithm, nodes: seq<Entry>, tree: seq<Inode>, root: Inode) returns (inodes: seq<Inode>)
    requires alg != NoAlgorithm && Scanned(tree, root) && IndexOk(nodes)
    requires root.hash == EMPTY && forall i :: 0 <= i < |tree| ==> tree[i].hash == EMPTY
    modifies root`hash, (set n | n in tree)`hash
    ensures inodes == tree && root.hash == EMPTY
    ensures forall i :: 0 <= i < |tree| ==> Kept(alg, nodes, tree, tree[i], |tree|, tree[i].hash)
    ensures forall i :: 0 <= i < |tree| ==>
              (!tree[i].IsDirty() <==>
                  (exists k :: Accepted(alg, nodes, tree[i], k)) && !RejectedBelow(alg, nodes, tree, tree[i], |tree|))
    ensures forall i :: 0 <= i < |tree| && !tree[i].IsDirty() ==>
              exists k :: Accepted(alg, nodes, tree[i], k) && tree[i].hash == nodes[k].hash
    ensures forall i :: 0 <= i < |tree| ==> Reused(alg, nodes, tree, tree[i])
  {
    hide Scanned, Kept, Less, RejectedBelow, Reused;
    inodes := [];
    var ti, ii := 0, 0;
    while ti < |tree|
      invariant 0 <= ti <= |tree| && 0 <= ii <= |nodes| && inodes == tree[..ti]
      invariant root.hash == EMPTY && forall i :: ti <= i < |tree| ==> tree[i].hash == EMPTY
      invariant forall i, k :: 0 <= i < ti && ii <= k < |nodes| ==> Less(tree[i].path, nodes[k].path)
      invariant forall i, k :: ti <= i < |tree| && 0 <= k < ii ==> Less(nodes[k].path, tree[i].path)
      invariant forall i :: 0 <= i < ti ==> Kept(alg, nodes, tree, tree[i], ti, tree[i].hash)
      decreases |tree| - ti + |nodes| - ii
    {
      if ii < |nodes| && Less(nodes[ii].path, tree[ti].path) {
        // deleted from disk
        PassOver(nodes, tree, root, ti, ii);
        ii := ii + 1;
      } else if ii == |nodes| || Less(tree[ti].path, nodes[ii].path) {
        // new on disk
        NotListed(nodes, tree, ti, ii);
        StepNew(alg, nodes, tree, root, ti);
        inodes := inodes + [tree[ti]];
        ti := ti + 1;
      } else {
        LessTotal(tree[ti].path, nodes[ii].path);
        Match(alg, nodes, tree, root, ti, ii);
        BothPass(nodes, tree, root, ti, ii);
        inodes := inodes + [tree[ti]];
        ti, ii := ti + 1, ii + 1;
      }
    }
    forall i: nat | i < |tree|
      ensures !tree[i].IsDirty() <==>
                (exists k :: Accepted(alg, nodes, tree[i], k)) && !RejectedBelow(alg, nodes, tree, tree[i], |tree|)
      ensures !tree[i].IsDirty() ==> exists k :: Accepted(alg, nodes, tree[i], k) && tree[i].hash == nodes[k].hash
      ensures Reused(alg, nodes, tree, tree[i])
    {
      CleanExactlyWhen(alg, nodes, tree, i);
      KeptIsReused(alg, nodes, tree, tree[i]);
    }
  }

  // ---------------------------------------------------------------- what a refresh means

  /** A directory that gained an entry does not look as the index remembers it. */
  ghost predicate GainsShow(alg: Algorithm, nodes: seq<Entry>, tree: seq<Inode>) {
    forall i, p :: 0 <= i < |tree| && 0 <= p < |tree| && tree[i].parent == tree[p] && !HasPath(nodes, tree[i].path)
      ==> forall k :: !Accepted(alg, nodes, tree[p], k)
  }

  /** A dirty inode has a dirty parent. */
  lemma DirtyUpward(alg: Algorithm, nodes: seq<Entry>, tree: seq<Inode>, root: Inode, i: nat)
    requires alg != NoAlgorithm && Scanned(tree, root) && IndexOk(nodes) && GainsShow(alg, nodes, tree)
    requires root.IsDirty()
    requires forall j :: 0 <= j < |tree| ==> Kept(alg, nodes, tree, tree[j], |tree|, tree[j].hash)
    requires i < |tree| && tree[i].IsDirty()
    ensures tree[i].parent.IsDirty()
  {
    assert ParentListed(tree, root, i);
    if Parent(tree[i].path) != "" {
      var p :| 0 <= p < |tree| && tree[p] == tree[i].parent && tree[p].path == Parent(tree[i].path);
      ParentAbove(tree[i].path);
      if HasPath(nodes, tree[i].path) {
        var k :| 0 <= k < |nodes| && nodes[k].path == tree[i].path;
        OnlyMatch(alg, nodes, tree[i], k);
        if Accepts(alg, nodes[k], tree[i]) {
          assert Accepted(alg, nodes, tree[i], k);
          var j :| 0 <= j < |tree| && Below(tree[j].path, tree[i].path) && Rejected(alg, nodes, tree[j]);
          BelowTransitive(tree[j].path, tree[i].path, tree[p].path);
        } else {
          assert Rejected(alg, nodes, tree[i]);
        }
        assert RejectedBelow(alg, nodes, tree, tree[p], |tree|);
      }
      assert Kept(alg, nodes, tree, tree[p], |tree|, tree[p].hash);
    }
  }
}
