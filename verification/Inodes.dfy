/** Inodes of a scanned tree, linked to their parents and children (inode.hpp, inode.cpp). */
module Inodes {
  import opened Paths
  import opened Entries

  /** An inode of a scanned tree.  Its hash, its list of children and whether it is ignored change, the
      rest is fixed when it is made. */
  class Inode {
    const path: string
    const kind: Kind
    const perms: nat
    const mtime: int
    const target: string
    const parent: Inode?
    var hash: Digest
    var children: seq<Inode>
    var ignored: bool
    var unignored: bool

    /** The inodes above this one, the parent first, the root last. */
    ghost const above: seq<Inode>

    constructor (path: string, kind: Kind, perms: nat, mtime: int, target: string, parent: Inode?)
      requires parent != null ==> parent.Linked()
      ensures this.path == path && this.kind == kind && this.perms == perms && this.mtime == mtime
      ensures this.target == target && this.parent == parent
      ensures hash == EMPTY && children == [] && !ignored && !unignored && Linked()
    {
      this.path, this.kind, this.perms, this.mtime, this.target := path, kind, perms, mtime, target;
      this.parent := parent;
      this.hash, this.children := EMPTY, [];
      this.ignored, this.unignored := false, false;
      this.above := if parent == null then [] else [parent] + parent.above;
    }

    ghost predicate Linked()
      decreases |above|
    {
      if parent == null then above == [] else above == [parent] + parent.above && parent.Linked()
    }

    lemma {:induction false} AboveIsShorter(i: nat)
      requires Linked() && i < |above|
      ensures above[i].above == above[i + 1..] && above[i].Linked()
      decreases i
    {
      if i > 0 { parent.AboveIsShorter(i - 1); }
    }

    lemma NotAboveItself()
      requires Linked()
      ensures this !in above
    {
      if this in above {
        var i :| 0 <= i < |above| && above[i] == this;
        AboveIsShorter(i);
      }
    }

    predicate IsDirty()
      reads this
    {
      hash.hex == ""
    }

    /** Clears the hash here and upwards, up to the first inode that is dirty already. */
    method SetDirty()
      requires Linked()
      modifies this`hash, (set a | a in above)`hash
      ensures hash == EMPTY
      ensures forall i :: 0 <= i < |above| ==>
                above[i].hash == if i < old(CleanRun(above)) then EMPTY else old(above[i].hash)
      decreases |above|
    {
      NotAboveItself();
      hash := EMPTY;
      if parent != null && !parent.IsDirty() {
        assert above[0] == parent && above[1..] == parent.above;
        assert forall a :: a in parent.above ==> a in above[1..];
        parent.SetDirty();
      }
    }

    /** unignore: marks this inode and those above it, up to the first that is marked already. */
    method Unignore()
      requires Linked()
      modifies this`unignored, (set a | a in above)`unignored
      ensures unignored
      ensures forall i :: 0 <= i < |above| ==>
                above[i].unignored == (old(above[i].unignored) || (!old(unignored) && i < old(MarkRun(above))))
      decreases |above|
    {
      NotAboveItself();
      if !unignored {
        unignored := true;
        if parent != null {
          assert above[0] == parent && above[1..] == parent.above;
          assert forall a :: a in parent.above ==> a in above[1..];
          parent.Unignore();
        }
      }
    }

    /** is_equivalent: the same path, type, permissions, time and target. */
    predicate Equivalent(e: Entry) {
      e.path == path && e.kind == kind && e.perms == perms && e.mtime == mtime && e.target == target
    }
  }

  /** How many inodes at the start of the list have a hash. */
  ghost function CleanRun(s: seq<Inode>): (n: nat)
    reads s
    ensures n <= |s| && (forall i :: 0 <= i < n ==> !s[i].IsDirty()) && (n < |s| ==> s[n].IsDirty())
  {
    if s == [] || s[0].IsDirty() then 0 else 1 + CleanRun(s[1..])
  }

  /** How many inodes at the start of the list are not marked. */
  ghost function MarkRun(s: seq<Inode>): (n: nat)
    reads s
    ensures n <= |s| && (forall i :: 0 <= i < n ==> !s[i].unignored) && (n < |s| ==> s[n].unignored)
  {
    if s == [] || s[0].unignored then 0 else 1 + MarkRun(s[1..])
  }

  /** What the scan delivers: a sorted list of new inodes, each linked to its parent, which is in
      the list or is the root. */
  ghost predicate Scanned(tree: seq<Inode>, root: Inode) {
    && root.parent == null && root.Linked() && root !in tree
    && (forall i, j :: 0 <= i < j < |tree| ==> Less(tree[i].path, tree[j].path))
    && (forall i :: 0 <= i < |tree| ==> tree[i].Linked() && tree[i].parent != null && Valid(tree[i].path))
    && (forall i :: 0 <= i < |tree| ==> ParentListed(tree, root, i))
  }

  ghost predicate ParentListed(tree: seq<Inode>, root: Inode, i: nat)
    requires i < |tree|
  {
    if Parent(tree[i].path) == "" then tree[i].parent == root
    else exists j :: 0 <= j < |tree| && tree[j] == tree[i].parent && tree[j].path == Parent(tree[i].path)
  }

  // ---------------------------------------------------------------- the shape of the tree

  lemma TreeDistinct(tree: seq<Inode>, root: Inode, i: nat, j: nat)
    requires Scanned(tree, root) && i < |tree| && j < |tree| && (tree[i] == tree[j] || tree[i].path == tree[j].path)
    ensures i == j
  {
    if i != j { LessIrreflexive(tree[i].path); }
  }

  lemma BelowIsLater(tree: seq<Inode>, root: Inode, i: nat, j: nat)
    requires Scanned(tree, root) && i < |tree| && j < |tree| && Below(tree[i].path, tree[j].path)
    ensures j < i
  {
    BelowLess(tree[i].path, tree[j].path);
    LessIrreflexive(tree[i].path);
    if i < j { LessAsymmetric(tree[i].path, tree[j].path); }
  }

  /** Whatever is linked above an inode is the root or an earlier inode whose path is above. */
  lemma {:induction false} AboveInTree(tree: seq<Inode>, root: Inode, i: nat, m: nat)
    requires Scanned(tree, root) && i < |tree| && m < |tree[i].above|
    ensures tree[i].above[m] == root ||
            exists j :: 0 <= j < i && tree[j] == tree[i].above[m] && Below(tree[i].path, tree[j].path)
    decreases m
  {
    var n := tree[i];
    if Parent(n.path) != "" {
      ParentAbove(n.path);
      assert ParentListed(tree, root, i);
      var p :| 0 <= p < |tree| && tree[p] == n.parent && tree[p].path == Parent(n.path);
      BelowIsLater(tree, root, i, p);
      if m > 0 {
        AboveInTree(tree, root, p, m - 1);
        if tree[p].above[m - 1] != root {
          var j :| 0 <= j < p && tree[j] == tree[p].above[m - 1] && Below(tree[p].path, tree[j].path);
          BelowTransitive(n.path, tree[p].path, tree[j].path);
        }
      }
    } else {
      assert ParentListed(tree, root, i);
    }
  }

  lemma {:induction false} BelowInAbove(tree: seq<Inode>, root: Inode, i: nat, j: nat)
    requires Scanned(tree, root) && i < |tree| && j < |tree| && Below(tree[i].path, tree[j].path)
    ensures tree[j] in tree[i].above
    decreases i
  {
    AboveParent(tree[i].path, tree[j].path);
    BelowNonempty(Parent(tree[i].path), tree[j].path);
    assert ParentListed(tree, root, i);
    var p :| 0 <= p < |tree| && tree[p] == tree[i].parent && tree[p].path == Parent(tree[i].path);
    if tree[p].path == tree[j].path {
      TreeDistinct(tree, root, p, j);
    } else {
      ParentAbove(tree[i].path);
      BelowIsLater(tree, root, i, p);
      BelowInAbove(tree, root, p, j);
    }
  }

  lemma AboveIsEarlier(tree: seq<Inode>, root: Inode, t: nat)
    requires Scanned(tree, root) && t < |tree|
    ensures forall a :: a in tree[t].above ==> a == root || a in tree
    ensures forall i :: t <= i < |tree| ==> tree[i] !in tree[t].above
  {
    forall a | a in tree[t].above
      ensures a == root || a in tree
    {
      var m :| 0 <= m < |tree[t].above| && tree[t].above[m] == a;
      AboveInTree(tree, root, t, m);
    }
    forall i | t <= i < |tree|
      ensures tree[i] !in tree[t].above
    {
      if tree[i] in tree[t].above {
        var m :| 0 <= m < |tree[t].above| && tree[t].above[m] == tree[i];
        AboveInTree(tree, root, t, m);
        var j :| 0 <= j < t && tree[j] == tree[i];
        TreeDistinct(tree, root, i, j);
      }
    }
  }

  function Hashes(s: seq<Inode>): (h: seq<Digest>)
    reads s
    ensures |h| == |s| && forall i :: 0 <= i < |s| ==> h[i] == s[i].hash
  {
    if s == [] then [] else [s[0].hash] + Hashes(s[1..])
  }
}
