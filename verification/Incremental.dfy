/** refresh followed by add, as the write-tree and write-tree-push commands run them: the digests
    built from reused and new hashes are those of a build from nothing. */
module Incremental {
  import opened Paths
  import opened Entries
  import opened Inodes
  import opened Codec
  import opened Refresh
  import opened CacheAdd

  // ---------------------------------------------------------------- what the program relies on

  /** The index holds right digests for the state it was saved in. */
  ghost predicate SavedRight(H: string -> Digest, nodes: seq<Entry>, saved: map<string, string>) {
    && (forall k :: 0 <= k < |nodes| && nodes[k].kind == File ==> FileOk(H, nodes[k], saved))
    && (forall k :: 0 <= k < |nodes| && nodes[k].kind == Directory ==> DirOk(H, nodes, k))
  }

  /** A file that looks as the index remembers it has the content it had. */
  ghost predicate FilesShow(alg: Algorithm, nodes: seq<Entry>, tree: seq<Inode>, saved: map<string, string>,
                            content: map<string, string>) {
    forall i, k :: 0 <= i < |tree| && tree[i].kind == File && Accepted(alg, nodes, tree[i], k) && tree[i].path in saved
      ==> tree[i].path in content && content[tree[i].path] == saved[tree[i].path]
  }

  /** A directory that lost an entry does not look as the index remembers it. */
  ghost predicate LossesShow(alg: Algorithm, nodes: seq<Entry>, tree: seq<Inode>) {
    forall k, p ::
      0 <= k < |nodes| && 0 <= p < |tree| && Parent(nodes[k].path) == tree[p].path && !InTree(tree, nodes[k].path)
      ==> forall x :: !Accepted(alg, nodes, tree[p], x)
  }

  ghost predicate InTree(tree: seq<Inode>, q: string) {
    exists i :: 0 <= i < |tree| && tree[i].path == q
  }

  /** Files and directories have digests; whatever else there is, links, have none. */
  predicate HasDigest(kind: Kind) { kind == File || kind == Directory }

  ghost predicate OthersEmpty(es: seq<Entry>) {
    forall i :: 0 <= i < |es| && !HasDigest(es[i].kind) ==> es[i].hash == EMPTY
  }

  /** Refreshing gives links no digest. */
  lemma LinksEmpty(alg: Algorithm, nodes: seq<Entry>, tree: seq<Inode>)
    requires alg != NoAlgorithm && OthersEmpty(nodes)
    requires forall i :: 0 <= i < |tree| ==> Reused(alg, nodes, tree, tree[i])
    ensures OthersEmpty(Lines(tree))
  {
    hide AllUsableBelow;
    forall i | 0 <= i < |tree| && !HasDigest(tree[i].kind) ensures tree[i].hash == EMPTY {
      assert Reused(alg, nodes, tree, tree[i]);
    }
  }

  // ---------------------------------------------------------------- clean directories are current

  lemma {:induction false} NoKids(a: seq<Entry>, p: string)
    requires forall i :: 0 <= i < |a| ==> Parent(a[i].path) != p
    ensures KidsOf(a, p) == []
  {
    if a != [] { NoKids(a[1..], p); }
  }

  /** Sorted lists with the same entries below p list them alike. */
  lemma {:induction false} KidsAgree(a: seq<Entry>, b: seq<Entry>, p: string)
    requires SortedByPath(a) && SortedByPath(b)
    requires forall i :: 0 <= i < |a| && Parent(a[i].path) == p ==> a[i] in b
    requires forall i :: 0 <= i < |b| && Parent(b[i].path) == p ==> b[i] in a
    ensures KidsOf(a, p) == KidsOf(b, p)
    decreases |a| + |b|
  {
    hide Less, Parent;
    if a == [] {
      NoKids(b, p);
    } else if b == [] {
      NoKids(a, p);
    } else if Parent(a[0].path) != p {
      KidsAgree(a[1..], b, p);
    } else if Parent(b[0].path) != p {
      KidsAgree(a, b[1..], p);
    } else {
      SameFirst(a, b);
      InTail(a, b, p);
      InTail(b, a, p);
      KidsAgree(a[1..], b[1..], p);
    }
  }

  lemma SameFirst(a: seq<Entry>, b: seq<Entry>)
    requires SortedByPath(a) && SortedByPath(b) && a != [] && b != [] && a[0] in b && b[0] in a
    ensures a[0] == b[0]
  {
    hide Less;
    var j :| 0 <= j < |b| && b[j] == a[0];
    var i :| 0 <= i < |a| && a[i] == b[0];
    if j > 0 && i > 0 {
      assert Less(a[0].path, a[i].path) && Less(b[0].path, b[j].path);
      LessAsymmetric(a[0].path, a[i].path);
    }
  }

  lemma InTail(a: seq<Entry>, b: seq<Entry>, p: string)
    requires SortedByPath(a) && a != [] && b != [] && a[0] == b[0]
    requires forall i :: 0 <= i < |a| && Parent(a[i].path) == p ==> a[i] in b
    ensures forall i :: 0 <= i < |a[1..]| && Parent(a[1..][i].path) == p ==> a[1..][i] in b[1..]
  {
    hide Less, Parent;
    forall i | 0 <= i < |a[1..]| && Parent(a[1..][i].path) == p
      ensures a[1..][i] in b[1..]
    {
      assert a[1..][i] == a[i + 1] && Less(a[0].path, a[i + 1].path);
      var k :| 0 <= k < |b| && b[k] == a[i + 1];
      if k == 0 { LessIrreflexive(a[0].path); }
      assert b[1..][k - 1] == b[k];
    }
  }

  /** What is in a clean directory is in the index as it is, hash included. */
  lemma CleanKid(alg: Algorithm, nodes: seq<Entry>, tree: seq<Inode>, root: Inode, d: nat, i: nat)
    requires alg != NoAlgorithm && Scanned(tree, root) && IndexOk(nodes) && GainsShow(alg, nodes, tree)
    requires root.IsDirty()
    requires forall j :: 0 <= j < |tree| ==> Kept(alg, nodes, tree, tree[j], |tree|, tree[j].hash)
    requires d < |tree| && !tree[d].IsDirty() && i < |tree| && Parent(tree[i].path) == tree[d].path
    ensures exists k :: Accepted(alg, nodes, tree[i], k) && Line(tree[i]) == nodes[k]
  {
    hide Less, Parent, Current;
    assert ParentListed(tree, root, i) && tree[d].path != "";
    ParentAbove(tree[i].path);
    var p :| 0 <= p < |tree| && tree[p] == tree[i].parent && tree[p].path == Parent(tree[i].path);
    TreeDistinct(tree, root, p, d);
    CleanExactlyWhen(alg, nodes, tree, d);
    if tree[i].IsDirty() { DirtyUpward(alg, nodes, tree, root, i); }
    CleanExactlyWhen(alg, nodes, tree, i);
  }

  lemma OnlyEntry(nodes: seq<Entry>, k: nat, x: nat)
    requires SortedByPath(nodes) && k < |nodes| && x < |nodes| && nodes[k].path == nodes[x].path
    ensures nodes[k] == nodes[x]
  {
    SortedDistinct(nodes, k, x);
  }

  /** Line i of the index lies in a clean directory, so it is in the tree as it is. */
  lemma CleanEntry(alg: Algorithm, nodes: seq<Entry>, tree: seq<Inode>, root: Inode, d: nat, k: nat)
    requires alg != NoAlgorithm && Scanned(tree, root) && IndexOk(nodes) && GainsShow(alg, nodes, tree)
    requires LossesShow(alg, nodes, tree) && root.IsDirty()
    requires forall j :: 0 <= j < |tree| ==> Kept(alg, nodes, tree, tree[j], |tree|, tree[j].hash)
    requires d < |tree| && !tree[d].IsDirty() && k < |nodes| && Parent(nodes[k].path) == tree[d].path
    ensures nodes[k] in Lines(tree)
  {
    hide Less, Parent, Current, Kept, Scanned;
    CleanExactlyWhen(alg, nodes, tree, d);
    assert InTree(tree, nodes[k].path);
    var i :| 0 <= i < |tree| && tree[i].path == nodes[k].path;
    CleanKid(alg, nodes, tree, root, d, i);
    var x :| Accepted(alg, nodes, tree[i], x) && Line(tree[i]) == nodes[x];
    OnlyEntry(nodes, k, x);
    assert Lines(tree)[i] == nodes[k];
  }

  /** A directory that keeps its hash has the children the index has for it. */
  lemma CleanDirCurrent(H: string -> Digest, alg: Algorithm, nodes: seq<Entry>, tree: seq<Inode>, root: Inode, d: nat,
                        saved: map<string, string>)
    requires alg != NoAlgorithm && Scanned(tree, root) && IndexOk(nodes) && GainsShow(alg, nodes, tree)
    requires LossesShow(alg, nodes, tree) && root.IsDirty()
    requires forall j :: 0 <= j < |tree| ==> Kept(alg, nodes, tree, tree[j], |tree|, tree[j].hash)
    requires SavedRight(H, nodes, saved) && d < |tree| && tree[d].kind == Directory && !tree[d].IsDirty()
    ensures DirOk(H, Lines(tree), d)
  {
    hide Less, Parent, Current, Kept, Lines, EncodeTree, RecordsOf, GainsShow, LossesShow, Scanned;
    var es, p := Lines(tree), tree[d].path;
    CleanExactlyWhen(alg, nodes, tree, d);
    var k :| Accepted(alg, nodes, tree[d], k) && tree[d].hash == nodes[k].hash;
    forall i | 0 <= i < |es| && Parent(es[i].path) == p ensures es[i] in nodes {
      CleanKid(alg, nodes, tree, root, d, i);
    }
    forall x | 0 <= x < |nodes| && Parent(nodes[x].path) == p ensures nodes[x] in es {
      CleanEntry(alg, nodes, tree, root, d, x);
    }
    TreeSorted(tree, root);
    KidsAgree(es, nodes, p);
    assert DirOk(H, nodes, k);
  }

  lemma TreeSorted(tree: seq<Inode>, root: Inode)
    requires Scanned(tree, root)
    ensures SortedByPath(Lines(tree))
  {
    hide Less;
  }

  /** Every hash that refresh keeps is the one of the present state. */
  lemma RefreshCurrent(H: string -> Digest, alg: Algorithm, nodes: seq<Entry>, tree: seq<Inode>, root: Inode,
                       saved: map<string, string>, content: map<string, string>)
    requires alg != NoAlgorithm && Scanned(tree, root) && IndexOk(nodes) && SavedRight(H, nodes, saved)
    requires root.IsDirty()
    requires GainsShow(alg, nodes, tree) && LossesShow(alg, nodes, tree) && FilesShow(alg, nodes, tree, saved, content)
    requires forall j :: 0 <= j < |tree| ==> Kept(alg, nodes, tree, tree[j], |tree|, tree[j].hash)
    ensures CleanCurrent(H, Lines(tree), content)
  {
    hide Less, Parent, Current, Kept, Lines, DirOk, Scanned, GainsShow, LossesShow;
    var es := Lines(tree);
    forall i | 0 <= i < |es| && es[i].hash.hex != ""
      ensures (es[i].kind == File ==> FileOk(H, es[i], content)) && (es[i].kind == Directory ==> DirOk(H, es, i))
    {
      assert es[i] == Line(tree[i]) && !tree[i].IsDirty();
      if es[i].kind == File {
        CleanExactlyWhen(alg, nodes, tree, i);
        var k :| Accepted(alg, nodes, tree[i], k) && tree[i].hash == nodes[k].hash;
        assert FileOk(H, nodes[k], saved);
      } else if es[i].kind == Directory {
        CleanDirCurrent(H, alg, nodes, tree, root, i, saved);
      }
    }
  }

  lemma RefreshDirtyUp(alg: Algorithm, nodes: seq<Entry>, tree: seq<Inode>, root: Inode)
    requires alg != NoAlgorithm && Scanned(tree, root) && IndexOk(nodes) && GainsShow(alg, nodes, tree)
    requires root.IsDirty()
    requires forall j :: 0 <= j < |tree| ==> Kept(alg, nodes, tree, tree[j], |tree|, tree[j].hash)
    ensures DirtyUp(Lines(tree))
  {
    hide Less, Parent, Current, Kept, GainsShow, Lines;
    var es := Lines(tree);
    forall i, j | 0 <= i < |es| && 0 <= j < |es| && es[i].hash.hex == "" && Parent(es[i].path) == es[j].path
      ensures es[j].hash.hex == ""
    {
      assert es[i] == Line(tree[i]) && es[j] == Line(tree[j]);
      assert tree[i].IsDirty() && ParentListed(tree, root, i) && tree[j].path != "";
      var p :| 0 <= p < |tree| && tree[p] == tree[i].parent && tree[p].path == Parent(tree[i].path);
      TreeDistinct(tree, root, p, j);
      DirtyUpward(alg, nodes, tree, root, i);
    }
  }

  /** write-tree: whatever hashes were reused, every digest afterwards is the one of the present
      files and directories, and everything is in the cache. */
  method WriteTreeCommand(H: string -> Digest, alg: Algorithm, cache: Cache, nodes: seq<Entry>, tree: seq<Inode>,
                          root: Inode,
                          ghost saved: map<string, string>, content: map<string, string>) returns (inodes: seq<Inode>)
    requires alg != NoAlgorithm && Listed(tree, root) && root.hash == EMPTY
    requires forall i :: 0 <= i < |tree| ==> tree[i].hash == EMPTY
    requires IndexOk(nodes) && SavedRight(H, nodes, saved)
    requires GainsShow(alg, nodes, tree) && LossesShow(alg, nodes, tree) && FilesShow(alg, nodes, tree, saved, content)
    requires forall i :: 0 <= i < |tree| && tree[i].kind == File ==> tree[i].path in content
    requires Named(H, cache.files) && Named(H, cache.trees)
    modifies (set n | n in tree)`hash, (set n | n in tree)`children, root`hash, root`children, cache
    ensures inodes == tree && Listed(tree, root)
    ensures FilesStored(H, Lines(tree), content, cache.files) && TreesStored(H, Lines(tree), root.hash, cache.trees)
    ensures Named(H, cache.files) && Extends(old(cache.files), cache.files)
    ensures Named(H, cache.trees) && Extends(old(cache.trees), cache.trees)
    ensures OthersEmpty(nodes) ==> OthersEmpty(Lines(tree))
  {
    hide *;
    ListedRoot(tree, root);
    inodes := Refresh.Refresh(alg, nodes, tree, root);
    ghost var refreshed := Lines(tree);
    if OthersEmpty(nodes) { LinksEmpty(alg, nodes, tree); }
    forall i | 0 <= i < |tree| ensures refreshed[i].kind == tree[i].kind && refreshed[i].hash == tree[i].hash {
      LineOf(tree, i);
    }
    assert root.IsDirty() by { DirtyMeans(root); }
    RefreshCurrent(H, alg, nodes, tree, root, saved, content);
    RefreshDirtyUp(alg, nodes, tree, root);
    Add(H, cache, inodes, root, content);
    if OthersEmpty(nodes) { StillEmpty(refreshed, tree); }
  }

  lemma LineOf(tree: seq<Inode>, i: nat)
    requires i < |tree|
    ensures Lines(tree)[i].kind == tree[i].kind && Lines(tree)[i].hash == tree[i].hash
  {}

  lemma StillEmpty(was: seq<Entry>, tree: seq<Inode>)
    requires OthersEmpty(was) && |was| == |tree|
    requires forall i :: 0 <= i < |tree| ==> was[i].kind == tree[i].kind
    requires forall i :: 0 <= i < |tree| && tree[i].kind != File && tree[i].kind != Directory ==>
               tree[i].hash == was[i].hash
    ensures OthersEmpty(Lines(tree))
  {}

  lemma DirtyMeans(n: Inode)
    requires n.hash == EMPTY
    ensures n.IsDirty()
  {}
}
