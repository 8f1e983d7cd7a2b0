/** A second write-tree of a workspace that has not changed: no file is hashed again, and only directories
    with a link below them are. */
module Reuse {
  import opened Paths
  import opened Entries
  import opened Inodes
  import opened Refresh
  import opened CacheAdd
  import opened Incremental

  /** The hash function gives full digests of the algorithm. */
  ghost predicate Digests(H: string -> Digest, alg: Algorithm) {
    forall s :: H(s).alg == alg && |H(s).hex| == if alg == Sha1 then 40 else 64
  }

  /** A scan that finds everything as the lines say. */
  ghost predicate Unchanged(es: seq<Entry>, tree: seq<Inode>) {
    && |tree| == |es|
    && forall i :: 0 <= i < |es| ==>
         && tree[i].path == es[i].path && tree[i].kind == es[i].kind && tree[i].perms == es[i].perms
         && tree[i].mtime == es[i].mtime && tree[i].target == es[i].target
  }

  /** Every file and directory has a digest that the hash function can have made. */
  ghost predicate FullDigests(alg: Algorithm, es: seq<Entry>) {
    forall i :: 0 <= i < |es| && HasDigest(es[i].kind) ==>
      es[i].hash.alg == alg && |es[i].hash.hex| == if alg == Sha1 then 40 else 64
  }

  /** A link lies below p. */
  ghost predicate LinkBelow(es: seq<Entry>, p: string) {
    exists j :: 0 <= j < |es| && Below(es[j].path, p) && !HasDigest(es[j].kind)
  }

  lemma AddedDigests(H: string -> Digest, alg: Algorithm, es: seq<Entry>, content: map<string, string>,
                     files: map<Digest, string>, root: Digest, trees: map<Digest, string>)
    requires Digests(H, alg) && FilesStored(H, es, content, files) && TreesStored(H, es, root, trees)
    ensures FullDigests(alg, es)
  {
    hide TreeObject;
  }

  /** The list of a scan is an index. */
  lemma ScanIsIndex(tree: seq<Inode>, root: Inode)
    requires Scanned(tree, root)
    ensures IndexOk(Lines(tree))
  {
    hide Less, Below, Inode.Linked;
    var es := Lines(tree);
    forall i, q | 0 <= i < |es| && Below(es[i].path, q) ensures HasPath(es, q) {
      AboveThere(tree, root, i, q);
      var j :| 0 <= j < |tree| && tree[j].path == q;
      assert es[j].path == q;
    }
  }

  lemma {:induction false} AboveThere(tree: seq<Inode>, root: Inode, i: nat, q: string)
    requires Scanned(tree, root) && i < |tree| && Below(tree[i].path, q)
    ensures exists j :: 0 <= j < |tree| && tree[j].path == q
    decreases i
  {
    hide Less, Inode.Linked;
    var t := tree[i].path;
    AboveParent(t, q);
    NotRoot(t, q);
    assert ParentListed(tree, root, i);
    ParentAbove(t);
    var p :| 0 <= p < |tree| && tree[p].path == Parent(t);
    BelowIsLater(tree, root, i, p);
    if q != Parent(t) { AboveThere(tree, root, p, q); }
  }

  lemma NotRoot(t: string, q: string)
    requires Valid(t) && Below(t, q)
    ensures Parent(t) != ""
  {
    AboveParent(t, q);
    SlashAfter(t, q);
    if Parent(t) == "" && q != "" { BelowLess(Parent(t), q); }
  }

  lemma UsableHere(alg: Algorithm, es: seq<Entry>, tree: seq<Inode>, k: nat)
    requires alg != NoAlgorithm && Unchanged(es, tree) && FullDigests(alg, es) && OthersEmpty(es) && k < |es|
    ensures Usable(alg, es[k], tree[k]) <==> HasDigest(es[k].kind)
  {}

  lemma UsableUnlessLink(alg: Algorithm, es: seq<Entry>, tree: seq<Inode>, p: string)
    requires alg != NoAlgorithm && SortedByPath(es) && Unchanged(es, tree) && FullDigests(alg, es) && OthersEmpty(es)
    ensures AllUsableBelow(alg, es, tree, p) <==> !LinkBelow(es, p)
  {
    hide Below, Usable, SortedByPath, FullDigests, OthersEmpty;
    forall k | 0 <= k < |es| ensures Usable(alg, es[k], tree[k]) <==> HasDigest(es[k].kind) {
      UsableHere(alg, es, tree, k);
    }
    forall j, x | 0 <= j < |tree| && 0 <= x < |es| && es[x].path == tree[j].path ensures x == j {
      SortedDistinct(es, x, j);
    }
  }

  /** Refreshing an unchanged tree keeps every hash, but for the directories with a link below them. */
  lemma UnchangedKeeps(alg: Algorithm, es: seq<Entry>, tree: seq<Inode>)
    requires alg != NoAlgorithm && SortedByPath(es) && Unchanged(es, tree) && FullDigests(alg, es) && OthersEmpty(es)
    requires forall i :: 0 <= i < |tree| ==> Reused(alg, es, tree, tree[i])
    ensures forall i :: 0 <= i < |tree| ==>
              tree[i].hash == if LinkBelow(es, es[i].path) then EMPTY else es[i].hash
  {
    hide AllUsableBelow, LinkBelow, Usable, SortedByPath, FullDigests, OthersEmpty;
    forall i | 0 <= i < |tree|
      ensures tree[i].hash == if LinkBelow(es, es[i].path) then EMPTY else es[i].hash
    {
      UsableUnlessLink(alg, es, tree, tree[i].path);
      UsableHere(alg, es, tree, i);
      OthersAt(es, i);
      assert Reused(alg, es, tree, tree[i]) && es[i].path == tree[i].path;
    }
  }

  lemma OthersAt(es: seq<Entry>, i: nat)
    requires OthersEmpty(es) && i < |es|
    ensures !HasDigest(es[i].kind) ==> es[i].hash == EMPTY
  {}

  /** Nothing lies below a file or a link. */
  ghost predicate OnlyInDirectories(es: seq<Entry>) {
    forall i, j :: 0 <= i < |es| && 0 <= j < |es| && Below(es[j].path, es[i].path) ==> es[i].kind == Directory
  }

  lemma FilesClean(alg: Algorithm, es: seq<Entry>, i: nat)
    requires OnlyInDirectories(es) && FullDigests(alg, es) && i < |es|
    ensures es[i].kind == File ==> !LinkBelow(es, es[i].path) && es[i].hash.hex != ""
    ensures es[i].kind == Directory ==> es[i].hash.hex != ""
  {
    hide Below;
  }

  /** What a hash changes does not matter here. */
  lemma SameLooks(tree: seq<Inode>, again: seq<Inode>, es: seq<Entry>)
    requires Unchanged(es, again) && |es| == |tree|
    requires forall i :: 0 <= i < |tree| ==>
               && es[i].path == tree[i].path && es[i].kind == tree[i].kind && es[i].perms == tree[i].perms
               && es[i].mtime == tree[i].mtime && es[i].target == tree[i].target
    ensures Unchanged(Lines(tree), again)
    ensures OnlyInDirectories(es) ==> OnlyInDirectories(Lines(tree))
  {
    hide Below;
    var now := Lines(tree);
    forall i | 0 <= i < |tree| ensures now[i].path == es[i].path && now[i].kind == es[i].kind {
      assert now[i] == Line(tree[i]);
    }
  }

  lemma LooksOf(tree: seq<Inode>)
    ensures var es := Lines(tree);
            forall i :: 0 <= i < |tree| ==>
              && es[i].path == tree[i].path && es[i].kind == tree[i].kind && es[i].perms == tree[i].perms
              && es[i].mtime == tree[i].mtime && es[i].target == tree[i].target && es[i].hash == tree[i].hash
  {}

  /** write-tree, and a refresh of a new scan that finds the same: every file keeps its digest, and every
      directory but those with a link below them. */
  method RefreshAgain(H: string -> Digest, alg: Algorithm, cache: Cache, nodes: seq<Entry>, tree: seq<Inode>,
                      root: Inode, again: seq<Inode>, againRoot: Inode,
                      ghost saved: map<string, string>, content: map<string, string>)
    requires alg != NoAlgorithm && Digests(H, alg) && Listed(tree, root) && root.hash == EMPTY
    requires forall i :: 0 <= i < |tree| ==> tree[i].hash == EMPTY
    requires IndexOk(nodes) && SavedRight(H, nodes, saved) && OthersEmpty(nodes)
    requires GainsShow(alg, nodes, tree) && LossesShow(alg, nodes, tree) && FilesShow(alg, nodes, tree, saved, content)
    requires forall i :: 0 <= i < |tree| && tree[i].kind == File ==> tree[i].path in content
    requires Named(H, cache.files) && Named(H, cache.trees)
    requires Scanned(again, againRoot) && againRoot.hash == EMPTY
    requires forall i :: 0 <= i < |again| ==> again[i].hash == EMPTY && again[i] !in tree && again[i] != root
    requires againRoot !in tree && againRoot != root
    requires Unchanged(Lines(tree), again) && OnlyInDirectories(Lines(tree))
    modifies (set n | n in tree)`hash, (set n | n in tree)`children, root`hash, root`children, cache
    modifies (set n | n in again)`hash, againRoot`hash
    ensures FullDigests(alg, Lines(tree))
    ensures forall i :: 0 <= i < |again| ==>
              again[i].hash == if LinkBelow(Lines(tree), again[i].path) then EMPTY else tree[i].hash
    ensures forall i :: 0 <= i < |again| && again[i].kind == File ==> !again[i].IsDirty()
    ensures forall i :: 0 <= i < |again| && again[i].kind == Directory ==>
              (again[i].IsDirty() <==> LinkBelow(Lines(tree), again[i].path))
  {
    hide *;
    ghost var es0 := Lines(tree);
    LooksOf(tree);
    var inodes := WriteTreeCommand(H, alg, cache, nodes, tree, root, saved, content);
    SameLooks(tree, again, es0);
    ListedRoot(tree, root);
    ScanIsIndex(tree, root);
    LooksOf(tree);
    var es := Lines(tree);
    AddedDigests(H, alg, es, content, cache.files, root.hash, cache.trees);
    var refreshed := Refresh.Refresh(alg, es, again, againRoot);
    assert Lines(tree) == es;
    Final(alg, es, again);
    LooksOf(tree);
  }

  lemma Final(alg: Algorithm, es: seq<Entry>, again: seq<Inode>)
    requires alg != NoAlgorithm && IndexOk(es) && Unchanged(es, again) && FullDigests(alg, es) && OthersEmpty(es)
    requires OnlyInDirectories(es) && forall i :: 0 <= i < |again| ==> Reused(alg, es, again, again[i])
    ensures |again| == |es|
    ensures forall i :: 0 <= i < |again| ==>
              again[i].hash == if LinkBelow(es, again[i].path) then EMPTY else es[i].hash
    ensures forall i :: 0 <= i < |again| && again[i].kind == File ==> !again[i].IsDirty()
    ensures forall i :: 0 <= i < |again| && again[i].kind == Directory ==>
              (again[i].IsDirty() <==> LinkBelow(es, again[i].path))
  {
    hide LinkBelow, Reused, SortedByPath, FullDigests, OthersEmpty, OnlyInDirectories, Below;
    UnchangedKeeps(alg, es, again);
    forall i: nat | i < |again|
      ensures again[i].kind == File ==> !again[i].IsDirty()
      ensures again[i].kind == Directory ==> (again[i].IsDirty() <==> LinkBelow(es, again[i].path))
    {
      FilesClean(alg, es, i);
    }
  }
}
