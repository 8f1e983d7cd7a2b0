/** From the disk into the cache and back: what add has stored, index_from_tree and pull read again,
    or else the hash function collides. */
module RoundTrip {
  import opened Paths
  import opened Entries
  import opened Codec
  import opened Trees
  import opened Inodes
  import CacheAdd
  import Checkout
  import Merkle
  import Reading
  import Pull
  import PullExact

  /** What survives in a tree object: all but the modification time. */
  function Timeless(es: seq<Entry>): (zs: seq<Entry>)
    ensures |zs| == |es| && forall i :: 0 <= i < |es| ==> zs[i] == es[i].(mtime := 0)
  {
    if es == [] then [] else [es[0].(mtime := 0)] + Timeless(es[1..])
  }

  /** A scanned list: sorted, every entry but the top ones in a listed directory, all fields within
      what a tree object can hold. */
  ghost predicate Writable(es: seq<Entry>) {
    && SortedByPath(es)
    && (forall i :: 0 <= i < |es| ==> Plain(es[i].path) && RecordOk(RecordOf(es[i])))
    && (forall i :: 0 <= i < |es| && Parent(es[i].path) != "" ==> HasDirectory(es, Parent(es[i].path)))
  }

  /** The entry that stands for the root of the tree with this digest. */
  function RootEntry(d: Digest): Entry { Entry("", Directory, 0, 0, "", d) }

  /** The store has the tree object of the root and of every listed directory. */
  ghost predicate Holds(src: Store, es: seq<Entry>, root: Digest) {
    && root in src && src[root] == CacheAdd.TreeObject(es, "")
    && forall i :: 0 <= i < |es| && es[i].kind == Directory ==>
         es[i].hash in src && src[es[i].hash] == CacheAdd.TreeObject(es, es[i].path)
  }

  /** An object under the digest of a tree object is that tree object, or the two collide. */
  lemma StoredOrCollision(H: string -> Digest, es: seq<Entry>, root: Digest, src: Store)
    requires CacheAdd.TreesStored(H, es, root, src) && CacheAdd.Named(H, src)
    ensures Holds(src, es, root) || exists x, y :: Merkle.Collides(H, x, y)
  {
    hide CacheAdd.TreeObject;
    if !Holds(src, es, root) {
      if src[root] != CacheAdd.TreeObject(es, "") {
        assert Merkle.Collides(H, src[root], CacheAdd.TreeObject(es, ""));
      } else {
        var i :| 0 <= i < |es| && es[i].kind == Directory && src[es[i].hash] != CacheAdd.TreeObject(es, es[i].path);
        assert CacheAdd.DirOk(H, es, i);
        assert Merkle.Collides(H, src[es[i].hash], CacheAdd.TreeObject(es, es[i].path));
      }
    }
  }

  // ---------------------------------------------------------------- reading one directory

  lemma {:induction false} KidsFrom(es: seq<Entry>, p: string)
    ensures forall k :: k in CacheAdd.KidsOf(es, p) ==> k in es && Parent(k.path) == p
    ensures forall k :: k in es && Parent(k.path) == p ==> k in CacheAdd.KidsOf(es, p)
  {
    hide Parent;
    if es != [] { KidsFrom(es[1..], p); }
  }

  lemma {:induction false} KidsTimeless(es: seq<Entry>, p: string)
    ensures CacheAdd.KidsOf(Timeless(es), p) == Timeless(CacheAdd.KidsOf(es, p))
  {
    hide Parent;
    if es != [] {
      KidsTimeless(es[1..], p);
      assert Timeless(es)[1..] == Timeless(es[1..]);
    }
  }

  /** read_tree gives the directory's children as they were written, without their times. */
  lemma ReadsChildren(src: Store, es: seq<Entry>, d: Entry)
    requires Writable(es) && d.hash in src && src[d.hash] == CacheAdd.TreeObject(es, d.path)
    ensures Readable(src, d) && Children(src, d) == CacheAdd.KidsOf(Timeless(es), d.path)
  {
    hide DecodeTree, EncodeTree, Parent, Plain, RecordOk;
    var kids := CacheAdd.KidsOf(es, d.path);
    KidsFrom(es, d.path);
    TreeRoundTrip(RecordsOf(kids));
    forall i | 0 <= i < |kids| ensures EntryOf(d.path, RecordOf(kids[i])) == kids[i].(mtime := 0) {
      JoinParentName(kids[i].path);
    }
    KidsTimeless(es, d.path);
    assert Children(src, d) == Timeless(kids);
  }

  // ---------------------------------------------------------------- reading all of them

  /** The listed entries and the root. */
  ghost predicate Known(es: seq<Entry>, root: Digest, d: Entry) { d == RootEntry(root) || d in Timeless(es) }

  lemma KnownReads(src: Store, es: seq<Entry>, root: Digest, d: Entry)
    requires Writable(es) && Holds(src, es, root) && Known(es, root, d) && d.kind == Directory
    ensures Readable(src, d) && Children(src, d) == CacheAdd.KidsOf(Timeless(es), d.path)
  {
    hide Readable, Children, CacheAdd.TreeObject;
    if d != RootEntry(root) {
      var i :| 0 <= i < |es| && Timeless(es)[i] == d;
      assert es[i].hash == d.hash && es[i].path == d.path;
    }
    ReadsChildren(src, es, d);
  }

  ghost predicate Short(es: seq<Entry>, limit: nat) { forall i :: 0 <= i < |es| ==> |es[i].path| <= limit }

  lemma KidLonger(es: seq<Entry>, p: string, k: Entry)
    requires Writable(es) && k in CacheAdd.KidsOf(Timeless(es), p)
    ensures k in Timeless(es) && |p| < |k.path| && Parent(k.path) == p && Plain(k.path)
  {
    KidsFrom(Timeless(es), p);
    var i :| 0 <= i < |es| && Timeless(es)[i] == k;
    assert Plain(es[i].path);
  }

  lemma {:induction false} AllRead(src: Store, es: seq<Entry>, root: Digest, d: Entry, limit: nat, n: nat)
    requires Writable(es) && Holds(src, es, root) && Known(es, root, d) && Short(es, limit) && |d.path| + n > limit
    ensures Complete(src, d, n)
    decreases n
  {
    hide Readable, Children, Holds, Writable, Parent, Timeless, Short, Plain, Known;
    if d.kind == Directory {
      KnownReads(src, es, root, d);
      KnownShort(es, root, d, limit);
      var kids := Children(src, d);
      forall i | 0 <= i < |kids| ensures Complete(src, kids[i], n - 1) {
        KidLonger(es, d.path, kids[i]);
        ListedKnown(es, root, kids[i]);
        AllRead(src, es, root, kids[i], limit, n - 1);
      }
    }
  }

  lemma ListedKnown(es: seq<Entry>, root: Digest, d: Entry)
    requires d in Timeless(es)
    ensures Known(es, root, d)
  {}

  lemma KnownShort(es: seq<Entry>, root: Digest, d: Entry, limit: nat)
    requires Known(es, root, d) && Short(es, limit)
    ensures |d.path| <= limit
  {}

  // ---------------------------------------------------------------- each entry once

  predicate AtOrUnder(x: Entry, k: Entry) { x == k || Below(x.path, k.path) }

  lemma {:induction false} HasKid(es: seq<Entry>, p: string, x: Entry)
    requires Writable(es) && x in Timeless(es) && Under(x.path, p)
    ensures exists k :: k in CacheAdd.KidsOf(Timeless(es), p) && AtOrUnder(x, k)
    decreases |x.path|
  {
    hide Below, Parent, Writable;
    KidsFrom(Timeless(es), p);
    if Parent(x.path) == p {
      assert AtOrUnder(x, x);
    } else {
      ParentListed(es, p, x);
      var q :| q in Timeless(es) && q.path == Parent(x.path) && |q.path| < |x.path| && Under(q.path, p) &&
        Below(x.path, q.path);
      HasKid(es, p, q);
      var k :| k in CacheAdd.KidsOf(Timeless(es), p) && AtOrUnder(q, k);
      if q != k { BelowTransitive(x.path, q.path, k.path); }
      assert AtOrUnder(x, k);
    }
  }

  lemma ParentListed(es: seq<Entry>, p: string, x: Entry)
    requires Writable(es) && x in Timeless(es) && Under(x.path, p) && Parent(x.path) != p
    ensures exists q ::
              q in Timeless(es) && q.path == Parent(x.path) && |q.path| < |x.path| && Under(q.path, p) &&
              Below(x.path, q.path)
  {
    hide Parent, Less, RecordOk, Timeless, Below;
    var i :| 0 <= i < |es| && Timeless(es)[i] == x;
    PlainNonempty(es[i].path);
    ParentUnder(x.path, p);
    assert HasDirectory(es, Parent(es[i].path));
    var j :| 0 <= j < |es| && es[j].path == Parent(es[i].path) && es[j].kind == Directory;
    assert Timeless(es)[j].path == Parent(x.path);
  }

  lemma KidIsUnder(es: seq<Entry>, p: string, k: Entry, x: Entry)
    requires Writable(es) && k in CacheAdd.KidsOf(Timeless(es), p) && AtOrUnder(x, k)
    ensures Under(x.path, p)
  {
    KidLonger(es, p, k);
    if p != "" {
      ParentAbove(k.path);
      if x != k { BelowTransitive(x.path, k.path, p); }
    }
  }

  /** Nothing lies below a listed entry that is not a directory. */
  lemma {:induction false} OnlyDirsAbove(es: seq<Entry>, x: Entry, k: Entry)
    requires Writable(es) && x in Timeless(es) && k in Timeless(es) && Below(x.path, k.path)
    ensures k.kind == Directory
    decreases |x.path|
  {
    hide Below, Parent, RecordOk, Plain;
    var i :| 0 <= i < |es| && Timeless(es)[i] == x;
    AboveParent(x.path, k.path);
    BelowNonempty(Parent(x.path), k.path);
    var l :| 0 <= l < |es| && Timeless(es)[l] == k;
    assert k.path != "" by { hide Parent; assert Plain(es[l].path); PlainNonempty(es[l].path); }
    assert HasDirectory(es, Parent(x.path));
    var j :| 0 <= j < |es| && es[j].path == Parent(x.path) && es[j].kind == Directory;
    if es[j].path == k.path {
      SortedDistinct(es, j, l);
    } else {
      assert Timeless(es)[j].path == es[j].path;
      BelowNonempty(x.path, k.path);
      ParentShort(x.path);
      OnlyDirsAbove(es, Timeless(es)[j], k);
    }
  }

  predicate KidList(es: seq<Entry>, p: string, ks: seq<Entry>) {
    && (forall i :: 0 <= i < |ks| ==> ks[i] in Timeless(es) && Parent(ks[i].path) == p && ks[i].path != "")
    && (forall i, j :: 0 <= i < j < |ks| ==> ks[i].path != ks[j].path)
  }

  /** Below a known directory every entry occurs once. */
  lemma {:induction false} Counts(src: Store, es: seq<Entry>, root: Digest, d: Entry, limit: nat, n: nat, x: Entry)
    requires Writable(es) && Holds(src, es, root) && Known(es, root, d) && Short(es, limit) && |d.path| + n > limit
    ensures d.kind == Directory ==> Reach(src, d, n)[x] == if x in Timeless(es) && Under(x.path, d.path) then 1 else 0
    ensures d.kind != Directory ==> Reach(src, d, n)[x] == 0
    decreases n, 0
  {
    hide Readable, Children, Holds, Writable, Parent, ReachAll, Under, Timeless, CacheAdd.KidsOf, AtOrUnder, Known;
    hide Short;
    if d.kind == Directory {
      KnownReads(src, es, root, d);
      KnownShort(es, root, d, limit);
      var kids := Children(src, d);
      KidsAreKidList(es, d.path);
      AllCounts(src, es, root, d.path, kids, limit, n - 1, x);
      if x in Timeless(es) && Under(x.path, d.path) { HasKid(es, d.path, x); }
      if k :| k in kids && AtOrUnder(x, k) { KidIsUnder(es, d.path, k, x); }
    }
  }

  lemma KidsAreKidList(es: seq<Entry>, p: string)
    requires Writable(es)
    ensures KidList(es, p, CacheAdd.KidsOf(Timeless(es), p))
  {
    hide Parent, Less, Writable, Timeless, CacheAdd.KidsOf;
    TimelessSorted(es);
    KidsSorted(Timeless(es), p);
    var ks := CacheAdd.KidsOf(Timeless(es), p);
    forall i, j | 0 <= i < j < |ks| ensures ks[i].path != ks[j].path { LessIrreflexive(ks[i].path); }
    forall i | 0 <= i < |ks| ensures ks[i] in Timeless(es) && Parent(ks[i].path) == p && ks[i].path != "" {
      KidLonger(es, p, ks[i]);
    }
  }

  lemma {:induction false} KidsSorted(es: seq<Entry>, p: string)
    requires SortedByPath(es)
    ensures SortedByPath(CacheAdd.KidsOf(es, p))
  {
    hide Parent, Less;
    if es != [] {
      KidsSorted(es[1..], p);
      KidsFrom(es[1..], p);
      var ks := CacheAdd.KidsOf(es[1..], p);
      forall j | 0 <= j < |ks| ensures Less(es[0].path, ks[j].path) {
        assert ks[j] in es[1..];
      }
    }
  }

  lemma {:induction false} AllCounts(src: Store, es: seq<Entry>, root: Digest, p: string, ks: seq<Entry>, limit: nat,
                                     n: nat, x: Entry)
    requires Writable(es) && Holds(src, es, root) && Short(es, limit) && |p| + n + 1 > limit && KidList(es, p, ks)
    ensures ReachAll(src, ks, n)[x] == if x in Timeless(es) && (exists k :: k in ks && AtOrUnder(x, k)) then 1 else 0
    decreases n, |ks| + 1
  {
    hide Holds, Writable, Parent, Reach, Timeless, Short, Below;
    if ks != [] {
      var k := ks[0];
      assert k in Timeless(es) && |Parent(k.path)| < |k.path|;
      Counts(src, es, root, k, limit, n, x);
      AllCounts(src, es, root, p, ks[1..], limit, n, x);
      if x in Timeless(es) && Below(x.path, k.path) { OnlyDirsAbove(es, x, k); }
      NotBelowItself(x.path);
      assert (if x == k then 1 else 0) + Reach(src, k, n)[x] == if x in Timeless(es) && AtOrUnder(x, k) then 1 else 0;
      OneOfThem(es, p, ks, x);
    }
  }

  /** An entry is at or under one of the children at most. */
  lemma OneOfThem(es: seq<Entry>, p: string, ks: seq<Entry>, x: Entry)
    requires KidList(es, p, ks) && ks != []
    ensures (exists y :: y in ks && AtOrUnder(x, y)) <==>
              AtOrUnder(x, ks[0]) || exists y :: y in ks[1..] && AtOrUnder(x, y)
    ensures AtOrUnder(x, ks[0]) ==> !exists y :: y in ks[1..] && AtOrUnder(x, y)
  {
    hide Parent, Timeless;
    forall y | y in ks[1..] && AtOrUnder(x, y) ensures !AtOrUnder(x, ks[0]) {
      hide Below;
      if AtOrUnder(x, ks[0]) { SiblingsApart(x.path, ks[0].path, y.path); }
    }
    assert ks == [ks[0]] + ks[1..];
  }

  // ---------------------------------------------------------------- the whole tree

  /** The tree object of the root and those below it describe exactly the listed entries. */
  lemma TreeIsList(src: Store, es: seq<Entry>, root: Digest)
    requires Writable(es) && Holds(src, es, root)
    ensures Complete(src, RootEntry(root), Longest(es) + 1)
    ensures Reach(src, RootEntry(root), Longest(es) + 1) == multiset(Timeless(es))
  {
    hide Holds, Writable, Reach, Complete, Timeless;
    var d, n := RootEntry(root), Longest(es) + 1;
    AllRead(src, es, root, d, Longest(es), n);
    forall x ensures Reach(src, d, n)[x] == multiset(Timeless(es))[x] {
      Counts(src, es, root, d, Longest(es), n, x);
      ListedOnce(es, x);
    }
  }

  lemma ListedOnce(es: seq<Entry>, x: Entry)
    requires Writable(es)
    ensures multiset(Timeless(es))[x] == if x in Timeless(es) then 1 else 0
  {
    hide Less;
    SortedOnce(Timeless(es), x);
  }

  lemma {:induction false} SortedOnce(zs: seq<Entry>, x: Entry)
    requires SortedByPath(zs)
    ensures multiset(zs)[x] == if x in zs then 1 else 0
  {
    hide Less;
    if zs != [] {
      SortedOnce(zs[1..], x);
      assert zs == [zs[0]] + zs[1..];
      if x == zs[0] && x in zs[1..] {
        var k :| 0 <= k < |zs[1..]| && zs[1..][k] == x;
        assert Less(zs[0].path, zs[k + 1].path);
        LessIrreflexive(x.path);
      }
    }
  }

  /** What std::sort delivers. */
  ghost predicate SortOf(sorted: seq<Entry>, s: seq<Entry>) {
    multiset(sorted) == multiset(s) && forall i, j :: 0 <= i < j < |sorted| ==> !Less(sorted[j].path, sorted[i].path)
  }

  lemma LeastFirst(sorted: seq<Entry>, zs: seq<Entry>)
    requires SortedByPath(zs) && SortOf(sorted, zs) && zs != []
    ensures sorted != [] && sorted[0] == zs[0]
  {
    hide Less;
    assert zs[0] in multiset(sorted);
    assert sorted[0] in multiset(zs);
    var k :| 0 <= k < |zs| && zs[k] == sorted[0];
    var i :| 0 <= i < |sorted| && sorted[i] == zs[0];
    assert k > 0 ==> Less(zs[0].path, zs[k].path);
    assert i > 0 ==> !Less(sorted[i].path, sorted[0].path);
  }

  lemma TailOf(sorted: seq<Entry>, zs: seq<Entry>)
    requires SortOf(sorted, zs) && zs != [] && sorted != [] && sorted[0] == zs[0]
    ensures SortOf(sorted[1..], zs[1..])
  {
    hide Less;
    assert sorted == [sorted[0]] + sorted[1..] && zs == [zs[0]] + zs[1..];
    assert multiset(sorted[1..]) == multiset(sorted) - multiset{zs[0]};
    assert multiset(zs[1..]) == multiset(zs) - multiset{zs[0]};
  }

  /** There is one way to sort entries with distinct paths. */
  lemma {:induction false} SortUnique(sorted: seq<Entry>, zs: seq<Entry>)
    requires SortedByPath(zs) && SortOf(sorted, zs)
    ensures sorted == zs
  {
    if zs == [] {
      assert |sorted| == |multiset(sorted)|;
    } else {
      LeastFirst(sorted, zs);
      TailOf(sorted, zs);
      hide Less, SortOf;
      SortUnique(sorted[1..], zs[1..]);
      assert sorted == [sorted[0]] + sorted[1..] && zs == [zs[0]] + zs[1..];
    }
  }

  /** A read that has returned, sorted, is the list; one that has not can go on. */
  ghost predicate ReadBack(es: seq<Entry>, trees: Store, run: seq<Reading.State>)
    requires run != []
  {
    var s := run[|run| - 1];
    && |run| <= 5 * |es| + 5 && s.main != Reading.Threw
    && (s.main != Reading.Returned ==> exists s' :: Reading.Step(trees, s, s'))
    && forall sorted :: s.main == Reading.Returned && SortOf(sorted, s.index) ==> sorted == Timeless(es)
  }

  lemma HeldIsReadBack(es: seq<Entry>, root: Digest, trees: Store, run: seq<Reading.State>)
    requires Writable(es) && Holds(trees, es, root) && Reading.Run(trees, RootEntry(root), run)
    ensures ReadBack(es, trees, run)
  {
    hide Writable, Reading.Step, Complete, Reach, Holds, SortOf;
    TreeIsList(trees, es, root);
    Reading.ReadTheorem(trees, RootEntry(root), Longest(es) + 1, run);
    assert |multiset(Timeless(es))| == |es|;
    var s := run[|run| - 1];
    forall sorted | s.main == Reading.Returned && SortOf(sorted, s.index) ensures sorted == Timeless(es) {
      SortedBack(es, s.index, sorted);
    }
  }

  lemma SortedBack(es: seq<Entry>, index: seq<Entry>, sorted: seq<Entry>)
    requires Writable(es) && multiset(index) == multiset(Timeless(es)) && SortOf(sorted, index)
    ensures sorted == Timeless(es)
  {
    hide Less, Writable;
    TimelessSorted(es);
    SortUnique(sorted, Timeless(es));
  }

  /** What add has written, index_from_tree and a sort give back: the same entries in the same order,
      with path, status, target and digest, in every interleaving of the readers.  Otherwise the hash
      function collides. */
  lemma WriteReadRoundTrip(H: string -> Digest, es: seq<Entry>, root: Digest, trees: Store, run: seq<Reading.State>)
    requires Writable(es) && CacheAdd.TreesStored(H, es, root, trees) && CacheAdd.Named(H, trees)
    requires Reading.Run(trees, RootEntry(root), run)
    ensures ReadBack(es, trees, run) || exists x, y :: Merkle.Collides(H, x, y)
  {
    hide Writable, CacheAdd.TreesStored, CacheAdd.Named, Reading.Step, Merkle.Collides, Holds, ReadBack;
    StoredOrCollision(H, es, root, trees);
    if Holds(trees, es, root) { HeldIsReadBack(es, root, trees, run); }
  }

  lemma TimelessSorted(es: seq<Entry>)
    requires Writable(es)
    ensures SortedByPath(Timeless(es))
  {
    hide Less;
  }

  /** A pull that has returned, sorted, is the list; one that has not can go on. */
  ghost predicate PulledBack(es: seq<Entry>, remote: Pull.Objects, run: seq<Pull.State>)
    requires run != []
  {
    var s := run[|run| - 1];
    && |run| <= 16 * |es| + 10 && s.main != Pull.Threw
    && (s.main != Pull.Returned ==> exists s' :: Pull.Step(remote, s, s'))
    && forall sorted :: s.main == Pull.Returned && SortOf(sorted, s.index) ==> sorted == Timeless(es)
  }

  lemma HeldIsPulledBack(es: seq<Entry>, root: Digest, remote: Pull.Objects, local: Pull.Objects, run: seq<Pull.State>)
    requires Writable(es) && Holds(PullExact.Sources(remote, local), es, root)
    requires Pull.Run(remote, RootEntry(root), local, run)
    requires forall i :: 0 <= i < |es| && es[i].kind != Directory && es[i].kind != Symlink ==>
               es[i].hash in PullExact.FileSources(remote, local)
    ensures PulledBack(es, remote, run)
  {
    hide Writable, Pull.Step, Complete, Reach, Holds, SortOf, PullExact.Sources, PullExact.FileSources;
    hide PullExact.FilesThere;
    var src := PullExact.Sources(remote, local);
    TreeIsList(src, es, root);
    FilesListed(es, root, src, PullExact.FileSources(remote, local));
    PullExact.PullExactly(remote, RootEntry(root), local, Longest(es) + 1, run);
    assert |multiset(Timeless(es))| == |es|;
    var s := run[|run| - 1];
    forall sorted | s.main == Pull.Returned && SortOf(sorted, s.index) ensures sorted == Timeless(es) {
      SortedBack(es, s.index, sorted);
    }
  }

  /** The same for pull, from a cache and a remote that have the objects between them. */
  lemma PullRoundTrip(H: string -> Digest, es: seq<Entry>, root: Digest, remote: Pull.Objects, local: Pull.Objects,
                      run: seq<Pull.State>)
    requires Writable(es) && CacheAdd.TreesStored(H, es, root, PullExact.Sources(remote, local))
    requires CacheAdd.Named(H, PullExact.Sources(remote, local))
    requires forall i :: 0 <= i < |es| && es[i].kind != Directory && es[i].kind != Symlink ==>
               es[i].hash in PullExact.FileSources(remote, local)
    requires Pull.Run(remote, RootEntry(root), local, run)
    ensures PulledBack(es, remote, run) || exists x, y :: Merkle.Collides(H, x, y)
  {
    hide Writable, CacheAdd.TreesStored, CacheAdd.Named, Pull.Step, Merkle.Collides, Holds, PullExact.Sources,
        PullExact.FileSources,
         PulledBack;
    StoredOrCollision(H, es, root, PullExact.Sources(remote, local));
    if Holds(PullExact.Sources(remote, local), es, root) { HeldIsPulledBack(es, root, remote, local, run); }
  }

  lemma FilesListed(es: seq<Entry>, root: Digest, src: Store, files: set<Digest>)
    requires Reach(src, RootEntry(root), Longest(es) + 1) == multiset(Timeless(es))
    requires forall i :: 0 <= i < |es| && es[i].kind != Directory && es[i].kind != Symlink ==>
               es[i].hash in files
    ensures PullExact.FilesThere(src, files, RootEntry(root), Longest(es) + 1)
  {
    hide Reach;
    forall e | e in Reach(src, RootEntry(root), Longest(es) + 1) && e.kind != Directory && e.kind != Symlink
      ensures e.hash in files
    {
      assert e in multiset(Timeless(es));
      var i :| 0 <= i < |es| && Timeless(es)[i] == e;
      assert es[i].hash == e.hash && es[i].kind == e.kind;
    }
  }

  // ---------------------------------------------------------------- from the scan, and on to a checkout

  /** What the scan guarantees for every inode, beyond order and links. */
  predicate FieldsOk(e: Entry) {
    && Plain(e.path) && |Name(e.path)| < Pow256(8) && |e.target| < Pow256(8) && e.perms <= 0x1FF
    && e.kind != Unknown &&
       (if e.kind == Symlink then e.hash == EMPTY && e.perms == Checkout.LINK_PERMS else e.target == "")
  }

  /** What add leaves is what a tree object can hold. */
  lemma AddIsWritable(H: string -> Digest, nodes: seq<Inode>, root: Inode, content: map<string, string>, files: Store,
                      trees: Store)
    requires Merkle.HashOk(H) && Scanned(nodes, root)
    requires CacheAdd.FilesStored(H, CacheAdd.Lines(nodes), content, files)
    requires CacheAdd.TreesStored(H, CacheAdd.Lines(nodes), root.hash, trees)
    requires forall i :: 0 <= i < |nodes| ==> FieldsOk(CacheAdd.Line(nodes[i]))
    requires forall i :: 0 <= i < |nodes| && nodes[i].parent != root ==>
               nodes[i].parent != null && nodes[i].parent.kind == Directory
    ensures Writable(CacheAdd.Lines(nodes))
  {
    hide Parent, Less, CacheAdd.TreeObject, CacheAdd.Lines, Pow256, FieldsOk, Plain, RecordOk, Scanned;
    hide CacheAdd.FilesStored, CacheAdd.TreesStored;
    var es := CacheAdd.Lines(nodes);
    forall i | 0 <= i < |es| ensures Plain(es[i].path) && RecordOk(RecordOf(es[i])) {
      EntryIsWritable(H, es, content, files, root.hash, trees, i);
    }
    forall i | 0 <= i < |es| && Parent(es[i].path) != "" ensures HasDirectory(es, Parent(es[i].path)) {
      ParentIsListed(nodes, root, i);
    }
    CacheAdd.ListedSorted(nodes, root);
  }

  lemma EntryIsWritable(H: string -> Digest, es: seq<Entry>, content: map<string, string>, files: Store, root: Digest,
                        trees: Store, i: nat)
    requires Merkle.HashOk(H) && i < |es| && FieldsOk(es[i])
    requires CacheAdd.FilesStored(H, es, content, files) && CacheAdd.TreesStored(H, es, root, trees)
    ensures Plain(es[i].path) && RecordOk(RecordOf(es[i]))
  {
    hide CacheAdd.TreeObject, Pow256, Name, Plain;
    if es[i].kind == File { assert CacheAdd.FileOk(H, es[i], content); }
    if es[i].kind == Directory { assert CacheAdd.DirOk(H, es, i); }
    assert DigestOk(es[i].hash);
  }

  lemma ParentIsListed(nodes: seq<Inode>, root: Inode, i: nat)
    requires Scanned(nodes, root) && i < |nodes| && Parent(nodes[i].path) != ""
    requires forall i :: 0 <= i < |nodes| && nodes[i].parent != root ==>
               nodes[i].parent != null && nodes[i].parent.kind == Directory
    ensures HasDirectory(CacheAdd.Lines(nodes), Parent(nodes[i].path))
  {
    hide Parent, Less, CacheAdd.Lines;
    assert Inodes.ParentListed(nodes, root, i);
    var j :| 0 <= j < |nodes| && nodes[j] == nodes[i].parent && nodes[j].path == Parent(nodes[i].path);
    assert CacheAdd.Lines(nodes)[j] == CacheAdd.Line(nodes[j]);
  }

  /** The directories above an entry are listed. */
  lemma {:induction false} DirsListed(es: seq<Entry>, i: nat, q: string)
    requires Writable(es) && i < |es| && Below(es[i].path, q)
    ensures HasDirectory(es, q)
    decreases |es[i].path|
  {
    hide Parent, Below, RecordOk, Less;
    AboveParent(es[i].path, q);
    PlainNotRooted(es[i].path, q);
    BelowNonempty(Parent(es[i].path), q);
    if q != Parent(es[i].path) {
      var j :| 0 <= j < |es| && es[j].path == Parent(es[i].path) && es[j].kind == Directory;
      BelowNonempty(es[i].path, q);
      ParentShort(es[i].path);
      DirsListed(es, j, q);
    }
  }

  lemma PlainNotRooted(t: string, q: string)
    requires Plain(t) && Below(t, q)
    ensures q != ""
  {
    SlashAfter(t, q);
  }

  /** What a read or a pull delivers, sorted, is an index that checkout can start from, whatever times
      copy_metadata has filled in. */
  lemma CheckoutReady(es: seq<Entry>, index: seq<Entry>)
    requires Writable(es) && (forall i :: 0 <= i < |es| ==> FieldsOk(es[i]))
    requires |index| == |es| && forall i :: 0 <= i < |es| ==> Checkout.SameButTime(index[i], es[i])
    ensures Checkout.IndexOk(index)
  {
    hide Parent, Below, RecordOk, Less, Plain;
    forall i, q | 0 <= i < |index| && Below(index[i].path, q) ensures HasDirectory(index, q) {
      DirsListed(es, i, q);
      var k :| 0 <= k < |es| && es[k].path == q && es[k].kind == Directory;
      assert index[k].path == q && index[k].kind == Directory;
    }
    forall i | 0 <= i < |index| ensures Valid(index[i].path) && Checkout.EntryOk(index[i]) {
      assert FieldsOk(es[i]);
      PlainNonempty(es[i].path);
    }
  }
}
