/** cache::add and create_dirtree: hashes the files of an index in any order, then writes tree
    objects bottom-up and stores everything that is missing in the cache. */
module CacheAdd {
  import opened Paths
  import opened Entries
  import opened Inodes
  import opened Codec

  // ---------------------------------------------------------------- lists of children

  /** The lines of a list of inodes as they are now. */
  function Line(n: Inode): Entry
    reads n`hash
  {
    Entry(n.path, n.kind, n.perms, n.mtime, n.target, n.hash)
  }

  function Lines(s: seq<Inode>): (es: seq<Entry>)
    reads (set n | n in s)`hash
    ensures |es| == |s| && forall i :: 0 <= i < |s| ==> es[i] == Line(s[i])
  {
    if s == [] then [] else [Line(s[0])] + Lines(s[1..])
  }

  /** The lines directly below the directory p, in order. */
  function KidsOf(es: seq<Entry>, p: string): seq<Entry> {
    if es == [] then [] else (if Parent(es[0].path) == p then [es[0]] else []) + KidsOf(es[1..], p)
  }

  function KidNodes(s: seq<Inode>, p: string): seq<Inode> {
    if s == [] then [] else (if Parent(s[0].path) == p then [s[0]] else []) + KidNodes(s[1..], p)
  }

  /** Only the lines below p decide what is below p. */
  lemma {:induction false} KidsSame(a: seq<Entry>, b: seq<Entry>, p: string)
    requires |a| == |b|
    requires forall i :: 0 <= i < |a| ==> a[i].path == b[i].path && (Parent(a[i].path) == p ==> a[i] == b[i])
    ensures KidsOf(a, p) == KidsOf(b, p)
  {
    if a != [] { KidsSame(a[1..], b[1..], p); }
  }

  lemma {:induction false} KidLines(s: seq<Inode>, p: string)
    ensures Lines(KidNodes(s, p)) == KidsOf(Lines(s), p)
  {
    if s != [] {
      KidLines(s[1..], p);
      assert Lines(s)[1..] == Lines(s[1..]);
      if Parent(s[0].path) == p { assert KidNodes(s, p)[1..] == KidNodes(s[1..], p); }
      else { assert KidNodes(s, p) == KidNodes(s[1..], p); }
    }
  }

  ghost predicate Increasing(s: seq<Inode>) {
    forall i, j :: 0 <= i < j < |s| ==> Less(s[i].path, s[j].path)
  }

  lemma {:induction false} KidNodesFrom(s: seq<Inode>, p: string)
    ensures forall i :: 0 <= i < |KidNodes(s, p)| ==> KidNodes(s, p)[i] in s && Parent(KidNodes(s, p)[i].path) == p
  {
    if s != [] { KidNodesFrom(s[1..], p); }
  }

  lemma {:induction false} KidNodesHas(s: seq<Inode>, p: string, i: nat)
    requires i < |s| && Parent(s[i].path) == p
    ensures s[i] in KidNodes(s, p)
  {
    if i > 0 { KidNodesHas(s[1..], p, i - 1); }
  }

  lemma {:induction false} KidNodesIncreasing(s: seq<Inode>, p: string)
    requires Increasing(s)
    ensures Increasing(KidNodes(s, p))
  {
    if s != [] {
      KidNodesIncreasing(s[1..], p);
      KidNodesFrom(s[1..], p);
    }
  }

  /** inode::sort. */
  function Insert(n: Inode, s: seq<Inode>): seq<Inode> {
    if s == [] || !Less(s[0].path, n.path) then [n] + s else [s[0]] + Insert(n, s[1..])
  }

  function Sorted(s: seq<Inode>): seq<Inode> {
    if s == [] then [] else Insert(s[0], Sorted(s[1..]))
  }

  lemma {:induction false} InsertAdds(n: Inode, s: seq<Inode>)
    ensures multiset(Insert(n, s)) == multiset(s) + multiset{n}
  {
    hide Less;
    if s != [] && Less(s[0].path, n.path) {
      InsertAdds(n, s[1..]);
      assert s == [s[0]] + s[1..];
    }
  }

  lemma {:induction false} InsertIncreasing(n: Inode, s: seq<Inode>)
    requires Increasing(s) && forall i :: 0 <= i < |s| ==> s[i].path != n.path
    ensures Increasing(Insert(n, s))
  {
    hide Less;
    if s != [] && !Less(s[0].path, n.path) {
      LessTotal(s[0].path, n.path);
      forall i | 0 < i < |s| ensures Less(n.path, s[i].path) { LessTransitive(n.path, s[0].path, s[i].path); }
    } else if s != [] {
      InsertIncreasing(n, s[1..]);
      InsertAdds(n, s[1..]);
      var r := Insert(n, s[1..]);
      forall i | 0 <= i < |r| ensures Less(s[0].path, r[i].path) { assert r[i] in multiset(r); }
    }
  }

  predicate DistinctPaths(s: seq<Inode>) {
    forall i, j :: 0 <= i < j < |s| ==> s[i].path != s[j].path
  }

  lemma {:induction false} SortedIncreasing(s: seq<Inode>)
    requires DistinctPaths(s)
    ensures Increasing(Sorted(s)) && multiset(Sorted(s)) == multiset(s)
  {
    hide Insert, Less;
    if s != [] {
      SortedIncreasing(s[1..]);
      assert s == [s[0]] + s[1..];
      var r := Sorted(s[1..]);
      forall i | 0 <= i < |r| ensures r[i].path != s[0].path {
        assert r[i] in multiset(s[1..]);
      }
      InsertIncreasing(s[0], r);
      InsertAdds(s[0], r);
    }
  }

  function VisibleNodes(s: seq<Inode>): seq<Inode>
    reads (set n | n in s)`ignored
  {
    if s == [] then [] else (if s[0].ignored then [] else [s[0]]) + VisibleNodes(s[1..])
  }

  lemma {:induction false} VisibleNodesFrom(s: seq<Inode>)
    ensures forall i :: 0 <= i < |VisibleNodes(s)| ==> VisibleNodes(s)[i] in s && !VisibleNodes(s)[i].ignored
  {
    if s != [] { VisibleNodesFrom(s[1..]); }
  }

  lemma {:induction false} VisibleNodesHas(s: seq<Inode>, i: nat)
    requires i < |s| && !s[i].ignored
    ensures s[i] in VisibleNodes(s)
  {
    if i > 0 { VisibleNodesHas(s[1..], i - 1); }
  }

  lemma {:induction false} VisibleNodesIncreasing(s: seq<Inode>)
    requires Increasing(s)
    ensures Increasing(VisibleNodes(s))
  {
    if s != [] {
      VisibleNodesIncreasing(s[1..]);
      VisibleNodesFrom(s[1..]);
    }
  }

  lemma SameHead(a: seq<Inode>, b: seq<Inode>)
    requires Increasing(a) && Increasing(b) && a != [] && b != [] && a[0] in b && b[0] in a
    ensures a[0] == b[0]
  {
    hide Less;
    var j :| 0 <= j < |b| && b[j] == a[0];
    var i :| 0 <= i < |a| && a[i] == b[0];
    if j > 0 && i > 0 {
      assert Less(a[0].path, a[i].path) && Less(b[0].path, b[j].path);
      LessAsymmetric(a[0].path, a[i].path);
    }
  }

  /** A strictly increasing list is determined by its elements. */
  lemma {:induction false} IncreasingUnique(a: seq<Inode>, b: seq<Inode>)
    requires Increasing(a) && Increasing(b)
    requires (forall i :: 0 <= i < |a| ==> a[i] in b) && (forall i :: 0 <= i < |b| ==> b[i] in a)
    ensures a == b
  {
    hide Less, Increasing;
    assert (|b| > 0 ==> b[0] in a) && (|a| > 0 ==> a[0] in b);
    if a != [] && b != [] {
      SameHead(a, b);
      TailElements(a, b);
      TailElements(b, a);
      IncreasingUnique(a[1..], b[1..]);
      assert a == [a[0]] + a[1..] && b == [b[0]] + b[1..];
    }
  }

  lemma TailElements(a: seq<Inode>, b: seq<Inode>)
    requires Increasing(a) && a != [] && b != [] && a[0] == b[0] && forall i :: 0 <= i < |a| ==> a[i] in b
    ensures Increasing(a[1..]) && forall i :: 0 <= i < |a| - 1 ==> a[1..][i] in b[1..]
  {
    forall i | 0 <= i < |a| - 1
      ensures a[1..][i] in b[1..]
    {
      var k :| 0 <= k < |b| && b[k] == a[i + 1];
      if k == 0 { LessIrreflexive(a[0].path); }
      assert b[1..][k - 1] == b[k];
    }
  }

  // ---------------------------------------------------------------- the cache

  /** The local cache: file objects and tree objects by digest. */
  class Cache {
    var files: map<Digest, string>
    var trees: map<Digest, string>

    constructor ()
      ensures files == map[] && trees == map[]
    {
      files, trees := map[], map[];
    }
  }

  /** The digest of the directory p, given the digests of what is below it. */
  function TreeObject(es: seq<Entry>, p: string): string { EncodeTree(RecordsOf(KidsOf(es, p))) }

  /** The visible ones of these children are the listed inodes whose parent path is p. */
  ghost predicate ChildrenListed(nodes: seq<Inode>, children: seq<Inode>, p: string)
    reads (set n | n in nodes)`ignored, (set c | c in children)`ignored
  {
    && DistinctPaths(children)
    && (forall c | c in children && !c.ignored :: c in nodes && Parent(c.path) == p)
    && (forall c | c in nodes && Parent(c.path) == p :: c in children && !c.ignored)
  }

  lemma ChildrenSorted(nodes: seq<Inode>, children: seq<Inode>, p: string)
    requires ChildrenListed(nodes, children, p) && Increasing(nodes)
    ensures VisibleNodes(Sorted(children)) == KidNodes(nodes, p)
    ensures ChildrenListed(nodes, Sorted(children), p)
  {
    hide Sorted, VisibleNodes, KidNodes;
    var s := Sorted(children);
    SortedIncreasing(children);
    forall i, j | 0 <= i < j < |s| ensures s[i].path != s[j].path { LessIrreflexive(s[i].path); }
    VisibleNodesIncreasing(s);
    KidNodesIncreasing(nodes, p);
    SortedListed(nodes, children, s, p);
    SameMembers(nodes, s, p);
    IncreasingUnique(VisibleNodes(s), KidNodes(nodes, p));
  }

  lemma SortedListed(nodes: seq<Inode>, children: seq<Inode>, s: seq<Inode>, p: string)
    requires ChildrenListed(nodes, children, p) && multiset(s) == multiset(children)
    ensures forall c | c in s && !c.ignored :: c in nodes && Parent(c.path) == p
    ensures forall c | c in nodes && Parent(c.path) == p :: c in s && !c.ignored
  {
    forall c | c in s && !c.ignored ensures c in nodes && Parent(c.path) == p {
      assert c in multiset(s);
      assert c in children;
    }
    forall c | c in nodes && Parent(c.path) == p ensures c in s && !c.ignored {
      assert c in multiset(children);
    }
  }

  lemma SameMembers(nodes: seq<Inode>, s: seq<Inode>, p: string)
    requires forall c | c in s && !c.ignored :: c in nodes && Parent(c.path) == p
    requires forall c | c in nodes && Parent(c.path) == p :: c in s && !c.ignored
    ensures forall i :: 0 <= i < |VisibleNodes(s)| ==> VisibleNodes(s)[i] in KidNodes(nodes, p)
    ensures forall i :: 0 <= i < |KidNodes(nodes, p)| ==> KidNodes(nodes, p)[i] in VisibleNodes(s)
  {
    VisibleNodesFrom(s);
    KidNodesFrom(nodes, p);
    var v, k := VisibleNodes(s), KidNodes(nodes, p);
    forall i | 0 <= i < |v| ensures v[i] in k {
      var c := v[i];
      assert c in s && !c.ignored;
      var x :| 0 <= x < |nodes| && nodes[x] == c;
      KidNodesHas(nodes, p, x);
    }
    forall i | 0 <= i < |k| ensures k[i] in v {
      var c := k[i];
      assert c in nodes && Parent(c.path) == p;
      var x :| 0 <= x < |s| && s[x] == c;
      VisibleNodesHas(s, x);
    }
  }

  function AsChildren(s: seq<Inode>): (cs: seq<Child>)
    reads (set n | n in s)`hash, (set n | n in s)`ignored
  {
    if s == [] then [] else [Child(Line(s[0]), s[0].ignored)] + AsChildren(s[1..])
  }

  lemma {:induction false} VisibleLines(s: seq<Inode>)
    ensures Visible(AsChildren(s)) == Lines(VisibleNodes(s))
  {
    if s != [] {
      VisibleLines(s[1..]);
      assert AsChildren(s)[1..] == AsChildren(s[1..]);
      if s[0].ignored { assert VisibleNodes(s) == VisibleNodes(s[1..]); }
      else { assert VisibleNodes(s)[1..] == VisibleNodes(s[1..]); }
    }
  }

  /** What a directory's sorted children are written as. */
  lemma WrittenChildren(nodes: seq<Inode>, children: seq<Inode>, p: string)
    requires VisibleNodes(children) == KidNodes(nodes, p)
    ensures EncodeTree(RecordsOf(Visible(AsChildren(children)))) == TreeObject(Lines(nodes), p)
  {
    hide EncodeTree, RecordsOf;
    VisibleLines(children);
    KidLines(nodes, p);
  }

  /** create_dirtree: sorts the children, writes the tree object and names it by its hash. */
  method CreateDirtree(H: string -> Digest, cache: Cache, n: Inode, ghost nodes: seq<Inode>, ghost p: string)
    requires ChildrenListed(nodes, n.children, p) && Increasing(nodes)
    modifies n`hash, n`children, cache`trees
    ensures ChildrenListed(nodes, n.children, p)
    ensures n.hash == H(TreeObject(old(Lines(nodes)), p))
    ensures cache.trees == if n.hash in old(cache.trees) then old(cache.trees)
                           else old(cache.trees)[n.hash := TreeObject(old(Lines(nodes)), p)]
  {
    hide *;
    ghost var was := Lines(nodes);
    ChildrenSorted(nodes, n.children, p);
    n.children := Sorted(n.children);
    WrittenChildren(nodes, n.children, p);
    var bytes := WriteTree(AsChildren(n.children));
    n.hash := H(bytes);
    if n.hash !in cache.trees {
      cache.trees := cache.trees[n.hash := bytes];
    }
  }

  // ---------------------------------------------------------------- the specification

  /** What the scan and the refresh leave: a sorted list whose directories come before what is
      below them, every directory linked to its children. */
  ghost predicate Listed(nodes: seq<Inode>, root: Inode)
    reads root`children, (set n | n in nodes)`children
    reads (set n | n in nodes)`ignored, (set c | c in root.children)`ignored,
        (set n, c | n in nodes && c in n.children :: c)`ignored
  {
    && Scanned(nodes, root) && Increasing(nodes)
    && ChildrenListed(nodes, root.children, "")
    && forall i :: 0 <= i < |nodes| && nodes[i].kind == Directory ==>
         ChildrenListed(nodes, nodes[i].children, nodes[i].path)
  }

  /** Dirtiness is upward closed. */
  ghost predicate DirtyUp(es: seq<Entry>) {
    forall i, j :: 0 <= i < |es| && 0 <= j < |es| && es[i].hash.hex == "" && Parent(es[i].path) == es[j].path
      ==> es[j].hash.hex == ""
  }

  predicate DirOk(H: string -> Digest, es: seq<Entry>, i: nat)
    requires i < |es|
  {
    es[i].hash == H(TreeObject(es, es[i].path))
  }

  predicate FileOk(H: string -> Digest, e: Entry, content: map<string, string>) {
    e.path in content && e.hash == H(content[e.path])
  }

  /** The digests that are there are those of the present state. */
  ghost predicate CleanCurrent(H: string -> Digest, es: seq<Entry>, content: map<string, string>) {
    forall i :: 0 <= i < |es| && es[i].hash.hex != "" ==>
      (es[i].kind == File ==> FileOk(H, es[i], content)) && (es[i].kind == Directory ==> DirOk(H, es, i))
  }

  ghost predicate FilesStored(H: string -> Digest, es: seq<Entry>, content: map<string, string>,
                              files: map<Digest, string>) {
    forall i :: 0 <= i < |es| && es[i].kind == File ==> FileOk(H, es[i], content) && es[i].hash in files
  }

  /** Every directory carries the digest of its tree object, made of its children's final digests,
      and is in the cache; so is the root. */
  ghost predicate TreesStored(H: string -> Digest, es: seq<Entry>, root: Digest, trees: map<Digest, string>) {
    && (forall i :: 0 <= i < |es| && es[i].kind == Directory ==> DirOk(H, es, i) && es[i].hash in trees)
    && root == H(TreeObject(es, "")) && root in trees
  }

  /** Objects are named by their hash. */
  ghost predicate Named(H: string -> Digest, objects: map<Digest, string>) {
    forall d :: d in objects ==> H(objects[d]) == d
  }

  /** No object is lost or replaced. */
  ghost predicate Extends(was: map<Digest, string>, now: map<Digest, string>) {
    forall d :: d in was ==> d in now && now[d] == was[d]
  }

  /** The lists differ in digests of entries of the kind only. */
  ghost predicate OnlyHashes(was: seq<Entry>, now: seq<Entry>, kind: Kind) {
    |was| == |now| && forall i :: 0 <= i < |was| ==>
        now[i] == was[i].(hash := now[i].hash) && (was[i].kind != kind ==> now[i] == was[i])
  }

  // ---------------------------------------------------------------- why the order is right

  /** Hashing the dirty files leaves the digests of clean directories right: everything below them
      is clean, and clean files do not change. */
  lemma CleanStays(H: string -> Digest, was: seq<Entry>, now: seq<Entry>, content: map<string, string>, i: nat)
    requires DirtyUp(was) && CleanCurrent(H, was, content) && OnlyHashes(was, now, File)
    requires forall j :: 0 <= j < |now| && now[j].kind == File ==> FileOk(H, now[j], content)
    requires i < |was| && was[i].kind == Directory && was[i].hash.hex != ""
    ensures DirOk(H, now, i)
  {
    hide EncodeTree, RecordsOf, Parent;
    forall j | 0 <= j < |was| && Parent(was[j].path) == was[i].path ensures was[j] == now[j] {
      assert was[j].hash.hex != "";
    }
    KidsSame(was, now, was[i].path);
    assert DirOk(H, was, i);
  }

  /** Writing directory i keeps every finished directory right, provided i was finished itself if a
      finished one contains it. */
  lemma BuildStep(H: string -> Digest, es: seq<Entry>, now: seq<Entry>, i: nat, done: set<nat>)
    requires i < |es| && es[i].path != "" && (forall j :: j in done ==> j < |es|)
    requires forall j :: j in done && Parent(es[i].path) == es[j].path ==> i in done
    requires forall j :: j in done ==> DirOk(H, es, j)
    requires now == es[i := es[i].(hash := H(TreeObject(es, es[i].path)))]
    ensures forall j :: j in done + {i} ==> DirOk(H, now, j)
  {
    hide EncodeTree, RecordsOf, Parent;
    forall j | j in done + {i} ensures DirOk(H, now, j) {
      if Parent(es[i].path) == es[j].path && j != i {
        assert DirOk(H, es, i);
        assert now == es;
      } else {
        KidsSame(es, now, es[j].path);
      }
    }
  }

  // ---------------------------------------------------------------- the passes of add

  /** The first part of a file's task: a dirty file is hashed.  The second part looks its object up. */
  method Rehash(H: string -> Digest, n: Inode, content: map<string, string>)
    requires n.path in content && (!n.IsDirty() ==> n.hash == H(content[n.path]))
    modifies n`hash
    ensures n.hash == H(content[n.path])
  {
    if n.IsDirty() { n.hash := H(content[n.path]); }
  }

  /** The last part: the file is copied, over an object that another task has stored meanwhile only if
      the file is newer. */
  method StoreFile(H: string -> Digest, cache: Cache, n: Inode, content: map<string, string>,
                   ghost files: map<Digest, string>)
    requires n.path in content && n.hash == H(content[n.path]) && Named(H, cache.files)
    requires Extends(files, cache.files) && n.hash !in files
    modifies cache`files
    ensures cache.files.Keys == old(cache.files).Keys + {n.hash} && Named(H, cache.files) && Extends(files, cache.files)
  {
    var newer: bool := *;
    if n.hash !in cache.files || newer {
      cache.files := cache.files[n.hash := content[n.path]];
    }
  }

  /** How far the file tasks are: some have not hashed their file yet, some are about to look their object
      up, some have found it missing, the others are done. */
  ghost predicate Midway(H: string -> Digest, was: seq<Entry>, es: seq<Entry>, content: map<string, string>,
                         files0: map<Digest, string>, files: map<Digest, string>, todo: set<nat>, hashed: set<nat>,
                         missing: set<nat>)
  {
    && OnlyHashes(was, es, File) && Named(H, files) && Extends(files0, files)
    && todo !! hashed !! missing
    && (forall i :: i in todo + hashed + missing ==> i < |es| && es[i].kind == File)
    && (forall i :: 0 <= i < |es| && es[i].kind == File ==>
          if i in todo then es[i] == was[i] else FileStage(H, es[i], content, files0, files, i in hashed, i in missing))
  }

  ghost predicate FileStage(H: string -> Digest, e: Entry, content: map<string, string>, files0: map<Digest, string>,
                            files: map<Digest, string>, hashed: bool, missing: bool) {
    FileOk(H, e, content) && (missing ==> e.hash !in files0) && (!hashed && !missing ==> e.hash in files)
  }

  lemma MidwayStart(H: string -> Digest, es: seq<Entry>, content: map<string, string>, files: map<Digest, string>,
                    tasks: set<nat>)
    requires Named(H, files) && forall i: nat :: i in tasks <==> i < |es| && es[i].kind == File
    ensures Midway(H, es, es, content, files, files, tasks, {}, {})
  {}

  lemma MidwayHash(H: string -> Digest, was: seq<Entry>, es: seq<Entry>, now: seq<Entry>, content: map<string, string>,
                   files0: map<Digest, string>, files: map<Digest, string>, todo: set<nat>, hashed: set<nat>,
                   missing: set<nat>, i: nat)
    requires Midway(H, was, es, content, files0, files, todo, hashed, missing) && i in todo
    requires i < |es| == |now| && now == es[i := es[i].(hash := now[i].hash)] && FileOk(H, now[i], content)
    ensures Midway(H, was, now, content, files0, files, todo - {i}, hashed + {i}, missing)
  {
    hide FileOk, Extends, Named;
    assert i in todo + hashed + missing && forall j :: j in todo - {i} + (hashed + {i}) + missing ==>
             j in todo + hashed + missing;
    assert forall j :: 0 <= j < |es| && j != i ==> now[j] == es[j];
  }

  lemma MidwayLook(H: string -> Digest, was: seq<Entry>, es: seq<Entry>, content: map<string, string>,
                   files0: map<Digest, string>, files: map<Digest, string>, todo: set<nat>, hashed: set<nat>,
                   missing: set<nat>, i: nat)
    requires Midway(H, was, es, content, files0, files, todo, hashed, missing) && i in hashed
    ensures i < |es|
    ensures if es[i].hash in files then Midway(H, was, es, content, files0, files, todo, hashed - {i}, missing)
                        else Midway(H, was, es, content, files0, files, todo, hashed - {i}, missing + {i})
  {
    ExtendsHas(files0, files);
    hide FileOk, Extends, Named, OnlyHashes;
    assert i in todo + hashed + missing;
    assert forall j :: j in todo + (hashed - {i}) + (missing + {i}) ==> j in todo + hashed + missing;
    assert forall j :: j in todo + (hashed - {i}) + missing ==> j in todo + hashed + missing;
  }

  lemma MidwayStore(H: string -> Digest, was: seq<Entry>, es: seq<Entry>, content: map<string, string>,
                    files0: map<Digest, string>,
                    files: map<Digest, string>, now: map<Digest, string>, todo: set<nat>, hashed: set<nat>,
                    missing: set<nat>, i: nat)
    requires Midway(H, was, es, content, files0, files, todo, hashed, missing) && i in missing && i < |es|
    requires now.Keys == files.Keys + {es[i].hash} && Named(H, now) && Extends(files0, now)
    ensures Midway(H, was, es, content, files0, now, todo, hashed, missing - {i})
  {
    hide FileOk, Extends, Named, OnlyHashes;
    assert forall j :: j in todo + hashed + (missing - {i}) ==> j in todo + hashed + missing;
    assert forall d :: d in files ==> d in now.Keys;
    assert es[i].hash in now.Keys;
  }

  lemma MidwayAt(H: string -> Digest, was: seq<Entry>, nodes: seq<Inode>, content: map<string, string>,
                 files0: map<Digest, string>, files: map<Digest, string>, todo: set<nat>, hashed: set<nat>,
                 missing: set<nat>, i: nat)
    requires Midway(H, was, Lines(nodes), content, files0, files, todo, hashed, missing) && i in todo + hashed + missing
    ensures i < |nodes| && nodes[i].kind == File && Named(H, files) && Extends(files0, files)
    ensures i in todo ==> nodes[i].hash == was[i].hash
    ensures i !in todo ==> nodes[i].path in content && nodes[i].hash == H(content[nodes[i].path])
    ensures i in missing ==> nodes[i].hash !in files0
  {
    hide Extends, Named, OnlyHashes, Lines;
    assert Lines(nodes)[i] == Line(nodes[i]);
  }

  lemma MidwayDone(H: string -> Digest, was: seq<Entry>, es: seq<Entry>, content: map<string, string>,
                   files0: map<Digest, string>, files: map<Digest, string>)
    requires Midway(H, was, es, content, files0, files, {}, {}, {})
    ensures OnlyHashes(was, es, File) && FilesStored(H, es, content, files) && Named(H, files) && Extends(files0, files)
  {
    hide FileOk, Extends, Named, OnlyHashes;
  }

  lemma OneChanged(nodes: seq<Inode>, was: seq<Entry>, i: nat)
    requires |was| == |nodes| && i < |nodes| && was[i] == Line(nodes[i]).(hash := was[i].hash)
    requires forall j :: 0 <= j < |nodes| && j != i ==> was[j] == Line(nodes[j])
    ensures Lines(nodes) == was[i := was[i].(hash := nodes[i].hash)]
  {}

  lemma LineHash(nodes: seq<Inode>, i: nat)
    requires i < |nodes|
    ensures Lines(nodes)[i].hash == nodes[i].hash && Lines(nodes)[i].kind == nodes[i].kind
  {}

  lemma CleanFile(H: string -> Digest, es: seq<Entry>, content: map<string, string>, i: nat)
    requires CleanCurrent(H, es, content) && i < |es| && es[i].kind == File && es[i].hash.hex != ""
    ensures FileOk(H, es[i], content)
  {}

  lemma OthersApart(nodes: seq<Inode>, root: Inode, i: nat)
    requires Scanned(nodes, root) && i < |nodes|
    ensures forall j :: 0 <= j < |nodes| && j != i ==> nodes[j] != nodes[i]
  {
    hide Scanned;
    forall j: nat | j < |nodes| && j != i ensures nodes[j] != nodes[i] {
      if nodes[j] == nodes[i] { TreeDistinct(nodes, root, i, j); }
    }
  }

  /** The cache has gained files of the list only. */
  ghost predicate FilesGained(H: string -> Digest, nodes: seq<Inode>, content: map<string, string>,
                              was: map<Digest, string>, now: map<Digest, string>) {
    forall d :: d in now && d !in was ==>
      exists i ::
        0 <= i < |nodes| && nodes[i].kind == File && nodes[i].path in content && d == H(content[nodes[i].path])
  }

  lemma NoneGained(H: string -> Digest, nodes: seq<Inode>, content: map<string, string>, files: map<Digest, string>)
    ensures FilesGained(H, nodes, content, files, files)
  {}

  lemma OneGained(H: string -> Digest, nodes: seq<Inode>, content: map<string, string>, was: map<Digest, string>,
                  files: map<Digest, string>, now: map<Digest, string>, i: nat)
    requires FilesGained(H, nodes, content, was, files) && i < |nodes| && nodes[i].kind == File
    requires nodes[i].path in content && now.Keys == files.Keys + {H(content[nodes[i].path])}
    ensures FilesGained(H, nodes, content, was, now)
  {
    forall d | d in now && d !in was
      ensures exists j ::
                0 <= j < |nodes| && nodes[j].kind == File && nodes[j].path in content && d == H(content[nodes[j].path])
    {
      assert d in now.Keys;
    }
  }

  /** The file tasks, their parts in any order and interleaved in any way: several tasks may find the
      same object missing and store it one after the other. */
  method AddFiles(H: string -> Digest, cache: Cache, nodes: seq<Inode>, root: Inode, content: map<string, string>,
                  tasks: set<nat>)
    requires Scanned(nodes, root) && CleanCurrent(H, Lines(nodes), content) && Named(H, cache.files)
    requires forall i: nat :: i in tasks <==> i < |nodes| && nodes[i].kind == File
    requires forall i :: 0 <= i < |nodes| && nodes[i].kind == File ==> nodes[i].path in content
    modifies (set n | n in nodes)`hash, cache`files
    ensures OnlyHashes(old(Lines(nodes)), Lines(nodes), File) && FilesStored(H, Lines(nodes), content, cache.files)
    ensures Named(H, cache.files) && Extends(old(cache.files), cache.files)
    ensures FilesGained(H, nodes, content, old(cache.files), cache.files)
  {
    hide Scanned, CleanCurrent, Lines, OnlyHashes, FilesStored, Named, Extends, Midway, FilesGained;
    ghost var was, files := Lines(nodes), cache.files;
    NoneGained(H, nodes, content, files);
    MidwayStart(H, was, content, files, tasks);
    var todo, hashed: set<nat>, missing: set<nat> := tasks, {}, {};
    while todo + hashed + missing != {}
      invariant Midway(H, was, Lines(nodes), content, files, cache.files, todo, hashed, missing)
      invariant FilesGained(H, nodes, content, files, cache.files)
      decreases todo, hashed, missing
    {
      var i :| i in todo + hashed + missing;
      ghost var es := Lines(nodes);
      MidwayAt(H, was, nodes, content, files, cache.files, todo, hashed, missing, i);
      assert nodes[i] in nodes;
      if i in todo {
        OthersApart(nodes, root, i);
        if !nodes[i].IsDirty() { CleanFile(H, was, content, i); }
        Rehash(H, nodes[i], content);
        OneChanged(nodes, es, i);
        MidwayHash(H, was, es, Lines(nodes), content, files, cache.files, todo, hashed, missing, i);
        todo, hashed := todo - {i}, hashed + {i};
      } else if i in hashed {
        MidwayLook(H, was, es, content, files, cache.files, todo, hashed, missing, i);
        hashed := hashed - {i};
        if nodes[i].hash !in cache.files { missing := missing + {i}; }
      } else {
        ghost var before := cache.files;
        StoreFile(H, cache, nodes[i], content, files);
        OneGained(H, nodes, content, files, before, cache.files, i);
        MidwayStore(H, was, es, content, files, before, cache.files, todo, hashed, missing, i);
        missing := missing - {i};
      }
    }
    assert todo == {} && hashed == {} && missing == {};
    MidwayDone(H, was, Lines(nodes), content, files, cache.files);
  }

  lemma StillListed(nodes: seq<Inode>, root: Inode)
    requires Scanned(nodes, root) && Increasing(nodes) && ChildrenListed(nodes, root.children, "")
    requires forall i :: 0 <= i < |nodes| && nodes[i].kind == Directory ==>
               ChildrenListed(nodes, nodes[i].children, nodes[i].path)
    ensures Listed(nodes, root)
  {}

  /** create_dirtree for a listed directory. */
  method WriteDir(H: string -> Digest, cache: Cache, nodes: seq<Inode>, root: Inode, i: nat)
    requires Listed(nodes, root) && i < |nodes| && nodes[i].kind == Directory && Named(H, cache.trees)
    modifies {nodes[i]}`hash, {nodes[i]}`children, cache`trees
    ensures Listed(nodes, root) && Named(H, cache.trees) && Extends(old(cache.trees), cache.trees)
    ensures var was := old(Lines(nodes)); Lines(nodes) == was[i := was[i].(hash := H(TreeObject(was, was[i].path)))]
    ensures cache.trees.Keys == old(cache.trees).Keys + {nodes[i].hash}
  {
    hide Scanned, Increasing, Less, ParentListed, ChildrenListed, TreeObject, Lines;
    OthersApart(nodes, root, i);
    assert root != nodes[i] by { RootNotListed(nodes, root); }
    ghost var was := Lines(nodes);
    CreateDirtree(H, cache, nodes[i], nodes, nodes[i].path);
    OneChanged(nodes, was, i);
    StillListed(nodes, root);
  }

  lemma RootNotListed(nodes: seq<Inode>, root: Inode)
    requires Scanned(nodes, root)
    ensures root !in nodes
    ensures forall i :: 0 <= i < |nodes| ==> nodes[i].path != ""
  {}

  /** The directories to write, in the order of the list; whatever is not among them is clean and in
      the cache already.  The directories that are clean are right, and all directories in a clean
      one are clean. */
  ghost predicate ToWrite(H: string -> Digest, es: seq<Entry>, trees: map<Digest, string>, dirs: seq<nat>,
                          clean: set<nat>) {
    && (forall x, y :: 0 <= x < y < |dirs| ==> dirs[x] < dirs[y])
    && (forall i :: i in dirs ==> i < |es| && es[i].kind == Directory)
    && (forall i :: i in clean ==> i < |es| && DirOk(H, es, i))
    && (forall i, j :: 0 <= i < |es| && es[i].kind == Directory && j in clean && Parent(es[i].path) == es[j].path ==>
         i in clean)
    && (forall i: nat :: i < |es| && es[i].kind == Directory && i !in dirs ==> i in clean && es[i].hash in trees)
  }

  /** The directories that are finished then: the clean ones and the ones written. */
  ghost function Finished(dirs: seq<nat>, clean: set<nat>, x: nat): set<nat>
    requires x <= |dirs|
  {
    clean + (set j | j in dirs[x..])
  }

  /** After the last directories down to position x have been written. */
  ghost predicate Written(H: string -> Digest, es: seq<Entry>, trees: map<Digest, string>, dirs: seq<nat>,
                          clean: set<nat>, x: nat)
    requires x <= |dirs|
  {
    && (forall j: nat :: j < |es| && (j in clean || j in dirs[x..]) ==> DirOk(H, es, j))
    && (forall j: nat :: j < |es| && es[j].kind == Directory && j !in dirs[..x] ==> es[j].hash in trees)
  }

  lemma DoneRight(H: string -> Digest, was: seq<Entry>, es: seq<Entry>, trees0: map<Digest, string>,
                  trees: map<Digest, string>, dirs: seq<nat>, clean: set<nat>, x: nat)
    requires ToWrite(H, was, trees0, dirs, clean) && OnlyHashes(was, es, Directory)
    requires 0 < x <= |dirs| && Written(H, es, trees, dirs, clean, x)
    ensures forall j :: j in Finished(dirs, clean, x) ==>
              j < |es| && DirOk(H, es, j) && (j in clean || dirs[x - 1] < j)
    ensures clean <= Finished(dirs, clean, x)
  {
    hide DirOk, Parent;
    forall j | j in Finished(dirs, clean, x)
      ensures j < |es| && DirOk(H, es, j) && (j in clean || dirs[x - 1] < j)
    {
      if j in clean {
        assert j < |was|;
      } else {
        var k :| 0 <= k < |dirs[x..]| && dirs[x..][k] == j;
        assert dirs[x + k] == j && j in dirs;
      }
    }
  }

  lemma ExtendsHas(was: map<Digest, string>, now: map<Digest, string>)
    requires Extends(was, now)
    ensures forall d :: d in was ==> d in now
  {}

  lemma WrittenStep(H: string -> Digest, was: seq<Entry>, es: seq<Entry>, now: seq<Entry>, trees0: map<Digest, string>,
                    trees: map<Digest, string>, trees': map<Digest, string>, dirs: seq<nat>, clean: set<nat>, x: nat)
    requires ToWrite(H, was, trees0, dirs, clean) && OnlyHashes(was, es, Directory) && SortedPaths(es)
    requires 0 < x <= |dirs| && Written(H, es, trees, dirs, clean, x)
    requires var i := dirs[x - 1];
             i < |es| && now == es[i := es[i].(hash := H(TreeObject(es, es[i].path)))] && now[i].hash in trees'
    requires Extends(trees, trees')
    ensures Written(H, now, trees', dirs, clean, x - 1) && OnlyHashes(was, now, Directory)
  {
    hide DirOk, TreeObject, Parent, Less, Extends, ToWrite, Written, SortedPaths, Finished;
    var i := dirs[x - 1];
    var done := Finished(dirs, clean, x);
    DoneRight(H, was, es, trees0, trees, dirs, clean, x);
    NextDir(H, was, es, trees0, dirs, clean, x);
    assert forall j :: j in done ==> j < |es|;
    forall j | j in done && j < |es| && Parent(es[i].path) == es[j].path ensures i in done {
      ParentEarlier(es, i, j);
      ParentClean(H, was, es, trees0, dirs, clean, i, j);
    }
    BuildStep(H, es, now, i, done);
    WrittenMore(H, es, now, trees, trees', dirs, clean, x);
  }

  lemma NextDir(H: string -> Digest, was: seq<Entry>, es: seq<Entry>, trees: map<Digest, string>, dirs: seq<nat>,
                clean: set<nat>, x: nat)
    requires ToWrite(H, was, trees, dirs, clean) && OnlyHashes(was, es, Directory) && SortedPaths(es) && 0 < x <= |dirs|
    ensures dirs[x - 1] < |es| && es[dirs[x - 1]].kind == Directory && es[dirs[x - 1]].path != ""
  {
    hide DirOk, Less, Parent;
    assert dirs[x - 1] in dirs;
  }

  lemma ParentClean(H: string -> Digest, was: seq<Entry>, es: seq<Entry>, trees: map<Digest, string>, dirs: seq<nat>,
                    clean: set<nat>, i: nat, j: nat)
    requires ToWrite(H, was, trees, dirs, clean) && OnlyHashes(was, es, Directory) && i < |es| && j < |es|
    requires es[i].kind == Directory && Parent(es[i].path) == es[j].path && j in clean
    ensures i in clean
  {
    hide DirOk, Parent;
    assert was[i].path == es[i].path && was[j].path == es[j].path;
  }

  lemma WrittenMore(H: string -> Digest, es: seq<Entry>, now: seq<Entry>, trees: map<Digest, string>,
                    trees': map<Digest, string>, dirs: seq<nat>, clean: set<nat>, x: nat)
    requires 0 < x <= |dirs| && Written(H, es, trees, dirs, clean, x) && Extends(trees, trees')
    requires dirs[x - 1] < |es| == |now| && now[dirs[x - 1]].hash in trees'
    requires forall j :: 0 <= j < |es| && j != dirs[x - 1] ==> now[j] == es[j]
    requires now[dirs[x - 1]].kind == es[dirs[x - 1]].kind
    requires forall j :: j in Finished(dirs, clean, x) + {dirs[x - 1]} ==> j < |now| && DirOk(H, now, j)
    ensures Written(H, now, trees', dirs, clean, x - 1)
  {
    ExtendsHas(trees, trees');
    hide DirOk, Extends;
    assert dirs[x - 1..] == [dirs[x - 1]] + dirs[x..] && dirs[..x] == dirs[..x - 1] + [dirs[x - 1]];
  }

  ghost predicate SortedPaths(es: seq<Entry>) {
    && (forall i, j :: 0 <= i < j < |es| ==> Less(es[i].path, es[j].path))
    && (forall i :: 0 <= i < |es| ==> Valid(es[i].path))
  }

  lemma ParentEarlier(es: seq<Entry>, i: nat, j: nat)
    requires SortedPaths(es) && i < |es| && j < |es| && es[i].path != "" && Parent(es[i].path) == es[j].path
    ensures j < i
  {
    if i < j {
      ParentAbove(es[i].path);
      BelowLess(es[i].path, es[j].path);
      LessAsymmetric(es[i].path, es[j].path);
    }
  }

  lemma ListedSorted(nodes: seq<Inode>, root: Inode)
    requires Scanned(nodes, root)
    ensures SortedPaths(Lines(nodes))
  {}

  lemma ListedRoot(nodes: seq<Inode>, root: Inode)
    requires Listed(nodes, root)
    ensures Scanned(nodes, root) && Increasing(nodes) && root !in nodes && ChildrenListed(nodes, root.children, "")
  {}

  lemma AllWritten(H: string -> Digest, was: seq<Entry>, es: seq<Entry>, trees0: map<Digest, string>,
                   trees: map<Digest, string>,
                   dirs: seq<nat>, clean: set<nat>)
    requires ToWrite(H, was, trees0, dirs, clean) && OnlyHashes(was, es, Directory)
    requires Written(H, es, trees, dirs, clean, 0)
    ensures forall i :: 0 <= i < |es| && es[i].kind == Directory ==> DirOk(H, es, i) && es[i].hash in trees
  {
    hide DirOk, Parent;
    assert dirs[0..] == dirs && dirs[..0] == [];
  }

  lemma NoneWritten(H: string -> Digest, es: seq<Entry>, trees: map<Digest, string>, dirs: seq<nat>, clean: set<nat>)
    requires ToWrite(H, es, trees, dirs, clean)
    ensures Written(H, es, trees, dirs, clean, |dirs|)
  {
    hide DirOk, Parent;
    assert dirs[|dirs|..] == [] && dirs[..|dirs|] == dirs;
  }

  lemma ExtendsTransitive(a: map<Digest, string>, b: map<Digest, string>, c: map<Digest, string>)
    requires Extends(a, b) && Extends(b, c)
    ensures Extends(a, c)
  {}

  /** The cache has gained tree objects of the directories written so far only. */
  ghost predicate TreesGained(es: seq<Entry>, dirs: seq<nat>, x: nat, was: map<Digest, string>,
                              now: map<Digest, string>) {
    forall d :: d in now && d !in was ==>
      exists y :: x <= y < |dirs| && dirs[y] < |es| && es[dirs[y]].kind == Directory && es[dirs[y]].hash == d
  }

  lemma NoTreeGained(es: seq<Entry>, dirs: seq<nat>, trees: map<Digest, string>)
    ensures TreesGained(es, dirs, |dirs|, trees, trees)
  {}

  lemma OneTreeGained(es: seq<Entry>, now: seq<Entry>, dirs: seq<nat>, x: nat, was: map<Digest, string>,
                      trees: map<Digest, string>, trees': map<Digest, string>)
    requires 0 < x <= |dirs| && TreesGained(es, dirs, x, was, trees)
    requires forall i, j :: 0 <= i < j < |dirs| ==> dirs[i] < dirs[j]
    requires dirs[x - 1] < |es| == |now| && es[dirs[x - 1]].kind == Directory
    requires now == es[dirs[x - 1] := es[dirs[x - 1]].(hash := now[dirs[x - 1]].hash)]
    requires trees'.Keys == trees.Keys + {now[dirs[x - 1]].hash}
    ensures TreesGained(now, dirs, x - 1, was, trees')
  {
    forall d | d in trees' && d !in was
      ensures exists y ::
                x - 1 <= y < |dirs| && dirs[y] < |now| && now[dirs[y]].kind == Directory && now[dirs[y]].hash == d
    {
      assert d in trees'.Keys;
      if d == now[dirs[x - 1]].hash {
        assert now[dirs[x - 1]].kind == Directory;
      } else {
        var y :| x <= y < |dirs| && dirs[y] < |es| && es[dirs[y]].kind == Directory && es[dirs[y]].hash == d;
        assert now[dirs[y]] == es[dirs[y]];
      }
    }
  }

  /** Whatever add has stored is named by a digest in the list or by the root's. */
  ghost predicate OnlyListed(es: seq<Entry>, root: Digest, kind: Kind, was: map<Digest, string>,
                             now: map<Digest, string>) {
    forall d :: d in now && d !in was ==>
      (kind == Directory && d == root) || exists i :: 0 <= i < |es| && es[i].kind == kind && es[i].hash == d
  }

  lemma TreesListed(es: seq<Entry>, dirs: seq<nat>, root: Digest, was: map<Digest, string>, trees: map<Digest, string>,
                    now: map<Digest, string>)
    requires TreesGained(es, dirs, 0, was, trees) && now.Keys == trees.Keys + {root}
    ensures OnlyListed(es, root, Directory, was, now)
  {
    forall d | d in now && d !in was && d != root
      ensures exists i :: 0 <= i < |es| && es[i].kind == Directory && es[i].hash == d
    {
      assert d in now.Keys;
    }
  }

  lemma FilesListed(H: string -> Digest, nodes: seq<Inode>, content: map<string, string>, was: map<Digest, string>,
                    now: map<Digest, string>, root: Digest)
    requires FilesGained(H, nodes, content, was, now) && FilesStored(H, Lines(nodes), content, now)
    ensures OnlyListed(Lines(nodes), root, File, was, now)
  {
    var es := Lines(nodes);
    forall d | d in now && d !in was ensures exists i :: 0 <= i < |es| && es[i].kind == File && es[i].hash == d {
      var i :| 0 <= i < |nodes| && nodes[i].kind == File && nodes[i].path in content && d == H(content[nodes[i].path]);
      assert es[i] == Line(nodes[i]) && FileOk(H, es[i], content);
    }
  }

  lemma DirsIncreasing(H: string -> Digest, es: seq<Entry>, trees: map<Digest, string>, dirs: seq<nat>, clean: set<nat>)
    requires ToWrite(H, es, trees, dirs, clean)
    ensures forall i, j :: 0 <= i < j < |dirs| ==> dirs[i] < dirs[j]
  {}

  /** Writes the directories from the last to the first, then the root. */
  method AddTrees(H: string -> Digest, cache: Cache, nodes: seq<Inode>, root: Inode, dirs: seq<nat>,
                  ghost clean: set<nat>)
    requires Listed(nodes, root) && Named(H, cache.trees)
    requires ToWrite(H, Lines(nodes), cache.trees, dirs, clean)
    modifies (set n | n in nodes)`hash, (set n | n in nodes)`children, root`hash, root`children, cache`trees
    ensures Listed(nodes, root) && OnlyHashes(old(Lines(nodes)), Lines(nodes), Directory)
    ensures Named(H, cache.trees) && Extends(old(cache.trees), cache.trees)
    ensures TreesStored(H, Lines(nodes), root.hash, cache.trees)
    ensures OnlyListed(Lines(nodes), root.hash, Directory, old(cache.trees), cache.trees)
  {
    hide *;
    ghost var was, trees0 := Lines(nodes), cache.trees;
    NoTreeGained(was, dirs, trees0);
    DirsIncreasing(H, was, trees0, dirs, clean);
    NoneWritten(H, was, trees0, dirs, clean);
    OnlyHashesSame(was);
    ExtendsSame(trees0);
    var x := |dirs|;
    while x > 0
      invariant 0 <= x <= |dirs|
      invariant Listed(nodes, root) && OnlyHashes(was, Lines(nodes), Directory)
      invariant Named(H, cache.trees) && Extends(trees0, cache.trees)
      invariant Written(H, Lines(nodes), cache.trees, dirs, clean, x)
      invariant TreesGained(Lines(nodes), dirs, x, trees0, cache.trees)
    {
      ghost var es, trees := Lines(nodes), cache.trees;
      DirsListed(H, was, trees0, nodes, dirs, clean, x - 1);
      ListedRoot(nodes, root);
      ListedSorted(nodes, root);
      LineHash(nodes, dirs[x - 1]);
      WriteDir(H, cache, nodes, root, dirs[x - 1]);
      ExtendsTransitive(trees0, trees, cache.trees);
      LineHash(nodes, dirs[x - 1]);
      OneTreeGained(es, Lines(nodes), dirs, x, trees0, trees, cache.trees);
      WrittenStep(H, was, es, Lines(nodes), trees0, trees, cache.trees, dirs, clean, x);
      x := x - 1;
    }
    ListedRoot(nodes, root);
    AllWritten(H, was, Lines(nodes), trees0, cache.trees, dirs, clean);
    ghost var trees := cache.trees;
    WriteRoot(H, cache, nodes, root);
    ExtendsTransitive(trees0, trees, cache.trees);
    TreesListed(Lines(nodes), dirs, root.hash, trees0, trees, cache.trees);
    TreesDone(H, Lines(nodes), root.hash, trees, cache.trees);
  }

  lemma TreesDone(H: string -> Digest, es: seq<Entry>, root: Digest, was: map<Digest, string>,
                  trees: map<Digest, string>)
    requires forall i :: 0 <= i < |es| && es[i].kind == Directory ==> DirOk(H, es, i) && es[i].hash in was
    requires Extends(was, trees) && root == H(TreeObject(es, "")) && root in trees
    ensures TreesStored(H, es, root, trees)
  {}

  lemma OnlyHashesSame(es: seq<Entry>)
    ensures forall kind :: OnlyHashes(es, es, kind)
  {}

  lemma ExtendsSame(m: map<Digest, string>)
    ensures Extends(m, m)
  {}

  lemma DirsListed(H: string -> Digest, was: seq<Entry>, trees: map<Digest, string>, nodes: seq<Inode>, dirs: seq<nat>,
                   clean: set<nat>, x: nat)
    requires ToWrite(H, was, trees, dirs, clean) && OnlyHashes(was, Lines(nodes), Directory) && x < |dirs|
    ensures dirs[x] < |nodes| && nodes[dirs[x]].kind == Directory
  {
    hide DirOk, Parent;
    assert dirs[x] in dirs;
    assert Lines(nodes)[dirs[x]].kind == nodes[dirs[x]].kind;
  }

  /** create_dirtree for the root. */
  method WriteRoot(H: string -> Digest, cache: Cache, nodes: seq<Inode>, root: Inode)
    requires Listed(nodes, root) && Named(H, cache.trees)
    modifies root`hash, root`children, cache`trees
    ensures Listed(nodes, root) && Named(H, cache.trees) && Extends(old(cache.trees), cache.trees)
    ensures Lines(nodes) == old(Lines(nodes))
    ensures root.hash == H(TreeObject(Lines(nodes), ""))
    ensures cache.trees.Keys == old(cache.trees).Keys + {root.hash}
  {
    hide Scanned, Increasing, Less, ParentListed, ChildrenListed, TreeObject, Lines;
    RootNotListed(nodes, root);
    CreateDirtree(H, cache, root, nodes, "");
    StillListed(nodes, root);
  }

  lemma FilesThenTrees(H: string -> Digest, was: seq<Entry>, es: seq<Entry>, content: map<string, string>,
                       files: map<Digest, string>)
    requires FilesStored(H, was, content, files) && OnlyHashes(was, es, Directory)
    ensures FilesStored(H, es, content, files)
  {}

  /** The clean directories of the list as the refresh left it. */
  function CleanDirs(es: seq<Entry>): set<nat> {
    set i: nat | i < |es| && es[i].kind == Directory && es[i].hash.hex != ""
  }

  /** What the first pass and the file tasks leave for the last pass. */
  lemma ReadyToWrite(H: string -> Digest, was: seq<Entry>, es: seq<Entry>, content: map<string, string>,
                     files: map<Digest, string>,
                     trees: map<Digest, string>, dirs: seq<nat>)
    requires DirtyUp(was) && CleanCurrent(H, was, content) && OnlyHashes(was, es, File)
    requires FilesStored(H, es, content, files)
    requires forall x, y :: 0 <= x < y < |dirs| ==> dirs[x] < dirs[y]
    requires forall i: nat :: i in dirs <==>
               i < |was| && was[i].kind == Directory && (was[i].hash.hex == "" || was[i].hash !in trees)
    ensures ToWrite(H, es, trees, dirs, CleanDirs(was))
  {
    hide DirOk, Parent, CleanCurrent, FileOk;
    var clean := CleanDirs(was);
    forall i | i in clean ensures i < |es| && DirOk(H, es, i) {
      CleanStays(H, was, es, content, i);
    }
    forall i, j | 0 <= i < |es| && es[i].kind == Directory && j in clean && Parent(es[i].path) == es[j].path
      ensures i in clean
    {
      assert was[i] == es[i] && was[j] == es[j];
    }
  }

  /** add: afterwards every directory and the root carry the digest of their tree object, made of
      their children's final digests, every file carries the digest of its content, and all of these
      objects are in the cache. */
  method Add(H: string -> Digest, cache: Cache, nodes: seq<Inode>, root: Inode, content: map<string, string>)
    requires Listed(nodes, root) && DirtyUp(Lines(nodes)) && CleanCurrent(H, Lines(nodes), content)
    requires forall i :: 0 <= i < |nodes| && nodes[i].kind == File ==> nodes[i].path in content
    requires Named(H, cache.files) && Named(H, cache.trees)
    modifies (set n | n in nodes)`hash, (set n | n in nodes)`children, root`hash, root`children, cache
    ensures FilesStored(H, Lines(nodes), content, cache.files) && TreesStored(H, Lines(nodes), root.hash, cache.trees)
    ensures Named(H, cache.files) && Extends(old(cache.files), cache.files)
    ensures Named(H, cache.trees) && Extends(old(cache.trees), cache.trees)
    ensures forall i :: 0 <= i < |nodes| && nodes[i].kind != File && nodes[i].kind != Directory ==>
              nodes[i].hash == old(nodes[i].hash)
    ensures Listed(nodes, root)
    ensures OnlyListed(Lines(nodes), root.hash, File, old(cache.files), cache.files)
    ensures OnlyListed(Lines(nodes), root.hash, Directory, old(cache.trees), cache.trees)
  {
    hide *;
    ghost var was, trees := Lines(nodes), cache.trees;
    forall i | 0 <= i < |nodes| ensures was[i].hash == nodes[i].hash { LineHash(nodes, i); }
    var tasks, dirs := FirstPass(cache, nodes);
    ListedRoot(nodes, root);
    AddFiles(H, cache, nodes, root, content, tasks);
    ghost var es := Lines(nodes);
    ReadyToWrite(H, was, es, content, cache.files, trees, dirs);
    AddTrees(H, cache, nodes, root, dirs, CleanDirs(was));
    FilesThenTrees(H, es, Lines(nodes), content, cache.files);
    FilesListed(H, nodes, content, old(cache.files), cache.files, root.hash);
    OthersSame(was, es, nodes);
  }

  lemma OthersSame(was: seq<Entry>, es: seq<Entry>, nodes: seq<Inode>)
    requires OnlyHashes(was, es, File) && OnlyHashes(es, Lines(nodes), Directory)
    ensures forall i :: 0 <= i < |nodes| && nodes[i].kind != File && nodes[i].kind != Directory ==>
              nodes[i].hash == was[i].hash
  {
    hide Lines;
    forall i | 0 <= i < |nodes| && nodes[i].kind != File && nodes[i].kind != Directory
      ensures nodes[i].hash == was[i].hash
    {
      assert Lines(nodes)[i] == es[i] == was[i];
    }
  }

  /** Collects a task for every file and the directories that are dirty or missing. */
  method FirstPass(cache: Cache, nodes: seq<Inode>) returns (tasks: set<nat>, dirs: seq<nat>)
    ensures forall i: nat :: i in tasks <==> i < |nodes| && nodes[i].kind == File
    ensures forall x, y :: 0 <= x < y < |dirs| ==> dirs[x] < dirs[y]
    ensures forall i: nat :: i in dirs <==>
              i < |nodes| && Lines(nodes)[i].kind == Directory &&
                  (Lines(nodes)[i].hash.hex == "" || Lines(nodes)[i].hash !in cache.trees)
  {
    hide Lines;
    tasks, dirs := {}, [];
    for k := 0 to |nodes|
      invariant forall i: nat :: i in tasks <==> i < k && nodes[i].kind == File
      invariant forall x, y :: 0 <= x < y < |dirs| ==> dirs[x] < dirs[y]
      invariant forall i: nat :: i in dirs <==>
                  i < k && nodes[i].kind == Directory && (nodes[i].IsDirty() || nodes[i].hash !in cache.trees)
    {
      if nodes[k].kind == File {
        tasks := tasks + {k};
      } else if nodes[k].kind == Directory {
        if nodes[k].IsDirty() || nodes[k].hash !in cache.trees {
          assert forall x :: 0 <= x < |dirs| ==> dirs[x] in dirs;
          dirs := dirs + [k];
        }
      }
    }
  }
}
