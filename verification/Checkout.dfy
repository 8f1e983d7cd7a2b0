/** index::checkout: a merge of the sorted listing of a workspace with a sorted index that edits
    the workspace in place. */
module Checkout {
  import opened Paths
  import opened Entries

  datatype Node = Node(kind: Kind, perms: nat, mtime: int, target: string, content: string)

  /** The permissions every symbolic link has on the systems modelled. */
  const LINK_PERMS: nat := 0x1FF

  type Nodes = map<string, Node>

  ghost predicate Rooted(m: Nodes) {
    forall p, q :: p in m && q != [] && Below(p, q) ==> q in m && m[q].kind == Directory
  }

  function Without(m: Nodes, p: string): Nodes {
    map q | q in m && q != p && !Below(q, p) :: m[q]
  }

  /** p cannot be resolved because something above it is a file or a link. */
  predicate Detached(m: Nodes, p: string) {
    exists q :: q in m && Below(p, q) && m[q].kind != Directory
  }

  predicate LinkAbove(m: Nodes, p: string) {
    exists q :: q in m && Below(p, q) && m[q].kind == Symlink
  }

  predicate ParentReady(m: Nodes, p: string) {
    Parent(p) == [] || (Parent(p) in m && m[Parent(p)].kind == Directory)
  }

  /** The part of std::filesystem that checkout uses.  Every operation answers whether it
      succeeded.  Where `strict` holds, removing below something that is not a directory is an
      error (ENOTDIR), as several implementations of remove_all report it; otherwise such a path
      simply does not exist. */
  class Filesystem {
    var nodes: Nodes
    const strict: bool

    /** Where a path leads that has a link above it; empty if that is outside the workspace. */
    const follow: string -> string

    constructor (nodes: Nodes, strict: bool, follow: string -> string)
      ensures this.nodes == nodes && this.strict == strict && this.follow == follow
    {
      this.nodes := nodes;
      this.strict := strict;
      this.follow := follow;
    }

    function Resolved(m: Nodes, p: string): string { if LinkAbove(m, p) then follow(p) else p }

    method RemoveAll(p: string) returns (ok: bool)
      modifies this
      ensures ok == !(strict && Detached(old(nodes), Resolved(old(nodes), p)))
      ensures nodes == if ok then Without(old(nodes), Resolved(old(nodes), p)) else old(nodes)
    {
      var q := Resolved(nodes, p);
      ok := !(strict && Detached(nodes, q));
      if ok { nodes := Without(nodes, q); }
    }

    method Remove(p: string) returns (ok: bool)
      requires !LinkAbove(nodes, p)
      modifies this
      ensures ok == (!(strict && Detached(old(nodes), p)) && forall q :: q in old(nodes) ==> !Below(q, p))
      ensures nodes == if ok then old(nodes) - {p} else old(nodes)
    {
      ok := !(strict && Detached(nodes, p)) && forall q :: q in nodes ==> !Below(q, p);
      if ok { nodes := nodes - {p}; }
    }

    method CreateSymlink(target: string, p: string, now: int) returns (ok: bool)
      modifies this
      ensures ok == (p !in old(nodes) && ParentReady(old(nodes), p))
      ensures nodes == if ok then old(nodes)[p := Node(Symlink, LINK_PERMS, now, target, [])] else old(nodes)
    {
      ok := p !in nodes && ParentReady(nodes, p);
      if ok { nodes := nodes[p := Node(Symlink, LINK_PERMS, now, target, [])]; }
    }

    method CreateDirectory(p: string, umask: nat, now: int) returns (ok: bool)
      modifies this
      ensures ok == if p in old(nodes) then old(nodes)[p].kind == Directory else ParentReady(old(nodes), p)
      ensures nodes == if ok && p !in old(nodes) then old(nodes)[p := Node(Directory, umask, now, [], [])]
                       else old(nodes)
    {
      ok := if p in nodes then nodes[p].kind == Directory else ParentReady(nodes, p);
      if ok && p !in nodes { nodes := nodes[p := Node(Directory, umask, now, [], [])]; }
    }

    method WriteFile(content: string, p: string, umask: nat, now: int) returns (ok: bool)
      modifies this
      ensures ok == (p !in old(nodes) && ParentReady(old(nodes), p))
      ensures nodes == if ok then old(nodes)[p := Node(File, umask, now, [], content)] else old(nodes)
    {
      ok := p !in nodes && ParentReady(nodes, p);
      if ok { nodes := nodes[p := Node(File, umask, now, [], content)]; }
    }

    /** Follows links, so it is never asked to change one. */
    method SetPermissions(p: string, perms: nat) returns (ok: bool)
      requires p in nodes ==> nodes[p].kind != Symlink
      modifies this
      ensures ok == (p in old(nodes))
      ensures nodes == if ok then old(nodes)[p := old(nodes)[p].(perms := perms)] else old(nodes)
    {
      ok := p in nodes;
      if ok { nodes := nodes[p := nodes[p].(perms := perms)]; }
    }
  }

  // ---------------------------------------------------------------- the specification

  /** A workspace listing: the entries on disk, sorted by path. */
  ghost predicate ListingOf(tree: seq<Entry>, m: Nodes) {
    && SortedByPath(tree)
    && (forall i :: 0 <= i < |tree| ==> tree[i].path in m && Lists(tree[i], m[tree[i].path]))
    && (forall p :: p in m ==> exists i :: 0 <= i < |tree| && tree[i].path == p)
  }

  predicate Lists(e: Entry, n: Node) {
    e.kind == n.kind && e.perms == n.perms && e.mtime == n.mtime && e.target == n.target
  }

  /** What an index has to be: sorted, and every directory above an entry is an entry. */
  ghost predicate IndexOk(s: seq<Entry>) {
    && SortedByPath(s)
    && (forall i :: 0 <= i < |s| ==> Valid(s[i].path) && EntryOk(s[i]))
    && (forall i, q :: 0 <= i < |s| && Below(s[i].path, q) ==> HasDirectory(s, q))
  }

  predicate EntryOk(e: Entry) {
    !e.kind.Unknown? && if e.kind == Symlink then e.perms == LINK_PERMS else e.target == []
  }

  predicate NodeOk(n: Node) {
    !n.kind.Unknown? && if n.kind == Symlink then n.perms == LINK_PERMS else n.target == []
  }

  /** The entry is on disk but for the content of a file. */
  predicate Shown(e: Entry, m: Nodes) {
    && e.path in m
    && m[e.path].kind == e.kind && m[e.path].perms == e.perms && m[e.path].target == e.target
    && (e.kind != Directory ==> m[e.path].mtime == e.mtime)
  }

  /** The entry is on disk: type, permissions, link target and content. */
  predicate Realized(e: Entry, m: Nodes, store: map<Digest, string>) {
    Shown(e, m) && (e.kind == File ==> e.hash in store && m[e.path].content == store[e.hash])
  }

  /** A file on disk that has the time of the index: it is taken to be up to date. */
  predicate Kept(e: Entry, m: Nodes) {
    e.kind == File && e.path in m && m[e.path].kind == File && m[e.path].mtime == e.mtime
  }

  /** A link on disk that already is what the index says. */
  predicate KeptLink(e: Entry, m: Nodes) {
    && e.kind == Symlink && e.path in m && m[e.path].kind == Symlink
    && m[e.path].mtime == e.mtime && m[e.path].target == e.target
  }

  predicate KeptDirectory(e: Entry, m: Nodes) {
    e.kind == Directory && e.path in m && m[e.path].kind == Directory
  }

  /** What checkout makes of the entry e0, given the disk m0: a kept file has the content and the time it
      had, everything else is realized, a kept link is the one it was, and a directory that was there keeps
      its time in the index. */
  predicate Settled(e: Entry, m: Nodes, store: map<Digest, string>, e0: Entry, m0: Nodes) {
    if Kept(e0, m0) then Shown(e, m) && m[e.path] == m0[e0.path].(perms := e0.perms)
    else Realized(e, m, store) && (KeptLink(e0, m0) ==> m[e.path] == m0[e0.path]) && (KeptDirectory(e0, m0) ==> e == e0)
  }

  /** A file that is not kept is copied from the cache, which then has to hold it. */
  predicate Available(e: Entry, m: Nodes, store: map<Digest, string>) {
    e.kind == File && !Kept(e, m) ==> e.hash in store
  }

  predicate AllAvailable(s: seq<Entry>, m: Nodes, store: map<Digest, string>) {
    forall i :: 0 <= i < |s| ==> Available(s[i], m, store)
  }

  /** An unchanged modification time means unchanged content. */
  ghost predicate TimesTellContent(s: seq<Entry>, m: Nodes, store: map<Digest, string>) {
    forall i :: 0 <= i < |s| && Kept(s[i], m) ==> s[i].hash in store && m[s[i].path].content == store[s[i].hash]
  }

  predicate SameButTime(a: Entry, b: Entry) { a == b.(mtime := a.mtime) }

  /** A directory that the index turns into something else, with an entry below it that the listing
      puts after something that is not below it: `a`, `a.b`, `a/x`. */
  ghost predicate StrandedAt(tree: seq<Entry>, s: seq<Entry>, i: int, j: int, k: int) {
    && 0 <= i < j < k < |tree|
    && tree[i].kind == Directory && BecomesOther(s, tree[i].path)
    && Below(tree[k].path, tree[i].path) && !Below(tree[j].path, tree[i].path)
  }

  ghost predicate BecomesOther(s: seq<Entry>, p: string) {
    exists x :: 0 <= x < |s| && s[x].path == p && s[x].kind != Directory
  }

  ghost predicate Holds(s: seq<Entry>, p: string, kind: Kind) {
    exists x :: 0 <= x < |s| && s[x].path == p && s[x].kind == kind
  }

  /** Stranded below a directory that becomes a file. */
  ghost predicate Stranded(tree: seq<Entry>, s: seq<Entry>) {
    exists i, j, k :: StrandedAt(tree, s, i, j, k) && Holds(s, tree[i].path, File)
  }

  /** Stranded below a directory that becomes a link, and after everything in the index. */
  ghost predicate LinkTailAt(tree: seq<Entry>, s: seq<Entry>, k: int) {
    && (exists i, j :: StrandedAt(tree, s, i, j, k) && Holds(s, tree[i].path, Symlink))
    && forall x :: 0 <= x < |s| ==> Less(s[x].path, tree[k].path)
  }

  ghost predicate LinkTail(tree: seq<Entry>, s: seq<Entry>) { exists k :: LinkTailAt(tree, s, k) }

  /** Removing q takes an index entry away. */
  ghost predicate Hits(s: seq<Entry>, q: string) {
    exists x :: 0 <= x < |s| && (s[x].path == q || Below(s[x].path, q))
  }

  /** Such an entry is removed through the link, where it leads to an entry of the index. */
  ghost predicate LostAt(tree: seq<Entry>, s: seq<Entry>, follow: string -> string, k: int) {
    LinkTailAt(tree, s, k) && Hits(s, follow(tree[k].path))
  }

  ghost predicate Lost(tree: seq<Entry>, s: seq<Entry>,
                       follow: string -> string) { exists k :: LostAt(tree, s, follow, k) }

  /** Something of the index is not on disk. */
  ghost predicate Missing(s: seq<Entry>, m: Nodes) { exists i :: 0 <= i < |s| && s[i].path !in m }

  /** Every entry is settled and nothing else is on disk. */
  ghost predicate CheckedOut(s: seq<Entry>, m: Nodes, store: map<Digest, string>, s0: seq<Entry>, m0: Nodes) {
    && |s| == |s0| && (forall i :: 0 <= i < |s| ==> Settled(s[i], m, store, s0[i], m0))
    && (forall p :: p in m ==> exists i :: 0 <= i < |s| && s[i].path == p)
  }

  /** Nothing has been added to the disk or changed on it. */
  ghost predicate Shrunk(was: Nodes, m: Nodes) { forall p :: p in m ==> p in was && m[p] == was[p] }

  /** Whatever is on disk is as it was or as the index wants it: what a checkout that fails leaves. */
  ghost predicate Partial(s: seq<Entry>, m: Nodes, store: map<Digest, string>, s0: seq<Entry>, m0: Nodes) {
    && |s| == |s0|
    && forall p :: p in m ==>
         (p in m0 && m[p] == m0[p]) ||
         exists i :: 0 <= i < |s0| && s0[i].path == p && Settled(s[i], m, store, s0[i], m0)
  }

  /** Exactly the index is on disk. */
  ghost predicate Converged(s: seq<Entry>, m: Nodes, store: map<Digest, string>) {
    && (forall i :: 0 <= i < |s| ==> Realized(s[i], m, store))
    && (forall p :: p in m ==> exists i :: 0 <= i < |s| && s[i].path == p)
  }

  // ---------------------------------------------------------------- what one step keeps

  lemma WithoutRooted(m: Nodes, p: string)
    requires Rooted(m)
    ensures Rooted(Without(m, p))
  {
    forall q, a | q in Without(m, p) && a != [] && Below(q, a)
      ensures a in Without(m, p) && m[a].kind == Directory
    {
      if Below(a, p) { BelowTransitive(q, a, p); }
    }
  }

  /** Adding or replacing an entry whose parent is a directory keeps the workspace a tree. */
  lemma PutRooted(m: Nodes, m': Nodes, p: string)
    requires Rooted(m) && Valid(p) && ParentReady(m, p)
    requires m'.Keys == m.Keys + {p} && forall q :: q in m && q != p ==> m'[q] == m[q]
    requires p in m ==> m'[p].kind == m[p].kind || m[p].kind != Directory
    ensures Rooted(m')
  {
    forall q, a | q in m' && a != [] && Below(q, a)
      ensures a in m' && m'[a].kind == Directory
    {
      BelowLess(q, a);
      LessIrreflexive(q);
      if q == p {
        AboveParent(p, a);
        BelowNotEmpty(p, a);
        ParentAbove(p);
        BelowLess(p, Parent(p));
      }
    }
  }

  lemma BelowNotEmpty(p: string, a: string)
    requires Valid(p) && Below(p, a)
    ensures a != [] && Parent(p) != []
  {
    assert p[|a|] == (a + "/")[|a|] == '/';
    AboveParent(p, a);
    if Parent(p) == [] && a != [] { BelowLess(Parent(p), a); }
  }

  lemma ParentIsReady(s0: seq<Entry>, m0: Nodes, s: seq<Entry>, ii: nat, m: Nodes, store: map<Digest, string>)
    requires IndexOk(s0) && ii < |s0| == |s|
    requires forall i :: 0 <= i < ii ==> SameButTime(s[i], s0[i]) && Settled(s[i], m, store, s0[i], m0)
    ensures ParentReady(m, s0[ii].path)
  {
    var p := s0[ii].path;
    if Parent(p) != [] {
      ParentAbove(p);
      BelowLess(p, Parent(p));
      assert HasDirectory(s0, Parent(p));
      var k :| 0 <= k < |s0| && s0[k].path == Parent(p) && s0[k].kind == Directory;
      if ii < k { LessAsymmetric(Parent(p), p); }
      if k == ii { LessIrreflexive(p); }
    }
  }

  /** The state of the merge with ti listing entries and ii index entries handled: s0 and m0 are
      the index and the workspace at the start, s and m now. */
  ghost predicate Inv(tree: seq<Entry>, s0: seq<Entry>, m0: Nodes, store: map<Digest, string>,
                      s: seq<Entry>, m: Nodes, ti: int, ii: int)
  {
    && 0 <= ti <= |tree| && 0 <= ii <= |s| == |s0|
    && Rooted(m)
    && (forall i :: 0 <= i < |s| ==> SameButTime(s[i], s0[i]))
    && (forall i :: ii <= i < |s| ==> s[i] == s0[i])
    && (forall i, j :: 0 <= i < ii && ti <= j < |tree| ==> Less(s0[i].path, tree[j].path))
    && Behind(tree, s0, ti, ii)
    && (forall i :: 0 <= i < ii ==> Settled(s[i], m, store, s0[i], m0))
    && (forall p :: p in m ==> Handled(s0, ii, p) || Untouched(tree, ti, m0, m, p))
    && (ii < |s0| ==> forall j :: ti <= j < |tree| && UnderIndex(s0, tree[j].path) ==> tree[j].path in m)
  }

  /** No index entry still to come is one that the listing has passed. */
  ghost predicate Behind(tree: seq<Entry>, s0: seq<Entry>, ti: int, ii: int) {
    forall i, j :: 0 <= ii <= i < |s0| && 0 <= j < ti <= |tree| ==> s0[i].path != tree[j].path
  }

  ghost predicate Handled(s0: seq<Entry>, ii: int, p: string) {
    exists i :: 0 <= i < ii && i < |s0| && s0[i].path == p
  }

  ghost predicate Untouched(tree: seq<Entry>, ti: int, m0: Nodes, m: Nodes, p: string)
  {
    && (exists j :: 0 <= ti <= j < |tree| && tree[j].path == p)
    && p in m0 && p in m && m[p] == m0[p]
  }

  ghost predicate UnderIndex(s0: seq<Entry>, p: string) {
    forall q :: Below(p, q) ==> HasDirectory(s0, q)
  }

  ghost predicate Premises(tree: seq<Entry>, s0: seq<Entry>, m0: Nodes, store: map<Digest, string>) {
    && IndexOk(s0) && Rooted(m0) && ListingOf(tree, m0)
    && (forall p :: p in m0 ==> Valid(p) && NodeOk(m0[p]))
  }

  lemma NotInIndex(s0: seq<Entry>, ii: int, p: string)
    requires IndexOk(s0) && 0 <= ii <= |s0|
    requires forall i :: 0 <= i < ii ==> Less(s0[i].path, p)
    requires ii < |s0| ==> Less(p, s0[ii].path)
    ensures forall i :: 0 <= i < |s0| ==> s0[i].path != p
  {
    forall i | 0 <= i < |s0|
      ensures s0[i].path != p
    {
      if i < ii { LessIrreflexive(p); }
      else if i == ii { LessIrreflexive(p); }
      else { LessTransitive(p, s0[ii].path, s0[i].path); LessIrreflexive(p); }
    }
  }

  /** Removing a path that is not an index directory, with everything below it. */
  lemma StepRemoveAll(tree: seq<Entry>, s0: seq<Entry>, m0: Nodes, store: map<Digest, string>,
                      s: seq<Entry>, m: Nodes, ti: int, ii: int, p: string)
    requires Premises(tree, s0, m0, store) && Inv(tree, s0, m0, store, s, m, ti, ii)
    requires ti < |tree| && p == tree[ti].path && !HasDirectory(s0, p)
    requires forall i :: 0 <= i < ii ==> s0[i].path != p
    ensures Rooted(Without(m, p))
    ensures forall i :: 0 <= i < ii ==> Settled(s[i], Without(m, p), store, s0[i], m0)
    ensures forall q :: q in Without(m, p) ==> Handled(s0, ii, q) || Untouched(tree, ti + 1, m0, Without(m, p), q)
    ensures ii < |s0| ==> forall j :: ti < j < |tree| && UnderIndex(s0, tree[j].path) ==> tree[j].path in Without(m, p)
  {
    var m' := Without(m, p);
    WithoutRooted(m, p);
    forall i | 0 <= i < ii
      ensures Settled(s[i], m', store, s0[i], m0)
    {
      assert SameButTime(s[i], s0[i]);
      assert !Below(s0[i].path, p);
    }
    forall q | q in m'
      ensures Handled(s0, ii, q) || Untouched(tree, ti + 1, m0, m', q)
    {
      if !Handled(s0, ii, q) {
        assert Untouched(tree, ti, m0, m, q);
        var j :| 0 <= ti <= j < |tree| && tree[j].path == q;
        assert j != ti;
      }
    }
    forall j | ii < |s0| && ti < j < |tree| && UnderIndex(s0, tree[j].path)
      ensures tree[j].path in m'
    {
      SortedDistinctPaths(tree, j, ti);
    }
  }

  lemma SortedDistinctPaths(t: seq<Entry>, i: nat, j: nat)
    requires SortedByPath(t) && i < |t| && j < |t| && i != j
    ensures t[i].path != t[j].path
  {
    if t[i].path == t[j].path { SortedDistinct(t, i, j); }
  }

  /** The index entry ii is realized: only its path changed. */
  lemma StepPut(tree: seq<Entry>, s0: seq<Entry>, m0: Nodes, store: map<Digest, string>,
                s: seq<Entry>, m: Nodes, ti: int, ii: int, ti': int, s': seq<Entry>, m': Nodes)
    requires Premises(tree, s0, m0, store)
    requires 0 <= ti' <= |tree| && 0 <= ii < |s| == |s0| == |s'|
    requires Rooted(m) && ParentReady(m, s0[ii].path)
    requires forall i :: 0 <= i < |s| ==> SameButTime(s[i], s0[i])
    requires forall i :: ii <= i < |s| ==> s[i] == s0[i]
    requires forall i :: 0 <= i < ii ==> Settled(s[i], m, store, s0[i], m0)
    requires forall i, j :: 0 <= i <= ii && ti' <= j < |tree| ==> Less(s0[i].path, tree[j].path)
    requires forall p :: p in m && p != s0[ii].path ==> Handled(s0, ii, p) || Untouched(tree, ti', m0, m, p)
    requires forall j :: ti' <= j < |tree| && UnderIndex(s0, tree[j].path) ==> tree[j].path in m
    requires m'.Keys == m.Keys + {s0[ii].path}
    requires forall q :: q in m && q != s0[ii].path ==> m'[q] == m[q]
    requires s0[ii].path in m ==> m'[s0[ii].path].kind == m[s0[ii].path].kind || m[s0[ii].path].kind != Directory
    requires SameButTime(s'[ii], s0[ii]) && (forall i :: 0 <= i < |s| && i != ii ==> s'[i] == s[i])
    requires Settled(s'[ii], m', store, s0[ii], m0) && Behind(tree, s0, ti', ii + 1)
    ensures Inv(tree, s0, m0, store, s', m', ti', ii + 1)
  {
    var p := s0[ii].path;
    PutRooted(m, m', p);
    forall i | 0 <= i < ii + 1
      ensures Settled(s'[i], m', store, s0[i], m0)
    {
      if i < ii { SortedDistinctPaths(s0, i, ii); assert SameButTime(s[i], s0[i]); }
    }
    forall q | q in m'
      ensures Handled(s0, ii + 1, q) || Untouched(tree, ti', m0, m', q)
    {
      if q == p { assert s0[ii].path == q; }
      else if Handled(s0, ii, q) { var i :| 0 <= i < ii && i < |s0| && s0[i].path == q; }
    }
  }

  /** The merge is at an index entry that the listing passes over: it is not on disk. */
  lemma AbsentOnDisk(tree: seq<Entry>, s0: seq<Entry>, m0: Nodes, store: map<Digest, string>,
                     s: seq<Entry>, m: Nodes, ti: int, ii: int)
    requires Premises(tree, s0, m0, store) && Inv(tree, s0, m0, store, s, m, ti, ii)
    requires ii < |s| && (ti < |tree| ==> Less(s0[ii].path, tree[ti].path))
    ensures s0[ii].path !in m && s0[ii].path !in m0
    ensures forall j :: ti <= j < |tree| ==> Less(s0[ii].path, tree[j].path)
  {
    var p := s0[ii].path;
    forall j | ti <= j < |tree|
      ensures Less(p, tree[j].path)
    {
      if ti < j { LessTransitive(p, tree[ti].path, tree[j].path); }
    }
    LessIrreflexive(p);
  }

  /** Both lists move past their common path. */
  lemma BothBehind(tree: seq<Entry>, s0: seq<Entry>, ti: nat, ii: nat)
    requires SortedByPath(tree) && SortedByPath(s0) && Behind(tree, s0, ti, ii)
    requires ti < |tree| && ii < |s0| && tree[ti].path == s0[ii].path
    ensures Behind(tree, s0, ti + 1, ii + 1)
  {
    forall i | ii < i < |s0| ensures s0[i].path != tree[ti].path { SortedDistinctPaths(s0, i, ii); }
  }

  /** Nothing below a directory that became a file is in the index. */
  lemma SkipBehind(tree: seq<Entry>, s0: seq<Entry>, d: nat, ti: nat, ii: nat)
    requires IndexOk(s0) && Behind(tree, s0, d, ii) && ii < |s0| && d < ti <= |tree|
    requires tree[d].path == s0[ii].path && s0[ii].kind != Directory
    requires forall y :: d < y < ti ==> Below(tree[y].path, tree[d].path)
    ensures Behind(tree, s0, ti, ii + 1)
  {
    forall i, j | ii < i < |s0| && d <= j < ti ensures s0[i].path != tree[j].path {
      SortedDistinctPaths(s0, i, ii);
      if s0[i].path == tree[j].path && j > d {
        assert HasDirectory(s0, s0[ii].path);
        var k :| 0 <= k < |s0| && s0[k].path == s0[ii].path && s0[k].kind == Directory;
        SortedDistinct(s0, k, ii);
      }
    }
  }

  /** The merge is at a path that both lists hold: it is on disk and as the listing says. */
  lemma PresentOnDisk(tree: seq<Entry>, s0: seq<Entry>, m0: Nodes, store: map<Digest, string>,
                      s: seq<Entry>, m: Nodes, ti: int, ii: int)
    requires Premises(tree, s0, m0, store) && Inv(tree, s0, m0, store, s, m, ti, ii)
    requires ti < |tree| && ii < |s| && tree[ti].path == s0[ii].path
    ensures s0[ii].path in m && s0[ii].path in m0 && m[s0[ii].path] == m0[s0[ii].path]
    ensures forall j :: ti < j < |tree| ==> Less(s0[ii].path, tree[j].path)
    ensures forall i :: 0 <= i < ii ==> s0[i].path != s0[ii].path
  {
    var p := s0[ii].path;
    assert UnderIndex(s0, p);
    assert p in m;
    forall i | 0 <= i < ii
      ensures s0[i].path != p
    {
      SortedDistinctPaths(s0, i, ii);
    }
  }

  // ---------------------------------------------------------------- which workspaces fail

  /** Every directory that became a file has had the run of entries below it skipped. */
  ghost predicate RunsSkipped(tree: seq<Entry>, s0: seq<Entry>, ti: int) {
    forall i :: 0 <= i < ti <= |tree| && tree[i].kind == Directory && BecomesOther(s0, tree[i].path)
      ==> RunEnds(tree, i, ti)
  }

  ghost predicate RunEnds(tree: seq<Entry>, i: int, ti: int) {
    exists j :: RunEndsAt(tree, i, j) && j <= ti
  }

  ghost predicate RunEndsAt(tree: seq<Entry>, i: int, j: int) {
    && 0 <= i < j <= |tree| && (forall x :: i < x < j ==> Below(tree[x].path, tree[i].path))
    && (j == |tree| || !Below(tree[j].path, tree[i].path))
  }

  ghost predicate NoneStranded(tree: seq<Entry>, s0: seq<Entry>, ti: int) {
    forall i, j, k :: k < ti && StrandedAt(tree, s0, i, j, k) ==> !Holds(s0, tree[i].path, File)
  }

  /** Nothing so far has to be removed through a link. */
  ghost predicate NoTail(tree: seq<Entry>, s0: seq<Entry>, ti: int) { forall k :: k < ti ==> !LinkTailAt(tree, s0, k) }

  lemma RunEndsLater(tree: seq<Entry>, s0: seq<Entry>, ti: int, ti': int)
    requires RunsSkipped(tree, s0, ti) && ti <= ti' <= |tree|
    requires forall i :: ti <= i < ti' ==> i >= 0 && !(tree[i].kind == Directory && BecomesOther(s0, tree[i].path))
    ensures RunsSkipped(tree, s0, ti')
  {
    forall i | 0 <= i < ti' && tree[i].kind == Directory && BecomesOther(s0, tree[i].path)
      ensures RunEnds(tree, i, ti')
    {
      assert RunEnds(tree, i, ti);
    }
  }

  /** Where removing the entry ti is an error: only below a directory that became a file... */
  lemma DetachedIsStranded(tree: seq<Entry>, s0: seq<Entry>, m0: Nodes, store: map<Digest, string>,
                           s: seq<Entry>, m: Nodes, ti: int, ii: int)
    requires Premises(tree, s0, m0, store) && Inv(tree, s0, m0, store, s, m, ti, ii)
    requires ti < |tree| && RunsSkipped(tree, s0, ti) && Detached(m, tree[ti].path) && !LinkAbove(m, tree[ti].path)
    ensures Stranded(tree, s0)
  {
    var q :| q in m && Below(tree[ti].path, q) && m[q].kind != Directory;
    FileAbove(tree, s0, m0, store, s, m, ti, ii, q);
    var i :| 0 <= i < ti && tree[i].path == q && tree[i].kind == Directory && BecomesOther(s0, q);
    var j := StrandedAfterRun(tree, s0, i, ti);
  }

  lemma StrandedAfterRun(tree: seq<Entry>, s0: seq<Entry>, i: int, ti: int) returns (j: int)
    requires 0 <= i < ti < |tree| && RunEnds(tree, i, ti) && Below(tree[ti].path, tree[i].path)
    requires tree[i].kind == Directory && BecomesOther(s0, tree[i].path)
    ensures StrandedAt(tree, s0, i, j, ti)
  {
    j :| RunEndsAt(tree, i, j) && j <= ti;
  }

  /** ... and always there: what the directory became is above the entry. */
  lemma StrandedIsBelow(tree: seq<Entry>, s0: seq<Entry>, m0: Nodes, store: map<Digest, string>,
                        s: seq<Entry>, m: Nodes, ti: int, ii: int, i: int, j: int, kind: Kind)
    requires Premises(tree, s0, m0, store) && Inv(tree, s0, m0, store, s, m, ti, ii)
    requires ti < |tree| && (ii < |s| ==> Less(tree[ti].path, s0[ii].path))
    requires StrandedAt(tree, s0, i, j, ti) && Holds(s0, tree[i].path, kind)
    ensures tree[i].path in m && m[tree[i].path].kind == kind && Below(tree[ti].path, tree[i].path)
  {
    var q := tree[i].path;
    var x :| 0 <= x < |s0| && s0[x].path == q && s0[x].kind == kind;
    BelowLess(tree[ti].path, q);
    if ii <= x { LessChain(s0, ii, x, tree[ti].path); }
    assert Settled(s[x], m, store, s0[x], m0) && SameButTime(s[x], s0[x]);
  }

  lemma LessChain(s0: seq<Entry>, ii: nat, x: nat, p: string)
    requires SortedByPath(s0) && ii <= x < |s0| && Less(p, s0[ii].path)
    ensures !Less(s0[x].path, p)
  {
    hide Less;
    if ii < x { LessTransitive(p, s0[ii].path, s0[x].path); }
    if Less(s0[x].path, p) { LessAsymmetric(p, s0[x].path); }
  }

  lemma FileAbove(tree: seq<Entry>, s0: seq<Entry>, m0: Nodes, store: map<Digest, string>,
                  s: seq<Entry>, m: Nodes, ti: int, ii: int, q: string)
    requires Premises(tree, s0, m0, store) && Inv(tree, s0, m0, store, s, m, ti, ii)
    requires ti < |tree| && q in m && Below(tree[ti].path, q) && m[q].kind != Directory
    ensures exists i :: 0 <= i < ti && tree[i].path == q && tree[i].kind == Directory && BecomesOther(s0, q)
    ensures exists x :: 0 <= x < ii && s0[x].path == q && s0[x].kind == m[q].kind
    ensures q in m0 && m0[q].kind == Directory
  {
    var p := tree[ti].path;
    BelowNotEmpty(p, q);
    assert q in m0 && m0[q].kind == Directory;
    var i :| 0 <= i < |tree| && tree[i].path == q;
    BelowLess(p, q);
    if ti <= i {
      LessAsymmetric(q, p);
      assert false;
    }
    assert !Untouched(tree, ti, m0, m, q);
    var x :| 0 <= x < ii && x < |s0| && s0[x].path == q;
    assert Settled(s[x], m, store, s0[x], m0) && SameButTime(s[x], s0[x]);
  }

  /** A link above a listing entry is one that a directory became, and the entry is stranded. */
  lemma LinkIsStranded(tree: seq<Entry>, s0: seq<Entry>, m0: Nodes, store: map<Digest, string>,
                       s: seq<Entry>, m: Nodes, ti: int, ii: int) returns (i: int, j: int)
    requires Premises(tree, s0, m0, store) && Inv(tree, s0, m0, store, s, m, ti, ii)
    requires ti < |tree| && RunsSkipped(tree, s0, ti) && LinkAbove(m, tree[ti].path)
    ensures StrandedAt(tree, s0, i, j, ti) && Holds(s0, tree[i].path, Symlink)
  {
    var q :| q in m && Below(tree[ti].path, q) && m[q].kind == Symlink;
    FileAbove(tree, s0, m0, store, s, m, ti, ii, q);
    i :| 0 <= i < ti && tree[i].path == q && tree[i].kind == Directory && BecomesOther(s0, q);
    j := StrandedAfterRun(tree, s0, i, ti);
  }

  /** No entry has both a file and a link above it. */
  lemma FileOrLink(m: Nodes, p: string, a: string, b: string)
    requires Rooted(m) && a in m && b in m && a != [] && b != [] && Below(p, a) && Below(p, b) && m[a].kind != Directory
    requires m[b].kind != Directory
    ensures a == b
  {
    AncestorsNested(p, a, b);
  }

  lemma NotBelowLink(m: Nodes, p: string)
    requires Rooted(m) && Valid(p) && LinkAbove(m, p)
    ensures p !in m
  {
    var q :| q in m && Below(p, q) && m[q].kind == Symlink;
    BelowNotEmpty(p, q);
  }

  /** The canonical-parent test: what is below a link is not on disk. */
  lemma StepPass(tree: seq<Entry>, s0: seq<Entry>, m0: Nodes, store: map<Digest, string>, s: seq<Entry>, m: Nodes,
                 ti: int, ii: int)
    requires Premises(tree, s0, m0, store) && Inv(tree, s0, m0, store, s, m, ti, ii)
    requires ti < |tree| && (ii < |s| ==> Less(tree[ti].path, s0[ii].path)) && LinkAbove(m, tree[ti].path)
    ensures Inv(tree, s0, m0, store, s, m, ti + 1, ii)
  {
    hide Less, Below, Parent, Settled, LinkAbove, UnderIndex, SameButTime, Rooted;
    NotInIndex(s0, ii, tree[ti].path);
    NotBelowLink(m, tree[ti].path);
    forall p | p in m && !Handled(s0, ii, p) ensures Untouched(tree, ti + 1, m0, m, p) {
      var j :| 0 <= ti <= j < |tree| && tree[j].path == p;
    }
  }

  lemma PassNotStranded(tree: seq<Entry>, s0: seq<Entry>, m0: Nodes, store: map<Digest, string>, s: seq<Entry>,
                        m: Nodes, ti: int, ii: int)
    requires Premises(tree, s0, m0, store) && Inv(tree, s0, m0, store, s, m, ti, ii) && NoneStranded(tree, s0, ti)
    requires ti < |tree| && (ii < |s| ==> Less(tree[ti].path, s0[ii].path)) && LinkAbove(m, tree[ti].path)
    ensures NoneStranded(tree, s0, ti + 1)
  {
    hide Less, Below, Parent, Settled, Handled, Untouched, UnderIndex;
    var q :| q in m && Below(tree[ti].path, q) && m[q].kind == Symlink;
    BelowNotEmpty(tree[ti].path, q);
    forall i, j, k | k < ti + 1 && StrandedAt(tree, s0, i, j, k) ensures !Holds(s0, tree[i].path, File) {
      if k == ti && Holds(s0, tree[i].path, File) {
        StrandedIsBelow(tree, s0, m0, store, s, m, ti, ii, i, j, File);
        BelowNotEmpty(tree[ti].path, tree[i].path);
        FileOrLink(m, tree[ti].path, q, tree[i].path);
      }
    }
  }

  /** Nothing in the skipped run, nor an entry the index keeps, is stranded. */
  lemma KeptNotStranded(tree: seq<Entry>, s0: seq<Entry>, i: int, j: int, k: int, x: nat)
    requires IndexOk(s0) && x < |s0| && StrandedAt(tree, s0, i, j, k)
    ensures tree[k].path != s0[x].path
  {
    if tree[k].path == s0[x].path {
      assert HasDirectory(s0, tree[i].path);
      var y :| 0 <= y < |s0| && s0[y].path == tree[i].path && s0[y].kind == Directory;
      var z :| 0 <= z < |s0| && s0[z].path == tree[i].path && s0[z].kind != Directory;
      SortedDistinct(s0, y, z);
    }
  }

  lemma SkippedNotStranded(tree: seq<Entry>, s0: seq<Entry>, i: int, j: int, k: int, d: int, x: nat)
    requires IndexOk(s0) && SortedByPath(tree) && x < |s0|
    requires 0 <= d < k < |tree| && tree[d].path == s0[x].path && s0[x].kind != Directory
    requires forall y :: d < y <= k ==> Below(tree[y].path, tree[d].path)
    ensures !StrandedAt(tree, s0, i, j, k)
  {
    if !StrandedAt(tree, s0, i, j, k) { return; }
    AncestorsNested(tree[k].path, tree[i].path, tree[d].path);
    var z :| 0 <= z < |s0| && s0[z].path == tree[i].path && s0[z].kind != Directory;
    if tree[i].path == tree[d].path {
      SortedDistinct(tree, i, d);
    } else if Below(tree[i].path, tree[d].path) {
      assert HasDirectory(s0, s0[x].path);
      var y :| 0 <= y < |s0| && s0[y].path == s0[x].path && s0[y].kind == Directory;
      SortedDistinct(s0, x, y);
    } else {
      assert HasDirectory(s0, s0[z].path);
      var y :| 0 <= y < |s0| && s0[y].path == s0[z].path && s0[y].kind == Directory;
      SortedDistinct(s0, z, y);
    }
  }

  // ---------------------------------------------------------------- after the end of the index

  ghost predicate LostBefore(tree: seq<Entry>, s0: seq<Entry>, follow: string -> string, ti: int) {
    exists k :: k < ti && LostAt(tree, s0, follow, k)
  }

  /** Once an index entry has been removed through a link it stays away; until then all is settled. */
  ghost predicate Rest(tree: seq<Entry>, s0: seq<Entry>, m0: Nodes, store: map<Digest, string>, s: seq<Entry>, m: Nodes,
                       follow: string -> string, ti: int) {
    if LostBefore(tree, s0, follow, ti) then Missing(s0, m)
    else Inv(tree, s0, m0, store, s, m, ti, |s0|) && RunsSkipped(tree, s0, ti)
  }

  lemma StaysLost(tree: seq<Entry>, s0: seq<Entry>, follow: string -> string, m: Nodes, m': Nodes, ti: int)
    requires LostBefore(tree, s0, follow, ti) && Missing(s0, m) && m'.Keys <= m.Keys
    ensures LostBefore(tree, s0, follow, ti + 1) && Missing(s0, m')
  {
    hide LostAt;
    var k :| k < ti && LostAt(tree, s0, follow, k);
    var i :| 0 <= i < |s0| && s0[i].path !in m;
    assert s0[i].path !in m'.Keys;
  }

  lemma LostIsTail(tree: seq<Entry>, s0: seq<Entry>, follow: string -> string, ti: int)
    requires LostBefore(tree, s0, follow, ti)
    ensures LinkTail(tree, s0)
  {
    hide LinkTailAt, Hits;
  }

  lemma LinkIsTail(tree: seq<Entry>, s0: seq<Entry>, m0: Nodes, store: map<Digest, string>, s: seq<Entry>, m: Nodes,
                   ti: int)
    requires Premises(tree, s0, m0, store) && Inv(tree, s0, m0, store, s, m, ti, |s0|) && RunsSkipped(tree, s0, ti)
    requires ti < |tree| && LinkAbove(m, tree[ti].path)
    ensures LinkTailAt(tree, s0, ti)
  {
    hide Less, Below, StrandedAt, Holds, LinkAbove, Premises, RunsSkipped;
    var i, j := LinkIsStranded(tree, s0, m0, store, s, m, ti, |s0|);
  }

  lemma NoLinkNoTail(tree: seq<Entry>, s0: seq<Entry>, m0: Nodes, store: map<Digest, string>, s: seq<Entry>, m: Nodes,
                     ti: int)
    requires Premises(tree, s0, m0, store) && Inv(tree, s0, m0, store, s, m, ti, |s0|)
    requires ti < |tree| && !LinkAbove(m, tree[ti].path)
    ensures !LinkTailAt(tree, s0, ti)
  {
    hide Less, Below, Holds, Premises, Inv;
    if LinkTailAt(tree, s0, ti) {
      var i, j :| StrandedAt(tree, s0, i, j, ti) && Holds(s0, tree[i].path, Symlink);
      InvLength(tree, s0, m0, store, s, m, ti);
      StrandedIsBelow(tree, s0, m0, store, s, m, ti, |s0|, i, j, Symlink);
    }
  }

  lemma InvLength(tree: seq<Entry>, s0: seq<Entry>, m0: Nodes, store: map<Digest, string>, s: seq<Entry>, m: Nodes,
                  ti: int)
    requires Inv(tree, s0, m0, store, s, m, ti, |s0|)
    ensures |s| == |s0|
  {}

  /** Removing a listing entry with nothing but directories above it. */
  lemma StepRemove(tree: seq<Entry>, s0: seq<Entry>, m0: Nodes, store: map<Digest, string>, s: seq<Entry>, m: Nodes,
                   ti: int, ii: int)
    requires Premises(tree, s0, m0, store) && Inv(tree, s0, m0, store, s, m, ti, ii)
    requires ti < |tree| && (ii < |s| ==> Less(tree[ti].path, s0[ii].path))
    ensures Inv(tree, s0, m0, store, s, Without(m, tree[ti].path), ti + 1, ii)
  {
    hide Less, Below, Parent, Settled, Handled, Untouched, UnderIndex;
    NotInIndex(s0, ii, tree[ti].path);
    StepRemoveAll(tree, s0, m0, store, s, m, ti, ii, tree[ti].path);
  }

  lemma StepRemoveRest(tree: seq<Entry>, s0: seq<Entry>, m0: Nodes, store: map<Digest, string>, s: seq<Entry>, m: Nodes,
                       ti: int)
    requires Premises(tree, s0, m0, store) && Inv(tree, s0, m0, store, s, m, ti, |s0|) && RunsSkipped(tree, s0, ti)
    requires ti < |tree|
    ensures Inv(tree, s0, m0, store, s, Without(m, tree[ti].path), ti + 1, |s0|) && RunsSkipped(tree, s0, ti + 1)
  {
    hide Less, Below, Parent, Settled, Handled, Untouched, UnderIndex;
    StepRemove(tree, s0, m0, store, s, m, ti, |s0|);
    NotInIndex(s0, |s0|, tree[ti].path);
    RunEndsLater(tree, s0, ti, ti + 1);
  }

  /** Removing a listing entry through a link: either it takes an index entry away, or nothing but
      listing entries still to come. */
  lemma StepThrough(tree: seq<Entry>, s0: seq<Entry>, m0: Nodes, store: map<Digest, string>, s: seq<Entry>, m: Nodes,
                    follow: string -> string, ti: int)
    requires Premises(tree, s0, m0, store) && Inv(tree, s0, m0, store, s, m, ti, |s0|) && RunsSkipped(tree, s0, ti)
    requires ti < |tree| && LinkAbove(m, tree[ti].path) && LinkTailAt(tree, s0, ti) && !LostBefore(tree, s0, follow, ti)
    ensures Rest(tree, s0, m0, store, s, Without(m, follow(tree[ti].path)), follow, ti + 1)
    ensures !LostBefore(tree, s0, follow, ti + 1) && NoneStranded(tree, s0, ti) ==> NoneStranded(tree, s0, ti + 1)
  {
    hide Less, Below, Parent, Settled, Handled, Untouched, UnderIndex, LinkTailAt, RunsSkipped, NoneStranded, LinkAbove;
    hide StrandedAt;
    var q := follow(tree[ti].path);
    if Hits(s0, q) {
      var x :| 0 <= x < |s0| && (s0[x].path == q || Below(s0[x].path, q));
      assert s0[x].path !in Without(m, q);
      assert LostAt(tree, s0, follow, ti);
    } else {
      StepPass(tree, s0, m0, store, s, m, ti, |s0|);
      if NoneStranded(tree, s0, ti) { PassNotStranded(tree, s0, m0, store, s, m, ti, |s0|); }
      NotHit(tree, s0, m0, store, s, m, q, ti + 1);
      NotInIndex(s0, |s0|, tree[ti].path);
      RunEndsLater(tree, s0, ti, ti + 1);
    }
  }

  lemma NotHit(tree: seq<Entry>, s0: seq<Entry>, m0: Nodes, store: map<Digest, string>, s: seq<Entry>, m: Nodes,
               q: string, ti: int)
    requires Inv(tree, s0, m0, store, s, m, ti, |s0|) && !Hits(s0, q)
    ensures Inv(tree, s0, m0, store, s, Without(m, q), ti, |s0|)
  {
    hide Less, Below, Parent;
    var m' := Without(m, q);
    WithoutRooted(m, q);
    forall i | 0 <= i < |s0| ensures Settled(s[i], m', store, s0[i], m0) {
      assert SameButTime(s[i], s0[i]) && Settled(s[i], m, store, s0[i], m0);
    }
    forall p | p in m' && !Handled(s0, |s0|, p) ensures Untouched(tree, ti, m0, m', p) {
      assert Untouched(tree, ti, m0, m, p);
    }
  }

  // ---------------------------------------------------------------- the operation

  ghost predicate StoreComplete(s: seq<Entry>, store: map<Digest, string>) {
    forall i :: 0 <= i < |s| && s[i].kind == File ==> s[i].hash in store
  }

  lemma RemovedStaysRooted(m: Nodes, p: string)
    requires Rooted(m) && Valid(p) && p in m && m[p].kind != Directory && ParentReady(m, p)
    ensures Rooted(m - {p}) && ParentReady(m - {p}, p)
  {
    if Parent(p) != [] { ParentAbove(p); BelowLess(p, Parent(p)); }
  }

  lemma RemovedNotStranded(tree: seq<Entry>, s0: seq<Entry>, m0: Nodes, store: map<Digest, string>,
                           s: seq<Entry>, m: Nodes, ti: int, ii: int)
    requires Premises(tree, s0, m0, store) && Inv(tree, s0, m0, store, s, m, ti, ii)
    requires ti < |tree| && (ii < |s| ==> Less(tree[ti].path, s0[ii].path))
    requires NoneStranded(tree, s0, ti) && !Detached(m, tree[ti].path)
    ensures NoneStranded(tree, s0, ti + 1)
  {
    forall i, j, k | k < ti + 1 && StrandedAt(tree, s0, i, j, k)
      ensures !Holds(s0, tree[i].path, File)
    {
      if k == ti && Holds(s0, tree[i].path, File) {
        StrandedIsBelow(tree, s0, m0, store, s, m, ti, ii, i, j, File);
      }
    }
  }

  lemma NotADirectory(s0: seq<Entry>, ii: nat)
    requires SortedByPath(s0) && ii < |s0| && s0[ii].kind != Directory
    ensures !HasDirectory(s0, s0[ii].path)
  {
    if HasDirectory(s0, s0[ii].path) {
      var k :| 0 <= k < |s0| && s0[k].path == s0[ii].path && s0[k].kind == Directory;
      SortedDistinct(s0, k, ii);
    }
  }

  /** After a directory and the run below it: what is left on disk is handled or still to come. */
  lemma StepSkip(tree: seq<Entry>, s0: seq<Entry>, m0: Nodes, m1: Nodes, d: int, ti: int, ii: int)
    requires 0 <= d < ti <= |tree| && forall y :: d < y < ti ==> Below(tree[y].path, tree[d].path)
    requires forall q :: q in m1 ==> !Below(q, tree[d].path)
    requires forall q :: q in m1 ==> Handled(s0, ii, q) || Untouched(tree, d + 1, m0, m1, q)
    ensures forall q :: q in m1 ==> Handled(s0, ii, q) || Untouched(tree, ti, m0, m1, q)
  {
    forall q | q in m1 && !Handled(s0, ii, q)
      ensures Untouched(tree, ti, m0, m1, q)
    {
      var j :| 0 <= d + 1 <= j < |tree| && tree[j].path == q;
      assert ti <= j;
    }
  }

  lemma SkipKeepsRuns(tree: seq<Entry>, s0: seq<Entry>, d: int, ti: int, ii: nat)
    requires IndexOk(s0) && ii < |s0| && RunsSkipped(tree, s0, d)
    requires 0 <= d < ti <= |tree| && tree[d].path == s0[ii].path && s0[ii].kind != Directory
    requires forall y :: d < y < ti ==> Below(tree[y].path, tree[d].path)
    requires ti == |tree| || !Below(tree[ti].path, tree[d].path)
    ensures RunsSkipped(tree, s0, ti)
  {
    forall i | 0 <= i < ti && tree[i].kind == Directory && BecomesOther(s0, tree[i].path)
      ensures RunEnds(tree, i, ti)
    {
      if i < d {
        assert RunEnds(tree, i, d);
      } else if i == d {
        assert RunEndsAt(tree, d, ti);
      } else {
        var x :| 0 <= x < |s0| && s0[x].path == tree[i].path && s0[x].kind != Directory;
        assert Below(s0[x].path, s0[ii].path);
        assert HasDirectory(s0, s0[ii].path);
        var y :| 0 <= y < |s0| && s0[y].path == s0[ii].path && s0[y].kind == Directory;
        SortedDistinct(s0, y, ii);
      }
    }
  }

  lemma SkipStrandsNothing(tree: seq<Entry>, s0: seq<Entry>, d: int, ti: int, ii: nat)
    requires IndexOk(s0) && SortedByPath(tree) && ii < |s0|
    requires 0 <= d < ti <= |tree| && tree[d].path == s0[ii].path && s0[ii].kind != Directory
    requires forall y :: d < y < ti ==> Below(tree[y].path, tree[d].path)
    ensures NoneStranded(tree, s0, d) ==> NoneStranded(tree, s0, ti)
    ensures NoTail(tree, s0, d) ==> NoTail(tree, s0, ti)
  {
    forall i, j, k | d <= k < ti
      ensures !StrandedAt(tree, s0, i, j, k)
    {
      if k == d && StrandedAt(tree, s0, i, j, k) { KeptNotStranded(tree, s0, i, j, k, ii); }
      if k > d { SkippedNotStranded(tree, s0, i, j, k, d, ii); }
    }
  }

  lemma EqualKeepsRuns(tree: seq<Entry>, s0: seq<Entry>, ti: int, ii: nat)
    requires IndexOk(s0) && 0 <= ti < |tree| && ii < |s0| && tree[ti].path == s0[ii].path
    requires RunsSkipped(tree, s0, ti)
    requires tree[ti].kind == Directory ==> s0[ii].kind == Directory
    ensures RunsSkipped(tree, s0, ti + 1)
    ensures NoneStranded(tree, s0, ti) ==> NoneStranded(tree, s0, ti + 1)
    ensures NoTail(tree, s0, ti) ==> NoTail(tree, s0, ti + 1)
  {
    if tree[ti].kind == Directory && BecomesOther(s0, tree[ti].path) {
      var x :| 0 <= x < |s0| && s0[x].path == tree[ti].path && s0[x].kind != Directory;
      SortedDistinct(s0, x, ii);
    }
    RunEndsLater(tree, s0, ti, ti + 1);
    forall i, j ensures !StrandedAt(tree, s0, i, j, ti) {
      if StrandedAt(tree, s0, i, j, ti) { KeptNotStranded(tree, s0, i, j, ti, ii); }
    }
  }

  /** Before an entry in both lists is brought up to date. */
  lemma StepBoth(tree: seq<Entry>, s0: seq<Entry>, m0: Nodes, store: map<Digest, string>,
                 s: seq<Entry>, m: Nodes, ti: int, ii: int)
    requires Inv(tree, s0, m0, store, s, m, ti, ii)
    requires ti < |tree| && ii < |s0| && tree[ti].path == s0[ii].path
    ensures forall p :: p in m && p != s0[ii].path ==> Handled(s0, ii, p) || Untouched(tree, ti + 1, m0, m, p)
  {
    forall p | p in m && p != s0[ii].path && !Handled(s0, ii, p)
      ensures Untouched(tree, ti + 1, m0, m, p)
    {
      var j :| 0 <= ti <= j < |tree| && tree[j].path == p;
    }
  }

  /** The first listing entry after d that is not below it. */
  method SkipBelow(tree: seq<Entry>, d: int) returns (ti: int)
    requires 0 <= d < |tree|
    ensures RunEndsAt(tree, d, ti)
  {
    ti := d + 1;
    while ti < |tree| && Below(tree[ti].path, tree[d].path)
      invariant d < ti <= |tree|
      invariant forall y :: d < y < ti ==> Below(tree[y].path, tree[d].path)
    {
      ti := ti + 1;
    }
  }

  /** An entry that was not a file on disk. */
  lemma RealizedSettled(e: Entry, m: Nodes, store: map<Digest, string>, e0: Entry, m0: Nodes)
    requires Realized(e, m, store) && e0.path in m0 && m0[e0.path].kind == Directory && e0.kind != Directory
    ensures Settled(e, m, store, e0, m0)
  {}

  class Index {
    var inodes: seq<Entry>

    constructor (inodes: seq<Entry>)
      ensures this.inodes == inodes
    {
      this.inodes := inodes;
    }

    /** Makes the disk agree with one entry, then takes over the time the disk gave it. */
    method CheckoutNode(fs: Filesystem, store: map<Digest, string>, i: nat) returns (ok: bool)
      requires i < |inodes| && Valid(inodes[i].path) && EntryOk(inodes[i])
      requires Rooted(fs.nodes) && ParentReady(fs.nodes, inodes[i].path)
      requires inodes[i].path in fs.nodes ==>
                 fs.nodes[inodes[i].path].kind == inodes[i].kind && NodeOk(fs.nodes[inodes[i].path])
      modifies this, fs
      ensures ok == (old(inodes)[i].kind == File ==> old(inodes)[i].hash in store)
      ensures |inodes| == |old(inodes)| && SameButTime(inodes[i], old(inodes)[i])
      ensures ok ==> fs.nodes.Keys == old(fs.nodes).Keys + {inodes[i].path}
      ensures ok ==> forall q :: q in old(fs.nodes) && q != inodes[i].path ==> fs.nodes[q] == old(fs.nodes)[q]
      ensures ok ==> Realized(inodes[i], fs.nodes, store) && fs.nodes[inodes[i].path].mtime == inodes[i].mtime
      ensures forall j :: 0 <= j < |inodes| && j != i ==> inodes[j] == old(inodes)[j]
      ensures !ok ==> inodes == old(inodes) && Shrunk(old(fs.nodes), fs.nodes)
    {
      var e := inodes[i];
      var now: int, umask: nat := *, *;
      if e.kind != Directory { NothingBelow(fs.nodes, e.path); }
      match e.kind {
        case Symlink =>
          NotDetached(fs.nodes, e.path);
          ok := fs.Remove(e.path);
          ok := fs.CreateSymlink(e.target, e.path, now);
        case Directory =>
          ok := fs.CreateDirectory(e.path, umask, now);
          ok := fs.SetPermissions(e.path, e.perms);
        case File =>
          NotDetached(fs.nodes, e.path);
          ok := fs.Remove(e.path);
          if e.hash !in store { return false; }
          ok := fs.WriteFile(store[e.hash], e.path, umask, now);
          ok := fs.SetPermissions(e.path, e.perms);
      }
      var st := fs.nodes[e.path];
      inodes := inodes[i := e.(mtime := st.mtime, kind := st.kind, perms := st.perms)];
    }

    /** Removes an entry that is not a directory and creates it anew. */
    method Replace(fs: Filesystem, store: map<Digest, string>, i: nat) returns (ok: bool)
      requires i < |inodes| && Valid(inodes[i].path) && EntryOk(inodes[i])
      requires Rooted(fs.nodes) && ParentReady(fs.nodes, inodes[i].path)
      requires inodes[i].path in fs.nodes && fs.nodes[inodes[i].path].kind != Directory
      modifies this, fs
      ensures ok == (old(inodes)[i].kind == File ==> old(inodes)[i].hash in store)
      ensures |inodes| == |old(inodes)| && SameButTime(inodes[i], old(inodes)[i])
      ensures ok ==> fs.nodes.Keys == old(fs.nodes).Keys
      ensures ok ==> forall q :: q in old(fs.nodes) && q != inodes[i].path ==> fs.nodes[q] == old(fs.nodes)[q]
      ensures ok ==> Realized(inodes[i], fs.nodes, store)
      ensures forall j :: 0 <= j < |inodes| && j != i ==> inodes[j] == old(inodes)[j]
      ensures !ok ==> inodes == old(inodes) && Shrunk(old(fs.nodes), fs.nodes)
    {
      var p := inodes[i].path;
      NothingBelow(fs.nodes, p);
      NotDetached(fs.nodes, p);
      RemovedStaysRooted(fs.nodes, p);
      ok := fs.Remove(p);
      ok := CheckoutNode(fs, store, i);
    }

    /** Brings an entry of the right type up to date. */
    method Update(fs: Filesystem, store: map<Digest, string>, was: Entry, i: nat) returns (ok: bool)
      requires i < |inodes| && Valid(inodes[i].path) && EntryOk(inodes[i])
      requires Rooted(fs.nodes) && ParentReady(fs.nodes, inodes[i].path) && inodes[i].path in fs.nodes
      requires was.kind == inodes[i].kind && Lists(was, fs.nodes[inodes[i].path]) && NodeOk(fs.nodes[inodes[i].path])
      modifies this, fs
      ensures |inodes| == |old(inodes)| && SameButTime(inodes[i], old(inodes)[i])
      ensures ok == Available(old(inodes)[i], old(fs.nodes), store)
      ensures ok ==> fs.nodes.Keys == old(fs.nodes).Keys
      ensures ok ==> forall q :: q in old(fs.nodes) && q != inodes[i].path ==> fs.nodes[q] == old(fs.nodes)[q]
      ensures ok ==> Settled(inodes[i], fs.nodes, store, old(inodes)[i], old(fs.nodes))
      ensures forall j :: 0 <= j < |inodes| && j != i ==> inodes[j] == old(inodes)[j]
      ensures !ok ==> inodes == old(inodes) && Shrunk(old(fs.nodes), fs.nodes)
    {
      var p := inodes[i].path;
      ok := true;
      if was.mtime != inodes[i].mtime && inodes[i].kind != Directory {
        ok := CheckoutNode(fs, store, i);
        if !ok { return; }
        PutRooted(old(fs.nodes), fs.nodes, p);
      }
      if was.perms != inodes[i].perms {
        ok := fs.SetPermissions(p, inodes[i].perms);
      }
      if was.target != inodes[i].target {
        ok := Replace(fs, store, i);
      }
    }

    /** Brings an entry that is on disk up to date, whatever its type there. */
    method Amend(fs: Filesystem, store: map<Digest, string>, was: Entry, i: nat) returns (ok: bool)
      requires i < |inodes| && Valid(inodes[i].path) && EntryOk(inodes[i])
      requires Rooted(fs.nodes) && ParentReady(fs.nodes, inodes[i].path) && inodes[i].path in fs.nodes
      requires Lists(was, fs.nodes[inodes[i].path]) && NodeOk(fs.nodes[inodes[i].path])
      requires was.kind != inodes[i].kind ==> was.kind != Directory
      modifies this, fs
      ensures |inodes| == |old(inodes)| && SameButTime(inodes[i], old(inodes)[i])
      ensures ok == Available(old(inodes)[i], old(fs.nodes), store)
      ensures ok ==> fs.nodes.Keys == old(fs.nodes).Keys
      ensures ok ==> forall q :: q in old(fs.nodes) && q != inodes[i].path ==> fs.nodes[q] == old(fs.nodes)[q]
      ensures ok ==> Settled(inodes[i], fs.nodes, store, old(inodes)[i], old(fs.nodes))
      ensures forall j :: 0 <= j < |inodes| && j != i ==> inodes[j] == old(inodes)[j]
      ensures !ok ==> inodes == old(inodes) && Shrunk(old(fs.nodes), fs.nodes)
    {
      if was.kind != inodes[i].kind {
        ok := Replace(fs, store, i);
      } else {
        ok := Update(fs, store, was, i);
      }
    }

    /** An index entry that the listing passes over is created. */
    method CheckoutNew(fs: Filesystem, store: map<Digest, string>, tree: seq<Entry>, ti: int, ii: int,
                       ghost s0: seq<Entry>, ghost m0: Nodes) returns (ok: bool)
      requires Premises(tree, s0, m0, store) && Inv(tree, s0, m0, store, inodes, fs.nodes, ti, ii)
      requires ii < |inodes| && (ti < |tree| ==> Less(s0[ii].path, tree[ti].path))
      modifies this, fs
      ensures |inodes| == |s0| && forall i :: 0 <= i < |s0| ==> SameButTime(inodes[i], s0[i])
      ensures ok == Available(s0[ii], m0, store)
      ensures ok ==> Inv(tree, s0, m0, store, inodes, fs.nodes, ti, ii + 1)
      ensures !ok ==> inodes == old(inodes) && Shrunk(old(fs.nodes), fs.nodes)
    {
      AbsentOnDisk(tree, s0, m0, store, inodes, fs.nodes, ti, ii);
      ParentIsReady(s0, m0, inodes, ii, fs.nodes, store);
      ghost var s, m := inodes, fs.nodes;
      ok := CheckoutNode(fs, store, ii);
      if ok { StepPut(tree, s0, m0, store, s, m, ti, ii, ti, inodes, fs.nodes); }
    }

    /** A listing entry that the index passes over is removed, unless a link is above it. */
    method RemoveOld(fs: Filesystem, ghost store: map<Digest, string>, tree: seq<Entry>, ti: int, ii: int,
                     ghost s0: seq<Entry>, ghost m0: Nodes) returns (ok: bool)
      requires Premises(tree, s0, m0, store) && Inv(tree, s0, m0, store, inodes, fs.nodes, ti, ii)
      requires ti < |tree| && ii < |inodes| && Less(tree[ti].path, s0[ii].path)
      requires RunsSkipped(tree, s0, ti) && NoTail(tree, s0, ti) && (fs.strict ==> NoneStranded(tree, s0, ti))
      modifies fs
      ensures !ok ==> fs.strict && Stranded(tree, s0) && fs.nodes == old(fs.nodes)
      ensures ok ==>
                Inv(tree, s0, m0, store, inodes, fs.nodes, ti + 1, ii) && RunsSkipped(tree, s0, ti + 1) &&
                NoTail(tree, s0, ti + 1)
      ensures ok && fs.strict ==> NoneStranded(tree, s0, ti + 1)
    {
      hide Below, Parent, Settled, Stranded, StrandedAt, Handled, Untouched, UnderIndex, HasDirectory;
      NotInIndex(s0, ii, tree[ti].path);
      RunEndsLater(tree, s0, ti, ti + 1);
      LessAsymmetric(tree[ti].path, s0[ii].path);
      ok := true;
      ghost var m := fs.nodes;
      if LinkAbove(fs.nodes, tree[ti].path) {
        StepPass(tree, s0, m0, store, inodes, m, ti, ii);
        if fs.strict { PassNotStranded(tree, s0, m0, store, inodes, m, ti, ii); }
      } else {
        ok := fs.RemoveAll(tree[ti].path);
        if ok {
          StepRemove(tree, s0, m0, store, inodes, m, ti, ii);
          if fs.strict { RemovedNotStranded(tree, s0, m0, store, inodes, m, ti, ii); }
        } else {
          DetachedIsStranded(tree, s0, m0, store, inodes, m, ti, ii);
        }
      }
    }

    /** After the end of the index whatever the listing still has is removed, without looking for
        links above it. */
    method RemoveRest(fs: Filesystem, ghost store: map<Digest, string>, tree: seq<Entry>, ti: int,
                      ghost s0: seq<Entry>, ghost m0: Nodes) returns (ok: bool)
      requires Premises(tree, s0, m0, store) && Rest(tree, s0, m0, store, inodes, fs.nodes, fs.follow, ti)
      requires 0 <= ti < |tree| && (fs.strict && !LostBefore(tree, s0, fs.follow, ti) ==> NoneStranded(tree, s0, ti))
      modifies fs
      ensures var q := fs.Resolved(old(fs.nodes), tree[ti].path);
              && ok == !(fs.strict && Detached(old(fs.nodes), q))
              && fs.nodes == if ok then Without(old(fs.nodes), q) else old(fs.nodes)
      ensures !ok && !LinkTail(tree, s0) ==> fs.strict && Stranded(tree, s0)
      ensures Shrunk(old(fs.nodes), fs.nodes)
      ensures ok ==> Rest(tree, s0, m0, store, inodes, fs.nodes, fs.follow, ti + 1)
      ensures ok && fs.strict && !LostBefore(tree, s0, fs.follow, ti + 1) ==> NoneStranded(tree, s0, ti + 1)
    {
      hide Less, Below, Parent, Stranded, Inv, Premises, RunsSkipped, NoneStranded, LinkTailAt, Detached, LinkAbove;
      hide Hits;
      ghost var m := fs.nodes;
      var p := tree[ti].path;
      ok := fs.RemoveAll(p);
      if LostBefore(tree, s0, fs.follow, ti) {
        LostIsTail(tree, s0, fs.follow, ti);
        StaysLost(tree, s0, fs.follow, m, fs.nodes, ti);
      } else if LinkAbove(m, p) {
        LinkIsTail(tree, s0, m0, store, inodes, m, ti);
        if ok { StepThrough(tree, s0, m0, store, inodes, m, fs.follow, ti); }
      } else {
        NoLinkNoTail(tree, s0, m0, store, inodes, m, ti);
        InvLength(tree, s0, m0, store, inodes, m, ti);
        if ok {
          StepRemoveRest(tree, s0, m0, store, inodes, m, ti);
          if fs.strict { RemovedNotStranded(tree, s0, m0, store, inodes, m, ti, |s0|); }
        } else {
          DetachedIsStranded(tree, s0, m0, store, inodes, m, ti, |s0|);
        }
      }
    }

    /** A directory that the index holds as something else is replaced, and the run of listing
        entries below it is skipped. */
    method ReplaceDirectory(fs: Filesystem, store: map<Digest, string>, tree: seq<Entry>, d: int, ii: int,
                            ghost s0: seq<Entry>, ghost m0: Nodes) returns (ok: bool, ti: int)
      requires Premises(tree, s0, m0, store) && Inv(tree, s0, m0, store, inodes, fs.nodes, d, ii)
      requires d < |tree| && ii < |inodes| && tree[d].path == s0[ii].path
      requires tree[d].kind == Directory && s0[ii].kind != Directory
      requires RunsSkipped(tree, s0, d) && NoTail(tree, s0, d) && (fs.strict ==> NoneStranded(tree, s0, d))
      modifies this, fs
      ensures |inodes| == |s0| && forall i :: 0 <= i < |s0| ==> SameButTime(inodes[i], s0[i])
      ensures ok == Available(s0[ii], m0, store) && ti > d
      ensures !ok ==> inodes == old(inodes) && Shrunk(old(fs.nodes), fs.nodes)
      ensures ok ==>
                Inv(tree, s0, m0, store, inodes, fs.nodes, ti, ii + 1) && RunsSkipped(tree, s0, ti) &&
                NoTail(tree, s0, ti)
      ensures ok && fs.strict ==> NoneStranded(tree, s0, ti)
    {
      hide NoTail, NoneStranded, RunsSkipped, LinkAbove, Below, Less, SortedByPath, Parent, HasDirectory, Handled;
      hide Untouched, UnderIndex, Settled;
      PresentOnDisk(tree, s0, m0, store, inodes, fs.nodes, d, ii);
      ParentIsReady(s0, m0, inodes, ii, fs.nodes, store);
      NotDetached(fs.nodes, inodes[ii].path);
      ghost var s, m := inodes, fs.nodes;
      ok := fs.RemoveAll(tree[d].path);
      NotADirectory(s0, ii);
      StepRemoveAll(tree, s0, m0, store, s, m, d, ii, tree[d].path);
      ghost var m1 := fs.nodes;
      ti := SkipBelow(tree, d);
      ParentIsReady(s0, m0, inodes, ii, fs.nodes, store);
      StepSkip(tree, s0, m0, m1, d, ti, ii);
      SkipKeepsRuns(tree, s0, d, ti, ii);
      SkipStrandsNothing(tree, s0, d, ti, ii);
      SkipBehind(tree, s0, d, ti, ii);
      ok := CheckoutNode(fs, store, ii);
      if ok {
        RealizedSettled(inodes[ii], fs.nodes, store, s0[ii], m0);
        StepPut(tree, s0, m0, store, s, m1, d + 1, ii, ti, inodes, fs.nodes);
      }
    }

    /** An entry in both lists, which is not a directory about to be replaced. */
    method CheckoutBoth(fs: Filesystem, store: map<Digest, string>, tree: seq<Entry>, ti: int, ii: int,
                        ghost s0: seq<Entry>, ghost m0: Nodes) returns (ok: bool)
      requires Premises(tree, s0, m0, store) && Inv(tree, s0, m0, store, inodes, fs.nodes, ti, ii)
      requires ti < |tree| && ii < |inodes| && tree[ti].path == s0[ii].path
      requires tree[ti].kind == Directory ==> s0[ii].kind == Directory
      modifies this, fs
      ensures |inodes| == |s0| && forall i :: 0 <= i < |s0| ==> SameButTime(inodes[i], s0[i])
      ensures ok == Available(s0[ii], m0, store)
      ensures ok ==> Inv(tree, s0, m0, store, inodes, fs.nodes, ti + 1, ii + 1)
      ensures !ok ==> inodes == old(inodes) && Shrunk(old(fs.nodes), fs.nodes)
    {
      hide Below, Less, Stranded, SortedByPath, Parent, Handled, Untouched, UnderIndex, HasDirectory;
      PresentOnDisk(tree, s0, m0, store, inodes, fs.nodes, ti, ii);
      ParentIsReady(s0, m0, inodes, ii, fs.nodes, store);
      StepBoth(tree, s0, m0, store, inodes, fs.nodes, ti, ii);
      ghost var s, m := inodes, fs.nodes;
      ok := Amend(fs, store, tree[ti], ii);
      if ok {
        BothBehind(tree, s0, ti, ii);
        StepPut(tree, s0, m0, store, s, m, ti, ii, ti + 1, inodes, fs.nodes);
      }
    }

    /** One turn of the merge where both lists hold the path. */
    method StepSame(fs: Filesystem, store: map<Digest, string>, tree: seq<Entry>, ti: int, ii: int,
                    ghost s0: seq<Entry>, ghost m0: Nodes) returns (ok: bool, ti': int, ii': int)
      requires Premises(tree, s0, m0, store) && Inv(tree, s0, m0, store, inodes, fs.nodes, ti, ii)
      requires RunsSkipped(tree, s0, ti) && NoTail(tree, s0, ti) && (fs.strict ==> NoneStranded(tree, s0, ti))
      requires ti < |tree| && ii < |inodes| && tree[ti].path == inodes[ii].path
      modifies this, fs
      ensures |inodes| == |s0| && forall i :: 0 <= i < |s0| ==> SameButTime(inodes[i], s0[i])
      ensures !ok ==> !AllAvailable(s0, m0, store) || (fs.strict && Stranded(tree, s0))
      ensures !ok ==> inodes == old(inodes) && Shrunk(old(fs.nodes), fs.nodes)
      ensures ok ==>
                Inv(tree, s0, m0, store, inodes, fs.nodes, ti', ii') && RunsSkipped(tree, s0, ti') &&
                NoTail(tree, s0, ti')
      ensures ok && fs.strict ==> NoneStranded(tree, s0, ti')
      ensures ok ==> ti <= ti' && ii <= ii' && ti + ii < ti' + ii'
    {
      ti', ii' := ti + 1, ii + 1;
      if tree[ti].kind != inodes[ii].kind && tree[ti].kind == Directory {
        ok, ti' := ReplaceDirectory(fs, store, tree, ti, ii, s0, m0);
      } else {
        EqualKeepsRuns(tree, s0, ti, ii);
        ok := CheckoutBoth(fs, store, tree, ti, ii, s0, m0);
      }
    }

    /** One turn of the merge. */
    method Step(fs: Filesystem, store: map<Digest, string>, tree: seq<Entry>, ti: int, ii: int,
                ghost s0: seq<Entry>, ghost m0: Nodes) returns (ok: bool, ti': int, ii': int)
      requires Premises(tree, s0, m0, store) && Inv(tree, s0, m0, store, inodes, fs.nodes, ti, ii)
      requires RunsSkipped(tree, s0, ti) && NoTail(tree, s0, ti) && (fs.strict ==> NoneStranded(tree, s0, ti))
      requires ii < |inodes|
      modifies this, fs
      ensures |inodes| == |s0| && forall i :: 0 <= i < |s0| ==> SameButTime(inodes[i], s0[i])
      ensures !ok ==> !AllAvailable(s0, m0, store) || (fs.strict && Stranded(tree, s0))
      ensures !ok ==> inodes == old(inodes) && Shrunk(old(fs.nodes), fs.nodes)
      ensures ok ==>
                Inv(tree, s0, m0, store, inodes, fs.nodes, ti', ii') && RunsSkipped(tree, s0, ti') &&
                NoTail(tree, s0, ti')
      ensures ok && fs.strict ==> NoneStranded(tree, s0, ti')
      ensures ok ==> ti <= ti' && ii <= ii' && ti + ii < ti' + ii'
    {
      hide NoneStranded, RunsSkipped, NoTail, Premises, Below, Less;
      ti', ii' := ti, ii;
      if ti == |tree| || Less(inodes[ii].path, tree[ti].path) {
        ok := CheckoutNew(fs, store, tree, ti, ii, s0, m0);
        ii' := ii + 1;
      } else if Less(tree[ti].path, inodes[ii].path) {
        ok := RemoveOld(fs, store, tree, ti, ii, s0, m0);
        ti' := ti + 1;
      } else {
        LessTotal(tree[ti].path, inodes[ii].path);
        ok, ti', ii' := StepSame(fs, store, tree, ti, ii, s0, m0);
      }
    }

    /** Makes the disk agree with the whole index.  When it succeeds every entry is settled and nothing
        else is on disk, unless something of the index was lost through a link.  If nothing is to be
        removed through a link, it succeeds exactly when the cache holds every file that is not kept and
        nothing is stranded on a strict file system; on any other the cache decides even so.  Whether it
        succeeds or not, each path on disk is as it was or as the index wants it. */
    method Checkout(fs: Filesystem, store: map<Digest, string>, tree: seq<Entry>) returns (ok: bool)
      requires Premises(tree, inodes, fs.nodes, store)
      modifies this, fs
      ensures |inodes| == |old(inodes)| && forall i :: 0 <= i < |inodes| ==> SameButTime(inodes[i], old(inodes)[i])
      ensures ok ==> if Lost(tree, old(inodes), fs.follow) then Missing(old(inodes), fs.nodes)
                     else CheckedOut(inodes, fs.nodes, store, old(inodes), old(fs.nodes))
      ensures ok ==> (Converged(inodes, fs.nodes, store) <==>
                      TimesTellContent(old(inodes), old(fs.nodes), store) && !Lost(tree, old(inodes), fs.follow))
      ensures ok ==> AllAvailable(old(inodes), old(fs.nodes), store)
      ensures Partial(inodes, fs.nodes, store, old(inodes), old(fs.nodes))
      ensures !LinkTail(tree, old(inodes)) ==>
                ok == (AllAvailable(old(inodes), old(fs.nodes), store) && !(fs.strict && Stranded(tree, old(inodes))))
      ensures !fs.strict ==> ok == AllAvailable(old(inodes), old(fs.nodes), store)
    {
      hide Lost, LostAt, LinkTail, Inv, Premises, RunsSkipped, NoneStranded, NoTail, Stranded, Missing, CheckedOut;
      hide Converged, TimesTellContent, AllAvailable, Partial, Shrunk;
      ghost var s0, m0 := inodes, fs.nodes;
      var ti, ii := 0, 0;
      InitialInv(tree, s0, m0, store);
      while ii < |inodes|
        invariant |inodes| == |s0| && (forall i :: 0 <= i < |inodes| ==> SameButTime(inodes[i], s0[i]))
        invariant 0 <= ti <= |tree| && 0 <= ii <= |s0|
        invariant Inv(tree, s0, m0, store, inodes, fs.nodes, ti, ii)
        invariant RunsSkipped(tree, s0, ti) && NoTail(tree, s0, ti)
        invariant fs.strict ==> NoneStranded(tree, s0, ti)
        decreases |tree| - ti + |inodes| - ii
      {
        InvPartial(tree, s0, m0, store, inodes, fs.nodes, ti, ii);
        ghost var m := fs.nodes;
        ok, ti, ii := Step(fs, store, tree, ti, ii, s0, m0);
        if !ok {
          ShrunkPartial(inodes, m, fs.nodes, store, s0, m0);
          return;
        }
        InvBounds(tree, s0, m0, store, inodes, fs.nodes, ti, ii);
      }
      NothingLost(tree, s0, fs.follow, ti);
      WereAvailable(tree, s0, m0, store, inodes, fs.nodes, ti);
      InvPartial(tree, s0, m0, store, inodes, fs.nodes, ti, ii);
      ghost var s := inodes;
      while ti < |tree|
        invariant Partial(inodes, fs.nodes, store, s0, m0)
        invariant 0 <= ti <= |tree| && inodes == s && Rest(tree, s0, m0, store, inodes, fs.nodes, fs.follow, ti)
        invariant fs.strict && !LostBefore(tree, s0, fs.follow, ti) ==> NoneStranded(tree, s0, ti)
      {
        ghost var m := fs.nodes;
        ok := RemoveRest(fs, store, tree, ti, s0, m0);
        ShrunkPartial(inodes, m, fs.nodes, store, s0, m0);
        if !ok { return; }
        ti := ti + 1;
      }
      FinalRest(tree, s0, m0, store, inodes, fs.nodes, fs.follow);
      return true;
    }
  }

  lemma InvBounds(tree: seq<Entry>, s0: seq<Entry>, m0: Nodes, store: map<Digest, string>, s: seq<Entry>, m: Nodes,
                  ti: int, ii: int)
    requires Inv(tree, s0, m0, store, s, m, ti, ii)
    ensures 0 <= ti <= |tree| && 0 <= ii <= |s0|
  {}

  lemma InvPartial(tree: seq<Entry>, s0: seq<Entry>, m0: Nodes, store: map<Digest, string>, s: seq<Entry>, m: Nodes,
                   ti: int, ii: int)
    requires Inv(tree, s0, m0, store, s, m, ti, ii)
    ensures Partial(s, m, store, s0, m0)
  {
    hide Less, Below, Settled, UnderIndex, Behind;
    forall p | p in m && !(p in m0 && m[p] == m0[p])
      ensures exists i :: 0 <= i < |s0| && s0[i].path == p && Settled(s[i], m, store, s0[i], m0)
    {
      assert Handled(s0, ii, p);
      var i :| 0 <= i < ii && i < |s0| && s0[i].path == p;
      assert Settled(s[i], m, store, s0[i], m0);
    }
  }

  lemma ShrunkPartial(s: seq<Entry>, was: Nodes, m: Nodes, store: map<Digest, string>, s0: seq<Entry>, m0: Nodes)
    requires Partial(s, was, store, s0, m0) && Shrunk(was, m)
    requires forall i :: 0 <= i < |s0| && |s| == |s0| ==> SameButTime(s[i], s0[i])
    ensures Partial(s, m, store, s0, m0)
  {
    forall p | p in m && !(p in m0 && m[p] == m0[p])
      ensures exists i :: 0 <= i < |s0| && s0[i].path == p && Settled(s[i], m, store, s0[i], m0)
    {
      var i :| 0 <= i < |s0| && s0[i].path == p && Settled(s[i], was, store, s0[i], m0);
      assert SameButTime(s[i], s0[i]) && Settled(s[i], m, store, s0[i], m0);
    }
  }

  /** Whatever has been settled was available. */
  lemma WereAvailable(tree: seq<Entry>, s0: seq<Entry>, m0: Nodes, store: map<Digest, string>, s: seq<Entry>,
                      m: Nodes, ti: int)
    requires Inv(tree, s0, m0, store, s, m, ti, |s0|)
    ensures AllAvailable(s0, m0, store)
  {
    hide Less, Below, Handled, Untouched, UnderIndex, Behind;
    forall i | 0 <= i < |s0| ensures Available(s0[i], m0, store) {
      assert Settled(s[i], m, store, s0[i], m0) && SameButTime(s[i], s0[i]);
    }
  }

  /** A cache with all files of the index is enough, whatever is on disk. */
  lemma CompleteIsEnough(s: seq<Entry>, m: Nodes, store: map<Digest, string>)
    requires StoreComplete(s, store)
    ensures AllAvailable(s, m, store)
  {}

  lemma NothingLost(tree: seq<Entry>, s0: seq<Entry>, follow: string -> string, ti: int)
    requires NoTail(tree, s0, ti)
    ensures !LostBefore(tree, s0, follow, ti)
  {}

  lemma FinalRest(tree: seq<Entry>, s0: seq<Entry>, m0: Nodes, store: map<Digest, string>, s: seq<Entry>, m: Nodes,
                  follow: string -> string)
    requires Rest(tree, s0, m0, store, s, m, follow, |tree|) && |s| == |s0|
    requires forall i :: 0 <= i < |s0| ==> SameButTime(s[i], s0[i])
    ensures if Lost(tree, s0, follow) then Missing(s0, m) else CheckedOut(s, m, store, s0, m0)
    ensures Converged(s, m, store) <==> TimesTellContent(s0, m0, store) && !Lost(tree, s0, follow)
    ensures LostBefore(tree, s0, follow, |tree|) ==> LinkTail(tree, s0)
    ensures NoneStranded(tree, s0, |tree|) ==> !Stranded(tree, s0)
  {
    hide Inv, CheckedOut, Less, Below, Settled, Realized;
    if Lost(tree, s0, follow) {
      var k :| LostAt(tree, s0, follow, k);
      assert LostBefore(tree, s0, follow, |tree|);
      var i :| 0 <= i < |s0| && s0[i].path !in m;
      assert SameButTime(s[i], s0[i]);
      if Converged(s, m, store) { RealizedThere(s[i], m, store); }
    } else {
      assert !LostBefore(tree, s0, follow, |tree|);
      FinalInv(tree, s0, m0, store, s, m);
      ConvergedIff(s, m, store, s0, m0);
    }
  }

  lemma RealizedThere(e: Entry, m: Nodes, store: map<Digest, string>)
    requires Realized(e, m, store)
    ensures e.path in m
  {}

  lemma InitialInv(tree: seq<Entry>, s0: seq<Entry>, m0: Nodes, store: map<Digest, string>)
    requires Premises(tree, s0, m0, store)
    ensures Inv(tree, s0, m0, store, s0, m0, 0, 0)
    ensures RunsSkipped(tree, s0, 0) && NoneStranded(tree, s0, 0) && NoTail(tree, s0, 0)
  {}

  lemma FinalInv(tree: seq<Entry>, s0: seq<Entry>, m0: Nodes, store: map<Digest, string>, s: seq<Entry>, m: Nodes)
    requires Inv(tree, s0, m0, store, s, m, |tree|, |s0|)
    ensures CheckedOut(s, m, store, s0, m0)
    ensures NoneStranded(tree, s0, |tree|) ==> !Stranded(tree, s0)
  {
    forall p | p in m
      ensures exists i :: 0 <= i < |s| && s[i].path == p
    {
      assert Handled(s0, |s0|, p);
      var i :| 0 <= i < |s0| && s0[i].path == p;
      assert SameButTime(s[i], s0[i]);
    }
  }

  /** The disk is exactly the index when the kept files were up to date, and only then. */
  lemma ConvergedIff(s: seq<Entry>, m: Nodes, store: map<Digest, string>, s0: seq<Entry>, m0: Nodes)
    requires CheckedOut(s, m, store, s0, m0) && forall i :: 0 <= i < |s0| ==> SameButTime(s[i], s0[i])
    ensures Converged(s, m, store) <==> TimesTellContent(s0, m0, store)
  {
    forall i | 0 <= i < |s|
      ensures Realized(s[i], m, store) <==>
                (Kept(s0[i], m0) ==> s0[i].hash in store && m0[s0[i].path].content == store[s0[i].hash])
    {
      assert Settled(s[i], m, store, s0[i], m0) && SameButTime(s[i], s0[i]);
    }
  }

  lemma NothingBelow(m: Nodes, p: string)
    requires Rooted(m) && p != [] && (p in m ==> m[p].kind != Directory)
    ensures forall q :: q in m ==> !Below(q, p)
  {}

  lemma NotDetached(m: Nodes, p: string)
    requires Rooted(m) && Valid(p) && ParentReady(m, p)
    ensures !Detached(m, p) && !LinkAbove(m, p)
  {
    forall q | q in m && Below(p, q)
      ensures m[q].kind == Directory
    {
      BelowNotEmpty(p, q);
      AboveParent(p, q);
      if q != Parent(p) { assert Below(Parent(p), q); }
    }
  }

  // ---------------------------------------------------------------- a workspace that strict removal cannot convert

  function Sample(path: string, kind: Kind): Entry { Entry(path, kind, 0, 0, "", EMPTY) }

  function SampleNode(kind: Kind): Node { Node(kind, 0, 0, "", "") }

  lemma SampleOrder()
    ensures Less("a", "a.b") && Less("a", "a/x") && Less("a.b", "a/x")
    ensures Below("a/x", "a") && !Below("a.b", "a") && !Below("a", "a")
    ensures forall q :: Below("a/x", q) && q != "" ==> q == "a"
    ensures forall q :: !(Below("a.b", q)) && !(Below("a", q))
  {
    assert "a.b"[1..] == ".b" && "a/x"[1..] == "/x" && "a"[1..] == "";
    assert "a" + "/" == "a/" && "a/x"[..2] == "a/";
    forall q | Below("a/x", q) && q != "" ensures q == "a" { assert q == "a/x"[..|q|] && "a/x"[|q|] == (q + "/")[|q|]; }
    forall q ensures !Below("a.b", q) && !Below("a", q) {
      if Below("a.b", q) { SlashAfter("a.b", q); }
      if Below("a", q) { SlashAfter("a", q); }
    }
  }

  /** The directory `a` becomes a file: `a/x` comes after `a.b` in the listing, so it is not skipped
      with the directory, and removing it below the new file is an error on a strict file system. */
  lemma StrandedExample()
    ensures var tree := [Sample("a", Directory), Sample("a.b", File), Sample("a/x", File)];
            var index := [Sample("a", File), Sample("a.b", File)];
            var disk := map["a" := SampleNode(Directory), "a.b" := SampleNode(File), "a/x" := SampleNode(File)];
            Premises(tree, index, disk, map[EMPTY := ""]) && Stranded(tree, index)
  {
    var tree := [Sample("a", Directory), Sample("a.b", File), Sample("a/x", File)];
    var index := [Sample("a", File), Sample("a.b", File)];
    var disk := map["a" := SampleNode(Directory), "a.b" := SampleNode(File), "a/x" := SampleNode(File)];
    SampleOrder();
    hide Less, Below;
    assert SortedByPath(tree) && SortedByPath(index);
    forall p | p in disk ensures exists i :: 0 <= i < |tree| && tree[i].path == p {
      assert tree[0].path == "a" && tree[1].path == "a.b" && tree[2].path == "a/x";
    }
    assert ListingOf(tree, disk);
    assert BecomesOther(index, "a") by { assert index[0].path == "a"; }
    assert StrandedAt(tree, index, 0, 1, 2);
  }

  lemma LinkOrder()
    ensures Less("0", "0/x") && Less("0/x", "d") && Less("d", "d.b") && Less("d.b", "d/x")
    ensures Below("0/x", "0") && Below("d/x", "d") && !Below("d.b", "d")
    ensures forall q :: Below("0/x", q) ==> q == "0"
    ensures forall q :: Below("d/x", q) ==> q == "d"
    ensures forall q :: !Below("0", q) && !Below("d", q) && !Below("d.b", q)
  {
    assert "0/x"[1..] == "/x" && "d"[1..] == "" && "d.b"[1..] == ".b" && "d/x"[1..] == "/x" && "0"[1..] == "";
    assert "0" + "/" == "0/" && "0/x"[..2] == "0/" && "d" + "/" == "d/" && "d/x"[..2] == "d/";
    forall q | Below("0/x", q) ensures q == "0" {
      BelowNotEmpty("0/x", q);
      assert q == "0/x"[..|q|] && "0/x"[|q|] == (q + "/")[|q|];
    }
    forall q | Below("d/x", q) ensures q == "d" {
      BelowNotEmpty("d/x", q);
      assert q == "d/x"[..|q|] && "d/x"[|q|] == (q + "/")[|q|];
    }
    forall q ensures !Below("0", q) && !Below("d", q) && !Below("d.b", q) {
      if Below("0", q) { SlashAfter("0", q); }
      if Below("d", q) { SlashAfter("d", q); }
      if Below("d.b", q) { SlashAfter("d.b", q); }
    }
  }

  const LOST_TREE: seq<Entry> :=
    [Sample("0", Directory), Sample("0/x", File), Sample("d", Directory), Sample("d.b", File), Sample("d/x", File)]

  const LOST_INDEX: seq<Entry> := [Sample("0", Directory), Sample("0/x", File),
      Entry("d", Symlink, LINK_PERMS, 0, "0", EMPTY)]

  const LOST_DISK: Nodes := map["0" := SampleNode(Directory), "0/x" := SampleNode(File), "d" := SampleNode(Directory),
                                "d.b" := SampleNode(File), "d/x" := SampleNode(File)]

  lemma LostSorted()
    ensures SortedByPath(LOST_TREE) && SortedByPath(LOST_INDEX)
    ensures forall x :: 0 <= x < |LOST_INDEX| ==> Less(LOST_INDEX[x].path, "d/x")
  {
    LinkOrder();
    LessTransitive("0", "0/x", "d");
    LessTransitive("0", "d", "d.b");
    LessTransitive("0", "d", "d/x");
    LessTransitive("0/x", "d", "d.b");
    LessTransitive("0/x", "d", "d/x");
    LessTransitive("d", "d.b", "d/x");
    hide Less, Below;
  }

  lemma LostListing()
    ensures ListingOf(LOST_TREE, LOST_DISK)
  {
    hide Less, SortedByPath;
    LostSorted();
    var tree := LOST_TREE;
    forall p | p in LOST_DISK ensures exists i :: 0 <= i < |LOST_TREE| && LOST_TREE[i].path == p {
      assert tree[0].path == "0" && tree[1].path == "0/x" && tree[2].path == "d" && tree[3].path == "d.b" &&
               tree[4].path == "d/x";
    }
  }

  lemma LostRooted()
    ensures Rooted(LOST_DISK) && forall p :: p in LOST_DISK ==> Valid(p) && NodeOk(LOST_DISK[p])
  {
    LinkOrder();
    hide Less, Below;
  }

  lemma LostIndexOk()
    ensures IndexOk(LOST_INDEX)
  {
    hide Less, SortedByPath;
    LostSorted();
    LinkOrder();
    hide Below;
    assert HasDirectory(LOST_INDEX, "0") by { assert LOST_INDEX[0].path == "0"; }
  }

  /** The directory `d` becomes a link to the directory `0`, and the index ends there: `d/x` comes after
      `d.b` in the listing, and removing it removes `0/x`, which the index holds. */
  lemma LostExample(follow: string -> string)
    requires follow("d/x") == "0/x"
    ensures Premises(LOST_TREE, LOST_INDEX, LOST_DISK, map[EMPTY := ""]) && Lost(LOST_TREE, LOST_INDEX, follow)
  {
    hide Less, Below, ListingOf, Rooted, IndexOk, NodeOk, Valid;
    LostSorted();
    LostListing();
    LostRooted();
    LostIndexOk();
    LinkOrder();
    var tree, index := LOST_TREE, LOST_INDEX;
    assert BecomesOther(index, "d") && Holds(index, "d", Symlink) by { assert index[2].path == "d"; }
    assert StrandedAt(tree, index, 2, 3, 4);
    assert index[1].path == follow(tree[4].path);
    assert LostAt(tree, index, follow, 4);
  }
}
