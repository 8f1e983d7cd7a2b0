/** sorted_directory_iterator: reads a directory tree in any order, sorts what it finds and takes out
    what is ignored. */
module Scan {
  import opened Paths
  import opened Entries
  import opened Inodes
  import opened CacheAdd
  import Checkout
  import GlobList

  // ---------------------------------------------------------------- reading

  /** An entry that read_directory passes over, with everything below it. */
  predicate Skipped(disk: Checkout.Nodes, ignores: GlobList.GlobList, p: string)
    requires p in disk
    reads ignores
  {
    Name(p) == ".fstree" || (disk[p].kind == Directory && ignores.Match(p))
  }

  /** Neither the entry nor a directory above it is passed over. */
  predicate Seen(disk: Checkout.Nodes, ignores: GlobList.GlobList, p: string)
    reads ignores
    decreases |p|
  {
    p in disk && !Skipped(disk, ignores, p) &&
        (Parent(p) == "" || (|Parent(p)| < |p| && Seen(disk, ignores, Parent(p))))
  }

  /** What a scan gets to see, in terms of the disk alone: nothing at or above p is called `.fstree` or is a
      directory that matches. */
  ghost predicate Reached(disk: Checkout.Nodes, ignores: GlobList.GlobList, p: string)
    reads ignores
  {
    p in disk && forall q :: q in disk && (q == p || Below(p, q)) ==>
      Name(q) != ".fstree" && !(disk[q].kind == Directory && ignores.Match(q))
  }

  lemma {:induction false} SeenIsReached(disk: Checkout.Nodes, ignores: GlobList.GlobList, p: string)
    requires Checkout.Rooted(disk) && forall q :: q in disk ==> Valid(q)
    ensures Seen(disk, ignores, p) <==> Reached(disk, ignores, p)
    decreases |p|
  {
    hide GlobList.GlobList.Match, Parent, Name, Valid;
    if p in disk {
      if Parent(p) == "" {
        forall q | Below(p, q) ensures false { Checkout.BelowNotEmpty(p, q); }
      } else {
        ParentAbove(p);
        BelowLess(p, Parent(p));
        SeenIsReached(disk, ignores, Parent(p));
        forall q | q in disk && Below(p, q) ensures q == Parent(p) || Below(Parent(p), q) { AboveParent(p, q); }
        forall q | Below(Parent(p), q) ensures Below(p, q) { BelowTransitive(p, Parent(p), q); }
      }
    }
  }

  ghost predicate ParentRead(found: seq<Inode>, root: Inode, n: Inode) {
    && n.parent != null
    && if Parent(n.path) == "" then n.parent == root
       else n.parent in found && n.parent.kind == Directory && n.parent.path == Parent(n.path)
  }

  ghost predicate ChildrenRead(found: seq<Inode>, children: seq<Inode>, p: string) {
    && DistinctPaths(children)
    && (forall c | c in children :: c in found && Parent(c.path) == p)
    && (forall c | c in found && Parent(c.path) == p :: c in children)
  }

  /** The inodes alone, without their lists of children. */
  ghost predicate Entered(found: seq<Inode>, root: Inode) {
    && root.parent == null && root.Linked() && root !in found && DistinctPaths(found)
    && forall n | n in found :: n.Linked() && Valid(n.path) && ParentRead(found, root, n)
  }

  /** What read_directory leaves: each entry is in the list and a child of its directory. */
  ghost predicate Read(found: seq<Inode>, root: Inode)
    reads root`children, (set n | n in found)`children
  {
    && Entered(found, root) && ChildrenRead(found, root.children, "")
    && forall n | n in found && n.kind == Directory :: ChildrenRead(found, n.children, n.path)
  }

  ghost predicate Unmarked(found: seq<Inode>, root: Inode)
    reads root`unignored, (set n | n in found)`ignored, (set n | n in found)`unignored
  {
    !root.unignored && forall n | n in found :: !n.ignored && !n.unignored
  }

  /** The inode says what is on disk. */
  predicate Shows(disk: Checkout.Nodes, n: Inode)
    reads n`hash
  {
    n.path in disk && n.hash == EMPTY && Checkout.Lists(Line(n), disk[n.path])
  }

  /** The directory that an entry is read from. */
  ghost predicate DirectoryOf(found: seq<Inode>, root: Inode, p: string, d: Inode) {
    d.Linked() && if Parent(p) == "" then d == root else d in found && d.kind == Directory && d.path == Parent(p)
  }

  ghost predicate Closed(done: set<string>) { forall p | p in done && Parent(p) != "" :: Parent(p) in done }

  /** Every entry of an opened directory has been or will be dealt with. */
  ghost predicate Opened(disk: Checkout.Nodes, found: seq<Inode>, met: set<string>) {
    && (forall p | p in disk && Parent(p) == "" :: p in met)
    && (forall n, p | n in found && n.kind == Directory && p in disk && Parent(p) == n.path :: p in met)
  }

  /** The entries whose directory has been opened and that have not been read yet, with that directory. */
  ghost predicate Pending(disk: Checkout.Nodes, found: seq<Inode>, root: Inode, todo: map<string, Inode>,
                          done: set<string>) {
    && done <= disk.Keys && todo.Keys <= disk.Keys - done && Closed(done) && Opened(disk, found, done + todo.Keys)
    && forall p | p in todo :: DirectoryOf(found, root, p, todo[p])
  }

  ghost predicate Kept(disk: Checkout.Nodes, ignores: GlobList.GlobList, found: seq<Inode>, done: set<string>)
    reads ignores
  {
    && (forall n | n in found :: n.path in done && Seen(disk, ignores, n.path))
    && (forall p | p in done && p in disk && !Skipped(disk, ignores, p) :: exists n :: n in found && n.path == p)
  }

  lemma ChildrenMore(found: seq<Inode>, children: seq<Inode>, p: string, node: Inode)
    requires ChildrenRead(found, children, p) && forall n | n in found :: n.path != node.path
    ensures Parent(node.path) == p ==> ChildrenRead(found + [node], children + [node], p)
    ensures Parent(node.path) != p ==> ChildrenRead(found + [node], children, p)
  {
    hide Parent;
    forall i | 0 <= i < |children| ensures children[i].path != node.path { assert children[i] in children; }
  }

  lemma NoChildren(found: seq<Inode>, p: string)
    requires forall n | n in found :: Parent(n.path) != p
    ensures ChildrenRead(found, [], p)
  {}

  lemma NewPaths(found: seq<Inode>, node: Inode)
    requires DistinctPaths(found) && forall n | n in found :: n.path != node.path
    ensures DistinctPaths(found + [node])
  {
    forall i | 0 <= i < |found| ensures found[i].path != node.path { assert found[i] in found; }
  }

  /** Whatever is seen has been found once nothing is left to read. */
  lemma {:induction false} AllFound(disk: Checkout.Nodes, ignores: GlobList.GlobList, found: seq<Inode>, root: Inode,
                                    done: set<string>,
                                    p: string)
    requires Pending(disk, found, root, map[], done) && Kept(disk, ignores, found, done) && Checkout.Rooted(disk)
    requires (forall n | n in found :: Shows(disk, n)) && (forall q :: q in disk ==> Valid(q)) && Seen(disk, ignores, p)
    ensures exists n :: n in found && n.path == p
    decreases |p|
  {
    hide Parent, Valid, Skipped;
    if Parent(p) != "" {
      AllFound(disk, ignores, found, root, done, Parent(p));
      var n :| n in found && n.path == Parent(p);
      ParentAbove(p);
      assert Shows(disk, n) && n.kind == Directory;
    }
  }

  /** An entry is passed over. */
  lemma PendingLess(disk: Checkout.Nodes, ignores: GlobList.GlobList, found: seq<Inode>, root: Inode,
                    todo: map<string, Inode>,
                    done: set<string>, p: string)
    requires Pending(disk, found, root, todo, done) && Kept(disk, ignores, found, done) && p in todo
    ensures Pending(disk, found, root, todo - {p}, done + {p})
    ensures Skipped(disk, ignores, p) ==> Kept(disk, ignores, found, done + {p})
  {
    hide Parent, Skipped, Seen, Opened, Closed, DirectoryOf;
    DoneMore(disk, ignores, found, root, todo, done, p);
    assert done + {p} + (todo - {p}).Keys == done + todo.Keys;
  }

  /** The next entry has not been met before, nor anything below it, and its directory is at hand. */
  lemma NextEntry(disk: Checkout.Nodes, ignores: GlobList.GlobList, found: seq<Inode>, root: Inode,
                  todo: map<string, Inode>,
                  done: set<string>, p: string)
    requires Pending(disk, found, root, todo, done) && Kept(disk, ignores, found, done) && p in todo
    requires forall q :: q in disk ==> Valid(q)
    ensures p in disk && Valid(p) && p != "" && p !in done && todo[p].Linked()
    ensures if Parent(p) == "" then todo[p] == root
            else todo[p] in found && todo[p].kind == Directory && todo[p].path == Parent(p)
    ensures forall n | n in found :: n.path != p && Parent(n.path) != p
    ensures forall q | q in done || q in todo :: Parent(q) != p
  {
    assert p in disk && Valid(p) && p != "" && DirectoryOf(found, root, p, todo[p]);
    hide Parent, Valid, Skipped, Seen, Opened, Inode.Linked;
    forall q | q in done || q in todo ensures Parent(q) != p {
      if q in todo { assert DirectoryOf(found, root, q, todo[q]); }
    }
  }

  lemma OpenedMore(disk: Checkout.Nodes, found: seq<Inode>, met: set<string>, node: Inode, more: set<string>)
    requires Opened(disk, found, met)
    requires forall q | node.kind == Directory && q in disk && Parent(q) == node.path :: q in more
    ensures Opened(disk, found + [node], met + more)
  {
    hide Parent;
  }

  lemma DirectoryMore(found: seq<Inode>, root: Inode, p: string, d: Inode, node: Inode)
    requires DirectoryOf(found, root, p, d)
    ensures DirectoryOf(found + [node], root, p, d)
  {
    hide Parent;
  }

  /** An entry gets an inode; if it is a directory its entries come next. */
  lemma PendingMore(disk: Checkout.Nodes, ignores: GlobList.GlobList, found: seq<Inode>, root: Inode,
                    todo: map<string, Inode>,
                    more: map<string, Inode>, done: set<string>, p: string, node: Inode)
    requires Pending(disk, found, root, todo, done) && Kept(disk, ignores, found, done) && p in todo
    requires (forall q :: q in disk ==> Valid(q)) && node.path == p && node.Linked()
    requires more == map q | q in disk && node.kind == Directory && Parent(q) == p :: node
    ensures Pending(disk, found + [node], root, (todo - {p}) + more, done + {p})
  {
    hide Parent, Kept, Valid, Opened, Closed, DirectoryOf, Inode.Linked;
    NextEntry(disk, ignores, found, root, todo, done, p);
    DoneMore(disk, ignores, found, root, todo, done, p);
    var now, r := (todo - {p}) + more, found + [node];
    OpenedMore(disk, found, done + todo.Keys, node, more.Keys);
    assert done + {p} + now.Keys == done + todo.Keys + more.Keys;
    forall q | q in now ensures DirectoryOf(r, root, q, now[q]) {
      if q in more { NewDirectory(found, root, q, node); } else { DirectoryMore(found, root, q, todo[q], node); }
    }
  }

  lemma NewDirectory(found: seq<Inode>, root: Inode, q: string, node: Inode)
    requires node.Linked() && node.kind == Directory && node.path == Parent(q) && node.path != ""
    ensures DirectoryOf(found + [node], root, q, node)
  {
    hide Parent;
  }

  lemma DoneMore(disk: Checkout.Nodes, ignores: GlobList.GlobList, found: seq<Inode>, root: Inode,
                 todo: map<string, Inode>,
                 done: set<string>, p: string)
    requires Pending(disk, found, root, todo, done) && Kept(disk, ignores, found, done) && p in todo
    ensures Closed(done + {p})
  {
    hide Parent, Opened, Skipped, Seen;
    assert DirectoryOf(found, root, p, todo[p]);
  }

  lemma KeptMore(disk: Checkout.Nodes, ignores: GlobList.GlobList, found: seq<Inode>, root: Inode,
                 todo: map<string, Inode>,
                 done: set<string>, p: string, node: Inode)
    requires Pending(disk, found, root, todo, done) && Kept(disk, ignores, found, done) && p in todo
    requires (forall q :: q in disk ==> Valid(q)) && node.path == p && p in disk && !Skipped(disk, ignores, p)
    ensures Kept(disk, ignores, found + [node], done + {p})
  {
    hide Parent, Skipped, Pending, Valid, Seen, Inode.Linked;
    NextEntry(disk, ignores, found, root, todo, done, p);
    SeenNext(disk, ignores, found, done, p, todo[p]);
    var r := found + [node];
    assert node in r && forall n | n in found :: n in r;
    forall q | q in done + {p} && q in disk && !Skipped(disk, ignores, q) ensures exists n :: n in r && n.path == q {
      if q != p { var n :| n in found && n.path == q; assert n in r; }
    }
  }

  lemma SeenNext(disk: Checkout.Nodes, ignores: GlobList.GlobList, found: seq<Inode>, done: set<string>, p: string,
                 d: Inode)
    requires Kept(disk, ignores, found, done) && p in disk && p != "" && !Skipped(disk, ignores, p)
    requires Parent(p) != "" ==> d in found && d.path == Parent(p)
    ensures Seen(disk, ignores, p)
  {
    ParentShort(p);
    hide Parent, Skipped;
  }

  lemma EnteredMore(found: seq<Inode>, root: Inode, node: Inode)
    requires Entered(found, root) && node.Linked() && Valid(node.path) && node != root
    requires ParentRead(found, root, node) && forall n | n in found :: n.path != node.path
    ensures Entered(found + [node], root)
  {
    hide Parent, Valid, DistinctPaths, Inode.Linked;
    NewPaths(found, node);
    forall n | n in found + [node] ensures ParentRead(found + [node], root, n) {
      if n != node { assert ParentRead(found, root, n); }
    }
  }

  /** The new inode becomes a child of its directory. */
  method Append(found: seq<Inode>, root: Inode, d: Inode, node: Inode) returns (r: seq<Inode>)
    requires Read(found, root) && node.Linked() && node.parent == d && node.children == [] && Valid(node.path)
    requires node !in found && node != root
    requires if Parent(node.path) == "" then d == root
             else d in found && d.kind == Directory && d.path == Parent(node.path)
    requires forall n | n in found :: n.path != node.path && Parent(n.path) != node.path
    modifies d`children
    ensures r == found + [node] && Read(r, root)
  {
    hide Parent, Valid, ChildrenRead, DistinctPaths, Inode.Linked, Entered;
    r := found + [node];
    EnteredMore(found, root, node);
    ChildrenMore(found, d.children, Parent(node.path), node);
    forall n | n in found && n.kind == Directory && n != d ensures ChildrenRead(r, n.children, n.path) {
      ChildrenMore(found, n.children, n.path, node);
      FoundApart(found, root, n, d);
    }
    if Parent(node.path) != "" {
      FoundApart(found, root, d, d);
      ChildrenMore(found, root.children, "", node);
    }
    d.children := d.children + [node];
    SelfApart(node.path);
    NoChildren(r, node.path);
    forall n | n in r && n.kind == Directory ensures ChildrenRead(r, n.children, n.path) {
      if n != node { FoundApart(found, root, n, d); }
    }
  }

  lemma FoundApart(found: seq<Inode>, root: Inode, n: Inode, d: Inode)
    requires Entered(found, root) && n in found
    ensures n.path != "" && n != root && (d in found && n.path == d.path ==> n == d)
  {
    hide Inode.Linked, ParentRead;
  }

  lemma SelfApart(p: string)
    requires Valid(p)
    ensures Parent(p) != p
  {}

  /** The entries of all opened directories, in any order: each is passed over or gets an inode, and a
      directory is opened in turn. */
  method ReadDirectories(disk: Checkout.Nodes, root: Inode, ignores: GlobList.GlobList) returns (found: seq<Inode>)
    requires Checkout.Rooted(disk) && forall p :: p in disk ==> Valid(p)
    requires root.parent == null && root.Linked() && root.children == [] && !root.unignored
    modifies root`children
    ensures forall n | n in found :: fresh(n) && Shows(disk, n)
    ensures Read(found, root) && Unmarked(found, root)
    ensures forall p :: Reached(disk, ignores, p) <==> exists n :: n in found && n.path == p
  {
    hide Parent, Valid, Skipped, Seen, Reached, Read, Pending, Kept, Inode.Linked, Checkout.Rooted;
    hide Shows, Unmarked, GlobList.GlobList.Match;
    found := [];
    var todo := map p | p in disk && Parent(p) == "" :: root;
    ghost var done: set<string> := {};
    NothingRead(disk, ignores, root, todo);
    assert Unmarked(found, root) by { NoneMarked(root); }
    while todo != map[]
      invariant forall n | n in found :: fresh(n) && Shows(disk, n)
      invariant Read(found, root) && Unmarked(found, root)
      invariant Pending(disk, found, root, todo, done) && Kept(disk, ignores, found, done)
      decreases disk.Keys - done
    {
      var p :| p in todo;
      var d := todo[p];
      NextEntry(disk, ignores, found, root, todo, done, p);
      if Skipped(disk, ignores, p) {
        PendingLess(disk, ignores, found, root, todo, done, p);
        todo := todo - {p};
      } else {
        var st := disk[p];
        var node := new Inode(p, st.kind, st.perms, st.mtime, st.target, d);
        var more := map q | q in disk && st.kind == Directory && Parent(q) == p :: node;
        PendingMore(disk, ignores, found, root, todo, more, done, p, node);
        KeptMore(disk, ignores, found, root, todo, done, p, node);
        UnmarkedMore(found, root, node);
        NewShows(disk, node);
        found := Append(found, root, d, node);
        todo := (todo - {p}) + more;
      }
      done := done + {p};
    }
    FoundIsSeen(disk, ignores, found, root, done);
  }

  lemma FoundIsSeen(disk: Checkout.Nodes, ignores: GlobList.GlobList, found: seq<Inode>, root: Inode, done: set<string>)
    requires Pending(disk, found, root, map[], done) && Kept(disk, ignores, found, done) && Checkout.Rooted(disk)
    requires (forall n | n in found :: Shows(disk, n)) && forall q :: q in disk ==> Valid(q)
    ensures forall p :: Reached(disk, ignores, p) <==> exists n :: n in found && n.path == p
  {
    hide *;
    OnlySeen(disk, ignores, found, done);
    forall p ensures Reached(disk, ignores, p) <==> exists n :: n in found && n.path == p {
      SeenIsReached(disk, ignores, p);
      if Seen(disk, ignores, p) { AllFound(disk, ignores, found, root, done, p); }
    }
  }

  lemma NoneMarked(root: Inode)
    requires !root.unignored
    ensures Unmarked([], root)
  {}

  lemma UnmarkedMore(found: seq<Inode>, root: Inode, node: Inode)
    requires Unmarked(found, root) && !node.ignored && !node.unignored
    ensures Unmarked(found + [node], root)
  {}

  lemma NewShows(disk: Checkout.Nodes, node: Inode)
    requires node.path in disk && node.hash == EMPTY && Checkout.Lists(Line(node), disk[node.path])
    ensures Shows(disk, node)
  {}

  lemma NothingRead(disk: Checkout.Nodes, ignores: GlobList.GlobList, root: Inode, todo: map<string, Inode>)
    requires root.parent == null && root.Linked() && root.children == []
    requires todo == map p | p in disk && Parent(p) == "" :: root
    ensures Read([], root) && Pending(disk, [], root, todo, {}) && Kept(disk, ignores, [], {})
  {
    hide Parent;
    NoChildren([], "");
  }

  lemma OnlySeen(disk: Checkout.Nodes, ignores: GlobList.GlobList, found: seq<Inode>, done: set<string>)
    requires Kept(disk, ignores, found, done)
    ensures forall n | n in found :: Seen(disk, ignores, n.path)
  {}

  // ---------------------------------------------------------------- marking

  /** Only directories have anything below them. */
  lemma {:induction false} AboveDirectories(found: seq<Inode>, root: Inode, n: Inode)
    requires root.parent == null && root.Linked() && n in found && n.Linked()
    requires forall m | m in found :: m.Linked() && ParentRead(found, root, m)
    ensures forall a | a in n.above :: a == root || (a in found && a.kind == Directory)
    decreases |n.above|
  {
    hide Parent;
    assert n.above == [n.parent] + n.parent.above && ParentRead(found, root, n);
    if n.parent != root { AboveDirectories(found, root, n.parent); }
  }

  /** Marking in reverse order: an inode that has been unignored is not marked, but so far only
      directories and the inodes already passed have been. */
  method Mark(inodes: seq<Inode>, root: Inode, ignores: GlobList.GlobList)
    requires Read(inodes, root) && Unmarked(inodes, root)
    modifies (set n | n in inodes)`ignored, (set n | n in inodes)`unignored, root`unignored
    ensures forall n | n in inodes :: n.ignored <==> n.kind != Directory && ignores.Match(n.path)
  {
    hide Parent, Valid, ChildrenRead, ParentRead, Inode.Linked, DistinctPaths, GlobList.GlobList.Match;
    for i := |inodes| downto 0
      invariant forall n | n in inodes[i..] :: n.ignored <==> n.kind != Directory && ignores.Match(n.path)
      invariant forall n | n in inodes[..i] :: !n.ignored && (n.kind != Directory ==> !n.unignored)
    {
      var n := inodes[i];
      NotElsewhere(inodes, i);
      assert inodes[i..] == [n] + inodes[i + 1..] && inodes[..i + 1] == inodes[..i] + [n];
      if n.kind == Directory { continue; }
      if !n.unignored && ignores.Match(n.path) {
        n.ignored := true;
      } else {
        AboveDirectories(inodes, root, n);
        n.Unignore();
      }
    }
    assert inodes[0..] == inodes;
  }

  lemma NotElsewhere(inodes: seq<Inode>, i: nat)
    requires DistinctPaths(inodes) && i < |inodes|
    ensures inodes[i] !in inodes[i + 1..] && inodes[i] !in inodes[..i]
  {}

  // ---------------------------------------------------------------- the constructor

  lemma SortedRead(found: seq<Inode>, root: Inode)
    requires Read(found, root) && Unmarked(found, root)
    ensures Read(Sorted(found), root) && Unmarked(Sorted(found), root) && Increasing(Sorted(found))
    ensures (forall n | n in Sorted(found) :: n in found) && forall n | n in found :: n in Sorted(found)
  {
    hide Sorted, Parent, Less, Read;
    assert DistinctPaths(found) by { ReadDistinct(found, root); }
    var s := Sorted(found);
    SortedIncreasing(found);
    forall n | n in s ensures n in found { assert n in multiset(s); }
    forall n | n in found ensures n in s { assert n in multiset(found); }
    forall i, j | 0 <= i < j < |s| ensures s[i].path != s[j].path { LessIrreflexive(s[i].path); }
    ReadSame(found, s, root);
  }

  lemma ReadDistinct(found: seq<Inode>, root: Inode)
    requires Read(found, root)
    ensures DistinctPaths(found)
  {}

  lemma ReadSame(found: seq<Inode>, s: seq<Inode>, root: Inode)
    requires Read(found, root) && DistinctPaths(s)
    requires (forall n | n in s :: n in found) && forall n | n in found :: n in s
    ensures Read(s, root)
  {
    hide Parent, Valid, DistinctPaths;
    forall n | n in s ensures ParentRead(s, root, n) { assert ParentRead(found, root, n); }
    forall n | n in s && n.kind == Directory ensures ChildrenRead(s, n.children, n.path) {
      assert ChildrenRead(found, n.children, n.path);
    }
    assert ChildrenRead(found, root.children, "");
  }

  /** Sorts what has been read, marks what is ignored and erases it: the list that refresh and add start
      from. */
  method Collect(found: seq<Inode>, root: Inode, ignores: GlobList.GlobList) returns (nodes: seq<Inode>)
    requires Read(found, root) && Unmarked(found, root)
    modifies (set n | n in found)`ignored, (set n | n in found)`unignored, root`unignored
    ensures Listed(nodes, root)
    ensures forall n | n in nodes :: n in found
    ensures forall n | n in found :: n in nodes <==> n.kind == Directory || !ignores.Match(n.path)
  {
    hide Parent, Valid, Read, GlobList.GlobList.Match, Sorted, Less, Increasing, Unmarked;
    SortedRead(found, root);
    var inodes := Sorted(found);
    Mark(inodes, root, ignores);
    nodes := Visible(inodes);
    forall n | n in nodes ensures n in found { assert n in inodes; }
    KeptListed(found, root, nodes);
  }

  /** remove_if and erase. */
  method Visible(inodes: seq<Inode>) returns (nodes: seq<Inode>)
    requires Increasing(inodes)
    ensures Increasing(nodes) && (forall n | n in nodes :: n in inodes)
    ensures forall n | n in inodes :: n in nodes <==> !n.ignored
  {
    hide Less;
    nodes := [];
    for i := 0 to |inodes|
      invariant Increasing(nodes) && (forall n | n in nodes :: n in inodes[..i])
      invariant forall n | n in inodes[..i] :: n in nodes <==> !n.ignored
    {
      var n := inodes[i];
      assert inodes[..i + 1] == inodes[..i] + [n];
      if !n.ignored {
        forall k | 0 <= k < |nodes| ensures Less(nodes[k].path, n.path) { assert nodes[k] in inodes[..i]; }
        nodes := nodes + [n];
      }
    }
    assert inodes[..|inodes|] == inodes;
  }

  lemma KeptListed(found: seq<Inode>, root: Inode, nodes: seq<Inode>)
    requires Read(found, root) && Increasing(nodes)
    requires forall n | n in nodes :: n in found && !n.ignored
    requires forall n | n in found && !n.ignored :: n in nodes
    requires forall n | n in found && n.ignored :: n.kind != Directory
    ensures Listed(nodes, root)
  {
    KeptScanned(found, root, nodes);
    hide Parent, Valid, Less, DistinctPaths, Scanned, Increasing;
    KeptChildren(found, nodes, root.children, "");
    forall i | 0 <= i < |nodes| && nodes[i].kind == Directory
      ensures ChildrenListed(nodes, nodes[i].children, nodes[i].path)
    {
      assert nodes[i] in found;
      KeptChildren(found, nodes, nodes[i].children, nodes[i].path);
    }
  }

  lemma KeptScanned(found: seq<Inode>, root: Inode, nodes: seq<Inode>)
    requires Read(found, root) && Increasing(nodes)
    requires forall n | n in nodes :: n in found && !n.ignored
    requires forall n | n in found && !n.ignored :: n in nodes
    requires forall n | n in found && n.ignored :: n.kind != Directory
    ensures Scanned(nodes, root)
  {
    hide Parent, Valid, Less, DistinctPaths, ChildrenRead;
    assert root !in nodes;
    forall i | 0 <= i < |nodes|
      ensures nodes[i].Linked() && nodes[i].parent != null && Valid(nodes[i].path) && ParentListed(nodes, root, i)
    {
      assert nodes[i] in found && ParentRead(found, root, nodes[i]);
      if Parent(nodes[i].path) != "" {
        assert nodes[i].parent in nodes;
        var j :| 0 <= j < |nodes| && nodes[j] == nodes[i].parent;
      }
    }
    assert forall i, j :: 0 <= i < j < |nodes| ==> Less(nodes[i].path, nodes[j].path);
  }

  lemma KeptChildren(found: seq<Inode>, nodes: seq<Inode>, children: seq<Inode>, p: string)
    requires ChildrenRead(found, children, p)
    requires forall n | n in nodes :: n in found && !n.ignored
    requires forall n | n in found && !n.ignored :: n in nodes
    ensures ChildrenListed(nodes, children, p)
  {
    hide Parent, DistinctPaths;
  }

  // ---------------------------------------------------------------- the whole scan

  /** What the list holds: what is reached, without the files and links that match. */
  ghost predicate Wanted(disk: Checkout.Nodes, ignores: GlobList.GlobList, p: string)
    reads ignores
  {
    Reached(disk, ignores, p) && (disk[p].kind == Directory || !ignores.Match(p))
  }

  /** From the disk to the list: it has an inode for each wanted entry and for nothing else, which says
      what is on disk, and is what refresh and add start from. */
  method Scan(disk: Checkout.Nodes, ignores: GlobList.GlobList) returns (root: Inode, nodes: seq<Inode>)
    requires Checkout.Rooted(disk) && forall p :: p in disk ==> Valid(p)
    ensures fresh(root) && root.hash == EMPTY && Listed(nodes, root)
    ensures forall n | n in nodes :: fresh(n) && Shows(disk, n)
    ensures forall p :: Wanted(disk, ignores, p) <==> exists n :: n in nodes && n.path == p
  {
    hide Parent, Valid, Read, Reached, GlobList.GlobList.Match, Listed, Unmarked, Checkout.Rooted;
    root := new Inode("", Directory, 0, 0, "", null);
    var found := ReadDirectories(disk, root, ignores);
    nodes := Collect(found, root, ignores);
    forall p ensures Wanted(disk, ignores, p) <==> exists n :: n in nodes && n.path == p {
      if Wanted(disk, ignores, p) { var n :| n in found && n.path == p; assert n in nodes; }
    }
  }

  /** With nothing to ignore it is the listing of the disk. */
  lemma WholeListing(disk: Checkout.Nodes, ignores: GlobList.GlobList, root: Inode, nodes: seq<Inode>)
    requires Listed(nodes, root) && (forall n | n in nodes :: Shows(disk, n))
    requires forall p :: Wanted(disk, ignores, p) <==> exists n :: n in nodes && n.path == p
    requires Checkout.Rooted(disk) && forall p :: p in disk ==> Valid(p) && Name(p) != ".fstree" && !ignores.Match(p)
    ensures Checkout.ListingOf(Lines(nodes), disk)
  {
    hide Less, Parent, Name, GlobList.GlobList.Match, Lines, ChildrenListed;
    var es := Lines(nodes);
    forall i | 0 <= i < |es| ensures es[i].path in disk && Checkout.Lists(es[i], disk[es[i].path]) {
      assert nodes[i] in nodes && Shows(disk, nodes[i]) && es[i] == Line(nodes[i]);
    }
    forall p | p in disk ensures exists i :: 0 <= i < |es| && es[i].path == p {
      assert Wanted(disk, ignores, p);
      var n :| n in nodes && n.path == p;
      var i :| 0 <= i < |nodes| && nodes[i] == n;
      assert es[i].path == p;
    }
  }
}
