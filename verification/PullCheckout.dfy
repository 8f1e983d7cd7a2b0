/** The end of the pull-checkout command: the pulled index gets the times of the local index and is
    checked out.  What the workspace holds afterwards is the pulled tree. */
module PullCheckout {
  import opened Paths
  import opened Entries
  import opened Checkout
  import opened Codec
  import CacheAdd
  import Metadata
  import RoundTrip

  /** A file whose time is the one in the local index has the content recorded there. */
  ghost predicate LocalIndexTells(H: string -> Digest, local: seq<Entry>, disk: Nodes) {
    forall k :: 0 <= k < |local| && local[k].path in disk && disk[local[k].path].kind == File
                && disk[local[k].path].mtime == local[k].mtime
      ==> H(disk[local[k].path].content) == local[k].hash
  }

  /** The local index does not have the entry's path with the entry's digest. */
  ghost predicate Unmatched(e: Entry,
                            local: seq<Entry>) { forall j :: 0 <= j < |local| ==> !Metadata.Same(e, local[j]) }

  /** A file on disk whose time is zero, the time of pulled entries, has the content to be checked out,
      unless the local index vouches for it. */
  ghost predicate ZeroTimeTells(H: string -> Digest, e: Entry, local: seq<Entry>, disk: Nodes) {
    Unmatched(e, local) && Kept(e.(mtime := 0), disk) ==> H(disk[e.path].content) == e.hash
  }

  ghost predicate ZeroTimesTell(H: string -> Digest, es: seq<Entry>, local: seq<Entry>, disk: Nodes) {
    forall i :: 0 <= i < |es| ==> ZeroTimeTells(H, es[i], local, disk)
  }

  /** After copy_metadata an index entry has a file's time only if the file has the entry's content, or
      if nothing was copied and the file's time is zero. */
  lemma TimesCanBeTrusted(H: string -> Digest, pulled: Entry, now: Entry, local: seq<Entry>, disk: Nodes)
    requires pulled.mtime == 0 && Metadata.Copied(pulled, local, now) && LocalIndexTells(H, local, disk)
    requires Kept(now, disk)
    ensures H(disk[now.path].content) == now.hash || (Unmatched(pulled, local) && now == pulled)
  {
    if j :| 0 <= j < |local| && Metadata.Same(pulled, local[j]) {
      assert now == pulled.(mtime := local[j].mtime);
      assert H(disk[local[j].path].content) == local[j].hash;
    }
  }

  lemma CopiedKeeps(was: Entry, local: seq<Entry>, now: Entry)
    requires Metadata.Copied(was, local, now)
    ensures SameButTime(now, was) && (Unmatched(was, local) ==> now == was)
  {
    if j :| 0 <= j < |local| && Metadata.Same(was, local[j]) { assert now == was.(mtime := local[j].mtime); }
  }

  /** The workspace holds exactly the tree: every path with its type, permissions, link target, and
      content of the recorded digest. */
  ghost predicate WorkspaceIs(H: string -> Digest, es: seq<Entry>, disk: Nodes) {
    && (forall i :: 0 <= i < |es| ==> EntryIs(H, es[i], disk))
    && (forall p :: p in disk ==> HasPath(es, p))
  }

  predicate EntryIs(H: string -> Digest, e: Entry, disk: Nodes) {
    && e.path in disk && disk[e.path].kind == e.kind && disk[e.path].perms == e.perms && disk[e.path].target == e.target
    && (e.kind == File ==> H(disk[e.path].content) == e.hash)
  }

  /** One entry after checkout: it is as the tree says, unless it was kept for its zero time. */
  lemma SettledIs(H: string -> Digest, e: Entry, copied: Entry, now: Entry, local: seq<Entry>, m0: Nodes, m: Nodes,
                  store: map<Digest, string>)
    requires Metadata.Copied(e.(mtime := 0), local, copied) && LocalIndexTells(H, local, m0) && CacheAdd.Named(H, store)
    requires SameButTime(now, copied) && Settled(now, m, store, copied, m0)
    ensures EntryIs(H, e, m) <==> ZeroTimeTells(H, e, local, m0)
  {
    CopiedKeeps(e.(mtime := 0), local, copied);
    if Kept(copied, m0) { TimesCanBeTrusted(H, e.(mtime := 0), copied, local, m0); }
    assert Unmatched(e, local) == Unmatched(e.(mtime := 0), local);
  }

  lemma CheckedOutIs(H: string -> Digest, es: seq<Entry>, copied: seq<Entry>, now: seq<Entry>, local: seq<Entry>,
                     m0: Nodes, m: Nodes,
                     store: map<Digest, string>)
    requires |copied| == |es| && forall i :: 0 <= i < |es| ==> Metadata.Copied(es[i].(mtime := 0), local, copied[i])
    requires LocalIndexTells(H, local, m0) && CacheAdd.Named(H, store)
    requires CheckedOut(now, m, store, copied, m0) && forall i :: 0 <= i < |es| ==> SameButTime(now[i], copied[i])
    ensures WorkspaceIs(H, es, m) <==> ZeroTimesTell(H, es, local, m0)
  {
    hide EntryIs, ZeroTimeTells, Kept, Settled, Unmatched, Metadata.Copied, LocalIndexTells, CacheAdd.Named;
    forall i | 0 <= i < |es|
      ensures now[i].path == es[i].path
      ensures EntryIs(H, es[i], m) <==> ZeroTimeTells(H, es[i], local, m0)
    {
      CopiedKeeps(es[i].(mtime := 0), local, copied[i]);
      SettledIs(H, es[i], copied[i], now[i], local, m0, m, store);
    }
    forall p | p in m ensures HasPath(es, p) {
      var i :| 0 <= i < |now| && now[i].path == p;
      assert es[i].path == p;
    }
  }

  /** Every entry is on disk with its time, whatever a file's content, and nothing else is. */
  ghost predicate Mirrors(s: seq<Entry>, disk: Nodes) {
    (forall i :: 0 <= i < |s| ==> Shown(s[i], disk)) && forall p :: p in disk ==> HasPath(s, p)
  }

  lemma CheckedOutMirrors(s: seq<Entry>, m: Nodes, store: map<Digest, string>, s0: seq<Entry>, m0: Nodes)
    requires CheckedOut(s, m, store, s0, m0)
    ensures Mirrors(s, m)
  {
    hide Shown, Kept;
    forall i | 0 <= i < |s| ensures Shown(s[i], m) { SettledShown(s[i], m, store, s0[i], m0); }
  }

  lemma SettledShown(e: Entry, m: Nodes, store: map<Digest, string>, e0: Entry, m0: Nodes)
    requires Settled(e, m, store, e0, m0)
    ensures Shown(e, m)
  {}

  lemma MissingBreaks(H: string -> Digest, es: seq<Entry>, s: seq<Entry>, disk: Nodes)
    requires |s| == |es| && (forall i :: 0 <= i < |s| ==> SameButTime(s[i], es[i])) && Missing(es, disk)
    ensures !WorkspaceIs(H, es, disk) && !Mirrors(s, disk)
  {
    var i :| 0 <= i < |es| && es[i].path !in disk;
    assert !EntryIs(H, es[i], disk) && !Shown(s[i], disk);
  }

  lemma MissingSame(a: seq<Entry>, b: seq<Entry>, disk: Nodes)
    requires |a| == |b| && (forall i :: 0 <= i < |a| ==> SameButTime(b[i], a[i])) && Missing(b, disk)
    ensures Missing(a, disk)
  {
    var i :| 0 <= i < |b| && b[i].path !in disk;
    assert a[i].path !in disk;
  }

  /** copy_metadata and checkout of a pulled and sorted index.  When it succeeds the index that is left to
      save mirrors the workspace, exactly when nothing was lost through a link, and the workspace is the
      pulled tree, exactly when also no file with time zero was mistaken for an up-to-date one.  It
      fails only on a strict file system, if nothing is to be removed through a link exactly when an entry
      is stranded. */
  method CheckoutPulled(H: string -> Digest, fs: Filesystem, store: map<Digest, string>, ghost es: seq<Entry>,
                        pulled: seq<Entry>, local: seq<Entry>, tree: seq<Entry>) returns (ok: bool, inodes: seq<Entry>)
    requires RoundTrip.Writable(es) && (forall i :: 0 <= i < |es| ==> RoundTrip.FieldsOk(es[i]))
    requires pulled == RoundTrip.Timeless(es) && CacheAdd.Named(H, store) && StoreComplete(es, store)
    requires SortedByPath(local) && LocalIndexTells(H, local, fs.nodes)
    requires Rooted(fs.nodes) && ListingOf(tree, fs.nodes)
    requires (forall p :: p in fs.nodes ==> Valid(p) && NodeOk(fs.nodes[p]))
    modifies fs
    ensures |inodes| == |es| && forall i :: 0 <= i < |es| ==> SameButTime(inodes[i], es[i])
    ensures ok ==> (Mirrors(inodes, fs.nodes) <==> !Lost(tree, es, fs.follow))
    ensures ok ==> (WorkspaceIs(H, es, fs.nodes) <==>
                    ZeroTimesTell(H, es, local, old(fs.nodes)) && !Lost(tree, es, fs.follow))
    ensures !LinkTail(tree, es) ==> ok == !(fs.strict && Stranded(tree, es))
    ensures !fs.strict ==> ok
  {
    hide Less, RoundTrip.Writable, RoundTrip.FieldsOk, Metadata.Copied, ListingOf, CheckedOut, Converged, WorkspaceIs;
    hide NodeOk, Rooted, LocalIndexTells, CacheAdd.Named, IndexOk, TimesTellContent, ZeroTimesTell, Unmatched;
    hide Lost, LinkTail, Stranded, Missing, Mirrors;
    var times := new Entry[|pulled|](i requires 0 <= i < |pulled| => pulled[i]);
    assert times[..] == pulled;
    RoundTrip.TimelessSorted(es);
    Metadata.CopyMetadata(times, local);
    var index := new Index(times[..]);
    ghost var s := index.inodes;
    forall i | 0 <= i < |es| ensures SameButTime(s[i], pulled[i]) && SameButTime(s[i], es[i]) {
      CopiedKeeps(pulled[i], local, s[i]);
    }
    RoundTrip.CheckoutReady(es, s);
    AboutSame(tree, es, s, fs.follow);
    CompleteSame(es, s, fs.nodes, store);
    ok := index.Checkout(fs, store, tree);
    inodes := index.inodes;
    if ok {
      if Lost(tree, es, fs.follow) {
        MissingSame(es, s, fs.nodes);
        MissingBreaks(H, es, inodes, fs.nodes);
      } else {
        CheckedOutIs(H, es, s, inodes, local, old(fs.nodes), fs.nodes, store);
        CheckedOutMirrors(inodes, fs.nodes, store, s, old(fs.nodes));
      }
    }
  }

  lemma CompleteSame(es: seq<Entry>, s: seq<Entry>, m: Nodes, store: map<Digest, string>)
    requires StoreComplete(es, store) && |s| == |es| && forall i :: 0 <= i < |es| ==> SameButTime(s[i], es[i])
    ensures AllAvailable(s, m, store)
  {
    assert StoreComplete(s, store);
    CompleteIsEnough(s, m, store);
  }

  /** What is stranded and what is lost does not depend on times. */
  lemma AboutSame(tree: seq<Entry>, a: seq<Entry>, b: seq<Entry>, follow: string -> string)
    requires |a| == |b| && forall i :: 0 <= i < |a| ==> SameButTime(b[i], a[i])
    ensures Stranded(tree, a) == Stranded(tree, b) && LinkTail(tree, a) == LinkTail(tree, b)
    ensures Lost(tree, a, follow) == Lost(tree, b, follow)
  {
    hide SameButTime, Less, Below, Stranded, LinkTail, Lost;
    StillThere(tree, a, b, follow);
    forall i | 0 <= i < |a| ensures SameButTime(a[i], b[i]) { SameBack(a[i], b[i]); }
    StillThere(tree, b, a, follow);
  }

  lemma SameBack(a: Entry, b: Entry)
    requires SameButTime(b, a)
    ensures SameButTime(a, b)
  {}

  lemma HoldsSame(a: seq<Entry>, b: seq<Entry>, p: string)
    requires |a| == |b| && forall i :: 0 <= i < |a| ==> SameButTime(b[i], a[i])
    ensures BecomesOther(a, p) ==> BecomesOther(b, p)
    ensures Holds(a, p, File) ==> Holds(b, p, File)
    ensures Holds(a, p, Symlink) ==> Holds(b, p, Symlink)
    ensures Hits(a, p) ==> Hits(b, p)
  {
    hide Below;
    if x :| 0 <= x < |a| && a[x].path == p && a[x].kind != Directory { assert b[x].path == p; }
    if x :| 0 <= x < |a| && a[x].path == p && a[x].kind == File { assert b[x].path == p; }
    if x :| 0 <= x < |a| && a[x].path == p && a[x].kind == Symlink { assert b[x].path == p; }
    if x :| 0 <= x < |a| && (a[x].path == p || Below(a[x].path, p)) { assert b[x].path == a[x].path; }
  }

  lemma StrandedStill(tree: seq<Entry>, a: seq<Entry>, b: seq<Entry>, i: int, j: int, k: int)
    requires |a| == |b| && forall i :: 0 <= i < |a| ==> SameButTime(b[i], a[i])
    requires StrandedAt(tree, a, i, j, k)
    ensures StrandedAt(tree, b, i, j, k)
    ensures Holds(a, tree[i].path, File) ==> Holds(b, tree[i].path, File)
    ensures Holds(a, tree[i].path, Symlink) ==> Holds(b, tree[i].path, Symlink)
  {
    hide SameButTime, Below, Holds, BecomesOther;
    HoldsSame(a, b, tree[i].path);
  }

  lemma TailStill(tree: seq<Entry>, a: seq<Entry>, b: seq<Entry>, k: int)
    requires |a| == |b| && forall i :: 0 <= i < |a| ==> SameButTime(b[i], a[i])
    requires LinkTailAt(tree, a, k)
    ensures LinkTailAt(tree, b, k)
  {
    hide Less, Below, Holds;
    var i, j :| StrandedAt(tree, a, i, j, k) && Holds(a, tree[i].path, Symlink);
    StrandedStill(tree, a, b, i, j, k);
    forall x | 0 <= x < |b| ensures Less(b[x].path, tree[k].path) { assert SameButTime(b[x], a[x]); }
  }

  lemma StillThere(tree: seq<Entry>, a: seq<Entry>, b: seq<Entry>, follow: string -> string)
    requires |a| == |b| && forall i :: 0 <= i < |a| ==> SameButTime(b[i], a[i])
    ensures Stranded(tree, a) ==> Stranded(tree, b)
    ensures LinkTail(tree, a) ==> LinkTail(tree, b)
    ensures Lost(tree, a, follow) ==> Lost(tree, b, follow)
  {
    hide SameButTime, Less, Below, LinkTailAt, Hits, Holds;
    if i, j, k :| StrandedAt(tree, a, i, j, k) && Holds(a, tree[i].path, File) { StrandedStill(tree, a, b, i, j, k); }
    if k :| LinkTailAt(tree, a, k) { TailStill(tree, a, b, k); }
    if k :| LostAt(tree, a, follow, k) {
      TailStill(tree, a, b, k);
      TailInside(tree, a, k);
      HoldsSame(a, b, follow(tree[k].path));
      assert LostAt(tree, b, follow, k);
    }
  }

  lemma TailInside(tree: seq<Entry>, s: seq<Entry>, k: int)
    requires LinkTailAt(tree, s, k)
    ensures 0 <= k < |tree|
  {}

  // ---------------------------------------------------------------- a stale file that is kept

  const STALE_DISK: Nodes := map["a" := Node(File, 0, 0, "", "old")]

  const STALE_TREE: seq<Entry> := [Entry("a", File, 0, 0, "", EMPTY)]

  lemma ShortPath()
    ensures Plain("a") && Parent("a") == "" && Name("a") == "a" && forall q :: !Below("a", q)
  {
    assert "a"[..0] == "" && Parent("") == "";
    forall q ensures !Below("a", q) { if Below("a", q) { SlashAfter("a", q); } }
  }

  /** The tree has one file, `a` with the content `new`; on disk `a` has the content `old` and the time zero,
      and the local index is empty.  All premises are met, and `a` is taken to be up to date. */
  lemma StaleExample(H: string -> Digest)
    requires DigestOk(H("new")) && H("old") != H("new")
    ensures var es, store := [Entry("a", File, 0, 0, "", H("new"))], map[H("new") := "new"];
            && RoundTrip.Writable(es) && (forall i :: 0 <= i < |es| ==> RoundTrip.FieldsOk(es[i]))
            && CacheAdd.Named(H, store) && StoreComplete(es, store)
            && SortedByPath([]) && LocalIndexTells(H, [], STALE_DISK)
            && Rooted(STALE_DISK) && ListingOf(STALE_TREE, STALE_DISK)
            && (forall p :: p in STALE_DISK ==> Valid(p) && NodeOk(STALE_DISK[p]))
            && !ZeroTimesTell(H, es, [], STALE_DISK) && !Lost(STALE_TREE, es, p => p)
  {
    ShortPath();
    hide Parent, Name, Below, Less;
    var es := [Entry("a", File, 0, 0, "", H("new"))];
    assert RoundTrip.FieldsOk(es[0]);
    assert ListingOf(STALE_TREE, STALE_DISK) by {
      forall p | p in STALE_DISK ensures exists i :: 0 <= i < |STALE_TREE| && STALE_TREE[i].path == p {
        assert STALE_TREE[0].path == p;
      }
    }
    assert Unmatched(es[0], []) && Kept(es[0].(mtime := 0), STALE_DISK) && !ZeroTimeTells(H, es[0], [], STALE_DISK);
  }
}
