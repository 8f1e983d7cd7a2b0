/** After a pull: the index that is saved holds right digests, and hashing the workspace again gives the
    digest that was pulled. */
module Reproduce {
  import opened Paths
  import opened Entries
  import opened Codec
  import Checkout
  import CacheAdd
  import Incremental
  import PullCheckout
  import Refresh
  import RoundTrip

  lemma PathsAhead(a: seq<Entry>, b: seq<Entry>)
    requires SortedByPath(a) && SortedByPath(b) && a != [] && b != [] && a[0].path == b[0].path
    requires forall i :: 0 <= i < |a| ==> HasPath(b, a[i].path)
    ensures forall i :: 0 <= i < |a[1..]| ==> HasPath(b[1..], a[1..][i].path)
  {
    hide Less;
    forall i | 0 <= i < |a[1..]| ensures HasPath(b[1..], a[1..][i].path) {
      assert a[1..][i] == a[i + 1] && Less(a[0].path, a[i + 1].path);
      var k :| 0 <= k < |b| && b[k].path == a[i + 1].path;
      if k == 0 { LessIrreflexive(a[0].path); }
      assert b[1..][k - 1] == b[k];
    }
  }

  lemma HeadsAlike(a: seq<Entry>, b: seq<Entry>)
    requires SortedByPath(a) && SortedByPath(b) && a != [] && b != [] && HasPath(b, a[0].path) && HasPath(a, b[0].path)
    ensures a[0].path == b[0].path
  {
    hide Less;
    var k :| 0 <= k < |b| && b[k].path == a[0].path;
    var i :| 0 <= i < |a| && a[i].path == b[0].path;
    assert (k > 0 ==> Less(b[0].path, b[k].path)) && (i > 0 ==> Less(a[0].path, a[i].path));
    if k > 0 && i > 0 { LessAsymmetric(a[0].path, b[0].path); }
  }

  /** Sorted lists with the same paths list them alike. */
  lemma {:induction false} SamePaths(a: seq<Entry>, b: seq<Entry>)
    requires SortedByPath(a) && SortedByPath(b)
    requires (forall i :: 0 <= i < |a| ==> HasPath(b, a[i].path))
    requires (forall i :: 0 <= i < |b| ==> HasPath(a, b[i].path))
    ensures |a| == |b| && forall i :: 0 <= i < |a| ==> a[i].path == b[i].path
  {
    hide Less;
    assert (a != [] ==> HasPath(b, a[0].path)) && (b != [] ==> HasPath(a, b[0].path));
    if a != [] && b != [] {
      HeadsAlike(a, b);
      PathsAhead(a, b);
      PathsAhead(b, a);
      SamePaths(a[1..], b[1..]);
      forall i | 0 <= i < |a| ensures a[i].path == b[i].path {
        if i > 0 { assert a[i] == a[1..][i - 1] && b[i] == b[1..][i - 1]; }
      }
    }
  }

  /** Tree objects do not hold times, so only what lies in the directory matters, times apart. */
  lemma {:induction false} SameRecords(a: seq<Entry>, b: seq<Entry>, p: string)
    requires |a| == |b| && forall i :: 0 <= i < |a| ==> a[i].path == b[i].path
    requires forall i :: 0 <= i < |a| && Parent(a[i].path) == p ==> Checkout.SameButTime(a[i], b[i])
    ensures RecordsOf(CacheAdd.KidsOf(a, p)) == RecordsOf(CacheAdd.KidsOf(b, p))
  {
    hide Parent, Name;
    if a != [] {
      SameRecords(a[1..], b[1..], p);
      assert Parent(a[0].path) == p ==> RecordOf(a[0]) == RecordOf(b[0]);
      var ka, kb := CacheAdd.KidsOf(a[1..], p), CacheAdd.KidsOf(b[1..], p);
      if Parent(a[0].path) == p {
        assert ([a[0]] + ka)[1..] == ka && ([b[0]] + kb)[1..] == kb;
      } else {
        assert [] + ka == ka && [] + kb == kb;
      }
    }
  }

  /** The lists agree but for times, and but for the digests of directories, which are right in both. */
  ghost predicate Alike(H: string -> Digest, a: seq<Entry>, b: seq<Entry>) {
    && |a| == |b| &&
       (forall i :: 0 <= i < |a| ==>
           a[i].path == b[i].path && a[i].path != "" && b[i] == a[i].(mtime := b[i].mtime, hash := b[i].hash))
    && (forall i :: 0 <= i < |a| ==>
         if a[i].kind == Directory then CacheAdd.DirOk(H, a, i) && CacheAdd.DirOk(H, b, i) else a[i].hash == b[i].hash)
  }

  lemma {:induction false} SameEntry(H: string -> Digest, a: seq<Entry>, b: seq<Entry>, limit: nat, i: nat)
    requires Alike(H, a, b) && i < |a| && forall j :: 0 <= j < |a| ==> |a[j].path| <= limit
    ensures Checkout.SameButTime(a[i], b[i])
    decreases limit - |a[i].path|
  {
    if a[i].kind == Directory {
      hide Parent, EncodeTree, RecordsOf;
      forall j | 0 <= j < |a| && Parent(a[j].path) == a[i].path ensures Checkout.SameButTime(a[j], b[j]) {
        ParentShort(a[j].path);
        SameEntry(H, a, b, limit, j);
      }
      SameRecords(a, b, a[i].path);
      assert CacheAdd.DirOk(H, a, i) && CacheAdd.DirOk(H, b, i);
    }
  }

  lemma SameRoot(H: string -> Digest, a: seq<Entry>, b: seq<Entry>)
    requires Alike(H, a, b)
    ensures forall i :: 0 <= i < |a| ==> Checkout.SameButTime(a[i], b[i])
    ensures H(CacheAdd.TreeObject(a, "")) == H(CacheAdd.TreeObject(b, ""))
  {
    hide Alike, EncodeTree, RecordsOf, CacheAdd.KidsOf;
    AlikePaths(H, a, b);
    forall i | 0 <= i < |a| ensures Checkout.SameButTime(a[i], b[i]) { SameEntry(H, a, b, Longest(a), i); }
    SameRecords(a, b, "");
  }

  lemma AlikePaths(H: string -> Digest, a: seq<Entry>, b: seq<Entry>)
    requires Alike(H, a, b)
    ensures |a| == |b| && forall i :: 0 <= i < |a| ==> a[i].path == b[i].path
  {}

  lemma SameAt(H: string -> Digest, e: Entry, now: Entry, disk: Checkout.Nodes, content: map<string, string>)
    requires RoundTrip.FieldsOk(e) && PullCheckout.EntryIs(H, e, disk)
    requires now.path == e.path && now.path in disk && Checkout.Lists(now, disk[now.path])
    requires now.kind == File ==>
               CacheAdd.FileOk(H, now, content) && content[now.path] == disk[now.path].content
    requires now.kind == Symlink ==> now.hash == EMPTY
    ensures e == now.(mtime := e.mtime, hash := e.hash) && (now.kind != Directory ==> now.hash == e.hash)
  {}

  /** A workspace that is the tree es, scanned and hashed: every entry has the digest it has in es, and
      the root has the digest es was pulled by. */
  lemma SameDigestAgain(H: string -> Digest, es: seq<Entry>, root: Digest, trees: map<Digest, string>,
                        disk: Checkout.Nodes,
                        now: seq<Entry>, newRoot: Digest, content: map<string, string>, files: map<Digest, string>,
                        newTrees: map<Digest, string>)
    requires RoundTrip.Writable(es) && (forall i :: 0 <= i < |es| ==> RoundTrip.FieldsOk(es[i]))
    requires CacheAdd.TreesStored(H, es, root, trees)
    requires PullCheckout.WorkspaceIs(H, es, disk) && Checkout.ListingOf(now, disk)
    requires CacheAdd.FilesStored(H, now, content, files) && CacheAdd.TreesStored(H, now, newRoot, newTrees)
    requires forall i :: 0 <= i < |now| && now[i].kind == File ==>
               now[i].path in content && content[now[i].path] == disk[now[i].path].content
    requires forall i :: 0 <= i < |now| && now[i].kind == Symlink ==> now[i].hash == EMPTY
    ensures newRoot == root
    ensures |now| == |es| && forall i :: 0 <= i < |es| ==> Checkout.SameButTime(now[i], es[i])
  {
    hide Less, CacheAdd.TreeObject, Parent, Plain, RecordOk, CacheAdd.DirOk, CacheAdd.FileOk, RoundTrip.FieldsOk;
    forall i | 0 <= i < |now| ensures HasPath(es, now[i].path) {}
    forall i | 0 <= i < |es| ensures HasPath(now, es[i].path) { assert PullCheckout.EntryIs(H, es[i], disk); }
    SamePaths(now, es);
    forall i | 0 <= i < |es|
      ensures now[i].path == es[i].path && now[i].path != ""
      ensures es[i] == now[i].(mtime := es[i].mtime, hash := es[i].hash)
      ensures now[i].kind != Directory ==> now[i].hash == es[i].hash
    {
      PlainNonempty(es[i].path);
      SameAt(H, es[i], now[i], disk, content);
    }
    SameRoot(H, now, es);
  }

  // ---------------------------------------------------------------- the saved index

  /** The contents of the files on disk. */
  function Contents(disk: Checkout.Nodes): map<string, string> {
    map p | p in disk && disk[p].kind == File :: disk[p].content
  }

  /** An index that mirrors the disk and differs from the tree in times only holds right digests exactly
      when the workspace is the tree. */
  lemma SavedIs(H: string -> Digest, es: seq<Entry>, root: Digest, trees: map<Digest, string>, saved: seq<Entry>,
                disk: Checkout.Nodes)
    requires CacheAdd.TreesStored(H, es, root, trees) && PullCheckout.Mirrors(saved, disk)
    requires |saved| == |es| && forall i :: 0 <= i < |es| ==> Checkout.SameButTime(saved[i], es[i])
    ensures Incremental.SavedRight(H, saved, Contents(disk)) <==> PullCheckout.WorkspaceIs(H, es, disk)
  {
    hide CacheAdd.DirOk, PullCheckout.EntryIs, CacheAdd.FileOk, Checkout.Shown, Contents;
    forall i | 0 <= i < |es| && es[i].kind == Directory ensures CacheAdd.DirOk(H, saved, i) {
      SavedDir(H, es, saved, i);
    }
    forall i | 0 <= i < |es|
      ensures PullCheckout.EntryIs(H, es[i], disk) <==>
                (saved[i].kind == File ==> CacheAdd.FileOk(H, saved[i], Contents(disk)))
    {
      SavedEntry(H, es[i], saved[i], disk);
    }
    forall p | p in disk ensures HasPath(es, p) {
      var i :| 0 <= i < |saved| && saved[i].path == p;
      assert es[i].path == p;
    }
  }

  lemma SavedEntry(H: string -> Digest, e: Entry, saved: Entry, disk: Checkout.Nodes)
    requires Checkout.SameButTime(saved, e) && Checkout.Shown(saved, disk)
    ensures PullCheckout.EntryIs(H, e, disk) <==> (saved.kind == File ==> CacheAdd.FileOk(H, saved, Contents(disk)))
  {}

  lemma SavedDir(H: string -> Digest, es: seq<Entry>, saved: seq<Entry>, i: nat)
    requires i < |es| == |saved| && CacheAdd.DirOk(H, es, i)
    requires forall i :: 0 <= i < |es| ==> Checkout.SameButTime(saved[i], es[i])
    ensures CacheAdd.DirOk(H, saved, i)
  {
    hide EncodeTree, RecordsOf, CacheAdd.KidsOf, Parent;
    SameRecords(saved, es, saved[i].path);
  }

  lemma SavedOk(es: seq<Entry>, saved: seq<Entry>)
    requires RoundTrip.Writable(es) && (forall i :: 0 <= i < |es| ==> RoundTrip.FieldsOk(es[i])) && |saved| == |es|
    requires forall i :: 0 <= i < |es| ==> Checkout.SameButTime(saved[i], es[i])
    ensures Refresh.IndexOk(saved)
  {
    hide Less, Below, RoundTrip.Writable, RoundTrip.FieldsOk, Checkout.EntryOk;
    RoundTrip.CheckoutReady(es, saved);
    forall i, q | 0 <= i < |saved| && Below(saved[i].path, q) ensures HasPath(saved, q) {
      assert HasDirectory(saved, q);
    }
  }

  /** pull-checkout, up to saving the index.  It fails only on a strict file system, if nothing is to be
      removed through a link exactly when an entry is stranded.  Afterwards the index describes the
      workspace, with right digests for its contents, exactly when no file with time zero was mistaken for
      an up-to-date one and nothing was lost through a link; then a write-tree can reuse them. */
  method PullCheckoutCommand(H: string -> Digest, fs: Checkout.Filesystem, store: map<Digest, string>,
                             ghost es: seq<Entry>,
                             ghost root: Digest, ghost trees: map<Digest, string>, pulled: seq<Entry>,
                             local: seq<Entry>,
                             tree: seq<Entry>) returns (ok: bool, saved: seq<Entry>)
    requires RoundTrip.Writable(es) && (forall i :: 0 <= i < |es| ==> RoundTrip.FieldsOk(es[i]))
    requires CacheAdd.TreesStored(H, es, root, trees)
    requires pulled == RoundTrip.Timeless(es) && CacheAdd.Named(H, store) && Checkout.StoreComplete(es, store)
    requires SortedByPath(local) && PullCheckout.LocalIndexTells(H, local, fs.nodes)
    requires Checkout.Rooted(fs.nodes) && Checkout.ListingOf(tree, fs.nodes)
    requires forall p :: p in fs.nodes ==> Valid(p) && Checkout.NodeOk(fs.nodes[p])
    modifies fs
    ensures Refresh.IndexOk(saved)
    ensures |saved| == |es| && forall i :: 0 <= i < |es| ==> Checkout.SameButTime(saved[i], es[i])
    ensures !Checkout.LinkTail(tree, es) ==> ok == !(fs.strict && Checkout.Stranded(tree, es))
    ensures !fs.strict ==> ok
    ensures ok ==> (PullCheckout.Mirrors(saved, fs.nodes) && Incremental.SavedRight(H, saved, Contents(fs.nodes)) <==>
                    PullCheckout.ZeroTimesTell(H, es, local, old(fs.nodes)) && !Checkout.Lost(tree, es, fs.follow))
  {
    hide *;
    ok, saved := PullCheckout.CheckoutPulled(H, fs, store, es, pulled, local, tree);
    SavedOk(es, saved);
    if ok && PullCheckout.Mirrors(saved, fs.nodes) { SavedIs(H, es, root, trees, saved, fs.nodes); }
  }
}
