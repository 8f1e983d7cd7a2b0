/** What a tree digest stands for: the inodes that reading its object, and the objects below it,
    delivers. */
module Trees {
  import opened Entries
  import opened Codec

  type Store = map<Digest, string>

  predicate Readable(src: Store, d: Entry) { d.hash in src && DecodeTree(src[d.hash]).Some? }

  /** The inodes that read_tree adds below the directory d. */
  function Children(src: Store, d: Entry): seq<Entry>
    requires Readable(src, d)
  {
    EntriesOf(d.path, DecodeTree(src[d.hash]).value)
  }

  /** Every tree object below e is there, at most n levels deep. */
  predicate Complete(src: Store, e: Entry, n: nat)
    decreases n
  {
    e.kind == Directory ==> n > 0 && Readable(src, e) && forall i :: 0 <= i < |Children(src, e)| ==>
        Complete(src, Children(src, e)[i], n - 1)
  }

  /** Everything below e. */
  ghost function Reach(src: Store, e: Entry, n: nat): multiset<Entry>
    decreases n, 0
  {
    if e.kind != Directory || n == 0 || !Readable(src, e) then multiset{}
    else ReachAll(src, Children(src, e), n - 1)
  }

  /** These entries and everything below them. */
  ghost function ReachAll(src: Store, es: seq<Entry>, n: nat): multiset<Entry>
    decreases n, |es| + 1
  {
    if es == [] then multiset{} else multiset{es[0]} + Reach(src, es[0], n) + ReachAll(src, es[1..], n)
  }

  predicate AllComplete(src: Store, es: seq<Entry>, n: nat) {
    forall i :: 0 <= i < |es| ==> Complete(src, es[i], n)
  }

  /** How much deeper one looks does not matter. */
  lemma {:induction false} Deeper(src: Store, e: Entry, n: nat)
    requires Complete(src, e, n)
    ensures Complete(src, e, n + 1) && Reach(src, e, n + 1) == Reach(src, e, n)
    decreases n, 0
  {
    hide DecodeTree;
    if e.kind == Directory {
      var kids := Children(src, e);
      forall i | 0 <= i < |kids| ensures Complete(src, kids[i], n) { Deeper(src, kids[i], n - 1); }
      AllDeeper(src, kids, n - 1);
    }
  }

  lemma {:induction false} AllDeeper(src: Store, es: seq<Entry>, n: nat)
    requires AllComplete(src, es, n)
    ensures ReachAll(src, es, n + 1) == ReachAll(src, es, n)
    decreases n, |es| + 1
  {
    hide Reach, Complete;
    if es != [] {
      assert Complete(src, es[0], n);
      Deeper(src, es[0], n);
      AllDeeper(src, es[1..], n);
    }
  }

  /** What is below a directory is its children and what is below them. */
  lemma Unfold(src: Store, d: Entry, n: nat)
    requires Complete(src, d, n) && d.kind == Directory
    ensures Readable(src, d) && AllComplete(src, Children(src, d), n)
    ensures Reach(src, d, n) == ReachAll(src, Children(src, d), n)
  {
    hide DecodeTree, ReachAll;
    var kids := Children(src, d);
    forall i | 0 <= i < |kids| ensures Complete(src, kids[i], n) { Deeper(src, kids[i], n - 1); }
    AllDeeper(src, kids, n - 1);
  }

  /** What is below these directories, themselves not counted. */
  ghost function BelowDirs(src: Store, ds: seq<Entry>, n: nat): multiset<Entry> {
    if ds == [] then multiset{} else Reach(src, ds[0], n) + BelowDirs(src, ds[1..], n)
  }

  lemma {:induction false} BelowAppend(src: Store, a: seq<Entry>, b: seq<Entry>, n: nat)
    ensures BelowDirs(src, a + b, n) == BelowDirs(src, a, n) + BelowDirs(src, b, n)
  {
    hide Reach;
    if a == [] { assert a + b == b; } else { assert (a + b)[1..] == a[1..] + b; BelowAppend(src, a[1..], b, n); }
  }

  lemma BelowOne(src: Store, d: Entry, n: nat)
    ensures BelowDirs(src, [d], n) == Reach(src, d, n)
  {
    hide Reach;
    assert [d][1..] == [];
  }

  predicate DirsOk(src: Store, ds: seq<Entry>, n: nat) {
    forall i :: 0 <= i < |ds| ==> ds[i].kind == Directory && Complete(src, ds[i], n)
  }

  // ---------------------------------------------------------------- moving one child

  lemma Regroup(q: multiset<Entry>, a: multiset<Entry>, b: multiset<Entry>, x: multiset<Entry>, c: multiset<Entry>,
                d: multiset<Entry>)
    requires a + b == x + c + d
    ensures (q + a) + b == x + (q + c) + d
  {
    assert (q + a) + b == q + (a + b);
  }

  lemma Moved(i: multiset<Entry>, p: multiset<Entry>, w: multiset<Entry>, b: multiset<Entry>,
              x: multiset<Entry>, p': multiset<Entry>, b': multiset<Entry>)
    requires p + b == x + p' + b'
    ensures i + p + w + b == (i + x) + p' + w + b'
  {
    assert i + p + w + b == i + w + (p + b);
  }

  lemma WalkStep(src: Store, todo: seq<Entry>, found: seq<Entry>, n: nat)
    requires AllComplete(src, todo, n) && DirsOk(src, found, n)
    ensures todo == [] ==> ReachAll(src, todo, n) == multiset{}
    ensures todo != [] ==>
      var more := found + if todo[0].kind == Directory then [todo[0]] else [];
      && AllComplete(src, todo[1..], n) && DirsOk(src, more, n)
      && ReachAll(src, todo, n) + BelowDirs(src, found, n) ==
           multiset{todo[0]} + ReachAll(src, todo[1..], n) + BelowDirs(src, more, n)
  {
    hide Reach, Complete, DecodeTree, Children, Readable, BelowDirs;
    if todo != [] {
      assert Complete(src, todo[0], n);
      if todo[0].kind == Directory {
        BelowAppend(src, found, [todo[0]], n);
        BelowOne(src, todo[0], n);
      } else {
        NothingBelow(src, todo[0], n);
        assert found + [] == found;
      }
    }
  }

  lemma NothingBelow(src: Store, e: Entry, n: nat)
    requires e.kind != Directory
    ensures Reach(src, e, n) == multiset{}
  {}
}
