/** index::merge: the union of two indexes as trees, in which the other index wins. */
module Merge {
  import opened Paths
  import opened Entries

  /** A node of the new tree, with its children. */
  datatype Tree = Tree(entry: Entry, kids: seq<Tree>)

  /** All entries, every directory before what is in it. */
  function Preorder(ts: seq<Tree>): seq<Entry> {
    if ts == [] then [] else [ts[0].entry] + Preorder(ts[0].kids) + Preorder(ts[1..])
  }

  // ---------------------------------------------------------------- the specification

  /** An index as refresh, load and merge make it: distinct paths, every entry in a listed directory,
      siblings in order. */
  ghost predicate IndexOk(s: seq<Entry>) {
    && (forall i :: 0 <= i < |s| ==> Valid(s[i].path) && Parent(s[i].path) != ".")
    && (forall i, j :: 0 <= i < j < |s| ==> s[i].path != s[j].path)
    && (forall i :: 0 <= i < |s| && Parent(s[i].path) != "" ==> HasDirectory(s, Parent(s[i].path)))
    && (forall i, j :: 0 <= i < j < |s| && Parent(s[i].path) == Parent(s[j].path) ==> Less(s[i].path, s[j].path))
  }

  /** The other index has a file or a link at a place that is above p. */
  ghost predicate Blocked(other: seq<Entry>, p: string) {
    exists i :: 0 <= i < |other| && Below(p, other[i].path) && other[i].kind != Directory
  }

  /** The right-biased union: all of the other index, and what is in the current one at a path that
      the other does not have and that is not below a non-directory of the other. */
  ghost predicate InUnion(current: seq<Entry>, other: seq<Entry>, e: Entry) {
    e in other || (e in current && !HasPath(other, e.path) && !Blocked(other, e.path))
  }

  // ---------------------------------------------------------------- merging the children of one directory

  /** Top-level entries have no parent path, or the path `.`. */
  predicate IsChild(e: Entry, p: string) {
    if p == "" then Parent(e.path) == "" || Parent(e.path) == "." else Parent(e.path) == p
  }

  function KidsOf(s: seq<Entry>, p: string): seq<Entry> {
    if s == [] then [] else (if IsChild(s[0], p) then [s[0]] else []) + KidsOf(s[1..], p)
  }

  function MergeKids(a: seq<Entry>, b: seq<Entry>): seq<Entry>
    decreases |a| + |b|
  {
    if a == [] then b
    else if b == [] then a
    else if Less(a[0].path, b[0].path) then [a[0]] + MergeKids(a[1..], b)
    else if Less(b[0].path, a[0].path) then [b[0]] + MergeKids(a, b[1..])
    else [b[0]] + MergeKids(a[1..], b[1..])
  }

  function Limit(current: seq<Entry>, other: seq<Entry>): nat { Longest(current) + Longest(other) }

  predicate AllBelow(s: seq<Entry>, p: string, limit: nat) { forall i :: 0 <= i < |s| ==> |p| < |s[i].path| <= limit }

  lemma {:induction false} KidsFrom(s: seq<Entry>, p: string)
    ensures forall e :: e in KidsOf(s, p) <==> e in s && IsChild(e, p)
  {
    hide IsChild;
    if s != [] { KidsFrom(s[1..], p); }
  }

  lemma {:induction false} MergeFrom(a: seq<Entry>, b: seq<Entry>)
    ensures forall e :: e in MergeKids(a, b) ==> e in a || e in b
    decreases |a| + |b|
  {
    hide Less;
    if a != [] && b != [] {
      if Less(a[0].path, b[0].path) { MergeFrom(a[1..], b); }
      else if Less(b[0].path, a[0].path) { MergeFrom(a, b[1..]); }
      else { MergeFrom(a[1..], b[1..]); }
    }
  }

  lemma MergeBelow(current: seq<Entry>, other: seq<Entry>, p: string)
    requires IndexOk(current) && IndexOk(other)
    ensures AllBelow(MergeKids(KidsOf(current, p), KidsOf(other, p)), p, Limit(current, other))
  {
    hide MergeKids, KidsOf, Parent, Less, Longest;
    MergeFrom(KidsOf(current, p), KidsOf(other, p));
    KidsFrom(current, p);
    KidsFrom(other, p);
    var m := MergeKids(KidsOf(current, p), KidsOf(other, p));
    forall i | 0 <= i < |m| ensures |p| < |m[i].path| <= Limit(current, other) {
      assert m[i] in m;
      ParentShort(m[i].path);
    }
  }

  /** The new children of the directory p, with everything below them. */
  ghost function Build(current: seq<Entry>, other: seq<Entry>, p: string): seq<Tree>
    requires IndexOk(current) && IndexOk(other)
    decreases Limit(current, other) - |p|, 1
  {
    MergeBelow(current, other, p);
    BuildAll(current, other, p, MergeKids(KidsOf(current, p), KidsOf(other, p)))
  }

  ghost function BuildAll(current: seq<Entry>, other: seq<Entry>, p: string, es: seq<Entry>): (ts: seq<Tree>)
    requires IndexOk(current) && IndexOk(other) && AllBelow(es, p, Limit(current, other))
    ensures |ts| == |es| && forall i :: 0 <= i < |es| ==> ts[i] == BuildOne(current, other, p, es[i])
    decreases Limit(current, other) - |p|, 0, |es| + 1
  {
    if es == [] then [] else [BuildOne(current, other, p, es[0])] + BuildAll(current, other, p, es[1..])
  }

  ghost function BuildOne(current: seq<Entry>, other: seq<Entry>, p: string, e: Entry): Tree
    requires IndexOk(current) && IndexOk(other) && |p| < |e.path| <= Limit(current, other)
    decreases Limit(current, other) - |p|, 0, 0
  {
    Tree(e, if e.kind == Directory then Build(current, other, e.path) else [])
  }

  // ---------------------------------------------------------------- the result has the shape of a tree

  /** The children of the directory p, sorted; only directories have children. */
  ghost predicate Shaped(ts: seq<Tree>, p: string)
    decreases ts
  {
    && (forall i :: 0 <= i < |ts| ==> Valid(ts[i].entry.path) && Parent(ts[i].entry.path) == p)
    && (forall i, j :: 0 <= i < j < |ts| ==> Less(ts[i].entry.path, ts[j].entry.path))
    && (forall i :: 0 <= i < |ts| ==>
         (ts[i].entry.kind != Directory ==> ts[i].kids == []) && Shaped(ts[i].kids, ts[i].entry.path))
  }

  lemma ShapedParts(ts: seq<Tree>, p: string)
    requires Shaped(ts, p) && ts != []
    ensures Shaped(ts[0].kids, ts[0].entry.path) && Shaped(ts[1..], p)
    ensures Parent(ts[0].entry.path) == p && (ts[0].entry.kind != Directory ==> ts[0].kids == [])
  {
    hide Less, Parent, Valid;
  }

  lemma {:induction false} PreorderBelow(ts: seq<Tree>, p: string)
    requires Shaped(ts, p)
    ensures forall i :: 0 <= i < |Preorder(ts)| ==>
              Valid(Preorder(ts)[i].path) && Under(Preorder(ts)[i].path, p)
              && exists k ::
                   0 <= k < |ts| && (Preorder(ts)[i] == ts[k].entry || Below(Preorder(ts)[i].path, ts[k].entry.path))
    decreases ts
  {
    hide Less, Parent, Below;
    if ts != [] {
      ShapedParts(ts, p);
      var t, sub, rest := ts[0], Preorder(ts[0].kids), Preorder(ts[1..]);
      PreorderBelow(t.kids, t.entry.path);
      PreorderBelow(ts[1..], p);
      if p != "" { ParentAbove(t.entry.path); }
      forall i | 0 <= i < |Preorder(ts)|
        ensures Valid(Preorder(ts)[i].path) && Under(Preorder(ts)[i].path, p)
                && exists k ::
                     0 <= k < |ts| && (Preorder(ts)[i] == ts[k].entry || Below(Preorder(ts)[i].path, ts[k].entry.path))
      {
        var e := Preorder(ts)[i];
        if i == 0 {
          assert e == ts[0].entry;
        } else if i <= |sub| {
          assert e == sub[i - 1] && t.entry.path != "";
          if p != "" { BelowTransitive(e.path, t.entry.path, p); }
          assert Below(e.path, ts[0].entry.path);
        } else {
          assert e == rest[i - 1 - |sub|];
          var k :| 0 <= k < |ts[1..]| && (e == ts[1..][k].entry || Below(e.path, ts[1..][k].entry.path));
          assert ts[1..][k] == ts[k + 1];
        }
      }
    }
  }

  ghost predicate Distinct(s: seq<Entry>) { forall i, j :: 0 <= i < j < |s| ==> s[i].path != s[j].path }

  lemma DistinctParts(e: Entry, a: seq<Entry>, b: seq<Entry>)
    requires Distinct(a) && Distinct(b) && (forall i :: 0 <= i < |a| ==> a[i].path != e.path)
    requires (forall i :: 0 <= i < |b| ==> b[i].path != e.path)
    requires forall i, j :: 0 <= i < |a| && 0 <= j < |b| ==> a[i].path != b[j].path
    ensures Distinct([e] + a + b)
  {}

  /** Each path occurs once. */
  lemma {:induction false} PreorderDistinct(ts: seq<Tree>, p: string)
    requires Shaped(ts, p)
    ensures Distinct(Preorder(ts))
    decreases ts
  {
    hide Less, Parent, Below;
    if ts != [] {
      ShapedParts(ts, p);
      var t, sub, rest := ts[0].entry, Preorder(ts[0].kids), Preorder(ts[1..]);
      PreorderDistinct(ts[0].kids, t.path);
      PreorderDistinct(ts[1..], p);
      PreorderBelow(ts[0].kids, t.path);
      PreorderBelow(ts[1..], p);
      forall j | 0 <= j < |rest|
        ensures rest[j].path != t.path && !Below(rest[j].path, t.path)
      {
        var k :| 0 <= k < |ts[1..]| && (rest[j] == ts[1..][k].entry || Below(rest[j].path, ts[1..][k].entry.path));
        assert ts[1..][k] == ts[k + 1] && Less(t.path, ts[k + 1].entry.path);
        LessIrreflexive(t.path);
        if rest[j].path == t.path || Below(rest[j].path, t.path) {
          SiblingsApart(rest[j].path, t.path, ts[k + 1].entry.path);
        }
      }
      forall i | 0 <= i < |sub| ensures sub[i].path != t.path && Below(sub[i].path, t.path) { NotBelowItself(t.path); }
      DistinctParts(t, sub, rest);
    }
  }

  /** Entry i is at the top level or follows its directory. */
  ghost predicate ParentBefore(s: seq<Entry>, i: nat, p: string)
    requires i < |s|
  {
    Parent(s[i].path) == p || exists j :: 0 <= j < i && s[j].path == Parent(s[i].path) && s[j].kind == Directory
  }

  /** A part of a list keeps its parents. */
  lemma ParentShift(all: seq<Entry>, part: seq<Entry>, off: nat, i: nat, p: string)
    requires i < |part| && off + |part| <= |all| && part == all[off..off + |part|] && ParentBefore(part, i, p)
    ensures Parent(all[off + i].path) == p || ParentBefore(all, off + i, p)
  {
    hide Parent;
    assert all[off + i] == part[i];
    if Parent(part[i].path) != p {
      var j :| 0 <= j < i && part[j].path == Parent(part[i].path) && part[j].kind == Directory;
      assert all[off + j] == part[j];
    }
  }

  lemma FirstIsParent(all: seq<Entry>, i: nat, p: string)
    requires i < |all|
    requires Parent(all[i].path) == p || ParentBefore(all, i, p) || (i > 0 && all[0].kind == Directory
               && (Parent(all[i].path) == all[0].path || ParentBefore(all, i, all[0].path)))
    ensures ParentBefore(all, i, p)
  {
    hide Parent;
  }

  lemma Slices(t: Entry, sub: seq<Entry>, rest: seq<Entry>, all: seq<Entry>)
    requires all == [t] + sub + rest
    ensures |all| == 1 + |sub| + |rest| && all[0] == t
    ensures all[1..1 + |sub|] == sub && all[1 + |sub|..1 + |sub| + |rest|] == rest
  {}

  lemma PreorderCut(ts: seq<Tree>, p: string)
    requires Shaped(ts, p) && Preorder(ts) != []
    ensures ts != [] && Shaped(ts[0].kids, ts[0].entry.path) && Shaped(ts[1..], p)
    ensures Parent(ts[0].entry.path) == p && (ts[0].entry.kind != Directory ==> ts[0].kids == [])
    ensures var sub, rest, all := Preorder(ts[0].kids), Preorder(ts[1..]), Preorder(ts);
            && |all| == 1 + |sub| + |rest| && all[0] == ts[0].entry
            && all[1..1 + |sub|] == sub && all[1 + |sub|..1 + |sub| + |rest|] == rest
  {
    hide Shaped, Parent;
    assert ts != [];
    ShapedParts(ts, p);
    Slices(ts[0].entry, Preorder(ts[0].kids), Preorder(ts[1..]), Preorder(ts));
  }

  lemma {:induction false} PreorderParents(ts: seq<Tree>, p: string, i: nat)
    requires Shaped(ts, p) && i < |Preorder(ts)|
    ensures ParentBefore(Preorder(ts), i, p)
    decreases ts
  {
    hide *;
    PreorderCut(ts, p);
    var t, sub, rest, all := ts[0].entry, Preorder(ts[0].kids), Preorder(ts[1..]), Preorder(ts);
    if i == 0 {
      FirstIsParent(all, i, p);
    } else if i <= |sub| {
      PreorderParents(ts[0].kids, t.path, i - 1);
      ParentShift(all, sub, 1, i - 1, t.path);
      NoKidsOfFiles(ts, i);
      FirstIsParent(all, i, p);
    } else {
      PreorderParents(ts[1..], p, i - 1 - |sub|);
      ParentShift(all, rest, 1 + |sub|, i - 1 - |sub|, p);
      FirstIsParent(all, i, p);
    }
  }

  lemma NoKidsOfFiles(ts: seq<Tree>, i: nat)
    requires ts != [] && (ts[0].entry.kind != Directory ==> ts[0].kids == []) && 0 < i <= |Preorder(ts[0].kids)|
    ensures ts[0].entry.kind == Directory
  {}

  // ---------------------------------------------------------------- the children of one directory

  lemma {:induction false} MergeIncreasing(a: seq<Entry>, b: seq<Entry>)
    requires SortedByPath(a) && SortedByPath(b)
    ensures SortedByPath(MergeKids(a, b))
    decreases |a| + |b|
  {
    hide Less;
    if a != [] && b != [] {
      var m := MergeKids(a, b);
      var a', b' := if Less(b[0].path, a[0].path) && !Less(a[0].path, b[0].path) then a else a[1..],
                    if Less(a[0].path, b[0].path) then b else b[1..];
      MergeIncreasing(a', b');
      MergeFrom(a', b');
      LessTotal(a[0].path, b[0].path);
      forall j | 0 <= j < |MergeKids(a', b')| ensures Less(m[0].path, MergeKids(a', b')[j].path) {
        var e := MergeKids(a', b')[j];
        assert e in a' || e in b';
        HeadLess(a, b, a', b', e);
      }
    }
  }

  lemma HeadLess(a: seq<Entry>, b: seq<Entry>, a': seq<Entry>, b': seq<Entry>, e: Entry)
    requires SortedByPath(a) && SortedByPath(b) && a != [] && b != []
    requires a' == (if Less(b[0].path, a[0].path) && !Less(a[0].path, b[0].path) then a else a[1..])
    requires b' == (if Less(a[0].path, b[0].path) then b else b[1..])
    requires e in a' || e in b'
    ensures Less(if Less(a[0].path, b[0].path) then a[0].path else b[0].path, e.path)
  {
    hide Less;
    LessTotal(a[0].path, b[0].path);
    if e in a' {
      var k :| 0 <= k < |a'| && a'[k] == e;
      assert a' == a[1..] ==> Less(a[0].path, a[k + 1].path);
      assert a' == a && k > 0 ==> Less(a[0].path, a[k].path);
      if a' == a && k > 0 { LessTransitive(b[0].path, a[0].path, e.path); }
    } else {
      var k :| 0 <= k < |b'| && b'[k] == e;
      assert b' == b[1..] ==> Less(b[0].path, b[k + 1].path);
      assert b' == b && k > 0 ==> Less(b[0].path, b[k].path);
      if b' == b && k > 0 { LessTransitive(a[0].path, b[0].path, e.path); }
    }
  }

  /** All of b, and of a what b has no entry for. */
  lemma {:induction false} MergeHas(a: seq<Entry>, b: seq<Entry>, e: Entry)
    requires SortedByPath(a) && SortedByPath(b)
    ensures e in MergeKids(a, b) <==> e in b || (e in a && !HasPath(b, e.path))
    decreases |a| + |b|
  {
    hide Less;
    if a != [] && b != [] {
      LessTotal(a[0].path, b[0].path);
      assert a == [a[0]] + a[1..] && b == [b[0]] + b[1..];
      HeadApart(a, b, e.path);
      if Less(a[0].path, b[0].path) {
        MergeHas(a[1..], b, e);
      } else if Less(b[0].path, a[0].path) {
        MergeHas(a, b[1..], e);
      } else {
        MergeHas(a[1..], b[1..], e);
      }
    }
  }

  /** What the heads of two sorted lists say about the path q. */
  lemma HeadApart(a: seq<Entry>, b: seq<Entry>, q: string)
    requires SortedByPath(a) && SortedByPath(b) && a != [] && b != []
    ensures HasPath(b, q) <==> q == b[0].path || HasPath(b[1..], q)
    ensures Less(a[0].path, b[0].path) && q == a[0].path ==> !HasPath(b, q)
    ensures Less(b[0].path, a[0].path) && q == b[0].path ==> !HasPath(a, q)
    ensures q == a[0].path ==> !HasPath(a[1..], q)
    ensures q == b[0].path ==> !HasPath(b[1..], q)
  {
    hide Less;
    if HasPath(b[1..], q) {
      var i :| 0 <= i < |b[1..]| && b[1..][i].path == q;
      assert b[i + 1].path == q && Less(b[0].path, q);
    }
    if HasPath(a[1..], q) {
      var i :| 0 <= i < |a[1..]| && a[1..][i].path == q;
      assert a[i + 1].path == q && Less(a[0].path, q);
    }
    if HasPath(a, q) && q != a[0].path { var i :| 0 <= i < |a| && a[i].path == q; assert Less(a[0].path, q); }
    if HasPath(b, q) && q != b[0].path {
      var i :| 0 <= i < |b| && b[i].path == q;
      assert Less(b[0].path, q) && b[1..][i - 1] == b[i];
    }
    LessIrreflexive(q);
    if Less(a[0].path, b[0].path) { LessAsymmetric(a[0].path, b[0].path); }
    if Less(b[0].path, a[0].path) { LessAsymmetric(b[0].path, a[0].path); }
  }

  // ---------------------------------------------------------------- what the new tree is

  lemma {:induction false} KidsIncreasing(s: seq<Entry>, p: string)
    requires (forall i, j :: 0 <= i < j < |s| && Parent(s[i].path) == Parent(s[j].path) ==> Less(s[i].path, s[j].path))
    requires forall i :: 0 <= i < |s| ==> Parent(s[i].path) != "."
    ensures SortedByPath(KidsOf(s, p))
  {
    hide Less, Parent;
    if s != [] {
      KidsIncreasing(s[1..], p);
      KidsFrom(s[1..], p);
      var ks := KidsOf(s[1..], p);
      forall j | 0 <= j < |ks| && IsChild(s[0], p) ensures Less(s[0].path, ks[j].path) {
        assert ks[j] in s[1..] && IsChild(ks[j], p);
        var x :| 0 <= x < |s[1..]| && s[1..][x] == ks[j];
        assert s[x + 1] == ks[j];
      }
    }
  }

  lemma IndexParts(s: seq<Entry>)
    requires IndexOk(s)
    ensures forall i, j :: 0 <= i < j < |s| && Parent(s[i].path) == Parent(s[j].path) ==> Less(s[i].path, s[j].path)
    ensures forall i :: 0 <= i < |s| ==> Parent(s[i].path) != "." && Valid(s[i].path)
    ensures forall e, p :: e in s ==> (IsChild(e, p) <==> Parent(e.path) == p)
    ensures forall e, f :: e in s && f in s && e.path == f.path ==> e == f
    ensures forall e :: e in s && Parent(e.path) != "" ==> HasDirectory(s, Parent(e.path))
  {
    hide Less, Parent;
  }

  /** The children of the directory p in the new tree. */
  function NewKids(current: seq<Entry>, other: seq<Entry>,
                   p: string): seq<Entry> { MergeKids(KidsOf(current, p), KidsOf(other, p)) }

  lemma NewKidsAre(current: seq<Entry>, other: seq<Entry>, p: string)
    requires IndexOk(current) && IndexOk(other)
    ensures SortedByPath(NewKids(current, other, p))
    ensures forall e :: e in NewKids(current, other, p) <==>
              (e in other || (e in current && !HasPath(other, e.path))) && Parent(e.path) == p
  {
    hide Less, Parent, IndexOk;
    IndexParts(current);
    IndexParts(other);
    KidsIncreasing(current, p);
    KidsIncreasing(other, p);
    MergeIncreasing(KidsOf(current, p), KidsOf(other, p));
    KidsFrom(current, p);
    KidsFrom(other, p);
    forall e
      ensures e in NewKids(current, other, p) <==>
                (e in other || (e in current && !HasPath(other, e.path))) && Parent(e.path) == p
    {
      MergeHas(KidsOf(current, p), KidsOf(other, p), e);
      if e in current && Parent(e.path) == p { SamePath(other, KidsOf(other, p), e.path, p); }
    }
  }

  lemma SamePath(s: seq<Entry>, ks: seq<Entry>, q: string, p: string)
    requires IndexOk(s) && ks == KidsOf(s, p) && Parent(q) == p
    ensures HasPath(s, q) <==> HasPath(ks, q)
  {
    hide Parent;
    IndexParts(s);
    KidsFrom(s, p);
    if HasPath(s, q) {
      var i :| 0 <= i < |s| && s[i].path == q;
      assert s[i] in s && s[i] in ks;
    }
    if HasPath(ks, q) {
      var i :| 0 <= i < |ks| && ks[i].path == q;
      assert ks[i] in ks && ks[i] in s;
    }
  }

  lemma {:induction false} BuildShaped(current: seq<Entry>, other: seq<Entry>, p: string)
    requires IndexOk(current) && IndexOk(other)
    ensures Shaped(Build(current, other, p), p)
    decreases Limit(current, other) - |p|
  {
    hide Less, Parent, IndexOk, NewKids, Limit, Build, Valid;
    NewKidsAre(current, other, p);
    var ks, ts := NewKids(current, other, p), Build(current, other, p);
    BuildIs(current, other, p);
    NewKidsValid(current, other, p);
    forall i | 0 <= i < |ts|
      ensures (ts[i].entry.kind != Directory ==> ts[i].kids == []) && Shaped(ts[i].kids, ts[i].entry.path)
    {
      if ks[i].kind == Directory { BuildShaped(current, other, ks[i].path); } else { NothingShaped(ks[i].path); }
    }
  }

  lemma NewKidsValid(current: seq<Entry>, other: seq<Entry>, p: string)
    requires IndexOk(current) && IndexOk(other)
    ensures forall i :: 0 <= i < |NewKids(current, other, p)| ==>
              Valid(NewKids(current, other, p)[i].path) && Parent(NewKids(current, other, p)[i].path) == p
  {
    hide Less, Parent, IndexOk, NewKids, Valid;
    NewKidsAre(current, other, p);
    IndexParts(current);
    IndexParts(other);
    var ks := NewKids(current, other, p);
    forall i | 0 <= i < |ks| ensures Valid(ks[i].path) && Parent(ks[i].path) == p { assert ks[i] in ks; }
  }

  lemma NothingShaped(p: string)
    ensures Shaped([], p)
  {}

  lemma BuildIs(current: seq<Entry>, other: seq<Entry>, p: string)
    requires IndexOk(current) && IndexOk(other)
    ensures AllBelow(NewKids(current, other, p), p, Limit(current, other))
    ensures var ks, ts := NewKids(current, other, p), Build(current, other, p);
            |ts| == |ks| && forall i :: 0 <= i < |ks| ==>
              ts[i].entry == ks[i] && ts[i].kids == if ks[i].kind == Directory then Build(current, other, ks[i].path)
                                                    else []
  {
    hide IndexOk, MergeKids, KidsOf, Limit;
    MergeBelow(current, other, p);
    var ks, ts := NewKids(current, other, p), Build(current, other, p);
    assert ts == BuildAll(current, other, p, ks);
  }

  /** e is in the tree: it is one of the top nodes or below one. */
  lemma {:induction false} InPreorder(ts: seq<Tree>, e: Entry)
    ensures e in Preorder(ts) <==> exists i :: 0 <= i < |ts| && (e == ts[i].entry || e in Preorder(ts[i].kids))
  {
    if ts != [] {
      InPreorder(ts[1..], e);
      if e in Preorder(ts[1..]) {
        var i :| 0 <= i < |ts[1..]| && (e == ts[1..][i].entry || e in Preorder(ts[1..][i].kids));
        assert ts[1..][i] == ts[i + 1];
      }
      if i :| 0 < i < |ts| && (e == ts[i].entry || e in Preorder(ts[i].kids)) { assert ts[1..][i - 1] == ts[i]; }
    }
  }

  // ---------------------------------------------------------------- directories of the union

  /** The directories above an entry of an index are in it. */
  lemma {:induction false} DirsAbove(s: seq<Entry>, e: Entry, q: string)
    requires IndexOk(s) && e in s && Below(e.path, q) && Valid(q)
    ensures HasDirectory(s, q)
    decreases |e.path|
  {
    hide Below, Parent;
    IndexParts(s);
    AboveParent(e.path, q);
    ParentShort(e.path);
    if Parent(e.path) != q {
      BelowNonempty(Parent(e.path), q);
      var i :| 0 <= i < |s| && s[i].path == Parent(e.path) && s[i].kind == Directory;
      DirsAbove(s, s[i], q);
    }
  }

  /** Where one index has a directory it does not block anything. */
  lemma DirIsNoBlock(s: seq<Entry>, q: string, i: nat)
    requires IndexOk(s) && HasDirectory(s, q) && i < |s| && s[i].path == q
    ensures s[i].kind == Directory
  {
    hide Less, Parent;
  }

  /** The root or a directory of the union. */
  ghost predicate Place(current: seq<Entry>, other: seq<Entry>, p: string) {
    p == "" || exists d :: InUnion(current, other, d) && d.kind == Directory && d.path == p
  }

  /** A new child of a place is in the union. */
  lemma KidInUnion(current: seq<Entry>, other: seq<Entry>, p: string, k: Entry)
    requires IndexOk(current) && IndexOk(other) && Place(current, other, p) && Parent(k.path) == p
    requires k in other || (k in current && !HasPath(other, k.path))
    ensures InUnion(current, other, k)
  {
    hide Below, Parent, IndexOk;
    IndexParts(other);
    if k !in other && Blocked(other, k.path) {
      var i :| 0 <= i < |other| && Below(k.path, other[i].path) && other[i].kind != Directory;
      AboveParent(k.path, other[i].path);
      BelowNonempty(p, other[i].path);
      var d :| InUnion(current, other, d) && d.kind == Directory && d.path == p;
      if other[i].path != p && d in other {
        DirsAbove(other, d, other[i].path);
        DirIsNoBlock(other, other[i].path, i);
      }
    }
  }

  /** The directory above an entry of the union is in the union. */
  lemma UnionParent(current: seq<Entry>, other: seq<Entry>, e: Entry) returns (d: Entry)
    requires IndexOk(current) && IndexOk(other) && InUnion(current, other, e) && Parent(e.path) != ""
    ensures InUnion(current, other, d) && d.kind == Directory && d.path == Parent(e.path) && Below(e.path, d.path)
    ensures |d.path| < |e.path|
  {
    hide Below, Parent, IndexOk;
    IndexParts(current);
    IndexParts(other);
    assert Valid(e.path);
    ParentAbove(e.path);
    ParentShort(e.path);
    var q := Parent(e.path);
    if HasPath(other, q) {
      var i :| 0 <= i < |other| && other[i].path == q;
      d := other[i];
      if e in other {
        DirIsNoBlock(other, q, i);
      } else {
        assert d.kind != Directory ==> Blocked(other, e.path);
      }
    } else {
      assert e !in other;
      var i :| 0 <= i < |current| && current[i].path == q && current[i].kind == Directory;
      d := current[i];
      if Blocked(other, q) {
        var j :| 0 <= j < |other| && Below(q, other[j].path) && other[j].kind != Directory;
        BelowTransitive(e.path, q, other[j].path);
      }
    }
  }

  /** Above an entry of the union there are only directories of the union. */
  lemma {:induction false} UnionAbove(current: seq<Entry>, other: seq<Entry>, e: Entry, k: Entry)
    requires IndexOk(current) && IndexOk(other) && InUnion(current, other, e) && InUnion(current, other, k)
    requires Below(e.path, k.path)
    ensures k.kind == Directory
    decreases |e.path|
  {
    hide Below, Parent, IndexOk;
    UnionValid(current, other, e);
    UnionValid(current, other, k);
    AboveParent(e.path, k.path);
    BelowNonempty(Parent(e.path), k.path);
    var d := UnionParent(current, other, e);
    if d.path == k.path {
      UnionOne(current, other, d, k);
    } else {
      UnionAbove(current, other, d, k);
    }
  }

  lemma UnionValid(current: seq<Entry>, other: seq<Entry>, e: Entry)
    requires IndexOk(current) && IndexOk(other) && InUnion(current, other, e)
    ensures Valid(e.path) && e.path != ""
  {
    hide Parent, Less;
  }

  /** The union has one entry for a path. */
  lemma UnionOne(current: seq<Entry>, other: seq<Entry>, e: Entry, f: Entry)
    requires IndexOk(current) && IndexOk(other) && InUnion(current, other, e) && InUnion(current, other, f)
    requires e.path == f.path
    ensures e == f
  {
    hide IndexOk, Parent;
    IndexParts(current);
    IndexParts(other);
  }

  /** On the way from the place p to an entry below it there is one of p's new children. */
  lemma {:induction false} OnTheWay(current: seq<Entry>, other: seq<Entry>, p: string, e: Entry) returns (k: Entry)
    requires IndexOk(current) && IndexOk(other) && InUnion(current, other, e) && Under(e.path, p)
    ensures k in NewKids(current, other, p) && InUnion(current, other, k)
    ensures (e == k || (k.kind == Directory && Below(e.path, k.path)))
    decreases |e.path|
  {
    hide Below, Parent, IndexOk, NewKids;
    UnionValid(current, other, e);
    NewKidsAre(current, other, p);
    if Parent(e.path) == p {
      k := e;
    } else {
      ParentUnder(e.path, p);
      var d := UnionParent(current, other, e);
      k := OnTheWay(current, other, p, d);
      if d != k { BelowTransitive(e.path, d.path, k.path); }
    }
  }

  /** The new tree below a place is the union below it. */
  lemma {:induction false} BuildIsUnion(current: seq<Entry>, other: seq<Entry>, p: string, e: Entry)
    requires IndexOk(current) && IndexOk(other) && Place(current, other, p)
    ensures e in Preorder(Build(current, other, p)) <==> InUnion(current, other, e) && Under(e.path, p)
    decreases Limit(current, other) - |p|
  {
    hide Below, Parent, IndexOk, NewKids, Build, Preorder, Limit, Under, InUnion;
    var ks, ts := NewKids(current, other, p), Build(current, other, p);
    BuildIs(current, other, p);
    InPreorder(ts, e);
    NewKidsAre(current, other, p);
    forall i | 0 <= i < |ks|
      ensures InUnion(current, other, ks[i])
      ensures e == ts[i].entry || e in Preorder(ts[i].kids) <==>
                e == ks[i] || (ks[i].kind == Directory && InUnion(current, other, e) && Below(e.path, ks[i].path))
    {
      var k := ks[i];
      assert k in ks;
      KidInUnion(current, other, p, k);
      if k.kind == Directory {
        UnionValid(current, other, k);
        assert Place(current, other, k.path);
        BuildIsUnion(current, other, k.path, e);
        UnderIs(e.path, k.path);
      } else {
        NothingIn(e);
      }
    }
    if InUnion(current, other, e) && Under(e.path, p) {
      var k := OnTheWay(current, other, p, e);
      var i :| 0 <= i < |ks| && ks[i] == k;
    }
    if i :| 0 <= i < |ts| && (e == ts[i].entry || e in Preorder(ts[i].kids)) {
      assert ks[i] in ks;
      UnionValid(current, other, ks[i]);
      KidUnder(ks[i].path, e.path, p);
    }
  }

  lemma UnderIs(t: string, p: string)
    requires p != ""
    ensures Under(t, p) == Below(t, p)
  {}

  lemma NothingIn(e: Entry)
    ensures e !in Preorder([])
  {}

  lemma KidUnder(k: string, t: string, p: string)
    requires Valid(k) && Parent(k) == p && (t == k || Below(t, k))
    ensures Under(t, p)
  {
    if p != "" {
      ParentAbove(k);
      if t != k { BelowTransitive(t, k, p); }
    }
  }

  /** The tree that merge makes: exactly the right-biased union, each path once, every entry after its
      directory, children in order. */
  lemma MergeTheorem(current: seq<Entry>, other: seq<Entry>)
    requires IndexOk(current) && IndexOk(other)
    ensures var r := Preorder(Build(current, other, ""));
            && (forall e :: e in r <==> InUnion(current, other, e))
            && Distinct(r) && (forall i :: 0 <= i < |r| ==> ParentBefore(r, i, ""))
            && Shaped(Build(current, other, ""), "")
  {
    hide IndexOk, Build, Preorder, Shaped, InUnion, Distinct, ParentBefore;
    var ts := Build(current, other, "");
    BuildShaped(current, other, "");
    PreorderDistinct(ts, "");
    forall e ensures e in Preorder(ts) <==> InUnion(current, other, e) { BuildIsUnion(current, other, "", e); }
    forall i | 0 <= i < |Preorder(ts)| ensures ParentBefore(Preorder(ts), i, "") { PreorderParents(ts, "", i); }
  }

  // ---------------------------------------------------------------- the procedure

  lemma {:induction false} PreorderAppend(ts: seq<Tree>, t: Tree)
    ensures Preorder(ts + [t]) == Preorder(ts) + [t.entry] + Preorder(t.kids)
  {
    if ts == [] {
      assert ts + [t] == [t] && [t][1..] == [];
    } else {
      assert (ts + [t])[1..] == ts[1..] + [t];
      PreorderAppend(ts[1..], t);
    }
  }

  lemma KidsHead(e: Entry, s: seq<Entry>, p: string)
    ensures KidsOf([e] + s, p) == (if IsChild(e, p) then [e] else []) + KidsOf(s, p)
  {
    assert ([e] + s)[1..] == s;
  }

  lemma {:induction false} KidsAppend(s: seq<Entry>, e: Entry, p: string)
    ensures KidsOf(s + [e], p) == KidsOf(s, p) + if IsChild(e, p) then [e] else []
  {
    hide IsChild, KidsOf;
    NoKids(p);
    if s == [] {
      KidsHead(e, [], p);
      assert [] + [e] == [e] + [];
    } else {
      var t := s[1..];
      assert s == [s[0]] + t && s + [e] == [s[0]] + (t + [e]);
      KidsHead(s[0], t, p);
      KidsHead(s[0], t + [e], p);
      KidsAppend(t, e, p);
    }
  }

  /** The direct children of p. */
  method Collect(nodes: seq<Entry>, p: string) returns (kids: seq<Entry>)
    ensures kids == KidsOf(nodes, p)
  {
    hide KidsOf, Parent;
    kids := [];
    NoKids(p);
    for i := 0 to |nodes|
      invariant kids == KidsOf(nodes[..i], p)
    {
      KidsAppend(nodes[..i], nodes[i], p);
      assert nodes[..i + 1] == nodes[..i] + [nodes[i]];
      if (p == "" && (Parent(nodes[i].path) == "" || Parent(nodes[i].path) == ".")) ||
          (p != "" && Parent(nodes[i].path) == p) {
        kids := kids + [nodes[i]];
      }
    }
    assert nodes[..|nodes|] == nodes;
  }

  lemma NoKids(p: string)
    ensures KidsOf([], p) == []
  {}

  /** Takes the node over into the list, merges what is below it, and makes it a child. */
  method TakeOver(current: seq<Entry>, other: seq<Entry>, ghost p: string, node: Entry, inodes: seq<Entry>,
                  kids: seq<Tree>)
    returns (r: seq<Entry>, more: seq<Tree>)
    requires IndexOk(current) && IndexOk(other) && |p| < |node.path| <= Limit(current, other)
    ensures more == kids + [BuildOne(current, other, p, node)]
    ensures forall before :: inodes == before + Preorder(kids) ==> r == before + Preorder(more)
    decreases Limit(current, other) - |p|, 0
  {
    hide Build, IndexOk, Preorder, Limit;
    r := inodes + [node];
    var below: seq<Tree> := [];
    if node.kind == Directory {
      r, below := MergeRecursive(current, other, node.path, r);
    } else {
      EmptyTree();
    }
    more := kids + [Tree(node, below)];
    PreorderAppend(kids, Tree(node, below));
    forall before | inodes == before + Preorder(kids) ensures r == before + Preorder(more) {
      assert before + Preorder(kids) + [node] + Preorder(below) == before + (Preorder(kids) + [node] + Preorder(below));
    }
  }

  lemma EmptyTree()
    ensures Preorder([]) == []
  {}

  /** What one round of the merge takes. */
  lemma MergeStep(a: seq<Entry>, b: seq<Entry>)
    requires a != [] || b != []
    ensures var m := MergeKids(a, b);
            && m != []
            && (a == [] ==> m[0] == b[0] && m[1..] == MergeKids(a, b[1..]))
            && (a != [] && b == [] ==> m[0] == a[0] && m[1..] == MergeKids(a[1..], b))
            && (a != [] && b != [] && Less(a[0].path, b[0].path) ==> m[0] == a[0] && m[1..] == MergeKids(a[1..], b))
            && (a != [] && b != [] && !Less(a[0].path, b[0].path) && Less(b[0].path, a[0].path) ==>
                 m[0] == b[0] && m[1..] == MergeKids(a, b[1..]))
            && (a != [] && b != [] && !Less(a[0].path, b[0].path) && !Less(b[0].path, a[0].path) ==>
                  m[0] == b[0] && m[1..] == MergeKids(a[1..], b[1..]))
  {
    hide Less;
  }

  /** merge_recursive: appends the new subtree to the list and returns the new children of p.  They are
      in order already, so the final sort of the children changes nothing. */
  method MergeRecursive(current: seq<Entry>, other: seq<Entry>, p: string, inodes: seq<Entry>)
    returns (r: seq<Entry>, kids: seq<Tree>)
    requires IndexOk(current) && IndexOk(other)
    ensures kids == Build(current, other, p)
    ensures r == inodes + Preorder(kids)
    decreases Limit(current, other) - |p|, 1
  {
    hide IndexOk, MergeKids, KidsOf, Limit, Preorder, Less, Build;
    var a := Collect(current, p);
    var b := Collect(other, p);
    var ci, oi := 0, 0;
    r, kids := inodes, [];
    ghost var all := MergeKids(a, b);
    MergeBelow(current, other, p);
    EmptyTree();
    assert a[0..] == a && b[0..] == b && all[0..] == all;
    while ci < |a| || oi < |b|
      invariant 0 <= ci <= |a| && 0 <= oi <= |b| && |kids| <= |all|
      invariant all[|kids|..] == MergeKids(a[ci..], b[oi..])
      invariant forall i :: 0 <= i < |kids| ==> kids[i] == BuildOne(current, other, p, all[i])
      invariant r == inodes + Preorder(kids)
      decreases |a| - ci + |b| - oi
    {
      MergeStep(a[ci..], b[oi..]);
      assert |kids| < |all| && all[|kids|] == all[|kids|..][0] && all[|kids| + 1..] == all[|kids|..][1..];
      var node: Entry;
      if ci == |a| {
        node, oi := b[oi], oi + 1;
      } else if oi == |b| {
        node, ci := a[ci], ci + 1;
      } else if Less(a[ci].path, b[oi].path) {
        node, ci := a[ci], ci + 1;
      } else if Less(b[oi].path, a[ci].path) {
        node, oi := b[oi], oi + 1;
      } else {
        node, ci, oi := b[oi], ci + 1, oi + 1;
      }
      assert node == all[|kids|];
      r, kids := TakeOver(current, other, p, node, r, kids);
    }
    AllTaken(a[ci..], b[oi..]);
    BuiltAll(current, other, p, all, kids);
  }

  lemma AllTaken(a: seq<Entry>, b: seq<Entry>)
    requires a == [] && b == []
    ensures MergeKids(a, b) == []
  {}

  lemma BuiltAll(current: seq<Entry>, other: seq<Entry>, p: string, all: seq<Entry>, kids: seq<Tree>)
    requires IndexOk(current) && IndexOk(other) && all == NewKids(current, other, p) && |kids| == |all|
    requires AllBelow(all, p, Limit(current, other))
    requires forall i :: 0 <= i < |kids| ==> kids[i] == BuildOne(current, other, p, all[i])
    ensures kids == Build(current, other, p)
  {
    hide IndexOk, MergeKids, KidsOf, Limit;
    assert Build(current, other, p) == BuildAll(current, other, p, all);
  }

  /** merge: the new list, and the children of the new root. */
  method Merge(current: seq<Entry>, other: seq<Entry>) returns (r: seq<Entry>, kids: seq<Tree>)
    requires IndexOk(current) && IndexOk(other)
    ensures r == Preorder(kids) && Shaped(kids, "")
    ensures forall e :: e in r <==> InUnion(current, other, e)
    ensures Distinct(r) && forall i :: 0 <= i < |r| ==> ParentBefore(r, i, "")
  {
    hide *;
    r, kids := MergeRecursive(current, other, "", []);
    MergeTheorem(current, other);
  }
}
