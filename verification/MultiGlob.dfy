/** index::glob with a list of patterns, on an index with a tree or without: the matches of all
    patterns, sorted, without duplicates. */
module MultiGlob {
  import opened Paths
  import opened Glob
  import GlobAgreement
  import GlobList

  ghost predicate Ordered(s: seq<Tree>) { forall i, j :: 0 <= i < j < |s| ==> !Less(s[j].path, s[i].path) }

  ghost predicate StrictlyOrdered(s: seq<Tree>) { forall i, j :: 0 <= i < j < |s| ==> Less(s[i].path, s[j].path) }

  /** std::sort, as an insertion sort. */
  function Insert(t: Tree, s: seq<Tree>): seq<Tree> {
    if s == [] || !Less(s[0].path, t.path) then [t] + s else [s[0]] + Insert(t, s[1..])
  }

  function Sort(s: seq<Tree>): seq<Tree> { if s == [] then [] else Insert(s[0], Sort(s[1..])) }

  lemma {:induction false} InsertIn(t: Tree, s: seq<Tree>)
    ensures forall x :: x in Insert(t, s) <==> x == t || x in s
  {
    hide Less;
    if s != [] { InsertIn(t, s[1..]); }
  }

  lemma {:induction false} InsertOrdered(t: Tree, s: seq<Tree>)
    requires Ordered(s)
    ensures Ordered(Insert(t, s))
  {
    hide Less;
    if s != [] {
      InsertIn(t, s[1..]);
      var r := Insert(t, s[1..]);
      if Less(s[0].path, t.path) {
        InsertOrdered(t, s[1..]);
        LessAsymmetric(s[0].path, t.path);
        forall j | 0 <= j < |r| ensures !Less(r[j].path, s[0].path) { assert r[j] in r; }
      } else {
        forall j | 0 <= j < |s| ensures !Less(s[j].path, t.path) {
          if j > 0 && Less(s[j].path, t.path) {
            LessTotal(s[0].path, t.path);
            LessTotal(s[0].path, s[j].path);
            if Less(t.path, s[0].path) { LessTransitive(s[j].path, t.path, s[0].path); }
          }
        }
      }
    }
  }

  lemma {:induction false} SortOrdered(s: seq<Tree>)
    ensures Ordered(Sort(s)) && forall x :: x in Sort(s) <==> x in s
  {
    hide Less;
    if s != [] {
      SortOrdered(s[1..]);
      InsertOrdered(s[0], Sort(s[1..]));
      InsertIn(s[0], Sort(s[1..]));
    }
  }

  ghost predicate HasPath(r: seq<Tree>, p: string) { exists y :: y in r && y.path == p }

  lemma Appended(r: seq<Tree>, t: Tree)
    requires StrictlyOrdered(r) && (r != [] ==> Less(r[|r| - 1].path, t.path))
    ensures StrictlyOrdered(r + [t]) && HasPath(r + [t], t.path) && forall p :: HasPath(r, p) ==> HasPath(r + [t], p)
  {
    hide Less;
    forall k | 0 <= k < |r| ensures Less(r[k].path, t.path) {
      if k < |r| - 1 { LessTransitive(r[k].path, r[|r| - 1].path, t.path); }
    }
    assert t in r + [t] && forall y :: y in r ==> y in r + [t];
  }

  lemma LastHas(r: seq<Tree>)
    requires r != []
    ensures HasPath(r, r[|r| - 1].path)
  {
    assert r[|r| - 1] in r;
  }

  /** std::unique and erase: of neighbours with the same path the first is kept. */
  method Unique(s: seq<Tree>) returns (r: seq<Tree>)
    requires Ordered(s)
    ensures StrictlyOrdered(r) && (forall x :: x in r ==> x in s)
    ensures forall k :: 0 <= k < |s| ==> HasPath(r, s[k].path)
  {
    hide Less, HasPath, StrictlyOrdered;
    r := [];
    NothingOrdered();
    for i := 0 to |s|
      invariant StrictlyOrdered(r) && (forall x :: x in r ==> x in s)
      invariant r != [] <==> i > 0
      invariant i > 0 ==> r[|r| - 1].path == s[i - 1].path
      invariant forall k :: 0 <= k < i ==> HasPath(r, s[k].path)
    {
      if r == [] || r[|r| - 1].path != s[i].path {
        if r != [] { LessTotal(s[i - 1].path, s[i].path); }
        Appended(r, s[i]);
        r := r + [s[i]];
      } else {
        LastHas(r);
      }
    }
  }

  lemma NothingOrdered()
    ensures StrictlyOrdered([])
  {}

  /** Nodes below the root have different paths. */
  ghost predicate PathsDistinct(root: Tree) {
    forall k: nat, loc, k': nat, loc' ::
      (k < |root.kids| && ValidLoc(root.kids[k], loc) && k' < |root.kids| && ValidLoc(root.kids[k'], loc')
       && At(root.kids[k], loc).path == At(root.kids[k'], loc').path)
      ==> At(root.kids[k], loc) == At(root.kids[k'], loc')
  }

  predicate DistinctPaths(inodes: seq<Tree>) {
    forall i, j :: 0 <= i < |inodes| && 0 <= j < |inodes| && inodes[i].path == inodes[j].path ==> inodes[i] == inodes[j]
  }

  /** A pattern as glob_list keeps it. */
  predicate Kept(p: string) { p != "" && p[|p| - 1] != '/' && p[0] != '!' }

  predicate AllKept(patterns: seq<string>) { forall i :: 0 <= i < |patterns| ==> Kept(patterns[i]) }

  /** Without children the inodes' paths are searched, for which the pattern is compiled. */
  ghost predicate Finds(p: string, root: Tree, inodes: seq<Tree>, x: Tree)
    requires Kept(p)
  {
    if root.kids != [] then Globs(p, root, x) else x in inodes && GlobAgreement.Fits(p, x)
  }

  ghost predicate FindsSome(patterns: seq<string>, root: Tree, inodes: seq<Tree>, x: Tree)
    requires AllKept(patterns)
  {
    exists i :: 0 <= i < |patterns| && Finds(patterns[i], root, inodes, x)
  }

  lemma SamePathSame(patterns: seq<string>, root: Tree, inodes: seq<Tree>, x: Tree, y: Tree)
    requires PathsDistinct(root) && DistinctPaths(inodes) && AllKept(patterns)
    requires FindsSome(patterns, root, inodes, x) && FindsSome(patterns, root, inodes, y) && x.path == y.path
    ensures x == y
  {
    hide PatternMatches, GlobAgreement.Fits, Kept;
    var i :| 0 <= i < |patterns| && Finds(patterns[i], root, inodes, x);
    var j :| 0 <= j < |patterns| && Finds(patterns[j], root, inodes, y);
    if root.kids != [] {
      var k, loc :| 0 <= k < |root.kids| && ValidLoc(root.kids[k], loc) && At(root.kids[k], loc) == x
        && PatternMatches(patterns[i], Names(root.kids[k], loc));
      var k', loc' :| 0 <= k' < |root.kids| && ValidLoc(root.kids[k'], loc') && At(root.kids[k'], loc') == y
        && PatternMatches(patterns[j], Names(root.kids[k'], loc'));
    }
  }

  /** One pattern, with the descent or without. */
  method GlobOne(pattern: string, root: Tree, inodes: seq<Tree>, result: seq<Tree>) returns (r: seq<Tree>)
    requires Kept(pattern)
    ensures root.kids != [] || GlobList.IsPattern(pattern) ==>
              forall x :: x in r <==> x in result || Finds(pattern, root, inodes, x)
  {
    hide Globs, GlobAgreement.Fits, GlobList.PatternChar;
    if root.kids != [] {
      r := GlobRecursive(pattern, root, result);
    } else {
      var ok;
      ok, r := GlobAgreement.GlobLinear(pattern, inodes, result);
      assert GlobList.Trimmed(pattern) == pattern;
    }
  }

  /** What some pattern finds and nothing else, each node once, strictly increasing by path. */
  method GlobAll(patterns: seq<string>, root: Tree, inodes: seq<Tree>) returns (r: seq<Tree>)
    requires PathsDistinct(root) && DistinctPaths(inodes) && AllKept(patterns)
    ensures StrictlyOrdered(r)
    ensures root.kids != [] || (forall i :: 0 <= i < |patterns| ==> GlobList.IsPattern(patterns[i])) ==>
              forall x :: x in r <==> FindsSome(patterns, root, inodes, x)
  {
    hide Less, Finds, PathsDistinct, FindsSome, Sort, Ordered, StrictlyOrdered, Kept, DistinctPaths, GlobList.IsPattern;
    NoPatterns(root, inodes);
    ghost var sure := root.kids != [] || (forall i :: 0 <= i < |patterns| ==> GlobList.IsPattern(patterns[i]));
    var result: seq<Tree> := [];
    assert patterns[..0] == [];
    for i := 0 to |patterns|
      invariant sure ==> forall x :: x in result <==> FindsSome(patterns[..i], root, inodes, x)
    {
      result := GlobOne(patterns[i], root, inodes, result);
      forall x
        ensures FindsSome(patterns[..i + 1], root, inodes, x) <==>
                FindsSome(patterns[..i], root, inodes, x) || Finds(patterns[i], root, inodes, x)
      {
        OneMore(patterns, i, root, inodes, x);
      }
    }
    assert patterns[..|patterns|] == patterns;
    SortOrdered(result);
    r := Unique(Sort(result));
    if sure {
      forall x | x in result ensures x in r {
        assert x in Sort(result);
        var k :| 0 <= k < |Sort(result)| && Sort(result)[k] == x;
        assert HasPath(r, x.path);
        var y :| y in r && y.path == x.path;
        SamePathSame(patterns, root, inodes, x, y);
      }
    }
  }

  lemma NoPatterns(root: Tree, inodes: seq<Tree>)
    ensures forall x :: !FindsSome([], root, inodes, x)
  {}

  lemma OneMore(patterns: seq<string>, i: nat, root: Tree, inodes: seq<Tree>, x: Tree)
    requires i < |patterns| && AllKept(patterns)
    ensures FindsSome(patterns[..i + 1], root, inodes, x) <==>
            FindsSome(patterns[..i], root, inodes, x) || Finds(patterns[i], root, inodes, x)
  {
    hide Finds, Kept;
    if FindsSome(patterns[..i], root, inodes, x) {
      var j :| 0 <= j < |patterns[..i]| && Finds(patterns[..i][j], root, inodes, x);
      assert patterns[..i + 1][j] == patterns[..i][j];
    }
    if Finds(patterns[i], root, inodes, x) { assert patterns[..i + 1][i] == patterns[i]; }
    if FindsSome(patterns[..i + 1], root, inodes, x) {
      var j :| 0 <= j < |patterns[..i + 1]| && Finds(patterns[..i + 1][j], root, inodes, x);
      if j < i { assert patterns[..i][j] == patterns[..i + 1][j]; }
    }
  }
}
