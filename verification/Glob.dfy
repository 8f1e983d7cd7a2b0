/** index::glob on a populated tree: the pattern is split into segments and matched while descending,
    with `**` for any number of levels. */
module Glob {
  import opened Paths
  import opened Entries
  import opened Wildcard

  /** An inode with what is below it. */
  datatype Tree = Tree(path: string, kind: Kind, kids: seq<Tree>)

  // ---------------------------------------------------------------- the specification

  /** Where something is below a node: the child to take at each level. */
  predicate ValidLoc(node: Tree, loc: seq<nat>)
    decreases loc
  {
    loc == [] || (node.kind == Directory && loc[0] < |node.kids| && ValidLoc(node.kids[loc[0]], loc[1..]))
  }

  function At(node: Tree, loc: seq<nat>): Tree
    requires ValidLoc(node, loc)
    decreases loc
  {
    if loc == [] then node else At(node.kids[loc[0]], loc[1..])
  }

  /** The names from the node down to the place. */
  function Names(node: Tree, loc: seq<nat>): (names: seq<string>)
    requires ValidLoc(node, loc)
    ensures |names| == |loc| + 1 && names[0] == Name(node.path)
    decreases loc
  {
    [Name(node.path)] + if loc == [] then [] else Names(node.kids[loc[0]], loc[1..])
  }

  /** What glob_match_segment answers. */
  ghost predicate Segment(seg: string, name: string) { LiteralFirst(seg, name) }

  /** `**` stands for any number of names, at least one at the end of the pattern; any other segment
      stands for one name. */
  ghost predicate Matches(segs: seq<string>, names: seq<string>)
    decreases |segs| + |names|
  {
    if segs == [] then names == []
    else if segs[0] == "**" then
      if |segs| == 1 then names != [] else Matches(segs[1..], names) || (names != [] && Matches(segs, names[1..]))
    else names != [] && Segment(segs[0], names[0]) && Matches(segs[1..], names[1..])
  }

  /** x is at or below the node, and the names on the way match. */
  ghost predicate Selects(segs: seq<string>, node: Tree, x: Tree) {
    exists loc :: ValidLoc(node, loc) && At(node, loc) == x && Matches(segs, Names(node, loc))
  }

  ghost predicate SelectsBelow(segs: seq<string>, kids: seq<Tree>, x: Tree) {
    exists k :: 0 <= k < |kids| && Selects(segs, kids[k], x)
  }

  // ---------------------------------------------------------------- one level

  lemma {:induction false} NoNames(segs: seq<string>)
    ensures Matches(segs, []) <==> segs == []
    decreases |segs|
  {
    if |segs| > 1 { NoNames(segs[1..]); }
  }

  /** A selection is the node itself or a selection in one of its children. */
  lemma Descend(segs: seq<string>, node: Tree, loc: seq<nat>)
    requires ValidLoc(node, loc) && loc != []
    ensures ValidLoc(node.kids[loc[0]], loc[1..]) && At(node, loc) == At(node.kids[loc[0]], loc[1..])
    ensures Names(node, loc)[1..] == Names(node.kids[loc[0]], loc[1..])
  {}

  lemma Ascend(node: Tree, k: nat, loc: seq<nat>)
    requires node.kind == Directory && k < |node.kids| && ValidLoc(node.kids[k], loc)
    ensures ValidLoc(node, [k] + loc) && At(node, [k] + loc) == At(node.kids[k], loc)
    ensures Names(node, [k] + loc) == [Name(node.path)] + Names(node.kids[k], loc)
  {
    assert ([k] + loc)[1..] == loc;
  }

  /** What is selected in a child is selected from the node by a pattern that passes the node's name. */
  lemma FromKid(segs: seq<string>, rest: seq<string>, node: Tree, x: Tree)
    requires node.kind == Directory && SelectsBelow(rest, node.kids, x)
    requires forall names :: names != [] && names[0] == Name(node.path) && Matches(rest, names[1..]) ==>
               Matches(segs, names)
    ensures Selects(segs, node, x)
  {
    var k :| 0 <= k < |node.kids| && Selects(rest, node.kids[k], x);
    var loc :| ValidLoc(node.kids[k], loc) && At(node.kids[k], loc) == x && Matches(rest, Names(node.kids[k], loc));
    Ascend(node, k, loc);
    assert Names(node, [k] + loc)[1..] == Names(node.kids[k], loc);
  }

  lemma ToKid(rest: seq<string>, node: Tree, loc: seq<nat>)
    requires ValidLoc(node, loc) && loc != [] && Matches(rest, Names(node, loc)[1..])
    ensures node.kind == Directory && SelectsBelow(rest, node.kids, At(node, loc))
  {
    Descend(rest, node, loc);
    assert Selects(rest, node.kids[loc[0]], At(node, loc));
  }

  lemma ItselfSelected(segs: seq<string>, node: Tree)
    requires Matches(segs, [Name(node.path)])
    ensures Selects(segs, node, node)
  {
    assert ValidLoc(node, []) && At(node, []) == node && Names(node, []) == [Name(node.path)];
  }

  /** `**` at the end selects the node and everything below it. */
  lemma LastStars(node: Tree, x: Tree)
    ensures Selects(["**"], node, x) <==> x == node || (node.kind == Directory && SelectsBelow(["**"], node.kids, x))
  {
    if x == node { ItselfSelected(["**"], node); }
    if node.kind == Directory && SelectsBelow(["**"], node.kids, x) { FromKid(["**"], ["**"], node, x); }
    if Selects(["**"], node, x) {
      var loc :| ValidLoc(node, loc) && At(node, loc) == x && Matches(["**"], Names(node, loc));
      if loc != [] { ToKid(["**"], node, loc); }
    }
  }

  /** `**` before other segments: the rest applies here or further down. */
  lemma InnerStars(segs: seq<string>, node: Tree, x: Tree)
    requires |segs| > 1 && segs[0] == "**"
    ensures Selects(segs, node, x) <==>
              Selects(segs[1..], node, x) || (node.kind == Directory && SelectsBelow(segs, node.kids, x))
  {
    if Selects(segs[1..], node, x) {
      var loc :| ValidLoc(node, loc) && At(node, loc) == x && Matches(segs[1..], Names(node, loc));
      assert Matches(segs, Names(node, loc));
    }
    if node.kind == Directory && SelectsBelow(segs, node.kids, x) { FromKid(segs, segs, node, x); }
    if Selects(segs, node, x) {
      var loc :| ValidLoc(node, loc) && At(node, loc) == x && Matches(segs, Names(node, loc));
      if !Matches(segs[1..], Names(node, loc)) {
        NoNames(segs);
        assert |Names(node, loc)[1..]| == |loc|;
        ToKid(segs, node, loc);
      }
    }
  }

  /** Any other segment: where the name does not match there is nothing below to look for. */
  lemma PlainSegment(segs: seq<string>, node: Tree, x: Tree)
    requires segs != [] && segs[0] != "**"
    ensures !Segment(segs[0], Name(node.path)) ==> !Selects(segs, node, x)
    ensures Segment(segs[0], Name(node.path)) ==>
              (Selects(segs, node, x) <==>
                 if |segs| == 1 then x == node else node.kind == Directory && SelectsBelow(segs[1..], node.kids, x))
  {
    NoNames(segs[1..]);
    if Selects(segs, node, x) {
      var loc :| ValidLoc(node, loc) && At(node, loc) == x && Matches(segs, Names(node, loc));
      assert |Names(node, loc)[1..]| == |loc| && Matches(segs[1..], Names(node, loc)[1..]);
      assert |segs| == 1 ==> segs[1..] == [];
      if loc != [] {
        Descend(segs, node, loc);
        if |segs| > 1 { ToKid(segs[1..], node, loc); }
      }
    }
    if Segment(segs[0], Name(node.path)) {
      if |segs| == 1 {
        assert [Name(node.path)][1..] == [] && Matches(segs, [Name(node.path)]);
        ItselfSelected(segs, node);
      } else if node.kind == Directory && SelectsBelow(segs[1..], node.kids, x) {
        FromKid(segs, segs[1..], node, x);
      }
    }
  }

  // ---------------------------------------------------------------- how often

  /** In how many ways the names match. */
  ghost function Ways(segs: seq<string>, names: seq<string>): nat
    decreases |segs| + |names|
  {
    if names == [] then if segs == [] then 1 else 0
    else if segs == [] then 0
    else if segs[0] == "**" then if |segs| == 1 then 1 else Ways(segs[1..], names) + Ways(segs, names[1..])
    else if Segment(segs[0], names[0]) then Ways(segs[1..], names[1..]) else 0
  }

  ghost function WaysOf(segs: seq<string>): seq<string> -> nat { names => Ways(segs, names) }

  /** The sum over all places of x at and below the node, where the names on the way count for w. */
  ghost function Total(node: Tree, x: Tree, w: seq<string> -> nat): nat
    decreases node
  {
    (if node == x then w([Name(node.path)]) else 0)
    + if node.kind == Directory then TotalKids(node.kids, x, names => w([Name(node.path)] + names)) else 0
  }

  ghost function TotalKids(kids: seq<Tree>, x: Tree, w: seq<string> -> nat): nat
    decreases kids
  {
    if kids == [] then 0 else Total(kids[0], x, w) + TotalKids(kids[1..], x, w)
  }

  ghost function Times(segs: seq<string>, node: Tree, x: Tree): nat { Total(node, x, WaysOf(segs)) }

  ghost function TimesBelow(segs: seq<string>, kids: seq<Tree>, x: Tree): nat { TotalKids(kids, x, WaysOf(segs)) }

  lemma {:induction false} TotalSum(node: Tree, x: Tree, w: seq<string> -> nat, a: seq<string> -> nat,
                                    b: seq<string> -> nat)
    requires forall names :: names != [] ==> w(names) == a(names) + b(names)
    ensures Total(node, x, w) == Total(node, x, a) + Total(node, x, b)
    decreases node
  {
    var n := [Name(node.path)];
    assert w(n) == a(n) + b(n);
    if node.kind == Directory {
      forall names: seq<string> ensures w(n + names) == a(n + names) + b(n + names) { assert n + names != []; }
      TotalKidsSum(node.kids, x, names => w(n + names), names => a(n + names), names => b(n + names));
    }
  }

  lemma {:induction false} TotalKidsSum(kids: seq<Tree>, x: Tree, w: seq<string> -> nat, a: seq<string> -> nat,
                                        b: seq<string> -> nat)
    requires forall names :: names != [] ==> w(names) == a(names) + b(names)
    ensures TotalKids(kids, x, w) == TotalKids(kids, x, a) + TotalKids(kids, x, b)
    decreases kids
  {
    if kids != [] {
      TotalSum(kids[0], x, w, a, b);
      TotalKidsSum(kids[1..], x, w, a, b);
    }
  }

  lemma {:induction false} TotalZero(node: Tree, x: Tree, w: seq<string> -> nat)
    requires forall names :: names != [] ==> w(names) == 0
    ensures Total(node, x, w) == 0
    decreases node
  {
    var n := [Name(node.path)];
    assert w(n) == 0;
    if node.kind == Directory {
      forall names: seq<string> ensures w(n + names) == 0 { assert n + names != []; }
      TotalKidsZero(node.kids, x, names => w(n + names));
    }
  }

  lemma {:induction false} TotalKidsZero(kids: seq<Tree>, x: Tree, w: seq<string> -> nat)
    requires forall names :: names != [] ==> w(names) == 0
    ensures TotalKids(kids, x, w) == 0
    decreases kids
  {
    if kids != [] {
      TotalZero(kids[0], x, w);
      TotalKidsZero(kids[1..], x, w);
    }
  }

  lemma TotalKidsSame(kids: seq<Tree>, x: Tree, w: seq<string> -> nat, a: seq<string> -> nat)
    requires forall names :: names != [] ==> w(names) == a(names)
    ensures TotalKids(kids, x, w) == TotalKids(kids, x, a)
  {
    hide TotalKids;
    var zero: seq<string> -> nat := names => 0;
    TotalKidsSum(kids, x, w, a, zero);
    TotalKidsZero(kids, x, zero);
  }

  lemma {:induction false} TotalKidsOneMore(kids: seq<Tree>, k: nat, x: Tree, w: seq<string> -> nat)
    requires k < |kids|
    ensures TotalKids(kids[..k + 1], x, w) == TotalKids(kids[..k], x, w) + Total(kids[k], x, w)
  {
    hide Total;
    if k == 0 {
      assert kids[..1] == [kids[0]] && [kids[0]][1..] == [] && kids[..0] == [];
    } else {
      assert kids[..k + 1][1..] == kids[1..][..k] && kids[..k][1..] == kids[1..][..k - 1];
      TotalKidsOneMore(kids[1..], k - 1, x, w);
    }
  }

  /** The node itself, and what is below it. */
  lemma TimesSplit(segs: seq<string>, node: Tree, x: Tree, w: seq<string> -> nat)
    requires forall names :: names != [] ==> w(names) == Ways(segs, [Name(node.path)] + names)
    ensures Times(segs, node, x) == (if x == node then Ways(segs, [Name(node.path)]) else 0)
                                  + if node.kind == Directory then TotalKids(node.kids, x, w) else 0
  {
    hide TotalKids;
    var n, all := [Name(node.path)], WaysOf(segs);
    forall names: seq<string> | names != [] ensures w(names) == all(n + names) {
      assert w(names) == Ways(segs, n + names);
    }
    TotalKidsSame(node.kids, x, names => all(n + names), w);
  }

  lemma LastStarsTimes(node: Tree, x: Tree)
    ensures Times(["**"], node, x) ==
              (if x == node then 1 else 0) + if node.kind == Directory then TimesBelow(["**"], node.kids, x) else 0
  {
    hide Times, TotalKids;
    TimesSplit(["**"], node, x, WaysOf(["**"]));
  }

  lemma InnerStarsTimes(segs: seq<string>, node: Tree, x: Tree)
    requires |segs| > 1 && segs[0] == "**"
    ensures Times(segs, node, x) ==
              Times(segs[1..], node, x) + if node.kind == Directory then TimesBelow(segs, node.kids, x) else 0
  {
    hide Times, TotalKids, Segment;
    var n := [Name(node.path)];
    var w: seq<string> -> nat := names => Ways(segs, n + names);
    var here: seq<string> -> nat := names => Ways(segs[1..], n + names);
    TimesSplit(segs, node, x, w);
    TimesSplit(segs[1..], node, x, here);
    assert n[1..] == [] && Ways(segs, n) == Ways(segs[1..], n);
    forall names: seq<string> ensures w(names) == here(names) + WaysOf(segs)(names) {
      assert (n + names)[1..] == names;
    }
    TotalKidsSum(node.kids, x, w, here, WaysOf(segs));
  }

  lemma PlainTimes(segs: seq<string>, node: Tree, x: Tree)
    requires segs != [] && segs[0] != "**"
    ensures !Segment(segs[0], Name(node.path)) ==> Times(segs, node, x) == 0
    ensures Segment(segs[0], Name(node.path)) ==>
              Times(segs, node, x) == if |segs| == 1 then if x == node then 1 else 0
                                      else if node.kind == Directory then TimesBelow(segs[1..], node.kids, x) else 0
  {
    hide Times, TotalKids, Segment;
    var n := [Name(node.path)];
    var w: seq<string> -> nat := names => Ways(segs, n + names);
    TimesSplit(segs, node, x, w);
    assert n[1..] == [] && forall names :: (n + names)[1..] == names && (n + names)[0] == n[0];
    if Segment(segs[0], n[0]) {
      TotalKidsSame(node.kids, x, w, WaysOf(segs[1..]));
      if |segs| == 1 { TotalKidsZero(node.kids, x, WaysOf(segs[1..])); }
    } else {
      TotalKidsZero(node.kids, x, w);
    }
  }

  lemma EmptyTimes(node: Tree)
    ensures forall x :: Times([], node, x) == 0
  {
    hide Total;
    forall x ensures Times([], node, x) == 0 { TotalZero(node, x, WaysOf([])); }
  }

  // ---------------------------------------------------------------- the descent

  /** glob_match_node: appends exactly what the segments from i on select at the node and below, as often
      as there are ways to select it; nothing is lost by leaving out subtrees. */
  method MatchNode(segs: seq<string>, i: nat, node: Tree, result: seq<Tree>) returns (r: seq<Tree>)
    requires i <= |segs|
    ensures result <= r
    ensures forall x :: x in r <==> x in result || Selects(segs[i..], node, x)
    ensures forall x :: multiset(r)[x] == multiset(result)[x] + Times(segs[i..], node, x)
    decreases node, |segs| - i, 1
  {
    hide Matches, Segment, LiteralFirst, Selects, SelectsBelow, Times, TimesBelow;
    if i >= |segs| {
      EmptySelects(node);
      EmptyTimes(node);
      assert segs[i..] == [];
      return result;
    }
    var seg := segs[i];
    var last := i + 1 == |segs|;
    assert segs[i..][0] == seg && segs[i..][1..] == segs[i + 1..] && (last ==> segs[i..] == [seg]);
    if seg == "**" {
      if last {
        r := result + [node];
        if node.kind == Directory { r := MatchKids(segs, i, node, r); }
        forall x ensures x in r <==> x in result || Selects(segs[i..], node, x) { LastStars(node, x); }
        forall x ensures multiset(r)[x] == multiset(result)[x] + Times(segs[i..], node, x) { LastStarsTimes(node, x); }
      } else {
        r := MatchNode(segs, i + 1, node, result);
        if node.kind == Directory { r := MatchKids(segs, i, node, r); }
        forall x ensures x in r <==> x in result || Selects(segs[i..], node, x) { InnerStars(segs[i..], node, x); }
        forall x ensures multiset(r)[x] == multiset(result)[x] + Times(segs[i..], node, x) {
          InnerStarsTimes(segs[i..], node, x);
        }
      }
    } else {
      var matched := MatchSegment(seg, Name(node.path));
      IsSegment(seg, Name(node.path));
      forall x ensures
        && (!matched ==> !Selects(segs[i..], node, x))
        && (matched ==> (Selects(segs[i..], node, x) <==>
                           if last then x == node
                           else node.kind == Directory && SelectsBelow(segs[i + 1..], node.kids, x)))
      {
        PlainSegment(segs[i..], node, x);
      }
      forall x ensures
        && (!matched ==> Times(segs[i..], node, x) == 0)
        && (matched ==>
              Times(segs[i..], node, x) == if last then if x == node then 1 else 0
                                           else if node.kind == Directory then TimesBelow(segs[i + 1..], node.kids, x)
                                           else 0)
      {
        PlainTimes(segs[i..], node, x);
      }
      if !matched {
        r := result;
      } else if last {
        r := result + [node];
      } else if node.kind == Directory {
        r := MatchKids(segs, i + 1, node, result);
      } else {
        r := result;
      }
    }
  }

  lemma IsSegment(seg: string, name: string)
    ensures Segment(seg, name) == LiteralFirst(seg, name)
  {}

  lemma EmptySelects(node: Tree)
    ensures forall x :: !Selects([], node, x)
  {}

  /** The same segments for every child. */
  method MatchKids(segs: seq<string>, i: nat, node: Tree, result: seq<Tree>) returns (r: seq<Tree>)
    requires i <= |segs|
    ensures result <= r
    ensures forall x :: x in r <==> x in result || SelectsBelow(segs[i..], node.kids, x)
    ensures forall x :: multiset(r)[x] == multiset(result)[x] + TimesBelow(segs[i..], node.kids, x)
    decreases node, |segs| - i, 0
  {
    hide Matches, Segment, LiteralFirst, Selects, Total;
    r := result;
    for k := 0 to |node.kids|
      invariant result <= r
      invariant forall x :: x in r <==> x in result || SelectsBelow(segs[i..], node.kids[..k], x)
      invariant forall x :: multiset(r)[x] == multiset(result)[x] + TimesBelow(segs[i..], node.kids[..k], x)
    {
      r := MatchNode(segs, i, node.kids[k], r);
      forall x ensures SelectsBelow(segs[i..], node.kids[..k + 1], x) <==>
                         SelectsBelow(segs[i..], node.kids[..k], x) || Selects(segs[i..], node.kids[k], x) {
        OneMoreKid(segs[i..], node.kids, k, x);
      }
      forall x ensures TimesBelow(segs[i..], node.kids[..k + 1], x) ==
                         TimesBelow(segs[i..], node.kids[..k], x) + Times(segs[i..], node.kids[k], x) {
        TotalKidsOneMore(node.kids, k, x, WaysOf(segs[i..]));
      }
    }
    assert node.kids[..|node.kids|] == node.kids;
  }

  lemma OneMoreKid(segs: seq<string>, kids: seq<Tree>, k: nat, x: Tree)
    requires k < |kids|
    ensures SelectsBelow(segs, kids[..k + 1], x) <==> SelectsBelow(segs, kids[..k], x) || Selects(segs, kids[k], x)
  {
    hide Selects;
    if SelectsBelow(segs, kids[..k], x) {
      var j :| 0 <= j < |kids[..k]| && Selects(segs, kids[..k][j], x);
      assert kids[..k + 1][j] == kids[j];
    }
    if Selects(segs, kids[k], x) { assert kids[..k + 1][k] == kids[k]; }
    if SelectsBelow(segs, kids[..k + 1], x) {
      var j :| 0 <= j < |kids[..k + 1]| && Selects(segs, kids[..k + 1][j], x);
      if j < k { assert kids[..k][j] == kids[j]; }
    }
  }

  // ---------------------------------------------------------------- patterns

  /** The position of the first slash, or the length. */
  function Slash(s: string): (n: nat)
    ensures n <= |s|
    ensures n < |s| ==> s[n] == '/'
    ensures forall i :: 0 <= i < n ==> s[i] != '/'
  {
    if s == [] || s[0] == '/' then 0 else 1 + Slash(s[1..])
  }

  function Split(s: string): seq<string>
    decreases |s|
  {
    if s == "" then [] else
    var n := Slash(s);
    if n == |s| then [s] else [s[..n]] + Split(s[n + 1..])
  }

  /** A pattern with a leading slash applies from the root. */
  predicate Anchored(pattern: string) { pattern != "" && pattern[0] == '/' }

  function Segments(pattern: string): seq<string> { Split(if Anchored(pattern) then pattern[1..] else pattern) }

  /** Names with slashes between them. */
  function Join(names: seq<string>): string {
    if names == [] then "" else if |names| == 1 then names[0] else names[0] + "/" + Join(names[1..])
  }

  lemma SlashAt(s: string, n: nat)
    requires n <= |s| && (n < |s| ==> s[n] == '/') && forall i :: 0 <= i < n ==> s[i] != '/'
    ensures Slash(s) == n
  {}

  /** The segments are what is between the slashes, in order; a slash at the end has nothing behind it. */
  lemma {:induction false} SplitExactly(s: string)
    requires s != ""
    ensures Split(s) != [] && forall i :: 0 <= i < |Split(s)| ==> '/' !in Split(s)[i]
    ensures s == Join(Split(s)) + if s[|s| - 1] == '/' then "/" else ""
    decreases |s|
  {
    hide Slash, Split, Join;
    var n := Slash(s);
    SplitFirst(s);
    if n == |s| {
      JoinFirst(s, []);
      assert [s] + [] == [s] && s[|s| - 1] != '/';
    } else {
      var a, rest := s[..n], s[n + 1..];
      assert s == a + "/" + rest && '/' !in a;
      JoinFirst(a, Split(rest));
      if rest != "" {
        SplitExactly(rest);
        var e := if s[|s| - 1] == '/' then "/" else "";
        assert s[|s| - 1] == rest[|rest| - 1];
        assert a + "/" + (Join(Split(rest)) + e) == (a + "/" + Join(Split(rest))) + e;
      }
    }
  }

  lemma SplitFirst(s: string)
    requires s != ""
    ensures var n := Slash(s); Split(s) == if n == |s| then [s] else [s[..n]] + Split(s[n + 1..])
    ensures Split("") == []
  {
    hide Slash;
  }

  lemma JoinFirst(a: string, rest: seq<string>)
    ensures Join([a] + rest) == if rest == [] then a else a + "/" + Join(rest)
  {
    assert ([a] + rest)[1..] == rest;
  }

  /** Splitting undoes joining. */
  lemma {:induction false} SplitJoin(names: seq<string>)
    requires forall i :: 0 <= i < |names| ==> names[i] != "" && '/' !in names[i]
    ensures Split(Join(names)) == names
    decreases |names|
  {
    hide Slash;
    if names != [] {
      var name, s := names[0], Join(names);
      forall i | 0 <= i < |name| ensures name[i] != '/' && s[i] == name[i] { assert name[i] in name; }
      SlashAt(s, |name|);
      if |names| > 1 {
        SplitJoin(names[1..]);
        assert s[..|name|] == name && s[|name| + 1..] == Join(names[1..]);
      }
    }
  }

  lemma SplitStep(s: string, start: nat)
    requires start < |s|
    ensures var n := start + Slash(s[start..]);
            Split(s[start..]) == if n == |s| then [s[start..]] else [s[start..n]] + Split(s[n + 1..])
  {
    hide Slash;
    var n := start + Slash(s[start..]);
    if n < |s| { assert s[start..][..n - start] == s[start..n] && s[start..][n - start + 1..] == s[n + 1..]; }
  }

  /** split_glob_pattern. */
  method SplitPattern(pattern: string) returns (segs: seq<string>)
    ensures segs == Segments(pattern)
  {
    hide Split, Slash;
    segs := [];
    var start := if Anchored(pattern) then 1 else 0;
    assert [] + Split(pattern[start..]) == Segments(pattern) by { assert pattern[0..] == pattern; }
    while start < |pattern|
      invariant 0 <= start <= |pattern|
      invariant segs + Split(pattern[start..]) == Segments(pattern)
    {
      SplitStep(pattern, start);
      var slash := start + Slash(pattern[start..]);
      if slash == |pattern| { return segs + [pattern[start..]]; }
      assert segs + ([pattern[start..slash]] + Split(pattern[slash + 1..])) ==
               (segs + [pattern[start..slash]]) + Split(pattern[slash + 1..]);
      segs := segs + [pattern[start..slash]];
      start := slash + 1;
    }
    SplitNothing(pattern[start..]);
    assert segs + [] == segs;
  }

  lemma SplitNothing(s: string)
    requires s == ""
    ensures Split(s) == []
  {}

  /** A path matches an anchored pattern as a whole, any other pattern with some end of it. */
  ghost predicate PatternMatches(pattern: string, names: seq<string>) {
    var segs := Segments(pattern);
    segs != [] && if Anchored(pattern) then Matches(segs, names)
                  else exists m :: 0 <= m <= |names| && Matches(segs, names[m..])
  }

  /** An implicit leading `**` means: some end of the path matches. */
  lemma {:induction false} LeadingStars(segs: seq<string>, names: seq<string>)
    requires segs != []
    ensures Matches(["**"] + segs, names) <==> exists m :: 0 <= m <= |names| && Matches(segs, names[m..])
    decreases |names|
  {
    var all := ["**"] + segs;
    assert all[1..] == segs && names[0..] == names;
    if names != [] {
      LeadingStars(segs, names[1..]);
      if Matches(all, names[1..]) {
        var m :| 0 <= m <= |names[1..]| && Matches(segs, names[1..][m..]);
        assert names[1..][m..] == names[m + 1..];
      }
      if m :| 0 < m <= |names| && Matches(segs, names[m..]) {
        assert names[1..][m - 1..] == names[m..];
      }
    }
  }

  /** The node below the root is at a path that the pattern matches. */
  ghost predicate Globs(pattern: string, root: Tree, x: Tree) {
    exists k, loc :: 0 <= k < |root.kids| && ValidLoc(root.kids[k], loc) && At(root.kids[k], loc) == x
      && PatternMatches(pattern, Names(root.kids[k], loc))
  }

  lemma GlobsIsSelects(pattern: string, segs: seq<string>, root: Tree, x: Tree)
    requires segs == Segments(pattern) && segs != []
    ensures Globs(pattern, root, x) <==> SelectsBelow(if Anchored(pattern) then segs else ["**"] + segs, root.kids, x)
  {
    hide Matches, Segments;
    var all := if Anchored(pattern) then segs else ["**"] + segs;
    forall names ensures PatternMatches(pattern, names) <==> Matches(all, names) { LeadingStars(segs, names); }
    if SelectsBelow(all, root.kids, x) {
      var k :| 0 <= k < |root.kids| && Selects(all, root.kids[k], x);
      var loc :| ValidLoc(root.kids[k], loc) && At(root.kids[k], loc) == x && Matches(all, Names(root.kids[k], loc));
      assert PatternMatches(pattern, Names(root.kids[k], loc));
    }
    if Globs(pattern, root, x) {
      var k, loc :| 0 <= k < |root.kids| && ValidLoc(root.kids[k], loc) && At(root.kids[k], loc) == x
        && PatternMatches(pattern, Names(root.kids[k], loc));
      assert Selects(all, root.kids[k], x);
    }
  }

  /** The segments to descend with. */
  function Effective(pattern: string): seq<string> {
    var segs := Segments(pattern);
    if segs == [] || Anchored(pattern) then segs else ["**"] + segs
  }

  /** glob_recursive: appends exactly the nodes below the root whose path the pattern matches, as often as
      there are ways to match it. */
  method GlobRecursive(pattern: string, root: Tree, result: seq<Tree>) returns (r: seq<Tree>)
    ensures result <= r
    ensures forall x :: x in r <==> x in result || Globs(pattern, root, x)
    ensures forall x :: multiset(r)[x] == multiset(result)[x] + TimesBelow(Effective(pattern), root.kids, x)
  {
    hide Segments, SelectsBelow, Globs, Matches, TimesBelow;
    var segs := SplitPattern(pattern);
    if segs == [] {
      NoSegments(pattern, root);
      forall x ensures TimesBelow([], root.kids, x) == 0 { NoTimes(root.kids, x); }
      return result;
    }
    forall x
      ensures Globs(pattern, root, x) <==> SelectsBelow(if Anchored(pattern) then segs else ["**"] + segs, root.kids, x)
    {
      GlobsIsSelects(pattern, segs, root, x);
    }
    var effective := if Anchored(pattern) then segs else ["**"] + segs;
    assert effective[0..] == effective;
    r := MatchKids(effective, 0, root, result);
  }

  lemma NoTimes(kids: seq<Tree>, x: Tree)
    ensures TimesBelow([], kids, x) == 0
  {
    hide TotalKids;
    TotalKidsZero(kids, x, WaysOf([]));
  }

  lemma NoSegments(pattern: string, root: Tree)
    requires Segments(pattern) == []
    ensures forall x :: !Globs(pattern, root, x)
  {}
}
