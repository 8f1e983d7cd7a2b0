/** How often one pattern finds a node: index::glob with a single pattern does not remove duplicates. */
module GlobOnce {
  import opened Paths
  import opened Entries
  import opened Wildcard
  import opened Glob

  lemma {:induction false} WaysMatch(segs: seq<string>, names: seq<string>)
    ensures Ways(segs, names) > 0 <==> Matches(segs, names)
    decreases |segs| + |names|
  {
    hide Segment;
    NoNames(segs);
    if segs != [] && names != [] {
      WaysMatch(segs[1..], names);
      WaysMatch(segs, names[1..]);
      WaysMatch(segs[1..], names[1..]);
    }
  }

  // ---------------------------------------------------------------- one place for each node

  /** x is nowhere at or below the node. */
  ghost predicate Nowhere(node: Tree, x: Tree) { forall loc :: ValidLoc(node, loc) ==> At(node, loc) != x }

  ghost predicate OnlyAt(node: Tree, x: Tree, loc: seq<nat>) {
    ValidLoc(node, loc) && forall other :: ValidLoc(node, other) ==> (At(node, other) == x <==> other == loc)
  }

  lemma NowhereKid(node: Tree, x: Tree, k: nat)
    requires Nowhere(node, x) && node.kind == Directory && k < |node.kids|
    ensures Nowhere(node.kids[k], x)
  {
    forall loc | ValidLoc(node.kids[k], loc) ensures At(node.kids[k], loc) != x { Ascend(node, k, loc); }
  }

  lemma {:induction false} NowhereTotal(node: Tree, x: Tree, w: seq<string> -> nat)
    requires Nowhere(node, x)
    ensures Total(node, x, w) == 0
    decreases node
  {
    assert ValidLoc(node, []) && At(node, []) == node;
    if node.kind == Directory {
      forall k | 0 <= k < |node.kids| ensures Nowhere(node.kids[k], x) { NowhereKid(node, x, k); }
      NowhereKids(node.kids, x, names => w([Name(node.path)] + names));
    }
  }

  lemma {:induction false} NowhereKids(kids: seq<Tree>, x: Tree, w: seq<string> -> nat)
    requires forall k :: 0 <= k < |kids| ==> Nowhere(kids[k], x)
    ensures TotalKids(kids, x, w) == 0
    decreases kids
  {
    hide Nowhere;
    if kids != [] {
      NowhereTotal(kids[0], x, w);
      assert forall k :: 0 <= k < |kids[1..]| ==> kids[1..][k] == kids[k + 1];
      NowhereKids(kids[1..], x, w);
    }
  }

  lemma OnlyAtKid(node: Tree, x: Tree, loc: seq<nat>, k: nat)
    requires OnlyAt(node, x, loc) && loc != [] && k < |node.kids|
    ensures if k == loc[0] then OnlyAt(node.kids[k], x, loc[1..]) else Nowhere(node.kids[k], x)
  {
    Descend([], node, loc);
    forall other | ValidLoc(node.kids[k], other)
      ensures At(node.kids[k], other) == x <==> k == loc[0] && other == loc[1..]
    {
      Ascend(node, k, other);
      assert loc == [loc[0]] + loc[1..] && ([k] + other)[1..] == other && ([k] + other)[0] == k;
    }
  }

  /** The sum has one term for a node that is in one place. */
  lemma {:induction false} OnlyTotal(node: Tree, x: Tree, loc: seq<nat>, w: seq<string> -> nat)
    requires OnlyAt(node, x, loc)
    ensures Total(node, x, w) == w(Names(node, loc))
    decreases node, 1
  {
    assert ValidLoc(node, []) && At(node, []) == node;
    var n := [Name(node.path)];
    if loc == [] {
      assert Names(node, loc) == n;
      if node.kind == Directory {
        forall k | 0 <= k < |node.kids| ensures Nowhere(node.kids[k], x) {
          forall other | ValidLoc(node.kids[k], other) ensures At(node.kids[k], other) != x { Ascend(node, k, other); }
        }
        NowhereKids(node.kids, x, names => w(n + names));
      }
    } else {
      forall k | 0 <= k < |node.kids|
        ensures if k == loc[0] then OnlyAt(node.kids[k], x, loc[1..]) else Nowhere(node.kids[k], x)
      {
        OnlyAtKid(node, x, loc, k);
      }
      OnlyKids(node.kids, x, loc[0], loc[1..], names => w(n + names));
    }
  }

  lemma {:induction false} OnlyKids(kids: seq<Tree>, x: Tree, k: nat, loc: seq<nat>, w: seq<string> -> nat)
    requires k < |kids| && OnlyAt(kids[k], x, loc) && forall j :: 0 <= j < |kids| && j != k ==> Nowhere(kids[j], x)
    ensures TotalKids(kids, x, w) == w(Names(kids[k], loc))
    decreases kids, 0
  {
    hide Nowhere;
    assert forall j :: 0 <= j < |kids[1..]| ==> kids[1..][j] == kids[j + 1];
    if k == 0 {
      OnlyTotal(kids[0], x, loc, w);
      NowhereKids(kids[1..], x, w);
    } else {
      NowhereTotal(kids[0], x, w);
      OnlyKids(kids[1..], x, k - 1, loc, w);
    }
  }

  // ---------------------------------------------------------------- when every node is found once

  function Stars(segs: seq<string>): nat {
    if segs == [] then 0 else (if segs[0] == "**" then 1 else 0) + Stars(segs[1..])
  }

  lemma {:induction false} PlainWays(segs: seq<string>, names: seq<string>)
    requires Stars(segs) == 0
    ensures Ways(segs, names) <= if |names| == |segs| then 1 else 0
    decreases |segs|
  {
    hide Segment;
    if segs != [] && names != [] { PlainWays(segs[1..], names[1..]); }
  }

  lemma {:induction false} StarWays(rest: seq<string>, names: seq<string>)
    requires Stars(rest) == 0 && rest != []
    ensures Ways(["**"] + rest, names) <= if |rest| <= |names| then 1 else 0
    decreases |names|
  {
    hide Segment;
    assert (["**"] + rest)[1..] == rest;
    if names != [] {
      PlainWays(rest, names);
      StarWays(rest, names[1..]);
    }
  }

  lemma {:induction false} OneStarWays(segs: seq<string>, names: seq<string>)
    requires Stars(segs) <= 1
    ensures Ways(segs, names) <= 1
    decreases |segs|
  {
    hide Segment;
    if segs != [] && names != [] {
      if segs[0] == "**" {
        if |segs| > 1 {
          assert segs == ["**"] + segs[1..];
          StarWays(segs[1..], names);
        }
      } else {
        OneStarWays(segs[1..], names[1..]);
      }
    }
  }

  // two of them

  predicate RealNames(names: seq<string>) { forall i :: 0 <= i < |names| ==> names[i] != "" }

  predicate RealSegments(segs: seq<string>) { forall i :: 0 <= i < |segs| ==> segs[i] != "" }

  /** Names that match the segments, one for each of them but `**`. */
  function Sample(segs: seq<string>): seq<string> {
    if segs == [] then []
    else (if segs[0] != "**" then [Fit(segs[0])] else if |segs| == 1 then ["x"] else []) + Sample(segs[1..])
  }

  lemma {:induction false} SampleMatches(segs: seq<string>)
    requires RealSegments(segs)
    ensures Ways(segs, Sample(segs)) > 0 && RealNames(Sample(segs)) && (segs != [] ==> Sample(segs) != [])
  {
    hide Segment, Fit;
    if segs != [] {
      SampleMatches(segs[1..]);
      if segs[0] != "**" {
        SegmentFits(segs[0]);
        assert Sample(segs)[1..] == Sample(segs[1..]);
      } else if |segs| > 1 {
        assert Sample(segs) == Sample(segs[1..]);
      }
    }
  }

  lemma SegmentFits(seg: string)
    requires seg != ""
    ensures Fit(seg) != "" && Segment(seg, Fit(seg))
  {
    hide LiteralFirst, Fit;
    FitMatched(seg);
  }

  lemma PlainStep(seg: string, name: string, segs: seq<string>, names: seq<string>)
    requires seg != "**" && Segment(seg, name)
    ensures Ways([seg] + segs, [name] + names) == Ways(segs, names)
  {
    hide Segment;
    assert ([seg] + segs)[1..] == segs && ([name] + names)[1..] == names;
  }

  /** Segments without `**` in front take their own names. */
  lemma {:induction false} PlainFront(front: seq<string>, segs: seq<string>, names: seq<string>)
    requires Stars(front) == 0 && RealSegments(front) && names != []
    ensures Ways(front + segs, Sample(front) + names) == Ways(segs, names)
  {
    hide Segment, Fit, Ways;
    if front == [] {
      assert front + segs == segs && Sample(front) + names == names;
    } else {
      var more, taken := front[1..], Sample(front[1..]);
      SegmentFits(front[0]);
      assert Sample(front) == [Fit(front[0])] + taken;
      hide Sample;
      assert front + segs == [front[0]] + (more + segs) && Sample(front) + names == [Fit(front[0])] + (taken + names);
      PlainStep(front[0], Fit(front[0]), more + segs, taken + names);
      PlainFront(more, segs, names);
    }
  }

  /** `**` takes more names. */
  lemma {:induction false} StarTakes(segs: seq<string>, more: seq<string>, names: seq<string>)
    requires segs != [] && segs[0] == "**" && names != []
    ensures Ways(segs, more + names) >= Ways(segs, names)
  {
    hide Segment;
    if more == [] { assert more + names == names; }
    else {
      assert (more + names)[1..] == more[1..] + names;
      StarTakes(segs, more[1..], names);
    }
  }

  lemma {:induction false} FirstStar(segs: seq<string>) returns (i: nat)
    requires Stars(segs) > 0
    ensures i < |segs| && segs[i] == "**" && Stars(segs[..i]) == 0 && Stars(segs[i + 1..]) == Stars(segs) - 1
  {
    if segs[0] == "**" {
      i := 0;
      assert segs[..0] == [];
    } else {
      var k := FirstStar(segs[1..]);
      i := k + 1;
      assert segs[..i][1..] == segs[1..][..k] && segs[i + 1..] == segs[1..][k + 1..];
    }
  }

  /** The list is cut at its first two `**`. */
  lemma TwoStars(segs: seq<string>) returns (front: seq<string>, middle: seq<string>, last: seq<string>)
    requires Stars(segs) > 1
    ensures segs == front + (["**"] + (middle + last)) && Stars(front) == 0 && Stars(middle) == 0
    ensures last != [] && last[0] == "**"
  {
    hide Stars;
    var i := FirstStar(segs);
    var rest := segs[i + 1..];
    var j := FirstStar(rest);
    front, middle, last := segs[..i], rest[..j], rest[j..];
    assert rest == middle + last && segs == front + ([segs[i]] + rest);
  }

  lemma RealParts(front: seq<string>, middle: seq<string>, last: seq<string>)
    requires RealSegments(front + (["**"] + (middle + last)))
    ensures RealSegments(front) && RealSegments(middle) && RealSegments(last)
  {
    var segs, n := front + (["**"] + (middle + last)), |front|;
    assert forall i :: 0 <= i < n ==> front[i] == segs[i];
    assert forall i :: 0 <= i < |middle| ==> middle[i] == segs[n + 1 + i];
    assert forall i :: 0 <= i < |last| ==> last[i] == segs[n + 1 + |middle| + i];
  }

  lemma RealJoin(a: seq<string>, b: seq<string>)
    requires RealNames(a) && RealNames(b)
    ensures RealNames(a + b)
  {}

  /** With two `**` some names match in two ways: what is between them can be found twice. */
  lemma TwiceFound(segs: seq<string>) returns (names: seq<string>)
    requires Stars(segs) > 1 && RealSegments(segs)
    ensures RealNames(names) && Ways(segs, names) > 1
  {
    hide Segment, Fit, Sample, Ways, Stars, RealSegments, RealNames;
    var front, middle, last := TwoStars(segs);
    RealParts(front, middle, last);
    SampleMatches(front);
    SampleMatches(middle);
    SampleMatches(last);
    OneX();
    var tail := Sample(last);
    var once := if middle == [] then ["x"] else Sample(middle);
    var twice := if middle == [] then ["x"] + tail else Sample(middle) + (Sample(middle) + tail);
    RealJoin(once, tail);
    if middle != [] { RealJoin(Sample(middle), once + tail); }
    RealJoin(Sample(front), twice);
    TwoWays(middle, last, tail, once, twice);
    PlainFront(front, ["**"] + (middle + last), twice);
    names := Sample(front) + twice;
  }

  lemma OneX()
    ensures RealNames(["x"])
  {}

  lemma TwoWays(middle: seq<string>, last: seq<string>, tail: seq<string>, once: seq<string>, twice: seq<string>)
    requires Stars(middle) == 0 && RealSegments(middle) && last != [] && last[0] == "**"
    requires tail != [] && Ways(last, tail) > 0
    requires once == if middle == [] then ["x"] else Sample(middle)
    requires twice == if middle == [] then ["x"] + tail else Sample(middle) + (Sample(middle) + tail)
    requires middle != [] ==> Sample(middle) != []
    ensures Ways(["**"] + (middle + last), twice) > 1
  {
    hide Segment, Fit, Sample;
    var rest := middle + last;
    var all := ["**"] + rest;
    assert all[1..] == rest;
    if middle == [] {
      assert rest == last && twice[1..] == tail;
      StarTakes(last, ["x"], tail);
    } else {
      StarTakes(last, once, tail);
      PlainFront(middle, last, once + tail);
      PlainFront(middle, last, tail);
      StarTakes(all, once[1..], once + tail);
      assert twice[1..] == once[1..] + (once + tail);
    }
    assert Ways(all, twice) == Ways(rest, twice) + Ways(all, twice[1..]);
  }

  lemma NothingMatched(name: string)
    requires name != ""
    ensures !Segment("", name)
  {
    hide LiteralFirst;
    if Segment("", name) { LiteralIsWild("", name); }
  }

  /** An empty segment, as between two slashes, matches no name. */
  lemma {:induction false} EmptySegment(segs: seq<string>, names: seq<string>)
    requires "" in segs && RealNames(names)
    ensures Ways(segs, names) == 0
    decreases |segs| + |names|
  {
    hide LiteralFirst;
    if names != [] {
      assert segs[0] != "" ==> "" in segs[1..];
      if segs[0] == "" { NothingMatched(names[0]); }
      else if segs[0] == "**" {
        EmptySegment(segs[1..], names);
        EmptySegment(segs, names[1..]);
      } else {
        EmptySegment(segs[1..], names[1..]);
      }
    }
  }

  /** No names match in two ways exactly when there is at most one `**`, or a segment that matches nothing. */
  lemma OnceExactly(segs: seq<string>)
    ensures (forall names :: RealNames(names) ==> Ways(segs, names) <= 1) <==> Stars(segs) <= 1 || "" in segs
  {
    hide Ways, Stars;
    if Stars(segs) <= 1 {
      forall names ensures Ways(segs, names) <= 1 { OneStarWays(segs, names); }
    } else if "" in segs {
      forall names | RealNames(names) ensures Ways(segs, names) <= 1 { EmptySegment(segs, names); }
    } else {
      var names := TwiceFound(segs);
    }
  }

  /** glob_recursive appends a node that is in one place as often as its names match: once, or not at
      all, if the pattern is anchored and has at most one `**`, or has none. */
  lemma FoundOnce(pattern: string, root: Tree, x: Tree, k: nat, loc: seq<nat>)
    requires k < |root.kids| && OnlyAt(root.kids[k], x, loc)
    requires forall j :: 0 <= j < |root.kids| && j != k ==> Nowhere(root.kids[j], x)
    ensures TimesBelow(Effective(pattern), root.kids, x) == Ways(Effective(pattern), Names(root.kids[k], loc))
    ensures Stars(Effective(pattern)) <= 1 ==>
              TimesBelow(Effective(pattern), root.kids, x) ==
                  if Matches(Effective(pattern), Names(root.kids[k], loc)) then 1 else 0
  {
    hide Ways, Stars, Effective, Matches, TotalKids, Nowhere;
    var segs, names := Effective(pattern), Names(root.kids[k], loc);
    OnlyKids(root.kids, x, k, loc, WaysOf(segs));
    WaysMatch(segs, names);
    if Stars(segs) <= 1 { OneStarWays(segs, names); }
  }

  // ---------------------------------------------------------------- an example

  /** The directory `b` with the file `b/a`. */
  const TWICE_FILE: Tree := Tree("b/a", File, [])

  const TWICE_ROOT: Tree := Tree("", Directory, [Tree("b", Directory, [TWICE_FILE])])

  lemma TwiceWays()
    ensures Ways(["**", "**", "a"], ["b", "a"]) == 2
  {
    var one, two, three := ["a"], ["**", "a"], ["**", "**", "a"];
    assert three[1..] == two && two[1..] == one && one[1..] == [] && ["b", "a"][1..] == ["a"] && ["a"][1..] == [];
    SegmentA();
    hide Segment;
    assert Ways(one, ["a"]) == 1 && Ways(one, ["b", "a"]) == 0;
    assert Ways(two, []) == 0 && Ways(two, ["a"]) == 1;
    assert Ways(three, []) == 0 && Ways(three, ["a"]) == 1 && Ways(two, ["b", "a"]) == 1;
  }

  lemma SegmentA()
    ensures Segment("a", "a") && !Segment("a", "b")
  {
    hide LiteralFirst;
    ExactNames("a");
    ExactNames("b");
    assert LiteralFirst("a", "a") == Wild("a", "a") && LiteralFirst("a", "b") == Wild("a", "b");
    assert "a"[1..] == "" && "b"[1..] == "";
  }

  lemma TwiceEffective()
    ensures Effective("**/a") == ["**", "**", "a"]
  {
    hide Split;
    var segs := ["**", "a"];
    assert segs[1..] == ["a"] && "**" + "/" + "a" == "**/a" && Join(["a"]) == "a";
    assert Join(segs) == "**/a";
    SplitJoin(segs);
  }

  lemma TwiceNames()
    ensures Name("b") == "b" && Name("b/a") == "a"
  {
    assert "b"[..0] == "" && "b/a"[..2] == "b/";
  }

  lemma OneChild(b: Tree, f: Tree)
    requires b.kind == Directory && b.kids == [f] && f.kind != Directory
    ensures OnlyAt(b, f, [0]) && Names(b, [0]) == [Name(b.path), Name(f.path)]
  {
    hide Name;
    assert [0][1..] == [] && ValidLoc(f, []) && Names(f, []) == [Name(f.path)];
    forall other | ValidLoc(b, other) ensures At(b, other) == f <==> other == [0] {
      if other != [] {
        assert other[0] == 0 && ValidLoc(f, other[1..]) && other[1..] == [];
        assert other == [0] + other[1..];
      }
    }
  }

  /** The pattern finds the file twice: the implicit leading `**` stands for no name or for `b`. */
  lemma TwiceExample()
    ensures TimesBelow(Effective("**/a"), TWICE_ROOT.kids, TWICE_FILE) == 2
  {
    hide Ways, Effective, TotalKids, OnlyAt, Nowhere, Names, Stars, Matches, Name;
    TwiceEffective();
    TwiceNames();
    TwiceWays();
    OneChild(TWICE_ROOT.kids[0], TWICE_FILE);
    FoundOnce("**/a", TWICE_ROOT, TWICE_FILE, 0, [0]);
  }
}
