/** The two implementations of index::glob: on an index without a tree the compiled pattern ought to
    match exactly the inodes that lie at or below what the descent finds.  For which patterns of plain
    characters, stars and question marks it does. */
module GlobAgreement {
  import opened Wildcard
  import opened Glob
  import opened Regexes
  import opened GlobList
  import opened GlobLanguage

  // ---------------------------------------------------------------- wildcards on paths

  /** On text without slashes it is the ordinary wildcard. */
  lemma {:induction false} SegmentWild(seg: string, t: string)
    requires '/' !in t
    ensures PathWild(seg, t) <==> Wild(seg, t)
    decreases |seg| + |t|
  {
    if seg != "" {
      assert t != "" ==> t[0] in t && forall c :: c in t[1..] ==> c in t;
      SegmentWild(seg[1..], t);
      if t != "" {
        SegmentWild(seg, t[1..]);
        SegmentWild(seg[1..], t[1..]);
      }
    }
  }

  lemma {:induction false} PathConcat(p: string, u: string, q: string, v: string)
    requires PathWild(p, u) && PathWild(q, v)
    ensures PathWild(p + q, u + v)
    decreases |p| + |u|
  {
    if p == "" {
      assert p + q == q && u + v == v;
    } else {
      assert (p + q)[0] == p[0] && (p + q)[1..] == p[1..] + q;
      assert u != "" ==> (u + v)[0] == u[0] && (u + v)[1..] == u[1..] + v;
      if p[0] == '*' {
        if PathWild(p[1..], u) { PathConcat(p[1..], u, q, v); } else { PathConcat(p, u[1..], q, v); }
      } else {
        PathConcat(p[1..], u[1..], q, v);
      }
    }
  }

  /** A slash in the pattern takes some slash of the text. */
  lemma {:induction false} SlashSplit(seg: string, rest: string, t: string) returns (k: nat)
    requires PathWild(seg + "/" + rest, t)
    ensures k < |t| && t[k] == '/' && PathWild(seg, t[..k]) && PathWild(rest, t[k + 1..])
    decreases |seg| + |t|
  {
    var p := seg + "/" + rest;
    if seg == "" {
      assert p[0] == '/' && p[1..] == rest;
      k := 0;
    } else {
      assert p[0] == seg[0] && p[1..] == seg[1..] + "/" + rest;
      if p[0] == '*' && PathWild(p[1..], t) {
        k := SlashSplit(seg[1..], rest, t);
      } else {
        var k' := SlashSplit(if p[0] == '*' then seg else seg[1..], rest, t[1..]);
        k := k' + 1;
        assert t[..k][0] == t[0] && t[..k][1..] == t[1..][..k'] && t[k + 1..] == t[1..][k' + 1..];
      }
    }
  }

  // ---------------------------------------------------------------- question marks that cannot take a slash

  /** Some question mark has a character on each side. */
  predicate Crossing(seg: string) { exists k :: 0 < k < |seg| - 1 && seg[k] == '?' }

  lemma {:induction false} LastOnly(seg: string, t: string)
    requires '/' !in seg && (forall k :: 0 <= k < |seg| - 1 ==> seg[k] != '?') && PathWild(seg, t)
    requires t != "" ==> t[|t| - 1] != '/'
    ensures '/' !in t
    decreases |seg| + |t|
  {
    if seg != "" {
      assert seg[0] in seg && forall c :: c in seg[1..] ==> c in seg;
      if seg[0] == '*' && PathWild(seg[1..], t) {
        LastOnly(seg[1..], t);
      } else {
        LastOnly(if seg[0] == '*' then seg else seg[1..], t[1..]);
        assert t == [t[0]] + t[1..];
      }
    }
  }

  /** Text that neither begins nor ends with a slash then has none. */
  lemma EndsOnly(seg: string, t: string)
    requires '/' !in seg && !Crossing(seg) && PathWild(seg, t) && t != "" && t[0] != '/' && t[|t| - 1] != '/'
    ensures '/' !in t
  {
    if seg[0] == '?' {
      assert forall c :: c in seg[1..] ==> c in seg;
      LastOnly(seg[1..], t[1..]);
      assert t == [t[0]] + t[1..];
    } else {
      LastOnly(seg, t);
    }
  }

  lemma {:induction false} JoinPlain(names: seq<string>)
    requires NamesOk(names) && names != []
    ensures Paths.Plain(Join(names))
  {
    hide LineEnd;
    assert NameOk(names[0]);
    if |names| > 1 {
      JoinPlain(names[1..]);
      JoinChars(names);
    }
  }

  /** A component's end is not preceded by a slash. */
  lemma PlainEnd(s: string, b: nat)
    requires Paths.Plain(s) && EndsAt(s, b)
    ensures 0 < b && s[0] != '/' && s[b - 1] != '/'
  {}

  // ---------------------------------------------------------------- the first segment

  /** The pattern's segments match the first names one by one. */
  ghost predicate FirstMatch(segs: seq<string>, names: seq<string>) {
    |segs| <= |names| && forall i :: 0 <= i < |segs| ==> Wild(segs[i], names[i])
  }

  lemma FirstAndRest(segs: seq<string>, names: seq<string>)
    requires segs != [] && names != []
    ensures FirstMatch(segs, names) <==> Wild(segs[0], names[0]) && FirstMatch(segs[1..], names[1..])
  {
    hide Wild;
    if Wild(segs[0], names[0]) && FirstMatch(segs[1..], names[1..]) {
      forall i | 0 <= i < |segs| ensures Wild(segs[i], names[i]) {
        if i > 0 { assert segs[1..][i - 1] == segs[i] && names[1..][i - 1] == names[i]; }
      }
    }
  }

  /** Without slashes up to there, the end of a component is the end of the first one. */
  lemma FirstEnd(names: seq<string>, b: nat)
    requires NamesOk(names) && names != [] && EndsAt(Join(names), b) && '/' !in Join(names)[..b]
    ensures b == |names[0]| && Join(names)[..b] == names[0]
  {
    hide NameOk;
    var s := Join(names);
    NameSlash(names);
    assert forall i :: 0 <= i < b ==> s[i] == s[..b][i] && s[..b][i] in s[..b];
    SlashAt(s, b);
  }

  /** A segment at the start, followed by others: they start at a later component, at the next one if
      the segment cannot take a slash. */
  lemma HeadStart(seg: string, rest: string, names: seq<string>) returns (g: nat)
    requires SimpleSegment(seg) && NamesOk(names) && names != [] && StartMatches(seg + "/" + rest, Join(names))
    ensures 1 <= g < |names| && StartMatches(rest, Join(names[g..]))
    ensures !Crossing(seg) ==> g == 1 && Wild(seg, names[0])
  {
    hide Wild, PathWild, Crossing, SimpleSegment, NameOk, Join;
    var s := Join(names);
    var b: nat :| EndsAt(s, b) && PathWild(seg + "/" + rest, s[..b]);
    var k := SlashSplit(seg, rest, s[..b]);
    assert s[..b][..k] == s[..k] && s[..b][k + 1..] == s[k + 1..][..b - k - 1];
    assert EndsAt(s[k + 1..], b - k - 1) && EndsAt(s, k);
    NoSlash(seg);
    JoinPlain(names);
    PlainEnd(s, k);
    if Crossing(seg) {
      g := Beginnings(names, k + 1);
      assert names[0..] == names;
    } else {
      EndsOnly(seg, s[..k]);
      FirstEnd(names, k);
      SegmentWild(seg, names[0]);
      NameSlash(names);
      LastName(names);
      g := 1;
    }
  }

  lemma LastName(names: seq<string>)
    requires names != [] && |names[0]| < |Join(names)|
    ensures |names| > 1
  {}

  lemma LastStart(seg: string, names: seq<string>)
    requires SimpleSegment(seg) && !Crossing(seg) && NamesOk(names) && names != [] && StartMatches(seg, Join(names))
    ensures Wild(seg, names[0])
  {
    hide Wild, PathWild, Crossing, SimpleSegment, NameOk, Join;
    var s := Join(names);
    var b: nat :| EndsAt(s, b) && PathWild(seg, s[..b]);
    NoSlash(seg);
    JoinPlain(names);
    PlainEnd(s, b);
    EndsOnly(seg, s[..b]);
    FirstEnd(names, b);
    SegmentWild(seg, names[0]);
  }

  /** Names that match one by one match the compiled pattern. */
  lemma {:induction false} FirstIsStart(segs: seq<string>, names: seq<string>)
    requires SimpleSegments(segs) && NamesOk(names) && FirstMatch(segs, names)
    ensures StartMatches(Join(segs), Join(names))
  {
    hide Wild, PathWild, SimpleSegment, NameOk;
    var s, n := Join(names), |names[0]|;
    NameSlash(names);
    NameNoSlash(names, 0);
    SegmentWild(segs[0], names[0]);
    if |segs| == 1 {
      assert EndsAt(s, n) && PathWild(Join(segs), s[..n]);
    } else {
      FirstAndRest(segs, names);
      FirstIsStart(segs[1..], names[1..]);
      StartWhole(segs[0], Join(segs[1..]), names);
    }
  }

  lemma NameNoSlash(names: seq<string>, i: nat)
    requires NamesOk(names) && i < |names|
    ensures '/' !in names[i] && names[i] != ""
  {
    assert NameOk(names[i]);
  }

  lemma SlashItself()
    ensures PathWild("/", "/")
  {
    assert "/"[1..] == "";
  }

  lemma StartWhole(seg: string, rest: string, names: seq<string>)
    requires NamesOk(names) && |names| > 1 && PathWild(seg, names[0]) && StartMatches(rest, Join(names[1..]))
    ensures StartMatches(seg + "/" + rest, Join(names))
  {
    hide PathWild, NameOk, Join;
    NameSlash(names);
    var s, n := Join(names), |names[0]|;
    var b: nat :| EndsAt(Join(names[1..]), b) && PathWild(rest, Join(names[1..])[..b]);
    var e := n + 1 + b;
    SlashItself();
    PathConcat(seg, names[0], "/", "/");
    PathConcat(seg + "/", names[0] + "/", rest, Join(names[1..])[..b]);
    assert s[..e] == names[0] + "/" + Join(names[1..])[..b];
    assert EndsAt(s, e);
  }

  // ---------------------------------------------------------------- when the two agree

  /** Matches every name. */
  predicate Universal(seg: string) { seg == "*" || seg == "?*" || seg == "*?" || seg == "*?*" }

  predicate AllUniversal(segs: seq<string>) { forall i :: 0 <= i < |segs| ==> Universal(segs[i]) }

  /** A question mark inside a segment is harmless only in `*?*`, and only if all segments after it
      match every name, or all before it do and the pattern is not anchored. */
  predicate Agreeing(anchored: bool, segs: seq<string>) {
    forall i :: 0 <= i < |segs| && Crossing(segs[i]) ==>
      segs[i] == "*?*" && ((!anchored && AllUniversal(segs[..i])) || AllUniversal(segs[i + 1..]))
  }

  lemma UniversalWild(seg: string, name: string)
    requires Universal(seg) && name != ""
    ensures Wild(seg, name)
  {
    StarAll(name);
    StarAll(name[1..]);
    AllStar(name);
    assert "?*"[1..] == "*" && "*?"[1..] == "?" && "*?*"[1..] == "?*";
    if seg == "*?*" { assert Wild("?*", name); }
  }

  lemma {:induction false} StarAll(name: string)
    ensures Wild("*", name)
  {
    assert "*"[1..] == "";
    if name != "" { StarAll(name[1..]); }
  }

  lemma {:induction false} AllStar(name: string)
    requires name != ""
    ensures Wild("*?", name)
  {
    assert "*?"[1..] == "?" && "?"[1..] == "";
    if |name| > 1 { AllStar(name[1..]); } else { assert name[1..] == "" && Wild("?", name); }
  }

  lemma FirstUniversal(segs: seq<string>, names: seq<string>)
    requires AllUniversal(segs) && |segs| <= |names| && NamesOk(names)
    ensures FirstMatch(segs, names)
  {
    hide Wild, Universal, NameOk;
    forall i | 0 <= i < |segs| ensures Wild(segs[i], names[i]) {
      NameNoSlash(names, i);
      UniversalWild(segs[i], names[i]);
    }
  }

  /** Each segment takes a component at least. */
  lemma {:induction false} StartCounts(segs: seq<string>, names: seq<string>)
    requires SimpleSegments(segs) && NamesOk(names) && names != [] && StartMatches(Join(segs), Join(names))
    ensures |segs| <= |names|
  {
    hide PathWild, SimpleSegment, NameOk, StartMatches;
    if |segs| > 1 {
      var g := HeadStart(segs[0], Join(segs[1..]), names);
      RestOk(names, g);
      StartCounts(segs[1..], names[g..]);
    }
  }

  lemma AgreeingTail(segs: seq<string>)
    requires segs != [] && Agreeing(true, segs)
    ensures Agreeing(true, segs[1..]) && (Crossing(segs[0]) ==> AllUniversal(segs))
  {
    hide Crossing, Universal;
    forall i | 0 <= i < |segs[1..]| && Crossing(segs[1..][i])
      ensures segs[1..][i] == "*?*" && AllUniversal(segs[1..][i + 1..])
    {
      assert segs[1..][i] == segs[i + 1] && segs[1..][i + 1..] == segs[i + 2..];
    }
    if Crossing(segs[0]) {
      StarsUniversal();
      forall i | 0 <= i < |segs| ensures Universal(segs[i]) { if i > 0 { assert segs[i] == segs[1..][i - 1]; } }
    }
  }

  lemma StarsUniversal()
    ensures Universal("*?*")
  {}

  /** From a fixed beginning: what matches the compiled pattern matches name by name. */
  lemma {:induction false} TailAgrees(segs: seq<string>, names: seq<string>)
    requires SimpleSegments(segs) && Agreeing(true, segs) && NamesOk(names) && names != []
    requires StartMatches(Join(segs), Join(names))
    ensures FirstMatch(segs, names)
  {
    hide Wild, PathWild, SimpleSegment, NameOk, StartMatches, Crossing, Universal, Agreeing;
    AgreeingTail(segs);
    if Crossing(segs[0]) {
      StartCounts(segs, names);
      FirstUniversal(segs, names);
    } else if |segs| == 1 {
      LastStart(segs[0], names);
    } else {
      var g := HeadStart(segs[0], Join(segs[1..]), names);
      RestOk(names, 1);
      TailAgrees(segs[1..], names[1..]);
      FirstAndRest(segs, names);
    }
  }

  /** A pattern that is harmless only because of what comes before begins with a segment for every name. */
  lemma AgreeingFront(segs: seq<string>)
    requires segs != [] && Agreeing(false, segs) && !Agreeing(true, segs)
    ensures |segs| > 1 && Universal(segs[0]) && Agreeing(false, segs[1..])
  {
    hide Crossing, Universal;
    StarsUniversal();
    var i :| 0 <= i < |segs| && Crossing(segs[i]) && !(segs[i] == "*?*" && AllUniversal(segs[i + 1..]));
    assert i > 0 ==> segs[..i][0] == segs[0];
    forall j | 0 <= j < |segs[1..]| && Crossing(segs[1..][j])
      ensures segs[1..][j] == "*?*" && (AllUniversal(segs[1..][..j]) || AllUniversal(segs[1..][j + 1..]))
    {
      assert segs[1..][j] == segs[j + 1] && segs[1..][j + 1..] == segs[j + 2..];
      if AllUniversal(segs[..j + 1]) {
        forall x | 0 <= x < j ensures Universal(segs[1..][..j][x]) { assert segs[1..][..j][x] == segs[..j + 1][x + 1]; }
      }
    }
  }

  /** With a free beginning: perhaps from a later component on. */
  lemma {:induction false} FrontAgrees(segs: seq<string>, names: seq<string>) returns (m: nat)
    requires SimpleSegments(segs) && Agreeing(false, segs) && NamesOk(names) && names != []
    requires StartMatches(Join(segs), Join(names))
    ensures m < |names| && FirstMatch(segs, names[m..])
    decreases |segs|
  {
    hide Wild, PathWild, SimpleSegment, NameOk, StartMatches, Crossing, Universal, Agreeing;
    if Agreeing(true, segs) {
      TailAgrees(segs, names);
      m := 0;
      assert names[0..] == names;
    } else {
      AgreeingFront(segs);
      var g := HeadStart(segs[0], Join(segs[1..]), names);
      RestOk(names, g);
      var m' := FrontAgrees(segs[1..], names[g..]);
      m := g + m' - 1;
      NameNoSlash(names, m);
      UniversalWild(segs[0], names[m]);
      assert names[m..][1..] == names[g..][m'..];
      FirstAndRest(segs, names[m..]);
    }
  }

  // ---------------------------------------------------------------- the descent

  /** Without `**` the segments match as many names, one by one. */
  lemma {:induction false} MatchesSimple(segs: seq<string>, names: seq<string>)
    requires (forall i :: 0 <= i < |segs| ==> SimpleSegment(segs[i])) && NamesOk(names)
    ensures Matches(segs, names) <==> |segs| == |names| && FirstMatch(segs, names)
    decreases |segs|
  {
    hide Wild, LiteralFirst, LineEnd;
    if segs != [] {
      assert SimpleSegment(segs[0]);
      NotStars(segs[0]);
      if names != [] {
        assert NameOk(names[0]);
        NoStar(names[0]);
        ExactNames(names[0]);
        FirstAndRest(segs, names);
        MatchesSimple(segs[1..], names[1..]);
      }
    }
  }

  lemma NotStars(seg: string)
    requires SingleStars(seg)
    ensures seg != "**"
  {
    assert |seg| > 1 ==> !(seg[0] == '*' && seg[1] == '*');
  }

  lemma NoStar(name: string)
    requires NameOk(name)
    ensures '*' !in name
  {}

  lemma PatternIs(anchored: bool, segs: seq<string>)
    requires SimpleSegments(segs)
    ensures Segments(Pattern(anchored, segs)) == segs && Anchored(Pattern(anchored, segs)) == anchored
  {
    hide Split, Join;
    CompiledIs(anchored, segs);
    forall i | 0 <= i < |segs| ensures segs[i] != "" && '/' !in segs[i] { NoSlash(segs[i]); }
    SplitJoin(segs);
    if anchored {
      assert Pattern(anchored, segs)[1..] == Join(segs);
    } else {
      assert Pattern(anchored, segs) == Join(segs);
    }
  }

  ghost predicate SomePrefix(p: string,
                             names: seq<string>) { exists j: nat :: 0 < j <= |names| && PatternMatches(p, names[..j]) }

  /** A run of names that matches ends some prefix of the path. */
  lemma PrefixMeans(anchored: bool, segs: seq<string>, names: seq<string>)
    requires SimpleSegments(segs) && NamesOk(names) && names != []
    ensures SomePrefix(Pattern(anchored, segs), names) <==>
              exists m: nat :: m < |names| && (anchored ==> m == 0) && FirstMatch(segs, names[m..])
  {
    hide Wild, Matches, SimpleSegment, NameOk, Join, Segments, FirstMatch;
    var p := Pattern(anchored, segs);
    PatternIs(anchored, segs);
    if SomePrefix(p, names) {
      var j: nat :| 0 < j <= |names| && PatternMatches(p, names[..j]);
      var m: nat := 0;
      assert names[..j][0..] == names[..j];
      if !anchored { m :| 0 <= m <= |names[..j]| && Matches(segs, names[..j][m..]); }
      PartOk(names, m, j);
      MatchesSimple(segs, names[..j][m..]);
      FirstOf(segs, names, m, j);
    }
    if m: nat :| m < |names| && (anchored ==> m == 0) && FirstMatch(segs, names[m..]) {
      FirstShort(segs, names[m..]);
      var j := m + |segs|;
      PartOk(names, m, j);
      FirstOf(segs, names, m, j);
      MatchesSimple(segs, names[..j][m..]);
      assert names[..j][0..] == names[..j];
      assert PatternMatches(p, names[..j]);
    }
  }

  lemma FirstShort(segs: seq<string>, names: seq<string>)
    requires FirstMatch(segs, names)
    ensures |segs| <= |names|
  {}

  lemma PartOk(names: seq<string>, m: nat, j: nat)
    requires NamesOk(names) && m <= j <= |names|
    ensures NamesOk(names[..j][m..])
  {
    hide NameOk;
  }

  lemma FirstOf(segs: seq<string>, names: seq<string>, m: nat, j: nat)
    requires m <= j <= |names| && j - m == |segs|
    ensures FirstMatch(segs, names[..j][m..]) <==> FirstMatch(segs, names[m..])
  {
    hide Wild;
    assert forall i :: 0 <= i < |segs| ==> names[..j][m..][i] == names[m..][i];
  }

  // ---------------------------------------------------------------- agreement

  /** The path is in the language of the compiled pattern exactly when it or a directory above it
      matches the pattern segment by segment. */
  ghost predicate Agrees(anchored: bool, segs: seq<string>, names: seq<string>)
    requires SimpleSegments(segs)
  {
    PatternThere(anchored, segs);
    LangSeq(Compiled(Pattern(anchored, segs)), Join(names), 0, |Join(names)|) <==>
        SomePrefix(Pattern(anchored, segs), names)
  }

  lemma PatternThere(anchored: bool, segs: seq<string>)
    requires SimpleSegments(segs)
    ensures Pattern(anchored, segs) != ""
  {
    hide Join, Compiled;
    CompiledIs(anchored, segs);
  }

  lemma Agreement(anchored: bool, segs: seq<string>, names: seq<string>)
    requires SimpleSegments(segs) && Agreeing(anchored, segs) && NamesOk(names) && names != []
    ensures Agrees(anchored, segs, names)
  {
    hide NameOk, LangSeq, Compiled, SomePrefix, FirstMatch, StartMatches, Pattern, Join, SimpleSegment, Agreeing;
    SimpleMeans(anchored, segs, names);
    PrefixMeans(anchored, segs, names);
    PatternThere(anchored, segs);
    if m: nat :| m < |names| && (anchored ==> m == 0) && FirstMatch(segs, names[m..]) {
      RestOk(names, m);
      FirstIsStart(segs, names[m..]);
    }
    if m: nat :| m < |names| && (anchored ==> m == 0) && StartMatches(Join(segs), Join(names[m..])) {
      RestOk(names, m);
      if anchored {
        TailAgrees(segs, names[m..]);
      } else {
        var m' := FrontAgrees(segs, names[m..]);
        assert names[m..][m'..] == names[m + m'..];
      }
    }
  }

  // ---------------------------------------------------------------- the two ways to glob

  predicate Located(root: Tree, k: nat, loc: seq<nat>) { k < |root.kids| && ValidLoc(root.kids[k], loc) }

  /** Every path in the tree is made of the names on the way. */
  ghost predicate TreeNamed(root: Tree) {
    forall k: nat, loc :: Located(root, k, loc) ==>
      NamesOk(Names(root.kids[k], loc)) && At(root.kids[k], loc).path == Join(Names(root.kids[k], loc))
  }

  lemma {:induction false} NamesAbove(node: Tree, loc: seq<nat>, n: nat)
    requires ValidLoc(node, loc) && n <= |loc|
    ensures ValidLoc(node, loc[..n]) && Names(node, loc[..n]) == Names(node, loc)[..n + 1]
    decreases loc
  {
    if n > 0 {
      NamesAbove(node.kids[loc[0]], loc[1..], n - 1);
      assert loc[..n][1..] == loc[1..][..n - 1] && loc[..n][0] == loc[0];
    } else {
      assert loc[..0] == [];
    }
  }

  lemma JoinInjective(a: seq<string>, b: seq<string>)
    requires NamesOk(a) && NamesOk(b) && Join(a) == Join(b)
    ensures a == b
  {
    hide Join, LineEnd, Split;
    forall i | 0 <= i < |a| ensures a[i] != "" && '/' !in a[i] { assert NameOk(a[i]); }
    forall i | 0 <= i < |b| ensures b[i] != "" && '/' !in b[i] { assert NameOk(b[i]); }
    SplitJoin(a);
    SplitJoin(b);
  }

  /** A node is globbed exactly when its own names match. */
  lemma GlobsHere(p: string, root: Tree, k: nat, loc: seq<nat>)
    requires TreeNamed(root) && Located(root, k, loc)
    ensures Globs(p, root, At(root.kids[k], loc)) <==> PatternMatches(p, Names(root.kids[k], loc))
  {
    hide PatternMatches, Join, NamesOk;
    var x := At(root.kids[k], loc);
    if Globs(p, root, x) {
      var k', loc' :| 0 <= k' < |root.kids| && ValidLoc(root.kids[k'], loc') && At(root.kids[k'], loc') == x
        && PatternMatches(p, Names(root.kids[k'], loc'));
      assert Located(root, k', loc');
      JoinInjective(Names(root.kids[k], loc), Names(root.kids[k'], loc'));
    }
  }

  /** glob_linear finds exactly the inodes that are, or lie below, one that glob_recursive finds. */
  lemma LinearIsRecursive(anchored: bool, segs: seq<string>, root: Tree, k: nat, loc: seq<nat>)
    requires SimpleSegments(segs) && Agreeing(anchored, segs) && TreeNamed(root) && Located(root, k, loc)
    ensures Pattern(anchored, segs) != ""
    ensures var p, path := Pattern(anchored, segs), At(root.kids[k], loc).path;
            LangSeq(Compiled(p), path, 0, |path|) <==>
              exists n: nat ::
                  n <= |loc| && ValidLoc(root.kids[k], loc[..n]) && Globs(p, root, At(root.kids[k], loc[..n]))
  {
    hide SimpleSegments, NamesOk, LangSeq, Compiled, PatternMatches, Globs, Pattern, Join, Agreeing;
    var p, node := Pattern(anchored, segs), root.kids[k];
    var names := Names(node, loc);
    assert Located(root, k, loc);
    PatternThere(anchored, segs);
    Agreement(anchored, segs, names);
    forall n: nat | n <= |loc|
      ensures ValidLoc(node, loc[..n]) && (Globs(p, root, At(node, loc[..n])) <==> PatternMatches(p, names[..n + 1]))
    {
      NamesAbove(node, loc, n);
      assert Located(root, k, loc[..n]);
      GlobsHere(p, root, k, loc[..n]);
    }
    if SomePrefix(p, names) {
      var j: nat :| 0 < j <= |names| && PatternMatches(p, names[..j]);
      var n: nat := j - 1;
      assert n <= |loc| && Globs(p, root, At(node, loc[..n]));
    }
    if n: nat :| n <= |loc| && ValidLoc(node, loc[..n]) && Globs(p, root, At(node, loc[..n])) {
      assert PatternMatches(p, names[..n + 1]);
    }
  }

  /** The inode's path is in the language of the compiled pattern. */
  predicate Fits(p: string, x: Tree)
    requires p != ""
  {
    Accepts(p, x.path)
  }

  function Chosen(p: string, inodes: seq<Tree>): (r: seq<Tree>)
    requires p != ""
    ensures forall x :: x in r <==> x in inodes && Fits(p, x)
  {
    if inodes == [] then []
    else Chosen(p, inodes[..|inodes| - 1]) + if Fits(p, inodes[|inodes| - 1]) then [inodes[|inodes| - 1]] else []
  }

  lemma ChosenMore(p: string, inodes: seq<Tree>, i: nat)
    requires p != "" && i < |inodes|
    ensures Chosen(p, inodes[..i + 1]) ==
              Chosen(p, inodes[..i]) + if Accepts(p, inodes[i].path) then [inodes[i]] else []
  {
    hide Accepts;
    assert inodes[..i + 1][..i] == inodes[..i];
  }

  lemma NoneChosen(p: string)
    requires p != ""
    ensures Chosen(p, []) == []
  {}

  lemma PatternsNonempty(p: string)
    ensures IsPattern(p) ==> p != ""
  {}

  /** glob_linear: appends exactly the inodes whose path matches, in their order; a negated pattern is
      refused. */
  method GlobLinear(pattern: string, inodes: seq<Tree>, result: seq<Tree>) returns (ok: bool, r: seq<Tree>)
    ensures ok == (Trimmed(pattern) == "" || Trimmed(pattern)[0] != '!')
    ensures result <= r && (!ok || Trimmed(pattern) == "" ==> r == result)
    ensures ok && IsPattern(Trimmed(pattern)) ==> r == result + Chosen(Trimmed(pattern), inodes)
  {
    hide *;
    r := result;
    var globber := new GlobList();
    ok := globber.Add(pattern);
    if !ok { return; }
    globber.Finalize();
    ghost var p := Trimmed(pattern);
    PatternsNonempty(p);
    if p != "" { NoneChosen(p); }
    assert globber.patterns == if p == "" then [] else [p];
    assert p == "" || IsPattern(p) ==> forall path :: globber.Match(path) <==> p != "" && Accepts(p, path) by {
      if p != "" { assert globber.patterns[0] == p; }
    }
    assert inodes[..0] == [];
    for i := 0 to |inodes|
      invariant result <= r
      invariant IsPattern(p) ==> r == result + Chosen(p, inodes[..i])
      invariant p == "" ==> r == result
      invariant p == "" || IsPattern(p) ==> forall path :: globber.Match(path) <==> p != "" && Accepts(p, path)
    {
      if p != "" { ChosenMore(p, inodes, i); }
      if globber.Match(inodes[i].path) { r := r + [inodes[i]]; }
    }
    assert inodes[..|inodes|] == inodes;
  }
}
