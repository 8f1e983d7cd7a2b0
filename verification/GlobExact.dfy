/** Outside the patterns for which they agree, the two implementations of index::glob differ on some
    path: it is constructed. */
module GlobExact {
  import opened Wildcard
  import opened Glob
  import opened Regexes
  import opened GlobList
  import opened GlobLanguage
  import opened GlobAgreement

  // ---------------------------------------------------------------- a name that a segment matches

  lemma {:induction false} FillWild(seg: string)
    ensures PathWild(seg, Fill(seg))
  {
    if seg != "" {
      FillWild(seg[1..]);
      if seg[0] == '*' { assert Fill(seg) == Fill(seg[1..]); } else { assert Fill(seg)[1..] == Fill(seg[1..]); }
    }
  }

  /** It is the shortest. */
  lemma {:induction false} FillShortest(seg: string, name: string)
    requires Wild(seg, name)
    ensures |Fill(seg)| <= |name|
    decreases |seg| + |name|
  {
    if seg != "" {
      if seg[0] == '*' && !Wild(seg[1..], name) { FillShortest(seg, name[1..]); }
      else { FillShortest(seg[1..], if seg[0] == '*' then name else name[1..]); }
    }
  }

  lemma {:induction false} FillConcat(a: string, b: string)
    ensures Fill(a + b) == Fill(a) + Fill(b)
  {
    if a == "" { assert a + b == b; } else { assert (a + b)[1..] == a[1..] + b; FillConcat(a[1..], b); }
  }

  lemma {:induction false} FillChars(seg: string)
    requires forall i :: 0 <= i < |seg| ==> PatternChar(seg[i]) && seg[i] != '/'
    ensures forall i :: 0 <= i < |Fill(seg)| ==> Fill(seg)[i] != '/' && Fill(seg)[i] != '*' && !LineEnd(Fill(seg)[i])
  {
    if seg != "" { FillChars(seg[1..]); }
  }

  /** Only a lone star fills to nothing. */
  lemma FillNothing(seg: string)
    requires seg != "" && SingleStars(seg) && Fill(seg) == ""
    ensures seg == "*"
  {
    assert seg[0] == '*' && seg == [seg[0]] + seg[1..];
  }

  lemma FitIs(seg: string)
    requires SimpleSegment(seg)
    ensures NameOk(Fit(seg)) && PathWild(seg, Fit(seg)) && Wild(seg, Fit(seg))
  {
    hide PatternChar, Wild;
    FillChars(seg);
    FillWild(seg);
    if Fill(seg) == "" {
      FillNothing(seg);
      StarAll("x");
    }
    assert forall c :: c in Fit(seg) ==> c != '/';
    SegmentWild(seg, Fit(seg));
  }

  function Fitting(segs: seq<string>): (names: seq<string>)
    ensures |names| == |segs| && forall i :: 0 <= i < |segs| ==> names[i] == Fit(segs[i])
  {
    if segs == [] then [] else [Fit(segs[0])] + Fitting(segs[1..])
  }

  // ---------------------------------------------------------------- a name that a segment does not match

  predicate Plain(c: char) { c != '*' && c != '?' }

  lemma {:induction false} PlainTaken(seg: string, i: nat, name: string)
    requires i < |seg| && Plain(seg[i]) && Wild(seg, name)
    ensures seg[i] in name
    decreases |seg| + |name|
  {
    if seg[0] == '*' && !Wild(seg[1..], name) {
      PlainTaken(seg, i, name[1..]);
    } else if i > 0 {
      PlainTaken(seg[1..], i - 1, if seg[0] == '*' then name else name[1..]);
    }
  }

  lemma {:induction false} OnlyMarks(seg: string)
    requires seg != "" && SingleStars(seg) && (forall i :: 0 <= i < |seg| ==> !Plain(seg[i])) && |Fill(seg)| <= 1
    ensures Universal(seg) || seg == "?"
  {
    assert |seg| > 1 ==> !(seg[0] == '*' && seg[1] == '*');
    assert seg == [seg[0]] + seg[1..];
    var rest := seg[1..];
    if seg[0] == '?' {
      if rest != "" { FillNothing(rest); }
    } else if rest != "" {
      assert rest[0] == '?' && rest == [rest[0]] + rest[1..];
      assert Fill(rest) == "x" + Fill(rest[1..]);
      if rest[1..] != "" { FillNothing(rest[1..]); }
    }
  }

  /** A segment that is not universal has a name that it does not match. */
  lemma Misfit(seg: string) returns (name: string)
    requires SimpleSegment(seg) && !Universal(seg)
    ensures NameOk(name) && !Wild(seg, name)
  {
    hide Wild, PatternChar;
    if i :| 0 <= i < |seg| && Plain(seg[i]) {
      name := if seg[i] == 'x' then "y" else "x";
      if Wild(seg, name) { PlainTaken(seg, i, name); }
    } else if |Fill(seg)| > 1 {
      name := "x";
      if Wild(seg, name) { FillShortest(seg, name); }
    } else {
      OnlyMarks(seg);
      name := "xx";
      OneMark();
    }
  }

  lemma OneMark()
    ensures !Wild("?", "xx")
  {
    assert "?"[1..] == "" && "xx"[1..] == "x";
  }

  // ---------------------------------------------------------------- a path with one component too many

  lemma {:induction false} JoinMiddle(us: seq<string>, a: string, b: string, vs: seq<string>)
    ensures Join(us + [a + "/" + b] + vs) == Join(us + [a, b] + vs)
  {
    var one, two := us + [a + "/" + b] + vs, us + [a, b] + vs;
    if us == [] {
      assert one[0] == a + "/" + b && one[1..] == vs && two[0] == a && two[1..] == [b] + vs && ([b] + vs)[1..] == vs;
      if vs != [] { assert (a + "/" + b) + "/" + Join(vs) == a + "/" + (b + "/" + Join(vs)); }
    } else {
      JoinMiddle(us[1..], a, b, vs);
      assert one[0] == us[0] && one[1..] == us[1..] + [a + "/" + b] + vs;
      assert two[0] == us[0] && two[1..] == us[1..] + [a, b] + vs;
    }
  }

  lemma {:induction false} JoinWild(segs: seq<string>, texts: seq<string>)
    requires |segs| == |texts| && segs != [] && forall i :: 0 <= i < |segs| ==> PathWild(segs[i], texts[i])
    ensures PathWild(Join(segs), Join(texts))
  {
    hide PathWild;
    if |segs| > 1 {
      JoinWild(segs[1..], texts[1..]);
      SlashItself();
      PathConcat(segs[0], texts[0], "/", "/");
      PathConcat(segs[0] + "/", texts[0] + "/", Join(segs[1..]), Join(texts[1..]));
    }
  }

  /** One component for each segment, but two for segment i. */
  ghost predicate Crossed(segs: seq<string>, i: nat, front: seq<string>, back: seq<string>) {
    && i < |segs| && |front| == i + 1 && |back| == |segs| - i && NamesOk(front) && NamesOk(back)
    && (forall j :: 0 <= j < i ==> PathWild(segs[j], front[j]))
    && (forall t :: i < t < |segs| ==> PathWild(segs[t], back[t - i]))
    && PathWild(segs[i], front[i] + "/" + back[0])
  }

  lemma CrossedMatches(segs: seq<string>, i: nat, front: seq<string>, back: seq<string>)
    requires SimpleSegments(segs) && Crossed(segs, i, front, back)
    ensures NamesOk(front + back) && StartMatches(Join(segs), Join(front + back))
  {
    hide PathWild, NameOk, SimpleSegment, Join;
    var texts := front[..i] + [front[i] + "/" + back[0]] + back[1..];
    JoinWild(segs, texts);
    JoinMiddle(front[..i], front[i], back[0], back[1..]);
    assert front[..i] + [front[i], back[0]] + back[1..] == front + back;
    var s := Join(front + back);
    assert s[..|s|] == s && EndsAt(s, |s|);
  }

  /** The compiled pattern matches the path; name by name neither its first nor its last components
      do. */
  lemma Disagrees(anchored: bool, segs: seq<string>, i: nat, front: seq<string>, back: seq<string>)
    requires SimpleSegments(segs) && Crossed(segs, i, front, back)
    requires !FirstMatch(segs, front + back) && (anchored || !FirstMatch(segs, (front + back)[1..]))
    ensures NamesOk(front + back) && !Agrees(anchored, segs, front + back)
  {
    hide SimpleSegment, NameOk, LangSeq, Compiled, SomePrefix, FirstMatch, StartMatches, Pattern, Join;
    var names := front + back;
    CrossedMatches(segs, i, front, back);
    PatternThere(anchored, segs);
    SimpleMeans(anchored, segs, names);
    PrefixMeans(anchored, segs, names);
    assert names[0..] == names;
    forall m: nat | m < |names| && (anchored ==> m == 0) ensures !FirstMatch(segs, names[m..]) {
      if m > 1 && FirstMatch(segs, names[m..]) { FirstShort(segs, names[m..]); }
    }
  }

  // ---------------------------------------------------------------- a question mark inside another segment

  lemma Part(seg: string, a: nat, b: nat)
    requires SimpleSegment(seg) && a < b <= |seg|
    ensures SimpleSegment(seg[a..b])
  {
    hide PatternChar;
  }

  lemma FitLength(seg: string)
    requires SimpleSegment(seg)
    ensures |Fit(seg)| == if Fill(seg) == "" then 1 else |Fill(seg)|
    ensures Fill(seg) == "" ==> seg == "*"
  {
    if Fill(seg) == "" { FillNothing(seg); }
  }

  lemma MarkFill()
    ensures Fill("?") == "x"
  {
    assert "?"[1..] == "";
  }

  /** Neither side of the question mark fills the whole segment. */
  lemma SidesTooShort(l: string, r: string)
    requires SimpleSegment(l) && SimpleSegment(r) && l + "?" + r != "*?*"
    ensures !Wild(l + "?" + r, Fit(l)) && !Wild(l + "?" + r, Fit(r))
  {
    hide Wild, Fill, Fit, SimpleSegment;
    var seg := l + "?" + r;
    assert seg == l + ("?" + r);
    FillConcat(l, "?" + r);
    FillConcat("?", r);
    MarkFill();
    FitLength(l);
    FitLength(r);
    if Wild(seg, Fit(l)) { FillShortest(seg, Fit(l)); }
    if Wild(seg, Fit(r)) { FillShortest(seg, Fit(r)); }
  }

  lemma MarkBetween(l: string, r: string)
    requires SimpleSegment(l) && SimpleSegment(r)
    ensures NameOk(Fit(l)) && NameOk(Fit(r)) && PathWild(l + "?" + r, Fit(l) + "/" + Fit(r))
  {
    hide PathWild, SimpleSegment, NameOk, Fit;
    FitIs(l);
    FitIs(r);
    MarkTakesSlash();
    PathConcat(l, Fit(l), "?", "/");
    PathConcat(l + "?", Fit(l) + "/", r, Fit(r));
  }

  lemma FitCrossed(segs: seq<string>, i: nat, l: string, r: string)
    requires SimpleSegments(segs) && i < |segs| && segs[i] == l + "?" + r && SimpleSegment(l) && SimpleSegment(r)
    ensures Crossed(segs, i, Fitting(segs[..i]) + [Fit(l)], [Fit(r)] + Fitting(segs[i + 1..]))
  {
    hide PathWild, SimpleSegment, NameOk, Fit, Fitting;
    var front, back := Fitting(segs[..i]) + [Fit(l)], [Fit(r)] + Fitting(segs[i + 1..]);
    MarkBetween(l, r);
    forall j | 0 <= j < i ensures front[j] == Fit(segs[j]) && NameOk(front[j]) && PathWild(segs[j], front[j]) {
      FitIs(segs[j]);
      assert front[j] == Fit(segs[..i][j]);
    }
    forall t | i < t < |segs| ensures NameOk(back[t - i]) && PathWild(segs[t], back[t - i]) {
      FitIs(segs[t]);
      FittingAt(segs, i, t);
    }
    forall t | 0 < t < |back| ensures NameOk(back[t]) { assert NameOk(back[(i + t) - i]); }
  }

  lemma FittingAt(segs: seq<string>, i: nat, t: nat)
    requires i < t < |segs|
    ensures Fitting(segs[i + 1..])[t - i - 1] == Fit(segs[t])
  {
    hide Fit;
    assert segs[i + 1..][t - i - 1] == segs[t];
  }

  lemma CrossInside(anchored: bool, segs: seq<string>, i: nat) returns (names: seq<string>)
    requires SimpleSegments(segs) && i < |segs| && Crossing(segs[i]) && segs[i] != "*?*"
    ensures NamesOk(names) && names != [] && !Agrees(anchored, segs, names)
  {
    hide Wild, PatternChar, Fit, Fitting, SimpleSegment, Agrees, Crossed, NamesOk;
    var seg := segs[i];
    var k :| 0 < k < |seg| - 1 && seg[k] == '?';
    var l, r := seg[..k], seg[k + 1..];
    Part(seg, 0, k);
    Part(seg, k + 1, |seg|);
    assert seg[0..k] == l && seg[k + 1..|seg|] == r && seg == l + "?" + r;
    SidesTooShort(l, r);
    FitCrossed(segs, i, l, r);
    var front, back := Fitting(segs[..i]) + [Fit(l)], [Fit(r)] + Fitting(segs[i + 1..]);
    names := front + back;
    assert names[i] == Fit(l) && names[i + 1] == Fit(r) && names[1..][i] == Fit(r);
    Disagrees(anchored, segs, i, front, back);
  }

  lemma MarkTakesSlash()
    ensures PathWild("?", "/")
  {
    assert "?"[1..] == "" && "/"[1..] == "";
  }

  // ---------------------------------------------------------------- between segments that are not universal

  lemma UniversalPath(seg: string, name: string)
    requires Universal(seg) && NameOk(name)
    ensures PathWild(seg, name)
  {
    hide Wild, PathWild;
    UniversalWild(seg, name);
    SegmentWild(seg, name);
  }

  /** Names for these segments and one more, such that moved on by one they do not match if some segment
      is not universal. */
  lemma {:induction false} FrontNames(us: seq<string>) returns (front: seq<string>)
    requires forall i :: 0 <= i < |us| ==> SimpleSegment(us[i])
    ensures |front| == |us| + 1 && NamesOk(front) && forall j :: 0 <= j < |us| ==> PathWild(us[j], front[j])
    ensures !AllUniversal(us) ==> exists e :: 0 <= e < |us| && !Wild(us[e], front[e + 1])
    decreases |us|
  {
    hide Wild, PathWild, Universal, SimpleSegment, Fit, PatternChar;
    if us == [] {
      front := ["x"];
    } else {
      var last := |us| - 1;
      if Universal(us[last]) {
        var before := FrontNames(us[..last]);
        front := before + ["x"];
        assert NameOk(before[last]);
        UniversalPath(us[last], before[last]);
        if !AllUniversal(us) {
          assert !AllUniversal(us[..last]);
          var e :| 0 <= e < last && !Wild(us[..last][e], before[e + 1]);
          assert us[e] == us[..last][e] && front[e + 1] == before[e + 1];
        }
      } else {
        var name := Misfit(us[last]);
        forall j | 0 <= j < |us| ensures NameOk(Fit(us[j])) && PathWild(us[j], Fit(us[j])) { FitIs(us[j]); }
        front := Fitting(us) + [name];
      }
    }
  }

  lemma {:induction false} BackNames(vs: seq<string>) returns (back: seq<string>)
    requires forall i :: 0 <= i < |vs| ==> SimpleSegment(vs[i])
    ensures |back| == |vs| + 1 && NamesOk(back) && forall t :: 0 <= t < |vs| ==> PathWild(vs[t], back[t + 1])
    ensures !AllUniversal(vs) ==> exists f :: 0 <= f < |vs| && !Wild(vs[f], back[f])
    decreases |vs|
  {
    hide Wild, PathWild, Universal, SimpleSegment, Fit, PatternChar;
    if vs == [] {
      back := ["x"];
    } else if Universal(vs[0]) {
      var after := BackNames(vs[1..]);
      back := ["x"] + after;
      assert NameOk(after[0]);
      UniversalPath(vs[0], after[0]);
      BackMoved(vs, after);
    } else {
      var name := Misfit(vs[0]);
      forall j | 0 <= j < |vs| ensures NameOk(Fit(vs[j])) && PathWild(vs[j], Fit(vs[j])) { FitIs(vs[j]); }
      back := [name] + Fitting(vs);
    }
  }

  lemma BackMoved(vs: seq<string>, after: seq<string>)
    requires |vs| > 0 && |after| == |vs| && Universal(vs[0]) && PathWild(vs[0], after[0])
    requires forall t :: 0 <= t < |vs[1..]| ==> PathWild(vs[1..][t], after[t + 1])
    requires !AllUniversal(vs[1..]) ==> exists f :: 0 <= f < |vs[1..]| && !Wild(vs[1..][f], after[f])
    ensures forall t :: 0 <= t < |vs| ==> PathWild(vs[t], (["x"] + after)[t + 1])
    ensures !AllUniversal(vs) ==> exists f :: 0 <= f < |vs| && !Wild(vs[f], (["x"] + after)[f])
  {
    hide Wild, PathWild, Universal;
    forall t | 0 <= t < |vs| ensures PathWild(vs[t], (["x"] + after)[t + 1]) {
      if t > 0 { assert vs[t] == vs[1..][t - 1]; }
    }
    if x :| 0 <= x < |vs| && !Universal(vs[x]) {
      assert vs[1..][x - 1] == vs[x];
      var f :| 0 <= f < |vs[1..]| && !Wild(vs[1..][f], after[f]);
      assert vs[f + 1] == vs[1..][f] && (["x"] + after)[f + 1] == after[f];
    }
  }

  lemma StarMarkStar(a: string, b: string)
    requires NameOk(a) && NameOk(b)
    ensures PathWild("*?*", a + "/" + b)
  {
    hide PathWild, Wild;
    StarAll(a);
    StarAll(b);
    SegmentWild("*", a);
    SegmentWild("*", b);
    MarkTakesSlash();
    PathConcat("*", a, "?", "/");
    assert "*" + "?" == "*?" && "*?" + "*" == "*?*" && (a + "/") + b == a + "/" + b;
    PathConcat("*?", a + "/", "*", b);
  }

  lemma CrossBetween(anchored: bool, segs: seq<string>, i: nat) returns (names: seq<string>)
    requires SimpleSegments(segs) && i < |segs| && segs[i] == "*?*"
    requires !AllUniversal(segs[i + 1..]) && (anchored || !AllUniversal(segs[..i]))
    ensures NamesOk(names) && names != [] && !Agrees(anchored, segs, names)
  {
    hide Wild, PathWild, PatternChar, NameOk, SimpleSegment, Agrees, Universal;
    var front := FrontNames(segs[..i]);
    var back := BackNames(segs[i + 1..]);
    names := front + back;
    StarMarkStar(front[i], back[0]);
    forall t | i < t < |segs| ensures PathWild(segs[t], back[t - i]) { assert segs[i + 1..][t - i - 1] == segs[t]; }
    BetweenCrossed(segs, i, front, back);
    Disagrees(anchored, segs, i, front, back);
  }

  lemma BetweenCrossed(segs: seq<string>, i: nat, front: seq<string>, back: seq<string>)
    requires i < |segs| && |front| == i + 1 && |back| == |segs| - i && NamesOk(front) && NamesOk(back)
    requires forall j :: 0 <= j < i ==> PathWild(segs[..i][j], front[j])
    requires forall t :: i < t < |segs| ==> PathWild(segs[t], back[t - i])
    requires PathWild(segs[i], front[i] + "/" + back[0])
    ensures Crossed(segs, i, front, back)
    ensures (exists f :: 0 <= f < |segs[i + 1..]| && !Wild(segs[i + 1..][f], back[f])) ==>
              !FirstMatch(segs, front + back)
    ensures (exists e :: 0 <= e < |segs[..i]| && !Wild(segs[..i][e], front[e + 1])) ==>
              !FirstMatch(segs, (front + back)[1..])
  {
    hide Wild, PathWild, NameOk;
    if f :| 0 <= f < |segs[i + 1..]| && !Wild(segs[i + 1..][f], back[f]) {
      assert (front + back)[i + 1 + f] == back[f] && segs[i + 1..][f] == segs[i + 1 + f];
    }
    if e :| 0 <= e < |segs[..i]| && !Wild(segs[..i][e], front[e + 1]) {
      assert (front + back)[1..][e] == front[e + 1] && segs[..i][e] == segs[e];
    }
  }

  // ---------------------------------------------------------------- exactly when

  ghost predicate AgreesOnAll(anchored: bool, segs: seq<string>)
    requires SimpleSegments(segs)
  {
    forall names :: NamesOk(names) && names != [] ==> Agrees(anchored, segs, names)
  }

  /** The two implementations agree on every path exactly when every question mark inside a segment is
      harmless. */
  lemma AgreeExactlyWhen(anchored: bool, segs: seq<string>)
    requires SimpleSegments(segs)
    ensures AgreesOnAll(anchored, segs) <==> Agreeing(anchored, segs)
  {
    hide Agrees, NamesOk, Crossing, AllUniversal, SimpleSegment;
    if Agreeing(anchored, segs) {
      forall names | NamesOk(names) && names != [] ensures Agrees(anchored, segs, names) {
        Agreement(anchored, segs, names);
      }
    } else {
      var i :| 0 <= i < |segs| && Crossing(segs[i])
        && !(segs[i] == "*?*" && ((!anchored && AllUniversal(segs[..i])) || AllUniversal(segs[i + 1..])));
      var names: seq<string>;
      if segs[i] != "*?*" {
        names := CrossInside(anchored, segs, i);
      } else {
        names := CrossBetween(anchored, segs, i);
      }
      assert !Agrees(anchored, segs, names);
    }
  }

  // ---------------------------------------------------------------- an example

  lemma QuestionMarkMeans()
    ensures PathWild("a?b", "a/b") && StartMatches("a?b", "a/b")
  {
    assert PathWild("a?b", "a/b") by {
      assert "a?b"[1..] == "?b" && "?b"[1..] == "b" && "b"[1..] == "" && "a/b"[1..] == "/b" && "/b"[1..] == "b";
    }
    hide PathWild;
    assert "a/b"[..3] == "a/b" && EndsAt("a/b", 3);
  }

  lemma QuestionMarkNames()
    ensures Join(["a", "b"]) == "a/b" && ["a", "b"][0..] == ["a", "b"] && NamesOk(["a", "b"])
    ensures Join(["a?b"]) == "a?b" && SimpleSegments(["a?b"]) && Pattern(false, ["a?b"]) == "a?b"
  {
    assert ["a", "b"][1..] == ["b"];
    assert SimpleSegment("a?b");
  }

  lemma QuestionMarkTakesSlash()
    ensures LangSeq(Compiled("a?b"), "a/b", 0, 3)
  {
    hide *;
    QuestionMarkMeans();
    QuestionMarkNames();
    assert |["a", "b"]| == 2 && |"a/b"| == 3;
    SimpleMeans(false, ["a?b"], ["a", "b"]);
    assert 0 < |["a", "b"]| && StartMatches(Join(["a?b"]), Join(["a", "b"][0..]));
  }

  /** A question mark is compiled to `.`, which also matches a slash; the descent never lets it. */
  lemma QuestionMarkDiffers()
    ensures LangSeq(Compiled("a?b"), "a/b", 0, 3) && Join(["a", "b"]) == "a/b" && !SomePrefix("a?b", ["a", "b"])
  {
    QuestionMarkTakesSlash();
    hide LangSeq, Compiled, Segment, LiteralFirst;
    assert ["a", "b"][1..] == ["b"];
    SlashAt("a?b", 3);
    assert Segments("a?b") == ["a?b"];
    forall names | |names| <= 2 && forall i :: 0 <= i < |names| ==> names[i] == "a" || names[i] == "b"
      ensures !Matches(["a?b"], names)
    {
      if names != [] { NotThreeLong(names[0]); }
    }
  }

  lemma NotThreeLong(name: string)
    requires name == "a" || name == "b"
    ensures !Segment("a?b", name)
  {
    hide LiteralFirst;
    if Segment("a?b", name) { SameLength("a?b", name); }
  }
}
