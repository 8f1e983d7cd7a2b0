/** Patterns that end with `**`: there it is as good as a single star, so it is known when the two
    implementations of index::glob agree. */
module GlobStars {
  import opened Wildcard
  import opened Glob
  import opened Regexes
  import opened GlobList
  import opened GlobLanguage
  import opened GlobAgreement
  import opened GlobExact

  // ---------------------------------------------------------------- the language

  lemma {:induction false} SlashJoin(q: string, r: string, u: string, v: string)
    requires SingleStars(q) && PathWild(q, u) && StarWild(r, v)
    ensures StarWild(q + "/" + r, u + "/" + v)
    decreases |q| + |u|
  {
    var p, t := q + "/" + r, u + "/" + v;
    if q == "" {
      assert p[0] == '/' && p[1..] == r && t[0] == '/' && t[1..] == v;
    } else {
      assert p[0] == q[0] && p[1..] == q[1..] + "/" + r && !DoubleStar(p);
      assert u != "" ==> t[0] == u[0] && t[1..] == u[1..] + "/" + v;
      if q[0] == '*' {
        if PathWild(q[1..], u) { SlashJoin(q[1..], r, u, v); } else { SlashJoin(q, r, u[1..], v); }
      } else {
        SlashJoin(q[1..], r, u[1..], v);
      }
    }
  }

  lemma {:induction false} SlashPart(q: string, r: string, t: string) returns (k: nat)
    requires SingleStars(q) && StarWild(q + "/" + r, t)
    ensures k < |t| && t[k] == '/' && PathWild(q, t[..k]) && StarWild(r, t[k + 1..])
    decreases |q| + |t|
  {
    var p := q + "/" + r;
    if q == "" {
      assert p[0] == '/' && p[1..] == r;
      k := 0;
    } else {
      assert p[0] == q[0] && p[1..] == q[1..] + "/" + r && !DoubleStar(p);
      if p[0] == '*' && StarWild(p[1..], t) {
        k := SlashPart(q[1..], r, t);
      } else {
        var k' := SlashPart(if p[0] == '*' then q else q[1..], r, t[1..]);
        k := k' + 1;
        assert t[..k][0] == t[0] && t[..k][1..] == t[1..][..k'] && t[k + 1..] == t[1..][k' + 1..];
      }
    }
  }

  lemma {:induction false} OneStar(t: string)
    ensures StarWild("*", t) <==> NoSlashes(t)
  {
    assert "*"[1..] == "" && !DoubleStar("*");
    if t != "" {
      OneStar(t[1..]);
      assert t == [t[0]] + t[1..];
    }
  }

  lemma TwoStarsText(t: string)
    ensures NoSlashes(t) ==> StarWild("**", t)
  {
    assert DoubleStar("**") && "**"[2..] == "" && SkipSlash("") == "";
    if NoSlashes(t) {
      assert t[..|t|] == t && t[|t|..|t|] == "" && StarsAt(t, |t|, |t|);
      assert StarsText(t[..|t|]) && StarWild("", t[|t|..]);
    }
  }

  /** Whatever `**` takes at the end, the star takes the rest of one component, and the path goes on. */
  lemma EndsAlike(q: string, s: string)
    requires SingleStars(q)
    ensures StarMatches(q + "/" + "**", s) <==> StarMatches(q + "/" + "*", s)
  {
    hide PathWild, StarWild, SingleStars, Slash, NoSlashes;
    if StarMatches(q + "/" + "*", s) {
      var b: nat :| EndsAt(s, b) && StarWild(q + "/" + "*", s[..b]);
      var k := SlashPart(q, "*", s[..b]);
      var u, v := s[..b][..k], s[..b][k + 1..];
      OneStar(v);
      TwoStarsText(v);
      SlashJoin(q, "**", u, v);
      assert s[..b] == u + "/" + v;
    }
    if StarMatches(q + "/" + "**", s) {
      var b: nat :| EndsAt(s, b) && StarWild(q + "/" + "**", s[..b]);
      var k := SlashPart(q, "**", s[..b]);
      var n := Slash(s[k + 1..]);
      var u, v, e := s[..b][..k], s[k + 1..][..n], k + 1 + n;
      FirstPart(s[k + 1..]);
      OneStar(v);
      SlashJoin(q, "*", u, v);
      assert s[..e] == u + "/" + v && EndsAt(s, e);
    }
  }

  lemma FirstPart(s: string)
    ensures NoSlashes(s[..Slash(s)]) && EndsAt(s, Slash(s))
  {}

  // ---------------------------------------------------------------- the descent

  lemma {:induction false} MatchesTrail(segs: seq<string>, names: seq<string>)
    requires (forall i :: 0 <= i < |segs| ==> SimpleSegment(segs[i])) && NamesOk(names)
    ensures Matches(segs + ["**"], names) <==> |segs| < |names| && FirstMatch(segs, names)
    decreases |segs|
  {
    hide Wild, LiteralFirst, LineEnd;
    var all := segs + ["**"];
    if segs == [] {
      assert all == ["**"];
    } else {
      assert all[0] == segs[0] && all[1..] == segs[1..] + ["**"] && SimpleSegment(segs[0]);
      NotStars(segs[0]);
      if names != [] {
        NoStar(names[0]);
        ExactNames(names[0]);
        FirstAndRest(segs, names);
        MatchesTrail(segs[1..], names[1..]);
      }
    }
  }

  lemma MatchesStar(segs: seq<string>, names: seq<string>)
    requires (forall i :: 0 <= i < |segs| ==> SimpleSegment(segs[i])) && NamesOk(names)
    ensures Matches(segs + ["*"], names) <==> |names| == |segs| + 1 && FirstMatch(segs, names)
  {
    hide Wild, Matches, NameOk, LineEnd;
    StarSegment();
    MatchesSimple(segs + ["*"], names);
    if |names| == |segs| + 1 && FirstMatch(segs, names) {
      StarAll(names[|segs|]);
      assert forall i :: 0 <= i < |segs| ==> (segs + ["*"])[i] == segs[i];
    }
    if FirstMatch(segs + ["*"], names) {
      assert forall i :: 0 <= i < |segs| ==> (segs + ["*"])[i] == segs[i];
    }
  }

  lemma StarSegment()
    ensures SimpleSegment("*")
  {}

  lemma TrailJoin(segs: seq<string>)
    requires SimpleSegments(segs)
    ensures Join(segs + ["**"]) == Join(segs) + "/" + "**" && Split(Join(segs + ["**"])) == segs + ["**"]
  {
    hide Join, Split;
    var all := segs + ["**"];
    JoinLast(segs, "**");
    forall i | 0 <= i < |all| ensures all[i] != "" && '/' !in all[i] { if i < |segs| { NoSlash(segs[i]); } }
    SplitJoin(all);
  }

  lemma TrailChars(segs: seq<string>)
    requires SimpleSegments(segs)
    ensures var body := Join(segs) + "/" + "**"; IsPattern(body) && body[0] != '/'
  {
    JoinSimple(segs);
    NoSlash(segs[0]);
    assert segs[0][0] in segs[0];
    hide Join, PatternChar, SimpleSegment, SingleStars;
    SlashIsPattern();
    StarIsPattern();
  }

  lemma TrailIs(anchored: bool, segs: seq<string>)
    requires SimpleSegments(segs)
    ensures var p := Pattern(anchored, segs + ["**"]);
            && Segments(p) == segs + ["**"] && Anchored(p) == anchored && IsPattern(p)
            && Body(p) == Join(segs) + "/" + "**"
  {
    hide Split, PatternChar, Join, SimpleSegment;
    TrailJoin(segs);
    TrailChars(segs);
    SlashIsPattern();
    var p, body := Pattern(anchored, segs + ["**"]), Join(segs) + "/" + "**";
    if anchored { assert p[1..] == body; } else { assert p == body; }
  }

  lemma StarIsPattern()
    ensures PatternChar('*')
  {}

  lemma {:induction false} JoinLast(segs: seq<string>, last: string)
    requires segs != []
    ensures Join(segs + [last]) == Join(segs) + "/" + last
  {
    var all := segs + [last];
    assert all[0] == segs[0] && all[1..] == segs[1..] + [last];
    if |segs| > 1 {
      JoinLast(segs[1..], last);
      assert segs[0] + "/" + (Join(segs[1..]) + "/" + last) == (segs[0] + "/" + Join(segs[1..])) + "/" + last;
    } else {
      assert all[1..] == [last];
    }
  }

  lemma StarIs(anchored: bool, segs: seq<string>)
    requires SimpleSegments(segs)
    ensures SimpleSegments(segs + ["*"])
    ensures var p := Pattern(anchored, segs + ["*"]);
            && Segments(p) == segs + ["*"] && Anchored(p) == anchored && IsPattern(p)
            && Body(p) == Join(segs) + "/" + "*"
  {
    hide Join, SimpleSegment, PatternChar;
    StarSegment();
    PatternIs(anchored, segs + ["*"]);
    CompiledIs(anchored, segs + ["*"]);
    JoinLast(segs, "*");
    var p := Pattern(anchored, segs + ["*"]);
    if anchored { assert p[1..] == Join(segs + ["*"]); } else { assert p == Join(segs + ["*"]); }
  }

  /** Both patterns find something at or above the path, or neither does. */
  lemma TrailFinds(anchored: bool, segs: seq<string>, names: seq<string>)
    requires SimpleSegments(segs) && NamesOk(names)
    ensures SomePrefix(Pattern(anchored, segs + ["**"]), names) <==> SomePrefix(Pattern(anchored, segs + ["*"]), names)
  {
    hide Wild, Matches, SimpleSegment, NameOk, Join, Segments, FirstMatch;
    TrailIs(anchored, segs);
    StarIs(anchored, segs);
    var p, o := Pattern(anchored, segs + ["**"]), Pattern(anchored, segs + ["*"]);
    if SomePrefix(o, names) {
      var j: nat :| 0 < j <= |names| && PatternMatches(o, names[..j]);
      var m := StartOf(o, names[..j]);
      PartOk(names, m, j);
      MatchesStar(segs, names[..j][m..]);
      MatchesTrail(segs, names[..j][m..]);
      FromStart(p, names[..j], m);
    }
    if SomePrefix(p, names) {
      var j: nat :| 0 < j <= |names| && PatternMatches(p, names[..j]);
      var m := StartOf(p, names[..j]);
      PartOk(names, m, j);
      MatchesTrail(segs, names[..j][m..]);
      var e := m + |segs| + 1;
      PartOk(names, m, e);
      FirstPrefix(segs, names, m, j, e);
      MatchesStar(segs, names[..e][m..]);
      FromStart(o, names[..e], m);
    }
  }

  /** Where the part of the path begins that the segments match. */
  lemma StartOf(p: string, names: seq<string>) returns (m: nat)
    requires PatternMatches(p, names)
    ensures m <= |names| && (Anchored(p) ==> m == 0) && Matches(Segments(p), names[m..])
  {
    hide Matches, Segments;
    if Anchored(p) {
      m := 0;
      assert names[0..] == names;
    } else {
      m :| 0 <= m <= |names| && Matches(Segments(p), names[m..]);
    }
  }

  lemma FromStart(p: string, names: seq<string>, m: nat)
    requires m <= |names| && (Anchored(p) ==> m == 0) && Segments(p) != [] && Matches(Segments(p), names[m..])
    ensures PatternMatches(p, names)
  {
    hide Matches, Segments;
    assert names[0..] == names;
  }

  lemma FirstPrefix(segs: seq<string>, names: seq<string>, m: nat, j: nat, e: nat)
    requires m <= e <= j <= |names| && |segs| <= e - m && FirstMatch(segs, names[..j][m..])
    ensures FirstMatch(segs, names[..e][m..])
  {
    hide Wild;
    assert forall i :: 0 <= i < |segs| ==> names[..j][m..][i] == names[..e][m..][i];
  }

  // ---------------------------------------------------------------- agreement

  ghost predicate AgreesOn(p: string, names: seq<string>)
    requires p != ""
  {
    LangSeq(Compiled(p), Join(names), 0, |Join(names)|) <==> SomePrefix(p, names)
  }

  ghost predicate AlwaysAgrees(p: string)
    requires p != ""
  {
    forall names :: NamesOk(names) && names != [] ==> AgreesOn(p, names)
  }

  lemma TrailAlike(anchored: bool, segs: seq<string>, names: seq<string>)
    requires SimpleSegments(segs) && NamesOk(names) && names != []
    ensures SimpleSegments(segs + ["*"]) && Pattern(anchored, segs + ["**"]) != ""
    ensures AgreesOn(Pattern(anchored, segs + ["**"]), names) <==> Agrees(anchored, segs + ["*"], names)
  {
    TrailIs(anchored, segs);
    StarIs(anchored, segs);
    JoinSimple(segs);
    hide Join, SimpleSegment, SingleStars, NameOk, LangSeq, Compiled, SomePrefix, StarMatches, Body, Segments;
    hide PatternChar, Pattern;
    TrailFinds(anchored, segs, names);
    CompiledMeans(Pattern(anchored, segs + ["**"]), names);
    CompiledMeans(Pattern(anchored, segs + ["*"]), names);
    forall m: nat | m < |names|
      ensures StarMatches(Join(segs) + "/" + "**", Join(names[m..])) ==
                StarMatches(Join(segs) + "/" + "*", Join(names[m..]))
    {
      EndsAlike(Join(segs), Join(names[m..]));
    }
  }

  /** With `**` as the last segment the two agree on every path exactly when they do with a star there. */
  lemma TrailAgreesExactlyWhen(anchored: bool, segs: seq<string>)
    requires SimpleSegments(segs)
    ensures Pattern(anchored, segs + ["**"]) != ""
    ensures AlwaysAgrees(Pattern(anchored, segs + ["**"])) <==> Agreeing(anchored, segs + ["*"])
  {
    TrailIs(anchored, segs);
    StarIs(anchored, segs);
    hide Agrees, AgreesOn, Agreeing, NamesOk, Pattern, SimpleSegment;
    forall names | NamesOk(names) && names != []
      ensures AgreesOn(Pattern(anchored, segs + ["**"]), names) <==> Agrees(anchored, segs + ["*"], names)
    {
      TrailAlike(anchored, segs, names);
    }
    AgreeExactlyWhen(anchored, segs + ["*"]);
  }
}
