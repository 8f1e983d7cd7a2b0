/** Patterns that begin with `**`: when the two implementations of index::glob agree on them. */
module GlobLeading {
  import opened Wildcard
  import opened Glob
  import opened Regexes
  import opened GlobList
  import opened GlobLanguage
  import opened GlobAgreement
  import opened GlobExact
  import opened GlobStars

  // ---------------------------------------------------------------- the language

  lemma LeadWild(q: string, t: string)
    ensures StarWild("**/" + q, t) <==> exists k :: 0 <= k <= |t| && StarsText(t[..k]) && StarWild(q, t[k..])
  {
    var p := "**/" + q;
    assert DoubleStar(p) && p[2..] == "/" + q && SkipSlash("/" + q) == q;
    hide StarsText;
  }

  lemma Parts(s: string, k: nat, b: nat)
    requires k <= b && EndsAt(s, b)
    ensures s[..b][..k] == s[..k] && s[..b][k..] == s[k..][..b - k] && EndsAt(s[k..], b - k)
  {}

  lemma PartsBack(s: string, k: nat, b: nat)
    requires k <= |s| && EndsAt(s[k..], b)
    ensures EndsAt(s, k + b)
  {}

  /** `**` takes some text first, perhaps up to the middle of a component. */
  lemma LeadStarts(q: string, s: string)
    ensures StarMatches("**/" + q, s) <==> exists k: nat :: k <= |s| && StarsText(s[..k]) && StarMatches(q, s[k..])
  {
    hide StarWild, StarsText;
    var p := "**/" + q;
    if StarMatches(p, s) {
      var b: nat :| EndsAt(s, b) && StarWild(p, s[..b]);
      LeadWild(q, s[..b]);
      var k :| 0 <= k <= |s[..b]| && StarsText(s[..b][..k]) && StarWild(q, s[..b][k..]);
      Parts(s, k, b);
    }
    if k: nat :| k <= |s| && StarsText(s[..k]) && StarMatches(q, s[k..]) {
      var b: nat :| EndsAt(s[k..], b) && StarWild(q, s[k..][..b]);
      PartsBack(s, k, b);
      Parts(s, k, k + b);
      LeadWild(q, s[..k + b]);
    }
  }

  lemma NoText()
    ensures StarsText("")
  {
    assert ""[..0] == "" && ""[0..0] == "" && StarsAt("", 0, 0);
  }

  /** The segment goes on matching when its text grows to the left: it begins with a star, or is `?*`. */
  predicate FreeSegment(seg: string) { (seg != "" && seg[0] == '*') || seg == "?*" }

  /** The same for a whole pattern. */
  predicate FreeStart(q: string) {
    q != "" && !DoubleStar(q)
    && (q[0] == '*' || (|q| > 1 && q[0] == '?' && q[1] == '*' && (|q| == 2 || q[2] == '/')))
  }

  lemma {:induction false} StarGrows(q: string, u: string, v: string)
    requires q != "" && q[0] == '*' && !DoubleStar(q) && NoSlashes(u) && StarWild(q, v)
    ensures StarWild(q, u + v)
  {
    if u == "" {
      assert u + v == v;
    } else {
      StarGrows(q, u[1..], v);
      assert (u + v)[1..] == u[1..] + v;
    }
  }

  lemma MarkGrows(q: string, u: string, v: string)
    requires FreeStart(q) && q[0] == '?' && NoSlashes(u) && StarWild(q, v) && v[0] != '/'
    ensures StarWild(q, u + v)
  {
    if u == "" {
      assert u + v == v;
    } else {
      assert q[1..][0] == '*' && !DoubleStar(q[1..]);
      var more := u[1..] + [v[0]];
      StarGrows(q[1..], more, v[1..]);
      assert (u + v)[1..] == more + v[1..];
    }
  }

  /** The slash was the question mark's: it can have the next character instead. */
  lemma MarkMoves(q: string, v: string)
    requires FreeStart(q) && q[0] == '?' && StarWild(q, v) && |v| > 1 && v[1] != '/'
    ensures StarWild(q, v[1..])
  {
    var r, w := q[1..], v[1..];
    assert r[0] == '*' && !DoubleStar(r) && (r[1..] == "" || (r[1..][0] == '/' && !DoubleStar(r[1..])));
    assert !StarWild(r[1..], w);
    assert StarWild(r, w[1..]);
  }

  /** Where the component around a position begins. */
  lemma {:induction false} ComponentStart(s: string, k: nat) returns (a: nat)
    requires k <= |s|
    ensures a <= k && (a == 0 || s[a - 1] == '/') && NoSlashes(s[a..k])
  {
    if k == 0 || s[k - 1] == '/' {
      a := k;
    } else {
      a := ComponentStart(s, k - 1);
      assert s[a..k] == s[a..k - 1] + [s[k - 1]];
    }
  }

  /** Then it also matches from the beginning of a component. */
  lemma Aligned(q: string, s: string, k: nat, b: nat) returns (a: nat)
    requires Paths.Plain(s) && FreeStart(q) && k <= b && EndsAt(s, b) && StarWild(q, s[k..b])
    ensures a <= b && (a == 0 || s[a - 1] == '/') && StarWild(q, s[a..b])
  {
    var v := s[k..b];
    if q[0] == '?' && v[0] == '/' {
      PlainEnd(s, b);
      a := k + 1;
      assert b > k + 1 && v[1] == s[k + 1] && v[1..] == s[a..b];
      MarkMoves(q, v);
    } else {
      a := ComponentStart(s, k);
      var u := s[a..k];
      assert s[a..b] == u + v;
      if q[0] == '*' { StarGrows(q, u, v); } else { MarkGrows(q, u, v); }
    }
  }

  ghost predicate SomeMatch(q: string, names: seq<string>) {
    exists m: nat :: m < |names| && StarMatches(q, Join(names[m..]))
  }

  lemma LeadFrom(q: string, names: seq<string>, m: nat)
    requires NamesOk(names) && m < |names| && FreeStart(q) && StarMatches("**/" + q, Join(names[m..]))
    ensures SomeMatch(q, names)
  {
    hide StarWild, StarsText, NameOk, FreeStart, Join;
    RestOk(names, m);
    var s := Join(names[m..]);
    LeadStarts(q, s);
    var k: nat :| k <= |s| && StarsText(s[..k]) && StarMatches(q, s[k..]);
    var b: nat :| EndsAt(s[k..], b) && StarWild(q, s[k..][..b]);
    assert s[k..][..b] == s[k..k + b] && EndsAt(s, k + b);
    JoinPlain(names[m..]);
    var a := Aligned(q, s, k, k + b);
    var m' := Beginnings(names[m..], a);
    assert s[a..][..k + b - a] == s[a..k + b] && EndsAt(s[a..], k + b - a);
    assert names[m..][m'..] == names[m + m'..];
  }

  /** A leading `**` changes nothing before such a pattern. */
  lemma LeadAlike(q: string, names: seq<string>)
    requires NamesOk(names) && FreeStart(q)
    ensures SomeMatch("**/" + q, names) <==> SomeMatch(q, names)
  {
    hide StarMatches, StarsText, NameOk, FreeStart, Join;
    if m: nat :| m < |names| && StarMatches("**/" + q, Join(names[m..])) { LeadFrom(q, names, m); }
    if m: nat :| m < |names| && StarMatches(q, Join(names[m..])) {
      var s := Join(names[m..]);
      LeadStarts(q, s);
      NoText();
      assert s[..0] == "" && s[0..] == s;
    }
  }

  // ---------------------------------------------------------------- the descent

  function Lead(segs: seq<string>): string { "**/" + Join(segs) }

  /** The segments of a pattern that is not anchored. */
  predicate Rest(segs: seq<string>) {
    && segs != [] && IsPattern(Join(segs)) && Segments(Join(segs)) == segs && !Anchored(Join(segs))
    && forall i :: 0 <= i < |segs| ==> segs[i] != "" && '/' !in segs[i]
  }

  lemma LeadIs(segs: seq<string>)
    requires Rest(segs)
    ensures var p := Lead(segs);
            Segments(p) == ["**"] + segs && !Anchored(p) && IsPattern(p) && Body(p) == "**/" + Join(segs)
  {
    hide Split, PatternChar;
    var all := ["**"] + segs;
    assert all[0] == "**" && all[1..] == segs;
    assert Join(all) == "**" + "/" + Join(segs) == Lead(segs);
    SplitJoin(all);
    SlashIsPattern();
    StarIsPattern();
  }

  lemma LeadMatches(segs: seq<string>, names: seq<string>)
    requires Rest(segs)
    ensures PatternMatches(Lead(segs), names) <==> PatternMatches(Join(segs), names)
  {
    LeadIs(segs);
    hide Segments, Matches, Join, PatternChar;
    var all := ["**"] + segs;
    if m :| 0 <= m <= |names| && Matches(all, names[m..]) {
      LeadingStars(segs, names[m..]);
      var m' :| 0 <= m' <= |names[m..]| && Matches(segs, names[m..][m'..]);
      assert names[m..][m'..] == names[m + m'..];
    }
    if m :| 0 <= m <= |names| && Matches(segs, names[m..]) {
      assert names[0..] == names;
      LeadingStars(segs, names);
      assert Matches(all, names[0..]);
    }
  }

  lemma LeadFinds(segs: seq<string>, names: seq<string>)
    requires Rest(segs)
    ensures SomePrefix(Lead(segs), names) <==> SomePrefix(Join(segs), names)
  {
    hide PatternMatches, Lead, Join, Rest;
    forall j | 0 <= j <= |names|
      ensures PatternMatches(Lead(segs), names[..j]) == PatternMatches(Join(segs), names[..j])
    {
      LeadMatches(segs, names[..j]);
    }
  }

  // ---------------------------------------------------------------- agreement

  lemma RestSimple(segs: seq<string>)
    requires SimpleSegments(segs)
    ensures Rest(segs) && Pattern(false, segs) == Join(segs) && Body(Join(segs)) == Join(segs)
    ensures SingleStars(Join(segs))
  {
    hide Join, PatternChar, Split;
    PatternIs(false, segs);
    CompiledIs(false, segs);
    JoinSimple(segs);
    assert Pattern(false, segs) == Join(segs);
    forall i | 0 <= i < |segs| ensures segs[i] != "" && '/' !in segs[i] { NoSlash(segs[i]); }
  }

  lemma FreeJoin(segs: seq<string>)
    requires SimpleSegments(segs) && FreeSegment(segs[0])
    ensures FreeStart(Join(segs))
  {
    JoinSimple(segs);
    if |segs| > 1 { JoinChars(segs); }
  }

  /** What the compiled form of the pattern matches. */
  lemma BodyMeans(q: string, names: seq<string>)
    requires IsPattern(q) && !Anchored(q) && NamesOk(names) && names != []
    ensures LangSeq(Compiled(q), Join(names), 0, |Join(names)|) <==> SomeMatch(q, names)
  {
    hide LangSeq, Compiled, StarMatches, NamesOk, Join, PatternChar;
    CompiledMeans(q, names);
  }

  lemma SameAgreement(segs: seq<string>, names: seq<string>)
    requires SimpleSegments(segs) && FreeSegment(segs[0]) && NamesOk(names) && names != []
    ensures Lead(segs) != "" && (AgreesOn(Lead(segs), names) <==> Agrees(false, segs, names))
  {
    RestSimple(segs);
    LeadIs(segs);
    FreeJoin(segs);
    hide Rest, Join, SimpleSegment, SingleStars, NameOk, LangSeq, Compiled, SomePrefix, SomeMatch, Body, Segments;
    hide PatternChar, FreeStart, Pattern;
    LeadFinds(segs, names);
    BodyMeans(Lead(segs), names);
    BodyMeans(Join(segs), names);
    LeadAlike(Join(segs), names);
  }

  // ---------------------------------------------------------------- a path on which they differ

  /** The pattern's rest matches the text after a first character, or after a component. */
  lemma AfterSome(segs: seq<string>, names: seq<string>, k: nat, texts: seq<string>)
    requires SimpleSegments(segs) && NamesOk(names) && names != []
    requires |texts| == |segs| && forall i :: 0 <= i < |segs| ==> PathWild(segs[i], texts[i])
    requires k <= |Join(names)| && NoSlashes(Join(names)[..k]) && Join(names)[k..] == Join(texts)
    ensures SomeMatch(Lead(segs), names)
  {
    hide PathWild, StarWild, SimpleSegment, NameOk, Join;
    JoinSimple(segs);
    JoinWild(segs, texts);
    var s, t := Join(names), Join(texts);
    SingleWild(Join(segs), t);
    assert t[..|t|] == t && EndsAt(t, |t|) && StarMatches(Join(segs), t);
    var x := s[..k];
    assert StarsText(x) by { assert x[..k] == x && x[k..k] == "" && StarsAt(x, k, k); }
    LeadStarts(Join(segs), s);
    assert names[0..] == names && StarMatches(Lead(segs), s);
  }

  lemma Differs(segs: seq<string>, names: seq<string>)
    requires SimpleSegments(segs) && NamesOk(names) && names != [] && SomeMatch(Lead(segs), names)
    requires forall m: nat :: m < |names| ==> !FirstMatch(segs, names[m..])
    ensures Lead(segs) != "" && !AgreesOn(Lead(segs), names)
  {
    RestSimple(segs);
    LeadIs(segs);
    hide Rest, Join, SimpleSegment, SingleStars, NameOk, LangSeq, Compiled, SomePrefix, SomeMatch, Body, Segments;
    hide PatternChar, Pattern, FirstMatch;
    LeadFinds(segs, names);
    BodyMeans(Lead(segs), names);
    PrefixMeans(false, segs, names);
  }

  lemma JoinHead(a: string, rest: seq<string>)
    ensures Join([a] + rest) == if rest == [] then a else a + "/" + Join(rest)
  {
    assert ([a] + rest)[1..] == rest;
  }

  lemma FittingOk(segs: seq<string>)
    requires forall i :: 0 <= i < |segs| ==> SimpleSegment(segs[i])
    ensures NamesOk(Fitting(segs)) && forall i :: 0 <= i < |segs| ==> PathWild(segs[i], Fitting(segs)[i])
  {
    hide PathWild, SimpleSegment, NameOk, Wild, Fit;
    forall i | 0 <= i < |segs| ensures NameOk(Fitting(segs)[i]) && PathWild(segs[i], Fitting(segs)[i]) {
      FitIs(segs[i]);
    }
  }

  /** One more character in front of the first name: only the compiled form gets over it. */
  lemma LongerFirst(segs: seq<string>, c: char)
    requires SimpleSegments(segs) && c != '/' && c != '*' && !LineEnd(c) && !Wild(segs[0], [c] + Fit(segs[0]))
    ensures Lead(segs) != "" && exists names :: NamesOk(names) && names != [] && !AgreesOn(Lead(segs), names)
  {
    hide PathWild, StarWild, SimpleSegment, Wild, Join, Fit, AgreesOn, SomeMatch, LineEnd;
    var first, rest := Fit(segs[0]), Fitting(segs[1..]);
    var texts, names := [first] + rest, [[c] + first] + rest;
    FitIs(segs[0]);
    FirstFits(segs, first);
    JoinHead(first, rest);
    JoinHead([c] + first, rest);
    LongerJoin(c, first, Join(rest));
    OneBefore(Join(names), c, Join(texts));
    assert NamesOk(names);
    AfterSome(segs, names, 1, texts);
    forall m: nat | m < |names| ensures !FirstMatch(segs, names[m..]) {}
    Differs(segs, names);
  }

  lemma LongerJoin(c: char, a: string, b: string)
    ensures ([c] + a) + "/" + b == [c] + (a + "/" + b)
  {}

  lemma Extended(seg: string)
    requires SimpleSegment(seg) && (seg == "?" || Plain(seg[0]))
    ensures !Wild(seg, [if seg[0] == 'x' then 'y' else 'x'] + Fit(seg))
  {
    var c := if seg[0] == 'x' then 'y' else 'x';
    if seg == "?" {
      MarkFill();
      assert [c] + Fit(seg) == "xx";
      OneMark();
    }
  }

  /** A segment that begins with a question mark, and what follows the mark. */
  lemma AfterMark(seg: string, r: string)
    requires SimpleSegment(seg) && seg == "?" + r && r != "" && r != "*"
    ensures NameOk(Fit(r)) && PathWild(seg, "/" + Fit(r)) && !Wild(seg, "x") && !Wild(seg, Fit(r))
  {
    hide PathWild, Wild, NameOk, Fill, Fit, SimpleSegment;
    Part(seg, 1, |seg|);
    assert seg[1..|seg|] == r;
    FitIs(r);
    FitLength(r);
    FillConcat("?", r);
    MarkFill();
    MarkTakesSlash();
    PathConcat("?", "/", r, Fit(r));
    if Wild(seg, "x") { FillShortest(seg, "x"); }
    if Wild(seg, Fit(r)) { FillShortest(seg, Fit(r)); }
  }

  lemma OneNameOk()
    ensures NameOk("x") && NamesOk(["x"])
  {}

  lemma SimpleRest(segs: seq<string>)
    requires SimpleSegments(segs)
    ensures forall i :: 0 <= i < |segs| - 1 ==> SimpleSegment(segs[1..][i])
  {
    hide SimpleSegment;
  }

  lemma FirstFits(segs: seq<string>, text: string)
    requires SimpleSegments(segs) && PathWild(segs[0], text)
    ensures var texts := [text] + Fitting(segs[1..]); forall i :: 0 <= i < |segs| ==> PathWild(segs[i], texts[i])
    ensures NamesOk(Fitting(segs[1..]))
  {
    hide PathWild, SimpleSegment, Fit, NameOk;
    SimpleRest(segs);
    FittingOk(segs[1..]);
    var rest := Fitting(segs[1..]);
    forall i | 0 <= i < |segs| ensures PathWild(segs[i], ([text] + rest)[i]) {
      if i > 0 { assert segs[i] == segs[1..][i - 1] && ([text] + rest)[i] == rest[i - 1]; }
    }
  }

  /** The question mark takes the slash after a name of one character. */
  lemma MarkFirst(segs: seq<string>)
    requires SimpleSegments(segs) && |segs[0]| > 1 && segs[0][0] == '?' && segs[0] != "?*"
    ensures Lead(segs) != "" && exists names :: NamesOk(names) && names != [] && !AgreesOn(Lead(segs), names)
  {
    hide PathWild, StarWild, SimpleSegment, Wild, Join, Fit, AgreesOn, SomeMatch, NameOk;
    var r, rest := segs[0][1..], Fitting(segs[1..]);
    assert segs[0] == "?" + r;
    AfterMark(segs[0], r);
    FirstFits(segs, "/" + Fit(r));
    var texts, names := ["/" + Fit(r)] + rest, ["x", Fit(r)] + rest;
    TwoFirst(segs, "x", Fit(r), rest);
    TwoJoined(Fit(r), rest);
    OneBefore(Join(names), 'x', Join(texts));
    AfterSome(segs, names, 1, texts);
    Differs(segs, names);
  }

  lemma TwoFirst(segs: seq<string>, a: string, b: string, rest: seq<string>)
    requires segs != [] && |rest| == |segs| - 1 && a == "x" && NameOk(b) && NamesOk(rest)
    requires !Wild(segs[0], a) && !Wild(segs[0], b)
    ensures var names := [a, b] + rest;
            NamesOk(names) && forall m: nat :: m < |names| ==> !FirstMatch(segs, names[m..])
  {
    OneNameOk();
    hide Wild, NameOk;
    var names := [a, b] + rest;
    forall m: nat | m < |names| ensures !FirstMatch(segs, names[m..]) { assert m < 2 ==> names[m..][0] == names[m]; }
  }

  lemma TwoJoined(b: string, rest: seq<string>)
    ensures Join(["x", b] + rest) == ['x'] + Join(["/" + b] + rest)
  {
    assert ["x", b] + rest == ["x"] + ([b] + rest);
    JoinHead("/" + b, rest);
    JoinHead(b, rest);
    JoinHead("x", [b] + rest);
    hide Join;
    Slashed(b, Join(rest));
  }

  lemma Slashed(a: string, b: string)
    ensures "x" + "/" + (a + "/" + b) == "x" + ("/" + a + "/" + b) && "x" + "/" + a == "x" + ("/" + a)
  {}

  lemma OneBefore(s: string, c: char, t: string)
    requires s == [c] + t && c != '/'
    ensures |s| > 0 && NoSlashes(s[..1]) && s[1..] == t
  {}

  lemma NotFree(segs: seq<string>)
    requires SimpleSegments(segs) && !FreeSegment(segs[0])
    ensures Lead(segs) != "" && exists names :: NamesOk(names) && names != [] && !AgreesOn(Lead(segs), names)
  {
    hide NamesOk, AgreesOn, PatternChar, Wild, Fit;
    var seg := segs[0];
    assert SimpleSegment(seg);
    if seg == "?" || Plain(seg[0]) {
      Extended(seg);
      LongerFirst(segs, if seg[0] == 'x' then 'y' else 'x');
    } else {
      MarkFirst(segs);
    }
  }

  // ---------------------------------------------------------------- exactly when

  /** `**` before segments: the two agree on every path exactly when they do without it and the first
      segment begins with a star or is `?*`. */
  lemma LeadAgreesExactlyWhen(segs: seq<string>)
    requires SimpleSegments(segs)
    ensures Lead(segs) != "" && (AlwaysAgrees(Lead(segs)) <==> FreeSegment(segs[0]) && Agreeing(false, segs))
  {
    hide Agrees, AgreesOn, Agreeing, NamesOk, Lead, SimpleSegment, FreeSegment;
    if FreeSegment(segs[0]) {
      assert Lead(segs) != "" by { OneNameOk(); SameAgreement(segs, ["x"]); }
      forall names | NamesOk(names) && names != [] ensures AgreesOn(Lead(segs), names) <==> Agrees(false, segs, names) {
        SameAgreement(segs, names);
      }
      AgreeExactlyWhen(false, segs);
    } else {
      NotFree(segs);
    }
  }

  // ---------------------------------------------------------------- `**` at both ends

  lemma TrailRest(segs: seq<string>)
    requires SimpleSegments(segs)
    ensures Rest(segs + ["**"]) && Join(segs + ["**"]) == Join(segs) + "/" + "**"
  {
    hide Join, PatternChar, Split, SimpleSegment;
    var all := segs + ["**"];
    TrailIs(false, segs);
    JoinLast(segs, "**");
    assert Pattern(false, all) == Join(all);
    forall i | 0 <= i < |all| ensures all[i] != "" && '/' !in all[i] { if i < |segs| { RealPart(segs[i]); } }
  }

  lemma RealPart(seg: string)
    requires SimpleSegment(seg)
    ensures seg != "" && '/' !in seg
  {
    NoSlash(seg);
  }

  lemma AroundStarts(q: string, s: string)
    requires SingleStars(q)
    ensures StarMatches("**/" + (q + "/" + "**"), s) <==> StarMatches("**/" + (q + "/" + "*"), s)
  {
    hide StarMatches, StarsText, SingleStars;
    LeadStarts(q + "/" + "**", s);
    LeadStarts(q + "/" + "*", s);
    forall k: nat | k <= |s|
      ensures StarMatches(q + "/" + "**", s[k..]) == StarMatches(q + "/" + "*", s[k..])
    {
      EndsAlike(q, s[k..]);
    }
  }

  lemma AroundAlike(segs: seq<string>, names: seq<string>)
    requires SimpleSegments(segs) && NamesOk(names) && names != []
    ensures Lead(segs + ["**"]) != "" && Lead(segs + ["*"]) != ""
    ensures AgreesOn(Lead(segs + ["**"]), names) <==> AgreesOn(Lead(segs + ["*"]), names)
  {
    TrailRest(segs);
    StarIs(false, segs);
    JoinLast(segs, "*");
    JoinSimple(segs);
    RestSimple(segs + ["*"]);
    LeadIs(segs + ["**"]);
    LeadIs(segs + ["*"]);
    hide Rest, Join, SimpleSegment, SingleStars, NameOk, LangSeq, Compiled, SomePrefix, StarMatches, Body, Segments;
    hide PatternChar, IsPattern;
    var p, o := segs + ["**"], segs + ["*"];
    LeadFinds(p, names);
    LeadFinds(o, names);
    TrailFinds(false, segs, names);
    BodyMeans(Lead(p), names);
    BodyMeans(Lead(o), names);
    forall m: nat | m < |names|
      ensures StarMatches(Lead(p), Join(names[m..])) == StarMatches(Lead(o), Join(names[m..]))
    {
      AroundStarts(Join(segs), Join(names[m..]));
    }
    assert Pattern(false, p) == Join(p) && Pattern(false, o) == Join(o);
  }

  /** With `**` at both ends the last one is again as good as a star. */
  lemma AroundAgreesExactlyWhen(segs: seq<string>)
    requires SimpleSegments(segs)
    ensures Lead(segs + ["**"]) != ""
    ensures AlwaysAgrees(Lead(segs + ["**"])) <==> FreeSegment(segs[0]) && Agreeing(false, segs + ["*"])
  {
    hide Agrees, AgreesOn, Agreeing, NamesOk, Lead, SimpleSegment, FreeSegment;
    OneNameOk();
    AroundAlike(segs, ["x"]);
    StarIs(false, segs);
    forall names | NamesOk(names) && names != []
      ensures AgreesOn(Lead(segs + ["**"]), names) <==> AgreesOn(Lead(segs + ["*"]), names)
    {
      AroundAlike(segs, names);
    }
    LeadAgreesExactlyWhen(segs + ["*"]);
    assert (segs + ["*"])[0] == segs[0];
  }
}
