/** `**` in the middle of a pattern: compiled it takes one component of any length and then only components of
    one character, so with plain characters on both sides the two implementations of index::glob always
    differ on some path: it is constructed. */
module GlobMiddle {
  import opened Glob
  import opened Wildcard
  import opened Regexes
  import opened GlobList
  import opened GlobLanguage
  import opened GlobAgreement
  import opened GlobExact
  import opened GlobStars
  import opened GlobLeading

  // ---------------------------------------------------------------- slashes

  function Slashes(t: string): nat { if t == "" then 0 else (if t[0] == '/' then 1 else 0) + Slashes(t[1..]) }

  lemma {:induction false} SlashesConcat(a: string, b: string)
    ensures Slashes(a + b) == Slashes(a) + Slashes(b)
  {
    if a == "" { assert a + b == b; } else { assert (a + b)[1..] == a[1..] + b; SlashesConcat(a[1..], b); }
  }

  lemma SlashesCut(s: string, a: nat, m: nat, b: nat)
    requires a <= m <= b <= |s|
    ensures Slashes(s[a..b]) == Slashes(s[a..m]) + Slashes(s[m..b])
  {
    assert s[a..b] == s[a..m] + s[m..b];
    SlashesConcat(s[a..m], s[m..b]);
  }

  lemma SlashesWithin(s: string, a: nat, b: nat, c: nat, d: nat)
    requires a <= b <= c <= d <= |s|
    ensures Slashes(s[b..c]) <= Slashes(s[a..d])
  {
    SlashesCut(s, a, b, d);
    SlashesCut(s, b, c, d);
  }

  /** Each character of a wildcard takes at most one slash, and a slash takes one. */
  lemma {:induction false} SlashesTaken(q: string, t: string)
    requires PathWild(q, t)
    ensures Slashes(q) <= Slashes(t) <= |q|
    decreases |q| + |t|
  {
    if q != "" {
      if q[0] == '*' {
        if PathWild(q[1..], t) { SlashesTaken(q[1..], t); } else { SlashesTaken(q, t[1..]); }
      } else {
        SlashesTaken(q[1..], t[1..]);
      }
    }
  }

  lemma {:induction false} NoneThere(t: string)
    requires '/' !in t
    ensures Slashes(t) == 0
  {
    if t != "" {
      assert forall c :: c in t[1..] ==> c in t;
      NoneThere(t[1..]);
    }
  }

  lemma {:induction false} JoinSlashes(names: seq<string>)
    requires names != [] && forall i :: 0 <= i < |names| ==> '/' !in names[i]
    ensures Slashes(Join(names)) == |names| - 1
  {
    NoneThere(names[0]);
    if |names| > 1 {
      JoinSlashes(names[1..]);
      SlashesConcat(names[0] + "/", Join(names[1..]));
      SlashesConcat(names[0], "/");
      assert "/"[1..] == "";
    }
  }

  /** A plain character of the pattern takes itself. */
  lemma {:induction false} CharTaken(q: string, i: nat, t: string) returns (p: nat)
    requires i < |q| && Plain(q[i]) && PathWild(q, t)
    ensures p < |t| && t[p] == q[i]
    decreases |q| + |t|
  {
    if q[0] == '*' && !PathWild(q[1..], t) {
      p := CharTaken(q, i, t[1..]);
      p := p + 1;
    } else if i == 0 {
      p := 0;
    } else if q[0] == '*' {
      p := CharTaken(q[1..], i - 1, t);
    } else {
      p := CharTaken(q[1..], i - 1, t[1..]);
      p := p + 1;
    }
  }

  // ---------------------------------------------------------------- the gap

  const LONG := "+++"

  function Longs(k: nat): (names: seq<string>)
    ensures |names| == k && forall i :: 0 <= i < k ==> names[i] == LONG
  {
    seq(k, _ => LONG)
  }

  function Gap(k: nat): (g: string)
    ensures |g| == 4 * k
  {
    if k == 0 then "" else LONG + "/" + Gap(k - 1)
  }

  lemma GapStep(k: nat)
    requires k > 0
    ensures Gap(k)[0] == Gap(k)[1] == Gap(k)[2] == '+' && Gap(k)[3] == '/'
    ensures forall i :: 4 <= i < 4 * k ==> Gap(k)[i] == Gap(k - 1)[i - 4]
  {}

  lemma {:induction false} GapAt(k: nat, i: nat)
    requires i < 4 * k
    ensures Gap(k)[i] == if i % 4 == 3 then '/' else '+'
  {
    hide Gap;
    GapStep(k);
    if i >= 4 {
      GapAt(k - 1, i - 4);
      assert (i - 4) % 4 == i % 4;
    } else {
      assert i == 0 || i == 1 || i == 2 || i == 3;
    }
  }

  lemma {:induction false} GapSlashes(k: nat)
    ensures Slashes(Gap(k)) == k
  {
    if k > 0 {
      GapSlashes(k - 1);
      SlashesConcat(LONG + "/", Gap(k - 1));
      SlashesConcat(LONG, "/");
      NoneThere(LONG);
      assert "/"[1..] == "";
    }
  }

  lemma {:induction false} JoinGap(k: nat, names: seq<string>)
    requires names != []
    ensures Join(Longs(k) + names) == Gap(k) + Join(names)
  {
    hide Join;
    if k == 0 {
      assert Longs(0) + names == names && Gap(0) + Join(names) == Join(names);
    } else {
      JoinGap(k - 1, names);
      var rest := Longs(k - 1) + names;
      assert Longs(k) + names == [LONG] + rest;
      JoinHead(LONG, rest);
      Regrouped(LONG + "/", Gap(k - 1), Join(names));
    }
  }

  lemma Regrouped(a: string, b: string, c: string)
    ensures a + (b + c) == (a + b) + c
  {}

  /** What `**` takes has at most one character between a slash and the next, and after the last. */
  lemma StarsShort(x: string, i: nat)
    requires StarsText(x) && i + 2 < |x| && x[i] == '/'
    ensures x[i + 1] == '/' || x[i + 2] == '/'
  {
    var a, b :| 0 <= a <= b <= |x| && StarsAt(x, a, b);
    assert forall j :: 0 <= j < a ==> x[j] == x[..a][j] && x[..a][j] != '/';
    if i < b { PairsStep2(x[a..b], i - a); }
  }

  lemma {:induction false} PairsStep2(t: string, i: nat)
    requires Pairs(t) && i < |t| && t[i] == '/'
    ensures i + 2 == |t| || (i + 2 < |t| && t[i + 2] == '/')
    decreases |t|
  {
    if i >= 2 { PairsStep2(t[2..], i - 2); }
  }

  lemma GapNext(s: string, g: nat, k: nat, c: nat, d: nat, i: nat, j: nat)
    requires g + 4 * k <= |s| && s[g..g + 4 * k] == Gap(k)
    requires c <= i < j < d <= |s| && g <= i && j < g + 4 * k && StarsText(s[c..d]) && s[i] == '/'
    ensures s[j] != '/'
  {
    hide StarsText, Gap;
    GapChar(s, g, k, i);
    if j < i + 4 {
      GapChar(s, g, k, j);
    } else {
      GapChar(s, g, k, i + 1);
      GapChar(s, g, k, i + 2);
      assert s[c..d][i - c] == s[i] && s[c..d][i - c + 1] == s[i + 1] && s[c..d][i - c + 2] == s[i + 2];
      StarsShort(s[c..d], i - c);
    }
  }

  /** `**` takes at most one slash of the gap. */
  lemma GapStars(s: string, g: nat, k: nat, c: nat, d: nat, a: nat, b: nat)
    requires g + 4 * k <= |s| && s[g..g + 4 * k] == Gap(k)
    requires c <= a <= b <= d <= |s| && g <= a && b <= g + 4 * k && StarsText(s[c..d])
    ensures Slashes(s[a..b]) <= 1
  {
    hide StarsText, Slashes, Gap;
    var i := a + Slash(s[a..b]);
    FirstPart(s[a..b]);
    assert s[a..b][..i - a] == s[a..i] && (i < b ==> s[a..b][i - a] == s[i]);
    NoneThere(s[a..i]);
    if i == b { return; }
    forall j | i < j < b ensures s[j] != '/' { GapNext(s, g, k, c, d, i, j); }
    SlashesCut(s, a, i, b);
    SlashesCut(s, i, i + 1, b);
    OneSlash(s, i);
    NoneThere(s[i + 1..b]);
  }

  lemma OneSlash(s: string, i: nat)
    requires i < |s| && s[i] == '/'
    ensures Slashes(s[i..i + 1]) == 1
  {
    assert s[i..i + 1] == "/" && "/"[1..] == "";
  }

  lemma GapChar(s: string, g: nat, k: nat, i: nat)
    requires g + 4 * k <= |s| && s[g..g + 4 * k] == Gap(k) && g <= i < g + 4 * k
    ensures s[i] == if (i - g) % 4 == 3 then '/' else '+'
  {
    GapAt(k, i - g);
    assert s[i] == s[g..g + 4 * k][i - g];
  }

  // ---------------------------------------------------------------- the compiled pattern cannot span it

  lemma StarStepDown(p: string, t: string)
    requires p != "" && !DoubleStar(p) && StarWild(p, t) && !(p[0] == '*' && StarWild(p[1..], t))
    ensures t != "" && StarWild(if p[0] == '*' then p else p[1..], t[1..])
    ensures if p[0] == '*' then t[0] != '/' else p[0] == '?' || p[0] == t[0]
  {}

  lemma PathStepUp(h: string, t: string)
    requires h != "" && t != "" && PathWild(if h[0] == '*' then h else h[1..], t[1..])
    requires if h[0] == '*' then t[0] != '/' else h[0] == '?' || h[0] == t[0]
    ensures PathWild(h, t)
  {}

  lemma PathStar(h: string, t: string)
    requires h != "" && h[0] == '*' && PathWild(h[1..], t)
    ensures PathWild(h, t)
  {}

  lemma TwoParts(q: string, t: string) returns (d: nat)
    requires SingleStars(q) && StarWild("**/" + q, t)
    ensures d <= |t| && PathWild("", t[..0]) && StarsText(t[0..d]) && PathWild(q, t[d..])
  {
    hide StarWild, StarsText, SingleStars;
    LeadWild(q, t);
    d :| 0 <= d <= |t| && StarsText(t[..d]) && StarWild(q, t[d..]);
    SingleWild(q, t[d..]);
    assert t[..0] == "" && t[0..d] == t[..d];
  }

  /** The text of a match: what the part before `**` takes, what `**` takes, and the rest. */
  lemma {:induction false} ThreeParts(h: string, q: string, t: string) returns (c: nat, d: nat)
    requires SingleStars(h) && (h == "" || h[|h| - 1] == '/') && SingleStars(q) && StarWild(h + "**/" + q, t)
    ensures c <= d <= |t| && PathWild(h, t[..c]) && StarsText(t[c..d]) && PathWild(q, t[d..])
    decreases |h| + |t|
  {
    hide StarWild, PathWild, StarsText;
    var p := h + "**/" + q;
    if h == "" {
      assert p == "**/" + q;
      c := 0;
      d := TwoParts(q, t);
    } else {
      var r := h[1..];
      assert p[0] == h[0] && p[1..] == r + "**/" + q && !DoubleStar(p);
      if p[0] == '*' && StarWild(p[1..], t) {
        c, d := ThreeParts(r, q, t);
        PathStar(h, t[..c]);
      } else {
        StarStepDown(p, t);
        c, d := ThreeParts(if p[0] == '*' then h else r, q, t[1..]);
        Moved(t, c, d);
        c, d := c + 1, d + 1;
        PathStepUp(h, t[..c]);
      }
    }
  }

  lemma Moved(t: string, c: nat, d: nat)
    requires c <= d < |t|
    ensures var r := t[1..];
            && t[..c + 1] != "" && t[..c + 1][0] == t[0] && t[..c + 1][1..] == r[..c]
            && t[c + 1..d + 1] == r[c..d] && t[d + 1..] == r[d..]
  {}

  /** A match that reaches from before the gap to behind it takes too many slashes. */
  lemma TooLong(h: string, q: string, s: string, g: nat, k: nat, w: nat, c: nat, d: nat, e: nat)
    requires g + 4 * k <= |s| && s[g..g + 4 * k] == Gap(k) && w <= c <= d <= e <= |s|
    requires PathWild(h, s[w..c]) && StarsText(s[c..d]) && PathWild(q, s[d..e])
    requires w <= g && g + 4 * k <= e
    ensures k <= |h| + 1 + |q|
  {
    hide PathWild, StarsText, Slashes, Gap;
    var z := g + 4 * k;
    var c', d' := if c < g then g else if c > z then z else c, if d < g then g else if d > z then z else d;
    SlashesTaken(h, s[w..c]);
    SlashesTaken(q, s[d..e]);
    GapSlashes(k);
    SlashesCut(s, g, c', z);
    SlashesCut(s, c', d', z);
    if c < g { Empty(s, g); } else { SlashesWithin(s, w, g, c', c); }
    if d > z { Empty(s, z); } else { SlashesWithin(s, d, d', z, e); }
    if c' < d' { GapStars(s, g, k, c, d, c', d'); } else { Empty(s, c'); }
  }

  lemma Empty(s: string, i: nat)
    requires i <= |s|
    ensures Slashes(s[i..i]) == 0
  {
    assert s[i..i] == "";
  }

  /** A character that only itself takes, and that the gap does not have. */
  predicate OwnChar(q: string, i: nat) { i < |q| && Plain(q[i]) && PatternChar(q[i]) && q[i] != '/' }

  ghost predicate HasOwn(q: string) { exists i: nat :: OwnChar(q, i) }

  lemma {:induction false} LastTaken(h: string, t: string)
    requires h != "" && h[|h| - 1] == '/' && PathWild(h, t)
    ensures t != "" && t[|t| - 1] == '/'
    decreases |h| + |t|
  {
    if h[0] == '*' {
      if PathWild(h[1..], t) { LastTaken(h[1..], t); } else { LastTaken(h, t[1..]); }
    } else if |h| > 1 {
      LastTaken(h[1..], t[1..]);
    }
  }

  lemma OutsideGap(s: string, g: nat, k: nat, p: nat)
    requires g + 4 * k <= |s| && s[g..g + 4 * k] == Gap(k) && p < |s| && PatternChar(s[p]) && s[p] != '/'
    ensures p < g || g + 4 * k <= p
  {
    if g <= p < g + 4 * k { GapChar(s, g, k, p); }
  }

  /** Where the part of the pattern has its own character there is one outside the gap. */
  lemma OwnTaken(q: string, s: string, g: nat, k: nat, a: nat, b: nat) returns (p: nat)
    requires g + 4 * k <= |s| && s[g..g + 4 * k] == Gap(k) && a <= b <= |s|
    requires PathWild(q, s[a..b]) && HasOwn(q)
    ensures q != "" && a <= p < b && s[p] != '/' && (p < g || g + 4 * k <= p)
  {
    hide PathWild, Gap, PatternChar;
    var i: nat :| OwnChar(q, i);
    p := CharTaken(q, i, s[a..b]);
    p := a + p;
    assert s[p] == q[i];
    OutsideGap(s, g, k, p);
  }

  /** What the rest of the pattern holds is found behind the gap only. */
  lemma RestBehind(h: string, q: string, s: string, g: nat, k: nat, w: nat, c: nat, d: nat, e: nat)
    requires g + 4 * k <= |s| && s[g..g + 4 * k] == Gap(k) && w <= c <= d <= e <= |s|
    requires PathWild(h, s[w..c]) && PathWild(q, s[d..e]) && HasOwn(q)
    requires (g == 0 || s[g - 1] == '/') && Slashes(s[0..g]) <= Slashes(h)
    ensures g + 4 * k <= e
  {
    hide PathWild, Slashes, Gap, HasOwn;
    var p := OwnTaken(q, s, g, k, d, e);
    if p < g {
      SlashesTaken(h, s[w..c]);
      TooManyBefore(s, g, w, c, p);
    }
  }

  lemma TooManyBefore(s: string, g: nat, w: nat, c: nat, p: nat)
    requires w <= c <= p < g <= |s| && s[g - 1] == '/' && s[p] != '/'
    ensures Slashes(s[w..c]) < Slashes(s[0..g])
  {
    hide Slashes;
    SlashesCut(s, 0, g - 1, g);
    OneSlash(s, g - 1);
    SlashesWithin(s, 0, w, c, g - 1);
  }

  /** What the part before `**` holds is found in front of the gap only. */
  lemma HeadBefore(h: string, q: string, s: string, g: nat, k: nat, w: nat, c: nat, d: nat, e: nat)
    requires g + 4 * k <= |s| && s[g..g + 4 * k] == Gap(k) && w <= c <= d <= e <= |s|
    requires PathWild(h, s[w..c]) && PathWild(q, s[d..e]) && HasOwn(h) && h[|h| - 1] == '/'
    requires Slashes(s[g + 4 * k..]) <= Slashes(q)
    ensures w <= g
  {
    hide PathWild, Slashes, Gap, HasOwn;
    var p := OwnTaken(h, s, g, k, w, c);
    if g <= p {
      LastTaken(h, s[w..c]);
      SlashesTaken(q, s[d..e]);
      TooManyBehind(s, g + 4 * k, p, c, d, e);
    }
  }

  lemma TooManyBehind(s: string, z: nat, p: nat, c: nat, d: nat, e: nat)
    requires z <= p < c <= d <= e <= |s| && s[c - 1] == '/' && s[p] != '/'
    ensures Slashes(s[d..e]) < Slashes(s[z..])
  {
    hide Slashes;
    OneSlash(s, c - 1);
    assert s[z..] == s[z..|s|];
    SlashesCut(s, z, c, |s|);
    SlashesWithin(s, z, c - 1, c, c);
    SlashesWithin(s, c, d, e, |s|);
  }

  // ---------------------------------------------------------------- the pattern and the path

  /** Joined names with a slash after them. */
  function Head(names: seq<string>): string { if names == [] then "" else Join(names) + "/" }

  lemma HeadStep(names: seq<string>)
    requires names != []
    ensures Head(names) == names[0] + "/" + Head(names[1..])
  {
    assert names == [names[0]] + names[1..];
    JoinHead(names[0], names[1..]);
    hide Join;
    if names[1..] != [] { Regrouped(names[0] + "/", Join(names[1..]), "/"); }
  }

  lemma {:induction false} JoinTwo(us: seq<string>, vs: seq<string>)
    requires vs != []
    ensures Join(us + vs) == Head(us) + Join(vs)
  {
    hide Join;
    if us == [] {
      assert us + vs == vs && Head(us) + Join(vs) == Join(vs);
    } else {
      JoinTwo(us[1..], vs);
      HeadStep(us);
      assert us + vs == [us[0]] + (us[1..] + vs);
      JoinHead(us[0], us[1..] + vs);
      hide Head;
      Regrouped(us[0] + "/", Head(us[1..]), Join(vs));
    }
  }

  lemma HeadOk(names: seq<string>)
    requires forall i :: 0 <= i < |names| ==> '/' !in names[i]
    ensures Slashes(Head(names)) == |names| && (names != [] ==> Head(names)[|Head(names)| - 1] == '/')
  {
    if names != [] {
      JoinSlashes(names);
      SlashesConcat(Join(names), "/");
      assert "/"[1..] == "";
    }
  }

  predicate SimpleAll(segs: seq<string>) { forall i :: 0 <= i < |segs| ==> SimpleSegment(segs[i]) }

  lemma HeadSimple(segs: seq<string>)
    requires SimpleAll(segs)
    ensures SingleStars(Head(segs)) && forall i :: 0 <= i < |Head(segs)| ==> PatternChar(Head(segs)[i])
    ensures segs != [] ==> Head(segs)[0] == segs[0][0]
  {
    if segs != [] {
      JoinSimple(segs);
      hide PatternChar, SimpleSegment;
      SlashIsPattern();
    }
  }

  function Middle(anchored: bool, segs: seq<string>, rest: seq<string>): string {
    Pattern(anchored, segs + ["**"] + rest)
  }

  lemma MiddleJoin(segs: seq<string>, rest: seq<string>)
    requires SimpleAll(segs) && SimpleSegments(rest)
    ensures var all := segs + ["**"] + rest;
            && Join(all) == Head(segs) + "**/" + Join(rest) && Split(Join(all)) == all
  {
    hide SimpleSegment, Join, Split, Head;
    var all := segs + ["**"] + rest;
    assert all == segs + (["**"] + rest);
    JoinTwo(segs, ["**"] + rest);
    JoinHead("**", rest);
    forall i | 0 <= i < |all| ensures all[i] != "" && '/' !in all[i] {
      if i < |segs| { RealPart(segs[i]); } else if i > |segs| { RealPart(rest[i - |segs| - 1]); }
    }
    SplitJoin(all);
  }

  lemma BodyChars(segs: seq<string>, rest: seq<string>)
    requires SimpleAll(segs) && SimpleSegments(rest)
    ensures var body := Head(segs) + "**/" + Join(rest); IsPattern(body) && body[0] != '/'
  {
    HeadSimple(segs);
    JoinSimple(rest);
    if segs != [] { NoSlash(segs[0]); assert segs[0][0] in segs[0]; }
    hide PatternChar, Head, Join, SimpleSegment, SingleStars;
    SlashIsPattern();
    StarIsPattern();
    HeadEnd(segs);
  }

  lemma HeadEnd(segs: seq<string>)
    ensures Head(segs) == "" <==> segs == []
  {}

  lemma MiddleIs(anchored: bool, segs: seq<string>, rest: seq<string>)
    requires SimpleAll(segs) && SimpleSegments(rest)
    ensures var p := Middle(anchored, segs, rest);
            && Segments(p) == segs + ["**"] + rest && Anchored(p) == anchored && IsPattern(p)
            && Body(p) == Head(segs) + "**/" + Join(rest)
  {
    hide Split, Join, PatternChar, Head, SimpleSegment;
    MiddleJoin(segs, rest);
    BodyChars(segs, rest);
    SlashIsPattern();
    var p, body := Middle(anchored, segs, rest), Head(segs) + "**/" + Join(rest);
    if anchored { assert p[1..] == body; } else { assert p == body; }
  }

  function Path(segs: seq<string>, k: nat, rest: seq<string>): seq<string> { Fitting(segs) + Longs(k) + Fitting(rest) }

  lemma PathOk(segs: seq<string>, k: nat, rest: seq<string>)
    requires SimpleAll(segs) && SimpleSegments(rest)
    ensures NamesOk(Path(segs, k, rest)) && Path(segs, k, rest) != []
    ensures Join(Path(segs, k, rest)) == Head(Fitting(segs)) + Gap(k) + Join(Fitting(rest))
    ensures var head := Head(Fitting(segs));
            Slashes(head) == |segs| && (segs != [] ==> head[|head| - 1] == '/')
    ensures Slashes(Join(Fitting(rest))) == |rest| - 1
  {
    hide SimpleSegment, NameOk, Join, Fit, PathWild, Gap, Head, Slashes;
    FittingOk(segs);
    FittingOk(rest);
    LongOk();
    assert Path(segs, k, rest) == Fitting(segs) + (Longs(k) + Fitting(rest));
    JoinTwo(Fitting(segs), Longs(k) + Fitting(rest));
    JoinGap(k, Fitting(rest));
    forall i | 0 <= i < |segs| ensures '/' !in Fitting(segs)[i] { NameNoSlash(Fitting(segs), i); }
    forall i | 0 <= i < |rest| ensures '/' !in Fitting(rest)[i] { NameNoSlash(Fitting(rest), i); }
    HeadOk(Fitting(segs));
    JoinSlashes(Fitting(rest));
  }

  lemma LongOk()
    ensures NameOk(LONG)
  {}

  // ---------------------------------------------------------------- the descent finds it

  lemma StarsNone(rest: seq<string>, names: seq<string>)
    requires rest != [] && Matches(rest, names)
    ensures Matches(["**"] + rest, names)
  {
    hide Segment;
    assert (["**"] + rest)[1..] == rest;
  }

  lemma StarsOne(rest: seq<string>, names: seq<string>)
    requires rest != [] && names != [] && Matches(["**"] + rest, names[1..])
    ensures Matches(["**"] + rest, names)
  {
    hide Segment;
  }

  lemma {:induction false} StarsMatch(k: nat, rest: seq<string>)
    requires SimpleSegments(rest)
    ensures Matches(["**"] + rest, Longs(k) + Fitting(rest))
  {
    hide SimpleSegment, Fit, Matches, Fitting;
    var names := Longs(k) + Fitting(rest);
    if k == 0 {
      FittingMatch(rest);
      assert names == Fitting(rest);
      StarsNone(rest, names);
    } else {
      StarsMatch(k - 1, rest);
      assert names[1..] == Longs(k - 1) + Fitting(rest);
      StarsOne(rest, names);
    }
  }

  lemma FittingMatch(rest: seq<string>)
    requires SimpleAll(rest)
    ensures NamesOk(Fitting(rest)) && FirstMatch(rest, Fitting(rest)) && Matches(rest, Fitting(rest))
  {
    hide SimpleSegment, Fit, Wild, NameOk, PathWild, Matches;
    FittingOk(rest);
    forall i | 0 <= i < |rest| ensures Wild(rest[i], Fitting(rest)[i]) { FitIs(rest[i]); }
    MatchesSimple(rest, Fitting(rest));
  }

  lemma {:induction false} PathMatches(segs: seq<string>, k: nat, rest: seq<string>)
    requires SimpleAll(segs) && SimpleSegments(rest)
    ensures Matches(segs + ["**"] + rest, Path(segs, k, rest))
  {
    hide SimpleSegment, Fit, Matches, Segment, Path;
    var names := Path(segs, k, rest);
    PathStep(segs, k, rest);
    if segs == [] {
      StarsMatch(k, rest);
      assert segs + ["**"] + rest == ["**"] + rest;
    } else {
      PathMatches(segs[1..], k, rest);
      FitSegment(segs[0]);
      assert segs + ["**"] + rest == [segs[0]] + (segs[1..] + ["**"] + rest);
      assert names[0] == Fit(segs[0]) && names[1..] == Path(segs[1..], k, rest);
      NextSegment(segs[0], segs[1..] + ["**"] + rest, names);
    }
  }

  lemma PathStep(segs: seq<string>, k: nat, rest: seq<string>)
    ensures segs == [] ==> Path(segs, k, rest) == Longs(k) + Fitting(rest)
    ensures segs != [] ==> Path(segs, k, rest) == [Fit(segs[0])] + Path(segs[1..], k, rest)
  {
    hide Fit;
    if segs == [] {
      assert Fitting(segs) == [];
    } else {
      Consed(Fit(segs[0]), Fitting(segs[1..]), Longs(k), Fitting(rest));
    }
  }

  lemma Consed(a: string, b: seq<string>, c: seq<string>, d: seq<string>)
    ensures [a] + b + c + d == [a] + (b + c + d)
  {}

  lemma NextSegment(seg: string, segs: seq<string>, names: seq<string>)
    requires seg != "**" && names != [] && Segment(seg, names[0]) && Matches(segs, names[1..])
    ensures Matches([seg] + segs, names)
  {
    hide Segment;
    assert ([seg] + segs)[1..] == segs;
  }

  lemma FitSegment(seg: string)
    requires SimpleSegment(seg)
    ensures seg != "**" && Segment(seg, Fit(seg))
  {
    hide SimpleSegment, Fit, Wild, LiteralFirst, NameOk;
    FitIs(seg);
    NotStar(seg);
    NoStar(Fit(seg));
    ExactNames(Fit(seg));
  }

  lemma NotStar(seg: string)
    requires SimpleSegment(seg)
    ensures seg != "**"
  {
    NotStars(seg);
  }

  lemma PathFound(anchored: bool, segs: seq<string>, k: nat, rest: seq<string>)
    requires SimpleAll(segs) && SimpleSegments(rest)
    ensures SomePrefix(Middle(anchored, segs, rest), Path(segs, k, rest))
  {
    MiddleIs(anchored, segs, rest);
    PathMatches(segs, k, rest);
    hide SimpleSegment, Matches, Segments, Middle, Path;
    var names := Path(segs, k, rest);
    FromStart(Middle(anchored, segs, rest), names, 0) by { assert names[0..] == names; }
    assert names[..|names|] == names;
    PathThere(segs, k, rest);
  }

  lemma PathThere(segs: seq<string>, k: nat, rest: seq<string>)
    requires rest != []
    ensures Path(segs, k, rest) != []
  {}

  // ---------------------------------------------------------------- they differ

  /** Some segment has a character that only itself takes. */
  ghost predicate HasPlain(segs: seq<string>) {
    exists i, j :: 0 <= i < |segs| && 0 <= j < |segs[i]| && Plain(segs[i][j])
  }

  lemma {:induction false} OwnThere(segs: seq<string>)
    requires SimpleAll(segs) && HasPlain(segs)
    ensures HasOwn(Join(segs)) && HasOwn(Head(segs))
  {
    var i, j: nat :| 0 <= i < |segs| && j < |segs[i]| && Plain(segs[i][j]);
    assert SimpleSegment(segs[i]);
    var x: nat := j;
    if i == 0 {
      assert Join(segs)[j] == segs[0][j];
    } else {
      assert segs[1..][i - 1] == segs[i];
      OwnThere(segs[1..]);
      var y: nat :| OwnChar(Join(segs[1..]), y);
      JoinChars(segs);
      x := |segs[0]| + 1 + y;
    }
    assert OwnChar(Join(segs), x) && OwnChar(Head(segs), x);
  }

  lemma NeverSpans(segs: seq<string>, rest: seq<string>, s: string, g: nat, k: nat, w: nat, b: nat)
    requires SimpleAll(segs) && SimpleSegments(rest) && HasPlain(rest) && (w == 0 || HasPlain(segs))
    requires g + 4 * k <= |s| && s[g..g + 4 * k] == Gap(k) && k > |Head(segs)| + 1 + |Join(rest)|
    requires (g == 0 || s[g - 1] == '/') && Slashes(s[0..g]) <= |segs| && Slashes(s[g + 4 * k..]) < |rest|
    requires w + b <= |s|
    ensures !StarWild(Head(segs) + "**/" + Join(rest), s[w..w + b])
  {
    hide SimpleSegment, StarWild, PathWild, StarsText, Slashes, Join, Head, HasPlain, Gap;
    var h, q, t := Head(segs), Join(rest), s[w..w + b];
    HeadSimple(segs);
    JoinSimple(rest);
    forall i | 0 <= i < |segs| ensures '/' !in segs[i] { NoSlash(segs[i]); }
    forall i | 0 <= i < |rest| ensures '/' !in rest[i] { NoSlash(rest[i]); }
    HeadOk(segs);
    HeadEnd(segs);
    JoinSlashes(rest);
    OwnThere(rest);
    if StarWild(h + "**/" + q, t) {
      var c, d := ThreeParts(h, q, t);
      SliceOf(s, w, w + b, 0, c);
      SliceOf(s, w, w + b, c, d);
      SliceOf(s, w, w + b, d, b);
      assert t[..c] == t[0..c] && t[d..] == t[d..b];
      RestBehind(h, q, s, g, k, w, w + c, w + d, w + b);
      if w != 0 {
        OwnThere(segs);
        HeadBefore(h, q, s, g, k, w, w + c, w + d, w + b);
      }
      TooLong(h, q, s, g, k, w, w + c, w + d, w + b);
    }
  }

  lemma CompiledMisses(anchored: bool, segs: seq<string>, rest: seq<string>, k: nat)
    requires SimpleAll(segs) && SimpleSegments(rest) && HasPlain(rest) && (anchored || HasPlain(segs))
    requires k > |Head(segs)| + 1 + |Join(rest)|
    ensures var p, names := Middle(anchored, segs, rest), Path(segs, k, rest);
            p != "" && names != [] && !LangSeq(Compiled(p), Join(names), 0, |Join(names)|)
  {
    hide SimpleSegment, LangSeq, Compiled, StarWild, HasPlain, Middle, Path, Head, Join, NameOk, Slashes;
    hide Gap, PatternChar, Body, Segments;
    var p, names := Middle(anchored, segs, rest), Path(segs, k, rest);
    MiddleIs(anchored, segs, rest);
    PathOk(segs, k, rest);
    var s, a := Join(names), Head(Fitting(segs));
    var g := |a|;
    assert s[0..g] == a && s[g..g + 4 * k] == Gap(k) && s[g + 4 * k..] == Join(Fitting(rest));
    HeadEnd(Fitting(segs));
    CompiledMeans(p, names);
    forall m: nat | m < |names| && (anchored ==> m == 0) ensures !StarMatches(Body(p), Join(names[m..])) {
      var w: nat := 0;
      if anchored { assert names[0..] == names && s[0..] == s; } else { w := BeginsAt(names, m); }
      forall b: nat | EndsAt(s[w..], b) ensures !StarWild(Body(p), s[w..][..b]) {
        assert s[w..][..b] == s[w..w + b];
        NeverSpans(segs, rest, s, g, k, w, b);
      }
    }
  }

  /** With a plain character behind `**`, and one before it unless the pattern is anchored, the descent finds
      a path that the compiled form misses. */
  lemma MiddleDiffers(anchored: bool, segs: seq<string>, rest: seq<string>)
    requires SimpleAll(segs) && SimpleSegments(rest) && HasPlain(rest) && (anchored || HasPlain(segs))
    ensures Middle(anchored, segs, rest) != "" && !AlwaysAgrees(Middle(anchored, segs, rest))
  {
    hide SimpleSegment, LangSeq, Compiled, HasPlain, Middle, Path, Head, Join, NameOk, SomePrefix;
    var k := |Head(segs)| + 2 + |Join(rest)|;
    PathOk(segs, k, rest);
    PathFound(anchored, segs, k, rest);
    CompiledMisses(anchored, segs, rest, k);
    assert !AgreesOn(Middle(anchored, segs, rest), Path(segs, k, rest));
  }

  // ---------------------------------------------------------------- an example

  const MISSED: seq<string> := ["a", "xx", "yy", "b"]

  lemma MissedStarts(m: nat)
    requires m < 4
    ensures NamesOk(MISSED) && Join(MISSED) == "a/xx/yy/b" && Join(MISSED[m..]) == "a/xx/yy/b"[[0, 2, 5, 8][m]..]
  {
    var s := MISSED;
    assert s[1..] == ["xx", "yy", "b"] && s[2..] == ["yy", "b"] && s[3..] == ["b"] && s[0..] == s;
    assert s[1..][1..] == s[2..] && s[2..][1..] == s[3..];
  }

  lemma TakesA(t: string)
    requires PathWild("a/", t)
    ensures t == "a/"
  {
    assert "a/"[1..] == "/" && "/"[1..] == "";
    assert PathWild("/", t[1..]) && PathWild("", t[1..][1..]);
    assert t == [t[0], t[1]];
  }

  lemma TakesB(t: string)
    requires PathWild("b", t)
    ensures t == "b"
  {
    assert "b"[1..] == "";
  }

  lemma ExampleIs()
    ensures SimpleSegments(["a"]) && SimpleSegments(["b"]) && Middle(false, ["a"], ["b"]) == "a/**/b"
    ensures Head(["a"]) == "a/" && Join(["b"]) == "b"
  {
    assert SimpleSegment("a") && SimpleSegment("b");
    MiddleJoin(["a"], ["b"]);
  }

  /** What `**` is compiled to does not reach over `xx/yy/`. */
  lemma NotReached(w: nat, b: nat)
    requires w in [0, 2, 5, 8] && w + b <= 9
    ensures !StarWild("a/**/b", "a/xx/yy/b"[w..w + b])
  {
    hide StarWild, PathWild, StarsText;
    var s := "a/xx/yy/b";
    if StarWild("a/**/b", s[w..w + b]) {
      var t := s[w..w + b];
      assert "a/" + "**/" + "b" == "a/**/b";
      var c, d := ThreeParts("a/", "b", t);
      TakesA(t[..c]);
      TakesB(t[d..]);
      assert t[..c][0] == t[0] && t[d..][0] == t[d];
      assert w == 0 && d == 8 && c == 2;
      assert |t| == 9 && t == s;
      var x := s[2..8];
      assert x[2] == s[4] == '/' && x[3] == s[5] == 'y' && x[4] == s[6] == 'y';
      StarsShort(x, 2);
    }
  }

  lemma MissedWindows(m: nat)
    requires m < 4
    ensures !StarMatches("a/**/b", Join(MISSED[m..]))
  {
    hide StarWild;
    MissedStarts(m);
    var w := [0, 2, 5, 8][m];
    forall b: nat | EndsAt("a/xx/yy/b"[w..], b) ensures !StarWild("a/**/b", "a/xx/yy/b"[w..][..b]) {
      assert "a/xx/yy/b"[w..][..b] == "a/xx/yy/b"[w..w + b];
      NotReached(w, b);
    }
  }

  lemma MissedExample()
    ensures Join(MISSED) == "a/xx/yy/b" && PatternMatches("a/**/b", MISSED)
    ensures !LangSeq(Compiled("a/**/b"), "a/xx/yy/b", 0, 9)
  {
    hide Middle, Head, StarMatches, LangSeq, Compiled, Segments, Matches, NamesOk, Body, PatternChar, Join;
    ExampleIs();
    MiddleIs(false, ["a"], ["b"]);
    assert "a/" + "**/" + "b" == "a/**/b" && MISSED[0..] == MISSED;
    MissedStarts(0);
    ExampleMatches();
    FromStart("a/**/b", MISSED, 0);
    CompiledMeans("a/**/b", MISSED);
    forall m: nat | m < 4 ensures !StarMatches("a/**/b", Join(MISSED[m..])) { MissedWindows(m); }
  }

  lemma NothingLeft()
    ensures Matches([], [])
  {}

  lemma ExampleMatches()
    ensures Matches(["a"] + ["**"] + ["b"], MISSED)
  {
    hide Segment, Matches;
    var rest := ["**"] + ["b"];
    FitSegment("a");
    FitSegment("b");
    assert "a"[1..] == "" && "b"[1..] == "" && Fit("a") == "a" && Fit("b") == "b";
    NothingLeft();
    assert ["b"][1..] == [];
    NextSegment("b", [], ["b"]);
    assert ["b"] + [] == ["b"];
    StarsNone(["b"], ["b"]);
    StarsOne(["b"], ["yy", "b"]);
    StarsOne(["b"], ["xx", "yy", "b"]);
    NextSegment("a", rest, MISSED);
    assert ["a"] + rest == ["a"] + ["**"] + ["b"];
  }
}
