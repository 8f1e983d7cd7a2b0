/** What compiled patterns match: the language of the regular expression in terms of the path's
    components. */
module GlobLanguage {
  import opened Glob
  import opened Regexes
  import opened GlobList

  // ---------------------------------------------------------------- patterns and names

  predicate SingleStars(p: string) { forall i :: 0 <= i < |p| - 1 ==> !(p[i] == '*' && p[i + 1] == '*') }

  /** A segment of plain characters, single stars and question marks. */
  predicate SimpleSegment(seg: string) {
    seg != "" && SingleStars(seg) && forall i :: 0 <= i < |seg| ==> PatternChar(seg[i]) && seg[i] != '/'
  }

  predicate SimpleSegments(segs: seq<string>) { segs != [] && forall i :: 0 <= i < |segs| ==> SimpleSegment(segs[i]) }

  /** The pattern with these segments. */
  function Pattern(anchored: bool, segs: seq<string>): string { (if anchored then "/" else "") + Join(segs) }

  predicate NameOk(name: string) {
    name != "" && forall i :: 0 <= i < |name| ==> name[i] != '/' && name[i] != '*' && !LineEnd(name[i])
  }

  predicate NamesOk(names: seq<string>) { forall i :: 0 <= i < |names| ==> NameOk(names[i]) }

  lemma {:induction false} JoinSimple(segs: seq<string>)
    requires SimpleSegments(segs)
    ensures SingleStars(Join(segs)) && IsPattern(Join(segs)) && Join(segs)[0] == segs[0][0]
  {
    hide PatternChar;
    assert SimpleSegment(segs[0]);
    if |segs| > 1 {
      JoinSimple(segs[1..]);
      var s, n, rest := Join(segs), |segs[0]|, Join(segs[1..]);
      JoinChars(segs);
      SlashIsPattern();
      forall i | 0 <= i < |s| ensures PatternChar(s[i]) {}
      forall i | 0 <= i < |s| - 1 ensures !(s[i] == '*' && s[i + 1] == '*') {}
    }
  }

  lemma JoinChars(segs: seq<string>)
    requires |segs| > 1
    ensures var s, n, rest := Join(segs), |segs[0]|, Join(segs[1..]);
            && |s| == n + 1 + |rest| && s[n] == '/'
            && (forall i :: 0 <= i < n ==> s[i] == segs[0][i]) && (forall i :: n < i < |s| ==> s[i] == rest[i - n - 1])
  {}

  lemma SlashIsPattern()
    ensures PatternChar('/')
  {}

  lemma NoSlash(seg: string)
    requires SimpleSegment(seg)
    ensures '/' !in seg
  {}

  // ---------------------------------------------------------------- the expression as a wildcard

  /** A wildcard whose star stops at slashes, and whose question mark does not. */
  predicate PathWild(p: string, t: string)
    decreases |p| + |t|
  {
    if p == "" then t == ""
    else if p[0] == '*' then PathWild(p[1..], t) || (t != "" && t[0] != '/' && PathWild(p, t[1..]))
    else t != "" && (p[0] == '?' || p[0] == t[0]) && PathWild(p[1..], t[1..])
  }

  predicate NoSlashes(t: string) { forall i :: 0 <= i < |t| ==> t[i] != '/' }

  /** A slash and another character, and so on. */
  predicate Pairs(t: string) { t == "" || (|t| > 1 && t[0] == '/' && t[1] != '/' && Pairs(t[2..])) }

  /** What `**` matches: text without slashes, then components of one character each, then perhaps a
      slash. */
  predicate StarsText(t: string) { exists a, b :: 0 <= a <= b <= |t| && StarsAt(t, a, b) }

  predicate StarsAt(t: string, a: nat, b: nat)
    requires a <= b <= |t|
  {
    NoSlashes(t[..a]) && Pairs(t[a..b]) && (b == |t| || (b + 1 == |t| && t[b] == '/'))
  }

  predicate DoubleStar(p: string) { |p| > 1 && p[0] == '*' && p[1] == '*' }

  /** The same wildcard with `**`, which takes one slash of the pattern along with it. */
  predicate StarWild(p: string, t: string)
    decreases |p|, |t|
  {
    if p == "" then t == ""
    else if DoubleStar(p) then exists k :: 0 <= k <= |t| && StarsText(t[..k]) && StarWild(SkipSlash(p[2..]), t[k..])
    else if p[0] == '*' then StarWild(p[1..], t) || (t != "" && t[0] != '/' && StarWild(p, t[1..]))
    else t != "" && (p[0] == '?' || p[0] == t[0]) && StarWild(p[1..], t[1..])
  }

  lemma {:induction false} SingleWild(p: string, t: string)
    requires SingleStars(p)
    ensures StarWild(p, t) <==> PathWild(p, t)
    decreases |p|, |t|
  {
    if p != "" {
      assert !DoubleStar(p);
      SingleWild(p[1..], t);
      if t != "" {
        SingleWild(p, t[1..]);
        SingleWild(p[1..], t[1..]);
      }
    }
  }

  predicate NoLineEnd(s: string) { forall i :: 0 <= i < |s| ==> !LineEnd(s[i]) }

  lemma {:induction false} ManyPlain(s: string, i: nat, j: nat)
    requires i <= j <= |s|
    ensures Lang(STAR, s, i, j) <==> NoSlashes(s[i..j])
    decreases j - i
  {
    hide Lang;
    ManyNotSlash(s, i, j);
    if i < j {
      ManyPlain(s, i + 1, j);
      assert s[i..j] == [s[i]] + s[i + 1..j];
    }
  }

  const PAIR: Regex := Group([Lit('/'), NotSlash])

  lemma OnePair(s: string, i: nat, j: nat)
    requires i <= j <= |s|
    ensures Lang(PAIR, s, i, j) <==> j == i + 2 && s[i] == '/' && s[i + 1] != '/'
  {
    var rs := [Lit('/'), NotSlash];
    assert rs[1..] == [NotSlash];
    LitStep(rs, '/', s, i, j);
    if i < j { LangOne(NotSlash, s, i + 1, j); }
  }

  lemma {:induction false} ManyPairs(s: string, i: nat, j: nat)
    requires i <= j <= |s|
    ensures Lang(Many(PAIR), s, i, j) <==> Pairs(s[i..j])
    decreases j - i
  {
    var t := s[i..j];
    if i + 1 < j {
      OnePair(s, i, i + 2);
      ManyPairs(s, i + 2, j);
      assert t[2..] == s[i + 2..j] && t[0] == s[i] && t[1] == s[i + 1];
      PairsStep(s, i, j);
    } else if i < j {
      PairsStep(s, i, j);
    }
  }

  lemma PairsStep(s: string, i: nat, j: nat)
    requires i < j <= |s|
    ensures Lang(Many(PAIR), s, i, j) <==> i + 2 <= j && Lang(PAIR, s, i, i + 2) && Lang(Many(PAIR), s, i + 2, j)
  {
    if Lang(Many(PAIR), s, i, j) {
      var k: nat :| Mid(k) && i < k <= j && Lang(PAIR, s, i, k) && Lang(Many(PAIR), s, k, j);
      OnePair(s, i, k);
    }
    if i + 2 <= j && Lang(PAIR, s, i, i + 2) && Lang(Many(PAIR), s, i + 2, j) { assert Mid(i + 2); }
  }

  lemma StarsFirst(s: string, i: nat, j: nat)
    requires i <= j <= |s|
    ensures Lang(Group([STAR, Many(PAIR)]), s, i, j) <==>
              exists a: nat :: i <= a <= j && NoSlashes(s[i..a]) && Pairs(s[a..j])
  {
    var rs := [STAR, Many(PAIR)];
    assert rs[1..] == [Many(PAIR)] && [STAR] + [Many(PAIR)] == rs;
    hide NoSlashes, Pairs;
    if Lang(Group(rs), s, i, j) {
      hide Lang;
      var a := LangPart([STAR], [Many(PAIR)], s, i, j);
      LangOne(STAR, s, i, a);
      LangOne(Many(PAIR), s, a, j);
      ManyPlain(s, i, a);
      ManyPairs(s, a, j);
    }
    if a: nat :| i <= a <= j && NoSlashes(s[i..a]) && Pairs(s[a..j]) {
      ManyPlain(s, i, a);
      ManyPairs(s, a, j);
      LangOne(STAR, s, i, a);
      LangOne(Many(PAIR), s, a, j);
      LangJoin([STAR], [Many(PAIR)], s, i, a, j);
    }
  }

  lemma StarsLast(s: string, i: nat, j: nat)
    requires i <= j <= |s|
    ensures Lang(Group([Maybe(Lit('/'))]), s, i, j) <==> i == j || (i + 1 == j && s[i] == '/')
  {
    LangOne(Maybe(Lit('/')), s, i, j);
  }

  lemma SliceOf(s: string, i: nat, j: nat, a: nat, b: nat)
    requires i <= j <= |s| && a <= b <= j - i
    ensures s[i..j][a..b] == s[i + a..i + b]
  {
    var t, u := s[i..j][a..b], s[i + a..i + b];
    assert |t| == |u| && forall k :: 0 <= k < |t| ==> t[k] == s[i + a + k] && u[k] == s[i + a + k];
  }

  const FIRST: Regex := Group([STAR, Many(PAIR)])
  const LAST: Regex := Group([Maybe(Lit('/'))])

  lemma StarsParts(s: string, i: nat, j: nat)
    requires i <= j <= |s|
    ensures LangSeq(STARS, s, i, j) <==> exists b: nat :: i <= b <= j && Lang(FIRST, s, i, b) && Lang(LAST, s, b, j)
  {
    assert STARS == [FIRST] + [LAST];
    hide Lang, LangSeq, FIRST, LAST, STARS;
    if LangSeq([FIRST] + [LAST], s, i, j) {
      var b := LangPart([FIRST], [LAST], s, i, j);
      LangOne(FIRST, s, i, b);
      LangOne(LAST, s, b, j);
    }
    if b: nat :| i <= b <= j && Lang(FIRST, s, i, b) && Lang(LAST, s, b, j) {
      LangOne(FIRST, s, i, b);
      LangOne(LAST, s, b, j);
      LangJoin([FIRST], [LAST], s, i, b, j);
    }
  }

  lemma StarsSplit(s: string, i: nat, j: nat, a: nat, b: nat)
    requires i <= j <= |s| && a <= b <= j - i
    ensures StarsAt(s[i..j], a, b) <==>
              NoSlashes(s[i..i + a]) && Pairs(s[i + a..i + b]) && (i + b == j || (i + b + 1 == j && s[i + b] == '/'))
  {
    SliceOf(s, i, j, 0, a);
    SliceOf(s, i, j, a, b);
    hide NoSlashes, Pairs;
    assert s[i..j][..a] == s[i..j][0..a];
  }

  /** What the expression for `**` matches. */
  lemma StarsMean(s: string, i: nat, j: nat)
    requires i <= j <= |s|
    ensures LangSeq(STARS, s, i, j) <==> StarsText(s[i..j])
  {
    hide Lang, LangSeq, NoSlashes, Pairs, StarsAt, STARS;
    StarsParts(s, i, j);
    if b: nat :| i <= b <= j && Lang(FIRST, s, i, b) && Lang(LAST, s, b, j) {
      StarsFirst(s, i, b);
      StarsLast(s, b, j);
      var a: nat :| i <= a <= b && NoSlashes(s[i..a]) && Pairs(s[a..b]);
      StarsSplit(s, i, j, a - i, b - i);
    }
    if a, b :| 0 <= a <= b <= |s[i..j]| && StarsAt(s[i..j], a, b) {
      StarsSplit(s, i, j, a, b);
      StarsFirst(s, i, i + b);
      StarsLast(s, i + b, j);
    }
  }

  lemma {:induction false} EmitIsWild(p: string, s: string, i: nat, j: nat)
    requires i <= j <= |s| && NoLineEnd(s)
    ensures LangSeq(EmitAll(p), s, i, j) <==> StarWild(p, s[i..j])
    decreases |p|, j - i
  {
    hide Lang, LineEnd, LangSeq, StarsText;
    if p == "" {
      EmitNothing(s, i, j);
    } else if DoubleStar(p) {
      EmitStars(p, s, i, j);
    } else {
      var rs, t := EmitAll(p), s[i..j];
      assert rs[0] == Emit(p[0]) && rs[1..] == EmitAll(p[1..]);
      assert i < j ==> t[0] == s[i] && t[1..] == s[i + 1..j];
      EmitIsWild(p[1..], s, i, j);
      if i < j { EmitIsWild(p[1..], s, i + 1, j); }
      if p[0] == '*' {
        if i < j { EmitIsWild(p, s, i + 1, j); }
        StarStep(rs, s, i, j);
      } else if p[0] == '?' {
        AnyStep(rs, s, i, j);
      } else {
        LitStep(rs, p[0], s, i, j);
      }
    }
  }

  lemma EmitNothing(s: string, i: nat, j: nat)
    requires i <= j <= |s|
    ensures LangSeq([], s, i, j) <==> s[i..j] == ""
  {}

  lemma {:induction false} EmitStars(p: string, s: string, i: nat, j: nat)
    requires i <= j <= |s| && NoLineEnd(s) && DoubleStar(p)
    ensures LangSeq(EmitAll(p), s, i, j) <==> StarWild(p, s[i..j])
    decreases |p|, j - i, 0
  {
    hide Lang, LineEnd, LangSeq, StarsText;
    var rest, t := SkipSlash(p[2..]), s[i..j];
    assert EmitAll(p) == STARS + EmitAll(rest);
    hide EmitAll;
    forall k | i <= k <= j
      ensures LangSeq(STARS, s, i, k) <==> StarsText(t[..k - i])
      ensures LangSeq(EmitAll(rest), s, k, j) <==> StarWild(rest, t[k - i..])
    {
      StarsMean(s, i, k);
      EmitIsWild(rest, s, k, j);
      assert t[..k - i] == s[i..k] && t[k - i..] == s[k..j];
    }
    if LangSeq(STARS + EmitAll(rest), s, i, j) {
      var k := LangPart(STARS, EmitAll(rest), s, i, j);
      assert StarsText(t[..k - i]) && StarWild(rest, t[k - i..]);
    }
    if StarWild(p, t) {
      var k :| 0 <= k <= |t| && StarsText(t[..k]) && StarWild(rest, t[k..]);
      assert LangSeq(STARS, s, i, i + k) && LangSeq(EmitAll(rest), s, i + k, j);
      LangJoin(STARS, EmitAll(rest), s, i, i + k, j);
    }
  }

  lemma StarStep(rs: seq<Regex>, s: string, i: nat, j: nat)
    requires i <= j <= |s| && rs != [] && rs[0] == STAR
    ensures LangSeq(rs, s, i, j) <==> LangSeq(rs[1..], s, i, j) || (i < j && s[i] != '/' && LangSeq(rs, s, i + 1, j))
  {
    hide Lang;
    if LangSeq(rs[1..], s, i, j) {
      ManyNotSlash(s, i, i);
      SeqStep(rs, s, i, i, j);
    }
    if i < j && s[i] != '/' && LangSeq(rs, s, i + 1, j) {
      var k: nat :| Mid(k) && i + 1 <= k <= j && Lang(rs[0], s, i + 1, k) && LangSeq(rs[1..], s, k, j);
      ManyNotSlash(s, i, k);
      SeqStep(rs, s, i, k, j);
    }
    if LangSeq(rs, s, i, j) && !LangSeq(rs[1..], s, i, j) {
      var k: nat :| Mid(k) && i <= k <= j && Lang(rs[0], s, i, k) && LangSeq(rs[1..], s, k, j);
      ManyNotSlash(s, i, k);
      SeqStep(rs, s, i + 1, k, j);
    }
  }

  lemma LitStep(rs: seq<Regex>, c: char, s: string, i: nat, j: nat)
    requires i <= j <= |s| && rs != [] && rs[0] == Lit(c)
    ensures LangSeq(rs, s, i, j) <==> i < j && s[i] == c && LangSeq(rs[1..], s, i + 1, j)
  {
    if i < j && s[i] == c && LangSeq(rs[1..], s, i + 1, j) { SeqStep(rs, s, i, i + 1, j); }
  }

  lemma AnyStep(rs: seq<Regex>, s: string, i: nat, j: nat)
    requires i <= j <= |s| && rs != [] && rs[0] == AnyChar && NoLineEnd(s)
    ensures LangSeq(rs, s, i, j) <==> i < j && LangSeq(rs[1..], s, i + 1, j)
  {
    hide LineEnd;
    if i < j && LangSeq(rs[1..], s, i + 1, j) { SeqStep(rs, s, i, i + 1, j); }
  }

  // ---------------------------------------------------------------- joined names

  lemma NameSlash(names: seq<string>)
    requires NamesOk(names) && names != []
    ensures Slash(Join(names)) == |names[0]| && Join(names)[..|names[0]|] == names[0]
    ensures |names| > 1 ==> |names[0]| < |Join(names)| && Join(names)[|names[0]| + 1..] == Join(names[1..])
    ensures |names| == 1 ==> |names[0]| == |Join(names)|
  {
    hide LineEnd;
    var s, n := Join(names), |names[0]|;
    assert NameOk(names[0]);
    assert forall i :: 0 <= i < n ==> s[i] == names[0][i];
    SlashAt(s, n);
  }

  /** b is the end of a component. */
  predicate EndsAt(s: string, b: nat) { b == |s| || (b < |s| && s[b] == '/') }

  ghost predicate StartMatches(p: string, s: string) { exists b: nat :: EndsAt(s, b) && PathWild(p, s[..b]) }

  ghost predicate StarMatches(p: string, s: string) { exists b: nat :: EndsAt(s, b) && StarWild(p, s[..b]) }

  lemma SingleStart(p: string, s: string)
    requires SingleStars(p)
    ensures StarMatches(p, s) <==> StartMatches(p, s)
  {
    hide StarWild, PathWild, SingleStars;
    if StarMatches(p, s) {
      var b: nat :| EndsAt(s, b) && StarWild(p, s[..b]);
      SingleWild(p, s[..b]);
    }
    if StartMatches(p, s) {
      var b: nat :| EndsAt(s, b) && PathWild(p, s[..b]);
      SingleWild(p, s[..b]);
    }
  }

  /** The beginnings of components are where the joins of the last names begin. */
  lemma {:induction false} Beginnings(names: seq<string>, a: nat) returns (m: nat)
    requires NamesOk(names) && names != [] && a <= |Join(names)| && (a == 0 || Join(names)[a - 1] == '/')
    ensures m < |names| && Join(names)[a..] == Join(names[m..])
  {
    hide LineEnd;
    var s := Join(names);
    NameSlash(names);
    if a == 0 {
      m := 0;
      assert s[0..] == s && names[0..] == names;
    } else {
      var n := |names[0]|;
      var t, a' := Join(names[1..]), a - n - 1;
      assert s[a..] == t[a'..];
      assert a' > 0 ==> t[a' - 1] == s[a - 1];
      var k := Beginnings(names[1..], a');
      m := k + 1;
      assert names[1..][k..] == names[m..];
    }
  }

  lemma {:induction false} BeginsAt(names: seq<string>, m: nat) returns (a: nat)
    requires NamesOk(names) && m < |names|
    ensures a <= |Join(names)| && (a == 0 || Join(names)[a - 1] == '/') && Join(names)[a..] == Join(names[m..])
  {
    var s := Join(names);
    if m == 0 {
      a := 0;
      assert s[0..] == s && names[0..] == names;
    } else {
      NameSlash(names);
      var k := BeginsAt(names[1..], m - 1);
      var n := |names[0]|;
      a := n + 1 + k;
      assert names[1..][m - 1..] == names[m..];
      assert s[a..] == Join(names[1..])[k..];
      assert s[a - 1] == if k == 0 then s[n] else Join(names[1..])[k - 1];
    }
  }

  // ---------------------------------------------------------------- the whole expression

  lemma ChildPart(s: string, m: nat)
    requires NoLineEnd(s) && m <= |s|
    ensures Lang(ANY_CHILD, s, m, |s|) <==> EndsAt(s, m)
  {
    hide LineEnd;
    var g := [Lit('/'), Many(AnyChar)];
    LitStep(g, '/', s, m, |s|);
    if m < |s| {
      LangOne(Many(AnyChar), s, m + 1, |s|);
      ManyAny(s, m + 1, |s|);
      assert g[1..] == [Many(AnyChar)];
    }
  }

  lemma ParentPart(s: string, a: nat)
    requires NoLineEnd(s) && a <= |s|
    ensures Lang(ANY_PARENT, s, 0, a) <==> a == 0 || s[a - 1] == '/'
  {
    hide LineEnd;
    var g := [Many(AnyChar), Lit('/')];
    assert [Many(AnyChar)] + [Lit('/')] == g;
    if LangSeq(g, s, 0, a) && a != 0 {
      var m := LangPart([Many(AnyChar)], [Lit('/')], s, 0, a);
      LangOne(Lit('/'), s, m, a);
    }
    if a > 0 && s[a - 1] == '/' {
      ManyAny(s, 0, a - 1);
      LangOne(Many(AnyChar), s, 0, a - 1);
      LangOne(Lit('/'), s, a - 1, a);
      LangJoin([Many(AnyChar)], [Lit('/')], s, 0, a - 1, a);
    }
  }

  /** Where an anchored or another pattern may begin. */
  predicate BeginsOk(anchored: bool, s: string, a: nat)
    requires a <= |s|
  {
    a == 0 || (!anchored && s[a - 1] == '/')
  }

  ghost predicate SomeStart(anchored: bool, body: string, s: string) {
    exists a: nat :: a <= |s| && BeginsOk(anchored, s, a) && StarMatches(body, s[a..])
  }

  lemma HeadPart(anchored: bool, s: string, a: nat)
    requires NoLineEnd(s) && a <= |s|
    ensures LangSeq([if anchored then Begin else ANY_PARENT], s, 0, a) <==> BeginsOk(anchored, s, a)
  {
    LangOne(if anchored then Begin else ANY_PARENT, s, 0, a);
    if !anchored { ParentPart(s, a); }
  }

  lemma ExpressionMeans(anchored: bool, body: string, s: string)
    requires NoLineEnd(s)
    ensures var head := [if anchored then Begin else ANY_PARENT];
            LangSeq(head + EmitAll(body) + [ANY_CHILD], s, 0, |s|) <==> SomeStart(anchored, body, s)
  {
    hide Lang, StarWild, NoLineEnd, Emit, EmitAll, LangSeq;
    var head := [if anchored then Begin else ANY_PARENT];
    if LangSeq(head + EmitAll(body) + [ANY_CHILD], s, 0, |s|) {
      var m := LangPart(head + EmitAll(body), [ANY_CHILD], s, 0, |s|);
      var a := LangPart(head, EmitAll(body), s, 0, m);
      LangOne(ANY_CHILD, s, m, |s|);
      ChildPart(s, m);
      HeadPart(anchored, s, a);
      EmitIsWild(body, s, a, m);
      assert s[a..][..m - a] == s[a..m] && EndsAt(s[a..], m - a);
    }
    if SomeStart(anchored, body, s) {
      var a: nat :| a <= |s| && BeginsOk(anchored, s, a) && StarMatches(body, s[a..]);
      var b: nat :| EndsAt(s[a..], b) && StarWild(body, s[a..][..b]);
      var m := a + b;
      assert s[a..][..b] == s[a..m] && EndsAt(s, m);
      EmitIsWild(body, s, a, m);
      HeadPart(anchored, s, a);
      ChildPart(s, m);
      LangOne(ANY_CHILD, s, m, |s|);
      LangJoin(head, EmitAll(body), s, 0, a, m);
      LangJoin(head + EmitAll(body), [ANY_CHILD], s, 0, m, |s|);
    }
  }

  lemma {:induction false} JoinNoLineEnd(names: seq<string>)
    requires NamesOk(names)
    ensures NoLineEnd(Join(names)) && (names != [] ==> Join(names) != "")
  {
    if names != [] {
      JoinNoLineEnd(names[1..]);
      assert NameOk(names[0]);
      var s, n := Join(names), |names[0]|;
      forall i | 0 <= i < |s| ensures !LineEnd(s[i]) {
        if i < n { assert s[i] == names[0][i]; } else if i > n { assert s[i] == Join(names[1..])[i - n - 1]; }
      }
    }
  }

  lemma RestOk(names: seq<string>, m: nat)
    requires NamesOk(names) && m < |names|
    ensures NamesOk(names[m..]) && names[m..] != []
  {
    hide NameOk;
  }

  lemma CompiledIs(anchored: bool, segs: seq<string>)
    requires SimpleSegments(segs)
    ensures var p, body := Pattern(anchored, segs), Join(segs);
            IsPattern(p) && Anchored(p) == anchored
            && Compiled(p) == [if anchored then Begin else ANY_PARENT] + EmitAll(body) + [ANY_CHILD]
  {
    hide EmitAll, Join, PatternChar;
    var p, body := Pattern(anchored, segs), Join(segs);
    JoinSimple(segs);
    NoSlash(segs[0]);
    SlashIsPattern();
    assert body[0] in segs[0];
    if anchored {
      assert p[1..] == body && forall i :: 0 < i < |p| ==> p[i] == body[i - 1];
    } else {
      assert p == body;
    }
  }

  function Body(p: string): string { if Anchored(p) then p[1..] else p }

  lemma CompiledParts(p: string)
    requires p != ""
    ensures Compiled(p) == [if Anchored(p) then Begin else ANY_PARENT] + EmitAll(Body(p)) + [ANY_CHILD]
  {
    hide EmitAll;
  }

  /** The compiled pattern matches a path exactly when its body matches from the beginning of some
      component, the first one if it is anchored, to the end of one. */
  lemma CompiledMeans(p: string, names: seq<string>)
    requires IsPattern(p) && NamesOk(names) && names != []
    ensures LangSeq(Compiled(p), Join(names), 0, |Join(names)|) <==>
              exists m: nat :: m < |names| && (Anchored(p) ==> m == 0) && StarMatches(Body(p), Join(names[m..]))
  {
    hide LineEnd, StarWild, LangSeq, EmitAll, StarMatches, NamesOk, NameOk, Join, NoLineEnd, PatternChar, Compiled;
    hide Body;
    var anchored, body, s := Anchored(p), Body(p), Join(names);
    CompiledParts(p);
    JoinNoLineEnd(names);
    ExpressionMeans(anchored, body, s);
    if SomeStart(anchored, body, s) {
      var a: nat :| a <= |s| && BeginsOk(anchored, s, a) && StarMatches(body, s[a..]);
      if a == 0 {
        assert s[0..] == s && names[0..] == names;
      } else {
        var m := Beginnings(names, a);
      }
    }
    if m: nat :| m < |names| && (anchored ==> m == 0) && StarMatches(body, Join(names[m..])) {
      var a: nat := 0;
      if anchored { assert s[0..] == s && names[0..] == names; } else { a := BeginsAt(names, m); }
      assert BeginsOk(anchored, s, a);
    }
  }

  lemma SimpleMeans(anchored: bool, segs: seq<string>, names: seq<string>)
    requires SimpleSegments(segs) && NamesOk(names) && names != []
    ensures Pattern(anchored, segs) != ""
    ensures LangSeq(Compiled(Pattern(anchored, segs)), Join(names), 0, |Join(names)|) <==>
              exists m: nat :: m < |names| && (anchored ==> m == 0) && StartMatches(Join(segs), Join(names[m..]))
  {
    hide LangSeq, Compiled, StarMatches, StartMatches, NamesOk, SimpleSegment, SingleStars, Join, PatternChar;
    var p, body := Pattern(anchored, segs), Join(segs);
    CompiledIs(anchored, segs);
    JoinSimple(segs);
    CompiledMeans(p, names);
    assert Body(p) == body;
    forall m: nat | m < |names| ensures StarMatches(body, Join(names[m..])) == StartMatches(body, Join(names[m..])) {
      SingleStart(body, Join(names[m..]));
    }
  }
}
