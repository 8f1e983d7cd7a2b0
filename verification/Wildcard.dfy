/** glob_match_segment: wildcard matching of one path segment in a loop that goes back to the last
    star only. */
module Wildcard {

  /** `*` stands for any string, `?` for any character. */
  predicate Wild(pat: string, name: string)
    decreases |pat| + |name|
  {
    if pat == "" then name == ""
    else if pat[0] == '*' then Wild(pat[1..], name) || (name != "" && Wild(pat, name[1..]))
    else name != "" && (pat[0] == '?' || pat[0] == name[0]) && Wild(pat[1..], name[1..])
  }

  /** A star takes more. */
  lemma {:induction false} StarTakes(pat: string, name: string, k: nat)
    requires pat != "" && pat[0] == '*' && k <= |name| && Wild(pat, name[k..])
    ensures Wild(pat, name)
  {
    if k > 0 {
      assert name[1..][k - 1..] == name[k..];
      StarTakes(pat, name[1..], k - 1);
    }
  }

  // ---------------------------------------------------------------- stars in the name

  /** What the matcher means: a star of the pattern that meets a star is that star, any other star stands for
      any string.  A question mark stands for any character, a star included. */
  predicate LiteralFirst(pat: string, name: string)
    decreases |pat|, 0
  {
    if pat == "" then name == ""
    else if name != "" && (pat[0] == '?' || pat[0] == name[0]) then LiteralFirst(pat[1..], name[1..])
    else pat[0] == '*' && Somewhere(pat[1..], name, 0)
  }

  /** The pattern matches an end of the name that begins at m or later. */
  predicate Somewhere(pat: string, name: string, m: nat)
    decreases |pat|, 1
  {
    exists k: nat :: m <= k <= |name| && LiteralFirst(pat, name[k..])
  }

  lemma {:induction false} LiteralIsWild(pat: string, name: string)
    requires LiteralFirst(pat, name)
    ensures Wild(pat, name)
    decreases |pat|
  {
    if pat == "" {
    } else if name != "" && (pat[0] == '?' || pat[0] == name[0]) {
      LiteralIsWild(pat[1..], name[1..]);
      if pat[0] == '*' { assert Wild(pat, name[1..]); }
    } else {
      var k: nat :| 0 <= k <= |name| && LiteralFirst(pat[1..], name[k..]);
      LiteralIsWild(pat[1..], name[k..]);
      StarTakes(pat, name, k);
    }
  }

  /** Without stars in the name nothing is lost. */
  lemma {:induction false} WildIsLiteral(pat: string, name: string)
    requires Wild(pat, name) && '*' !in name
    ensures LiteralFirst(pat, name)
    decreases |pat|
  {
    if pat != "" && pat[0] == '*' {
      var k := AfterStar(pat, name);
      WildIsLiteral(pat[1..], name[k..]);
      assert Somewhere(pat[1..], name, 0);
    } else if pat != "" {
      WildIsLiteral(pat[1..], name[1..]);
    }
  }

  /** What follows a star matches somewhere. */
  lemma {:induction false} AfterStar(pat: string, name: string) returns (k: nat)
    requires pat != "" && pat[0] == '*' && Wild(pat, name)
    ensures k <= |name| && Wild(pat[1..], name[k..])
    decreases |name|
  {
    if Wild(pat[1..], name) {
      k := 0;
    } else {
      var k' := AfterStar(pat, name[1..]);
      k := k' + 1;
      assert name[1..][k'..] == name[k..];
    }
  }

  // ---------------------------------------------------------------- the loop

  /** The state of the loop: positions in pattern and name, and those of the last star recorded with what
      it has not taken yet; a star that has not been recorded has position -1.  What is between the star
      and the position has been compared character by character. */
  ghost predicate LoopState(pat: string, name: string, pi: int, ni: int, starPi: int, starNi: int) {
    && 0 <= pi <= |pat| && 0 <= starNi <= ni <= |name| && -1 <= starPi < pi <= |pat|
    && (starPi == -1 ==> starNi == 0)
    && (starPi >= 0 ==>
          pat[starPi] == '*' && pi - starPi - 1 == ni - starNi && Aligned(pat, name, starPi + 1, pi, starNi))
  }

  predicate Aligned(pat: string, name: string, a: nat, b: nat, n: nat)
    requires a <= b <= |pat| && n + (b - a) <= |name|
  {
    forall i :: a <= i < b ==> pat[i] == '?' || pat[i] == name[n + i - a]
  }

  /** What is left: the name from ni against the pattern from pi. */
  predicate Here(pat: string, name: string, pi: nat, ni: nat)
    requires pi <= |pat| && ni <= |name|
  {
    LiteralFirst(pat[pi..], name[ni..])
  }

  /** Or the last star takes more. */
  predicate Later(pat: string, name: string, pi: nat, n: nat)
    requires pi <= |pat|
  {
    Somewhere(pat[pi..], name, n)
  }

  lemma SomewhereFrom(pat: string, name: string, n: nat)
    requires n <= |name|
    ensures Somewhere(pat, name[n..], 0) <==> Somewhere(pat, name, n)
  {
    hide LiteralFirst;
    if Somewhere(pat, name[n..], 0) {
      var k: nat :| 0 <= k <= |name[n..]| && LiteralFirst(pat, name[n..][k..]);
      assert name[n..][k..] == name[n + k..];
    }
    if Somewhere(pat, name, n) {
      var k: nat :| n <= k <= |name| && LiteralFirst(pat, name[k..]);
      var k': nat := k - n;
      assert name[n..][k'..] == name[k..] && 0 <= k' <= |name[n..]|;
    }
  }

  lemma HereStep(pat: string, name: string, pi: nat, ni: nat)
    requires pi < |pat| && ni <= |name|
    ensures Here(pat, name, pi, ni) <==>
              if ni < |name| && (pat[pi] == '?' || pat[pi] == name[ni]) then Here(pat, name, pi + 1, ni + 1)
              else pat[pi] == '*' && Later(pat, name, pi + 1, ni)
  {
    hide Somewhere;
    assert pat[pi..][1..] == pat[pi + 1..];
    if ni < |name| { assert name[ni..][1..] == name[ni + 1..]; }
    SomewhereFrom(pat[pi + 1..], name, ni);
  }

  lemma LaterStep(pat: string, name: string, pi: nat, n: nat)
    requires pi <= |pat| && n <= |name|
    ensures Later(pat, name, pi, n) <==> Here(pat, name, pi, n) || Later(pat, name, pi, n + 1)
  {}

  /** A star that begins later reaches no position of the pattern earlier: where the one meets a star as a
      star of the name, so does the other, unless it is further on already. */
  lemma {:induction false} NotEarlier(pat: string, name: string, a: nat, b: nat, n: nat, q: nat)
    requires a <= b <= |pat| && n + (b - a) <= |name| && Aligned(pat, name, a, b, n)
    requires n <= q <= |name| && Here(pat, name, a, q)
    ensures Later(pat, name, b, n + (b - a))
    decreases b - a
  {
    hide LiteralFirst;
    if a < b {
      HereStep(pat, name, a, q);
      assert pat[a] == '?' || pat[a] == name[n + a - a];
      if q < |name| && (pat[a] == '?' || pat[a] == name[q]) {
        NotEarlier(pat, name, a + 1, b, n + 1, q + 1);
      } else {
        var k: nat :| q <= k <= |name| && LiteralFirst(pat[a + 1..], name[k..]);
        NotEarlier(pat, name, a + 1, b, n + 1, k);
      }
    }
  }

  /** So the last star recorded is enough: what an earlier one could do by taking more, it can do. */
  lemma LaterStarSuffices(pat: string, name: string, pi: nat, ni: nat, starPi: nat, starNi: nat)
    requires LoopState(pat, name, pi, ni, starPi, starNi) && Later(pat, name, starPi + 1, starNi + 1)
    ensures Later(pat, name, pi, ni)
  {
    hide LiteralFirst;
    var k: nat :| starNi + 1 <= k <= |name| && LiteralFirst(pat[starPi + 1..], name[k..]);
    NotEarlier(pat, name, starPi + 1, pi, starNi, k);
  }

  /** A star that is met later is met at a later character, or takes it. */
  lemma StarLater(pat: string, name: string, pi: nat, ni: nat)
    requires pi < |pat| && pat[pi] == '*' && Later(pat, name, pi, ni)
    ensures Later(pat, name, pi + 1, ni)
  {
    hide LiteralFirst;
    var k: nat :| ni <= k <= |name| && LiteralFirst(pat[pi..], name[k..]);
    HereStep(pat, name, pi, k);
  }

  lemma {:induction false} RestIsStars(pat: string, name: string, pi: nat)
    requires pi <= |pat|
    ensures Here(pat, name, pi, |name|) <==> forall i :: pi <= i < |pat| ==> pat[i] == '*'
    ensures Later(pat, name, pi, |name|) <==> Here(pat, name, pi, |name|)
    decreases |pat| - pi
  {
    hide LiteralFirst;
    if pi < |pat| {
      HereStep(pat, name, pi, |name|);
      RestIsStars(pat, name, pi + 1);
    } else {
      NothingLeft(pat[pi..], name[|name|..]);
    }
  }

  lemma NothingLeft(pat: string, name: string)
    requires pat == ""
    ensures LiteralFirst(pat, name) <==> name == ""
  {}

  /** What the loop will answer: from here on, or with the last star taking more. */
  ghost predicate Answer(pat: string, name: string, pi: int, ni: int, starPi: int, starNi: int)
    requires LoopState(pat, name, pi, ni, starPi, starNi)
  {
    Here(pat, name, pi, ni) || (starPi >= 0 && Later(pat, name, starPi + 1, starNi + 1))
  }

  /** A character of the pattern matches. */
  lemma Compared(pat: string, name: string, pi: int, ni: int, starPi: int, starNi: int)
    requires LoopState(pat, name, pi, ni, starPi, starNi) && pi < |pat| && ni < |name|
    requires pat[pi] == '?' || pat[pi] == name[ni]
    ensures LoopState(pat, name, pi + 1, ni + 1, starPi, starNi)
    ensures Answer(pat, name, pi + 1, ni + 1, starPi, starNi) == Answer(pat, name, pi, ni, starPi, starNi)
  {
    hide Here, Later;
    HereStep(pat, name, pi, ni);
  }

  /** A star is recorded, and the one before forgotten. */
  lemma Recorded(pat: string, name: string, pi: int, ni: int, starPi: int, starNi: int)
    requires LoopState(pat, name, pi, ni, starPi, starNi) && pi < |pat| && ni < |name|
    requires pat[pi] == '*' && pat[pi] != name[ni]
    ensures LoopState(pat, name, pi + 1, ni, pi, ni)
    ensures Answer(pat, name, pi + 1, ni, pi, ni) == Answer(pat, name, pi, ni, starPi, starNi)
  {
    hide Here, Later;
    HereStep(pat, name, pi, ni);
    LaterStep(pat, name, pi + 1, ni);
    if starPi >= 0 && Later(pat, name, starPi + 1, starNi + 1) {
      LaterStarSuffices(pat, name, pi, ni, starPi, starNi);
      StarLater(pat, name, pi, ni);
    }
  }

  /** Nothing fits here: the last star takes one more, or there is none. */
  lemma Stuck(pat: string, name: string, pi: int, ni: int, starPi: int, starNi: int)
    requires LoopState(pat, name, pi, ni, starPi, starNi) && ni < |name|
    requires pi == |pat| || (pat[pi] != '?' && pat[pi] != name[ni] && pat[pi] != '*')
    ensures starPi == -1 ==> !Answer(pat, name, pi, ni, starPi, starNi)
    ensures starPi >= 0 ==> LoopState(pat, name, starPi + 1, starNi + 1, starPi, starNi + 1)
    ensures starPi >= 0 ==> Answer(pat, name, starPi + 1, starNi + 1, starPi, starNi + 1) ==
                            Answer(pat, name, pi, ni, starPi, starNi)
  {
    if pi < |pat| { HereStep(pat, name, pi, ni); } else { NothingLeft(pat[pi..], name[ni..]); }
    if starPi >= 0 { LaterStep(pat, name, starPi + 1, starNi + 1); }
  }

  /** The name is used up. */
  lemma UsedUp(pat: string, name: string, pi: int, starPi: int, starNi: int)
    requires LoopState(pat, name, pi, |name|, starPi, starNi)
    ensures Answer(pat, name, pi, |name|, starPi, starNi) <==> forall i :: pi <= i < |pat| ==> pat[i] == '*'
  {
    hide Here, Later;
    RestIsStars(pat, name, pi);
    if starPi >= 0 && Later(pat, name, starPi + 1, starNi + 1) {
      LaterStarSuffices(pat, name, pi, |name|, starPi, starNi);
    }
  }

  /** glob_match_segment.  It finds what there is if a star in the name is first compared as a literal: it is
      never wrongly true, and exact for names without stars. */
  method MatchSegment(pat: string, name: string) returns (matched: bool)
    ensures matched == LiteralFirst(pat, name)
    ensures matched ==> Wild(pat, name)
    ensures '*' !in name ==> matched == Wild(pat, name)
  {
    hide Wild, LiteralFirst, LoopState, Answer;
    if LiteralFirst(pat, name) { LiteralIsWild(pat, name); }
    if '*' !in name && Wild(pat, name) { WildIsLiteral(pat, name); }
    var pi, ni := 0, 0;
    var starPi, starNi := -1, 0;
    AtStart(pat, name);
    while ni < |name|
      invariant 0 <= pi <= |pat| && 0 <= ni <= |name| && -1 <= starPi < |pat| && 0 <= starNi
      invariant LoopState(pat, name, pi, ni, starPi, starNi)
      invariant Answer(pat, name, pi, ni, starPi, starNi) == LiteralFirst(pat, name)
      decreases |name| - starNi, |pat| - starPi, |name| - ni
    {
      Bounds(pat, name, pi, ni, starPi, starNi);
      if pi < |pat| && (pat[pi] == '?' || pat[pi] == name[ni]) {
        Compared(pat, name, pi, ni, starPi, starNi);
        pi, ni := pi + 1, ni + 1;
      } else if pi < |pat| && pat[pi] == '*' {
        Recorded(pat, name, pi, ni, starPi, starNi);
        starPi, starNi, pi := pi, ni, pi + 1;
      } else if starPi != -1 {
        Stuck(pat, name, pi, ni, starPi, starNi);
        starNi := starNi + 1;
        pi, ni := starPi + 1, starNi;
      } else {
        Stuck(pat, name, pi, ni, starPi, starNi);
        return false;
      }
    }
    UsedUp(pat, name, pi, starPi, starNi);
    while pi < |pat| && pat[pi] == '*'
      invariant 0 <= pi <= |pat|
      invariant (forall i :: pi <= i < |pat| ==> pat[i] == '*') == LiteralFirst(pat, name)
    {
      pi := pi + 1;
    }
    return pi == |pat|;
  }

  lemma AtStart(pat: string, name: string)
    ensures LoopState(pat, name, 0, 0, -1, 0) && Answer(pat, name, 0, 0, -1, 0) == LiteralFirst(pat, name)
  {
    assert pat[0..] == pat && name[0..] == name;
  }

  lemma Bounds(pat: string, name: string, pi: int, ni: int, starPi: int, starNi: int)
    requires LoopState(pat, name, pi, ni, starPi, starNi)
    ensures 0 <= pi <= |pat| && 0 <= starNi <= ni <= |name| && -1 <= starPi < pi
  {}

  // ---------------------------------------------------------------- names with stars

  lemma {:induction false} Itself(s: string)
    ensures Wild(s, s)
    decreases |s|
  {
    if s != "" {
      Itself(s[1..]);
      if s[0] == '*' { assert Wild(s, s[1..]); }
    }
  }

  lemma {:induction false} SamePrefix(u: string, pat: string, name: string)
    requires Wild(pat, name)
    ensures Wild(u + pat, u + name)
    decreases |u|
  {
    if u == "" {
      assert u + pat == pat && u + name == name;
    } else {
      SamePrefix(u[1..], pat, name);
      assert (u + pat)[1..] == u[1..] + pat && (u + name)[1..] == u[1..] + name;
      if u[0] == '*' { assert Wild(u + pat, u[1..] + name); }
    }
  }

  /** Equal characters are passed over without meeting a star. */
  lemma {:induction false} PassesPrefix(u: string, pat: string, name: string)
    ensures LiteralFirst(u + pat, u + name) == LiteralFirst(pat, name)
  {
    if u == "" {
      assert u + pat == pat && u + name == name;
    } else {
      assert (u + pat)[1..] == u[1..] + pat && (u + name)[1..] == u[1..] + name;
      PassesPrefix(u[1..], pat, name);
    }
  }

  /** A pattern without stars matches only names of its own length. */
  lemma {:induction false} SameLength(pat: string, name: string)
    requires '*' !in pat && LiteralFirst(pat, name)
    ensures |pat| == |name|
    decreases |pat|
  {
    if pat != "" {
      assert pat[0] in pat;
      SameLength(pat[1..], name[1..]);
    }
  }

  function LastStar(name: string): (k: nat)
    requires '*' in name
    ensures k < |name| && name[k] == '*' && '*' !in name[k + 1..]
  {
    if name[|name| - 1] == '*' then |name| - 1
    else
      assert name == name[..|name| - 1] + [name[|name| - 1]];
      var k := LastStar(name[..|name| - 1]);
      assert name[k + 1..] == name[..|name| - 1][k + 1..] + [name[|name| - 1]];
      k
  }

  lemma OneThenSame(v: string)
    ensures Wild("*?" + v, "*" + v)
  {
    Itself(v);
    assert ("*?" + v)[1..] == "?" + v && ("?" + v)[1..] == v && ("*" + v)[1..] == v;
    assert Wild("?" + v, "*" + v);
  }

  /** Every name with a star has a pattern that ought to match it and does not. */
  lemma Misses(name: string) returns (pat: string)
    requires '*' in name
    ensures Wild(pat, name) && !LiteralFirst(pat, name)
  {
    hide Wild, LiteralFirst, LastStar;
    var k := LastStar(name);
    var u, v := name[..k], name[k + 1..];
    pat := u + ("*?" + v);
    assert name == u + ("*" + v);
    OneThenSame(v);
    SamePrefix(u, "*?" + v, "*" + v);
    assert pat == (u + "*") + ("?" + v) && name == (u + "*") + v;
    PassesPrefix(u + "*", "?" + v, v);
    assert '*' !in "?" + v;
    if LiteralFirst("?" + v, v) { SameLength("?" + v, v); }
  }

  /** The segment matcher is right about a name, whatever the pattern, exactly when the name has no
      star. */
  lemma ExactNames(name: string)
    ensures (forall pat :: LiteralFirst(pat, name) == Wild(pat, name)) <==> '*' !in name
  {
    hide Wild, LiteralFirst;
    if '*' in name {
      var pat := Misses(name);
    } else {
      forall pat ensures LiteralFirst(pat, name) == Wild(pat, name) {
        if LiteralFirst(pat, name) { LiteralIsWild(pat, name); }
        if Wild(pat, name) { WildIsLiteral(pat, name); }
      }
    }
  }

  // ---------------------------------------------------------------- a name that is matched

  /** Stars match nothing, question marks an x. */
  function Fill(seg: string): string {
    if seg == "" then "" else (if seg[0] == '*' then "" else if seg[0] == '?' then "x" else [seg[0]]) + Fill(seg[1..])
  }

  function Fit(seg: string): string { if Fill(seg) == "" then "x" else Fill(seg) }

  lemma {:induction false} FillMatched(seg: string)
    ensures Wild(seg, Fill(seg)) && '*' !in Fill(seg)
  {
    if seg != "" {
      FillMatched(seg[1..]);
      if seg[0] == '*' { assert Fill(seg) == Fill(seg[1..]); } else { assert Fill(seg)[1..] == Fill(seg[1..]); }
    }
  }

  lemma {:induction false} OnlyStars(seg: string)
    requires seg != "" && Fill(seg) == ""
    ensures Wild(seg, "x")
  {
    assert seg[0] == '*' && seg == [seg[0]] + seg[1..];
    if seg[1..] == "" { assert "x"[1..] == "" && Wild(seg, ""); } else { OnlyStars(seg[1..]); }
  }

  /** Every segment matches some name. */
  lemma FitMatched(seg: string)
    requires seg != ""
    ensures Fit(seg) != "" && Wild(seg, Fit(seg)) && LiteralFirst(seg, Fit(seg))
  {
    hide LiteralFirst;
    FillMatched(seg);
    if Fill(seg) == "" { OnlyStars(seg); }
    ExactNames(Fit(seg));
  }
}
