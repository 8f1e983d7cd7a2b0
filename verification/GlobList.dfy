/** glob_list: patterns compiled to one regular expression. */
module GlobList {
  import opened Regexes

  // ---------------------------------------------------------------- what a pattern is compiled to

  /** A character with a meaning of its own in a regular expression that the compiler leaves to it. */
  predicate Special(c: char) { c in "^$\\+()[]{}|" || c == '\0' || LineEnd(c) }

  /** Any other character of a pattern stands for itself, or the compiler gives it a meaning. */
  predicate PatternChar(c: char) { !Special(c) }

  predicate IsPattern(p: string) { p != "" && forall i :: 0 <= i < |p| ==> PatternChar(p[i]) }

  const ANY_PARENT: Regex := Maybe(Group([Many(AnyChar), Lit('/')]))
  const ANY_CHILD: Regex := Maybe(Group([Lit('/'), Many(AnyChar)]))
  const STAR: Regex := Many(NotSlash)
  const STARS: seq<Regex> := [Group([STAR, Many(Group([Lit('/'), NotSlash]))]), Group([Maybe(Lit('/'))])]

  /** What one character outside `**` becomes. */
  function Emit(c: char): Regex { if c == '*' then STAR else if c == '?' then AnyChar else Lit(c) }

  /** The pattern from left to right; one slash after `**` is taken along with it. */
  function EmitAll(p: string): seq<Regex>
    decreases |p|
  {
    if p == "" then []
    else if p[0] == '*' && |p| > 1 && p[1] == '*' then STARS + EmitAll(SkipSlash(p[2..]))
    else [Emit(p[0])] + EmitAll(p[1..])
  }

  function SkipSlash(p: string): (r: string)
    ensures |r| <= |p|
  {
    if p != "" && p[0] == '/' then p[1..] else p
  }

  function Whole(p: string): seq<Regex>
    requires p != ""
  {
    if p[0] == '/' then [Begin] + EmitAll(p[1..]) else [ANY_PARENT] + EmitAll(p)
  }

  /** The expression for a pattern. */
  function Compiled(p: string): seq<Regex>
    requires p != ""
  {
    Whole(p) + [ANY_CHILD]
  }

  /** The whole path is in the language of the pattern; the empty path matches no pattern. */
  predicate Accepts(pattern: string, path: string) {
    pattern != "" && path != "" && LangSeq(Compiled(pattern), path, 0, |path|)
  }

  class GlobList {
    var patterns: seq<string>

    /** The alternatives of the expression, one for each pattern. */
    var regex: seq<seq<Regex>>

    ghost predicate Valid()
      reads this
    {
      forall p :: p in patterns ==> p != "" && p[|p| - 1] != '/' && p[0] != '!'
    }

    constructor ()
      ensures Valid() && patterns == [] && regex == []
    {
      patterns, regex := [], [];
    }

    /** add: trailing slashes are dropped, then nothing is left to add, the pattern is added, or it is
        refused with an exception. */
    method Add(input: string) returns (ok: bool)
      requires Valid()
      modifies `patterns
      ensures Valid()
      ensures ok == (Trimmed(input) == "" || Trimmed(input)[0] != '!')
      ensures patterns == old(patterns) + if ok && Trimmed(input) != "" then [Trimmed(input)] else []
    {
      var pattern := input;
      while pattern != "" && pattern[|pattern| - 1] == '/'
        invariant Trimmed(pattern) == Trimmed(input)
        decreases |pattern|
      {
        pattern := pattern[..|pattern| - 1];
      }
      if pattern == "" { return true; }
      if pattern[0] == '!' { return false; }
      patterns := patterns + [pattern];
      return true;
    }

    /** finalize. */
    method Finalize()
      requires Valid()
      modifies `regex
      ensures |regex| == |patterns| && forall i :: 0 <= i < |patterns| && IsPattern(patterns[i]) ==>
                regex[i] == Compiled(patterns[i])
      ensures (forall i :: 0 <= i < |patterns| ==> IsPattern(patterns[i])) ==>
                forall path :: Match(path) <==> exists i :: 0 <= i < |patterns| && Accepts(patterns[i], path)
    {
      hide Compiled, PatternChar, LangSeq;
      var out := [];
      for i := 0 to |patterns|
        invariant regex == old(regex) && patterns == old(patterns) && |out| == i
        invariant forall k :: 0 <= k < i && IsPattern(patterns[k]) ==> out[k] == Compiled(patterns[k])
      {
        var one := CompileOne(patterns[i]);
        out := out + [one];
      }
      regex := out;
    }

    /** match: the whole path must be in the language; the list of excluding patterns is always empty,
        and its expression matches the empty path only. */
    predicate Match(path: string)
      reads this
    {
      path != "" && exists i :: 0 <= i < |regex| && LangSeq(regex[i], path, 0, |path|)
    }
  }

  /** Only slashes are taken off, from the end, and all of them. */
  lemma {:induction false} TrimmedIs(p: string)
    ensures Trimmed(p) <= p && (Trimmed(p) != "" ==> Trimmed(p)[|Trimmed(p)| - 1] != '/')
    ensures forall i :: |Trimmed(p)| <= i < |p| ==> p[i] == '/'
  {
    if p != "" && p[|p| - 1] == '/' { TrimmedIs(p[..|p| - 1]); }
  }

  function Trimmed(p: string): string {
    if p != "" && p[|p| - 1] == '/' then Trimmed(p[..|p| - 1]) else p
  }

  /** What is left to emit at position i: a star may be held back, or a slash is to be skipped. */
  function Rest(p: string, i: nat, star: bool, skipSlash: bool): string
    requires i <= |p|
  {
    if star then "*" + p[i..] else if skipSlash then SkipSlash(p[i..]) else p[i..]
  }

  /** What has been emitted and what is left are the whole expression but for its end. */
  ghost predicate Emitted(out: seq<Regex>, p: string, i: nat, star: bool, skipSlash: bool)
    requires p != "" && i <= |p|
  {
    out + EmitAll(Rest(p, i, star, skipSlash)) == Whole(p)
  }

  lemma EmitFirst(p: string)
    requires p != ""
    ensures p[0] == '/' ==> Emitted([Begin], p, 1, false, false)
    ensures p[0] != '/' ==> Emitted([ANY_PARENT], p, 0, false, false)
  {
    assert p[0..] == p;
  }

  /** The slash after `**`. */
  lemma EmitSkipped(out: seq<Regex>, p: string, i: nat)
    requires i < |p| && Emitted(out, p, i, false, true)
    ensures p[i] == '/' ==> Emitted(out, p, i + 1, false, false)
    ensures p[i] != '/' ==> Emitted(out, p, i, false, false)
  {
    assert p[i..][1..] == p[i + 1..];
  }

  /** A star that was held back: with another one, or alone. */
  lemma EmitHeld(out: seq<Regex>, p: string, i: nat)
    requires i < |p| && Emitted(out, p, i, true, false)
    ensures p[i] == '*' ==> Emitted(out + STARS, p, i + 1, false, true)
    ensures p[i] != '*' ==> Emitted(out + [STAR], p, i, false, false)
  {
    hide Whole, Emit;
    HeldStep(p, i);
    hide EmitAll;
    if p[i] == '*' {
      assert out + (STARS + EmitAll(SkipSlash(p[i + 1..]))) == (out + STARS) + EmitAll(SkipSlash(p[i + 1..]));
    } else {
      assert out + ([STAR] + EmitAll(p[i..])) == (out + [STAR]) + EmitAll(p[i..]);
    }
  }

  lemma HeldStep(p: string, i: nat)
    requires i < |p|
    ensures EmitAll("*" + p[i..]) == if p[i] == '*' then STARS + EmitAll(SkipSlash(p[i + 1..]))
                                     else [STAR] + EmitAll(p[i..])
  {
    var s := "*" + p[i..];
    assert s[0] == '*' && s[1] == p[i] && s[1..] == p[i..] && s[2..] == p[i + 1..];
  }

  lemma EmitPlain(out: seq<Regex>, p: string, i: nat)
    requires i < |p| && Emitted(out, p, i, false, false)
    ensures p[i] == '*' ==> Emitted(out, p, i + 1, true, false)
    ensures p[i] != '*' ==> Emitted(out + [Emit(p[i])], p, i + 1, false, false)
  {
    hide Whole, Emit;
    if p[i] == '*' {
      hide EmitAll;
      assert Rest(p, i + 1, true, false) == Rest(p, i, false, false);
    } else {
      assert p[i..][1..] == p[i + 1..] && p[i..][0] == p[i];
      assert EmitAll(p[i..]) == [Emit(p[i])] + EmitAll(p[i + 1..]);
      assert out + ([Emit(p[i])] + EmitAll(p[i + 1..])) == (out + [Emit(p[i])]) + EmitAll(p[i + 1..]);
    }
  }

  lemma EmitLast(out: seq<Regex>, p: string, star: bool, skipSlash: bool)
    requires p != "" && Emitted(out, p, |p|, star, skipSlash)
    ensures (if star then out + [STAR] else out) == Whole(p)
  {
    assert p[|p|..] == "" && "*" + "" == "*" && "*"[1..] == "";
  }

  /** compile, for one pattern.  A star is held back until the next character is known. */
  method CompileOne(p: string) returns (out: seq<Regex>)
    ensures IsPattern(p) ==> out == Compiled(p)
  {
    hide Whole, Emitted, PatternChar;
    out := [];
    var star, skipSlash := false, false;
    for i := 0 to |p|
      invariant !(star && skipSlash) && (i == 0 ==> out == [] && !star && !skipSlash)
      invariant i > 0 ==> Emitted(out, p, i, star, skipSlash)
    {
      var c := p[i];
      if i == 0 {
        EmitFirst(p);
        assert out + [Begin] == [Begin] && out + [ANY_PARENT] == [ANY_PARENT];
        if c == '/' {
          out := out + [Begin];
          continue;
        } else {
          out := out + [ANY_PARENT];
        }
      }
      if skipSlash {
        EmitSkipped(out, p, i);
        skipSlash := false;
        if c == '/' { continue; }
      }
      if star {
        EmitHeld(out, p, i);
        if c == '*' {
          out := out + STARS;
          star := false;
          skipSlash := true;
          continue;
        } else {
          out := out + [STAR];
          star := false;
        }
      }
      EmitPlain(out, p, i);
      match c
      case '*' => star := true;
      case '?' => out := out + [AnyChar];
      case _ => out := out + [Lit(c)];
    }
    if p != "" { EmitLast(out, p, star, skipSlash); }
    if star { out := out + [STAR]; }
    out := out + [ANY_CHILD];
  }
}
