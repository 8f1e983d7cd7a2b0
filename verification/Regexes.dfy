/** The part of ECMAScript regular expressions that glob_list emits, with the usual meaning. */
module Regexes {

  /** NotSlash is `[^/]`, AnyChar is `.`, Begin is `^`. */
  datatype Regex = Lit(c: char) | NotSlash | AnyChar | Begin | Many(r: Regex) | Maybe(r: Regex) | Group(rs: seq<Regex>)

  predicate LineEnd(c: char) { c == '\n' || c == '\r' || c == '\U{2028}' || c == '\U{2029}' }

  /** Any position: a term for the prover to hang the quantifiers on. */
  predicate Mid(k: nat) { true }

  /** The expression matches s from i to j. */
  predicate Lang(r: Regex, s: string, i: nat, j: nat)
    requires i <= j <= |s|
    decreases r, j - i
  {
    match r
    case Lit(c) => j == i + 1 && s[i] == c
    case NotSlash => j == i + 1 && s[i] != '/'
    case AnyChar => j == i + 1 && !LineEnd(s[i])
    case Begin => i == j == 0
    case Many(r') => i == j || exists k: nat :: Mid(k) && i < k <= j && Lang(r', s, i, k) && Lang(r, s, k, j)
    case Maybe(r') => i == j || Lang(r', s, i, j)
    case Group(rs) => LangSeq(rs, s, i, j)
  }

  /** One expression after the other. */
  predicate LangSeq(rs: seq<Regex>, s: string, i: nat, j: nat)
    requires i <= j <= |s|
    decreases rs, j - i
  {
    if rs == [] then i == j
    else exists k: nat :: Mid(k) && i <= k <= j && Lang(rs[0], s, i, k) && LangSeq(rs[1..], s, k, j)
  }

  lemma SeqStep(rs: seq<Regex>, s: string, i: nat, k: nat, j: nat)
    requires i <= k <= j <= |s| && rs != [] && Lang(rs[0], s, i, k) && LangSeq(rs[1..], s, k, j)
    ensures LangSeq(rs, s, i, j)
  {
    hide Lang;
    assert Mid(k);
  }

  lemma {:induction false} LangJoin(rs: seq<Regex>, ts: seq<Regex>, s: string, i: nat, m: nat, j: nat)
    requires i <= m <= j <= |s| && LangSeq(rs, s, i, m) && LangSeq(ts, s, m, j)
    ensures LangSeq(rs + ts, s, i, j)
    decreases |rs|
  {
    hide Lang;
    if rs == [] {
      assert rs + ts == ts;
    } else {
      var k: nat :| Mid(k) && i <= k <= m && Lang(rs[0], s, i, k) && LangSeq(rs[1..], s, k, m);
      LangJoin(rs[1..], ts, s, k, m, j);
      assert (rs + ts)[0] == rs[0] && (rs + ts)[1..] == rs[1..] + ts;
      SeqStep(rs + ts, s, i, k, j);
    }
  }

  lemma {:induction false} LangPart(rs: seq<Regex>, ts: seq<Regex>, s: string, i: nat, j: nat) returns (m: nat)
    requires i <= j <= |s| && LangSeq(rs + ts, s, i, j)
    ensures i <= m <= j && LangSeq(rs, s, i, m) && LangSeq(ts, s, m, j)
    decreases |rs|
  {
    hide Lang;
    if rs == [] {
      assert rs + ts == ts;
      m := i;
    } else {
      assert (rs + ts)[0] == rs[0] && (rs + ts)[1..] == rs[1..] + ts;
      var k: nat :| Mid(k) && i <= k <= j && Lang((rs + ts)[0], s, i, k) && LangSeq((rs + ts)[1..], s, k, j);
      m := LangPart(rs[1..], ts, s, k, j);
      SeqStep(rs, s, i, k, m);
    }
  }

  lemma LangOne(r: Regex, s: string, i: nat, j: nat)
    requires i <= j <= |s|
    ensures LangSeq([r], s, i, j) <==> Lang(r, s, i, j)
  {
    hide Lang;
    assert [r][1..] == [];
    if Lang(r, s, i, j) { assert Mid(j) && LangSeq([], s, j, j); }
  }

  lemma {:induction false} ManyAny(s: string, i: nat, j: nat)
    requires i <= j <= |s|
    ensures Lang(Many(AnyChar), s, i, j) <==> forall k :: i <= k < j ==> !LineEnd(s[k])
    decreases j - i
  {
    if i < j {
      ManyAny(s, i + 1, j);
      if Lang(Many(AnyChar), s, i, j) {
        var k: nat :| Mid(k) && i < k <= j && Lang(AnyChar, s, i, k) && Lang(Many(AnyChar), s, k, j);
      }
      if forall k :: i <= k < j ==> !LineEnd(s[k]) { assert Mid(i + 1) && Lang(AnyChar, s, i, i + 1); }
    }
  }

  /** `[^/]*` takes nothing, or a character that is not a slash and then more. */
  lemma ManyNotSlash(s: string, i: nat, j: nat)
    requires i <= j <= |s|
    ensures Lang(Many(NotSlash), s, i, j) <==> i == j || (s[i] != '/' && Lang(Many(NotSlash), s, i + 1, j))
  {
    if i < j {
      if Lang(Many(NotSlash), s, i, j) {
        var k: nat :| Mid(k) && i < k <= j && Lang(NotSlash, s, i, k) && Lang(Many(NotSlash), s, k, j);
      }
      if s[i] != '/' && Lang(Many(NotSlash), s, i + 1, j) { assert Mid(i + 1) && Lang(NotSlash, s, i, i + 1); }
    }
  }
}
