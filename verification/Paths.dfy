/** Relative paths as the program holds them: strings of bytes (a `char` stands for one byte),
    compared byte by byte.  `a` < `a.b` < `a/x`, so the entries below a directory need not be
    next to each other in a sorted list. */
module Paths {

  /** std::string's operator<. */
  predicate Less(a: string, b: string) {
    b != [] && (a == [] || a[0] < b[0] || (a[0] == b[0] && Less(a[1..], b[1..])))
  }

  lemma {:induction false} LessIrreflexive(a: string)
    ensures !Less(a, a)
  {
    if a != [] { LessIrreflexive(a[1..]); }
  }

  lemma {:induction false} LessTransitive(a: string, b: string, c: string)
    requires Less(a, b) && Less(b, c)
    ensures Less(a, c)
  {
    if a != [] && a[0] == b[0] && b[0] == c[0] { LessTransitive(a[1..], b[1..], c[1..]); }
  }

  lemma {:induction false} LessTotal(a: string, b: string)
    ensures a == b || Less(a, b) || Less(b, a)
  {
    if a != [] && b != [] && a[0] == b[0] {
      LessTotal(a[1..], b[1..]);
      assert a == [a[0]] + a[1..] && b == [b[0]] + b[1..];
    }
  }

  lemma LessAsymmetric(a: string, b: string)
    requires Less(a, b)
    ensures !Less(b, a) && a != b
  {
    LessIrreflexive(a);
    if Less(b, a) { LessTransitive(a, b, a); }
  }

  lemma {:induction false} PrefixLess(p: string, s: string)
    requires s != []
    ensures Less(p, p + s)
  {
    if p != [] {
      PrefixLess(p[1..], s);
      assert (p + s)[1..] == p[1..] + s;
    } else {
      assert p + s == s;
    }
  }

  /** The two are alike before position k and differ there. */
  predicate FirstDiffer(a: string, b: string, k: nat) { k < |a| && k < |b| && a[..k] == b[..k] && a[k] != b[k] }

  lemma DifferLater(a: string, b: string, k: nat)
    requires a != [] && b != [] && a[0] == b[0]
    ensures FirstDiffer(a[1..], b[1..], k) <==> FirstDiffer(a, b, k + 1)
  {
    if k < |a| - 1 && k < |b| - 1 {
      assert a[..k + 1] == [a[0]] + a[1..][..k] && b[..k + 1] == [b[0]] + b[1..][..k];
      assert a[..k + 1][1..] == a[1..][..k] && b[..k + 1][1..] == b[1..][..k];
    }
  }

  /** Less is the order of the first bytes in which the two differ; a string comes before what begins with it. */
  lemma {:induction false} LessExactly(a: string, b: string)
    ensures Less(a, b) <==> a < b || exists k: nat :: FirstDiffer(a, b, k) && a[k] < b[k]
  {
    if a == [] || b == [] {
    } else if a[0] != b[0] {
      assert FirstDiffer(a, b, 0);
    } else {
      LessExactly(a[1..], b[1..]);
      assert a == [a[0]] + a[1..] && b == [b[0]] + b[1..];
      assert a < b <==> a[1..] < b[1..];
      forall k: nat ensures FirstDiffer(a[1..], b[1..], k) <==> FirstDiffer(a, b, k + 1) { DifferLater(a, b, k); }
      if k: nat :| FirstDiffer(a, b, k) && a[k] < b[k] {
        assert FirstDiffer(a[1..], b[1..], k - 1) && a[1..][k - 1] == a[k] && b[1..][k - 1] == b[k];
      }
      if k: nat :| FirstDiffer(a[1..], b[1..], k) && a[1..][k] < b[1..][k] {
        assert FirstDiffer(a, b, k + 1) && a[1..][k] == a[k + 1] && b[1..][k] == b[k + 1];
      }
    }
  }

  /** t lies strictly below the directory p. */
  predicate Below(t: string, p: string) { p + "/" <= t }

  lemma BelowLess(t: string, p: string)
    requires Below(t, p)
    ensures Less(p, t) && |p| < |t|
  {
    PrefixLess(p, t[|p|..]);
    assert p + t[|p|..] == t;
  }

  lemma BelowTransitive(t: string, q: string, p: string)
    requires Below(t, q) && Below(q, p)
    ensures Below(t, p)
  {
    assert t[..|q|] == (q + "/")[..|q|] == q;
    assert t[..|p| + 1] == q[..|p| + 1];
  }

  /** Two directories above the same path are nested. */
  lemma AncestorsNested(t: string, p: string, q: string)
    requires Below(t, p) && Below(t, q)
    ensures p == q || Below(p, q) || Below(q, p)
  {
    assert t[..|p|] == p && t[|p|] == '/' by { assert (p + "/")[..|p|] == p; assert (p + "/")[|p|] == '/'; }
    assert t[..|q|] == q && t[|q|] == '/' by { assert (q + "/")[..|q|] == q; assert (q + "/")[|q|] == '/'; }
    if |p| < |q| {
      assert q[..|p| + 1] == t[..|p| + 1] == p + "/";
    } else if |q| < |p| {
      assert p[..|q| + 1] == t[..|q| + 1] == q + "/";
    } else {
      assert p == q;
    }
  }

  /** std::filesystem::path::parent_path of a relative path: everything before the last slash. */
  function Parent(t: string): (p: string)
    ensures |p| < |t| || t == []
  {
    if t == [] then []
    else if t[|t| - 1] == '/' then t[..|t| - 1]
    else Parent(t[..|t| - 1])
  }

  /** What follows the last slash. */
  function Name(t: string): string {
    if t == [] || t[|t| - 1] == '/' then [] else Name(t[..|t| - 1]) + [t[|t| - 1]]
  }

  predicate Valid(p: string) { p != [] && p[0] != '/' }

  lemma {:induction false} ParentAbove(t: string)
    requires Valid(t) && Parent(t) != []
    ensures Below(t, Parent(t))
  {
    if t[|t| - 1] == '/' {
      assert t[..|Parent(t)| + 1] == Parent(t) + "/";
    } else {
      ParentAbove(t[..|t| - 1]);
    }
  }

  /** The directories above t are its parent and the directories above its parent. */
  lemma {:induction false} AboveParent(t: string, p: string)
    requires Below(t, p)
    ensures p == Parent(t) || Below(Parent(t), p)
  {
    assert t[|p|] == (p + "/")[|p|] == '/';
    assert t[..|p|] == (p + "/")[..|p|] == p;
    if t[|t| - 1] == '/' {
      if |t| > |p| + 1 { assert Parent(t)[..|p| + 1] == t[..|p| + 1]; }
    } else {
      var s := t[..|t| - 1];
      assert s[..|p| + 1] == t[..|p| + 1] == p + "/";
      AboveParent(s, p);
    }
  }

  /** Siblings are not nested. */
  lemma SiblingsNotNested(a: string, b: string)
    requires Parent(a) == Parent(b) && a != "" && b != ""
    ensures !Below(a, b)
  {
    if Below(a, b) {
      AboveParent(a, b);
      if b != Parent(a) { BelowLess(Parent(a), b); }
    }
  }

  /** Two siblings are not both at or above the same path. */
  lemma SiblingsApart(x: string, a: string, b: string)
    requires Parent(a) == Parent(b) && a != "" && b != ""
    requires (x == a || Below(x, a)) && (x == b || Below(x, b))
    ensures a == b
  {
    SiblingsNotNested(a, b);
    SiblingsNotNested(b, a);
    if x != a && x != b { AncestorsNested(x, a, b); }
  }

  /** The parent of what lies below p is p or lies below p; p may be the root. */
  lemma ParentUnder(t: string, p: string)
    requires Valid(t) && Under(t, p) && Parent(t) != p
    ensures Parent(t) != "" && Under(Parent(t), p) && Below(t, Parent(t)) && |Parent(t)| < |t|
  {
    hide Parent;
    if p != "" { AboveParent(t, p); }
    ParentAbove(t);
    BelowLess(t, Parent(t));
  }

  /** At any depth below p; everything is below the root. */
  predicate Under(t: string, p: string) { p == "" || Below(t, p) }

  /** No empty component: the form in which the scan and the decoder make paths. */
  predicate Plain(p: string) {
    p != "" && p[0] != '/' && p[|p| - 1] != '/' && forall i :: 0 <= i < |p| - 1 ==> !(p[i] == '/' && p[i + 1] == '/')
  }

  lemma PlainNonempty(p: string)
    requires Plain(p)
    ensures p != "" && Valid(p)
  {}

  lemma ParentShort(t: string)
    requires t != ""
    ensures |Parent(t)| < |t|
  {}

  lemma NotBelowItself(t: string)
    ensures !Below(t, t)
  {}

  lemma BelowNonempty(t: string, p: string)
    ensures Below(t, p) || (t == p && p != "") ==> t != ""
  {}

  lemma SlashAfter(t: string, p: string)
    requires Below(t, p)
    ensures |p| < |t| && t[|p|] == '/'
  {
    assert (p + "/")[|p|] == '/';
  }
}
