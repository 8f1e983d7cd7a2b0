/** Sums over sequences, for counting. */
module Sums {
  function Sum(s: seq<nat>): nat {
    if s == [] then 0 else s[0] + Sum(s[1..])
  }

  lemma {:induction false} SumUpdate(s: seq<nat>, i: nat, x: nat)
    requires i < |s|
    ensures Sum(s[i := x]) == Sum(s) - s[i] + x
  {
    if i == 0 {
      assert s[i := x][1..] == s[1..];
    } else {
      assert s[i := x][1..] == s[1..][i - 1 := x];
      SumUpdate(s[1..], i - 1, x);
    }
  }

  lemma {:induction false} SumAppend(s: seq<nat>, t: seq<nat>)
    ensures Sum(s + t) == Sum(s) + Sum(t)
  {
    if s == [] {
      assert s + t == t;
    } else {
      assert (s + t)[1..] == s[1..] + t;
      SumAppend(s[1..], t);
    }
  }

  lemma {:induction false} SumZero(s: seq<nat>)
    ensures Sum(s) == 0 <==> forall i :: 0 <= i < |s| ==> s[i] == 0
  {
    if s != [] {
      SumZero(s[1..]);
      if Sum(s) == 0 {
        forall i | 0 <= i < |s| ensures s[i] == 0 { if i > 0 { assert s[i] == s[1..][i - 1]; } }
      }
    }
  }

  lemma {:induction false} SumBound(s: seq<nat>)
    requires forall i :: 0 <= i < |s| ==> s[i] <= 1
    ensures Sum(s) <= |s|
    ensures Sum(s) == |s| ==> forall i :: 0 <= i < |s| ==> s[i] == 1
  {
    if s != [] {
      SumBound(s[1..]);
      if Sum(s) == |s| {
        forall i | 0 <= i < |s| ensures s[i] == 1 { if i > 0 { assert s[i] == s[1..][i - 1]; } }
      }
    }
  }

  lemma SumDrop(s: seq<nat>, i: nat)
    requires i < |s|
    ensures Sum(s[..i] + s[i + 1..]) == Sum(s) - s[i]
  {
    SumAppend(s[..i], s[i + 1..]);
    SumAppend(s[..i], s[i..]);
    assert s[..i] + s[i..] == s;
    assert s[i..][1..] == s[i + 1..];
  }

  lemma SubsetSize<T>(a: set<T>, b: set<T>)
    requires b <= a
    ensures |b| <= |a| && (|b| == |a| ==> a == b)
  {
    assert a == b + (a - b);
  }
}
