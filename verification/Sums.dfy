/** Finite sums of integer sequences, with the few facts the counting arguments need. */
module Sums {

  function Sum(s: seq<int>): int {
    if s == [] then 0 else Sum(s[..|s| - 1]) + s[|s| - 1]
  }

  lemma {:induction false} SumUpdate(s: seq<int>, k: nat, v: int)
    requires k < |s|
    ensures Sum(s[k := v]) == Sum(s) - s[k] + v
  {
    var n := |s| - 1;
    if k == n {
      assert s[k := v][..n] == s[..n];
    } else {
      assert s[k := v][..n] == s[..n][k := v];
      SumUpdate(s[..n], k, v);
    }
  }

  lemma SumAppend(s: seq<int>, v: int)
    ensures Sum(s + [v]) == Sum(s) + v
  {
    assert (s + [v])[..|s|] == s;
  }

  /** A sum of non-negative terms dominates each of them. */
  lemma {:induction false} SumDominates(s: seq<int>, k: nat)
    requires k < |s| && forall i :: 0 <= i < |s| ==> s[i] >= 0
    ensures Sum(s) >= s[k]
  {
    SumNonNegative(s[..|s| - 1]);
    if k < |s| - 1 {
      SumDominates(s[..|s| - 1], k);
    }
  }

  /** Two different terms of a non-negative sum are counted separately. */
  lemma {:induction false} SumDominatesPair(s: seq<int>, j: nat, k: nat)
    requires j < k < |s| && forall i :: 0 <= i < |s| ==> s[i] >= 0
    ensures Sum(s) >= s[j] + s[k]
  {
    var t := s[k := 0];
    SumUpdate(s, k, 0);
    SumDominates(t, j);
  }

  lemma {:induction false} SumNonNegative(s: seq<int>)
    requires forall i :: 0 <= i < |s| ==> s[i] >= 0
    ensures Sum(s) >= 0
  {
    if s != [] {
      SumNonNegative(s[..|s| - 1]);
    }
  }

  lemma {:induction false} SumMonotone(s: seq<int>, t: seq<int>)
    requires |s| == |t| && forall i :: 0 <= i < |s| ==> s[i] <= t[i]
    ensures Sum(s) <= Sum(t)
  {
    if s != [] {
      SumMonotone(s[..|s| - 1], t[..|t| - 1]);
    }
  }

  /** A positive sum has a positive term. */
  lemma {:induction false} SumWitness(s: seq<int>) returns (k: nat)
    requires Sum(s) > 0
    ensures k < |s| && s[k] > 0
  {
    if s[|s| - 1] > 0 {
      k := |s| - 1;
    } else {
      k := SumWitness(s[..|s| - 1]);
    }
  }

  lemma {:induction false} SumZero(s: seq<int>)
    requires forall i :: 0 <= i < |s| ==> s[i] == 0
    ensures Sum(s) == 0
  {
    if s != [] {
      SumZero(s[..|s| - 1]);
    }
  }
}
