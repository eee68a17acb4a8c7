/** The longest run of tokens two sequences share (`common_lcs` of common.cpp), computed with two rows. */
module Lcs {
  /** How far `a[..i]` and `b[..j]` agree, read from their ends. */
  function Agree(a: seq<int>, b: seq<int>, i: nat, j: nat): nat
    requires i <= |a| && j <= |b|
  {
    if i == 0 || j == 0 || a[i - 1] != b[j - 1] then 0 else 1 + Agree(a, b, i - 1, j - 1)
  }

  /** `k` tokens from `p` in `a` are the `k` tokens from `q` in `b`. */
  predicate Common(a: seq<int>, b: seq<int>, p: nat, q: nat, k: nat) {
    p + k <= |a| && q + k <= |b| && a[p..p + k] == b[q..q + k]
  }

  lemma {:induction false} AgreeIsCommon(a: seq<int>, b: seq<int>, i: nat, j: nat)
    requires i <= |a| && j <= |b|
    ensures var k := Agree(a, b, i, j);
            k <= i && k <= j && Common(a, b, i - k, j - k, k)
  {
    var k := Agree(a, b, i, j);
    if k > 0 {
      AgreeIsCommon(a, b, i - 1, j - 1);
      assert a[i - k..i] == a[i - k..i - 1] + [a[i - 1]] && b[j - k..j] == b[j - k..j - 1] + [b[j - 1]];
    }
  }

  lemma {:induction false} CommonAgrees(a: seq<int>, b: seq<int>, p: nat, q: nat, k: nat)
    requires Common(a, b, p, q, k)
    ensures Agree(a, b, p + k, q + k) >= k
  {
    if k > 0 {
      assert a[p..p + k][k - 1] == b[q..q + k][k - 1];
      assert a[p..p + k][..k - 1] == a[p..p + k - 1] && b[q..q + k][..k - 1] == b[q..q + k - 1];
      CommonAgrees(a, b, p, q, k - 1);
    }
  }

  /** `m` is the greatest agreement at the positions before row `i`, and in row `i` before column `j`. */
  ghost predicate MaxSoFar(a: seq<int>, b: seq<int>, i: nat, j: nat, m: nat)
    requires i <= |a| && j <= |b| + 1
  {
    && (forall x: nat, y: nat :: x < i && y <= |b| ==> Agree(a, b, x, y) <= m)
    && (forall y: nat :: y < j ==> Agree(a, b, i, y) <= m)
    && exists x: nat, y: nat :: x <= |a| && y <= |b| && Agree(a, b, x, y) == m
  }

  lemma NoAgreement(a: seq<int>, b: seq<int>)
    ensures forall y: nat :: y <= |b| ==> Agree(a, b, 0, y) == 0
    ensures forall x: nat :: x <= |a| ==> Agree(a, b, x, 0) == 0
  {
  }

  lemma OneMore(a: seq<int>, b: seq<int>, i: nat, j: nat)
    requires 1 <= i <= |a| && 1 <= j <= |b|
    ensures Agree(a, b, i, j) == if a[i - 1] != b[j - 1] then 0 else 1 + Agree(a, b, i - 1, j - 1)
  {
  }

  lemma MaxAtStart(a: seq<int>, b: seq<int>)
    ensures MaxSoFar(a, b, 0, |b| + 1, 0)
  {
    assert Agree(a, b, 0, 0) == 0;
  }

  lemma MaxNext(a: seq<int>, b: seq<int>, i: nat, j: nat, m: nat, m': nat)
    requires i <= |a| && j <= |b| && MaxSoFar(a, b, i, j, m)
    requires m' == if Agree(a, b, i, j) > m then Agree(a, b, i, j) else m
    ensures MaxSoFar(a, b, i, j + 1, m')
  {
  }

  lemma NextRow(a: seq<int>, b: seq<int>, i: nat, m: nat)
    requires i < |a| && MaxSoFar(a, b, i, |b| + 1, m)
    ensures MaxSoFar(a, b, i + 1, 1, m)
  {
  }

  /** Some common run has the length returned, and none is longer. */
  method CommonLcs(a: seq<int>, b: seq<int>) returns (max: nat)
    ensures exists p, q :: Common(a, b, p, q, max)
    ensures forall p, q, k: nat :: Common(a, b, p, q, k) ==> k <= max
  {
    if a == [] || b == [] {
      assert Common(a, b, 0, 0, 0);
      return 0;
    }
    hide Agree, MaxSoFar, Common;
    max := 0;
    var prev, curr := new nat[|b| + 1](_ => 0), new nat[|b| + 1](_ => 0);
    NoAgreement(a, b);
    MaxAtStart(a, b);
    for i := 1 to |a| + 1
      invariant fresh(prev) && fresh(curr) && prev != curr && prev.Length == curr.Length == |b| + 1
      invariant prev[0] == curr[0] == 0
      invariant i > 1 ==> forall y: nat :: y <= |b| ==> prev[y] == Agree(a, b, i - 1, y)
      invariant MaxSoFar(a, b, i - 1, |b| + 1, max)
    {
      NextRow(a, b, i - 1, max);
      for j := 1 to |b| + 1
        invariant fresh(prev) && fresh(curr) && prev != curr && prev.Length == curr.Length == |b| + 1
        invariant prev[0] == curr[0] == 0
        invariant i > 1 ==> forall y: nat :: y <= |b| ==> prev[y] == Agree(a, b, i - 1, y)
        invariant forall y: nat :: y < j ==> curr[y] == Agree(a, b, i, y)
        invariant MaxSoFar(a, b, i, j, max)
      {
        OneMore(a, b, i, j);
        ghost var before := max;
        if a[i - 1] == b[j - 1] {
          if i == 1 || j == 1 {
            curr[j] := 1;
          } else {
            curr[j] := prev[j - 1] + 1;
          }
          if curr[j] > max {
            max := curr[j];
          }
        } else {
          curr[j] := 0;
        }
        MaxNext(a, b, i, j, before, max);
      }
      forall y | 0 <= y < prev.Length {
        prev[y] := curr[y];
      }
    }
    Longest(a, b, max);
  }

  lemma Longest(a: seq<int>, b: seq<int>, max: nat)
    requires MaxSoFar(a, b, |a|, |b| + 1, max)
    ensures exists p, q :: Common(a, b, p, q, max)
    ensures forall p, q, k: nat :: Common(a, b, p, q, k) ==> k <= max
  {
    var x: nat, y: nat :| x <= |a| && y <= |b| && Agree(a, b, x, y) == max;
    AgreeIsCommon(a, b, x, y);
    forall p, q, k: nat | Common(a, b, p, q, k) ensures k <= max {
      CommonAgrees(a, b, p, q, k);
    }
  }
}
