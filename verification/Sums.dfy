/** Sums of a measure over a sequence, and the pigeonhole principle. */
module Sums {

  function Sum<T>(s: seq<T>, f: T -> nat): nat
  {
    if |s| == 0 then 0 else Sum(s[..|s| - 1], f) + f(s[|s| - 1])
  }

  lemma {:induction false} SumUpdate<T>(s: seq<T>, f: T -> nat, i: nat, x: T)
    requires i < |s|
    ensures Sum(s[i := x], f) + f(s[i]) == Sum(s, f) + f(x)
  {
    var n := |s| - 1;
    if i == n {
      assert s[i := x][..n] == s[..n];
    } else {
      SumUpdate(s[..n], f, i, x);
      assert s[i := x][..n] == s[..n][i := x];
    }
  }

  lemma SumAppend<T>(s: seq<T>, f: T -> nat, x: T)
    ensures Sum(s + [x], f) == Sum(s, f) + f(x)
  {
    assert (s + [x])[..|s|] == s;
  }

  lemma {:induction false} SumAtLeast<T>(s: seq<T>, f: T -> nat, i: nat)
    requires i < |s|
    ensures f(s[i]) <= Sum(s, f)
  {
    if i < |s| - 1 {
      SumAtLeast(s[..|s| - 1], f, i);
    }
  }

  lemma {:induction false} SumWitness<T>(s: seq<T>, f: T -> nat) returns (i: nat)
    requires Sum(s, f) > 0
    ensures i < |s| && f(s[i]) > 0
  {
    if f(s[|s| - 1]) > 0 {
      i := |s| - 1;
    } else {
      i := SumWitness(s[..|s| - 1], f);
    }
  }

  lemma {:induction false} SumLe<T>(a: seq<T>, b: seq<T>, f: T -> nat)
    requires |a| == |b|
    requires forall i :: 0 <= i < |a| ==> f(a[i]) <= f(b[i])
    ensures Sum(a, f) <= Sum(b, f)
  {
    if |a| > 0 {
      SumLe(a[..|a| - 1], b[..|b| - 1], f);
    }
  }

  lemma {:induction false} SumLess<T>(a: seq<T>, b: seq<T>, f: T -> nat, i: nat)
    requires |a| == |b| && i < |a|
    requires forall j :: 0 <= j < |a| ==> f(a[j]) <= f(b[j])
    requires f(a[i]) < f(b[i])
    ensures Sum(a, f) < Sum(b, f)
  {
    var n := |a| - 1;
    if i == n {
      SumLe(a[..n], b[..n], f);
    } else {
      SumLess(a[..n], b[..n], f, i);
    }
  }

  lemma Distribute(k: nat, a: nat, b: nat)
    ensures k * (a + b) == k * a + k * b
  {
  }

  /** The sum is at most a constant times the number of elements that another measure counts. */
  lemma {:induction false} SumScaled<T>(s: seq<T>, f: T -> nat, g: T -> nat, k: nat)
    requires forall i :: 0 <= i < |s| ==> f(s[i]) <= k * g(s[i])
    ensures Sum(s, f) <= k * Sum(s, g)
  {
    if |s| > 0 {
      SumScaled(s[..|s| - 1], f, g, k);
      Distribute(k, Sum(s[..|s| - 1], g), g(s[|s| - 1]));
    }
  }

  /** A sequence of more than n numbers below n repeats one of them. */
  lemma {:induction false} Repeats(p: seq<nat>, n: nat) returns (i: nat, j: nat)
    requires |p| > n && forall x :: 0 <= x < |p| ==> p[x] < n
    ensures i < j < |p| && p[i] == p[j]
    decreases n
  {
    if i0 :| 0 <= i0 < |p| - 1 && p[i0] == p[|p| - 1] {
      i, j := i0, |p| - 1;
    } else {
      // The last entry occurs once: rename the largest value to it and drop it.
      var v := p[|p| - 1];
      var q := seq(|p| - 1, x requires 0 <= x < |p| - 1 => if p[x] == n - 1 then v else p[x]);
      i, j := Repeats(q, n - 1);
    }
  }
}
