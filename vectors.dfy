/** Sums of real vectors and index permutations: the whole-array arithmetic
    that numpy performs in the Moran's I pipeline (np.sum, fancy indexing,
    np.random.permutation), stated over exact reals. */
module Vectors {

  /** np.sum of a vector, accumulated from the back so that prefix sums
      (np.cumsum) unfold one step at a time. */
  function Sum(s: seq<real>): real
    decreases |s|
  {
    if |s| == 0 then 0.0 else Sum(s[..|s| - 1]) + s[|s| - 1]
  }

  /** Every entry multiplied by the factor f. */
  function Scale(s: seq<real>, f: real): (r: seq<real>)
    ensures |r| == |s|
    ensures forall j :: 0 <= j < |s| ==> r[j] == s[j] * f
  {
    seq(|s|, j requires 0 <= j < |s| => s[j] * f)
  }

  /** Every entry squared (numpy's `v**2`). */
  function Squares(s: seq<real>): (r: seq<real>)
    ensures |r| == |s|
    ensures forall j :: 0 <= j < |s| ==> r[j] == s[j] * s[j]
  {
    seq(|s|, j requires 0 <= j < |s| => s[j] * s[j])
  }

  /** Multiplying by a positive n and dividing by it again is the identity. */
  lemma DivCancel(a: real, n: real)
    requires n > 0.0
    ensures (n * a) / n == a
  {
  }

  /** A vector whose entries are all the same value. */
  predicate Constant(s: seq<real>)
  {
    forall i, j :: 0 <= i < |s| && 0 <= j < |s| ==> s[i] == s[j]
  }

  lemma {:induction false} SumConcat(a: seq<real>, b: seq<real>)
    ensures Sum(a + b) == Sum(a) + Sum(b)
    decreases |b|
  {
    if |b| == 0 {
      assert a + b == a;
    } else {
      assert (a + b)[..|a + b| - 1] == a + b[..|b| - 1];
      SumConcat(a, b[..|b| - 1]);
    }
  }

  /** The sum of a prefix grows by the next entry. */
  lemma SumPrefixStep(s: seq<real>, j: nat)
    requires j < |s|
    ensures Sum(s[..j + 1]) == Sum(s[..j]) + s[j]
  {
    assert s[..j + 1][..j] == s[..j];
  }

  /** Scaling commutes with summation: sum(c * f) == f * sum(c). */
  lemma {:induction false} SumScale(s: seq<real>, f: real)
    ensures Sum(Scale(s, f)) == Sum(s) * f
    decreases |s|
  {
    if |s| > 0 {
      var init := s[..|s| - 1];
      var r := Scale(s, f);
      assert r[..|s| - 1] == Scale(init, f) by {
        forall j | 0 <= j < |s| - 1 ensures r[..|s| - 1][j] == Scale(init, f)[j] {
          assert init[j] == s[j];
        }
      }
      SumScale(init, f);
    }
  }

  /** Subtracting a constant from every entry subtracts n times it from the sum. */
  lemma {:induction false} SumShift(s: seq<real>, c: real)
    ensures Sum(seq(|s|, i requires 0 <= i < |s| => s[i] - c)) == Sum(s) - (|s| as real) * c
    decreases |s|
  {
    var shifted := seq(|s|, i requires 0 <= i < |s| => s[i] - c);
    if |s| > 0 {
      var init := s[..|s| - 1];
      assert shifted[..|s| - 1] == seq(|init|, i requires 0 <= i < |init| => init[i] - c);
      SumShift(init, c);
    }
  }

  /** A sum of non-negative entries is non-negative, and it is zero only when
      every entry is zero. */
  lemma {:induction false} SumNonNegative(s: seq<real>)
    requires forall j :: 0 <= j < |s| ==> s[j] >= 0.0
    ensures Sum(s) >= 0.0
    ensures Sum(s) == 0.0 <==> forall j :: 0 <= j < |s| ==> s[j] == 0.0
    decreases |s|
  {
    if |s| > 0 {
      var init := s[..|s| - 1];
      SumNonNegative(init);
      if Sum(s) == 0.0 {
        forall j | 0 <= j < |s| ensures s[j] == 0.0 {
          if j < |s| - 1 { assert init[j] == s[j]; }
        }
      }
    }
  }

  /** The multiset of entries determines the sum: np.sum is blind to order. */
  lemma {:induction false} SumPermutation(a: seq<real>, b: seq<real>)
    requires multiset(a) == multiset(b)
    ensures Sum(a) == Sum(b)
    decreases |a|
  {
    if |a| > 0 {
      assert |b| == |multiset(b)| == |multiset(a)| == |a|;
      var last := a[|a| - 1];
      DropLast(a);
      assert last in multiset(b);
      var k :| 0 <= k < |b| && b[k] == last;
      var rest := b[..k] + b[k + 1..];
      RemoveAt(b, k);
      AddRemove(multiset(b), multiset(rest), multiset(a[..|a| - 1]), last);
      SumPermutation(a[..|a| - 1], rest);
      SumRemoveAt(b, k);
    }
  }

  /** Taking out the entry at k takes b[k] off the sum. */
  lemma SumRemoveAt(b: seq<real>, k: nat)
    requires k < |b|
    ensures Sum(b) == Sum(b[..k] + b[k + 1..]) + b[k]
  {
    assert b[..k + 1] + b[k + 1..] == b;
    SumConcat(b[..k + 1], b[k + 1..]);
    SumPrefixStep(b, k);
    SumConcat(b[..k], b[k + 1..]);
  }

  /** The identity index vector np.arange(n). */
  function Range(n: nat): (r: seq<nat>)
    ensures |r| == n
    ensures forall i :: 0 <= i < n ==> r[i] == i
  {
    seq(n, i requires 0 <= i < n => i)
  }

  /** An index vector that lists each of 0, ..., n-1 exactly once, which is what
      np.random.permutation(n) and every row of np.argsort return. */
  predicate IsPermutation(p: seq<nat>, n: nat)
  {
    && |p| == n
    && (forall t :: 0 <= t < |p| ==> p[t] < n)
    && multiset(p) == multiset(Range(n))
  }

  /** Fancy indexing `x[p]`: the entries of x picked in the order p lists them. */
  function Gather(x: seq<real>, p: seq<nat>): (r: seq<real>)
    requires forall t :: 0 <= t < |p| ==> p[t] < |x|
    ensures |r| == |p|
    ensures forall t :: 0 <= t < |p| ==> r[t] == x[p[t]]
  {
    seq(|p|, t requires 0 <= t < |p| => x[p[t]])
  }

  lemma RangeMembers(n: nat, v: nat)
    ensures v in multiset(Range(n)) <==> v < n
  {
    if v < n { assert Range(n)[v] == v; }
  }

  /** Removing the position that holds the largest index n-1 from a
      permutation of n leaves a permutation of n-1. */
  lemma RemoveTop(p: seq<nat>, n: nat) returns (t0: nat)
    requires IsPermutation(p, n) && n > 0
    ensures t0 < n && p[t0] == n - 1
    ensures IsPermutation(p[..t0] + p[t0 + 1..], n - 1)
    ensures forall t :: 0 <= t < |p| && t != t0 ==> p[t] < n - 1
  {
    t0 := FindTop(p, n);
    var q := p[..t0] + p[t0 + 1..];
    RangeSplit(n);
    WithoutTop(p, t0, q, multiset(Range(n - 1)), n - 1);
    RangeBounds(q, n - 1);
    OthersBelow(p, t0, n - 1, q);
  }

  lemma FindTop(p: seq<nat>, n: nat) returns (t0: nat)
    requires IsPermutation(p, n) && n > 0
    ensures t0 < n && p[t0] == n - 1
  {
    var top: nat := n - 1;
    RangeMembers(n, top);
    assert top in multiset(p);
    t0 :| 0 <= t0 < |p| && p[t0] == top;
  }

  /** Taking the entry v out of a vector takes one v out of its multiset. */
  lemma WithoutTop(p: seq<nat>, t0: nat, q: seq<nat>, rest: multiset<nat>, v: nat)
    requires t0 < |p| && p[t0] == v && multiset(p) == rest + multiset{v}
    requires q == p[..t0] + p[t0 + 1..]
    ensures multiset(q) == rest
  {
    RemoveAt(p, t0);
    AddRemove(multiset(p), multiset(q), rest, v);
  }

  /** A vector with the values of Range(m) holds only indices below m. */
  lemma RangeBounds(q: seq<nat>, m: nat)
    requires multiset(q) == multiset(Range(m))
    ensures forall t :: 0 <= t < |q| ==> q[t] < m
  {
    forall t | 0 <= t < |q| ensures q[t] < m {
      assert q[t] in multiset(q);
      RangeMembers(m, q[t]);
    }
  }

  lemma OthersBelow(p: seq<nat>, t0: nat, top: nat, q: seq<nat>)
    requires t0 < |p| && q == p[..t0] + p[t0 + 1..]
    requires forall t :: 0 <= t < |q| ==> q[t] < top
    ensures forall t :: 0 <= t < |p| && t != t0 ==> p[t] < top
  {
    forall t | 0 <= t < |p| && t != t0 ensures p[t] < top {
      if t < t0 { assert p[t] == q[t]; } else { assert p[t] == q[t - 1]; }
    }
  }

  lemma AddRemove<T>(whole: multiset<T>, part: multiset<T>, rest: multiset<T>, v: T)
    requires part == whole - multiset{v} && whole == rest + multiset{v}
    ensures part == rest
  {
  }

  lemma RemoveAt<T>(p: seq<T>, t0: nat)
    requires t0 < |p|
    ensures multiset(p[..t0] + p[t0 + 1..]) == multiset(p) - multiset{p[t0]}
  {
    assert p == p[..t0] + [p[t0]] + p[t0 + 1..];
  }

  lemma RangeSplit(n: nat)
    requires n > 0
    ensures multiset(Range(n)) == multiset(Range(n - 1)) + multiset{(n - 1) as nat}
  {
    assert Range(n) == Range(n - 1) + [n - 1];
  }

  /** Gathering through p is gathering through p without position t0, with the
      last entry of x put back at t0. */
  lemma GatherSplit(x: seq<real>, p: seq<nat>, t0: nat)
    requires |x| > 0 && t0 < |p| && p[t0] == |x| - 1
    requires forall t :: 0 <= t < |p| ==> p[t] < |x|
    requires forall t :: 0 <= t < |p| && t != t0 ==> p[t] < |x| - 1
    ensures multiset(Gather(x, p))
         == multiset(Gather(x[..|x| - 1], p[..t0] + p[t0 + 1..])) + multiset{x[|x| - 1]}
  {
    var q := p[..t0] + p[t0 + 1..];
    var g := Gather(x, p);
    var h := Gather(x[..|x| - 1], q);
    assert g[..t0] == h[..t0];
    assert g[t0 + 1..] == h[t0..];
    assert g == g[..t0] + [g[t0]] + g[t0 + 1..];
    assert h == h[..t0] + h[t0..];
  }

  /** Permuting a vector by an index permutation keeps its multiset of values,
      so its sum, mean and sum of squared deviations are unchanged. */
  lemma {:induction false} GatherPermutation(x: seq<real>, p: seq<nat>)
    requires IsPermutation(p, |x|)
    ensures multiset(Gather(x, p)) == multiset(x)
    decreases |x|
  {
    var n := |x|;
    if n > 0 {
      var t0 := RemoveTop(p, n);
      var q := p[..t0] + p[t0 + 1..];
      GatherSplit(x, p, t0);
      GatherPermutation(x[..n - 1], q);
      DropLast(x);
    }
  }

  lemma DropLast(x: seq<real>)
    requires |x| > 0
    ensures multiset(x) == multiset(x[..|x| - 1]) + multiset{x[|x| - 1]}
  {
    assert x == x[..|x| - 1] + [x[|x| - 1]];
  }

  /** Corollary used by the kernel: a permutation never changes the sum. */
  lemma GatherSum(x: seq<real>, p: seq<nat>)
    requires IsPermutation(p, |x|)
    ensures Sum(Gather(x, p)) == Sum(x)
  {
    GatherPermutation(x, p);
    SumPermutation(Gather(x, p), x);
  }
}
