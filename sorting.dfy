/** Sorting of real vectors: the reference that np.argsort, np.sort, the
    quantiles of pandas and np.setdiff1d's sorted output are stated against. */
module Sorting {

  predicate Sorted(s: seq<real>)
  {
    forall i, j :: 0 <= i <= j < |s| ==> s[i] <= s[j]
  }

  predicate StrictlyIncreasing(s: seq<real>)
  {
    forall i, j :: 0 <= i < j < |s| ==> s[i] < s[j]
  }

  /** Inserts v into a sorted vector before the first entry not below it. */
  function Insert(v: real, s: seq<real>): (r: seq<real>)
    requires Sorted(s)
    ensures Sorted(r)
    ensures multiset(r) == multiset(s) + multiset{v}
    decreases |s|
  {
    if |s| == 0 || v <= s[0] then [v] + s
    else
      var tail := Insert(v, s[1..]);
      TailAbove(s, v, tail);
      ConsSorted(s[0], tail);
      assert s == [s[0]] + s[1..];
      [s[0]] + tail
  }

  /** What is inserted behind the head of a sorted vector stays at or above
      that head. */
  lemma TailAbove(s: seq<real>, v: real, tail: seq<real>)
    requires Sorted(s) && |s| > 0 && s[0] < v
    requires multiset(tail) == multiset(s[1..]) + multiset{v}
    ensures forall j :: 0 <= j < |tail| ==> s[0] <= tail[j]
  {
    forall j | 0 <= j < |tail| ensures s[0] <= tail[j] {
      assert tail[j] in multiset(tail);
      if tail[j] != v {
        assert tail[j] in s[1..];
      }
    }
  }

  lemma ConsSorted(x: real, t: seq<real>)
    requires Sorted(t) && forall j :: 0 <= j < |t| ==> x <= t[j]
    ensures Sorted([x] + t)
  {
    forall i, j | 0 <= i <= j < |t| + 1 ensures ([x] + t)[i] <= ([x] + t)[j] {
      if i > 0 {
        assert ([x] + t)[i] == t[i - 1] && ([x] + t)[j] == t[j - 1];
      }
    }
  }

  /** Insertion sort: the ascending arrangement of the entries of s. */
  function Sort(s: seq<real>): (r: seq<real>)
    ensures Sorted(r)
    ensures multiset(r) == multiset(s)
    ensures |r| == |s|
    decreases |s|
  {
    if |s| == 0 then []
    else
      assert s == [s[0]] + s[1..];
      var r := Insert(s[0], Sort(s[1..]));
      assert |r| == |multiset(r)| == |multiset(s)| == |s|;
      r
  }

  /** There is only one sorted arrangement of a multiset of values, so every
      sorted permutation of a vector equals Sort of it, whatever order ties
      were placed in. */
  lemma {:induction false} SortedUnique(a: seq<real>, b: seq<real>)
    requires Sorted(a) && Sorted(b) && multiset(a) == multiset(b)
    ensures a == b
    decreases |a|
  {
    assert |a| == |multiset(a)| == |multiset(b)| == |b|;
    if |a| > 0 {
      HeadIsLeast(b, a[0]);
      HeadIsLeast(a, b[0]);
      DropHead(a);
      DropHead(b);
      SortedUnique(a[1..], b[1..]);
      SameHeadSameTail(a, b);
    }
  }

  lemma SameHeadSameTail(a: seq<real>, b: seq<real>)
    requires |a| > 0 && |b| > 0 && a[0] == b[0] && a[1..] == b[1..]
    ensures a == b
  {
    assert a == [a[0]] + a[1..] && b == [b[0]] + b[1..];
  }

  /** A sorted vector starts with its least entry. */
  lemma HeadIsLeast(s: seq<real>, v: real)
    requires Sorted(s) && v in multiset(s)
    ensures |s| > 0 && s[0] <= v
  {
    assert v in s;
  }

  lemma DropHead(s: seq<real>)
    requires Sorted(s) && |s| > 0
    ensures Sorted(s[1..])
    ensures multiset(s[1..]) == multiset(s) - multiset{s[0]}
  {
    assert s == [s[0]] + s[1..];
  }

  /** In a sorted vector, a value that occurs somewhere in it occurs among the
      first m entries exactly when it does not exceed the m-th one. */
  lemma SortedPrefixMembership(s: seq<real>, m: nat, v: real)
    requires Sorted(s) && 1 <= m <= |s| && v in s
    ensures v in s[..m] <==> v <= s[m - 1]
  {
  }

  /** Drops repeated neighbours of a sorted vector (the np.unique step of
      np.setdiff1d). */
  function Dedup(s: seq<real>): (r: seq<real>)
    requires Sorted(s)
    ensures StrictlyIncreasing(r)
    ensures forall v :: v in r <==> v in s
    ensures |s| > 0 ==> |r| > 0 && r[0] == s[0]
    decreases |s|
  {
    if |s| <= 1 then s
    else
      var tail := Dedup(s[1..]);
      assert s == [s[0]] + s[1..];
      if s[0] == s[1] then tail else [s[0]] + tail
  }
}
