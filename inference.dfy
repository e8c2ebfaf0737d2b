/** The arithmetic of the permutation test MainWindow.Permutations
    (MoransIapp.py): the reshuffled attribute vectors, the statistic of each
    trial, the mean of all the statistics and the analytic expectation
    E[I] = -1/(n-1). The random source is an explicit list of index
    permutations. */
module Inference {
  import opened Vectors
  import opened Weights
  import opened Kernel

  datatype Option<T> = None | Some(value: T)

  /** The loop runs `for i in range(999)`. */
  const Trials: nat := 999

  /** The reported p-value, a fixed constant. */
  const PValue: real := 0.001

  /** Each of the drawn index vectors is a permutation of 0, ..., n-1. */
  predicate AllPermutations(perms: seq<seq<nat>>, n: nat)
  {
    forall t :: 0 <= t < |perms| ==> IsPermutation(perms[t], n)
  }

  /** The attribute vector after the first m trials: each trial applies
      `ft = np.random.permutation(ft)` to the vector the one before left. */
  function Shuffle(x: seq<real>, perms: seq<seq<nat>>, m: nat): (y: seq<real>)
    requires m <= |perms| && AllPermutations(perms, |x|)
    ensures |y| == |x|
    ensures multiset(y) == multiset(x)
  {
    if m == 0 then x
    else
      var prev := Shuffle(x, perms, m - 1);
      GatherPermutation(prev, perms[m - 1]);
      Gather(prev, perms[m - 1])
  }

  /** The statistics the first m trials append to MIreps, in order: entry t
      is the kernel applied to the vector after trial t. */
  function TrialStatistics(x: seq<real>, w: Matrix, perms: seq<seq<nat>>, m: nat): (r: seq<Moran>)
    requires IsSquare(w, |x|) && m <= |perms| && AllPermutations(perms, |x|)
    ensures |r| == m
  {
    seq(m, t requires 0 <= t < m => MoransI(Shuffle(x, perms, t + 1), w))
  }

  lemma ShuffleStep(x: seq<real>, perms: seq<seq<nat>>, m: nat)
    requires m < |perms| && AllPermutations(perms, |x|)
    ensures Shuffle(x, perms, m + 1) == Gather(Shuffle(x, perms, m), perms[m])
  {
  }

  /** One more trial appends the statistic of the vector reshuffled once more,
      leaving the earlier entries as they were. */
  lemma TrialStep(x: seq<real>, w: Matrix, perms: seq<seq<nat>>, m: nat)
    requires IsSquare(w, |x|) && m < |perms| && AllPermutations(perms, |x|)
    ensures TrialStatistics(x, w, perms, m + 1)
         == TrialStatistics(x, w, perms, m) + [MoransI(Shuffle(x, perms, m + 1), w)]
  {
    var longer := TrialStatistics(x, w, perms, m + 1);
    var shorter := TrialStatistics(x, w, perms, m);
    var appended := shorter + [MoransI(Shuffle(x, perms, m + 1), w)];
    forall t | 0 <= t < m + 1 ensures longer[t] == appended[t] {
      if t < m {
        assert appended[t] == shorter[t];
      }
    }
    assert longer == appended;
  }

  /** What one pass of the loop keeps: reshuffling the vector after trial m by
      the next permutation gives the vector after trial m + 1, and appending
      its statistic to the list of the first m extends it to the first m + 1. */
  lemma TrialExtends(x: seq<real>, w: Matrix, perms: seq<seq<nat>>, m: nat,
                     prefix: seq<Moran>, reps: seq<Moran>, y: seq<real>)
    requires IsSquare(w, |x|) && m < |perms| && AllPermutations(perms, |x|)
    requires reps == prefix + TrialStatistics(x, w, perms, m)
    requires y == Gather(Shuffle(x, perms, m), perms[m])
    ensures y == Shuffle(x, perms, m + 1)
    ensures reps + [MoransI(y, w)] == prefix + TrialStatistics(x, w, perms, m + 1)
  {
    ShuffleStep(x, perms, m);
    TrialStep(x, w, perms, m);
  }

  /** Every trial vector is a rearrangement of the observed one, so the mean
      and the sum of squared deviations, the denominator of I, are the same
      in every trial. */
  lemma {:induction false} ShuffleKeepsKernelInputs(x: seq<real>, perms: seq<seq<nat>>, m: nat)
    requires m <= |perms| && AllPermutations(perms, |x|)
    ensures Mean(Shuffle(x, perms, m)) == Mean(x)
    ensures SquaredDeviationSum(Shuffle(x, perms, m)) == SquaredDeviationSum(x)
  {
    if m > 0 {
      ShuffleKeepsKernelInputs(x, perms, m - 1);
      PermutedKernelInputs(Shuffle(x, perms, m - 1), perms[m - 1]);
    }
  }

  /** Every trial vector keeps the denominator of I, so each entry of
      MIreps, the observed statistic followed by the m trial statistics, is
      defined exactly when the observed one is: a constant attribute makes
      all of them nan, any other none. */
  lemma ObservedAndTrialsDefined(x: seq<real>, w: Matrix, perms: seq<seq<nat>>, m: nat)
    requires IsSquare(w, |x|) && m <= |perms| && AllPermutations(perms, |x|)
    ensures var reps := [MoransI(x, w)] + TrialStatistics(x, w, perms, m);
      forall t :: 0 <= t < |reps| ==> (reps[t].Defined? <==> MoransI(x, w).Defined?)
  {
    var reps := [MoransI(x, w)] + TrialStatistics(x, w, perms, m);
    forall t | 0 <= t < |reps| ensures reps[t].Defined? <==> MoransI(x, w).Defined? {
      if t > 0 {
        TrialDefinedIffObserved(x, w, perms, m, t - 1);
      }
    }
  }

  /** Each trial statistic is defined exactly when the observed one is. */
  lemma TrialDefinedIffObserved(x: seq<real>, w: Matrix, perms: seq<seq<nat>>, m: nat, t: nat)
    requires IsSquare(w, |x|) && m <= |perms| && AllPermutations(perms, |x|) && t < m
    ensures TrialStatistics(x, w, perms, m)[t].Defined? <==> MoransI(x, w).Defined?
  {
    ShuffleKeepsKernelInputs(x, perms, t + 1);
  }

  /** No entry of the list is nan. */
  predicate AllDefined(reps: seq<Moran>)
  {
    forall t :: 0 <= t < |reps| ==> reps[t].Defined?
  }

  /** The values of a list of statistics that are all defined. */
  function StatisticValues(reps: seq<Moran>): (v: seq<real>)
    requires AllDefined(reps)
    ensures |v| == |reps|
    ensures forall t :: 0 <= t < |reps| ==> v[t] == reps[t].value
  {
    seq(|reps|, t requires 0 <= t < |reps| => reps[t].value)
  }

  /** np.sum over MIreps in floating point: one nan entry makes the sum nan. */
  function RepsSum(reps: seq<Moran>): (r: Moran)
    ensures r.Defined? <==> AllDefined(reps)
    decreases |reps|
  {
    if |reps| == 0 then Defined(0.0)
    else
      var prefix := reps[..|reps| - 1];
      var init := RepsSum(prefix);
      var last := reps[|reps| - 1];
      AllDefinedSplit(reps);
      if init.Defined? && last.Defined? then Defined(init.value + last.value) else Degenerate
  }

  /** self.MIm = np.mean(self.MIreps): the sum divided by the count, nan for
      an empty list or one holding a nan. */
  function MeanOfReps(reps: seq<Moran>): (r: Moran)
    ensures r.Defined? <==> |reps| > 0 && AllDefined(reps)
  {
    if |reps| == 0 then Degenerate
    else match RepsSum(reps)
      case Defined(total) => Defined(total / |reps| as real)
      case Degenerate => Degenerate
  }

  /** A list is free of nan exactly when its prefix and its last entry are. */
  lemma AllDefinedSplit(reps: seq<Moran>)
    requires |reps| > 0
    ensures AllDefined(reps) <==> AllDefined(reps[..|reps| - 1]) && reps[|reps| - 1].Defined?
  {
    var init := reps[..|reps| - 1];
    if AllDefined(init) && reps[|reps| - 1].Defined? {
      forall t | 0 <= t < |reps| ensures reps[t].Defined? {
        if t < |init| { assert reps[t] == init[t]; }
      }
    }
    if AllDefined(reps) {
      forall t | 0 <= t < |init| ensures init[t].Defined? {
        assert init[t] == reps[t];
      }
    }
  }

  /** When every entry is defined, the sum is the sum of the values. */
  lemma {:induction false} RepsSumValue(reps: seq<Moran>)
    ensures AllDefined(reps) ==> RepsSum(reps).value == Sum(StatisticValues(reps))
    decreases |reps|
  {
    if |reps| > 0 {
      var init := reps[..|reps| - 1];
      RepsSumValue(init);
      AllDefinedSplit(reps);
      if AllDefined(reps) {
        var v := StatisticValues(reps);
        assert v[..|v| - 1] == StatisticValues(init);
      }
    }
  }

  /** A defined mean is the arithmetic mean of the values. */
  lemma MeanOfRepsValue(reps: seq<Moran>)
    ensures MeanOfReps(reps).Defined? ==>
      MeanOfReps(reps).value == Sum(StatisticValues(reps)) / |reps| as real
  {
    RepsSumValue(reps);
  }

  /** A sum of entries within [lo, hi] lies within n*lo and n*hi. */
  lemma {:induction false} SumBounds(s: seq<real>, lo: real, hi: real)
    requires forall t :: 0 <= t < |s| ==> lo <= s[t] <= hi
    ensures |s| as real * lo <= Sum(s) <= |s| as real * hi
    decreases |s|
  {
    if |s| > 0 {
      var init := s[..|s| - 1];
      var m := |init| as real;
      SumBounds(init, lo, hi);
      calc {
        |s| as real * lo;
        == m * lo + lo;
        <= Sum(init) + s[|s| - 1];
        == Sum(s);
      }
      calc {
        Sum(s);
        == Sum(init) + s[|s| - 1];
        <= m * hi + hi;
        == |s| as real * hi;
      }
    }
  }

  /** The mean of the permutation distribution lies between its smallest and
      its largest statistic. */
  lemma MeanOfRepsBounds(reps: seq<Moran>, lo: real, hi: real)
    requires |reps| > 0
    requires forall t :: 0 <= t < |reps| ==> reps[t].Defined? && lo <= reps[t].value <= hi
    ensures MeanOfReps(reps).Defined?
    ensures lo <= MeanOfReps(reps).value <= hi
  {
    MeanOfRepsValue(reps);
    var v := StatisticValues(reps);
    var n := |reps| as real;
    SumBounds(v, lo, hi);
    DivideBounds(Sum(v), n, lo, hi);
  }

  lemma DivideBounds(a: real, n: real, lo: real, hi: real)
    requires n > 0.0 && n * lo <= a <= n * hi
    ensures lo <= a / n <= hi
  {
    calc {
      lo;
      == { DivCancel(lo, n); } (n * lo) / n;
      <= { DivMonotone(n * lo, a, n); } a / n;
    }
    calc {
      a / n;
      <= { DivMonotone(a, n * hi, n); } (n * hi) / n;
      == { DivCancel(hi, n); } hi;
    }
  }

  lemma DivMonotone(a: real, b: real, n: real)
    requires a <= b && n > 0.0
    ensures a / n <= b / n
  {
    assert (b - a) / n >= 0.0;
  }

  /** self.EI = -1/(len(ft) - 1): Python raises ZeroDivisionError for a single
      observation (None here); for two or more it lies in [-1, 0). */
  function ExpectedI(n: nat): (e: Option<real>)
    ensures e.None? <==> n == 1
    ensures n >= 2 ==> e.Some? && -1.0 <= e.value < 0.0
  {
    if n == 1 then None
    else
      var e := -1.0 / (n as real - 1.0);
      assert n >= 2 ==> -1.0 <= e < 0.0 by {
        if n >= 2 {
          assert (n as real - 1.0) * e == -1.0;
        }
      }
      Some(e)
  }

  /** The defined value is the reciprocal of n-1 with its sign flipped, so it
      depends on n alone, tends to 0 as n grows, and is 1 for the empty
      vector. */
  lemma ExpectedIValue(n: nat)
    requires n != 1
    ensures ExpectedI(n).value * (n as real - 1.0) == -1.0
    ensures n == 0 ==> ExpectedI(n).value == 1.0
    ensures n == 2 ==> ExpectedI(n).value == -1.0
  {
  }
}
