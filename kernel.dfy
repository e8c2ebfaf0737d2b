/** The Moran's I kernel MainWindow.MIcalc (MoransIapp.py): deviations from
    the mean, their cross products, the W-weighted sum of those and the
    quotient by the sum of squared deviations. */
module Kernel {
  import opened Vectors
  import opened Weights

  /** The statistic MIcalc leaves in self.MoransI. The source divides without a
      guard, so a constant attribute gives 0/0, a floating-point nan; here that
      case is the value Degenerate. */
  datatype Moran = Defined(value: real) | Degenerate

  /** np.mean; the empty vector (nan in numpy) is given mean 0, which only
      matters through Deviations, whose sum of squares is then 0 anyway. */
  function Mean(x: seq<real>): (m: real)
    ensures |x| as real * m == Sum(x)
  {
    if |x| == 0 then 0.0 else Sum(x) / |x| as real
  }

  /** self.dev = ft - mean(ft). */
  function Deviations(x: seq<real>): (d: seq<real>)
    ensures |d| == |x|
    ensures forall i :: 0 <= i < |x| ==> d[i] == x[i] - Mean(x)
  {
    seq(|x|, i requires 0 <= i < |x| => x[i] - Mean(x))
  }

  /** self.Sdev2 = sum(dev**2). */
  function SquaredDeviationSum(x: seq<real>): real
  {
    Sum(Squares(Deviations(x)))
  }

  /** self.devp: the product of the two np.meshgrid copies of dev. */
  function CrossProducts(d: seq<real>): (p: Matrix)
    ensures IsSquare(p, |d|)
  {
    seq(|d|, i requires 0 <= i < |d| => seq(|d|, j requires 0 <= j < |d| => d[j] * d[i]))
  }

  /** The outer product is symmetric with the squared deviations on its
      diagonal. */
  lemma CrossProductsProperties(d: seq<real>)
    ensures forall i, j :: 0 <= i < |d| && 0 <= j < |d| ==>
      CrossProducts(d)[i][j] == CrossProducts(d)[j][i]
    ensures forall i :: 0 <= i < |d| ==> CrossProducts(d)[i][i] == d[i] * d[i]
  {
  }

  /** Entrywise product (numpy's `*` on two arrays of one shape). */
  function Hadamard(a: Matrix, b: Matrix): (c: Matrix)
    requires IsSquare(a, |a|) && IsSquare(b, |a|)
    ensures IsSquare(c, |a|)
  {
    seq(|a|, i requires 0 <= i < |a| => seq(|a|, j requires 0 <= j < |a| => a[i][j] * b[i][j]))
  }

  /** self.Swtf = sum(Ws * devp), summed over every entry. A weight table
      without any neighbour contributes nothing. */
  function WeightedSum(w: Matrix, p: Matrix): (r: real)
    requires IsSquare(w, |w|) && IsSquare(p, |w|)
    ensures (forall i, j :: 0 <= i < |w| && 0 <= j < |w| ==> w[i][j] == 0.0) ==> r == 0.0
  {
    ZeroWeightsSum(w, p);
    Sum(RowSums(Hadamard(w, p)))
  }

  lemma ZeroWeightsSum(w: Matrix, p: Matrix)
    requires IsSquare(w, |w|) && IsSquare(p, |w|)
    ensures (forall i, j :: 0 <= i < |w| && 0 <= j < |w| ==> w[i][j] == 0.0) ==>
      Sum(RowSums(Hadamard(w, p))) == 0.0
  {
    if forall i, j :: 0 <= i < |w| && 0 <= j < |w| ==> w[i][j] == 0.0 {
      var h := Hadamard(w, p);
      forall i | 0 <= i < |w| ensures Sum(h[i]) == 0.0 {
        assert forall j :: 0 <= j < |w| ==> h[i][j] == 0.0;
        SumNonNegative(h[i]);
      }
      SumNonNegative(RowSums(h));
    }
  }

  /** self.MoransI = Swtf / Sdev2. The 0/0 case arises exactly on a constant
      column, the empty one included. */
  function MoransI(x: seq<real>, w: Matrix): (r: Moran)
    requires IsSquare(w, |x|)
    ensures r == Degenerate <==> Constant(x)
  {
    ZeroSpreadIffConstant(x);
    var s2 := SquaredDeviationSum(x);
    if s2 == 0.0 then Degenerate
    else Defined(WeightedSum(w, CrossProducts(Deviations(x))) / s2)
  }

  /** The deviations from the mean sum to zero. */
  lemma DeviationsSumToZero(x: seq<real>)
    ensures Sum(Deviations(x)) == 0.0
  {
    SumShift(x, Mean(x));
    assert Deviations(x) == seq(|x|, i requires 0 <= i < |x| => x[i] - Mean(x));
  }

  /** The sum of squared deviations is never negative and is zero exactly when
      every deviation is zero. */
  lemma SquaredDeviationSumZero(x: seq<real>)
    ensures SquaredDeviationSum(x) >= 0.0
    ensures SquaredDeviationSum(x) == 0.0 <==> forall i :: 0 <= i < |x| ==> Deviations(x)[i] == 0.0
  {
    var d := Deviations(x);
    forall i | 0 <= i < |x| ensures Squares(d)[i] >= 0.0 && (d[i] != 0.0 ==> Squares(d)[i] > 0.0) {
      SquareEntry(d, i);
    }
    SumNonNegative(Squares(d));
  }

  /** An entry of Squares(d) is non-negative, and positive where d is not
      zero. The calc chains the equation for the entry with the sign of the
      product; the solver does not combine the two on its own. */
  lemma SquareEntry(d: seq<real>, i: nat)
    requires i < |d|
    ensures Squares(d)[i] >= 0.0 && (d[i] != 0.0 ==> Squares(d)[i] > 0.0)
  {
    var v := d[i];
    SquareSign(v);
    if v != 0.0 {
      calc {
        Squares(d)[i];
        == v * v;
        > 0.0;
      }
    } else {
      calc {
        Squares(d)[i];
        == v * v;
        >= 0.0;
      }
    }
  }

  lemma SquareSign(v: real)
    ensures v * v >= 0.0
    ensures v != 0.0 ==> v * v > 0.0
  {
    if v < 0.0 {
      assert v * v == (-v) * (-v);
      assert (-v) * (-v) > 0.0;
    }
  }

  /** A constant vector has that constant as its mean. */
  lemma ConstantMean(x: seq<real>)
    requires Constant(x) && |x| > 0
    ensures Mean(x) == x[0]
  {
    var shifted := seq(|x|, i requires 0 <= i < |x| => x[i] - x[0]);
    var n := |x| as real;
    SumShift(x, x[0]);
    assert forall j :: 0 <= j < |shifted| ==> shifted[j] == 0.0;
    SumNonNegative(shifted);
    assert Sum(x) == n * x[0];
    MeanFromSum(x, x[0]);
  }

  lemma MeanFromSum(x: seq<real>, c: real)
    requires |x| > 0 && Sum(x) == |x| as real * c
    ensures Mean(x) == c
  {
    DivCancel(c, |x| as real);
  }

  /** The squared deviations sum to zero exactly when the attribute vector
      is constant (the empty vector included). */
  lemma ZeroSpreadIffConstant(x: seq<real>)
    ensures SquaredDeviationSum(x) == 0.0 <==> Constant(x)
  {
    SquaredDeviationSumZero(x);
    var d := Deviations(x);
    if Constant(x) && |x| > 0 {
      ConstantMean(x);
    }
    if SquaredDeviationSum(x) == 0.0 {
      assert forall i :: 0 <= i < |x| ==> x[i] == Mean(x);
    }
  }

  /** Adding the same amount to every observation changes no deviation, so
      the statistic is unchanged. */
  lemma ShiftInvariant(x: seq<real>, c: real, w: Matrix)
    requires IsSquare(w, |x|)
    ensures var y := seq(|x|, i requires 0 <= i < |x| => x[i] + c);
      MoransI(y, w) == MoransI(x, w)
  {
    var y := seq(|x|, i requires 0 <= i < |x| => x[i] + c);
    if |x| > 0 {
      SumShift(y, c);
      assert seq(|y|, i requires 0 <= i < |y| => y[i] - c) == x;
      assert Mean(y) == Mean(x) + c;
    }
    assert Deviations(y) == Deviations(x);
  }

  /** Reshuffling the observations by an index permutation (one trial of the
      permutation test) keeps the mean, permutes the deviations the same way
      and keeps the sum of squared deviations, the denominator of I. */
  lemma PermutedKernelInputs(x: seq<real>, p: seq<nat>)
    requires IsPermutation(p, |x|)
    ensures Mean(Gather(x, p)) == Mean(x)
    ensures Deviations(Gather(x, p)) == Gather(Deviations(x), p)
    ensures SquaredDeviationSum(Gather(x, p)) == SquaredDeviationSum(x)
  {
    var d := Deviations(x);
    GatherSum(x, p);
    GatherDeviations(x, p);
    GatherSquares(d, p);
    GatherSum(Squares(d), p);
  }

  lemma GatherDeviations(x: seq<real>, p: seq<nat>)
    requires IsPermutation(p, |x|) && Mean(Gather(x, p)) == Mean(x)
    ensures Deviations(Gather(x, p)) == Gather(Deviations(x), p)
  {
    var y := Gather(x, p);
    forall t | 0 <= t < |p| ensures Deviations(y)[t] == Gather(Deviations(x), p)[t] {
      assert y[t] == x[p[t]];
    }
  }

  lemma GatherSquares(d: seq<real>, p: seq<nat>)
    requires forall t :: 0 <= t < |p| ==> p[t] < |d|
    ensures Squares(Gather(d, p)) == Gather(Squares(d), p)
  {
    forall t | 0 <= t < |p| ensures Squares(Gather(d, p))[t] == Gather(Squares(d), p)[t] {
      assert Gather(d, p)[t] == d[p[t]];
    }
  }

  /** Consequently a trial is degenerate exactly when the observed vector is. */
  lemma PermutedDegenerate(x: seq<real>, p: seq<nat>, w: Matrix)
    requires IsPermutation(p, |x|) && IsSquare(w, |x|)
    ensures MoransI(Gather(x, p), w).Defined? <==> MoransI(x, w).Defined?
  {
    PermutedKernelInputs(x, p);
  }
}
