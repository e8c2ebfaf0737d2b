/** The numerical state of MainWindow (MoransIapp.py) and the methods that
    update it: the outlier screen, the three weight builders, the kernel, the
    dispatch of calcMoransI and the permutation loop. Geometry (the
    intersects/touches table and the centroid distances), np.argsort and
    np.random.permutation are passed in as values. */
module Session {
  import opened Vectors
  import opened Outliers
  import opened Inference
  import W = Weights
  import K = Kernel

  /** The entry chosen in the method combobox, self.method; Unselected is the
      empty string the window starts with. */
  datatype Method = Unselected | Neighbors | Distance | InverseDistance(power: nat)

  /** A square table of the geometric predicate over the n polygons. */
  predicate IsRelation(related: seq<seq<bool>>, n: nat)
  {
    |related| == n && forall i :: 0 <= i < n ==> |related[i]| == n
  }

  class MainWindow {
    var polygons: seq<Feature>
    var ft: seq<real>
    var n: nat
    var outlist: seq<real>
    var Cs: W.Matrix
    var Rs: seq<real>
    var Ws: W.Matrix
    var dev: seq<real>
    var Sdev2: real
    var devp: W.Matrix
    var Swtf: real
    var MoransI: K.Moran
    var MIreps: seq<K.Moran>
    var originalMI: K.Moran
    var MIm: K.Moran
    var EI: real
    var pvalue: real

    /** n counts the rows, and the attribute vector has one entry per row. */
    predicate Valid()
      reads this`n, this`ft, this`polygons
    {
      n == |ft| == |polygons|
    }

    /** ft is the selected column of the current rows, as each of the three
        builders reads it again first. */
    predicate Loaded()
      reads this`n, this`ft, this`polygons
    {
      Valid() && ft == Values(polygons)
    }

    /** The weight tables were built from the connection table c: Cs is c, Rs
        its row sums (self.Rs) and Ws its row-normalised form, n by n. */
    predicate WeightedBy(c: W.Matrix)
      reads this`n, this`Cs, this`Rs, this`Ws
    {
      Cs == c && Rs == W.RowSums(c) && Ws == W.Normalize(c) && W.IsSquare(Ws, n)
    }

    /** The kernel fields as MIcalc leaves them for the current ft and Ws:
        the deviations, their sum of squares, the cross-product table devp
        (the one the results window exports), the weighted sum and I. */
    predicate Kernelled()
      reads this`ft, this`Ws, this`dev, this`Sdev2, this`devp, this`Swtf, this`MoransI
    {
      && W.IsSquare(Ws, |ft|)
      && dev == K.Deviations(ft)
      && Sdev2 == K.SquaredDeviationSum(ft)
      && devp == K.CrossProducts(dev)
      && Swtf == K.WeightedSum(Ws, devp)
      && MoransI == K.MoransI(ft, Ws)
    }

    /** The window after a shapefile has been read (readshp) and an attribute
        chosen (Featclick): ft is that column and n its length; __init__ sets
        MoransI to 0. */
    constructor(rows: seq<Feature>)
      ensures Valid()
      ensures polygons == rows && ft == Values(rows) && n == |rows|
      ensures MoransI == K.Defined(0.0) && outlist == [] && MIreps == []
    {
      polygons := rows;
      ft := Values(rows);
      n := |rows|;
      outlist := [];
      Cs, Rs, Ws := [], [], [];
      dev, Sdev2, devp, Swtf := [], 0.0, [], 0.0;
      MoransI := K.Defined(0.0);
      MIreps := [];
      originalMI, MIm := K.Defined(0.0), K.Defined(0.0);
      EI, pvalue := 0.0, 0.0;
    }

    /** checkOutliers: flags the values outside the Tukey fences into outlist
        and, when there are any and the user answers yes to the dialog
        (`remove`), drops every row holding a flagged value. */
    method CheckOutliers(remove: bool)
      requires Valid()
      modifies this`outlist, this`polygons, this`ft, this`n
      ensures Valid()
      ensures outlist == OutlierList(old(ft))
      ensures |outlist| > 0 && remove ==> polygons == Survivors(old(polygons), outlist)
      ensures |outlist| > 0 && remove ==> ft == Values(polygons)
      ensures !(|outlist| > 0 && remove) ==> polygons == old(polygons) && ft == old(ft)
      ensures old(ft) == Values(old(polygons)) && remove ==> ft == CleanData(old(ft))
    {
      outlist := OutlierList(ft);
      if |outlist| > 0 && remove {
        RemoveOutliers();
      } else if remove && ft == Values(polygons) {
        NoOutliersAllClean(ft);
      }
    }

    /** The removal step of checkOutliers: keeps the rows whose value is not in
        outlist and re-reads the column and its length; when outlist is the
        screen's own result, the new column is the clean data. */
    method RemoveOutliers()
      modifies this`polygons, this`ft, this`n
      ensures polygons == Survivors(old(polygons), outlist)
      ensures ft == Values(polygons) && n == |polygons|
      ensures old(ft) == Values(old(polygons)) && outlist == OutlierList(old(ft)) ==>
        ft == CleanData(old(ft))
    {
      ghost var rows := polygons;
      polygons := Survivors(polygons, outlist);
      ft := Values(polygons);
      n := |ft|;
      RemovalLeavesCleanData(rows);
    }

    /** MIcalc: deviations, their sum of squares, the cross products, the
        weighted sum and their quotient. The division has no guard; the 0/0
        of a constant column is the value Degenerate. */
    method MIcalc()
      requires W.IsSquare(Ws, |ft|)
      modifies this`dev, this`Sdev2, this`devp, this`Swtf, this`MoransI
      ensures Kernelled()
      ensures ft == old(ft) && n == old(n) && polygons == old(polygons)
      ensures Cs == old(Cs) && Rs == old(Rs) && Ws == old(Ws)
    {
      dev := K.Deviations(ft);
      Sdev2 := Sum(Squares(dev));
      devp := K.CrossProducts(dev);
      Swtf := K.WeightedSum(Ws, devp);
      if Sdev2 == 0.0 {
        MoransI := K.Degenerate;
      } else {
        MoransI := K.Defined(Swtf / Sdev2);
      }
    }

    /** The weight-table lines shared by the three builders: Cs is the given
        connection table, Rs its row sums and Ws its row-normalised form, in
        which a row without neighbours (0/0 and x/0, cleared by nan_to_num
        and the inf mask) stays all zero. */
    method SetWeights(c: W.Matrix)
      requires W.IsSquare(c, n)
      modifies this`Cs, this`Rs, this`Ws
      ensures WeightedBy(c)
    {
      Cs := c;
      Rs := W.RowSums(c);
      Ws := W.Normalize(c);
    }

    /** NeighborMoransI: the contiguity table truncated to the first k
        neighbours of each row, normalised, then the kernel. `related` is the
        intersects (Rook) or touches table of the buffered polygons. */
    method NeighborMoransI(related: seq<seq<bool>>, k: nat)
      requires Valid() && IsRelation(related, n)
      modifies this`ft, this`Cs, this`Rs, this`Ws
      modifies this`dev, this`Sdev2, this`devp, this`Swtf, this`MoransI
      ensures Loaded() && WeightedBy(W.ContiguityWeights(W.Adjacency(related), k)) && Kernelled()
    {
      Analyse(W.ContiguityWeights(W.Adjacency(related), k));
    }

    /** The steps every builder takes around its own connection table c:
        re-read the selected column, set the weight tables from c, run the
        kernel. */
    method Analyse(c: W.Matrix)
      requires Valid() && W.IsSquare(c, n)
      modifies this`ft, this`Cs, this`Rs, this`Ws
      modifies this`dev, this`Sdev2, this`devp, this`Swtf, this`MoransI
      ensures Loaded() && WeightedBy(c) && Kernelled()
    {
      ft := Values(polygons);
      SetWeights(c);
      MIcalc();
    }

    /** DistanceMoransI (scheme Unweighted) and IDWMoransI (scheme
        InverseDistance(power)) share this computation: the k-nearest table
        of lines 546 and 578 given the distance matrix and its row argsorts,
        each distance looked up among the nearest values of all rows,
        normalised, then the kernel. */
    method KNearestMoransI(dists: W.Matrix, k: nat, orders: seq<seq<nat>>, scheme: W.Scheme)
      requires Valid() && W.IsSquare(dists, n) && W.AreArgsorts(dists, orders)
      modifies this`ft, this`Cs, this`Rs, this`Ws
      modifies this`dev, this`Sdev2, this`devp, this`Swtf, this`MoransI
      ensures Loaded() && WeightedBy(W.IsinWeights(dists, k, orders, scheme)) && Kernelled()
    {
      Analyse(W.IsinWeights(dists, k, orders, scheme));
    }

    method DistanceMoransI(dists: W.Matrix, k: nat, orders: seq<seq<nat>>)
      requires Valid() && W.IsSquare(dists, n) && W.AreArgsorts(dists, orders)
      modifies this`ft, this`Cs, this`Rs, this`Ws
      modifies this`dev, this`Sdev2, this`devp, this`Swtf, this`MoransI
      ensures Loaded() && WeightedBy(W.IsinWeights(dists, k, orders, W.Unweighted)) && Kernelled()
    {
      KNearestMoransI(dists, k, orders, W.Unweighted);
    }

    method IDWMoransI(dists: W.Matrix, k: nat, power: nat, orders: seq<seq<nat>>)
      requires Valid() && W.IsSquare(dists, n) && W.AreArgsorts(dists, orders)
      modifies this`ft, this`Cs, this`Rs, this`Ws
      modifies this`dev, this`Sdev2, this`devp, this`Swtf, this`MoransI
      ensures Loaded() && WeightedBy(W.IsinWeights(dists, k, orders, W.InverseDistance(power))) && Kernelled()
    {
      KNearestMoransI(dists, k, orders, W.InverseDistance(power));
    }

    /** calcMoransI: runs the builder of the selected method, draws the
        scatter plot and starts MIreps with the observed statistic. For a
        constant column the plot's z-scores dev/np.std(ft) are 0/0, so
        plt.xlim receives nan limits and raises before MIreps is set. With no
        method selected nothing happens. */
    method CalcMoransI(mode: Method, k: nat, related: seq<seq<bool>>, dists: W.Matrix, orders: seq<seq<nat>>)
      requires Valid()
      requires mode == Neighbors ==> IsRelation(related, n)
      requires mode.Distance? || mode.InverseDistance? ==>
        W.IsSquare(dists, n) && W.AreArgsorts(dists, orders)
      modifies this`ft, this`Cs, this`Rs, this`Ws, this`MIreps
      modifies this`dev, this`Sdev2, this`devp, this`Swtf, this`MoransI
      ensures Valid()
      ensures mode == Neighbors ==> WeightedBy(W.ContiguityWeights(W.Adjacency(related), k))
      ensures mode == Distance ==> WeightedBy(W.IsinWeights(dists, k, orders, W.Unweighted))
      ensures mode.InverseDistance? ==>
        WeightedBy(W.IsinWeights(dists, k, orders, W.InverseDistance(mode.power)))
      ensures mode != Unselected ==> Loaded() && Kernelled()
      ensures mode != Unselected ==> MIreps == if MoransI.Defined? then [MoransI] else old(MIreps)
      ensures mode == Unselected ==> unchanged(this)
    {
      match mode
      case Unselected =>
      case Neighbors =>
        NeighborMoransI(related, k);
        PlotAndStartReps();
      case Distance =>
        DistanceMoransI(dists, k, orders);
        PlotAndStartReps();
      case InverseDistance(power) =>
        IDWMoransI(dists, k, power, orders);
        PlotAndStartReps();
    }

    /** The lines after each builder in calcMoransI: the scatter plot, which
        raises on a nan statistic, then MIreps = [MoransI]. */
    method PlotAndStartReps()
      modifies this`MIreps
      ensures MIreps == if MoransI.Defined? then [MoransI] else old(MIreps)
    {
      if MoransI.Defined? {
        MIreps := [MoransI];
      }
    }

    /** One pass of the loop of Permutations: ft is reshuffled by the drawn
        permutation, the kernel is rerun and its statistic appended to MIreps. */
    method Trial(perms: seq<seq<nat>>, i: nat)
      requires Valid() && W.IsSquare(Ws, n) && i < |perms| && AllPermutations(perms, n)
      modifies this`ft, this`dev, this`Sdev2, this`devp, this`Swtf, this`MoransI, this`MIreps
      ensures Valid()
      ensures ft == Gather(old(ft), perms[i]) && Kernelled()
      ensures MIreps == old(MIreps) + [MoransI]
    {
      GatherPermutation(ft, perms[i]);
      ft := Gather(ft, perms[i]);
      MIcalc();
      MIreps := MIreps + [MoransI];
    }

    /** The state after the first i trials of a run that started from the
        vector x0 and the history reps0. */
    ghost predicate AfterTrials(perms: seq<seq<nat>>, i: nat, x0: seq<real>, reps0: seq<K.Moran>)
      reads this`ft, this`MIreps, this`Ws, this`dev, this`Sdev2, this`devp, this`Swtf, this`MoransI
    {
      && i <= |perms| && AllPermutations(perms, |x0|) && W.IsSquare(Ws, |x0|)
      && ft == Shuffle(x0, perms, i)
      && MIreps == reps0 + TrialStatistics(x0, Ws, perms, i)
      && (i > 0 ==> Kernelled())
    }

    /** The loop of Permutations: one trial per drawn permutation, in order. */
    method RunTrials(perms: seq<seq<nat>>)
      requires Valid() && W.IsSquare(Ws, n)
      requires |perms| > 0 && AllPermutations(perms, n)
      modifies this`ft, this`dev, this`Sdev2, this`devp, this`Swtf, this`MoransI, this`MIreps
      ensures Valid()
      ensures ft == Shuffle(old(ft), perms, |perms|)
      ensures MIreps == old(MIreps) + TrialStatistics(old(ft), Ws, perms, |perms|)
      ensures Kernelled()
    {
      ghost var x0 := ft;
      ghost var reps0 := MIreps;
      var i := 0;
      while i < |perms|
        invariant i <= |perms| && Valid() && |x0| == n
        invariant AfterTrials(perms, i, x0, reps0)
      {
        Advance(perms, i, x0, reps0);
        i := i + 1;
      }
    }

    /** A trial seen against the whole run: after trial i + 1 the vector is
        the observed one shuffled i + 1 times and MIreps has gained the
        statistics of the first i + 1 trials. */
    method Advance(perms: seq<seq<nat>>, i: nat, ghost x0: seq<real>, ghost reps0: seq<K.Moran>)
      requires Valid() && i < |perms| && |x0| == n && AfterTrials(perms, i, x0, reps0)
      modifies this`ft, this`dev, this`Sdev2, this`devp, this`Swtf, this`MoransI, this`MIreps
      ensures Valid() && AfterTrials(perms, i + 1, x0, reps0)
    {
      ghost var before := MIreps;
      Trial(perms, i);
      TrialExtends(x0, Ws, perms, i, reps0, before, ft);
    }

    /** The summary of the permutation distribution: MIm is the mean of
        MIreps, and unless len(ft) is 1 (the ZeroDivisionError of E[I]) EI is
        -1/(len(ft) - 1) and pvalue the fixed 0.001. */
    predicate Summarized(ok: bool)
      reads this`MIm, this`MIreps, this`ft, this`EI, this`pvalue
    {
      && MIm == MeanOfReps(MIreps)
      && (ok <==> |ft| != 1)
      && (ok ==> ExpectedI(|ft|) == Some(EI) && pvalue == PValue)
    }

    /** The closing lines of Permutations: the mean of MIreps, E[I] and the
        p-value. `ok` is false when -1/(len(ft) - 1) raises
        ZeroDivisionError, which leaves EI and pvalue as they were. */
    method Summarize() returns (ok: bool)
      modifies this`MIm, this`EI, this`pvalue
      ensures Summarized(ok)
      ensures !ok ==> EI == old(EI) && pvalue == old(pvalue)
    {
      MIm := MeanOfReps(MIreps);
      var e := ExpectedI(|ft|);
      ok := e.Some?;
      if ok {
        EI := e.value;
        pvalue := PValue;
      }
    }

    /** Lines 646-651 of Permutations: remember the observed statistic, then
        run the trials. When the history holds only the observed statistic,
        every repetition is defined exactly when the observed one is. */
    method Resample(perms: seq<seq<nat>>)
      requires Valid() && W.IsSquare(Ws, n)
      requires |perms| > 0 && AllPermutations(perms, n)
      modifies this`ft, this`dev, this`Sdev2, this`devp, this`Swtf, this`MoransI
      modifies this`MIreps, this`originalMI
      ensures Valid()
      ensures originalMI == old(MoransI)
      ensures ft == Shuffle(old(ft), perms, |perms|)
      ensures MIreps == old(MIreps) + TrialStatistics(old(ft), Ws, perms, |perms|)
      ensures Kernelled()
      ensures old(MIreps) == [old(MoransI)] && old(MoransI) == K.MoransI(old(ft), Ws) ==>
        && |MIreps| == |perms| + 1 && MIreps[0] == originalMI
        && forall t :: 0 <= t < |MIreps| ==> (MIreps[t].Defined? <==> originalMI.Defined?)
    {
      ghost var x0 := ft;
      originalMI := MoransI;
      RunTrials(perms);
      if old(MIreps) == [originalMI] && originalMI == K.MoransI(x0, Ws) {
        ObservedAndTrialsDefined(x0, Ws, perms, |perms|);
      }
    }

    /** Permutations, apart from its plots and the quantities that need a
        square root: keeps the observed statistic, runs the 999 trials, then
        summarises them. When MIreps held only the observed statistic of ft,
        as calcMoransI leaves it, the 1000 entries are either all defined or
        all nan. */
    method Permutations(perms: seq<seq<nat>>) returns (ok: bool)
      requires Valid() && W.IsSquare(Ws, n)
      requires |perms| == Trials && AllPermutations(perms, n)
      modifies this`ft, this`dev, this`Sdev2, this`devp, this`Swtf, this`MoransI
      modifies this`MIreps, this`originalMI, this`MIm, this`EI, this`pvalue
      ensures Valid()
      ensures originalMI == old(MoransI)
      ensures ft == Shuffle(old(ft), perms, |perms|)
      ensures MIreps == old(MIreps) + TrialStatistics(old(ft), Ws, perms, |perms|)
      ensures Kernelled()
      ensures Summarized(ok)
      ensures !ok ==> EI == old(EI) && pvalue == old(pvalue)
      ensures old(MIreps) == [old(MoransI)] && old(MoransI) == K.MoransI(old(ft), Ws) ==>
        && |MIreps| == |perms| + 1 && MIreps[0] == originalMI
        && forall t :: 0 <= t < |MIreps| ==> (MIreps[t].Defined? <==> originalMI.Defined?)
    {
      Resample(perms);
      ok := Summarize();
    }
  }
}
