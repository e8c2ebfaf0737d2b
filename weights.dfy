/** Spatial weight matrices of MainWindow (MoransIapp.py): the contiguity
    table of NeighborMoransI, the k-nearest tables of DistanceMoransI and
    IDWMoransI, and the row normalisation the three share. The geometric
    predicates (buffer, intersects, touches) and the centroid distances are
    inputs here. */
module Weights {
  import opened Vectors
  import opened Sorting

  type Matrix = seq<seq<real>>

  predicate IsSquare(m: Matrix, n: nat)
  {
    |m| == n && forall i :: 0 <= i < n ==> |m[i]| == n
  }

  predicate ZeroDiagonal(m: Matrix)
    requires IsSquare(m, |m|)
  {
    forall i :: 0 <= i < |m| ==> m[i][i] == 0.0
  }

  predicate NonNegative(m: Matrix)
  {
    forall i, j :: 0 <= i < |m| && 0 <= j < |m[i]| ==> m[i][j] >= 0.0
  }

  predicate ZeroOne(row: seq<real>)
  {
    forall j :: 0 <= j < |row| ==> row[j] == 0.0 || row[j] == 1.0
  }

  function Min(a: int, b: int): int
  {
    if a <= b then a else b
  }

  // ---------------------------------------------------------------------
  // Contiguity (NeighborMoransI)
  // ---------------------------------------------------------------------

  /** The geometric predicate table (intersects for Rook, touches for Queen)
      cast to 0/1 with its diagonal overwritten by 0 (np.fill_diagonal). */
  function Adjacency(related: seq<seq<bool>>): (a: Matrix)
    requires forall i :: 0 <= i < |related| ==> |related[i]| == |related|
    ensures IsSquare(a, |related|) && ZeroDiagonal(a)
    ensures forall i :: 0 <= i < |a| ==> ZeroOne(a[i])
    ensures forall i, j :: 0 <= i < |a| && 0 <= j < |a| && i != j ==>
              (a[i][j] == 1.0 <==> related[i][j])
  {
    seq(|related|, i requires 0 <= i < |related| =>
      seq(|related|, j requires 0 <= j < |related| =>
        if i != j && related[i][j] then 1.0 else 0.0))
  }

  /** One row of the contiguity table: a 1 survives only while the running
      count np.cumsum(row) up to and including it is at most k. */
  function TruncateRow(row: seq<real>, k: nat): (c: seq<real>)
    ensures |c| == |row| && ZeroOne(c)
    ensures forall j :: 0 <= j < |row| && c[j] == 1.0 ==> row[j] == 1.0
  {
    seq(|row|, j requires 0 <= j < |row| =>
      if row[j] == 1.0 && Sum(row[..j + 1]) <= k as real then 1.0 else 0.0)
  }

  /** The raw contiguity weights C: every row of the adjacency truncated to
      its first k neighbours in index order. */
  function ContiguityWeights(a: Matrix, k: nat): (c: Matrix)
    requires IsSquare(a, |a|)
    ensures IsSquare(c, |a|)
    ensures forall i :: 0 <= i < |a| ==> ZeroOne(c[i])
  {
    seq(|a|, i requires 0 <= i < |a| => TruncateRow(a[i], k))
  }

  /** The number of 1s in a row. */
  function CountOnes(row: seq<real>): nat
    decreases |row|
  {
    if |row| == 0 then 0
    else CountOnes(row[..|row| - 1]) + (if row[|row| - 1] == 1.0 then 1 else 0)
  }

  /** On a 0/1 row, np.cumsum counts the 1s. */
  lemma {:induction false} SumCountsOnes(row: seq<real>)
    requires ZeroOne(row)
    ensures Sum(row) == CountOnes(row) as real
    decreases |row|
  {
    if |row| > 0 {
      var init := row[..|row| - 1];
      assert ZeroOne(init) by {
        forall j | 0 <= j < |init| ensures init[j] == 0.0 || init[j] == 1.0 { assert init[j] == row[j]; }
      }
      SumCountsOnes(init);
    }
  }

  lemma TruncateAt(row: seq<real>, k: nat, j: nat)
    requires ZeroOne(row) && j < |row|
    ensures TruncateRow(row, k)[j] == if row[j] == 1.0 && CountOnes(row[..j + 1]) <= k then 1.0 else 0.0
    ensures CountOnes(row[..j + 1]) == CountOnes(row[..j]) + (if row[j] == 1.0 then 1 else 0)
  {
    var p := row[..j + 1];
    assert p[..j] == row[..j];
    assert ZeroOne(p) by {
      forall t | 0 <= t < |p| ensures p[t] == 0.0 || p[t] == 1.0 { assert p[t] == row[t]; }
    }
    SumCountsOnes(p);
  }

  /** Running counts: among the first j entries the truncated row keeps
      min(k, number of 1s of the adjacency row so far). */
  lemma {:induction false} TruncatePrefixCount(row: seq<real>, k: nat, j: nat)
    requires ZeroOne(row) && j <= |row|
    ensures Sum(TruncateRow(row, k)[..j]) == Min(k, CountOnes(row[..j])) as real
    decreases j
  {
    var c := TruncateRow(row, k);
    if j == 0 {
      assert c[..0] == [] && row[..0] == [];
    } else {
      TruncatePrefixCount(row, k, j - 1);
      SumPrefixStep(c, j - 1);
      TruncateAt(row, k, j - 1);
    }
  }

  /** Row cap of the contiguity weights: row i keeps min(k, deg i) neighbours,
      so never more than k, and all of them when there are at most k. */
  lemma ContiguityRowCount(a: Matrix, k: nat, i: nat)
    requires IsSquare(a, |a|) && i < |a| && ZeroOne(a[i])
    ensures ZeroOne(ContiguityWeights(a, k)[i])
    ensures Sum(ContiguityWeights(a, k)[i]) == Min(k, CountOnes(a[i])) as real
    ensures Sum(ContiguityWeights(a, k)[i]) <= k as real
  {
    var c := ContiguityWeights(a, k)[i];
    TruncatePrefixCount(a[i], k, |a[i]|);
    assert c[..|c|] == c && a[i][..|a[i]|] == a[i];
    forall j | 0 <= j < |c| ensures c[j] == 0.0 || c[j] == 1.0 { TruncateAt(a[i], k, j); }
  }

  /** The contiguity weights are a sub-table of the adjacency: a weight of 1
      only stands where the adjacency has a 1, so the zero diagonal carries
      over, and the kept neighbours are the lowest-indexed ones: a neighbour
      is dropped only once k earlier neighbours have been kept. */
  lemma ContiguityKeepsFirstNeighbours(a: Matrix, k: nat, i: nat, j: nat)
    requires IsSquare(a, |a|) && i < |a| && j < |a| && ZeroOne(a[i])
    ensures ContiguityWeights(a, k)[i][j] <= a[i][j]
    ensures ZeroDiagonal(a) ==> ContiguityWeights(a, k)[i][i] == 0.0
    ensures a[i][j] == 1.0 && ContiguityWeights(a, k)[i][j] == 0.0 ==>
              Sum(ContiguityWeights(a, k)[i][..j]) == k as real
    ensures forall j' :: 0 <= j' < j && a[i][j'] == 1.0 && ContiguityWeights(a, k)[i][j] == 1.0 ==>
              ContiguityWeights(a, k)[i][j'] == 1.0
  {
    var row := a[i];
    var c := ContiguityWeights(a, k)[i];
    TruncatePrefixCount(row, k, j);
    TruncateAt(row, k, j);
    TruncateAt(row, k, i);
    forall j' | 0 <= j' < j && row[j'] == 1.0 && c[j] == 1.0 ensures c[j'] == 1.0 {
      TruncateAt(row, k, j');
      OnesPrefixMonotone(row, j' + 1, j + 1);
    }
  }

  /** Running counts of 1s never decrease. */
  lemma {:induction false} OnesPrefixMonotone(row: seq<real>, p: nat, q: nat)
    requires p <= q <= |row|
    ensures CountOnes(row[..p]) <= CountOnes(row[..q])
    decreases q - p
  {
    if p < q {
      OnesPrefixMonotone(row, p, q - 1);
      assert row[..q][..q - 1] == row[..q - 1];
    }
  }

  // ---------------------------------------------------------------------
  // k nearest neighbours (DistanceMoransI, IDWMoransI)
  // ---------------------------------------------------------------------

  /** `order` is a valid row of np.argsort(row): it lists every index once and
      visits the values in ascending order; ties may come in any order. */
  predicate IsArgsort(row: seq<real>, order: seq<nat>)
  {
    IsPermutation(order, |row|) && Sorted(Gather(row, order))
  }

  /** One row of `mindists`: np.take_along_axis(D, argsort(D)[:, 0:k+1]), the
      values at the first k+1 positions of the argsort (fewer when the row is
      shorter, as slicing clamps). */
  function NearestValues(row: seq<real>, order: seq<nat>, k: nat): (v: seq<real>)
    requires IsArgsort(row, order)
    ensures |v| == Min(k + 1, |row|)
    ensures forall t :: 0 <= t < |v| ==> v[t] in row
  {
    Gather(row, order[..Min(k + 1, |row|)])
  }

  /** The k-th smallest entry (counting from 0, so the diagonal 0 is the 0-th)
      of a row, clamped to the largest entry for short rows. */
  function KthSmallest(row: seq<real>, k: nat): real
    requires |row| > 0
  {
    Sort(row)[Min(k + 1, |row|) - 1]
  }

  /** The weight of a selected neighbour: 1 in Distance mode and 1/D^p in
      Inverse Distance mode. */
  datatype Scheme = Unweighted | InverseDistance(power: nat)

  function Pow(d: real, p: nat): (r: real)
    ensures d > 0.0 ==> r > 0.0
  {
    if p == 0 then 1.0 else d * Pow(d, p - 1)
  }

  function EdgeWeight(d: real, scheme: Scheme): (w: real)
    requires d > 0.0
    ensures w > 0.0
  {
    match scheme
    case Unweighted => 1.0
    case InverseDistance(p) => 1.0 / Pow(d, p)
  }

  /** Row i of `np.where((D > 0) & np.isin(D, pool), w, 0)`: position j is
      weighted when its distance is positive and occurs in `pool`. */
  function SelectRow(row: seq<real>, pool: seq<real>, scheme: Scheme): (c: seq<real>)
    ensures |c| == |row|
    ensures forall j :: 0 <= j < |row| ==>
      c[j] >= 0.0 && (c[j] != 0.0 ==> row[j] > 0.0 && row[j] in pool)
  {
    seq(|row|, j requires 0 <= j < |row| =>
      if row[j] > 0.0 && row[j] in pool then EdgeWeight(row[j], scheme) else 0.0)
  }

  predicate AreArgsorts(d: Matrix, orders: seq<seq<nat>>)
  {
    |orders| == |d| && forall i :: 0 <= i < |d| ==> IsArgsort(d[i], orders[i])
  }

  /** self.mindists = np.take_along_axis(D, argsort(D)[:, 0:k+1], 1): the
      nearest values of every row. */
  function MinDists(d: Matrix, k: nat, orders: seq<seq<nat>>): (m: Matrix)
    requires IsSquare(d, |d|) && AreArgsorts(d, orders)
    ensures |m| == |d|
    ensures forall r :: 0 <= r < |d| ==> |m[r]| == Min(k + 1, |d|)
  {
    seq(|d|, r requires 0 <= r < |d| => NearestValues(d[r], orders[r], k))
  }

  /** The entries of every row, row after row: np.isin(a, b) looks its
      elements up in b flattened. */
  function Flatten(m: Matrix): (v: seq<real>)
    ensures forall x :: x in v <==> exists r :: 0 <= r < |m| && x in m[r]
    decreases |m|
  {
    if |m| == 0 then []
    else
      var init := m[..|m| - 1];
      assert forall r :: 0 <= r < |init| ==> init[r] == m[r];
      Flatten(init) + m[|m| - 1]
  }

  /** The raw weights C that lines 546 (Distance mode, scheme Unweighted) and
      578 (Inverse Distance mode, scheme InverseDistance(p)) compute: every
      distance is looked up among the nearest values of all rows together. */
  function IsinWeights(d: Matrix, k: nat, orders: seq<seq<nat>>, scheme: Scheme): (c: Matrix)
    requires IsSquare(d, |d|) && AreArgsorts(d, orders)
    ensures IsSquare(c, |d|) && NonNegative(c)
  {
    var pool := Flatten(MinDists(d, k, orders));
    seq(|d|, i requires 0 <= i < |d| => SelectRow(d[i], pool, scheme))
  }

  /** The row-wise k-nearest table: each distance is looked up among the
      nearest values of its own row only. */
  function KNearestRow(row: seq<real>, order: seq<nat>, k: nat, scheme: Scheme): (c: seq<real>)
    requires IsArgsort(row, order)
    ensures |c| == |row|
  {
    SelectRow(row, NearestValues(row, order, k), scheme)
  }

  function KNearestWeights(d: Matrix, k: nat, orders: seq<seq<nat>>, scheme: Scheme): (c: Matrix)
    requires IsSquare(d, |d|) && AreArgsorts(d, orders)
    ensures IsSquare(c, |d|) && NonNegative(c)
  {
    seq(|d|, i requires 0 <= i < |d| => KNearestRow(d[i], orders[i], k, scheme))
  }

  /** Whatever order np.argsort gives to ties, the values it visits are the
      sorted row. */
  lemma ArgsortValues(row: seq<real>, order: seq<nat>)
    requires IsArgsort(row, order)
    ensures Gather(row, order) == Sort(row)
  {
    GatherPermutation(row, order);
    SortedUnique(Gather(row, order), Sort(row));
  }

  /** x is within the k nearest values of a row: it occurs in the row and does
      not exceed the k-th smallest entry. */
  predicate Near(row: seq<real>, k: nat, x: real)
  {
    |row| > 0 && x in row && x <= KthSmallest(row, k)
  }

  /** A value is among the row's `mindists` exactly when it is near in that
      sense, whatever order the argsort gave to ties. */
  lemma NearestValuesMembers(row: seq<real>, order: seq<nat>, k: nat, x: real)
    requires IsArgsort(row, order)
    ensures x in NearestValues(row, order, k) <==> Near(row, k, x)
  {
    var m := Min(k + 1, |row|);
    ArgsortValues(row, order);
    var s := Sort(row);
    assert NearestValues(row, order, k) == s[..m];
    assert x in row <==> x in s by {
      assert x in row <==> x in multiset(row);
      assert x in s <==> x in multiset(s);
    }
    if x in s {
      SortedPrefixMembership(s, m, x);
    }
  }

  /** k-nearest selection on one row: a distance of the row is among its
      `mindists` exactly when it does not exceed the k-th smallest distance
      of the row. */
  lemma NearestMembership(row: seq<real>, order: seq<nat>, k: nat, j: nat)
    requires IsArgsort(row, order) && j < |row|
    ensures row[j] in NearestValues(row, order, k) <==> row[j] <= KthSmallest(row, k)
  {
    NearestValuesMembers(row, order, k, row[j]);
  }

  /** The value x is near in some row of D: it is one of the k+1 nearest
      values of that row. */
  predicate InPool(d: Matrix, k: nat, x: real)
  {
    exists r :: 0 <= r < |d| && Near(d[r], k, x)
  }

  /** The flattened `mindists` holds exactly the values near in some row. */
  lemma PoolMembers(d: Matrix, k: nat, orders: seq<seq<nat>>, x: real)
    requires IsSquare(d, |d|) && AreArgsorts(d, orders)
    ensures x in Flatten(MinDists(d, k, orders)) <==> InPool(d, k, x)
  {
    var m := MinDists(d, k, orders);
    forall r | 0 <= r < |d| ensures x in m[r] <==> Near(d[r], k, x) {
      NearestValuesMembers(d[r], orders[r], k, x);
    }
  }

  /** The table of lines 546 and 578 in closed form: C[i][j] is the scheme's
      weight of D[i][j] when D[i][j] is positive and near in some row of D,
      and 0 otherwise. So it does not depend on how the argsort broke ties,
      it keeps the zero diagonal of D, and its entries are non-negative. */
  lemma IsinSelection(d: Matrix, k: nat, orders: seq<seq<nat>>, scheme: Scheme)
    requires IsSquare(d, |d|) && AreArgsorts(d, orders)
    ensures forall i, j :: 0 <= i < |d| && 0 <= j < |d| ==>
      IsinWeights(d, k, orders, scheme)[i][j] ==
        if 0.0 < d[i][j] && InPool(d, k, d[i][j]) then EdgeWeight(d[i][j], scheme) else 0.0
    ensures ZeroDiagonal(d) ==> ZeroDiagonal(IsinWeights(d, k, orders, scheme))
  {
    forall i, j | 0 <= i < |d| && 0 <= j < |d|
      ensures IsinWeights(d, k, orders, scheme)[i][j] ==
        if 0.0 < d[i][j] && InPool(d, k, d[i][j]) then EdgeWeight(d[i][j], scheme) else 0.0
    {
      PoolMembers(d, k, orders, d[i][j]);
    }
  }

  /** The row-wise table in closed form: C[i][j] is the scheme's weight of
      D[i][j] when 0 < D[i][j] <= the k-th smallest entry of row i, and 0
      otherwise, with the zero diagonal of D kept. */
  lemma KNearestSelection(d: Matrix, k: nat, orders: seq<seq<nat>>, scheme: Scheme)
    requires IsSquare(d, |d|) && AreArgsorts(d, orders)
    ensures forall i, j :: 0 <= i < |d| && 0 <= j < |d| ==>
      KNearestWeights(d, k, orders, scheme)[i][j] ==
        if 0.0 < d[i][j] <= KthSmallest(d[i], k) then EdgeWeight(d[i][j], scheme) else 0.0
    ensures ZeroDiagonal(d) ==> ZeroDiagonal(KNearestWeights(d, k, orders, scheme))
  {
    forall i, j | 0 <= i < |d| && 0 <= j < |d|
      ensures KNearestWeights(d, k, orders, scheme)[i][j] ==
        if 0.0 < d[i][j] <= KthSmallest(d[i], k) then EdgeWeight(d[i][j], scheme) else 0.0
    {
      NearestMembership(d[i], orders[i], k, j);
    }
  }

  /** Every neighbour of the row-wise table is a neighbour of the pooled one,
      with the same weight: the pooled table only adds neighbours. */
  lemma RowWiseWithinIsin(d: Matrix, k: nat, orders: seq<seq<nat>>, scheme: Scheme)
    requires IsSquare(d, |d|) && AreArgsorts(d, orders)
    ensures forall i, j :: 0 <= i < |d| && 0 <= j < |d| ==>
      KNearestWeights(d, k, orders, scheme)[i][j] <= IsinWeights(d, k, orders, scheme)[i][j]
    ensures forall i, j :: 0 <= i < |d| && 0 <= j < |d| && KNearestWeights(d, k, orders, scheme)[i][j] != 0.0 ==>
      IsinWeights(d, k, orders, scheme)[i][j] == KNearestWeights(d, k, orders, scheme)[i][j]
  {
    var c := KNearestWeights(d, k, orders, scheme);
    var p := IsinWeights(d, k, orders, scheme);
    IsinSelection(d, k, orders, scheme);
    KNearestSelection(d, k, orders, scheme);
    forall i, j | 0 <= i < |d| && 0 <= j < |d| ensures c[i][j] <= p[i][j] && (c[i][j] != 0.0 ==> p[i][j] == c[i][j]) {
      if 0.0 < d[i][j] <= KthSmallest(d[i], k) {
        assert d[i][j] in d[i];
        assert Near(d[i], k, d[i][j]);
      }
    }
  }

  /** Tie independence: two valid argsorts of the same distances give the
      same weight table. */
  lemma KNearestTieIndependent(d: Matrix, k: nat, o1: seq<seq<nat>>, o2: seq<seq<nat>>, scheme: Scheme)
    requires IsSquare(d, |d|) && AreArgsorts(d, o1) && AreArgsorts(d, o2)
    ensures IsinWeights(d, k, o1, scheme) == IsinWeights(d, k, o2, scheme)
  {
    IsinSelection(d, k, o1, scheme);
    IsinSelection(d, k, o2, scheme);
    var c1 := IsinWeights(d, k, o1, scheme);
    var c2 := IsinWeights(d, k, o2, scheme);
    forall i | 0 <= i < |d| ensures c1[i] == c2[i] {
      assert forall j :: 0 <= j < |d| ==> c1[i][j] == c2[i][j];
    }
  }

  /** Inverse distance with power 0 is Distance mode. */
  lemma InversePowerZeroIsBinary(d: Matrix, k: nat, orders: seq<seq<nat>>)
    requires IsSquare(d, |d|) && AreArgsorts(d, orders)
    ensures IsinWeights(d, k, orders, InverseDistance(0)) == IsinWeights(d, k, orders, Unweighted)
  {
    var pool := Flatten(MinDists(d, k, orders));
    forall i | 0 <= i < |d|
      ensures IsinWeights(d, k, orders, InverseDistance(0))[i] == IsinWeights(d, k, orders, Unweighted)[i]
    {
      PowerZeroRow(d[i], pool);
    }
  }

  /** d^0 is 1, so a row selected with power 0 is the binary row. */
  lemma PowerZeroRow(row: seq<real>, pool: seq<real>)
    ensures SelectRow(row, pool, InverseDistance(0)) == SelectRow(row, pool, Unweighted)
  {
    var a := SelectRow(row, pool, InverseDistance(0));
    var b := SelectRow(row, pool, Unweighted);
    forall j | 0 <= j < |row| ensures a[j] == b[j] {
      if row[j] > 0.0 && row[j] in pool {
        assert Pow(row[j], 0) == 1.0;
      }
    }
  }

  /** Every entry of a row is at most its k-th smallest entry once k reaches
      the last position. */
  lemma NearWhenKLarge(row: seq<real>, k: nat, j: nat)
    requires j < |row| && k + 1 >= |row|
    ensures Near(row, k, row[j])
  {
    var s := Sort(row);
    assert row[j] in multiset(row);
    assert row[j] in multiset(s);
    var t :| 0 <= t < |s| && s[t] == row[j];
    assert KthSmallest(row, k) == s[|s| - 1];
  }

  /** With k >= n-1 every position at a positive distance is selected. */
  lemma KNearestAllWhenKLarge(d: Matrix, k: nat, orders: seq<seq<nat>>, scheme: Scheme)
    requires IsSquare(d, |d|) && AreArgsorts(d, orders) && k + 1 >= |d|
    ensures forall i, j :: 0 <= i < |d| && 0 <= j < |d| ==>
      IsinWeights(d, k, orders, scheme)[i][j] ==
        if d[i][j] > 0.0 then EdgeWeight(d[i][j], scheme) else 0.0
  {
    IsinSelection(d, k, orders, scheme);
    forall i, j | 0 <= i < |d| && 0 <= j < |d| ensures InPool(d, k, d[i][j]) {
      NearWhenKLarge(d[i], k, j);
    }
  }

  /** A sorted vector with the multiset of a row is that row's Sort. */
  lemma SortedAs(row: seq<real>, s: seq<real>)
    requires Sorted(s) && multiset(row) == multiset(s)
    ensures Sort(row) == s
  {
    SortedUnique(Sort(row), s);
  }

  /** Entry 1 of the sorted arrangement. */
  lemma SecondSmallest(row: seq<real>, s: seq<real>)
    requires Sorted(s) && multiset(row) == multiset(s) && |s| >= 2
    ensures KthSmallest(row, 1) == s[1]
  {
    SortedAs(row, s);
  }

  lemma ThreeEntries(row: seq<real>)
    requires |row| == 3
    ensures multiset(row) == multiset{row[0], row[1], row[2]}
  {
    assert row == [row[0], row[1], row[2]];
    assert multiset([row[0], row[1], row[2]]) == multiset{row[0], row[1], row[2]};
  }

  lemma FourEntries(row: seq<real>)
    requires |row| == 4
    ensures multiset(row) == multiset{row[0], row[1], row[2], row[3]}
  {
    assert row == [row[0], row[1], row[2], row[3]];
    assert multiset([row[0], row[1], row[2], row[3]]) == multiset{row[0], row[1], row[2], row[3]};
  }

  lemma SortedThree(a: real, b: real, c: real)
    requires a <= b <= c
    ensures Sorted([a, b, c]) && multiset([a, b, c]) == multiset{a, b, c}
  {
  }

  lemma SortedFour(a: real, b: real, c: real, e: real)
    requires a <= b <= c <= e
    ensures Sorted([a, b, c, e]) && multiset([a, b, c, e]) == multiset{a, b, c, e}
  {
  }

  /** A row of three entries holding the values a <= b <= c has b as its
      entry 1 in sorted order. */
  lemma SortedRow3(row: seq<real>, a: real, b: real, c: real)
    requires |row| == 3 && a <= b <= c
    requires multiset{row[0], row[1], row[2]} == multiset{a, b, c}
    ensures KthSmallest(row, 1) == b
  {
    ThreeEntries(row);
    SortedThree(a, b, c);
    SecondSmallest(row, [a, b, c]);
  }

  /** A row of four entries holding the values a <= b <= c <= e has b as its
      entry 1 in sorted order. */
  lemma SortedRow4(row: seq<real>, a: real, b: real, c: real, e: real)
    requires |row| == 4 && a <= b <= c <= e
    requires multiset{row[0], row[1], row[2], row[3]} == multiset{a, b, c, e}
    ensures KthSmallest(row, 1) == b
  {
    FourEntries(row);
    SortedFour(a, b, c, e);
    SecondSmallest(row, [a, b, c, e]);
  }

  /** The distances of three points where point 0 is at distance 1 from both
      others, which are 2 apart. */
  predicate TiedLayout(d: Matrix)
  {
    && IsSquare(d, 3)
    && d[0][0] == 0.0 && d[0][1] == 1.0 && d[0][2] == 1.0
    && d[1][0] == 1.0 && d[1][1] == 0.0 && d[1][2] == 2.0
    && d[2][0] == 1.0 && d[2][1] == 2.0 && d[2][2] == 0.0
  }

  /** Tied distances give a row more than k neighbours: with k = 1, point 0
      gets both other points. */
  lemma TiedDistancesExceedK(d: Matrix, orders: seq<seq<nat>>)
    requires TiedLayout(d) && AreArgsorts(d, orders)
    ensures IsinWeights(d, 1, orders, Unweighted)[0] == [0.0, 1.0, 1.0]
  {
    TiedPool(d);
    IsinSelection(d, 1, orders, Unweighted);
    var c := IsinWeights(d, 1, orders, Unweighted)[0];
    AsThree(c, 0.0, 1.0, 1.0);
  }

  /** Distance 1.0 is among the two nearest values of row 0. */
  lemma TiedPool(d: Matrix)
    requires TiedLayout(d)
    ensures InPool(d, 1, 1.0)
  {
    SortedRow3(d[0], 0.0, 1.0, 1.0);
    assert d[0][1] in d[0];
    assert Near(d[0], 1, 1.0);
  }

  lemma AsThree(c: seq<real>, a: real, b: real, x: real)
    requires |c| == 3 && c[0] == a && c[1] == b && c[2] == x
    ensures c == [a, b, x]
  {
  }

  /** The centroid distances of four points on a line at 0, 1, 3 and 7. */
  predicate LineLayout(d: Matrix)
  {
    && IsSquare(d, 4)
    && d[0][0] == 0.0 && d[0][1] == 1.0 && d[0][2] == 3.0 && d[0][3] == 7.0
    && d[1][0] == 1.0 && d[1][1] == 0.0 && d[1][2] == 2.0 && d[1][3] == 6.0
    && d[2][0] == 3.0 && d[2][1] == 2.0 && d[2][2] == 0.0 && d[2][3] == 4.0
    && d[3][0] == 7.0 && d[3][1] == 6.0 && d[3][2] == 4.0 && d[3][3] == 0.0
  }

  /** The k-th smallest entry of each row of the line for k = 1. */
  lemma LineNearest(d: Matrix)
    requires LineLayout(d)
    ensures KthSmallest(d[0], 1) == 1.0 && KthSmallest(d[1], 1) == 1.0
    ensures KthSmallest(d[2], 1) == 2.0 && KthSmallest(d[3], 1) == 4.0
  {
    SortedRow4(d[0], 0.0, 1.0, 3.0, 7.0);
    SortedRow4(d[1], 0.0, 1.0, 2.0, 6.0);
    SortedRow4(d[2], 0.0, 2.0, 3.0, 4.0);
    SortedRow4(d[3], 0.0, 4.0, 6.0, 7.0);
  }

  /** No row of the line has 6.0 among its two nearest values. */
  lemma LineSixFar(d: Matrix)
    requires LineLayout(d)
    ensures !InPool(d, 1, 6.0)
  {
    LineNearest(d);
    Absent4(d[0], 6.0);
    Absent4(d[2], 6.0);
    forall r | 0 <= r < 4 ensures !Near(d[r], 1, 6.0) {
      if r == 0 {
      } else if r == 1 {
      } else if r == 2 {
      } else {
      }
    }
  }

  lemma Absent4(row: seq<real>, x: real)
    requires |row| == 4 && row[0] != x && row[1] != x && row[2] != x && row[3] != x
    ensures x !in row
  {
  }

  lemma AsFour(c: seq<real>, a: real, b: real, x: real, y: real)
    requires |c| == 4 && c[0] == a && c[1] == b && c[2] == x && c[3] == y
    ensures c == [a, b, x, y]
  {
  }

  /** The pooled lookup gives a row more than k neighbours even without ties:
      on the line with k = 1, point 1 (nearest neighbour point 0) is also
      weighted towards point 2, because 2.0 is the nearest distance of row 2. */
  lemma IsinExceedsK(d: Matrix, orders: seq<seq<nat>>)
    requires LineLayout(d) && AreArgsorts(d, orders)
    ensures IsinWeights(d, 1, orders, Unweighted)[1] == [1.0, 0.0, 1.0, 0.0]
  {
    LineNearest(d);
    LineSixFar(d);
    IsinSelection(d, 1, orders, Unweighted);
    assert d[1][0] in d[1] && d[2][1] in d[2];
    assert Near(d[1], 1, 1.0) && Near(d[2], 1, 2.0);
    var c := IsinWeights(d, 1, orders, Unweighted)[1];
    AsFour(c, 1.0, 0.0, 1.0, 0.0);
  }

  /** Looking each distance up in its own row, as intended, keeps one
      neighbour for point 1 on the same line. */
  lemma RowWiseKeepsK(d: Matrix, orders: seq<seq<nat>>)
    requires LineLayout(d) && AreArgsorts(d, orders)
    ensures KNearestWeights(d, 1, orders, Unweighted)[1] == [1.0, 0.0, 0.0, 0.0]
  {
    LineNearest(d);
    KNearestSelection(d, 1, orders, Unweighted);
    var c := KNearestWeights(d, 1, orders, Unweighted)[1];
    AsFour(c, 1.0, 0.0, 0.0, 0.0);
  }

  // ---------------------------------------------------------------------
  // Row normalisation (shared)
  // ---------------------------------------------------------------------

  /** The row sums R = C.sum(axis=1). */
  function RowSums(c: Matrix): (r: seq<real>)
    ensures |r| == |c|
    ensures forall i :: 0 <= i < |c| ==> r[i] == Sum(c[i])
  {
    seq(|c|, i requires 0 <= i < |c| => Sum(c[i]))
  }

  /** One row of W = C / R, where an entry divided by a zero row sum (inf or
      nan in floating point) becomes 0. */
  function NormalizeRow(c: seq<real>): (w: seq<real>)
    ensures |w| == |c|
    ensures forall j :: 0 <= j < |c| && c[j] == 0.0 ==> w[j] == 0.0
  {
    var r := Sum(c);
    seq(|c|, j requires 0 <= j < |c| => if r == 0.0 then 0.0 else c[j] / r)
  }

  function Normalize(c: Matrix): (w: Matrix)
    ensures |w| == |c|
    ensures forall i :: 0 <= i < |c| ==> |w[i]| == |c[i]|
  {
    seq(|c|, i requires 0 <= i < |c| => NormalizeRow(c[i]))
  }

  /** A normalised row sums to 1 when its raw sum is non-zero and to 0 when it
      has no weight at all. */
  lemma NormalizeRowSum(c: seq<real>)
    ensures Sum(NormalizeRow(c)) == if Sum(c) == 0.0 then 0.0 else 1.0
  {
    var r := Sum(c);
    var f := if r == 0.0 then 0.0 else 1.0 / r;
    NormalizeRowIsScale(c);
    SumScale(c, f);
  }

  /** Dividing by the row sum is scaling by its reciprocal. */
  lemma NormalizeRowIsScale(c: seq<real>)
    ensures NormalizeRow(c) == Scale(c, if Sum(c) == 0.0 then 0.0 else 1.0 / Sum(c))
  {
    var r := Sum(c);
    var f := if r == 0.0 then 0.0 else 1.0 / r;
    forall j | 0 <= j < |c| ensures NormalizeRow(c)[j] == Scale(c, f)[j] {
      if r != 0.0 { DivIsScale(c[j], r); }
    }
  }

  lemma DivIsScale(a: real, r: real)
    requires r != 0.0
    ensures a / r == a * (1.0 / r)
  {
  }

  /** Row normalisation keeps the shape, and every row of W sums to 1 or, for
      a row without neighbours, to 0. */
  lemma NormalizeRowSums(c: Matrix)
    requires IsSquare(c, |c|)
    ensures IsSquare(Normalize(c), |c|)
    ensures forall i :: 0 <= i < |c| ==>
      Sum(Normalize(c)[i]) == if RowSums(c)[i] == 0.0 then 0.0 else 1.0
  {
    forall i | 0 <= i < |c| ensures Sum(Normalize(c)[i]) == if RowSums(c)[i] == 0.0 then 0.0 else 1.0 {
      NormalizeRowSum(c[i]);
    }
  }

  /** W[i][j] * R[i] == C[i][j] on every row with weight; the other rows of W
      are zero. */
  lemma NormalizeRecovers(c: Matrix)
    requires IsSquare(c, |c|)
    ensures forall i, j :: 0 <= i < |c| && 0 <= j < |c| ==>
      if RowSums(c)[i] == 0.0 then Normalize(c)[i][j] == 0.0
      else Normalize(c)[i][j] * RowSums(c)[i] == c[i][j]
  {
    forall i, j | 0 <= i < |c| && 0 <= j < |c|
      ensures if RowSums(c)[i] == 0.0 then Normalize(c)[i][j] == 0.0
              else Normalize(c)[i][j] * RowSums(c)[i] == c[i][j]
    {
      NormalizeEntry(c, i, j);
    }
  }

  /** Non-negative weights stay non-negative, and a zero diagonal stays zero. */
  lemma NormalizeKeepsSignAndDiagonal(c: Matrix)
    requires IsSquare(c, |c|)
    ensures NonNegative(c) ==> NonNegative(Normalize(c))
    ensures ZeroDiagonal(c) ==> ZeroDiagonal(Normalize(c))
  {
    if NonNegative(c) {
      forall i, j | 0 <= i < |c| && 0 <= j < |c| ensures Normalize(c)[i][j] >= 0.0 {
        NormalizeEntry(c, i, j);
      }
    }
    if ZeroDiagonal(c) {
      forall i | 0 <= i < |c| ensures Normalize(c)[i][i] == 0.0 {
        NormalizeEntry(c, i, i);
      }
    }
  }

  /** One entry of W: 0 on a row without weight, otherwise C[i][j] / R[i],
      which gives back C[i][j] when multiplied by R[i]; it is non-negative
      when the row is, and 0 where C is. */
  lemma NormalizeEntry(c: Matrix, i: nat, j: nat)
    requires i < |c| && j < |c[i]|
    ensures var r := Sum(c[i]);
      && Normalize(c)[i][j] == (if r == 0.0 then 0.0 else c[i][j] / r)
      && (r != 0.0 ==> Normalize(c)[i][j] * r == c[i][j])
      && ((forall t :: 0 <= t < |c[i]| ==> c[i][t] >= 0.0) ==> Normalize(c)[i][j] >= 0.0)
      && (c[i][j] == 0.0 ==> Normalize(c)[i][j] == 0.0)
  {
    var r := Sum(c[i]);
    var v := Normalize(c)[i][j];
    assert v == NormalizeRow(c[i])[j];
    if r != 0.0 {
      assert v == c[i][j] / r;
      DivMul(c[i][j], r);
      if forall t :: 0 <= t < |c[i]| ==> c[i][t] >= 0.0 {
        SumNonNegative(c[i]);
        DivNonNegative(c[i][j], r);
      }
    }
  }

  lemma DivMul(a: real, r: real)
    requires r != 0.0
    ensures (a / r) * r == a
  {
  }

  lemma DivNonNegative(a: real, r: real)
    requires a >= 0.0 && r > 0.0
    ensures a / r >= 0.0
  {
  }

  /** A row whose non-negative raw weights sum to 0 has only zero entries, so
      each of its quotients was 0/0 (nan, mapped to 0) and none was an
      infinity: setting the row to 0 is exactly what the source's clean-up
      gives. */
  lemma ZeroRowOnlyNaN(c: seq<real>)
    requires forall j :: 0 <= j < |c| ==> c[j] >= 0.0
    requires Sum(c) == 0.0
    ensures forall j :: 0 <= j < |c| ==> c[j] == 0.0
  {
    SumNonNegative(c);
  }

  /** A row with a 1 everywhere except at its own position sums to n - 1. */
  lemma {:induction false} OffDiagonalOnesSum(n: nat, i: nat, p: nat)
    requires i < n && p <= n
    ensures Sum(seq(p, j requires 0 <= j < p => if j == i then 0.0 else 1.0))
         == if i < p then (p - 1) as real else p as real
    decreases p
  {
    if p > 0 {
      var s := seq(p, j requires 0 <= j < p => if j == i then 0.0 else 1.0);
      assert s[..p - 1] == seq(p - 1, j requires 0 <= j < p - 1 => if j == i then 0.0 else 1.0);
      OffDiagonalOnesSum(n, i, p - 1);
    }
  }

  /** Distance-band weights with k = n - 1 on distinct points: every other point
      is a neighbour and each row of W is uniform, 1/(n-1) off the diagonal. */
  lemma UniformWhenAllNeighbours(d: Matrix, orders: seq<seq<nat>>)
    requires IsSquare(d, |d|) && |d| >= 2 && AreArgsorts(d, orders)
    requires forall i, j :: 0 <= i < |d| && 0 <= j < |d| ==> (d[i][j] > 0.0 <==> i != j)
    ensures var w := Normalize(IsinWeights(d, |d| - 1, orders, Unweighted));
      forall i, j :: 0 <= i < |d| && 0 <= j < |d| ==>
        w[i][j] == if i == j then 0.0 else 1.0 / (|d| - 1) as real
  {
    var c := IsinWeights(d, |d| - 1, orders, Unweighted);
    KNearestAllWhenKLarge(d, |d| - 1, orders, Unweighted);
    UniformNormalize(c);
  }

  /** The table with zeros on the diagonal and ones elsewhere normalises to
      1/(n-1) off the diagonal. */
  lemma UniformNormalize(c: Matrix)
    requires IsSquare(c, |c|) && |c| >= 2
    requires forall i, j :: 0 <= i < |c| && 0 <= j < |c| ==> c[i][j] == if i == j then 0.0 else 1.0
    ensures forall i, j :: 0 <= i < |c| && 0 <= j < |c| ==>
      Normalize(c)[i][j] == if i == j then 0.0 else 1.0 / (|c| - 1) as real
  {
    var n := |c|;
    forall i, j | 0 <= i < n && 0 <= j < n
      ensures Normalize(c)[i][j] == if i == j then 0.0 else 1.0 / (n - 1) as real
    {
      OffDiagonalOnesSum(n, i, n);
      assert c[i] == seq(n, t requires 0 <= t < n => if t == i then 0.0 else 1.0);
      NormalizeEntry(c, i, j);
    }
  }
}
