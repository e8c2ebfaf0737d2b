/** The outlier screen MainWindow.checkOutliers (MoransIapp.py): Tukey fences
    at 1.5 interquartile ranges around linear-interpolated quartiles, the
    list of flagged values (np.setdiff1d of the data and the data inside the
    fences) and the removal of the rows holding a flagged value. */
module Outliers {
  import opened Vectors
  import opened Sorting

  /** One row of the attribute table: the polygon (its geometry and every
      other column, which the screen carries along untouched) and the value
      of the selected attribute. */
  datatype Feature = Feature(polygon: nat, value: real)

  /** The selected column, polygons[feat]. */
  function Values(rows: seq<Feature>): (x: seq<real>)
    ensures |x| == |rows|
    ensures forall i :: 0 <= i < |rows| ==> x[i] == rows[i].value
  {
    seq(|rows|, i requires 0 <= i < |rows| => rows[i].value)
  }

  /** Boolean-mask indexing `x[mask]`: the entries that pass, in their order. */
  function Select<T(!new)>(x: seq<T>, keep: T -> bool): (r: seq<T>)
    ensures |r| <= |x|
    ensures forall v :: v in r <==> v in x && keep(v)
    decreases |x|
  {
    if |x| == 0 then []
    else
      assert x == [x[0]] + x[1..];
      (if keep(x[0]) then [x[0]] else []) + Select(x[1..], keep)
  }

  /** Masking distributes over concatenation, so the passing entries keep
      their original relative order. */
  lemma {:induction false} SelectConcat<T(!new)>(a: seq<T>, b: seq<T>, keep: T -> bool)
    ensures Select(a + b, keep) == Select(a, keep) + Select(b, keep)
    decreases |a|
  {
    if |a| > 0 {
      assert (a + b)[0] == a[0];
      assert (a + b)[1..] == a[1..] + b;
      SelectConcat(a[1..], b, keep);
    } else {
      assert a + b == b;
    }
  }

  /** Two masks that agree on every entry select the same entries. */
  lemma {:induction false} SelectAgree<T(!new)>(x: seq<T>, p: T -> bool, q: T -> bool)
    requires forall i :: 0 <= i < |x| ==> p(x[i]) == q(x[i])
    ensures Select(x, p) == Select(x, q)
    decreases |x|
  {
    if |x| > 0 {
      SelectAgree(x[1..], p, q);
    }
  }

  /** A row mask that decides every row by its value alone selects the rows
      whose column the matching value mask selects. */
  lemma {:induction false} ValuesSelect(rows: seq<Feature>, keepRow: Feature -> bool, keep: real -> bool)
    requires forall i :: 0 <= i < |rows| ==> keepRow(rows[i]) == keep(rows[i].value)
    ensures Values(Select(rows, keepRow)) == Select(Values(rows), keep)
    decreases |rows|
  {
    if |rows| > 0 {
      ValuesSelect(rows[1..], keepRow, keep);
      assert Values(rows)[1..] == Values(rows[1..]);
      var head := if keepRow(rows[0]) then [rows[0]] else [];
      assert Values(head + Select(rows[1..], keepRow)) == Values(head) + Values(Select(rows[1..], keepRow));
    }
  }

  /** The sample quantile of sorted data with linear interpolation (pandas
      Series.quantile and scipy.stats.iqr, both on numpy's default "linear"
      rule): the value at the fractional position (n-1)*q, interpolated
      between its two neighbouring order statistics. */
  function Quantile(s: seq<real>, q: real): (r: real)
    requires Sorted(s) && |s| > 0 && 0.0 <= q <= 1.0
    ensures s[0] <= r <= s[|s| - 1]
  {
    var h := Position(|s|, q);
    Interpolate(s, h.Floor, h - h.Floor as real)
  }

  /** The fractional index (n-1)*q of the q-quantile of n sorted values. */
  function Position(n: nat, q: real): (h: real)
    requires n > 0 && 0.0 <= q <= 1.0
    ensures 0.0 <= h <= (n - 1) as real
    ensures 0 <= h.Floor < n
  {
    var m := (n - 1) as real;
    MulMonotone(0.0, q, m);
    MulMonotone(q, 1.0, m);
    assert m * 0.0 == 0.0 && m * 1.0 == m;
    var h := m * q;
    FloorBounds(h, n - 1);
    h
  }

  lemma FloorBounds(h: real, m: nat)
    requires 0.0 <= h <= m as real
    ensures 0 <= h.Floor <= m
  {
    assert h.Floor as real <= h < h.Floor as real + 1.0;
  }

  /** The point a fraction t of the way from s[lo] to s[lo + 1]; at the last
      index there is no upper neighbour and the value is s[lo]. */
  function Interpolate(s: seq<real>, lo: nat, t: real): (r: real)
    requires Sorted(s) && lo < |s| && 0.0 <= t < 1.0
    ensures s[lo] <= r
    ensures r <= s[if lo + 1 < |s| then lo + 1 else lo]
  {
    if lo + 1 < |s| then
      Lerp(s[lo], s[lo + 1], t);
      s[lo] + t * (s[lo + 1] - s[lo])
    else s[lo]
  }

  lemma MulNonNegative(a: real, b: real)
    requires a >= 0.0 && b >= 0.0
    ensures a * b >= 0.0
  {
  }

  lemma MulMonotone(a: real, b: real, c: real)
    requires a <= b && c >= 0.0
    ensures a * c <= b * c && c * a <= c * b
  {
    MulNonNegative(b - a, c);
  }

  /** Linear interpolation between a <= b stays between them. */
  lemma Lerp(a: real, b: real, t: real)
    requires a <= b && 0.0 <= t <= 1.0
    ensures a <= a + t * (b - a) <= b
  {
    MulMonotone(0.0, t, b - a);
    MulMonotone(t, 1.0, b - a);
  }

  const LowerQuartile: real := 0.25
  const UpperQuartile: real := 0.75
  const Whisker: real := 1.5

  /** Q1, Q3 and the interquartile range of a non-empty column. */
  function Q1(x: seq<real>): (r: real)
    requires |x| > 0
    ensures Sort(x)[0] <= r <= Sort(x)[|x| - 1]
  {
    Quantile(Sort(x), LowerQuartile)
  }

  function Q3(x: seq<real>): (r: real)
    requires |x| > 0
    ensures Sort(x)[0] <= r <= Sort(x)[|x| - 1]
  {
    Quantile(Sort(x), UpperQuartile)
  }

  /** IQR = Q3 - Q1 (stats.iqr with its default linear interpolation). It is
      never negative, so the lower fence never lies above the upper one. */
  function IQR(x: seq<real>): (r: real)
    requires |x| > 0
    ensures r >= 0.0
    ensures Q1(x) - Whisker * r <= Q3(x) + Whisker * r
  {
    QuantileMonotone(Sort(x), LowerQuartile, UpperQuartile);
    Q3(x) - Q1(x)
  }

  /** A value is kept when it lies within Q1 - 1.5*IQR and Q3 + 1.5*IQR, the
      negation of the mask `(ft < lower) | (ft > upper)`. On an empty column
      every quantile is nan and every comparison with nan is false, so
      nothing is flagged. */
  predicate Inside(v: real, x: seq<real>)
    ensures |x| > 0 && Q1(x) <= v <= Q3(x) ==> Inside(v, x)
  {
    |x| == 0 || (Q1(x) - Whisker * IQR(x) <= v <= Q3(x) + Whisker * IQR(x))
  }

  /** self.data_clean: the observations inside the fences, in their order. */
  function CleanData(x: seq<real>): (r: seq<real>)
    ensures |r| <= |x|
    ensures forall v :: v in r <==> v in x && Inside(v, x)
  {
    Select(x, (v: real) => Inside(v, x))
  }

  /** np.setdiff1d(a, b): the sorted values of a that do not occur in b,
      each once. */
  function SetDiff(a: seq<real>, b: seq<real>): (r: seq<real>)
    ensures StrictlyIncreasing(r)
    ensures forall v :: v in r <==> v in a && v !in b
  {
    var rest := Select(a, (v: real) => v !in b);
    var sorted := Sort(rest);
    assert forall v :: v in sorted <==> v in rest by {
      forall v ensures v in sorted <==> v in rest {
        assert v in sorted <==> v in multiset(sorted);
        assert v in rest <==> v in multiset(rest);
      }
    }
    Dedup(sorted)
  }

  /** self.outlist: the flagged values, sorted and each once. */
  function OutlierList(x: seq<real>): (r: seq<real>)
    ensures StrictlyIncreasing(r)
    ensures forall v :: v in r <==> v in x && !Inside(v, x)
  {
    SetDiff(x, CleanData(x))
  }

  /** The rows that survive the removal, `polygons[~polygons[feat].isin(outlist)]`. */
  function Survivors(rows: seq<Feature>, outlist: seq<real>): (r: seq<Feature>)
    ensures |r| <= |rows|
    ensures forall f :: f in r <==> f in rows && f.value !in outlist
  {
    Select(rows, (f: Feature) => f.value !in outlist)
  }

  /** The quantile is monotone in q. */
  lemma QuantileMonotone(s: seq<real>, q: real, q': real)
    requires Sorted(s) && |s| > 0 && 0.0 <= q <= q' <= 1.0
    ensures Quantile(s, q) <= Quantile(s, q')
  {
    PositionMonotone(|s|, q, q');
    InterpolateMonotone(s, Position(|s|, q), Position(|s|, q'));
  }

  lemma PositionMonotone(n: nat, q: real, q': real)
    requires n > 0 && 0.0 <= q <= q' <= 1.0
    ensures Position(n, q) <= Position(n, q')
  {
    var m := (n - 1) as real;
    calc {
      Position(n, q);
      == m * q;
      <= { MulMonotone(q, q', m); }
      m * q';
      == Position(n, q');
    }
  }

  /** Interpolating a sorted vector at a later fractional position never
      gives a smaller value. */
  lemma InterpolateMonotone(s: seq<real>, h: real, h': real)
    requires Sorted(s) && 0.0 <= h <= h' <= (|s| - 1) as real
    ensures Interpolate(s, h.Floor, h - h.Floor as real) <= Interpolate(s, h'.Floor, h' - h'.Floor as real)
  {
    var lo, lo' := h.Floor, h'.Floor;
    var t, t' := h - lo as real, h' - lo' as real;
    if lo == lo' {
      if lo + 1 < |s| {
        var d := s[lo + 1] - s[lo];
        assert t <= t';
        calc {
          Interpolate(s, lo, t);
          == s[lo] + t * d;
          <= { MulMonotone(t, t', d); }
          s[lo] + t' * d;
          == Interpolate(s, lo', t');
        }
      }
    } else {
      assert lo + 1 <= lo' < |s|;
      assert Interpolate(s, lo, t) <= s[lo + 1];
      assert s[lo + 1] <= s[lo'];
    }
  }

  lemma OutlierListMembers(x: seq<real>, v: real)
    ensures StrictlyIncreasing(OutlierList(x))
    ensures v in OutlierList(x) <==> v in x && !Inside(v, x)
  {
  }

  /** Every quantile of a column of equal values is that value. */
  lemma QuantileConstant(s: seq<real>, q: real, c: real)
    requires Sorted(s) && |s| > 0 && 0.0 <= q <= 1.0
    requires forall j :: 0 <= j < |s| ==> s[j] == c
    ensures Quantile(s, q) == c
  {
  }

  /** A non-empty vector has its first entry among its members. */
  lemma FirstMember(r: seq<real>)
    ensures |r| > 0 ==> r[0] in r
  {
  }

  /** A strictly increasing vector repeats no value. */
  lemma FirstTwoDistinct(r: seq<real>)
    requires StrictlyIncreasing(r)
    ensures |r| > 1 ==> r[0] != r[1] && r[0] in r && r[1] in r
  {
  }

  /** A constant column never has outliers. */
  lemma ConstantHasNoOutliers(x: seq<real>)
    requires Constant(x)
    ensures OutlierList(x) == []
  {
    if |x| > 0 {
      var s := Sort(x);
      var c := x[0];
      forall j | 0 <= j < |s| ensures s[j] == c {
        assert s[j] in multiset(x);
      }
      QuantileConstant(s, LowerQuartile, c);
      QuantileConstant(s, UpperQuartile, c);
      assert IQR(x) == 0.0;
      forall v | v in x ensures Inside(v, x) {
      }
      var r := OutlierList(x);
      FirstMember(r);
      assert |r| == 0;
    }
  }

  /** Only a strictly increasing vector whose sole member is v is [v]. */
  lemma SingletonList(r: seq<real>, v: real)
    requires StrictlyIncreasing(r)
    requires forall u :: u in r <==> u == v
    ensures r == [v]
  {
    assert v in r;
    FirstTwoDistinct(r);
    assert |r| == 1;
  }

  /** A sorted vector is its own sorted arrangement. */
  lemma SortIdentity(s: seq<real>)
    requires Sorted(s)
    ensures Sort(s) == s
  {
    SortedUnique(Sort(s), s);
  }

  /** For five observations the quartile positions 4 * 0.25 and 4 * 0.75 fall
      exactly on the second and fourth order statistics, so no interpolation
      takes place, whatever order the column is in. */
  lemma FivePointQuartiles(x: seq<real>)
    requires |x| == 5
    ensures Q1(x) == Sort(x)[1] && Q3(x) == Sort(x)[3]
  {
    SortedFiveQuartiles(Sort(x));
  }

  lemma SortedFiveQuartiles(s: seq<real>)
    requires |s| == 5 && Sorted(s)
    ensures Quantile(s, LowerQuartile) == s[1] && Quantile(s, UpperQuartile) == s[3]
  {
    assert Position(5, LowerQuartile) == 1.0;
    assert Position(5, UpperQuartile) == 3.0;
  }

  /** The column [1, 2, 3, 4, 100], given entry by entry. */
  predicate FivePointColumn(x: seq<real>)
  {
    |x| == 5 && x[0] == 1.0 && x[1] == 2.0 && x[2] == 3.0 && x[3] == 4.0 && x[4] == 100.0
  }

  /** That column has Q1 = 2 and Q3 = 4, so IQR = 2 and its fences are -1
      and 7. */
  lemma FivePointFences(x: seq<real>)
    requires FivePointColumn(x)
    ensures Q1(x) == 2.0 && Q3(x) == 4.0
    ensures forall u :: Inside(u, x) <==> -1.0 <= u <= 7.0
  {
    assert Sorted(x);
    SortIdentity(x);
    SortedFiveQuartiles(x);
    assert Q1(x) == 2.0 && Q3(x) == 4.0;
    assert IQR(x) == 2.0;
  }

  /** Hence its outlier list is [100]. */
  lemma FivePointExample(x: seq<real>)
    requires FivePointColumn(x)
    ensures OutlierList(x) == [100.0]
  {
    FivePointFences(x);
    var r := OutlierList(x);
    forall u ensures u in r <==> u == 100.0 {
      OutlierListMembers(x, u);
      assert u in x <==> u == x[0] || u == x[1] || u == x[2] || u == x[3] || u == x[4];
    }
    OutlierListMembers(x, 0.0);
    SingletonList(r, 100.0);
  }

  /** A mask that passes every entry keeps the whole vector. */
  lemma {:induction false} SelectAll<T(!new)>(x: seq<T>, keep: T -> bool)
    requires forall i :: 0 <= i < |x| ==> keep(x[i])
    ensures Select(x, keep) == x
    decreases |x|
  {
    if |x| > 0 {
      var rest := x[1..];
      assert forall i :: 0 <= i < |rest| ==> rest[i] == x[i + 1];
      SelectAll(rest, keep);
      assert keep(x[0]);
      assert Select(x, keep) == [x[0]] + Select(rest, keep);
      assert x == [x[0]] + rest;
    }
  }

  /** When nothing is flagged the clean data is the whole column. */
  lemma NoOutliersAllClean(x: seq<real>)
    requires OutlierList(x) == []
    ensures CleanData(x) == x
  {
    forall i | 0 <= i < |x| ensures Inside(x[i], x) {
      OutlierListMembers(x, x[i]);
    }
    SelectAll(x, (v: real) => Inside(v, x));
  }

  /** Removing the rows whose value is in a list keeps the surviving rows in
      their original order: masking commutes with concatenation. */
  lemma SurvivorsProperties(rows: seq<Feature>, outlist: seq<real>, more: seq<Feature>)
    ensures Survivors(rows + more, outlist) == Survivors(rows, outlist) + Survivors(more, outlist)
  {
    SelectConcat(rows, more, (f: Feature) => f.value !in outlist);
  }

  /** Removing the flagged rows leaves, as the new column, exactly the clean
      data of the screen: ft after removal equals data_clean. */
  lemma RemovalLeavesCleanData(rows: seq<Feature>)
    ensures var x := Values(rows);
      Values(Survivors(rows, OutlierList(x))) == CleanData(x)
  {
    var x := Values(rows);
    var out := OutlierList(x);
    forall i | 0 <= i < |rows| ensures (rows[i].value !in out) == Inside(rows[i].value, x) {
      OutlierListMembers(x, x[i]);
    }
    ValuesSelect(rows, (f: Feature) => f.value !in out, (v: real) => Inside(v, x));
  }
}
