/** Percentile capping followed by min-max scaling of selected columns
    (normalize_with_percentile.py). */
module NormalizeWithPercentile {
  import opened Wrappers
  import opened Table
  import opened PyList

  /** The percentile used when the caller gives none. */
  const DefaultPercentile: real := 0.999

  /** The numbers of a column in row order, NaNs skipped. */
  function Numbers(col: seq<Cell>): (xs: seq<real>)
    ensures |xs| <= |col|
  {
    if col == [] then []
    else
      var c := col[|col| - 1];
      Numbers(col[..|col| - 1]) + if IsNumeric(c) then [NumericValue(c)] else []
  }

  lemma {:induction false} NumbersHas(col: seq<Cell>, k: nat)
    requires k < |col| && IsNumeric(col[k])
    ensures NumericValue(col[k]) in Numbers(col)
  {
    if k < |col| - 1 {
      NumbersHas(col[..|col| - 1], k);
    }
  }

  /** Every listed number comes from a numeric cell of the column. */
  lemma {:induction false} NumbersSource(col: seq<Cell>, i: nat) returns (k: nat)
    requires i < |Numbers(col)|
    ensures k < |col| && IsNumeric(col[k]) && NumericValue(col[k]) == Numbers(col)[i]
  {
    var init := col[..|col| - 1];
    if i < |Numbers(init)| {
      k := NumbersSource(init, i);
    } else {
      k := |col| - 1;
    }
  }

  lemma {:induction false} NumbersEmpty(col: seq<Cell>, k: nat)
    requires k < |col| && IsNumeric(col[k])
    ensures Numbers(col) != []
  {
    NumbersHas(col, k);
  }

  function Min(xs: seq<real>): (m: real)
    requires |xs| > 0
    ensures m in xs && forall i :: 0 <= i < |xs| ==> m <= xs[i]
  {
    if |xs| == 1 then xs[0]
    else
      var m := Min(xs[..|xs| - 1]);
      assert forall i :: 0 <= i < |xs| - 1 ==> xs[..|xs| - 1][i] == xs[i];
      if xs[|xs| - 1] < m then xs[|xs| - 1] else m
  }

  function Max(xs: seq<real>): (m: real)
    requires |xs| > 0
    ensures m in xs && forall i :: 0 <= i < |xs| ==> xs[i] <= m
  {
    if |xs| == 1 then xs[0]
    else
      var m := Max(xs[..|xs| - 1]);
      assert forall i :: 0 <= i < |xs| - 1 ==> xs[..|xs| - 1][i] == xs[i];
      if m < xs[|xs| - 1] then xs[|xs| - 1] else m
  }

  function Ascending(): (real, real) -> bool
  {
    (a: real, b: real) => a <= b
  }

  lemma {:induction false} ScaledBelow(a: real, p: real)
    requires a >= 0.0 && 0.0 <= p <= 1.0
    ensures 0.0 <= a * p <= a
  {
  }

  /** The point a fraction `t` of the way from `a` to `b`. */
  function Lerp(a: real, b: real, t: real): real
  {
    a + t * (b - a)
  }

  /** pandas' default quantile of an ascending list: linear interpolation between the two
      closest ranks around position `(n - 1) * p`. */
  function Quantile(sorted: seq<real>, p: real): real
    requires |sorted| > 0 && 0.0 <= p <= 1.0
  {
    var h := (|sorted| - 1) as real * p;
    ScaledBelow((|sorted| - 1) as real, p);
    var j := h.Floor;
    if j + 1 < |sorted| then Lerp(sorted[j], sorted[j + 1], h - j as real)
    else sorted[j]
  }

  /** `dataframe[col].quantile(p)`: ValueError for a percentile outside [0, 1], TypeError for a
      column holding text or tuples, NaN (`None`) for a column without numbers. */
  function ColumnQuantile(col: seq<Cell>, p: real): (q: Result<Option<real>, Error>)
    ensures q.Success? <==> 0.0 <= p <= 1.0 && forall k :: 0 <= k < |col| ==> NumberOrNaN(col[k])
    ensures q.Success? && q.value.None? <==> q.Success? && Numbers(col) == []
  {
    if !(0.0 <= p <= 1.0) then Failure(ValueError)
    else if exists k :: 0 <= k < |col| && !NumberOrNaN(col[k]) then Failure(TypeError)
    else if Numbers(col) == [] then Success(None)
    else Success(Some(Quantile(SortBy(Numbers(col), Ascending()), p)))
  }

  /** `min(x, q)`: Python keeps `x` unless `q` is strictly smaller. */
  function Cap(x: real, q: real): real
  {
    if q < x then q else x
  }

  /** `dataframe[col].apply(lambda x: min(x, q))`: NaN cells stay NaN, and a NaN cap leaves
      every cell as it is. */
  function CapColumn(col: seq<Cell>, q: Option<real>): (r: seq<Cell>)
    requires forall k :: 0 <= k < |col| ==> NumberOrNaN(col[k])
    ensures |r| == |col|
    ensures forall k :: 0 <= k < |r| ==> NumberOrNaN(r[k])
  {
    seq(|col|, k requires 0 <= k < |col| && NumberOrNaN(col[k]) =>
      if q.None? || col[k].Missing? || !(q.value < NumericValue(col[k])) then col[k] else Num(q.value))
  }

  /** `(col - col.min()) / (col.max() - col.min())`: NaN cells stay NaN, and a column whose
      numbers are all equal becomes all NaN (0 / 0). */
  function ScaleColumn(col: seq<Cell>): (r: seq<Cell>)
    requires forall k :: 0 <= k < |col| ==> NumberOrNaN(col[k])
    ensures |r| == |col|
  {
    var xs := Numbers(col);
    if xs == [] then col
    else
      var lo, hi := Min(xs), Max(xs);
      seq(|col|, k requires 0 <= k < |col| && NumberOrNaN(col[k]) =>
        if col[k].Missing? || hi == lo then Missing else Num(Rescale(NumericValue(col[k]), lo, hi)))
  }

  /** Min-max scaling of one value. */
  function Rescale(v: real, lo: real, hi: real): real
    requires lo != hi
  {
    (v - lo) / (hi - lo)
  }

  lemma {:induction false} RescaleProperties(v: real, w: real, lo: real, hi: real)
    requires lo < hi
    ensures lo <= v <= hi ==> 0.0 <= Rescale(v, lo, hi) <= 1.0
    ensures v <= w ==> Rescale(v, lo, hi) <= Rescale(w, lo, hi)
    ensures Rescale(lo, lo, hi) == 0.0 && Rescale(hi, lo, hi) == 1.0
  {
    var d := hi - lo;
    if v <= w {
      DivMonotone(v - lo, w - lo, d);
    }
    if lo <= v <= hi {
      DivMonotone(0.0, v - lo, d);
      DivMonotone(v - lo, d, d);
    }
    DivSelf(d);
  }

  /** The state the loop over `selected_columns` leaves and how it ends: the columns before
      a failing one stay normalized, the failing one and those after it stay as they were. */
  function NormalizeAll(data: Columns, cols: seq<string>, p: real): (r: (Columns, Outcome<Error>))
    ensures r.0.Keys == data.Keys
    ensures forall c :: c in data ==> |r.0[c]| == |data[c]|
  {
    if cols == [] then (data, Pass)
    else if cols[0] !in data then (data, Fail(KeyError(cols[0])))
    else
      var col := data[cols[0]];
      match ColumnQuantile(col, p)
      case Failure(e) => (data, Fail(e))
      case Success(q) => NormalizeAll(data[cols[0] := ScaleColumn(CapColumn(col, q))], cols[1..], p)
  }

  /** normalize_with_percentile_cap: caps and rescales each selected column in place, in the
      given order. */
  method NormalizeWithPercentileCap(dataframe: Frame, selectedColumns: seq<string>, percentile: real := DefaultPercentile)
    returns (outcome: Outcome<Error>)
    requires dataframe.Valid()
    modifies dataframe
    ensures dataframe.Valid()
    ensures (dataframe.data, outcome) == NormalizeAll(old(dataframe.data), selectedColumns, percentile)
    ensures dataframe.columns == old(dataframe.columns) && dataframe.height == old(dataframe.height)
  {
    var i := 0;
    while i < |selectedColumns|
      invariant 0 <= i <= |selectedColumns|
      invariant dataframe.Valid()
      invariant dataframe.columns == old(dataframe.columns) && dataframe.height == old(dataframe.height)
      invariant NormalizeAll(old(dataframe.data), selectedColumns, percentile)
             == NormalizeAll(dataframe.data, selectedColumns[i..], percentile)
    {
      var col := selectedColumns[i];
      assert selectedColumns[i..][1..] == selectedColumns[i + 1..];
      if col !in dataframe.data {
        return Fail(KeyError(col));
      }
      outcome := NormalizeColumn(dataframe, col, percentile);
      if outcome.Fail? {
        return;
      }
      i := i + 1;
    }
    outcome := Pass;
  }

  /** The body of the loop for one present column: its quantile, then the cap, then the
      rescaling, each written back into the frame. */
  method NormalizeColumn(dataframe: Frame, col: string, percentile: real) returns (outcome: Outcome<Error>)
    requires dataframe.Valid() && col in dataframe.data
    modifies dataframe
    ensures dataframe.Valid()
    ensures dataframe.columns == old(dataframe.columns) && dataframe.height == old(dataframe.height)
    ensures var q := ColumnQuantile(old(dataframe.data)[col], percentile);
      if q.Failure? then outcome == Fail(q.error) && dataframe.data == old(dataframe.data)
      else outcome == Pass && dataframe.data == old(dataframe.data)[col := ScaleColumn(CapColumn(old(dataframe.data)[col], q.value))]
  {
    var values := dataframe.data[col];
    var q := ColumnQuantile(values, percentile);
    if q.Failure? {
      return Fail(q.error);
    }
    var capped := CapColumn(values, q.value);
    dataframe.SetColumn(col, capped);
    dataframe.SetColumn(col, ScaleColumn(dataframe.data[col]));
    outcome := Pass;
  }

  // ---- the quantile ----

  /** Linear interpolation stays between its end points. */
  lemma {:induction false} LerpBounds(a: real, b: real, t: real)
    requires a <= b && 0.0 <= t <= 1.0
    ensures a <= Lerp(a, b, t) <= b
  {
    var d := b - a;
    var m := t * d;
    RealMulNonneg(t, d);
    RealMulNonneg(1.0 - t, d);
    assert d - m == (1.0 - t) * d;
    assert Lerp(a, b, t) == a + m;
  }

  lemma {:induction false} RealMulNonneg(x: real, y: real)
    requires 0.0 <= x && 0.0 <= y
    ensures 0.0 <= x * y
  {
  }

  /** The quantile of an ascending list lies between its first and last elements; the 0th and
      the 100th percentiles are exactly those elements. */
  lemma {:induction false} QuantileBounds(sorted: seq<real>, p: real)
    requires |sorted| > 0 && 0.0 <= p <= 1.0
    requires SortedBy(sorted, Ascending())
    ensures sorted[0] <= Quantile(sorted, p) <= sorted[|sorted| - 1]
    ensures p == 0.0 ==> Quantile(sorted, p) == sorted[0]
    ensures p == 1.0 ==> Quantile(sorted, p) == sorted[|sorted| - 1]
  {
    var n := |sorted|;
    var h := (n - 1) as real * p;
    ScaledBelow((n - 1) as real, p);
    var j := h.Floor;
    assert 0 <= j < n;
    if p == 0.0 {
      assert h == 0.0 && j == 0;
    }
    if p == 1.0 {
      assert h == (n - 1) as real && j == n - 1;
    }
    if j + 1 < n {
      var t := h - j as real;
      assert 0.0 <= t <= 1.0;
      assert Quantile(sorted, p) == Lerp(sorted[j], sorted[j + 1], t);
      InterpolationBetween(sorted, j, t);
    } else {
      assert Quantile(sorted, p) == sorted[j];
      assert Ascending()(sorted[0], sorted[j]) || j == 0;
    }
  }

  /** Interpolating between two neighbours of an ascending list stays between its first and
      last elements. */
  lemma {:induction false} InterpolationBetween(sorted: seq<real>, j: nat, t: real)
    requires j + 1 < |sorted| && 0.0 <= t <= 1.0
    requires SortedBy(sorted, Ascending())
    ensures sorted[0] <= Lerp(sorted[j], sorted[j + 1], t) <= sorted[|sorted| - 1]
  {
    var n := |sorted|;
    var a, b := sorted[j], sorted[j + 1];
    assert sorted[0] <= a by {
      assert Ascending()(sorted[0], sorted[j]) || j == 0;
    }
    assert a <= b by {
      assert Ascending()(sorted[j], sorted[j + 1]);
    }
    assert b <= sorted[n - 1] by {
      assert Ascending()(sorted[j + 1], sorted[n - 1]) || j + 1 == n - 1;
    }
    LerpBounds(a, b, t);
  }

  /** The quantile of a column lies between its smallest and largest number. */
  lemma {:induction false} ColumnQuantileBounds(col: seq<Cell>, p: real)
    requires ColumnQuantile(col, p).Success? && ColumnQuantile(col, p).value.Some?
    ensures Min(Numbers(col)) <= ColumnQuantile(col, p).value.value <= Max(Numbers(col))
    ensures p == 1.0 ==> ColumnQuantile(col, p).value.value == Max(Numbers(col))
  {
    var xs := Numbers(col);
    var sorted := SortBy(xs, Ascending());
    SortBySorted(xs, Ascending());
    QuantileBounds(sorted, p);
    var n := |sorted|;
    assert sorted[0] in multiset(xs) && sorted[n - 1] in multiset(xs);
    assert Max(xs) in multiset(sorted);
    var k :| 0 <= k < n && sorted[k] == Max(xs);
    assert Ascending()(sorted[k], sorted[n - 1]) || k == n - 1;
  }

  // ---- capping ----

  function CapAll(xs: seq<real>, q: real): (r: seq<real>)
    ensures |r| == |xs| && forall i :: 0 <= i < |xs| ==> r[i] == Cap(xs[i], q)
  {
    seq(|xs|, i requires 0 <= i < |xs| => Cap(xs[i], q))
  }

  /** The cap never raises a value, leaves values up to the cap as they were, keeps NaNs and
      brings every number down to at most the cap. */
  lemma {:induction false} CapLowersOnly(col: seq<Cell>, q: real, k: nat)
    requires forall k :: 0 <= k < |col| ==> NumberOrNaN(col[k])
    requires k < |col|
    ensures CapColumn(col, Some(q))[k].Missing? <==> col[k].Missing?
    ensures IsNumeric(col[k]) ==> IsNumeric(CapColumn(col, Some(q))[k])
    ensures IsNumeric(col[k]) ==>
      && NumericValue(CapColumn(col, Some(q))[k]) <= q
      && NumericValue(CapColumn(col, Some(q))[k]) <= NumericValue(col[k])
      && (NumericValue(col[k]) <= q ==> CapColumn(col, Some(q))[k] == col[k])
  {
  }

  /** Capping a column caps its numbers one by one and keeps their order. */
  lemma {:induction false} NumbersOfCapped(col: seq<Cell>, q: real)
    requires forall k :: 0 <= k < |col| ==> NumberOrNaN(col[k])
    ensures Numbers(CapColumn(col, Some(q))) == CapAll(Numbers(col), q)
  {
    if col != [] {
      var n := |col| - 1;
      assert CapColumn(col, Some(q))[..n] == CapColumn(col[..n], Some(q));
      NumbersOfCapped(col[..n], q);
    }
  }

  lemma {:induction false} MinUnique(xs: seq<real>, m: real)
    requires m in xs && forall i :: 0 <= i < |xs| ==> m <= xs[i]
    ensures Min(xs) == m
  {
    var i :| 0 <= i < |xs| && xs[i] == m;
  }

  lemma {:induction false} MaxUnique(xs: seq<real>, m: real)
    requires m in xs && forall i :: 0 <= i < |xs| ==> xs[i] <= m
    ensures Max(xs) == m
  {
    var i :| 0 <= i < |xs| && xs[i] == m;
  }

  /** After capping at a cap between the smallest and the largest number, the numbers range
      from the old smallest number up to the cap itself. */
  lemma {:induction false} CappedRange(xs: seq<real>, q: real)
    requires |xs| > 0 && Min(xs) <= q <= Max(xs)
    ensures Min(CapAll(xs, q)) == Min(xs)
    ensures Max(CapAll(xs, q)) == q
  {
    var ys := CapAll(xs, q);
    var lo :| 0 <= lo < |xs| && xs[lo] == Min(xs);
    var hi :| 0 <= hi < |xs| && xs[hi] == Max(xs);
    assert ys[lo] == Min(xs);
    assert ys[hi] == q;
    MinUnique(ys, Min(xs));
    MaxUnique(ys, q);
  }

  /** At the 100th percentile the cap changes nothing. */
  lemma {:induction false} FullPercentileKeepsColumn(col: seq<Cell>)
    requires ColumnQuantile(col, 1.0).Success?
    ensures CapColumn(col, ColumnQuantile(col, 1.0).value) == col
  {
    var q := ColumnQuantile(col, 1.0).value;
    if q.Some? {
      ColumnQuantileBounds(col, 1.0);
      forall k | 0 <= k < |col| && IsNumeric(col[k]) ensures !(q.value < NumericValue(col[k])) {
        NumbersHas(col, k);
      }
    }
  }

  // ---- scaling ----

  /** Every scaled cell is NaN or a number in [0, 1]. */
  lemma {:induction false} ScaledInUnitInterval(col: seq<Cell>, k: nat)
    requires forall k :: 0 <= k < |col| ==> NumberOrNaN(col[k])
    requires k < |col|
    ensures ScaleColumn(col)[k].Missing? || (ScaleColumn(col)[k].Num? && 0.0 <= ScaleColumn(col)[k].x <= 1.0)
  {
    var xs := Numbers(col);
    if IsNumeric(col[k]) {
      NumbersHas(col, k);
      var lo, hi, v := Min(xs), Max(xs), NumericValue(col[k]);
      if hi != lo {
        assert lo <= v <= hi;
        RescaleProperties(v, v, lo, hi);
      }
    }
  }

  /** A cell becomes NaN exactly when it was NaN or all the column's numbers are equal. */
  lemma {:induction false} ScaledNaN(col: seq<Cell>, k: nat)
    requires forall k :: 0 <= k < |col| ==> NumberOrNaN(col[k])
    requires k < |col|
    ensures ScaleColumn(col)[k].Missing? <==>
      col[k].Missing? || (Numbers(col) != [] && Min(Numbers(col)) == Max(Numbers(col)))
  {
    if IsNumeric(col[k]) {
      NumbersEmpty(col, k);
    }
  }

  /** Scaling keeps the order of the numbers, sends the smallest to 0 and the largest to 1. */
  lemma {:induction false} ScaledOrder(col: seq<Cell>, k1: nat, k2: nat)
    requires forall k :: 0 <= k < |col| ==> NumberOrNaN(col[k])
    requires k1 < |col| && k2 < |col| && IsNumeric(col[k1]) && IsNumeric(col[k2])
    requires Numbers(col) != [] && Min(Numbers(col)) < Max(Numbers(col))
    ensures NumericValue(col[k1]) <= NumericValue(col[k2]) ==> ScaleColumn(col)[k1].x <= ScaleColumn(col)[k2].x
    ensures NumericValue(col[k1]) == Min(Numbers(col)) ==> ScaleColumn(col)[k1] == Num(0.0)
    ensures NumericValue(col[k1]) == Max(Numbers(col)) ==> ScaleColumn(col)[k1] == Num(1.0)
  {
    var xs := Numbers(col);
    var lo, hi := Min(xs), Max(xs);
    var v1, v2 := NumericValue(col[k1]), NumericValue(col[k2]);
    assert ScaleColumn(col)[k1] == Num(Rescale(v1, lo, hi));
    assert ScaleColumn(col)[k2] == Num(Rescale(v2, lo, hi));
    RescaleProperties(v1, v2, lo, hi);
  }

  lemma {:induction false} DivMonotone(a: real, b: real, c: real)
    requires a <= b && c > 0.0
    ensures a / c <= b / c
  {
  }

  lemma {:induction false} DivSelf(c: real)
    requires c > 0.0
    ensures c / c == 1.0 && 0.0 / c == 0.0
  {
  }

  // ---- a whole column ----

  /** Capping at a value between the column's smallest and largest number keeps NaNs and
      numbers where they were and leaves numbers ranging from the smallest one up to the cap. */
  lemma {:induction false} CappedColumn(col: seq<Cell>, q: real)
    requires forall k :: 0 <= k < |col| ==> NumberOrNaN(col[k])
    requires Numbers(col) != [] && Min(Numbers(col)) <= q <= Max(Numbers(col))
    ensures forall k :: 0 <= k < |col| ==> NumberOrNaN(CapColumn(col, Some(q))[k])
    ensures Numbers(CapColumn(col, Some(q))) != []
    ensures Min(Numbers(CapColumn(col, Some(q)))) == Min(Numbers(col))
    ensures Max(Numbers(CapColumn(col, Some(q)))) == q
  {
    var capped, xs := CapColumn(col, Some(q)), Numbers(col);
    forall k | 0 <= k < |col| ensures NumberOrNaN(capped[k]) {
    }
    NumbersOfCapped(col, q);
    var ys := Numbers(capped);
    assert ys == CapAll(xs, q);
    CappedRange(xs, q);
    assert |ys| == |xs|;
  }

  /** One cell of a column capped between its smallest and largest number and then scaled. */
  lemma {:induction false} CappedScaledCell(col: seq<Cell>, q: real, k: nat)
    requires forall k :: 0 <= k < |col| ==> NumberOrNaN(col[k])
    requires Numbers(col) != [] && Min(Numbers(col)) < q <= Max(Numbers(col))
    requires k < |col| && IsNumeric(col[k])
    ensures ScaleColumn(CapColumn(col, Some(q)))[k].Num?
    ensures 0.0 <= ScaleColumn(CapColumn(col, Some(q)))[k].x <= 1.0
    ensures NumericValue(col[k]) >= q ==> ScaleColumn(CapColumn(col, Some(q)))[k] == Num(1.0)
    ensures NumericValue(col[k]) == Min(Numbers(col)) ==> ScaleColumn(CapColumn(col, Some(q)))[k] == Num(0.0)
  {
    var capped := CapColumn(col, Some(q));
    CappedColumn(col, q);
    assert IsNumeric(capped[k]) && NumericValue(capped[k]) == Cap(NumericValue(col[k]), q);
    ScaledInUnitInterval(capped, k);
    ScaledNaN(capped, k);
    ScaledOrder(capped, k, k);
  }

  /** The promise of normalize_with_percentile_cap for one column whose smallest number lies
      below the percentile value: every number lands in [0, 1], numbers at or above the
      percentile value become 1 and the smallest number becomes 0. */
  lemma {:induction false} NormalizedColumn(col: seq<Cell>, p: real, q: real, k: nat)
    requires ColumnQuantile(col, p) == Success(Some(q))
    requires Min(Numbers(col)) < q
    requires k < |col| && IsNumeric(col[k])
    ensures ScaleColumn(CapColumn(col, Some(q)))[k].Num?
    ensures 0.0 <= ScaleColumn(CapColumn(col, Some(q)))[k].x <= 1.0
    ensures NumericValue(col[k]) >= q ==> ScaleColumn(CapColumn(col, Some(q)))[k] == Num(1.0)
    ensures NumericValue(col[k]) == Min(Numbers(col)) ==> ScaleColumn(CapColumn(col, Some(q)))[k] == Num(0.0)
  {
    ColumnQuantileBounds(col, p);
    CappedScaledCell(col, q, k);
  }

  /** Normalizing a column keeps the order of its numbers. */
  lemma {:induction false} NormalizedMonotone(col: seq<Cell>, p: real, q: real, k1: nat, k2: nat)
    requires ColumnQuantile(col, p) == Success(Some(q))
    requires Min(Numbers(col)) < q
    requires k1 < |col| && k2 < |col| && IsNumeric(col[k1]) && IsNumeric(col[k2])
    requires NumericValue(col[k1]) <= NumericValue(col[k2])
    ensures ScaleColumn(CapColumn(col, Some(q)))[k1].Num? && ScaleColumn(CapColumn(col, Some(q)))[k2].Num?
    ensures ScaleColumn(CapColumn(col, Some(q)))[k1].x <= ScaleColumn(CapColumn(col, Some(q)))[k2].x
  {
    ColumnQuantileBounds(col, p);
    CappedMonotone(col, q, k1, k2);
  }

  lemma {:induction false} CappedMonotone(col: seq<Cell>, q: real, k1: nat, k2: nat)
    requires forall k :: 0 <= k < |col| ==> NumberOrNaN(col[k])
    requires Numbers(col) != [] && Min(Numbers(col)) < q <= Max(Numbers(col))
    requires k1 < |col| && k2 < |col| && IsNumeric(col[k1]) && IsNumeric(col[k2])
    requires NumericValue(col[k1]) <= NumericValue(col[k2])
    ensures ScaleColumn(CapColumn(col, Some(q)))[k1].Num? && ScaleColumn(CapColumn(col, Some(q)))[k2].Num?
    ensures ScaleColumn(CapColumn(col, Some(q)))[k1].x <= ScaleColumn(CapColumn(col, Some(q)))[k2].x
  {
    var capped := CapColumn(col, Some(q));
    CappedScaledCell(col, q, k1);
    CappedScaledCell(col, q, k2);
    CappedColumn(col, q);
    assert IsNumeric(capped[k1]) && NumericValue(capped[k1]) == Cap(NumericValue(col[k1]), q);
    assert IsNumeric(capped[k2]) && NumericValue(capped[k2]) == Cap(NumericValue(col[k2]), q);
    ScaledOrder(capped, k1, k2);
  }

  /** A percentile whose value is the smallest number leaves a constant column after capping:
      pandas then divides 0 by 0 and every cell becomes NaN. */
  lemma {:induction false} DegenerateCapGivesNaN(col: seq<Cell>, p: real, q: real, k: nat)
    requires ColumnQuantile(col, p) == Success(Some(q))
    requires q == Min(Numbers(col))
    requires k < |col|
    ensures ScaleColumn(CapColumn(col, Some(q)))[k] == Missing
  {
    ColumnQuantileBounds(col, p);
    CappedColumn(col, q);
    ScaledNaN(CapColumn(col, Some(q)), k);
  }

  // ---- the loop ----

  /** Columns that are not selected are left as they were. */
  lemma {:induction false} OtherColumnsUnchanged(data: Columns, cols: seq<string>, p: real, c: string)
    requires c in data && c !in cols
    ensures NormalizeAll(data, cols, p).0[c] == data[c]
  {
    if cols != [] && cols[0] in data && ColumnQuantile(data[cols[0]], p).Success? {
      var q := ColumnQuantile(data[cols[0]], p).value;
      OtherColumnsUnchanged(data[cols[0] := ScaleColumn(CapColumn(data[cols[0]], q))], cols[1..], p, c);
    }
  }

  /** When the loop runs to the end over distinct columns, each selected column holds its own
      capped and rescaled values, computed from the column as it was given. */
  lemma {:induction false} SelectedColumnsNormalized(data: Columns, cols: seq<string>, p: real, c: string)
    requires forall a, b :: 0 <= a < b < |cols| ==> cols[a] != cols[b]
    requires NormalizeAll(data, cols, p).1 == Pass
    requires c in cols
    ensures c in data && ColumnQuantile(data[c], p).Success?
    ensures NormalizeAll(data, cols, p).0[c] == ScaleColumn(CapColumn(data[c], ColumnQuantile(data[c], p).value))
  {
    var col := data[cols[0]];
    var q := ColumnQuantile(col, p).value;
    var data' := data[cols[0] := ScaleColumn(CapColumn(col, q))];
    assert NormalizeAll(data, cols, p) == NormalizeAll(data', cols[1..], p);
    if cols[0] == c {
      assert c !in cols[1..] by {
        forall k | 0 <= k < |cols| - 1 ensures cols[1..][k] != c {
          assert cols[1..][k] == cols[k + 1];
        }
      }
      OtherColumnsUnchanged(data', cols[1..], p, c);
    } else {
      assert c in cols[1..] by {
        var k :| 0 <= k < |cols| && cols[k] == c;
        assert cols[1..][k - 1] == c;
      }
      assert forall a, b :: 0 <= a < b < |cols| - 1 ==> cols[1..][a] != cols[1..][b] by {
        forall a, b | 0 <= a < b < |cols| - 1 ensures cols[1..][a] != cols[1..][b] {
          assert cols[1..][a] == cols[a + 1] && cols[1..][b] == cols[b + 1];
        }
      }
      SelectedColumnsNormalized(data', cols[1..], p, c);
      assert data'[c] == data[c];
    }
  }

  /** The loop stops at the first absent column with KeyError, whatever the percentile. */
  lemma {:induction false} AbsentColumnFails(data: Columns, cols: seq<string>, p: real, i: nat)
    requires i < |cols| && cols[i] !in data
    requires forall j :: 0 <= j < i ==> cols[j] in data
    requires 0.0 <= p <= 1.0
    requires forall c, k :: c in data && 0 <= k < |data[c]| ==> NumberOrNaN(data[c][k])
    ensures NormalizeAll(data, cols, p).1 == Fail(KeyError(cols[i]))
  {
    if i > 0 {
      var col := data[cols[0]];
      var q := ColumnQuantile(col, p);
      assert q.Success?;
      var data' := data[cols[0] := ScaleColumn(CapColumn(col, q.value))];
      assert forall c, k :: c in data' && 0 <= k < |data'[c]| ==> NumberOrNaN(data'[c][k]) by {
        forall c, k | c in data' && 0 <= k < |data'[c]| ensures NumberOrNaN(data'[c][k]) {
          if c == cols[0] {
            ScaledNaN(CapColumn(col, q.value), k);
          }
        }
      }
      AbsentColumnFails(data', cols[1..], p, i - 1);
    }
  }
}
