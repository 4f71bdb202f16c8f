/** Weighted merges of interaction columns into one strength column (merge_with_strength.py). */
module MergeWithStrength {
  import opened Wrappers
  import opened Table
  import opened LabelEncoding
  import opened Vectors

  const NumericalStrengthColumn := "numerical_strength"
  const BoolStrengthColumn := "bool_strength"

  /** The keys of a strength mapping, in its iteration order. */
  function Keys(strengthDict: seq<(string, real)>): (ks: seq<string>)
    ensures |ks| == |strengthDict|
    ensures forall i :: 0 <= i < |ks| ==> ks[i] == strengthDict[i].0
  {
    seq(|strengthDict|, i requires 0 <= i < |strengthDict| => strengthDict[i].0)
  }

  /** The values of a strength mapping, in its iteration order. */
  function Weights(strengthDict: seq<(string, real)>): (ws: seq<real>)
    ensures |ws| == |strengthDict|
    ensures forall i :: 0 <= i < |ws| ==> ws[i] == strengthDict[i].1
  {
    seq(|strengthDict|, i requires 0 <= i < |strengthDict| => strengthDict[i].1)
  }

  /** The loop over `strength_dict.items()`: unzips the mapping into the selected column names
      and the matching strengths, pair by pair in iteration order. */
  method SplitStrengthDict(strengthDict: seq<(string, real)>)
    returns (selectedColumns: seq<string>, strengthList: seq<real>)
    ensures |selectedColumns| == |strengthList| == |strengthDict|
    ensures forall i :: 0 <= i < |strengthDict| ==> strengthDict[i] == (selectedColumns[i], strengthList[i])
  {
    selectedColumns, strengthList := [], [];
    for i := 0 to |strengthDict|
      invariant |selectedColumns| == |strengthList| == i
      invariant forall k :: 0 <= k < i ==> strengthDict[k] == (selectedColumns[k], strengthList[k])
    {
      var (key, value) := strengthDict[i];
      selectedColumns := selectedColumns + [key];
      strengthList := strengthList + [value];
    }
  }

  /** The first selected name that is not a column (pandas raises KeyError for it). */
  function FirstMissingColumn(data: Columns, cols: seq<string>): (r: Option<string>)
    ensures r.None? <==> forall i :: 0 <= i < |cols| ==> cols[i] in data
    ensures r.Some? ==> r.value in cols && r.value !in data
  {
    if cols == [] then None
    else if cols[0] !in data then Some(cols[0])
    else FirstMissingColumn(data, cols[1..])
  }

  /** Every entry of the mapping names a column whose cell in row `r` numpy can multiply. */
  predicate RowNumberOrNaN(data: Columns, strengthDict: seq<(string, real)>, r: nat)
  {
    forall i :: 0 <= i < |strengthDict| ==>
      strengthDict[i].0 in data && r < |data[strengthDict[i].0]| && NumberOrNaN(data[strengthDict[i].0][r])
  }

  /** `c * w` for a number or NaN cell; `None` stands for NaN. */
  function Scale(c: Cell, w: real): (p: Option<real>)
    requires NumberOrNaN(c)
    ensures p.None? <==> c.Missing?
  {
    if c.Missing? then None else Some(NumericValue(c) * w)
  }

  /** Float addition where NaN absorbs everything. */
  function AddNaN(a: Option<real>, b: Option<real>): (s: Option<real>)
    ensures s.None? <==> a.None? || b.None?
  {
    if a.None? || b.None? then None else Some(a.value + b.value)
  }

  /** Row `r` of `np.dot(frame[cols], strengths)`: the sum of every selected cell times its
      strength, NaN as soon as one selected cell is NaN. */
  function WeightedSum(data: Columns, strengthDict: seq<(string, real)>, r: nat): Option<real>
    requires RowNumberOrNaN(data, strengthDict, r)
  {
    if strengthDict == [] then Some(0.0)
    else
      var (c, w) := strengthDict[|strengthDict| - 1];
      AddNaN(WeightedSum(data, strengthDict[..|strengthDict| - 1], r), Scale(data[c][r], w))
  }

  function ToCell(p: Option<real>): Cell
  {
    if p.None? then Missing else Num(p.value)
  }

  /** The column merge_numerical_interactions_with_strength writes, or the exception it raises:
      KeyError for an absent selected column, TypeError for a selected cell that is not a number. */
  function NumericalStrengths(data: Columns, height: nat, strengthDict: seq<(string, real)>)
    : (res: Result<seq<Cell>, Error>)
    requires forall c :: c in data ==> |data[c]| == height
    ensures res.Success? ==> |res.value| == height
    ensures res.Success? <==>
      && (forall i :: 0 <= i < |strengthDict| ==> strengthDict[i].0 in data)
      && (forall r :: 0 <= r < height ==> RowNumberOrNaN(data, strengthDict, r))
    ensures res.Failure? && res.error.KeyError? <==> exists i :: 0 <= i < |strengthDict| && strengthDict[i].0 !in data
  {
    match FirstMissingColumn(data, Keys(strengthDict))
    case Some(c) => Failure(KeyError(c))
    case None =>
      if exists r :: 0 <= r < height && !RowNumberOrNaN(data, strengthDict, r) then Failure(TypeError)
      else Success(seq(height, r requires 0 <= r < height => ToCell(WeightedSum(data, strengthDict, r))))
  }

  /** merge_numerical_interactions_with_strength: writes (or overwrites) the column
      `numerical_strength`; on an exception the frame is left as it was. */
  method MergeNumericalInteractionsWithStrength(interactions: Frame, strengthDict: seq<(string, real)>)
    returns (outcome: Outcome<Error>)
    requires interactions.Valid()
    modifies interactions
    ensures interactions.Valid()
    ensures var res := NumericalStrengths(old(interactions.data), old(interactions.height), strengthDict);
      if res.Success? then
        && outcome == Pass
        && interactions.data == old(interactions.data)[NumericalStrengthColumn := res.value]
        && interactions.height == old(interactions.height)
        && interactions.columns == if NumericalStrengthColumn in old(interactions.data)
                                   then old(interactions.columns)
                                   else old(interactions.columns) + [NumericalStrengthColumn]
      else
        outcome == Fail(res.error) && unchanged(interactions)
  {
    var selectedColumns, strengthList := SplitStrengthDict(strengthDict);
    assert selectedColumns == Keys(strengthDict) && strengthList == Weights(strengthDict);
    var missing := FirstMissingColumn(interactions.data, selectedColumns);
    if missing.Some? {
      return Fail(KeyError(missing.value));
    }
    var res := NumericalStrengths(interactions.data, interactions.height, strengthDict);
    if res.Failure? {
      return Fail(res.error);
    }
    interactions.SetColumn(NumericalStrengthColumn, res.value);
    outcome := Pass;
  }

  /** The weighted sum splits over the mapping's entries. */
  lemma {:induction false} WeightedSumAppend(data: Columns, d1: seq<(string, real)>, d2: seq<(string, real)>, r: nat)
    requires RowNumberOrNaN(data, d1 + d2, r)
    ensures RowNumberOrNaN(data, d1, r) && RowNumberOrNaN(data, d2, r)
    ensures WeightedSum(data, d1 + d2, r) == AddNaN(WeightedSum(data, d1, r), WeightedSum(data, d2, r))
  {
    assert forall i :: 0 <= i < |d1| ==> d1[i] == (d1 + d2)[i];
    assert forall i :: 0 <= i < |d2| ==> d2[i] == (d1 + d2)[|d1| + i];
    if d2 == [] {
      assert d1 + d2 == d1;
    } else {
      var d2' := d2[..|d2| - 1];
      assert (d1 + d2)[..|d1 + d2| - 1] == d1 + d2';
      assert (d1 + d2)[|d1 + d2| - 1] == d2[|d2| - 1];
      WeightedSumAppend(data, d1, d2', r);
    }
  }

  /** Every entry of `d1 + d2` is an entry of `d2 + d1`, and the other way round. */
  lemma {:induction false} RotationEntries<T>(d1: seq<T>, d2: seq<T>)
    ensures forall i :: 0 <= i < |d1 + d2| ==> (d1 + d2)[i] == (d2 + d1)[if i < |d1| then |d2| + i else i - |d1|]
    ensures forall j :: 0 <= j < |d2 + d1| ==> (d2 + d1)[j] == (d1 + d2)[if j < |d2| then |d1| + j else j - |d2|]
  {
  }

  /** The order of the mapping's entries decides neither whether the merge succeeds nor the
      merged column. */
  lemma {:induction false} NumericalOrderFree(data: Columns, height: nat, d1: seq<(string, real)>, d2: seq<(string, real)>)
    requires forall c :: c in data ==> |data[c]| == height
    ensures NumericalStrengths(data, height, d1 + d2).Success? <==> NumericalStrengths(data, height, d2 + d1).Success?
    ensures NumericalStrengths(data, height, d1 + d2).Success? ==>
      NumericalStrengths(data, height, d1 + d2) == NumericalStrengths(data, height, d2 + d1)
  {
    forall r ensures RowNumberOrNaN(data, d1 + d2, r) <==> RowNumberOrNaN(data, d2 + d1, r) {
      RotatedRow(data, d1, d2, r);
    }
    RotatedKeys(data, d1, d2);
    var a, b := NumericalStrengths(data, height, d1 + d2), NumericalStrengths(data, height, d2 + d1);
    if a.Success? {
      forall r | 0 <= r < height ensures a.value[r] == b.value[r] {
        RotatedCell(data, height, d1, d2, r);
      }
      assert a.value == b.value;
    }
  }

  /** One row of the merged column, for the mapping and its two halves swapped. */
  lemma {:induction false} RotatedCell(data: Columns, height: nat, d1: seq<(string, real)>, d2: seq<(string, real)>, r: nat)
    requires forall c :: c in data ==> |data[c]| == height
    requires NumericalStrengths(data, height, d1 + d2).Success?
    requires NumericalStrengths(data, height, d2 + d1).Success?
    requires r < height
    ensures NumericalStrengths(data, height, d1 + d2).value[r] == NumericalStrengths(data, height, d2 + d1).value[r]
  {
    var a, b := NumericalStrengths(data, height, d1 + d2), NumericalStrengths(data, height, d2 + d1);
    assert FirstMissingColumn(data, Keys(d1 + d2)).None? && FirstMissingColumn(data, Keys(d2 + d1)).None?;
    RotatedSum(data, d1, d2, r);
    assert a.value[r] == ToCell(WeightedSum(data, d1 + d2, r));
  }

  lemma {:induction false} RotatedRow(data: Columns, d1: seq<(string, real)>, d2: seq<(string, real)>, r: nat)
    ensures RowNumberOrNaN(data, d1 + d2, r) <==> RowNumberOrNaN(data, d2 + d1, r)
  {
    RotationEntries(d1, d2);
  }

  lemma {:induction false} RotatedKeys(data: Columns, d1: seq<(string, real)>, d2: seq<(string, real)>)
    ensures (forall i :: 0 <= i < |d1 + d2| ==> (d1 + d2)[i].0 in data)
        <==> (forall i :: 0 <= i < |d2 + d1| ==> (d2 + d1)[i].0 in data)
  {
    RotationEntries(d1, d2);
  }

  /** Swapping the two halves of the mapping does not change a row's weighted sum. */
  lemma {:induction false} RotatedSum(data: Columns, d1: seq<(string, real)>, d2: seq<(string, real)>, r: nat)
    requires RowNumberOrNaN(data, d1 + d2, r)
    ensures RowNumberOrNaN(data, d2 + d1, r)
    ensures WeightedSum(data, d1 + d2, r) == WeightedSum(data, d2 + d1, r)
  {
    RotatedRow(data, d1, d2, r);
    WeightedSumAppend(data, d1, d2, r);
    WeightedSumAppend(data, d2, d1, r);
  }

  /** A row with a NaN in one of the selected columns gets NaN, and only such a row. */
  lemma {:induction false} NaNPropagates(data: Columns, strengthDict: seq<(string, real)>, r: nat)
    requires RowNumberOrNaN(data, strengthDict, r)
    ensures WeightedSum(data, strengthDict, r).None? <==>
      exists i :: 0 <= i < |strengthDict| && data[strengthDict[i].0][r].Missing?
  {
    if strengthDict != [] {
      var n := |strengthDict| - 1;
      NaNPropagates(data, strengthDict[..n], r);
      assert forall i :: 0 <= i < n ==> strengthDict[..n][i] == strengthDict[i];
    }
  }

  /** A column of numbers and NaNs merged alone at strength 1 comes back unchanged (as floats). */
  lemma {:induction false} SingleUnitColumn(data: Columns, height: nat, c: string, r: nat)
    requires forall c :: c in data ==> |data[c]| == height
    requires c in data && forall k :: 0 <= k < height ==> NumberOrNaN(data[c][k])
    requires r < height
    ensures NumericalStrengths(data, height, [(c, 1.0)]).Success?
    ensures data[c][r].Missing? ==> NumericalStrengths(data, height, [(c, 1.0)]).value[r] == Missing
    ensures data[c][r].Int? ==> NumericalStrengths(data, height, [(c, 1.0)]).value[r] == Num(data[c][r].i as real)
    ensures data[c][r].Num? ==> NumericalStrengths(data, height, [(c, 1.0)]).value[r] == data[c][r]
  {
    var d := [(c, 1.0)];
    var none: seq<(string, real)> := [];
    assert d[..0] == none;
    forall k | 0 <= k < height ensures RowNumberOrNaN(data, d, k) {
      assert NumberOrNaN(data[c][k]);
    }
    assert FirstMissingColumn(data, Keys(d)).None?;
    assert NumericalStrengths(data, height, d).value[r] == ToCell(WeightedSum(data, d, r));
    assert WeightedSum(data, d, r) == AddNaN(Some(0.0), Scale(data[c][r], 1.0));
  }

  /** The docstring's frame {A: [1, 2], B: [3, 4]} with strengths {A: 0.5, B: 1.5} gets [5.0, 7.0]. */
  lemma {:induction false} NumericalDocExample()
    ensures NumericalStrengths(map["A" := [Int(1), Int(2)], "B" := [Int(3), Int(4)]], 2,
                               [("A", 0.5), ("B", 1.5)]) == Success([Num(5.0), Num(7.0)])
  {
    var data := map["A" := [Int(1), Int(2)], "B" := [Int(3), Int(4)]];
    var d := [("A", 0.5), ("B", 1.5)];
    assert Keys(d) == ["A", "B"];
    assert FirstMissingColumn(data, Keys(d)).None?;
    assert RowNumberOrNaN(data, d, 0) && RowNumberOrNaN(data, d, 1);
    var none: seq<(string, real)> := [];
    assert d[..1] == [("A", 0.5)] && d[..1][..0] == none;
    assert WeightedSum(data, d[..1], 0) == Some(0.5);
    assert WeightedSum(data, d[..1], 1) == Some(1.0);
    assert WeightedSum(data, d, 0) == Some(5.0);
    assert WeightedSum(data, d, 1) == Some(7.0);
    var res := NumericalStrengths(data, 2, d);
    assert res.Success? && |res.value| == 2;
    assert res.value[0] == Num(5.0) && res.value[1] == Num(7.0);
    assert res.value == [Num(5.0), Num(7.0)];
  }

  // ---- boolean interactions ----

  /** The integer codes label_list_to_vector iterates over in a label cell: the elements of a
      tuple of integers, and none at all for the empty string. */
  function LabelCodes(c: Cell): (r: Option<seq<int>>)
    ensures r.Some? <==> c == Str("") || (c.Tuple? && forall k :: 0 <= k < |c.items| ==> c.items[k].IntField?)
    ensures r.Some? && c.Str? ==> r.value == []
    ensures r.Some? && c.Tuple? ==>
      |r.value| == |c.items| && forall k :: 0 <= k < |r.value| ==> c.items[k] == IntField(r.value[k])
  {
    if c == Str("") then Some([])
    else if c.Tuple? && forall k :: 0 <= k < |c.items| ==> c.items[k].IntField? then
      Some(seq(|c.items|, k requires 0 <= k < |c.items| && c.items[k].IntField? => c.items[k].i))
    else None
  }

  /** The vector label_list_to_vector returns for a label cell at width `fieldNum`, or None
      where it raises TypeError. A cell that is not iterable (an integer, a float, NaN) always
      fails. A string or tuple holding an element that is not an integer fails at `label >> i`,
      except at width 0, where the shift is never evaluated and the vector is empty. */
  function RowVector(c: Cell, fieldNum: nat): (r: Option<seq<nat>>)
    ensures r.Some? <==> LabelCodes(c).Some? || (fieldNum == 0 && (c.Str? || c.Tuple?))
    ensures r.Some? ==> |r.value| == fieldNum
    ensures LabelCodes(c).Some? ==> r == Some(LabelListSum(LabelCodes(c).value, fieldNum))
  {
    if LabelCodes(c).Some? then Some(LabelListSum(LabelCodes(c).value, fieldNum))
    else if fieldNum == 0 && (c.Str? || c.Tuple?) then Some([])
    else None
  }

  function ToReals(v: seq<nat>): (r: seq<real>)
    ensures |r| == |v| && forall j :: 0 <= j < |v| ==> r[j] == v[j] as real
  {
    seq(|v|, j requires 0 <= j < |v| => v[j] as real)
  }

  /** The strength of one row: its summed label vector, dotted with the strength vector. */
  function BoolStrength(codes: seq<int>, strengthVector: seq<real>): real
  {
    Dot(ToReals(LabelListSum(codes, |strengthVector|)), strengthVector)
  }

  /** The strength of a row that decodes: that of its codes, and 0.0 for a row of text
      against an empty strength vector. */
  function RowStrength(c: Cell, strengthVector: seq<real>): (s: real)
    requires RowVector(c, |strengthVector|).Some?
    ensures s == if LabelCodes(c).Some? then BoolStrength(LabelCodes(c).value, strengthVector) else 0.0
  {
    Dot(ToReals(RowVector(c, |strengthVector|).value), strengthVector)
  }

  /** The column merge_bool_interactions_with_strength writes, or the exception it raises:
      KeyError for an absent label column, TypeError for a row label_list_to_vector cannot
      decode, ValueError for a frame without rows (np.stack of an empty list). */
  function BoolStrengths(data: Columns, strengthVector: seq<real>, labelColumn: string)
    : (res: Result<seq<Cell>, Error>)
    ensures res.Success? <==>
      && labelColumn in data && data[labelColumn] != []
      && forall k :: 0 <= k < |data[labelColumn]| ==> RowVector(data[labelColumn][k], |strengthVector|).Some?
    ensures res.Success? ==> labelColumn in data && |res.value| == |data[labelColumn]| > 0
    ensures res.Success? ==> forall k :: 0 <= k < |res.value| ==>
      res.value[k] == Num(if LabelCodes(data[labelColumn][k]).Some?
                          then BoolStrength(LabelCodes(data[labelColumn][k]).value, strengthVector)
                          else 0.0)
    ensures res == Failure(KeyError(labelColumn)) <==> labelColumn !in data
    ensures res == Failure(ValueError) <==> labelColumn in data && data[labelColumn] == []
    ensures res == Failure(TypeError) <==>
      labelColumn in data &&
      exists k :: 0 <= k < |data[labelColumn]| && RowVector(data[labelColumn][k], |strengthVector|).None?
  {
    if labelColumn !in data then Failure(KeyError(labelColumn))
    else
      var labels := data[labelColumn];
      if exists k :: 0 <= k < |labels| && RowVector(labels[k], |strengthVector|).None? then Failure(TypeError)
      else if labels == [] then Failure(ValueError)
      else Success(seq(|labels|, k requires 0 <= k < |labels| => Num(RowStrength(labels[k], strengthVector))))
  }

  /** merge_bool_interactions_with_strength: decodes every row's label list with
      LabelListToVector, then writes (or overwrites) the column `bool_strength`; on an exception
      the frame is left as it was. */
  method MergeBoolInteractionsWithStrength(interactions: Frame, strengthVector: seq<real>, labelColumn: string)
    returns (outcome: Outcome<Error>)
    requires interactions.Valid()
    modifies interactions
    ensures interactions.Valid()
    ensures var res := BoolStrengths(old(interactions.data), strengthVector, labelColumn);
      if res.Success? then
        && outcome == Pass
        && interactions.data == old(interactions.data)[BoolStrengthColumn := res.value]
        && interactions.height == old(interactions.height)
        && interactions.columns == if BoolStrengthColumn in old(interactions.data)
                                   then old(interactions.columns)
                                   else old(interactions.columns) + [BoolStrengthColumn]
      else
        outcome == Fail(res.error) && unchanged(interactions)
  {
    if labelColumn !in interactions.data {
      return Fail(KeyError(labelColumn));
    }
    var vectors := LabelVectors(interactions.data[labelColumn], |strengthVector|);
    if vectors.Failure? {
      return Fail(vectors.error);
    }
    var strengthBlock := vectors.value;
    if strengthBlock == [] {
      return Fail(ValueError);
    }
    var column := seq(|strengthBlock|, k requires 0 <= k < |strengthBlock| => Num(Dot(ToReals(strengthBlock[k]), strengthVector)));
    assert BoolStrengths(interactions.data, strengthVector, labelColumn).Success?;
    assert column == BoolStrengths(interactions.data, strengthVector, labelColumn).value;
    interactions.SetColumn(BoolStrengthColumn, column);
    outcome := Pass;
  }

  /** The loop over the label column: each row decoded by LabelListToVector, or TypeError at
      the first row it cannot decode. */
  method LabelVectors(labels: seq<Cell>, fieldNum: nat) returns (res: Result<seq<seq<nat>>, Error>)
    ensures res.Failure? <==> exists k :: 0 <= k < |labels| && RowVector(labels[k], fieldNum).None?
    ensures res.Failure? ==> res.error == TypeError
    ensures res.Success? ==> |res.value| == |labels|
    ensures res.Success? ==> forall k :: 0 <= k < |labels| ==> res.value[k] == RowVector(labels[k], fieldNum).value
  {
    var strengthList: seq<seq<nat>> := [];
    for i := 0 to |labels|
      invariant |strengthList| == i
      invariant forall k :: 0 <= k < i ==> RowVector(labels[k], fieldNum).Some?
      invariant forall k :: 0 <= k < i ==> strengthList[k] == RowVector(labels[k], fieldNum).value
    {
      var codes := LabelCodes(labels[i]);
      var vec: seq<nat>;
      if codes.Some? {
        vec := LabelListToVector(codes.value, fieldNum);
      } else if fieldNum == 0 && (labels[i].Str? || labels[i].Tuple?) {
        vec := [];
      } else {
        return Failure(TypeError);
      }
      strengthList := strengthList + [vec];
    }
    return Success(strengthList);
  }

  /** A label list with no codes (the empty string, the empty tuple) weighs nothing. */
  lemma {:induction false} EmptyLabelWeighsZero(c: Cell, strengthVector: seq<real>)
    requires c == Str("") || c == Tuple([])
    ensures RowVector(c, |strengthVector|).Some?
    ensures RowStrength(c, strengthVector) == 0.0
  {
    var z := ToReals(LabelListSum([], |strengthVector|));
    DotZero(z, strengthVector);
  }

  /** Against an empty strength vector every string or tuple row decodes, whatever it holds,
      and the merged column is all zeros; other cells still raise TypeError. */
  lemma {:induction false} ZeroWidthBoolStrengths(data: Columns, labelColumn: string)
    requires labelColumn in data && data[labelColumn] != []
    ensures (forall k :: 0 <= k < |data[labelColumn]| ==> data[labelColumn][k].Str? || data[labelColumn][k].Tuple?)
      <==> BoolStrengths(data, [], labelColumn).Success?
    ensures BoolStrengths(data, [], labelColumn).Success? ==>
      forall k :: 0 <= k < |data[labelColumn]| ==> BoolStrengths(data, [], labelColumn).value[k] == Num(0.0)
  {
    var labels := data[labelColumn];
    var res := BoolStrengths(data, [], labelColumn);
    if res.Success? {
      forall k | 0 <= k < |labels| ensures res.value[k] == Num(0.0) {
        if LabelCodes(labels[k]).Some? {
          assert BoolStrength(LabelCodes(labels[k]).value, []) == 0.0;
        }
      }
    }
  }

  /** A row's strength is additive over its label list: the strengths of two lists of codes
      add up to the strength of their concatenation. */
  lemma {:induction false} BoolStrengthAdditive(a: seq<int>, b: seq<int>, strengthVector: seq<real>)
    ensures BoolStrength(a + b, strengthVector) == BoolStrength(a, strengthVector) + BoolStrength(b, strengthVector)
  {
    var n := |strengthVector|;
    var u, v := LabelListSum(a, n), LabelListSum(b, n);
    LabelListConcat(a, b, n);
    var s := ToReals(LabelListSum(a + b, n));
    forall j | 0 <= j < n ensures s[j] == ToReals(u)[j] + ToReals(v)[j] {
      assert LabelListSum(a + b, n)[j] == u[j] + v[j];
    }
    DotAdd(ToReals(u), ToReals(v), s, strengthVector);
  }

  /** One code contributes the strengths of the positions of its set bits: bit `i` counted
      from the right carries `strengthVector[n - 1 - i]`. */
  lemma {:induction false} BoolStrengthOfCode(code: int, strengthVector: seq<real>)
    ensures BoolStrength([code], strengthVector) == Dot(ToReals(LabelToVector(code, |strengthVector|)), strengthVector)
  {
    var n := |strengthVector|;
    assert [code][..0] == [];
    assert LabelListSum([code], n) == LabelToVector(code, n);
  }

  /** Bits above the width of the strength vector do not contribute. */
  lemma {:induction false} BoolStrengthHighBits(code: int, strengthVector: seq<real>)
    ensures BoolStrength([code], strengthVector) == BoolStrength([code % Pow2(|strengthVector|)], strengthVector)
  {
    BoolStrengthOfCode(code, strengthVector);
    BoolStrengthOfCode(code % Pow2(|strengthVector|), strengthVector);
    HighBitsIgnored(code, |strengthVector|);
  }

  lemma {:induction false} DotNonneg(u: seq<real>, w: seq<real>)
    requires |u| == |w|
    requires forall j :: 0 <= j < |u| ==> u[j] >= 0.0 && w[j] >= 0.0
    ensures Dot(u, w) >= 0.0
  {
    if u != [] {
      DotNonneg(u[..|u| - 1], w[..|w| - 1]);
    }
  }

  /** With non-negative strengths, adding labels to a row never lowers its strength. */
  lemma {:induction false} BoolStrengthMonotone(a: seq<int>, b: seq<int>, strengthVector: seq<real>)
    requires forall j :: 0 <= j < |strengthVector| ==> strengthVector[j] >= 0.0
    ensures BoolStrength(a, strengthVector) <= BoolStrength(a + b, strengthVector)
  {
    BoolStrengthAdditive(a, b, strengthVector);
    DotNonneg(ToReals(LabelListSum(b, |strengthVector|)), strengthVector);
  }

  /** The code 2 (bits [1, 0]) with strengths [1.0, 2.0] weighs 1.0. */
  lemma {:induction false} BoolDocExample()
    ensures BoolStrength([2], [1.0, 2.0]) == 1.0
  {
    BoolStrengthOfCode(2, [1.0, 2.0]);
    var v := LabelToVector(2, 2);
    assert Bit(2, 1) == 1 && Bit(2, 0) == 0;
    assert v == [1, 0];
    assert ToReals(v) == [1.0, 0.0];
    assert [1.0, 0.0][..1] == [1.0] && [1.0, 2.0][..1] == [1.0];
    assert [1.0][..0] == [];
  }
}
