/** The implicit-ALS evaluator (ials_evaluator.py): mapping the user and item ids of an
    interaction table to factor-matrix rows, dropping the rows that cannot be mapped, and
    scoring the surviving pairs by the mean dot product of their factors. */
module IalsEvaluator {
  import opened Wrappers
  import opened Table
  import opened Vectors

  const UserMapColumn: string := "user_map"
  const ItemMapColumn: string := "item_map"

  /** The parts of a trained recommender the evaluator reads: the id columns and the
      id-to-row dictionaries. */
  datatype Recommender = Recommender(
    userColumn: string,
    itemColumn: string,
    userIdToIndex: map<Cell, int>,
    itemIdToIndex: map<Cell, int>)

  /** `Series.map(dict)`: the row index of each id, NaN where the id is not in the dictionary. */
  function MapIds(ids: seq<Cell>, idToIndex: map<Cell, int>): (r: seq<Cell>)
    ensures |r| == |ids|
    ensures forall k :: 0 <= k < |ids| ==> (r[k] != Missing <==> ids[k] in idToIndex)
    ensures forall k :: 0 <= k < |ids| && ids[k] in idToIndex ==> r[k] == Int(idToIndex[ids[k]])
  {
    seq(|ids|, k requires 0 <= k < |ids| => if ids[k] in idToIndex then Int(idToIndex[ids[k]]) else Missing)
  }

  /** The names the two map assignments append to the column list, `user_map` before
      `item_map`: each map column the mapped table holds that the original did not. */
  function AddedMapColumns(before: Columns, after: Columns): seq<string>
  {
    (if UserMapColumn in after && UserMapColumn !in before then [UserMapColumn] else [])
      + (if ItemMapColumn in after && ItemMapColumn !in before then [ItemMapColumn] else [])
  }

  /** The appended names are exactly the new map columns, without repetition, and `user_map`
      comes first when both are new. */
  lemma {:induction false} AddedMapColumnsSpec(before: Columns, after: Columns)
    ensures var names := AddedMapColumns(before, after);
      && (forall n :: n in names <==> n in after && n !in before && (n == UserMapColumn || n == ItemMapColumn))
      && (forall a, b :: 0 <= a < b < |names| ==> names[a] == UserMapColumn && names[b] == ItemMapColumn)
  {
    MapColumnsDiffer();
  }

  /** Appending `user_map` when it is new appends the names AddedMapColumns gives. */
  lemma {:induction false} UserMapColumnAppended(columns0: seq<string>, columns1: seq<string>,
                                                 data0: Columns, withUsers: Columns)
    requires withUsers.Keys == data0.Keys + {UserMapColumn}
    requires columns1 == if UserMapColumn in data0 then columns0 else columns0 + [UserMapColumn]
    ensures columns1 == columns0 + AddedMapColumns(data0, withUsers)
  {
    MapColumnsDiffer();
  }

  /** Appending `user_map`, then `item_map`, each when new, appends the names
      AddedMapColumns gives. */
  lemma {:induction false} BothMapColumnsAppended(columns0: seq<string>, columns1: seq<string>, columns2: seq<string>,
                                                  data0: Columns, withUsers: Columns, final: Columns)
    requires withUsers.Keys == data0.Keys + {UserMapColumn}
    requires final.Keys == withUsers.Keys + {ItemMapColumn}
    requires columns1 == if UserMapColumn in data0 then columns0 else columns0 + [UserMapColumn]
    requires columns2 == if ItemMapColumn in withUsers then columns1 else columns1 + [ItemMapColumn]
    ensures columns2 == columns0 + AddedMapColumns(data0, final)
  {
    MapColumnsDiffer();
    var userAdded := if UserMapColumn in data0 then [] else [UserMapColumn];
    var itemAdded := if ItemMapColumn in data0 then [] else [ItemMapColumn];
    assert AddedMapColumns(data0, final) == userAdded + itemAdded;
    assert columns2 == (columns0 + userAdded) + itemAdded;
  }

  lemma {:induction false} MapColumnsDiffer()
    ensures UserMapColumn != ItemMapColumn
  {
    assert UserMapColumn[0] != ItemMapColumn[0];
  }

  /** The table after the two column assignments of `_map_id_to_index` and before `dropna`,
      with the KeyError raised by a missing id column; the user map is already added when the
      item column turns out to be missing. */
  function Mapped(data: Columns, rec: Recommender): (r: (Columns, Outcome<Error>))
    ensures r.1.Pass? <==> rec.userColumn in data && rec.itemColumn in data[UserMapColumn := []]
    ensures r.1.Fail? ==> r.1.error == KeyError(if rec.userColumn in data then rec.itemColumn else rec.userColumn)
    ensures r.1.Pass? ==> r.0.Keys == data.Keys + {UserMapColumn, ItemMapColumn}
  {
    if rec.userColumn !in data then (data, Fail(KeyError(rec.userColumn)))
    else
      var withUsers := data[UserMapColumn := MapIds(data[rec.userColumn], rec.userIdToIndex)];
      if rec.itemColumn !in withUsers then (withUsers, Fail(KeyError(rec.itemColumn)))
      else (withUsers[ItemMapColumn := MapIds(withUsers[rec.itemColumn], rec.itemIdToIndex)], Pass)
  }

  /** Mapped step by step, as the method that assigns the columns in place takes it. */
  lemma {:induction false} MappedSteps(data: Columns, rec: Recommender)
    ensures rec.userColumn !in data ==> Mapped(data, rec) == (data, Fail(KeyError(rec.userColumn)))
    ensures rec.userColumn in data ==>
      var withUsers := data[UserMapColumn := MapIds(data[rec.userColumn], rec.userIdToIndex)];
      && (rec.itemColumn !in withUsers ==> Mapped(data, rec) == (withUsers, Fail(KeyError(rec.itemColumn))))
      && (rec.itemColumn in withUsers ==>
            Mapped(data, rec) == (withUsers[ItemMapColumn := MapIds(withUsers[rec.itemColumn], rec.itemIdToIndex)], Pass))
  {
  }

  /** `.astype(int).to_list()` on a column that holds only integers. */
  function Indices(col: seq<Cell>): (r: seq<int>)
    requires forall k :: 0 <= k < |col| ==> col[k].Int?
    ensures |r| == |col| && forall k :: 0 <= k < |col| ==> Int(r[k]) == col[k]
  {
    seq(|col|, k requires 0 <= k < |col| => col[k].i)
  }

  /** After `dropna`, the two map columns hold only integers. */
  lemma {:induction false} MapColumnsAreInts(data: Columns, height: nat, rec: Recommender)
    requires forall c :: c in data ==> |data[c]| == height
    requires Mapped(data, rec).1.Pass?
    ensures var mapped := Mapped(data, rec).0;
      && (forall c :: c in mapped ==> |mapped[c]| == height)
      && var kept := DropMissing(mapped, height);
      && (forall k :: 0 <= k < |kept[UserMapColumn]| ==> kept[UserMapColumn][k].Int?)
      && (forall k :: 0 <= k < |kept[ItemMapColumn]| ==> kept[ItemMapColumn][k].Int?)
  {
    var mapped := Mapped(data, rec).0;
    var rows := CompleteRows(mapped, height);
    var kept: Columns := DropMissing(mapped, height);
    forall k | 0 <= k < |kept[UserMapColumn]| ensures kept[UserMapColumn][k].Int? {
      assert kept[UserMapColumn][k] == mapped[UserMapColumn][rows[k]];
      assert RowComplete(mapped, rows[k]);
    }
    forall k | 0 <= k < |kept[ItemMapColumn]| ensures kept[ItemMapColumn][k].Int? {
      assert kept[ItemMapColumn][k] == mapped[ItemMapColumn][rows[k]];
      assert RowComplete(mapped, rows[k]);
    }
  }

  /** A row survives exactly when its user id and its item id are both known and no other
      column has a missing value in it. */
  lemma {:induction false} SurvivingRow(data: Columns, height: nat, rec: Recommender, r: nat)
    requires forall c :: c in data ==> |data[c]| == height
    requires rec.userColumn in data && rec.itemColumn in data
    requires rec.itemColumn != UserMapColumn
    requires r < height
    ensures RowComplete(Mapped(data, rec).0, r) <==>
      && data[rec.userColumn][r] in rec.userIdToIndex
      && data[rec.itemColumn][r] in rec.itemIdToIndex
      && forall c :: c in data && c != UserMapColumn && c != ItemMapColumn ==> data[c][r] != Missing
  {
    var mapped := Mapped(data, rec).0;
    var withUsers := data[UserMapColumn := MapIds(data[rec.userColumn], rec.userIdToIndex)];
    assert mapped == withUsers[ItemMapColumn := MapIds(data[rec.itemColumn], rec.itemIdToIndex)];
    assert mapped[UserMapColumn][r] != Missing <==> data[rec.userColumn][r] in rec.userIdToIndex;
    assert mapped[ItemMapColumn][r] != Missing <==> data[rec.itemColumn][r] in rec.itemIdToIndex;
    if RowComplete(mapped, r) {
      forall c | c in data && c != UserMapColumn && c != ItemMapColumn ensures data[c][r] != Missing {
        assert mapped[c] == data[c];
      }
    }
  }

  /** The `k`-th entries of the two index lists come from the same surviving row, the `k`-th
      complete row of the mapped table in table order. */
  lemma {:induction false} IndicesFromSameRow(data: Columns, height: nat, rec: Recommender, k: nat)
    requires forall c :: c in data ==> |data[c]| == height
    requires Mapped(data, rec).1.Pass?
    requires rec.itemColumn != UserMapColumn
    requires k < |CompleteRows(Mapped(data, rec).0, height)|
    ensures var mapped := Mapped(data, rec).0;
      var row := CompleteRows(mapped, height)[k];
      && row < height
      && data[rec.userColumn][row] in rec.userIdToIndex
      && data[rec.itemColumn][row] in rec.itemIdToIndex
      && DropMissing(mapped, height)[UserMapColumn][k] == Int(rec.userIdToIndex[data[rec.userColumn][row]])
      && DropMissing(mapped, height)[ItemMapColumn][k] == Int(rec.itemIdToIndex[data[rec.itemColumn][row]])
  {
    var mapped := Mapped(data, rec).0;
    var rows := CompleteRows(mapped, height);
    var row := rows[k];
    SurvivingRow(data, height, rec, row);
    var withUsers := data[UserMapColumn := MapIds(data[rec.userColumn], rec.userIdToIndex)];
    assert mapped == withUsers[ItemMapColumn := MapIds(data[rec.itemColumn], rec.itemIdToIndex)];
  }

  /** `-n <= i < n`: a valid numpy row index into `n` rows. */
  predicate InRange(i: int, n: nat)
  {
    -(n as int) <= i < n
  }

  /** `matrix[i]`, counting from the end for a negative index. */
  function Row(matrix: seq<seq<real>>, i: int): seq<real>
    requires InRange(i, |matrix|)
  {
    if i < 0 then matrix[|matrix| + i] else matrix[i]
  }

  /** All rows of a 2-D factor array have the same width. */
  predicate Rectangular(matrix: seq<seq<real>>, width: nat)
  {
    forall k :: 0 <= k < |matrix| ==> |matrix[k]| == width
  }

  /** Two widths numpy can multiply element-wise: equal, or one of them 1 and broadcast. */
  predicate Broadcastable(a: nat, b: nat)
  {
    a == b || a == 1 || b == 1
  }

  /** `(u * w).sum()` for one row pair, with numpy's broadcasting of a width-1 row. */
  function Score(u: seq<real>, w: seq<real>): real
    requires Broadcastable(|u|, |w|)
  {
    if |u| == |w| then Dot(u, w)
    else if |u| == 1 then u[0] * Sum(w)
    else Sum(u) * w[0]
  }

  /** Row `k` of `(user_vectors * item_vectors).sum(axis=1)`. */
  function Scores(userFactors: seq<seq<real>>, itemFactors: seq<seq<real>>,
                  users: seq<int>, items: seq<int>): (s: seq<real>)
    requires |users| == |items|
    requires forall k :: 0 <= k < |users| ==> InRange(users[k], |userFactors|)
    requires forall k :: 0 <= k < |items| ==> InRange(items[k], |itemFactors|)
    requires forall k :: 0 <= k < |users| ==> Broadcastable(|Row(userFactors, users[k])|, |Row(itemFactors, items[k])|)
    ensures |s| == |users|
  {
    seq(|users|, k requires 0 <= k < |users| => Score(Row(userFactors, users[k]), Row(itemFactors, items[k])))
  }

  /** `evaluate` on the two index lists: the mean row score; IndexError for an index outside
      its factor matrix, ValueError for widths numpy cannot multiply, and NaN (`None`) for an
      empty evaluation set. */
  function MeanScore(userFactors: seq<seq<real>>, userWidth: nat, itemFactors: seq<seq<real>>,
                     itemWidth: nat, users: seq<int>, items: seq<int>): (r: Result<Option<real>, Error>)
    requires Rectangular(userFactors, userWidth) && Rectangular(itemFactors, itemWidth)
    requires |users| == |items|
    ensures r.Failure? && r.error == IndexError <==>
      (exists k :: 0 <= k < |users| && !InRange(users[k], |userFactors|))
      || (exists k :: 0 <= k < |items| && !InRange(items[k], |itemFactors|))
    ensures r.Failure? ==> r.error in {IndexError, ValueError}
    ensures r.Success? ==> Broadcastable(userWidth, itemWidth)
    ensures ((forall k :: 0 <= k < |users| ==> InRange(users[k], |userFactors|))
             && (forall k :: 0 <= k < |items| ==> InRange(items[k], |itemFactors|))) ==>
              (r.Success? <==> Broadcastable(userWidth, itemWidth))
    ensures r.Success? ==> (r.value.None? <==> |users| == 0)
  {
    if exists k :: 0 <= k < |users| && !InRange(users[k], |userFactors|) then Failure(IndexError)
    else if exists k :: 0 <= k < |items| && !InRange(items[k], |itemFactors|) then Failure(IndexError)
    else if !Broadcastable(userWidth, itemWidth) then Failure(ValueError)
    else if |users| == 0 then Success(None)
    else
      assert forall k :: 0 <= k < |users| ==> |Row(userFactors, users[k])| == userWidth;
      assert forall k :: 0 <= k < |items| ==> |Row(itemFactors, items[k])| == itemWidth;
      Success(Some(Mean(Scores(userFactors, itemFactors, users, items))))
  }

  /** With equal widths each row score is the plain dot product of the two factor rows. */
  lemma {:induction false} ScoreIsDot(userFactors: seq<seq<real>>, itemFactors: seq<seq<real>>, width: nat,
                   users: seq<int>, items: seq<int>, k: nat)
    requires Rectangular(userFactors, width) && Rectangular(itemFactors, width)
    requires |users| == |items| && k < |users|
    requires forall j :: 0 <= j < |users| ==> InRange(users[j], |userFactors|)
    requires forall j :: 0 <= j < |items| ==> InRange(items[j], |itemFactors|)
    ensures forall j :: 0 <= j < |users| ==> Broadcastable(|Row(userFactors, users[j])|, |Row(itemFactors, items[j])|)
    ensures Scores(userFactors, itemFactors, users, items)[k] ==
      Dot(Row(userFactors, users[k]), Row(itemFactors, items[k]))
  {
    assert forall j :: 0 <= j < |users| ==> |Row(userFactors, users[j])| == width;
    assert forall j :: 0 <= j < |items| ==> |Row(itemFactors, items[j])| == width;
  }

  /** The mean lies between the least and the greatest row score. */
  lemma {:induction false} MeanScoreBounds(userFactors: seq<seq<real>>, userWidth: nat, itemFactors: seq<seq<real>>,
                        itemWidth: nat, users: seq<int>, items: seq<int>, lo: real, hi: real)
    requires Rectangular(userFactors, userWidth) && Rectangular(itemFactors, itemWidth)
    requires |users| == |items|
    requires MeanScore(userFactors, userWidth, itemFactors, itemWidth, users, items).Success?
    requires |users| > 0
    requires forall k :: 0 <= k < |users| ==>
      && InRange(users[k], |userFactors|) && InRange(items[k], |itemFactors|)
      && Broadcastable(|Row(userFactors, users[k])|, |Row(itemFactors, items[k])|)
      && lo <= Score(Row(userFactors, users[k]), Row(itemFactors, items[k])) <= hi
    ensures var v := MeanScore(userFactors, userWidth, itemFactors, itemWidth, users, items).value;
      v.Some? && lo <= v.value <= hi
  {
    var s := Scores(userFactors, itemFactors, users, items);
    MeanBounds(s, lo, hi);
  }

  /** One surviving pair: the evaluation is that pair's score. */
  lemma {:induction false} SinglePair(userFactors: seq<seq<real>>, itemFactors: seq<seq<real>>, width: nat, u: int, i: int)
    requires Rectangular(userFactors, width) && Rectangular(itemFactors, width)
    requires InRange(u, |userFactors|) && InRange(i, |itemFactors|)
    ensures MeanScore(userFactors, width, itemFactors, width, [u], [i]) ==
      Success(Some(Dot(Row(userFactors, u), Row(itemFactors, i))))
  {
    var s := Scores(userFactors, itemFactors, [u], [i]);
    assert s == [Dot(Row(userFactors, u), Row(itemFactors, i))];
    assert Sum(s) == Sum([]) + s[0];
  }

  /** The evaluator: the interaction table it shares with its caller and the two index lists. */
  class ImplicitALSEvaluator {
    var dataset: Frame
    var recommender: Recommender
    var userIndices: seq<int>
    var itemIndices: seq<int>

    ghost predicate Valid()
      reads this, dataset
    {
      dataset.Valid() && |userIndices| == |itemIndices|
    }

    /** Keeps a reference to the caller's table; `_map_id_to_index` is the separate step below. */
    constructor (dataset: Frame, recommender: Recommender)
      requires dataset.Valid()
      ensures Valid()
      ensures this.dataset == dataset && this.recommender == recommender
      ensures userIndices == [] && itemIndices == []
    {
      this.dataset := dataset;
      this.recommender := recommender;
      userIndices := [];
      itemIndices := [];
    }

    /** `_map_id_to_index`: adds the two map columns to the shared table, drops every row with
        a missing value, and reads the index lists off the surviving rows. */
    method MapIdToIndex() returns (outcome: Outcome<Error>)
      requires Valid()
      modifies this, dataset
      ensures Valid()
      ensures dataset == old(dataset) && recommender == old(recommender)
      ensures outcome == Mapped(old(dataset.data), recommender).1
      ensures dataset.columns ==
        old(dataset.columns) + AddedMapColumns(old(dataset.data), Mapped(old(dataset.data), recommender).0)
      ensures outcome.Fail? ==>
        && dataset.data == Mapped(old(dataset.data), recommender).0
        && dataset.height == old(dataset.height)
        && userIndices == old(userIndices) && itemIndices == old(itemIndices)
      ensures outcome.Pass? ==>
        && dataset.data == DropMissing(Mapped(old(dataset.data), recommender).0, old(dataset.height))
        && dataset.height == |CompleteRows(Mapped(old(dataset.data), recommender).0, old(dataset.height))|
      ensures outcome.Pass? ==>
        && (forall k :: 0 <= k < |dataset.data[UserMapColumn]| ==> dataset.data[UserMapColumn][k].Int?)
        && (forall k :: 0 <= k < |dataset.data[ItemMapColumn]| ==> dataset.data[ItemMapColumn][k].Int?)
        && userIndices == Indices(dataset.data[UserMapColumn])
        && itemIndices == Indices(dataset.data[ItemMapColumn])
    {
      ghost var data0 := dataset.data;
      ghost var height0 := dataset.height;
      ghost var columns0 := dataset.columns;
      outcome := AddMapColumns();
      ghost var columns1 := dataset.columns;
      assert columns1 == columns0 + AddedMapColumns(data0, Mapped(data0, recommender).0);
      if outcome.Fail? {
        return;
      }
      dataset.DropNa();
      assert dataset.columns == columns1;
      MapColumnsAreInts(data0, height0, recommender);
      userIndices := Indices(dataset.data[UserMapColumn]);
      itemIndices := Indices(dataset.data[ItemMapColumn]);
    }

    /** The two column assignments of `_map_id_to_index`; a missing id column raises KeyError
        after the assignments before it. */
    method AddMapColumns() returns (outcome: Outcome<Error>)
      requires Valid()
      modifies dataset
      ensures Valid()
      ensures outcome == Mapped(old(dataset.data), recommender).1
      ensures dataset.data == Mapped(old(dataset.data), recommender).0
      ensures dataset.height == old(dataset.height)
      ensures dataset.columns == old(dataset.columns) + AddedMapColumns(old(dataset.data), dataset.data)
    {
      var rec := recommender;
      var frame := dataset;
      ghost var data0 := frame.data;
      ghost var columns0 := frame.columns;
      MappedSteps(data0, rec);
      if rec.userColumn !in frame.data {
        assert AddedMapColumns(data0, data0) == [];
        return Fail(KeyError(rec.userColumn));
      }
      var userMap := MapIds(frame.data[rec.userColumn], rec.userIdToIndex);
      frame.SetColumn(UserMapColumn, userMap);
      ghost var withUsers := frame.data;
      assert withUsers == data0[UserMapColumn := userMap];
      if rec.itemColumn !in frame.data {
        UserMapColumnAppended(columns0, frame.columns, data0, withUsers);
        return Fail(KeyError(rec.itemColumn));
      }
      var itemMap := MapIds(frame.data[rec.itemColumn], rec.itemIdToIndex);
      ghost var columns1 := frame.columns;
      frame.SetColumn(ItemMapColumn, itemMap);
      BothMapColumnsAppended(columns0, columns1, frame.columns, data0, withUsers, frame.data);
      outcome := Pass;
    }

    /** `evaluate` with the recommender's factor matrices: reads the state and changes nothing. */
    function Evaluate(userFactors: seq<seq<real>>, userWidth: nat, itemFactors: seq<seq<real>>,
                      itemWidth: nat): (r: Result<Option<real>, Error>)
      reads this
      requires |userIndices| == |itemIndices|
      requires Rectangular(userFactors, userWidth) && Rectangular(itemFactors, itemWidth)
      ensures r.Success? ==> (r.value.None? <==> userIndices == [])
      ensures r.Failure? ==> r.error in {IndexError, ValueError}
    {
      MeanScore(userFactors, userWidth, itemFactors, itemWidth, userIndices, itemIndices)
    }
  }
}
