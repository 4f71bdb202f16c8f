/** The pandas DataFrame the aggregators and the evaluator update in place: named columns
    of equal height, each a sequence of cells. */
module Table {

  /** An element of a tuple parsed from a text cell. */
  datatype Field = IntField(i: int) | StrField(s: string)

  /** A cell of a DataFrame; `Missing` is pandas' NaN placeholder for an absent value. */
  datatype Cell = Int(i: int) | Num(x: real) | Str(s: string) | Tuple(items: seq<Field>) | Missing

  type Columns = map<string, seq<Cell>>

  /** The value of a numeric cell; anything else has none. */
  function NumericValue(c: Cell): (r: real)
    requires c.Int? || c.Num?
  {
    if c.Int? then c.i as real else c.x
  }

  predicate IsNumeric(c: Cell) { c.Int? || c.Num? }

  /** A cell numpy arithmetic and pandas' quantile, min and max accept: a number, or a NaN
      that propagates through arithmetic and that the reductions skip. */
  predicate NumberOrNaN(c: Cell) { c.Int? || c.Num? || c.Missing? }

  /** Row `r` has a value in every column. */
  predicate RowComplete(data: Columns, r: nat)
  {
    forall c :: c in data && r < |data[c]| ==> data[c][r] != Missing
  }

  /** The complete rows among the first `k`, in increasing order. */
  function CompleteRows(data: Columns, k: nat): (rows: seq<nat>)
    ensures forall i :: 0 <= i < |rows| ==> rows[i] < k && RowComplete(data, rows[i])
    ensures forall i, j :: 0 <= i < j < |rows| ==> rows[i] < rows[j]
    ensures forall r :: 0 <= r < k && RowComplete(data, r) ==> r in rows
  {
    if k == 0 then []
    else CompleteRows(data, k - 1) + (if RowComplete(data, k - 1) then [k - 1] else [])
  }

  /** The cells of `col` at the given row positions, in that order. */
  function SelectRows(col: seq<Cell>, rows: seq<nat>): (r: seq<Cell>)
    requires forall i :: 0 <= i < |rows| ==> rows[i] < |col|
    ensures |r| == |rows| && forall i :: 0 <= i < |rows| ==> r[i] == col[rows[i]]
  {
    seq(|rows|, i requires 0 <= i < |rows| => col[rows[i]])
  }

  /** `dropna()`: keeps the complete rows of every column, in their order. */
  function DropMissing(data: Columns, height: nat): (r: Columns)
    requires forall c :: c in data ==> |data[c]| == height
    ensures r.Keys == data.Keys
  {
    var rows := CompleteRows(data, height);
    map c | c in data :: SelectRows(data[c], rows)
  }

  class Frame {
    var columns: seq<string>
    var data: Columns
    var height: nat

    /** Column names are distinct, name exactly the stored columns, and all columns have the
        frame's height. */
    ghost predicate Valid()
      reads this
    {
      && (forall i, j :: 0 <= i < j < |columns| ==> columns[i] != columns[j])
      && (forall c :: c in data <==> c in columns)
      && (forall c :: c in data ==> |data[c]| == height)
    }

    constructor (columns: seq<string>, data: Columns, height: nat)
      requires forall i, j :: 0 <= i < j < |columns| ==> columns[i] != columns[j]
      requires forall c :: c in data <==> c in columns
      requires forall c :: c in data ==> |data[c]| == height
      ensures Valid()
      ensures this.columns == columns && this.data == data && this.height == height
    {
      this.columns, this.data, this.height := columns, data, height;
    }

    /** `frame[name] = values`: overwrites an existing column in place, or appends a new one. */
    method SetColumn(name: string, values: seq<Cell>)
      requires Valid() && |values| == height
      modifies this
      ensures Valid()
      ensures data == old(data)[name := values] && height == old(height)
      ensures columns == if name in old(data) then old(columns) else old(columns) + [name]
    {
      if name !in data {
        columns := columns + [name];
      }
      data := data[name := values];
    }

    /** `dropna(inplace=True)`: removes every row that has a missing value in any column. */
    method DropNa()
      requires Valid()
      modifies this
      ensures Valid()
      ensures columns == old(columns)
      ensures height == |CompleteRows(old(data), old(height))|
      ensures data == DropMissing(old(data), old(height))
    {
      var rows := CompleteRows(data, height);
      data := DropMissing(data, height);
      height := |rows|;
    }
  }
}
