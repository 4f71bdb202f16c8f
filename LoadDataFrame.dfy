/** The text-to-tuple conversion and the column-name bookkeeping of DataFrameLoader
    (load_dataframe.py). */
module LoadDataFrame {
  import opened Wrappers
  import opened PyStr
  import opened Table

  /** The separator between the elements of a tuple stored as text. */
  const ElementSeparator: char := '\U{2}'

  function Abs(n: int): nat
  {
    if n < 0 then -n else n
  }

  /** One element of a stored tuple: `abs(int(e))` when `e.lstrip("-").isdigit()`, the text
      itself otherwise. */
  function ConvertElement(e: string): (r: Result<Field, Error>)
    ensures !IsDigits(LStrip(e, '-')) ==> r == Success(StrField(e))
    ensures r.Success? && r.value.IntField? ==> r.value.i >= 0
    ensures r.Failure? ==> r.error == ValueError
  {
    if IsDigits(LStrip(e, '-')) then
      var n :- ParseInt(e);
      Success(IntField(Abs(n)))
    else Success(StrField(e))
  }

  /** The generator over the split elements, stopping at the first element `int` rejects. */
  function ConvertElements(parts: seq<string>): (r: Result<seq<Field>, Error>)
    ensures r.Success? <==> forall i :: 0 <= i < |parts| ==> ConvertElement(parts[i]).Success?
    ensures r.Success? ==> |r.value| == |parts|
    ensures r.Success? ==> forall i :: 0 <= i < |parts| ==> r.value[i] == ConvertElement(parts[i]).value
    ensures r.Failure? ==> exists i :: 0 <= i < |parts| && ConvertElement(parts[i]) == Failure(r.error)
  {
    Gather(ElementResults(parts))
  }

  /** The conversion of each element on its own. */
  function ElementResults(parts: seq<string>): (rs: seq<Result<Field, Error>>)
    ensures |rs| == |parts| && forall i :: 0 <= i < |parts| ==> rs[i] == ConvertElement(parts[i])
  {
    seq(|parts|, i requires 0 <= i < |parts| => ConvertElement(parts[i]))
  }

  /** convert_string_to_tuple_of_num: an integer becomes the one-element tuple of its absolute
      value, text is split on `\x02` and converted element by element; any other cell has no
      `split` (AttributeError). */
  function ConvertStringToTupleOfNum(value: Cell): (r: Result<Cell, Error>)
    ensures r.Success? ==> r.value.Tuple?
    ensures value.Int? ==> r == Success(Tuple([IntField(Abs(value.i))]))
    ensures !value.Int? && !value.Str? ==> r == Failure(AttributeError)
  {
    match value
    case Int(v) => Success(Tuple([IntField(Abs(v))]))
    case Str(s) =>
      var fields :- ConvertElements(Split(s, ElementSeparator));
      Success(Tuple(fields))
    case _ => Failure(AttributeError)
  }

  /** An element passing the digit test is a run of dashes before digits. */
  lemma {:induction false} DigitTestShape(e: string) returns (k: nat)
    requires IsDigits(LStrip(e, '-'))
    ensures e == Dashes(k) + LStrip(e, '-')
  {
    k := |e| - |LStrip(e, '-')|;
    assert e[..k] == Dashes(k);
    assert e == e[..k] + e[k..];
  }

  /** `int` accepts a run of dashes before digits exactly when there is at most one dash;
      the converted element is then the digits' value. */
  lemma {:induction false} ConvertDashed(k: nat, digits: string)
    requires IsDigits(digits)
    ensures ConvertElement(Dashes(k) + digits) ==
      if k <= 1 then Success(IntField(DigitsValue(digits))) else Failure(ValueError)
  {
    var e := Dashes(k) + digits;
    var n: int := DigitsValue(digits);
    LStripDigits(digits, k);
    DigitTestPassed(e);
    if k <= 1 {
      ParseOneDash(k, digits);
      assert ParseInt(e) == Success(if k == 0 then n else -n);
      assert Abs(if k == 0 then n else -n) == n;
      assert ConvertElement(e) == Success(IntField(n));
    } else {
      ParseDashes(k, digits);
      assert ConvertElement(e) == Failure(ValueError);
    }
  }

  /** An element that passes the digit test is converted by `int`, whose error is passed on. */
  lemma {:induction false} DigitTestPassed(e: string)
    requires IsDigits(LStrip(e, '-'))
    ensures ConvertElement(e) ==
      if ParseInt(e).Success? then Success(IntField(Abs(ParseInt(e).value))) else Failure(ParseInt(e).error)
  {
  }

  /** `int` reads no dash or one dash before digits as the number or its negation. */
  lemma {:induction false} ParseOneDash(k: nat, digits: string)
    requires IsDigits(digits) && k <= 1
    ensures ParseInt(Dashes(k) + digits) == Success(if k == 0 then DigitsValue(digits) else -(DigitsValue(digits) as int))
  {
    var e := Dashes(k) + digits;
    if k == 0 {
      assert e == digits;
      assert e[0] != '-' && e[0] != '+';
    } else {
      assert e[0] == '-' && e[1..] == digits;
    }
  }

  /** `int` rejects two or more dashes. */
  lemma {:induction false} ParseDashes(k: nat, digits: string)
    requires k >= 2
    ensures ParseInt(Dashes(k) + digits) == Failure(ValueError)
  {
    var e := Dashes(k) + digits;
    assert e[0] == '-' && e[1] == '-';
    assert !IsDigits(e[1..]) by {
      assert e[1..][0] == '-';
    }
    assert !IsDigits(e) by {
      assert !IsDigit(e[0]);
    }
  }

  /** The empty element and a lone dash stay text. */
  lemma {:induction false} EmptyAndDashStayText()
    ensures ConvertElement("") == Success(StrField(""))
    ensures ConvertElement("-") == Success(StrField("-"))
  {
    assert LStrip("-", '-') == "";
  }

  /** Several leading dashes pass the digit test but make `int` raise ValueError. */
  lemma {:induction false} DoubleDashFails()
    ensures ConvertElement("--5") == Failure(ValueError)
  {
    assert "--5" == Dashes(2) + "5";
    ConvertDashed(2, "5");
  }

  /** The tuple has one element per `\x02`-separated part, in order; no integer in it is
      negative. */
  lemma {:induction false} TupleShape(s: string)
    requires ConvertStringToTupleOfNum(Str(s)).Success?
    ensures var parts, items := Split(s, ElementSeparator), ConvertStringToTupleOfNum(Str(s)).value.items;
      && ConvertElements(parts) == Success(items)
      && |items| == Count(s, ElementSeparator) + 1
      && (forall i :: 0 <= i < |items| ==> items[i] == ConvertElement(parts[i]).value)
      && (forall i :: 0 <= i < |items| && items[i].IntField? ==> items[i].i >= 0)
  {
    var parts := Split(s, ElementSeparator);
    var fields := ConvertElements(parts);
    assert ConvertStringToTupleOfNum(Str(s)) == Success(Tuple(fields.value));
    forall i | 0 <= i < |fields.value| && fields.value[i].IntField? ensures fields.value[i].i >= 0 {
      assert fields.value[i] == ConvertElement(parts[i]).value;
    }
  }

  /** A number written in decimal comes back as its absolute value. */
  lemma {:induction false} ConvertFormatted(n: int)
    ensures ConvertElement(FormatInt(n)) == Success(IntField(Abs(n)))
  {
    var digits := NatToDigits(Abs(n));
    DigitsRoundTrip(Abs(n));
    if n < 0 {
      assert FormatInt(n) == Dashes(1) + digits;
      ConvertDashed(1, digits);
    } else {
      assert FormatInt(n) == Dashes(0) + digits;
      ConvertDashed(0, digits);
    }
  }

  function Dashes(k: nat): (d: string)
    ensures |d| == k && forall i :: 0 <= i < k ==> d[i] == '-'
  {
    seq(k, _ => '-')
  }

  lemma {:induction false} LStripDigits(digits: string, k: nat)
    requires IsDigits(digits)
    ensures LStrip(Dashes(k) + digits, '-') == digits
  {
    if k > 0 {
      assert (Dashes(k) + digits)[1..] == Dashes(k - 1) + digits;
      LStripDigits(digits, k - 1);
    } else {
      assert Dashes(k) + digits == digits;
    }
  }

  function DecimalParts(ns: seq<nat>): (parts: seq<string>)
    ensures |parts| == |ns| && forall i :: 0 <= i < |ns| ==> parts[i] == NatToDigits(ns[i])
  {
    seq(|ns|, i requires 0 <= i < |ns| => NatToDigits(ns[i]))
  }

  function IntFields(ns: seq<nat>): (fields: seq<Field>)
    ensures |fields| == |ns| && forall i :: 0 <= i < |ns| ==> fields[i] == IntField(ns[i])
  {
    seq(|ns|, i requires 0 <= i < |ns| => IntField(ns[i]))
  }

  lemma {:induction false} ConvertDecimalParts(ns: seq<nat>)
    ensures ConvertElements(DecimalParts(ns)) == Success(IntFields(ns))
  {
    var parts := DecimalParts(ns);
    forall i | 0 <= i < |ns|
      ensures ConvertElement(parts[i]) == Success(IntField(ns[i]))
    {
      ConvertFormatted(ns[i]);
      assert FormatInt(ns[i]) == parts[i];
    }
    var r := ConvertElements(parts);
    assert r.value == IntFields(ns);
  }

  /** Writing non-negative integers with `\x02` between them and converting the text gives
      back the tuple of those integers. */
  lemma {:induction false} TupleRoundTrip(ns: seq<nat>)
    requires |ns| > 0
    ensures ConvertStringToTupleOfNum(Str(Join(DecimalParts(ns), ElementSeparator))) == Success(Tuple(IntFields(ns)))
  {
    var parts := DecimalParts(ns);
    forall k | 0 <= k < |parts| ensures ElementSeparator !in parts[k] {
      assert IsDigits(parts[k]);
    }
    SplitJoin(parts, ElementSeparator);
    ConvertDecimalParts(ns);
  }

  // ---- the loader's column bookkeeping ----

  /** `[e for e in names if e not in drop]`. */
  function RemoveNames(names: seq<string>, drop: seq<string>): (r: seq<string>)
    ensures |r| <= |names|
  {
    if names == [] then []
    else (if names[0] in drop then [] else [names[0]]) + RemoveNames(names[1..], drop)
  }

  /** A name survives exactly when it was listed and is not dropped. */
  lemma {:induction false} RemoveNamesMembers(names: seq<string>, drop: seq<string>, x: string)
    ensures x in RemoveNames(names, drop) <==> x in names && x !in drop
  {
    if names != [] {
      RemoveNamesMembers(names[1..], drop, x);
      assert names == [names[0]] + names[1..];
    }
  }

  /** Removal works name by name, so the survivors keep their order. */
  lemma {:induction false} RemoveNamesAppend(a: seq<string>, b: seq<string>, drop: seq<string>)
    ensures RemoveNames(a + b, drop) == RemoveNames(a, drop) + RemoveNames(b, drop)
  {
    if a != [] {
      assert (a + b)[1..] == a[1..] + b;
      RemoveNamesAppend(a[1..], b, drop);
    } else {
      assert a + b == b;
    }
  }

  /** Removing the same names twice removes nothing more. */
  lemma {:induction false} RemoveNamesIdempotent(names: seq<string>, drop: seq<string>)
    ensures RemoveNames(RemoveNames(names, drop), drop) == RemoveNames(names, drop)
  {
    if names != [] {
      RemoveNamesIdempotent(names[1..], drop);
      var head := if names[0] in drop then [] else [names[0]];
      RemoveNamesAppend(head, RemoveNames(names[1..], drop), drop);
      if names[0] !in drop {
        assert [names[0]][1..] == [];
      }
    }
  }

  /** Converting a column cell by cell, stopping at the first cell that fails. */
  function ConvertColumn(col: seq<Cell>): (r: Result<seq<Cell>, Error>)
    ensures r.Success? <==> forall k :: 0 <= k < |col| ==> ConvertStringToTupleOfNum(col[k]).Success?
    ensures r.Success? ==> |r.value| == |col|
    ensures r.Success? ==> forall k :: 0 <= k < |col| ==> r.value[k] == ConvertStringToTupleOfNum(col[k]).value
    ensures r.Failure? ==>
      exists k :: 0 <= k < |col| && ConvertStringToTupleOfNum(col[k]) == Failure(r.error)
        && forall j :: 0 <= j < k ==> ConvertStringToTupleOfNum(col[j]).Success?
  {
    Gather(CellResults(col))
  }

  /** The conversion of each cell on its own. */
  function CellResults(col: seq<Cell>): (rs: seq<Result<Cell, Error>>)
    ensures |rs| == |col| && forall k :: 0 <= k < |col| ==> rs[k] == ConvertStringToTupleOfNum(col[k])
  {
    seq(|col|, k requires 0 <= k < |col| => ConvertStringToTupleOfNum(col[k]))
  }

  /** The state the loop of _literal_dataframe leaves and how it ends: no column list at all is
      a TypeError, an absent column a KeyError, and a failing conversion stops the loop with
      the earlier columns already converted. */
  function LiteralAll(data: Columns, cols: seq<string>): (r: (Columns, Outcome<Error>))
    ensures r.0.Keys == data.Keys
    ensures forall c :: c in data ==> |r.0[c]| == |data[c]|
  {
    if cols == [] then (data, Pass)
    else if cols[0] !in data then (data, Fail(KeyError(cols[0])))
    else
      match ConvertColumn(data[cols[0]])
      case Failure(e) => (data, Fail(e))
      case Success(converted) => LiteralAll(data[cols[0] := converted], cols[1..])
  }

  /** A converted column holds tuples only, and a column of tuples cannot be converted again
      unless it is empty. */
  lemma {:induction false} ConvertedColumnsHoldTuples(col: seq<Cell>)
    requires ConvertColumn(col).Success?
    ensures forall k :: 0 <= k < |col| ==> ConvertColumn(col).value[k].Tuple?
    ensures ConvertColumn(ConvertColumn(col).value).Success? ==> col == []
  {
    var converted := ConvertColumn(col).value;
    if col != [] {
      assert ConvertStringToTupleOfNum(converted[0]).Failure?;
    }
  }

  /** Columns the loop does not name are left as they were. */
  lemma {:induction false} LiteralOtherColumns(data: Columns, cols: seq<string>, c: string)
    requires c in data && c !in cols
    ensures LiteralAll(data, cols).0[c] == data[c]
  {
    if cols != [] && cols[0] in data && ConvertColumn(data[cols[0]]).Success? {
      LiteralOtherColumns(data[cols[0] := ConvertColumn(data[cols[0]]).value], cols[1..], c);
    }
  }

  /** When the loop completes, every named column holds tuples only. */
  lemma {:induction false} LiteralColumnsHoldTuples(data: Columns, cols: seq<string>, c: string, k: nat)
    requires LiteralAll(data, cols).1 == Pass
    requires c in cols && c in data && k < |data[c]|
    ensures LiteralAll(data, cols).0[c][k].Tuple?
  {
    var converted := ConvertColumn(data[cols[0]]).value;
    var data' := data[cols[0] := converted];
    ConvertedColumnsHoldTuples(data[cols[0]]);
    if c == cols[0] {
      if c in cols[1..] {
        LiteralColumnsHoldTuples(data', cols[1..], c, k);
      } else {
        LiteralOtherColumns(data', cols[1..], c);
      }
    } else {
      assert c in cols[1..];
      LiteralColumnsHoldTuples(data', cols[1..], c, k);
    }
  }

  /** The list comprehension of _update_column_names, one name at a time. */
  method FilterNames(names: seq<string>, drop: seq<string>) returns (kept: seq<string>)
    ensures kept == RemoveNames(names, drop)
  {
    kept := [];
    for i := 0 to |names|
      invariant kept == RemoveNames(names[..i], drop)
    {
      var x := names[i];
      assert names[..i + 1] == names[..i] + [x];
      RemoveNamesAppend(names[..i], [x], drop);
      assert RemoveNames([x], drop) == if x in drop then [] else [x] by {
        assert [x][1..] == [];
      }
      if x !in drop {
        kept := kept + [x];
      }
    }
    assert names[..|names|] == names;
  }

  /** DataFrameLoader's column bookkeeping: the names given to the loaded columns and the names
      to drop. */
  class DataFrameLoader {
    var columnNames: Option<seq<string>>
    var dropColumns: Option<seq<string>>

    constructor (columnNames: Option<seq<string>>, dropColumns: Option<seq<string>>)
      ensures this.columnNames == columnNames && this.dropColumns == dropColumns
    {
      this.columnNames, this.dropColumns := columnNames, dropColumns;
    }

    /** _update_column_names: without names to drop nothing changes; otherwise the listed names
        are filtered, and iterating a missing list is a TypeError. */
    method UpdateColumnNames() returns (outcome: Outcome<Error>)
      modifies this
      ensures dropColumns == old(dropColumns)
      ensures old(dropColumns).None? ==> outcome == Pass && columnNames == old(columnNames)
      ensures old(dropColumns).Some? && old(columnNames).None? ==>
        outcome == Fail(TypeError) && columnNames == old(columnNames)
      ensures old(dropColumns).Some? && old(columnNames).Some? ==>
        outcome == Pass && columnNames == Some(RemoveNames(old(columnNames).value, old(dropColumns).value))
    {
      if dropColumns.None? {
        return Pass;
      }
      if columnNames.None? {
        return Fail(TypeError);
      }
      var kept := FilterNames(columnNames.value, dropColumns.value);
      columnNames := Some(kept);
      outcome := Pass;
    }

    /** _literal_dataframe on the loaded frame: converts every named column in place, in the
        order of the names. */
    method LiteralDataframe(dataframe: Frame) returns (outcome: Outcome<Error>)
      requires dataframe.Valid()
      modifies dataframe
      ensures dataframe.Valid()
      ensures dataframe.columns == old(dataframe.columns) && dataframe.height == old(dataframe.height)
      ensures columnNames.None? ==> outcome == Fail(TypeError) && dataframe.data == old(dataframe.data)
      ensures columnNames.Some? ==>
        (dataframe.data, outcome) == LiteralAll(old(dataframe.data), columnNames.value)
    {
      if columnNames.None? {
        return Fail(TypeError);
      }
      var cols := columnNames.value;
      var i := 0;
      while i < |cols|
        invariant 0 <= i <= |cols|
        invariant dataframe.Valid()
        invariant dataframe.columns == old(dataframe.columns) && dataframe.height == old(dataframe.height)
        invariant LiteralAll(old(dataframe.data), cols) == LiteralAll(dataframe.data, cols[i..])
      {
        var col, before := cols[i], dataframe.data;
        assert cols[i..][1..] == cols[i + 1..];
        if col !in dataframe.data {
          return Fail(KeyError(col));
        }
        var converted := ConvertColumn(dataframe.data[col]);
        if converted.Failure? {
          return Fail(converted.error);
        }
        dataframe.SetColumn(col, converted.value);
        i := i + 1;
      }
      outcome := Pass;
    }
  }
}
