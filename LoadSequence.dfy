/** The sequence loader (load_sequence.py): the header rule that names the columns, the
    per-line field extraction, and the row selection of `_get_dataframe`, applied to the
    lines of a file already read into memory. */
module LoadSequence {
  import opened Wrappers
  import opened PyStr
  import opened PyList

  /** The `\x00` byte that separates the address segments of a line. */
  const NulSeparator: char := '\U{0}'
  const Newline: char := '\n'

  /** A field the NUL branch throws away. */
  predicate Blank(field: string)
  {
    field == "" || field == ","
  }

  /** `[i for i in fields if i != "" and i != ","]`. */
  function DropBlank(fields: seq<string>): (r: seq<string>)
    ensures |r| <= |fields|
    ensures forall k :: 0 <= k < |r| ==> !Blank(r[k])
  {
    if fields == [] then []
    else (if Blank(fields[0]) then [] else [fields[0]]) + DropBlank(fields[1..])
  }

  /** `_extract_sequence`: strip newlines at both ends, split on NUL; with more than one
      segment, comma-split the first, keep the other segments whole, and drop blank fields;
      otherwise the comma split of the whole line. */
  function ExtractSequence(line: string): (fields: seq<string>)
    ensures |fields| >= 1 || NulSeparator in Strip(line, Newline)
  {
    CountIn(Strip(line, Newline), NulSeparator);
    var firstSplit := Split(Strip(line, Newline), NulSeparator);
    if |firstSplit| > 1 then DropBlank(Split(firstSplit[0], ',') + firstSplit[1..])
    else Split(firstSplit[0], ',')
  }

  /** The filter keeps exactly the non-blank fields. */
  lemma {:induction false} DropBlankMembers(fields: seq<string>, x: string)
    ensures x in DropBlank(fields) <==> x in fields && !Blank(x)
  {
    if fields != [] {
      DropBlankMembers(fields[1..], x);
      assert fields == [fields[0]] + fields[1..];
    }
  }

  /** The filter works field by field, so it keeps the order of what it keeps. */
  lemma {:induction false} DropBlankAppend(a: seq<string>, b: seq<string>)
    ensures DropBlank(a + b) == DropBlank(a) + DropBlank(b)
  {
    if a != [] {
      assert (a + b)[1..] == a[1..] + b;
      DropBlankAppend(a[1..], b);
    } else {
      assert a + b == b;
    }
  }

  /** Without blank fields the filter is the identity. */
  lemma {:induction false} DropBlankKeepsAll(fields: seq<string>)
    requires forall k :: 0 <= k < |fields| ==> !Blank(fields[k])
    ensures DropBlank(fields) == fields
  {
    if fields != [] {
      DropBlankKeepsAll(fields[1..]);
    }
  }

  /** Newlines at either end of the line do not change its fields. */
  lemma {:induction false} NewlinesIgnored(line: string)
    ensures ExtractSequence(line + [Newline]) == ExtractSequence(line)
    ensures ExtractSequence([Newline] + line) == ExtractSequence(line)
  {
    StripAppended(line, Newline);
    StripPrepended(line, Newline);
  }

  /** A line without NUL gives its comma split, empty fields kept, and joining the fields with
      commas gives back the stripped line. */
  lemma {:induction false} NoNulIsCommaSplit(line: string)
    requires NulSeparator !in Strip(line, Newline)
    ensures ExtractSequence(line) == Split(Strip(line, Newline), ',')
    ensures |ExtractSequence(line)| >= 1
    ensures Join(ExtractSequence(line), ',') == Strip(line, Newline)
  {
    var s := Strip(line, Newline);
    CountIn(s, NulSeparator);
    SplitNoSep(s, NulSeparator);
    JoinSplit(s, ',');
  }

  /** A line built from a head and at least one further NUL segment (no newlines) gives the
      non-blank comma fields of the head followed by the non-blank segments whole, in order. */
  lemma {:induction false} NulSegments(head: string, tail: seq<string>)
    requires |tail| >= 1
    requires NulSeparator !in head && Newline !in head
    requires forall k :: 0 <= k < |tail| ==> NulSeparator !in tail[k] && Newline !in tail[k]
    ensures ExtractSequence(Join([head] + tail, NulSeparator))
      == DropBlank(Split(head, ',')) + DropBlank(tail)
  {
    var parts := [head] + tail;
    var line := Join(parts, NulSeparator);
    JoinedSegments(parts);
    ExtractSegments(line, parts);
    assert parts[0] == head && parts[1..] == tail;
    DropBlankAppend(Split(head, ','), tail);
  }

  /** Joining newline-free, NUL-free segments with NUL and reading them back gives them again. */
  lemma {:induction false} JoinedSegments(parts: seq<string>)
    requires |parts| > 0
    requires forall k :: 0 <= k < |parts| ==> NulSeparator !in parts[k] && Newline !in parts[k]
    ensures Split(Strip(Join(parts, NulSeparator), Newline), NulSeparator) == parts
  {
    var line := Join(parts, NulSeparator);
    JoinAvoids(parts, NulSeparator, Newline);
    StripAbsent(line, Newline);
    SplitJoin(parts, NulSeparator);
  }

  lemma {:induction false} ExtractSegments(line: string, parts: seq<string>)
    requires |parts| > 1 && Split(Strip(line, Newline), NulSeparator) == parts
    ensures ExtractSequence(line) == DropBlank(Split(parts[0], ',') + parts[1..])
  {
  }

  /** In the NUL branch no field is empty or a lone comma, and every other field of the head's
      comma split or of the later segments is kept. */
  lemma {:induction false} NulBranchFields(line: string, x: string)
    requires NulSeparator in Strip(line, Newline)
    ensures forall k :: 0 <= k < |ExtractSequence(line)| ==> !Blank(ExtractSequence(line)[k])
    ensures var segments := Split(Strip(line, Newline), NulSeparator);
      x in ExtractSequence(line) <==> (x in Split(segments[0], ',') || x in segments[1..]) && !Blank(x)
  {
    var s := Strip(line, Newline);
    CountIn(s, NulSeparator);
    var segments := Split(s, NulSeparator);
    DropBlankMembers(Split(segments[0], ',') + segments[1..], x);
  }

  /** `item.split(".")[1]`: the text after the first dot up to the next one; IndexError when
      the item has no dot. */
  function ColumnName(item: string): (r: Result<string, Error>)
    ensures r.Success? <==> '.' in item
    ensures r.Success? ==> '.' !in r.value
    ensures r.Failure? ==> r.error == IndexError
  {
    CountIn(item, '.');
    var parts := Split(item, '.');
    if |parts| > 1 then Success(parts[1]) else Failure(IndexError)
  }

  /** The column name is the text between the first and the second dot. */
  lemma {:induction false} ColumnNameBetweenDots(prefix: string, name: string, rest: string)
    requires '.' !in prefix && '.' !in name
    ensures ColumnName(prefix + ['.'] + name) == Success(name)
    ensures ColumnName(prefix + ['.'] + name + ['.'] + rest) == Success(name)
  {
    SplitAtSep(prefix, name, '.');
    SplitNoSep(name, '.');
    SplitAtSep(name, rest, '.');
    assert prefix + ['.'] + name + ['.'] + rest == prefix + ['.'] + (name + ['.'] + rest);
    SplitAtSep(prefix, name + ['.'] + rest, '.');
  }

  /** Conversely, an item with a dot is a dot-free prefix, a dot, its column name, and a rest
      that is empty or starts at the second dot. */
  lemma {:induction false} ColumnNamePosition(item: string) returns (prefix: string, rest: string)
    requires '.' in item
    ensures '.' !in prefix
    ensures item == prefix + ['.'] + ColumnName(item).value + rest
    ensures rest == [] || rest[0] == '.'
  {
    var parts := Split(item, '.');
    CountIn(item, '.');
    JoinSplit(item, '.');
    prefix := parts[0];
    if |parts| == 2 {
      rest := [];
      assert parts[1..] == [parts[1]];
    } else {
      rest := ['.'] + Join(parts[2..], '.');
      assert parts[1..][1..] == parts[2..];
    }
  }

  /** The list comprehension over the header fields: the first field without a dot raises. */
  function ColumnNamesOf(items: seq<string>): (r: Result<seq<string>, Error>)
    ensures r.Success? <==> forall k :: 0 <= k < |items| ==> '.' in items[k]
    ensures r.Success? ==> |r.value| == |items|
    ensures r.Success? ==> forall k :: 0 <= k < |items| ==> r.value[k] == ColumnName(items[k]).value
    ensures r.Failure? ==> r.error == IndexError
  {
    if items == [] then Success([])
    else
      var first :- ColumnName(items[0]);
      var rest :- ColumnNamesOf(items[1..]);
      assert forall k :: 1 <= k < |items| ==> items[k] == items[1..][k - 1];
      Success([first] + rest)
  }

  /** `_get_column_names`' rule on the first line of the file. */
  function ColumnNames(headline: string): Result<seq<string>, Error>
  {
    ColumnNamesOf(Split(Strip(headline, Newline), ','))
  }

  /** `f.readlines()[1:]`, then `[:max_rows]` when a maximum is set. */
  function DataLines(lines: seq<string>, maxRows: Option<int>): seq<string>
  {
    var body := Slice(lines, 1, None);
    if maxRows.None? then body else Slice(body, 0, maxRows)
  }

  /** The header is skipped, and a maximum keeps only that many lines from the front (a
      negative one drops that many from the end, as a Python slice does). */
  lemma {:induction false} DataLinesSpec(lines: seq<string>, maxRows: Option<int>)
    ensures lines == [] ==> DataLines(lines, maxRows) == []
    ensures lines != [] && maxRows.None? ==> DataLines(lines, maxRows) == lines[1..]
    ensures lines != [] && maxRows.Some? && 0 <= maxRows.value ==>
      DataLines(lines, maxRows) == lines[1..][..if maxRows.value < |lines| - 1 then maxRows.value else |lines| - 1]
    ensures lines != [] && maxRows.Some? && maxRows.value < 0 ==>
      DataLines(lines, maxRows) == lines[1..][..if |lines| - 1 + maxRows.value < 0 then 0 else |lines| - 1 + maxRows.value]
    ensures maxRows.Some? && maxRows.value >= 0 ==> |DataLines(lines, maxRows)| <= maxRows.value
  {
  }

  /** Every selected line is a data line of the file, taken in file order: line `k` of the
      selection is line `k + 1` of the file. */
  lemma {:induction false} DataLinesInOrder(lines: seq<string>, maxRows: Option<int>, k: nat)
    requires k < |DataLines(lines, maxRows)|
    ensures 1 + k < |lines| && DataLines(lines, maxRows)[k] == lines[1 + k]
  {
    DataLinesSpec(lines, maxRows);
  }

  /** The loop of `_get_dataframe`: one list of fields per line, in order. */
  method ExtractLines(lines: seq<string>) returns (block: seq<seq<string>>)
    ensures block == Map(ExtractSequence, lines)
  {
    block := [];
    for i := 0 to |lines|
      invariant block == Map(ExtractSequence, lines[..i])
    {
      assert lines[..i + 1][..i] == lines[..i];
      block := block + [ExtractSequence(lines[i])];
    }
    assert lines[..|lines|] == lines;
  }

  /** The reader state of a sequence loader: the row limit, the header names and the rows
      parsed from the file (the list the loader hands to the DataFrame constructor). */
  class SequenceLoader {
    var maxRows: Option<int>
    var columnNames: seq<string>
    var splitBlock: seq<seq<string>>

    constructor (maxRows: Option<int>)
      ensures this.maxRows == maxRows && columnNames == [] && splitBlock == []
    {
      this.maxRows := maxRows;
      columnNames := [];
      splitBlock := [];
    }

    /** `_get_column_names` on the first line of the file: the names are set on success; an
        IndexError leaves the loader as it was. */
    method GetColumnNames(headline: string) returns (outcome: Outcome<Error>)
      modifies this
      ensures var r := ColumnNames(headline);
        && (r.Success? ==> outcome == Pass && columnNames == r.value)
        && (r.Failure? ==> outcome == Fail(r.error) && columnNames == old(columnNames))
      ensures maxRows == old(maxRows) && splitBlock == old(splitBlock)
    {
      var items := Split(Strip(headline, Newline), ',');
      var names: seq<string> := [];
      var i := 0;
      while i < |items|
        invariant 0 <= i <= |items|
        invariant forall k :: 0 <= k < i ==> '.' in items[k]
        invariant |names| == i
        invariant forall k :: 0 <= k < i ==> names[k] == ColumnName(items[k]).value
      {
        var name := ColumnName(items[i]);
        if name.Failure? {
          return Fail(name.error);
        }
        names := names + [name.value];
        i := i + 1;
      }
      columnNames := names;
      outcome := Pass;
    }

    /** `_get_dataframe` on the lines of the file: the header is skipped, at most `maxRows`
        lines are kept, and each is split into its fields, in file order. */
    method GetDataframe(lines: seq<string>)
      modifies this
      ensures splitBlock == Map(ExtractSequence, DataLines(lines, maxRows))
      ensures maxRows == old(maxRows) && columnNames == old(columnNames)
    {
      var selected := Slice(lines, 1, None);
      if maxRows.Some? {
        selected := Slice(selected, 0, maxRows);
      }
      assert selected == DataLines(lines, maxRows);
      var block := ExtractLines(selected);
      splitBlock := block;
    }
  }
}
