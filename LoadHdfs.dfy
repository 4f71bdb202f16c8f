/** The HDFS loader (load_hdfs.py): the modulus filter on one field of a line, the per-line
    keep-and-convert rule of `process_file`, and the file selection of `get_file_list`,
    applied to a listing and to the lines of a file already read. */
module LoadHdfs {
  import opened Wrappers
  import opened PyStr
  import opened PyList
  import opened Table
  import Arith

  const Newline: char := '\n'

  /** Python's floor division `x // m`. */
  function PyDiv(x: int, m: int): int
    requires m != 0
  {
    if m > 0 then x / m
    else if x % (-m) == 0 then -(x / (-m))
    else -(x / (-m)) - 1
  }

  /** Python's `x % m`: the remainder takes the sign of the divisor. */
  function PyMod(x: int, m: int): (r: int)
    requires m != 0
    ensures m > 0 ==> 0 <= r < m
    ensures m < 0 ==> m < r <= 0
  {
    if m > 0 then x % m
    else if x % (-m) == 0 then 0
    else x % (-m) + m
  }

  /** Floor division and the remainder recombine to the dividend. */
  lemma {:induction false} PyDivMod(x: int, m: int)
    requires m != 0
    ensures x == PyDiv(x, m) * m + PyMod(x, m)
  {
    if m < 0 {
      var d, q, e := -m, x / (-m), x % (-m);
      assert x == d * q + e;
      if e == 0 {
        assert PyDiv(x, m) * m == (-q) * m == q * d;
      } else {
        assert PyDiv(x, m) * m == (-q - 1) * m == q * d + d;
      }
    }
  }

  /** The remainder is the only one with the divisor's sign that recombines to the dividend. */
  lemma {:induction false} PyModUnique(x: int, m: int, q: int, r: int)
    requires m != 0 && x == q * m + r
    requires m > 0 ==> 0 <= r < m
    requires m < 0 ==> m < r <= 0
    ensures PyMod(x, m) == r && PyDiv(x, m) == q
  {
    if m > 0 {
      Arith.DivModUnique(x, m, q, r);
    } else {
      var d := -m;
      if r == 0 {
        assert x == d * (-q) + 0;
        Arith.DivModUnique(x, d, -q, 0);
      } else {
        assert x == d * (-q - 1) + (d + r);
        Arith.DivModUnique(x, d, -q - 1, d + r);
      }
    }
  }

  /** `parts[mod_index]`, counting from the end for a negative index. */
  predicate ValidIndex(parts: seq<string>, index: int)
  {
    -|parts| <= index < |parts|
  }

  function Pick(parts: seq<string>, index: int): string
    requires ValidIndex(parts, index)
  {
    if index < 0 then parts[|parts| + index] else parts[index]
  }

  /** `filter_with_mod`: `int(parts[mod_index]) % mod`, raising IndexError for an index out of
      range, ValueError for a field that is not an integer, and ZeroDivisionError for `mod == 0`,
      in that order. */
  function FilterWithMod(parts: seq<string>, mod: int, modIndex: int): (r: Result<int, Error>)
    ensures r.Failure? && r.error == IndexError <==> !ValidIndex(parts, modIndex)
    ensures r.Failure? && r.error == ValueError <==>
      ValidIndex(parts, modIndex) && ParseInt(Pick(parts, modIndex)).Failure?
    ensures r.Failure? && r.error == ZeroDivisionError <==>
      ValidIndex(parts, modIndex) && ParseInt(Pick(parts, modIndex)).Success? && mod == 0
    ensures r.Failure? ==> r.error in {IndexError, ValueError, ZeroDivisionError}
    ensures r.Success? && mod > 0 ==> 0 <= r.value < mod
    ensures r.Success? && mod < 0 ==> mod < r.value <= 0
  {
    if !ValidIndex(parts, modIndex) then Failure(IndexError)
    else
      var n :- ParseInt(Pick(parts, modIndex));
      if mod == 0 then Failure(ZeroDivisionError) else Success(PyMod(n, mod))
  }

  /** A successful filter is the field's value minus a multiple of the divisor. */
  lemma {:induction false} FilterRemainder(parts: seq<string>, mod: int, modIndex: int) returns (n: int, q: int)
    requires FilterWithMod(parts, mod, modIndex).Success?
    ensures ValidIndex(parts, modIndex) && ParseInt(Pick(parts, modIndex)) == Success(n)
    ensures n == q * mod + FilterWithMod(parts, mod, modIndex).value
  {
    n := ParseInt(Pick(parts, modIndex)).value;
    q := PyDiv(n, mod);
    PyDivMod(n, mod);
  }

  /** `decoded_line.strip("\n").split(self.delimiter)` for a one-character delimiter: one field
      per delimiter plus one, and the delimiter joins them back into the stripped line. */
  function LineParts(line: string, delimiter: char): (parts: seq<string>)
    ensures |parts| == Count(Strip(line, Newline), delimiter) + 1
    ensures Join(parts, delimiter) == Strip(line, Newline)
  {
    JoinSplit(Strip(line, Newline), delimiter);
    Split(Strip(line, Newline), delimiter)
  }

  /** `int(part) if part.isdigit() else part`. */
  function ConvertPart(part: string): Field
  {
    if IsDigits(part) then IntField(DigitsValue(part)) else StrField(part)
  }

  function ConvertParts(parts: seq<string>): (fields: seq<Field>)
    ensures |fields| == |parts|
  {
    seq(|parts|, k requires 0 <= k < |parts| => ConvertPart(parts[k]))
  }

  /** A printed natural number becomes that int; a field with a non-digit, or an empty one,
      stays text. */
  lemma {:induction false} ConvertPartCases(n: nat, text: string)
    ensures ConvertPart(NatToDigits(n)) == IntField(n)
    ensures text == [] || (exists i :: 0 <= i < |text| && !IsDigit(text[i])) ==>
      ConvertPart(text) == StrField(text)
  {
    DigitsRoundTrip(n);
  }

  /** Leading zeros are lost in the conversion. */
  lemma {:induction false} LeadingZerosLost()
    ensures ConvertPart("007") == IntField(7)
  {
    assert DigitsValue("007") == 10 * DigitsValue("00") + 7 by {
      assert "007"[..2] == "00";
    }
    assert DigitsValue("00") == 0 by {
      assert "00"[..1] == "0";
    }
  }

  /** One line of `process_file`: the rows it contributes (none or one), or the error the
      filter raises. */
  function KeepLine(line: string, delimiter: char, mod: int, modIndex: int, remainder: int)
    : (r: Result<seq<seq<Field>>, Error>)
    ensures r.Success? <==> FilterWithMod(LineParts(line, delimiter), mod, modIndex).Success?
    ensures r.Success? ==> |r.value| <= 1
  {
    var parts := LineParts(line, delimiter);
    var m :- FilterWithMod(parts, mod, modIndex);
    Success(if m == remainder then [ConvertParts(parts)] else [])
  }

  /** Running per-line results in order: their rows one after another, or the first error. */
  function Collect<T>(results: seq<Result<seq<T>, Error>>): (r: Result<seq<T>, Error>)
    ensures r.Success? <==> forall k :: 0 <= k < |results| ==> results[k].Success?
    ensures r.Failure? ==> exists k :: 0 <= k < |results| && results[k] == r
  {
    if results == [] then Success([])
    else
      assert forall k :: 1 <= k < |results| ==> results[k] == results[1..][k - 1];
      var first :- results[0];
      var rest :- Collect(results[1..]);
      Success(first + rest)
  }

  lemma {:induction false} CollectAppend<T>(a: seq<Result<seq<T>, Error>>, b: seq<Result<seq<T>, Error>>)
    ensures Collect(a + b) ==
      if Collect(a).Failure? then Collect(a)
      else if Collect(b).Failure? then Collect(b)
      else Success(Collect(a).value + Collect(b).value)
  {
    if a == [] {
      assert a + b == b;
      if Collect(b).Success? {
        assert [] + Collect(b).value == Collect(b).value;
      }
    } else {
      assert (a + b)[0] == a[0];
      assert (a + b)[1..] == a[1..] + b;
      CollectAppend(a[1..], b);
      if Collect(a).Success? && Collect(b).Success? {
        var x, y, z := a[0].value, Collect(a[1..]).value, Collect(b).value;
        assert x + (y + z) == (x + y) + z;
      }
    }
  }

  lemma {:induction false} CollectIncludes<T>(results: seq<Result<seq<T>, Error>>, k: nat, x: T)
    requires Collect(results).Success? && k < |results|
    requires x in results[k].value
    ensures x in Collect(results).value
  {
    if k > 0 {
      assert results[1..][k - 1] == results[k];
      CollectIncludes(results[1..], k - 1, x);
    }
  }

  lemma {:induction false} CollectOrigin<T>(results: seq<Result<seq<T>, Error>>, j: nat) returns (k: nat)
    requires Collect(results).Success? && j < |Collect(results).value|
    ensures k < |results| && Collect(results).value[j] in results[k].value
  {
    var first := results[0].value;
    if j < |first| {
      k := 0;
      assert Collect(results).value[j] == first[j];
    } else {
      k := CollectOrigin(results[1..], j - |first|);
      assert results[1..][k] == results[k + 1];
      k := k + 1;
    }
  }

  lemma {:induction false} CollectSingles<T>(results: seq<Result<seq<T>, Error>>, xs: seq<T>)
    requires |results| == |xs|
    requires forall k :: 0 <= k < |xs| ==> results[k] == Success([xs[k]])
    ensures Collect(results) == Success(xs)
  {
    if xs != [] {
      assert forall k :: 0 <= k < |xs| - 1 ==> results[1..][k] == results[k + 1];
      CollectSingles(results[1..], xs[1..]);
      assert xs == [xs[0]] + xs[1..];
    }
  }

  function LineResults(lines: seq<string>, delimiter: char, mod: int, modIndex: int, remainder: int)
    : (rs: seq<Result<seq<seq<Field>>, Error>>)
    ensures |rs| == |lines|
  {
    seq(|lines|, k requires 0 <= k < |lines| => KeepLine(lines[k], delimiter, mod, modIndex, remainder))
  }

  /** The rows `process_file` returns for the given lines; the first line whose filter raises
      aborts the whole file with that error. */
  function KeptRows(lines: seq<string>, delimiter: char, mod: int, modIndex: int, remainder: int)
    : Result<seq<seq<Field>>, Error>
  {
    Collect(LineResults(lines, delimiter, mod, modIndex, remainder))
  }

  /** A failed collection carries the error of its first failing result. */
  lemma {:induction false} CollectFirstFailure<T>(results: seq<Result<seq<T>, Error>>) returns (k: nat)
    requires Collect(results).Failure?
    ensures k < |results| && results[k] == Collect(results)
    ensures forall j :: 0 <= j < k ==> results[j].Success?
  {
    if results[0].Failure? {
      k := 0;
    } else {
      var k' := CollectFirstFailure(results[1..]);
      k := k' + 1;
      assert results[k] == results[1..][k'];
      forall j | 0 < j < k ensures results[j].Success? {
        assert results[j] == results[1..][j - 1];
      }
    }
  }

  /** The file is processed exactly when every line's filter succeeds; otherwise the error is
      that of the first line whose filter fails. */
  lemma {:induction false} KeptRowsSucceed(lines: seq<string>, delimiter: char, mod: int, modIndex: int, remainder: int)
    ensures var r := KeptRows(lines, delimiter, mod, modIndex, remainder);
      r.Success? <==>
        forall k :: 0 <= k < |lines| ==> FilterWithMod(LineParts(lines[k], delimiter), mod, modIndex).Success?
    ensures var r := KeptRows(lines, delimiter, mod, modIndex, remainder);
      r.Failure? ==>
        exists k :: 0 <= k < |lines| && FilterWithMod(LineParts(lines[k], delimiter), mod, modIndex) == Failure(r.error)
          && forall j :: 0 <= j < k ==> FilterWithMod(LineParts(lines[j], delimiter), mod, modIndex).Success?
  {
    var rs := LineResults(lines, delimiter, mod, modIndex, remainder);
    assert forall k :: 0 <= k < |lines| ==> rs[k] == KeepLine(lines[k], delimiter, mod, modIndex, remainder);
    if Collect(rs).Failure? {
      var k := CollectFirstFailure(rs);
      assert FilterWithMod(LineParts(lines[k], delimiter), mod, modIndex) == Failure(Collect(rs).error);
    }
  }

  /** Processing two runs of lines one after the other: the rows of the first run come first,
      and an error in the first run wins. */
  lemma {:induction false} KeptRowsAppend(a: seq<string>, b: seq<string>, delimiter: char, mod: int,
                       modIndex: int, remainder: int)
    ensures var ra, rb := KeptRows(a, delimiter, mod, modIndex, remainder), KeptRows(b, delimiter, mod, modIndex, remainder);
      KeptRows(a + b, delimiter, mod, modIndex, remainder) ==
        if ra.Failure? then ra
        else if rb.Failure? then rb
        else Success(ra.value + rb.value)
  {
    var la := LineResults(a, delimiter, mod, modIndex, remainder);
    var lb := LineResults(b, delimiter, mod, modIndex, remainder);
    var lab := LineResults(a + b, delimiter, mod, modIndex, remainder);
    forall k | 0 <= k < |a| ensures lab[k] == la[k] {
      assert (a + b)[k] == a[k];
    }
    forall k | 0 <= k < |b| ensures lab[|a| + k] == lb[k] {
      assert (a + b)[|a| + k] == b[k];
    }
    Concatenation(lab, la, lb);
    CollectAppend(la, lb);
  }

  /** One more result of the loop: its rows are appended, or its error is the overall one. */
  lemma {:induction false} CollectStep<T>(results: seq<Result<seq<T>, Error>>, i: nat)
    requires i < |results| && Collect(results[..i]).Success?
    ensures results[i].Success? ==>
      Collect(results[..i + 1]) == Success(Collect(results[..i]).value + results[i].value)
    ensures results[i].Failure? ==> Collect(results) == results[i]
  {
    var r := results[i];
    assert Collect([r]) == if r.Failure? then r else Success(r.value + []);
    assert r.Success? ==> r.value + [] == r.value;
    CollectAppend(results[..i], [r]);
    assert results[..i + 1] == results[..i] + [r];
    if r.Failure? {
      CollectAppend(results[..i + 1], results[i + 1..]);
      assert results[..i + 1] + results[i + 1..] == results;
    }
  }

  /** A line whose filter gives `remainder` contributes its converted fields. */
  lemma {:induction false} KeptLineIncluded(lines: seq<string>, delimiter: char, mod: int,
                         modIndex: int, remainder: int, k: nat)
    requires KeptRows(lines, delimiter, mod, modIndex, remainder).Success?
    requires k < |lines|
    requires FilterWithMod(LineParts(lines[k], delimiter), mod, modIndex) == Success(remainder)
    ensures ConvertParts(LineParts(lines[k], delimiter)) in KeptRows(lines, delimiter, mod, modIndex, remainder).value
  {
    var rs := LineResults(lines, delimiter, mod, modIndex, remainder);
    assert rs[k] == Success([ConvertParts(LineParts(lines[k], delimiter))]);
    CollectIncludes(rs, k, ConvertParts(LineParts(lines[k], delimiter)));
  }

  /** Every returned row is the converted fields of a line whose filter gives `remainder`. */
  lemma {:induction false} KeptRowOrigin(lines: seq<string>, delimiter: char, mod: int,
                      modIndex: int, remainder: int, j: nat) returns (k: nat)
    requires KeptRows(lines, delimiter, mod, modIndex, remainder).Success?
    requires j < |KeptRows(lines, delimiter, mod, modIndex, remainder).value|
    ensures k < |lines|
    ensures FilterWithMod(LineParts(lines[k], delimiter), mod, modIndex) == Success(remainder)
    ensures KeptRows(lines, delimiter, mod, modIndex, remainder).value[j] == ConvertParts(LineParts(lines[k], delimiter))
  {
    var rs := LineResults(lines, delimiter, mod, modIndex, remainder);
    k := CollectOrigin(rs, j);
    assert rs[k] == KeepLine(lines[k], delimiter, mod, modIndex, remainder);
  }

  /** With divisor 1 and remainder 0 every line whose key field is an integer is kept. */
  lemma {:induction false} UnitModKeepsAll(lines: seq<string>, delimiter: char, modIndex: int)
    requires forall k :: 0 <= k < |lines| ==> FilterWithMod(LineParts(lines[k], delimiter), 1, modIndex).Success?
    ensures KeptRows(lines, delimiter, 1, modIndex, 0) ==
      Success(seq(|lines|, k requires 0 <= k < |lines| => ConvertParts(LineParts(lines[k], delimiter))))
  {
    var rs := LineResults(lines, delimiter, 1, modIndex, 0);
    var xs := seq(|lines|, k requires 0 <= k < |lines| => ConvertParts(LineParts(lines[k], delimiter)));
    forall k | 0 <= k < |xs| ensures rs[k] == Success([xs[k]]) {
      assert FilterWithMod(LineParts(lines[k], delimiter), 1, modIndex).value == 0;
    }
    CollectSingles(rs, xs);
  }

  /** One entry of `fs.ls(path, detail=True)`. */
  datatype FileInfo = FileInfo(name: string, size: int)

  /** Hidden entries: the name starts with a dot. */
  predicate Hidden(name: string)
  {
    |name| > 0 && name[0] == '.'
  }

  /** The listing without its hidden entries, in listing order. */
  function Visible(listing: seq<FileInfo>): (r: seq<FileInfo>)
    ensures |r| <= |listing|
    ensures forall k :: 0 <= k < |r| ==> !Hidden(r[k].name) && r[k] in listing
  {
    if listing == [] then []
    else
      var rest := Visible(listing[..|listing| - 1]);
      var last := listing[|listing| - 1];
      rest + (if Hidden(last.name) then [] else [last])
  }

  function Names(infos: seq<FileInfo>): (names: seq<string>)
    ensures |names| == |infos|
  {
    seq(|infos|, k requires 0 <= k < |infos| => infos[k].name)
  }

  function Sizes(infos: seq<FileInfo>): (sizes: seq<int>)
    ensures |sizes| == |infos|
  {
    seq(|infos|, k requires 0 <= k < |infos| => infos[k].size)
  }

  /** Python's `<=` on strings: lexicographic by code point, a prefix first. */
  predicate LexLe(a: string, b: string)
  {
    a == [] || (b != [] && (a[0] < b[0] || (a[0] == b[0] && LexLe(a[1..], b[1..]))))
  }

  lemma {:induction false} LexTotal(a: string, b: string)
    ensures LexLe(a, b) || LexLe(b, a)
  {
    if a != [] && b != [] && a[0] == b[0] {
      LexTotal(a[1..], b[1..]);
    }
  }

  lemma {:induction false} LexTrans(a: string, b: string, c: string)
    requires LexLe(a, b) && LexLe(b, c)
    ensures LexLe(a, c)
  {
    if a != [] && b != [] && c != [] && a[0] == b[0] && b[0] == c[0] {
      LexTrans(a[1..], b[1..], c[1..]);
    }
  }

  lemma {:induction false} LexPreorder()
    ensures TotalPreorder(LexLe)
  {
    forall a, b ensures LexLe(a, b) || LexLe(b, a) {
      LexTotal(a, b);
    }
    forall a, b, c | LexLe(a, b) && LexLe(b, c) ensures LexLe(a, c) {
      LexTrans(a, b, c);
    }
  }

  /** `sorted(file_list)[1 : max_file_num + 1]`, or `[1:]` without a maximum. */
  function SelectFiles(names: seq<string>, maxFileNum: Option<int>): seq<string>
  {
    var sorted := SortBy(names, LexLe);
    Slice(sorted, 1, if maxFileNum.None? then None else Some(maxFileNum.value + 1))
  }

  /** The selection is in ascending order and drops the first name in that order. Without a
      maximum it keeps every other name; with a maximum `m >= 0` it keeps the `m` smallest of
      the others (all of them when there are fewer), and every name left out is at least every
      selected one. */
  lemma {:induction false} SelectFilesSpec(names: seq<string>, maxFileNum: Option<int>) returns (least: string)
    requires |names| > 0
    ensures least in names && forall n :: n in names ==> LexLe(least, n)
    ensures var selected := SelectFiles(names, maxFileNum);
      && SortedBy(selected, LexLe)
      && (forall k :: 0 <= k < |selected| ==> selected[k] in names)
      && (maxFileNum.None? ==> multiset(selected) + multiset{least} == multiset(names))
    ensures var selected := SelectFiles(names, maxFileNum);
      maxFileNum.Some? && maxFileNum.value >= 0 ==>
        && |selected| == (if maxFileNum.value < |names| - 1 then maxFileNum.value else |names| - 1)
        && multiset(selected) + multiset{least} <= multiset(names)
        && forall n, k :: n in multiset(names) - multiset(selected) - multiset{least} && 0 <= k < |selected| ==>
             LexLe(selected[k], n)
  {
    least := LeastName(names);
    SelectedNames(names, maxFileNum);
    if maxFileNum.None? {
      AllButLeast(names);
    } else if maxFileNum.value >= 0 {
      SmallestNames(names, maxFileNum.value);
    }
  }

  /** With a maximum `m >= 0`, the selection is the `m` names that follow the first one in
      ascending order, and the names after them are left out. */
  lemma {:induction false} SmallestNames(names: seq<string>, m: nat)
    requires |names| > 0
    ensures var sorted, selected := SortBy(names, LexLe), SelectFiles(names, Some(m));
      && |selected| == (if m < |names| - 1 then m else |names| - 1)
      && multiset(selected) + multiset{sorted[0]} <= multiset(names)
      && forall n, k :: n in multiset(names) - multiset(selected) - multiset{sorted[0]} && 0 <= k < |selected| ==>
           LexLe(selected[k], n)
  {
    LexPreorder();
    var sorted := SortBy(names, LexLe);
    SortBySorted(names, LexLe);
    var b := SliceIndex(m + 1, |sorted|);
    assert SelectFiles(names, Some(m)) == sorted[1..b];
    SortedMiddle(sorted, b, LexLe);
  }

  /** Cutting an ascending list after its head and again at `b`: the middle part, the head and
      the tail share out the elements, and the tail is at least every element of the middle. */
  lemma {:induction false} SortedMiddle<T>(sorted: seq<T>, b: nat, le: (T, T) -> bool)
    requires 1 <= b <= |sorted| && SortedBy(sorted, le)
    ensures var middle := sorted[1..b];
      && multiset(middle) + multiset{sorted[0]} <= multiset(sorted)
      && multiset(sorted) - multiset(middle) - multiset{sorted[0]} == multiset(sorted[b..])
      && forall n, k :: n in multiset(sorted[b..]) && 0 <= k < |middle| ==> le(middle[k], n)
  {
    var middle, rest := sorted[1..b], sorted[b..];
    assert sorted == [sorted[0]] + middle + rest;
    assert multiset(sorted) == multiset{sorted[0]} + multiset(middle) + multiset(rest);
    forall n, k | n in multiset(rest) && 0 <= k < |middle| ensures le(middle[k], n) {
      var j :| 0 <= j < |rest| && rest[j] == n;
      assert middle[k] == sorted[1 + k] && n == sorted[b + j];
    }
  }

  /** Without a maximum, only the first name in ascending order is dropped. */
  lemma {:induction false} AllButLeast(names: seq<string>)
    requires |names| > 0
    ensures multiset(SelectFiles(names, None)) + multiset{SortBy(names, LexLe)[0]} == multiset(names)
  {
    var sorted := SortBy(names, LexLe);
    var selected := SelectFiles(names, None);
    assert selected == sorted[1..];
    assert sorted == [sorted[0]] + selected;
  }

  /** The first name in ascending order is at most every name. */
  lemma {:induction false} LeastName(names: seq<string>) returns (least: string)
    requires |names| > 0
    ensures least == SortBy(names, LexLe)[0]
    ensures least in names && forall n :: n in names ==> LexLe(least, n)
  {
    LexPreorder();
    var sorted := SortBy(names, LexLe);
    SortBySorted(names, LexLe);
    least := sorted[0];
    assert least in multiset(names);
    SortedHeadLeast(sorted);
    forall n | n in names ensures LexLe(least, n) {
      assert n in multiset(sorted);
    }
  }

  /** The selected names are given names, in ascending order and at most `maxFileNum` of them. */
  lemma {:induction false} SelectedNames(names: seq<string>, maxFileNum: Option<int>)
    requires |names| > 0
    ensures var selected := SelectFiles(names, maxFileNum);
      && SortedBy(selected, LexLe)
      && (forall k :: 0 <= k < |selected| ==> selected[k] in names)
      && (maxFileNum.Some? && maxFileNum.value >= 0 ==> |selected| <= maxFileNum.value)
  {
    LexPreorder();
    var sorted := SortBy(names, LexLe);
    SortBySorted(names, LexLe);
    var stop := if maxFileNum.None? then None else Some(maxFileNum.value + 1);
    var selected := SelectFiles(names, maxFileNum);
    assert selected == Slice(sorted, 1, stop);
    SliceWithin(sorted, 1, stop, LexLe);
    forall k | 0 <= k < |selected| ensures selected[k] in names {
      assert selected[k] in multiset(sorted);
    }
  }

  /** The first name of an ascending list is at most every name in it. */
  lemma {:induction false} SortedHeadLeast(sorted: seq<string>)
    requires |sorted| > 0 && SortedBy(sorted, LexLe)
    ensures forall n :: n in sorted ==> LexLe(sorted[0], n)
  {
    forall n | n in sorted ensures LexLe(sorted[0], n) {
      var i :| 0 <= i < |sorted| && sorted[i] == n;
      if i == 0 {
        LexTotal(n, n);
      }
    }
  }

  /** The state `get_file_list` and `process_file` work on (connection and save path left out). */
  class HDFSDataloader {
    var mod: int
    var modIndex: int
    var remainder: int
    var maxFileNum: Option<int>
    var delimiter: char
    var fileList: seq<string>
    var fileSizes: seq<int>

    /** The explicit-argument branch of `__init__`, which ends by listing the files. */
    constructor (mod: int, modIndex: int, remainder: int, maxFileNum: Option<int>, delimiter: char,
                 listing: seq<FileInfo>)
      ensures this.mod == mod && this.modIndex == modIndex && this.remainder == remainder
      ensures this.maxFileNum == maxFileNum && this.delimiter == delimiter
      ensures fileList == SelectFiles(Names(Visible(listing)), maxFileNum)
      ensures fileSizes == Sizes(Visible(listing))
    {
      this.mod := mod;
      this.modIndex := modIndex;
      this.remainder := remainder;
      this.maxFileNum := maxFileNum;
      this.delimiter := delimiter;
      new;
      GetFileList(listing);
    }

    /** `get_file_list` on a listing: visible names and their sizes in listing order, then the
        names alone sorted and cut. */
    method GetFileList(listing: seq<FileInfo>)
      modifies this
      ensures fileList == SelectFiles(Names(Visible(listing)), maxFileNum)
      ensures fileSizes == Sizes(Visible(listing))
      ensures mod == old(mod) && modIndex == old(modIndex) && remainder == old(remainder)
      ensures maxFileNum == old(maxFileNum) && delimiter == old(delimiter)
    {
      var names, sizes := VisibleEntries(listing);
      fileList := SelectFiles(names, maxFileNum);
      fileSizes := sizes;
    }

    /** `process_file` on the lines the reader yields: the rows of the kept lines, in order. */
    method ProcessFile(lines: seq<string>) returns (batches: Result<seq<seq<Field>>, Error>)
      ensures batches == KeptRows(lines, delimiter, mod, modIndex, remainder)
    {
      ghost var results := LineResults(lines, delimiter, mod, modIndex, remainder);
      var acc: seq<seq<Field>> := [];
      for i := 0 to |lines|
        invariant Collect(results[..i]) == Success(acc)
      {
        var parts := LineParts(lines[i], delimiter);
        var m := FilterWithMod(parts, mod, modIndex);
        assert results[i] == KeepLine(lines[i], delimiter, mod, modIndex, remainder);
        CollectStep(results, i);
        if m.Failure? {
          return Failure(m.error);
        }
        var batch: seq<seq<Field>> := [];
        if m.value == remainder {
          batch := [ConvertParts(parts)];
        }
        assert results[i] == Success(batch);
        acc := acc + batch;
      }
      assert results[..|lines|] == results;
      batches := Success(acc);
    }
  }

  /** The loop of `get_file_list`: names and sizes of the visible entries, side by side. */
  method VisibleEntries(listing: seq<FileInfo>) returns (names: seq<string>, sizes: seq<int>)
    ensures names == Names(Visible(listing)) && sizes == Sizes(Visible(listing))
  {
    names, sizes := [], [];
    for i := 0 to |listing|
      invariant names == Names(Visible(listing[..i])) && sizes == Sizes(Visible(listing[..i]))
    {
      VisibleStep(listing, i);
      if !Hidden(listing[i].name) {
        names := names + [listing[i].name];
        sizes := sizes + [listing[i].size];
      }
    }
    assert listing[..|listing|] == listing;
  }

  /** One more entry of the listing adds its name and size unless it is hidden. */
  lemma {:induction false} VisibleStep(listing: seq<FileInfo>, i: nat)
    requires i < |listing|
    ensures var e := listing[i];
      && Names(Visible(listing[..i + 1])) == Names(Visible(listing[..i])) + (if Hidden(e.name) then [] else [e.name])
      && Sizes(Visible(listing[..i + 1])) == Sizes(Visible(listing[..i])) + (if Hidden(e.name) then [] else [e.size])
  {
    var e := listing[i];
    assert listing[..i + 1][..i] == listing[..i];
    var before, after := Visible(listing[..i]), Visible(listing[..i + 1]);
    assert after == before + if Hidden(e.name) then [] else [e];
  }

  /** `file_sizes` is neither sorted nor cut with `file_list`: without a maximum, and with at
      least one visible file, the size list is one longer than the name list, so zipping the
      two pairs the `k`-th selected name with the size of the `k`-th visible entry. */
  lemma {:induction false} SizesNotAligned(listing: seq<FileInfo>)
    requires |Visible(listing)| > 0
    ensures |SelectFiles(Names(Visible(listing)), None)| + 1 == |Sizes(Visible(listing))|
  {
  }
}
