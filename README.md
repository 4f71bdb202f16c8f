# Lova: interaction aggregation, record parsers and the iALS evaluator, in Dafny

Lova turns raw user–item interaction logs into signals a recommender can train on, and scores
a trained implicit-ALS model. This project models the deterministic core of that pipeline and
proves what each piece promises:

- **Label decoding and OR-reduction** (`LabelEncoding`, `BinaryOr`): `label_to_vector` reads
  the low `field_num` bits of a code, most significant first; `label_list_to_vector` adds the
  decoded vectors of a list; `calculate_binary_or` ORs every integer of a list of lists.
  Python's unbounded two's complement integers are modelled exactly (`>>` as floor division,
  `|` bit by bit).
- **Strength merging and percentile-cap normalisation** (`MergeWithStrength`,
  `NormalizeWithPercentile`, over the in-place table of `Table`): the weighted numerical
  merge, the bit-decoded boolean merge, and the cap-then-min-max rescale of selected columns.
  Each writes columns of the caller's table in place, so the table is a `class Frame` whose
  methods state the whole new state.
- **Descending rank positions** (`SequenceOrder`): `argsort(argsort(dates)[::-1])`.
- **Record and text parsers** (`LoadDataFrame`, `LoadSequence`, `LoadHdfs`): the `\x02` tuple
  parser and column-name bookkeeping of `DataFrameLoader`; the line splitter, header rule and
  row selection of `SequenceLoader`; the modulus filter, per-line keep/convert loop and file
  selection of `HDFSDataloader`, applied to given lines and listings.
- **Evaluator** (`IalsEvaluator`): `_map_id_to_index`, which maps ids through the
  recommender's dictionaries and drops incomplete rows of the shared table, and `evaluate`,
  the mean dot product of the surviving user and item factor rows.

Shared modules: `Wrappers` (`Option`, `Result`, `Outcome`, the Python exceptions raised),
`PyStr` (`split`, `join`, `strip`, `isdigit`, `int`, `str` on ASCII text), `PyList` (Python
slices, `sorted` as a stable insertion sort, element-wise `map`), `Arith` (integer division
facts), `Vectors` (numpy `dot` and `mean` over reals).

Python behaviour that decides results is written out: floor `%` with the divisor's sign,
negative list indices, slices clamped to the list, `min(x, q)` keeping `x` on ties, `int`
rejecting `"--5"` although it passes the `lstrip("-").isdigit()` test, `str.split` keeping
empty fields, iterating an empty string doing nothing and a zero-width `range` never
evaluating its body. Errors are values: KeyError, IndexError, ValueError, TypeError,
ZeroDivisionError and AttributeError come back as `Failure`/`Fail` results wherever the
source would raise them. Floats are `real`, and pandas' NaN is the `Missing` cell.

## Model

| member | source | states |
|---|---|---|
| LabelEncoding.LabelToVector | src/lova/aggregators/convert_label_encoding_to_vector.py:22 | the vector has exactly `field_num` entries, each 0 or 1 (so `field_num = 0` gives the empty vector) |
| LabelEncoding.Bit | src/lova/aggregators/convert_label_encoding_to_vector.py:22 | `(x >> i) & 1` on any Python int is 0 or 1 |
| LabelEncoding.BitStep | src/lova/aggregators/convert_label_encoding_to_vector.py:22 | bit `i+1` of a code is bit `i` of the code shifted right once |
| LabelEncoding.LabelToVectorStep | src/lova/aggregators/convert_label_encoding_to_vector.py:22 | a window one bit wider is the shifted code's vector followed by the code's lowest bit: the bits come most significant first |
| LabelEncoding.LabelToVectorValue | src/lova/aggregators/convert_label_encoding_to_vector.py:22 | reading the vector back as a binary number gives `code mod 2^field_num`, for every int code |
| LabelEncoding.LabelRoundTrip | src/lova/aggregators/convert_label_encoding_to_vector.py:22 | a code in `[0, 2^field_num)` is recovered exactly from its vector |
| LabelEncoding.VectorRoundTrip | src/lova/aggregators/convert_label_encoding_to_vector.py:22 | every 0/1 vector is the decoding of the number it spells, at its own width |
| LabelEncoding.HighBitsIgnored | src/lova/aggregators/convert_label_encoding_to_vector.py:22 | bits at positions `>= field_num` do not matter: the vector of `code` equals that of `code mod 2^field_num` |
| LabelEncoding.Pow2 | src/lova/aggregators/convert_label_encoding_to_vector.py:22 | the window size `2^n` is positive |
| LabelEncoding.LabelListSum | src/lova/aggregators/convert_label_encoding_to_vector.py:41-43 | the summed vector has length `field_num` |
| LabelEncoding.CountBit | src/lova/aggregators/convert_label_encoding_to_vector.py:42-43 | the number of codes with a given bit set is at most the number of codes |
| LabelEncoding.LabelListCounts | src/lova/aggregators/convert_label_encoding_to_vector.py:41-44 | entry `j` of `label_list_to_vector` counts the codes with bit `field_num-1-j` set, so repeated flags accumulate and no entry exceeds `len(label_list)` |
| LabelEncoding.LabelListConcat | src/lova/aggregators/convert_label_encoding_to_vector.py:42-43 | the vector of a concatenation of code lists is the element-wise sum of the two vectors |
| LabelEncoding.LabelListToVector | src/lova/aggregators/convert_label_encoding_to_vector.py:41-44 | the loop from the zero vector returns the element-wise sum of the decoded vectors of the list (the zero vector for an empty list) |
| BinaryOr.HalfMeasure | src/lova/aggregators/reduce_with_binary_or.py:22 | shifting right shrinks every integer other than 0 and -1, which is what makes the bitwise OR well defined on unbounded ints |
| BinaryOr.OrStep | src/lova/aggregators/reduce_with_binary_or.py:22 | the bitwise OR acts bit by bit: its low bit is the larger low bit, its shifted value is the OR of the shifted operands |
| BinaryOr.SameBits | src/lova/aggregators/reduce_with_binary_or.py:22 | integers with the same low bit and the same shifted value are equal |
| BinaryOr.OrComm | src/lova/aggregators/reduce_with_binary_or.py:22 | the bitwise OR is commutative |
| BinaryOr.OrZero | src/lova/aggregators/reduce_with_binary_or.py:22 | 0, the reduction's start value, is neutral for the bitwise OR |
| BinaryOr.OrIdem | src/lova/aggregators/reduce_with_binary_or.py:22 | the bitwise OR of a value with itself is that value |
| BinaryOr.OrAssoc | src/lova/aggregators/reduce_with_binary_or.py:22-23 | the bitwise OR is associative, so the two nested reductions can regroup |
| BinaryOr.OrAllAppend | src/lova/aggregators/reduce_with_binary_or.py:22 | reducing a concatenation is the OR of the two reductions |
| BinaryOr.CalculateIsFlatOr | src/lova/aggregators/reduce_with_binary_or.py:22-23 | `calculate_binary_or` equals the OR of the flattened list (0 for an empty outer list) |
| BinaryOr.OrAllAbsorbs | src/lova/aggregators/reduce_with_binary_or.py:22 | every element's bits are contained in the reduction: OR-ing any element into the result leaves it unchanged |
| BinaryOr.OrAllLeast | src/lova/aggregators/reduce_with_binary_or.py:22 | the reduction is the least value containing every element's bits |
| BinaryOr.OrAllBySet | src/lova/aggregators/reduce_with_binary_or.py:22 | the reduction depends only on which values occur: order and duplicates do not change it |
| BinaryOr.ResultContainsEvery | src/lova/aggregators/reduce_with_binary_or.py:22-23 | every integer of every sublist has its bits in the result |
| BinaryOr.FlattenHas | src/lova/aggregators/reduce_with_binary_or.py:22-23 | every element of every sublist is in the flattened list |
| BinaryOr.FlattenOnly | src/lova/aggregators/reduce_with_binary_or.py:22-23 | every element of the flattened list comes from some sublist |
| BinaryOr.RegroupingInvariant | src/lova/aggregators/reduce_with_binary_or.py:22-23 | two lists of lists holding the same integers give the same result, however they are grouped, ordered or repeated |
| BinaryOr.EmptySublistIgnored | src/lova/aggregators/reduce_with_binary_or.py:22-23 | an empty sublist contributes nothing |
| BinaryOr.DocExampleBits | src/lova/aggregators/reduce_with_binary_or.py:20 | the docstring's intermediate values: 1 OR 2 = 3, 3 OR 4 = 7, 8 OR 16 = 24, 7 OR 24 = 31 |
| BinaryOr.DocExample | src/lova/aggregators/reduce_with_binary_or.py:19-20 | `[[1, 2], [4], [8, 16]]` gives 31 |
| MergeWithStrength.Keys | src/lova/aggregators/merge_with_strength.py:42-43 | the selected columns are the mapping's keys, in iteration order |
| MergeWithStrength.Weights | src/lova/aggregators/merge_with_strength.py:42-44 | the strength list is the mapping's values, in iteration order |
| MergeWithStrength.SplitStrengthDict | src/lova/aggregators/merge_with_strength.py:40-44 | the unzip loop yields lists as long as the mapping in which `selected_columns[i]` and `strength_list[i]` form the mapping's `i`-th entry |
| MergeWithStrength.FirstMissingColumn | src/lova/aggregators/merge_with_strength.py:47 | there is no missing name exactly when every selected name is a column; a reported name is selected and not a column |
| MergeWithStrength.NumericalStrengths | src/lova/aggregators/merge_with_strength.py:46-48 | the merge succeeds exactly when every key is a column and every selected cell is a number or NaN, giving one value per row; KeyError exactly when a key is not a column |
| MergeWithStrength.MergeNumericalInteractionsWithStrength | src/lova/aggregators/merge_with_strength.py:40-49 | on success the table gains or overwrites `numerical_strength` with the per-row weighted sums, and no other column, name or height changes; on error the table is untouched |
| MergeWithStrength.WeightedSumAppend | src/lova/aggregators/merge_with_strength.py:46-48 | a row's weighted sum splits over the mapping's entries |
| MergeWithStrength.NumericalOrderFree | src/lova/aggregators/merge_with_strength.py:40-48 | rotating the mapping's iteration order changes neither whether the merge succeeds nor any row's value, because keys and weights are unzipped together |
| MergeWithStrength.RotatedCell | src/lova/aggregators/merge_with_strength.py:46-48 | one row of the merged column is the same for the mapping and its two halves swapped |
| MergeWithStrength.RotatedRow | src/lova/aggregators/merge_with_strength.py:46-48 | a row is numeric in the selected columns for a mapping exactly when it is for the rotated mapping |
| MergeWithStrength.RotatedKeys | src/lova/aggregators/merge_with_strength.py:47 | all keys are columns for a mapping exactly when they are for the rotated mapping |
| MergeWithStrength.RotatedSum | src/lova/aggregators/merge_with_strength.py:46-48 | swapping the two halves of the mapping keeps a row's weighted sum |
| MergeWithStrength.NaNPropagates | src/lova/aggregators/merge_with_strength.py:46-48 | a row's strength is NaN exactly when one of its selected cells is NaN |
| MergeWithStrength.SingleUnitColumn | src/lova/aggregators/merge_with_strength.py:46-48 | one column merged at weight 1 comes back unchanged (ints as floats, NaN as NaN) |
| MergeWithStrength.NumericalDocExample | src/lova/aggregators/merge_with_strength.py:36-38 | the docstring's frame `{A: [1, 2], B: [3, 4]}` with `{A: 0.5, B: 1.5}` gets `[5.0, 7.0]` |
| MergeWithStrength.Scale | src/lova/aggregators/merge_with_strength.py:46 | a cell times a weight is NaN exactly when the cell is NaN |
| MergeWithStrength.AddNaN | src/lova/aggregators/merge_with_strength.py:46 | a sum is NaN exactly when one of its terms is |
| MergeWithStrength.LabelCodes | src/lova/aggregators/convert_label_encoding_to_vector.py:41-43 | a label cell has integer codes to iterate exactly when it is a tuple of integers (its elements, in order) or the empty string (none) |
| MergeWithStrength.RowVector | src/lova/aggregators/convert_label_encoding_to_vector.py:22-44 | a label decodes exactly when it has integer codes, or it is a string or tuple and the width is 0 (the shift is never evaluated); the vector has the given width and is the summed code vector whenever there are codes; integers, numbers and NaN (not iterable) always raise TypeError |
| MergeWithStrength.RowStrength | src/lova/aggregators/merge_with_strength.py:78-81 | a decodable row weighs the strength of its codes, and 0.0 when it is text against an empty strength vector |
| MergeWithStrength.ToReals | src/lova/aggregators/merge_with_strength.py:79 | `np.stack` turns the count vector into floats entry by entry |
| MergeWithStrength.BoolStrengths | src/lova/aggregators/merge_with_strength.py:77-81 | succeeds exactly when the label column is present, has rows and every row decodes; one strength per row, in row order, each the strength of the row's codes (0.0 for text against an empty strength vector); KeyError exactly for an absent label column; ValueError exactly for a table without rows (`np.stack` of nothing); TypeError exactly when some row does not decode |
| MergeWithStrength.MergeBoolInteractionsWithStrength | src/lova/aggregators/merge_with_strength.py:75-82 | on success the table gains or overwrites `bool_strength` and nothing else changes; on error the table is untouched |
| MergeWithStrength.LabelVectors | src/lova/aggregators/merge_with_strength.py:77-78 | the loop decodes every row with `label_list_to_vector` at the width of the strength vector, or fails with TypeError exactly when some row does not decode |
| MergeWithStrength.EmptyLabelWeighsZero | src/lova/aggregators/convert_label_encoding_to_vector.py:41-44 | the empty string and the empty tuple decode to the zero vector and weigh 0.0 |
| MergeWithStrength.ZeroWidthBoolStrengths | src/lova/aggregators/convert_label_encoding_to_vector.py:22 | against an empty strength vector the merge succeeds exactly when every row is a string or a tuple, and then every strength is 0.0 |
| MergeWithStrength.BoolStrengthAdditive | src/lova/aggregators/merge_with_strength.py:78-81 | a row's strength is additive over its code list |
| MergeWithStrength.BoolStrengthOfCode | src/lova/aggregators/merge_with_strength.py:78-81 | one code weighs the dot product of its decoded bits with the strength vector |
| MergeWithStrength.BoolStrengthHighBits | src/lova/aggregators/merge_with_strength.py:78-81 | bits above the strength vector's width do not contribute |
| MergeWithStrength.BoolStrengthMonotone | src/lova/aggregators/merge_with_strength.py:78-81 | with non-negative strengths, more labels never lower a row's strength |
| MergeWithStrength.BoolDocExample | src/lova/aggregators/merge_with_strength.py:81 | code 2 (bits `[1, 0]`) with strengths `[1.0, 2.0]` weighs 1.0 |
| NormalizeWithPercentile.ColumnQuantile | src/lova/aggregators/normalize_with_percentile.py:32 | the quantile exists exactly when the percentile is in [0, 1] and the column holds numbers and NaNs only; it is NaN exactly when the column has no number |
| NormalizeWithPercentile.QuantileBounds | src/lova/aggregators/normalize_with_percentile.py:32 | the interpolated quantile of a sorted list lies between its ends; percentile 0 and 1 give the ends |
| NormalizeWithPercentile.InterpolationBetween | src/lova/aggregators/normalize_with_percentile.py:32 | interpolating between two neighbours of a sorted list stays between its ends |
| NormalizeWithPercentile.ColumnQuantileBounds | src/lova/aggregators/normalize_with_percentile.py:32 | a column's quantile lies between its smallest and largest number, and percentile 1 gives the largest |
| NormalizeWithPercentile.CapColumn | src/lova/aggregators/normalize_with_percentile.py:33 | capping keeps the column's length and leaves every cell a number or NaN |
| NormalizeWithPercentile.CapLowersOnly | src/lova/aggregators/normalize_with_percentile.py:33 | after capping every number is at most the cap and at most its old value, numbers up to the cap are unchanged, and NaNs stay NaN |
| NormalizeWithPercentile.NumbersOfCapped | src/lova/aggregators/normalize_with_percentile.py:33 | capping a column caps its numbers one by one, in order |
| NormalizeWithPercentile.CappedRange | src/lova/aggregators/normalize_with_percentile.py:33-36 | a cap between the smallest and largest number keeps the minimum and makes the cap the new maximum |
| NormalizeWithPercentile.FullPercentileKeepsColumn | src/lova/aggregators/normalize_with_percentile.py:32-33 | at percentile 1 the cap changes nothing |
| NormalizeWithPercentile.ScaleColumn | src/lova/aggregators/normalize_with_percentile.py:34-36 | min-max scaling keeps the column's length |
| NormalizeWithPercentile.RescaleProperties | src/lova/aggregators/normalize_with_percentile.py:34-36 | `(v - lo) / (hi - lo)` maps `[lo, hi]` into [0, 1], is monotone, and sends `lo` to 0 and `hi` to 1 |
| NormalizeWithPercentile.ScaledInUnitInterval | src/lova/aggregators/normalize_with_percentile.py:34-36 | every scaled cell is NaN or a number in [0, 1] |
| NormalizeWithPercentile.ScaledNaN | src/lova/aggregators/normalize_with_percentile.py:34-36 | a scaled cell is NaN exactly when it was NaN or the column's numbers are all equal (the unguarded division by zero) |
| NormalizeWithPercentile.ScaledOrder | src/lova/aggregators/normalize_with_percentile.py:34-36 | scaling keeps the order of numbers and sends the minimum to 0 and the maximum to 1 |
| NormalizeWithPercentile.CappedColumn | src/lova/aggregators/normalize_with_percentile.py:33 | capping between the extremes keeps NaNs and numbers, the minimum, and makes the cap the maximum |
| NormalizeWithPercentile.CappedScaledCell | src/lova/aggregators/normalize_with_percentile.py:33-36 | after cap and scale each number lies in [0, 1], numbers at or above the cap become 1 and the minimum becomes 0 |
| NormalizeWithPercentile.NormalizedColumn | src/lova/aggregators/normalize_with_percentile.py:32-36 | for a quantile above the minimum, each normalized number lies in [0, 1]; values at or above the quantile map to 1 and the minimum to 0 |
| NormalizeWithPercentile.NormalizedMonotone | src/lova/aggregators/normalize_with_percentile.py:32-36 | normalization is monotone within a column: `x <= y` implies `norm(x) <= norm(y)` |
| NormalizeWithPercentile.DegenerateCapGivesNaN | src/lova/aggregators/normalize_with_percentile.py:32-36 | a quantile equal to the minimum leaves a constant column, and every cell becomes NaN |
| NormalizeWithPercentile.NormalizeAll | src/lova/aggregators/normalize_with_percentile.py:31-36 | the loop keeps the table's columns and their lengths |
| NormalizeWithPercentile.OtherColumnsUnchanged | src/lova/aggregators/normalize_with_percentile.py:31-36 | columns that are not selected are left as they were |
| NormalizeWithPercentile.SelectedColumnsNormalized | src/lova/aggregators/normalize_with_percentile.py:31-36 | when the loop over distinct columns completes, every selected column holds the rescaling of its own capped values, capped at its own quantile as given |
| NormalizeWithPercentile.AbsentColumnFails | src/lova/aggregators/normalize_with_percentile.py:31-32 | the loop stops with KeyError at the first selected name that is not a column |
| NormalizeWithPercentile.NormalizeWithPercentileCap | src/lova/aggregators/normalize_with_percentile.py:12-37 | the table in place ends as the column-by-column normalization of the selected columns (percentile 0.999 unless given), with names and height unchanged |
| NormalizeWithPercentile.NormalizeColumn | src/lova/aggregators/normalize_with_percentile.py:32-36 | one loop step replaces the column by its scaled capped self, or leaves the table untouched when the quantile raises |
| SequenceOrder.ArgSort | src/lova/aggregators/generate_sequence_order.py:23 | `argsort` returns a permutation of the indices that puts the keys in ascending order |
| SequenceOrder.Positions | src/lova/aggregators/generate_sequence_order.py:23-25 | the output is a permutation of `0..n-1` (as long as the input; empty for an empty input) |
| SequenceOrder.PermutationOfRange | src/lova/aggregators/generate_sequence_order.py:23-24 | a list with the multiset of `0..n-1` is a permutation of `0..n-1` |
| SequenceOrder.ArgSortInverts | src/lova/aggregators/generate_sequence_order.py:24 | argsort of a permutation is its inverse |
| SequenceOrder.ReversePermutation | src/lova/aggregators/generate_sequence_order.py:24 | reversing a permutation gives a permutation |
| SequenceOrder.PositionsSpec | src/lova/aggregators/generate_sequence_order.py:23-24 | the output inverts the reversed ascending order: `positions[sorted_order[k]] == n-1-k` |
| SequenceOrder.LaterDateFirst | src/lova/aggregators/generate_sequence_order.py:23-24 | a strictly later date gets a strictly smaller position |
| SequenceOrder.LatestGetsZero | src/lova/aggregators/generate_sequence_order.py:23-24 | the strictly latest date gets position 0 |
| SequenceOrder.DocExample | src/lova/aggregators/generate_sequence_order.py:20-25 | the docstring's input `[20200101, 20210101, 20200102]` gives `[2, 0, 1]` |
| LoadDataFrame.ConvertElement | src/lova/dataloaders/load_dataframe.py:85 | an element failing the `lstrip("-").isdigit()` test stays text; an integer produced is non-negative; the only error is ValueError |
| LoadDataFrame.ConvertElements | src/lova/dataloaders/load_dataframe.py:84-87 | the generator succeeds exactly when every element converts, giving one field per element in order; its error is that of a failing element |
| LoadDataFrame.ConvertStringToTupleOfNum | src/lova/dataloaders/load_dataframe.py:80-87 | an integer gives the one-element tuple of its absolute value; a number, NaN or tuple cell has no `split` and raises AttributeError; a successful conversion is a tuple |
| LoadDataFrame.TupleShape | src/lova/dataloaders/load_dataframe.py:83-87 | a text value gives one element per `\x02`-separated part, in order, each converted on its own, none of them a negative integer |
| LoadDataFrame.DigitTestShape | src/lova/dataloaders/load_dataframe.py:85 | an element passing the digit test is a run of dashes followed by digits |
| LoadDataFrame.ConvertDashed | src/lova/dataloaders/load_dataframe.py:85 | dashes before digits convert to the digits' value (the absolute value) with at most one dash, and raise ValueError with two or more |
| LoadDataFrame.LStripDigits | src/lova/dataloaders/load_dataframe.py:85 | stripping leading dashes from dashes-then-digits leaves the digits |
| LoadDataFrame.EmptyAndDashStayText | src/lova/dataloaders/load_dataframe.py:85 | `""` and `"-"` stay text |
| LoadDataFrame.DoubleDashFails | src/lova/dataloaders/load_dataframe.py:85 | `"--5"` passes the digit test but `int` raises ValueError |
| LoadDataFrame.ConvertFormatted | src/lova/dataloaders/load_dataframe.py:85 | any integer written in decimal converts to its absolute value |
| LoadDataFrame.ConvertDecimalParts | src/lova/dataloaders/load_dataframe.py:84-87 | a list of decimal numerals converts to those numbers |
| LoadDataFrame.TupleRoundTrip | src/lova/dataloaders/load_dataframe.py:83-87 | non-negative integers joined with `\x02` convert back to exactly that tuple |
| LoadDataFrame.RemoveNames | src/lova/dataloaders/load_dataframe.py:57-61 | removal never lengthens the list |
| LoadDataFrame.RemoveNamesMembers | src/lova/dataloaders/load_dataframe.py:57-61 | a name survives exactly when it was listed and is not dropped |
| LoadDataFrame.RemoveNamesAppend | src/lova/dataloaders/load_dataframe.py:57-61 | removal works name by name, so survivors keep their order |
| LoadDataFrame.RemoveNamesIdempotent | src/lova/dataloaders/load_dataframe.py:57-61 | removing the same names twice removes nothing more |
| LoadDataFrame.FilterNames | src/lova/dataloaders/load_dataframe.py:57-61 | the comprehension's loop keeps exactly the names not dropped, in order |
| LoadDataFrame.DataFrameLoader.constructor | src/lova/dataloaders/load_dataframe.py:41-43 | the loader holds the given column names and names to drop |
| LoadDataFrame.DataFrameLoader.UpdateColumnNames | src/lova/dataloaders/load_dataframe.py:56-63 | without names to drop nothing changes; otherwise the names become the order-preserving removal, or TypeError when there is no name list |
| LoadDataFrame.ConvertColumn | src/lova/dataloaders/load_dataframe.py:121-123 | `apply` succeeds exactly when every cell converts, cell by cell in order; its error is that of the first failing cell, every earlier cell converting |
| LoadDataFrame.ConvertedColumnsHoldTuples | src/lova/dataloaders/load_dataframe.py:121-123 | a converted column holds tuples only, and converting it again fails unless it is empty |
| LoadDataFrame.LiteralAll | src/lova/dataloaders/load_dataframe.py:120-123 | the loop keeps the table's columns and their lengths |
| LoadDataFrame.LiteralOtherColumns | src/lova/dataloaders/load_dataframe.py:120-123 | columns not named are left as they were |
| LoadDataFrame.LiteralColumnsHoldTuples | src/lova/dataloaders/load_dataframe.py:120-123 | after a complete run every named column holds tuples only |
| LoadDataFrame.DataFrameLoader.LiteralDataframe | src/lova/dataloaders/load_dataframe.py:120-123 | the table in place ends as the column-by-column conversion, with names and height unchanged; no name list is a TypeError |
| LoadSequence.DropBlank | src/lova/dataloaders/load_sequence.py:62 | the filter keeps no `""` and no `","` |
| LoadSequence.DropBlankMembers | src/lova/dataloaders/load_sequence.py:62 | a field is kept exactly when it was there and is neither `""` nor `","` |
| LoadSequence.DropBlankAppend | src/lova/dataloaders/load_sequence.py:62 | the filter keeps the order of what it keeps |
| LoadSequence.DropBlankKeepsAll | src/lova/dataloaders/load_sequence.py:62 | without blank fields the filter changes nothing |
| LoadSequence.ExtractSequence | src/lova/dataloaders/load_sequence.py:59-65 | a line without NUL always gives at least one field |
| LoadSequence.NewlinesIgnored | src/lova/dataloaders/load_sequence.py:59 | newlines at either end of a line do not change its fields |
| LoadSequence.NoNulIsCommaSplit | src/lova/dataloaders/load_sequence.py:63-64 | without NUL the fields are the comma split, empty fields kept, at least one, and joining them with commas gives the stripped line back |
| LoadSequence.NulSegments | src/lova/dataloaders/load_sequence.py:59-62 | with NUL the fields are the comma split of the first segment followed by the other segments unsplit, in order, blanks dropped |
| LoadSequence.NulBranchFields | src/lova/dataloaders/load_sequence.py:60-62 | in the NUL branch no field is `""` or `","`, and a text is a field exactly when it is a non-blank comma field of the first segment or a non-blank later segment |
| LoadSequence.ColumnName | src/lova/dataloaders/load_sequence.py:44 | `item.split(".")[1]` exists exactly when the item has a dot, holds no dot, and is otherwise IndexError |
| LoadSequence.ColumnNameBetweenDots | src/lova/dataloaders/load_sequence.py:44 | the column name is the text between the first and second dot |
| LoadSequence.ColumnNamePosition | src/lova/dataloaders/load_sequence.py:44 | an item with a dot is a dot-free prefix, a dot, its column name and a rest that is empty or starts with a dot |
| LoadSequence.ColumnNamesOf | src/lova/dataloaders/load_sequence.py:44 | the header gives names exactly when every field has a dot, one name per field in order; otherwise IndexError |
| LoadSequence.DataLinesSpec | src/lova/dataloaders/load_sequence.py:74-77 | the header is skipped and a `max_rows` keeps that many lines from the front (a negative one counts from the end); never more than `max_rows` lines |
| LoadSequence.DataLinesInOrder | src/lova/dataloaders/load_sequence.py:74-77 | selected line `k` is file line `k+1` |
| LoadSequence.ExtractLines | src/lova/dataloaders/load_sequence.py:78-79 | the loop gives one field list per line, in order |
| LoadSequence.SequenceLoader.constructor | src/lova/dataloaders/load_sequence.py:33 | the loader starts with its row limit and no names or rows |
| LoadSequence.SequenceLoader.GetColumnNames | src/lova/dataloaders/load_sequence.py:42-44 | the names are set from the header line, or IndexError leaves the loader unchanged |
| LoadSequence.SequenceLoader.GetDataframe | src/lova/dataloaders/load_sequence.py:72-79 | the rows are the extracted fields of the selected data lines, in file order; nothing else changes |
| LoadHdfs.PyMod | src/lova/dataloaders/load_hdfs.py:222 | Python's `%` takes the divisor's sign: in `[0, m)` for `m > 0`, in `(m, 0]` for `m < 0` |
| LoadHdfs.PyDivMod | src/lova/dataloaders/load_hdfs.py:222 | floor division and `%` recombine to the dividend |
| LoadHdfs.PyModUnique | src/lova/dataloaders/load_hdfs.py:222 | the remainder is the only one with the divisor's sign that recombines to the dividend |
| LoadHdfs.FilterWithMod | src/lova/dataloaders/load_hdfs.py:222 | IndexError exactly for an index outside the parts (negative ones count from the end), ValueError exactly for a non-integer field, ZeroDivisionError exactly for a zero divisor; a result has the divisor's sign and is below it in size |
| LoadHdfs.FilterRemainder | src/lova/dataloaders/load_hdfs.py:222 | a successful filter is the field's integer minus a multiple of the divisor |
| LoadHdfs.LineParts | src/lova/dataloaders/load_hdfs.py:154 | after stripping newlines a line splits into delimiter count + 1 fields that join back to it |
| LoadHdfs.ConvertParts | src/lova/dataloaders/load_hdfs.py:162-164 | one converted field per part |
| LoadHdfs.ConvertPartCases | src/lova/dataloaders/load_hdfs.py:162-164 | a printed natural number becomes that int; an empty field or one with a non-digit stays text |
| LoadHdfs.LeadingZerosLost | src/lova/dataloaders/load_hdfs.py:163 | `"007"` becomes 7 |
| LoadHdfs.KeepLine | src/lova/dataloaders/load_hdfs.py:154-167 | a line's result exists exactly when its filter succeeds, and it contributes at most one row |
| LoadHdfs.Collect | src/lova/dataloaders/load_hdfs.py:149-171 | the accumulated rows exist exactly when every line succeeds; otherwise the error is some line's |
| LoadHdfs.CollectFirstFailure | src/lova/dataloaders/load_hdfs.py:155-167 | a failed accumulation carries the error of the first failing line, every earlier line having succeeded |
| LoadHdfs.CollectAppend | src/lova/dataloaders/load_hdfs.py:165-167 | accumulating two runs of lines concatenates their rows, or gives the first run's error first |
| LoadHdfs.CollectIncludes | src/lova/dataloaders/load_hdfs.py:165-167 | every row a line contributes is in the result |
| LoadHdfs.CollectOrigin | src/lova/dataloaders/load_hdfs.py:165-167 | every row of the result comes from some line |
| LoadHdfs.CollectSingles | src/lova/dataloaders/load_hdfs.py:165-167 | lines each contributing one row give those rows in order |
| LoadHdfs.CollectStep | src/lova/dataloaders/load_hdfs.py:149-171 | one more line appends its rows, or its error becomes the result |
| LoadHdfs.LineResults | src/lova/dataloaders/load_hdfs.py:149-164 | one result per line |
| LoadHdfs.KeptRowsSucceed | src/lova/dataloaders/load_hdfs.py:155-167 | the file is processed exactly when every line's filter succeeds, otherwise with the first failing line's error |
| LoadHdfs.KeptRowsAppend | src/lova/dataloaders/load_hdfs.py:149-171 | processing two runs of lines gives the first run's rows before the second's |
| LoadHdfs.KeptLineIncluded | src/lova/dataloaders/load_hdfs.py:155-167 | a line whose filter gives `remainder` contributes its converted fields |
| LoadHdfs.KeptRowOrigin | src/lova/dataloaders/load_hdfs.py:155-167 | every returned row is the converted fields of a line whose filter gives `remainder` |
| LoadHdfs.UnitModKeepsAll | src/lova/dataloaders/load_hdfs.py:155-167 | divisor 1 with remainder 0 keeps every line, in order |
| LoadHdfs.HDFSDataloader.ProcessFile | src/lova/dataloaders/load_hdfs.py:149-171 | the readline loop returns exactly the rows of the kept lines, in file order, or the first line's error |
| LoadHdfs.Visible | src/lova/dataloaders/load_hdfs.py:113-116 | the visible entries are listing entries whose names do not start with a dot |
| LoadHdfs.LexTotal | src/lova/dataloaders/load_hdfs.py:118 | Python string `<=` is total |
| LoadHdfs.LexTrans | src/lova/dataloaders/load_hdfs.py:118 | Python string `<=` is transitive |
| LoadHdfs.LexPreorder | src/lova/dataloaders/load_hdfs.py:118 | Python string `<=` is a total preorder, so `sorted` applies |
| LoadHdfs.SelectFilesSpec | src/lova/dataloaders/load_hdfs.py:117-120 | the file list is sorted, drawn from the names and drops the least name; without a maximum it is all names but the least; with a maximum `m >= 0` it holds `min(m, n - 1)` of the names, and every name left out besides the least is at least every selected one |
| LoadHdfs.SmallestNames | src/lova/dataloaders/load_hdfs.py:117-120 | with a maximum `m >= 0` the selection holds `min(m, n - 1)` names, fits in the listing beside the least, and every name left out is at least every selected one |
| LoadHdfs.LeastName | src/lova/dataloaders/load_hdfs.py:118-120 | the first sorted name is a name no greater than any other |
| LoadHdfs.SelectedNames | src/lova/dataloaders/load_hdfs.py:117-120 | the selected names are given names in ascending order, at most `max_file_num` of them |
| LoadHdfs.AllButLeast | src/lova/dataloaders/load_hdfs.py:120 | without a maximum exactly the first sorted name is dropped |
| LoadHdfs.SortedHeadLeast | src/lova/dataloaders/load_hdfs.py:118 | the head of a sorted list is at most every element |
| LoadHdfs.VisibleEntries | src/lova/dataloaders/load_hdfs.py:111-116 | the loop collects names and sizes of the visible entries side by side, in listing order |
| LoadHdfs.VisibleStep | src/lova/dataloaders/load_hdfs.py:113-116 | one more entry adds its name and size unless it is hidden |
| LoadHdfs.SizesNotAligned | src/lova/dataloaders/load_hdfs.py:111-120 | `file_sizes` is neither sorted nor cut with `file_list`: it keeps one more entry than the list without a maximum |
| LoadHdfs.HDFSDataloader.GetFileList | src/lova/dataloaders/load_hdfs.py:110-120 | the file list is the selection from the visible names and the sizes are the visible sizes in listing order; the settings do not change |
| LoadHdfs.HDFSDataloader.constructor | src/lova/dataloaders/load_hdfs.py:69-85 | the explicit-argument branch stores its settings and ends with the file list of the listing |
| IalsEvaluator.MapIds | src/lova/evaluators/ials_evaluator.py:40-45 | `Series.map(dict)` keeps length; a row maps to NaN exactly when its id is not in the dictionary, and otherwise to the id's index |
| IalsEvaluator.Mapped | src/lova/evaluators/ials_evaluator.py:40-45 | the two assignments succeed exactly when both id columns exist, adding `user_map` and `item_map`; otherwise KeyError for the first absent column |
| IalsEvaluator.Indices | src/lova/evaluators/ials_evaluator.py:48-49 | `.astype(int).to_list()` on an all-integer column gives its integers in order |
| IalsEvaluator.MapColumnsAreInts | src/lova/evaluators/ials_evaluator.py:47-49 | after `dropna` the two map columns hold only integers |
| IalsEvaluator.SurvivingRow | src/lova/evaluators/ials_evaluator.py:40-47 | a row survives exactly when both its ids are mapped and no other column is missing in it |
| IalsEvaluator.IndicesFromSameRow | src/lova/evaluators/ials_evaluator.py:47-49 | the `k`-th entries of both index lists are the indices of the ids in the same surviving row, the `k`-th in table order |
| IalsEvaluator.Scores | src/lova/evaluators/ials_evaluator.py:59-61 | one score per index pair |
| IalsEvaluator.MeanScore | src/lova/evaluators/ials_evaluator.py:59-62 | IndexError exactly when an index is outside its factor matrix, otherwise it succeeds exactly when the two widths broadcast, ValueError for widths numpy cannot multiply; NaN exactly for no surviving rows |
| IalsEvaluator.ScoreIsDot | src/lova/evaluators/ials_evaluator.py:59-61 | with equal widths a row's score is the plain dot product of the two factor rows, unnormalised |
| IalsEvaluator.MeanScoreBounds | src/lova/evaluators/ials_evaluator.py:62 | the evaluation lies between the least and greatest row score |
| IalsEvaluator.SinglePair | src/lova/evaluators/ials_evaluator.py:59-62 | one surviving pair evaluates to its own dot product |
| IalsEvaluator.ImplicitALSEvaluator.constructor | src/lova/evaluators/ials_evaluator.py:27-29 | the evaluator shares the caller's table and holds the recommender |
| IalsEvaluator.ImplicitALSEvaluator.AddMapColumns | src/lova/evaluators/ials_evaluator.py:40-45 | the caller's table gains `user_map` and `item_map` in place with its height unchanged, its column list gaining `user_map` then `item_map` where each is new; a missing user column raises KeyError before any change, a missing item column after `user_map` was added |
| IalsEvaluator.AddedMapColumnsSpec | src/lova/evaluators/ials_evaluator.py:40-45 | the names the two assignments append are exactly the map columns that are new, without repetition, `user_map` before `item_map` |
| IalsEvaluator.BothMapColumnsAppended | src/lova/evaluators/ials_evaluator.py:40-45 | appending `user_map` and then `item_map`, each only when absent, extends the column list by exactly the new map columns |
| IalsEvaluator.ImplicitALSEvaluator.MapIdToIndex | src/lova/evaluators/ials_evaluator.py:40-49 | the caller's table is mapped and loses every incomplete row in place, its column list gaining `user_map` then `item_map` where each is new, and the index lists are its two map columns as integers |
| IalsEvaluator.ImplicitALSEvaluator.Evaluate | src/lova/evaluators/ials_evaluator.py:58-62 | a function of the state, so repeated calls agree; NaN exactly for no indices; only IndexError or ValueError |
| Table.CompleteRows | src/lova/evaluators/ials_evaluator.py:47 | the complete rows in increasing order, all of them |
| Table.SelectRows | src/lova/evaluators/ials_evaluator.py:47 | the picked cells in the order of the picked rows |
| Table.DropMissing | src/lova/evaluators/ials_evaluator.py:47 | `dropna` keeps every column |
| Table.Frame.constructor | src/lova/evaluators/ials_evaluator.py:28 | a table whose names are distinct, name exactly its columns, and whose columns are equally long |
| Table.Frame.SetColumn | src/lova/aggregators/merge_with_strength.py:46 | `frame[name] = values` overwrites the column or appends a new name, keeping the table well formed |
| Table.Frame.DropNa | src/lova/evaluators/ials_evaluator.py:47 | `dropna(inplace=True)` keeps the names and leaves exactly the complete rows |
| Vectors.DotAppend | src/lova/aggregators/merge_with_strength.py:46-48 | the dot product splits over concatenation |
| Vectors.DotRotate | src/lova/aggregators/merge_with_strength.py:46-48 | moving (value, weight) blocks around keeps the dot product |
| Vectors.DotAdd | src/lova/aggregators/merge_with_strength.py:81 | the dot product is linear in its first argument |
| Vectors.DotZero | src/lova/aggregators/merge_with_strength.py:81 | a zero vector dots to zero with any weights |
| Vectors.SumBounds | src/lova/evaluators/ials_evaluator.py:62 | a sum of values in `[lo, hi]` lies in `[n*lo, n*hi]` |
| Vectors.MeanBounds | src/lova/evaluators/ials_evaluator.py:62 | a mean lies between the least and greatest value |
| Wrappers.Gather | src/lova/dataloaders/load_dataframe.py:84-87 | results gathered in order succeed exactly when all do; the failure is the first failing one's |
| PyStr.JoinSplit | src/lova/dataloaders/load_sequence.py:64 | joining the parts of `split(sep)` with `sep` gives the text back |
| PyStr.SplitJoin | src/lova/dataloaders/load_dataframe.py:83 | splitting separator-free parts joined by the separator gives the parts back |
| PyStr.ParseFormat | src/lova/dataloaders/load_dataframe.py:85 | `int(str(n)) == n` |
| PyList.SliceIndex | src/lova/dataloaders/load_hdfs.py:118 | a slice bound counts from the end when negative and is clamped to the list |
| PyList.SortBySorted | src/lova/dataloaders/load_hdfs.py:118 | `sorted` orders its result |
| PyList.SortBy | src/lova/dataloaders/load_hdfs.py:118 | `sorted` is a permutation of its input |
| PyList.SliceWithin | src/lova/dataloaders/load_hdfs.py:118-120 | a slice holds elements of the list and keeps it sorted |

## Left out

- HDFS connection, buffered reading, progress bars, `.pkl` output, `_create_save_path`, `save_to_dataframe`, the joblib fan-out in `run`, and `file_list.index`: I/O and process parallelism. `HDFSDataloader.ProcessFile` takes the file's lines and returns the rows instead of saving them.
- LoadHdfs.HDFSDataloader.constructor: only the explicit-argument branch is modelled. The config branch (src/lova/dataloaders/load_hdfs.py:62-68) never sets `mod`, so any later filter would raise AttributeError. The listing comes in as a parameter, and `num_jobs` is left out.
- LoadHdfs.LineParts: the delimiter is one character. A multi-character `delimiter` is not modelled.
- LoadHdfs.SelectFilesSpec: it requires a non-empty listing, because it names the least file. An empty listing selects nothing.
- `int()` and `str.isdigit()` are ASCII only. Unicode digits, surrounding whitespace and `_` separators are not modelled (LoadDataFrame.ConvertElement, LoadHdfs.FilterWithMod, LoadHdfs.ConvertPartCases).
- DataFrameLoader `_get_dataframe` (file and pickle reading, concatenation, renaming and dropping columns) and `load_data` are file I/O. The model starts from the loaded table.
- LoadDataFrame.DataFrameLoader.constructor: `__init__` passes five arguments to a three-parameter base (src/lova/dataloaders/load_dataframe.py:37 against src/lova/dataloaders/base.py:7), so it always raises TypeError and lines 38-43 never run. The model keeps only the state those lines would set (the column names and the names to drop, given directly); the config branch, file path, name, type and row limit are left out.
- LoadSequence.SequenceLoader.constructor: `__init__` passes four arguments to a three-parameter base (src/lova/dataloaders/load_sequence.py:33 against src/lova/dataloaders/base.py:7), so it cannot run. The model keeps only the loader's fields; the file URL and the file opening are left out.
- LoadSequence.SequenceLoader.GetDataframe: its result is the list of field lists. Building the pandas DataFrame from it (padding ragged rows, pairing with `column_names`) is not modelled.
- `src/lova/recommenders/ials.py` (a wrapper over `implicit`) is not part of this model. Its factor matrices are inputs to `evaluate`, as rectangular `seq<seq<real>>`.
- IalsEvaluator.ImplicitALSEvaluator.constructor: it does not run `_map_id_to_index` itself. `MapIdToIndex` is that step, because its in-place effect on the shared table is stated there.
- IalsEvaluator.MeanScore: the row dimension is not broadcast. Index lists of unequal length are excluded by its precondition, which `MapIdToIndex` guarantees.
- SequenceOrder.Positions: `np.argsort`'s order among equal dates is not modelled. The sort is a stable insertion sort, and the order properties are stated for distinct dates only.
- The docstring of `sequence_order_from_date` (src/lova/aggregators/generate_sequence_order.py:19-21) shows `[1, 0, 2]`. The code gives `[2, 0, 1]` for that input, and the model follows the code.
- Floating point: values are `real`, and NaN is the `Missing` cell. Rounding, infinities and numpy dtype coercions are not modelled.
- NormalizeWithPercentile.ColumnQuantile: a column holding anything other than numbers and NaN is a TypeError. pandas' exact dtype rules for quantile are not modelled.
- MergeWithStrength.MergeBoolInteractionsWithStrength: label cells are the table's cell kinds (integer, number, text, tuple of integers and text, NaN). Labels held as Python lists, numpy arrays or booleans, which `label_list_to_vector` would also iterate or shift, are not modelled.
- `sequence_order_from_date_with_time_dacay` and `sequence_with_equal_importance` are exported by the aggregators package, but their source is not part of this model.
- `src/lova/preprocessors/preprocess_interactions.py` is an empty stub. The abstract bases, the MovieLens downloader and `logical_processors.py` are not part of this model.
- Logging is not modelled.
