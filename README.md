# nprle, modelled in Dafny

nprle run-length encodes binary masks as NumPy arrays of run lengths.
The runs alternate between background and foreground, and the first run
is always background, so a mask that starts with foreground gets an empty
first run. The library does set algebra directly on the encoded form:
intersection, union, difference and symmetric difference. It also
computes intersection over union (mIoU) and the foreground area.

This project models `nprle.py` on flattened masks:

- a mask is a `seq<bool>`;
- an RLE sequence is a `seq<nat>`;
- `Runs.Expand` is what an RLE sequence means: alternating runs, background
  first.

The modules follow the source's layers:

| module | models |
|---|---|
| `Runs` | the representation: expansion, sums, boundary gaps |
| `Decoder` | `rle_decode`, as a method that fills an array of per-run values, then repeats them |
| `Encoder` | `rle_encode`: padding, change detection, gaps between change indices |
| `MergeEngine` | `_rle_merge`: prefix sums, joint sort of boundaries, per-run parities |
| `Coalescer` | `_rle_counts_values`: summing adjacent runs with equal values |
| `Algebra` | `rle_intersect`, `rle_union`, `rle_difference`, `rle_symmetric_difference` |
| `Metrics` | `rle_area`, `rle_miou`, and the reference mIoU of the test suite |
| `Scenarios` | worked examples on the masks `110001` and `011011` |

`_rle_merge` sorts all boundaries with `argsort`, which is unstable, so
equal boundaries of the two inputs can come out in either order. The
model keeps this open:

- `MergeEngine.IsMergeOrder` describes every arrangement the sort may
  produce;
- every correctness lemma is proved for all of them: `MergeCorrect`,
  `CombineCorrect`, `AreaOfCombine` and `MeanIoUCorrect` on RLE inputs, and
  `AlgebraAreasAnyOrder` and `MeanIoUOfEncodingsAnyOrder` end to end on
  masks;
- `MergeEngine.TieOrder` fixes one arrangement (the first input first) to
  define the public functions; `Metrics.AlgebraAreas` and
  `Metrics.MeanIoUOfEncodings` restate the end-to-end facts for these.

Every binary operation requires its inputs to have the same total length.
The source does not check this but silently assumes it; unequal totals
give meaningless results there.

Two behaviours of the code are easy to miss:

- When both inputs have a boundary at the same position, the refinement
  keeps a run of length zero between them. Coalescing does not remove it
  when its value differs from its neighbours'. So an algebra result can
  contain empty runs after the first: `Scenarios.AlgebraExamples` shows
  the intersection `[1, 1, 3, 1, 0]`. Results are therefore not always
  canonical, and re-encoding the decoded result drops the empty run
  (`Scenarios.IntersectionNotCanonical`).
- The result sequence can depend on the order of tied boundaries
  (`Algebra.DifferenceDependsOnTieOrder`). What it decodes to, its area
  and the mIoU do not.

## Model

| member | source | states |
|---|---|---|
| `Decoder.Decode` | nprle.py:21-28 | the per-run values alternate, background first; the result is their repetition by the run lengths, i.e. the expansion of the counts, of length the counts' sum |
| `Decoder.DecodeAt` | nprle.py:25-28 | a position covered by run `k` is foreground exactly when `k` is odd |
| `Encoder.Padded` | nprle.py:13 | the padded mask is the mask with a background element in front and the negation of its last element behind |
| `Encoder.ChangeIndices` | nprle.py:15-16 | the change indices of the padded mask ascend from 0, and the last one is the size of the mask |
| `Encoder.Encode` | nprle.py:3-19 | the run lengths of a mask add up to its size |
| `Encoder.ExpandChanges` | nprle.py:13-18 | the gaps between the change indices of a padded mask expand back to the interior of the padded mask |
| `Encoder.RoundTrip` | nprle.py:3-28 | decoding the encoding of any mask gives the mask back |
| `Encoder.EncodeShape` | nprle.py:6-19 | the lengths sum to the size; only the empty mask encodes to the empty sequence; the first run is empty exactly when the mask starts with foreground; every later run is nonempty |
| `Encoder.CanonicalUnique` | nprle.py:3-19 | two canonical sequences with the same expansion are equal |
| `Encoder.EncodeOfExpand` | nprle.py:3-28 | re-encoding a decoded canonical sequence gives it back |
| `MergeEngine.PrefixSums` | nprle.py:32-33 | one cumulative sum per run, ascending from the offset |
| `MergeEngine.Refine` | nprle.py:37-43 | one refined run per boundary of the joint arrangement |
| `MergeEngine.RefineSum` | nprle.py:43 | the refined lengths from a start position add up to the distance to the last boundary |
| `MergeEngine.MergeWith` | nprle.py:30-45 | one refined run per boundary, and the refined lengths add up to the position of the last boundary |
| `MergeEngine.PrefixSumsGaps` | nprle.py:32-33 | the cumulative sums end at the total and their gaps are the run lengths |
| `MergeEngine.TieOrder` | nprle.py:34-35 | the two-pointer merge of the boundaries is one of the arrangements the sort may produce |
| `MergeEngine.RefineFlags` | nprle.py:37-43 | the parities of one input's boundaries, repeated by the refined lengths, expand that input's own gaps |
| `MergeEngine.ExpandRunsValues` | nprle.py:43 | repeating one input's flags by the refined lengths run by run is NumPy's `repeat` of the flag array by the length array |
| `MergeEngine.MergeCorrect` | nprle.py:30-45 | for any tie order: one refined run per boundary; both flags start as background; the refined lengths sum to the total; each input's flags, repeated by the refined lengths, decode that input |
| `MergeEngine.Merge` | nprle.py:30-45 | the same facts for the concrete tie order |
| `MergeEngine.MergeRunAgrees` | nprle.py:37-43 | on every refined run, each flag equals that input's decoded value at every position the run covers |
| `Coalescer.Coalesce` | nprle.py:47-59 | no runs give no result; otherwise one entry more than there are cut indices, i.e. changes of value between neighbouring runs |
| `Coalescer.CutsFromChanges` | nprle.py:53-54 | the cut indices are increasing and are exactly the indices where the value differs from the one before |
| `Coalescer.CoalesceGroups` | nprle.py:53-57 | the group starts are 0, every change of value and the end; entry `k` is the total length of the runs from group start `k` to group start `k + 1`, i.e. the difference of the running sums there |
| `Coalescer.CoalescePreserves` | nprle.py:47-59 | no runs give no runs; the result, alternating from the first value, expands to the same mask as the runs with their values; the total is preserved |
| `Algebra.Combined` | nprle.py:63-75 | one combined value per refined run |
| `Algebra.CombineWith` | nprle.py:61-75 | no boundaries give no runs; the result covers everything up to the last boundary |
| `Algebra.CombineCorrect` | nprle.py:61-75 | for any tie order: the combined values start as background; the result covers the common total and decodes to the combinator applied element by element to the two decoded inputs |
| `Algebra.TieOrderIrrelevant` | nprle.py:35 | the decoded result is the same for every order of tied boundaries |
| `Algebra.DifferenceDependsOnTieOrder` | nprle.py:35 | two valid tie orders give the differences `[1, 0, 1]` and `[2, 0]` of `[1, 1]` and `[1, 1]` |
| `Algebra.Intersect` | nprle.py:61-63 | the result decodes to the elementwise AND of the decoded inputs and has their total |
| `Algebra.Union` | nprle.py:65-67 | the result decodes to the elementwise OR of the decoded inputs and has their total |
| `Algebra.Difference` | nprle.py:69-71 | the result decodes to the first mask AND NOT the second, with their total |
| `Algebra.SymmetricDifference` | nprle.py:73-75 | the result decodes to the elementwise XOR of the decoded inputs, with their total |
| `Metrics.Area` | nprle.py:87-88 | the foreground area never exceeds the total length |
| `Metrics.AreaCountsForeground` | nprle.py:87-88 | the sum of the odd-indexed runs is the foreground count of the decoded mask |
| `Metrics.AreaOfEncode` | nprle.py:87-88 | the area of an encoded mask is its foreground count |
| `Metrics.AreaOfCombine` | nprle.py:61-75 | for any tie order, the area of an algebra result is the foreground count of the combined decoded masks |
| `Metrics.AlgebraAreas` | test.py:41-44 | on encodings of equal-size masks, the area of each of the four results is the foreground count of the combined masks |
| `Metrics.AlgebraAreasAnyOrder` | test.py:41-44 | the same for every order of tied boundaries: the area of the algebra result on the encodings is the foreground count of the combined masks |
| `Metrics.WeightedSumCounts` | nprle.py:80 | summing the refined lengths weighted by a combinator counts the foreground of the combined expansion |
| `Metrics.ReferenceIoUBounds` | test.py:24-30 | a nonzero reference mIoU has a positive numerator no larger than its denominator |
| `Metrics.WeightedAndBelowOr` | nprle.py:80-85 | the weighted AND sum never exceeds the weighted OR sum |
| `Metrics.MeanIoUWith` | nprle.py:77-85 | for any tie order, a nonzero result has a positive numerator no larger than its denominator |
| `Metrics.MeanIoUCorrect` | nprle.py:77-85 | for any tie order, the weighted AND and OR sums are the intersection and union counts of the decoded masks, and the result, zero case included, equals the reference |
| `Metrics.MeanIoU` | nprle.py:77-85 | the result equals the reference mIoU of the decoded masks, and a nonzero result lies in (0, 1] |
| `Metrics.MeanIoUTieOrderIrrelevant` | nprle.py:35 | the mIoU is the same for every order of tied boundaries |
| `Metrics.MeanIoUOfEncodings` | test.py:36-40 | mIoU of the encodings of two equal-size masks equals the reference computed on the masks |
| `Metrics.MeanIoUOfEncodingsAnyOrder` | test.py:36-40 | the same for every order of tied boundaries |
| `Runs.ExpandEmptyLastRun` | nprle.py:28 | an empty last run adds nothing to the decoded mask |
| `Scenarios.DecodeFirstExample` | nprle.py:21-28 | `[0, 2, 3, 1]` decodes to `110001` |
| `Scenarios.DecodeSecondExample` | nprle.py:21-28 | `[1, 2, 1, 2]` decodes to `011011` |
| `Scenarios.EncodeExamples` | nprle.py:3-19 | `110001` and `011011` encode to `[0, 2, 3, 1]` and `[1, 2, 1, 2]`; the empty mask encodes to the empty sequence |
| `Scenarios.MergeOrderExample` | nprle.py:32-35 | the boundaries of the two encodings, in the concrete tie order, end with two boundaries at position 6 |
| `Scenarios.RefineExample` | nprle.py:37-43 | the refined runs of the example, empty first and last runs included |
| `Scenarios.CombinedAndExample` | nprle.py:63 | the AND values on the refined runs of the example |
| `Scenarios.CombinedOrExample` | nprle.py:67 | the OR values on the refined runs of the example |
| `Scenarios.CoalesceAndExample` | nprle.py:47-59 | coalescing the AND values of the example gives `[1, 1, 3, 1, 0]` |
| `Scenarios.CoalesceOrExample` | nprle.py:47-59 | coalescing the OR values of the example gives `[0, 3, 1, 2]` |
| `Scenarios.AlgebraExamples` | nprle.py:61-67 | the intersection of the two encodings is `[1, 1, 3, 1, 0]` and their union `[0, 3, 1, 2]` |
| `Scenarios.MetricExamples` | nprle.py:77-88 | the areas are 2 and 5 and the mIoU is 2 / 5 |
| `Scenarios.IntersectionNotCanonical` | nprle.py:3-28 | the intersection `[1, 1, 3, 1, 0]` decodes to `010001`, which re-encodes to `[1, 1, 3, 1]` |

## Left out

- Shapes and memory order are left out. `rle_encode` flattens its input in
  the given order (column-major by default) and `rle_decode` reshapes its
  output. The model works on the flattened mask only, and so leaves out
  the `order` and `shape` arguments and the error NumPy raises when the
  shape does not match.
- `len` on a multi-dimensional input is left out: the source's emptiness
  test uses it on the first axis only, and the model has no axes.
- Coercion of arbitrary arrays to `bool` is left out: masks are `seq<bool>`.
- The `dtype` argument and the `astype` cast of `rle_encode` are left out.
  Run lengths are unbounded `nat`, so the model does not capture
  wrap-around of `int32` counts or sums for masks of 2^31 elements or more.
- Metrics.MeanIoU: the model returns the exact pair (numerator,
  denominator), or zero, rather than the floating-point quotient. Every
  lemma compares exact quantities; float rounding and its equality with
  the reference quotient are not modelled.
- The NumPy bit tricks are modelled by their meaning:
  - `& 1` on cumulative sums is a parity flag that flips at every boundary;
  - in `rle_difference`, `~values2` is bitwise NOT on 0/1 integers (giving
    -1 or -2), and only `values1 & ~values2` is the AND NOT of the two
    flags; the model applies boolean AND NOT to the flags directly.
- Coalescer.Coalesce: the vectorised change mask and prefix-sum
  differences of `_rle_counts_values` are computed by a recursive grouping,
  not step by step. `Coalescer.CoalesceGroups` proves that the grouping
  yields, entry by entry, the source's differences of running sums at the
  group starts.
- MergeEngine.TieOrder: the public functions use one fixed arrangement
  of tied boundaries, while the source's sort may return any of them.
  `Algebra.CombineWith` and `Metrics.MeanIoUWith` take the arrangement as
  a parameter, and every correctness lemma is stated for all arrangements
  (`IsMergeOrder`). But the exact RLE output of `Algebra.Intersect` and its
  siblings is the one for this arrangement.
- `benchmark.py`, `example.py` and the random and image generators of
  `test.py` are not part of this model: they time, plot or generate inputs.
