/** Metrics layer (`rle_area`, `rle_miou`): foreground area of an RLE
    sequence, and intersection over union of two, computed on the refined
    runs without building an intermediate RLE sequence. */
module Metrics {
  import opened Runs
  import opened Encoder
  import opened MergeEngine
  import opened Algebra

  /** Sum of the odd-indexed entries: the foreground run lengths. The area
      never exceeds the total length. */
  function Area(r: seq<nat>): (a: nat)
    ensures a <= Sum(r)
  {
    if |r| < 2 then 0 else r[1] + Area(r[2..])
  }

  /** The area is the number of foreground elements of the decoded mask. */
  lemma {:induction false} AreaCountsForeground(r: seq<nat>)
    ensures Area(r) == CountTrue(Expand(r))
  {
    if |r| == 1 {
      assert r[1..] == [];
      assert Expand(r) == Repeat(false, r[0]) + [] == Repeat(false, r[0]);
      CountTrueRepeat(false, r[0]);
    } else if |r| >= 2 {
      AreaCountsForeground(r[2..]);
      assert r[1..][1..] == r[2..];
      assert ExpandFrom(r[1..], true) == Repeat(true, r[1]) + Expand(r[2..]);
      assert Expand(r) == Repeat(false, r[0]) + (Repeat(true, r[1]) + Expand(r[2..]));
      CountTrueAppend(Repeat(false, r[0]), Repeat(true, r[1]) + Expand(r[2..]));
      CountTrueAppend(Repeat(true, r[1]), Expand(r[2..]));
      CountTrueRepeat(false, r[0]);
      CountTrueRepeat(true, r[1]);
    }
  }

  /** The area of an encoded mask is its foreground count. */
  lemma AreaOfEncode(m: seq<bool>)
    ensures Area(Encode(m)) == CountTrue(m)
  {
    AreaCountsForeground(Encode(m));
    RoundTrip(m);
  }

  /** The area of an algebra result is the foreground count of the combined
      masks, whatever the tie order. */
  lemma AreaOfCombine(op: Op, c1: seq<nat>, c2: seq<nat>, b: seq<Boundary>)
    requires Sum(c1) == Sum(c2)
    requires IsMergeOrder(b, PrefixSums(0, c1), PrefixSums(0, c2))
    ensures Area(CombineWith(op, b)) == CountTrue(Pointwise(op, Expand(c1), Expand(c2)))
  {
    CombineCorrect(op, c1, c2, b);
    AreaCountsForeground(CombineWith(op, b));
  }

  /** End to end on masks of equal size: the area of each algebra result on
      the encodings is the foreground count of the combined masks. */
  lemma AlgebraAreas(m1: seq<bool>, m2: seq<bool>)
    requires |m1| == |m2|
    ensures Area(Intersect(Encode(m1), Encode(m2))) == CountTrue(Pointwise(And, m1, m2))
    ensures Area(Union(Encode(m1), Encode(m2))) == CountTrue(Pointwise(Or, m1, m2))
    ensures Area(Difference(Encode(m1), Encode(m2))) == CountTrue(Pointwise(AndNot, m1, m2))
    ensures Area(SymmetricDifference(Encode(m1), Encode(m2))) == CountTrue(Pointwise(Xor, m1, m2))
  {
    RoundTrip(m1);
    RoundTrip(m2);
    var c1, c2 := Encode(m1), Encode(m2);
    AreaCountsForeground(Intersect(c1, c2));
    AreaCountsForeground(Union(c1, c2));
    AreaCountsForeground(Difference(c1, c2));
    AreaCountsForeground(SymmetricDifference(c1, c2));
  }

  /** End to end on masks of equal size, for every order the sort may give
      tied boundaries: the area of the algebra result on the encodings is
      the foreground count of the combined masks. */
  lemma AlgebraAreasAnyOrder(op: Op, m1: seq<bool>, m2: seq<bool>, b: seq<Boundary>)
    requires |m1| == |m2|
    requires IsMergeOrder(b, PrefixSums(0, Encode(m1)), PrefixSums(0, Encode(m2)))
    ensures Area(CombineWith(op, b)) == CountTrue(Pointwise(op, m1, m2))
  {
    RoundTrip(m1);
    RoundTrip(m2);
    AreaOfCombine(op, Encode(m1), Encode(m2), b);
  }

  /** The result of `rle_miou`: exactly zero, or the quotient `num / den`. */
  datatype IoU = ZeroIoU | Ratio(num: nat, den: nat)

  /** Total length of the refined runs on which the combinator holds. */
  function WeightedSum(r: seq<RefinedRun>, op: Op): nat
  {
    if r == [] then 0 else (if Apply(op, r[0].v1, r[0].v2) then r[0].len else 0) + WeightedSum(r[1..], op)
  }

  /** The weighted sum counts the foreground of the expanded combined values. */
  lemma {:induction false} WeightedSumCounts(r: seq<RefinedRun>, op: Op)
    ensures WeightedSum(r, op) == CountTrue(ExpandValues(Lengths(r), Combined(r, op)))
  {
    if r != [] {
      WeightedSumCounts(r[1..], op);
      ExpandUnfold(r, Combined(r, op));
      assert Combined(r, op)[1..] == Combined(r[1..], op);
      CountTrueAppend(Repeat(Apply(op, r[0].v1, r[0].v2), r[0].len),
                      ExpandValues(Lengths(r[1..]), Combined(r[1..], op)));
      CountTrueRepeat(Apply(op, r[0].v1, r[0].v2), r[0].len);
    }
  }

  /** The weighted AND sum never exceeds the weighted OR sum. */
  lemma {:induction false} WeightedAndBelowOr(r: seq<RefinedRun>)
    ensures WeightedSum(r, And) <= WeightedSum(r, Or)
  {
    if r != [] {
      WeightedAndBelowOr(r[1..]);
    }
  }

  /** Intersection over union for the tie order `b`: weighted AND sum over
      weighted OR sum, and zero without dividing when the AND sum is zero. */
  function MeanIoUWith(b: seq<Boundary>): (q: IoU)
    requires SortedFrom(b, 0)
    ensures q.Ratio? ==> 0 < q.num <= q.den
  {
    var r := MergeWith(b);
    WeightedAndBelowOr(r);
    var numerator := WeightedSum(r, And);
    if numerator == 0 then ZeroIoU else Ratio(numerator, WeightedSum(r, Or))
  }

  /** The direct computation on two decoded masks (`numpy_miou` of the test
      suite): intersection count over union count, zero when the
      intersection is empty. */
  function ReferenceIoU(m1: seq<bool>, m2: seq<bool>): IoU
    requires |m1| == |m2|
  {
    var numerator := CountTrue(Pointwise(And, m1, m2));
    if numerator == 0 then ZeroIoU else Ratio(numerator, CountTrue(Pointwise(Or, m1, m2)))
  }

  lemma {:induction false} AndCountBelowOr(a: seq<bool>, b: seq<bool>)
    requires |a| == |b|
    ensures CountTrue(Pointwise(And, a, b)) <= CountTrue(Pointwise(Or, a, b))
  {
    if a != [] {
      AndCountBelowOr(a[1..], b[1..]);
      assert Pointwise(And, a, b)[1..] == Pointwise(And, a[1..], b[1..]);
      assert Pointwise(Or, a, b)[1..] == Pointwise(Or, a[1..], b[1..]);
    }
  }

  /** The reference result lies in [0, 1]: a nonzero quotient has a
      positive numerator no larger than its denominator. */
  lemma ReferenceIoUBounds(m1: seq<bool>, m2: seq<bool>)
    requires |m1| == |m2|
    ensures ReferenceIoU(m1, m2).Ratio? ==> 0 < ReferenceIoU(m1, m2).num <= ReferenceIoU(m1, m2).den
  {
    AndCountBelowOr(m1, m2);
  }

  /** mIoU correctness, for every tie order: the weighted sums are the
      intersection and union counts of the decoded masks, so the result is
      exactly the reference one, including zero when the masks do not
      overlap (among them two empty masks). */
  lemma MeanIoUCorrect(c1: seq<nat>, c2: seq<nat>, b: seq<Boundary>)
    requires Sum(c1) == Sum(c2)
    requires IsMergeOrder(b, PrefixSums(0, c1), PrefixSums(0, c2))
    ensures WeightedSum(MergeWith(b), And) == CountTrue(Pointwise(And, Expand(c1), Expand(c2)))
    ensures WeightedSum(MergeWith(b), Or) == CountTrue(Pointwise(Or, Expand(c1), Expand(c2)))
    ensures MeanIoUWith(b) == ReferenceIoU(Expand(c1), Expand(c2))
  {
    var r := MergeWith(b);
    MergeCorrect(c1, c2, b);
    WeightedSumCounts(r, And);
    WeightedSumCounts(r, Or);
    CombinedExpands(r, And);
    CombinedExpands(r, Or);
  }

  /** `rle_miou`, with ties broken towards the first input. */
  function MeanIoU(c1: seq<nat>, c2: seq<nat>): (q: IoU)
    requires Sum(c1) == Sum(c2)
    ensures q == ReferenceIoU(Expand(c1), Expand(c2))
    ensures q.Ratio? ==> 0 < q.num <= q.den
  {
    var b := TieOrder(c1, c2);
    MeanIoUCorrect(c1, c2, b);
    ReferenceIoUBounds(Expand(c1), Expand(c2));
    MeanIoUWith(b)
  }

  /** The result does not depend on how the sort orders equal boundaries. */
  lemma MeanIoUTieOrderIrrelevant(c1: seq<nat>, c2: seq<nat>, b: seq<Boundary>, b': seq<Boundary>)
    requires Sum(c1) == Sum(c2)
    requires IsMergeOrder(b, PrefixSums(0, c1), PrefixSums(0, c2))
    requires IsMergeOrder(b', PrefixSums(0, c1), PrefixSums(0, c2))
    ensures MeanIoUWith(b) == MeanIoUWith(b')
  {
    MeanIoUCorrect(c1, c2, b);
    MeanIoUCorrect(c1, c2, b');
  }

  /** End to end on masks of equal size: mIoU of the encodings equals the
      reference computed on the masks themselves. */
  lemma MeanIoUOfEncodings(m1: seq<bool>, m2: seq<bool>)
    requires |m1| == |m2|
    ensures MeanIoU(Encode(m1), Encode(m2)) == ReferenceIoU(m1, m2)
  {
    RoundTrip(m1);
    RoundTrip(m2);
  }

  /** The same for every order the sort may give tied boundaries. */
  lemma MeanIoUOfEncodingsAnyOrder(m1: seq<bool>, m2: seq<bool>, b: seq<Boundary>)
    requires |m1| == |m2|
    requires IsMergeOrder(b, PrefixSums(0, Encode(m1)), PrefixSums(0, Encode(m2)))
    ensures MeanIoUWith(b) == ReferenceIoU(m1, m2)
  {
    RoundTrip(m1);
    RoundTrip(m2);
    MeanIoUCorrect(Encode(m1), Encode(m2), b);
  }
}
