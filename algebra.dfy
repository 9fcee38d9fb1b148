/** Algebra layer (`rle_intersect`, `rle_union`, `rle_difference`,
    `rle_symmetric_difference`): a combinator applied to the two inputs'
    flags on every refined run, followed by coalescing. */
module Algebra {
  import opened Runs
  import opened MergeEngine
  import opened Coalescer

  /** The four combinators of the algebra layer. */
  datatype Op = And | Or | AndNot | Xor

  function Apply(op: Op, x: bool, y: bool): bool
  {
    match op
    case And => x && y
    case Or => x || y
    case AndNot => x && !y
    case Xor => x != y
  }

  /** The combinator applied element by element to two masks of equal size. */
  function Pointwise(op: Op, a: seq<bool>, b: seq<bool>): (m: seq<bool>)
    requires |a| == |b|
    ensures |m| == |a|
  {
    seq(|a|, i requires 0 <= i < |a| => Apply(op, a[i], b[i]))
  }

  /** The combinator's value on every refined run. */
  function Combined(r: seq<RefinedRun>, op: Op): (v: seq<bool>)
    ensures |v| == |r|
  {
    if r == [] then [] else [Apply(op, r[0].v1, r[0].v2)] + Combined(r[1..], op)
  }

  lemma PointwiseAppend(op: Op, a: seq<bool>, b: seq<bool>, c: seq<bool>, d: seq<bool>)
    requires |a| == |c| && |b| == |d|
    ensures Pointwise(op, a + b, c + d) == Pointwise(op, a, c) + Pointwise(op, b, d)
  {
  }

  lemma PointwiseRepeat(op: Op, x: bool, y: bool, n: nat)
    ensures Pointwise(op, Repeat(x, n), Repeat(y, n)) == Repeat(Apply(op, x, y), n)
  {
  }

  /** Repeating per-run values is the first run's repetition followed by
      the rest's. */
  lemma ExpandUnfold(r: seq<RefinedRun>, v: seq<bool>)
    requires r != [] && |v| == |r|
    ensures ExpandValues(Lengths(r), v) == Repeat(v[0], r[0].len) + ExpandValues(Lengths(r[1..]), v[1..])
  {
    assert Lengths(r)[1..] == Lengths(r[1..]);
  }

  /** Repeating the combined values is combining the repeated flags. */
  lemma {:induction false} CombinedExpands(r: seq<RefinedRun>, op: Op)
    ensures ExpandValues(Lengths(r), Combined(r, op))
      == Pointwise(op, ExpandValues(Lengths(r), Flags(r, true)), ExpandValues(Lengths(r), Flags(r, false)))
  {
    if r != [] {
      var rest := r[1..];
      CombinedExpands(rest, op);
      ExpandUnfold(r, Combined(r, op));
      ExpandUnfold(r, Flags(r, true));
      ExpandUnfold(r, Flags(r, false));
      assert Combined(r, op)[1..] == Combined(rest, op);
      assert Flags(r, true)[1..] == Flags(rest, true);
      assert Flags(r, false)[1..] == Flags(rest, false);
      PointwiseRepeat(op, r[0].v1, r[0].v2, r[0].len);
      PointwiseAppend(op, Repeat(r[0].v1, r[0].len), ExpandValues(Lengths(rest), Flags(rest, true)),
                      Repeat(r[0].v2, r[0].len), ExpandValues(Lengths(rest), Flags(rest, false)));
    }
  }

  /** The algebra operation `op` for the tie order `b` of the merge: no
      boundaries give no runs, and the result covers everything up to the
      last boundary. */
  function CombineWith(op: Op, b: seq<Boundary>): (c: seq<nat>)
    requires SortedFrom(b, 0)
    ensures c == [] <==> b == []
    ensures Sum(c) == LastPos(b, 0)
  {
    var r := MergeWith(b);
    CoalescePreserves(Lengths(r), Combined(r, op));
    Coalesce(Lengths(r), Combined(r, op))
  }

  /** Algebra correctness, for every tie order the sort may produce: the
      per-run values start with background because every combinator maps
      two background values to background; the result covers the common
      total and decodes to the combinator applied to the two decoded
      inputs. */
  lemma CombineCorrect(op: Op, c1: seq<nat>, c2: seq<nat>, b: seq<Boundary>)
    requires Sum(c1) == Sum(c2)
    requires IsMergeOrder(b, PrefixSums(0, c1), PrefixSums(0, c2))
    ensures b != [] ==> !Combined(MergeWith(b), op)[0]
    ensures Sum(CombineWith(op, b)) == Sum(c1)
    ensures Expand(CombineWith(op, b)) == Pointwise(op, Expand(c1), Expand(c2))
  {
    var r := MergeWith(b);
    MergeCorrect(c1, c2, b);
    CombinedExpands(r, op);
    CoalescePreserves(Lengths(r), Combined(r, op));
  }

  /** The decoded result, and so its area, does not depend on how the sort
      orders equal boundaries. */
  lemma TieOrderIrrelevant(op: Op, c1: seq<nat>, c2: seq<nat>, b: seq<Boundary>, b': seq<Boundary>)
    requires Sum(c1) == Sum(c2)
    requires IsMergeOrder(b, PrefixSums(0, c1), PrefixSums(0, c2))
    requires IsMergeOrder(b', PrefixSums(0, c1), PrefixSums(0, c2))
    ensures Expand(CombineWith(op, b)) == Expand(CombineWith(op, b'))
  {
    CombineCorrect(op, c1, c2, b);
    CombineCorrect(op, c1, c2, b');
  }

  /** The two arrangements of the boundaries of `[1, 1]` and `[1, 1]`. */
  lemma UnitTieOrders()
    ensures IsMergeOrder([Boundary(1, true), Boundary(1, false), Boundary(2, true), Boundary(2, false)],
                         PrefixSums(0, [1, 1]), PrefixSums(0, [1, 1]))
    ensures IsMergeOrder([Boundary(1, false), Boundary(1, true), Boundary(2, false), Boundary(2, true)],
                         PrefixSums(0, [1, 1]), PrefixSums(0, [1, 1]))
  {
    assert PrefixSums(0, [1, 1]) == [1, 2] by {
      assert [1, 1][1..] == [1];
      assert PrefixSums(1, [1]) == [2];
    }
  }

  /** Their refinements. */
  lemma UnitRefinements()
    ensures MergeWith([Boundary(1, true), Boundary(1, false), Boundary(2, true), Boundary(2, false)])
      == [RefinedRun(1, false, false), RefinedRun(0, true, false),
          RefinedRun(1, true, true), RefinedRun(0, false, true)]
    ensures MergeWith([Boundary(1, false), Boundary(1, true), Boundary(2, false), Boundary(2, true)])
      == [RefinedRun(1, false, false), RefinedRun(0, false, true),
          RefinedRun(1, true, true), RefinedRun(0, true, false)]
  {
  }

  /** The RLE sequence itself can depend on the tie order: with the inputs
      `[1, 1]` and `[1, 1]`, taking the first input's boundaries first makes
      the difference `[1, 0, 1]`, taking the second's first makes it
      `[2, 0]`; both decode to two background elements. */
  lemma DifferenceDependsOnTieOrder()
    ensures var b := [Boundary(1, true), Boundary(1, false), Boundary(2, true), Boundary(2, false)];
      var b' := [Boundary(1, false), Boundary(1, true), Boundary(2, false), Boundary(2, true)];
      && IsMergeOrder(b, PrefixSums(0, [1, 1]), PrefixSums(0, [1, 1]))
      && IsMergeOrder(b', PrefixSums(0, [1, 1]), PrefixSums(0, [1, 1]))
      && CombineWith(AndNot, b) == [1, 0, 1]
      && CombineWith(AndNot, b') == [2, 0]
  {
    UnitTieOrders();
    UnitRefinements();
    UnitCombined();
    UnitCoalescings();
  }

  /** The difference values on the two refinements. */
  lemma UnitCombined()
    ensures var r := [RefinedRun(1, false, false), RefinedRun(0, true, false),
                      RefinedRun(1, true, true), RefinedRun(0, false, true)];
      Lengths(r) == [1, 0, 1, 0] && Combined(r, AndNot) == [false, true, false, false]
    ensures var r' := [RefinedRun(1, false, false), RefinedRun(0, false, true),
                       RefinedRun(1, true, true), RefinedRun(0, true, false)];
      Lengths(r') == [1, 0, 1, 0] && Combined(r', AndNot) == [false, false, false, true]
  {
  }

  /** Coalescing them. */
  lemma UnitCoalescings()
    ensures Coalesce([1, 0, 1, 0], [false, true, false, false]) == [1, 0, 1]
    ensures Coalesce([1, 0, 1, 0], [false, false, false, true]) == [2, 0]
  {
    assert Group([0], [false], 1, false) == [1];
    assert Group([1, 0], [false, false], 0, true) == [0, 1];
    assert Group([0, 1, 0], [true, false, false], 1, false) == [1, 0, 1];
    assert Group([0], [true], 2, false) == [2, 0];
    assert Group([1, 0], [false, true], 1, false) == [2, 0];
    assert Group([0, 1, 0], [false, false, true], 1, false) == [2, 0];
  }

  /** `rle_intersect`: mask intersection on the encoded form. */
  function Intersect(c1: seq<nat>, c2: seq<nat>): (r: seq<nat>)
    requires Sum(c1) == Sum(c2)
    ensures Sum(r) == Sum(c1)
    ensures Expand(r) == Pointwise(And, Expand(c1), Expand(c2))
  {
    var b := TieOrder(c1, c2);
    CombineCorrect(And, c1, c2, b);
    CombineWith(And, b)
  }

  /** `rle_union`: mask union on the encoded form. */
  function Union(c1: seq<nat>, c2: seq<nat>): (r: seq<nat>)
    requires Sum(c1) == Sum(c2)
    ensures Sum(r) == Sum(c1)
    ensures Expand(r) == Pointwise(Or, Expand(c1), Expand(c2))
  {
    var b := TieOrder(c1, c2);
    CombineCorrect(Or, c1, c2, b);
    CombineWith(Or, b)
  }

  /** `rle_difference`: the first mask without the second. */
  function Difference(c1: seq<nat>, c2: seq<nat>): (r: seq<nat>)
    requires Sum(c1) == Sum(c2)
    ensures Sum(r) == Sum(c1)
    ensures Expand(r) == Pointwise(AndNot, Expand(c1), Expand(c2))
  {
    var b := TieOrder(c1, c2);
    CombineCorrect(AndNot, c1, c2, b);
    CombineWith(AndNot, b)
  }

  /** `rle_symmetric_difference`: the elements in exactly one of the masks. */
  function SymmetricDifference(c1: seq<nat>, c2: seq<nat>): (r: seq<nat>)
    requires Sum(c1) == Sum(c2)
    ensures Sum(r) == Sum(c1)
    ensures Expand(r) == Pointwise(Xor, Expand(c1), Expand(c2))
  {
    var b := TieOrder(c1, c2);
    CombineCorrect(Xor, c1, c2, b);
    CombineWith(Xor, b)
  }
}
