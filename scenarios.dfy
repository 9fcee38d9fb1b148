/** Worked examples on the six-element masks `a = 110001` and `b = 011011`. */
module Scenarios {
  import opened Runs
  import opened Encoder
  import opened MergeEngine
  import opened Coalescer
  import opened Algebra
  import opened Metrics

  lemma RepeatSmall(v: bool)
    ensures Repeat(v, 0) == [] && Repeat(v, 1) == [v]
    ensures Repeat(v, 2) == [v, v] && Repeat(v, 3) == [v, v, v]
  {
  }

  /** Decoding the encoding of `a` gives back `a`. */
  lemma DecodeFirstExample()
    ensures Expand([0, 2, 3, 1]) == [true, true, false, false, false, true]
  {
    RepeatSmall(true);
    RepeatSmall(false);
    ExpandFromCons(1, [], true);
    ExpandFromCons(3, [1], false);
    ExpandFromCons(2, [3, 1], true);
    ExpandFromCons(0, [2, 3, 1], false);
  }

  /** Decoding the encoding of `b` gives back `b`. */
  lemma DecodeSecondExample()
    ensures Expand([1, 2, 1, 2]) == [false, true, true, false, true, true]
  {
    RepeatSmall(true);
    RepeatSmall(false);
    ExpandFromCons(2, [], true);
    ExpandFromCons(1, [2], false);
    ExpandFromCons(2, [1, 2], true);
    ExpandFromCons(1, [2, 1, 2], false);
  }

  /** The encodings of `a`, of `b` and of the empty mask. */
  lemma EncodeExamples()
    ensures Encode([true, true, false, false, false, true]) == [0, 2, 3, 1]
    ensures Encode([false, true, true, false, true, true]) == [1, 2, 1, 2]
    ensures Encode([]) == []
  {
    DecodeFirstExample();
    DecodeSecondExample();
    var c1, c2 := [0, 2, 3, 1], [1, 2, 1, 2];
    assert Sum(c1) == 6 && Sum(c2) == 6;
    assert Canonical(c1) && Canonical(c2);
    EncodeOfExpand(c1);
    EncodeOfExpand(c2);
    EncodeShape([]);
  }

  /** The boundaries of the two encodings, ties taken from the first input
      first: both inputs end at position 6. */
  lemma MergeOrderExample()
    ensures TieOrder([0, 2, 3, 1], [1, 2, 1, 2])
      == [Boundary(0, true), Boundary(1, false), Boundary(2, true), Boundary(3, false),
          Boundary(4, false), Boundary(5, true), Boundary(6, true), Boundary(6, false)]
  {
    PrefixSumsExample();
    assert MergeOrder([5, 6], [4, 6])
      == [Boundary(4, false), Boundary(5, true), Boundary(6, true), Boundary(6, false)];
  }

  /** The boundaries of the two encodings. */
  lemma PrefixSumsExample()
    ensures PrefixSums(0, [0, 2, 3, 1]) == [0, 2, 5, 6]
    ensures PrefixSums(0, [1, 2, 1, 2]) == [1, 3, 4, 6]
  {
    assert PrefixSums(5, [1]) == [6];
    assert PrefixSums(2, [3, 1]) == [5, 6];
    assert PrefixSums(4, [2]) == [6];
    assert PrefixSums(3, [1, 2]) == [4, 6];
  }

  /** The refined runs: coincident boundaries give runs of length zero. */
  lemma RefineExample()
    ensures MergeWith([Boundary(0, true), Boundary(1, false), Boundary(2, true), Boundary(3, false),
                       Boundary(4, false), Boundary(5, true), Boundary(6, true), Boundary(6, false)])
      == [RefinedRun(0, false, false), RefinedRun(1, true, false), RefinedRun(1, true, true),
          RefinedRun(1, false, true), RefinedRun(1, false, false), RefinedRun(1, false, true),
          RefinedRun(1, true, true), RefinedRun(0, false, true)]
  {
  }

  /** Coalescing the AND values of the refined runs above. */
  lemma CoalesceAndExample()
    ensures Coalesce([0, 1, 1, 1, 1, 1, 1, 0], [false, false, true, false, false, false, true, false])
      == [1, 1, 3, 1, 0]
  {
    CoalesceAndTail();
    assert Group([1, 1, 1, 0], [false, false, true, false], 1, false) == [3, 1, 0];
    assert Group([1, 1, 1, 1, 0], [false, false, false, true, false], 1, true) == [1, 3, 1, 0];
    assert Group([1, 1, 1, 1, 1, 0], [true, false, false, false, true, false], 1, false) == [1, 1, 3, 1, 0];
  }

  lemma CoalesceAndTail()
    ensures Group([1, 1, 0], [false, true, false], 2, false) == [3, 1, 0]
  {
    assert Group([], [], 0, false) == [0];
    assert Group([0], [false], 1, true) == [1, 0];
    assert Group([1, 0], [true, false], 3, false) == [3, 1, 0];
  }

  /** Coalescing the OR values of the refined runs above. */
  lemma CoalesceOrExample()
    ensures Coalesce([0, 1, 1, 1, 1, 1, 1, 0], [false, true, true, true, false, true, true, true])
      == [0, 3, 1, 2]
  {
    CoalesceOrTail();
    assert Group([1, 1, 1, 0], [false, true, true, true], 3, true) == [3, 1, 2];
    assert Group([1, 1, 1, 1, 0], [true, false, true, true, true], 2, true) == [3, 1, 2];
    assert Group([1, 1, 1, 1, 1, 0], [true, true, false, true, true, true], 1, true) == [3, 1, 2];
  }

  lemma CoalesceOrTail()
    ensures Group([1, 1, 0], [true, true, true], 1, false) == [1, 2]
  {
    assert Group([], [], 2, true) == [2];
    assert Group([0], [true], 2, true) == [2];
    assert Group([1, 0], [true, true], 1, true) == [2];
  }

  /** The refined runs of the example. */
  function ExampleRuns(): seq<RefinedRun>
  {
    [RefinedRun(0, false, false), RefinedRun(1, true, false), RefinedRun(1, true, true),
     RefinedRun(1, false, true), RefinedRun(1, false, false), RefinedRun(1, false, true),
     RefinedRun(1, true, true), RefinedRun(0, false, true)]
  }

  /** The run lengths of the refined runs. */
  lemma LengthsExample()
    ensures Lengths(ExampleRuns()) == [0, 1, 1, 1, 1, 1, 1, 0]
  {
    var t8: seq<RefinedRun> := [];
    var t7 := [RefinedRun(0, false, true)] + t8;
    LengthsCons(RefinedRun(0, false, true), t8);
    var t6 := [RefinedRun(1, true, true)] + t7;
    LengthsCons(RefinedRun(1, true, true), t7);
    var t5 := [RefinedRun(1, false, true)] + t6;
    LengthsCons(RefinedRun(1, false, true), t6);
    var t4 := [RefinedRun(1, false, false)] + t5;
    LengthsCons(RefinedRun(1, false, false), t5);
    var t3 := [RefinedRun(1, false, true)] + t4;
    LengthsCons(RefinedRun(1, false, true), t4);
    var t2 := [RefinedRun(1, true, true)] + t3;
    LengthsCons(RefinedRun(1, true, true), t3);
    var t1 := [RefinedRun(1, true, false)] + t2;
    LengthsCons(RefinedRun(1, true, false), t2);
    var t0 := [RefinedRun(0, false, false)] + t1;
    LengthsCons(RefinedRun(0, false, false), t1);
    assert ExampleRuns() == t0;
  }

  /** One unfolding step of `Lengths` on a literal. */
  lemma LengthsCons(x: RefinedRun, rest: seq<RefinedRun>)
    ensures Lengths([x] + rest) == [x.len] + Lengths(rest)
  {
    assert ([x] + rest)[1..] == rest;
  }

  /** The AND values on the refined runs. */
  lemma CombinedAndExample()
    ensures Combined(ExampleRuns(), And) == [false, false, true, false, false, false, true, false]
  {
  }

  /** The OR values on the refined runs. */
  lemma CombinedOrExample()
    ensures Combined(ExampleRuns(), Or) == [false, true, true, true, false, true, true, true]
  {
  }

  /** Intersection and union of the two encodings: the intersection keeps
      the empty last run that the coincident final boundaries produce, the
      union does not end in one. */
  lemma AlgebraExamples()
    ensures Intersect([0, 2, 3, 1], [1, 2, 1, 2]) == [1, 1, 3, 1, 0]
    ensures Union([0, 2, 3, 1], [1, 2, 1, 2]) == [0, 3, 1, 2]
  {
    MergeOrderExample();
    RefineExample();
    LengthsExample();
    CombinedAndExample();
    CombinedOrExample();
    CoalesceAndExample();
    CoalesceOrExample();
  }

  /** The areas and the mIoU of the example: two foreground elements in
      common out of five in either. */
  lemma MetricExamples()
    ensures Area(Intersect([0, 2, 3, 1], [1, 2, 1, 2])) == 2
    ensures Area(Union([0, 2, 3, 1], [1, 2, 1, 2])) == 5
    ensures MeanIoU([0, 2, 3, 1], [1, 2, 1, 2]) == Ratio(2, 5)
  {
    var c1, c2 := [0, 2, 3, 1], [1, 2, 1, 2];
    assert Sum(c1) == 6 && Sum(c2) == 6;
    AlgebraExamples();
    assert Area([1, 1, 3, 1, 0]) == 2;
    assert Area([0, 3, 1, 2]) == 5;
    AreaCountsForeground(Intersect(c1, c2));
    AreaCountsForeground(Union(c1, c2));
  }

  /** The intersection above is not canonical: re-encoding its decoding
      drops the empty last run. */
  lemma IntersectionNotCanonical()
    ensures Expand([1, 1, 3, 1, 0]) == [false, true, false, false, false, true]
    ensures Encode(Expand([1, 1, 3, 1, 0])) == [1, 1, 3, 1]
  {
    var c := [1, 1, 3, 1];
    assert c + [0] == [1, 1, 3, 1, 0];
    ExpandEmptyLastRun(c, false);
    DecodeIntersectionExample();
    assert Sum(c) == 6 && Canonical(c);
    EncodeOfExpand(c);
  }

  lemma DecodeIntersectionExample()
    ensures Expand([1, 1, 3, 1]) == [false, true, false, false, false, true]
  {
    RepeatSmall(true);
    RepeatSmall(false);
    ExpandFromCons(1, [], false);
    ExpandFromCons(3, [1], true);
    ExpandFromCons(1, [3, 1], false);
    ExpandFromCons(1, [1, 3, 1], true);
  }
}
