/** Merge engine (`_rle_merge`): the common refinement of two RLE sequences.

    The boundaries of both inputs (their prefix sums) are sorted together;
    each gap between consecutive sorted boundaries is a refined run, and an
    input's flag on a refined run is the parity of how many of that input's
    boundaries precede it. The source sorts with an unstable sort, so the
    order of equal boundaries is left open here: `Refine` works on any
    sorted arrangement `b` of the tagged boundaries (`IsMergeOrder`), and
    `TieOrder` fixes one of them (ties taken from the first input first). */
module MergeEngine {
  import opened Runs

  /** A run boundary: its position, and whether it is one of the first
      input's boundaries (otherwise it is one of the second input's). */
  datatype Boundary = Boundary(pos: nat, first: bool)

  /** A refined run: its length and the two inputs' values on it. */
  datatype RefinedRun = RefinedRun(len: nat, v1: bool, v2: bool)

  /** Running sums of `c` offset by `acc` (NumPy's `cumsum` for `acc == 0`). */
  function PrefixSums(acc: nat, c: seq<nat>): (s: seq<nat>)
    ensures |s| == |c| && Ascending(s, acc)
    decreases c
  {
    if c == [] then [] else [acc + c[0]] + PrefixSums(acc + c[0], c[1..])
  }

  /** The prefix sums end at the total, and their gaps are the original
      run lengths. */
  lemma {:induction false} PrefixSumsGaps(acc: nat, c: seq<nat>)
    ensures Gaps(acc, PrefixSums(acc, c)) == c
    ensures LastOr(PrefixSums(acc, c), acc) == acc + Sum(c)
    decreases c
  {
    if c != [] {
      PrefixSumsGaps(acc + c[0], c[1..]);
    }
  }

  /** `b` is sorted by position and no position lies below `lo`. */
  predicate SortedFrom(b: seq<Boundary>, lo: nat)
  {
    b == [] || (lo <= b[0].pos && SortedFrom(b[1..], b[0].pos))
  }

  /** The positions of the boundaries of `b` tagged `t`, in order. */
  function Select(b: seq<Boundary>, t: bool): seq<nat>
  {
    if b == [] then []
    else if b[0].first == t then [b[0].pos] + Select(b[1..], t)
    else Select(b[1..], t)
  }

  /** The position of the last boundary, or `lo` when there is none. */
  function LastPos(b: seq<Boundary>, lo: nat): nat
  {
    if b == [] then lo else b[|b| - 1].pos
  }

  /** `b` is an arrangement the sort may produce: sorted by position, with
      the first input's boundaries `s1` and the second input's `s2`, each in
      its own order. */
  predicate IsMergeOrder(b: seq<Boundary>, s1: seq<nat>, s2: seq<nat>)
  {
    SortedFrom(b, 0) && Select(b, true) == s1 && Select(b, false) == s2
  }

  /** Gaps between consecutive boundaries, each with the parities of the
      boundaries of either input crossed before it. */
  function Refine(b: seq<Boundary>, prev: nat, v1: bool, v2: bool): (r: seq<RefinedRun>)
    requires SortedFrom(b, prev)
    ensures |r| == |b|
    decreases b
  {
    if b == [] then []
    else
      var next1 := if b[0].first then !v1 else v1;
      var next2 := if b[0].first then v2 else !v2;
      [RefinedRun(b[0].pos - prev, v1, v2)] + Refine(b[1..], b[0].pos, next1, next2)
  }

  function Lengths(r: seq<RefinedRun>): (c: seq<nat>)
    ensures |c| == |r|
  {
    if r == [] then [] else [r[0].len] + Lengths(r[1..])
  }

  /** The refined runs from `prev` end at the last boundary. */
  lemma {:induction false} RefineSum(b: seq<Boundary>, prev: nat, v1: bool, v2: bool)
    requires SortedFrom(b, prev)
    ensures prev + Sum(Lengths(Refine(b, prev, v1, v2))) == LastPos(b, prev)
    decreases b
  {
    if b != [] {
      var next1 := if b[0].first then !v1 else v1;
      var next2 := if b[0].first then v2 else !v2;
      var rest := Refine(b[1..], b[0].pos, next1, next2);
      RefineSum(b[1..], b[0].pos, next1, next2);
      LastPosTail(b, prev);
      assert Refine(b, prev, v1, v2) == [RefinedRun(b[0].pos - prev, v1, v2)] + rest;
      assert Lengths(Refine(b, prev, v1, v2))[1..] == Lengths(rest);
    }
  }

  /** The refinement from position 0, where nothing has been crossed yet:
      one refined run per boundary, covering everything up to the last
      boundary. */
  function MergeWith(b: seq<Boundary>): (r: seq<RefinedRun>)
    requires SortedFrom(b, 0)
    ensures |r| == |b|
    ensures Sum(Lengths(r)) == LastPos(b, 0)
  {
    RefineSum(b, 0, false, false);
    Refine(b, 0, false, false)
  }

  /** The first input's values (`t`) or the second input's (`!t`). */
  function Flags(r: seq<RefinedRun>, t: bool): (f: seq<bool>)
    ensures |f| == |r|
  {
    if r == [] then [] else [if t then r[0].v1 else r[0].v2] + Flags(r[1..], t)
  }

  /** Two-pointer merge of two ascending boundary lists, taking the first
      list's boundary first when two are equal. */
  function MergeOrder(s1: seq<nat>, s2: seq<nat>): seq<Boundary>
    decreases |s1| + |s2|
  {
    if s1 == [] && s2 == [] then []
    else if s2 == [] || (s1 != [] && s1[0] <= s2[0]) then
      [Boundary(s1[0], true)] + MergeOrder(s1[1..], s2)
    else
      [Boundary(s2[0], false)] + MergeOrder(s1, s2[1..])
  }

  /** The two-pointer merge is one of the arrangements the sort may produce. */
  lemma {:induction false} MergeOrderSorted(s1: seq<nat>, s2: seq<nat>, lo: nat)
    requires Ascending(s1, lo) && Ascending(s2, lo)
    ensures SortedFrom(MergeOrder(s1, s2), lo)
    ensures Select(MergeOrder(s1, s2), true) == s1
    ensures Select(MergeOrder(s1, s2), false) == s2
    decreases |s1| + |s2|
  {
    if s1 == [] && s2 == [] {
    } else if s2 == [] || (s1 != [] && s1[0] <= s2[0]) {
      MergeOrderSorted(s1[1..], s2, s1[0]);
    } else {
      MergeOrderSorted(s1, s2[1..], s2[0]);
    }
  }

  /** The arrangement used by the public operations. */
  function TieOrder(c1: seq<nat>, c2: seq<nat>): (b: seq<Boundary>)
    ensures IsMergeOrder(b, PrefixSums(0, c1), PrefixSums(0, c2))
  {
    MergeOrderSorted(PrefixSums(0, c1), PrefixSums(0, c2), 0);
    MergeOrder(PrefixSums(0, c1), PrefixSums(0, c2))
  }

  lemma {:induction false} SelectAscending(b: seq<Boundary>, lo: nat, t: bool)
    requires SortedFrom(b, lo)
    ensures Ascending(Select(b, t), lo)
    decreases b
  {
    if b != [] {
      SelectAscending(b[1..], b[0].pos, t);
      if b[0].first != t && Select(b[1..], t) != [] {
        assert lo <= b[0].pos <= Select(b[1..], t)[0];
      }
    }
  }

  lemma {:induction false} SelectLength(b: seq<Boundary>)
    ensures |Select(b, true)| + |Select(b, false)| == |b|
  {
    if b != [] {
      SelectLength(b[1..]);
    }
  }

  /** The last boundary is unchanged by dropping the first one, whose
      position becomes the fallback. */
  lemma LastPosTail(b: seq<Boundary>, lo: nat)
    requires b != []
    ensures LastPos(b, lo) == LastPos(b[1..], b[0].pos)
  {
  }

  lemma LastOrTail(x: nat, f: seq<nat>, lo: nat)
    ensures LastOr([x] + f, lo) == LastOr(f, x)
  {
  }

  /** The last boundary of a sorted arrangement is the later of the two
      inputs' last boundaries. */
  lemma {:induction false} LastPosIsMax(b: seq<Boundary>, lo: nat)
    requires SortedFrom(b, lo)
    ensures lo <= LastPos(b, lo)
    ensures var a1, a2 := LastOr(Select(b, true), lo), LastOr(Select(b, false), lo);
      LastPos(b, lo) == if a1 < a2 then a2 else a1
    decreases b
  {
    if b != [] {
      var p, t := b[0].pos, b[0].first;
      var own, other := Select(b[1..], t), Select(b[1..], !t);
      LastPosIsMax(b[1..], p);
      LastPosTail(b, lo);
      SelectAscending(b[1..], p, t);
      SelectAscending(b[1..], p, !t);
      AscendingLast(own, p);
      AscendingLast(other, p);
      assert Select(b, t) == [p] + own;
      assert Select(b, !t) == other;
      LastOrTail(p, own, lo);
      assert LastOr(Select(b, t), lo) == LastOr(own, p);
      assert other != [] ==> LastOr(other, lo) == LastOr(other, p);
    }
  }

  /** One input's values repeated by the refined run lengths, run by run.
      This is `ExpandValues(Lengths(r), Flags(r, t))` (`ExpandRunsValues`),
      written as a direct recursion so that the induction of `RefineFlags`
      unfolds one function instead of three. */
  function ExpandRuns(r: seq<RefinedRun>, t: bool): seq<bool>
  {
    if r == [] then [] else Repeat(if t then r[0].v1 else r[0].v2, r[0].len) + ExpandRuns(r[1..], t)
  }

  /** `ExpandRuns` is NumPy's `repeat` of the flags by the lengths. */
  lemma {:induction false} ExpandRunsValues(r: seq<RefinedRun>, t: bool)
    ensures ExpandRuns(r, t) == ExpandValues(Lengths(r), Flags(r, t))
  {
    if r != [] {
      ExpandRunsValues(r[1..], t);
      assert Lengths(r)[1..] == Lengths(r[1..]);
      assert Flags(r, t)[1..] == Flags(r[1..], t);
    }
  }

  /** Step of `RefineFlags` at a boundary of the tracked input: its run
      ends there and the value flips. */
  lemma RefineStepOwn(p: nat, s: nat, f: seq<nat>, cur: bool, tail: seq<bool>)
    requires s <= p && Ascending(f, p)
    requires tail == ExpandFrom(Gaps(p, f), !cur)
    ensures Ascending([p] + f, s)
    ensures Repeat(cur, p - s) + tail == ExpandFrom(Gaps(s, [p] + f), cur)
  {
    assert ([p] + f)[1..] == f;
    ExpandFromCons(p - s, Gaps(p, f), cur);
  }

  /** The preconditions of `RefineFlags` carry over from `b` to its tail. */
  lemma RefineFlagsTail(b: seq<Boundary>, s: nat, t: bool)
    requires b != [] && SortedFrom(b, s) && Ascending(Select(b, t), s)
    requires LastPos(b, s) == LastOr(Select(b, t), s)
    ensures SortedFrom(b[1..], b[0].pos)
    ensures Ascending(Select(b[1..], t), b[0].pos)
    ensures LastPos(b[1..], b[0].pos) == LastOr(Select(b[1..], t), b[0].pos)
  {
    var p, f := b[0].pos, Select(b[1..], t);
    SelectAscending(b[1..], p, t);
    LastPosIsMax(b[1..], p);
    LastPosTail(b, s);
    if b[0].first == t {
      assert Select(b, t) == [p] + f;
      LastOrTail(p, f, s);
    } else {
      assert Select(b, t) == f;
    }
  }

  /** The inductive step of `RefineFlags` on plain values: `lhs` is the
      first refined run followed by the tail's expansion, `sel` the tracked
      input's boundaries, which start with `p` exactly when `own`. */
  lemma FlagsStep(lhs: seq<bool>, tail: seq<bool>, sel: seq<nat>, f: seq<nat>,
                  p: nat, s: nat, cur: bool, next: bool, own: bool)
    requires s <= p && Ascending(f, p)
    requires lhs == Repeat(cur, p - s) + tail
    requires tail == ExpandFrom(Gaps(p, f), next)
    requires own ==> sel == [p] + f && next == !cur
    requires !own ==> sel == f && next == cur && (f == [] ==> p == s)
    ensures Ascending(sel, s)
    ensures lhs == ExpandFrom(Gaps(s, sel), cur)
  {
    if own {
      RefineStepOwn(p, s, f, cur, tail);
    } else if f != [] {
      GapsStart(f, s, p, cur);
    }
  }

  /** The inductive step of `RefineFlags`, from the claim about the tail. */
  lemma RefineFlagsStep(b: seq<Boundary>, s: nat, v1: bool, v2: bool, t: bool)
    requires b != [] && SortedFrom(b, s) && Ascending(Select(b, t), s)
    requires LastPos(b, s) == LastOr(Select(b, t), s)
    requires SortedFrom(b[1..], b[0].pos) && Ascending(Select(b[1..], t), b[0].pos)
    requires var next1 := if b[0].first then !v1 else v1;
      var next2 := if b[0].first then v2 else !v2;
      ExpandRuns(Refine(b[1..], b[0].pos, next1, next2), t)
        == ExpandFrom(Gaps(b[0].pos, Select(b[1..], t)), if t then next1 else next2)
    ensures ExpandRuns(Refine(b, s, v1, v2), t) == ExpandFrom(Gaps(s, Select(b, t)), if t then v1 else v2)
  {
    var p := b[0].pos;
    var next1 := if b[0].first then !v1 else v1;
    var next2 := if b[0].first then v2 else !v2;
    var cur := if t then v1 else v2;
    var next := if t then next1 else next2;
    var own := b[0].first == t;
    var f := Select(b[1..], t);
    var sel := Select(b, t);
    var r := Refine(b, s, v1, v2);
    var rest := Refine(b[1..], p, next1, next2);
    assert r == [RefinedRun(p - s, v1, v2)] + rest;
    assert r[1..] == rest;
    assert own ==> sel == [p] + f && next == !cur;
    assert !own ==> sel == f && next == cur;
    if !own && f == [] {
      LastPosIsMax(b[1..], p);
      LastPosTail(b, s);
    }
    FlagsStep(ExpandRuns(r, t), ExpandRuns(rest, t), sel, f, p, s, cur, next, own);
  }

  /** Expanding one input's flags over the refined runs reproduces that
      input's runs, as long as that input owns the last boundary. */
  lemma {:induction false} RefineFlags(b: seq<Boundary>, s: nat, v1: bool, v2: bool, t: bool)
    requires SortedFrom(b, s) && Ascending(Select(b, t), s)
    requires LastPos(b, s) == LastOr(Select(b, t), s)
    ensures ExpandRuns(Refine(b, s, v1, v2), t) == ExpandFrom(Gaps(s, Select(b, t)), if t then v1 else v2)
    decreases b
  {
    if b != [] {
      var next1 := if b[0].first then !v1 else v1;
      var next2 := if b[0].first then v2 else !v2;
      RefineFlagsTail(b, s, t);
      RefineFlags(b[1..], b[0].pos, next1, next2, t);
      RefineFlagsStep(b, s, v1, v2, t);
    }
  }

  /** Merge correctness, for every arrangement the sort may produce: there
      is one refined run per boundary, the first refined run has both flags
      clear, the refined runs cover the common total, and expanding either
      input's flags over them reproduces that input's decoded mask. */
  lemma MergeCorrect(c1: seq<nat>, c2: seq<nat>, b: seq<Boundary>)
    requires Sum(c1) == Sum(c2)
    requires IsMergeOrder(b, PrefixSums(0, c1), PrefixSums(0, c2))
    ensures var r := MergeWith(b);
      && |r| == |c1| + |c2|
      && (r != [] ==> !r[0].v1 && !r[0].v2)
      && Sum(Lengths(r)) == Sum(c1)
      && ExpandValues(Lengths(r), Flags(r, true)) == Expand(c1)
      && ExpandValues(Lengths(r), Flags(r, false)) == Expand(c2)
  {
    PrefixSumsGaps(0, c1);
    PrefixSumsGaps(0, c2);
    LastPosIsMax(b, 0);
    SelectLength(b);
    RefineFlags(b, 0, false, false, true);
    RefineFlags(b, 0, false, false, false);
    ExpandRunsValues(MergeWith(b), true);
    ExpandRunsValues(MergeWith(b), false);
  }

  /** The refinement of two RLE sequences of equal total, with ties broken
      towards the first input. */
  function Merge(c1: seq<nat>, c2: seq<nat>): (r: seq<RefinedRun>)
    requires Sum(c1) == Sum(c2)
    ensures |r| == |c1| + |c2|
    ensures r != [] ==> !r[0].v1 && !r[0].v2
    ensures Sum(Lengths(r)) == Sum(c1)
    ensures ExpandValues(Lengths(r), Flags(r, true)) == Expand(c1)
    ensures ExpandValues(Lengths(r), Flags(r, false)) == Expand(c2)
  {
    var b := TieOrder(c1, c2);
    MergeCorrect(c1, c2, b);
    MergeWith(b)
  }

  /** On every refined run, each input's flag is that input's decoded value
      at every position the run covers. */
  lemma MergeRunAgrees(c1: seq<nat>, c2: seq<nat>, b: seq<Boundary>, k: nat, p: nat)
    requires Sum(c1) == Sum(c2)
    requires IsMergeOrder(b, PrefixSums(0, c1), PrefixSums(0, c2))
    requires k < |b|
    requires Sum(Lengths(MergeWith(b))[..k]) <= p < Sum(Lengths(MergeWith(b))[..k + 1])
    ensures p < Sum(c1)
    ensures MergeWith(b)[k].v1 == Expand(c1)[p]
    ensures MergeWith(b)[k].v2 == Expand(c2)[p]
  {
    var r := MergeWith(b);
    MergeCorrect(c1, c2, b);
    ExpandValuesAt(Lengths(r), Flags(r, true), k, p);
    ExpandValuesAt(Lengths(r), Flags(r, false), k, p);
    FlagsAt(r, k);
  }

  lemma {:induction false} FlagsAt(r: seq<RefinedRun>, k: nat)
    requires k < |r|
    ensures Flags(r, true)[k] == r[k].v1 && Flags(r, false)[k] == r[k].v2
  {
    if k > 0 {
      FlagsAt(r[1..], k - 1);
    }
  }
}
