/** Run-length encodings of flattened binary masks and what they denote.

    A mask is a `seq<bool>`; an RLE sequence is a `seq<nat>` of run lengths
    that alternate background (false) and foreground (true), starting with
    background. `Expand` is the meaning of an RLE sequence: the mask it
    decodes to. */
module Runs {

  /** Total number of mask elements a sequence of run lengths covers. */
  function Sum(c: seq<nat>): nat
  {
    if c == [] then 0 else c[0] + Sum(c[1..])
  }

  /** `n` copies of `v`. */
  function Repeat(v: bool, n: nat): seq<bool>
  {
    seq(n, _ => v)
  }

  /** Runs of alternating value, the first of which has value `v`. */
  function ExpandFrom(c: seq<nat>, v: bool): (m: seq<bool>)
    ensures |m| == Sum(c)
  {
    if c == [] then [] else Repeat(v, c[0]) + ExpandFrom(c[1..], !v)
  }

  /** The mask an RLE sequence denotes: even-indexed runs are background,
      odd-indexed runs are foreground. */
  function Expand(c: seq<nat>): (m: seq<bool>)
    ensures |m| == Sum(c)
  {
    ExpandFrom(c, false)
  }

  /** Each value repeated by its run length (NumPy's `repeat`). */
  function ExpandValues(c: seq<nat>, vals: seq<bool>): (m: seq<bool>)
    requires |c| == |vals|
    ensures |m| == Sum(c)
  {
    if c == [] then [] else Repeat(vals[0], c[0]) + ExpandValues(c[1..], vals[1..])
  }

  /** Number of foreground elements of a mask. */
  function CountTrue(m: seq<bool>): nat
  {
    if m == [] then 0 else (if m[0] then 1 else 0) + CountTrue(m[1..])
  }

  /** `s` is nondecreasing and bounded below by `lo`. */
  predicate Ascending(s: seq<nat>, lo: nat)
  {
    s == [] || (lo <= s[0] && Ascending(s[1..], s[0]))
  }

  /** The last entry of `s`, or `lo` when `s` is empty. */
  function LastOr(s: seq<nat>, lo: nat): nat
  {
    if s == [] then lo else s[|s| - 1]
  }

  /** Adjacent differences of `[prev] + idx`: the run lengths between
      consecutive boundary positions. */
  function Gaps(prev: nat, idx: seq<nat>): (g: seq<nat>)
    requires Ascending(idx, prev)
    ensures |g| == |idx|
    decreases idx
  {
    if idx == [] then [] else [idx[0] - prev] + Gaps(idx[0], idx[1..])
  }

  lemma RepeatSplit(v: bool, a: nat, b: nat)
    ensures Repeat(v, a + b) == Repeat(v, a) + Repeat(v, b)
  {
  }

  lemma {:induction false} CountTrueAppend(a: seq<bool>, b: seq<bool>)
    ensures CountTrue(a + b) == CountTrue(a) + CountTrue(b)
  {
    if a == [] {
      assert a + b == b;
    } else {
      assert (a + b)[1..] == a[1..] + b;
      CountTrueAppend(a[1..], b);
    }
  }

  lemma {:induction false} CountTrueRepeat(v: bool, n: nat)
    ensures CountTrue(Repeat(v, n)) == if v then n else 0
  {
    if n > 0 {
      assert Repeat(v, n)[1..] == Repeat(v, n - 1);
      CountTrueRepeat(v, n - 1);
    }
  }

  lemma {:induction false} AscendingLast(s: seq<nat>, lo: nat)
    requires Ascending(s, lo)
    ensures lo <= LastOr(s, lo)
    ensures forall i :: 0 <= i < |s| ==> lo <= s[i] <= LastOr(s, lo)
  {
    if s != [] {
      AscendingLast(s[1..], s[0]);
    }
  }

  /** Moving the start of the first run forward from `s` to `t` cuts
      `t - s` copies of the first value off the expansion. */
  lemma GapsStart(idx: seq<nat>, s: nat, t: nat, v: bool)
    requires idx != [] && s <= t <= idx[0] && Ascending(idx, t)
    ensures Ascending(idx, s)
    ensures ExpandFrom(Gaps(s, idx), v) == Repeat(v, t - s) + ExpandFrom(Gaps(t, idx), v)
  {
    RepeatSplit(v, t - s, idx[0] - t);
  }

  /** One unfolding step of `ExpandFrom`: the first run, then the rest
      with the value flipped. */
  lemma ExpandFromCons(n: nat, rest: seq<nat>, v: bool)
    ensures ExpandFrom([n] + rest, v) == Repeat(v, n) + ExpandFrom(rest, !v)
  {
    assert ([n] + rest)[1..] == rest;
  }

  /** `v` flipped `k` times. */
  function Flipped(v: bool, k: nat): bool
  {
    if k == 0 then v else !Flipped(v, k - 1)
  }

  /** Decoding semantics: position `p` lies in run `k` when the runs
      before `k` end at or before `p` and run `k` ends after it; its value is
      the starting value flipped once per earlier run. */
  lemma {:induction false} ExpandFromAt(c: seq<nat>, v: bool, k: nat, p: nat)
    requires k < |c| && Sum(c[..k]) <= p < Sum(c[..k + 1])
    ensures p < Sum(c) && ExpandFrom(c, v)[p] == Flipped(v, k)
  {
    SumPrefix(c, k + 1);
    SumPrefixUnfold(c, k + 1);
    ExpandFromIndex(c, v, p);
    if k > 0 {
      SumPrefixUnfold(c, k);
      ExpandFromAt(c[1..], !v, k - 1, p - c[0]);
      FlippedFront(v, k);
    }
  }

  lemma {:induction false} FlippedFront(v: bool, k: nat)
    requires k > 0
    ensures Flipped(!v, k - 1) == Flipped(v, k)
  {
    if k > 1 {
      FlippedFront(v, k - 1);
    }
  }

  /** Flipping `k` times keeps the value exactly when `k` is even. */
  lemma {:induction false} FlippedParity(v: bool, k: nat)
    ensures Flipped(v, k) == (if k % 2 == 0 then v else !v)
  {
    if k > 0 {
      FlippedParity(v, k - 1);
    }
  }

  /** Position `p` of an expansion lies in the first run or in the rest. */
  lemma ExpandFromIndex(c: seq<nat>, v: bool, p: nat)
    requires c != [] && p < Sum(c)
    ensures p < c[0] ==> ExpandFrom(c, v)[p] == v
    ensures c[0] <= p ==> ExpandFrom(c, v)[p] == ExpandFrom(c[1..], !v)[p - c[0]]
  {
    var head, tail := Repeat(v, c[0]), ExpandFrom(c[1..], !v);
    assert ExpandFrom(c, v) == head + tail;
  }

  /** A nonempty prefix sum is the first entry plus a prefix sum of the rest. */
  lemma SumPrefixUnfold(c: seq<nat>, k: nat)
    requires 0 < k <= |c|
    ensures Sum(c[..k]) == c[0] + Sum(c[1..][..k - 1])
  {
    assert c[..k][1..] == c[1..][..k - 1];
  }

  /** Same for a run-length sequence with explicit values: position `p` in
      run `k` carries `vals[k]`. */
  lemma {:induction false} ExpandValuesAt(c: seq<nat>, vals: seq<bool>, k: nat, p: nat)
    requires |c| == |vals| && k < |c| && Sum(c[..k]) <= p < Sum(c[..k + 1])
    ensures p < Sum(c) && ExpandValues(c, vals)[p] == vals[k]
  {
    SumPrefix(c, k + 1);
    if k == 0 {
      assert c[..1] == [c[0]];
      assert Sum(c[..1]) == c[0];
    } else {
      assert c[..k][1..] == c[1..][..k - 1];
      assert c[..k + 1][1..] == c[1..][..k];
      ExpandValuesAt(c[1..], vals[1..], k - 1, p - c[0]);
    }
  }

  lemma {:induction false} SumPrefix(c: seq<nat>, k: nat)
    requires k <= |c|
    ensures Sum(c[..k]) <= Sum(c)
  {
    if k > 0 {
      assert c[..k][1..] == c[1..][..k - 1];
      SumPrefix(c[1..], k - 1);
    }
  }

  /** The sum of a concatenation is the sum of the parts. */
  lemma {:induction false} SumAppend(s: seq<nat>, t: seq<nat>)
    ensures Sum(s + t) == Sum(s) + Sum(t)
  {
    if s == [] {
      assert s + t == t;
    } else {
      assert (s + t)[1..] == s[1..] + t;
      SumAppend(s[1..], t);
    }
  }

  /** The sum of a slice is the difference of two prefix sums. */
  lemma SumSlice(c: seq<nat>, a: nat, b: nat)
    requires a <= b <= |c|
    ensures Sum(c[a..b]) == Sum(c[..b]) - Sum(c[..a])
  {
    assert c[..b] == c[..a] + c[a..b];
    SumAppend(c[..a], c[a..b]);
  }

  /** An empty last run adds nothing to the expansion. */
  lemma {:induction false} ExpandEmptyLastRun(c: seq<nat>, v: bool)
    ensures ExpandFrom(c + [0], v) == ExpandFrom(c, v)
  {
    if c == [] {
      assert ExpandFrom([0], v) == Repeat(v, 0) + ExpandFrom([], !v);
    } else {
      ExpandEmptyLastRun(c[1..], !v);
      assert (c + [0])[1..] == c[1..] + [0];
    }
  }
}
