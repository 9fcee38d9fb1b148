/** Encoder: flattened mask to RLE sequence (`rle_encode`).

    The mask is padded with a background element in front and the negation
    of its last element behind; every index where two neighbours of the
    padded mask differ is a run boundary, and the run lengths are the gaps
    between consecutive boundaries, starting from position 0. */
module Encoder {
  import opened Runs

  /** `[false] + m + [!last]`: the padding that makes the scan find a
      boundary before the first foreground element and after the last
      element. */
  function Padded(m: seq<bool>): (p: seq<bool>)
    requires |m| > 0
    ensures |p| == |m| + 2 && !p[0] && p[|m| + 1] == !m[|m| - 1]
    ensures forall j :: 0 <= j < |m| ==> p[j + 1] == m[j]
  {
    [false] + m + [!m[|m| - 1]]
  }

  /** `p` changes value between index `j` and index `j + 1`. */
  predicate ChangeAt(p: seq<bool>, j: nat)
  {
    j + 1 < |p| && p[j] != p[j + 1]
  }

  /** The indices `j >= i` at which `p` changes value, in increasing order. */
  function ChangesFrom(p: seq<bool>, i: nat): (r: seq<nat>)
    ensures forall k :: 0 <= k < |r| ==> i <= r[k] && ChangeAt(p, r[k])
    ensures forall a, b :: 0 <= a < b < |r| ==> r[a] < r[b]
    ensures forall j :: i <= j && ChangeAt(p, j) ==> j in r
    decreases |p| - i
  {
    if i + 1 >= |p| then []
    else if ChangeAt(p, i) then [i] + ChangesFrom(p, i + 1)
    else ChangesFrom(p, i + 1)
  }

  lemma {:induction false} IncreasingAscending(s: seq<nat>, lo: nat)
    requires forall k :: 0 <= k < |s| ==> lo <= s[k]
    requires forall a, b :: 0 <= a < b < |s| ==> s[a] < s[b]
    ensures Ascending(s, lo)
  {
    if s != [] {
      IncreasingAscending(s[1..], s[0]);
    }
  }

  /** The run boundaries of `m`: the change indices of the padded mask.
      They ascend from 0, and the last one is the end of the mask, where
      the padding guarantees a change. */
  function ChangeIndices(m: seq<bool>): (r: seq<nat>)
    requires |m| > 0
    ensures Ascending(r, 0)
    ensures r != [] && r[|r| - 1] == |m|
  {
    var p := Padded(m);
    var r := ChangesFrom(p, 0);
    IncreasingAscending(r, 0);
    assert ChangeAt(p, |m|);
    assert r[|r| - 1] == |m| by {
      var k :| 0 <= k < |r| && r[k] == |m|;
      assert ChangeAt(p, r[|r| - 1]);
    }
    r
  }


  /** Entry `k` of the gaps is boundary `k` minus the boundary before it. */
  lemma {:induction false} GapsAt(prev: nat, idx: seq<nat>, k: nat)
    requires Ascending(idx, prev) && k < |idx|
    ensures Gaps(prev, idx)[k] == idx[k] - (if k == 0 then prev else idx[k - 1])
    decreases idx
  {
    if k > 0 {
      GapsAt(idx[0], idx[1..], k - 1);
    }
  }

  /** In a sequence whose last two elements differ, the next-to-last index
      is a boundary however far on the scan starts. */
  lemma ChangesReachEnd(p: seq<bool>, i: nat)
    requires i + 1 < |p| && p[|p| - 2] != p[|p| - 1]
    ensures ChangesFrom(p, i) != []
  {
    assert ChangeAt(p, |p| - 2);
  }

  /** A boundary at the start position adds an empty run and flips the
      starting value. */
  lemma EmptyFirstRun(r: seq<nat>, i: nat, v: bool)
    requires Ascending(r, i)
    ensures Ascending([i] + r, i)
    ensures ExpandFrom(Gaps(i, [i] + r), v) == ExpandFrom(Gaps(i, r), !v)
  {
    assert ([i] + r)[1..] == r;
  }

  /** Starting one position earlier, before the first boundary, adds one
      element of the starting value in front. */
  lemma OneEarlier(r: seq<nat>, i: nat, u: bool, tail: seq<bool>)
    requires r != [] && i + 1 <= r[0] && Ascending(r, i + 1)
    requires ExpandFrom(Gaps(i + 1, r), u) == tail
    ensures Ascending(r, i)
    ensures ExpandFrom(Gaps(i, r), u) == [u] + tail
  {
    GapsStart(r, i, i + 1, u);
    assert Repeat(u, 1) == [u];
  }

  /** One step of the scan: the expansion from index `i + 1` extends to
      the expansion from index `i`, whether or not `i` is a boundary. */
  lemma ChangeStep(p: seq<bool>, i: nat, r: seq<nat>, c: seq<nat>)
    requires i + 2 < |p| && r != [] && i + 1 <= r[0] && Ascending(r, i + 1)
    requires ExpandFrom(Gaps(i + 1, r), p[i + 1]) == p[i + 2..|p| - 1]
    requires c == if ChangeAt(p, i) then [i] + r else r
    ensures Ascending(c, i)
    ensures ExpandFrom(Gaps(i, c), p[i]) == p[i + 1..|p| - 1]
  {
    OneEarlier(r, i, p[i + 1], p[i + 2..|p| - 1]);
    assert [p[i + 1]] + p[i + 2..|p| - 1] == p[i + 1..|p| - 1];
    if ChangeAt(p, i) {
      EmptyFirstRun(r, i, p[i]);
    }
  }

  /** From index `i` on, the runs between the boundaries expand to the
      elements after `p[i]` and before the last, starting with the value
      `p[i]`. */
  lemma {:induction false} ExpandChanges(p: seq<bool>, i: nat)
    requires i + 1 < |p| && p[|p| - 2] != p[|p| - 1]
    ensures Ascending(ChangesFrom(p, i), i)
    ensures ExpandFrom(Gaps(i, ChangesFrom(p, i)), p[i]) == p[i + 1..|p| - 1]
    decreases |p| - i
  {
    var c := ChangesFrom(p, i);
    if i + 2 == |p| {
      assert c == [i];
    } else {
      var r := ChangesFrom(p, i + 1);
      ExpandChanges(p, i + 1);
      ChangesReachEnd(p, i + 1);
      assert r[0] >= i + 1;
      ChangeStep(p, i, r, c);
    }
  }

  /** Run lengths of `m`, background first; the empty mask has no runs.
      The lengths add up to the size of the mask. */
  function Encode(m: seq<bool>): (c: seq<nat>)
    ensures Sum(c) == |m|
  {
    if |m| == 0 then []
    else
      ExpandChanges(Padded(m), 0);
      Gaps(0, ChangeIndices(m))
  }

  /** Round trip: decoding the encoding of any mask gives the mask back. */
  lemma RoundTrip(m: seq<bool>)
    ensures Expand(Encode(m)) == m
  {
    if |m| > 0 {
      var p := Padded(m);
      ExpandChanges(p, 0);
      assert p[1..|p| - 1] == m;
    }
  }

  /** The result shape: the run lengths add up to the mask length; the
      empty mask encodes to the empty sequence; a nonempty mask has a first
      run that is empty exactly when the mask starts with foreground, and
      every later run is nonempty. */
  lemma EncodeShape(m: seq<bool>)
    ensures Sum(Encode(m)) == |m|
    ensures |m| == 0 <==> Encode(m) == []
    ensures |m| > 0 ==> (Encode(m)[0] == 0 <==> m[0])
    ensures forall k :: 1 <= k < |Encode(m)| ==> Encode(m)[k] >= 1
  {
    RoundTrip(m);
    if |m| > 0 {
      var c := ChangeIndices(m);
      ChangesReachEnd(Padded(m), 0);
      GapsAt(0, c, 0);
      var p := Padded(m);
      assert c[0] == 0 <==> p[0] != p[1] by {
        if p[0] != p[1] {
          assert ChangeAt(p, 0);
        }
      }
      forall k | 1 <= k < |Encode(m)|
        ensures Encode(m)[k] >= 1
      {
        GapsAt(0, c, k);
      }
    }
  }

  /** The form `Encode` produces: no runs at all, or a nonempty mask whose
      runs after the first are all nonempty. */
  predicate Canonical(c: seq<nat>)
  {
    c == [] || (Sum(c) > 0 && forall k :: 1 <= k < |c| ==> c[k] >= 1)
  }

  /** Up to the end of its first run, a canonical expansion holds the
      starting value; right at that end it holds the opposite one. */
  lemma FirstRunEnd(c: seq<nat>, v: bool, k: nat)
    requires Canonical(c) && c != [] && k <= c[0] && k < Sum(c)
    ensures ExpandFrom(c, v)[k] == (if k < c[0] then v else !v)
  {
    if k == c[0] {
      assert |c| > 1;
      assert ExpandFrom(c, v)[k] == ExpandFrom(c[1..], !v)[0];
    }
  }

  /** Two canonical sequences with the same expansion are equal. */
  lemma {:induction false} CanonicalUnique(c: seq<nat>, d: seq<nat>, v: bool)
    requires Canonical(c) && Canonical(d) && ExpandFrom(c, v) == ExpandFrom(d, v)
    ensures c == d
  {
    if c != [] && d != [] {
      var e := ExpandFrom(c, v);
      var k := if c[0] < d[0] then c[0] else d[0];
      if k < |e| {
        FirstRunEnd(c, v, k);
        FirstRunEnd(d, v, k);
      }
      assert c[0] == d[0];
      assert ExpandFrom(c[1..], !v) == e[c[0]..] == ExpandFrom(d[1..], !v);
      assert Canonical(c[1..]) by {
        assert c[1..] != [] ==> Sum(c[1..]) >= c[1];
      }
      assert Canonical(d[1..]) by {
        assert d[1..] != [] ==> Sum(d[1..]) >= d[1];
      }
      CanonicalUnique(c[1..], d[1..], !v);
      assert c == [c[0]] + c[1..];
      assert d == [d[0]] + d[1..];
    }
  }

  /** Encoding is the inverse of decoding on canonical sequences: re-encoding
      a decoded canonical sequence gives it back unchanged. */
  lemma EncodeOfExpand(c: seq<nat>)
    requires Canonical(c)
    ensures Encode(Expand(c)) == c
  {
    var m := Expand(c);
    RoundTrip(m);
    EncodeShape(m);
    CanonicalUnique(Encode(m), c, false);
  }
}
