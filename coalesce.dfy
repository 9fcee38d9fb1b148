/** Coalescer (`_rle_counts_values`): sums the lengths of adjacent runs that
    carry equal values, so that the result alternates in value. */
module Coalescer {
  import opened Runs

  /** Continues the current group (value `cur`, length so far `acc`) over
      the runs `c` with values `v`, starting a new group at every change of
      value. */
  function Group(c: seq<nat>, v: seq<bool>, acc: nat, cur: bool): seq<nat>
    requires |c| == |v|
    decreases c
  {
    if c == [] then [acc]
    else if v[0] == cur then Group(c[1..], v[1..], acc + c[0], cur)
    else [acc] + Group(c[1..], v[1..], c[0], v[0])
  }

  /** Step of `GroupExpands` when the next run joins the current group. */
  lemma GroupJoins(x: seq<bool>, e: seq<bool>, rest: seq<bool>, cur: bool, acc: nat, n: nat)
    requires x == Repeat(cur, acc + n) + rest
    requires e == Repeat(cur, n) + rest
    ensures x == Repeat(cur, acc) + e
  {
    RepeatSplit(cur, acc, n);
  }

  lemma {:induction false} GroupExpands(c: seq<nat>, v: seq<bool>, acc: nat, cur: bool)
    requires |c| == |v|
    ensures ExpandFrom(Group(c, v, acc, cur), cur) == Repeat(cur, acc) + ExpandValues(c, v)
    decreases c
  {
    if c != [] {
      var e, rest := ExpandValues(c, v), ExpandValues(c[1..], v[1..]);
      assert e == Repeat(v[0], c[0]) + rest;
      if v[0] == cur {
        var g := Group(c[1..], v[1..], acc + c[0], cur);
        assert Group(c, v, acc, cur) == g;
        GroupExpands(c[1..], v[1..], acc + c[0], cur);
        GroupJoins(ExpandFrom(g, cur), e, rest, cur, acc, c[0]);
      } else {
        var g := Group(c[1..], v[1..], c[0], v[0]);
        assert Group(c, v, acc, cur) == [acc] + g;
        GroupExpands(c[1..], v[1..], c[0], v[0]);
        ExpandFromCons(acc, g, cur);
      }
    }
  }

  /** The lengths of the maximal groups of equal consecutive values, the
      first group being that of `v[0]`; no runs give no groups. */
  function Coalesce(c: seq<nat>, v: seq<bool>): (r: seq<nat>)
    requires |c| == |v|
    ensures |r| == if c == [] then 0 else |CutsFrom(v, 1)| + 1
  {
    if c == [] then []
    else
      assert c[0..1] == [c[0]];
      assert Sum(c[0..1]) == c[0];
      GroupSums(c, v, 1, 0);
      Group(c[1..], v[1..], c[0], v[0])
  }

  /** `v` differs at index `i` from the element before it. */
  predicate CutAt(v: seq<bool>, i: nat)
  {
    1 <= i < |v| && v[i - 1] != v[i]
  }

  /** The indices `i >= j` at which `v` differs from the element before it,
      in increasing order. */
  function CutsFrom(v: seq<bool>, j: nat): (r: seq<nat>)
    decreases |v| - j
  {
    if j >= |v| then []
    else if CutAt(v, j) then [j] + CutsFrom(v, j + 1)
    else CutsFrom(v, j + 1)
  }

  /** `CutsFrom` finds exactly the changes of value from `j` on, in
      increasing order. */
  lemma {:induction false} CutsFromChanges(v: seq<bool>, j: nat)
    ensures forall k :: 0 <= k < |CutsFrom(v, j)| ==> j <= CutsFrom(v, j)[k] && CutAt(v, CutsFrom(v, j)[k])
    ensures forall a, b :: 0 <= a < b < |CutsFrom(v, j)| ==> CutsFrom(v, j)[a] < CutsFrom(v, j)[b]
    ensures forall i :: j <= i && CutAt(v, i) ==> i in CutsFrom(v, j)
    decreases |v| - j
  {
    if j < |v| {
      CutsFromChanges(v, j + 1);
    }
  }

  /** Where the groups of equal consecutive values start, as
      `_rle_counts_values` finds them: index 0, every index at which the
      value changes, and the end. */
  function GroupStarts(v: seq<bool>): seq<nat>
  {
    [0] + CutsFrom(v, 1) + [|v|]
  }

  /** Positions `s[k]` and `s[k + 1]` delimit a slice of a sequence of
      length `n`. */
  predicate Span(s: seq<nat>, k: nat, n: nat)
  {
    k + 1 < |s| && s[k] <= s[k + 1] <= n
  }

  /** Entry `k` of `out` is the total length of the runs of `c` from
      position `s[k]` up to position `s[k + 1]`. */
  predicate Totals(out: seq<nat>, s: seq<nat>, c: seq<nat>)
  {
    && |s| == |out| + 1
    && forall k :: 0 <= k < |out| ==> Span(s, k, |c|) && out[k] == Sum(c[s[k]..s[k + 1]])
  }

  /** A group from `g` to the first start of `s` extends `Totals` at the front. */
  lemma TotalsCons(x: nat, out: seq<nat>, g: nat, s: seq<nat>, c: seq<nat>)
    requires Totals(out, s, c) && g <= s[0] <= |c| && x == Sum(c[g..s[0]])
    ensures Totals([x] + out, [g] + s, c)
  {
    var out', s' := [x] + out, [g] + s;
    forall k | 0 <= k < |out'|
      ensures Span(s', k, |c|) && out'[k] == Sum(c[s'[k]..s'[k + 1]])
    {
      if k > 0 {
        assert Span(s, k - 1, |c|);
        assert out'[k] == out[k - 1] && s'[k] == s[k - 1] && s'[k + 1] == s[k];
      }
    }
  }

  /** One step of `Group` at index `j`: the run joins the current group,
      or closes it and starts a new group at `j`. */
  lemma GroupStep(c: seq<nat>, v: seq<bool>, j: nat, g: nat)
    requires |c| == |v| && 1 <= j < |v| && g <= j
    ensures v[j] == v[j - 1] ==>
      (Group(c[j..], v[j..], Sum(c[g..j]), v[j - 1])
       == Group(c[j + 1..], v[j + 1..], Sum(c[g..j + 1]), v[j]))
    ensures v[j] != v[j - 1] ==>
      (Group(c[j..], v[j..], Sum(c[g..j]), v[j - 1])
       == [Sum(c[g..j])] + Group(c[j + 1..], v[j + 1..], Sum(c[j..j + 1]), v[j]))
  {
    assert c[j..][1..] == c[j + 1..] && v[j..][1..] == v[j + 1..];
    assert c[g..j + 1] == c[g..j] + [c[j]];
    assert c[j..j + 1] == [c[j]];
    SumAppend(c[g..j], [c[j]]);
  }

  /** From index `j` on, with the current group started at `g`, every entry
      `Group` emits is the total length from one group start to the next. */
  lemma {:induction false} GroupSums(c: seq<nat>, v: seq<bool>, j: nat, g: nat)
    requires |c| == |v| && 1 <= j <= |v| && g <= j
    ensures Totals(Group(c[j..], v[j..], Sum(c[g..j]), v[j - 1]), [g] + CutsFrom(v, j) + [|v|], c)
    decreases |v| - j
  {
    var acc := Sum(c[g..j]);
    if j == |v| {
      assert Group(c[j..], v[j..], acc, v[j - 1]) == [acc] + [];
      TotalsCons(acc, [], g, [|v|], c);
    } else {
      GroupStep(c, v, j, g);
      if v[j] == v[j - 1] {
        assert !CutAt(v, j) && CutsFrom(v, j) == CutsFrom(v, j + 1);
        GroupSums(c, v, j + 1, g);
      } else {
        assert CutAt(v, j) && CutsFrom(v, j) == [j] + CutsFrom(v, j + 1);
        GroupSums(c, v, j + 1, j);
        var s' := [j] + CutsFrom(v, j + 1) + [|v|];
        assert [g] + CutsFrom(v, j) + [|v|] == [g] + s';
        TotalsCons(acc, Group(c[j + 1..], v[j + 1..], Sum(c[j..j + 1]), v[j]), g, s', c);
      }
    }
  }

  /** Under `Totals`, each entry is also the difference of the running sums
      of `c` at its two ends. */
  lemma TotalsAsDifferences(out: seq<nat>, s: seq<nat>, c: seq<nat>)
    requires Totals(out, s, c)
    ensures forall k :: 0 <= k < |out| ==> Span(s, k, |c|) && out[k] == Sum(c[..s[k + 1]]) - Sum(c[..s[k]])
  {
    forall k | 0 <= k < |out|
      ensures Span(s, k, |c|) && out[k] == Sum(c[..s[k + 1]]) - Sum(c[..s[k]])
    {
      assert Span(s, k, |c|);
      SumSlice(c, s[k], s[k + 1]);
    }
  }

  /** `_rle_counts_values` entry by entry: there is one entry per group of
      equal consecutive values, and entry `k` is the total length of the
      runs from the `k`-th group start to the next, that is the difference
      of the running sums of the lengths at those two starts. */
  lemma CoalesceGroups(c: seq<nat>, v: seq<bool>)
    requires |c| == |v| && c != []
    ensures Totals(Coalesce(c, v), GroupStarts(v), c)
    ensures forall k :: 0 <= k < |Coalesce(c, v)| ==>
      (Span(GroupStarts(v), k, |c|)
       && Coalesce(c, v)[k] == Sum(c[..GroupStarts(v)[k + 1]]) - Sum(c[..GroupStarts(v)[k]]))
  {
    assert c[0..1] == [c[0]];
    assert Sum(c[0..1]) == c[0];
    GroupSums(c, v, 1, 0);
    TotalsAsDifferences(Coalesce(c, v), GroupStarts(v), c);
  }

  /** Coalescing keeps the content: the result, read as alternating runs
      that start with the value `v[0]`, expands to the same mask as the runs
      `c` with values `v`, hence has the same total; no runs coalesce to no
      runs. */
  lemma CoalescePreserves(c: seq<nat>, v: seq<bool>)
    requires |c| == |v|
    ensures c == [] ==> Coalesce(c, v) == []
    ensures c != [] ==> ExpandFrom(Coalesce(c, v), v[0]) == ExpandValues(c, v)
    ensures Sum(Coalesce(c, v)) == Sum(c)
  {
    if c != [] {
      GroupExpands(c[1..], v[1..], c[0], v[0]);
      assert |ExpandFrom(Coalesce(c, v), v[0])| == Sum(Coalesce(c, v));
    }
  }
}
