/** Decoder: RLE sequence to flattened mask (`rle_decode`). */
module Decoder {
  import opened Runs

  /** `vals[k]` is `v` for even `k` and `!v` for odd `k`. */
  ghost predicate Alternates(vals: seq<bool>, v: bool)
  {
    forall k :: 0 <= k < |vals| ==> vals[k] == (if k % 2 == 0 then v else !v)
  }

  /** Repeating strictly alternating values is expanding the run lengths. */
  lemma {:induction false} ExpandAlternating(c: seq<nat>, vals: seq<bool>, v: bool)
    requires |c| == |vals| && Alternates(vals, v)
    ensures ExpandValues(c, vals) == ExpandFrom(c, v)
  {
    if c != [] {
      assert Alternates(vals[1..], !v) by {
        forall k | 0 <= k < |vals[1..]|
          ensures vals[1..][k] == (if k % 2 == 0 then !v else v)
        {
          assert vals[1..][k] == vals[k + 1];
        }
      }
      ExpandAlternating(c[1..], vals[1..], !v);
    }
  }

  /** Allocates one cleared slot per run, sets every odd slot (foreground
      runs), then repeats each slot's value by its run length. */
  method Decode(counts: seq<nat>) returns (mask: seq<bool>)
    ensures mask == Expand(counts)
    ensures |mask| == Sum(counts)
  {
    var values := new bool[|counts|](_ => false);
    var i := 1;
    while i < values.Length
      invariant 1 <= i && i % 2 == 1
      invariant forall k :: 0 <= k < values.Length ==> values[k] == (k % 2 == 1 && k < i)
    {
      values[i] := true;
      i := i + 2;
    }
    assert Alternates(values[..], false);
    ExpandAlternating(counts, values[..], false);
    mask := ExpandValues(counts, values[..]);
  }

  /** Decoding semantics: the decoded mask is `Sum(counts)` long, and a
      position covered by run `k` is foreground exactly when `k` is odd. */
  lemma DecodeAt(counts: seq<nat>, k: nat, p: nat)
    requires k < |counts| && Sum(counts[..k]) <= p < Sum(counts[..k + 1])
    ensures |Expand(counts)| == Sum(counts)
    ensures p < |Expand(counts)| && (Expand(counts)[p] <==> k % 2 == 1)
  {
    ExpandFromAt(counts, false, k, p);
    FlippedParity(false, k);
  }
}
