/** The segmentation both left-to-right accumulators share: a sequence of
    labels is cut into consecutive segments, each starting at an opening
    position. Position 0 always opens (there is nothing to extend yet);
    a later position opens when its label passes the boundary test. */
module Segments {
  import opened Bytes

  /** The opening positions, in increasing order. */
  function Starts(tags: seq<Bytes>, opens: Bytes -> bool): (r: seq<nat>)
    ensures |r| <= |tags|
    ensures tags != [] ==> |r| > 0 && r[0] == 0
    ensures forall k :: 0 <= k < |r| ==> r[k] < |tags|
    ensures forall j, k :: 0 <= j < k < |r| ==> r[j] < r[k]
  {
    if tags == [] then []
    else
      var n := |tags| - 1;
      Starts(tags[..n], opens) + (if n == 0 || opens(tags[n]) then [n] else [])
  }

  /** Where segment k (starting at starts[k]) ends, exclusive. */
  function SegEnd(starts: seq<nat>, k: nat, n: nat): nat
  {
    if k + 1 < |starts| then starts[k + 1] else n
  }

  /** Index 0 opens, and any other index opens exactly when its label
      passes the test. */
  lemma {:induction false} StartsMembers(tags: seq<Bytes>, opens: Bytes -> bool, i: int)
    ensures i in Starts(tags, opens) <==> 0 <= i < |tags| && (i == 0 || opens(tags[i]))
    decreases |tags|
  {
    if tags != [] {
      var n := |tags| - 1;
      StartsMembers(tags[..n], opens, i);
    }
  }

  /** Every segment is non-empty and lies inside [0, |tags|). */
  lemma SegmentBounds(tags: seq<Bytes>, opens: Bytes -> bool, k: nat)
    requires k < |Starts(tags, opens)|
    ensures var s := Starts(tags, opens); s[k] < SegEnd(s, k, |tags|) <= |tags|
  {
  }

  /** The segmentation only depends on the boundary test's answers on the
      labels at hand. */
  lemma {:induction false} StartsCongruent(tags: seq<Bytes>, o1: Bytes -> bool, o2: Bytes -> bool)
    requires forall i :: 0 <= i < |tags| ==> o1(tags[i]) == o2(tags[i])
    ensures Starts(tags, o1) == Starts(tags, o2)
    decreases |tags|
  {
    if tags != [] {
      var n := |tags| - 1;
      StartsCongruent(tags[..n], o1, o2);
    }
  }
}
