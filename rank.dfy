/** The rank score merger, `LAC::merge_rank_weights_with_word_length`
    (c++/src/lac.cpp:336-390): per-token scores of the rank model are
    grouped into words by the merger's own boundary test and reduced by
    maximum, and the group maxima are written by position into the ranks of
    the already decoded items. */
module RankMerge {
  import opened Bytes
  import opened TagLabels
  import opened Segments
  import opened Decoder

  /** `static_cast<int>` of a 64-bit score: two's-complement wrap-around to
      32 bits. */
  function ToInt32(v: int): (r: int)
    ensures -0x8000_0000 <= r < 0x8000_0000
    ensures (r - v) % 0x1_0000_0000 == 0
    ensures -0x8000_0000 <= v < 0x8000_0000 ==> r == v
  {
    (v + 0x8000_0000) % 0x1_0000_0000 - 0x8000_0000
  }

  /** The largest element of a non-empty sequence. */
  function MaxOf(xs: seq<int>): (m: int)
    requires xs != []
    ensures m in xs
    ensures forall k :: 0 <= k < |xs| ==> xs[k] <= m
  {
    if |xs| == 1 then xs[0] else Max(MaxOf(xs[..|xs| - 1]), xs[|xs| - 1])
  }

  /** The merge loop over the labels, reading score i with label i: push a
      score at the first index or at a merger boundary, otherwise raise the
      last entry to the maximum of itself and the score. */
  function MergeScores(tags: seq<Bytes>, weights: seq<int>): (r: seq<int>)
    requires |tags| <= |weights|
    ensures |r| <= |tags|
    ensures tags != [] ==> r != []
  {
    if tags == [] then []
    else
      var n := |tags| - 1;
      var prev := MergeScores(tags[..n], weights);
      if prev == [] || RankBoundary(tags[n]) then prev + [weights[n]]
      else prev[..|prev| - 1] + [Max(prev[|prev| - 1], weights[n])]
  }

  /** The loop runs while both the labels and the scores last. */
  function MergedWeights(tags: seq<Bytes>, weights: seq<int>): (r: seq<int>)
    ensures |r| <= Min(|tags|, |weights|)
    ensures Min(|tags|, |weights|) > 0 ==> r != []
  {
    MergeScores(tags[..Min(|tags|, |weights|)], weights)
  }

  /** lac.cpp:370-380: build `merged_weights` by `push_back` and
      `back() = max(...)`. */
  method MergeSentenceWeights(tags: seq<Bytes>, weights: seq<int>) returns (merged: seq<int>)
    ensures merged == MergedWeights(tags, weights)
  {
    var n := Min(|tags|, |weights|);
    merged := [];
    var ind := 0;
    while ind < |tags| && ind < |weights|
      invariant 0 <= ind <= n
      invariant merged == MergeScores(tags[..ind], weights)
    {
      assert tags[..ind + 1][..ind] == tags[..ind];
      if merged == [] || RankBoundary(tags[ind]) {
        merged := merged + [weights[ind]];
      } else {
        merged := merged[|merged| - 1 := Max(merged[|merged| - 1], weights[ind])];
      }
      ind := ind + 1;
    }
  }

  /** Scores r match segmentation s of the first n positions: one score per
      segment, the maximum of the segment's weights. */
  ghost predicate ScoresMatch(r: seq<int>, s: seq<nat>, weights: seq<int>, n: nat)
    requires n <= |weights|
  {
    && |r| == |s|
    && (forall k :: 0 <= k < |s| ==> ScoreMatches(r, s, weights, n, k))
  }

  /** Score k is the maximum over segment k, which is non-empty. */
  ghost predicate ScoreMatches(r: seq<int>, s: seq<nat>, weights: seq<int>, n: nat, k: nat)
    requires n <= |weights| && k < |s| == |r|
  {
    s[k] < SegEnd(s, k, n) <= n && r[k] == MaxOf(weights[s[k]..SegEnd(s, k, n)])
  }

  lemma PushStep(prev: seq<int>, sp: seq<nat>, weights: seq<int>, n: nat)
    requires n < |weights|
    requires ScoresMatch(prev, sp, weights, n)
    ensures ScoresMatch(prev + [weights[n]], sp + [n], weights, n + 1)
  {
    var s := sp + [n];
    var r := prev + [weights[n]];
    var n' := n + 1;
    forall k | 0 <= k < |s|
      ensures ScoreMatches(r, s, weights, n', k)
    {
      if k < |sp| {
        assert ScoreMatches(prev, sp, weights, n, k);
        assert SegEnd(s, k, n + 1) == SegEnd(sp, k, n);
      } else {
        assert weights[n..n + 1] == [weights[n]];
      }
    }
  }

  lemma RaiseStep(prev: seq<int>, sp: seq<nat>, weights: seq<int>, n: nat)
    requires n < |weights|
    requires ScoresMatch(prev, sp, weights, n)
    requires prev != []
    ensures var m := |prev| - 1;
            ScoresMatch(prev[..m] + [Max(prev[m], weights[n])], sp, weights, n + 1)
  {
    var m := |prev| - 1;
    var r := prev[..m] + [Max(prev[m], weights[n])];
    var n' := n + 1;
    forall k | 0 <= k < |sp|
      ensures ScoreMatches(r, sp, weights, n', k)
    {
      assert ScoreMatches(prev, sp, weights, n, k);
      if k == m {
        var seg := weights[sp[k]..n + 1];
        assert seg[..|seg| - 1] == weights[sp[k]..n];
      } else {
        assert SegEnd(sp, k, n + 1) == SegEnd(sp, k, n);
      }
    }
  }

  /** One step of both accumulators on the first n labels. */
  lemma MergePrefixStep(tags: seq<Bytes>, weights: seq<int>, n: nat)
    requires 0 < n <= |tags| <= |weights|
    ensures var pt := tags[..n - 1];
            var prev := MergeScores(pt, weights);
            var m := |prev| - 1;
            if prev == [] || RankBoundary(tags[n - 1]) then
              && MergeScores(tags[..n], weights) == prev + [weights[n - 1]]
              && Starts(tags[..n], RankBoundary) == Starts(pt, RankBoundary) + [n - 1]
            else
              && MergeScores(tags[..n], weights) == prev[..m] + [Max(prev[m], weights[n - 1])]
              && Starts(tags[..n], RankBoundary) == Starts(pt, RankBoundary)
  {
    assert tags[..n][..n - 1] == tags[..n - 1];
    assert tags[..n][n - 1] == tags[n - 1];
  }

  /** One merge step keeps the scores matched to the segments. */
  lemma MergeSegmentStep(tags: seq<Bytes>, weights: seq<int>, n: nat, prev: seq<int>, sp: seq<nat>)
    requires 0 < n <= |tags| <= |weights|
    requires prev == MergeScores(tags[..n - 1], weights) && sp == Starts(tags[..n - 1], RankBoundary)
    requires ScoresMatch(prev, sp, weights, n - 1)
    ensures ScoresMatch(MergeScores(tags[..n], weights), Starts(tags[..n], RankBoundary), weights, n)
  {
    MergePrefixStep(tags, weights, n);
    if prev == [] || RankBoundary(tags[n - 1]) {
      PushStep(prev, sp, weights, n - 1);
    } else {
      RaiseStep(prev, sp, weights, n - 1);
    }
  }

  lemma {:induction false} MergePrefixSegments(tags: seq<Bytes>, weights: seq<int>, n: nat)
    requires n <= |tags| <= |weights|
    ensures ScoresMatch(MergeScores(tags[..n], weights), Starts(tags[..n], RankBoundary), weights, n)
  {
    if n > 0 {
      MergePrefixSegments(tags, weights, n - 1);
      MergeSegmentStep(tags, weights, n, MergeScores(tags[..n - 1], weights), Starts(tags[..n - 1], RankBoundary));
    }
  }

  /** Segment maximum: with n = min(|tags|, |weights|), there is one merged
      score per opening position of the merger's test among the first n
      labels, and score k is the maximum weight of segment k. */
  lemma MergedSegments(tags: seq<Bytes>, weights: seq<int>)
    ensures var n := Min(|tags|, |weights|);
            var r := MergedWeights(tags, weights);
            var s := Starts(tags[..n], RankBoundary);
            && |r| == |s|
            && forall k :: 0 <= k < |r| ==>
                 && s[k] < SegEnd(s, k, n)
                 && r[k] == MaxOf(weights[s[k]..SegEnd(s, k, n)])
  {
    var n := Min(|tags|, |weights|);
    var t := tags[..n];
    MergePrefixSegments(t, weights, n);
    assert t[..n] == t;
    var s := Starts(t, RankBoundary);
    var r := MergedWeights(tags, weights);
    forall k | 0 <= k < |r|
      ensures s[k] < SegEnd(s, k, n) && r[k] == MaxOf(weights[s[k]..SegEnd(s, k, n)])
    {
      assert ScoreMatches(r, s, weights, n, k);
    }
  }

  /** lac.cpp:383-385: merged score i becomes the rank of item i, for the
      indices both sequences have; everything else is kept. */
  function WithRanks(items: seq<OutputItem>, merged: seq<int>): (r: seq<OutputItem>)
    ensures |r| == |items|
  {
    seq(|items|, i requires 0 <= i < |items| =>
      if i < |merged| then items[i].(rank := merged[i]) else items[i])
  }

  /** Only the ranks of the first min(|items|, |merged|) items change, each
      to its merged score; words and tags never change. */
  lemma WithRanksChanges(items: seq<OutputItem>, merged: seq<int>, i: nat)
    requires i < |items|
    ensures WithRanks(items, merged)[i].word == items[i].word
    ensures WithRanks(items, merged)[i].tag == items[i].tag
    ensures i < |merged| ==> WithRanks(items, merged)[i].rank == merged[i]
    ensures i >= |merged| ==> WithRanks(items, merged)[i] == items[i]
  {
  }

  /** The rank model's offset table only points into its output where the
      merger reads it: for each sentence it visits with a non-empty range. */
  predicate ScoresInBounds(lod0: seq<nat>, rankOut: seq<int>, nResults: nat)
  {
    forall s :: 0 <= s < nResults && s + 1 < |lod0| && lod0[s] < lod0[s + 1] ==> lod0[s + 1] <= |rankOut|
  }

  /** lac.cpp:349-356: sentence s's scores, each cast to `int`; empty when
      its range is. */
  function SentenceWeights(lod0: seq<nat>, rankOut: seq<int>, s: nat): (r: seq<int>)
    requires s + 1 < |lod0|
    requires lod0[s] < lod0[s + 1] ==> lod0[s + 1] <= |rankOut|
    ensures |r| == if lod0[s] < lod0[s + 1] then lod0[s + 1] - lod0[s] else 0
    ensures forall j :: 0 <= j < |r| ==> r[j] == ToInt32(rankOut[lod0[s] + j])
  {
    if lod0[s] < lod0[s + 1] then
      seq(lod0[s + 1] - lod0[s], j requires 0 <= j < lod0[s + 1] - lod0[s] => ToInt32(rankOut[lod0[s] + j]))
    else []
  }

  /** Whether the merger rewrites sentence s (lac.cpp:348 and 359). */
  predicate Merges(results: seq<seq<OutputItem>>, tagsBatch: seq<seq<Bytes>>, lod0: seq<nat>, rankOut: seq<int>, s: nat)
    requires ScoresInBounds(lod0, rankOut, |results|)
  {
    s < |results| && s + 1 < |lod0| && s < |tagsBatch| && SentenceWeights(lod0, rankOut, s) != []
  }

  /** Sentence s after the merger: the merged scores of its pre-overlay
      labels as ranks when the merger visits it, else unchanged. */
  function RankedSentence(results: seq<seq<OutputItem>>, tagsBatch: seq<seq<Bytes>>, lod0: seq<nat>, rankOut: seq<int>, s: nat): seq<OutputItem>
    requires ScoresInBounds(lod0, rankOut, |results|)
    requires s < |results|
  {
    if Merges(results, tagsBatch, lod0, rankOut, s)
    then WithRanks(results[s], MergedWeights(tagsBatch[s], SentenceWeights(lod0, rankOut, s)))
    else results[s]
  }

  /** The batch after the merger. */
  function RankedBatch(results: seq<seq<OutputItem>>, tagsBatch: seq<seq<Bytes>>, lod0: seq<nat>, rankOut: seq<int>): (r: seq<seq<OutputItem>>)
    requires ScoresInBounds(lod0, rankOut, |results|)
    ensures |r| == |results|
  {
    seq(|results|, s requires 0 <= s < |results| => RankedSentence(results, tagsBatch, lod0, rankOut, s))
  }

  /** The merger only touches ranks: every sentence keeps its length and its
      words and tags; sentences it does not visit are unchanged. */
  lemma RankedBatchKeeps(results: seq<seq<OutputItem>>, tagsBatch: seq<seq<Bytes>>, lod0: seq<nat>, rankOut: seq<int>, s: nat, i: nat)
    requires ScoresInBounds(lod0, rankOut, |results|)
    requires s < |results| && i < |results[s]|
    ensures var r := RankedBatch(results, tagsBatch, lod0, rankOut);
            && |r[s]| == |results[s]|
            && r[s][i].word == results[s][i].word
            && r[s][i].tag == results[s][i].tag
            && (!Merges(results, tagsBatch, lod0, rankOut, s) ==> r[s] == results[s])
  {
  }

  /** When every label is well formed and there are scores for all labels,
      the merger's groups are exactly the decoder's words: every decoded item
      gets a rank, and that rank is the maximum score over its tokens. */
  lemma RankAlignment(tags: seq<Bytes>, words: seq<Bytes>, weights: seq<int>)
    requires forall i :: 0 <= i < |tags| ==> WellFormed(tags[i])
    requires |tags| <= |words| && |tags| <= |weights|
    ensures var items := WithRanks(Decode(tags, words), MergedWeights(tags, weights));
            var s := Starts(tags, IsBoundary);
            && |items| == |s| == |MergedWeights(tags, weights)|
            && forall k :: 0 <= k < |items| ==>
                 && s[k] < SegEnd(s, k, |tags|)
                 && items[k] == OutputItem(Concat(words[s[k]..SegEnd(s, k, |tags|)]),
                                           Category(tags[s[k]]),
                                           MaxOf(weights[s[k]..SegEnd(s, k, |tags|)]))
  {
    var n := |tags|;
    assert Min(|tags|, |weights|) == n;
    assert tags[..n] == tags;
    forall i | 0 <= i < |tags| ensures IsBoundary(tags[i]) == RankBoundary(tags[i]) {
      BoundaryTestsAgree(tags[i]);
    }
    StartsCongruent(tags, IsBoundary, RankBoundary);
    DecodeSegments(tags, words);
    MergedSegments(tags, weights);
  }

  /** Maximum, not sum or average: "n-B n-E" with scores 3, 7 merges to 7. */
  lemma MaxNotSum()
    ensures MergedWeights([Str("n-B"), Str("n-E")], [3, 7]) == [7]
  {
    var ts := [Str("n-B"), Str("n-E")];
    assert ts[..2] == ts && ts[..1] == [Str("n-B")];
    assert ts[..1][..0] == ts[..0];
    RankBoundaryIffPair(Str("n-E"));
  }

  /** The shortfall the two boundary tests allow: under the labels "n-B", "B"
      the decoder opens two words but the merger builds one score, so the
      second word keeps its rank 0. */
  lemma RankShortfall()
    ensures |Decode([Str("n-B"), Str("B")], [Str("x"), Str("y")])| == 2
    ensures MergedWeights([Str("n-B"), Str("B")], [3, 7]) == [7]
    ensures WithRanks(Decode([Str("n-B"), Str("B")], [Str("x"), Str("y")]), [7])[1].rank == 0
  {
    var ts := [Str("n-B"), Str("B")];
    assert ts[..2] == ts && ts[..1] == [Str("n-B")];
    assert ts[..1][..0] == ts[..0];
    BoundaryTestsDiffer();
    IsBoundaryIffLast(Str("B"));
  }
}
