/** The desktop `LAC` object (c++/src/lac.cpp, c++/include/lac.h): the
    per-request buffers it updates in place, `feed_data`, the decode loop of
    `run`/`run_rank`, and the rank merger's write-back. */
module LacCpp {
  import opened Bytes
  import opened Wrappers
  import opened Decoder
  import opened Batch
  import opened RankMerge

  /** The tagging model as a black box: one tag id per input id. */
  type Tagger = f: (seq<int>, seq<nat>) -> seq<int> | forall ids, lod :: |f(ids, lod)| == |ids|
    witness (ids: seq<int>, lod: seq<nat>) => ids

  class Lac {
    const vocab: Vocab
    const id2label: map<int, Bytes>
    const custom: Option<Overlay>

    var lod: seq<nat>                       // _lod[0]
    var seqWords: seq<Bytes>                // _seq_words
    var seqWordsBatch: seq<seq<Bytes>>      // _seq_words_batch
    var inputData: array<int>               // the input tensor's buffer
    var labels: seq<Bytes>                  // _labels
    var results: seq<OutputItem>            // _results
    var resultsBatch: seq<seq<OutputItem>>  // _results_batch

    /** The offset table describes the current token sequences. */
    ghost predicate Fed()
      reads this
    {
      lod == Offsets(TokenCounts(seqWordsBatch))
    }

    /** lac.cpp:24-77 without the file and model loading: the tables are
        given, and the OOV id is the id of "OOV" if present, else the
        vocabulary size minus one. */
    constructor (word2id: map<Bytes, int>, q2b: map<Bytes, Bytes>, id2label: map<int, Bytes>, custom: Option<Overlay>)
      ensures this.vocab.word2id == word2id && this.vocab.q2b == q2b
      ensures OOV_KEY in word2id ==> this.vocab.oovId == word2id[OOV_KEY]
      ensures OOV_KEY !in word2id ==> this.vocab.oovId == |word2id| - 1
      ensures this.id2label == id2label && this.custom == custom
      ensures lod == [] && seqWords == [] && seqWordsBatch == [] && labels == [] && results == [] && resultsBatch == []
      ensures fresh(inputData) && inputData.Length == 0
    {
      var oovId := |word2id| - 1;
      if OOV_KEY in word2id {
        oovId := word2id[OOV_KEY];
      }
      this.vocab := Vocab(word2id, q2b, oovId);
      this.id2label := id2label;
      this.custom := custom;
      lod := [];
      seqWords := [];
      seqWordsBatch := [];
      inputData := new int[0];
      labels := [];
      results := [];
      resultsBatch := [];
    }

    /** lac.cpp:112-156: split every query, record the running token totals
        in `_lod[0]`, size the input buffer to the total and fill it with
        the vocabulary ids. The tokenizer `split_words` is a parameter. */
    method FeedData(querys: seq<Bytes>, split: Bytes -> seq<Bytes>)
      modifies this`lod, this`seqWords, this`seqWordsBatch, this`inputData
      ensures seqWordsBatch == SplitAll(querys, split)
      ensures Fed()
      ensures fresh(inputData) && inputData[..] == FlatIds(seqWordsBatch, vocab)
      ensures querys == [] ==> seqWords == old(seqWords)
      ensures querys != [] ==> seqWords == seqWordsBatch[|querys| - 1]
    {
      var shape := SplitQueries(querys, split);
      inputData := new int[shape];
      FillInput(inputData, seqWordsBatch, vocab);
    }

    /** lac.cpp:115-126: the splitting loop of `feed_data`; returns the
        total token count `shape`. */
    method SplitQueries(querys: seq<Bytes>, split: Bytes -> seq<Bytes>) returns (shape: nat)
      modifies this`lod, this`seqWords, this`seqWordsBatch
      ensures seqWordsBatch == SplitAll(querys, split)
      ensures Fed()
      ensures shape == Sum(TokenCounts(seqWordsBatch))
      ensures querys == [] ==> seqWords == old(seqWords)
      ensures querys != [] ==> seqWords == seqWordsBatch[|querys| - 1]
    {
      ghost var parts := SplitAll(querys, split);
      ghost var before := seqWords;
      seqWordsBatch := [];
      lod := [0];
      shape := 0;
      var i := 0;
      while i < |querys|
        invariant 0 <= i <= |querys|
        invariant |seqWordsBatch| == i && seqWordsBatch == parts[..i]
        invariant lod == Offsets(TokenCounts(seqWordsBatch))
        invariant shape == lod[i]
        invariant i > 0 ==> seqWords == parts[i - 1]
        invariant i == 0 ==> seqWords == before
      {
        seqWords := split(querys[i]);
        OffsetsPush(seqWordsBatch, seqWords, lod);
        seqWordsBatch := seqWordsBatch + [seqWords];
        assert parts[..i + 1] == parts[..i] + [parts[i]];
        shape := shape + |seqWords|;
        lod := lod + [shape];
        i := i + 1;
      }
      assert parts[..i] == parts;
      OffsetsLast(TokenCounts(seqWordsBatch));
    }

    /** lac.cpp:202-222, and the same loop in `run_rank` (lac.cpp:300-327):
        for each query, map the ids of its slice of the model output to
        labels, keep those labels for the rank merger, apply the overlay if
        one is loaded, decode with `parse_targets`, and collect the result.
        Returns the pre-overlay labels (`tags_for_rank_batch`). */
    method DecodeBatch(outputD: seq<int>) returns (tagsForRank: seq<seq<Bytes>>)
      requires Tagged(lod, seqWordsBatch, outputD, id2label)
      modifies this`labels, this`results, this`resultsBatch
      ensures resultsBatch == DecodedBatch(lod, seqWordsBatch, outputD, id2label, custom)
      ensures tagsForRank == RawLabels(lod, seqWordsBatch, outputD, id2label)
      ensures labels == []
      ensures resultsBatch == [] ==> results == old(results)
      ensures resultsBatch != [] ==> results == resultsBatch[|resultsBatch| - 1]
    {
      ghost var all := DecodedBatch(lod, seqWordsBatch, outputD, id2label, custom);
      ghost var raw := RawLabels(lod, seqWordsBatch, outputD, id2label);
      labels := [];
      resultsBatch := [];
      tagsForRank := [];
      var i := 0;
      while i < |lod| - 1
        invariant 0 <= i <= |lod| - 1 == |all| == |raw|
        invariant labels == []
        invariant resultsBatch == all[..i] && tagsForRank == raw[..i]
        invariant i > 0 ==> resultsBatch == all[..i - 1] + [results]
        invariant i == 0 ==> results == old(results)
      {
        tagsForRank := DecodeNext(outputD, i, all, raw, tagsForRank);
        i := i + 1;
      }
      assert all[..i] == all && raw[..i] == raw;
    }

    /** One pass of the loop above: decode query i, push its item list, and
        push its pre-overlay labels onto `tagsBefore`. */
    method DecodeNext(outputD: seq<int>, i: nat, ghost all: seq<seq<OutputItem>>, ghost raw: seq<seq<Bytes>>,
                      tagsBefore: seq<seq<Bytes>>) returns (tagsAfter: seq<seq<Bytes>>)
      requires Tagged(lod, seqWordsBatch, outputD, id2label)
      requires i < |seqWordsBatch|
      requires all == DecodedBatch(lod, seqWordsBatch, outputD, id2label, custom)
      requires raw == RawLabels(lod, seqWordsBatch, outputD, id2label)
      requires labels == []
      requires resultsBatch == all[..i] && tagsBefore == raw[..i]
      modifies this`labels, this`results, this`resultsBatch
      ensures labels == []
      ensures resultsBatch == all[..i + 1] == old(resultsBatch) + [results]
      ensures tagsAfter == raw[..i + 1]
    {
      var tagsOfQuery := DecodeQuery(outputD, i);
      tagsAfter := tagsBefore + [tagsOfQuery];
      resultsBatch := resultsBatch + [results];
      TakeOneMore(all, i);
      TakeOneMore(raw, i);
    }

    /** lac.cpp:206-220, one query: read its labels, keep a copy for the
        merger, apply the overlay if one is loaded, decode into `_results`
        and clear `_labels`. */
    method DecodeQuery(outputD: seq<int>, i: nat) returns (tagsOfQuery: seq<Bytes>)
      requires Tagged(lod, seqWordsBatch, outputD, id2label)
      requires i < |seqWordsBatch|
      requires labels == []
      modifies this`labels, this`results
      ensures tagsOfQuery == QueryLabels(lod, seqWordsBatch, outputD, id2label, i)
      ensures results == QueryResult(lod, seqWordsBatch, outputD, id2label, custom, i)
      ensures labels == []
    {
      ReadLabels(outputD, i);
      tagsOfQuery := labels;
      if custom.Some? {
        labels := custom.value(seqWordsBatch[i], labels);
      }
      results := ParseTargets(labels, seqWordsBatch[i]);
      labels := [];
    }

    /** lac.cpp:206-212: append the label of each of query i's output ids. */
    method ReadLabels(outputD: seq<int>, i: nat)
      requires Tagged(lod, seqWordsBatch, outputD, id2label)
      requires i < |seqWordsBatch|
      modifies this`labels
      ensures labels == old(labels) + QueryLabels(lod, seqWordsBatch, outputD, id2label, i)
    {
      OffsetsRange(TokenCounts(seqWordsBatch), i);
      var begin := lod[i];
      ghost var ids := outputD[begin..lod[i + 1]];
      ghost var start := labels;
      var j := 0;
      while j < lod[i + 1] - lod[i]
        invariant 0 <= j <= |ids|
        invariant labels == start + LabelsOf(ids[..j], id2label)
      {
        var curLabelId := outputD[begin + j];
        assert ids[..j + 1] == ids[..j] + [curLabelId];
        labels := labels + [id2label[curLabelId]];
        j := j + 1;
      }
      assert ids[..j] == ids;
    }

    /** lac.cpp:191-225: feed the queries, run the tagging model on the
        input buffer and the offset table, decode. */
    method Run(querys: seq<Bytes>, split: Bytes -> seq<Bytes>, tagger: Tagger) returns (batch: seq<seq<OutputItem>>)
      requires forall ids: seq<int>, l: seq<nat>, k :: 0 <= k < |ids| ==> tagger(ids, l)[k] in id2label
      modifies this`lod, this`seqWords, this`seqWordsBatch, this`inputData, this`labels, this`results, this`resultsBatch
      ensures seqWordsBatch == SplitAll(querys, split)
      ensures Fed() && fresh(inputData) && inputData[..] == FlatIds(seqWordsBatch, vocab)
      ensures Tagged(lod, seqWordsBatch, tagger(inputData[..], lod), id2label)
      ensures batch == resultsBatch == DecodedBatch(lod, seqWordsBatch, tagger(inputData[..], lod), id2label, custom)
      ensures |batch| == |querys|
      ensures labels == []
      ensures querys == [] ==> seqWords == old(seqWords)
      ensures querys != [] ==> seqWords == seqWordsBatch[|querys| - 1]
      ensures resultsBatch == [] ==> results == old(results)
      ensures resultsBatch != [] ==> results == resultsBatch[|resultsBatch| - 1]
    {
      FeedData(querys, split);
      FlatIdsLength(seqWordsBatch, vocab);
      var outputD := tagger(inputData[..], lod);
      var _ := DecodeBatch(outputD);
      batch := resultsBatch;
    }

    /** lac.cpp:336-390: with the rank model's offset table and scores, merge
        each visited sentence's scores by the merger's boundary test and
        write them by position into that sentence's ranks. Returns -1 and
        changes nothing when the offset table or its first level is empty. */
    method MergeRankWeights(tagsForRankBatch: seq<seq<Bytes>>, rankLod: seq<seq<nat>>, rankOutput: seq<int>) returns (status: int)
      requires |rankLod| > 0 ==> ScoresInBounds(rankLod[0], rankOutput, |resultsBatch|)
      modifies this`resultsBatch
      ensures (|rankLod| == 0 || |rankLod[0]| == 0) ==> status == -1 && resultsBatch == old(resultsBatch)
      ensures !(|rankLod| == 0 || |rankLod[0]| == 0) ==>
                status == 0 && resultsBatch == RankedBatch(old(resultsBatch), tagsForRankBatch, rankLod[0], rankOutput)
    {
      if |rankLod| == 0 || |rankLod[0]| == 0 {
        return -1;
      }
      var lod0 := rankLod[0];
      var batchSize := |lod0| - 1;
      ghost var orig := resultsBatch;
      var sentIndex := 0;
      while sentIndex < batchSize && sentIndex < |resultsBatch|
        invariant 0 <= sentIndex <= |orig| == |resultsBatch|
        invariant forall s :: 0 <= s < sentIndex ==>
                    resultsBatch[s] == RankedSentence(orig, tagsForRankBatch, lod0, rankOutput, s)
        invariant forall s :: sentIndex <= s < |orig| ==> resultsBatch[s] == orig[s]
      {
        var rankWeights := ReadWeights(lod0, rankOutput, |resultsBatch|, sentIndex);
        if sentIndex < |tagsForRankBatch| && rankWeights != [] {
          var merged := MergeSentenceWeights(tagsForRankBatch[sentIndex], rankWeights);
          WriteRanks(sentIndex, merged);
        }
        sentIndex := sentIndex + 1;
      }
      assert resultsBatch == RankedBatch(orig, tagsForRankBatch, lod0, rankOutput);
      return 0;
    }

    /** lac.cpp:349-356: sentence s's scores from the rank output, each
        cast to `int`. */
    static method ReadWeights(lod0: seq<nat>, rankOutput: seq<int>, nResults: nat, s: nat) returns (rankWeights: seq<int>)
      requires ScoresInBounds(lod0, rankOutput, nResults)
      requires s < nResults && s + 1 < |lod0|
      ensures rankWeights == SentenceWeights(lod0, rankOutput, s)
    {
      var begin := lod0[s];
      var end := lod0[s + 1];
      rankWeights := [];
      var j := begin;
      while j < end
        invariant j == begin || begin < j <= end
        invariant rankWeights == seq(j - begin, k requires 0 <= k < j - begin => ToInt32(rankOutput[begin + k]))
      {
        rankWeights := rankWeights + [ToInt32(rankOutput[j])];
        j := j + 1;
      }
    }

    /** lac.cpp:383-385: `_results_batch[s][i].rank = merged[i]` for the
        indices both sequences have. */
    method WriteRanks(s: nat, merged: seq<int>)
      requires s < |resultsBatch|
      modifies this`resultsBatch
      ensures resultsBatch == old(resultsBatch)[s := WithRanks(old(resultsBatch)[s], merged)]
    {
      ghost var orig := resultsBatch;
      var i := 0;
      while i < |resultsBatch[s]| && i < |merged|
        invariant 0 <= i <= |orig[s]| && i <= |merged|
        invariant |resultsBatch| == |orig|
        invariant forall t :: 0 <= t < |orig| && t != s ==> resultsBatch[t] == orig[t]
        invariant |resultsBatch[s]| == |orig[s]|
        invariant forall k :: 0 <= k < |orig[s]| ==>
                    resultsBatch[s][k] == if k < i then orig[s][k].(rank := merged[k]) else orig[s][k]
      {
        resultsBatch := resultsBatch[s := resultsBatch[s][i := resultsBatch[s][i].(rank := merged[i])]];
        i := i + 1;
      }
      assert resultsBatch[s] == WithRanks(orig[s], merged);
      assert resultsBatch == orig[s := WithRanks(orig[s], merged)];
    }
  }
}
