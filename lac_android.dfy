/** The Android `LAC` object (Android/testlac/app/src/main/cpp/lac.cpp):
    the same buffers as the desktop one, with no customization overlay and
    no rank model; `lexer` is its batch entry point. */
module LacAndroid {
  import opened Bytes
  import opened Wrappers
  import opened Decoder
  import opened Batch

  /** The on-device tagging model as a black box: one tag id per input id. */
  type Tagger = f: (seq<int>, seq<nat>) -> seq<int> | forall ids, lod :: |f(ids, lod)| == |ids|
    witness (ids: seq<int>, lod: seq<nat>) => ids

  class Lac {
    const vocab: Vocab
    const id2label: map<int, Bytes>

    var lod: seq<nat>                       // _lod[0]
    var seqWords: seq<Bytes>                // _seq_words
    var seqWordsBatch: seq<seq<Bytes>>      // _seq_words_batch
    var inputData: array<int>               // the input tensor's buffer
    var labels: seq<Bytes>                  // _labels
    var results: seq<OutputItem>            // _results
    var resultsBatch: seq<seq<OutputItem>>  // _results_batch

    /** lac.cpp:23-58 without the file and model loading: the OOV id is the
        id of "OOV" if present, else the vocabulary size minus one. */
    constructor (word2id: map<Bytes, int>, q2b: map<Bytes, Bytes>, id2label: map<int, Bytes>)
      ensures this.vocab.word2id == word2id && this.vocab.q2b == q2b
      ensures OOV_KEY in word2id ==> this.vocab.oovId == word2id[OOV_KEY]
      ensures OOV_KEY !in word2id ==> this.vocab.oovId == |word2id| - 1
      ensures this.id2label == id2label
      ensures lod == [] && seqWords == [] && seqWordsBatch == [] && labels == [] && results == [] && resultsBatch == []
      ensures fresh(inputData) && inputData.Length == 0
    {
      var oovId := |word2id| - 1;
      if OOV_KEY in word2id {
        oovId := word2id[OOV_KEY];
      }
      this.vocab := Vocab(word2id, q2b, oovId);
      this.id2label := id2label;
      lod := [];
      seqWords := [];
      seqWordsBatch := [];
      inputData := new int[0];
      labels := [];
      results := [];
      resultsBatch := [];
    }

    /** lac.cpp:62-104: split every query, record the running token totals,
        size the input buffer to the total and fill it with vocabulary ids. */
    method FeedData(querys: seq<Bytes>, split: Bytes -> seq<Bytes>)
      modifies this`lod, this`seqWords, this`seqWordsBatch, this`inputData
      ensures seqWordsBatch == SplitAll(querys, split)
      ensures lod == Offsets(TokenCounts(seqWordsBatch))
      ensures fresh(inputData) && inputData[..] == FlatIds(seqWordsBatch, vocab)
      ensures querys == [] ==> seqWords == old(seqWords)
      ensures querys != [] ==> seqWords == seqWordsBatch[|querys| - 1]
    {
      var shape := SplitQueries(querys, split);
      inputData := new int[shape];
      FillInput(inputData, seqWordsBatch, vocab);
    }

    /** lac.cpp:64-75: the splitting loop of `feed_data`; returns `shape`. */
    method SplitQueries(querys: seq<Bytes>, split: Bytes -> seq<Bytes>) returns (shape: nat)
      modifies this`lod, this`seqWords, this`seqWordsBatch
      ensures seqWordsBatch == SplitAll(querys, split)
      ensures lod == Offsets(TokenCounts(seqWordsBatch))
      ensures shape == Sum(TokenCounts(seqWordsBatch))
      ensures querys == [] ==> seqWords == old(seqWords)
      ensures querys != [] ==> seqWords == seqWordsBatch[|querys| - 1]
    {
      ghost var parts := SplitAll(querys, split);
      ghost var before := seqWords;
      seqWordsBatch := [];
      lod := [0];
      shape := 0;
      var i := 0;
      while i < |querys|
        invariant 0 <= i <= |querys|
        invariant |seqWordsBatch| == i && seqWordsBatch == parts[..i]
        invariant lod == Offsets(TokenCounts(seqWordsBatch))
        invariant shape == lod[i]
        invariant i > 0 ==> seqWords == parts[i - 1]
        invariant i == 0 ==> seqWords == before
      {
        seqWords := split(querys[i]);
        OffsetsPush(seqWordsBatch, seqWords, lod);
        seqWordsBatch := seqWordsBatch + [seqWords];
        assert parts[..i + 1] == parts[..i] + [parts[i]];
        shape := shape + |seqWords|;
        lod := lod + [shape];
        i := i + 1;
      }
      assert parts[..i] == parts;
      OffsetsLast(TokenCounts(seqWordsBatch));
    }

    /** lac.cpp:140-166: feed the queries, run the model, decode; there is
        no overlay on this platform. */
    method Lexer(querys: seq<Bytes>, split: Bytes -> seq<Bytes>, tagger: Tagger) returns (batch: seq<seq<OutputItem>>)
      requires forall ids: seq<int>, l: seq<nat>, k :: 0 <= k < |ids| ==> tagger(ids, l)[k] in id2label
      modifies this`lod, this`seqWords, this`seqWordsBatch, this`inputData, this`labels, this`results, this`resultsBatch
      ensures seqWordsBatch == SplitAll(querys, split)
      ensures fresh(inputData) && inputData[..] == FlatIds(seqWordsBatch, vocab)
      ensures Tagged(lod, seqWordsBatch, tagger(inputData[..], lod), id2label)
      ensures batch == resultsBatch == DecodedBatch(lod, seqWordsBatch, tagger(inputData[..], lod), id2label, None)
      ensures |batch| == |querys|
      ensures labels == []
      ensures querys == [] ==> seqWords == old(seqWords)
      ensures querys != [] ==> seqWords == seqWordsBatch[|querys| - 1]
      ensures resultsBatch == [] ==> results == old(results)
      ensures resultsBatch != [] ==> results == resultsBatch[|resultsBatch| - 1]
    {
      FeedData(querys, split);
      FlatIdsLength(seqWordsBatch, vocab);
      var outputD := tagger(inputData[..], lod);
      DecodeBatch(outputD);
      batch := resultsBatch;
    }

    /** lac.cpp:149-164: for each query, map its slice of the model output
        to labels, decode with `parse_targets` and push the result. */
    method DecodeBatch(outputD: seq<int>)
      requires Tagged(lod, seqWordsBatch, outputD, id2label)
      modifies this`labels, this`results, this`resultsBatch
      ensures resultsBatch == DecodedBatch(lod, seqWordsBatch, outputD, id2label, None)
      ensures labels == []
      ensures resultsBatch == [] ==> results == old(results)
      ensures resultsBatch != [] ==> results == resultsBatch[|resultsBatch| - 1]
    {
      ghost var all := DecodedBatch(lod, seqWordsBatch, outputD, id2label, None);
      labels := [];
      resultsBatch := [];
      var i := 0;
      while i < |lod| - 1
        invariant 0 <= i <= |lod| - 1 == |all|
        invariant labels == []
        invariant resultsBatch == all[..i]
        invariant i > 0 ==> resultsBatch == all[..i - 1] + [results]
        invariant i == 0 ==> results == old(results)
      {
        DecodeNext(outputD, i, all);
        i := i + 1;
      }
      assert all[..i] == all;
    }

    /** One pass of the loop above: decode query i and push its list. */
    method DecodeNext(outputD: seq<int>, i: nat, ghost all: seq<seq<OutputItem>>)
      requires Tagged(lod, seqWordsBatch, outputD, id2label)
      requires i < |seqWordsBatch|
      requires all == DecodedBatch(lod, seqWordsBatch, outputD, id2label, None)
      requires labels == []
      requires resultsBatch == all[..i]
      modifies this`labels, this`results, this`resultsBatch
      ensures labels == []
      ensures resultsBatch == all[..i + 1] == old(resultsBatch) + [results]
    {
      DecodeQuery(outputD, i);
      resultsBatch := resultsBatch + [results];
      TakeOneMore(all, i);
    }

    /** lac.cpp:153-161, one query: read its labels, decode into
        `_results` and clear `_labels`. */
    method DecodeQuery(outputD: seq<int>, i: nat)
      requires Tagged(lod, seqWordsBatch, outputD, id2label)
      requires i < |seqWordsBatch|
      requires labels == []
      modifies this`labels, this`results
      ensures results == QueryResult(lod, seqWordsBatch, outputD, id2label, None, i)
      ensures labels == []
    {
      ReadLabels(outputD, i);
      assert labels == QueryLabels(lod, seqWordsBatch, outputD, id2label, i);
      assert Customize(None, seqWordsBatch[i], labels) == labels;
      results := ParseTargets(labels, seqWordsBatch[i]);
      labels := [];
    }

    /** lac.cpp:153-159: append the label of each of query i's output ids. */
    method ReadLabels(outputD: seq<int>, i: nat)
      requires Tagged(lod, seqWordsBatch, outputD, id2label)
      requires i < |seqWordsBatch|
      modifies this`labels
      ensures labels == old(labels) + QueryLabels(lod, seqWordsBatch, outputD, id2label, i)
    {
      OffsetsRange(TokenCounts(seqWordsBatch), i);
      var begin := lod[i];
      ghost var ids := outputD[begin..lod[i + 1]];
      ghost var start := labels;
      var j := 0;
      while j < lod[i + 1] - lod[i]
        invariant 0 <= j <= |ids|
        invariant labels == start + LabelsOf(ids[..j], id2label)
      {
        var curLabelId := outputD[begin + j];
        assert ids[..j + 1] == ids[..j] + [curLabelId];
        labels := labels + [id2label[curLabelId]];
        j := j + 1;
      }
      assert ids[..j] == ids;
    }
  }
}
