/** Batch bookkeeping around the tagging model: the offset table `_lod[0]`,
    the vocabulary lookup that turns tokens into model input ids, and the
    slicing of the model's flat output back into one label sequence per
    query. */
module Batch {
  import opened Bytes
  import opened Wrappers
  import opened Decoder

  /** The token sequences of a batch of queries under the tokenizer `split`
      (`split_words`, which is not part of this model). */
  function SplitAll(querys: seq<Bytes>, split: Bytes -> seq<Bytes>): (r: seq<seq<Bytes>>)
    ensures |r| == |querys|
    ensures forall i :: 0 <= i < |querys| ==> r[i] == split(querys[i])
  {
    seq(|querys|, i requires 0 <= i < |querys| => split(querys[i]))
  }

  /** Token count per query. */
  function TokenCounts(batch: seq<seq<Bytes>>): (r: seq<nat>)
    ensures |r| == |batch|
    ensures forall i :: 0 <= i < |batch| ==> r[i] == |batch[i]|
  {
    seq(|batch|, i requires 0 <= i < |batch| => |batch[i]|)
  }

  function Sum(xs: seq<nat>): nat
  {
    if xs == [] then 0 else Sum(xs[..|xs| - 1]) + xs[|xs| - 1]
  }

  /** The offset table as `feed_data` builds it: start with 0 and push the
      running total after each query. */
  function Offsets(lens: seq<nat>): (r: seq<nat>)
    ensures |r| == |lens| + 1
  {
    if lens == [] then [0]
    else
      var p := Offsets(lens[..|lens| - 1]);
      p + [p[|p| - 1] + lens[|lens| - 1]]
  }

  /** Pushing one more query appends its running total. */
  lemma OffsetsPush(batch: seq<seq<Bytes>>, words: seq<Bytes>, lod: seq<nat>)
    requires lod == Offsets(TokenCounts(batch))
    ensures Offsets(TokenCounts(batch + [words])) == lod + [lod[|batch|] + |words|]
  {
    assert TokenCounts(batch + [words])[..|batch|] == TokenCounts(batch);
  }

  /** Entry i of the table is the number of tokens before query i. */
  lemma {:induction false} OffsetsAt(lens: seq<nat>, i: nat)
    requires i <= |lens|
    ensures Offsets(lens)[i] == Sum(lens[..i])
    decreases |lens|
  {
    if i < |lens| {
      var n := |lens| - 1;
      assert lens[..n][..i] == lens[..i];
      OffsetsAt(lens[..n], i);
    } else if lens != [] {
      var n := |lens| - 1;
      assert lens[..i] == lens && lens[..n][..n] == lens[..n];
      OffsetsAt(lens[..n], n);
    }
  }

  /** The last entry is the total token count. */
  lemma OffsetsLast(lens: seq<nat>)
    ensures Offsets(lens)[|lens|] == Sum(lens)
  {
    assert lens[..|lens|] == lens;
    OffsetsAt(lens, |lens|);
  }

  /** Query i's range lies inside the table and has its token count. */
  lemma OffsetsRange(lens: seq<nat>, i: nat)
    requires i < |lens|
    ensures Offsets(lens)[i] + lens[i] == Offsets(lens)[i + 1] <= Sum(lens)
  {
    OffsetsAt(lens, i);
    OffsetsAt(lens, i + 1);
    assert lens[..i + 1][..i] == lens[..i];
    OffsetsLast(lens);
    SumMonotone(lens, i + 1, |lens|);
    assert lens[..|lens|] == lens;
  }

  /** So the table starts at 0, steps by each query's count, never
      decreases, and ends at the total token count. */
  lemma OffsetsSpec(lens: seq<nat>)
    ensures var r := Offsets(lens);
            && r[0] == 0
            && (forall i :: 0 <= i < |lens| ==> r[i + 1] == r[i] + lens[i])
            && (forall i, j :: 0 <= i <= j <= |lens| ==> r[i] <= r[j])
            && r[|lens|] == Sum(lens)
  {
    OffsetsAt(lens, 0);
    assert lens[..0] == [];
    OffsetsSteps(lens);
    OffsetsMonotone(lens);
    OffsetsLast(lens);
  }

  lemma OffsetsSteps(lens: seq<nat>)
    ensures forall i :: 0 <= i < |lens| ==> Offsets(lens)[i + 1] == Offsets(lens)[i] + lens[i]
  {
    forall i | 0 <= i < |lens| ensures Offsets(lens)[i + 1] == Offsets(lens)[i] + lens[i] {
      OffsetsRange(lens, i);
    }
  }

  lemma OffsetsMonotone(lens: seq<nat>)
    ensures forall i, j :: 0 <= i <= j <= |lens| ==> Offsets(lens)[i] <= Offsets(lens)[j]
  {
    forall i, j | 0 <= i <= j <= |lens| ensures Offsets(lens)[i] <= Offsets(lens)[j] {
      OffsetsAt(lens, i);
      OffsetsAt(lens, j);
      SumMonotone(lens, i, j);
    }
  }

  lemma {:induction false} SumMonotone(lens: seq<nat>, i: nat, j: nat)
    requires i <= j <= |lens|
    ensures Sum(lens[..i]) <= Sum(lens[..j])
    decreases j
  {
    if i < j {
      assert lens[..j][..j - 1] == lens[..j - 1];
      SumMonotone(lens, i, j - 1);
    }
  }

  /** The vocabulary resolver: the word-to-id table, the full-width to
      half-width normalisation table, and the fallback id. */
  datatype Vocab = Vocab(word2id: map<Bytes, int>, q2b: map<Bytes, Bytes>, oovId: int)

  const OOV_KEY: Bytes := [79, 79, 86]  // "OOV"

  function Normalize(v: Vocab, tok: Bytes): Bytes
  {
    if tok in v.q2b then v.q2b[tok] else tok
  }

  /** The model input id of one token: normalise, then look up, falling back
      to the OOV id. */
  function TokenId(v: Vocab, tok: Bytes): int
  {
    var w := Normalize(v, tok);
    if w in v.word2id then v.word2id[w] else v.oovId
  }

  /** The id of a token, case by case in the two tables: its full-width
      to half-width replacement when it has one, then its vocabulary id,
      and the OOV id when the word is not in the vocabulary. */
  lemma TokenIdLookup(v: Vocab, tok: Bytes)
    ensures tok in v.q2b && v.q2b[tok] in v.word2id ==> TokenId(v, tok) == v.word2id[v.q2b[tok]]
    ensures tok in v.q2b && v.q2b[tok] !in v.word2id ==> TokenId(v, tok) == v.oovId
    ensures tok !in v.q2b && tok in v.word2id ==> TokenId(v, tok) == v.word2id[tok]
    ensures tok !in v.q2b && tok !in v.word2id ==> TokenId(v, tok) == v.oovId
  {
  }

  /** The ids of one query's tokens. */
  function RowIds(words: seq<Bytes>, v: Vocab): (r: seq<int>)
    ensures |r| == |words|
    ensures forall j :: 0 <= j < |words| ==> r[j] == TokenId(v, words[j])
  {
    seq(|words|, j requires 0 <= j < |words| => TokenId(v, words[j]))
  }

  /** The ids of all tokens, query after query. */
  function FlatIds(batch: seq<seq<Bytes>>, v: Vocab): seq<int>
  {
    if batch == [] then [] else FlatIds(batch[..|batch| - 1], v) + RowIds(batch[|batch| - 1], v)
  }

  /** The ids of the first i + 1 queries extend those of the first i. */
  lemma FlatIdsStep(batch: seq<seq<Bytes>>, v: Vocab, i: nat)
    requires i < |batch|
    ensures FlatIds(batch[..i + 1], v) == FlatIds(batch[..i], v) + RowIds(batch[i], v)
  {
    assert batch[..i + 1][..i] == batch[..i];
  }

  lemma {:induction false} FlatIdsLength(batch: seq<seq<Bytes>>, v: Vocab)
    ensures |FlatIds(batch, v)| == Sum(TokenCounts(batch))
    decreases |batch|
  {
    if batch != [] {
      var n := |batch| - 1;
      FlatIdsLength(batch[..n], v);
      assert TokenCounts(batch)[..n] == TokenCounts(batch[..n]);
    }
  }

  lemma {:induction false} FlatIdsPrefix(batch: seq<seq<Bytes>>, v: Vocab, i: nat)
    requires i <= |batch|
    ensures FlatIds(batch[..i], v) <= FlatIds(batch, v)
    decreases |batch|
  {
    if i < |batch| {
      var n := |batch| - 1;
      assert batch[..n][..i] == batch[..i];
      FlatIdsPrefix(batch[..n], v, i);
    } else {
      assert batch[..i] == batch;
    }
  }

  /** Query-major, token-minor layout: token j of query i sits at offset
      `_lod[0][i] + j` of the flat input. */
  lemma {:induction false} FlatIdsLayout(batch: seq<seq<Bytes>>, v: Vocab, i: nat, j: nat)
    requires i < |batch| && j < |batch[i]|
    ensures var lod := Offsets(TokenCounts(batch));
            lod[i] + j < |FlatIds(batch, v)| && FlatIds(batch, v)[lod[i] + j] == TokenId(v, batch[i][j])
  {
    var lens := TokenCounts(batch);
    OffsetsAt(lens, i);
    FlatIdsLength(batch[..i], v);
    FlatIdsLength(batch, v);
    FlatIdsPrefix(batch, v, i + 1);
    assert batch[..i + 1][..i] == batch[..i];
    assert TokenCounts(batch[..i]) == lens[..i];
  }

  /** lac.cpp:130-154: fill the input buffer through an index counter that
      runs over the queries and, within each, over its tokens. */
  method FillInput(input: array<int>, batch: seq<seq<Bytes>>, v: Vocab)
    requires input.Length == Sum(TokenCounts(batch))
    modifies input
    ensures input[..] == FlatIds(batch, v)
  {
    FlatIdsLength(batch, v);
    var index := 0;
    var i := 0;
    while i < |batch|
      invariant 0 <= i <= |batch|
      invariant index == |FlatIds(batch[..i], v)| <= input.Length
      invariant input[..index] == FlatIds(batch[..i], v)
    {
      FlatIdsStep(batch, v, i);
      FlatIdsPrefix(batch, v, i + 1);
      index := FillRow(input, index, batch[i], v);
      i := i + 1;
    }
    assert batch[..i] == batch;
    assert input[..] == input[..index];
  }

  /** The inner loop of lac.cpp:136-152: write the ids of one query's
      tokens from input[start] on, normalising each token and falling back
      to the OOV id. Returns the advanced index. */
  method FillRow(input: array<int>, start: nat, words: seq<Bytes>, v: Vocab) returns (index: nat)
    requires start + |words| <= input.Length
    modifies input
    ensures index == start + |words|
    ensures input[..index] == old(input[..start]) + RowIds(words, v)
    ensures input[index..] == old(input[index..])
  {
    ghost var done := input[..start];
    ghost var row := RowIds(words, v);
    index := start;
    var j := 0;
    while j < |words|
      invariant 0 <= j <= |words|
      invariant index == start + j
      invariant input[..index] == done + row[..j]
      invariant forall k :: index <= k < input.Length ==> input[k] == old(input[k])
    {
      var word := words[j];
      if word in v.q2b {
        word := v.q2b[word];
      }
      var wordId := v.oovId;
      if word in v.word2id {
        wordId := v.word2id[word];
      }
      assert row[..j + 1] == row[..j] + [wordId];
      input[index] := wordId;
      index := index + 1;
      j := j + 1;
    }
    assert row[..j] == row;
  }

  /** Labels for a run of tag ids; every id must be in the label table
      (lac.cpp:210-211 dereferences the lookup unchecked). */
  function LabelsOf(ids: seq<int>, id2label: map<int, Bytes>): (r: seq<Bytes>)
    requires forall k :: 0 <= k < |ids| ==> ids[k] in id2label
    ensures |r| == |ids|
    ensures forall k :: 0 <= k < |ids| ==> r[k] == id2label[ids[k]]
  {
    seq(|ids|, k requires 0 <= k < |ids| => id2label[ids[k]])
  }

  /** The customization overlay, `Customization::parse_customization`: given
      one query's tokens and labels it relabels in place, so the label
      sequence keeps its length. Its matching strategy is not modelled;
      any length-preserving relabelling is allowed. */
  type Overlay = f: (seq<Bytes>, seq<Bytes>) -> seq<Bytes> | forall w, l :: |f(w, l)| == |l|
    witness (w: seq<Bytes>, l: seq<Bytes>) => l

  function Customize(custom: Option<Overlay>, words: seq<Bytes>, labels: seq<Bytes>): (r: seq<Bytes>)
    ensures |r| == |labels|
    ensures custom == None ==> r == labels
  {
    match custom
    case None => labels
    case Some(f) => f(words, labels)
  }

  /** Taking one more element of a sequence appends that element. */
  lemma TakeOneMore<T>(s: seq<T>, i: nat)
    requires i < |s|
    ensures s[..i + 1] == s[..i] + [s[i]]
  {
  }

  /** The state `run` decodes from: the offset table `feed_data` built for
      these token sequences, and a model output covering every token with a
      known label id. */
  predicate Tagged(lod: seq<nat>, wordsBatch: seq<seq<Bytes>>, outputD: seq<int>, id2label: map<int, Bytes>)
  {
    && lod == Offsets(TokenCounts(wordsBatch))
    && Sum(TokenCounts(wordsBatch)) <= |outputD|
    && forall k :: 0 <= k < Sum(TokenCounts(wordsBatch)) ==> outputD[k] in id2label
  }

  /** The labels of query i: the ids in [lod[i], lod[i+1]) mapped to labels. */
  function QueryLabels(lod: seq<nat>, wordsBatch: seq<seq<Bytes>>, outputD: seq<int>, id2label: map<int, Bytes>, i: nat): (r: seq<Bytes>)
    requires Tagged(lod, wordsBatch, outputD, id2label)
    requires i < |wordsBatch|
    ensures |r| == |wordsBatch[i]|
  {
    OffsetsRange(TokenCounts(wordsBatch), i);
    LabelsOf(outputD[lod[i]..lod[i + 1]], id2label)
  }

  /** Query i's item list (lac.cpp:215-219): its tokens decoded under its
      labels, after the overlay when one is loaded. */
  function QueryResult(lod: seq<nat>, wordsBatch: seq<seq<Bytes>>, outputD: seq<int>, id2label: map<int, Bytes>, custom: Option<Overlay>, i: nat): seq<OutputItem>
    requires Tagged(lod, wordsBatch, outputD, id2label)
    requires i < |wordsBatch|
  {
    Decode(Customize(custom, wordsBatch[i], QueryLabels(lod, wordsBatch, outputD, id2label, i)), wordsBatch[i])
  }

  /** Query i's items cover its tokens exactly: their words concatenate to
      the concatenation of its tokens, whatever the labels and the overlay. */
  lemma QueryCoverage(lod: seq<nat>, wordsBatch: seq<seq<Bytes>>, outputD: seq<int>, id2label: map<int, Bytes>, custom: Option<Overlay>, i: nat)
    requires Tagged(lod, wordsBatch, outputD, id2label)
    requires i < |wordsBatch|
    ensures Concat(Words(QueryResult(lod, wordsBatch, outputD, id2label, custom, i))) == Concat(wordsBatch[i])
  {
    var labels := Customize(custom, wordsBatch[i], QueryLabels(lod, wordsBatch, outputD, id2label, i));
    DecodeCoverage(labels, wordsBatch[i]);
    assert wordsBatch[i][..|labels|] == wordsBatch[i];
  }

  /** What `run` returns (lac.cpp:204-222): one item list per query, in
      order. */
  function DecodedBatch(lod: seq<nat>, wordsBatch: seq<seq<Bytes>>, outputD: seq<int>, id2label: map<int, Bytes>, custom: Option<Overlay>): (r: seq<seq<OutputItem>>)
    requires Tagged(lod, wordsBatch, outputD, id2label)
    ensures |r| == |lod| - 1
  {
    seq(|wordsBatch|, i requires 0 <= i < |wordsBatch| => QueryResult(lod, wordsBatch, outputD, id2label, custom, i))
  }

  /** The labels `run_rank` keeps for the merger (lac.cpp:314): the model's
      labels before the overlay. */
  function RawLabels(lod: seq<nat>, wordsBatch: seq<seq<Bytes>>, outputD: seq<int>, id2label: map<int, Bytes>): (r: seq<seq<Bytes>>)
    requires Tagged(lod, wordsBatch, outputD, id2label)
    ensures |r| == |wordsBatch|
  {
    seq(|wordsBatch|, i requires 0 <= i < |wordsBatch| => QueryLabels(lod, wordsBatch, outputD, id2label, i))
  }

  /** List i depends only on the model output in [lod[i], lod[i+1]) and on
      query i's tokens: a query with the same tokens and the same slice of
      output decodes the same way at any position of any other batch. */
  lemma DecodedBatchLocal(lod1: seq<nat>, wb1: seq<seq<Bytes>>, out1: seq<int>,
                          lod2: seq<nat>, wb2: seq<seq<Bytes>>, out2: seq<int>,
                          id2label: map<int, Bytes>, custom: Option<Overlay>, i: nat, j: nat)
    requires Tagged(lod1, wb1, out1, id2label) && Tagged(lod2, wb2, out2, id2label)
    requires i < |wb1| && j < |wb2|
    requires wb1[i] == wb2[j]
    requires i + 1 < |lod1| && lod1[i] <= lod1[i + 1] <= |out1|
    requires j + 1 < |lod2| && lod2[j] <= lod2[j + 1] <= |out2|
    requires out1[lod1[i]..lod1[i + 1]] == out2[lod2[j]..lod2[j + 1]]
    ensures DecodedBatch(lod1, wb1, out1, id2label, custom)[i] == DecodedBatch(lod2, wb2, out2, id2label, custom)[j]
  {
    assert QueryLabels(lod1, wb1, out1, id2label, i) == QueryLabels(lod2, wb2, out2, id2label, j);
    assert DecodedBatch(lod1, wb1, out1, id2label, custom)[i] == QueryResult(lod1, wb1, out1, id2label, custom, i);
    assert DecodedBatch(lod2, wb2, out2, id2label, custom)[j] == QueryResult(lod2, wb2, out2, id2label, custom, j);
  }
}
