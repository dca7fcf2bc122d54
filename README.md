# LAC post-processing, modelled in Dafny

LAC is a lexical analyser for Chinese: it does word segmentation, part-of-speech tagging and named-entity tagging. A neural tagger gives one label per token, for example `n-B`, `n-I` or `PER-S`. The C++ `LAC` class does the bookkeeping around that model. This project models that bookkeeping on the desktop build (`c++/src/lac.cpp`) and the Android build (`Android/testlac/app/src/main/cpp/lac.cpp`), in these steps:

- **Batch feeding** (`feed_data`). Each query is split into tokens, and the running token totals are recorded in the offset table `_lod[0]`. Each token is normalised through the `q2b` table and looked up in `word2id`, falling back to the OOV id. The ids are written into one flat input buffer.
- **The OOV rule** in the constructors. The OOV id is the id of the key `"OOV"` if the vocabulary has it, otherwise the vocabulary size minus one.
- **Tag decoding** (`parse_targets`). This is a left-to-right accumulator. A new `OutputItem` opens when there is no item yet, or when the label ends in `B` or `S`. Otherwise the token is appended to the last item. The item's tag is its opening label minus its last two characters.
- **The batch decode loop** of `run`, `run_rank` and the Android `lexer`. Each query's slice of the model output is mapped to labels. The customization overlay is applied if one is loaded, then the labels are decoded. `run_rank` also keeps the labels as they were before the overlay, for the rank merger.
- **The rank merger** (`merge_rank_weights_with_word_length`). It groups the rank model's per-token scores with its own boundary test: `-B` or `-S` appears anywhere in the label. Each group is reduced to its maximum, and the group maxima are written by position into the decoded items' `rank`.
- **JSON output.** `escape_json_string` escapes a byte string in the manner of section 7 of RFC 8259. The two `results_to_json` overloads assemble item lists and batches.

Each state-changing operation is a method of the model class:

- `LacCpp.Lac` models the desktop class; `LacAndroid.Lac` models the Android class.
- Each method is proved against a specification function: `Offsets`, `FlatIds`, `Decode`, `DecodedBatch`, `MergedWeights`, `RankedBatch`, `Escape`, `ListJson` and `BatchJson`.
- Lemmas state what the source promises about those functions:
  - coverage and segment structure of the decoder;
  - the shape of the offset table and the id layout;
  - segment maxima and "only ranks change" for the merger;
  - a read-back round trip for the JSON.

Modules:

- `Bytes`: byte strings and their concatenation.
- `TagLabels`:
  - the two boundary tests, written with `std::string` search semantics;
  - the category extraction;
  - how the two tests relate.
- `Segments`: the cutting of a label sequence into segments at opening positions. The decoder and the merger share it.
- `Decoder`: `parse_targets`.
- `RankMerge`: the merge of one sentence and its write-back.
- `Batch`: the offset table, the vocabulary lookup and the id fill, and the per-query slicing of the model output.
- `LacCpp` and `LacAndroid`: the two classes, with the buffers they update in place.
- `Json`:
  - the encoder;
  - a reference reader for the JSON subset the encoder emits;
  - the round trips.
- `Wrappers`: `Option`.

Modelling choices:

- Strings are sequences of bytes (`Byte` is `0..255`).
- The tokenizer `split_words` and the neural predictors are function parameters.
  - A predictor returns one id per input id.
  - The customization overlay is any length-preserving relabelling.
- Both builds have their own copies of `parse_targets`. They are the same code, so they share `Decoder.ParseTargets`.
- Labels shorter than two bytes are modelled literally, with `size_t` arithmetic:
  - The empty label counts as a boundary: `rfind` returns `npos`, and `length() - 1` wraps to `npos` too.
  - A one-byte label is a boundary only if it is `B` or `S`.
  - `substr(0, length() - 2)` keeps the whole label when it is shorter than two bytes.
- Notes on labels and the deployed model:
  - On labels made of a category with no `-`, then `-`, then one position byte, the decoder's test and the merger's test agree (`TagLabels.BoundaryTestsAgree`).
  - On other labels they can disagree (`TagLabels.BoundaryTestsDiffer`, `RankMerge.RankShortfall`).
  - The model does not assume that labels are well formed.
- The merger reads the labels taken before the overlay. So with a customization loaded, its groups may differ from the decoded words. The code passes the pre-overlay labels `tags_for_rank` (c++/src/lac.cpp:314).

## Model

| member | source | states |
|---|---|---|
| LacCpp.Lac.constructor | c++/src/lac.cpp:24-77 | The vocabulary tables are the given ones. The OOV id is `word2id["OOV"]` when that key exists, else `\|word2id\| - 1`. All per-request buffers start empty: `_lod[0]`, `_seq_words`, `_seq_words_batch`, `_labels`, `_results`, `_results_batch`, and a fresh input buffer of length 0. |
| LacAndroid.Lac.constructor | Android/testlac/app/src/main/cpp/lac.cpp:23-59 | Same OOV rule as the desktop build (lines 51-56). Every buffer, `_seq_words` included, starts empty, and the input buffer is fresh with length 0. |
| LacCpp.Lac.FeedData | c++/src/lac.cpp:112-156 | The token sequences are the split queries. `_lod[0]` is the prefix-sum table of their token counts. The fresh input buffer holds `FlatIds`: every token's normalised-then-looked-up id, with the OOV fallback, query after query. `_seq_words` is left at the last query's tokens. |
| LacCpp.Lac.SplitQueries | c++/src/lac.cpp:115-126 | The splitting loop leaves the split queries, the offset table `Offsets(TokenCounts(...))`, and `shape` = the total token count. |
| LacAndroid.Lac.FeedData | Android/testlac/app/src/main/cpp/lac.cpp:62-104 | Same as the desktop `feed_data`: the split queries, the offset table, and the flat id buffer. |
| LacAndroid.Lac.SplitQueries | Android/testlac/app/src/main/cpp/lac.cpp:64-75 | The split queries, their prefix-sum table, and `shape` = the total token count. |
| Batch.SplitAll | c++/src/lac.cpp:120-123 | One token sequence per query, in order: the tokenizer's result on that query. |
| Batch.TokenCounts | c++/src/lac.cpp:124 | Entry i is query i's token count. |
| Batch.Offsets | c++/src/lac.cpp:118-125 | The table `feed_data` builds: 0, then the running total after each query, so one entry more than there are queries. Its values are stated by `OffsetsAt`, `OffsetsSteps` and `OffsetsLast`. |
| Batch.OffsetsPush | c++/src/lac.cpp:123-125 | Pushing a query appends the old last entry plus its token count. |
| Batch.OffsetsAt | c++/src/lac.cpp:118-126 | Entry i of the table is the number of tokens in the queries before i. |
| Batch.OffsetsLast | c++/src/lac.cpp:124-128 | The last entry is the total token count `shape`. |
| Batch.OffsetsRange | c++/src/lac.cpp:204-209 | Query i's range `[lod[i], lod[i+1])` has its token count as width and lies within the total. |
| Batch.OffsetsSpec | c++/src/lac.cpp:115-126 | The table has `\|querys\|+1` entries and starts at 0. Each step is that query's token count. It never decreases, and it ends at `shape`. |
| Batch.OffsetsSteps | c++/src/lac.cpp:124-125 | `lod[i+1] == lod[i] + \|tokens of query i\|` for every query. |
| Batch.OffsetsMonotone | c++/src/lac.cpp:118-126 | The table is non-decreasing. |
| Batch.Normalize | c++/src/lac.cpp:138-143 | A token is replaced by its `q2b` entry when it has one, and kept otherwise. What this means for the id is stated by `TokenIdLookup`. |
| Batch.TokenId | c++/src/lac.cpp:145-151 | The id of the normalised token in `word2id`, with the OOV id as the fallback. The four cases are stated by `TokenIdLookup`. |
| Batch.TokenIdLookup | c++/src/lac.cpp:138-151 | Case by case: a token with a `q2b` entry gets the id of that entry, or the OOV id when the entry is not in `word2id`. A token without one gets its own id, or the OOV id. |
| Batch.RowIds | c++/src/lac.cpp:135-153 | One id per token of a query: the token after `q2b` normalisation, looked up in `word2id`, else the OOV id. |
| Batch.FlatIds | c++/src/lac.cpp:133-154 | The ids of all tokens, query after query. `FlatIdsStep` and `FlatIdsPrefix` state the order, `FlatIdsLength` the length and `FlatIdsLayout` where each id sits. |
| Batch.FlatIdsStep | c++/src/lac.cpp:133-154 | The ids of the first i+1 queries are those of the first i, followed by query i's ids. |
| Batch.FlatIdsLength | c++/src/lac.cpp:128-152 | The flat id sequence has exactly `shape` entries. |
| Batch.FlatIdsPrefix | c++/src/lac.cpp:133-154 | The ids of the first i queries are a prefix of the whole fill. |
| Batch.FlatIdsLayout | Android/testlac/app/src/main/cpp/lac.cpp:79-101 | Query-major, token-minor layout: entry `lod[i]+j` is the id of token j of query i. |
| Batch.FillInput | c++/src/lac.cpp:130-154 | The nested fill loop leaves the buffer equal to `FlatIds` of the batch. |
| Batch.FillRow | c++/src/lac.cpp:135-153 | The inner loop advances the index by the query's token count. It keeps what was written before, appends the query's ids, and leaves the rest of the buffer unchanged. |
| Decoder.Decode | c++/src/lac.cpp:164-179 | The decoder never yields more items than labels, and yields at least one item on a non-empty input. |
| Decoder.Words | c++/src/lac.cpp:171-177 | The words of the items, in order. |
| Decoder.Open | c++/src/lac.cpp:170-173 | An opened item holds the whole token text and rank 0. Its tag is a prefix of the label, two bytes shorter when the label has at least two. |
| Decoder.ParseTargets | c++/src/lac.cpp:159-181 | The clear, then push-or-append loop, gives `Decode(tags, words)`. |
| Decoder.DecodeSegments | c++/src/lac.cpp:165-178 | There is one item per opening position (index 0, or a label ending in B/S). Item k holds the concatenated tokens of segment k, the opening label minus its last two bytes, and rank 0. Later labels of a segment do not change its tag. |
| Decoder.DecodePrefixSegments | c++/src/lac.cpp:165-178 | The segment characterisation holds after every prefix of the loop. |
| Decoder.SegmentStep | c++/src/lac.cpp:168-178 | One push or append keeps the item list matched to the segmentation. |
| Decoder.PrefixStep | c++/src/lac.cpp:168-178 | One loop step pushes a new item exactly when the result is empty or the label is a boundary, and then also records a new opening position. Otherwise it appends the token to the last item's word. |
| Decoder.OpenStep | c++/src/lac.cpp:170-173 | Pushing a new item opens a new segment at this position. |
| Decoder.ExtendStep | c++/src/lac.cpp:177 | Appending the token to the last item extends the last segment. |
| Decoder.DecodeCoverage | c++/src/lac.cpp:164-179 | The item words concatenate to `words[0] + … + words[\|tags\|-1]`. |
| Decoder.CoveragePrefix | c++/src/lac.cpp:165-178 | Coverage holds after every prefix of the loop. |
| Decoder.AppendWord | c++/src/lac.cpp:173 | A pushed item adds its word at the end of the concatenation. |
| Decoder.ExtendWord | c++/src/lac.cpp:177 | Appending to the last item's word adds that text at the end of the concatenation. |
| Decoder.DecodeCount | c++/src/lac.cpp:168 | The number of items is the number of opening positions, and the first item's tag comes from the first label whatever it is. |
| Decoder.DecodeTwice | Android/testlac/app/src/main/cpp/lac.cpp:112-127 | The result depends only on the labels and the tokens they cover: `result` is cleared first, and nothing else is read. |
| Decoder.SingleToken | c++/src/lac.cpp:168-173 | One token under `n-S` becomes one item with tag `n` and rank 0. |
| Decoder.ShortCategory | c++/src/lac.cpp:172 | The category of `c-m` is `c`. |
| Decoder.ThreeTokenWord | c++/src/lac.cpp:168-177 | Three tokens under `a-B a-I a-E` become one word with tag `a`. |
| Decoder.InsideFirstToken | Android/testlac/app/src/main/cpp/lac.cpp:116 | A first token labelled `n-I` still opens an item. |
| TagLabels.RFind | c++/src/lac.cpp:168 | `rfind` gives the last index holding the byte, or `npos`. |
| TagLabels.FindPairFrom | c++/src/lac.cpp:373-374 | `find` of a two-byte pattern gives its first occurrence, or `npos`. |
| TagLabels.EndsWithMarker | c++/src/lac.cpp:168 | `rfind(c) == length() - 1` in `size_t`, which also holds for the empty label. `IsBoundaryIffLast` states what it means. |
| TagLabels.IsBoundary | c++/src/lac.cpp:168 | The decoder's test: the label ends with `B` or with `S`. `IsBoundaryIffLast` states it as a test on the last byte. |
| TagLabels.RankBoundary | c++/src/lac.cpp:372-374 | The merger's test: `find("-B")` or `find("-S")` succeeds. `RankBoundaryIffPair` states it as the existence of such a pair. |
| TagLabels.Category | c++/src/lac.cpp:172 | The category is a prefix of the label: two bytes shorter, or the whole label when it is shorter than two bytes. |
| TagLabels.IsBoundaryIffLast | c++/src/lac.cpp:168 | The decoder's test holds iff the label is empty or its last byte is `B` or `S`. |
| TagLabels.RankBoundaryIffPair | c++/src/lac.cpp:372-374 | The merger's test holds iff some `-` is followed by `B` or `S`. |
| TagLabels.BoundaryTestsAgree | c++/src/lac.cpp:372-374 | On labels made of a category with no `-`, then `-`, then one position byte, the two tests agree. A label such as `a-B-I` is outside this form, and there the tests differ. |
| TagLabels.BoundaryTestsDiffer | c++/src/lac.cpp:372-374 | The label `B` passes the decoder's test but not the merger's, and `a-B-I` passes the merger's but not the decoder's. |
| Segments.Starts | c++/src/lac.cpp:168 | The opening positions are strictly increasing and within bounds. Position 0 is first when there are labels. |
| Segments.StartsMembers | c++/src/lac.cpp:168 | A position opens iff it is 0 or its label passes the boundary test. |
| Segments.SegmentBounds | c++/src/lac.cpp:165-178 | Every segment is non-empty and inside the label range. |
| Segments.StartsCongruent | c++/src/lac.cpp:371-374 | The segmentation depends only on the test's answers on the labels at hand. |
| Batch.LabelsOf | c++/src/lac.cpp:206-212 | Label k is `id2label` of id k; every id must be in the table, since line 211 dereferences the lookup unchecked. |
| Batch.Customize | c++/src/lac.cpp:215-217 | The labels are unchanged when no customization is loaded. An overlay keeps their count. |
| Batch.QueryLabels | c++/src/lac.cpp:206-212 | Query i gets one label per token. |
| Batch.QueryResult | c++/src/lac.cpp:215-219 | Query i's list: its tokens decoded under its labels, after the overlay when one is loaded. `QueryCoverage` states that the list covers the tokens. |
| Batch.QueryCoverage | c++/src/lac.cpp:215-219 | The words of query i's items concatenate to its tokens, whatever the model output and the overlay. No token is lost, repeated or reordered. |
| Batch.DecodedBatch | c++/src/lac.cpp:204-222 | One item list per offset-table interval. |
| Batch.RawLabels | c++/src/lac.cpp:310-315 | One pre-overlay label sequence per query. |
| Batch.DecodedBatchLocal | c++/src/lac.cpp:204-222 | List i depends only on the model output inside `[lod[i], lod[i+1])` and on query i's tokens. Two batches, at any positions i and j, give equal lists when those tokens and those output slices are equal. |
| LacCpp.Lac.ReadLabels | c++/src/lac.cpp:206-212 | Appends query i's labels to `_labels`. |
| LacCpp.Lac.DecodeQuery | c++/src/lac.cpp:206-220 | Leaves `_results` as query i's decoded list, after the overlay when one is loaded. Returns the pre-overlay labels. `_labels` ends empty. |
| LacCpp.Lac.DecodeNext | c++/src/lac.cpp:305-326 | One pass extends `_results_batch` by query i's list and the label batch by its pre-overlay labels. |
| LacCpp.Lac.DecodeBatch | c++/src/lac.cpp:300-327 | `_results_batch` is `DecodedBatch` and the returned `tags_for_rank_batch` is `RawLabels`. `_labels` ends empty, and `_results` holds the last list. The same loop is at 202-222 without the label copy. |
| LacCpp.Lac.Run | c++/src/lac.cpp:191-225 | After feeding, the model's output covers the tokens. The result is `DecodedBatch` of that output, with exactly one list per query. `_labels` ends empty. `_seq_words` holds the last query's tokens and `_results` the last list; both keep their old value when there is none. |
| LacAndroid.Lac.ReadLabels | Android/testlac/app/src/main/cpp/lac.cpp:153-159 | Appends query i's labels to `_labels`. |
| LacAndroid.Lac.DecodeQuery | Android/testlac/app/src/main/cpp/lac.cpp:153-161 | Leaves `_results` as query i's decoded list with no overlay, and `_labels` empty. |
| LacAndroid.Lac.DecodeNext | Android/testlac/app/src/main/cpp/lac.cpp:151-164 | One pass appends query i's list to `_results_batch`. |
| LacAndroid.Lac.DecodeBatch | Android/testlac/app/src/main/cpp/lac.cpp:149-164 | `_results_batch` is one list per interval, in order. There is no overlay, `_labels` ends empty, and `_results` holds the last list. |
| LacAndroid.Lac.Lexer | Android/testlac/app/src/main/cpp/lac.cpp:140-167 | Feeds, runs the model and decodes. The result has exactly one list per query, and `_labels` is empty afterwards. `_seq_words` holds the last query's tokens and `_results` the last list; both keep their old value when there is none. |
| RankMerge.ToInt32 | c++/src/lac.cpp:355 | `static_cast<int>` wraps modulo 2^32 into the 32-bit range, and keeps values already in range. |
| RankMerge.MaxOf | c++/src/lac.cpp:378 | The maximum is an element, and no element exceeds it. |
| RankMerge.MergeScores | c++/src/lac.cpp:371-380 | At most one merged score per label, and at least one on non-empty input. |
| RankMerge.MergeSentenceWeights | c++/src/lac.cpp:370-380 | The push / `back() = max` loop gives `MergedWeights(tags, weights)`. |
| RankMerge.MergedWeights | c++/src/lac.cpp:370-380 | The loop reads as many labels as there are both labels and scores. It yields at most that many merged scores, and at least one when that number is positive. `MergedSegments` states their values. |
| RankMerge.MergedSegments | c++/src/lac.cpp:371-380 | With n = min(\|tags\|, \|weights\|): one score per merger opening position among the first n labels, each the maximum weight of its segment. |
| RankMerge.MergePrefixSegments | c++/src/lac.cpp:371-380 | The segment-maximum property holds after every prefix of the loop. |
| RankMerge.MergeSegmentStep | c++/src/lac.cpp:372-379 | One push-or-raise keeps the scores matched to the segments. |
| RankMerge.MergePrefixStep | c++/src/lac.cpp:372-379 | One step pushes at the first index or a `-B`/`-S` label, and then records a new opening. Otherwise it raises the last score to the maximum. |
| RankMerge.PushStep | c++/src/lac.cpp:375 | A pushed score opens a segment whose maximum it is. |
| RankMerge.RaiseStep | c++/src/lac.cpp:378 | Raising the last score to the maximum keeps it the maximum of the extended last segment. |
| RankMerge.WithRanks | c++/src/lac.cpp:383-385 | The write-back keeps the number of items. |
| RankMerge.WithRanksChanges | c++/src/lac.cpp:383-385 | For i < min(\|items\|, \|merged\|) only the rank changes, to `merged[i]`. Later items are unchanged, and words and tags never change. |
| RankMerge.SentenceWeights | c++/src/lac.cpp:349-356 | Sentence s's scores are its range of the rank output, each cast to `int`; nothing when the range is empty. |
| RankMerge.Merges | c++/src/lac.cpp:348-359 | The merger rewrites sentence s only when the sentence, its offsets and its pre-overlay labels exist and its score range is non-empty. `RankedBatchKeeps` states that the others are unchanged. |
| RankMerge.RankedSentence | c++/src/lac.cpp:348-386 | Sentence s after the merger. `RankedBatchKeeps` and `WithRanksChanges` state that only ranks change and that the rest stays. |
| RankMerge.RankedBatch | c++/src/lac.cpp:348-387 | The merger keeps the number of sentences. |
| RankMerge.RankedBatchKeeps | c++/src/lac.cpp:348-387 | Every sentence keeps its length, words and tags. A sentence the merger does not visit, or one with no scores, is unchanged. |
| RankMerge.RankAlignment | c++/src/lac.cpp:336-390 | With well-formed labels and a score per label, every decoded word gets as rank the maximum score over its tokens. |
| RankMerge.MaxNotSum | c++/src/lac.cpp:378 | Scores 3 and 7 under `n-B n-E` merge to 7. |
| RankMerge.RankShortfall | c++/src/lac.cpp:372-385 | Under `n-B B` the decoder opens two words but the merger builds one score, so the second word keeps rank 0. |
| LacCpp.Lac.ReadWeights | c++/src/lac.cpp:349-356 | The scores read for sentence s are `SentenceWeights`. |
| LacCpp.Lac.WriteRanks | c++/src/lac.cpp:383-385 | Only sentence s changes: it becomes `WithRanks` of itself and the merged scores. |
| LacCpp.Lac.MergeRankWeights | c++/src/lac.cpp:336-390 | Returns -1 and changes nothing when the rank offset table or its first level is empty. Otherwise it returns 0 and leaves `_results_batch` as `RankedBatch`. |
| Json.HexDigit | c++/src/lac.cpp:452 | A lower-case hexadecimal digit. |
| Json.EscapeByte | c++/src/lac.cpp:442-457 | The escape of a byte is non-empty and holds no byte below 32. |
| Json.Escape | c++/src/lac.cpp:441-458 | The per-byte escapes, concatenated in order. `EscapeRoundTrip`, `EscapeNoControl` and `EscapeFront` state what it means. |
| Json.EscapeJsonString | c++/src/lac.cpp:439-460 | The streaming loop gives `Escape(input)`, the per-byte escapes concatenated in order. |
| Json.FlatMapAppend | c++/src/lac.cpp:441 | Escaping distributes over concatenation. |
| Json.EscapeFront | c++/src/lac.cpp:441-458 | The escape of a string is the escape of its first byte followed by the escape of the rest. |
| Json.EscapeNoControl | c++/src/lac.cpp:441-458 | No byte 0–31 appears in an escaped string. |
| Json.HexDigitValue | c++/src/lac.cpp:452 | Each hex digit reads back as its value. |
| Json.ReadString | c++/src/lac.cpp:404 | The reference string reader consumes at least the closing quote. |
| Json.EscapeByteRead | c++/src/lac.cpp:442-457 | The escape of any byte reads back as that byte, whatever follows. |
| Json.NamedEscapeRead | c++/src/lac.cpp:443-449 | Each of `\" \\ \b \f \n \r \t` reads back as its byte. |
| Json.UnicodeEscapeRead | c++/src/lac.cpp:451-452 | `\u00XX` for the other bytes below 32 reads back as that byte. |
| Json.EscapeRoundTrip | c++/src/lac.cpp:439-460 | An escaped string followed by a quote reads back as the original bytes, and stops at that quote: the escape has no unescaped `"`. |
| Json.PlainRoundTrip | c++/src/lac.cpp:405 | A tag written verbatim reads back as itself when it needs no escaping. |
| Json.QuotedTagMisreads | c++/src/lac.cpp:405 | The verbatim tag `a"b` ends the string early. |
| Json.Decimal | c++/src/lac.cpp:409 | The decimal form of a rank is non-empty digits, with no leading zero except for 0 itself. |
| Json.DecimalValue | c++/src/lac.cpp:409 | The decimal form has the number's value. |
| Json.ReadNatDecimal | c++/src/lac.cpp:409 | The decimal form reads back as the number. |
| Json.ItemsJson | c++/src/lac.cpp:402-416 | One object per item, in order. |
| Json.RankField | c++/src/lac.cpp:408-410 | The rank field is present exactly when the rank is non-negative. |
| Json.ItemJson | c++/src/lac.cpp:403-412 | One object: the escaped word, the tag verbatim, the rank field. `ItemRoundTrip` states that it reads back as the item. |
| Json.WriteItem | c++/src/lac.cpp:403-412 | One pass of the item loop builds `ItemJson` of the item. |
| Json.Join | c++/src/lac.cpp:413-415 | The parts separated by commas. `JoinFront` and `JoinFirst` state how it reads from the front. |
| Json.JoinFront | c++/src/lac.cpp:413-415 | With two parts or more, the join is the first part, a comma, then the join of the rest. |
| Json.JoinFirst | c++/src/lac.cpp:413-415 | The join starts with the first byte of its first part. |
| Json.ListJson | c++/src/lac.cpp:398-420 | `[`, the objects joined by commas, `]`. `ListRoundTrip` states that it reads back as the list. |
| Json.ListsJson | c++/src/lac.cpp:427-432 | One array per list, in order. |
| Json.BatchJson | c++/src/lac.cpp:423-436 | `[`, the lists' arrays joined by commas, `]`. `BatchRoundTrip` states that it reads back as the batch. |
| Json.EmittedStep | c++/src/lac.cpp:413-415 | After part i the stream holds the parts so far, with a comma exactly when more parts follow. |
| Json.EmittedDone | c++/src/lac.cpp:400-419 | The finished stream is `[`, the parts joined by commas, `]`; an empty list gives `[]`. |
| Json.ResultsToJson | c++/src/lac.cpp:398-420 | The loop gives `ListJson`: `[`, the objects `{"word":"<escaped>","tag":"<tag>"}` with `,"rank":N` before `}` iff rank >= 0, joined by commas, `]`. |
| Json.ResultsBatchToJson | c++/src/lac.cpp:423-436 | The loop gives `BatchJson`: the per-list strings, joined by commas, in brackets. |
| Json.TailRoundTrip | c++/src/lac.cpp:408-412 | The rank field and the closing brace read back as the rank when it is non-negative, and as no rank otherwise. |
| Json.RankPresentRead | c++/src/lac.cpp:408-410 | A written rank field reads back as its rank. |
| Json.RankAbsentRead | c++/src/lac.cpp:408-412 | With no rank field, the brace follows and no rank is read. |
| Json.TagRoundTrip | c++/src/lac.cpp:405 | The tag field reads back as the tag when the tag needs no escaping. |
| Json.WordRoundTrip | c++/src/lac.cpp:404 | The escaped word field reads back as the word. |
| Json.ItemRoundTrip | c++/src/lac.cpp:403-412 | An object reads back as its item's word, tag and (when non-negative) rank, whatever follows it. |
| Json.RunRead | c++/src/lac.cpp:402-418 | Comma-separated parts that each read back as a value, followed by `]`, read back as those values, in order. |
| Json.ListRoundTrip | c++/src/lac.cpp:398-420 | The JSON of a list reads back as the list's word, tag and rank views, including the empty list. Tags must need no escaping. |
| Json.BatchRoundTrip | c++/src/lac.cpp:423-436 | The JSON of a batch reads back as its lists' views, in order. |

## Left out

- Dictionary and model file loading (`load_word2id_dict` and the others, which live in `lac_util.h`), and the Paddle / Paddle-Lite predictor configuration: these are file and library I/O. The tables are constructor parameters.
- The predictors' `Run` and the tensor calls `SetLoD`, `Reshape`/`Resize`, `mutable_data`, `data` and `memcpy`: these are foreign library calls. The tagging model is a function parameter that returns one id per input id.
- `split_words`: it lives in `lac_util.h`, which is not part of this model. It is a function parameter.
- `Customization`: it lives in `lac_custom.h`, which is not part of this model. `parse_customization` is an arbitrary length-preserving relabelling.
- `load_customization`: the overlay is a constructor parameter instead.
- The copy constructor (shared dictionaries, predictor clone): its only point is multithreaded sharing.
- `enable_rank_mode` and the part of `run_rank` that feeds the rank model. The fallbacks to `run` when rank mode is off or the rank model has fewer than two inputs are left out too. The rank model's offset table and output are parameters of `LacCpp.Lac.MergeRankWeights`.
- The output LoD of the tagging model is taken to equal the input LoD. So the `run_rank` decode loop is `LacCpp.Lac.DecodeBatch` over `_lod[0]`.
- The single-query wrappers `run(query)`, `run_rank(query)` and `lexer(query)`, `run_json`/`run_rank_json`, and `merge_rank_weights`: each is a one-line composition.
- The demo programs (`c++/lac_demo.cpp` and `c++/lac_rank_demo.cpp`): console I/O and timing.
- LacCpp.Lac.FeedData: `shape` and `index` are unbounded here, so 32-bit overflow of `int shape` and `int index` on huge batches is not modelled.
- LacAndroid.Lac.FeedData: likewise, overflow of `long shape` (Android/testlac/app/src/main/cpp/lac.cpp:67) and `int index` (line 80) on huge batches is not modelled.
- `parse_rank_results` and `_words_length_batch` are declared in `c++/include/lac.h` but have no definition in the code modelled.
- Json.ListRoundTrip: holds only when every tag needs no JSON escaping, because tags are written unescaped. `Json.QuotedTagMisreads` shows the failure otherwise.
- Json.BatchRoundTrip: same restriction on tags as `Json.ListRoundTrip`.
- Json.ReadString: the reference reader accepts `\u` escapes only for ASCII code points, the only ones the encoder emits. It is not a general JSON reader.
- Json.Decimal: only non-negative ranks are printed, so negative integer formatting is not needed.
- The diagnostics written to `std::cerr`, for example "Invalid rank output LOD" in the merger, and the constant `return 0` statuses of `feed_data` and `parse_targets`: `LacCpp.Lac.MergeRankWeights` keeps only its -1/0 status.
