/** The tag boundary decoder, `LAC::parse_targets` (c++/src/lac.cpp:159-181;
    the Android copy at Android/testlac/app/src/main/cpp/lac.cpp:107-129 is
    the same code). */
module Decoder {
  import opened Bytes
  import opened TagLabels
  import opened Segments

  /** `OutputItem` (c++/include/lac.h:31-39): a decoded word, its category,
      and a rank that the default constructor sets to 0. */
  datatype OutputItem = OutputItem(word: Bytes, tag: Bytes, rank: int)

  /** The item `parse_targets` opens for token text w under label t. */
  function Open(w: Bytes, t: Bytes): (r: OutputItem)
    ensures r.word == w && r.rank == 0
    ensures r.tag <= t
    ensures |t| >= 2 ==> |r.tag| == |t| - 2
  {
    OutputItem(w, Category(t), 0)
  }

  /** The decoder as a left-to-right accumulator over the labels: a new item
      opens when there is none yet or the label is a boundary; otherwise the
      token text is appended to the last item, whose tag stays as it was.
      `words` may be longer than `tags`; the extra tokens are not read. */
  function Decode(tags: seq<Bytes>, words: seq<Bytes>): (r: seq<OutputItem>)
    requires |tags| <= |words|
    ensures |r| <= |tags|
    ensures tags != [] ==> r != []
  {
    if tags == [] then []
    else
      var n := |tags| - 1;
      var prev := Decode(tags[..n], words);
      if prev == [] || IsBoundary(tags[n]) then prev + [Open(words[n], tags[n])]
      else prev[..|prev| - 1] + [prev[|prev| - 1].(word := prev[|prev| - 1].word + words[n])]
  }

  /** The words of the items, in order. */
  function Words(items: seq<OutputItem>): (r: seq<Bytes>)
    ensures |r| == |items|
    ensures forall k :: 0 <= k < |items| ==> r[k] == items[k].word
  {
    seq(|items|, k requires 0 <= k < |items| => items[k].word)
  }

  /** `parse_targets` clears `result` and then pushes or appends, one label
      at a time. The result is returned instead of written through a
      reference; the constant status 0 is dropped. */
  method ParseTargets(tags: seq<Bytes>, words: seq<Bytes>) returns (result: seq<OutputItem>)
    requires |tags| <= |words|
    ensures result == Decode(tags, words)
  {
    result := [];
    var i := 0;
    while i < |tags|
      invariant 0 <= i <= |tags|
      invariant result == Decode(tags[..i], words)
    {
      assert tags[..i + 1][..i] == tags[..i];
      if result == [] || IsBoundary(tags[i]) {
        result := result + [Open(words[i], tags[i])];
      } else {
        var last := |result| - 1;
        result := result[last := result[last].(word := result[last].word + words[i])];
      }
      i := i + 1;
    }
    assert tags[..i] == tags;
  }

  /** Items r match segmentation s of the first n labels: one item per
      segment, holding the segment's concatenated tokens, the category of
      its opening label, and rank 0. */
  ghost predicate ItemsMatch(r: seq<OutputItem>, s: seq<nat>, tags: seq<Bytes>, words: seq<Bytes>, n: nat)
    requires n <= |tags| <= |words|
  {
    && |r| == |s|
    && (forall k :: 0 <= k < |s| ==> ItemMatches(r, s, tags, words, n, k))
  }

  /** Item k is segment k, which is non-empty. */
  ghost predicate ItemMatches(r: seq<OutputItem>, s: seq<nat>, tags: seq<Bytes>, words: seq<Bytes>, n: nat, k: nat)
    requires n <= |tags| <= |words| && k < |s| == |r|
  {
    && s[k] < SegEnd(s, k, n) <= n
    && r[k] == OutputItem(Concat(words[s[k]..SegEnd(s, k, n)]), Category(tags[s[k]]), 0)
  }

  lemma OpenStep(prev: seq<OutputItem>, sp: seq<nat>, tags: seq<Bytes>, words: seq<Bytes>, n: nat)
    requires n < |tags| <= |words|
    requires ItemsMatch(prev, sp, tags, words, n)
    ensures ItemsMatch(prev + [Open(words[n], tags[n])], sp + [n], tags, words, n + 1)
  {
    var r := prev + [Open(words[n], tags[n])];
    var s := sp + [n];
    var n' := n + 1;
    forall k | 0 <= k < |s|
      ensures ItemMatches(r, s, tags, words, n', k)
    {
      if k < |sp| {
        assert ItemMatches(prev, sp, tags, words, n, k);
        assert SegEnd(s, k, n + 1) == SegEnd(sp, k, n);
      } else {
        var one: seq<Bytes> := [words[n]];
        assert words[n..n + 1] == one;
        assert one[..0] == [];
      }
    }
  }

  lemma ExtendStep(prev: seq<OutputItem>, sp: seq<nat>, tags: seq<Bytes>, words: seq<Bytes>, n: nat)
    requires n < |tags| <= |words|
    requires ItemsMatch(prev, sp, tags, words, n)
    requires prev != []
    ensures var m := |prev| - 1;
            ItemsMatch(prev[..m] + [prev[m].(word := prev[m].word + words[n])], sp, tags, words, n + 1)
  {
    var m := |prev| - 1;
    var r := prev[..m] + [prev[m].(word := prev[m].word + words[n])];
    var n' := n + 1;
    forall k | 0 <= k < |sp|
      ensures ItemMatches(r, sp, tags, words, n', k)
    {
      assert ItemMatches(prev, sp, tags, words, n, k);
      if k == m {
        var seg := words[sp[k]..n + 1];
        assert seg[..|seg| - 1] == words[sp[k]..n];
      } else {
        assert SegEnd(sp, k, n + 1) == SegEnd(sp, k, n);
      }
    }
  }

  /** One step of both accumulators on the first n labels. */
  lemma PrefixStep(tags: seq<Bytes>, words: seq<Bytes>, n: nat)
    requires 0 < n <= |tags| <= |words|
    ensures var pt := tags[..n - 1];
            var prev := Decode(pt, words);
            var m := |prev| - 1;
            if prev == [] || IsBoundary(tags[n - 1]) then
              && Decode(tags[..n], words) == prev + [Open(words[n - 1], tags[n - 1])]
              && Starts(tags[..n], IsBoundary) == Starts(pt, IsBoundary) + [n - 1]
            else
              && Decode(tags[..n], words) == prev[..m] + [prev[m].(word := prev[m].word + words[n - 1])]
              && Starts(tags[..n], IsBoundary) == Starts(pt, IsBoundary)
  {
    assert tags[..n][..n - 1] == tags[..n - 1];
    assert tags[..n][n - 1] == tags[n - 1];
  }

  /** One decoding step keeps the items matched to the segments. */
  lemma SegmentStep(tags: seq<Bytes>, words: seq<Bytes>, n: nat, prev: seq<OutputItem>, sp: seq<nat>)
    requires 0 < n <= |tags| <= |words|
    requires prev == Decode(tags[..n - 1], words) && sp == Starts(tags[..n - 1], IsBoundary)
    requires ItemsMatch(prev, sp, tags, words, n - 1)
    ensures ItemsMatch(Decode(tags[..n], words), Starts(tags[..n], IsBoundary), tags, words, n)
  {
    PrefixStep(tags, words, n);
    if prev == [] || IsBoundary(tags[n - 1]) {
      OpenStep(prev, sp, tags, words, n - 1);
    } else {
      ExtendStep(prev, sp, tags, words, n - 1);
    }
  }

  lemma {:induction false} DecodePrefixSegments(tags: seq<Bytes>, words: seq<Bytes>, n: nat)
    requires n <= |tags| <= |words|
    ensures ItemsMatch(Decode(tags[..n], words), Starts(tags[..n], IsBoundary), tags, words, n)
  {
    if n > 0 {
      DecodePrefixSegments(tags, words, n - 1);
      SegmentStep(tags, words, n, Decode(tags[..n - 1], words), Starts(tags[..n - 1], IsBoundary));
    }
  }

  /** The segment characterisation: there is one item per opening position,
      and item k holds the concatenated tokens of segment k, the category of
      the label that opened it, and rank 0. */
  lemma DecodeSegments(tags: seq<Bytes>, words: seq<Bytes>)
    requires |tags| <= |words|
    ensures var r := Decode(tags, words);
            var s := Starts(tags, IsBoundary);
            && |r| == |s|
            && forall k :: 0 <= k < |r| ==>
                 r[k] == OutputItem(Concat(words[s[k]..SegEnd(s, k, |tags|)]), Category(tags[s[k]]), 0)
  {
    DecodePrefixSegments(tags, words, |tags|);
    assert tags[..|tags|] == tags;
    var r := Decode(tags, words);
    var s := Starts(tags, IsBoundary);
    forall k | 0 <= k < |r|
      ensures r[k] == OutputItem(Concat(words[s[k]..SegEnd(s, k, |tags|)]), Category(tags[s[k]]), 0)
    {
      assert ItemMatches(r, s, tags, words, |tags|, k);
    }
  }

  /** Coverage: the item words concatenate to the token texts, so no token is
      lost, duplicated or reordered. */
  lemma {:induction false} DecodeCoverage(tags: seq<Bytes>, words: seq<Bytes>)
    requires |tags| <= |words|
    ensures Concat(Words(Decode(tags, words))) == Concat(words[..|tags|])
  {
    CoveragePrefix(tags, words, |tags|);
    assert tags[..|tags|] == tags;
  }

  lemma {:induction false} CoveragePrefix(tags: seq<Bytes>, words: seq<Bytes>, n: nat)
    requires n <= |tags| <= |words|
    ensures Concat(Words(Decode(tags[..n], words))) == Concat(words[..n])
  {
    if n > 0 {
      var pt := tags[..n - 1];
      var prev := Decode(pt, words);
      CoveragePrefix(tags, words, n - 1);
      assert tags[..n][..n - 1] == pt;
      assert tags[..n][n - 1] == tags[n - 1];
      assert words[..n][..n - 1] == words[..n - 1];
      assert Concat(words[..n]) == Concat(words[..n - 1]) + words[n - 1];
      var cur := Decode(tags[..n], words);
      if prev == [] || IsBoundary(tags[n - 1]) {
        assert cur == prev + [Open(words[n - 1], tags[n - 1])];
        AppendWord(prev, Open(words[n - 1], tags[n - 1]));
      } else {
        var m := |prev| - 1;
        assert cur == prev[..m] + [prev[m].(word := prev[m].word + words[n - 1])];
        ExtendWord(prev, words[n - 1]);
      }
    }
  }

  lemma AppendWord(prev: seq<OutputItem>, item: OutputItem)
    ensures Concat(Words(prev + [item])) == Concat(Words(prev)) + item.word
  {
    assert Words(prev + [item])[..|prev|] == Words(prev);
  }

  lemma ExtendWord(prev: seq<OutputItem>, w: Bytes)
    requires prev != []
    ensures var m := |prev| - 1;
            Concat(Words(prev[..m] + [prev[m].(word := prev[m].word + w)])) == Concat(Words(prev)) + w
  {
    var m := |prev| - 1;
    var r := prev[..m] + [prev[m].(word := prev[m].word + w)];
    assert Words(r)[..m] == Words(prev)[..m];
    assert Words(prev)[m] == prev[m].word;
    assert Concat(Words(r)) == Concat(Words(prev)[..m]) + (prev[m].word + w);
  }

  /** The number of items is the number of opening positions, and the first
      token always opens an item, whatever its label. */
  lemma DecodeCount(tags: seq<Bytes>, words: seq<Bytes>)
    requires |tags| <= |words|
    ensures |Decode(tags, words)| == |Starts(tags, IsBoundary)|
    ensures tags != [] ==> Decode(tags, words)[0].tag == Category(tags[0])
  {
    DecodeSegments(tags, words);
  }

  /** Decoding is a function of its inputs: running it twice gives the same
      items (no state survives between calls). */
  lemma {:induction false} DecodeTwice(tags: seq<Bytes>, words: seq<Bytes>, words2: seq<Bytes>)
    requires |tags| <= |words| && |tags| <= |words2|
    requires words[..|tags|] == words2[..|tags|]
    ensures Decode(tags, words) == Decode(tags, words2)
    decreases |tags|
  {
    if tags != [] {
      var n := |tags| - 1;
      assert words[..n] == words[..|tags|][..n] && words2[..n] == words2[..|tags|][..n];
      DecodeTwice(tags[..n], words, words2);
      assert words[n] == words[..|tags|][n] && words2[n] == words2[..|tags|][n];
    }
  }

  /** One token under a "single" label becomes one word. */
  lemma SingleToken()
    ensures Decode([Str("n-S")], [Str("x")]) == [OutputItem(Str("x"), Str("n"), 0)]
  {
    var ts := [Str("n-S")];
    assert ts[..0] == [];
    assert Category(Str("n-S")) == Str("n");
  }

  /** A three-byte label "c-m" has the one-byte category "c". */
  lemma ShortCategory(c: Byte, m: Byte)
    ensures Category([c, DASH, m]) == [c]
  {
    assert [c, DASH, m][..1] == [c];
  }

  /** "北京市" tagged a-B a-I a-E decodes to one word of category "a". */
  lemma ThreeTokenWord()
    ensures Decode([[97, 45, 66], [97, 45, 73], [97, 45, 69]],            // "a-B" "a-I" "a-E"
                   [[0xE5, 0x8C, 0x97], [0xE4, 0xBA, 0xAC], [0xE5, 0xB8, 0x82]])
         == [OutputItem([0xE5, 0x8C, 0x97, 0xE4, 0xBA, 0xAC, 0xE5, 0xB8, 0x82], [97], 0)]
  {
    var ts: seq<Bytes> := [[97, 45, 66], [97, 45, 73], [97, 45, 69]];
    var ws: seq<Bytes> := [[0xE5, 0x8C, 0x97], [0xE4, 0xBA, 0xAC], [0xE5, 0xB8, 0x82]];
    assert ts[..0] == [];
    assert ts[..1][..0] == [];
    assert ts[..2][..1] == ts[..1];
    assert ts[..3] == ts;
    ShortCategory(97, 66);
    IsBoundaryIffLast(ts[1]);
    IsBoundaryIffLast(ts[2]);
    assert Decode(ts[..1], ws) == [OutputItem(ws[0], [97], 0)];
    assert Decode(ts[..2], ws) == [OutputItem(ws[0] + ws[1], [97], 0)];
    assert ws[0] + ws[1] + ws[2] == [0xE5, 0x8C, 0x97, 0xE4, 0xBA, 0xAC, 0xE5, 0xB8, 0x82];
  }

  /** A first token tagged "inside" still opens a word. */
  lemma InsideFirstToken()
    ensures Decode([[110, 45, 73]], [[120]]) == [OutputItem([120], [110], 0)]    // "n-I", "x", "n"
  {
    var us: seq<Bytes> := [[110, 45, 73]];
    assert us[..0] == [];
    ShortCategory(110, 73);
  }
}
