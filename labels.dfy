/** Tag labels such as "n-B", "PER-I" or "O": a category, a '-' and a
    position marker (B begin, I inside, E end, S single). This module holds
    the two boundary tests the C++ code uses and the category extraction,
    written with the `std::string` search semantics they rely on. */
module TagLabels {
  import opened Bytes

  const DASH: Byte := 45    // '-'
  const MARK_B: Byte := 66  // 'B'
  const MARK_S: Byte := 83  // 'S'
  const MARK_I: Byte := 73  // 'I'
  const MARK_E: Byte := 69  // 'E'

  /** `std::string::npos`, as a search result. */
  const NPOS: int := -1

  /** `s.rfind(c)`: the last index holding c, or NPOS. */
  function RFind(s: Bytes, c: Byte): (r: int)
    ensures r == NPOS || (0 <= r < |s| && s[r] == c)
    ensures forall k :: r < k < |s| ==> s[k] != c
  {
    if s == [] then NPOS
    else if s[|s| - 1] == c then |s| - 1
    else RFind(s[..|s| - 1], c)
  }

  /** `s.find(pair)` for a two-byte pattern [a, b], searching from index
      `from`: the first k >= from with s[k] == a and s[k+1] == b, or NPOS. */
  function FindPairFrom(s: Bytes, a: Byte, b: Byte, from: nat): (r: int)
    ensures r == NPOS || (from <= r && r + 1 < |s| && s[r] == a && s[r + 1] == b)
    ensures forall k :: from <= k && k + 1 < |s| && (r == NPOS || k < r) ==> !(s[k] == a && s[k + 1] == b)
    decreases |s| - from
  {
    if from + 1 >= |s| then NPOS
    else if s[from] == a && s[from + 1] == b then from
    else FindPairFrom(s, a, b, from + 1)
  }

  function FindPair(s: Bytes, a: Byte, b: Byte): int
  {
    FindPairFrom(s, a, b, 0)
  }

  /** `t.rfind(c) == t.length() - 1`, with `length() - 1` computed in
      `size_t`: for the empty label it wraps to `(size_t)-1`, which is
      `npos`, the very value `rfind` returns there, so the test holds. */
  predicate EndsWithMarker(t: Bytes, c: Byte)
  {
    if |t| == 0 then true else RFind(t, c) == |t| - 1
  }

  /** The decoder's test (lac.cpp:168): the label opens a new word. */
  predicate IsBoundary(t: Bytes)
  {
    EndsWithMarker(t, MARK_B) || EndsWithMarker(t, MARK_S)
  }

  /** The rank merger's test (lac.cpp:372-374): "-B" or "-S" occurs
      anywhere in the label. */
  predicate RankBoundary(t: Bytes)
  {
    FindPair(t, DASH, MARK_B) != NPOS || FindPair(t, DASH, MARK_S) != NPOS
  }

  /** `t.substr(0, t.length() - 2)`: for labels shorter than 2 the count
      wraps around in `size_t`, and `substr` then keeps the whole label. */
  function Category(t: Bytes): (r: Bytes)
    ensures r <= t
    ensures |t| >= 2 ==> |r| == |t| - 2
    ensures |t| < 2 ==> r == t
  {
    if |t| >= 2 then t[..|t| - 2] else t
  }

  /** The decoder's suffix test is "empty, or the last byte is B or S". */
  lemma IsBoundaryIffLast(t: Bytes)
    ensures IsBoundary(t) <==> (|t| == 0 || t[|t| - 1] == MARK_B || t[|t| - 1] == MARK_S)
  {
  }

  /** The merger's substring test is "some '-' is followed by B or S". */
  lemma {:induction false} RankBoundaryIffPair(t: Bytes)
    ensures RankBoundary(t) <==>
      exists k :: 0 <= k && k + 1 < |t| && t[k] == DASH && (t[k + 1] == MARK_B || t[k + 1] == MARK_S)
  {
    if RankBoundary(t) {
      var rb := FindPair(t, DASH, MARK_B);
      var rs := FindPair(t, DASH, MARK_S);
      var k := if rb != NPOS then rb else rs;
      assert t[k] == DASH && (t[k + 1] == MARK_B || t[k + 1] == MARK_S);
    }
  }

  /** A label of the documented form: category, '-', one position byte,
      where the category holds no '-'. */
  predicate WellFormed(t: Bytes)
  {
    && |t| >= 2
    && t[|t| - 2] == DASH
    && (forall k :: 0 <= k < |t| - 2 ==> t[k] != DASH)
  }

  /** On well-formed labels the two boundary tests agree. */
  lemma BoundaryTestsAgree(t: Bytes)
    requires WellFormed(t)
    ensures IsBoundary(t) <==> RankBoundary(t)
  {
    IsBoundaryIffLast(t);
    RankBoundaryIffPair(t);
    if IsBoundary(t) {
      assert t[|t| - 2] == DASH;
    }
  }

  /** They disagree elsewhere, in both directions: the label "B" is a
      decoder boundary but not a merger boundary, and "a-B-I", whose
      category holds a '-', is a merger boundary but not a decoder one. */
  lemma BoundaryTestsDiffer()
    ensures IsBoundary(Str("B")) && !RankBoundary(Str("B"))
    ensures !IsBoundary(Str("a-B-I")) && RankBoundary(Str("a-B-I"))
  {
    RankBoundaryIffPair(Str("B"));
    RankBoundaryIffPair(Str("a-B-I"));
    assert Str("a-B-I")[1] == DASH && Str("a-B-I")[2] == MARK_B;
  }
}
