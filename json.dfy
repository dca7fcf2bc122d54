/** The JSON serialiser of the desktop `LAC` (c++/src/lac.cpp:397-460):
    `escape_json_string`, which escapes a byte string for use inside a JSON
    string literal in the manner of section 7 of RFC 8259, and the two
    `results_to_json` overloads, which assemble item lists and batches.
    Beside the encoder sits a reference reader for the subset of JSON the
    encoder emits; the round-trip lemmas show the output reads back to the
    items it was made from. */
module Json {
  import opened Bytes
  import opened Wrappers
  import opened Decoder

  const QUOTE: Byte := 34
  const BACKSLASH: Byte := 92
  const COMMA: Byte := 44
  const LBRACKET: Byte := 91
  const RBRACKET: Byte := 93
  const RBRACE: Byte := 125
  const CHAR_U: Byte := 117

  // ---------------------------------------------------------------------
  // Escaping

  /** Lower-case hexadecimal digit, as `std::hex` prints it. */
  function HexDigit(d: nat): (r: Byte)
    requires d < 16
    ensures (48 <= r <= 57) || (97 <= r <= 102)
  {
    if d < 10 then 48 + d else 87 + d
  }

  /** The escape of one byte (lac.cpp:442-457): the seven named escapes,
      `\u00XX` for any other byte below 32, and the byte itself otherwise
      (bytes of 128 and above are negative as `char` and are copied). */
  function EscapeByte(c: Byte): (r: Bytes)
    ensures |r| >= 1
    ensures forall k :: 0 <= k < |r| ==> r[k] >= 32
  {
    if c == QUOTE then [BACKSLASH, QUOTE]
    else if c == BACKSLASH then [BACKSLASH, BACKSLASH]
    else if c == 8 then [BACKSLASH, 98]
    else if c == 12 then [BACKSLASH, 102]
    else if c == 10 then [BACKSLASH, 110]
    else if c == 13 then [BACKSLASH, 114]
    else if c == 9 then [BACKSLASH, 116]
    else if c < 32 then [BACKSLASH, CHAR_U, 48, 48, HexDigit(c / 16), HexDigit(c % 16)]
    else [c]
  }

  /** f applied to every byte of s, the results concatenated in order. */
  function FlatMap(s: Bytes, f: Byte -> Bytes): Bytes
  {
    if s == [] then [] else FlatMap(s[..|s| - 1], f) + f(s[|s| - 1])
  }

  /** The escape of a whole string: the escapes of its bytes, in order. */
  function Escape(s: Bytes): Bytes
  {
    FlatMap(s, EscapeByte)
  }

  /** `escape_json_string` (lac.cpp:439-460). */
  method EscapeJsonString(input: Bytes) returns (escaped: Bytes)
    ensures escaped == Escape(input)
  {
    escaped := [];
    var i := 0;
    while i < |input|
      invariant 0 <= i <= |input|
      invariant escaped == Escape(input[..i])
    {
      var c := input[i];
      if c == QUOTE {
        escaped := escaped + [BACKSLASH, QUOTE];
      } else if c == BACKSLASH {
        escaped := escaped + [BACKSLASH, BACKSLASH];
      } else if c == 8 {
        escaped := escaped + [BACKSLASH, 98];
      } else if c == 12 {
        escaped := escaped + [BACKSLASH, 102];
      } else if c == 10 {
        escaped := escaped + [BACKSLASH, 110];
      } else if c == 13 {
        escaped := escaped + [BACKSLASH, 114];
      } else if c == 9 {
        escaped := escaped + [BACKSLASH, 116];
      } else if c < 32 {
        escaped := escaped + [BACKSLASH, CHAR_U, 48, 48, HexDigit(c / 16), HexDigit(c % 16)];
      } else {
        escaped := escaped + [c];
      }
      assert input[..i + 1][..i] == input[..i];
      i := i + 1;
    }
    assert input[..i] == input;
  }

  lemma FlatMapSnoc(s: Bytes, c: Byte, f: Byte -> Bytes)
    ensures FlatMap(s + [c], f) == FlatMap(s, f) + f(c)
  {
    assert (s + [c])[..|s|] == s;
  }

  lemma {:induction false} FlatMapAppend(a: Bytes, b: Bytes, f: Byte -> Bytes)
    ensures FlatMap(a + b, f) == FlatMap(a, f) + FlatMap(b, f)
    decreases |b|
  {
    if b == [] {
      assert a + b == a;
    } else {
      var n := |b| - 1;
      var c, front := b[n], b[..n];
      assert b == front + [c];
      assert a + b == (a + front) + [c];
      FlatMapSnoc(a + front, c, f);
      FlatMapSnoc(front, c, f);
      FlatMapAppend(a, front, f);
    }
  }

  lemma EscapeFront(s: Bytes)
    requires s != []
    ensures Escape(s) == EscapeByte(s[0]) + Escape(s[1..])
  {
    var one := [s[0]];
    assert one[..0] == [];
    assert FlatMap(one, EscapeByte) == EscapeByte(s[0]);
    assert one + s[1..] == s;
    FlatMapAppend(one, s[1..], EscapeByte);
  }

  /** No byte below 32 survives escaping. */
  lemma {:induction false} EscapeNoControl(s: Bytes)
    ensures forall k :: 0 <= k < |Escape(s)| ==> Escape(s)[k] >= 32
    decreases |s|
  {
    if s != [] {
      var n := |s| - 1;
      EscapeNoControl(s[..n]);
      assert Escape(s) == Escape(s[..n]) + EscapeByte(s[n]);
    }
  }

  // ---------------------------------------------------------------------
  // Reading a JSON string literal back

  /** The byte a two-character escape `\b` stands for (section 7 of
      RFC 8259). */
  function SimpleEscape(b: Byte): Option<Byte>
  {
    if b == QUOTE then Some(QUOTE)
    else if b == BACKSLASH then Some(BACKSLASH)
    else if b == 47 then Some(47)
    else if b == 98 then Some(8)
    else if b == 102 then Some(12)
    else if b == 110 then Some(10)
    else if b == 114 then Some(13)
    else if b == 116 then Some(9)
    else None
  }

  function HexValue(b: Byte): Option<nat>
  {
    if 48 <= b <= 57 then Some(b - 48)
    else if 97 <= b <= 102 then Some(b - 87)
    else if 65 <= b <= 70 then Some(b - 55)
    else None
  }

  lemma HexDigitValue(d: nat)
    requires d < 16
    ensures HexValue(HexDigit(d)) == Some(d)
  {
  }

  /** Prepend c to the text of a successful read. */
  function Cons(c: Byte, r: Option<(Bytes, Bytes)>): Option<(Bytes, Bytes)>
  {
    match r
    case None => None
    case Some((s, rest)) => Some(([c] + s, rest))
  }

  /** The characters of a JSON string literal after its opening quote, up to
      and including the closing quote: returns the text and what follows.
      Raw control bytes and malformed escapes are rejected; a `\u` escape is
      accepted for ASCII code points, the only ones the encoder emits. */
  function ReadString(t: Bytes): (r: Option<(Bytes, Bytes)>)
    ensures r.Some? ==> |r.value.1| < |t|
    decreases |t|
  {
    if t == [] then None
    else if t[0] == QUOTE then Some(([], t[1..]))
    else if t[0] == BACKSLASH then
      if |t| >= 2 && SimpleEscape(t[1]).Some? then
        Cons(SimpleEscape(t[1]).value, ReadString(t[2..]))
      else if |t| >= 6 && t[1] == CHAR_U && HexValue(t[2]).Some? && HexValue(t[3]).Some?
              && HexValue(t[4]).Some? && HexValue(t[5]).Some? then
        var v := 4096 * HexValue(t[2]).value + 256 * HexValue(t[3]).value
                 + 16 * HexValue(t[4]).value + HexValue(t[5]).value;
        if v < 128 then Cons(v, ReadString(t[6..])) else None
      else None
    else if t[0] < 32 then None
    else Cons(t[0], ReadString(t[1..]))
  }

  /** Reading one escaped byte peels it off. */
  lemma EscapeByteRead(c: Byte, rest: Bytes)
    ensures ReadString(EscapeByte(c) + rest) == Cons(c, ReadString(rest))
  {
    if c == QUOTE || c == BACKSLASH || c == 8 || c == 12 || c == 10 || c == 13 || c == 9 {
      NamedEscapeRead(c, rest);
    } else if c < 32 {
      UnicodeEscapeRead(c, rest);
    } else {
      assert (EscapeByte(c) + rest)[1..] == rest;
    }
  }

  lemma NamedEscapeRead(c: Byte, rest: Bytes)
    requires c == QUOTE || c == BACKSLASH || c == 8 || c == 12 || c == 10 || c == 13 || c == 9
    ensures ReadString(EscapeByte(c) + rest) == Cons(c, ReadString(rest))
  {
    var t := EscapeByte(c) + rest;
    assert t[0] == BACKSLASH && |t| >= 2;
    assert SimpleEscape(t[1]) == Some(c);
    assert t[2..] == rest;
  }

  lemma UnicodeEscapeRead(c: Byte, rest: Bytes)
    requires c < 32 && c != 8 && c != 9 && c != 10 && c != 12 && c != 13
    ensures ReadString(EscapeByte(c) + rest) == Cons(c, ReadString(rest))
  {
    var t := EscapeByte(c) + rest;
    var hi, lo := HexDigit(c / 16), HexDigit(c % 16);
    assert t[..6] == [BACKSLASH, CHAR_U, 48, 48, hi, lo];
    assert SimpleEscape(t[1]) == None;
    HexDigitValue(c / 16);
    HexDigitValue(c % 16);
    assert HexValue(t[2]) == Some(0) && HexValue(t[3]) == Some(0);
    assert t[6..] == rest;
  }

  /** Round trip: an escaped string followed by a closing quote reads back
      as the original bytes, and reading stops exactly at that quote, so
      the escape contains no unescaped quote. */
  lemma {:induction false} EscapeRoundTrip(s: Bytes, rest: Bytes)
    ensures ReadString(Escape(s) + [QUOTE] + rest) == Some((s, rest))
    decreases |s|
  {
    if s == [] {
      assert Escape(s) + [QUOTE] + rest == [QUOTE] + rest;
      assert ([QUOTE] + rest)[1..] == rest;
    } else {
      var tail := Escape(s[1..]) + [QUOTE] + rest;
      EscapeRoundTrip(s[1..], rest);
      EscapeQuoteFront(s, rest);
      EscapeByteReadOn(s[0], tail, s[1..], rest);
      assert [s[0]] + s[1..] == s;
    }
  }

  lemma EscapeQuoteFront(s: Bytes, rest: Bytes)
    requires s != []
    ensures Escape(s) + [QUOTE] + rest == EscapeByte(s[0]) + (Escape(s[1..]) + [QUOTE] + rest)
  {
    EscapeFront(s);
  }

  /** EscapeByteRead with the read of the tail already known. */
  lemma EscapeByteReadOn(c: Byte, tail: Bytes, s: Bytes, rest: Bytes)
    requires ReadString(tail) == Some((s, rest))
    ensures ReadString(EscapeByte(c) + tail) == Some(([c] + s, rest))
  {
    EscapeByteRead(c, tail);
  }

  /** A tag is written verbatim (lac.cpp:405), so it reads back as itself
      only when it needs no escaping. */
  predicate Plain(t: Bytes)
  {
    forall k :: 0 <= k < |t| ==> t[k] != QUOTE && t[k] != BACKSLASH && t[k] >= 32
  }

  lemma {:induction false} PlainRoundTrip(t: Bytes, rest: Bytes)
    requires Plain(t)
    ensures ReadString(t + [QUOTE] + rest) == Some((t, rest))
    decreases |t|
  {
    if t == [] {
      assert t + [QUOTE] + rest == [QUOTE] + rest;
      assert ([QUOTE] + rest)[1..] == rest;
    } else {
      assert (t + [QUOTE] + rest)[1..] == t[1..] + [QUOTE] + rest;
      PlainRoundTrip(t[1..], rest);
      assert [t[0]] + t[1..] == t;
    }
  }

  /** Verbatim tags that need escaping do not read back: the label `a"b`
      ends the string early. */
  lemma QuotedTagMisreads()
    ensures var t: Bytes := [97, QUOTE, 98, QUOTE];
            ReadString(t) == Some(([97], [98, QUOTE]))
  {
    var t: Bytes := [97, QUOTE, 98, QUOTE];
    assert t[1..] == [QUOTE, 98, QUOTE];
    assert t[1..][1..] == [98, QUOTE];
    assert ReadString(t[1..]) == Some(([], [98, QUOTE]));
    var none: Bytes := [];
    assert [97] + none == [97];
    assert ReadString(t) == Cons(97, ReadString(t[1..]));
  }

  // ---------------------------------------------------------------------
  // Numbers

  predicate IsDigit(b: Byte)
  {
    48 <= b <= 57
  }

  /** A non-negative integer in decimal, as `operator<<` prints an `int`. */
  function Decimal(n: nat): (r: Bytes)
    ensures |r| >= 1
    ensures forall k :: 0 <= k < |r| ==> IsDigit(r[k])
    ensures r[0] == 48 ==> n == 0
  {
    if n < 10 then [48 + n] else Decimal(n / 10) + [48 + n % 10]
  }

  /** The value of a string of decimal digits. */
  function DigitsValue(d: Bytes): nat
    requires forall k :: 0 <= k < |d| ==> IsDigit(d[k])
  {
    if d == [] then 0
    else
      assert IsDigit(d[|d| - 1]);
      DigitsValue(d[..|d| - 1]) * 10 + (d[|d| - 1] - 48)
  }

  lemma {:induction false} DecimalValue(n: nat)
    ensures DigitsValue(Decimal(n)) == n
  {
    if n >= 10 {
      var d := Decimal(n);
      assert d[..|d| - 1] == Decimal(n / 10);
      DecimalValue(n / 10);
    }
  }

  /** The number of decimal digits at the front of t. */
  function LeadingDigits(t: Bytes): (k: nat)
    ensures k <= |t|
    ensures forall j :: 0 <= j < k ==> IsDigit(t[j])
    ensures k < |t| ==> !IsDigit(t[k])
  {
    if t != [] && IsDigit(t[0]) then 1 + LeadingDigits(t[1..]) else 0
  }

  /** A maximal non-empty run of digits and what follows it. */
  function ReadNat(t: Bytes): (r: Option<(nat, Bytes)>)
    ensures r.Some? ==> |r.value.1| < |t|
  {
    var k := LeadingDigits(t);
    if k == 0 then None else Some((DigitsValue(t[..k]), t[k..]))
  }

  lemma ReadNatDecimal(n: nat, rest: Bytes)
    requires rest != [] && !IsDigit(rest[0])
    ensures ReadNat(Decimal(n) + rest) == Some((n, rest))
  {
    var d := Decimal(n);
    var t := d + rest;
    assert t[|d|] == rest[0];
    assert LeadingDigits(t) == |d|;
    assert t[..|d|] == d && t[|d|..] == rest;
    DecimalValue(n);
  }

  // ---------------------------------------------------------------------
  // Assembling items, lists and batches

  /** `{"word":"` */
  const WORD_KEY: Bytes := [123, 34, 119, 111, 114, 100, 34, 58, 34]
  /** `,"tag":"` */
  const TAG_KEY: Bytes := [44, 34, 116, 97, 103, 34, 58, 34]
  /** `,"rank":` */
  const RANK_KEY: Bytes := [44, 34, 114, 97, 110, 107, 34, 58]

  /** `,"rank":N`, present iff the rank is non-negative (lac.cpp:408-410). */
  function RankField(rank: int): (r: Bytes)
    ensures r == [] <==> rank < 0
  {
    if rank >= 0 then RANK_KEY + Decimal(rank) else []
  }

  /** One item (lac.cpp:403-412): the escaped word, the tag verbatim, and
      the rank when it is non-negative. */
  function ItemJson(item: OutputItem): Bytes
  {
    WORD_KEY + Escape(item.word) + [QUOTE] + TAG_KEY + item.tag + [QUOTE] + RankField(item.rank) + [RBRACE]
  }

  /** The parts separated by commas. */
  function Join(parts: seq<Bytes>): Bytes
  {
    if |parts| == 0 then []
    else if |parts| == 1 then parts[0]
    else Join(parts[..|parts| - 1]) + [COMMA] + parts[|parts| - 1]
  }

  function ItemsJson(items: seq<OutputItem>): (r: seq<Bytes>)
    ensures |r| == |items|
    ensures forall i :: 0 <= i < |items| ==> r[i] == ItemJson(items[i])
  {
    seq(|items|, i requires 0 <= i < |items| => ItemJson(items[i]))
  }

  /** The single-list `results_to_json` (lac.cpp:398-420). */
  function ListJson(items: seq<OutputItem>): Bytes
  {
    [LBRACKET] + Join(ItemsJson(items)) + [RBRACKET]
  }

  function ListsJson(batch: seq<seq<OutputItem>>): (r: seq<Bytes>)
    ensures |r| == |batch|
    ensures forall i :: 0 <= i < |batch| ==> r[i] == ListJson(batch[i])
  {
    seq(|batch|, i requires 0 <= i < |batch| => ListJson(batch[i]))
  }

  /** The batch `results_to_json` (lac.cpp:423-436). */
  function BatchJson(batch: seq<seq<OutputItem>>): Bytes
  {
    [LBRACKET] + Join(ListsJson(batch)) + [RBRACKET]
  }

  /** The stream after i of the n parts, as the loops of `results_to_json`
      leave it: the parts so far, and a comma when more are to come. */
  function Emitted(parts: seq<Bytes>, i: nat): Bytes
    requires i <= |parts|
  {
    [LBRACKET] + Join(parts[..i]) + (if 0 < i < |parts| then [COMMA] else [])
  }

  lemma EmittedStep(parts: seq<Bytes>, i: nat)
    requires i < |parts|
    ensures Emitted(parts, i) + parts[i] + (if i < |parts| - 1 then [COMMA] else []) == Emitted(parts, i + 1)
  {
    assert parts[..i + 1][..i] == parts[..i];
    if i == 0 {
      assert parts[..1] == [parts[0]];
    }
  }

  lemma EmittedDone(parts: seq<Bytes>)
    ensures Emitted(parts, |parts|) + [RBRACKET] == [LBRACKET] + Join(parts) + [RBRACKET]
  {
    assert parts[..|parts|] == parts;
  }

  /** One object of the item loop (lac.cpp:403-412). */
  method WriteItem(x: OutputItem) returns (item: Bytes)
    ensures item == ItemJson(x)
  {
    var word := EscapeJsonString(x.word);
    item := WORD_KEY + word + [QUOTE] + TAG_KEY + x.tag + [QUOTE];
    if x.rank >= 0 {
      item := item + RANK_KEY + Decimal(x.rank);
    }
    item := item + [RBRACE];
  }

  /** The single-list `results_to_json` (lac.cpp:398-420). */
  method ResultsToJson(results: seq<OutputItem>) returns (json: Bytes)
    ensures json == ListJson(results)
  {
    ghost var parts := ItemsJson(results);
    json := [LBRACKET];
    var i := 0;
    while i < |results|
      invariant 0 <= i <= |results|
      invariant json == Emitted(parts, i)
    {
      var item := WriteItem(results[i]);
      json := json + item;
      if i < |results| - 1 {
        json := json + [COMMA];
      }
      EmittedStep(parts, i);
      i := i + 1;
    }
    EmittedDone(parts);
    json := json + [RBRACKET];
  }

  /** The batch `results_to_json` (lac.cpp:423-436). */
  method ResultsBatchToJson(resultsBatch: seq<seq<OutputItem>>) returns (json: Bytes)
    ensures json == BatchJson(resultsBatch)
  {
    ghost var parts := ListsJson(resultsBatch);
    json := [LBRACKET];
    var i := 0;
    while i < |resultsBatch|
      invariant 0 <= i <= |resultsBatch|
      invariant json == Emitted(parts, i)
    {
      var list := ResultsToJson(resultsBatch[i]);
      json := json + list;
      if i < |resultsBatch| - 1 {
        json := json + [COMMA];
      }
      EmittedStep(parts, i);
      i := i + 1;
    }
    EmittedDone(parts);
    json := json + [RBRACKET];
  }

  // ---------------------------------------------------------------------
  // Reading items, lists and batches back

  /** What a reader of the JSON learns about an item: the rank only when it
      was written. */
  datatype ParsedItem = ParsedItem(word: Bytes, tag: Bytes, rank: Option<nat>)

  function View(item: OutputItem): ParsedItem
  {
    ParsedItem(item.word, item.tag, if item.rank >= 0 then Some(item.rank) else None)
  }

  function Views(items: seq<OutputItem>): (r: seq<ParsedItem>)
    ensures |r| == |items|
    ensures forall i :: 0 <= i < |items| ==> r[i] == View(items[i])
  {
    seq(|items|, i requires 0 <= i < |items| => View(items[i]))
  }

  /** Every tag of the list needs no escaping. */
  predicate PlainTags(items: seq<OutputItem>)
  {
    forall i :: 0 <= i < |items| ==> Plain(items[i].tag)
  }

  function ReadLit(lit: Bytes, t: Bytes): (r: Option<Bytes>)
    ensures r.Some? ==> |r.value| == |t| - |lit|
  {
    if lit <= t then Some(t[|lit|..]) else None
  }

  lemma ReadLitPrefix(lit: Bytes, rest: Bytes)
    ensures ReadLit(lit, lit + rest) == Some(rest)
  {
    assert (lit + rest)[..|lit|] == lit;
    assert (lit + rest)[|lit|..] == rest;
  }

  /** The optional `,"rank":N` field. */
  function ReadRank(t: Bytes): (r: Option<(Option<nat>, Bytes)>)
    ensures r.Some? ==> |r.value.1| <= |t|
  {
    if RANK_KEY <= t then
      match ReadNat(t[|RANK_KEY|..])
      case None => None
      case Some((n, rest)) => Some((Some(n), rest))
    else Some((None, t))
  }

  /** One object `{"word":"…","tag":"…"[,"rank":N]}`. */
  function ReadItem(t: Bytes): (r: Option<(ParsedItem, Bytes)>)
    ensures r.Some? ==> |r.value.1| < |t|
  {
    match ReadLit(WORD_KEY, t)
    case None => None
    case Some(t1) => ReadWord(t1)
  }

  /** The word's text up to its closing quote, then the rest of the object. */
  function ReadWord(t: Bytes): (r: Option<(ParsedItem, Bytes)>)
    ensures r.Some? ==> |r.value.1| < |t|
  {
    match ReadString(t)
    case None => None
    case Some((word, t1)) => ReadTag(word, t1)
  }

  /** `,"tag":"`, the tag's text up to its closing quote, then the rest. */
  function ReadTag(word: Bytes, t: Bytes): (r: Option<(ParsedItem, Bytes)>)
    ensures r.Some? ==> |r.value.1| < |t|
  {
    match ReadLit(TAG_KEY, t)
    case None => None
    case Some(t1) =>
      match ReadString(t1)
      case None => None
      case Some((tag, t2)) => ReadTail(word, tag, t2)
  }

  /** The optional rank and the closing brace. */
  function ReadTail(word: Bytes, tag: Bytes, t: Bytes): (r: Option<(ParsedItem, Bytes)>)
    ensures r.Some? ==> |r.value.1| < |t|
  {
    match ReadRank(t)
    case None => None
    case Some((rank, t1)) =>
      match ReadLit([RBRACE], t1)
      case None => None
      case Some(t2) => Some((ParsedItem(word, tag, rank), t2))
  }

  /** A reader that consumes at least one byte whenever it succeeds. */
  ghost predicate Shrinks<T>(read: Bytes -> Option<(T, Bytes)>)
  {
    forall t :: read(t).Some? ==> |read(t).value.1| < |t|
  }

  /** One or more values, each taken by `read`, separated by commas, then
      the closing bracket: the shape shared by a list's objects and a
      batch's lists. */
  function ReadRun<T>(read: Bytes -> Option<(T, Bytes)>, t: Bytes): (r: Option<(seq<T>, Bytes)>)
    requires Shrinks(read)
    ensures r.Some? ==> |r.value.1| < |t|
    decreases |t|
  {
    match read(t)
    case None => None
    case Some((v, t1)) =>
      if t1 != [] && t1[0] == COMMA then
        match ReadRun(read, t1[1..])
        case None => None
        case Some((vs, t2)) => Some(([v] + vs, t2))
      else if t1 != [] && t1[0] == RBRACKET then Some(([v], t1[1..]))
      else None
  }

  /** One or more objects separated by commas, then the closing bracket. */
  function ReadItems(t: Bytes): (r: Option<(seq<ParsedItem>, Bytes)>)
    ensures r.Some? ==> |r.value.1| < |t|
  {
    ReadRun(ReadItem, t)
  }

  /** An array of objects. */
  function ReadList(t: Bytes): (r: Option<(seq<ParsedItem>, Bytes)>)
    ensures r.Some? ==> |r.value.1| < |t|
  {
    if t != [] && t[0] == LBRACKET then
      if |t| >= 2 && t[1] == RBRACKET then Some(([], t[2..])) else ReadItems(t[1..])
    else None
  }

  /** One or more arrays of objects separated by commas, then the closing
      bracket. */
  function ReadLists(t: Bytes): (r: Option<(seq<seq<ParsedItem>>, Bytes)>)
    ensures r.Some? ==> |r.value.1| < |t|
  {
    ReadRun(ReadList, t)
  }

  /** An array of arrays of objects. */
  function ReadBatch(t: Bytes): (r: Option<(seq<seq<ParsedItem>>, Bytes)>)
    ensures r.Some? ==> |r.value.1| < |t|
  {
    if t != [] && t[0] == LBRACKET then
      if |t| >= 2 && t[1] == RBRACKET then Some(([], t[2..])) else ReadLists(t[1..])
    else None
  }

  lemma {:induction false} JoinFront(parts: seq<Bytes>)
    requires |parts| >= 2
    ensures Join(parts) == parts[0] + [COMMA] + Join(parts[1..])
    decreases |parts|
  {
    var n := |parts| - 1;
    if |parts| == 2 {
      assert parts[..n] == [parts[0]];
      assert parts[1..] == [parts[1]];
    } else {
      assert parts[..n][1..] == parts[1..][..|parts[1..]| - 1];
      JoinFront(parts[..n]);
    }
  }

  lemma TailRoundTrip(word: Bytes, tag: Bytes, rank: int, rest: Bytes)
    ensures ReadTail(word, tag, RankField(rank) + [RBRACE] + rest)
            == Some((ParsedItem(word, tag, if rank >= 0 then Some(rank) else None), rest))
  {
    var closing := [RBRACE] + rest;
    assert RankField(rank) + [RBRACE] + rest == RankField(rank) + closing;
    if rank >= 0 {
      RankPresentRead(rank, closing);
    } else {
      RankAbsentRead(closing);
    }
    ReadLitPrefix([RBRACE], rest);
  }

  lemma RankPresentRead(rank: nat, closing: Bytes)
    requires closing != [] && closing[0] == RBRACE
    ensures ReadRank(RankField(rank) + closing) == Some((Some(rank), closing))
  {
    assert RankField(rank) + closing == RANK_KEY + (Decimal(rank) + closing);
    ReadLitPrefix(RANK_KEY, Decimal(rank) + closing);
    ReadNatDecimal(rank, closing);
  }

  lemma RankAbsentRead(closing: Bytes)
    requires closing != [] && closing[0] == RBRACE
    ensures ReadRank(closing) == Some((None, closing))
  {
    assert closing[0] != RANK_KEY[0];
  }

  lemma TagRoundTrip(word: Bytes, tag: Bytes, rest: Bytes)
    requires Plain(tag)
    ensures ReadTag(word, TAG_KEY + (tag + [QUOTE] + rest)) == ReadTail(word, tag, rest)
  {
    ReadLitPrefix(TAG_KEY, tag + [QUOTE] + rest);
    PlainRoundTrip(tag, rest);
  }

  lemma WordRoundTrip(word: Bytes, rest: Bytes)
    ensures ReadWord(Escape(word) + [QUOTE] + rest) == ReadTag(word, rest)
  {
    EscapeRoundTrip(word, rest);
  }

  /** An item reads back as its view, whatever follows it. */
  lemma ItemRoundTrip(item: OutputItem, rest: Bytes)
    requires Plain(item.tag)
    ensures ReadItem(ItemJson(item) + rest) == Some((View(item), rest))
  {
    var tail := RankField(item.rank) + [RBRACE] + rest;
    var tagged := TAG_KEY + (item.tag + [QUOTE] + tail);
    var t1 := Escape(item.word) + [QUOTE] + tagged;
    assert ItemJson(item) + rest == WORD_KEY + t1;
    ReadLitPrefix(WORD_KEY, t1);
    WordRoundTrip(item.word, tagged);
    TagRoundTrip(item.word, item.tag, tail);
    TailRoundTrip(item.word, item.tag, item.rank, rest);
  }

  /** The first byte of a join is the first byte of its first part. */
  lemma {:induction false} JoinFirst(parts: seq<Bytes>)
    requires |parts| >= 1 && parts[0] != []
    ensures Join(parts) != [] && Join(parts)[0] == parts[0][0]
    decreases |parts|
  {
    if |parts| >= 2 {
      var n := |parts| - 1;
      JoinFirst(parts[..n]);
    }
  }

  lemma Regroup(p: Bytes, j: Bytes, rest: Bytes)
    ensures p + [COMMA] + j + [RBRACKET] + rest == p + ([COMMA] + (j + [RBRACKET] + rest))
  {
  }

  /** `p`, followed by anything, is read by `read` as `v`. */
  ghost predicate ReadsAs<T>(read: Bytes -> Option<(T, Bytes)>, p: Bytes, v: T, x: Bytes)
  {
    read(p + x) == Some((v, x))
  }

  lemma RunMore<T>(read: Bytes -> Option<(T, Bytes)>, p: Bytes, v: T, tail: Bytes)
    requires Shrinks(read)
    requires ReadsAs(read, p, v, [COMMA] + tail)
    ensures ReadRun(read, p + ([COMMA] + tail)) == match ReadRun(read, tail)
                                                   case None => None
                                                   case Some((vs, r)) => Some(([v] + vs, r))
  {
    assert ([COMMA] + tail)[1..] == tail;
  }

  lemma RunLast<T>(read: Bytes -> Option<(T, Bytes)>, p: Bytes, v: T, rest: Bytes)
    requires Shrinks(read)
    requires ReadsAs(read, p, v, [RBRACKET] + rest)
    ensures ReadRun(read, p + ([RBRACKET] + rest)) == Some(([v], rest))
  {
    assert ([RBRACKET] + rest)[1..] == rest;
  }

  /** The reading of a comma-separated run, for any parts that each read
      back, whatever follows them, as the corresponding value. */
  lemma RunRead<T>(read: Bytes -> Option<(T, Bytes)>, parts: seq<Bytes>, views: seq<T>, rest: Bytes)
    requires Shrinks(read)
    requires 1 <= |parts| == |views|
    requires forall i, x :: 0 <= i < |parts| ==> ReadsAs(read, parts[i], views[i], x)
    ensures ReadRun(read, Join(parts) + [RBRACKET] + rest) == Some((views, rest))
  {
    RunReadFrom(read, parts, views, rest, 0);
    assert parts[0..] == parts && views[0..] == views;
  }

  /** The run from part k on reads back as the values from k on. */
  lemma {:induction false} RunReadFrom<T>(read: Bytes -> Option<(T, Bytes)>, parts: seq<Bytes>, views: seq<T>, rest: Bytes, k: nat)
    requires Shrinks(read)
    requires k < |parts| == |views|
    requires forall i, x :: 0 <= i < |parts| ==> ReadsAs(read, parts[i], views[i], x)
    ensures ReadRun(read, Join(parts[k..]) + [RBRACKET] + rest) == Some((views[k..], rest))
    decreases |parts| - k
  {
    var ps, vs := parts[k..], views[k..];
    if k == |parts| - 1 {
      assert ps == [parts[k]] && vs == [views[k]];
      assert Join(ps) + [RBRACKET] + rest == parts[k] + ([RBRACKET] + rest);
      RunLast(read, parts[k], views[k], rest);
    } else {
      RunReadFrom(read, parts, views, rest, k + 1);
      assert ps[1..] == parts[k + 1..] && vs[1..] == views[k + 1..];
      assert ps[0] == parts[k] && vs[0] == views[k];
      RunReadFront(read, ps, vs, rest);
    }
  }

  /** One more part in front of a run that reads back. */
  lemma RunReadFront<T>(read: Bytes -> Option<(T, Bytes)>, parts: seq<Bytes>, views: seq<T>, rest: Bytes)
    requires Shrinks(read)
    requires 2 <= |parts| == |views|
    requires ReadsAs(read, parts[0], views[0], [COMMA] + (Join(parts[1..]) + [RBRACKET] + rest))
    requires ReadRun(read, Join(parts[1..]) + [RBRACKET] + rest) == Some((views[1..], rest))
    ensures ReadRun(read, Join(parts) + [RBRACKET] + rest) == Some((views, rest))
  {
    JoinFront(parts);
    var tail := Join(parts[1..]) + [RBRACKET] + rest;
    Regroup(parts[0], Join(parts[1..]), rest);
    RunMore(read, parts[0], views[0], tail);
    assert views == [views[0]] + views[1..];
  }

  /** Round trip for the single-list form: the JSON of a list reads back as
      the list's views, provided its tags need no escaping. */
  lemma ListRoundTrip(items: seq<OutputItem>, rest: Bytes)
    requires PlainTags(items)
    ensures ReadList(ListJson(items) + rest) == Some((Views(items), rest))
  {
    var parts := ItemsJson(items);
    var t := ListJson(items) + rest;
    assert t == [LBRACKET] + (Join(parts) + [RBRACKET] + rest);
    if items == [] {
      assert t == [LBRACKET, RBRACKET] + rest;
      assert t[2..] == rest;
      assert Views(items) == [];
    } else {
      forall i, x | 0 <= i < |parts| ensures ReadsAs(ReadItem, parts[i], Views(items)[i], x) {
        ItemRoundTrip(items[i], x);
      }
      JoinFirst(parts);
      RunRead(ReadItem, parts, Views(items), rest);
    }
  }

  /** The views of a batch, list by list. */
  function BatchViews(batch: seq<seq<OutputItem>>): (r: seq<seq<ParsedItem>>)
    ensures |r| == |batch|
    ensures forall i :: 0 <= i < |batch| ==> r[i] == Views(batch[i])
  {
    seq(|batch|, i requires 0 <= i < |batch| => Views(batch[i]))
  }

  /** Round trip for the batch form. */
  lemma BatchRoundTrip(batch: seq<seq<OutputItem>>, rest: Bytes)
    requires forall i :: 0 <= i < |batch| ==> PlainTags(batch[i])
    ensures ReadBatch(BatchJson(batch) + rest) == Some((BatchViews(batch), rest))
  {
    var parts := ListsJson(batch);
    var t := BatchJson(batch) + rest;
    assert t == [LBRACKET] + (Join(parts) + [RBRACKET] + rest);
    if batch == [] {
      assert t == [LBRACKET, RBRACKET] + rest;
      assert t[2..] == rest;
      assert BatchViews(batch) == [];
    } else {
      forall i, x | 0 <= i < |parts| ensures ReadsAs(ReadList, parts[i], BatchViews(batch)[i], x) {
        ListRoundTrip(batch[i], x);
      }
      JoinFirst(parts);
      RunRead(ReadList, parts, BatchViews(batch), rest);
    }
  }
}
