/** Byte strings. The C++ code works on `std::string`, i.e. sequences of
    bytes; tokens are UTF-8 (or GB18030) fragments and labels are ASCII. */
module Bytes {
  type Byte = b: int | 0 <= b < 256
  type Bytes = seq<Byte>

  /** An ASCII literal as bytes, for writing labels and JSON punctuation. */
  function Str(s: string): (r: Bytes)
    requires forall i :: 0 <= i < |s| ==> s[i] as int < 256
    ensures |r| == |s|
    ensures forall i :: 0 <= i < |s| ==> r[i] == s[i] as int
  {
    seq(|s|, i requires 0 <= i < |s| => s[i] as int)
  }

  /** The concatenation parts[0] + ... + parts[|parts|-1], built the way the
      C++ code builds it: by appending to the end. */
  function Concat(parts: seq<Bytes>): Bytes
  {
    if parts == [] then [] else Concat(parts[..|parts| - 1]) + parts[|parts| - 1]
  }

  function Min(a: int, b: int): int { if a <= b then a else b }
  function Max(a: int, b: int): int { if a >= b then a else b }
}
