/** Which byte buffers are UTF-8 (section 3 of RFC 3629), and their first character. */
module Utf8 {
  import opened Prelude

  predicate Tail(b: Byte) {
    0x80 <= b <= 0xBF
  }

  /** The bytes of a well-formed first character, or none. */
  function CharLen(b: Bytes): (n: nat)
    ensures n <= |b|
    ensures b != [] && b[0] < 0x80 ==> n == 1
  {
    if b == [] then 0
    else if b[0] < 0x80 then 1
    else if |b| < 2 then 0
    else if 0xC2 <= b[0] <= 0xDF then (if Tail(b[1]) then 2 else 0)
    else if |b| < 3 then 0
    else if 0xE0 <= b[0] <= 0xEF then
      if Tail(b[1]) && Tail(b[2]) && (b[0] == 0xE0 ==> b[1] >= 0xA0) && (b[0] == 0xED ==> b[1] <= 0x9F) then 3 else 0
    else if |b| < 4 then 0
    else if 0xF0 <= b[0] <= 0xF4 then
      if Tail(b[1]) && Tail(b[2]) && Tail(b[3]) && (b[0] == 0xF0 ==> b[1] >= 0x90) && (b[0] == 0xF4 ==> b[1] <= 0x8F)
      then 4 else 0
    else 0
  }

  predicate Valid(b: Bytes)
    decreases |b|
  {
    b == [] || (CharLen(b) > 0 && Valid(b[CharLen(b)..]))
  }

  predicate Ascii(b: Bytes) {
    forall i :: 0 <= i < |b| ==> b[i] < 0x80
  }

  lemma {:induction false} AsciiIsValid(b: Bytes)
    requires Ascii(b)
    ensures Valid(b)
  {
    if b != [] {
      AsciiIsValid(b[1..]);
    }
  }
}
