/**
 * Well-formed UTF-8 as defined by section 4 of RFC 3629: the check that
 * `std::str::from_utf8` performs on a decoded string payload.
 */
module Utf8 {
  import opened ByteOrder

  predicate IsContinuation(b: byte) {
    0x80 <= b <= 0xBF
  }

  /**
   * The number of bytes of the well-formed character at the head of `s`,
   * or 0 when `s` does not start with one (overlong forms, surrogates and
   * code points above U+10FFFF are not well-formed).
   */
  function CharWidth(s: seq<byte>): (k: nat)
    ensures k <= |s| && k <= 4
    ensures k > 0 ==> (k == 1 <==> s[0] < 0x80)
  {
    if |s| == 0 then 0
    else if s[0] < 0x80 then 1
    else if 0xC2 <= s[0] <= 0xDF then
      if |s| >= 2 && IsContinuation(s[1]) then 2 else 0
    else if 0xE0 <= s[0] <= 0xEF then
      var lo: byte := if s[0] == 0xE0 then 0xA0 else 0x80;
      var hi: byte := if s[0] == 0xED then 0x9F else 0xBF;
      if |s| >= 3 && lo <= s[1] <= hi && IsContinuation(s[2]) then 3 else 0
    else if 0xF0 <= s[0] <= 0xF4 then
      var lo: byte := if s[0] == 0xF0 then 0x90 else 0x80;
      var hi: byte := if s[0] == 0xF4 then 0x8F else 0xBF;
      if |s| >= 4 && lo <= s[1] <= hi && IsContinuation(s[2]) && IsContinuation(s[3]) then 4 else 0
    else 0
  }

  /** `s` is a sequence of well-formed UTF-8 characters. */
  predicate ValidUtf8(s: seq<byte>)
    decreases |s|
  {
    s == [] || (CharWidth(s) > 0 && ValidUtf8(s[CharWidth(s)..]))
  }
}
