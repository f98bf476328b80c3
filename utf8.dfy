/**
 * UTF-8 well-formedness, the check `CStr::to_str` performs before it hands
 * out a `&str`. The accepted byte sequences are those of Table 3-7 of the
 * Unicode Standard (no overlong forms, no surrogates, nothing above U+10FFFF).
 */
module Utf8 {
  import opened Bytes

  /** A continuation byte, 10xxxxxx. */
  predicate IsCont(b: byte)
  {
    0x80 <= b <= 0xBF
  }

  /** Width of the well-formed sequence that begins `s`, or 0 when `s` begins with none. */
  function LeadWidth(s: seq<byte>): (w: nat)
    requires |s| > 0
    ensures w <= 4 && w <= |s|
  {
    var b0 := s[0];
    if b0 <= 0x7F then 1
    else if 0xC2 <= b0 <= 0xDF then
      if |s| >= 2 && IsCont(s[1]) then 2 else 0
    else if 0xE0 <= b0 <= 0xEF then
      var lo: byte := if b0 == 0xE0 then 0xA0 else 0x80;
      var hi: byte := if b0 == 0xED then 0x9F else 0xBF;
      if |s| >= 3 && lo <= s[1] <= hi && IsCont(s[2]) then 3 else 0
    else if 0xF0 <= b0 <= 0xF4 then
      var lo: byte := if b0 == 0xF0 then 0x90 else 0x80;
      var hi: byte := if b0 == 0xF4 then 0x8F else 0xBF;
      if |s| >= 4 && lo <= s[1] <= hi && IsCont(s[2]) && IsCont(s[3]) then 4 else 0
    else 0
  }

  /** `s` is a concatenation of well-formed UTF-8 sequences. */
  predicate Valid(s: seq<byte>)
    decreases |s|
  {
    |s| == 0 || (LeadWidth(s) > 0 && Valid(s[LeadWidth(s)..]))
  }

  /** Every ASCII byte string is valid UTF-8. */
  lemma {:induction false} AsciiValid(s: seq<byte>)
    requires forall i :: 0 <= i < |s| ==> s[i] < 0x80
    ensures Valid(s)
  {
    if |s| > 0 {
      assert LeadWidth(s) == 1;
      AsciiValid(s[1..]);
    }
  }

  /** A two-byte character is accepted; an overlong NUL, a surrogate, a code point above U+10FFFF and a cut-off sequence are not. */
  lemma Samples()
    ensures Valid([0xC3, 0xA9])
    ensures !Valid([0xC0, 0x80])
    ensures !Valid([0xED, 0xA0, 0x80])
    ensures !Valid([0xF4, 0x90, 0x80, 0x80])
    ensures !Valid([0xE2, 0x82])
  {
  }
}
