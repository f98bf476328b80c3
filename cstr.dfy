/**
 * Reading a C string out of a byte buffer: everything before the first NUL,
 * and nothing at all when the buffer holds no NUL.
 */
module CStr {
  import opened Bytes
  import opened Wrappers
  import Utf8

  /** The bytes of `v` before its first NUL, or None when `v` holds no NUL. */
  function UntilNul(v: seq<byte>): (r: Option<seq<byte>>)
    ensures r.Some? ==> |r.value| < |v|
  {
    if |v| == 0 then None
    else if v[0] == NUL then Some([])
    else
      var rest := UntilNul(v[1..]);
      if rest.None? then None else Some([v[0]] + rest.value)
  }

  /** The bytes before the terminator are valid UTF-8 (vacuous when there is no terminator). */
  predicate Utf8BeforeNul(v: seq<byte>)
  {
    UntilNul(v).Some? ==> Utf8.Valid(UntilNul(v).value)
  }

  /** Decoding fails exactly when the buffer holds no terminator. */
  lemma {:induction false} NoneIffNoNul(v: seq<byte>)
    ensures UntilNul(v).None? <==> NoNul(v)
  {
    if |v| > 0 && v[0] != NUL {
      NoneIffNoNul(v[1..]);
      if NoNul(v[1..]) {
        forall i | 0 <= i < |v| ensures v[i] != NUL {
          if i > 0 { assert v[i] == v[1..][i - 1]; }
        }
      } else {
        var j :| 0 <= j < |v[1..]| && v[1..][j] == NUL;
        assert v[j + 1] == NUL;
      }
    }
  }

  /** A decoded string is the prefix before the first terminator: the byte after it is NUL and none inside it is. */
  lemma {:induction false} SomeIsPrefixBeforeFirstNul(v: seq<byte>)
    requires UntilNul(v).Some?
    ensures var s := UntilNul(v).value;
      |s| < |v| && v[|s|] == NUL && s == v[..|s|] && NoNul(s)
  {
    if v[0] != NUL {
      SomeIsPrefixBeforeFirstNul(v[1..]);
      var t := UntilNul(v[1..]).value;
      assert UntilNul(v).value == [v[0]] + t;
      assert v[1..][..|t|] == v[1..|t| + 1];
    }
  }

  /** Any terminator with no terminator before it is where decoding stops. */
  lemma DecodesAt(v: seq<byte>, end: nat)
    requires end < |v| && v[end] == NUL && NoNul(v[..end])
    ensures UntilNul(v) == Some(v[..end])
  {
    NoneIffNoNul(v);
    assert !NoNul(v) by { assert v[end] == NUL; }
    SomeIsPrefixBeforeFirstNul(v);
  }

  /** Round trip: a NUL-free string followed by a terminator and anything at all decodes to that string. */
  lemma RoundTrip(s: seq<byte>, t: seq<byte>)
    requires NoNul(s)
    ensures UntilNul(s + [NUL] + t) == Some(s)
  {
    var v := s + [NUL] + t;
    assert v[..|s|] == s;
    DecodesAt(v, |s|);
  }

  /** Bytes after a buffer that already decodes change nothing. */
  lemma ExtendKeepsResult(a: seq<byte>, b: seq<byte>)
    requires UntilNul(a).Some?
    ensures UntilNul(a + b) == UntilNul(a)
  {
    SomeIsPrefixBeforeFirstNul(a);
    var k := |UntilNul(a).value|;
    assert (a + b)[..k] == a[..k];
    DecodesAt(a + b, k);
  }

  /**
   * A zeroed buffer of `n` bytes into which fewer than `n` bytes were written
   * always decodes: to what was written when it holds no NUL, and otherwise to
   * what was written up to its first NUL.
   */
  lemma ZeroFilledTerminated(written: seq<byte>, n: nat)
    requires |written| < n
    ensures var buf := written + Zeros(n - |written|);
      UntilNul(buf).Some? &&
      (NoNul(written) ==> UntilNul(buf) == Some(written)) &&
      (!NoNul(written) ==> UntilNul(buf) == UntilNul(written))
  {
    var z := Zeros(n - |written|);
    assert z == [NUL] + z[1..];
    assert written + z == written + [NUL] + z[1..];
    if NoNul(written) {
      RoundTrip(written, z[1..]);
    } else {
      NoneIffNoNul(written);
      ExtendKeepsResult(written, z);
    }
  }

  /** A buffer of ASCII bytes never makes the UTF-8 check fail. */
  lemma AsciiBufferDecodable(v: seq<byte>)
    requires forall i :: 0 <= i < |v| ==> v[i] < 0x80
    ensures Utf8BeforeNul(v)
  {
    if UntilNul(v).Some? {
      SomeIsPrefixBeforeFirstNul(v);
      var s := UntilNul(v).value;
      forall i | 0 <= i < |s| ensures s[i] < 0x80 {
        assert s[i] == v[i];
      }
      Utf8.AsciiValid(s);
    }
  }
}
