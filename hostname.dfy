/**
 * The library's wrappers around the C library's host-name calls. Each C call
 * is outside the model: its effect reaches a wrapper as a parameter (the
 * return code and the buffer it left, or a function from the arguments it was
 * given to its return code). A Rust `String` is modelled as its UTF-8 bytes.
 */
module Hostname {
  import opened Bytes
  import opened Wrappers
  import opened CStr
  import Utf8

  /** Size of the buffer gethostname and getdomainname hand to the C library. */
  const NAME_BUF_LEN: nat := 255

  /** glibc's NI_MAXHOST, the size of the host buffer getnameinfo hands to the C library. */
  const NI_MAXHOST: nat := 1025

  const SOMETHING_WRONG: string := "Something went wrong."
  const HOSTNAME_TOO_LARGE: string := "Hostname is too large to fit."
  const DOMAIN_TOO_LARGE: string := "Domain name is too large to fit."

  /** What a C call that fills a caller's buffer leaves behind: its return code and the buffer's bytes. */
  datatype Filled = Filled(ret: int, buf: seq<byte>)

  /**
   * u8_to_string: find the first NUL, truncate the vector there and return
   * the prefix as a string; None when the vector holds no NUL. The prefix
   * must be valid UTF-8, since the conversion to `&str` is unwrapped.
   */
  method U8ToString(v: seq<byte>) returns (r: Option<seq<byte>>)
    requires Utf8BeforeNul(v)
    ensures r == UntilNul(v)
    ensures r.Some? ==> Utf8.Valid(r.value) && NoNul(r.value)
  {
    var w := v;
    var end := 0;
    while end < |w| && w[end] != NUL
      invariant 0 <= end <= |w|
      invariant forall k :: 0 <= k < end ==> w[k] != NUL
    {
      end := end + 1;
    }
    if end == |w| {
      NoneIffNoNul(v);
      return None;
    }
    assert NoNul(w[..end]);
    DecodesAt(w, end);
    w := w[..end];
    // CString::new(w) cannot fail: the truncated vector holds no NUL.
    assert NoNul(w);
    r := Some(w);
  }

  /** gethostname: a failing call is a generic error; a buffer with no terminator is "too large". */
  method GetHostname(f: Filled) returns (r: Result<seq<byte>>)
    requires |f.buf| == NAME_BUF_LEN
    requires f.ret == 0 ==> Utf8BeforeNul(f.buf)
    ensures r.Ok? <==> f.ret == 0 && !NoNul(f.buf)
    ensures r.Err? ==> r.error == if f.ret != 0 then SOMETHING_WRONG else HOSTNAME_TOO_LARGE
    ensures r.Ok? ==> Some(r.value) == UntilNul(f.buf)
    ensures r.Ok? ==> |r.value| < NAME_BUF_LEN && NoNul(r.value) && Utf8.Valid(r.value)
  {
    if f.ret != 0 {
      return Err(SOMETHING_WRONG);
    }
    var name := U8ToString(f.buf);
    NoneIffNoNul(f.buf);
    if name.Some? {
      r := Ok(name.value);
    } else {
      r := Err(HOSTNAME_TOO_LARGE);
    }
  }

  /** getdomainname: as gethostname, with its own "too large" message. */
  method GetDomainname(f: Filled) returns (r: Result<seq<byte>>)
    requires |f.buf| == NAME_BUF_LEN
    requires f.ret == 0 ==> Utf8BeforeNul(f.buf)
    ensures r.Ok? <==> f.ret == 0 && !NoNul(f.buf)
    ensures r.Err? ==> r.error == if f.ret != 0 then SOMETHING_WRONG else DOMAIN_TOO_LARGE
    ensures r.Ok? ==> Some(r.value) == UntilNul(f.buf)
    ensures r.Ok? ==> |r.value| < NAME_BUF_LEN && NoNul(r.value) && Utf8.Valid(r.value)
  {
    if f.ret != 0 {
      return Err(SOMETHING_WRONG);
    }
    var name := U8ToString(f.buf);
    NoneIffNoNul(f.buf);
    if name.Some? {
      r := Ok(name.value);
    } else {
      r := Err(DOMAIN_TOO_LARGE);
    }
  }

  /**
   * sethostname: hands the C library the NUL-terminated copy of `name` and
   * its length in bytes; any non-zero result is a generic error. The name
   * must hold no NUL, since building the C string is unwrapped.
   */
  method SetHostname(name: seq<byte>, os: (seq<byte>, nat) -> int) returns (r: Result<()>)
    requires NoNul(name)
    ensures r.Ok? <==> os(name + [NUL], |name|) == 0
    ensures r.Err? ==> r.error == SOMETHING_WRONG
  {
    var len := |name|;
    var cname := name + [NUL];
    var result := os(cname, len);
    if result != 0 {
      r := Err(SOMETHING_WRONG);
    } else {
      r := Ok(());
    }
  }

  /** What sethostname hands over names `name` both ways: its first `len` bytes, and as a C string. */
  lemma SetHostnameArgument(name: seq<byte>)
    requires NoNul(name)
    ensures var cname := name + [NUL];
      cname[..|name|] == name && UntilNul(cname) == Some(name)
  {
    RoundTrip(name, []);
    assert name + [NUL] + [] == name + [NUL];
  }

  /**
   * getnameinfo: a failing call is an error with an empty message; otherwise
   * the host buffer is decoded, and it must hold a terminator since the
   * decoded value is unwrapped.
   */
  method GetNameInfo(f: Filled) returns (r: Result<seq<byte>>)
    requires |f.buf| == NI_MAXHOST
    requires f.ret == 0 ==> !NoNul(f.buf) && Utf8BeforeNul(f.buf)
    ensures r.Err? <==> f.ret != 0
    ensures r.Err? ==> r.error == ""
    ensures r.Ok? ==> Some(r.value) == UntilNul(f.buf)
    ensures r.Ok? ==> |r.value| < NI_MAXHOST && NoNul(r.value) && Utf8.Valid(r.value)
  {
    if f.ret != 0 {
      return Err("");
    }
    var host := U8ToString(f.buf);
    NoneIffNoNul(f.buf);
    r := Ok(host.value);
  }
}
