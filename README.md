# rhostname: host-name buffer decoding and result mapping

This project models the library part of `rhostname`, a Rust reimplementation
of the `hostname` utility. The library (`src/lib.rs`) wraps four C library
calls: `gethostname`, `getdomainname`, `sethostname` and `getnameinfo`.
Each wrapper hands the C library a buffer or a C string. It then maps the
return code onto a `Result` and decodes the NUL-terminated buffer into a
Rust string with `u8_to_string`.

Modules:

- `Bytes`: the `byte` type, the NUL terminator, zeroed buffers.
- `Wrappers`: `Option` and `Result`. The error of a `Result` is a fixed
  message, like the library's `&'static str`.
- `Utf8`: the well-formedness check that `CStr::to_str` makes. It accepts
  exactly the byte sequences of Table 3-7 of the Unicode Standard.
- `CStr`: `UntilNul`, the reference meaning of reading a C string out of
  a buffer, with its lemmas. These cover the first-NUL characterisation,
  the round trip, and zeroed buffers.
- `Hostname`: `u8_to_string` is modelled as a scan loop plus truncation,
  proved equal to `UntilNul`. The four wrappers are modelled with every
  C call abstracted.

How the C calls are abstracted:

- `gethostname`, `getdomainname` and `getnameinfo` take a `Filled` value:
  the call's return code and the bytes of the buffer after the call. The
  buffer has the length the source allocates: 255 bytes, or `NI_MAXHOST` =
  1025 bytes (glibc's value).
- `sethostname` takes the C call as a function from its arguments to its
  return code. Its contract therefore shows exactly what is passed: the
  bytes of `name` with a NUL after them, and `name.len()`.

A Rust `String` is modelled as its UTF-8 bytes. Each `unwrap` that can
panic is a precondition:

- the bytes before the terminator must be valid UTF-8 (`src/lib.rs:7`);
- the name given to `sethostname` must hold no NUL (`src/lib.rs:55`);
- the buffer `getnameinfo` gets back must hold a terminator (`src/lib.rs:82`).

The `CString::new(v).unwrap()` at `src/lib.rs:7` cannot fail.
`U8ToString` proves this: the truncated vector holds no NUL.

The system's wider design describes more error kinds for the name calls
(permission denied, name too long) and a `"(none)"` sentinel for an unset
domain. The code has neither. Every failing call becomes
`"Something went wrong."` (or `""` for `getnameinfo`), and the model
follows the code.

## Model

| member | source | states |
|---|---|---|
| `CStr.UntilNul` | src/lib.rs:3-11 | the decoded prefix is strictly shorter than the buffer it came from |
| `CStr.NoneIffNoNul` | src/lib.rs:4-9 | decoding yields None exactly when the buffer holds no zero byte |
| `CStr.SomeIsPrefixBeforeFirstNul` | src/lib.rs:4-7 | a decoded string is the buffer's prefix up to the first zero byte: its length is that byte's index, and it holds no zero byte, so building the C string cannot fail |
| `CStr.DecodesAt` | src/lib.rs:4-6 | for any zero byte with none before it, decoding returns exactly the bytes before it |
| `CStr.RoundTrip` | src/lib.rs:4-7 | a zero-free string followed by a NUL and any suffix decodes to that string; with the empty string, a buffer that starts with NUL decodes to the empty string |
| `CStr.ExtendKeepsResult` | src/lib.rs:4-6 | bytes appended after a buffer that already decodes do not change the result |
| `CStr.ZeroFilledTerminated` | src/lib.rs:19-20 | a zeroed buffer with fewer bytes written than its length always decodes: to what was written, or to what was written up to its first NUL |
| `CStr.AsciiBufferDecodable` | src/lib.rs:7 | a buffer of ASCII bytes always meets the UTF-8 precondition of the string conversion |
| `Utf8.AsciiValid` | src/lib.rs:7 | every ASCII byte string passes the UTF-8 check |
| `Utf8.Samples` | src/lib.rs:7 | the UTF-8 check accepts a two-byte character and rejects an overlong NUL, a surrogate, a code point above U+10FFFF and a truncated sequence |
| `Hostname.U8ToString` | src/lib.rs:3-11 | the scan-and-truncate decoder returns exactly `UntilNul` of its input, and the string it returns is valid UTF-8 with no NUL; it requires only that the bytes before the terminator are valid UTF-8 |
| `Hostname.GetHostname` | src/lib.rs:13-33 | Ok exactly when the return code is 0 and the 255-byte buffer holds a NUL; any non-zero code gives "Something went wrong." whatever the buffer holds; code 0 with no NUL gives "Hostname is too large to fit."; an Ok name is the decoded prefix, at most 254 bytes, NUL-free, valid UTF-8 |
| `Hostname.GetDomainname` | src/lib.rs:35-51 | as GetHostname, with "Domain name is too large to fit." when code 0 leaves no NUL in the 255-byte buffer |
| `Hostname.SetHostname` | src/lib.rs:53-72 | the C call receives the name's bytes followed by NUL and exactly `name.len()`; the result is Ok exactly when that call returns 0, otherwise "Something went wrong."; it requires a NUL-free name |
| `Hostname.SetHostnameArgument` | src/lib.rs:54-56 | the buffer sethostname passes names `name` both through its first `len` bytes and as a NUL-terminated string |
| `Hostname.GetNameInfo` | src/lib.rs:74-84 | Err("") exactly when the return code is non-zero; otherwise the decoded prefix of the `NI_MAXHOST` buffer, shorter than 1025 bytes and valid UTF-8; it requires a terminator in the buffer on success |

## Left out

- The C library calls and the unsafe pointer casts are foreign code. Their
  effects are parameters: the return code with the buffer left behind, or
  a function from the arguments to the return code.
- The `sa`, `salen` and `flags` arguments of `getnameinfo` go only to the C
  call, so they are not modelled.
- The width of C's `int` return code is not modelled: the code only
  compares it with 0.
- A panic (a failed `unwrap`) is modelled as a precondition, not as a
  behaviour.
- `SetHostname` accepts any NUL-free bytes. A Rust `String` is always valid
  UTF-8, but nothing in sethostname depends on that.
- The commented-out errno inspection in `sethostname` (`src/lib.rs:59-66`) is
  not code.
- `src/main.rs` only declares command-line flags and prints them, so it is
  not part of this model.
- `src/lib.c` looks up aliases with `gethostbyname` and prints them. That is
  a foreign resolver call plus output, so it is not part of this model.
- `tests/test.rs` runs processes and compares their output with the system
  `hostname` binary, so it is not part of this model.
- Name validation, forward and reverse resolution, interface enumeration,
  mode dispatch and the NIS `"(none)"` handling do not exist in this code,
  so they are not modelled.
