# Wiiload sender, modelled in Dafny

This project models the client side of the Wiiload protocol as implemented in
`src/lib.rs`. The client pushes one executable payload to a homebrew console
listening on TCP port 4299. It does so in one blind write of:

- a 15-byte header: magic `"HAXX"`, version `0 5`, the filename length (1
  byte), the payload size (big-endian `u32`) and the uncompressed size
  (big-endian `u32`; 0 when the payload is sent raw);
- the payload bytes;
- the NUL-terminated filename.

The model has three files:

- `wrappers.dfy`: `Option`, `Result` and `Outcome` (Rust's `Result<(), E>`).
- `bytes.dfy`: `u8`/`u32`, the lossless `try_into` conversions, and the
  big-endian encoding of `u32::to_be_bytes` with its decoder. Both round trips
  are proved.
- `wiiload.dfy`: the protocol constants, `WiiloadError`, the pure wire
  encoding `Encode`, and a receiver-side reader `Parse` that serves as its
  independent reference. It also holds the class `Link`, standing in for the
  timed `TcpStream` wrapped in a `BufWriter`, and the imperative `Push`,
  `Send` and `CompressThenSend`. These three are proved against `Encode`.

The filename is modelled as its UTF-8 bytes. Rust's `len()` counts bytes. In
UTF-8 a 0 byte only ever encodes U+0000, so `ends_with('\0')` is the same as
"the last byte is 0".

`Link` makes the network deterministic with two constants:

- `listening`: whether `connect_timeout` succeeds;
- `capacity`: how many bytes one connection carries before a write fails.
  This stands for a timeout or a reset.

So every outcome of `push` is pinned down:

- An overflow returns `TryFromIntError` with no connection attempted and the
  link untouched.
- A refused connection returns an I/O error after exactly one attempt.
- A broken link returns an I/O error, and the stream holds exactly the first
  `capacity` bytes of the encoding.
- Otherwise the stream holds the whole encoding, flushed.

The header holds five fields of 4, 2, 1, 4 and 4 bytes: 15 bytes, and the
payload starts at offset 15 (src/lib.rs:56-60).

## Model

| member | source | states |
|---|---|---|
| `Bytes.TryIntoU32` | src/lib.rs:40 | converting a length to `u32` succeeds exactly when it is below 2^32, and keeps the value (no truncation) |
| `Bytes.TryIntoU8` | src/lib.rs:41 | converting a length to `u8` succeeds exactly when it is below 256, and keeps the value |
| `Bytes.BeU32` | src/lib.rs:59-60 | `to_be_bytes` gives 4 bytes that decode back to the number |
| `Bytes.BeU32Digits` | src/lib.rs:59-60 | those 4 bytes are the base-256 digits of the number, most significant first |
| `Bytes.FromBeToBe` | src/lib.rs:59-60 | decoding a k-byte big-endian encoding returns the encoded number |
| `Bytes.ToBeFromBe` | src/lib.rs:59-60 | re-encoding a decoded byte string returns the string, so every 4-byte string is exactly one `u32` |
| `Wiiload.Normalize` | src/lib.rs:35-38 | the filename sent always ends in NUL; it is the input unchanged iff the input already ends in NUL, else the input plus one NUL |
| `Wiiload.NulTerminationIdempotent` | src/lib.rs:35-38 | normalising twice equals normalising once, so "boot.dol" and "boot.dol\0" produce the identical stream |
| `Wiiload.Header` | src/lib.rs:56-60 | the header is 15 bytes: magic "HAXX", version 0 5, the filename length, then payload size and uncompressed size that decode big-endian to the given values |
| `Wiiload.Encode` | src/lib.rs:35-66 | fails with `TryFromIntError` iff the body is 2^32 bytes or more or the normalised filename is 256 bytes or more; otherwise it is the header (filename length counting the NUL, payload size = body length), then the body at offset 15, then the normalised filename at offset 15+len(body), with nothing else |
| `Wiiload.WireLayout` | src/lib.rs:56-66 | each of the seven `write_all` calls lands at its own offset of the encoding: 0, 4, 6, 7, 11, 15 and 15+len(body) |
| `Wiiload.Parse` | src/lib.rs:56-66 | the receiver's reading of a stream accepts only a NUL-terminated filename shorter than 256 bytes and a payload shorter than 2^32 bytes |
| `Wiiload.ParseEncode` | src/lib.rs:56-66 | reading back any successful encoding gives the normalised filename, the body and the uncompressed size |
| `Wiiload.EncodeParse` | src/lib.rs:56-66 | every stream the reader accepts is exactly the encoding of what it reads from it |
| `Wiiload.EncodeInjective` | src/lib.rs:56-66 | two transfers give the same bytes only when normalised filename, payload and uncompressed size all agree |
| `Wiiload.SendWire` | src/lib.rs:73-75 | `send` succeeds iff both sizes fit; its stream reads back with the raw body as payload and uncompressed size 0 |
| `Wiiload.CompressWire` | src/lib.rs:77-89 | `compress_then_send` rejects a body of 2^32 bytes or more; otherwise its stream reads back with the compressed bytes as payload and the original length as uncompressed size |
| `Wiiload.SendAppDol` | src/lib.rs:73-75 | "app.dol" with 100 zero bytes gives `HAXX 00 05 08 00000064 00000000`, the 100 zeros, then "app.dol\0" |
| `Wiiload.Carried` | src/lib.rs:56-68 | what a connection carries is a prefix of what was written: all of it iff it fits the link's capacity, otherwise exactly the first `capacity` bytes |
| `Wiiload.Link.Connect` | src/lib.rs:49 | `connect_timeout` counts one attempt with the given timeout; on success it opens a fresh, empty stream to the address |
| `Wiiload.Link.SetReadTimeout` | src/lib.rs:50 | sets the read timeout |
| `Wiiload.Link.SetWriteTimeout` | src/lib.rs:51 | sets the write timeout |
| `Wiiload.Link.WriteAll` | src/lib.rs:56 | appends all of the data when it fits, otherwise the part that fits, and then reports failure |
| `Wiiload.Link.Flush` | src/lib.rs:68 | every byte written is handed to the socket |
| `Wiiload.OpenStream` | src/lib.rs:48-53 | one connection attempt to (ip, 4299) with the 10 s timeout; on success a fresh, empty stream with 10 s read and write timeouts, otherwise the stream state unchanged |
| `Wiiload.WriteTransfer` | src/lib.rs:55-68 | the write sequence leaves exactly the carried prefix of the encoding on a fresh stream; it succeeds iff the encoding fits, and flushes everything on success and nothing on failure |
| `Wiiload.Push` | src/lib.rs:29-71 | on overflow: `TryFromIntError`, no connection attempted, link unchanged; otherwise one connection to (ip, 4299) with 10 s timeouts, and the stream is `Encode` (flushed, success) or its carried prefix with nothing flushed (I/O error) |
| `Wiiload.Send` | src/lib.rs:73-75 | `push` with uncompressed size 0, as `SendWire` describes |
| `Wiiload.CompressThenSend` | src/lib.rs:77-89 | rejects an oversized body before compressing and without connecting; otherwise `push` of the compressed bytes with the original length, as `CompressWire` describes |

## Left out

- TCP semantics: addresses, the 10-second timers themselves and socket error
  kinds are not modelled. `Link` replaces them with a connect that succeeds or
  not and a byte capacity per connection. The connect timeout and the
  read/write timeouts are recorded as values only.
- `set_read_timeout` and `set_write_timeout` can return an I/O error in Rust.
  The one failure Rust documents, a zero duration, cannot happen, because the
  code passes 10 seconds. Failures of these calls reported by the operating
  system are not modelled. Their outcome, an I/O error with nothing carried,
  is the same as that of a `Link` of capacity 0.
- `BufWriter` buffering: when bytes leave the buffer before `flush` does not
  change their content or order, so `Link.written` is the ordered stream. A
  failing `flush` is folded into the capacity model: the write that crosses
  the capacity fails. The best-effort flush on drop is not modelled.
- DEFLATE compression (the `flate2` encoder at `Compression::best()`) is a
  parameter `deflate: seq<byte> -> seq<byte>` of `CompressThenSend` and
  `CompressWire`. It is a foreign library. The decompression round trip is
  its property, not this code's, so it is not stated.
- The encoder's `write_all` and `finish` write into an in-memory `Vec`. They
  are modelled as infallible.
- `Net` and `Timeout` are in `WiiloadError` only for fidelity. Nothing in
  `src/lib.rs` constructs them. `Io` carries only which step failed, not the
  operating system's error.
- Filenames are arbitrary byte strings. Rust's guarantee that a `String` is
  valid UTF-8 is not enforced, and nothing in this code depends on it.
- src/main.rs (argument parsing, reading the file, choosing the path, exit
  codes) is command-line glue and is not part of this model.
