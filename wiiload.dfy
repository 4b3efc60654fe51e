/** The Wiiload sender: the wire encoding of one transfer (header, payload,
    NUL-terminated filename) and the routine that writes it to a buffered,
    timed TCP stream to the console. */
module Wiiload {
  import opened Wrappers
  import opened Bytes

  const WIILOAD_PORT: nat := 4299
  /** "HAXX" in ASCII. */
  const WIILOAD_MAGIC: seq<byte> := [0x48, 0x41, 0x58, 0x58]
  /** Protocol version 0.5: major, minor. */
  const WIILOAD_VERSION: seq<byte> := [0, 5]
  /** Connect, read and write timeout, in seconds. */
  const WIILOAD_TIMEOUT: nat := 10

  /** magic (4) + version (2) + filename length (1) + payload size (4) + uncompressed size (4). */
  const HEADER_LEN: nat := 15
  const NUL: byte := 0

  datatype IoErrorKind = ConnectFailed | WriteFailed

  datatype WiiloadError =
    | Io(kind: IoErrorKind)
    | Net
    | Timeout
    | TryFromIntError

  datatype Ipv4Addr = Ipv4Addr(a: u8, b: u8, c: u8, d: u8)
  datatype SocketAddr = SocketAddr(ip: Ipv4Addr, port: nat)

  // ---------------------------------------------------------------------------
  // The wire format

  predicate EndsWithNul(s: seq<byte>) {
    |s| > 0 && s[|s| - 1] == NUL
  }

  /** The filename as sent: NUL-terminated, with a NUL appended only when
      it is not already there. */
  function Normalize(filename: seq<byte>): (r: seq<byte>)
    ensures EndsWithNul(r)
    ensures r[..|r| - 1] == filename || r == filename
    ensures r == filename <==> EndsWithNul(filename)
  {
    if EndsWithNul(filename) then filename else filename + [NUL]
  }

  /** The fixed-size header that precedes the payload. */
  function Header(filenameLen: u8, compressedSize: u32, uncompressedSize: u32): (r: seq<byte>)
    ensures |r| == HEADER_LEN
    ensures r[..4] == WIILOAD_MAGIC && r[4..6] == WIILOAD_VERSION && r[6] == filenameLen
    ensures FromBe(r[7..11]) == compressedSize && FromBe(r[11..15]) == uncompressedSize
  {
    var r := WIILOAD_MAGIC + WIILOAD_VERSION + [filenameLen] + BeU32(compressedSize) + BeU32(uncompressedSize);
    assert r[7..11] == BeU32(compressedSize) && r[11..15] == BeU32(uncompressedSize);
    r
  }

  /** Everything `push` writes for one transfer, or the overflow error it
      returns before connecting. */
  function Encode(filename: seq<byte>, body: seq<byte>, uncompressedSize: u32): (r: Result<seq<byte>, WiiloadError>)
    ensures r.Failure? <==> |body| >= U32_LIMIT || |Normalize(filename)| >= U8_LIMIT
    ensures r.Failure? ==> r.error == TryFromIntError
    ensures r.Success? ==>
      var name := Normalize(filename);
      && |r.value| == HEADER_LEN + |body| + |name|
      && r.value[..HEADER_LEN] == Header(|name|, |body|, uncompressedSize)
      && r.value[HEADER_LEN..HEADER_LEN + |body|] == body
      && r.value[HEADER_LEN + |body|..] == name
  {
    var name := Normalize(filename);
    match (TryIntoU32(|body|), TryIntoU8(|name|))
    case (Success(compressedSize), Success(filenameLen)) =>
      var wire := Header(filenameLen, compressedSize, uncompressedSize) + body + name;
      assert wire[HEADER_LEN..HEADER_LEN + |body|] == body;
      Success(wire)
    case _ => Failure(TryFromIntError)
  }

  /** One transfer as the receiving console sees it. */
  datatype Transfer = Transfer(filename: seq<byte>, payload: seq<byte>, uncompressedSize: u32)

  /** The receiver's reading of a complete Wiiload byte stream: the header
      fields, then exactly `payload size` payload bytes, then exactly
      `filename length` filename bytes ending in NUL. */
  function Parse(wire: seq<byte>): (r: Option<Transfer>)
    ensures r.Some? ==> EndsWithNul(r.value.filename) && |r.value.filename| < U8_LIMIT
    ensures r.Some? ==> |r.value.payload| < U32_LIMIT
  {
    if |wire| < HEADER_LEN || wire[..4] != WIILOAD_MAGIC || wire[4..6] != WIILOAD_VERSION then None
    else
      var filenameLen := wire[6];
      var payloadSize := FromBe(wire[7..11]);
      var uncompressedSize := FromBe(wire[11..15]);
      if |wire| != HEADER_LEN + payloadSize + filenameLen then None
      else
        var filename := wire[HEADER_LEN + payloadSize..];
        if !EndsWithNul(filename) then None
        else Some(Transfer(filename, wire[HEADER_LEN..HEADER_LEN + payloadSize], uncompressedSize))
  }

  /** The receiver recovers the normalised filename, the payload and the
      uncompressed size from every stream `push` produces. */
  lemma ParseEncode(filename: seq<byte>, body: seq<byte>, uncompressedSize: u32)
    requires Encode(filename, body, uncompressedSize).Success?
    ensures Parse(Encode(filename, body, uncompressedSize).value)
         == Some(Transfer(Normalize(filename), body, uncompressedSize))
  {
    var wire := Encode(filename, body, uncompressedSize).value;
    var name := Normalize(filename);
    var header := Header(|name|, |body|, uncompressedSize);
    assert wire[..4] == header[..4];
    assert wire[4..6] == header[4..6];
    assert wire[7..11] == header[7..11];
    assert wire[11..15] == header[11..15];
  }

  /** Conversely, every stream the receiver accepts is exactly what `push`
      writes for the transfer it reads out of it: the encoding is onto the
      well-formed streams, and nothing else is ever sent. */
  lemma EncodeParse(wire: seq<byte>)
    requires Parse(wire).Some?
    ensures var t := Parse(wire).value;
      Encode(t.filename, t.payload, t.uncompressedSize) == Success(wire)
  {
    var t := Parse(wire).value;
    var out := Encode(t.filename, t.payload, t.uncompressedSize);
    assert out.Success?;
    var header := Header(|t.filename|, |t.payload|, t.uncompressedSize);
    ToBeFromBe(wire[7..11]);
    ToBeFromBe(wire[11..15]);
    assert header == wire[..4] + wire[4..6] + [wire[6]] + wire[7..11] + wire[11..15];
    assert wire[..HEADER_LEN] == header;
    assert wire == wire[..HEADER_LEN] + t.payload + t.filename;
  }

  /** Two transfers put the same bytes on the wire only when they agree on
      normalised filename, payload and uncompressed size. */
  lemma EncodeInjective(f1: seq<byte>, b1: seq<byte>, u1: u32, f2: seq<byte>, b2: seq<byte>, u2: u32)
    requires Encode(f1, b1, u1).Success? && Encode(f1, b1, u1) == Encode(f2, b2, u2)
    ensures Normalize(f1) == Normalize(f2) && b1 == b2 && u1 == u2
  {
    ParseEncode(f1, b1, u1);
    ParseEncode(f2, b2, u2);
  }

  /** Normalisation is idempotent, so "boot.dol" and "boot.dol\0" are sent
      byte for byte alike: exactly one trailing NUL, never two. */
  lemma NulTerminationIdempotent(filename: seq<byte>, body: seq<byte>, uncompressedSize: u32)
    ensures Normalize(Normalize(filename)) == Normalize(filename)
    ensures Encode(Normalize(filename), body, uncompressedSize) == Encode(filename, body, uncompressedSize)
    ensures !EndsWithNul(filename) ==>
      Encode(filename + [NUL], body, uncompressedSize) == Encode(filename, body, uncompressedSize)
  {
  }

  /** The stream `send` produces: uncompressed size 0. */
  function SendWire(filename: seq<byte>, body: seq<byte>): (r: Result<seq<byte>, WiiloadError>)
    ensures r.Success? <==> |body| < U32_LIMIT && |Normalize(filename)| < U8_LIMIT
    ensures r.Failure? ==> r.error == TryFromIntError
    ensures r.Success? ==> Parse(r.value) == Some(Transfer(Normalize(filename), body, 0))
  {
    var r := Encode(filename, body, 0);
    if r.Success? then ParseEncode(filename, body, 0); r else r
  }

  /** The stream `compress_then_send` produces: the compressed body as
      payload and the original length as uncompressed size. */
  function CompressWire(filename: seq<byte>, body: seq<byte>, deflate: seq<byte> -> seq<byte>): (r: Result<seq<byte>, WiiloadError>)
    ensures r.Success? <==> |body| < U32_LIMIT && |deflate(body)| < U32_LIMIT && |Normalize(filename)| < U8_LIMIT
    ensures r.Failure? ==> r.error == TryFromIntError
    ensures r.Success? ==> Parse(r.value) == Some(Transfer(Normalize(filename), deflate(body), |body|))
  {
    match TryIntoU32(|body|)
    case Failure(_) => Failure(TryFromIntError)
    case Success(uncompressedSize) =>
      var r := Encode(filename, deflate(body), uncompressedSize);
      if r.Success? then ParseEncode(filename, deflate(body), uncompressedSize); r else r
  }

  /** "app.dol" in ASCII, without its NUL. */
  const APP_DOL: seq<byte> := [0x61, 0x70, 0x70, 0x2e, 0x64, 0x6f, 0x6c]

  /** `send` of "app.dol" with a body of 100 zero bytes: filename length 8,
      payload size 0x64, uncompressed size 0, the body, then "app.dol\0". */
  lemma SendAppDol(body: seq<byte>)
    requires |body| == 100 && forall i :: 0 <= i < |body| ==> body[i] == 0
    ensures SendWire(APP_DOL, body)
         == Success([0x48, 0x41, 0x58, 0x58, 0x00, 0x05, 0x08, 0x00, 0x00, 0x00, 0x64, 0x00, 0x00, 0x00, 0x00]
                    + body + [0x61, 0x70, 0x70, 0x2e, 0x64, 0x6f, 0x6c, 0x00])
  {
    var name := Normalize(APP_DOL);
    assert name == APP_DOL + [NUL];
    BeU32Digits(100);
    BeU32Digits(0);
    var header := Header(8, 100, 0);
    assert header == [0x48, 0x41, 0x58, 0x58, 0x00, 0x05, 0x08, 0x00, 0x00, 0x00, 0x64, 0x00, 0x00, 0x00, 0x00];
    assert TryIntoU32(|body|) == Success(100) && TryIntoU8(|name|) == Success(8);
    assert Encode(APP_DOL, body, 0) == Success(header + body + name);
    assert SendWire(APP_DOL, body) == Success(header + body + name);
    assert name == [0x61, 0x70, 0x70, 0x2e, 0x64, 0x6f, 0x6c, 0x00];
  }

  /** The bytes a connection carries when `wire` is written to it and the
      link fails after `capacity` bytes. */
  function Carried(wire: seq<byte>, capacity: nat): (r: seq<byte>)
    ensures |r| <= capacity && r <= wire
    ensures r == wire <==> |wire| <= capacity
    ensures |wire| > capacity ==> r == wire[..capacity]
  {
    if |wire| <= capacity then wire else wire[..capacity]
  }

  // ---------------------------------------------------------------------------
  // The sender

  /** The TCP path to the console together with the `BufWriter` over it.
      `listening` says whether `connect_timeout` succeeds; `capacity` is how
      many bytes one connection carries before a write fails (a timeout or a
      reset); `written` is the byte stream of the latest connection, in order. */
  class Link {
    const listening: bool
    const capacity: nat
    var connects: nat
    var connectTimeout: Option<nat>
    var addr: Option<SocketAddr>
    var readTimeout: Option<nat>
    var writeTimeout: Option<nat>
    var written: seq<byte>
    var flushed: nat

    ghost predicate Valid()
      reads this
    {
      |written| <= capacity && flushed <= |written|
    }

    constructor (listening: bool, capacity: nat)
      ensures Valid()
      ensures this.listening == listening && this.capacity == capacity
      ensures connects == 0 && connectTimeout == None && addr == None
      ensures readTimeout == None && writeTimeout == None
      ensures written == [] && flushed == 0
    {
      this.listening := listening;
      this.capacity := capacity;
      connects := 0;
      connectTimeout := None;
      addr := None;
      readTimeout := None;
      writeTimeout := None;
      written := [];
      flushed := 0;
    }

    /** `TcpStream::connect_timeout`: a fresh, empty stream on success. */
    method Connect(to: SocketAddr, timeout: nat) returns (ok: bool)
      requires Valid()
      modifies this
      ensures Valid()
      ensures ok == listening
      ensures connects == old(connects) + 1 && connectTimeout == Some(timeout)
      ensures ok ==> addr == Some(to) && readTimeout == None && writeTimeout == None
                     && written == [] && flushed == 0
      ensures !ok ==> addr == old(addr) && readTimeout == old(readTimeout) && writeTimeout == old(writeTimeout)
                      && written == old(written) && flushed == old(flushed)
    {
      connects := connects + 1;
      connectTimeout := Some(timeout);
      ok := listening;
      if ok {
        addr := Some(to);
        readTimeout := None;
        writeTimeout := None;
        written := [];
        flushed := 0;
      }
    }

    method SetReadTimeout(seconds: nat)
      modifies this`readTimeout
      ensures readTimeout == Some(seconds)
    {
      readTimeout := Some(seconds);
    }

    method SetWriteTimeout(seconds: nat)
      modifies this`writeTimeout
      ensures writeTimeout == Some(seconds)
    {
      writeTimeout := Some(seconds);
    }

    /** `write_all`: all of `data`, or the part that fits before the link
        fails and an I/O error. */
    method WriteAll(data: seq<byte>) returns (ok: bool)
      requires Valid()
      modifies this`written
      ensures Valid()
      ensures ok <==> |old(written)| + |data| <= capacity
      ensures written == old(written) + Carried(data, capacity - |old(written)|)
    {
      ok := |written| + |data| <= capacity;
      written := written + Carried(data, capacity - |written|);
    }

    /** `flush`: every buffered byte is handed to the socket. */
    method Flush()
      requires Valid()
      modifies this`flushed
      ensures Valid()
      ensures flushed == |written|
    {
      flushed := |written|;
    }
  }

  /** What `push` leaves behind, given the stream it would write: nothing at
      all on an overflow; one connection attempt otherwise; and, once
      connected, the timeouts set and the part of `wire` the link carried. */
  twostate predicate Pushed(link: Link, encoded: Result<seq<byte>, WiiloadError>, ip: Ipv4Addr, new r: Outcome<WiiloadError>)
    reads link
  {
    match encoded
    case Failure(e) =>
      && r == Fail(e)
      && link.connects == old(link.connects) && link.connectTimeout == old(link.connectTimeout)
      && link.addr == old(link.addr) && link.written == old(link.written) && link.flushed == old(link.flushed)
      && link.readTimeout == old(link.readTimeout) && link.writeTimeout == old(link.writeTimeout)
    case Success(wire) =>
      && link.connects == old(link.connects) + 1
      && link.connectTimeout == Some(WIILOAD_TIMEOUT)
      && (if !link.listening then
            && r == Fail(Io(ConnectFailed))
            && link.addr == old(link.addr) && link.written == old(link.written) && link.flushed == old(link.flushed)
            && link.readTimeout == old(link.readTimeout) && link.writeTimeout == old(link.writeTimeout)
          else
            && link.addr == Some(SocketAddr(ip, WIILOAD_PORT))
            && link.readTimeout == Some(WIILOAD_TIMEOUT) && link.writeTimeout == Some(WIILOAD_TIMEOUT)
            && link.written == Carried(wire, link.capacity)
            && (r == Pass <==> |wire| <= link.capacity)
            && (r == Pass ==> link.flushed == |wire|)
            && (r != Pass ==> r == Fail(Io(WriteFailed)) && link.flushed == 0))
  }

  /** Appending a piece that continues `wire` after its first `done` bytes,
      cut short at `k` bytes, extends the carried prefix. */
  lemma PrefixStep(wire: seq<byte>, done: nat, piece: seq<byte>, k: nat)
    requires done + |piece| <= |wire| && wire[done..done + |piece|] == piece && k <= |piece|
    ensures wire[..done] + piece[..k] == wire[..done + k]
  {
    assert piece[..k] == wire[done..done + k];
  }

  /** Where each `write_all` of `push` lands in the stream. */
  lemma WireLayout(filename: seq<byte>, body: seq<byte>, uncompressedSize: u32)
    requires Encode(filename, body, uncompressedSize).Success?
    ensures var wire := Encode(filename, body, uncompressedSize).value;
      var name := Normalize(filename);
      && wire[0..4] == WIILOAD_MAGIC
      && wire[4..6] == WIILOAD_VERSION
      && wire[6..7] == [|name| as u8]
      && wire[7..11] == BeU32(|body|)
      && wire[11..15] == BeU32(uncompressedSize)
      && wire[HEADER_LEN..HEADER_LEN + |body|] == body
      && wire[HEADER_LEN + |body|..HEADER_LEN + |body| + |name|] == name
  {
    var wire := Encode(filename, body, uncompressedSize).value;
    var name := Normalize(filename);
    var header := Header(|name|, |body|, uncompressedSize);
    assert header == WIILOAD_MAGIC + WIILOAD_VERSION + [|name|] + BeU32(|body|) + BeU32(uncompressedSize);
    assert wire[..HEADER_LEN] == header;
  }

  /** `push`: normalise the filename, check both sizes, connect, then write
      header, payload and filename in that order and flush. */
  method Push(filename: seq<byte>, body: seq<byte>, ip: Ipv4Addr, uncompressedSize: u32, link: Link)
    returns (r: Outcome<WiiloadError>)
    requires link.Valid()
    modifies link
    ensures link.Valid()
    ensures Pushed(link, Encode(filename, body, uncompressedSize), ip, r)
  {
    var name := filename;
    if !EndsWithNul(name) {
      name := name + [NUL];
    }
    assert name == Normalize(filename);
    ghost var encoded := Encode(filename, body, uncompressedSize);

    if |body| >= U32_LIMIT {
      assert encoded == Failure(TryFromIntError);
      return Fail(TryFromIntError);
    }
    var compressedSize: u32 := |body|;
    if |name| >= U8_LIMIT {
      assert encoded == Failure(TryFromIntError);
      return Fail(TryFromIntError);
    }
    var filenameLen: u8 := |name|;
    assert encoded.Success?;

    var ok := OpenStream(ip, link);
    if !ok {
      return Fail(Io(ConnectFailed));
    }

    ghost var wire := encoded.value;
    WireLayout(filename, body, uncompressedSize);
    ok := WriteTransfer(link, wire, filenameLen, compressedSize, uncompressedSize, body, name);
    if !ok {
      return Fail(Io(WriteFailed));
    }
    return Pass;
  }

  /** The connection block of `push`: connect to (ip, 4299) with the 10 s
      timeout, then set the read and write timeouts on the new stream. */
  method OpenStream(ip: Ipv4Addr, link: Link) returns (ok: bool)
    requires link.Valid()
    modifies link
    ensures link.Valid()
    ensures ok == link.listening
    ensures link.connects == old(link.connects) + 1 && link.connectTimeout == Some(WIILOAD_TIMEOUT)
    ensures ok ==> && link.addr == Some(SocketAddr(ip, WIILOAD_PORT))
                   && link.readTimeout == Some(WIILOAD_TIMEOUT) && link.writeTimeout == Some(WIILOAD_TIMEOUT)
                   && link.written == [] && link.flushed == 0
    ensures !ok ==> && link.addr == old(link.addr) && link.written == old(link.written) && link.flushed == old(link.flushed)
                    && link.readTimeout == old(link.readTimeout) && link.writeTimeout == old(link.writeTimeout)
  {
    ok := link.Connect(SocketAddr(ip, WIILOAD_PORT), WIILOAD_TIMEOUT);
    if ok {
      link.SetReadTimeout(WIILOAD_TIMEOUT);
      link.SetWriteTimeout(WIILOAD_TIMEOUT);
    }
  }

  /** The `write_all` calls of `push` on a fresh connection, header field by
      header field, then the payload, then the filename, and the final
      `flush`; the first write the link cannot carry stops the sequence. */
  method WriteTransfer(link: Link, ghost wire: seq<byte>, filenameLen: u8, compressedSize: u32, uncompressedSize: u32,
                       body: seq<byte>, name: seq<byte>) returns (ok: bool)
    requires link.Valid() && link.written == []
    requires |wire| == HEADER_LEN + |body| + |name|
    requires wire[0..4] == WIILOAD_MAGIC && wire[4..6] == WIILOAD_VERSION && wire[6..7] == [filenameLen]
    requires wire[7..11] == BeU32(compressedSize) && wire[11..15] == BeU32(uncompressedSize)
    requires wire[HEADER_LEN..HEADER_LEN + |body|] == body
    requires wire[HEADER_LEN + |body|..HEADER_LEN + |body| + |name|] == name
    modifies link`written, link`flushed
    ensures link.Valid()
    ensures link.written == Carried(wire, link.capacity)
    ensures ok <==> |wire| <= link.capacity
    ensures ok ==> link.flushed == |wire|
    ensures !ok ==> link.flushed == old(link.flushed)
  {
    ok := WritePiece(link, wire, 0, WIILOAD_MAGIC);
    if !ok { return; }
    ok := WritePiece(link, wire, 4, WIILOAD_VERSION);
    if !ok { return; }
    ok := WritePiece(link, wire, 6, [filenameLen]);
    if !ok { return; }
    ok := WritePiece(link, wire, 7, BeU32(compressedSize));
    if !ok { return; }
    ok := WritePiece(link, wire, 11, BeU32(uncompressedSize));
    if !ok { return; }

    ok := WritePiece(link, wire, HEADER_LEN, body);
    if !ok { return; }

    ok := WritePiece(link, wire, HEADER_LEN + |body|, name);
    if !ok { return; }

    assert link.written == wire;
    link.Flush();
  }

  /** One `write_all` of `piece`, which sits at offset `done` of `wire`, on a
      link that has carried the first `done` bytes of `wire` so far. */
  method WritePiece(link: Link, ghost wire: seq<byte>, ghost done: nat, piece: seq<byte>) returns (ok: bool)
    requires link.Valid()
    requires done + |piece| <= |wire| && wire[done..done + |piece|] == piece
    requires link.written == wire[..done]
    modifies link`written
    ensures link.Valid()
    ensures ok <==> done + |piece| <= link.capacity
    ensures ok ==> link.written == wire[..done + |piece|]
    ensures !ok ==> link.written == Carried(wire, link.capacity)
  {
    ok := link.WriteAll(piece);
    PrefixStep(wire, done, piece, |link.written| - done);
  }

  /** `send`: push the body as it is, with uncompressed size 0. */
  method Send(filename: seq<byte>, body: seq<byte>, ip: Ipv4Addr, link: Link) returns (r: Outcome<WiiloadError>)
    requires link.Valid()
    modifies link
    ensures link.Valid()
    ensures Pushed(link, SendWire(filename, body), ip, r)
  {
    r := Push(filename, body, ip, 0, link);
  }

  /** `compress_then_send`: check that the body's length fits a `u32`,
      compress it, and push the compressed bytes with the original length as
      uncompressed size. `deflate` stands for the DEFLATE encoder. */
  method CompressThenSend(filename: seq<byte>, body: seq<byte>, ip: Ipv4Addr, link: Link, deflate: seq<byte> -> seq<byte>)
    returns (r: Outcome<WiiloadError>)
    requires link.Valid()
    modifies link
    ensures link.Valid()
    ensures Pushed(link, CompressWire(filename, body, deflate), ip, r)
  {
    if |body| >= U32_LIMIT {
      return Fail(TryFromIntError);
    }
    var uncompressedSize: u32 := |body|;
    var compressedBody := deflate(body);
    r := Push(filename, compressedBody, ip, uncompressedSize, link);
  }
}
