/** The encapsulation layer: the 24-byte header (pkg/eip/header.go), frames,
    and the client's framing over a byte stream (pkg/transport/tcp.go).
 */
module Encap {
  import opened Bytes

  const HEADER_SIZE := 24

  const REGISTER_SESSION: U16 := 0x0065
  const UNREGISTER_SESSION: U16 := 0x0066
  const SEND_RR_DATA: U16 := 0x006F
  const SEND_UNIT_DATA: U16 := 0x0070

  const STATUS_SUCCESS: U32 := 0x0000
  const STATUS_FAIL: U32 := 0x0001

  type Context = c: seq<Byte> | |c| == 8 witness [0, 0, 0, 0, 0, 0, 0, 0]

  datatype Header = Header(
    command: U16,
    length: U16,
    session: U32,
    status: U32,
    context: Context,
    options: U32)

  /** A header and the bytes sent after it; `header.length` is what the header
      claims, the body is what was really written.
   */
  datatype Frame = Frame(header: Header, body: seq<Byte>)

  function EncodedHeader(h: Header): (b: seq<Byte>)
    ensures |b| == HEADER_SIZE
  {
    Put16(h.command) + Put16(h.length) + Put32(h.session) + Put32(h.status) + h.context + Put32(h.options)
  }

  function HeaderOf(b: seq<Byte>): Header
    requires HEADER_SIZE <= |b|
  {
    Header(Get16(b, 0), Get16(b, 2), Get32(b, 4), Get32(b, 8), b[12..20], Get32(b, 20))
  }

  function EncodedFrame(f: Frame): seq<Byte> {
    EncodedHeader(f.header) + f.body
  }

  predicate Exact(f: Frame) {
    f.header.length == |f.body|
  }

  /** The complete frame at the start of a stream, if there is one. */
  function FirstFrame(b: seq<Byte>): Option<Frame> {
    if |b| < HEADER_SIZE || |b| < HEADER_SIZE + HeaderOf(b).length then None
    else Some(Frame(HeaderOf(b), b[HEADER_SIZE..HEADER_SIZE + HeaderOf(b).length]))
  }

  lemma HeaderOfEncoded(h: Header, rest: seq<Byte>)
    ensures HeaderOf(EncodedHeader(h) + rest) == h
  {
    var b := EncodedHeader(h) + rest;
    assert b[0..2] == Put16(h.command);
    assert b[2..4] == Put16(h.length);
    assert b[4..8] == Put32(h.session);
    assert b[8..12] == Put32(h.status);
    assert b[12..20] == h.context;
    assert b[20..24] == Put32(h.options);
    GetPut16(b, 0, h.command);
    GetPut16(b, 2, h.length);
    GetPut32(b, 4, h.session);
    GetPut32(b, 8, h.status);
    GetPut32(b, 20, h.options);
  }

  lemma EncodedOfHeader(b: seq<Byte>)
    requires HEADER_SIZE <= |b|
    ensures EncodedHeader(HeaderOf(b)) == b[..HEADER_SIZE]
  {
    PutGet16(b, 0);
    PutGet16(b, 2);
    PutGet32(b, 4);
    PutGet32(b, 8);
    PutGet32(b, 20);
    assert b[..24] == b[0..2] + b[2..4] + b[4..8] + b[8..12] + b[12..20] + b[20..24];
  }

  /** An exact frame is read back whole, and what follows it is left. */
  lemma FirstFrameOfEncoded(f: Frame, rest: seq<Byte>)
    requires Exact(f)
    ensures FirstFrame(EncodedFrame(f) + rest) == Some(f)
    ensures (EncodedFrame(f) + rest)[HEADER_SIZE + |f.body|..] == rest
  {
    var b := EncodedFrame(f) + rest;
    assert b == EncodedHeader(f.header) + (f.body + rest);
    HeaderOfEncoded(f.header, f.body + rest);
    assert b[HEADER_SIZE..HEADER_SIZE + |f.body|] == f.body;
  }

  /** A frame that was read is exact and encodes to the bytes it was read from. */
  lemma EncodedOfFirstFrame(b: seq<Byte>)
    requires FirstFrame(b).Some?
    ensures var f := FirstFrame(b).value;
            Exact(f) && HEADER_SIZE + |f.body| <= |b| && EncodedFrame(f) + b[HEADER_SIZE + |f.body|..] == b
  {
    EncodedOfHeader(b);
    var f := FirstFrame(b).value;
    assert b == b[..HEADER_SIZE] + f.body + b[HEADER_SIZE + |f.body|..];
  }

  /** One TCP connection as the two byte streams in flight on it. */
  class Wire {
    var toServer: seq<Byte>
    var toClient: seq<Byte>

    constructor ()
      ensures toServer == [] && toClient == []
    {
      toServer, toClient := [], [];
    }
  }

  function RequestFrame(command: U16, data: seq<Byte>, session: U32): Frame {
    Frame(Header(command, Low16(|data|), session, 0, Zeros(8), 0), data)
  }

  class TcpTransport {
    const wire: Wire

    constructor (wire: Wire)
      ensures this.wire == wire
    {
      this.wire := wire;
    }

    method Send(command: U16, data: seq<Byte>, session: U32)
      modifies wire
      ensures wire.toServer == old(wire.toServer) + EncodedFrame(RequestFrame(command, data, session))
      ensures wire.toClient == old(wire.toClient)
    {
      var header := Header(command, Low16(|data|), session, 0, Zeros(8), 0);
      wire.toServer := wire.toServer + EncodedHeader(header);
      if |data| > 0 {
        wire.toServer := wire.toServer + data;
      }
    }

    /** None stands for the read error at the end of the stream. */
    method Receive() returns (r: Option<Frame>)
      modifies wire
      ensures wire.toServer == old(wire.toServer)
      ensures r == FirstFrame(old(wire.toClient))
      ensures r.Some? ==> wire.toClient == old(wire.toClient)[HEADER_SIZE + |r.value.body|..]
    {
      if |wire.toClient| < HEADER_SIZE { return None; }
      var header := HeaderOf(wire.toClient);
      wire.toClient := wire.toClient[HEADER_SIZE..];
      var data: seq<Byte> := [];
      if header.length > 0 {
        if |wire.toClient| < header.length { return None; }
        data := wire.toClient[..header.length];
        wire.toClient := wire.toClient[header.length..];
      }
      assert data == old(wire.toClient)[HEADER_SIZE..HEADER_SIZE + header.length];
      r := Some(Frame(header, data));
    }
  }
}
