/** The adapter's TCP side (pkg/server/server.go): the frame loop and the two
    handlers that unwrap a request, dispatch it and wrap the reply.
 */
module Server {
  import opened Bytes
  import opened Cip
  import opened Encap
  import opened Message
  import opened Router
  import Cpf

  const MAX_PACKET_SIZE: U16 := 4096
  const SESSION_HANDLE: U32 := 0x01020304

  // ---------- the two handlers ----------

  /** A handler's body (None when it returns an error) and what it left. */
  datatype Handling = Handling(body: Option<seq<Byte>>, registry: Registry)

  /** Decode a request, dispatch it, encode the reply. */
  function Answer(reg: Registry, pdu: seq<Byte>): Handling {
    match DecodedRequest(pdu)
    case None => Handling(None, reg)
    case Some(req) =>
      var d := DispatchOf(reg, req);
      match d.reply
      case Err(_) => Handling(None, d.registry)
      case Ok(response) => Handling(Some(EncodedResponse(response)), d.registry)
  }

  /** Interface handle and timeout, both zero, then the packet. */
  function Wrapped(first: Cpf.Item, second: Cpf.Item): seq<Byte> {
    Zeros(6) + Cpf.Encoded(Cpf.NewPacket([first, second]))
  }

  function RRBody(pdu: seq<Byte>): seq<Byte> {
    Wrapped(Cpf.NewItem(Cpf.NULL_ADDRESS, []), Cpf.NewItem(Cpf.UNCONNECTED_MESSAGE, pdu))
  }

  function UnitBody(address: seq<Byte>, sequence: U16, pdu: seq<Byte>): seq<Byte> {
    Wrapped(Cpf.NewItem(Cpf.CONNECTED_ADDRESS, address), Cpf.NewItem(Cpf.CONNECTED_DATA, Put16(sequence) + pdu))
  }

  function ItemOf(data: seq<Byte>, typeId: U16): Option<Cpf.Item> {
    if |data| < 6 then None
    else
      match Cpf.Decoded(data[6..])
      case None => None
      case Some(packet) => Cpf.FirstOfType(packet.items, typeId)
  }

  function RRHandling(reg: Registry, data: seq<Byte>): Handling {
    match ItemOf(data, Cpf.UNCONNECTED_MESSAGE)
    case None => Handling(None, reg)
    case Some(item) =>
      var h := Answer(reg, item.data);
      if h.body.None? then h else h.(body := Some(RRBody(h.body.value)))
  }

  function UnitHandling(reg: Registry, data: seq<Byte>): Handling {
    var address, item := ItemOf(data, Cpf.CONNECTED_ADDRESS), ItemOf(data, Cpf.CONNECTED_DATA);
    if address.None? || item.None? || |address.value.data| < 4 || |item.value.data| < 2 then Handling(None, reg)
    else
      var h := Answer(reg, item.value.data[2..]);
      if h.body.None? then h
      else h.(body := Some(UnitBody(address.value.data, Get16(item.value.data, 0), h.body.value)))
  }

  // ---------- one frame, then a stream of them ----------

  datatype Served = Served(reply: Frame, registry: Registry)

  function ReplyFrame(request: Header, session: U32, status: U32, body: seq<Byte>): Frame {
    Frame(Header(request.command, Low16(|body|), session, status, request.context, 0), body)
  }

  function ReplyTo(request: Header, h: Handling): Served {
    match h.body
    case None => Served(ReplyFrame(request, request.session, STATUS_FAIL, []), h.registry)
    case Some(body) => Served(ReplyFrame(request, request.session, STATUS_SUCCESS, body), h.registry)
  }

  function Serve(reg: Registry, f: Frame): Served {
    if f.header.command == REGISTER_SESSION then
      Served(ReplyFrame(f.header, SESSION_HANDLE, STATUS_SUCCESS, Put16(1) + Put16(0)), reg)
    else if f.header.command == SEND_RR_DATA then ReplyTo(f.header, RRHandling(reg, f.body))
    else if f.header.command == SEND_UNIT_DATA then ReplyTo(f.header, UnitHandling(reg, f.body))
    else ReplyTo(f.header, Handling(None, reg))
  }

  /** The frames that get a reply: whole, not too large, not an Unregister. */
  predicate Answerable(f: Frame) {
    Exact(f) && f.header.length <= MAX_PACKET_SIZE && f.header.command != UNREGISTER_SESSION
  }

  /** The stream holds no answerable frame at its start. */
  predicate Stuck(b: seq<Byte>) {
    FirstFrame(b).Some? ==> !Answerable(FirstFrame(b).value)
  }

  /** A whole connection: the bytes sent, the state reached, the bytes left. */
  datatype Streamed = Streamed(output: seq<Byte>, registry: Registry, unread: seq<Byte>)

  function ServeStream(reg: Registry, b: seq<Byte>): Streamed
    decreases |b|
  {
    if Stuck(b) then Streamed([], reg, b)
    else
      var f := FirstFrame(b).value;
      var s := Serve(reg, f);
      var rest := ServeStream(s.registry, b[HEADER_SIZE + |f.body|..]);
      rest.(output := EncodedFrame(s.reply) + rest.output)
  }

  // ---------- the server ----------

  class Server {
    const router: MessageRouter

    constructor (router: MessageRouter)
      ensures this.router == router
    {
      this.router := router;
    }

    method DispatchPdu(pdu: seq<Byte>) returns (r: Option<seq<Byte>>)
      requires router.Valid()
      modifies router.Repr
      ensures router.Valid()
      ensures Handling(r, router.View()) == Answer(old(router.View()), pdu)
    {
      hide MessageRouter.View, DispatchOf;
      var req := DecodeRequest(pdu);
      if req.None? { return None; }
      var resp := router.Dispatch(req.value);
      if resp.Err? { return None; }
      var buf := EncodeResponse(resp.value);
      r := Some(buf);
    }

    /** The reply body both handlers end with. */
    method Wrap(first: Cpf.Item, second: Cpf.Item) returns (body: seq<Byte>)
      ensures body == Wrapped(first, second)
    {
      var respCpf := Cpf.Encode(Cpf.NewPacket([first, second]));
      body := Zeros(6) + respCpf;
    }

    method HandleSendRRData(data: seq<Byte>) returns (r: Option<seq<Byte>>)
      requires router.Valid()
      modifies router.Repr
      ensures router.Valid()
      ensures Handling(r, router.View()) == RRHandling(old(router.View()), data)
    {
      hide MessageRouter.View, DispatchOf;
      if |data| < 6 { return None; }
      var cpf := Cpf.Decode(data[6..]);
      if cpf.None? { return None; }
      var item := Cpf.FindItemByType(cpf.value, Cpf.UNCONNECTED_MESSAGE);
      if item.None? { return None; }
      var response := DispatchPdu(item.value.data);
      if response.None? { return None; }
      var body := Wrap(Cpf.NewItem(Cpf.NULL_ADDRESS, []), Cpf.NewItem(Cpf.UNCONNECTED_MESSAGE, response.value));
      r := Some(body);
    }

    method HandleSendUnitData(data: seq<Byte>) returns (r: Option<seq<Byte>>)
      requires router.Valid()
      modifies router.Repr
      ensures router.Valid()
      ensures Handling(r, router.View()) == UnitHandling(old(router.View()), data)
    {
      hide MessageRouter.View, DispatchOf;
      if |data| < 6 { return None; }
      var cpf := Cpf.Decode(data[6..]);
      if cpf.None? { return None; }
      var addrItem := Cpf.FindItemByType(cpf.value, Cpf.CONNECTED_ADDRESS);
      if addrItem.None? || |addrItem.value.data| < 4 { return None; }
      var dataItem := Cpf.FindItemByType(cpf.value, Cpf.CONNECTED_DATA);
      if dataItem.None? || |dataItem.value.data| < 2 { return None; }
      var response := DispatchPdu(dataItem.value.data[2..]);
      if response.None? { return None; }
      var seqCount := Get16(dataItem.value.data, 0);
      var body := Wrap(Cpf.NewItem(Cpf.CONNECTED_ADDRESS, addrItem.value.data),
                       Cpf.NewItem(Cpf.CONNECTED_DATA, Put16(seqCount) + response.value));
      r := Some(body);
    }

    method HandleFrame(header: Header, data: seq<Byte>) returns (reply: Frame)
      requires router.Valid()
      requires header.command != UNREGISTER_SESSION
      modifies router.Repr
      ensures router.Valid()
      ensures Served(reply, router.View()) == Serve(old(router.View()), Frame(header, data))
    {
      var session, status := header.session, STATUS_SUCCESS;
      var respData: Option<seq<Byte>> := None;
      if header.command == REGISTER_SESSION {
        session := SESSION_HANDLE;
        respData := Some(Put16(1) + Put16(0));
      } else if header.command == SEND_RR_DATA {
        respData := HandleSendRRData(data);
      } else if header.command == SEND_UNIT_DATA {
        respData := HandleSendUnitData(data);
      }
      if respData.None? {
        status := STATUS_FAIL;
        respData := Some([]);
      }
      reply := Frame(
        Header(header.command, Low16(|respData.value|), session, status, header.context, 0),
        respData.value);
    }

    /** The two reads at the top of the loop: a header into the connection's
        buffer, then the data. Bytes leave the stream when the reads that need
        them can complete.
     */
    method ReadFrame(wire: Wire, headerBuf: array<Byte>) returns (r: Incoming)
      requires headerBuf.Length == HEADER_SIZE
      modifies wire`toServer, headerBuf
      ensures Received(r, old(wire.toServer), wire.toServer)
    {
      if |wire.toServer| < HEADER_SIZE { return Waiting; }
      forall k | 0 <= k < HEADER_SIZE {
        headerBuf[k] := wire.toServer[k];
      }
      assert headerBuf[..] == wire.toServer[..HEADER_SIZE];
      var header := HeaderOf(headerBuf[..]);
      HeaderOfPrefix(wire.toServer);
      if header.length > MAX_PACKET_SIZE { return Closing; }
      if |wire.toServer| < HEADER_SIZE + header.length { return Waiting; }
      var data := wire.toServer[HEADER_SIZE..HEADER_SIZE + header.length];
      if header.command == UNREGISTER_SESSION { return Closing; }
      wire.toServer := wire.toServer[HEADER_SIZE + header.length..];
      r := Arrived(header, data);
    }

    /** One turn of the loop: read a frame, handle it and write the reply. */
    method ServeNext(wire: Wire, headerBuf: array<Byte>) returns (r: Incoming)
      requires router.Valid() && wire !in router.Repr && wire as object != router
      requires headerBuf.Length == HEADER_SIZE && headerBuf !in router.Repr
      modifies wire, headerBuf, router.Repr
      ensures router.Valid()
      ensures match r
        case Waiting => wire.toClient == old(wire.toClient) && router.View() == old(router.View())
        case Closing => wire.toClient == old(wire.toClient) && router.View() == old(router.View())
        case Arrived(header, data) =>
          var s := Serve(old(router.View()), Frame(header, data));
          && router.View() == s.registry
          && wire.toClient == old(wire.toClient) + EncodedFrame(s.reply)
      ensures Received(r, old(wire.toServer), wire.toServer)
    {
      hide MessageRouter.View, Serve;
      ghost var before := router.View();
      r := ReadFrame(wire, headerBuf);
      assert router.Valid() && router.View() == before;
      if r.Arrived? {
        var reply := HandleFrame(r.header, r.data);
        ghost var after := router.View();
        WriteFrame(wire, reply);
        assert router.Valid() && router.View() == after;
      }
    }

    /** The loop of one connection, run until it closes (the result is then
        true) or a read would wait for bytes that are not there yet.
     */
    method HandleConnection(wire: Wire) returns (closed: bool)
      requires router.Valid() && wire !in router.Repr && wire as object != router
      modifies wire, router.Repr
      ensures router.Valid()
      ensures Streamed(wire.toClient, router.View(), wire.toServer)
           == Following(old(wire.toClient), ServeStream(old(router.View()), old(wire.toServer)))
      ensures closed == Refused(wire.toServer)
    {
      hide MessageRouter.View, Serve;
      ghost var goal := Following(wire.toClient, ServeStream(router.View(), wire.toServer));
      var headerBuf := new Byte[24];
      while true
        invariant router.Valid() && fresh(headerBuf)
        invariant Following(wire.toClient, ServeStream(router.View(), wire.toServer)) == goal
        decreases |wire.toServer|
      {
        ghost var reg, input, output := router.View(), wire.toServer, wire.toClient;
        var incoming := ServeNext(wire, headerBuf);
        StreamOnce(reg, input, output);
        if !incoming.Arrived? { return incoming.Closing?; }
      }
    }
  }

  function Following(sent: seq<Byte>, s: Streamed): Streamed {
    s.(output := sent + s.output)
  }

  lemma StreamOnce(reg: Registry, b: seq<Byte>, sent: seq<Byte>)
    ensures if Stuck(b) then Following(sent, ServeStream(reg, b)) == Streamed(sent, reg, b)
      else
        var f := FirstFrame(b).value;
        var s := Serve(reg, f);
        Following(sent, ServeStream(reg, b))
          == Following(sent + EncodedFrame(s.reply), ServeStream(s.registry, b[HEADER_SIZE + |f.body|..]))
  {
    if Stuck(b) {
      assert sent + [] == sent;
    } else {
      var f := FirstFrame(b).value;
      var s := Serve(reg, f);
      var rest := ServeStream(s.registry, b[HEADER_SIZE + |f.body|..]);
      assert sent + (EncodedFrame(s.reply) + rest.output) == (sent + EncodedFrame(s.reply)) + rest.output;
    }
  }

  datatype Incoming = Waiting | Closing | Arrived(header: Header, data: seq<Byte>)

  /** The stream starts with something the server closes the connection on. */
  predicate Refused(b: seq<Byte>) {
    |b| >= HEADER_SIZE &&
    var h := HeaderOf(b);
    h.length > MAX_PACKET_SIZE || (FirstFrame(b).Some? && h.command == UNREGISTER_SESSION)
  }

  /** What the reads at the top of the loop found in the stream. */
  predicate Received(r: Incoming, before: seq<Byte>, after: seq<Byte>) {
    match r
    case Waiting => after == before && Stuck(before) && !Refused(before)
    case Closing => after == before && Stuck(before) && Refused(before)
    case Arrived(header, data) =>
      && !Stuck(before)
      && FirstFrame(before) == Some(Frame(header, data))
      && after == before[HEADER_SIZE + |data|..]
  }

  method WriteFrame(wire: Wire, f: Frame)
    modifies wire`toClient
    ensures wire.toClient == old(wire.toClient) + EncodedFrame(f)
  {
    wire.toClient := wire.toClient + EncodedHeader(f.header);
    if |f.body| > 0 {
      wire.toClient := wire.toClient + f.body;
    }
  }

  lemma HeaderOfPrefix(b: seq<Byte>)
    requires HEADER_SIZE <= |b|
    ensures HeaderOf(b[..HEADER_SIZE]) == HeaderOf(b)
  {
  }
}
