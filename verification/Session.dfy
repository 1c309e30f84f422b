/** The client session (pkg/session/session.go) and its exchanges with the
    server at the other end of one connection.
 */
module Session {
  import opened Bytes
  import opened Encap
  import opened Message
  import opened Router
  import opened Server
  import opened Stream
  import Cpf

  // ---------- one exchange ----------

  datatype Exchanged<T> = Exchanged(reply: Option<T>, registry: Registry)

  function RRRequest(handle: U32, pdu: seq<Byte>): Frame {
    RequestFrame(SEND_RR_DATA, RRBody(pdu), handle)
  }

  /** What SendRRData returns for the frame it receives, None for an error. */
  function ReplyPdu(received: Option<Frame>): Option<seq<Byte>> {
    if received.None? || received.value.header.status != STATUS_SUCCESS then None
    else
      var item := ItemOf(received.value.body, Cpf.UNCONNECTED_MESSAGE);
      if item.None? then None else Some(item.value.data)
  }

  /** Send the bytes, let the server work on them, read the first reply. */
  function Exchange(reg: Registry, handle: U32, pdu: seq<Byte>): Exchanged<seq<Byte>> {
    var s := ServeStream(reg, EncodedFrame(RRRequest(handle, pdu)));
    Exchanged(ReplyPdu(FirstFrame(s.output)), s.registry)
  }

  /** The exchange leaves nothing in flight. */
  predicate Settled(s: Streamed) {
    s.unread == [] && FirstFrame(s.output).Some? && |s.output| == HEADER_SIZE + |FirstFrame(s.output).value.body|
  }

  function WireCall(reg: Registry, handle: U32, req: Request): Exchanged<Response> {
    var e := Exchange(reg, handle, EncodedRequest(req));
    Exchanged(if e.reply.None? then None else DecodedResponse(e.reply.value), e.registry)
  }

  /** A session and the server at the other end of its connection. The server
      runs while the session waits in Receive.
   */
  class Session {
    const transport: TcpTransport
    const peer: Server
    var sessionHandle: U32

    ghost predicate Valid()
      reads this, peer.router, peer.router.Repr
    {
      && peer.router.Valid()
      && transport.wire !in peer.router.Repr && transport.wire as object != peer.router
      && this !in peer.router.Repr && this as object != peer.router
    }

    /** Nothing is in flight. */
    ghost predicate Idle()
      reads transport.wire
    {
      transport.wire.toServer == [] && transport.wire.toClient == []
    }

    constructor (wire: Wire, peer: Server)
      requires peer.router.Valid() && wire !in peer.router.Repr && wire as object != peer.router
      ensures Valid() && transport.wire == wire && this.peer == peer && sessionHandle == 0
    {
      this.transport := new TcpTransport(wire);
      this.peer := peer;
      this.sessionHandle := 0;
    }

    /** Send, and the server's turn before the session reads. */
    method Send(command: U16, data: seq<Byte>, handle: U32)
      requires Valid() && Idle()
      modifies transport.wire, peer.router.Repr
      ensures Valid()
      ensures Streamed(transport.wire.toClient, peer.router.View(), transport.wire.toServer)
           == ServeStream(old(peer.router.View()), EncodedFrame(RequestFrame(command, data, handle)))
    {
      hide MessageRouter.View, ServeStream;
      ghost var reg := peer.router.View();
      transport.Send(command, data, handle);
      SentAlone(reg, EncodedFrame(RequestFrame(command, data, handle)));
      var closed := peer.HandleConnection(transport.wire);
    }

    method Call(command: U16, data: seq<Byte>, handle: U32) returns (received: Option<Frame>)
      requires Valid() && Idle()
      modifies transport.wire, peer.router.Repr
      ensures Valid()
      ensures var s := ServeStream(old(peer.router.View()), EncodedFrame(RequestFrame(command, data, handle)));
        && received == FirstFrame(s.output)
        && peer.router.View() == s.registry
        && (Settled(s) ==> Idle())
    {
      hide MessageRouter.View, ServeStream;
      Send(command, data, handle);
      received := transport.Receive();
    }

    method Register() returns (ok: bool)
      requires Valid() && Idle()
      modifies this, transport.wire, peer.router.Repr
      ensures Valid() && Idle() && ok
      ensures sessionHandle == SESSION_HANDLE && peer.router.View() == old(peer.router.View())
    {
      hide MessageRouter.View, ServeStream;
      ghost var reg := peer.router.View();
      var received := Call(REGISTER_SESSION, Put16(1) + Put16(0), 0);
      RegisterReply(reg);
      if received.None? || received.value.header.status != STATUS_SUCCESS { return false; }
      sessionHandle := received.value.header.session;
      ok := true;
    }

    method SendRRData(request: seq<Byte>) returns (r: Option<seq<Byte>>)
      requires Valid() && Idle()
      modifies transport.wire, peer.router.Repr
      ensures Valid()
      ensures Exchanged(r, peer.router.View()) == Exchange(old(peer.router.View()), sessionHandle, request)
      ensures Settled(ServeStream(old(peer.router.View()), EncodedFrame(RRRequest(sessionHandle, request)))) ==> Idle()
    {
      hide MessageRouter.View, ServeStream;
      var cpf := Cpf.Encode(Cpf.NewPacket([
        Cpf.NewItem(Cpf.NULL_ADDRESS, []),
        Cpf.NewItem(Cpf.UNCONNECTED_MESSAGE, request)]));
      var received := Call(SEND_RR_DATA, Zeros(6) + cpf, sessionHandle);
      if received.None? { return None; }
      if received.value.header.status != STATUS_SUCCESS { return None; }
      r := ItemData(received.value.body);
    }

    method ItemData(data: seq<Byte>) returns (r: Option<seq<Byte>>)
      ensures var item := ItemOf(data, Cpf.UNCONNECTED_MESSAGE);
              r == if item.None? then None else Some(item.value.data)
    {
      if |data| < 6 { return None; }
      var cpf := Cpf.Decode(data[6..]);
      if cpf.None? { return None; }
      var item := Cpf.FindItemByType(cpf.value, Cpf.UNCONNECTED_MESSAGE);
      r := if item.None? then None else Some(item.value.data);
    }

    method SendCIPRequest(req: Request) returns (r: Option<Response>)
      requires Valid() && Idle()
      modifies transport.wire, peer.router.Repr
      ensures Valid()
      ensures Exchanged(r, peer.router.View()) == WireCall(old(peer.router.View()), sessionHandle, req)
      ensures Settled(ServeStream(old(peer.router.View()), EncodedFrame(RRRequest(sessionHandle, EncodedRequest(req)))))
        ==> Idle()
    {
      hide MessageRouter.View, ServeStream;
      var reqBytes := EncodeRequest(req);
      var respBytes := SendRRData(reqBytes);
      if respBytes.None? { return None; }
      r := DecodeResponse(respBytes.value);
    }
  }

  lemma OneFrame(reg: Registry, f: Frame)
    requires Answerable(f)
    ensures var s := Serve(reg, f);
            ServeStream(reg, EncodedFrame(f)) == Streamed(EncodedFrame(s.reply), s.registry, [])
  {
    ServeCons(reg, f, []);
    assert EncodedFrame(f) + [] == EncodedFrame(f);
    var s := Serve(reg, f);
    assert EncodedFrame(s.reply) + [] == EncodedFrame(s.reply);
  }

  lemma SentAlone(reg: Registry, sent: seq<Byte>)
    ensures Following([], ServeStream(reg, [] + sent)) == ServeStream(reg, sent)
  {
    assert [] + sent == sent;
    FollowingNothing(ServeStream(reg, sent));
  }

  lemma RegisterReply(reg: Registry)
    ensures var s := ServeStream(reg, EncodedFrame(RequestFrame(REGISTER_SESSION, Put16(1) + Put16(0), 0)));
      && Settled(s)
      && s.registry == reg
      && FirstFrame(s.output).value.header.status == STATUS_SUCCESS
      && FirstFrame(s.output).value.header.session == SESSION_HANDLE
  {
    var f := RequestFrame(REGISTER_SESSION, Put16(1) + Put16(0), 0);
    OneFrame(reg, f);
    OneReply(Serve(reg, f).reply);
  }

  lemma OneReply(reply: Frame)
    requires Exact(reply)
    ensures FirstFrame(EncodedFrame(reply)) == Some(reply)
    ensures |EncodedFrame(reply)| == HEADER_SIZE + |reply.body|
  {
    FirstFrameOfEncoded(reply, []);
    assert EncodedFrame(reply) + [] == EncodedFrame(reply);
  }
}
