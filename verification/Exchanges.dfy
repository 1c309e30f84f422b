/** One SendRRData exchange, for a request of any size: what the frames carry
    when their 16-bit length fields wrap.
 */
module Exchanges {
  import opened Bytes
  import opened Encap
  import opened Router
  import opened Server
  import opened Session
  import opened Stream
  import Cpf

  // ---------- the wrapping is undone at the other end ----------

  lemma ItemOfWrapped(first: Cpf.Item, second: Cpf.Item)
    requires Cpf.Exact(first) && Cpf.Exact(second) && first.typeId != second.typeId
    ensures ItemOf(Wrapped(first, second), first.typeId) == Some(first)
    ensures ItemOf(Wrapped(first, second), second.typeId) == Some(second)
  {
    var items := [first, second];
    var body := Wrapped(first, second);
    assert body[6..] == Cpf.Encoded(Cpf.NewPacket(items)) + [];
    Cpf.DecodeAfterEncode(items, []);
    assert items[1..] == [second] && Cpf.FirstOfType([second], second.typeId) == Some(second);
  }

  lemma WrappedLength(first: Cpf.Item, second: Cpf.Item)
    requires Cpf.Exact(first) && Cpf.Exact(second)
    ensures |Wrapped(first, second)| == 16 + |first.data| + |second.data|
  {
    assert [first, second][1..] == [second] && [second][1..] == [];
    assert Cpf.EncodedItems([second]) == Cpf.EncodedItem(second) + [];
  }

  lemma RRBodyOpens(pdu: seq<Byte>)
    requires |pdu| < 0x1_0000
    ensures ItemOf(RRBody(pdu), Cpf.UNCONNECTED_MESSAGE) == Some(Cpf.NewItem(Cpf.UNCONNECTED_MESSAGE, pdu))
    ensures |RRBody(pdu)| == 16 + |pdu|
  {
    ItemOfWrapped(Cpf.NewItem(Cpf.NULL_ADDRESS, []), Cpf.NewItem(Cpf.UNCONNECTED_MESSAGE, pdu));
    WrappedLength(Cpf.NewItem(Cpf.NULL_ADDRESS, []), Cpf.NewItem(Cpf.UNCONNECTED_MESSAGE, pdu));
  }

  /** A reply body is the handler's answer, wrapped the way the request was. */
  function InRR(h: Handling): Handling {
    if h.body.None? then h else h.(body := Some(RRBody(h.body.value)))
  }

  function InUnit(h: Handling, address: seq<Byte>, sequence: U16): Handling {
    if h.body.None? then h else h.(body := Some(UnitBody(address, sequence, h.body.value)))
  }

  /** The same request, sent unconnected or over a connection, is dispatched
      the same; a connected reply also echoes the address data and the
      sequence count.
   */
  lemma HandlersAgree(reg: Registry, pdu: seq<Byte>, address: seq<Byte>, sequence: U16)
    requires |pdu| < 0xFFFE && 4 <= |address| < 0x1_0000
    ensures RRHandling(reg, RRBody(pdu)) == InRR(Answer(reg, pdu))
    ensures UnitHandling(reg, UnitBody(address, sequence, pdu)) == InUnit(Answer(reg, pdu), address, sequence)
  {
    RRBodyOpens(pdu);
    var data := Put16(sequence) + pdu;
    ItemOfWrapped(Cpf.NewItem(Cpf.CONNECTED_ADDRESS, address), Cpf.NewItem(Cpf.CONNECTED_DATA, data));
    assert data[2..] == pdu;
    GetPut16(data, 0, sequence);
  }

  // ---------- a frame around a body of any size ----------

  /** The 16 bytes in front of the request or reply. */
  function RRHead(length: U16): (h: seq<Byte>)
    ensures |h| == 16
  {
    Zeros(6) + (Put16(2) + Put16(Cpf.NULL_ADDRESS) + Put16(0) + Put16(Cpf.UNCONNECTED_MESSAGE) + Put16(length))
  }

  lemma RRBodyBytes(pdu: seq<Byte>)
    ensures RRBody(pdu) == RRHead(Low16(|pdu|)) + if Low16(|pdu|) == 0 then [] else pdu
  {
    var first, second := Cpf.NewItem(Cpf.NULL_ADDRESS, []), Cpf.NewItem(Cpf.UNCONNECTED_MESSAGE, pdu);
    assert [first, second][1..] == [second] && [second][1..] == [];
    assert Cpf.EncodedItems([second]) == Cpf.EncodedItem(second) + [];
  }

  /** What a frame around RRBody(pdu) carries: a length field keeps its value
      modulo 2^16, so a long PDU is cut, or its frame ends before the PDU.
   */
  function Carried(pdu: seq<Byte>): Option<seq<Byte>> {
    if Low16(|pdu|) < 0x1_0000 - 16 then Some(pdu[..Low16(|pdu|)]) else None
  }

  /** The length the frame's header claims. */
  function Claimed(pdu: seq<Byte>): U16 {
    Low16(|pdu| + 16)
  }

  /** What is sent after the bytes the header claims. */
  function Surplus(pdu: seq<Byte>): seq<Byte> {
    if Claimed(pdu) <= |RRBody(pdu)| then RRBody(pdu)[Claimed(pdu)..] else []
  }

  lemma LowOfSum(n: nat)
    ensures Low16(n + 16) == if Low16(n) < 0x1_0000 - 16 then Low16(n) + 16 else Low16(n) - (0x1_0000 - 16)
  {
  }

  lemma ClaimedIs(pdu: seq<Byte>)
    ensures Claimed(pdu) == if Carried(pdu).Some? then |Carried(pdu).value| + 16 else Low16(|pdu|) - (0x1_0000 - 16)
    ensures Low16(|RRBody(pdu)|) == Claimed(pdu) <= |RRBody(pdu)|
  {
    hide RRBody, RRHead;
    RRBodyBytes(pdu);
    LowOfSum(|pdu|);
  }

  lemma FramedBody(pdu: seq<Byte>)
    ensures var body := RRBody(pdu);
      && Low16(|body|) == Claimed(pdu) <= |body|
      && (Carried(pdu).Some? ==> body[..Claimed(pdu)] == RRBody(Carried(pdu).value))
      && (Carried(pdu).None? ==> body[..Claimed(pdu)] == RRHead(Low16(|pdu|))[..Claimed(pdu)] && Claimed(pdu) < 16)
  {
    ClaimedIs(pdu);
    RRBodyBytes(pdu);
    if Carried(pdu).Some? {
      RRBodyBytes(Carried(pdu).value);
    }
  }

  /** Nothing is left over from a PDU that fits; of one that is cut, the rest. */
  lemma SurplusIs(pdu: seq<Byte>)
    ensures |pdu| < 0x1_0000 - 16 ==> Surplus(pdu) == []
    ensures 0 < Low16(|pdu|) < 0x1_0000 - 16 ==> Surplus(pdu) == pdu[Low16(|pdu|)..]
  {
    hide RRHead, RRBody;
    ClaimedIs(pdu);
    RRBodyBytes(pdu);
  }

  // ---------- reading such a frame ----------

  /** The first 15 bytes of a body hold no item that could be found. */
  lemma NothingInHead(b: seq<Byte>, length: U16)
    requires b <= RRHead(length) && |b| < 16
    ensures ItemOf(b, Cpf.UNCONNECTED_MESSAGE) == None
  {
    if 8 <= |b| && Cpf.Decoded(b[6..]).Some? {
      Cpf.EncodeAfterDecode(b[6..]);
      var p := Cpf.Decoded(b[6..]).value;
      assert b[6..][0..2] == RRHead(length)[6..8] == Put16(2);
      GetPut16(b[6..], 0, 2);
      Cpf.ItemsTakeSpace(p.items);
    }
  }

  lemma ItemCarried(pdu: seq<Byte>)
    ensures Claimed(pdu) <= |RRBody(pdu)|
    ensures var item := ItemOf(RRBody(pdu)[..Claimed(pdu)], Cpf.UNCONNECTED_MESSAGE);
            match Carried(pdu)
            case None => item == None
            case Some(p) => item == Some(Cpf.NewItem(Cpf.UNCONNECTED_MESSAGE, p))
  {
    FramedBody(pdu);
    if Carried(pdu).Some? {
      RRBodyOpens(Carried(pdu).value);
    } else {
      NothingInHead(RRBody(pdu)[..Claimed(pdu)], Low16(|pdu|));
    }
  }

  /** A frame whose length field wrapped is read as a shorter frame. */
  lemma CutFrame(f: Frame, rest: seq<Byte>)
    requires f.header.length <= |f.body|
    ensures var g := Frame(f.header, f.body[..f.header.length]);
      && Encap.Exact(g)
      && EncodedFrame(f) + rest == EncodedFrame(g) + (f.body[f.header.length..] + rest)
      && FirstFrame(EncodedFrame(f) + rest) == Some(g)
  {
    var n := f.header.length;
    var g := Frame(f.header, f.body[..n]);
    var tail := f.body[n..] + rest;
    assert EncodedFrame(f) + rest == EncodedFrame(g) + tail;
    FirstFrameOfEncoded(g, tail);
  }

  /** The server's handling of the frame it reads. */
  function AnswerCarried(reg: Registry, pdu: seq<Byte>): Handling {
    match Carried(pdu)
    case None => Handling(None, reg)
    case Some(p) => Answer(reg, p)
  }

  lemma RequestHandled(reg: Registry, pdu: seq<Byte>)
    ensures Claimed(pdu) <= |RRBody(pdu)|
    ensures RRHandling(reg, RRBody(pdu)[..Claimed(pdu)]) == InRR(AnswerCarried(reg, pdu))
  {
    ItemCarried(pdu);
  }

  lemma ReplyCarried(request: Header, h: Handling, rest: seq<Byte>)
    ensures var reply := ReplyTo(request, InRR(h)).reply;
            ReplyPdu(FirstFrame(EncodedFrame(reply) + rest)) == (if h.body.None? then None else Carried(h.body.value))
  {
    var reply := ReplyTo(request, InRR(h)).reply;
    if h.body.Some? {
      ItemCarried(h.body.value);
      FramedBody(h.body.value);
    }
    CutFrame(reply, rest);
  }

  /** The frame the server reads at the start of a request. */
  function Arriving(handle: U32, pdu: seq<Byte>): Frame
    requires Claimed(pdu) <= |RRBody(pdu)|
  {
    Frame(RRRequest(handle, pdu).header, RRBody(pdu)[..Claimed(pdu)])
  }

  lemma RequestArrives(handle: U32, pdu: seq<Byte>)
    ensures Claimed(pdu) <= |RRBody(pdu)|
    ensures var g := Arriving(handle, pdu);
      && g.header.length == Claimed(pdu) && Encap.Exact(g)
      && EncodedFrame(RRRequest(handle, pdu)) == EncodedFrame(g) + Surplus(pdu)
      && FirstFrame(EncodedFrame(RRRequest(handle, pdu))) == Some(g)
  {
    hide RRBody, EncodedHeader, Low16;
    var f := RRRequest(handle, pdu);
    ClaimedIs(pdu);
    CutFrame(f, []);
    AddNothing(EncodedFrame(f));
    AddNothing(f.body[Claimed(pdu)..]);
  }

  /** The server's turn on a request frame. */
  lemma RequestServed(reg: Registry, handle: U32, pdu: seq<Byte>)
    ensures var f := RRRequest(handle, pdu);
            var s := ReplyTo(f.header, InRR(AnswerCarried(reg, pdu)));
      && (Claimed(pdu) > MAX_PACKET_SIZE ==> ServeStream(reg, EncodedFrame(f)) == Streamed([], reg, EncodedFrame(f)))
      && (Claimed(pdu) <= MAX_PACKET_SIZE ==>
            ServeStream(reg, EncodedFrame(f))
              == Following(EncodedFrame(s.reply), ServeStream(s.registry, Surplus(pdu))))
  {
    hide RRBody, RRHandling, AnswerCarried, InRR, EncodedFrame, Claimed, Surplus;
    RequestArrives(handle, pdu);
    if Claimed(pdu) <= MAX_PACKET_SIZE {
      RequestHandled(reg, pdu);
      ServeCons(reg, Arriving(handle, pdu), Surplus(pdu));
    }
  }

  /** What SendRRData returns and leaves behind, for a request of any size n:
      (n + 16) mod 2^16 is the length the server goes by. Above the server's
      limit nothing happens and the client gets an error; otherwise the server
      answers what the frame carries and reads the surplus as further frames.
   */
  lemma AnyExchange(reg: Registry, handle: U32, pdu: seq<Byte>)
    ensures Exchange(reg, handle, pdu) ==
      if Claimed(pdu) > MAX_PACKET_SIZE then Exchanged(None, reg)
      else
        var h := AnswerCarried(reg, pdu);
        Exchanged(if h.body.None? then None else Carried(h.body.value),
                  ServeStream(h.registry, Surplus(pdu)).registry)
  {
    hide RRBody, AnswerCarried, EncodedFrame, Surplus, ServeStream;
    RequestServed(reg, handle, pdu);
    if Claimed(pdu) <= MAX_PACKET_SIZE {
      var h := AnswerCarried(reg, pdu);
      ReplyCarried(RRRequest(handle, pdu).header, h, ServeStream(h.registry, Surplus(pdu)).output);
    }
  }
}
