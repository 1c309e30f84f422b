/** Every format on the wire, byte by byte: field offsets and tag values of the
    encapsulation header, the Common Packet Format, Message Router requests and
    replies, path segments, Forward_Open and the cyclic packet.
 */
module Formats {
  import opened Bytes
  import ConnMgr
  import Cpf
  import Encap
  import Epath
  import Message
  import Server
  import Session
  import UdpPacket

  // ---------- integers ----------

  /** The number that bytes stand for, least significant first. */
  function Value(b: seq<Byte>): nat {
    if b == [] then 0
    else
      var first: nat := b[0];
      first + 0x100 * Value(b[1..])
  }

  lemma ValueOfTwo(b: seq<Byte>)
    requires |b| == 2
    ensures Value(b) == Get16(b, 0)
  {
    assert b[1..] == [b[1]] && Value([b[1]]) == b[1] + 0x100 * Value([b[1]][1..]) && [b[1]][1..] == [];
  }

  lemma ValueOfFour(b: seq<Byte>)
    requires |b| == 4
    ensures Value(b) == Get32(b, 0)
  {
    ValueOfTwo(b[2..]);
    assert b[1..][1..] == b[2..];
    GetSlice(b, 2, 4, 0);
  }

  lemma LittleEndian(v: U16, w: U32)
    ensures Value(Put16(v)) == v && Value(Put32(w)) == w
  {
    ValueOfTwo(Put16(v));
    ValueOfFour(Put32(w));
    GetPut16(Put16(v), 0, v);
    GetPut32(Put32(w), 0, w);
  }

  lemma LittleEndianRead(b: seq<Byte>, i: nat)
    ensures i + 2 <= |b| ==> Get16(b, i) == Value(b[i..i + 2])
    ensures i + 4 <= |b| ==> Get32(b, i) == Value(b[i..i + 4])
  {
    if i + 2 <= |b| {
      ValueOfTwo(b[i..i + 2]);
      GetSlice(b, i, i + 2, 0);
    }
    if i + 4 <= |b| {
      ValueOfFour(b[i..i + 4]);
      GetSlice(b, i, i + 4, 0);
    }
  }

  // ---------- encapsulation ----------

  /** Command, length, session, status, context, options. */
  lemma HeaderLayout(h: Encap.Header)
    ensures var b := Encap.EncodedHeader(h);
      && |b| == 24
      && Get16(b, 0) == h.command && Get16(b, 2) == h.length && Get32(b, 4) == h.session
      && Get32(b, 8) == h.status && b[12..20] == h.context && Get32(b, 20) == h.options
  {
    var b := Encap.EncodedHeader(h);
    assert b[0..2] == Put16(h.command) && b[2..4] == Put16(h.length);
    assert b[4..8] == Put32(h.session) && b[8..12] == Put32(h.status) && b[20..24] == Put32(h.options);
    GetPut16(b, 0, h.command);
    GetPut16(b, 2, h.length);
    GetPut32(b, 4, h.session);
    GetPut32(b, 8, h.status);
    GetPut32(b, 20, h.options);
  }

  /** A client's frame carries its session, no status, no context, no options. */
  lemma ClientHeader(command: U16, data: seq<Byte>, session: U32)
    ensures var b := Encap.EncodedFrame(Encap.RequestFrame(command, data, session));
      && |b| == 24 + |data|
      && Get16(b, 0) == command && Get16(b, 2) == |data| % 0x1_0000 && Get32(b, 4) == session
      && (forall k | 8 <= k < 24 :: b[k] == 0)
      && b[24..] == data
  {
    var h := Encap.RequestFrame(command, data, session).header;
    var b := Encap.EncodedFrame(Encap.RequestFrame(command, data, session));
    HeaderLayout(h);
    var e := Encap.EncodedHeader(h);
    assert b[..24] == e;
    assert e[8..12] == Put32(0) && e[12..20] == Zeros(8) && e[20..24] == Put32(0);
    forall k | 8 <= k < 24 ensures b[k] == 0 {
      assert b[k] == e[k];
      if k < 12 { assert e[k] == e[8..12][k - 8]; }
      else if k < 20 { assert e[k] == e[12..20][k - 12]; }
      else { assert e[k] == e[20..24][k - 20]; }
    }
  }

  /** A session's request frames: SendRRData with the session's handle. */
  lemma SessionHeader(handle: U32, pdu: seq<Byte>)
    ensures var b := Encap.EncodedFrame(Session.RRRequest(handle, pdu));
            |b| >= 24 && Get16(b, 0) == 0x6F && Get32(b, 4) == handle && b[24..] == Server.RRBody(pdu)
  {
    ClientHeader(0x6F, Server.RRBody(pdu), handle);
  }

  // ---------- Common Packet Format ----------

  /** Type, length, data. */
  lemma ItemLayout(typeId: U16, data: seq<Byte>)
    requires |data| < 0x1_0000
    ensures var b := Cpf.EncodedItem(Cpf.NewItem(typeId, data));
            |b| == 4 + |data| && Get16(b, 0) == typeId && Get16(b, 2) == |data| && b[4..] == data
  {
    var b := Cpf.EncodedItem(Cpf.NewItem(typeId, data));
    GetPut16(b, 0, typeId);
    GetPut16(b, 2, |data|);
  }

  /** The item count, then the items one after another. */
  lemma PacketLayout(items: seq<Cpf.Item>, item: Cpf.Item)
    requires |items| < 0xFFFF
    ensures var b := Cpf.Encoded(Cpf.NewPacket(items + [item]));
      && |b| >= 2 && Get16(b, 0) == |items| + 1
      && b[2..] == Cpf.Encoded(Cpf.NewPacket(items))[2..] + Cpf.EncodedItem(item)
  {
    var b := Cpf.Encoded(Cpf.NewPacket(items + [item]));
    GetPut16(b, 0, |items| + 1);
    Cpf.EncodedItemsSnoc(items, item);
  }

  /** The unconnected body: interface handle and timeout zero, a null address
      item and an item of type 0xB2.
   */
  lemma RRBodyLayout(pdu: seq<Byte>)
    requires |pdu| < 0x1_0000
    ensures Server.RRBody(pdu) == [0, 0, 0, 0, 0, 0, 2, 0, 0, 0, 0, 0, 0xB2, 0] + Put16(|pdu|) + pdu
  {
    TwoItems(Cpf.NewItem(0, []), Cpf.NewItem(0xB2, pdu));
  }

  /** The connected body: an item of type 0xA1 with the address, and one of type
      0xB1 with the sequence count in front.
   */
  lemma UnitBodyLayout(address: seq<Byte>, sequence: U16, pdu: seq<Byte>)
    requires |address| < 0x1_0000 && |pdu| < 0xFFFE
    ensures Server.UnitBody(address, sequence, pdu)
         == [0, 0, 0, 0, 0, 0, 2, 0, 0xA1, 0] + Put16(|address|) + address
          + ([0xB1, 0] + Put16(|pdu| + 2) + (Put16(sequence) + pdu))
  {
    TwoItems(Cpf.NewItem(0xA1, address), Cpf.NewItem(0xB1, Put16(sequence) + pdu));
  }

  lemma TwoItems(first: Cpf.Item, second: Cpf.Item)
    requires Cpf.Exact(first) && Cpf.Exact(second)
    ensures Server.Wrapped(first, second)
         == Zeros(6) + (Put16(2) + (Put16(first.typeId) + Put16(|first.data|) + first.data
                                  + (Put16(second.typeId) + Put16(|second.data|) + second.data)))
  {
    assert [first, second][1..] == [second] && [second][1..] == [];
    assert Cpf.EncodedItems([second]) == Cpf.EncodedItem(second) + [];
  }

  // ---------- Message Router ----------

  /** Service, path size in words, path, data. */
  lemma RequestLayout(r: Message.Request)
    ensures var b := Message.EncodedRequest(r);
      && |b| == 2 + |r.path| + |r.data|
      && b[0] == r.service && b[1] == ((|r.path| + 1) / 2) % 0x100
      && b[2..2 + |r.path|] == r.path && b[2 + |r.path|..] == r.data
  {
  }

  /** Service, reserved, status, number of status words, the words, data. */
  lemma ResponseLayout(r: Message.Response)
    ensures var b := Message.EncodedResponse(r);
      && |b| == 4 + 2 * |r.ext| + |r.data|
      && b[0] == r.service && b[1] == r.reserved && b[2] == r.status && b[3] == r.extSize
      && (forall i | 0 <= i < |r.ext| :: Get16(b, 4 + 2 * i) == r.ext[i])
      && b[4 + 2 * |r.ext|..] == r.data
  {
    var b := Message.EncodedResponse(r);
    Message.WordsLength(r.ext);
    assert b[4..] == Message.Words(r.ext) + r.data;
    forall i | 0 <= i < |r.ext| ensures Get16(b, 4 + 2 * i) == r.ext[i] {
      Message.WordAt(r.ext, r.data, i);
      GetSlice(b, 4, |b|, 2 * i);
    }
  }

  // ---------- paths ----------

  /** The tags of class, instance, attribute and member segments, plus the width
      of the number; wide numbers follow a pad byte.
   */
  lemma LogicalLayout(kind: Epath.Kind, id: U32)
    ensures var b := Epath.EncodedSegment(Epath.Logical(kind, id));
            var tag := if kind.ClassId? then 0x20 else if kind.InstanceId? then 0x24
                       else if kind.AttributeId? then 0x30 else 0x28;
      b == if id < 0x100 then [tag, id]
           else if id < 0x1_0000 then [tag + 1, 0] + Put16(id)
           else [tag + 2, 0] + Put32(id)
  {
  }

  /** Tag, length modulo 256, name, and a zero after an odd name. */
  lemma SymbolLayout(name: seq<Byte>)
    ensures var b := Epath.EncodedSegment(Epath.Symbol(name));
      && |b| == 2 + |name| + |name| % 2
      && b[0] == 0x91 && b[1] == |name| % 0x100 && b[2..2 + |name|] == name
      && (|name| % 2 == 1 ==> b[2 + |name|] == 0)
  {
  }

  // ---------- Forward_Open ----------

  /** The fields of a standard request at their offsets. */
  lemma OpenLayout(r: ConnMgr.OpenRequest)
    requires ConnMgr.Narrow(r)
    ensures var b := ConnMgr.EncodedOpen(r);
      && |b| == 36 + |r.path|
      && HeadAt(r.head, b)
      && Get16(b, 26) == r.otParams && Get32(b, 28) == r.toRpi && Get16(b, 32) == r.toParams
      && b[34] == r.trigger && b[35] == r.pathSize && b[36..] == r.path
  {
    var rest := Put16(r.otParams) + Put32(r.toRpi) + Put16(r.toParams) + [r.trigger, r.pathSize] + r.path;
    var b := ConnMgr.EncodedOpen(r);
    HeadLayout(r.head, rest);
    assert b[26..28] == Put16(r.otParams) && b[28..32] == Put32(r.toRpi) && b[32..34] == Put16(r.toParams);
    GetPut16(b, 26, r.otParams);
    GetPut32(b, 28, r.toRpi);
    GetPut16(b, 32, r.toParams);
  }

  predicate HeadAt(h: ConnMgr.OpenHead, b: seq<Byte>)
    requires 26 <= |b|
  {
    && b[0] == h.priority && b[1] == h.timeoutTicks
    && Get32(b, 2) == h.otId && Get32(b, 6) == h.toId
    && Get16(b, 10) == h.serial && Get16(b, 12) == h.vendor && Get32(b, 14) == h.originator
    && b[18] == h.multiplier && b[19..22] == h.reserved && Get32(b, 22) == h.otRpi
  }

  lemma HeadLayout(h: ConnMgr.OpenHead, rest: seq<Byte>)
    ensures |ConnMgr.EncodedHead(h)| == 26 && HeadAt(h, ConnMgr.EncodedHead(h) + rest)
  {
    ConnMgr.HeadOfEncoded(h, rest);
  }

  /** A Forward_Close reply repeats serial, vendor and originator of the request,
      and two zeros follow; a request without a path is an error.
   */
  lemma CloseLayout(b: seq<Byte>)
    ensures ConnMgr.Close(b).Ok? <==> |b| > 12
    ensures |b| > 12 ==>
      var reply := ConnMgr.Close(b).value;
      && |reply| == 10
      && Get16(reply, 0) == Get16(b, 2) && Get16(reply, 2) == Get16(b, 4) && Get32(reply, 4) == Get32(b, 6)
      && reply[8] == 0 && reply[9] == 0
  {
    if |b| > 12 {
      var reply := ConnMgr.Close(b).value;
      assert reply[..8] == b[2..10];
      assert forall k | 0 <= k < 8 :: reply[k] == b[2 + k];
    }
  }

  // ---------- cyclic packets ----------

  /** Two items: 0xA1 with the connection ID, 0xB1 with the sequence count, a
      run/idle header with the run bit set if there is one, and the data.
   */
  lemma DatagramLayout(connectionId: U32, sequence: U16, runIdle: bool, data: seq<Byte>)
    requires UdpPacket.Fits(runIdle, |data|)
    ensures var head := if runIdle then [1, 0, 0, 0] else [];
            UdpPacket.Datagram(connectionId, sequence, runIdle, data)
              == [2, 0, 0xA1, 0, 4, 0] + Put32(connectionId) + [0xB1, 0] + Put16(2 + |head| + |data|)
               + (Put16(sequence) + head + data)
  {
    UdpPacket.DatagramBytes(connectionId, sequence, runIdle, data);
  }
}
