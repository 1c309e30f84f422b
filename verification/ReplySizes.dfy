/** For which registries a client can read back everything the server may send:
    the replies' 16-bit length fields never wrap, whatever the input.
 */
module ReplySizes {
  import opened Bytes
  import opened Cip
  import opened Encap
  import opened Message
  import opened Router
  import opened Server
  import opened Stream
  import opened Exchanges
  import Assembly
  import ConnMgr
  import Cpf
  import EndToEnd
  import Epath

  /** The bytes a path needs at least to name the data of an instance. */
  function PathLength(classId: U16, instanceId: U16): (n: nat)
    ensures 6 <= n <= 10
  {
    (if classId <= 0xFF then 2 else 4) + (if instanceId <= 0xFF then 2 else 4) + 2
  }

  const ECHO_LIMIT := 61437

  /** The instance can be read over a connection even when the request's frame
      is filled up with address data, all of which the reply repeats.
   */
  predicate Echoable(classId: U16, t: Assembly.Table) {
    forall i | i in t && i <= 0xFFFF :: |t[i]| <= ECHO_LIMIT + PathLength(classId, i)
  }

  predicate AllEchoable(reg: Registry) {
    forall c | c in reg && reg[c].AssemblyEntry? :: Echoable(c, reg[c].table)
  }

  // ---------- a long answer needs a request that names it ----------

  lemma PeelTakes(path: seq<Byte>, tag: Byte)
    requires tag < 0xFF && Epath.PeelHead(path, tag).Some?
    ensures var head := Epath.PeelHead(path, tag).value;
            var used := |path| - |head.rest|;
      (if head.id <= 0xFF then 2 else 4) <= used <= |path| && head.rest == path[used..]
  {
  }

  lemma GetNames(t: Assembly.Table, service: Byte, path: seq<Byte>, data: seq<Byte>)
    requires var result := Assembly.Handle(t, service, path, data).result; result.Ok? && result.value != []
    ensures Epath.PeelHead(path, 0x24).Some?
    ensures var inst := Epath.PeelHead(path, 0x24).value;
      && Epath.PeelAttribute(inst.rest) == Some(3)
      && inst.id in t && Assembly.Handle(t, service, path, data).result.value == t[inst.id]
  {
  }

  lemma AttributeByte(path: seq<Byte>) returns (j: nat)
    requires Epath.PeelAttribute(path) == Some(3)
    ensures 1 <= j < |path| && path[j] == 3
  {
    j := if path[0] == 0x30 then 1 else 2;
  }

  /** A path filled up with zeros was sent at least up to its last other byte. */
  lemma SentByte(pdu: seq<Byte>, j: nat)
    requires DecodedRequest(pdu).Some? && j < |DecodedRequest(pdu).value.path|
    requires DecodedRequest(pdu).value.path[j] != 0
    ensures 2 + j < |pdu|
  {
  }

  /** The data of an instance, against the limit and against the request. */
  lemma AssemblyAnswer(classId: U16, t: Assembly.Table, pdu: seq<Byte>, rest: seq<Byte>)
    requires Echoable(classId, t) && DecodedRequest(pdu).Some?
    requires Epath.PeelClass(DecodedRequest(pdu).value.path) == Some(Epath.Peeled(classId, rest))
    ensures var req := DecodedRequest(pdu).value;
            var result := Assembly.Handle(t, req.service, rest, req.data).result;
      result.Ok? ==> |result.value| <= ECHO_LIMIT + 10 && |result.value| + 2 <= ECHO_LIMIT + |pdu|
  {
    hide DecodedRequest;
    var req := DecodedRequest(pdu).value;
    var result := Assembly.Handle(t, req.service, rest, req.data).result;
    if result.Ok? && result.value != [] {
      PeelTakes(req.path, 0x20);
      GetNames(t, req.service, rest, req.data);
      PeelTakes(rest, 0x24);
      var inst := Epath.PeelHead(rest, 0x24).value;
      var j := AttributeByte(inst.rest);
      assert req.path[|req.path| - |inst.rest| + j] == inst.rest[j];
      SentByte(pdu, |req.path| - |inst.rest| + j);
    }
  }

  /** Over every call of an object: the size of what it returns, and that size
      beyond the size of the request.
   */
  lemma EntryAnswer(reg: Registry, pdu: seq<Byte>)
    requires AllEchoable(reg) && DecodedRequest(pdu).Some?
    requires Epath.PeelClass(DecodedRequest(pdu).value.path).Some?
    requires Epath.PeelClass(DecodedRequest(pdu).value.path).value.id in reg
    ensures var req := DecodedRequest(pdu).value;
            var head := Epath.PeelClass(req.path).value;
            var h := HandleEntry(reg[head.id], req.service, head.rest, req.data);
      h.result.Ok? ==> |h.result.value| <= ECHO_LIMIT + 10 && |h.result.value| + 2 <= ECHO_LIMIT + |pdu|
  {
    hide DecodedRequest, Assembly.Handle, ConnMgr.Handle, Epath.PeelClass;
    var req := DecodedRequest(pdu).value;
    var head := Epath.PeelClass(req.path).value;
    match reg[head.id]
    case ManagerEntry(s) => ManagerAnswers(s, req.service, req.data);
    case AssemblyEntry(t) => AssemblyAnswer(head.id, t, pdu, head.rest);
  }

  lemma ManagerAnswers(s: ConnMgr.State, service: Byte, data: seq<Byte>)
    ensures var result := ConnMgr.Handle(s, service, data).result;
            result.Ok? ==> |result.value| <= 26
  {
  }

  lemma AnswerSize(reg: Registry, pdu: seq<Byte>)
    requires AllEchoable(reg) && Answer(reg, pdu).body.Some?
    ensures var n := |Answer(reg, pdu).body.value|;
            n <= 4 + ECHO_LIMIT + 10 && n <= ECHO_LIMIT + 2 + |pdu|
  {
    var req := DecodedRequest(pdu).value;
    ReplySize(reg, req);
    var head := Epath.PeelClass(req.path);
    if head.Some? && head.value.id in reg {
      EntryAnswer(reg, pdu);
    }
  }

  /** A reply is its four bytes and the data of a successful call. */
  lemma ReplySize(reg: Registry, req: Request)
    requires DispatchOf(reg, req).reply.Ok?
    ensures var head := Epath.PeelClass(req.path);
            var n := |EncodedResponse(DispatchOf(reg, req).reply.value)|;
      && head.Some?
      && (head.value.id !in reg ==> n == 4)
      && (head.value.id in reg ==>
            var result := HandleEntry(reg[head.value.id], req.service, head.value.rest, req.data).result;
            n == 4 + if result.Ok? then |result.value| else 0)
  {
    var head := Epath.PeelClass(req.path);
    if head.value.id in reg {
      NoStatusWords(reg[head.value.id], req.service, head.value.rest, req.data);
    }
  }

  lemma NoStatusWords(e: Entry, service: Byte, path: seq<Byte>, data: seq<Byte>)
    ensures var result := HandleEntry(e, service, path, data).result;
            result.Err? && result.error.CipError? ==> result.error.ext == []
  {
  }

  // ---------- what a frame can hold ----------

  lemma {:induction false} OneItemTakes(items: seq<Cpf.Item>, s: U16)
    requires Cpf.AllExact(items) && Cpf.FirstOfType(items, s).Some?
    ensures 4 + |Cpf.FirstOfType(items, s).value.data| <= |Cpf.EncodedItems(items)|
  {
    if items[0].typeId != s {
      OneItemTakes(items[1..], s);
    }
  }

  lemma {:induction false} TwoItemsTake(items: seq<Cpf.Item>, s: U16, t: U16)
    requires Cpf.AllExact(items) && s != t
    requires Cpf.FirstOfType(items, s).Some? && Cpf.FirstOfType(items, t).Some?
    ensures 8 + |Cpf.FirstOfType(items, s).value.data| + |Cpf.FirstOfType(items, t).value.data|
         <= |Cpf.EncodedItems(items)|
  {
    assert Cpf.Exact(items[0]);
    if items[0].typeId == s {
      OneItemTakes(items[1..], t);
    } else if items[0].typeId == t {
      OneItemTakes(items[1..], s);
    } else {
      TwoItemsTake(items[1..], s, t);
    }
  }

  lemma ItemsInBody(data: seq<Byte>, s: U16, t: U16)
    requires s != t && ItemOf(data, s).Some? && ItemOf(data, t).Some?
    ensures 16 + |ItemOf(data, s).value.data| + |ItemOf(data, t).value.data| <= |data|
  {
    Cpf.EncodeAfterDecode(data[6..]);
    TwoItemsTake(Cpf.Decoded(data[6..]).value.items, s, t);
  }

  /** What a body's item really takes: one of length 2^16 takes nothing. */
  function SentLength(data: seq<Byte>): nat {
    if Low16(|data|) == 0 then 0 else |data|
  }

  lemma WrappedTakes(s: U16, a: seq<Byte>, t: U16, b: seq<Byte>)
    ensures |Wrapped(Cpf.NewItem(s, a), Cpf.NewItem(t, b))| == 16 + SentLength(a) + SentLength(b)
  {
    var first, second := Cpf.NewItem(s, a), Cpf.NewItem(t, b);
    assert [first, second][1..] == [second] && [second][1..] == [];
    assert Cpf.EncodedItems([second]) == Cpf.EncodedItem(second) + [];
  }

  // ---------- every reply is short ----------

  lemma UnitReplyIsShort(reg: Registry, data: seq<Byte>)
    requires AllEchoable(reg) && |data| <= MAX_PACKET_SIZE && UnitHandling(reg, data).body.Some?
    ensures |UnitHandling(reg, data).body.value| < 0x1_0000
  {
    hide Answer, ItemOf, Wrapped;
    var address, item := ItemOf(data, Cpf.CONNECTED_ADDRESS), ItemOf(data, Cpf.CONNECTED_DATA);
    ItemsInBody(data, Cpf.CONNECTED_ADDRESS, Cpf.CONNECTED_DATA);
    var pdu := item.value.data[2..];
    AnswerSize(reg, pdu);
    WrappedTakes(Cpf.CONNECTED_ADDRESS, address.value.data,
                 Cpf.CONNECTED_DATA, Put16(Get16(item.value.data, 0)) + Answer(reg, pdu).body.value);
  }

  lemma RRReplyIsShort(reg: Registry, data: seq<Byte>)
    requires AllEchoable(reg) && RRHandling(reg, data).body.Some?
    ensures |RRHandling(reg, data).body.value| < 0x1_0000
  {
    hide Answer, ItemOf, Wrapped;
    var item := ItemOf(data, Cpf.UNCONNECTED_MESSAGE);
    AnswerSize(reg, item.value.data);
    WrappedTakes(Cpf.NULL_ADDRESS, [], Cpf.UNCONNECTED_MESSAGE, Answer(reg, item.value.data).body.value);
  }

  lemma ReplyIsShort(reg: Registry, f: Frame)
    requires AllEchoable(reg) && Answerable(f)
    ensures |Serve(reg, f).reply.body| < 0x1_0000
  {
    hide RRHandling, UnitHandling;
    if f.header.command == SEND_RR_DATA && RRHandling(reg, f.body).body.Some? {
      RRReplyIsShort(reg, f.body);
    } else if f.header.command == SEND_UNIT_DATA && UnitHandling(reg, f.body).body.Some? {
      UnitReplyIsShort(reg, f.body);
    }
  }

  lemma AnswerKeepsEchoable(reg: Registry, pdu: seq<Byte>)
    requires AllEchoable(reg)
    ensures AllEchoable(Answer(reg, pdu).registry)
  {
    if DecodedRequest(pdu).Some? {
      var req := DecodedRequest(pdu).value;
      var head := Epath.PeelClass(req.path);
      if head.Some? && head.value.id in reg && reg[head.value.id].AssemblyEntry? {
        Assembly.HandleKeepsShape(reg[head.value.id].table, req.service, head.value.rest, req.data);
      }
    }
  }

  lemma ServeKeepsEchoable(reg: Registry, f: Frame)
    requires AllEchoable(reg)
    ensures AllEchoable(Serve(reg, f).registry)
  {
    hide Answer, ItemOf, AllEchoable;
    var rr, unit := ItemOf(f.body, Cpf.UNCONNECTED_MESSAGE), ItemOf(f.body, Cpf.CONNECTED_DATA);
    if rr.Some? { AnswerKeepsEchoable(reg, rr.value.data); }
    if unit.Some? && |unit.value.data| >= 2 { AnswerKeepsEchoable(reg, unit.value.data[2..]); }
  }

  lemma {:induction false} RepliesAreShort(reg: Registry, frames: seq<Frame>)
    requires AllEchoable(reg) && AllAnswerable(frames)
    ensures AllShort(Replies(reg, frames))
    decreases |frames|
  {
    hide AllEchoable, Serve;
    if frames != [] {
      ReplyIsShort(reg, frames[0]);
      ServeKeepsEchoable(reg, frames[0]);
      RepliesAreShort(Serve(reg, frames[0]).registry, frames[1..]);
    }
  }

  // ---------- and only then ----------

  /** A connected get in the largest frame the server accepts. */
  function FullGet(classId: U16, instanceId: U16): Frame {
    var pdu := EncodedRequest(EndToEnd.RequestOf(classId, EndToEnd.Get(instanceId, 3)));
    RequestFrame(SEND_UNIT_DATA, UnitBody(Zeros(4076 - PathLength(classId, instanceId)), 0, pdu), 0)
  }

  function PlainGet(classId: U16, instanceId: U16): Frame {
    var pdu := EncodedRequest(EndToEnd.RequestOf(classId, EndToEnd.Get(instanceId, 3)));
    RequestFrame(SEND_RR_DATA, RRBody(pdu), 0)
  }

  lemma GetPdu(classId: U16, instanceId: U16)
    ensures |EncodedRequest(EndToEnd.RequestOf(classId, EndToEnd.Get(instanceId, 3)))|
         == 2 + PathLength(classId, instanceId)
  {
    Epath.TargetBytes(classId, instanceId, 3);
  }

  lemma GetAnswer(reg: Registry, classId: U16, instanceId: U16)
    requires classId in reg && reg[classId].AssemblyEntry? && instanceId in reg[classId].table
    ensures var h := Answer(reg, EncodedRequest(EndToEnd.RequestOf(classId, EndToEnd.Get(instanceId, 3))));
            h.body.Some? && |h.body.value| == 4 + |reg[classId].table[instanceId]|
  {
    var op := EndToEnd.Get(instanceId, 3);
    EndToEnd.BuiltRequestFits(classId, op);
    EndToEnd.DispatchBuiltRequest(reg, classId, op);
    RequestRoundTripIff(EndToEnd.RequestOf(classId, op));
  }

  lemma FullGetReply(reg: Registry, classId: U16, instanceId: U16)
    requires classId in reg && reg[classId].AssemblyEntry? && instanceId in reg[classId].table
    ensures var f := FullGet(classId, instanceId);
            var n := |reg[classId].table[instanceId]|;
      && Answerable(f)
      && |Serve(reg, f).reply.body|
           == 4092 - PathLength(classId, instanceId) + (if Low16(n + 6) == 0 then 0 else n + 6)
  {
    hide Answer, ItemOf, Wrapped, EncodedRequest, RRHandling;
    var pdu := EncodedRequest(EndToEnd.RequestOf(classId, EndToEnd.Get(instanceId, 3)));
    var address := Zeros(4076 - PathLength(classId, instanceId));
    GetPdu(classId, instanceId);
    GetAnswer(reg, classId, instanceId);
    HandlersAgree(reg, pdu, address, 0);
    WrappedTakes(Cpf.CONNECTED_ADDRESS, address, Cpf.CONNECTED_DATA, Put16(0) + pdu);
    WrappedTakes(Cpf.CONNECTED_ADDRESS, address, Cpf.CONNECTED_DATA, Put16(0) + Answer(reg, pdu).body.value);
  }

  lemma PlainGetReply(reg: Registry, classId: U16, instanceId: U16)
    requires classId in reg && reg[classId].AssemblyEntry? && instanceId in reg[classId].table
    ensures var f := PlainGet(classId, instanceId);
            var n := |reg[classId].table[instanceId]|;
      && Answerable(f)
      && |Serve(reg, f).reply.body| == 16 + (if Low16(n + 4) == 0 then 0 else n + 4)
  {
    hide Answer, ItemOf, Wrapped, EncodedRequest, UnitHandling;
    var pdu := EncodedRequest(EndToEnd.RequestOf(classId, EndToEnd.Get(instanceId, 3)));
    GetPdu(classId, instanceId);
    GetAnswer(reg, classId, instanceId);
    HandlersAgree(reg, pdu, [0, 0, 0, 0], 0);
    WrappedTakes(Cpf.NULL_ADDRESS, [], Cpf.UNCONNECTED_MESSAGE, pdu);
    WrappedTakes(Cpf.NULL_ADDRESS, [], Cpf.UNCONNECTED_MESSAGE, Answer(reg, pdu).body.value);
  }

  lemma OneFrameReplies(reg: Registry, f: Frame)
    requires Answerable(f)
    ensures var b := EncodedFrame(f);
            Accepted(b) == [f] && Replies(reg, Accepted(b)) == [Serve(reg, f).reply]
  {
    hide Serve;
    AcceptCons(f, []);
    AddNothing(EncodedFrame(f));
    assert Accepted([]) == [] && [f] + [] == [f] && [f][1..] == [];
    assert Replies(Serve(reg, f).registry, []) == [] && [Serve(reg, f).reply] + [] == [Serve(reg, f).reply];
  }

  /** Whatever bytes the server is sent, the client's reading of its output
      gives the very replies it made.
   */
  ghost predicate ReadsEveryReply(reg: Registry) {
    forall b: seq<Byte> :: ReadFrames(ServeStream(reg, b).output) == Replies(reg, Accepted(b))
  }

  lemma LongReplyIsLost(reg: Registry, f: Frame)
    requires Answerable(f) && |Serve(reg, f).reply.body| >= 0x1_0000
    ensures !ReadsEveryReply(reg)
  {
    hide Serve;
    var b := EncodedFrame(f);
    OneFrameReplies(reg, f);
    ClientReadsRepliesIff(reg, b);
    assert Replies(reg, Accepted(b))[0] == Serve(reg, f).reply;
    assert ReadFrames(ServeStream(reg, b).output) != Replies(reg, Accepted(b));
  }

  /** Exactly the registries all of whose instances can be echoed. */
  lemma ReadsEveryReplyIff(reg: Registry)
    ensures ReadsEveryReply(reg) <==> AllEchoable(reg)
  {
    hide Serve, ServeStream;
    if AllEchoable(reg) {
      forall b: seq<Byte> ensures ReadFrames(ServeStream(reg, b).output) == Replies(reg, Accepted(b)) {
        AcceptedSplits(b);
        RepliesAreShort(reg, Accepted(b));
        ClientReadsRepliesIff(reg, b);
      }
    } else {
      var c: U16 :| c in reg && reg[c].AssemblyEntry? && !Echoable(c, reg[c].table);
      var i: U32 :| i in reg[c].table && i <= 0xFFFF && |reg[c].table[i]| > ECHO_LIMIT + PathLength(c, i);
      FullGetReply(reg, c, i);
      PlainGetReply(reg, c, i);
      if Low16(|reg[c].table[i]| + 6) != 0 {
        LongReplyIsLost(reg, FullGet(c, i));
      } else {
        LongReplyIsLost(reg, PlainGet(c, i));
      }
    }
  }
}
