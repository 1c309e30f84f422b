/** What every request is answered, in the numbers a client sees: general status
    codes, reply services, and the status of the encapsulation.
 */
module Answers {
  import opened Bytes
  import opened Cip
  import opened Encap
  import opened Message
  import opened Router
  import opened Server
  import opened EndToEnd
  import Assembly
  import ConnMgr
  import Cpf
  import Epath
  import Session

  // ---------- the router ----------

  /** A dispatch fails exactly for a path that does not begin with a complete
      class segment.
   */
  lemma DispatchFailsIff(reg: Registry, req: Request)
    ensures DispatchOf(reg, req).reply.Err? <==>
      !((|req.path| >= 2 && req.path[0] == 0x20) || (|req.path| >= 4 && req.path[0] == 0x21))
    ensures DispatchOf(reg, req).reply.Err? ==> DispatchOf(reg, req).registry == reg
  {
  }

  /** The class a path names. */
  lemma ClassNamed(path: seq<Byte>)
    ensures |path| >= 2 && path[0] == 0x20 ==> Epath.PeelClass(path) == Some(Epath.Peeled(path[1], path[2..]))
    ensures |path| >= 4 && path[0] == 0x21 ==>
              Epath.PeelClass(path) == Some(Epath.Peeled(Get16(path, 2), path[4..]))
  {
  }

  /** The instance and the attribute a path names to an assembly: a wide number
      follows a pad byte, a segment cut short is an error, and an attribute
      segment may be missing.
   */
  lemma InstanceNamed(path: seq<Byte>)
    ensures Epath.PeelHead(path, 0x24).Some? <==>
      (|path| >= 2 && path[0] == 0x24) || (|path| >= 4 && path[0] == 0x25)
    ensures |path| >= 2 && path[0] == 0x24 ==> Epath.PeelHead(path, 0x24) == Some(Epath.Peeled(path[1], path[2..]))
    ensures |path| >= 4 && path[0] == 0x25 ==>
              Epath.PeelHead(path, 0x24) == Some(Epath.Peeled(Get16(path, 2), path[4..]))
  {
  }

  lemma AttributeNamed(path: seq<Byte>)
    ensures Epath.PeelAttribute(path) ==
      if |path| >= 2 && path[0] == 0x30 then Some(path[1])
      else if |path| >= 4 && path[0] == 0x31 then Some(Get16(path, 2))
      else if |path| >= 1 && (path[0] == 0x30 || path[0] == 0x31) then None
      else Some(0)
  {
  }

  /** Every answered request: the reply service is the request's with the reply
      bit set. The status is 0x16 for an unknown class, otherwise it is 0 exactly
      when the object's call succeeded, the status of a CIP error, or 0x08 for
      any other error; only a success carries data, and it is the call's.
   */
  lemma StatusOf(reg: Registry, req: Request)
    requires DispatchOf(reg, req).reply.Ok?
    ensures var r := DispatchOf(reg, req).reply.value;
            var head := Epath.PeelClass(req.path);
      && r.service >= 0x80 && r.service % 0x80 == req.service % 0x80 && r.reserved == 0
      && head.Some?
      && (head.value.id !in reg ==> r.status == 0x16 && r.ext == [] && r.data == [])
      && (head.value.id in reg ==>
            var result := HandleEntry(reg[head.value.id], req.service, head.value.rest, req.data).result;
            match result
            case Ok(data) => r.status == 0 && r.ext == [] && r.data == data
            case Err(CipError(status, ext)) => r.status == status && r.ext == ext && r.data == []
            case Err(Other) => r.status == 0x08 && r.ext == [] && r.data == [])
  {
  }

  /** An object's CIP error, status words included. */
  lemma ErrorReplied(service: Byte, status: Byte, ext: seq<U16>)
    ensures var r := Reply(service, Err(CipError(status, ext)));
            r.status == status && r.ext == ext && r.extSize == |ext| % 0x100 && r.data == []
  {
  }

  // ---------- attributes ----------

  /** A get: the data of an existing instance's attribute 3 with status 0, and
      otherwise the status that says what is missing.
   */
  lemma GetAnswered(reg: Registry, classId: U16, instanceId: U16, attributeId: U16)
    requires classId in reg && reg[classId].AssemblyEntry?
    ensures var t := reg[classId].table;
            DispatchOf(reg, RequestOf(classId, Get(instanceId, attributeId)))
              == Dispatched(Ok(
                   if attributeId == 0 then Response(0x8E, 0, 0x04, 0, [], [])
                   else if instanceId !in t then Response(0x8E, 0, 0x16, 0, [], [])
                   else if attributeId != 3 then Response(0x8E, 0, 0x14, 0, [], [])
                   else Response(0x8E, 0, 0x00, 0, [], t[instanceId])), reg)
  {
    DispatchBuiltRequest(reg, classId, Get(instanceId, attributeId));
    assert reg[classId := reg[classId]] == reg;
  }

  /** A set: status 0 and the entry replaced exactly for data of the size of an
      existing instance's attribute 3.
   */
  lemma SetAnswered(reg: Registry, classId: U16, instanceId: U16, attributeId: U16, data: seq<Byte>)
    requires classId in reg && reg[classId].AssemblyEntry?
    ensures var t := reg[classId].table;
            DispatchOf(reg, RequestOf(classId, Set(instanceId, attributeId, data))) ==
              if attributeId == 0 then Dispatched(Ok(Response(0x90, 0, 0x04, 0, [], [])), reg)
              else if instanceId !in t then Dispatched(Ok(Response(0x90, 0, 0x16, 0, [], [])), reg)
              else if attributeId != 3 then Dispatched(Ok(Response(0x90, 0, 0x14, 0, [], [])), reg)
              else if |data| != |t[instanceId]| then Dispatched(Ok(Response(0x90, 0, 0x09, 0, [], [])), reg)
              else Dispatched(Ok(Response(0x90, 0, 0x00, 0, [], [])),
                              reg[classId := AssemblyEntry(t[instanceId := data])])
  {
    DispatchBuiltRequest(reg, classId, Set(instanceId, attributeId, data));
    assert reg[classId := reg[classId]] == reg;
  }

  /** Any service but these two on an assembly: 0x08 when the path names an
      instance, 0x04 when it does not.
   */
  lemma OtherServiceAnswered(t: Assembly.Table, service: Byte, path: seq<Byte>, data: seq<Byte>)
    requires service != 0x0E && service != 0x10
    ensures var step := Assembly.Handle(t, service, path, data);
      && step.table == t
      && (step.result == Fail(0x08) || step.result == Fail(0x04))
      && (step.result == Fail(0x08) <==>
            Epath.PeelHead(path, 0x24).Some? && Epath.PeelAttribute(Epath.PeelHead(path, 0x24).value.rest).Some?)
  {
  }

  /** The same answers over the wire. */
  lemma GetAnsweredOverTheWire(reg: Registry, handle: U32, classId: U16, instanceId: U16)
    requires classId in reg && reg[classId].AssemblyEntry? && Readable(reg[classId].table)
    requires instanceId in reg[classId].table
    ensures Session.WireCall(reg, handle, RequestOf(classId, Get(instanceId, 3)))
         == Session.Exchanged(Some(Response(0x8E, 0, 0x00, 0, [], reg[classId].table[instanceId])), reg)
  {
    var op := Get(instanceId, 3);
    BuiltRequestFits(classId, op);
    WireCallIsTableCall(reg, handle, classId, op);
    assert reg[classId := reg[classId]] == reg;
  }

  lemma SetAnsweredOverTheWire(reg: Registry, handle: U32, classId: U16, instanceId: U16, data: seq<Byte>)
    requires classId in reg && reg[classId].AssemblyEntry? && Readable(reg[classId].table)
    requires instanceId in reg[classId].table && OpFits(classId, Set(instanceId, 3, data))
    ensures var t := reg[classId].table;
            Session.WireCall(reg, handle, RequestOf(classId, Set(instanceId, 3, data))) ==
              if |data| != |t[instanceId]| then
                Session.Exchanged(Some(Response(0x90, 0, 0x09, 0, [], [])), reg)
              else
                Session.Exchanged(Some(Response(0x90, 0, 0x00, 0, [], [])),
                                  reg[classId := AssemblyEntry(t[instanceId := data])])
  {
    WireCallIsTableCall(reg, handle, classId, Set(instanceId, 3, data));
    assert reg[classId := reg[classId]] == reg;
  }

  // ---------- the Connection Manager ----------

  /** A Forward_Open dispatched to a Connection Manager: status 0, the reply of
      26 bytes, and the connection stored; without a path in the request, 0x08
      and no change.
   */
  lemma OpenAnswered(reg: Registry, classId: Byte, instance: Byte, r: ConnMgr.OpenRequest)
    requires classId in reg && reg[classId].ManagerEntry? && ConnMgr.Narrow(r)
    ensures var s := reg[classId].state;
            var id := Low32(s.nextId + 1);
            var d := DispatchOf(reg, Request(0x54, [0x20, classId, 0x24, instance], ConnMgr.EncodedOpen(r)));
      if r.path == [] then d == Dispatched(Ok(Response(0xD4, 0, 0x08, 0, [], [])), reg)
      else
        && d.reply == Ok(Response(0xD4, 0, 0x00, 0, [], ConnMgr.OpenReply(r, id)))
        && d.registry == reg[classId := ManagerEntry(ConnMgr.State(
             s.connections[id := ConnMgr.Connection(r.head.otId, id)], id))]
  {
    var path := [0x20, classId, 0x24, instance];
    assert path[0] == 0x20;
    assert reg[classId := reg[classId]] == reg;
    if r.path == [] {
      assert |ConnMgr.EncodedOpen(r)| == 36;
    } else {
      ConnMgr.ParseEncodedOpen(r);
    }
  }

  /** Services other than 0x4E, 0x54 and 0x5B are not supported; a close never
      changes the state.
   */
  lemma ManagerServices(s: ConnMgr.State, service: Byte, data: seq<Byte>)
    ensures service != 0x4E && service != 0x54 && service != 0x5B ==>
              ConnMgr.Handle(s, service, data) == ConnMgr.Step(Fail(0x08), s)
    ensures service == 0x4E ==> ConnMgr.Handle(s, service, data) == ConnMgr.Step(ConnMgr.Close(data), s)
    ensures service == 0x54 || service == 0x5B ==>
              (ConnMgr.Handle(s, service, data).result.Ok? <==> |data| > if service == 0x54 then 36 else 40)
  {
  }

  // ---------- the encapsulation ----------

  /** The frames the server answers: whole, of at most 4096 bytes, and not an
      Unregister.
   */
  lemma AnswerableIff(f: Frame)
    ensures Answerable(f) <==> f.header.length == |f.body| <= 4096 && f.header.command != 0x66
  {
  }

  /** The frames the server closes the connection on, as soon as it sees them. */
  lemma RefusedIff(f: Frame, rest: seq<Byte>)
    requires Encap.Exact(f)
    ensures Refused(EncodedFrame(f) + rest) <==> |f.body| > 4096 || f.header.command == 0x66
  {
    FirstFrameOfEncoded(f, rest);
    assert EncodedFrame(f) + rest == EncodedHeader(f.header) + (f.body + rest);
    HeaderOfEncoded(f.header, f.body + rest);
  }

  /** A handler fails on a body without the items it needs, or when the request
      in them cannot be decoded or dispatched.
   */
  predicate Fails(reg: Registry, pdu: seq<Byte>) {
    DecodedRequest(pdu).None? || DispatchOf(reg, DecodedRequest(pdu).value).reply.Err?
  }

  predicate RRFails(reg: Registry, data: seq<Byte>) {
    ItemOf(data, 0xB2).None? || Fails(reg, ItemOf(data, 0xB2).value.data)
  }

  predicate UnitFails(reg: Registry, data: seq<Byte>) {
    || ItemOf(data, 0xA1).None? || |ItemOf(data, 0xA1).value.data| < 4
    || ItemOf(data, 0xB1).None? || |ItemOf(data, 0xB1).value.data| < 2
    || Fails(reg, ItemOf(data, 0xB1).value.data[2..])
  }

  /** Every reply has status 0 or 1. It is 1, with an empty body, exactly for an
      unsupported command and for a SendRRData or SendUnitData that fails; then
      no object has changed.
   */
  lemma FailureStatusIff(reg: Registry, f: Frame)
    ensures var s := Serve(reg, f);
      && (s.reply.header.status == 0 || s.reply.header.status == 1)
      && (s.reply.header.status == 1 <==>
            match f.header.command
            case 0x65 => false
            case 0x6F => RRFails(reg, f.body)
            case 0x70 => UnitFails(reg, f.body)
            case _ => true)
      && (s.reply.header.status == 1 ==> s.reply.body == [] && s.registry == reg)
      && (s.reply.header.status == 0 ==> s.reply.body != [])
  {
    hide DispatchOf, DecodedRequest, EncodedResponse;
    FailuresChangeNothing(reg, f);
    if f.header.command == 0x6F && !RRFails(reg, f.body) {
      RRBodyIsLong(Answer(reg, ItemOf(f.body, 0xB2).value.data).body.value);
    } else if f.header.command == 0x70 && !UnitFails(reg, f.body) {
      UnitBodyIsLong(ItemOf(f.body, 0xA1).value.data, Get16(ItemOf(f.body, 0xB1).value.data, 0),
                     Answer(reg, ItemOf(f.body, 0xB1).value.data[2..]).body.value);
    }
  }

  lemma FailuresChangeNothing(reg: Registry, f: Frame)
    ensures ItemOf(f.body, 0xB2).Some? ==>
              var h := Answer(reg, ItemOf(f.body, 0xB2).value.data); h.body.None? ==> h.registry == reg
    ensures ItemOf(f.body, 0xB1).Some? && |ItemOf(f.body, 0xB1).value.data| >= 2 ==>
              var h := Answer(reg, ItemOf(f.body, 0xB1).value.data[2..]); h.body.None? ==> h.registry == reg
  {
    hide ItemOf;
  }

  lemma RRBodyIsLong(pdu: seq<Byte>)
    ensures |RRBody(pdu)| >= 6
  {
  }

  lemma UnitBodyIsLong(address: seq<Byte>, sequence: U16, pdu: seq<Byte>)
    ensures |UnitBody(address, sequence, pdu)| >= 6
  {
  }

  /** A Register is answered with the handle, protocol version 1 and no options. */
  lemma RegisterAnswered(reg: Registry, f: Frame)
    requires f.header.command == 0x65
    ensures var s := Serve(reg, f);
      && s.registry == reg && s.reply.body == [1, 0, 0, 0]
      && s.reply.header == Header(0x65, 4, 0x01020304, 0, f.header.context, 0)
  {
  }

  /** A reply with a failure status is an error to the client, whatever its body. */
  lemma FailureIsSeen(f: Frame)
    requires f.header.status != 0
    ensures Session.ReplyPdu(Some(f)) == None
  {
  }
}
