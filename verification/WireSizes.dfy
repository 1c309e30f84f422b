/** The sizes for which going over the wire equals calling the objects
    directly: none of the bounds can be relaxed.
 */
module WireSizes {
  import opened Bytes
  import opened Cip
  import opened Message
  import opened Router
  import opened Server
  import opened Session
  import opened Exchanges
  import opened EndToEnd
  import Assembly
  import Epath

  // ---------- a request whose length wraps ----------

  /** A set of 2^16 times m bytes too many is refused by a direct call. Over
      the wire the instance is overwritten with the first bytes, the client is
      told so, and the bytes after them are read as further frames.
   */
  lemma LongSetIsStored(reg: Registry, handle: U32, classId: U16, instanceId: U16, data: seq<Byte>, m: nat)
    requires classId in reg && reg[classId].AssemblyEntry? && instanceId in reg[classId].table && m > 0
    requires |data| == |reg[classId].table[instanceId]| + m * 0x1_0000
    requires |RequestOf(classId, Set(instanceId, 3, data)).path| + |reg[classId].table[instanceId]| <= MAX_REQUEST
    ensures var req := RequestOf(classId, Set(instanceId, 3, data));
            var t := reg[classId].table;
            var size := |t[instanceId]|;
      && DispatchOf(reg, req) == Dispatched(Ok(Reply(req.service, Fail(INVALID_ATTRIBUTE_VALUE))), reg)
      && WireCall(reg, handle, req) ==
           Exchanged(Some(Reply(req.service, Ok([]))),
                     ServeStream(reg[classId := AssemblyEntry(t[instanceId := data[..size]])], data[size..]).registry)
  {
    hide DispatchOf, WireCall, EncodedRequest, ServeStream, ReplyFits, CutAt;
    var t := reg[classId].table;
    var size := |t[instanceId]|;
    var long, short := Set(instanceId, 3, data), Set(instanceId, 3, data[..size]);
    var req := RequestOf(classId, long);
    DispatchBuiltRequest(reg, classId, long);
    DispatchBuiltRequest(reg, classId, short);
    assert reg[classId := reg[classId]] == reg;
    LongSetIsCut(classId, instanceId, data, size, m);
    OkFits(req.service, reg[classId := AssemblyEntry(t[instanceId := data[..size]])]);
    CutIsExecuted(reg, handle, req, size);
  }

  lemma LongSetIsCut(classId: U16, instanceId: U16, data: seq<Byte>, size: nat, m: nat)
    requires |data| == size + m * 0x1_0000
    requires |RequestOf(classId, Set(instanceId, 3, data)).path| + size <= MAX_REQUEST
    ensures var req := RequestOf(classId, Set(instanceId, 3, data));
      && CutAt(req, size) && Cut(req, size) == RequestOf(classId, Set(instanceId, 3, data[..size]))
  {
    var req := RequestOf(classId, Set(instanceId, 3, data));
    BuiltRequestFits(classId, Set(instanceId, 3, data[..size]));
    LowOfMultiple(2 + |req.path| + size, m);
  }

  lemma OkFits(service: Byte, reg: Registry)
    ensures ReplyFits(Dispatched(Ok(Reply(service, Ok([]))), reg))
  {
  }

  lemma LowOfMultiple(n: nat, m: nat)
    requires n < 0x1_0000
    ensures Low16(n + m * 0x1_0000) == n
  {
  }

  // ---------- which request sizes are safe ----------

  /** Every request of this size that a direct call answers fares the same over
      the wire, whatever is registered.
   */
  ghost predicate SizeAgrees(size: nat) {
    forall reg: Registry, handle: U32, req: Request |
      Small(reg) && Transmissible(req) && DispatchOf(reg, req).reply.Ok? && |req.path| + |req.data| == size ::
      WireCall(reg, handle, req) == Seen(DispatchOf(reg, req))
  }

  /** A set of a table's only instance with data of the wrong size. */
  function WrongSet(size: nat): Op
    requires size >= 6
  {
    Set(1, 3, Zeros(size - 6))
  }

  function OnlyInstance(length: nat): Registry {
    map[4 := AssemblyEntry(map[1 := Zeros(length)])]
  }

  /** When every instance has the size of the data, no set has the wrong size. */
  lemma NeverInvalid(t: Assembly.Table, service: Byte, path: seq<Byte>, data: seq<Byte>)
    requires forall i | i in t :: |t[i]| == |data|
    ensures Assembly.Handle(t, service, path, data).result != Fail(INVALID_ATTRIBUTE_VALUE)
  {
  }

  lemma OtherReply(req: Request)
    ensures var reg := OnlyInstance(|req.data|);
            DispatchOf(reg, req).reply != Ok(Reply(req.service, Fail(INVALID_ATTRIBUTE_VALUE)))
  {
    var reg := OnlyInstance(|req.data|);
    var head := Epath.PeelClass(req.path);
    if head.Some? && head.value.id in reg {
      NeverInvalid(reg[4].table, req.service, head.value.rest, req.data);
    }
  }

  lemma WrongSetIsAnswered(size: nat, length: nat)
    requires 6 <= size && length != size - 6
    ensures var req := RequestOf(4, WrongSet(size));
      && |req.path| == 6 && |req.data| == size - 6 && Transmissible(req)
      && EncodedRequest(req)[0] == req.service && EncodedRequest(req)[1] == 3
      && DispatchOf(OnlyInstance(length), req).reply == Ok(Reply(req.service, Fail(INVALID_ATTRIBUTE_VALUE)))
  {
    Epath.TargetBytes(4, 1, 3);
    DispatchBuiltRequest(OnlyInstance(length), 4, WrongSet(size));
  }

  /** What is left of a request of n bytes, six of them path. */
  function Left(n: nat): nat {
    if n >= 8 then n - 8 else 0
  }

  lemma LeftOfCut(p: seq<Byte>)
    requires DecodedRequest(p).Some? && p[1] == 3
    ensures |DecodedRequest(p).value.data| == Left(|p|) && DecodedRequest(p).value.service == p[0]
  {
  }

  lemma LargeSizeDisagrees(size: nat)
    requires size > MAX_REQUEST
    ensures !SizeAgrees(size)
  {
    hide DispatchOf, WireCall, EncodedRequest, ServeStream, DecodedRequest, Transmissible;
    var req := RequestOf(4, WrongSet(size));
    var pdu := EncodedRequest(req);
    var length := if Wraps(req) && Carried(pdu).Some? then Left(|Carried(pdu).value|) else 0;
    EncodedLength(req);
    WrongSetIsAnswered(size, length);
    var reg := OnlyInstance(length);
    WireEqualsDirectIff(reg, 0, req);
    if Wraps(req) && Carried(pdu).Some? && DecodedRequest(Carried(pdu).value).Some? {
      var p := Carried(pdu).value;
      DecodedIsLong(p);
      assert p[0] == pdu[0] && p[1] == pdu[1];
      LeftOfCut(p);
      OtherReply(DecodedRequest(p).value);
    }
    assert WireCall(reg, 0, req) != Seen(DispatchOf(reg, req));
  }

  lemma EncodedLength(req: Request)
    ensures |EncodedRequest(req)| == 2 + |req.path| + |req.data|
  {
  }

  lemma DecodedIsLong(p: seq<Byte>)
    requires DecodedRequest(p).Some?
    ensures |p| > 2
  {
  }

  /** Of all sizes of path and data together, exactly those up to 4078 bytes
      are safe.
   */
  lemma SizeAgreesIff(size: nat)
    ensures SizeAgrees(size) <==> size <= MAX_REQUEST
  {
    hide DispatchOf, WireCall, Transmissible;
    if size <= MAX_REQUEST {
      forall reg: Registry, handle: U32, req: Request |
        Small(reg) && Transmissible(req) && DispatchOf(reg, req).reply.Ok? && |req.path| + |req.data| == size
        ensures WireCall(reg, handle, req) == Seen(DispatchOf(reg, req))
      {
        DispatchStaysSmall(reg, req);
        WireEqualsDirect(reg, handle, req);
      }
    } else {
      LargeSizeDisagrees(size);
    }
  }

  // ---------- which assemblies are safe ----------

  /** A get of an existing instance agrees exactly when the instance has at
      most 65515 bytes.
   */
  lemma GetAgreesIff(reg: Registry, handle: U32, classId: U16, instanceId: U16)
    requires classId in reg && reg[classId].AssemblyEntry? && instanceId in reg[classId].table
    ensures var req := RequestOf(classId, Get(instanceId, 3));
            WireCall(reg, handle, req) == Seen(DispatchOf(reg, req)) <==>
              |reg[classId].table[instanceId]| <= MAX_ASSEMBLY
  {
    hide WireCall, DispatchOf, EncodedRequest, ServeStream, DecodedRequest;
    var op := Get(instanceId, 3);
    var req := RequestOf(classId, op);
    var data := reg[classId].table[instanceId];
    BuiltRequestFits(classId, op);
    DispatchBuiltRequest(reg, classId, op);
    var response := Reply(GET_ATTRIBUTE_SINGLE, Ok(data));
    if |data| <= MAX_ASSEMBLY {
      WireEqualsDirect(reg, handle, req);
    } else {
      GetIsAnswered(reg, handle, req, response);
      LongReplyIsCut(response);
    }
  }

  lemma GetIsAnswered(reg: Registry, handle: U32, req: Request, response: Response)
    requires Fits(req) && DispatchOf(reg, req).reply == Ok(response)
    ensures WireCall(reg, handle, req).reply ==
      if Carried(EncodedResponse(response)).None? then None
      else DecodedResponse(Carried(EncodedResponse(response)).value)
  {
    hide DispatchOf, EncodedResponse, DecodedResponse;
    WholeRequest(reg, req);
    AnyExchange(reg, handle, EncodedRequest(req));
  }

  lemma LongReplyIsCut(response: Response)
    requires response.extSize == 0 && response.ext == [] && |response.data| > MAX_ASSEMBLY
    ensures Carried(EncodedResponse(response)).Some? ==>
            DecodedResponse(Carried(EncodedResponse(response)).value) != Some(response)
  {
  }

  /** Every run of attribute calls agrees. */
  ghost predicate RunsAgree(reg: Registry, handle: U32, classId: U16)
    requires classId in reg && reg[classId].AssemblyEntry?
  {
    forall ops: seq<Op> | AllFit(classId, ops) ::
      WireRun(reg, handle, Requests(classId, ops)) == DirectRun(reg, Requests(classId, ops))
  }

  /** Exactly the assemblies whose instances can all be read are safe. */
  lemma RunsAgreeIff(reg: Registry, handle: U32, classId: U16)
    requires classId in reg && reg[classId].AssemblyEntry?
    ensures RunsAgree(reg, handle, classId) <==> Readable(reg[classId].table)
  {
    hide WireCall, DispatchOf, RequestOf, OpFits;
    var t := reg[classId].table;
    if Readable(t) {
      forall ops: seq<Op> | AllFit(classId, ops)
        ensures WireRun(reg, handle, Requests(classId, ops)) == DirectRun(reg, Requests(classId, ops))
      {
        AttributeCallsOverTheWire(reg, handle, classId, ops);
        DirectRunIsTableRun(reg, classId, ops);
      }
    } else {
      var i: U32 :| i in t && i <= 0xFFFF && |t[i]| > MAX_ASSEMBLY;
      OneGet(reg, handle, classId, i);
      GetAgreesIff(reg, handle, classId, i);
    }
  }

  lemma OneGet(reg: Registry, handle: U32, classId: U16, instanceId: U16)
    requires classId in reg && reg[classId].AssemblyEntry?
    ensures var ops := [Get(instanceId, 3)];
            var req := RequestOf(classId, ops[0]);
      && AllFit(classId, ops)
      && (WireRun(reg, handle, Requests(classId, ops)) == DirectRun(reg, Requests(classId, ops)) ==>
          WireCall(reg, handle, req) == Seen(DispatchOf(reg, req)))
  {
    hide WireCall, DispatchOf, RequestOf, OpFits;
    var ops := [Get(instanceId, 3)];
    var reqs := Requests(classId, ops);
    BuiltRequestFits(classId, ops[0]);
    assert reqs == [RequestOf(classId, ops[0])] && reqs[1..] == [];
    var e, f := WireCall(reg, handle, reqs[0]), Seen(DispatchOf(reg, reqs[0]));
    assert WireRun(e.registry, handle, []) == Ran([], e.registry) && DirectRun(f.registry, []) == Ran([], f.registry);
    assert WireRun(reg, handle, reqs) == Ran([e.reply] + [], e.registry);
    assert DirectRun(reg, reqs) == Ran([f.reply] + [], f.registry);
    assert ([e.reply] + [])[0] == e.reply && ([f.reply] + [])[0] == f.reply;
  }
}
