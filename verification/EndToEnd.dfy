/** Going over the wire equals calling the objects directly. */
module EndToEnd {
  import opened Bytes
  import opened Cip
  import opened Encap
  import opened Message
  import opened Router
  import opened Server
  import opened Session
  import opened Exchanges
  import Assembly
  import ConnMgr
  import Epath

  // ---------- one call ----------

  /** The largest request, and the largest assembly, that fit their frames. */
  const MAX_REQUEST := 4078
  const MAX_ASSEMBLY := 65515

  predicate Fits(req: Request) {
    Transmissible(req) && |req.path| + |req.data| <= MAX_REQUEST
  }

  predicate ReplyFits(d: Dispatched) {
    d.reply.Ok? ==> |EncodedResponse(d.reply.value)| <= 4 + MAX_ASSEMBLY
  }

  /** Every entry that a path can name fits a reply. */
  predicate Readable(t: Assembly.Table) {
    forall i | i in t && i <= 0xFFFF :: |t[i]| <= MAX_ASSEMBLY
  }

  predicate Small(reg: Registry) {
    forall c | c in reg && reg[c].AssemblyEntry? :: Readable(reg[c].table)
  }

  lemma EntryStaysSmall(e: Entry, service: Byte, path: seq<Byte>, data: seq<Byte>)
    requires e.AssemblyEntry? ==> Readable(e.table)
    ensures var h := HandleEntry(e, service, path, data);
      && (h.entry.AssemblyEntry? ==> Readable(h.entry.table))
      && (h.result.Ok? ==> |h.result.value| <= MAX_ASSEMBLY)
      && (h.result.Err? && h.result.error.CipError? ==> h.result.error.ext == [])
  {
    match e
    case AssemblyEntry(t) => Assembly.HandleKeepsShape(t, service, path, data);
    case ManagerEntry(s) =>
      if service == ConnMgr.FORWARD_OPEN && ConnMgr.ParseOpen(data).Some? {
        ConnMgr.OpenReplyFields(ConnMgr.ParseOpen(data).value, Low32(s.nextId + 1));
      } else if service == ConnMgr.LARGE_FORWARD_OPEN && ConnMgr.ParseLargeOpen(data).Some? {
        ConnMgr.OpenReplyFields(ConnMgr.ParseLargeOpen(data).value, Low32(s.nextId + 1));
      }
  }

  lemma DispatchStaysSmall(reg: Registry, req: Request)
    requires Small(reg)
    ensures Small(DispatchOf(reg, req).registry) && ReplyFits(DispatchOf(reg, req))
  {
    var head := Epath.PeelClass(req.path);
    if head.Some? && head.value.id in reg {
      EntryStaysSmall(reg[head.value.id], req.service, head.value.rest, req.data);
    }
  }

  /** What a client sees of a direct call. */
  function Seen(d: Dispatched): Exchanged<Response> {
    Exchanged(if d.reply.Ok? then Some(d.reply.value) else None, d.registry)
  }

  /** What a client sees when the server answers what a frame carried. */
  lemma AnswerSeen(reg: Registry, req: Request, pdu: seq<Byte>)
    requires DecodedRequest(pdu) == Some(req) && ReplyFits(DispatchOf(reg, req))
    ensures var h, d := Answer(reg, pdu), DispatchOf(reg, req);
      && h.registry == d.registry
      && (d.reply.Err? ==> h.body == None)
      && (d.reply.Ok? ==> h.body.Some? && Carried(h.body.value) == h.body &&
                          DecodedResponse(h.body.value) == Some(d.reply.value))
  {
    hide DispatchOf, DecodedRequest, EncodedResponse, DecodedResponse;
    var d := DispatchOf(reg, req);
    if d.reply.Ok? {
      DispatchReplyIsExact(reg, req);
      ResponseRoundTripIff(d.reply.value);
      var answer := EncodedResponse(d.reply.value);
      assert answer[..|answer|] == answer;
    }
  }

  lemma WholeRequest(reg: Registry, req: Request)
    requires Fits(req)
    ensures var pdu := EncodedRequest(req);
      && Claimed(pdu) <= MAX_PACKET_SIZE && Carried(pdu) == Some(pdu) && Surplus(pdu) == []
      && DecodedRequest(pdu) == Some(req)
  {
    var pdu := EncodedRequest(req);
    RequestRoundTripIff(req);
    SurplusIs(pdu);
    assert pdu[..|pdu|] == pdu;
  }

  /** For a request and a reply that fit: the reply the client decodes and the
      state the server reaches are those of a direct Dispatch, a Dispatch error
      being an error to the client too, and nothing is left in flight.
   */
  lemma WireEqualsDirect(reg: Registry, handle: U32, req: Request)
    requires Fits(req) && ReplyFits(DispatchOf(reg, req))
    ensures WireCall(reg, handle, req) == Seen(DispatchOf(reg, req))
    ensures Settled(ServeStream(reg, EncodedFrame(RRRequest(handle, EncodedRequest(req)))))
  {
    hide Carried, Claimed, Surplus, DispatchOf, Answer, EncodedRequest, EncodedFrame, RRBody, EncodedResponse;
    var pdu := EncodedRequest(req);
    WholeRequest(reg, req);
    AnyExchange(reg, handle, pdu);
    AnswerSeen(reg, req, pdu);
    NothingInFlight(reg, handle, pdu);
  }

  lemma NothingInFlight(reg: Registry, handle: U32, pdu: seq<Byte>)
    requires Claimed(pdu) <= MAX_PACKET_SIZE && Surplus(pdu) == []
    requires var h := AnswerCarried(reg, pdu); h.body.Some? ==> Carried(h.body.value) == Some(h.body.value)
    ensures Settled(ServeStream(reg, EncodedFrame(RRRequest(handle, pdu))))
  {
    hide Answer, AnswerCarried;
    RequestServed(reg, handle, pdu);
    var h := AnswerCarried(reg, pdu);
    var s := ReplyTo(RRRequest(handle, pdu).header, InRR(h));
    if h.body.Some? {
      ClaimedIs(h.body.value);
      RRBodyBytes(h.body.value);
    }
    OneReply(s.reply);
    assert EncodedFrame(s.reply) + [] == EncodedFrame(s.reply);
  }

  // ---------- requests that are too long ----------

  /** A request is refused for its size exactly when its length modulo 2^16 is
      above the server's limit: the client gets an error and nothing changes.
   */
  lemma OversizedIsRefused(reg: Registry, handle: U32, req: Request)
    ensures Refused(EncodedFrame(RRRequest(handle, EncodedRequest(req)))) <==>
            (|req.path| + |req.data| + 18) % 0x1_0000 > MAX_PACKET_SIZE
    ensures (|req.path| + |req.data| + 18) % 0x1_0000 > MAX_PACKET_SIZE ==>
            WireCall(reg, handle, req) == Exchanged(None, reg)
  {
    var pdu := EncodedRequest(req);
    assert Claimed(pdu) == (|req.path| + |req.data| + 18) % 0x1_0000;
    AnyExchange(reg, handle, pdu);
    RefusedIff(handle, pdu);
  }

  lemma RefusedIff(handle: U32, pdu: seq<Byte>)
    ensures Refused(EncodedFrame(RRRequest(handle, pdu))) <==> Claimed(pdu) > MAX_PACKET_SIZE
  {
    hide RRBody, EncodedHeader, Claimed, Surplus;
    ClaimedIs(pdu);
    RequestArrives(handle, pdu);
    HeaderOfEncoded(RRRequest(handle, pdu).header, RRBody(pdu));
  }

  /** A length that wraps to an acceptable one is not refused: the server reads
      a request of the right form whose data ends early.
   */
  predicate Wraps(req: Request) {
    |EncodedRequest(req)| >= 0x1_0000 && Claimed(EncodedRequest(req)) <= MAX_PACKET_SIZE
  }

  /** The request of which the server reads n bytes of data, because its
      length wraps.
   */
  predicate CutAt(req: Request, n: nat) {
    && Transmissible(req) && n <= |req.data|
    && Low16(|EncodedRequest(req)|) == 2 + |req.path| + n <= MAX_REQUEST + 2
    && |req.path| + n > 0
  }

  function Cut(req: Request, n: nat): Request
    requires n <= |req.data|
  {
    req.(data := req.data[..n])
  }

  lemma CutIsCarried(req: Request, n: nat)
    requires CutAt(req, n)
    ensures var pdu := EncodedRequest(req);
      && Claimed(pdu) <= MAX_PACKET_SIZE && Carried(pdu).Some? && Surplus(pdu) == req.data[n..]
      && DecodedRequest(Carried(pdu).value) == Some(Cut(req, n))
  {
    var pdu := EncodedRequest(req);
    assert pdu[..2 + |req.path| + n] == EncodedRequest(Cut(req, n));
    RequestRoundTripIff(Cut(req, n));
    LowOfSum(|pdu|);
    SurplusIs(pdu);
    assert pdu[2 + |req.path| + n..] == req.data[n..];
  }

  /** Such a request is executed without the rest of its data, answered, and
      the rest is read as further frames.
   */
  lemma CutIsExecuted(reg: Registry, handle: U32, req: Request, n: nat)
    requires CutAt(req, n) && ReplyFits(DispatchOf(reg, Cut(req, n)))
    ensures var d := DispatchOf(reg, Cut(req, n));
            WireCall(reg, handle, req) ==
              Exchanged(Seen(d).reply, ServeStream(d.registry, req.data[n..]).registry)
  {
    hide Cut, Carried, Claimed, Surplus, DispatchOf, Answer, EncodedRequest, EncodedResponse, RRBody, ServeStream;
    var pdu := EncodedRequest(req);
    CutIsCarried(req, n);
    AnyExchange(reg, handle, pdu);
    AnswerSeen(reg, Cut(req, n), Carried(pdu).value);
  }

  /** The request cut short has the same reply, and with whatever frames the
      surplus makes it has the same effect.
   */
  predicate CutAgrees(reg: Registry, req: Request) {
    var pdu := EncodedRequest(req);
    Carried(pdu).Some? && DecodedRequest(Carried(pdu).value).Some? &&
    var cut := DispatchOf(reg, DecodedRequest(Carried(pdu).value).value);
    && cut.reply == DispatchOf(reg, req).reply
    && ServeStream(cut.registry, Surplus(pdu)).registry == DispatchOf(reg, req).registry
  }

  /** When the wire agrees with a direct call that answers: for a request whose
      length does not wrap to an acceptable one, exactly when path and data
      have at most 4078 bytes; for one whose length does, exactly when the
      request cut short has the same effect.
   */
  lemma WireEqualsDirectIff(reg: Registry, handle: U32, req: Request)
    requires Small(reg) && Transmissible(req) && DispatchOf(reg, req).reply.Ok?
    ensures WireCall(reg, handle, req) == Seen(DispatchOf(reg, req)) <==>
            if Wraps(req) then CutAgrees(reg, req) else |req.path| + |req.data| <= MAX_REQUEST
  {
    hide DispatchOf, Answer, RRBody, ServeStream;
    var pdu := EncodedRequest(req);
    if Claimed(pdu) > MAX_PACKET_SIZE {
      OversizedIsRefused(reg, handle, req);
    } else if |pdu| < 0x1_0000 && Carried(pdu).Some? {
      DispatchStaysSmall(reg, req);
      WireEqualsDirect(reg, handle, req);
    } else {
      AnyExchange(reg, handle, pdu);
      if Carried(pdu).Some? && DecodedRequest(Carried(pdu).value).Some? {
        var cut := DecodedRequest(Carried(pdu).value).value;
        DispatchStaysSmall(reg, cut);
        AnswerSeen(reg, cut, Carried(pdu).value);
      } else if Carried(pdu).Some? {
        NoAnswer(reg, Carried(pdu).value);
      }
    }
  }

  lemma NoAnswer(reg: Registry, pdu: seq<Byte>)
    requires DecodedRequest(pdu) == None
    ensures Answer(reg, pdu) == Handling(None, reg)
  {
  }

  // ---------- whole runs ----------

  datatype Ran = Ran(replies: seq<Option<Response>>, registry: Registry)

  function WireRun(reg: Registry, handle: U32, reqs: seq<Request>): Ran
    decreases |reqs|
  {
    if reqs == [] then Ran([], reg)
    else
      var e := WireCall(reg, handle, reqs[0]);
      var rest := WireRun(e.registry, handle, reqs[1..]);
      rest.(replies := [e.reply] + rest.replies)
  }

  function DirectRun(reg: Registry, reqs: seq<Request>): Ran
    decreases |reqs|
  {
    if reqs == [] then Ran([], reg)
    else
      var e := Seen(DispatchOf(reg, reqs[0]));
      var rest := DirectRun(e.registry, reqs[1..]);
      rest.(replies := [e.reply] + rest.replies)
  }

  /** Any sequence of requests that fit, to any registered objects. */
  lemma {:induction false} WireRunEqualsDirectRun(reg: Registry, handle: U32, reqs: seq<Request>)
    requires Small(reg) && forall i | 0 <= i < |reqs| :: Fits(reqs[i])
    ensures WireRun(reg, handle, reqs) == DirectRun(reg, reqs)
    decreases |reqs|
  {
    hide WireCall, DispatchOf, Small, Fits, ReplyFits, ServeStream;
    if reqs != [] {
      DispatchStaysSmall(reg, reqs[0]);
      WireEqualsDirect(reg, handle, reqs[0]);
      WireRunEqualsDirectRun(DispatchOf(reg, reqs[0]).registry, handle, reqs[1..]);
    }
  }

  // ---------- attribute calls on an assembly ----------

  datatype Op =
    | Get(instanceId: U16, attributeId: U16)
    | Set(instanceId: U16, attributeId: U16, data: seq<Byte>)

  function RequestOf(classId: U16, op: Op): Request {
    var path := Epath.EncodedPath(Epath.Target(classId, op.instanceId, op.attributeId));
    match op
    case Get(_, _) => Request(GET_ATTRIBUTE_SINGLE, path, [])
    case Set(_, _, data) => Request(SET_ATTRIBUTE_SINGLE, path, data)
  }

  function CallOf(t: Assembly.Table, op: Op): Assembly.Step {
    match op
    case Get(i, a) => Assembly.Call(t, GET_ATTRIBUTE_SINGLE, i, a, [])
    case Set(i, a, data) => Assembly.Call(t, SET_ATTRIBUTE_SINGLE, i, a, data)
  }

  datatype Called = Called(results: seq<Option<Response>>, table: Assembly.Table)

  /** The calls made directly on an abstract table from instance to bytes. */
  function TableRun(t: Assembly.Table, ops: seq<Op>): Called
    decreases |ops|
  {
    if ops == [] then Called([], t)
    else
      var step := CallOf(t, ops[0]);
      var rest := TableRun(step.table, ops[1..]);
      rest.(results := [Some(Reply(RequestOf(0, ops[0]).service, step.result))] + rest.results)
  }

  function Requests(classId: U16, ops: seq<Op>): (reqs: seq<Request>)
    ensures |reqs| == |ops|
  {
    seq(|ops|, i requires 0 <= i < |ops| => RequestOf(classId, ops[i]))
  }

  /** A set's path and data fit one request; a get always does. */
  predicate OpFits(classId: U16, op: Op) {
    |RequestOf(classId, op).path| + |RequestOf(classId, op).data| <= MAX_REQUEST
  }

  predicate AllFit(classId: U16, ops: seq<Op>) {
    forall i | 0 <= i < |ops| :: OpFits(classId, ops[i])
  }

  lemma BuiltRequestFits(classId: U16, op: Op)
    ensures Fits(RequestOf(classId, op)) <==> OpFits(classId, op)
    ensures op.Get? ==> OpFits(classId, op)
  {
    Epath.TargetBytes(classId, op.instanceId, op.attributeId);
    Epath.EvenLength(Epath.Target(classId, op.instanceId, op.attributeId));
  }

  lemma DispatchBuiltRequest(reg: Registry, classId: U16, op: Op)
    requires classId in reg && reg[classId].AssemblyEntry?
    ensures var step := CallOf(reg[classId].table, op);
            var req := RequestOf(classId, op);
            DispatchOf(reg, req) == Dispatched(Ok(Reply(req.service, step.result)),
                                               reg[classId := AssemblyEntry(step.table)])
  {
    Epath.PeelBuiltPath(classId, op.instanceId, op.attributeId);
  }

  lemma OverwriteTwice(reg: Registry, classId: U16, first: Entry, second: Entry)
    ensures reg[classId := first][classId := second] == reg[classId := second]
  {
  }

  lemma RequestsCons(classId: U16, ops: seq<Op>)
    requires ops != []
    ensures Requests(classId, ops) != []
    ensures Requests(classId, ops)[0] == RequestOf(classId, ops[0])
    ensures Requests(classId, ops)[1..] == Requests(classId, ops[1..])
  {
  }

  lemma {:induction false} DirectRunIsTableRun(reg: Registry, classId: U16, ops: seq<Op>)
    requires classId in reg && reg[classId].AssemblyEntry?
    ensures var run := TableRun(reg[classId].table, ops);
            DirectRun(reg, Requests(classId, ops)) == Ran(run.results, reg[classId := AssemblyEntry(run.table)])
    decreases |ops|
  {
    if ops == [] {
      assert reg[classId := reg[classId]] == reg;
    } else {
      DispatchBuiltRequest(reg, classId, ops[0]);
      var step := CallOf(reg[classId].table, ops[0]);
      var after := reg[classId := AssemblyEntry(step.table)];
      DirectRunIsTableRun(after, classId, ops[1..]);
      OverwriteTwice(reg, classId, after[classId], AssemblyEntry(TableRun(step.table, ops[1..]).table));
      RequestsCons(classId, ops);
    }
  }

  /** An attribute call leaves what can be read readable, and its reply fits. */
  lemma CallStaysReadable(t: Assembly.Table, op: Op)
    requires Readable(t)
    ensures Readable(CallOf(t, op).table)
    ensures |EncodedResponse(Reply(RequestOf(0, op).service, CallOf(t, op).result))| <= 4 + MAX_ASSEMBLY
  {
  }

  lemma WireCallIsTableCall(reg: Registry, handle: U32, classId: U16, op: Op)
    requires classId in reg && reg[classId].AssemblyEntry? && Readable(reg[classId].table) && OpFits(classId, op)
    ensures var step := CallOf(reg[classId].table, op);
            var req := RequestOf(classId, op);
      && WireCall(reg, handle, req)
         == Exchanged(Some(Reply(req.service, step.result)), reg[classId := AssemblyEntry(step.table)])
      && Settled(ServeStream(reg, EncodedFrame(RRRequest(handle, EncodedRequest(req)))))
      && Readable(step.table)
  {
    hide CallOf, Readable, EncodedResponse, WireCall, Reply, DispatchOf, Fits, OpFits, ServeStream;
    BuiltRequestFits(classId, op);
    DispatchBuiltRequest(reg, classId, op);
    CallStaysReadable(reg[classId].table, op);
    WireEqualsDirect(reg, handle, RequestOf(classId, op));
  }

  /** The headline: any sequence of get and set attribute calls, with paths
      made by BuildPath and carried by SendCIPRequest, the encapsulation, the
      server, the router and the assembly object, gives the results and the
      final contents of the same calls on an abstract table.
   */
  lemma {:induction false} AttributeCallsOverTheWire(reg: Registry, handle: U32, classId: U16, ops: seq<Op>)
    requires classId in reg && reg[classId].AssemblyEntry? && Readable(reg[classId].table) && AllFit(classId, ops)
    ensures var run := TableRun(reg[classId].table, ops);
            WireRun(reg, handle, Requests(classId, ops)) == Ran(run.results, reg[classId := AssemblyEntry(run.table)])
    decreases |ops|
  {
    hide CallOf, Readable, WireCall, Reply, OpFits, Requests, ServeStream;
    if ops == [] {
      assert reg[classId := reg[classId]] == reg;
    } else {
      WireCallIsTableCall(reg, handle, classId, ops[0]);
      var step := CallOf(reg[classId].table, ops[0]);
      var after := reg[classId := AssemblyEntry(step.table)];
      AttributeCallsOverTheWire(after, handle, classId, ops[1..]);
      OverwriteTwice(reg, classId, after[classId], AssemblyEntry(TableRun(step.table, ops[1..]).table));
      RequestsCons(classId, ops);
    }
  }

  // ---------- the same through the objects themselves ----------

  ghost predicate Serves(session: Session, classId: U16)
    requires session.Valid()
    reads session, session.peer.router, session.peer.router.Repr
  {
    var reg := session.peer.router.View();
    classId in reg && reg[classId].AssemblyEntry? && Readable(reg[classId].table)
  }

  /** One such call: the built path, the session, the stream, the server's loop,
      the router and the assembly. It leaves the session ready for the next one.
   */
  method CallAttribute(session: Session, classId: U16, op: Op) returns (r: Option<Response>)
    requires session.Valid() && session.Idle() && Serves(session, classId) && OpFits(classId, op)
    modifies session.transport.wire, session.peer.router.Repr
    ensures session.Valid() && session.Idle() && Serves(session, classId)
    ensures var reg := old(session.peer.router.View());
            var step := CallOf(reg[classId].table, op);
      && r == Some(Reply(if op.Get? then GET_ATTRIBUTE_SINGLE else SET_ATTRIBUTE_SINGLE, step.result))
      && session.peer.router.View() == reg[classId := AssemblyEntry(step.table)]
  {
    hide MessageRouter.View, DispatchOf, WireCall, ServeStream, CallOf, Readable, Fits, OpFits, Reply;
    ghost var reg := session.peer.router.View();
    var path := Epath.BuildPath(classId, op.instanceId, op.attributeId);
    var req := match op
      case Get(_, _) => Request(GET_ATTRIBUTE_SINGLE, path, [])
      case Set(_, _, data) => Request(SET_ATTRIBUTE_SINGLE, path, data);
    WireCallIsTableCall(reg, session.sessionHandle, classId, op);
    r := session.SendCIPRequest(req);
  }

  /** A caller's run of them. */
  method CallAttributes(session: Session, classId: U16, ops: seq<Op>) returns (results: seq<Option<Response>>)
    requires session.Valid() && session.Idle() && Serves(session, classId) && AllFit(classId, ops)
    modifies session.transport.wire, session.peer.router.Repr
    ensures session.Valid() && session.Idle() && Serves(session, classId)
    ensures var reg := old(session.peer.router.View());
            var run := TableRun(reg[classId].table, ops);
            results == run.results && session.peer.router.View() == reg[classId := AssemblyEntry(run.table)]
  {
    hide MessageRouter.View, CallOf, Readable, OpFits, Reply;
    ghost var reg := session.peer.router.View();
    results := [];
    assert ops[..0] == [] && reg[classId := reg[classId]] == reg;
    for i := 0 to |ops|
      invariant session.Valid() && session.Idle() && Serves(session, classId)
      invariant var run := TableRun(reg[classId].table, ops[..i]);
                results == run.results && session.peer.router.View() == reg[classId := AssemblyEntry(run.table)]
    {
      TableRunSnoc(reg[classId].table, ops[..i], ops[i]);
      assert ops[..i + 1] == ops[..i] + [ops[i]];
      ghost var before := session.peer.router.View()[classId];
      var r := CallAttribute(session, classId, ops[i]);
      OverwriteTwice(reg, classId, before, session.peer.router.View()[classId]);
      results := results + [r];
    }
    assert ops[..|ops|] == ops;
  }

  lemma {:induction false} TableRunSnoc(t: Assembly.Table, ops: seq<Op>, op: Op)
    ensures var run := TableRun(t, ops);
            var step := CallOf(run.table, op);
            TableRun(t, ops + [op])
              == Called(run.results + [Some(Reply(RequestOf(0, op).service, step.result))], step.table)
    decreases |ops|
  {
    hide CallOf, Reply;
    if ops == [] {
      assert ops + [op] == [op] && [op][1..] == [];
    } else {
      TableRunSnoc(CallOf(t, ops[0]).table, ops[1..], op);
      assert (ops + [op])[1..] == ops[1..] + [op];
    }
  }
}
