/** The Connection Manager object (pkg/objects/connmgr/connmgr.go) and the
    originator's encoder of Forward_Open (cmd/scanner/main.go).
 */
module ConnMgr {
  import opened Bytes
  import opened Cip

  const FORWARD_CLOSE: Byte := 0x4E
  const FORWARD_OPEN: Byte := 0x54
  const LARGE_FORWARD_OPEN: Byte := 0x5B

  const FIRST_ID: U32 := 0x8000_0000

  type Reserved = b: seq<Byte> | |b| == 3 witness [0, 0, 0]

  /** The fields both request layouts begin with. */
  datatype OpenHead = OpenHead(
    priority: Byte,
    timeoutTicks: Byte,
    otId: U32,
    toId: U32,
    serial: U16,
    vendor: U16,
    originator: U32,
    multiplier: Byte,
    reserved: Reserved,
    otRpi: U32)

  /** The connection parameters are 16 bits wide in a standard request and 32
      in a large one; `pathSize` counts the path in words.
   */
  datatype OpenRequest = OpenRequest(
    head: OpenHead,
    otParams: U32,
    toRpi: U32,
    toParams: U32,
    trigger: Byte,
    pathSize: Byte,
    path: seq<Byte>)

  datatype Connection = Connection(otId: U32, toId: U32)

  datatype State = State(connections: map<U32, Connection>, nextId: U32)

  datatype Step = Step(result: Result<seq<Byte>>, state: State)

  // ---------- layouts ----------

  predicate Narrow(r: OpenRequest) {
    r.otParams <= 0xFFFF && r.toParams <= 0xFFFF
  }

  function EncodedHead(h: OpenHead): seq<Byte> {
    ([h.priority, h.timeoutTicks] + Put32(h.otId) + Put32(h.toId) + Put16(h.serial) + Put16(h.vendor))
    + (Put32(h.originator) + [h.multiplier] + h.reserved + Put32(h.otRpi))
  }

  function EncodedOpen(r: OpenRequest): seq<Byte>
    requires Narrow(r)
  {
    EncodedHead(r.head)
    + (Put16(r.otParams) + Put32(r.toRpi) + Put16(r.toParams) + [r.trigger, r.pathSize] + r.path)
  }

  function EncodedLargeOpen(r: OpenRequest): seq<Byte> {
    EncodedHead(r.head)
    + (Put32(r.otParams) + Put32(r.toRpi) + Put32(r.toParams) + [r.trigger, r.pathSize] + r.path)
  }

  function HeadOf(b: seq<Byte>): OpenHead
    requires 26 <= |b|
  {
    OpenHead(b[0], b[1], Get32(b, 2), Get32(b, 6), Get16(b, 10), Get16(b, 12), Get32(b, 14), b[18], b[19..22],
             Get32(b, 22))
  }

  /** A standard request: 36 fixed bytes, then at least one byte of path. */
  function ParseOpen(b: seq<Byte>): Option<OpenRequest> {
    if |b| <= 36 then None
    else Some(OpenRequest(HeadOf(b), Get16(b, 26), Get32(b, 28), Get16(b, 32), b[34], b[35],
                          ZeroFill(b[36..], WordBytes(b[35]))))
  }

  /** A large request: 40 fixed bytes, then at least one byte of path. */
  function ParseLargeOpen(b: seq<Byte>): Option<OpenRequest> {
    if |b| <= 40 then None
    else Some(OpenRequest(HeadOf(b), Get32(b, 26), Get32(b, 30), Get32(b, 34), b[38], b[39],
                          ZeroFill(b[40..], WordBytes(b[39]))))
  }

  function OpenReply(r: OpenRequest, id: U32): seq<Byte> {
    Put32(r.head.otId) + Put32(id) + Put16(r.head.serial) + Put16(r.head.vendor) + Put32(r.head.originator)
    + Put32(r.head.otRpi) + Put32(r.toRpi) + [0, 0]
  }

  // ---------- services ----------

  /** A connection is stored under the counter's next value. */
  function Grant(s: State, r: OpenRequest): State {
    var id := Low32(s.nextId + 1);
    State(s.connections[id := Connection(r.head.otId, id)], id)
  }

  function Open(s: State, request: Option<OpenRequest>): Step {
    match request
    case None => Step(Err(Other), s)
    case Some(r) => Step(Ok(OpenReply(r, Low32(s.nextId + 1))), Grant(s, r))
  }

  /** Forward_Close parses, echoes the connection triad and forgets it. */
  function Close(b: seq<Byte>): Result<seq<Byte>> {
    if |b| <= 12 then Err(Other) else Ok(b[2..10] + [0, 0])
  }

  function Handle(s: State, service: Byte, data: seq<Byte>): Step {
    if service == FORWARD_OPEN then Open(s, ParseOpen(data))
    else if service == LARGE_FORWARD_OPEN then Open(s, ParseLargeOpen(data))
    else if service == FORWARD_CLOSE then Step(Close(data), s)
    else Step(Fail(SERVICE_NOT_SUPPORTED), s)
  }

  method EncodeForwardOpen(r: OpenRequest) returns (buf: seq<Byte>)
    requires Narrow(r)
    ensures buf == EncodedOpen(r)
  {
    buf := [r.head.priority];
    buf := buf + [r.head.timeoutTicks];
    buf := buf + Put32(r.head.otId);
    buf := buf + Put32(r.head.toId);
    buf := buf + Put16(r.head.serial);
    buf := buf + Put16(r.head.vendor);
    buf := buf + Put32(r.head.originator);
    buf := buf + [r.head.multiplier];
    buf := buf + r.head.reserved;
    buf := buf + Put32(r.head.otRpi);
    assert buf == EncodedHead(r.head);
    buf := buf + Put16(r.otParams);
    buf := buf + Put32(r.toRpi);
    buf := buf + Put16(r.toParams);
    buf := buf + [r.trigger];
    buf := buf + [r.pathSize];
    buf := buf + r.path;
  }

  method EncodeOpenReply(r: OpenRequest, id: U32) returns (buf: seq<Byte>)
    ensures buf == OpenReply(r, id)
  {
    buf := Put32(r.head.otId);
    buf := buf + Put32(id);
    buf := buf + Put16(r.head.serial);
    buf := buf + Put16(r.head.vendor);
    buf := buf + Put32(r.head.originator);
    buf := buf + Put32(r.head.otRpi);
    buf := buf + Put32(r.toRpi);
    buf := buf + [0];
    buf := buf + [0];
  }

  /** The ten reads that both handlers begin with. */
  method ReadHead(reader: Reader) returns (r: Option<OpenHead>)
    requires reader.Valid() && reader.pos == 0
    modifies reader
    ensures reader.Valid()
    ensures r.Some? <==> 26 <= |reader.data|
    ensures r.Some? ==> reader.pos == 26 && r.value == HeadOf(reader.data)
  {
    var priority := reader.ReadU8();
    if priority.None? { return None; }
    var timeoutTicks := reader.ReadU8();
    if timeoutTicks.None? { return None; }
    var otId := reader.ReadU32();
    if otId.None? { return None; }
    var toId := reader.ReadU32();
    if toId.None? { return None; }
    var serial := reader.ReadU16();
    if serial.None? { return None; }
    var vendor := reader.ReadU16();
    if vendor.None? { return None; }
    var originator := reader.ReadU32();
    if originator.None? { return None; }
    var multiplier := reader.ReadU8();
    if multiplier.None? { return None; }
    var reserved := reader.ReadFull(3);
    if reserved.None? { return None; }
    var otRpi := reader.ReadU32();
    if otRpi.None? { return None; }
    r := Some(OpenHead(priority.value, timeoutTicks.value, otId.value, toId.value, serial.value, vendor.value,
                       originator.value, multiplier.value, reserved.value, otRpi.value));
  }

  class ConnectionManager {
    var connections: map<U32, Connection>
    var nextConnId: U32

    ghost function View(): State
      reads this
    {
      State(connections, nextConnId)
    }

    constructor ()
      ensures View() == State(map[], 0x8000_0000)
    {
      connections := map[];
      nextConnId := FIRST_ID;
    }

    method HandleForwardOpen(data: seq<Byte>) returns (r: Result<seq<Byte>>)
      modifies this
      ensures Step(r, View()) == Open(old(View()), ParseOpen(data))
    {
      hide OpenReply, Low32;
      var reader := new Reader(data);
      var head := ReadHead(reader);
      if head.None? { return Err(Other); }
      var otParams := reader.ReadU16();
      if otParams.None? { return Err(Other); }
      var toRpi := reader.ReadU32();
      if toRpi.None? { return Err(Other); }
      var toParams := reader.ReadU16();
      if toParams.None? { return Err(Other); }
      var trigger := reader.ReadU8();
      if trigger.None? { return Err(Other); }
      var pathSize := reader.ReadU8();
      if pathSize.None? { return Err(Other); }
      var path := reader.Read(WordBytes(pathSize.value));
      if path.None? { return Err(Other); }
      var request := OpenRequest(head.value, otParams.value, toRpi.value, toParams.value, trigger.value,
                                 pathSize.value, path.value);

      nextConnId := Low32(nextConnId + 1);
      var myConnId := nextConnId;
      connections := connections[myConnId := Connection(head.value.otId, myConnId)];
      var buf := EncodeOpenReply(request, myConnId);
      r := Ok(buf);
    }

    method HandleLargeForwardOpen(data: seq<Byte>) returns (r: Result<seq<Byte>>)
      modifies this
      ensures Step(r, View()) == Open(old(View()), ParseLargeOpen(data))
    {
      hide OpenReply, Low32;
      var reader := new Reader(data);
      var head := ReadHead(reader);
      if head.None? { return Err(Other); }
      var otParams := reader.ReadU32();
      if otParams.None? { return Err(Other); }
      var toRpi := reader.ReadU32();
      if toRpi.None? { return Err(Other); }
      var toParams := reader.ReadU32();
      if toParams.None? { return Err(Other); }
      var trigger := reader.ReadU8();
      if trigger.None? { return Err(Other); }
      var pathSize := reader.ReadU8();
      if pathSize.None? { return Err(Other); }
      var path := reader.Read(WordBytes(pathSize.value));
      if path.None? { return Err(Other); }
      var request := OpenRequest(head.value, otParams.value, toRpi.value, toParams.value, trigger.value,
                                 pathSize.value, path.value);

      nextConnId := Low32(nextConnId + 1);
      var myConnId := nextConnId;
      connections := connections[myConnId := Connection(head.value.otId, myConnId)];
      var buf := EncodeOpenReply(request, myConnId);
      r := Ok(buf);
    }

    method HandleForwardClose(data: seq<Byte>) returns (r: Result<seq<Byte>>)
      ensures r == Close(data)
    {
      var reader := new Reader(data);
      var priority := reader.ReadU8();
      if priority.None? { return Err(Other); }
      var timeoutTicks := reader.ReadU8();
      if timeoutTicks.None? { return Err(Other); }
      var serial := reader.ReadU16();
      if serial.None? { return Err(Other); }
      var vendor := reader.ReadU16();
      if vendor.None? { return Err(Other); }
      var originator := reader.ReadU32();
      if originator.None? { return Err(Other); }
      var pathSize := reader.ReadU8();
      if pathSize.None? { return Err(Other); }
      var reserved := reader.ReadU8();
      if reserved.None? { return Err(Other); }
      var path := reader.Read(WordBytes(pathSize.value));
      if path.None? { return Err(Other); }
      PutGet16(data, 2);
      PutGet16(data, 4);
      PutGet32(data, 6);
      assert data[2..10] == data[2..4] + data[4..6] + data[6..10];
      var buf := Put16(serial.value);
      buf := buf + Put16(vendor.value);
      buf := buf + Put32(originator.value);
      assert buf == data[2..10];
      buf := buf + [0];
      buf := buf + [0];
      assert buf == data[2..10] + [0, 0];
      r := Ok(buf);
    }

    method HandleRequest(service: Byte, path: seq<Byte>, data: seq<Byte>) returns (r: Result<seq<Byte>>)
      modifies this
      ensures Step(r, View()) == Handle(old(View()), service, data)
    {
      if service == FORWARD_OPEN {
        r := HandleForwardOpen(data);
      } else if service == LARGE_FORWARD_OPEN {
        r := HandleLargeForwardOpen(data);
      } else if service == FORWARD_CLOSE {
        r := HandleForwardClose(data);
      } else {
        r := Fail(SERVICE_NOT_SUPPORTED);
      }
    }
  }

  // ---------- the two open services agree ----------

  lemma HeadOfEncoded(h: OpenHead, rest: seq<Byte>)
    ensures |EncodedHead(h)| == 26
    ensures HeadOf(EncodedHead(h) + rest) == h
  {
    var ids := [h.priority, h.timeoutTicks] + Put32(h.otId) + Put32(h.toId) + Put16(h.serial) + Put16(h.vendor);
    var tail := Put32(h.originator) + [h.multiplier] + h.reserved + Put32(h.otRpi);
    var b := EncodedHead(h) + rest;
    assert b[..14] == ids && b[14..26] == tail;
    HeadIds(h, b);
    HeadTail(h, b);
  }

  lemma HeadIds(h: OpenHead, b: seq<Byte>)
    requires 26 <= |b|
    requires b[..14] == [h.priority, h.timeoutTicks] + Put32(h.otId) + Put32(h.toId) + Put16(h.serial) + Put16(h.vendor)
    ensures var g := HeadOf(b);
      && g.priority == h.priority && g.timeoutTicks == h.timeoutTicks && g.otId == h.otId && g.toId == h.toId
      && g.serial == h.serial && g.vendor == h.vendor
  {
    var ids := b[..14];
    assert b[2..6] == ids[2..6] == Put32(h.otId);
    assert b[6..10] == ids[6..10] == Put32(h.toId);
    assert b[10..12] == ids[10..12] == Put16(h.serial);
    assert b[12..14] == ids[12..14] == Put16(h.vendor);
    assert b[0] == ids[0] && b[1] == ids[1];
    GetPut32(b, 2, h.otId);
    GetPut32(b, 6, h.toId);
    GetPut16(b, 10, h.serial);
    GetPut16(b, 12, h.vendor);
  }

  lemma HeadTail(h: OpenHead, b: seq<Byte>)
    requires 26 <= |b|
    requires b[14..26] == Put32(h.originator) + [h.multiplier] + h.reserved + Put32(h.otRpi)
    ensures var g := HeadOf(b);
      && g.originator == h.originator && g.multiplier == h.multiplier && g.reserved == h.reserved
      && g.otRpi == h.otRpi
  {
    var tail := b[14..26];
    assert b[14..18] == tail[0..4] == Put32(h.originator);
    assert b[18] == tail[4] && b[19..22] == tail[5..8] == h.reserved;
    assert b[22..26] == tail[8..12] == Put32(h.otRpi);
    GetPut32(b, 14, h.originator);
    GetPut32(b, 22, h.otRpi);
  }

  /** What a target reads: every field as sent, the path as long as the
      request's size byte says, cut or padded with zeros.
   */
  function AsRead(r: OpenRequest): OpenRequest {
    r.(path := ZeroFill(r.path, WordBytes(r.pathSize)))
  }

  lemma ParseEncodedOpen(r: OpenRequest)
    requires r.path != [] && Narrow(r)
    ensures ParseOpen(EncodedOpen(r)) == Some(AsRead(r))
  {
    var rest := Put16(r.otParams) + Put32(r.toRpi) + Put16(r.toParams) + [r.trigger, r.pathSize] + r.path;
    var b := EncodedOpen(r);
    HeadOfEncoded(r.head, rest);
    assert b[26..28] == Put16(r.otParams) && b[28..32] == Put32(r.toRpi) && b[32..34] == Put16(r.toParams);
    assert b[36..] == r.path;
    GetPut16(b, 26, r.otParams);
    GetPut32(b, 28, r.toRpi);
    GetPut16(b, 32, r.toParams);
  }

  lemma ParseEncodedLargeOpen(r: OpenRequest)
    requires r.path != []
    ensures ParseLargeOpen(EncodedLargeOpen(r)) == Some(AsRead(r))
  {
    var rest := Put32(r.otParams) + Put32(r.toRpi) + Put32(r.toParams) + [r.trigger, r.pathSize] + r.path;
    var b := EncodedLargeOpen(r);
    HeadOfEncoded(r.head, rest);
    assert b[26..30] == Put32(r.otParams) && b[30..34] == Put32(r.toRpi) && b[34..38] == Put32(r.toParams);
    assert b[40..] == r.path;
    GetPut32(b, 26, r.otParams);
    GetPut32(b, 30, r.toRpi);
    GetPut32(b, 34, r.toParams);
  }

  /** The standard and the large service, given the same fields, return the
      same bytes and make the same change; both fail exactly when the request
      has no path.
   */
  lemma OpensAgree(s: State, r: OpenRequest)
    requires Narrow(r)
    ensures Handle(s, FORWARD_OPEN, EncodedOpen(r)) == Handle(s, LARGE_FORWARD_OPEN, EncodedLargeOpen(r))
    ensures Handle(s, FORWARD_OPEN, EncodedOpen(r)).result.Ok? <==> r.path != []
  {
    if r.path == [] {
      assert |EncodedOpen(r)| == 36 && |EncodedLargeOpen(r)| == 40;
    } else {
      ParseEncodedOpen(r);
      ParseEncodedLargeOpen(r);
    }
  }

  /** Read back from the reply bytes: the originator's connection ID, triad
      and both packet intervals, and the ID under which the target stored it.
   */
  lemma OpenEchoes(s: State, r: OpenRequest)
    requires r.path != [] && Narrow(r)
    ensures var step := Handle(s, FORWARD_OPEN, EncodedOpen(r));
      && step.result.Ok?
      && var reply := step.result.value;
      && |reply| == 26
      && Get32(reply, 0) == r.head.otId
      && Get16(reply, 8) == r.head.serial
      && Get16(reply, 10) == r.head.vendor
      && Get32(reply, 12) == r.head.originator
      && Get32(reply, 16) == r.head.otRpi
      && Get32(reply, 20) == r.toRpi
      && var id := Get32(reply, 4);
      && id == Low32(s.nextId + 1)
      && step.state.connections == s.connections[id := Connection(r.head.otId, id)]
  {
    hide EncodedOpen, ParseOpen, ParseLargeOpen, OpenReply;
    ParseEncodedOpen(r);
    HandleIsOpen(s, Call(FORWARD_OPEN, EncodedOpen(r)));
    OpenReplyFields(AsRead(r), Low32(s.nextId + 1));
  }

  lemma OpenReplyFields(r: OpenRequest, id: U32)
    ensures var reply := OpenReply(r, id);
      && |reply| == 26
      && Get32(reply, 0) == r.head.otId && Get32(reply, 4) == id
      && Get16(reply, 8) == r.head.serial && Get16(reply, 10) == r.head.vendor
      && Get32(reply, 12) == r.head.originator
      && Get32(reply, 16) == r.head.otRpi && Get32(reply, 20) == r.toRpi
  {
    var b := OpenReply(r, id);
    assert b[0..4] == Put32(r.head.otId) && b[4..8] == Put32(id);
    assert b[8..10] == Put16(r.head.serial) && b[10..12] == Put16(r.head.vendor);
    assert b[12..16] == Put32(r.head.originator);
    assert b[16..20] == Put32(r.head.otRpi) && b[20..24] == Put32(r.toRpi);
    GetPut32(b, 0, r.head.otId);
    GetPut32(b, 4, id);
    GetPut16(b, 8, r.head.serial);
    GetPut16(b, 10, r.head.vendor);
    GetPut32(b, 12, r.head.originator);
    GetPut32(b, 16, r.head.otRpi);
    GetPut32(b, 20, r.toRpi);
  }

  // ---------- allocation over whole runs ----------

  datatype Call = Call(service: Byte, data: seq<Byte>)

  function Run(s: State, calls: seq<Call>): State {
    if calls == [] then s
    else
      var last := calls[|calls| - 1];
      Handle(Run(s, calls[..|calls| - 1]), last.service, last.data).state
  }

  /** The open request a call carries, if it is one and parses. */
  function OpenIn(c: Call): Option<OpenRequest> {
    if c.service == FORWARD_OPEN then ParseOpen(c.data)
    else if c.service == LARGE_FORWARD_OPEN then ParseLargeOpen(c.data)
    else None
  }

  /** The successful opens of a run, in order. */
  function Opens(calls: seq<Call>): seq<OpenRequest> {
    if calls == [] then []
    else
      var last := OpenIn(calls[|calls| - 1]);
      Opens(calls[..|calls| - 1]) + if last.Some? then [last.value] else []
  }

  /** The ID given to the k-th successful open, counting from zero. */
  function IdOf(k: nat): U32 {
    Low32(FIRST_ID + 1 + k)
  }

  const START := State(map[], FIRST_ID)

  /** The counter wraps: IDs first repeat after 2^32 opens. */
  lemma IdsDiffer(j: nat, k: nat)
    requires j < k < 0x1_0000_0000
    ensures IdOf(j) != IdOf(k)
    ensures IdOf(j + 0x1_0000_0000) == IdOf(j)
  {
  }

  /** A call moves the state exactly when it carries an open that parses. */
  lemma HandleIsOpen(s: State, c: Call)
    ensures Handle(s, c.service, c.data).state == Open(s, OpenIn(c)).state
    ensures OpenIn(c).Some? ==> Handle(s, c.service, c.data) == Open(s, OpenIn(c))
  {
  }

  lemma CountOne(n: nat)
    ensures Low32(Low32(FIRST_ID + n) + 1) == Low32(FIRST_ID + n + 1) == IdOf(n)
  {
  }

  function Grants(s: State, opens: seq<OpenRequest>): State {
    if opens == [] then s
    else Grant(Grants(s, opens[..|opens| - 1]), opens[|opens| - 1])
  }

  /** A run does what its successful opens do: failed parses, closes and
      unknown services change nothing.
   */
  lemma {:induction false} RunIsGrants(s: State, calls: seq<Call>)
    ensures Run(s, calls) == Grants(s, Opens(calls))
  {
    if calls != [] {
      var before, last := calls[..|calls| - 1], calls[|calls| - 1];
      RunIsGrants(s, before);
      HandleIsOpen(Run(s, before), last);
      if OpenIn(last).Some? {
        assert (Opens(before) + [OpenIn(last).value])[..|Opens(before)|] == Opens(before);
      } else {
        assert Opens(before) + [] == Opens(before);
      }
    }
  }

  lemma {:induction false} CounterFollowsOpens(opens: seq<OpenRequest>)
    ensures Grants(START, opens).nextId == Low32(FIRST_ID + |opens|)
  {
    if opens != [] {
      CounterFollowsOpens(opens[..|opens| - 1]);
      CountOne(|opens| - 1);
    }
  }

  /** Every open is in the table under its own ID. */
  predicate Stored(connections: map<U32, Connection>, opens: seq<OpenRequest>) {
    forall k | 0 <= k < |opens| ::
      IdOf(k) in connections && connections[IdOf(k)] == Connection(opens[k].head.otId, IdOf(k))
  }

  /** The table has no other entry. */
  predicate OnlyOpens(connections: map<U32, Connection>, n: nat) {
    forall id | id in connections :: exists k | 0 <= k < n :: id == IdOf(k)
  }

  lemma StoreOne(connections: map<U32, Connection>, opens: seq<OpenRequest>, r: OpenRequest)
    requires |opens| < 0x1_0000_0000
    requires Stored(connections, opens) && OnlyOpens(connections, |opens|)
    ensures var n := |opens|;
            var after := connections[IdOf(n) := Connection(r.head.otId, IdOf(n))];
            IdOf(n) !in connections && Stored(after, opens + [r]) && OnlyOpens(after, n + 1)
  {
    var n := |opens|;
    forall k | 0 <= k < n ensures IdOf(k) != IdOf(n) {
      IdsDiffer(k, n);
    }
    var after := connections[IdOf(n) := Connection(r.head.otId, IdOf(n))];
    forall id | id in after ensures exists k | 0 <= k < n + 1 :: id == IdOf(k) {
      if id in connections {
        var k :| 0 <= k < n && id == IdOf(k);
        assert 0 <= k < n + 1;
      }
    }
  }

  predicate TableOf(connections: map<U32, Connection>, opens: seq<OpenRequest>) {
    |connections| == |opens| && Stored(connections, opens) && OnlyOpens(connections, |opens|)
  }

  lemma GrantOne(s: State, opens: seq<OpenRequest>, r: OpenRequest)
    requires |opens| < 0x1_0000_0000 && s.nextId == Low32(FIRST_ID + |opens|)
    requires TableOf(s.connections, opens)
    ensures TableOf(Grant(s, r).connections, opens + [r])
  {
    CountOne(|opens|);
    StoreOne(s.connections, opens, r);
  }

  lemma {:induction false} GrantsAreStored(opens: seq<OpenRequest>)
    requires |opens| <= 0x1_0000_0000
    ensures TableOf(Grants(START, opens).connections, opens)
  {
    if opens != [] {
      var before, last := opens[..|opens| - 1], opens[|opens| - 1];
      GrantsAreStored(before);
      CounterFollowsOpens(before);
      GrantOne(Grants(START, before), before, last);
      assert before + [last] == opens;
    }
  }

  /** Any run of standard and large opens, closes, failed parses and unknown
      services: up to 2^32 successful opens, the table holds exactly one entry
      for each of them, under the ID it was given, and nothing else.
   */
  lemma {:induction false} Allocation(calls: seq<Call>)
    requires |Opens(calls)| <= 0x1_0000_0000
    ensures TableOf(Run(START, calls).connections, Opens(calls))
  {
    RunIsGrants(START, calls);
    GrantsAreStored(Opens(calls));
  }

  predicate IdsDistinct(n: nat) {
    forall j, k | 0 <= j < k < n :: IdOf(j) != IdOf(k)
  }

  /** The IDs handed out by a run are pairwise distinct exactly when it made
      at most 2^32 successful opens.
   */
  lemma DistinctIff(calls: seq<Call>)
    ensures IdsDistinct(|Opens(calls)|) <==> |Opens(calls)| <= 0x1_0000_0000
  {
    var n := |Opens(calls)|;
    if n <= 0x1_0000_0000 {
      forall j, k | 0 <= j < k < n ensures IdOf(j) != IdOf(k) {
        IdsDiffer(j, k);
      }
    } else {
      assert IdOf(0) == IdOf(0x1_0000_0000);
    }
  }

  /** The k-th successful open's reply carries the k-th ID, and a call that is
      not a successful open leaves the table and the counter alone.
   */
  lemma {:induction false} ReplyCarriesItsId(calls: seq<Call>, c: Call)
    ensures var s := Run(START, calls);
            var step := Handle(s, c.service, c.data);
      if OpenIn(c).Some? then
        && step.result.Ok?
        && |step.result.value| == 26
        && Get32(step.result.value, 4) == IdOf(|Opens(calls)|)
      else step.state == s
  {
    RunIsGrants(START, calls);
    CounterFollowsOpens(Opens(calls));
    HandleIsOpen(Run(START, calls), c);
    CountOne(|Opens(calls)|);
    if OpenIn(c).Some? {
      OpenReplyFields(OpenIn(c).value, IdOf(|Opens(calls)|));
    }
  }
}
