/** The cyclic I/O runtime (pkg/runtime/runtime.go, pkg/runtime/scheduler.go):
    connections, the watchdog, the receive path and the scheduler. Times and
    durations are in nanoseconds.
 */
module IoRuntime {
  import opened Bytes
  import opened UdpPacket
  import opened Timeouts
  import Assembly

  type Address = int

  /** When a packet was sent: after the clock reading that found it due and
      before the one stored as the time of the last send.
   */
  datatype Send = Send(checked: int, stamped: int)

  datatype Outgoing = Outgoing(to: Address, bytes: seq<Byte>)

  datatype Watched = Watched(isConsumer: bool, rpi: int, mult: Byte, lastReceive: int)

  predicate Expired(w: Watched, now: int) {
    w.isConsumer && now - w.lastReceive > Timeout(w.rpi, w.mult)
  }

  datatype Paced = Paced(rpi: int, active: bool, lastSend: int, sequence: U16, sends: seq<Send>)

  predicate Due(p: Paced, now: int) {
    p.active && now - p.lastSend >= p.rpi
  }

  function Sent(p: Paced, checked: int, stamped: int): Paced {
    p.(lastSend := stamped, sequence := Low16(p.sequence + 1), sends := p.sends + [Send(checked, stamped)])
  }

  /** One tick's effect on a connection: some clock reading of the tick decides
      whether it is due, and it sends exactly when it is.
   */
  ghost predicate TickedAt(p: Paced, q: Paced, checked: int, stamped: int) {
    checked <= stamped && q == if Due(p, checked) then Sent(p, checked, stamped) else p
  }

  ghost predicate Ticked(p: Paced, q: Paced, begin: int, end: int) {
    exists checked, stamped :: begin <= checked && stamped <= end && TickedAt(p, q, checked, stamped)
  }

  lemma TickWithin(p: Paced, q: Paced, begin: int, at: Send, end: int)
    requires begin <= at.checked && at.stamped <= end && TickedAt(p, q, at.checked, at.stamped)
    ensures Ticked(p, q, begin, end)
  {
  }

  lemma TickWindowGrows(p: Paced, q: Paced, begin: int, end: int, later: int)
    requires Ticked(p, q, begin, end) && end <= later
    ensures Ticked(p, q, begin, later)
  {
    var checked, stamped :| begin <= checked && stamped <= end && TickedAt(p, q, checked, stamped);
    assert TickedAt(p, q, checked, stamped);
  }

  /** What a payload does to the assembly object. */
  function Delivered(t: Assembly.Table, target: Option<U32>, runIdle: bool, payload: seq<Byte>): Assembly.Table {
    if target.None? || (runIdle && |payload| < 4) then t
    else Assembly.SetAttribute(t, target.value, 3, payload[if runIdle then 4 else 0..]).table
  }

  /** What a consumer makes of a data item that a producer with the same
      run/idle setting sent. The sequence count is taken for data: a table entry
      of the producer's size is left alone, one two bytes longer gets the data
      shifted by two bytes, so the entry holds the data afterwards exactly when
      it did before.
   */
  lemma DataNeverArrives(t: Assembly.Table, id: U32, runIdle: bool, sequence: U16, data: seq<Byte>)
    requires id in t
    ensures var u := Delivered(t, Some(id), runIdle, DataItem(sequence, runIdle, data));
      && u == (if |t[id]| != |data| + 2 then t
               else t[id := (if runIdle then [0, 0] else Put16(sequence)) + data])
      && (u[id] == data <==> t[id] == data)
  {
    var payload := DataItem(sequence, runIdle, data);
    if runIdle {
      assert payload[4..] == [0, 0] + data;
    } else {
      assert payload[0..] == Put16(sequence) + data;
    }
  }

  /** What any payload does to a stored assembly: after the run/idle header, if
      one is expected, exactly the size of the entry replaces it, and anything
      else leaves it; no other entry changes.
   */
  lemma DeliveredIff(t: Assembly.Table, id: U32, runIdle: bool, payload: seq<Byte>)
    requires id in t
    ensures var n := if runIdle then 4 else 0;
            Delivered(t, Some(id), runIdle, payload)
              == if |payload| == n + |t[id]| then t[id := payload[n..]] else t
  {
  }

  class IOConnection {
    const connectionId: U32
    const rpi: int
    const runIdleHeader: bool
    const remoteAddr: Option<Address>
    const assembly: Assembly.AssemblyInstance?
    const timeoutMult: Byte
    const isProducer: bool
    const isConsumer: bool
    var sequenceCount: U16
    var lastReceive: int
    var lastSend: int
    ghost var sends: seq<Send>

    constructor (connectionId: U32, rpi: int, runIdleHeader: bool, remoteAddr: Option<Address>,
                 assembly: Assembly.AssemblyInstance?, timeoutMult: Byte, isProducer: bool, isConsumer: bool)
      ensures this.connectionId == connectionId && this.rpi == rpi && this.runIdleHeader == runIdleHeader
      ensures this.remoteAddr == remoteAddr && this.assembly == assembly && this.timeoutMult == timeoutMult
      ensures this.isProducer == isProducer && this.isConsumer == isConsumer
      ensures sequenceCount == 0 && sends == []
    {
      this.connectionId, this.rpi, this.runIdleHeader := connectionId, rpi, runIdleHeader;
      this.remoteAddr, this.assembly, this.timeoutMult := remoteAddr, assembly, timeoutMult;
      this.isProducer, this.isConsumer := isProducer, isConsumer;
      sequenceCount, lastReceive, lastSend, sends := 0, 0, 0, [];
    }

    /** What the watchdog looks at. */
    ghost function Watch(): Watched
      reads this`lastReceive
    {
      Watched(isConsumer, rpi, timeoutMult, lastReceive)
    }

    /** What the scheduler looks at and changes. */
    ghost function Pace(): Paced
      reads this
    {
      Paced(rpi, isProducer && assembly != null, lastSend, sequenceCount, sends)
    }

    ghost function Target(): Option<U32> {
      if assembly == null then None else Some(assembly.id)
    }

    ghost predicate CanSend() {
      remoteAddr.Some? && assembly != null
    }

    /** The packet that carries the current sequence count. */
    ghost function Packet(): Outgoing
      requires CanSend()
      reads this`sequenceCount, assembly.data
    {
      Outgoing(remoteAddr.value, Datagram(connectionId, sequenceCount, runIdleHeader, assembly.data[..]))
    }

    /** A packet that would not fit the send buffer cannot be sliced out of it. */
    ghost predicate Sendable() {
      CanSend() ==> Fits(runIdleHeader, assembly.data.Length)
    }
  }

  ghost predicate Distinct(conns: seq<IOConnection>) {
    forall j, k | 0 <= j < k < |conns| :: conns[j] != conns[k]
  }

  lemma NoneDistinct()
    ensures Distinct([])
  {
  }

  lemma DistinctSnoc(conns: seq<IOConnection>, conn: IOConnection)
    requires Distinct(conns) && conn !in conns
    ensures Distinct(conns + [conn])
  {
  }

  lemma OnlyThere(conns: seq<IOConnection>, i: nat)
    requires Distinct(conns) && i < |conns|
    ensures conns[i] !in conns[..i] && conns[..i + 1] == conns[..i] + [conns[i]]
    ensures forall k | 0 <= k < |conns| && k != i :: conns[k] != conns[i]
  {
  }

  lemma IdleTick(conn: IOConnection, now: int)
    requires !conn.isProducer
    ensures Ticked(conn.Pace(), conn.Pace(), now, now)
  {
    assert TickedAt(conn.Pace(), conn.Pace(), now, now);
  }

  /** A connection's packet goes to its address and carries its ID, its sequence
      count and, at the end, its assembly's data.
   */
  lemma PacketCarries(conn: IOConnection)
    requires conn.CanSend() && Fits(conn.runIdleHeader, conn.assembly.data.Length)
    ensures var p := conn.Packet();
            var head := if conn.runIdleHeader then 20 else 16;
      && p.to == conn.remoteAddr.value
      && |p.bytes| == head + conn.assembly.data.Length
      && Get32(p.bytes, 6) == conn.connectionId && Get16(p.bytes, 14) == conn.sequenceCount
      && p.bytes[head..] == conn.assembly.data[..]
  {
    var p := conn.Packet();
    DatagramBytes(conn.connectionId, conn.sequenceCount, conn.runIdleHeader, conn.assembly.data[..]);
    assert p.bytes[6..10] == Put32(conn.connectionId) && p.bytes[14..16] == Put16(conn.sequenceCount);
    GetPut32(p.bytes, 6, conn.connectionId);
    GetPut16(p.bytes, 14, conn.sequenceCount);
  }

  // ---------- the runtime ----------

  /** A monotone clock; each reading may be later than the one before. */
  class Clock {
    var now: int

    constructor (start: int)
      ensures now == start
    {
      now := start;
    }

    method Now() returns (t: int)
      modifies this
      ensures old(now) <= now == t
    {
      var elapsed: nat :| true;
      now := now + elapsed;
      t := now;
    }
  }

  class Network {
    var sent: seq<Outgoing>

    constructor ()
      ensures sent == []
    {
      sent := [];
    }
  }

  class Runtime {
    var connections: map<U32, IOConnection>
    const assemblyObj: Assembly.AssemblyObject
    const network: Network

    /** Connections are stored under their own IDs, apart from everything else. */
    ghost predicate Valid()
      reads this, assemblyObj, assemblyObj.Repr
    {
      && assemblyObj.Valid()
      && this as object !in assemblyObj.Repr && network as object !in assemblyObj.Repr
      && (forall id | id in connections ::
            connections[id].connectionId == id && connections[id] as object !in assemblyObj.Repr)
    }

    constructor (assemblyObj: Assembly.AssemblyObject)
      requires assemblyObj.Valid()
      ensures Valid() && connections == map[] && this.assemblyObj == assemblyObj && fresh(network)
    {
      this.assemblyObj := assemblyObj;
      network := new Network();
      connections := map[];
    }

    method AddConnection(conn: IOConnection, clock: Clock)
      requires Valid() && conn as object !in assemblyObj.Repr && clock as object !in assemblyObj.Repr
      requires clock as object != this
      modifies this, conn`lastReceive, clock
      ensures Valid() && connections == old(connections)[conn.connectionId := conn]
      ensures conn.lastReceive == clock.now >= old(clock.now)
    {
      var now := clock.Now();
      conn.lastReceive := now;
      connections := connections[conn.connectionId := conn];
    }

    method RemoveConnection(connId: U32)
      requires Valid()
      modifies this
      ensures Valid() && connections == old(connections) - {connId}
    {
      connections := connections - {connId};
    }

    /** Deletes while it iterates, in whatever order the iteration takes: the
        result is the connections that have not expired. Only a consumer that
        has been silent for longer than its timeout goes.
     */
    method CheckTimeouts(clock: Clock)
      requires Valid() && clock as object !in assemblyObj.Repr && clock as object != this
      modifies this, clock
      ensures Valid() && old(clock.now) <= clock.now
      ensures connections == map id | id in old(connections) && !Expired(old(connections)[id].Watch(), clock.now)
                               :: old(connections)[id]
      ensures forall id | id in old(connections) ::
        var conn := old(connections)[id];
        id !in connections <==> conn.isConsumer && clock.now - conn.lastReceive > Timeout(conn.rpi, conn.timeoutMult)
    {
      var now := clock.Now();
      ghost var all := connections;
      var ids := connections.Keys;
      while ids != {}
        invariant Valid() && clock.now == now && ids <= connections.Keys <= all.Keys
        invariant forall id | id in connections :: connections[id] == all[id]
        invariant forall id | id in all && id !in ids :: id in connections <==> !Expired(all[id].Watch(), now)
        decreases ids
      {
        var id :| id in ids;
        ids := ids - {id};
        var conn := connections[id];
        if conn.isConsumer {
          var mult := Multiplier(conn.timeoutMult);
          var timeout := Wrap64(conn.rpi * Wrap64(mult));
          if now - conn.lastReceive > timeout {
            connections := connections - {id};
          }
        }
      }
    }

    /** Other goroutines' turns at the lock: any number of removals, watchdog
        checks and additions.
     */
    method OtherTurns(clock: Clock)
      requires Valid() && clock as object !in assemblyObj.Repr && clock as object != this
      modifies this, clock
      ensures Valid() && old(clock.now) <= clock.now
      ensures forall id | id in connections ::
        (id in old(connections) && connections[id] == old(connections)[id]) || fresh(connections[id])
    {
      var turns: nat :| true;
      while turns > 0
        invariant Valid() && old(clock.now) <= clock.now
        invariant forall id | id in connections ::
          (id in old(connections) && connections[id] == old(connections)[id]) || fresh(connections[id])
      {
        turns := turns - 1;
        var id: U32, rpi: int, mult: Byte, isConsumer: bool :| true;
        if * {
          RemoveConnection(id);
        } else if * {
          CheckTimeouts(clock);
        } else {
          var conn := new IOConnection(id, rpi, false, None, null, mult, false, isConsumer);
          AddConnection(conn, clock);
        }
      }
    }

    /** The connection a received packet is for. */
    ghost function Hit(data: seq<Byte>): IOConnection?
      reads this
    {
      var received := Decoded(data);
      if received.Some? && received.value.connectionId in connections
      then connections[received.value.connectionId] else null
    }

    /** A packet for a known connection refreshes its watchdog, whatever its
        payload, and that of no other connection, unless the connection is gone
        at the second lookup; in either case the assembly takes what follows
        the run/idle header if its size is right.
     */
    method HandlePacket(buf: array<Byte>, n: nat, clock: Clock)
      requires Valid() && n <= buf.Length == BUFFER_SIZE
      requires clock as object !in assemblyObj.Repr && clock as object != this
      modifies this, clock, connections.Values`lastReceive, assemblyObj.Repr
      ensures Valid() && old(clock.now) <= clock.now
      ensures var hit := old(Hit(buf[..n]));
        && (forall conn | conn in old(connections).Values && conn != hit :: conn.lastReceive == old(conn.lastReceive))
        && (hit != null ==> hit.lastReceive == if hit in connections.Values then clock.now else old(hit.lastReceive))
        && (hit == null ==> connections == old(connections))
        && assemblyObj.View() ==
             if hit == null then old(assemblyObj.View())
             else Delivered(old(assemblyObj.View()), hit.Target(), hit.runIdleHeader,
                            Decoded(old(buf[..n])).value.payload)
    {
      hide Assembly.AssemblyObject.View, Delivered, Decoded, Parsed;
      ParserAgrees(buf[..], n);
      assert buf[..][..n] == buf[..n];
      var received := Parse(buf, n);
      if received.None? { return; }
      var connId := received.value.connectionId;
      if connId !in connections { return; }
      var conn := connections[connId];
      OtherTurns(clock);
      Refresh(connId, clock);
      Deliver(conn, received.value.payload);
    }

    /** The second lookup and the refresh, under the lock. */
    method Refresh(connId: U32, clock: Clock)
      modifies clock, (if connId in connections then {connections[connId]} else {})`lastReceive
      ensures old(clock.now) <= clock.now
      ensures connId in connections ==> connections[connId].lastReceive == clock.now
    {
      if connId in connections {
        var now := clock.Now();
        connections[connId].lastReceive := now;
      }
    }

    method Deliver(conn: IOConnection, payload: seq<Byte>)
      requires assemblyObj.Valid()
      modifies assemblyObj.Repr - {assemblyObj}
      ensures assemblyObj.Valid()
      ensures assemblyObj.View() == Delivered(old(assemblyObj.View()), conn.Target(), conn.runIdleHeader, payload)
    {
      hide Assembly.AssemblyObject.View;
      var dataOffset := 0;
      if conn.runIdleHeader {
        if |payload| < 4 { return; }
        dataOffset := 4;
      }
      if conn.assembly != null {
        var r := assemblyObj.SetAttributeSingle(conn.assembly.id, 3, payload[dataOffset..]);
      }
    }

    /** The result is false when the source panics: it slices its send buffer
        beyond the end.
     */
    method SendPacket(conn: IOConnection) returns (ok: bool)
      requires conn.assembly != null
      modifies conn`sequenceCount, network
      ensures ok == conn.Sendable()
      ensures conn.sequenceCount == Low16(old(conn.sequenceCount) + 1)
      ensures network.sent == old(network.sent) +
        if ok && conn.remoteAddr.Some? then [conn.Packet()] else []
    {
      conn.sequenceCount := Low16(conn.sequenceCount + 1);
      var packet := Serialize(conn.connectionId, conn.sequenceCount, conn.runIdleHeader, conn.assembly.data[..]);
      if conn.remoteAddr.Some? {
        if packet.None? { return false; }
        network.sent := network.sent + [Outgoing(conn.remoteAddr.value, packet.value)];
      }
      ok := true;
    }

    /** The producers, in whatever order the iteration over the map takes. */
    method Producers() returns (conns: seq<IOConnection>)
      requires Valid()
      ensures forall conn :: conn in conns <==> conn in connections.Values && conn.isProducer
      ensures Distinct(conns)
    {
      conns := [];
      var ids := connections.Keys;
      while ids != {}
        invariant ids <= connections.Keys && Distinct(conns)
        invariant forall conn | conn in conns :: conn in connections.Values && conn.connectionId !in ids
        invariant forall conn :: conn in conns <==>
          conn in connections.Values && conn.isProducer && conn.connectionId !in ids
        decreases ids
      {
        var id :| id in ids;
        ids := ids - {id};
        if connections[id].isProducer {
          conns := conns + [connections[id]];
        }
      }
    }

    /** One scheduler tick: each connection is ticked once, at some reading of
        the clock. The ghost result is the connections that sent a packet, in
        order: exactly those that were due and have a remote address, each once.
        `ok` is false when the source panics on a producer whose data does not
        fit the send buffer.
     */
    method ProcessTick(clock: Clock) returns (ok: bool, ghost senders: seq<IOConnection>)
      requires Valid() && clock as object !in assemblyObj.Repr && clock as object != this
      requires network as object != this && clock as object != network
      modifies clock, network, connections.Values
      ensures Valid() && old(clock.now) <= clock.now
      ensures !ok ==> exists conn | conn in connections.Values :: conn.isProducer && !conn.Sendable()
      ensures ok ==> forall conn | conn in connections.Values ::
        && Ticked(old(conn.Pace()), conn.Pace(), old(clock.now), clock.now)
        && (conn in senders <==> conn.sends != old(conn.sends) && conn.remoteAddr.Some?)
      ensures ok ==> Distinct(senders) && forall conn | conn in senders :: conn in connections.Values && conn.CanSend()
      ensures ok ==>
        && |network.sent| == |old(network.sent)| + |senders| && old(network.sent) <= network.sent
        && forall k | 0 <= k < |senders| :: network.sent[|old(network.sent)| + k] == senders[k].Packet()
    {
      hide Ticked, IOConnection.Pace, IOConnection.Packet;
      ghost var begin := clock.now;
      var conns := Producers();
      ok, senders := TickEach(conns, clock);
      if !ok { return; }
      forall conn | conn in connections.Values && conn !in conns
        ensures Ticked(old(conn.Pace()), conn.Pace(), begin, clock.now)
      {
        IdleTick(conn, begin);
        TickWindowGrows(conn.Pace(), conn.Pace(), begin, begin, clock.now);
      }
    }

    /** The part of a tick that runs without the lock. */
    method TickEach(conns: seq<IOConnection>, clock: Clock) returns (ok: bool, ghost senders: seq<IOConnection>)
      requires Distinct(conns) && forall conn | conn in conns :: conn.isProducer
      modifies clock, network, conns
      ensures old(clock.now) <= clock.now
      ensures !ok ==> exists conn | conn in conns :: !conn.Sendable()
      ensures ok ==> forall conn | conn in conns ::
        && Ticked(old(conn.Pace()), conn.Pace(), old(clock.now), clock.now)
        && (conn in senders <==> conn.sends != old(conn.sends) && conn.remoteAddr.Some?)
      ensures ok ==> Distinct(senders) && forall conn | conn in senders :: conn in conns && conn.CanSend()
      ensures ok ==>
        && |network.sent| == |old(network.sent)| + |senders| && old(network.sent) <= network.sent
        && forall k | 0 <= k < |senders| :: network.sent[|old(network.sent)| + k] == senders[k].Packet()
    {
      hide Distinct, TickedAt, Ticked, Due, IOConnection.Pace, IOConnection.Packet, IOConnection.Sendable;
      senders := [];
      NoneDistinct();
      ghost var begin, was := clock.now, |network.sent|;
      for i := 0 to |conns|
        invariant begin <= clock.now && old(network.sent) <= network.sent && |network.sent| == was + |senders|
        invariant forall k | i <= k < |conns| ::
          conns[k].sends == old(conns[k].sends) && conns[k].Pace() == old(conns[k].Pace())
        invariant forall k | 0 <= k < i :: Ticked(old(conns[k].Pace()), conns[k].Pace(), begin, clock.now)
        invariant forall k | 0 <= k < i ::
          conns[k].sends != old(conns[k].sends) && conns[k].remoteAddr.Some? ==> conns[k] in senders
        invariant Distinct(senders)
        invariant forall k | 0 <= k < |senders| ::
          senders[k] in conns[..i] && senders[k].CanSend() && senders[k].sends != old(senders[k].sends)
        invariant forall k | 0 <= k < |senders| :: network.sent[was + k] == senders[k].Packet()
      {
        ghost var now, conn := clock.now, conns[i];
        OnlyThere(conns, i);
        ghost var send: Send;
        ok, send := TickConnection(conns[i], clock);
        if !ok { return; }
        TickWithin(old(conn.Pace()), conn.Pace(), begin, send, clock.now);
        forall k | 0 <= k < i ensures Ticked(old(conns[k].Pace()), conns[k].Pace(), begin, clock.now) {
          TickWindowGrows(old(conns[k].Pace()), conns[k].Pace(), begin, now, clock.now);
        }
        if conn.sends != old(conn.sends) && conn.remoteAddr.Some? {
          DistinctSnoc(senders, conn);
          senders := senders + [conn];
        }
      }
      ok := true;
    }

    /** The body of the tick's loop; the ghost result is the clock readings. */
    method TickConnection(conn: IOConnection, clock: Clock) returns (ok: bool, ghost at: Send)
      requires conn.isProducer
      modifies clock, network, conn`sequenceCount, conn`lastSend, conn`sends
      ensures old(clock.now) <= at.checked <= at.stamped <= clock.now
      ensures ok ==> TickedAt(old(conn.Pace()), conn.Pace(), at.checked, at.stamped)
      ensures ok <==> conn.Sendable() || !Due(old(conn.Pace()), at.checked)
      ensures !ok ==> conn.lastSend == old(conn.lastSend) && conn.sends == old(conn.sends)
      ensures ok ==>
        (conn.sends != old(conn.sends) <==> conn.assembly != null && at.checked - old(conn.lastSend) >= conn.rpi)
      ensures conn.sends != old(conn.sends) && conn.remoteAddr.Some? ==> conn.CanSend()
      ensures network.sent == old(network.sent) +
        if conn.sends != old(conn.sends) && conn.remoteAddr.Some? then [conn.Packet()] else []
    {
      var checked := clock.Now();
      at := Send(checked, checked);
      if checked - conn.lastSend < conn.rpi || conn.assembly == null { return true, at; }
      ok := SendPacket(conn);
      if !ok { return; }
      var stamped := clock.Now();
      conn.lastSend := stamped;
      at := Send(checked, stamped);
      conn.sends := conn.sends + [at];
    }
  }
}
