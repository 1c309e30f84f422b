/** The hand-written I/O packet codec: the parser of handlePacket
    (pkg/runtime/runtime.go) and the serializer of sendPacket
    (pkg/runtime/scheduler.go), against the general packet format.
 */
module UdpPacket {
  import opened Bytes
  import Cpf

  const BUFFER_SIZE := 2048

  datatype Received = Received(connectionId: U32, payload: seq<Byte>)

  // ---------- receiving ----------

  /** The parser's walk over the first n bytes of a receive buffer. It looks at
      fixed offsets, which may lie beyond n but never beyond the buffer, before
      it checks that n covers the data item.
   */
  function Parsed(buf: seq<Byte>, n: nat): Option<Received>
    requires n <= |buf| == BUFFER_SIZE
  {
    if n < 6 || Get16(buf, 0) != 2 || Get16(buf, 4) != 4 || n < 14 + Get16(buf, 12) then None
    else Some(Received(Get32(buf, 6), buf[14..14 + Get16(buf, 12)]))
  }

  method Parse(buf: array<Byte>, n: nat) returns (r: Option<Received>)
    requires n <= buf.Length == BUFFER_SIZE
    ensures r == Parsed(buf[..], n)
  {
    ghost var b := buf[..];
    GetSlice(b, 0, 2, 0);
    GetSlice(b, 4, 6, 0);
    GetSlice(b, 6, 10, 0);
    GetSlice(b, 12, 14, 0);
    if n < 6 { return None; }
    var itemCount := Get16(buf[0..2], 0);
    if itemCount != 2 { return None; }
    var offset := 2;
    offset := offset + 2;
    var len1 := Get16(buf[offset..offset + 2], 0);
    offset := offset + 2;
    if len1 != 4 { return None; }
    var connId := Get32(buf[offset..offset + 4], 0);
    offset := offset + 4;
    offset := offset + 2;
    var len2: int := Get16(buf[offset..offset + 2], 0);
    offset := offset + 2;
    if n < offset + len2 { return None; }
    var payload := buf[offset..offset + len2];
    r := Some(Received(connId, payload));
  }

  /** The same packet through the general decoder: two items, the first of
      length 4.
   */
  function Decoded(data: seq<Byte>): Option<Received> {
    match Cpf.Decoded(data)
    case None => None
    case Some(p) =>
      if p.itemCount != 2 || |p.items| != 2 || p.items[0].length != 4 || |p.items[0].data| != 4 then None
      else Some(Received(Get32(p.items[0].data, 0), p.items[1].data))
  }

  lemma ParseOne(c: seq<Byte>)
    ensures Cpf.ParseItems(c, 1).Some? <==> Cpf.FirstItem(c).Some?
    ensures Cpf.FirstItem(c).Some? ==> Cpf.ParseItems(c, 1).value.items == [Cpf.FirstItem(c).value]
  {
    if Cpf.FirstItem(c).Some? {
      var item := Cpf.FirstItem(c).value;
      assert Cpf.ParseItems(c[4 + item.length..], 0) == Some(Cpf.Parsed([], c[4 + item.length..]));
      assert [item] + [] == [item];
    }
  }

  lemma FirstItemAt(d: seq<Byte>, i: nat)
    requires i <= |d|
    ensures Cpf.FirstItem(d[i..]) ==
      if |d| < i + 4 || |d| < i + 4 + Get16(d, i + 2) then None
      else Some(Cpf.Item(Get16(d, i), Get16(d, i + 2), d[i + 4..i + 4 + Get16(d, i + 2)]))
  {
    if i + 4 <= |d| {
      GetSlice(d, i, |d|, 0);
      GetSlice(d, i, |d|, 2);
      if i + 4 + Get16(d, i + 2) <= |d| {
        assert d[i..][4..4 + Get16(d, i + 2)] == d[i + 4..i + 4 + Get16(d, i + 2)];
      }
    }
  }

  /** Two items, spelled out at their offsets. */
  lemma DecodeTwo(d: seq<Byte>)
    requires 6 <= |d| && Get16(d, 0) == 2 && Get16(d, 4) == 4
    ensures Cpf.Decoded(d).Some? <==> 14 <= |d| && 14 + Get16(d, 12) <= |d|
    ensures Cpf.Decoded(d).Some? ==>
      Cpf.Decoded(d).value.items == [Cpf.Item(Get16(d, 2), 4, d[6..10]),
                                     Cpf.Item(Get16(d, 10), Get16(d, 12), d[14..14 + Get16(d, 12)])]
  {
    hide Cpf.FirstItem;
    FirstItemAt(d, 2);
    if 10 <= |d| {
      assert d[2..][8..] == d[10..];
      FirstItemAt(d, 10);
      ParseOne(d[10..]);
    }
  }

  /** Which datagrams are taken, at their offsets: two items, the first of four
      bytes, the second complete. Neither type is looked at.
   */
  lemma DecodedIff(d: seq<Byte>)
    ensures Decoded(d).Some? <==>
      |d| >= 14 && Get16(d, 0) == 2 && Get16(d, 4) == 4 && 14 + Get16(d, 12) <= |d|
    ensures Decoded(d).Some? ==>
      Decoded(d).value == Received(Get32(d, 6), d[14..14 + Get16(d, 12)])
  {
    if |d| >= 6 && Get16(d, 0) == 2 && Get16(d, 4) == 4 {
      DecodeTwo(d);
      if 10 <= |d| { GetSlice(d, 6, 10, 0); }
    } else if Cpf.Decoded(d).Some? && Cpf.Decoded(d).value.itemCount == 2 {
      assert Cpf.FirstItem(d[2..]).Some?;
      GetSlice(d, 2, |d|, 2);
      assert Cpf.Decoded(d).value.items[0] == Cpf.FirstItem(d[2..]).value;
    }
  }

  /** The two parsers agree on every buffer and every received length. The
      right-hand side sees only the first n bytes, so what an earlier packet
      left in the buffer never matters.
   */
  lemma ParserAgrees(buf: seq<Byte>, n: nat)
    requires n <= |buf| == BUFFER_SIZE
    ensures Parsed(buf, n) == Decoded(buf[..n])
  {
    var d := buf[..n];
    if n >= 6 && Get16(buf, 0) == 2 && Get16(buf, 4) == 4 {
      GetSlice(buf, 0, n, 0);
      GetSlice(buf, 0, n, 4);
      DecodeTwo(d);
      if n >= 14 {
        GetSlice(buf, 0, n, 6);
        GetSlice(buf, 0, n, 12);
        GetSlice(d, 6, 10, 0);
        if n >= 14 + Get16(buf, 12) {
          assert d[14..14 + Get16(buf, 12)] == buf[14..14 + Get16(buf, 12)];
        }
      }
    } else {
      Rejected(buf, n);
    }
  }

  lemma Rejected(buf: seq<Byte>, n: nat)
    requires n <= |buf| == BUFFER_SIZE
    requires n < 6 || Get16(buf, 0) != 2 || Get16(buf, 4) != 4
    ensures Decoded(buf[..n]) == None
  {
    var d := buf[..n];
    if Cpf.Decoded(d).Some? && Cpf.Decoded(d).value.itemCount == 2 {
      assert Get16(d, 0) == Get16(buf, 0);
      assert Cpf.FirstItem(d[2..]).Some?;
      GetSlice(d, 2, |d|, 2);
      var first := Cpf.FirstItem(d[2..]).value;
      assert Cpf.Decoded(d).value.items[0] == first;
      assert first.length == Get16(d, 4) == Get16(buf, 4);
    }
  }

  // ---------- sending ----------

  /** Sequence count, optional run/idle header with the run bit, data. */
  function DataItem(sequence: U16, runIdle: bool, data: seq<Byte>): seq<Byte> {
    Put16(sequence) + (if runIdle then Put32(1) else []) + data
  }

  function Datagram(connectionId: U32, sequence: U16, runIdle: bool, data: seq<Byte>): seq<Byte> {
    Cpf.Encoded(Cpf.NewPacket([
      Cpf.NewItem(Cpf.CONNECTED_ADDRESS, Put32(connectionId)),
      Cpf.NewItem(Cpf.CONNECTED_DATA, DataItem(sequence, runIdle, data))]))
  }

  /** What fits the send buffer: 2028 bytes of data with the run/idle header,
      2032 without.
   */
  predicate Fits(runIdle: bool, size: nat) {
    size <= if runIdle then 2028 else 2032
  }

  lemma DatagramBytes(connectionId: U32, sequence: U16, runIdle: bool, data: seq<Byte>)
    requires Fits(runIdle, |data|)
    ensures Datagram(connectionId, sequence, runIdle, data)
         == PacketHead(connectionId, |DataItem(sequence, runIdle, data)|) + DataItem(sequence, runIdle, data)
  {
    var first := Cpf.NewItem(Cpf.CONNECTED_ADDRESS, Put32(connectionId));
    var second := Cpf.NewItem(Cpf.CONNECTED_DATA, DataItem(sequence, runIdle, data));
    assert [first, second][1..] == [second] && [second][1..] == [];
    assert Cpf.EncodedItems([second]) == Cpf.EncodedItem(second) + [];
  }

  /** `binary.LittleEndian.PutUint16(buf[offset:], v)` */
  method PutUint16(buf: array<Byte>, offset: nat, v: U16)
    requires offset + 2 <= buf.Length
    modifies buf
    ensures buf[..offset + 2] == old(buf[..offset]) + Put16(v)
  {
    buf[offset] := Put16(v)[0];
    buf[offset + 1] := Put16(v)[1];
  }

  /** `binary.LittleEndian.PutUint32(buf[offset:], v)` */
  method PutUint32(buf: array<Byte>, offset: nat, v: U32)
    requires offset + 4 <= buf.Length
    modifies buf
    ensures buf[..offset + 4] == old(buf[..offset]) + Put32(v)
  {
    buf[offset] := Put32(v)[0];
    buf[offset + 1] := Put32(v)[1];
    buf[offset + 2] := Put32(v)[2];
    buf[offset + 3] := Put32(v)[3];
  }

  /** `copy(buf[offset:], data)`: as much as there is room for. */
  method CopyInto(buf: array<Byte>, offset: nat, data: seq<Byte>)
    requires offset <= buf.Length
    modifies buf
    ensures offset + |data| <= buf.Length ==> buf[..offset + |data|] == old(buf[..offset]) + data
  {
    forall k | 0 <= k < |data| && offset + k < buf.Length {
      buf[offset + k] := data[k];
    }
  }

  function PacketHead(connectionId: U32, dataLen: U16): (h: seq<Byte>)
    ensures |h| == 14
  {
    Put16(2) + Put16(0x00A1) + Put16(4) + Put32(connectionId) + Put16(0x00B1) + Put16(dataLen)
  }

  /** Everything up to the data item's contents. The first item type is written
      twice, as the source does.
   */
  method PutHead(buf: array<Byte>, connectionId: U32, dataLen: nat) returns (offset: nat)
    requires buf.Length == BUFFER_SIZE
    modifies buf
    ensures offset == 14 && buf[..14] == PacketHead(connectionId, Low16(dataLen))
  {
    offset := 0;
    PutUint16(buf, offset, 2);
    offset := offset + 2;
    PutUint16(buf, offset, 0x8002);
    PutUint16(buf, offset, 0x00A1);
    offset := offset + 2;
    PutUint16(buf, offset, 4);
    offset := offset + 2;
    PutUint32(buf, offset, connectionId);
    offset := offset + 4;
    PutUint16(buf, offset, 0x00B1);
    offset := offset + 2;
    PutUint16(buf, offset, Low16(dataLen));
    offset := offset + 2;
  }

  /** The packet built in place at a moving offset; None when it is longer than
      the buffer.
   */
  method Serialize(connectionId: U32, sequence: U16, runIdle: bool, data: seq<Byte>) returns (r: Option<seq<Byte>>)
    ensures r == if Fits(runIdle, |data|) then Some(Datagram(connectionId, sequence, runIdle, data)) else None
  {
    hide Datagram, PacketHead, Put16, Put32;
    var buf := new Byte[2048];
    var dataLen := 2;
    if runIdle {
      dataLen := dataLen + 4;
    }
    dataLen := dataLen + |data|;
    var offset := PutHead(buf, connectionId, dataLen);
    PutUint16(buf, offset, sequence);
    offset := offset + 2;
    if runIdle {
      PutUint32(buf, offset, 1);
      offset := offset + 4;
    }
    CopyInto(buf, offset, data);
    offset := offset + |data|;
    if buf.Length < offset { return None; }
    DatagramBytes(connectionId, sequence, runIdle, data);
    assert buf[..offset] == PacketHead(connectionId, dataLen) + DataItem(sequence, runIdle, data);
    r := Some(buf[..offset]);
  }

  /** A datagram put into any receive buffer is parsed back: the connection ID
      and the whole data item, sequence count first.
   */
  lemma SerializeThenParse(connectionId: U32, sequence: U16, runIdle: bool, data: seq<Byte>, buf: seq<Byte>)
    requires Fits(runIdle, |data|) && |buf| == BUFFER_SIZE
    requires Datagram(connectionId, sequence, runIdle, data) <= buf
    ensures Parsed(buf, |Datagram(connectionId, sequence, runIdle, data)|)
         == Some(Received(connectionId, DataItem(sequence, runIdle, data)))
  {
    var d := Datagram(connectionId, sequence, runIdle, data);
    ParserAgrees(buf, |d|);
    assert buf[..|d|] == d;
    var items := [
      Cpf.NewItem(Cpf.CONNECTED_ADDRESS, Put32(connectionId)),
      Cpf.NewItem(Cpf.CONNECTED_DATA, DataItem(sequence, runIdle, data))];
    Cpf.DecodeAfterEncode(items, []);
    assert d + [] == d;
    GetPut32(Put32(connectionId), 0, connectionId);
  }
}
