/** The Common Packet Format (pkg/eip/cpf.go). */
module Cpf {
  import opened Bytes

  const NULL_ADDRESS: U16 := 0x0000
  const CONNECTED_ADDRESS: U16 := 0x00A1
  const CONNECTED_DATA: U16 := 0x00B1
  const UNCONNECTED_MESSAGE: U16 := 0x00B2

  /** `length` is a field of its own: it need not be the length of `data`. */
  datatype Item = Item(typeId: U16, length: U16, data: seq<Byte>)

  datatype Packet = Packet(itemCount: U16, items: seq<Item>)

  function NewItem(typeId: U16, data: seq<Byte>): Item {
    Item(typeId, Low16(|data|), data)
  }

  function NewPacket(items: seq<Item>): Packet {
    Packet(Low16(|items|), items)
  }

  /** The fields agree with what they count. */
  predicate Exact(item: Item) {
    item.length == |item.data|
  }

  predicate AllExact(items: seq<Item>) {
    forall i | 0 <= i < |items| :: Exact(items[i])
  }

  // ---------- what is written ----------

  function EncodedItem(item: Item): seq<Byte> {
    Put16(item.typeId) + Put16(item.length) + if item.length > 0 then item.data else []
  }

  function EncodedItems(items: seq<Item>): seq<Byte> {
    if items == [] then [] else EncodedItem(items[0]) + EncodedItems(items[1..])
  }

  function Encoded(p: Packet): seq<Byte> {
    Put16(p.itemCount) + EncodedItems(p.items)
  }

  lemma {:induction false} EncodedItemsSnoc(items: seq<Item>, item: Item)
    ensures EncodedItems(items + [item]) == EncodedItems(items) + EncodedItem(item)
  {
    if items == [] {
      assert items + [item] == [item] && [item][1..] == [];
      AddNothing(EncodedItem(item));
    } else {
      EncodedItemsSnoc(items[1..], item);
      assert (items + [item])[0] == items[0] && (items + [item])[1..] == items[1..] + [item];
      AddAssociates(EncodedItem(items[0]), EncodedItems(items[1..]), EncodedItem(item));
    }
  }

  method Encode(p: Packet) returns (buf: seq<Byte>)
    ensures buf == Encoded(p)
  {
    buf := Put16(p.itemCount);
    var i := 0;
    while i < |p.items|
      invariant 0 <= i <= |p.items|
      invariant buf == Put16(p.itemCount) + EncodedItems(p.items[..i])
    {
      EncodedItemsSnoc(p.items[..i], p.items[i]);
      assert p.items[..i + 1] == p.items[..i] + [p.items[i]];
      buf := buf + Put16(p.items[i].typeId);
      buf := buf + Put16(p.items[i].length);
      if p.items[i].length > 0 {
        buf := buf + p.items[i].data;
      }
      i := i + 1;
    }
    assert p.items[..i] == p.items;
  }

  // ---------- what is read ----------

  datatype Parsed = Parsed(items: seq<Item>, rest: seq<Byte>)

  /** One complete item at the start of b. */
  function FirstItem(b: seq<Byte>): Option<Item> {
    if |b| < 4 || |b| < 4 + Get16(b, 2) then None
    else Some(Item(Get16(b, 0), Get16(b, 2), b[4..4 + Get16(b, 2)]))
  }

  /** The grammar of n consecutive items: what they are, and what is left. */
  function ParseItems(b: seq<Byte>, n: nat): Option<Parsed> {
    if n == 0 then Some(Parsed([], b))
    else
      match FirstItem(b)
      case None => None
      case Some(item) => Prepend([item], ParseItems(b[4 + item.length..], n - 1))
  }

  function Prepend(items: seq<Item>, p: Option<Parsed>): Option<Parsed> {
    match p
    case None => None
    case Some(q) => Some(Parsed(items + q.items, q.rest))
  }

  /** Trailing bytes after the last counted item are ignored. */
  function Decoded(b: seq<Byte>): Option<Packet> {
    if |b| < 2 then None
    else
      match ParseItems(b[2..], Get16(b, 0))
      case None => None
      case Some(p) => Some(Packet(Get16(b, 0), p.items))
  }

  lemma ParseBegins(p: Option<Parsed>)
    ensures Prepend([], p) == p
  {
    if p.Some? {
      assert [] + p.value.items == p.value.items;
    }
  }

  lemma ParseGoesOn(items: seq<Item>, b: seq<Byte>, n: nat)
    requires n > 0
    ensures match FirstItem(b)
      case None => Prepend(items, ParseItems(b, n)) == None
      case Some(item) =>
        && 4 + item.length <= |b|
        && Prepend(items, ParseItems(b, n)) == Prepend(items + [item], ParseItems(b[4 + item.length..], n - 1))
  {
    if FirstItem(b).Some? {
      var item := FirstItem(b).value;
      var p := ParseItems(b[4 + item.length..], n - 1);
      if p.Some? {
        assert items + ([item] + p.value.items) == (items + [item]) + p.value.items;
      }
    }
  }

  lemma ParseEnds(items: seq<Item>, b: seq<Byte>)
    ensures Prepend(items, ParseItems(b, 0)) == Some(Parsed(items, b))
  {
    assert items + [] == items;
  }

  method DecodeItem(reader: Reader) returns (r: Option<Item>)
    requires reader.Valid()
    modifies reader
    ensures reader.Valid()
    ensures r == FirstItem(old(reader.Rest()))
    ensures r.Some? ==> reader.Rest() == old(reader.Rest())[4 + r.value.length..]
  {
    ghost var data, start := reader.data, reader.pos;
    ghost var b := reader.Rest();
    var typeId := reader.ReadU16();
    if typeId.None? { return None; }
    var length := reader.ReadU16();
    if length.None? { return None; }
    assert Get16(b, 0) == typeId.value && Get16(b, 2) == length.value;
    var itemData: seq<Byte> := [];
    if length.value > 0 {
      var read := reader.ReadFull(length.value);
      if read.None? { return None; }
      itemData := read.value;
    }
    assert itemData == b[4..4 + length.value];
    r := Some(Item(typeId.value, length.value, itemData));
  }

  method Decode(data: seq<Byte>) returns (r: Option<Packet>)
    ensures r == Decoded(data)
  {
    hide FirstItem, ParseItems, Prepend;
    var reader := new Reader(data);
    var count := reader.ReadU16();
    if count.None? { return None; }
    var items: seq<Item> := [];
    var i := 0;
    ParseBegins(ParseItems(data[2..], count.value));
    while i < count.value
      invariant 0 <= i <= count.value && reader.Valid()
      invariant ParseItems(data[2..], count.value) == Prepend(items, ParseItems(reader.Rest(), count.value - i))
    {
      ParseGoesOn(items, reader.Rest(), count.value - i);
      var item := DecodeItem(reader);
      if item.None? { return None; }
      items := items + [item.value];
      i := i + 1;
    }
    ParseEnds(items, reader.Rest());
    r := Some(Packet(count.value, items));
  }

  method FindItemByType(p: Packet, typeId: U16) returns (r: Option<Item>)
    ensures r == FirstOfType(p.items, typeId)
  {
    var i := 0;
    while i < |p.items|
      invariant 0 <= i <= |p.items|
      invariant FirstOfType(p.items, typeId) == FirstOfType(p.items[i..], typeId)
    {
      if p.items[i].typeId == typeId { return Some(p.items[i]); }
      i := i + 1;
    }
    r := None;
  }

  function FirstOfType(items: seq<Item>, typeId: U16): Option<Item> {
    if items == [] then None
    else if items[0].typeId == typeId then Some(items[0])
    else FirstOfType(items[1..], typeId)
  }

  /** The search result is the item of that type with the least index. */
  lemma {:induction false} FirstOfTypeIsFirst(items: seq<Item>, typeId: U16)
    ensures match FirstOfType(items, typeId)
            case None => forall j | 0 <= j < |items| :: items[j].typeId != typeId
            case Some(item) => exists k | 0 <= k < |items| ::
              && items[k] == item && item.typeId == typeId
              && forall j | 0 <= j < k :: items[j].typeId != typeId
  {
    if items != [] {
      if items[0].typeId == typeId {
        assert items[0] == FirstOfType(items, typeId).value;
      } else {
        FirstOfTypeIsFirst(items[1..], typeId);
        if FirstOfType(items, typeId).Some? {
          var k :| 0 <= k < |items[1..]| && items[1..][k] == FirstOfType(items, typeId).value &&
                   forall j | 0 <= j < k :: items[1..][j].typeId != typeId;
          assert items[k + 1] == items[1..][k];
          forall j | 0 <= j < k + 1 ensures items[j].typeId != typeId {
            if j > 0 { assert items[j] == items[1..][j - 1]; }
          }
        } else {
          forall j | 0 <= j < |items| ensures items[j].typeId != typeId {
            if j > 0 { assert items[j] == items[1..][j - 1]; }
          }
        }
      }
    }
  }

  // ---------- both directions ----------

  lemma FirstItemOfEncoded(item: Item, rest: seq<Byte>)
    requires Exact(item)
    ensures FirstItem(EncodedItem(item) + rest) == Some(item)
    ensures (EncodedItem(item) + rest)[4 + item.length..] == rest
  {
    var b := EncodedItem(item) + rest;
    assert b[0..2] == Put16(item.typeId) && b[2..4] == Put16(item.length);
    GetPut16(b, 0, item.typeId);
    GetPut16(b, 2, item.length);
    assert b[4..4 + item.length] == item.data;
  }

  lemma EncodedOfFirstItem(b: seq<Byte>)
    requires FirstItem(b).Some?
    ensures var item := FirstItem(b).value;
            Exact(item) && 4 + item.length <= |b| && EncodedItem(item) + b[4 + item.length..] == b
  {
    PutGet16(b, 0);
    PutGet16(b, 2);
  }

  lemma EncodedCons(item: Item, items: seq<Item>, rest: seq<Byte>)
    ensures EncodedItems([item] + items) + rest == EncodedItem(item) + (EncodedItems(items) + rest)
  {
    assert ([item] + items)[1..] == items;
  }

  /** Reading what was written gives the same items and leaves what followed. */
  lemma {:induction false} ParseAfterEncode(items: seq<Item>, tail: seq<Byte>)
    requires AllExact(items)
    ensures ParseItems(EncodedItems(items) + tail, |items|) == Some(Parsed(items, tail))
  {
    if items == [] {
      assert EncodedItems(items) + tail == tail;
    } else {
      var item, rest := items[0], EncodedItems(items[1..]) + tail;
      ParseAfterEncode(items[1..], tail);
      AddAssociates(EncodedItem(item), EncodedItems(items[1..]), tail);
      FirstItemOfEncoded(item, rest);
      assert [item] + items[1..] == items;
    }
  }

  /** Writing what was read gives back exactly the bytes that were consumed. */
  lemma {:induction false} EncodeAfterParse(b: seq<Byte>, n: nat)
    requires ParseItems(b, n).Some?
    ensures var p := ParseItems(b, n).value;
            |p.items| == n && AllExact(p.items) && EncodedItems(p.items) + p.rest == b
  {
    if n > 0 {
      EncodedOfFirstItem(b);
      var item := FirstItem(b).value;
      var rest := b[4 + item.length..];
      EncodeAfterParse(rest, n - 1);
      var q := ParseItems(rest, n - 1).value;
      EncodedCons(item, q.items, q.rest);
    }
  }

  /** Decoding an encoded packet, whatever bytes follow it. */
  lemma DecodeAfterEncode(items: seq<Item>, tail: seq<Byte>)
    requires AllExact(items) && |items| < 0x1_0000
    ensures Decoded(Encoded(NewPacket(items)) + tail) == Some(NewPacket(items))
  {
    var b := Encoded(NewPacket(items)) + tail;
    GetPut16(b, 0, |items|);
    assert b[2..] == EncodedItems(items) + tail;
    ParseAfterEncode(items, tail);
  }

  /** For items and packets built by the constructors, whose counts are
      truncated to 16 bits, decoding gives the packet back exactly when
      nothing was truncated.
   */
  lemma RoundTripIff(types: seq<U16>, datas: seq<seq<Byte>>)
    requires |types| == |datas|
    ensures var p := NewPacket(seq(|types|, i requires 0 <= i < |types| => NewItem(types[i], datas[i])));
            Decoded(Encoded(p)) == Some(p) <==>
              |datas| < 0x1_0000 && forall i | 0 <= i < |datas| :: |datas[i]| < 0x1_0000
  {
    var items := seq(|types|, i requires 0 <= i < |types| => NewItem(types[i], datas[i]));
    var p := NewPacket(items);
    var b := Encoded(p);
    if |datas| < 0x1_0000 && forall i | 0 <= i < |datas| :: |datas[i]| < 0x1_0000 {
      DecodeAfterEncode(items, []);
      assert b + [] == b;
    }
    if Decoded(b) == Some(p) {
      EncodeAfterParse(b[2..], Get16(b, 0));
      forall i | 0 <= i < |datas| ensures |datas[i]| < 0x1_0000 {
        assert Exact(items[i]);
      }
    }
  }

  /** A successful decode consumes a prefix that encoding reproduces. */
  lemma EncodeAfterDecode(b: seq<Byte>)
    requires Decoded(b).Some?
    ensures Encoded(Decoded(b).value) <= b
    ensures Decoded(b).value == NewPacket(Decoded(b).value.items) && AllExact(Decoded(b).value.items)
  {
    EncodeAfterParse(b[2..], Get16(b, 0));
    PutGet16(b, 0);
    var p := ParseItems(b[2..], Get16(b, 0)).value;
    PrefixOf(Put16(Get16(b, 0)), EncodedItems(p.items), p.rest, b);
  }

  /** Every item takes its four bytes of header and its data. */
  lemma {:induction false} ItemsTakeSpace(items: seq<Item>)
    ensures |EncodedItems(items)| >= 4 * |items|
  {
    if items != [] { ItemsTakeSpace(items[1..]); }
  }

  lemma PrefixOf(a: seq<Byte>, b: seq<Byte>, c: seq<Byte>, whole: seq<Byte>)
    requires |a| <= |whole| && whole[..|a|] == a && whole[|a|..] == b + c
    ensures a + b <= whole
  {
    assert whole == whole[..|a|] + whole[|a|..];
  }
}
