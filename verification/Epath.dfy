/** EPATH building (pkg/cip/path.go) and an independent segment decoder that
    shows what the built bytes determine.
 */
module Epath {
  import opened Bytes

  datatype Kind = ClassId | InstanceId | MemberId | AttributeId

  /** A logical segment carries a number, a symbolic one a name. */
  datatype Segment = Logical(kind: Kind, id: U32) | Symbol(name: seq<Byte>)

  const SYMBOL_TAG: Byte := 0x91

  /** 0x20 for a logical segment, plus the bits of the logical type. */
  function Tag(kind: Kind): Byte {
    match kind
    case ClassId => 0x20
    case InstanceId => 0x24
    case MemberId => 0x28
    case AttributeId => 0x30
  }

  function EncodedLogical(kind: Kind, id: U32): seq<Byte> {
    if id <= 0xFF then [Tag(kind), id]
    else if id <= 0xFFFF then [Tag(kind) + 1, 0] + Put16(id)
    else [Tag(kind) + 2, 0] + Put32(id)
  }

  function EncodedSymbol(name: seq<Byte>): seq<Byte> {
    [SYMBOL_TAG, Low8(|name|)] + name + if |name| % 2 != 0 then [0] else []
  }

  function EncodedSegment(s: Segment): seq<Byte> {
    match s
    case Logical(kind, id) => EncodedLogical(kind, id)
    case Symbol(name) => EncodedSymbol(name)
  }

  function EncodedPath(segments: seq<Segment>): seq<Byte> {
    if segments == [] then [] else EncodedSegment(segments[0]) + EncodedPath(segments[1..])
  }

  /** BuildPath's segments: the attribute is left out when it is zero. */
  function Target(classId: U16, instanceId: U16, attributeId: U16): seq<Segment> {
    [Logical(ClassId, classId), Logical(InstanceId, instanceId)]
    + if attributeId != 0 then [Logical(AttributeId, attributeId)] else []
  }

  /** A growing path; `p` is the byte slice behind the pointer receiver. */
  class Path {
    var p: seq<Byte>

    constructor ()
      ensures p == []
    {
      p := [];
    }

    method AddClass(classId: U16)
      modifies this
      ensures p == old(p) + EncodedSegment(Logical(ClassId, classId))
    {
      if classId <= 0xFF {
        p := p + [0x20];
        p := p + [classId];
      } else {
        p := p + [0x21];
        p := p + [0x00];
        p := p + Put16(classId);
      }
    }

    method AddInstance(instanceId: U16)
      modifies this
      ensures p == old(p) + EncodedSegment(Logical(InstanceId, instanceId))
    {
      if instanceId <= 0xFF {
        p := p + [0x24];
        p := p + [instanceId];
      } else {
        p := p + [0x25];
        p := p + [0x00];
        p := p + Put16(instanceId);
      }
    }

    method AddInstance32(instanceId: U32)
      modifies this
      ensures p == old(p) + EncodedSegment(Logical(InstanceId, instanceId))
    {
      if instanceId <= 0xFF {
        p := p + [0x24];
        p := p + [instanceId];
      } else if instanceId <= 0xFFFF {
        p := p + [0x25];
        p := p + [0x00];
        p := p + Put16(instanceId);
      } else {
        p := p + [0x26];
        p := p + [0x00];
        p := p + Put32(instanceId);
      }
    }

    method AddAttribute(attributeId: U16)
      modifies this
      ensures p == old(p) + EncodedSegment(Logical(AttributeId, attributeId))
    {
      if attributeId <= 0xFF {
        p := p + [0x30];
        p := p + [attributeId];
      } else {
        p := p + [0x31];
        p := p + [0x00];
        p := p + Put16(attributeId);
      }
    }

    method AddMember(memberId: U16)
      modifies this
      ensures p == old(p) + EncodedSegment(Logical(MemberId, memberId))
    {
      if memberId <= 0xFF {
        p := p + [0x28];
        p := p + [memberId];
      } else {
        p := p + [0x29];
        p := p + [0x00];
        p := p + Put16(memberId);
      }
    }

    method AddSymbolicSegment(symbol: seq<Byte>)
      modifies this
      ensures p == old(p) + EncodedSegment(Symbol(symbol))
    {
      p := p + [0x91];
      var l := |symbol|;
      p := p + [Low8(l)];
      p := p + symbol;
      if l % 2 != 0 {
        p := p + [0x00];
      }
    }
  }

  method BuildPath(classId: U16, instanceId: U16, attributeId: U16) returns (path: seq<Byte>)
    ensures path == EncodedPath(Target(classId, instanceId, attributeId))
  {
    var p := new Path();
    p.AddClass(classId);
    p.AddInstance(instanceId);
    if attributeId != 0 {
      p.AddAttribute(attributeId);
    }
    path := p.p;
    TargetBytes(classId, instanceId, attributeId);
  }

  lemma TargetBytes(classId: U16, instanceId: U16, attributeId: U16)
    ensures EncodedPath(Target(classId, instanceId, attributeId))
         == EncodedLogical(ClassId, classId)
          + (EncodedLogical(InstanceId, instanceId)
          + if attributeId != 0 then EncodedLogical(AttributeId, attributeId) else [])
  {
    var c, i, a := Logical(ClassId, classId), Logical(InstanceId, instanceId), Logical(AttributeId, attributeId);
    var rest := if attributeId != 0 then [a] else [];
    assert Target(classId, instanceId, attributeId)[1..] == [i] + rest;
    assert ([i] + rest)[1..] == rest;
    assert [a][1..] == [] && EncodedPath([a]) == EncodedSegment(a);
  }

  // ---------- reading a path back ----------

  function KindOf(tag: Byte): Option<Kind> {
    if tag == 0x20 then Some(ClassId)
    else if tag == 0x24 then Some(InstanceId)
    else if tag == 0x28 then Some(MemberId)
    else if tag == 0x30 then Some(AttributeId)
    else None
  }

  datatype Read = Read(segment: Segment, used: nat)

  /** The segment at the start of b, by the segment formats of the CIP
      specification (Volume 1, Appendix C-1.4): the two low bits of a logical
      tag give the width of the number, a symbol carries its length.
   */
  function ReadSegment(b: seq<Byte>): Option<Read> {
    if |b| < 2 then None
    else if b[0] == SYMBOL_TAG then
      var n: nat := b[1];
      if |b| < 2 + n + n % 2 then None else Some(Read(Symbol(b[2..2 + n]), 2 + n + n % 2))
    else
      var width := b[0] % 4;
      match KindOf(b[0] - width)
      case None => None
      case Some(kind) =>
        if width == 0 then Some(Read(Logical(kind, b[1]), 2))
        else if width == 1 && 4 <= |b| then Some(Read(Logical(kind, Get16(b, 2)), 4))
        else if width == 2 && 6 <= |b| then Some(Read(Logical(kind, Get32(b, 2)), 6))
        else None
  }

  function ReadPath(b: seq<Byte>): Option<seq<Segment>> {
    if b == [] then Some([])
    else
      match ReadSegment(b)
      case None => None
      case Some(first) =>
        match ReadPath(b[first.used..])
        case None => None
        case Some(others) => Some([first.segment] + others)
  }

  /** What the one-byte length of a symbol can carry. */
  predicate ShortSymbol(s: Segment) {
    s.Symbol? ==> |s.name| <= 255
  }

  predicate ShortSymbols(segments: seq<Segment>) {
    forall i | 0 <= i < |segments| :: ShortSymbol(segments[i])
  }

  lemma ReadLogical(kind: Kind, id: U32, rest: seq<Byte>)
    ensures ReadSegment(EncodedLogical(kind, id) + rest)
         == Some(Read(Logical(kind, id), |EncodedLogical(kind, id)|))
  {
    var b := EncodedLogical(kind, id) + rest;
    if 0xFFFF < id {
      assert b[2..6] == Put32(id);
      GetPut32(b, 2, id);
    } else if 0xFF < id {
      assert b[2..4] == Put16(id);
      GetPut16(b, 2, id);
    }
  }

  lemma ReadSymbol(name: seq<Byte>, rest: seq<Byte>)
    requires |name| <= 255
    ensures ReadSegment(EncodedSymbol(name) + rest)
         == Some(Read(Symbol(name), |EncodedSymbol(name)|))
  {
    var b := EncodedSymbol(name) + rest;
    assert b[1] == |name| && b[2..2 + |name|] == name;
  }

  lemma ReadEncoded(s: Segment, rest: seq<Byte>)
    requires ShortSymbol(s)
    ensures ReadSegment(EncodedSegment(s) + rest) == Some(Read(s, |EncodedSegment(s)|))
  {
    match s
    case Logical(kind, id) => ReadLogical(kind, id, rest);
    case Symbol(name) => ReadSymbol(name, rest);
  }

  lemma {:induction false} ReadPathOfEncoded(segments: seq<Segment>)
    requires ShortSymbols(segments)
    ensures ReadPath(EncodedPath(segments)) == Some(segments)
  {
    if segments != [] {
      var first, others := segments[0], segments[1..];
      ReadEncoded(first, EncodedPath(others));
      ReadPathOfEncoded(others);
      assert (EncodedSegment(first) + EncodedPath(others))[|EncodedSegment(first)|..] == EncodedPath(others);
      assert [first] + others == segments;
    }
  }

  lemma {:induction false} ReadPathIsShort(b: seq<Byte>)
    requires ReadPath(b).Some?
    ensures ShortSymbols(ReadPath(b).value)
  {
    if b != [] {
      var first := ReadSegment(b).value;
      ReadPathIsShort(b[first.used..]);
      assert ShortSymbol(first.segment);
    }
  }

  /** A path determines its segments exactly when every symbol's length fits
      the length byte.
   */
  lemma PathRoundTripIff(segments: seq<Segment>)
    ensures ReadPath(EncodedPath(segments)) == Some(segments) <==> ShortSymbols(segments)
  {
    if ShortSymbols(segments) {
      ReadPathOfEncoded(segments);
    } else if ReadPath(EncodedPath(segments)).Some? {
      ReadPathIsShort(EncodedPath(segments));
    }
  }

  /** Distinct segment lists have distinct encodings. */
  lemma UniquelyDecodable(s: seq<Segment>, t: seq<Segment>)
    requires ShortSymbols(s) && ShortSymbols(t)
    ensures EncodedPath(s) == EncodedPath(t) <==> s == t
  {
    PathRoundTripIff(s);
    PathRoundTripIff(t);
  }

  lemma EvenSegment(s: Segment)
    ensures |EncodedSegment(s)| % 2 == 0
  {
  }

  lemma {:induction false} EvenLength(segments: seq<Segment>)
    ensures |EncodedPath(segments)| % 2 == 0
  {
    hide EncodedSegment;
    if segments != [] {
      EvenSegment(segments[0]);
      EvenLength(segments[1..]);
    }
  }

  function Repeat(s: Segment, n: nat): seq<Segment> {
    seq(n, _ => s)
  }

  lemma {:induction false} RepeatedClassBytes(n: nat)
    ensures EncodedPath(Repeat(Logical(ClassId, 0x20), n)) == seq(2 * n, _ => 0x20)
  {
    if n > 0 {
      RepeatedClassBytes(n - 1);
      assert Repeat(Logical(ClassId, 0x20), n)[1..] == Repeat(Logical(ClassId, 0x20), n - 1);
    }
  }

  /** The bound of 255 is needed: a symbol of 256 space characters has the
      encoding of an empty symbol followed by 128 class segments.
   */
  lemma LongSymbolCollides()
    ensures EncodedPath([Symbol(seq(256, _ => 0x20))])
         == EncodedPath([Symbol([])] + Repeat(Logical(ClassId, 0x20), 128))
  {
    hide Repeat;
    var name: seq<Byte> := seq(256, _ => 0x20);
    RepeatedClassBytes(128);
    assert EncodedSymbol(name) == [SYMBOL_TAG, 0] + name && EncodedSymbol([]) == [SYMBOL_TAG, 0];
    EncodedOne(Symbol(name), []);
    EncodedOne(Symbol([]), Repeat(Logical(ClassId, 0x20), 128));
    assert [Symbol(name)] + [] == [Symbol(name)];
  }

  lemma EncodedOne(s: Segment, others: seq<Segment>)
    ensures EncodedPath([s] + others) == EncodedSegment(s) + EncodedPath(others)
  {
    assert ([s] + others)[1..] == others;
  }

  // ---------- the two hand-written peels ----------

  datatype Peeled = Peeled(id: U16, rest: seq<Byte>)

  /** The router's reading of the class segment (pkg/cip/router.go). */
  function PeelClass(path: seq<Byte>): Option<Peeled> {
    PeelHead(path, 0x20)
  }

  /** Tag, then a one-byte number, or tag + 1, pad, then a two-byte number. */
  function PeelHead(path: seq<Byte>, tag: Byte): Option<Peeled>
    requires tag < 0xFF
  {
    if |path| == 0 then None
    else if path[0] == tag then
      if |path| < 2 then None else Some(Peeled(path[1], path[2..]))
    else if path[0] == tag + 1 then
      if |path| < 4 then None else Some(Peeled(Get16(path, 2), path[4..]))
    else None
  }

  /** The assembly's reading of an optional attribute segment
      (pkg/objects/assembly/assembly.go): 0 when there is none, an error when
      a recognised one is cut short, and whatever follows is ignored.
   */
  function PeelAttribute(path: seq<Byte>): Option<U16> {
    if |path| == 0 then Some(0)
    else if path[0] == 0x30 then
      if |path| < 2 then None else Some(path[1])
    else if path[0] == 0x31 then
      if |path| < 4 then None else Some(Get16(path, 2))
    else Some(0)
  }

  lemma PeelLogical(kind: Kind, id: U16, rest: seq<Byte>)
    requires kind != AttributeId
    ensures PeelHead(EncodedLogical(kind, id) + rest, Tag(kind)) == Some(Peeled(id, rest))
  {
    var b := EncodedLogical(kind, id) + rest;
    assert b[|EncodedLogical(kind, id)|..] == rest;
    if 0xFF < id {
      assert b[2..4] == Put16(id);
      GetPut16(b, 2, id);
    }
  }

  /** The router and then the assembly recover the triple given to BuildPath. */
  lemma PeelBuiltPath(classId: U16, instanceId: U16, attributeId: U16)
    ensures var path := EncodedPath(Target(classId, instanceId, attributeId));
      && PeelClass(path).Some?
      && PeelClass(path).value.id == classId
      && var inner := PeelHead(PeelClass(path).value.rest, 0x24);
      && inner.Some?
      && inner.value.id == instanceId
      && PeelAttribute(inner.value.rest) == Some(attributeId)
  {
    TargetBytes(classId, instanceId, attributeId);
    var attribute := if attributeId != 0 then EncodedLogical(AttributeId, attributeId) else [];
    PeelLogical(ClassId, classId, EncodedLogical(InstanceId, instanceId) + attribute);
    PeelLogical(InstanceId, instanceId, attribute);
    if 0xFF < attributeId {
      GetPut16(attribute, 2, attributeId);
    }
  }
}
