/** The Assembly object (pkg/objects/assembly/assembly.go). */
module Assembly {
  import opened Bytes
  import opened Cip
  import Epath

  /** What an assembly object stores: instance number to data. */
  type Table = map<U32, seq<Byte>>

  datatype Step = Step(result: Result<seq<Byte>>, table: Table)

  const DATA_ATTRIBUTE: U16 := 3

  function GetAttribute(t: Table, instanceId: U32, attrId: U16): Result<seq<Byte>> {
    if instanceId !in t then Fail(OBJECT_DOES_NOT_EXIST)
    else if attrId == DATA_ATTRIBUTE then Ok(t[instanceId])
    else Fail(ATTRIBUTE_NOT_SUPPORTED)
  }

  function SetAttribute(t: Table, instanceId: U32, attrId: U16, data: seq<Byte>): Step {
    if instanceId !in t then Step(Fail(OBJECT_DOES_NOT_EXIST), t)
    else if attrId != DATA_ATTRIBUTE then Step(Fail(ATTRIBUTE_NOT_SUPPORTED), t)
    else if |data| != |t[instanceId]| then Step(Fail(INVALID_ATTRIBUTE_VALUE), t)
    else Step(Ok([]), t[instanceId := data])
  }

  /** A get or set request on an instance and attribute, path errors aside. */
  function Call(t: Table, service: Byte, instanceId: U32, attrId: U16, data: seq<Byte>): Step {
    if service == GET_ATTRIBUTE_SINGLE then
      Step(if attrId == 0 then Fail(PATH_SEGMENT_ERROR) else GetAttribute(t, instanceId, attrId), t)
    else if service == SET_ATTRIBUTE_SINGLE then
      if attrId == 0 then Step(Fail(PATH_SEGMENT_ERROR), t) else SetAttribute(t, instanceId, attrId, data)
    else Step(Fail(SERVICE_NOT_SUPPORTED), t)
  }

  function Handle(t: Table, service: Byte, path: seq<Byte>, data: seq<Byte>): Step {
    match Epath.PeelHead(path, 0x24)
    case None => Step(Fail(PATH_SEGMENT_ERROR), t)
    case Some(inst) =>
      match Epath.PeelAttribute(inst.rest)
      case None => Step(Fail(PATH_SEGMENT_ERROR), t)
      case Some(attrId) => Call(t, service, inst.id, attrId, data)
  }

  /** What no request can change: which instances exist and their sizes. */
  lemma HandleKeepsShape(t: Table, service: Byte, path: seq<Byte>, data: seq<Byte>)
    ensures var u := Handle(t, service, path, data).table;
            u.Keys == t.Keys && forall i | i in t :: |u[i]| == |t[i]|
  {
  }

  /** A set that succeeds is what the next get of that instance returns, and
      every other instance is as it was; any other call changes nothing.
   */
  lemma SetThenGet(t: Table, instanceId: U32, attrId: U16, data: seq<Byte>)
    ensures var s := SetAttribute(t, instanceId, attrId, data);
      && (s.result.Ok? <==> instanceId in t && attrId == DATA_ATTRIBUTE && |data| == |t[instanceId]|)
      && (s.result.Ok? ==> GetAttribute(s.table, instanceId, attrId) == Ok(data))
      && (s.result.Err? ==> s.table == t)
      && forall j: U32, a: U16 | j != instanceId :: GetAttribute(s.table, j, a) == GetAttribute(t, j, a)
  {
  }

  class AssemblyInstance {
    const id: U32
    const data: array<Byte>

    constructor (id: U32, data: array<Byte>)
      ensures this.id == id && this.data == data
    {
      this.id := id;
      this.data := data;
    }
  }

  class AssemblyObject {
    var instances: map<U32, AssemblyInstance>
    ghost var Repr: set<object>

    /** Different instances have different storage. */
    ghost predicate Valid()
      reads this, Repr
    {
      && this in Repr
      && (forall i | i in instances :: instances[i].data in Repr)
      && (forall i, j | i in instances && j in instances && i != j :: instances[i].data != instances[j].data)
    }

    ghost function View(): Table
      requires Valid()
      reads this, Repr
    {
      map i | i in instances :: instances[i].data[..]
    }

    constructor ()
      ensures Valid() && fresh(Repr) && View() == map[]
    {
      instances := map[];
      Repr := {this};
    }

    /** The caller's array becomes the instance's storage. */
    method RegisterAssembly(instanceId: U32, data: array<Byte>)
      requires Valid()
      requires forall j | j in instances && j != instanceId :: instances[j].data != data
      modifies this
      ensures Valid() && Repr == old(Repr) + {data}
      ensures View() == old(View())[instanceId := data[..]]
    {
      var instance := new AssemblyInstance(instanceId, data);
      instances := instances[instanceId := instance];
      Repr := Repr + {data};
    }

    method GetAttributeSingle(instanceId: U32, attrId: U16) returns (r: Result<seq<Byte>>)
      requires Valid()
      ensures r == GetAttribute(View(), instanceId, attrId)
    {
      if instanceId !in instances { return Fail(OBJECT_DOES_NOT_EXIST); }
      var instance := instances[instanceId];
      if attrId == 3 {
        return Ok(instance.data[..]);
      } else if attrId == 4 {
        return Fail(ATTRIBUTE_NOT_SUPPORTED);
      }
      r := Fail(ATTRIBUTE_NOT_SUPPORTED);
    }

    method SetAttributeSingle(instanceId: U32, attrId: U16, data: seq<Byte>) returns (r: Result<seq<Byte>>)
      requires Valid()
      modifies Repr - {this}
      ensures Valid()
      ensures Step(r, View()) == SetAttribute(old(View()), instanceId, attrId, data)
    {
      if instanceId !in instances { return Fail(OBJECT_DOES_NOT_EXIST); }
      var instance := instances[instanceId];
      if attrId == 3 {
        if |data| != instance.data.Length { return Fail(INVALID_ATTRIBUTE_VALUE); }
        forall k | 0 <= k < |data| {
          instance.data[k] := data[k];
        }
        assert instance.data[..] == data;
        assert forall i | i in instances && i != instanceId ::
          instances[i].data[..] == old(instances[i].data[..]);
        assert View() == old(View())[instanceId := data];
        return Ok([]);
      }
      r := Fail(ATTRIBUTE_NOT_SUPPORTED);
    }

    method HandleRequest(service: Byte, path: seq<Byte>, data: seq<Byte>) returns (r: Result<seq<Byte>>)
      requires Valid()
      modifies Repr - {this}
      ensures Valid()
      ensures Step(r, View()) == Handle(old(View()), service, path, data)
    {
      if |path| == 0 { return Fail(PATH_SEGMENT_ERROR); }
      var instanceId: U32;
      var remaining: seq<Byte>;
      if path[0] == 0x24 {
        if |path| < 2 { return Fail(PATH_SEGMENT_ERROR); }
        instanceId := path[1];
        remaining := path[2..];
      } else if path[0] == 0x25 {
        if |path| < 4 { return Fail(PATH_SEGMENT_ERROR); }
        instanceId := Get16(path, 2);
        remaining := path[4..];
      } else {
        return Fail(PATH_SEGMENT_ERROR);
      }
      var attrId: U16 := 0;
      if |remaining| > 0 {
        if remaining[0] == 0x30 {
          if |remaining| < 2 { return Fail(PATH_SEGMENT_ERROR); }
          attrId := remaining[1];
        } else if remaining[0] == 0x31 {
          if |remaining| < 4 { return Fail(PATH_SEGMENT_ERROR); }
          attrId := Get16(remaining, 2);
        }
      }
      if service == GET_ATTRIBUTE_SINGLE {
        if attrId == 0 { return Fail(PATH_SEGMENT_ERROR); }
        r := GetAttributeSingle(instanceId, attrId);
      } else if service == SET_ATTRIBUTE_SINGLE {
        if attrId == 0 { return Fail(PATH_SEGMENT_ERROR); }
        r := SetAttributeSingle(instanceId, attrId, data);
      } else {
        r := Fail(SERVICE_NOT_SUPPORTED);
      }
    }
  }
}
