/** The Message Router (pkg/cip/router.go), over the two object classes of the
    repository.
 */
module Router {
  import opened Bytes
  import opened Cip
  import opened Message
  import Assembly
  import ConnMgr
  import Epath

  /** The state behind a registered object. */
  datatype Entry = AssemblyEntry(table: Assembly.Table) | ManagerEntry(state: ConnMgr.State)

  type Registry = map<U16, Entry>

  datatype Handled = Handled(result: Result<seq<Byte>>, entry: Entry)

  datatype Dispatched = Dispatched(reply: Result<Response>, registry: Registry)

  function HandleEntry(e: Entry, service: Byte, path: seq<Byte>, data: seq<Byte>): Handled {
    match e
    case AssemblyEntry(table) =>
      var step := Assembly.Handle(table, service, path, data);
      Handled(step.result, AssemblyEntry(step.table))
    case ManagerEntry(state) =>
      var step := ConnMgr.Handle(state, service, data);
      Handled(step.result, ManagerEntry(step.state))
  }

  /** `service | 0x80` */
  function ReplyService(service: Byte): Byte {
    if service < 0x80 then service + 0x80 else service
  }

  function Reply(service: Byte, result: Result<seq<Byte>>): Response {
    match result
    case Ok(data) => Response(ReplyService(service), 0, SUCCESS, 0, [], data)
    case Err(CipError(status, ext)) => Response(ReplyService(service), 0, status, Low8(|ext|), ext, [])
    case Err(Other) => Response(ReplyService(service), 0, SERVICE_NOT_SUPPORTED, 0, [], [])
  }

  function DispatchOf(reg: Registry, req: Request): Dispatched {
    match Epath.PeelClass(req.path)
    case None => Dispatched(Fail(PATH_SEGMENT_ERROR), reg)
    case Some(head) =>
      if head.id !in reg then Dispatched(Ok(Reply(req.service, Fail(OBJECT_DOES_NOT_EXIST))), reg)
      else
        var h := HandleEntry(reg[head.id], req.service, head.rest, req.data);
        Dispatched(Ok(Reply(req.service, h.result)), reg[head.id := h.entry])
  }

  /** A request touches at most the object its class segment names, and the
      set of registered classes never changes.
   */
  lemma DispatchIsLocal(reg: Registry, req: Request)
    ensures var d := DispatchOf(reg, req);
      && d.registry.Keys == reg.Keys
      && (d.reply.Err? ==> d.registry == reg)
      && forall c | c in reg && d.registry[c] != reg[c] ::
           Epath.PeelClass(req.path).Some? && Epath.PeelClass(req.path).value.id == c
  {
  }

  /** Every reply an object in the repository can cause has a matching
      extended-status count, so it survives encoding.
   */
  lemma DispatchReplyIsExact(reg: Registry, req: Request)
    requires DispatchOf(reg, req).reply.Ok?
    ensures var r := DispatchOf(reg, req).reply.value;
            r.extSize == |r.ext| && r.service == ReplyService(req.service)
  {
  }

  datatype Object = AssemblyRef(ao: Assembly.AssemblyObject) | ManagerRef(cm: ConnMgr.ConnectionManager)
  {
    ghost function Root(): object {
      match this
      case AssemblyRef(ao) => ao
      case ManagerRef(cm) => cm
    }

    ghost function Footprint(): set<object>
      reads Root()
    {
      match this
      case AssemblyRef(ao) => ao.Repr
      case ManagerRef(cm) => {cm}
    }

    ghost predicate Valid()
      reads Root(), Footprint()
    {
      AssemblyRef? ==> ao.Valid()
    }

    ghost function View(): Entry
      requires Valid()
      reads Root(), Footprint()
    {
      match this
      case AssemblyRef(ao) => AssemblyEntry(ao.View())
      case ManagerRef(cm) => ManagerEntry(cm.View())
    }

    lemma RootInFootprint()
      requires Valid()
      ensures Root() in Footprint()
    {
    }

    /** The HandleRequest call through the object interface. */
    method HandleRequest(service: Byte, path: seq<Byte>, data: seq<Byte>) returns (r: Result<seq<Byte>>)
      requires Valid()
      modifies Footprint()
      ensures Valid() && Footprint() == old(Footprint())
      ensures Handled(r, View()) == HandleEntry(old(View()), service, path, data)
    {
      match this
      case AssemblyRef(ao) => r := ao.HandleRequest(service, path, data);
      case ManagerRef(cm) => r := cm.HandleRequest(service, path, data);
    }
  }

  class MessageRouter {
    var objects: map<U16, Object>
    ghost var Repr: set<object>

    /** Registered objects share no storage. */
    ghost predicate Valid()
      reads this, Repr
    {
      && this !in Repr
      && (forall c | c in objects ::
            objects[c].Root() in Repr && objects[c].Footprint() <= Repr && objects[c].Valid())
      && (forall c, d | c in objects && d in objects && c != d :: objects[c].Footprint() !! objects[d].Footprint())
    }

    ghost function View(): Registry
      requires Valid()
      reads this, Repr
    {
      map c | c in objects :: objects[c].View()
    }

    constructor ()
      ensures Valid() && View() == map[] && Repr == {}
    {
      objects, Repr := map[], {};
    }

    /** The object may take the class ID without sharing storage. */
    ghost predicate Registrable(classId: U16, obj: Object)
      requires Valid()
      reads this, Repr, obj.Root(), obj.Footprint()
    {
      && obj.Valid() && this !in obj.Footprint()
      && forall c | c in objects && c != classId :: objects[c].Footprint() !! obj.Footprint()
    }

    method RegisterObject(classId: U16, obj: Object)
      requires Valid() && Registrable(classId, obj)
      modifies this
      ensures Valid() && Repr == old(Repr) + obj.Footprint()
      ensures View() == old(View())[classId := obj.View()]
    {
      hide Object.View, Object.Valid, Object.Footprint;
      obj.RootInFootprint();
      objects, Repr := objects[classId := obj], Repr + obj.Footprint();
      assert forall c | c in objects && c != classId :: objects[c].View() == old(objects[c].View());
    }

    method Dispatch(req: Request) returns (r: Result<Response>)
      requires Valid()
      modifies Repr
      ensures Valid()
      ensures Dispatched(r, View()) == DispatchOf(old(View()), req)
    {
      var path := req.path;
      if |path| == 0 { return Fail(PATH_SEGMENT_ERROR); }
      var classId: U16;
      var remaining: seq<Byte>;
      if path[0] == 0x20 {
        if |path| < 2 { return Fail(PATH_SEGMENT_ERROR); }
        classId := path[1];
        remaining := path[2..];
      } else if path[0] == 0x21 {
        if |path| < 4 { return Fail(PATH_SEGMENT_ERROR); }
        classId := Get16(path, 2);
        remaining := path[4..];
      } else {
        return Fail(PATH_SEGMENT_ERROR);
      }
      if classId !in objects {
        return Ok(Response(ReplyService(req.service), 0, OBJECT_DOES_NOT_EXIST, 0, [], []));
      }
      var result := Invoke(classId, req.service, remaining, req.data);
      match result
      case Err(CipError(status, ext)) =>
        r := Ok(Response(ReplyService(req.service), 0, status, Low8(|ext|), ext, []));
      case Err(Other) =>
        r := Ok(Response(ReplyService(req.service), 0, SERVICE_NOT_SUPPORTED, 0, [], []));
      case Ok(bytes) =>
        r := Ok(Response(ReplyService(req.service), 0, SUCCESS, 0, [], bytes));
    }

    /** The call on the registered object, seen from the whole registry. */
    method Invoke(classId: U16, service: Byte, path: seq<Byte>, data: seq<Byte>) returns (r: Result<seq<Byte>>)
      requires Valid() && classId in objects
      modifies Repr
      ensures Valid()
      ensures var h := HandleEntry(old(View())[classId], service, path, data);
              r == h.result && View() == old(View())[classId := h.entry]
    {
      var obj := objects[classId];
      r := obj.HandleRequest(service, path, data);
      assert forall c | c in objects && c != classId ::
        objects[c].Footprint() == old(objects[c].Footprint()) && objects[c].View() == old(objects[c].View());
    }
  }
}
