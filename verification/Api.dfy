/** The API in its own form: a cache of request paths filled and cleared in place
    above the controller. Every call is proved to be the step Resolver gives it. */
module ApiModule {
  import opened Types
  import opened Tables
  import opened Decimal
  import opened ReqShimIface
  import opened MockState
  import opened ControllerState
  import opened ControllerModule
  import opened WireCommand
  import opened Resolver

  /** A table searched from its first slot up. */
  method FindSlot<T>(t: array<Option<T>>, key: T -> string, k: string) returns (i: nat)
    ensures i == Find(t[..], key, k)
  {
    i := 0;
    while i < t.Length && !(t[i].Some? && key(t[i].value) == k)
      invariant i <= t.Length && forall j :: 0 <= j < i ==> !Carries(t[j], key, k)
    {
      i := i + 1;
    }
    assert i < t.Length ==> Carries(t[..][i], key, k);
    assert forall j :: 0 <= j < i ==> !Carries(t[..][j], key, k);
  }

  class Service {
    const requests: array<Option<Entry>>
    var nextDevice: nat
    const controller: Manager

    ghost predicate Valid()
      reads this, controller
    {
      requests.Length == MAX_REQUESTS && controller.Valid()
    }

    ghost function State(): Api
      reads this, requests, controller, controller.rows, controller.logdevs, controller.plugin, controller.plugin.nss,
        controller.plugin.mounts
      reads controller.plugin.shim.devs, controller.plugin.shim.maps
    {
      Api(controller.Everything(), requests[..], nextDevice)
    }

    constructor ()
      ensures Valid() && State() == BootApi
    {
      requests := new Option<Entry>[MAX_REQUESTS](_ => None);
      nextDevice := 0;
      controller := new Manager();
      new;
      assert requests[..] == EmptyTable(MAX_REQUESTS);
    }

    /** The first row of the request that has a disk name. */
    method AllocationDiskName(id: string) returns (name: string)
      requires Valid()
      ensures name == FirstNamed(controller.rows[..], id)
    {
      var rows := controller.rows;
      var i := 0;
      while i < rows.Length
        invariant 0 <= i <= rows.Length
        invariant FirstNamed(rows[..], id) == FirstNamed(rows[i..], id)
      {
        assert rows[i..][0] == rows[i] && rows[i..][1..] == rows[i + 1..];
        if rows[i].Some? && rows[i].value.allocId == id && rows[i].value.diskName != [] {
          return rows[i].value.diskName;
        }
        i := i + 1;
      }
      return [];
    }

    method DefaultDevicePath(id: string, name: string) returns (path: string)
      modifies this`nextDevice
      ensures (path, nextDevice) == DefaultPath(id, name, old(nextDevice))
    {
      if name != [] {
        return Clip(DEV_ROOT + name, PATH_SIZE);
      }
      var index := ParsePrefixedU32(id, ID_PREFIX);
      if index.Some? {
        if index.value >= nextDevice {
          nextDevice := (index.value + 1) % TWO32;
        }
        return Clip(DEV_ROOT + DEV_PREFIX + Dec(index.value), PATH_SIZE);
      }
      path := Clip(DEV_ROOT + DEV_PREFIX + Dec(nextDevice), PATH_SIZE);
      nextDevice := (nextDevice + 1) % TWO32;
    }

    method RegisterRequestPath(id: string, diskName: string) returns (path: Option<string>)
      requires Valid()
      modifies this`nextDevice, requests
      ensures Valid() && (State(), path) == Register(old(State()), id, diskName)
    {
      var slot := FindSlot(requests, EntryId, id);
      var name := diskName;
      if name == [] {
        name := AllocationDiskName(id);
      }
      if slot == requests.Length {
        slot := FreeSlot();
        if slot == requests.Length {
          return None;
        }
      }
      var p := DefaultDevicePath(id, name);
      requests[slot] := Some(Entry(id, p));
      assert requests[..] == old(requests[..])[slot := Some(Entry(id, p))];
      return Some(p);
    }

    method FreeSlot() returns (i: nat)
      ensures i == FirstFree(requests[..])
    {
      i := 0;
      while i < requests.Length && requests[i].Some?
        invariant i <= requests.Length && forall j :: 0 <= j < i ==> requests[j].Some?
      {
        i := i + 1;
      }
      assert forall j :: 0 <= j < i ==> requests[..][j].Some?;
      assert i < requests.Length ==> requests[..][i].None?;
    }

    method ForgetRequestPath(id: string)
      requires Valid()
      modifies requests
      ensures Valid() && State() == Forget(old(State()), id)
    {
      var slot := FindSlot(requests, EntryId, id);
      if slot < requests.Length {
        requests[slot] := None;
        assert requests[..] == old(requests[..])[slot := None];
      }
    }

    method AllocationExists(id: string) returns (found: bool)
      requires Valid()
      ensures found <==> Has(controller.rows[..], RowId, id)
    {
      var i := FindSlot(controller.rows, RowId, id);
      return i < controller.rows.Length;
    }

    method RequestIdFromDevicePath(path: string) returns (found: Answer)
      requires Valid()
      modifies this`nextDevice, requests
      ensures Valid() && (State(), found) == Resolve(old(State()), path)
    {
      if path == [] {
        return Refusal(INVALID);
      }
      var dev := FindSlot(controller.logdevs, LogdevDev, path);
      if dev < controller.logdevs.Length {
        return Found(controller.logdevs[dev].value.allocId);
      }
      var slot := FindSlot(requests, EntryPath, path);
      if slot < requests.Length {
        var live := AllocationExists(requests[slot].value.requestId);
        if live {
          return Found(requests[slot].value.requestId);
        }
      }
      found := RequestIdFromName(path);
    }

    /** The index of ssuN first, then the disk name. */
    method RequestIdFromName(path: string) returns (found: Answer)
      requires Valid() && path != [] && Find(controller.logdevs[..], LogdevDev, path) == controller.logdevs.Length
      requires var s := Find(requests[..], EntryPath, path);
        s < requests.Length ==> !Has(controller.rows[..], RowId, requests[s].value.requestId)
      modifies this`nextDevice, requests
      ensures Valid() && (State(), found) == Resolve(old(State()), path)
    {
      var base := Basename(path);
      var index := ParsePrefixedU32(base, DEV_PREFIX);
      if index.Some? {
        var id := ID_PREFIX + Dec(index.value);
        var live := AllocationExists(id);
        if live {
          var _ := RegisterRequestPath(id, []);
          return Found(id);
        }
      }
      if base != [] {
        var row := FindSlot(controller.rows, RowName, base);
        if row < controller.rows.Length {
          var id := controller.rows[row].value.allocId;
          var _ := RegisterRequestPath(id, base);
          return Found(id);
        }
      }
      return Refusal(NOT_FOUND);
    }

    /** ssu_resource_alloc without a buffer: once for the count, once for real. */
    method AllocateResource(req: AllocReq, e: Environment) returns (out: AllocOut)
      requires Valid()
      modifies controller, controller.rows, controller.plugin, controller.plugin.nss
      ensures Valid() && (controller.Everything(), out) == ResourceAlloc(old(controller.Everything()), req, e)
    {
      if req.reliability != STRIPE {
        return Refuse(UNSUPPORTED);
      }
      var st := controller.RefreshPool(e.discovery, e.health);
      if st != OK {
        return Refuse(st);
      }
      out := controller.Allocate(req, None, e.create, e.delete);
      if out.status != BUFFER_TOO_SMALL {
        return;
      }
      out := controller.Allocate(req, Some(out.count), e.create, e.delete);
    }

    /** ssu_resource_alloc with the caller's buffer of cap extents, or with a count only. */
    method AllocateInto(req: AllocReq, cap: Option<nat>, e: Environment) returns (out: AllocOut)
      requires Valid()
      modifies controller, controller.rows, controller.plugin, controller.plugin.nss
      ensures Valid() && (controller.Everything(), out) == AllocInto(old(controller.Everything()), req, cap, e)
    {
      if req.reliability != STRIPE {
        return Refuse(UNSUPPORTED);
      }
      var st := controller.RefreshPool(e.discovery, e.health);
      if st != OK {
        return Refuse(st);
      }
      out := controller.Allocate(req, cap, e.create, e.delete);
    }

    method CheckAllocate(req: ApiReq) returns (st: Status)
      ensures st == AllocateCheck(req)
    {
      if req.size == 0 || OrEmpty(req.user) == [] || |req.hosts| == 0 {
        return INVALID;
      }
      if req.share != 0 && req.share != 1 {
        return INVALID;
      }
      if req.share == 0 && |req.hosts| != 1 {
        return INVALID;
      }
      for i := 0 to |req.hosts|
        invariant [] !in req.hosts[..i]
      {
        if req.hosts[i] == [] {
          return INVALID;
        }
        TakeNext(req.hosts, i);
      }
      TakeAll(req.hosts);
      return if req.aggregate < 0 then UNSUPPORTED else OK;
    }

    method Allocate(req: ApiReq, e: Environment) returns (r: Answer)
      requires Valid()
      modifies this`nextDevice, requests, controller, controller.rows, controller.plugin, controller.plugin.nss
      ensures Valid() && (State(), r) == ApiAllocate(old(State()), req, e)
    {
      var st := CheckAllocate(req);
      if st != OK {
        return Refusal(st);
      }
      var name := OrEmpty(req.disk);
      var named := false;
      if name != [] {
        var row := FindSlot(controller.rows, RowName, name);
        named := row < controller.rows.Length;
      }
      var out := AllocateResource(ResourceReq(req), e);
      if out.status != OK {
        return Refusal(out.status);
      }
      r := RegisterAllocation(out.id, name, named, e.delete);
    }

    /** Registers a granted request, or gives it back when the cache is full. */
    method RegisterAllocation(id: string, name: string, named: bool, delete: Faults) returns (r: Answer)
      requires Valid()
      modifies this`nextDevice, requests, controller`pool, controller`released, controller.rows, controller.plugin.nss
      ensures Valid() && (State(), r) == RegisterGrant(old(State()), id, name, named, delete)
    {
      var path := RegisterRequestPath(id, name);
      if path.Some? {
        return Found(id);
      }
      if !named {
        var _ := controller.ReleaseAllocation(id, delete);
      }
      return Refusal(INTERNAL);
    }

    method Free(path: string, deletes: Faults) returns (st: Status)
      requires Valid()
      modifies this`nextDevice, requests, controller`pool, controller`released, controller.rows, controller.plugin.nss
      ensures Valid() && (State(), st) == ApiFree(old(State()), path, deletes)
    {
      var found := RequestIdFromDevicePath(path);
      if found.Refusal? {
        return found.status;
      }
      st := controller.ReleaseAllocation(found.id, deletes);
      if st == OK {
        ForgetRequestPath(found.id);
      }
    }

    method Mount(path: string, host: string, d: Devices, f: KernelFaults) returns (st: Status)
      requires Valid()
      modifies this`nextDevice, requests, controller.rows, controller.logdevs
      modifies controller.plugin.mounts, controller.plugin.shim.devs, controller.plugin.shim.maps
      ensures Valid() && (State(), st) == ApiMount(old(State()), path, host, d, f)
    {
      if path == [] || host == [] {
        return INVALID;
      }
      var found := RequestIdFromDevicePath(path);
      if found.Refusal? {
        return found.status;
      }
      st := controller.MountAllocation(MountReq(found.id, host, Clip(path, PATH_SIZE)), d, f);
      if st == OK {
        var _ := RegisterRequestPath(found.id, []);
      }
    }

    method AllocateResult(id: string) returns (st: Status, path: string)
      requires Valid()
      modifies this`nextDevice, requests
      ensures Valid() && (State(), st, path) == ApiResult(old(State()), id)
    {
      if id == [] {
        return INVALID, [];
      }
      var live := AllocationExists(id);
      if !live {
        return NOT_FOUND, [];
      }
      var p := RegisterRequestPath(id, []);
      if p.None? {
        return INTERNAL, [];
      }
      return OK, p.value;
    }

    method Finish()
      requires Valid()
      modifies this`nextDevice, requests
      ensures Valid() && State() == Fini(old(State()))
    {
      for i := 0 to requests.Length
        invariant forall j :: 0 <= j < i ==> requests[j].None?
      {
        requests[i] := None;
      }
      nextDevice := 0;
      assert requests[..] == EmptyTable(MAX_REQUESTS);
    }
  }
}
