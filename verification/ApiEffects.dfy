/** When each API call succeeds, told from the tables, and what it does to them. */
module ApiEffects {
  import opened Types
  import opened Tables
  import opened Decimal
  import opened ReqShimIface
  import opened MockState
  import opened Placement
  import opened ControllerState
  import opened Ledger
  import opened Rollback
  import opened Grants
  import opened MountMirror
  import opened Agreement
  import opened EndToEnd
  import opened Mounting
  import opened Unmounting
  import opened MountEffects
  import opened Capacity
  import opened Repeats
  import opened Releases
  import opened WireCommand
  import opened Resolver
  import HostKey

  // ---- free ----

  /** Nothing answers with the id any more. */
  ghost predicate Forgotten(a: Api, id: string) {
    && !Has(a.w.c.rows, RowId, id)
    && (forall base: string :: Lookup(a.w.c.rows, base) != Found(id))
    && (forall path: string :: Resolve(a, path).1 != Found(id))
  }

  lemma FoundHasRows(rows: Rows, base: string)
    ensures var r := Lookup(rows, base); r.Found? ==> Has(rows, RowId, r.id)
  {
    if base != [] && Has(rows, RowName, base) {
      SlotHas(rows, Find(rows, RowName, base), rows[Find(rows, RowName, base)].value.allocId);
    }
  }

  lemma GoneIsForgotten(a: Api, id: string)
    requires Gone(a.w.c, id)
    ensures Forgotten(a, id)
  {
    var rows := a.w.c.rows;
    HasSome(a.w.c.logdevs, LogdevId, id);
    forall base: string ensures Lookup(rows, base) != Found(id) {
      FoundHasRows(rows, base);
    }
    forall path: string ensures Resolve(a, path).1 != Found(id) {
      NotResolved(a, path, id);
    }
  }

  lemma NotResolved(a: Api, path: string, id: string)
    requires Gone(a.w.c, id)
    ensures Resolve(a, path).1 != Found(id)
  {
    var rows := a.w.c.rows;
    HasSome(a.w.c.logdevs, LogdevId, id);
    if Basename(path) != [] && Has(rows, RowName, Basename(path)) {
      var x := Find(rows, RowName, Basename(path));
      SlotHas(rows, x, rows[x].value.allocId);
    }
  }

  /** The path that resolves to an id frees it if and only if no device is mounted for it
      and no delete is refused. */
  lemma FreeResolved(a: Api, path: string, deletes: Faults, id: string)
    requires ApiShaped(a) && Books(a.w.c) && Spread(a.w.c.rows) && Twin(a.w.c.rows, a.w.m.nss) && NsFresh(a.w.m)
    requires Resolve(a, path).1 == Found(id) && Has(a.w.c.rows, RowId, id) && id != []
    ensures var (b, st) := ApiFree(a, path, deletes);
      && (st == OK <==> !Has(a.w.c.logdevs, LogdevId, id) && NoneStops(a.w.c.rows, id, deletes))
      && (st == OK ==> Freed(a.w, b.w, id) && Forgotten(b, id))
      && (Has(a.w.c.logdevs, LogdevId, id) ==> st == BUSY && b.w == a.w)
  {
    ReleaseIff(a.w, id, deletes);
    if Release(a.w, id, deletes).1 == OK {
      ReleasedIsGone(a.w, id, deletes);
      GoneIsForgotten(ApiFree(a, path, deletes).0, id);
    }
  }

  lemma ActiveIdNamed(c: Ctl, id: string)
    requires IdsBelow(c) && Has(c.rows, RowId, id)
    ensures id != []
  {
    assert IssuedBelow(ID_PREFIX, c.rows[Find(c.rows, RowId, id)].value.allocId, c.nextId);
  }

  /** Where nothing misleads the resolver, freeing a path succeeds exactly when its lookup
      finds an id with no mounted device and no delete is refused. Then the id's rows and
      namespaces are gone, its bytes are given back, nothing else has changed below the
      API, and no path leads to it. A mounted allocation is busy, an unknown path is not
      found, and both leave everything below the API as it was. */
  lemma ApiFreeIff(a: Api, path: string, deletes: Faults)
    requires ApiInv(a) && Agrees(a.w) && NoneMisled(a.w.c)
    ensures var (b, st) := ApiFree(a, path, deletes);
      var found := Lookup(a.w.c.rows, Basename(path));
      && (st == OK <==>
            && path != [] && found.Found? && !Has(a.w.c.logdevs, LogdevId, found.id)
            && NoneStops(a.w.c.rows, found.id, deletes))
      && (st == OK ==> Freed(a.w, b.w, found.id) && Forgotten(b, found.id))
      && (path == [] ==> st == INVALID && b.w == a.w)
      && (path != [] && found.Refusal? ==> st == NOT_FOUND && b.w == a.w)
      && (path != [] && found.Found? && Has(a.w.c.logdevs, LogdevId, found.id) ==> st == BUSY && b.w == a.w)
  {
    if path != [] {
      ResolveIsLookup(a, path);
      var found := Lookup(a.w.c.rows, Basename(path));
      if found.Found? {
        FoundHasRows(a.w.c.rows, Basename(path));
        ActiveIdNamed(a.w.c, found.id);
        FreeResolved(a, path, deletes, found.id);
      }
    }
  }

  // ---- mount ----

  /** What 64 characters keep of a path. */
  function Kept(path: string): string { if |path| <= 63 then path else path[..63] }

  /** Why a mount is refused: the tables do not allow it, its minor is in use, or it cannot
      be built. */
  predicate MountSays(w: World, req: MountReq, d: Devices, st: Status) {
    && (!MountAllowed(w.c, req, d) ==> st == Denied(w.c, req, d))
    && (MountAllowed(w.c, req, d) && !Mountable(w, req, d) ==> st == if CanBuild(w, req, d) then BUSY else INVALID)
  }

  /** Where nothing misleads the resolver and nothing is injected, mounting a path
      succeeds exactly when its lookup finds an id that the tables allow to be mounted
      there for the host and that can be built. Then the device is there under the path,
      and the path leads to the id. */
  lemma ApiMountIff(a: Api, path: string, host: string, d: Devices, f: KernelFaults)
    requires ApiInv(a) && StackInv(a.w) && NoneMisled(a.w.c) && NoFault(f)
    ensures var (b, st) := ApiMount(a, path, host, d, f);
      var found := Lookup(a.w.c.rows, Basename(path));
      && (st == OK <==>
            && path != [] && found.Found?
            && MountAllowed(a.w.c, MountReq(found.id, host, Kept(path)), d)
            && Mountable(a.w, MountReq(found.id, host, Kept(path)), d))
      && (st == OK ==>
            && (exists minor: nat :: DeviceAdded(a.w, b.w, MountReq(found.id, host, Kept(path)), d, minor))
            && Resolve(b, Kept(path)).1 == found)
      && (st != OK ==> b.w == a.w)
      && (path == [] || host == [] ==> st == INVALID)
      && (path != [] && host != [] && found.Refusal? ==> st == NOT_FOUND)
      && (path != [] && host != [] && found.Found? ==>
            MountSays(a.w, MountReq(found.id, host, Kept(path)), d, st))
  {
    if path != [] && host != [] {
      ResolveIsLookup(a, path);
      var found := Lookup(a.w.c.rows, Basename(path));
      if found.Found? {
        MountResolved(a, path, host, d, f, found.id);
      }
    }
  }

  lemma MountResolved(a: Api, path: string, host: string, d: Devices, f: KernelFaults, id: string)
    requires ApiShaped(a) && StackInv(a.w) && NoFault(f) && path != [] && host != [] && Resolve(a, path).1 == Found(id)
    ensures var (b, st) := ApiMount(a, path, host, d, f);
      var req := MountReq(id, host, Kept(path));
      && (st == OK <==> MountAllowed(a.w.c, req, d) && Mountable(a.w, req, d))
      && (st == OK ==>
            && (exists minor: nat :: DeviceAdded(a.w, b.w, req, d, minor)) && Resolve(b, Kept(path)).1 == Found(id))
      && (st != OK ==> b.w == a.w) && MountSays(a.w, req, d, st)
  {
    var req := MountReq(id, host, Kept(path));
    MountIff(a.w, req, d, f);
    MountCallIs(a, path, host, d, f, id);
    if MountOp(a.w, req, d, f).1 == OK {
      var minor := MountGives(a.w, req, d, f);
      DeviceAnswers(a.w, req, d, f, ApiMount(a, path, host, d, f).0);
    }
  }

  lemma MountCallIs(a: Api, path: string, host: string, d: Devices, f: KernelFaults, id: string)
    requires ApiShaped(a) && path != [] && host != [] && Resolve(a, path).1 == Found(id)
    ensures var (b, st) := ApiMount(a, path, host, d, f);
      (b.w, st) == MountOp(a.w, MountReq(id, host, Kept(path)), d, f)
  {}

  lemma DeviceAnswers(w: World, req: MountReq, d: Devices, f: KernelFaults, b: Api)
    requires WorldShaped(w) && MountOp(w, req, d, f).1 == OK && b.w == MountOp(w, req, d, f).0
    ensures Resolve(b, req.dev).1 == Found(req.allocId)
  {
    MountAdmitted(w, req, d, f);
    DroppedBack(w.c.logdevs, req, PiecesOfId(w.c.rows, req.allocId), d);
  }

  // ---- the path of a request ----

  /** A slot of the request cache that is free or already the request's. */
  ghost predicate SlotFor(slots: seq<Option<Entry>>, id: string) {
    exists x :: 0 <= x < |slots| && (slots[x].None? || slots[x].value.requestId == id)
  }

  lemma RegistersIff(a: Api, id: string, name: string)
    ensures Register(a, id, name).1.Some? <==> SlotFor(a.slots, id)
  {
    var i, j := Find(a.slots, EntryId, id), FirstFree(a.slots);
    if SlotFor(a.slots, id) {
      var x :| 0 <= x < |a.slots| && (a.slots[x].None? || a.slots[x].value.requestId == id);
      assert a.slots[x].Some? ==> Carries(a.slots[x], EntryId, id);
    }
  }

  /** A row's own path: its disk name, or the number of its id, below /dev/ssu. */
  function RowPath(row: Row): string
    requires |row.allocId| >= 6
  {
    "/dev/ssu/" + if row.diskName != [] then row.diskName else "ssu" + row.allocId[6..]
  }

  /** A result query succeeds exactly when the request has rows and the cache a slot for
      it; it reports the path of its rows and changes nothing below the API. */
  lemma ApiResultIff(a: Api, id: string)
    requires ApiInv(a)
    ensures var (b, st, path) := ApiResult(a, id);
      && (st == OK <==> id != [] && Has(a.w.c.rows, RowId, id) && SlotFor(a.slots, id))
      && (st == OK ==>
            forall x :: 0 <= x < |a.w.c.rows| && Carries(a.w.c.rows[x], RowId, id) ==>
              |id| >= 6 && path == RowPath(a.w.c.rows[x].value))
      && (id == [] ==> st == INVALID)
      && (id != [] && !Has(a.w.c.rows, RowId, id) ==> st == NOT_FOUND)
      && (id != [] && Has(a.w.c.rows, RowId, id) && !SlotFor(a.slots, id) ==> st == INTERNAL)
      && b.w == a.w
  {
    RegistersIff(a, id, []);
    if id != [] && Has(a.w.c.rows, RowId, id) {
      RegisterKeepsCache(a, id, []);
      forall x | 0 <= x < |a.w.c.rows| && Carries(a.w.c.rows[x], RowId, id)
        ensures |id| >= 6 && PathOf(a.w.c.rows, id) == RowPath(a.w.c.rows[x].value)
      {
        PathIsCandidate(a.w.c, id);
        NameOfRow(a.w.c.rows, id, x);
      }
    }
  }

  // ---- allocate ----

  /** The call's own checks: a size, a user, hosts that are not empty, exactly one of
      them unless the disk is shared, and no negative aggregate. */
  predicate CallInOrder(req: ApiReq) {
    && req.size > 0 && req.user.Some? && req.user.value != []
    && req.hosts != [] && (forall i :: 0 <= i < |req.hosts| ==> req.hosts[i] != [])
    && ((req.share == 0 && |req.hosts| == 1) || req.share == 1)
    && req.aggregate >= 0
  }

  lemma CheckIff(req: ApiReq)
    ensures AllocateCheck(req) == if CallInOrder(req) then OK
      else if CallInOrder(req.(aggregate := 0)) then UNSUPPORTED else INVALID
  {
    assert [] in req.hosts <==> exists i :: 0 <= i < |req.hosts| && req.hosts[i] == [];
  }

  function NameAsked(req: ApiReq): string { if req.disk.Some? then req.disk.value else "" }

  /** What the controller is asked for: as many disks as the caller says, or one. */
  function Asked(req: ApiReq): AllocReq
    requires req.user.Some?
  {
    AllocReq(req.size, NameAsked(req), if req.disks == 0 then 1 else req.disks, STRIPE,
             if req.share == 0 then EXCLUSIVE else SHARED, req.user.value, req.hosts)
  }

  /** The refreshed pool and the row table have room for it. */
  ghost predicate RoomFor(rows: Rows, pool: seq<Resource>, r: AllocReq, create: Faults) {
    var n := Cut(r, OnlineCount(pool));
    && WellFormed(r) && EnoughOnline(pool, r) && FreeRows(rows) >= n && SomeHolds(pool, r.size, n)
    && NoneRefused(create, 0, n)
  }

  predicate FreeSlot(slots: seq<Option<Entry>>) { exists x :: 0 <= x < |slots| && slots[x].None? }

  lemma FreeAtMost(rows: Rows)
    ensures FreeRows(rows) <= |rows|
  {
    FreeCounts(rows);
    UsedCount(rows);
  }

  /** The next id has no cache slot yet. */
  lemma NewIdUncached(a: Api)
    requires CacheOk(a) && a.w.c.nextId < TWO64
    ensures SlotFor(a.slots, Numbered(ID_PREFIX, a.w.c.nextId)) <==> FreeSlot(a.slots)
  {
    NumberedIssued(ID_PREFIX, a.w.c.nextId, a.w.c.nextId);
    forall x | 0 <= x < |a.slots| && a.slots[x].Some?
      ensures a.slots[x].value.requestId != Numbered(ID_PREFIX, a.w.c.nextId)
    {
      assert EntryOk(a.w.c, a.slots[x].value);
    }
  }

  /** What a refresh leaves for the allocation after it. */
  lemma RefreshedTables(a: Api, e: Environment)
    requires ApiInv(a) && EnvFits(e) && a.w.c.nextId < TWO32
    ensures var w1 := Step(a.w, OpRefresh(e.discovery, e.health));
      TablesOk(w1.c) && w1 == a.w.(c := a.w.c.(pool := w1.c.pool))
  {
    StepKeepsTables(a.w, OpRefresh(e.discovery, e.health));
  }

  /** Whether the one allocation behind the call is granted. */
  lemma AllocFits(w: World, r: AllocReq, create: Faults, delete: Faults)
    requires WorldShaped(w) && IdsBelow(w.c) && w.c.nextId < TWO64 && Twin(w.c.rows, w.m.nss)
    requires r.diskName == [] || !Has(w.c.rows, RowName, r.diskName)
    requires forall i :: i in create ==> create[i] != BUFFER_TOO_SMALL
    ensures Alloc(w, r, Some(MAX_ALLOCATIONS), create, delete).1.status == OK <==>
      RoomFor(w.c.rows, w.c.pool, r, create)
  {
    AllocGrantedIff(w, r, Some(MAX_ALLOCATIONS), create, delete);
    FreeAtMost(w.c.rows);
  }

  /** An allocate call under a name not in use is granted exactly when it is in order, the
      refresh succeeds, and pool, rows and cache have room for what it asks; the answer is
      the next id. Its rows carry the user as tenant, the name, the sharing and the hosts,
      and are a stripe of the size that was asked for. */
  lemma ApiAllocateIff(a: Api, req: ApiReq, e: Environment)
    requires ApiInv(a) && Agrees(a.w) && EnvFits(e) && a.w.c.nextId < TWO32
    requires NameAsked(req) == [] || !Has(a.w.c.rows, RowName, NameAsked(req))
    requires forall i :: i in e.create ==> e.create[i] != BUFFER_TOO_SMALL
    ensures var (b, r), (c1, st) := ApiAllocate(a, req, e), Refresh(a.w.c, e.discovery, e.health);
      && (r.Found? <==>
            && CallInOrder(req) && st == OK && RoomFor(a.w.c.rows, c1.pool, Asked(req), e.create)
            && FreeSlot(a.slots))
      && (!CallInOrder(req) ==> r == Refusal(if CallInOrder(req.(aggregate := 0)) then UNSUPPORTED else INVALID))
      && (CallInOrder(req) && st != OK ==> r == Refusal(st))
      && (CallInOrder(req) && st == OK && RoomFor(a.w.c.rows, c1.pool, Asked(req), e.create) && !FreeSlot(a.slots) ==>
            r == Refusal(INTERNAL))
      && (r.Found? ==>
            && r.id == Numbered(ID_PREFIX, a.w.c.nextId)
            && (forall x :: 0 <= x < |b.w.c.rows| && Carries(b.w.c.rows[x], RowId, r.id) ==>
                  OnTerms(b.w.c.rows[x].value, Asked(req)))
            && StripePieces(PiecesOfId(b.w.c.rows, r.id), req.size))
  {
    CheckIff(req);
    if CallInOrder(req) && Refresh(a.w.c, e.discovery, e.health).1 == OK {
      AllocateInOrder(a, req, e);
    }
  }

  lemma AllocateInOrder(a: Api, req: ApiReq, e: Environment)
    requires ApiInv(a) && Agrees(a.w) && EnvFits(e) && a.w.c.nextId < TWO32
    requires CallInOrder(req) && Refresh(a.w.c, e.discovery, e.health).1 == OK
    requires NameAsked(req) == [] || !Has(a.w.c.rows, RowName, NameAsked(req))
    requires forall i :: i in e.create ==> e.create[i] != BUFFER_TOO_SMALL
    ensures var (b, r), c1 := ApiAllocate(a, req, e), Refresh(a.w.c, e.discovery, e.health).0;
      && (r.Found? <==> RoomFor(a.w.c.rows, c1.pool, Asked(req), e.create) && FreeSlot(a.slots))
      && (RoomFor(a.w.c.rows, c1.pool, Asked(req), e.create) && !FreeSlot(a.slots) ==> r == Refusal(INTERNAL))
      && (r.Found? ==>
            && r.id == Numbered(ID_PREFIX, a.w.c.nextId)
            && (forall x :: 0 <= x < |b.w.c.rows| && Carries(b.w.c.rows[x], RowId, r.id) ==>
                  OnTerms(b.w.c.rows[x].value, Asked(req)))
            && StripePieces(PiecesOfId(b.w.c.rows, r.id), req.size))
  {
    var ask, cap := Asked(req), Some(MAX_ALLOCATIONS);
    var w1 := Step(a.w, OpRefresh(e.discovery, e.health));
    RefreshedTables(a, e);
    AllocateCallIs(a, req, e);
    AllocFits(w1, ask, e.create, e.delete);
    var (w2, out) := Alloc(w1, ask, cap, e.create, e.delete);
    if out.status == OK {
      GrantedId(w1, ask, cap, e.create, e.delete);
      GrantStoresTerms(w1, ask, cap, e.create, e.delete);
      NewIdUncached(a);
      RegistersIff(a.(w := w2), out.id, NameAsked(req));
    }
  }

  // ---- a name in use ----

  /** The rows under the name hold what is asked for: the same bytes on as many disks,
      shared alike, for the same tenant and hosts. */
  predicate StoredAlike(rows: Rows, r: AllocReq) {
    var named := Pick(rows, RowName, RowBare, r.diskName);
    && SumLen(named) % TWO64 == r.size && r.diskCount == |named|
    && forall x :: 0 <= x < |rows| && Carries(rows[x], RowName, r.diskName) ==>
      && rows[x].value.share == r.share && rows[x].value.tenant == r.tenant
      && Some(rows[x].value.hostKey) == HostKey.Key(r.hosts)
  }

  lemma StoredIsSame(rows: Rows, r: AllocReq, key: string)
    requires Uniform(rows) && Has(rows, RowName, r.diskName) && r.diskName != [] && r.diskCount > 0
    requires HostKey.Key(r.hosts) == Some(key)
    ensures var named := Pick(rows, RowName, RowBare, r.diskName);
      named != [] && (SameGrant(named, r, key) <==> StoredAlike(rows, r))
      && named[0].allocId == rows[Find(rows, RowName, r.diskName)].value.allocId
  {
    var named, i := Pick(rows, RowName, RowBare, r.diskName), Find(rows, RowName, r.diskName);
    PickNone(rows, RowName, RowBare, r.diskName);
    var x := PickFrom(rows, RowName, RowBare, r.diskName, named[0]);
    assert Carries(rows[i], RowName, r.diskName);
  }

  /** An allocate call under a name in use, in order by itself, gets the name's owner
      exactly when its rows hold what is asked for and the cache has a slot for it; for
      anything else the name is taken. Only the pool is refreshed. */
  lemma ApiAllocateNamed(a: Api, req: ApiReq, e: Environment)
    requires ApiInv(a) && EnvFits(e) && a.w.c.nextId < TWO32
    requires NameAsked(req) != [] && Has(a.w.c.rows, RowName, NameAsked(req))
    requires CallInOrder(req) && WellFormed(Asked(req)) && Refresh(a.w.c, e.discovery, e.health).1 == OK
    ensures var (b, r) := ApiAllocate(a, req, e);
      var owner := a.w.c.rows[Find(a.w.c.rows, RowName, NameAsked(req))].value.allocId;
      && (r == Found(owner) <==> StoredAlike(a.w.c.rows, Asked(req)) && SlotFor(a.slots, owner))
      && (r == Refusal(NS_EXISTS) <==> !StoredAlike(a.w.c.rows, Asked(req)))
      && (r.Found? ==> r == Found(owner))
      && b.w == Step(a.w, OpRefresh(e.discovery, e.health))
  {
    var ask, cap := Asked(req), Some(MAX_ALLOCATIONS);
    var w1 := Step(a.w, OpRefresh(e.discovery, e.health));
    RefreshedTables(a, e);
    StoredIsSame(w1.c.rows, ask, HostKey.Key(ask.hosts).value);
    PickShort(w1.c.rows, RowName, RowBare, ask.diskName);
    AllocateCallIs(a, req, e);
    var out := Alloc(w1, ask, cap, e.create, e.delete).1;
    if out.status == OK { RegistersIff(a.(w := w1), out.id, NameAsked(req)); }
  }

  /** Past its checks and the refresh the call is one allocation and a registration. */
  lemma AllocateCallIs(a: Api, req: ApiReq, e: Environment)
    requires ApiShaped(a) && IdsBelow(a.w.c) && a.w.c.nextId < TWO64
    requires CallInOrder(req) && Refresh(a.w.c, e.discovery, e.health).1 == OK
    ensures var w1 := Step(a.w, OpRefresh(e.discovery, e.health));
      var (w2, out) := Alloc(w1, Asked(req), Some(MAX_ALLOCATIONS), e.create, e.delete);
      var named := NameAsked(req) != [] && Has(a.w.c.rows, RowName, NameAsked(req));
      ApiAllocate(a, req, e) ==
        if out.status != OK then (a.(w := w2), Refusal(out.status))
        else RegisterGrant(a.(w := w2), out.id, NameAsked(req), named, e.delete)
  {
    CheckIff(req);
    TwoPhaseIsOneCall(a.w, Asked(req), e);
  }
}
