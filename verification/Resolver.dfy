/** The API's request cache and its device resolver, against a lookup that needs
    no cache: the answer depends on the last path component only. */
module Resolver {
  import opened Types
  import opened Tables
  import opened Decimal
  import opened ReqShimIface
  import opened MockState
  import opened Placement
  import opened ControllerState
  import opened Ledger
  import opened Rollback
  import opened Grants
  import opened Idempotence
  import opened MountMirror
  import opened Agreement
  import opened WireCommand
  import HostKey

  const MAX_REQUESTS: nat := 128
  const PATH_SIZE: nat := 64
  const TWO32: nat := 0x1_0000_0000

  datatype Entry = Entry(requestId: string, path: string)

  /** The world below, the cache slots, and the next unnamed device index. */
  datatype Api = Api(w: World, slots: seq<Option<Entry>>, next: nat)

  predicate ApiShaped(a: Api) { WorldShaped(a.w) && |a.slots| == MAX_REQUESTS }

  function EntryId(e: Entry): string { e.requestId }
  function EntryPath(e: Entry): string { e.path }

  // ---- lookups ----

  /** The disk name of the first row of id that has one. */
  function FirstNamed(rows: Rows, id: string): string {
    if rows == [] then []
    else if Carries(rows[0], RowId, id) && rows[0].value.diskName != [] then rows[0].value.diskName
    else FirstNamed(rows[1..], id)
  }

  /** The path a request is cached under, and the index counter afterwards. */
  function DefaultPath(id: string, name: string, next: nat): (string, nat) {
    if name != [] then (Clip(DEV_ROOT + name, PATH_SIZE), next)
    else
      var k := PrefixedU32(id, ID_PREFIX);
      if k.Some? then
        (Clip(DEV_ROOT + DEV_PREFIX + Dec(k.value), PATH_SIZE), if k.value >= next then (k.value + 1) % TWO32 else next)
      else (Clip(DEV_ROOT + DEV_PREFIX + Dec(next), PATH_SIZE), (next + 1) % TWO32)
  }

  /** Caches a request's path; None when all slots are taken. */
  function Register(a: Api, id: string, name: string): (r: (Api, Option<string>))
    ensures ApiShaped(a) ==> ApiShaped(r.0)
    ensures r.0.w == a.w
  {
    var i := Find(a.slots, EntryId, id);
    var (path, next) := DefaultPath(id, if name == [] then FirstNamed(a.w.c.rows, id) else name, a.next);
    var slot := if i < |a.slots| then i else FirstFree(a.slots);
    if slot < |a.slots| then (a.(slots := a.slots[slot := Some(Entry(id, path))], next := next), Some(path))
    else (a, None)
  }

  function Forget(a: Api, id: string): (r: Api)
    ensures ApiShaped(a) ==> ApiShaped(r)
    ensures r.w == a.w
  {
    var i := Find(a.slots, EntryId, id);
    if i < |a.slots| then a.(slots := a.slots[i := None]) else a
  }

  datatype Answer = Refusal(status: Status) | Found(id: string)

  /** request_id_from_device_path: mounted devices, then the cache, then the index,
      then the disk name. */
  function Resolve(a: Api, path: string): (r: (Api, Answer))
    ensures ApiShaped(a) ==> ApiShaped(r.0)
    ensures r.0.w == a.w
  {
    var rows, logdevs := a.w.c.rows, a.w.c.logdevs;
    var l, s := Find(logdevs, LogdevDev, path), Find(a.slots, EntryPath, path);
    var n, base := PrefixedU32(Basename(path), DEV_PREFIX), Basename(path);
    if path == [] then (a, Refusal(INVALID))
    else if l < |logdevs| then (a, Found(logdevs[l].value.allocId))
    else if s < |a.slots| && Has(rows, RowId, a.slots[s].value.requestId) then (a, Found(a.slots[s].value.requestId))
    else if n.Some? && Has(rows, RowId, ID_PREFIX + Dec(n.value)) then
      (Register(a, ID_PREFIX + Dec(n.value), []).0, Found(ID_PREFIX + Dec(n.value)))
    else if base != [] && Has(rows, RowName, base) then
      var id := rows[Find(rows, RowName, base)].value.allocId;
      (Register(a, id, base).0, Found(id))
    else (a, Refusal(NOT_FOUND))
  }

  /** What the resolver should say: the active alloc-N for ssuN, otherwise the
      owner of the disk name. */
  function Lookup(rows: Rows, base: string): Answer {
    var n := PrefixedU32(base, DEV_PREFIX);
    if n.Some? && Has(rows, RowId, ID_PREFIX + Dec(n.value)) then Found(ID_PREFIX + Dec(n.value))
    else if base != [] && Has(rows, RowName, base) then Found(rows[Find(rows, RowName, base)].value.allocId)
    else Refusal(NOT_FOUND)
  }

  // ---- the API's operations ----

  datatype Environment = Environment(discovery: Discovery, health: map<string, string>, create: Faults, delete: Faults)

  /** ssu_resource_alloc without a buffer: refresh, ask for the count, allocate. */
  function ResourceAlloc(w: World, req: AllocReq, e: Environment): (r: (World, AllocOut))
    requires WorldShaped(w)
    ensures WorldShaped(r.0)
  {
    RefreshShaped(w.c, e.discovery, e.health);
    var (c1, st) := Refresh(w.c, e.discovery, e.health);
    var w1 := w.(c := c1);
    if req.reliability != STRIPE then (w, Refuse(UNSUPPORTED))
    else if st != OK then (w1, Refuse(st))
    else
      var (w2, probe) := Alloc(w1, req, None, e.create, e.delete);
      if probe.status != BUFFER_TOO_SMALL then (w2, probe)
      else Alloc(w2, req, Some(probe.count), e.create, e.delete)
  }

  /** ssu_resource_alloc with the caller's buffer: refresh, then allocate into it. cap
      is None when only a count is asked for. */
  function AllocInto(w: World, req: AllocReq, cap: Option<nat>, e: Environment): (r: (World, AllocOut))
    requires WorldShaped(w)
    ensures WorldShaped(r.0)
  {
    RefreshShaped(w.c, e.discovery, e.health);
    var (c1, st) := Refresh(w.c, e.discovery, e.health);
    var w1 := w.(c := c1);
    if req.reliability != STRIPE then (w, Refuse(UNSUPPORTED))
    else if st != OK then (w1, Refuse(st))
    else Alloc(w1, req, cap, e.create, e.delete)
  }

  function OrEmpty(s: Option<string>): string { if s.None? then [] else s.value }

  /** The checks of ssu_api_allocate. */
  function AllocateCheck(req: ApiReq): Status {
    if req.size == 0 || OrEmpty(req.user) == [] || req.hosts == [] then INVALID
    else if req.share != 0 && req.share != 1 then INVALID
    else if req.share == 0 && |req.hosts| != 1 then INVALID
    else if [] in req.hosts then INVALID
    else if req.aggregate < 0 then UNSUPPORTED
    else OK
  }

  function ResourceReq(req: ApiReq): AllocReq {
    AllocReq(req.size, OrEmpty(req.disk), if req.disks == 0 then 1 else req.disks, STRIPE,
             if req.share == 0 then EXCLUSIVE else SHARED, OrEmpty(req.user), req.hosts)
  }

  function ApiAllocate(a: Api, req: ApiReq, e: Environment): (r: (Api, Answer))
    requires ApiShaped(a)
    ensures ApiShaped(r.0)
  {
    if AllocateCheck(req) != OK then (a, Refusal(AllocateCheck(req)))
    else
      var named := OrEmpty(req.disk) != [] && Has(a.w.c.rows, RowName, OrEmpty(req.disk));
      var (w, out) := ResourceAlloc(a.w, ResourceReq(req), e);
      if out.status != OK then (a.(w := w), Refusal(out.status))
      else RegisterGrant(a.(w := w), out.id, OrEmpty(req.disk), named, e.delete)
  }

  /** Caches a granted request; when the cache is full a fresh one is released. */
  function RegisterGrant(a: Api, id: string, name: string, named: bool, delete: Faults): (r: (Api, Answer))
    requires ApiShaped(a)
    ensures ApiShaped(r.0)
  {
    var (a2, path) := Register(a, id, name);
    if path.Some? then (a2, Found(id))
    else (a.(w := if named then a.w else Release(a.w, id, delete).0), Refusal(INTERNAL))
  }

  function ApiFree(a: Api, path: string, deletes: Faults): (r: (Api, Status))
    requires ApiShaped(a)
    ensures ApiShaped(r.0)
  {
    var (a1, found) := Resolve(a, path);
    if found.Refusal? then (a1, found.status)
    else
      var (w, st) := Release(a1.w, found.id, deletes);
      (if st == OK then Forget(a1.(w := w), found.id) else a1.(w := w), st)
  }

  function ApiMount(a: Api, path: string, host: string, d: Devices, f: KernelFaults): (r: (Api, Status))
    requires ApiShaped(a)
    ensures ApiShaped(r.0)
  {
    if path == [] || host == [] then (a, INVALID)
    else
      var (a1, found) := Resolve(a, path);
      if found.Refusal? then (a1, found.status)
      else
        var (w, st) := MountOp(a1.w, MountReq(found.id, host, Clip(path, PATH_SIZE)), d, f);
        (if st == OK then Register(a1.(w := w), found.id, []).0 else a1.(w := w), st)
  }

  /** The device path of a request. */
  function ApiResult(a: Api, id: string): (r: (Api, Status, string))
    ensures ApiShaped(a) ==> ApiShaped(r.0)
  {
    if id == [] then (a, INVALID, [])
    else if !Has(a.w.c.rows, RowId, id) then (a, NOT_FOUND, [])
    else
      var (a1, path) := Register(a, id, []);
      if path.None? then (a1, INTERNAL, []) else (a1, OK, path.value)
  }

  function Fini(a: Api): (r: Api)
    ensures ApiShaped(a) ==> ApiShaped(r)
  {
    a.(slots := EmptyTable(MAX_REQUESTS), next := 0)
  }

  datatype ApiOp =
    | Allocating(req: ApiReq, env: Environment)
    | Freeing(path: string, deletes: Faults)
    | Mounting(path: string, host: string, devices: Devices, faults: KernelFaults)
    | Asking(id: string)
    | Looking(path: string)
    | Finishing
    | Below(op: Op)

  /** Below is any call that goes to the controller past the API. */
  function ApiStep(a: Api, op: ApiOp): (r: Api)
    requires ApiShaped(a)
    ensures ApiShaped(r)
  {
    match op
    case Allocating(req, env) => ApiAllocate(a, req, env).0
    case Freeing(path, deletes) => ApiFree(a, path, deletes).0
    case Mounting(path, host, d, f) => ApiMount(a, path, host, d, f).0
    case Asking(id) => ApiResult(a, id).0
    case Looking(path) => Resolve(a, path).0
    case Finishing => Fini(a)
    case Below(o) => a.(w := Step(a.w, o))
  }

  function ApiRun(a: Api, ops: seq<ApiOp>): (r: Api)
    requires ApiShaped(a)
    ensures ApiShaped(r)
  {
    if ops == [] then a else ApiStep(ApiRun(a, ops[..|ops| - 1]), ops[|ops| - 1])
  }

  // ---- what the resolver relies on ----

  predicate NameOk(name: string) { name == [] || NameValid(name) }

  predicate NamesOk(rows: Rows) {
    forall i :: 0 <= i < |rows| && rows[i].Some? ==> NameOk(rows[i].value.diskName)
  }

  /** base reads ssuN and id is alloc-N. */
  predicate Indexes(base: string, id: string) {
    var n := PrefixedU32(base, DEV_PREFIX);
    n.Some? && id == ID_PREFIX + Dec(n.value)
  }

  /** An active id that a path ending in base may mean: alloc-N for ssuN, or the id
      whose disk has that name. */
  predicate Candidate(rows: Rows, base: string, id: string) {
    Has(rows, RowId, id) && (Indexes(base, id) || (base != [] && FirstNamed(rows, id) == base))
  }

  /** The name reads ssuN and belongs to another id while alloc-N is active. */
  predicate Clashes(rows: Rows, name: string, id: string) {
    var n := PrefixedU32(name, DEV_PREFIX);
    n.Some? && Has(rows, RowId, ID_PREFIX + Dec(n.value)) && id != ID_PREFIX + Dec(n.value)
  }

  predicate NoClash(rows: Rows) {
    forall i :: 0 <= i < |rows| && rows[i].Some? ==> !Clashes(rows, rows[i].value.diskName, rows[i].value.allocId)
  }

  /** Device row i is mounted under the ssuN of another active allocation. */
  predicate DevClashes(c: Ctl, i: nat)
    requires i < |c.logdevs|
  {
    c.logdevs[i].Some? && Clashes(c.rows, Basename(c.logdevs[i].value.dev), c.logdevs[i].value.allocId)
  }

  /** No device is mounted under the ssuN of another active allocation, and a disk so
      named has its own path covered by a mounted device. */
  predicate NoneMisled(c: Ctl) {
    && (forall i :: 0 <= i < |c.logdevs| ==> !DevClashes(c, i))
    && (forall i ::
          && 0 <= i < |c.rows| && c.rows[i].Some?
          && Clashes(c.rows, c.rows[i].value.diskName, c.rows[i].value.allocId) ==>
          Has(c.logdevs, LogdevDev, DEV_ROOT + c.rows[i].value.diskName))
  }

  /** The path that belongs to an id. */
  function PathOf(rows: Rows, id: string): string
    requires |ID_PREFIX| <= |id|
  {
    DEV_ROOT + if FirstNamed(rows, id) != [] then FirstNamed(rows, id) else DEV_PREFIX + id[|ID_PREFIX|..]
  }

  /** A cache entry was issued once, and is right if its request is still active. */
  predicate EntryOk(c: Ctl, e: Entry) {
    && IssuedBelow(ID_PREFIX, e.requestId, c.nextId)
    && (Has(c.rows, RowId, e.requestId) ==> e.path == PathOf(c.rows, e.requestId))
  }

  predicate SlotsOk(c: Ctl, slots: seq<Option<Entry>>) {
    forall i :: 0 <= i < |slots| && slots[i].Some? ==> EntryOk(c, slots[i].value)
  }

  predicate CacheOk(a: Api) { SlotsOk(a.w.c, a.slots) }

  /** Every mounted device is mounted for one id, and one that its path may mean. */
  predicate DevsOk(c: Ctl) {
    OneMountPerDevice(c.logdevs) &&
    forall i :: 0 <= i < |c.logdevs| && c.logdevs[i].Some? ==>
      Candidate(c.rows, Basename(c.logdevs[i].value.dev), c.logdevs[i].value.allocId)
  }

  predicate TablesOk(c: Ctl) { Books(c) && RowsOk(c) && NamesOk(c.rows) && c.nextId <= TWO32 }

  predicate ApiInv(a: Api) { ApiShaped(a) && TablesOk(a.w.c) && DevsOk(a.w.c) && CacheOk(a) }

  // ---- names and paths ----

  lemma {:induction false} FirstNamedFrom(rows: Rows, id: string)
    ensures FirstNamed(rows, id) == [] ==> forall i :: 0 <= i < |rows| && Carries(rows[i], RowId, id) ==>
      rows[i].value.diskName == []
    ensures FirstNamed(rows, id) != [] ==>
      exists i :: 0 <= i < |rows| && Carries(rows[i], RowId, id) && rows[i].value.diskName == FirstNamed(rows, id)
  {
    if rows != [] {
      FirstNamedFrom(rows[1..], id);
      assert forall i :: 1 <= i < |rows| ==> rows[i] == rows[1..][i - 1];
    }
  }

  /** In a uniform table the first name is every row's name. */
  lemma NameOfRow(rows: Rows, id: string, i: nat)
    requires Uniform(rows) && i < |rows| && Carries(rows[i], RowId, id)
    ensures FirstNamed(rows, id) == rows[i].value.diskName
  {
    FirstNamedFrom(rows, id);
  }

  lemma OwnerOfName(rows: Rows, id: string, i: nat)
    requires Uniform(rows) && i < |rows| && Carries(rows[i], RowId, id) && rows[i].value.diskName != []
    ensures Has(rows, RowName, rows[i].value.diskName)
    ensures rows[Find(rows, RowName, rows[i].value.diskName)].value.allocId == id
  {
    var name := rows[i].value.diskName;
    assert Carries(rows[i], RowName, name);
    HasSome(rows, RowName, name);
    assert Carries(rows[Find(rows, RowName, name)], RowName, name);
  }

  lemma {:induction false} DecLength(n: nat)
    ensures n < 1_00000_00000 ==> |Dec(n)| <= 10
  {
    DecAtMost(n, 10);
    assert Pow10(10) == 1_00000_00000;
  }

  function Pow10(k: nat): nat { if k == 0 then 1 else 10 * Pow10(k - 1) }

  lemma {:induction false} DecAtMost(n: nat, k: nat)
    requires k > 0
    ensures n < Pow10(k) ==> |Dec(n)| <= k
  {
    assert Pow10(1) == 10;
    if n >= 10 && k > 1 { DecAtMost(n / 10, k - 1); }
  }

  /** The N of an id. */
  lemma IdIndex(id: string, n: nat)
    requires IssuedBelow(ID_PREFIX, id, n) && n <= TWO32
    ensures var k := PrefixedU32(id, ID_PREFIX);
      && k.Some? && id == ID_PREFIX + Dec(k.value) && id[|ID_PREFIX|..] == Dec(k.value) && |Dec(k.value)| <= 10
  {
    var k := Value(id[|ID_PREFIX|..]);
    ValueDec(k);
    DecLength(k);
  }

  lemma SsuIndex(k: nat)
    requires k < TWO32
    ensures PrefixedU32(DEV_PREFIX + Dec(k), DEV_PREFIX) == Some(k) && '/' !in DEV_PREFIX + Dec(k)
  {
    ValueDec(k);
    assert DEV_PREFIX <= DEV_PREFIX + Dec(k);
    assert (DEV_PREFIX + Dec(k))[|DEV_PREFIX|..] == Dec(k);
    assert forall i :: 0 <= i < |Dec(k)| ==> IsDigit(Dec(k)[i]);
  }

  /** An active id's own path may mean it. */
  lemma PathIsCandidate(c: Ctl, id: string)
    requires TablesOk(c) && Has(c.rows, RowId, id)
    ensures |ID_PREFIX| <= |id| && Candidate(c.rows, Basename(PathOf(c.rows, id)), id)
    ensures FirstNamed(c.rows, id) != [] ==> Basename(PathOf(c.rows, id)) == FirstNamed(c.rows, id)
  {
    var i := Find(c.rows, RowId, id);
    IdIndex(id, c.nextId);
    NameOfRow(c.rows, id, i);
    if FirstNamed(c.rows, id) != [] {
      NamedPath(FirstNamed(c.rows, id));
    } else {
      IndexedPath(id, PrefixedU32(id, ID_PREFIX).value);
    }
  }

  lemma NamedPath(name: string)
    requires NameValid(name)
    ensures Basename(DEV_ROOT + name) == name
  {
    BasenameOf(DEV_ROOT, name);
  }

  lemma IndexedPath(id: string, k: nat)
    requires k < TWO32 && id == ID_PREFIX + Dec(k)
    ensures Indexes(Basename(DEV_ROOT + (DEV_PREFIX + id[|ID_PREFIX|..])), id)
  {
    SsuIndex(k);
    assert id[|ID_PREFIX|..] == Dec(k);
    BasenameOf(DEV_ROOT, DEV_PREFIX + Dec(k));
  }

  /** Of two ids that a path may mean the lookup takes alloc-N; there is a second
      only if they clash. */
  lemma CandidateIsLookup(c: Ctl, base: string, id: string)
    requires Uniform(c.rows) && Candidate(c.rows, base, id) && !Clashes(c.rows, base, id)
    ensures Lookup(c.rows, base) == Found(id)
  {
    if !Indexes(base, id) {
      var i := Find(c.rows, RowId, id);
      NameOfRow(c.rows, id, i);
      OwnerOfName(c.rows, id, i);
    }
  }

  /** A clash between a path and an id that it may mean is a clash of the id's name. */
  lemma CandidateClash(c: Ctl, base: string, id: string) returns (i: nat)
    requires Uniform(c.rows) && Candidate(c.rows, base, id) && Clashes(c.rows, base, id)
    ensures i < |c.rows| && c.rows[i].Some? && c.rows[i].value.allocId == id && c.rows[i].value.diskName == base
  {
    i := Find(c.rows, RowId, id);
    NameOfRow(c.rows, id, i);
  }

  /** Without a clash an active id's own path leads back to it. */
  lemma PathLeadsBack(c: Ctl, id: string)
    requires TablesOk(c) && Has(c.rows, RowId, id) && NoClash(c.rows)
    ensures |ID_PREFIX| <= |id| && Lookup(c.rows, Basename(PathOf(c.rows, id))) == Found(id)
  {
    PathIsCandidate(c, id);
    NoClashAt(c, Basename(PathOf(c.rows, id)), id);
    CandidateIsLookup(c, Basename(PathOf(c.rows, id)), id);
  }

  lemma NoClashAt(c: Ctl, base: string, id: string)
    requires Uniform(c.rows) && Candidate(c.rows, base, id) && NoClash(c.rows)
    ensures !Clashes(c.rows, base, id)
  {
    if Clashes(c.rows, base, id) {
      var i := CandidateClash(c, base, id);
    }
  }

  // ---- the cache ----

  lemma DefaultPathIs(c: Ctl, id: string, name: string, next: nat)
    requires TablesOk(c) && Has(c.rows, RowId, id) && name == FirstNamed(c.rows, id)
    ensures |ID_PREFIX| <= |id| && DefaultPath(id, name, next).0 == PathOf(c.rows, id)
  {
    var i := Find(c.rows, RowId, id);
    NameOfRow(c.rows, id, i);
    IdIndex(id, c.nextId);
    if name != [] {
      PathFits(name);
    } else {
      IndexPathFits(PrefixedU32(id, ID_PREFIX).value);
    }
  }

  lemma IndexPathFits(k: nat)
    requires |Dec(k)| <= 10
    ensures Clip(DEV_ROOT + DEV_PREFIX + Dec(k), PATH_SIZE) == DEV_ROOT + (DEV_PREFIX + Dec(k))
  {
    PathFits(DEV_PREFIX + Dec(k));
    assert DEV_ROOT + DEV_PREFIX + Dec(k) == DEV_ROOT + (DEV_PREFIX + Dec(k));
  }

  lemma PathFits(name: string)
    requires |name| <= MAX_DISK_NAME
    ensures Clip(DEV_ROOT + name, PATH_SIZE) == DEV_ROOT + name
  {}

  lemma CachedSlot(c: Ctl, slots: seq<Option<Entry>>, i: nat, e: Option<Entry>)
    requires i < |slots| && (e.Some? ==> EntryOk(c, e.value)) && SlotsOk(c, slots)
    ensures SlotsOk(c, slots[i := e])
  {}

  lemma RegisterKeepsCache(a: Api, id: string, name: string)
    requires TablesOk(a.w.c) && CacheOk(a) && Has(a.w.c.rows, RowId, id)
    requires name == [] || name == FirstNamed(a.w.c.rows, id)
    ensures CacheOk(Register(a, id, name).0)
    ensures Register(a, id, name).1.Some? ==>
      |ID_PREFIX| <= |id| && Register(a, id, name).1.value == PathOf(a.w.c.rows, id)
  {
    var c, slots := a.w.c, a.slots;
    var full := if name == [] then FirstNamed(c.rows, id) else name;
    DefaultPathIs(c, id, full, a.next);
    assert IssuedBelow(ID_PREFIX, c.rows[Find(c.rows, RowId, id)].value.allocId, c.nextId);
    var i := Find(slots, EntryId, id);
    var slot := if i < |slots| then i else FirstFree(slots);
    if slot < |slots| {
      CachedSlot(c, slots, slot, Some(Entry(id, PathOf(c.rows, id))));
    }
  }

  /** Whatever stale, missing or reset entries the cache holds, the resolver answers
      with an id that the path may mean, and with none only if there is none. */
  lemma ResolveIsCandidate(a: Api, path: string)
    requires ApiInv(a) && path != []
    ensures var r := Resolve(a, path).1;
      if r.Found? then Candidate(a.w.c.rows, Basename(path), r.id) else r == Lookup(a.w.c.rows, Basename(path))
    ensures ApiInv(Resolve(a, path).0)
  {
    var c, base := a.w.c, Basename(path);
    var l, s := Find(c.logdevs, LogdevDev, path), Find(a.slots, EntryPath, path);
    var n := PrefixedU32(base, DEV_PREFIX);
    if l < |c.logdevs| {
    } else if s < |a.slots| && Has(c.rows, RowId, a.slots[s].value.requestId) {
      assert EntryOk(c, a.slots[s].value);
      PathIsCandidate(c, a.slots[s].value.requestId);
    } else if n.Some? && Has(c.rows, RowId, ID_PREFIX + Dec(n.value)) {
      RegisterKeepsCache(a, ID_PREFIX + Dec(n.value), []);
    } else if base != [] && Has(c.rows, RowName, base) {
      var i := Find(c.rows, RowName, base);
      NameOfRow(c.rows, c.rows[i].value.allocId, i);
      HasSome(c.rows, RowId, c.rows[i].value.allocId);
      RegisterKeepsCache(a, c.rows[i].value.allocId, base);
    }
  }

  /** Where nothing misleads it the answer is the lookup of the last path component. */
  lemma ResolveIsLookup(a: Api, path: string)
    requires ApiInv(a) && NoneMisled(a.w.c) && path != []
    ensures Resolve(a, path).1 == Lookup(a.w.c.rows, Basename(path))
  {
    var r := Resolve(a, path).1;
    ResolveIsCandidate(a, path);
    if r.Found? {
      if Clashes(a.w.c.rows, Basename(path), r.id) {
        ClashIsMounted(a, path, r.id);
      }
      CandidateIsLookup(a.w.c, Basename(path), r.id);
    }
  }

  /** A clashing answer would come from the cache, under the path of a clashing name;
      but that one is mounted, so the cache is not asked. */
  lemma ClashIsMounted(a: Api, path: string, id: string)
    requires ApiInv(a) && NoneMisled(a.w.c) && path != [] && Resolve(a, path).1 == Found(id)
    ensures !Clashes(a.w.c.rows, Basename(path), id)
  {
    var c, base := a.w.c, Basename(path);
    var l, s := Find(c.logdevs, LogdevDev, path), Find(a.slots, EntryPath, path);
    if l < |c.logdevs| {
      assert !DevClashes(c, l);
    } else if s < |a.slots| && id == a.slots[s].value.requestId && Has(c.rows, RowId, id) && Clashes(c.rows, base, id) {
      assert EntryOk(c, a.slots[s].value);
      ClashingPathMounted(c, path, id);
    }
  }

  lemma ClashingPathMounted(c: Ctl, path: string, id: string)
    requires TablesOk(c) && NoneMisled(c) && Has(c.rows, RowId, id) && |ID_PREFIX| <= |id| && path == PathOf(c.rows, id)
    requires Clashes(c.rows, Basename(path), id)
    ensures Has(c.logdevs, LogdevDev, path)
  {
    PathIsCandidate(c, id);
    var i := CandidateClash(c, Basename(path), id);
    NameOfRow(c.rows, id, i);
  }

  // ---- steps below the API ----

  /** Every row that carries id in b was already in a, with the same name. */
  predicate Faded(a: Rows, b: Rows, id: string) {
    |a| == |b| && forall i :: 0 <= i < |a| && Carries(b[i], RowId, id) ==>
      Carries(a[i], RowId, id) && b[i].value.diskName == a[i].value.diskName
  }

  /** An allocation adds rows of one new id, or none; devices stay. */
  lemma AllocExtends(w: World, req: AllocReq, cap: Option<nat>, create: Faults, delete: Faults)
    returns (job: Job, n: nat)
    requires WorldShaped(w) && Books(w.c) && RowsOk(w.c) && w.c.nextId < TWO64
    ensures var c2 := Alloc(w, req, cap, create, delete).0.c;
      && c2.logdevs == w.c.logdevs && Extended(w.c.rows, c2.rows, job, w.c.pool, n)
      && (c2.rows == w.c.rows || req.diskName == [] || NameValid(req.diskName))
    ensures job.id == Numbered(ID_PREFIX, w.c.nextId) && job.req == req
  {
    SearchIsImmediate(w);
    AllocCases(w, req, cap, create, delete);
    job, n := Job(Numbered(ID_PREFIX, w.c.nextId), req, "", [], 0, 0), 0;
    if req.size > 0 && HostKey.Key(req.hosts).Some? {
      var a := Admit(w.c, req, HostKey.Key(req.hosts).value, cap);
      if a.Admitted? {
        PlaceFromExtends(w, Start(w), a.job, create);
        if Place(w, a.job, create, delete).1.status != OK {
          PlaceAllOrNothing(w, a.job, create, delete);
        } else if Alloc(w, req, cap, create, delete).0 != w {
          job, n := a.job, PlaceFrom(Start(w), a.job, create).0.i;
        }
      }
    }
  }

  lemma AllocFades(w: World, req: AllocReq, cap: Option<nat>, create: Faults, delete: Faults, id: string)
    requires WorldShaped(w) && Books(w.c) && RowsOk(w.c) && w.c.nextId < TWO64 && IssuedBelow(ID_PREFIX, id, w.c.nextId)
    ensures Faded(w.c.rows, Alloc(w, req, cap, create, delete).0.c.rows, id)
  {
    var job, n := AllocExtends(w, req, cap, create, delete);
    NumberedIssued(ID_PREFIX, w.c.nextId, w.c.nextId);
  }

  lemma SetStateFades(rows: Rows, x: string, st: RowState, id: string)
    ensures Faded(rows, SetState(rows, x, st), id)
  {
    assert forall i :: 0 <= i < |rows| ==> SetState(rows, x, st)[i] == WithState(rows[i], x, st);
  }

  lemma StepFades(w: World, op: Op, id: string)
    requires WorldShaped(w) && Books(w.c) && RowsOk(w.c) && Step(w, op).c.nextId < TWO64
    requires IssuedBelow(ID_PREFIX, id, w.c.nextId)
    ensures Faded(w.c.rows, Step(w, op).c.rows, id)
  {
    match op
    case OpRefresh(d, h) =>
    case OpAlloc(req, cap, create, delete) =>
      NextIdGrows(w, op);
      AllocFades(w, req, cap, create, delete, id);
    case OpRelease(x, deletes) => ReleaseFades(w, x, deletes, id);
    case OpMount(req, d, f) => MountFades(w, req, d, f, id);
    case OpUnmount(dev, d, f) => UnmountFades(w, dev, d, f, id);
  }

  lemma ReleaseFades(w: World, x: string, deletes: Faults, id: string)
    requires WorldShaped(w)
    ensures Faded(w.c.rows, Release(w, x, deletes).0.c.rows, id)
  {
    ReleaseFromThins(w, x, 0, false, deletes);
  }

  lemma MountFades(w: World, req: MountReq, d: Devices, f: KernelFaults, id: string)
    requires WorldShaped(w)
    ensures Faded(w.c.rows, MountOp(w, req, d, f).0.c.rows, id)
  {
    MountCases(w, req, d, f);
    SetStateFades(w.c.rows, req.allocId, MOUNTED, id);
  }

  lemma UnmountFades(w: World, dev: string, d: Devices, f: KernelFaults, id: string)
    requires WorldShaped(w)
    ensures Faded(w.c.rows, UnmountOp(w, dev, d, f).0.c.rows, id)
  {
    UnmountCases(w, dev, d, f);
    if Has(w.c.logdevs, LogdevDev, dev) {
      var x := w.c.logdevs[Find(w.c.logdevs, LogdevDev, dev)].value.allocId;
      SetStateFades(w.c.rows, x, MOUNTED, id);
      SetStateFades(w.c.rows, x, ACTIVE, id);
    }
  }

  lemma AllocKeepsNames(w: World, req: AllocReq, cap: Option<nat>, create: Faults, delete: Faults)
    requires WorldShaped(w) && Books(w.c) && RowsOk(w.c) && w.c.nextId < TWO64 && NamesOk(w.c.rows)
    ensures NamesOk(Alloc(w, req, cap, create, delete).0.c.rows)
  {
    var job, n := AllocExtends(w, req, cap, create, delete);
  }

  lemma StepKeepsNames(w: World, op: Op)
    requires WorldShaped(w) && Books(w.c) && RowsOk(w.c) && Step(w, op).c.nextId < TWO64
    requires NamesOk(w.c.rows)
    ensures NamesOk(Step(w, op).c.rows)
  {
    match op
    case OpRefresh(d, h) =>
    case OpAlloc(req, cap, create, delete) =>
      NextIdGrows(w, op);
      AllocKeepsNames(w, req, cap, create, delete);
    case OpRelease(id, deletes) => ReleaseFromThins(w, id, 0, false, deletes);
    case OpMount(req, d, f) => MountKeepsNames(w, req, d, f);
    case OpUnmount(dev, d, f) => UnmountKeepsNames(w, dev, d, f);
  }

  lemma MountKeepsNames(w: World, req: MountReq, d: Devices, f: KernelFaults)
    requires WorldShaped(w) && NamesOk(w.c.rows)
    ensures NamesOk(MountOp(w, req, d, f).0.c.rows)
  {
    MountCases(w, req, d, f);
    SetStateKeepsNames(w.c.rows, req.allocId, MOUNTED);
  }

  lemma SetStateKeepsNames(rows: Rows, x: string, st: RowState)
    requires NamesOk(rows)
    ensures NamesOk(SetState(rows, x, st))
  {
    var rows2 := SetState(rows, x, st);
    forall i | 0 <= i < |rows2| && rows2[i].Some? ensures NameOk(rows2[i].value.diskName) {
      assert rows2[i] == WithState(rows[i], x, st);
    }
  }

  lemma UnmountKeepsNames(w: World, dev: string, d: Devices, f: KernelFaults)
    requires WorldShaped(w) && NamesOk(w.c.rows)
    ensures NamesOk(UnmountOp(w, dev, d, f).0.c.rows)
  {
    UnmountCases(w, dev, d, f);
    if Has(w.c.logdevs, LogdevDev, dev) {
      var x := w.c.logdevs[Find(w.c.logdevs, LogdevDev, dev)].value.allocId;
      SetStateKeepsNames(w.c.rows, x, MOUNTED);
      SetStateKeepsNames(w.c.rows, x, ACTIVE);
    }
  }

  lemma FadedName(a: Rows, b: Rows, id: string)
    requires Uniform(a) && Uniform(b) && Faded(a, b, id) && Has(b, RowId, id)
    ensures Has(a, RowId, id) && FirstNamed(b, id) == FirstNamed(a, id)
  {
    var i := Find(b, RowId, id);
    HasSome(a, RowId, id);
    NameOfRow(a, id, i);
    NameOfRow(b, id, i);
  }

  lemma EntryStays(c: Ctl, c2: Ctl, e: Entry)
    requires EntryOk(c, e) && Uniform(c.rows) && Uniform(c2.rows) && Faded(c.rows, c2.rows, e.requestId)
    requires c.nextId <= c2.nextId
    ensures EntryOk(c2, e)
  {
    IssuedLater(ID_PREFIX, e.requestId, c.nextId, c2.nextId);
    if Has(c2.rows, RowId, e.requestId) {
      FadedName(c.rows, c2.rows, e.requestId);
    }
  }

  /** An id that a path may mean stays one as long as it has rows. */
  lemma CandidateStays(c: Ctl, c2: Ctl, base: string, id: string)
    requires Candidate(c.rows, base, id) && Uniform(c.rows) && Uniform(c2.rows)
    requires Faded(c.rows, c2.rows, id) && Has(c2.rows, RowId, id)
    ensures Candidate(c2.rows, base, id)
  {
    FadedName(c.rows, c2.rows, id);
  }

  /** Mounted devices after a step were mounted before, and their ids keep rows. */
  lemma MountedStay(w: World, op: Op, i: nat)
    requires WorldShaped(w) && Books(w.c) && RowsOk(w.c) && Step(w, op).c.nextId < TWO64 && !op.OpMount?
    requires i < |Step(w, op).c.logdevs| && Step(w, op).c.logdevs[i].Some?
    requires forall j :: 0 <= j < |w.c.logdevs| && w.c.logdevs[j].Some? ==>
      Has(w.c.rows, RowId, w.c.logdevs[j].value.allocId)
    ensures i < |w.c.logdevs| && Step(w, op).c.logdevs[i] == w.c.logdevs[i]
    ensures Has(Step(w, op).c.rows, RowId, w.c.logdevs[i].value.allocId)
  {
    LogdevsShrink(w, op);
    var id := w.c.logdevs[i].value.allocId;
    if op.OpRelease? && op.id == id {
      assert Carries(w.c.logdevs[i], LogdevId, id);
      HasSome(w.c.logdevs, LogdevId, id);
    } else {
      assert IssuedBelow(ID_PREFIX, w.c.rows[Find(w.c.rows, RowId, id)].value.allocId, w.c.nextId);
      StepKeepsGrant(w, op, id);
      PickNone(w.c.rows, RowId, RowBare, id);
      PickNone(Step(w, op).c.rows, RowId, RowBare, id);
    }
  }

  lemma LogdevsShrink(w: World, op: Op)
    requires WorldShaped(w) && Books(w.c) && RowsOk(w.c) && Step(w, op).c.nextId < TWO64 && !op.OpMount?
    ensures var after := Step(w, op).c.logdevs;
      |after| == |w.c.logdevs| && forall i :: 0 <= i < |after| && after[i].Some? ==> after[i] == w.c.logdevs[i]
  {
    match op
    case OpRefresh(d, h) =>
    case OpAlloc(req, cap, create, delete) =>
      NextIdGrows(w, op);
      var job, n := AllocExtends(w, req, cap, create, delete);
    case OpRelease(id, deletes) => ReleaseFromThins(w, id, 0, false, deletes);
    case OpUnmount(dev, d, f) => UnmountCases(w, dev, d, f);
  }

  /** What a step below the API must respect. */
  predicate BelowFits(op: Op) { StepFits(op) && !op.OpMount? }

  lemma StepKeepsDevs(w: World, op: Op)
    requires WorldShaped(w) && TablesOk(w.c) && DevsOk(w.c) && TablesOk(Step(w, op).c) && BelowFits(op)
    ensures DevsOk(Step(w, op).c)
  {
    var c, c2 := w.c, Step(w, op).c;
    LogdevsShrink(w, op);
    forall i | 0 <= i < |c2.logdevs| && c2.logdevs[i].Some?
      ensures Candidate(c2.rows, Basename(c2.logdevs[i].value.dev), c2.logdevs[i].value.allocId)
    {
      MountedStay(w, op, i);
      var id := c.logdevs[i].value.allocId;
      assert IssuedBelow(ID_PREFIX, c.rows[Find(c.rows, RowId, id)].value.allocId, c.nextId);
      StepFades(w, op, id);
      CandidateStays(c, c2, Basename(c.logdevs[i].value.dev), id);
    }
  }

  lemma StepKeepsTables(w: World, op: Op)
    requires WorldShaped(w) && TablesOk(w.c) && StepFits(op) && Step(w, op).c.nextId <= TWO32
    ensures TablesOk(Step(w, op).c) && w.c.nextId <= Step(w, op).c.nextId
  {
    StepKeepsBooks(w, op);
    StepKeepsRowsOk(w, op);
    StepKeepsNames(w, op);
  }

  lemma StepKeepsCache(a: Api, op: Op)
    requires ApiShaped(a) && TablesOk(a.w.c) && CacheOk(a) && TablesOk(Step(a.w, op).c)
    requires a.w.c.nextId <= Step(a.w, op).c.nextId
    ensures CacheOk(a.(w := Step(a.w, op)))
  {
    var c, c2 := a.w.c, Step(a.w, op).c;
    forall i | 0 <= i < |a.slots| && a.slots[i].Some? ensures EntryOk(c2, a.slots[i].value) {
      assert EntryOk(c, a.slots[i].value);
      StepFades(a.w, op, a.slots[i].value.requestId);
      EntryStays(c, c2, a.slots[i].value);
    }
  }

  lemma BelowKeepsInv(a: Api, op: Op)
    requires ApiInv(a) && BelowFits(op) && Step(a.w, op).c.nextId <= TWO32
    ensures ApiInv(a.(w := Step(a.w, op)))
  {
    StepKeepsTables(a.w, op);
    StepKeepsDevs(a.w, op);
    StepKeepsCache(a, op);
  }

  // ---- the API's own steps ----

  lemma SlotHas(rows: Rows, i: nat, id: string)
    requires i < |rows| && Carries(rows[i], RowId, id)
    ensures Has(rows, RowId, id)
  {
    HasSome(rows, RowId, id);
  }

  lemma ExistingIsActive(c: Ctl, req: AllocReq, key: string, cap: Option<nat>)
    requires RowsOk(c) && req.diskName != [] && Has(c.rows, RowName, req.diskName)
    requires CopyExisting(c, req, key, cap).status == OK
    ensures var id := CopyExisting(c, req, key, cap).id;
      Has(c.rows, RowId, id) && FirstNamed(c.rows, id) == req.diskName
  {
    var rows := Pick(c.rows, RowName, RowBare, req.diskName);
    PickNone(c.rows, RowName, RowBare, req.diskName);
    var s := PickFrom(c.rows, RowName, RowBare, req.diskName, rows[0]);
    SlotHas(c.rows, s, rows[0].allocId);
    NameOfRow(c.rows, rows[0].allocId, s);
  }

  lemma FreshIsActive(w: World, job: Job, create: Faults)
    requires JobOk(w.c.pool, job) && CanPlace(Start(w), job) && DistinctSsus(w.c.pool) && job.req.size <= U64_MAX
    requires !Has(w.c.rows, RowId, job.id) && PlaceFrom(Start(w), job, create).1 == OK
    requires Uniform(PlaceFrom(Start(w), job, create).0.w.c.rows)
    ensures var rows2 := PlaceFrom(Start(w), job, create).0.w.c.rows;
      Has(rows2, RowId, job.id) && FirstNamed(rows2, job.id) == job.req.diskName
  {
    var c2 := PlaceFrom(Start(w), job, create).0.w.c;
    FreshGrantRows(w, job, create);
    var bare := BareRows(c2, job.id);
    var s := PickFrom(c2.rows, RowId, RowBare, job.id, bare[0]);
    SlotHas(c2.rows, s, job.id);
    NameOfRow(c2.rows, job.id, s);
  }

  /** A granted allocation is active under the name that was asked for. */
  lemma GrantIsActive(w: World, req: AllocReq, cap: Option<nat>, create: Faults, delete: Faults)
    requires WorldShaped(w) && Books(w.c) && RowsOk(w.c) && w.c.nextId < TWO64 && req.size <= U64_MAX
    requires Alloc(w, req, cap, create, delete).1.status == OK && RowsOk(Alloc(w, req, cap, create, delete).0.c)
    ensures var (w2, out) := Alloc(w, req, cap, create, delete);
      Has(w2.c.rows, RowId, out.id) && FirstNamed(w2.c.rows, out.id) == req.diskName
  {
    var key := HostKey.Key(req.hosts).value;
    if req.diskName != [] && Has(w.c.rows, RowName, req.diskName) {
      ExistingIsActive(w.c, req, key, cap);
    } else {
      SearchIsImmediate(w);
      PlacedIsActive(w, Admit(w.c, req, key, cap).job, create, delete);
    }
  }

  lemma PlacedIsActive(w: World, job: Job, create: Faults, delete: Faults)
    requires JobOk(w.c.pool, job) && CanPlace(Start(w), job) && DistinctSsus(w.c.pool) && job.req.size <= U64_MAX
    requires !Has(w.c.rows, RowId, job.id) && Place(w, job, create, delete).1.status == OK
    requires Uniform(Place(w, job, create, delete).0.c.rows)
    ensures var (w2, out) := Place(w, job, create, delete);
      Has(w2.c.rows, RowId, out.id) && FirstNamed(w2.c.rows, out.id) == job.req.diskName
  {
    FreshIsActive(w, job, create);
  }

  /** Asking for the count first and then allocating is one allocation with a
      buffer as large as the row table. */
  lemma TwoPhaseIsOneCall(w: World, req: AllocReq, e: Environment)
    requires WorldShaped(w) && IdsBelow(w.c) && w.c.nextId < TWO64 && req.reliability == STRIPE
    requires Refresh(w.c, e.discovery, e.health).1 == OK
    ensures ResourceAlloc(w, req, e)
      == Alloc(Step(w, OpRefresh(e.discovery, e.health)), req, Some(MAX_ALLOCATIONS), e.create, e.delete)
  {
    var w1 := Step(w, OpRefresh(e.discovery, e.health));
    ProbeThenAlloc(w1, req, e.create, e.delete);
  }

  /** So a caller that brings a buffer as large as the row table gets what a caller
      without one gets, refusals included. */
  lemma BufferIsTwoPhase(w: World, req: AllocReq, e: Environment)
    requires WorldShaped(w) && IdsBelow(w.c) && w.c.nextId < TWO64
    ensures ResourceAlloc(w, req, e) == AllocInto(w, req, Some(MAX_ALLOCATIONS), e)
  {
    if req.reliability == STRIPE && Refresh(w.c, e.discovery, e.health).1 == OK {
      TwoPhaseIsOneCall(w, req, e);
    }
  }

  lemma ProbeThenAlloc(w: World, req: AllocReq, create: Faults, delete: Faults)
    requires WorldShaped(w) && IdsBelow(w.c) && w.c.nextId < TWO64
    ensures var (w2, probe) := Alloc(w, req, None, create, delete);
      var whole := Alloc(w, req, Some(MAX_ALLOCATIONS), create, delete);
      if probe.status == BUFFER_TOO_SMALL then Alloc(w2, req, Some(probe.count), create, delete) == whole
        else (w2, probe) == whole
  {
    SearchIsImmediate(w);
    if req.reliability == STRIPE && req.size > 0 && HostKey.Key(req.hosts).Some?
      && (req.diskName == [] || NameValid(req.diskName)) {
      var key := HostKey.Key(req.hosts).value;
      if req.diskName != [] && Has(w.c.rows, RowName, req.diskName) {
        ProbeExisting(w.c, req, key);
      } else {
        ProbeAdmit(w.c, req, key);
      }
    }
  }

  lemma ProbeExisting(c: Ctl, req: AllocReq, key: string)
    requires CtlShaped(c) && Has(c.rows, RowName, req.diskName)
    ensures var probe, whole := CopyExisting(c, req, key, None), CopyExisting(c, req, key, Some(MAX_ALLOCATIONS));
      if probe.status == BUFFER_TOO_SMALL then CopyExisting(c, req, key, Some(probe.count)) == whole else probe == whole
  {
    PickShort(c.rows, RowName, RowBare, req.diskName);
  }

  lemma ProbeAdmit(c: Ctl, req: AllocReq, key: string)
    requires CtlShaped(c) && req.size > 0
    ensures var probe, whole := Admit(c, req, key, None), Admit(c, req, key, Some(MAX_ALLOCATIONS));
      && probe.Refused?
      && if probe.out.status == BUFFER_TOO_SMALL then Admit(c, req, key, Some(probe.out.count)) == whole
        else probe == whole
  {
    OnlineShort(c.pool);
  }

  lemma {:induction false} PickShort<T, U>(t: seq<Option<T>>, key: T -> string, view: T -> U, k: string)
    ensures |Pick(t, key, view, k)| <= |t|
  {
    if t != [] { PickShort(t[..|t| - 1], key, view, k); }
  }

  lemma {:induction false} OnlineShort(pool: seq<Resource>)
    ensures |OnlineIndexes(pool)| <= |pool|
  {
    if pool != [] { OnlineShort(pool[..|pool| - 1]); }
  }

  lemma AllocKeepsInv(a: Api, req: AllocReq, cap: Option<nat>, create: Faults, delete: Faults)
    requires ApiInv(a) && req.size <= U64_MAX
    requires Alloc(a.w, req, cap, create, delete).0.c.nextId <= TWO32
    ensures var (w2, out) := Alloc(a.w, req, cap, create, delete);
      && ApiInv(a.(w := w2))
      && (out.status == OK ==> Has(w2.c.rows, RowId, out.id) && FirstNamed(w2.c.rows, out.id) == req.diskName)
  {
    var op := OpAlloc(req, cap, create, delete);
    NextIdGrows(a.w, op);
    BelowKeepsInv(a, op);
    if Alloc(a.w, req, cap, create, delete).1.status == OK {
      GrantIsActive(a.w, req, cap, create, delete);
    }
  }

  lemma AllocGrows(w: World, req: AllocReq, cap: Option<nat>, create: Faults, delete: Faults)
    requires WorldShaped(w) && Books(w.c)
    ensures var w2 := Alloc(w, req, cap, create, delete).0; Books(w2.c) && w.c.nextId <= w2.c.nextId
  {
    NextIdGrows(w, OpAlloc(req, cap, create, delete));
    AllocKeepsBooks(w, req, cap, create, delete);
  }

  predicate EnvFits(e: Environment) { StepFits(OpRefresh(e.discovery, e.health)) }

  lemma ResourceAllocKeepsInv(a: Api, req: AllocReq, e: Environment)
    requires ApiInv(a) && EnvFits(e) && req.size <= U64_MAX
    requires ResourceAlloc(a.w, req, e).0.c.nextId <= TWO32
    ensures var (w2, out) := ResourceAlloc(a.w, req, e);
      && ApiInv(a.(w := w2))
      && (out.status == OK ==> Has(w2.c.rows, RowId, out.id) && FirstNamed(w2.c.rows, out.id) == req.diskName)
  {
    var op := OpRefresh(e.discovery, e.health);
    var a1 := a.(w := Step(a.w, op));
    BelowKeepsInv(a, op);
    var (w2, probe) := Alloc(a1.w, req, None, e.create, e.delete);
    if req.reliability == STRIPE && Refresh(a.w.c, e.discovery, e.health).1 == OK {
      AllocGrows(a1.w, req, None, e.create, e.delete);
      if probe.status == BUFFER_TOO_SMALL {
        AllocGrows(w2, req, Some(probe.count), e.create, e.delete);
        AllocKeepsInv(a1, req, None, e.create, e.delete);
        AllocKeepsInv(a1.(w := w2), req, Some(probe.count), e.create, e.delete);
      } else {
        AllocKeepsInv(a1, req, None, e.create, e.delete);
      }
    }
  }

  lemma RegisterKeepsInv(a: Api, id: string, name: string)
    requires ApiInv(a) && Has(a.w.c.rows, RowId, id) && (name == [] || name == FirstNamed(a.w.c.rows, id))
    ensures ApiInv(Register(a, id, name).0)
  {
    RegisterKeepsCache(a, id, name);
  }

  lemma AllocateKeepsInv(a: Api, req: ApiReq, e: Environment)
    requires ApiInv(a) && EnvFits(e) && ApiAllocate(a, req, e).0.w.c.nextId <= TWO32
    ensures ApiInv(ApiAllocate(a, req, e).0)
  {
    if AllocateCheck(req) == OK {
      var (w, out) := ResourceAlloc(a.w, ResourceReq(req), e);
      ResourceAllocGrows(a.w, ResourceReq(req), e);
      ReleaseSameNextId(w, out.id, e.delete);
      ResourceAllocKeepsInv(a, ResourceReq(req), e);
      if out.status == OK {
        GrantedKeepsInv(a.(w := w), out.id, OrEmpty(req.disk), e.delete);
      }
    }
  }

  /** After the grant: registering it, and releasing it again. */
  lemma GrantedKeepsInv(a: Api, id: string, name: string, delete: Faults)
    requires ApiInv(a) && Has(a.w.c.rows, RowId, id) && (name == [] || name == FirstNamed(a.w.c.rows, id))
    ensures ApiInv(Register(a, id, name).0)
    ensures Register(a, id, name).1.None? ==> Register(a, id, name).0 == a
    ensures ApiInv(a.(w := Release(a.w, id, delete).0))
  {
    RegisterKeepsInv(a, id, name);
    ReleaseKeepsInv(a, id, delete);
  }

  lemma ReleaseSameNextId(w: World, id: string, delete: Faults)
    requires WorldShaped(w)
    ensures Step(w, OpRelease(id, delete)) == Release(w, id, delete).0
    ensures Release(w, id, delete).0.c.nextId == w.c.nextId
  {
    ReleaseFromThins(w, id, 0, false, delete);
  }

  lemma ResourceAllocGrows(w: World, req: AllocReq, e: Environment)
    requires WorldShaped(w) && Books(w.c) && EnvFits(e)
    ensures var w2 := ResourceAlloc(w, req, e).0; Books(w2.c) && w.c.nextId <= w2.c.nextId
  {
    var op := OpRefresh(e.discovery, e.health);
    var w1 := Step(w, op);
    StepKeepsBooks(w, op);
    AllocGrows(w1, req, None, e.create, e.delete);
    var (w2, probe) := Alloc(w1, req, None, e.create, e.delete);
    AllocGrows(w2, req, Some(probe.count), e.create, e.delete);
  }

  lemma FreeKeepsInv(a: Api, path: string, deletes: Faults)
    requires ApiInv(a)
    ensures ApiInv(ApiFree(a, path, deletes).0)
  {
    if path != [] {
      ResolveIsCandidate(a, path);
      var (a1, found) := Resolve(a, path);
      if found.Found? {
        ReleaseKeepsInv(a1, found.id, deletes);
      }
    }
  }

  lemma ReleaseKeepsInv(a: Api, id: string, deletes: Faults)
    requires ApiInv(a)
    ensures ApiInv(a.(w := Release(a.w, id, deletes).0))
    ensures ApiInv(Forget(a.(w := Release(a.w, id, deletes).0), id))
  {
    ReleaseSameNextId(a.w, id, deletes);
    BelowKeepsInv(a, OpRelease(id, deletes));
    ForgetKeepsInv(a.(w := Step(a.w, OpRelease(id, deletes))), id);
  }

  lemma ForgetKeepsInv(a: Api, id: string)
    requires ApiInv(a)
    ensures ApiInv(Forget(a, id))
  {
    var i := Find(a.slots, EntryId, id);
    if i < |a.slots| { CachedSlot(a.w.c, a.slots, i, None); }
  }

  /** Mounting under a path adds devices for an id that the path may mean. */
  lemma MountKeepsDevs(w: World, req: MountReq, d: Devices, f: KernelFaults)
    requires WorldShaped(w) && TablesOk(w.c) && DevsOk(w.c) && TablesOk(MountOp(w, req, d, f).0.c)
    requires Candidate(w.c.rows, Basename(req.dev), req.allocId)
    ensures DevsOk(MountOp(w, req, d, f).0.c)
  {
    var c, c2 := w.c, MountOp(w, req, d, f).0.c;
    MountCases(w, req, d, f);
    if c2 != c {
      MountRows(c.logdevs, req, Pick(c.rows, RowId, RowPiece, req.allocId), d);
      HasSome(c.logdevs, LogdevDev, req.dev);
      OneMountAfter(c.logdevs, c2.logdevs, req);
      forall i | 0 <= i < |c2.logdevs| && c2.logdevs[i].Some?
        ensures Candidate(c2.rows, Basename(c2.logdevs[i].value.dev), c2.logdevs[i].value.allocId)
      {
        RestateCandidate(c, c2, Basename(c2.logdevs[i].value.dev), c2.logdevs[i].value.allocId, req.allocId, MOUNTED);
      }
    }
  }

  lemma RestateCandidate(c: Ctl, c2: Ctl, base: string, id: string, x: string, st: RowState)
    requires c2.rows == SetState(c.rows, x, st) && Uniform(c.rows) && Uniform(c2.rows)
    requires Candidate(c.rows, base, id)
    ensures Candidate(c2.rows, base, id)
  {
    SetStateFades(c.rows, x, st, id);
    var i := Find(c.rows, RowId, id);
    assert c2.rows[i] == WithState(c.rows[i], x, st);
    SlotHas(c2.rows, i, id);
    CandidateStays(c, c2, base, id);
  }

  lemma MountKeepsInv(a: Api, path: string, host: string, d: Devices, f: KernelFaults)
    requires ApiInv(a) && |path| < PATH_SIZE
    ensures ApiInv(ApiMount(a, path, host, d, f).0)
  {
    if path != [] && host != [] {
      ResolveIsCandidate(a, path);
      var (a1, found) := Resolve(a, path);
      ApiMountIs(a, path, host, d, f, a1, found);
      if found.Found? {
        MountOpKeepsInv(a1, MountReq(found.id, host, path), d, f);
      }
    }
  }

  lemma ApiMountIs(a: Api, path: string, host: string, d: Devices, f: KernelFaults, a1: Api, found: Answer)
    requires ApiShaped(a) && path != [] && host != [] && |path| < PATH_SIZE && Resolve(a, path) == (a1, found)
    ensures ApiMount(a, path, host, d, f).0 ==
      if found.Refusal? then a1
      else
        var (w, st) := MountOp(a1.w, MountReq(found.id, host, path), d, f);
        if st == OK then Register(a1.(w := w), found.id, []).0 else a1.(w := w)
  {}

  lemma MountOpKeepsInv(a: Api, req: MountReq, d: Devices, f: KernelFaults)
    requires ApiInv(a) && Candidate(a.w.c.rows, Basename(req.dev), req.allocId)
    ensures ApiInv(a.(w := MountOp(a.w, req, d, f).0))
    ensures ApiInv(Register(a.(w := MountOp(a.w, req, d, f).0), req.allocId, []).0)
  {
    MountedHas(a.w, req, d, f);
    MountAloneKeepsInv(a, req, d, f);
    RegisterKeepsInv(a.(w := MountOp(a.w, req, d, f).0), req.allocId, []);
  }

  lemma MountAloneKeepsInv(a: Api, req: MountReq, d: Devices, f: KernelFaults)
    requires ApiInv(a) && Candidate(a.w.c.rows, Basename(req.dev), req.allocId)
    ensures ApiInv(a.(w := MountOp(a.w, req, d, f).0))
  {
    var op := OpMount(req, d, f);
    MountCases(a.w, req, d, f);
    StepKeepsTables(a.w, op);
    MountKeepsDevs(a.w, req, d, f);
    StepKeepsCache(a, op);
  }

  lemma MountedHas(w: World, req: MountReq, d: Devices, f: KernelFaults)
    requires WorldShaped(w) && Has(w.c.rows, RowId, req.allocId)
    ensures Has(MountOp(w, req, d, f).0.c.rows, RowId, req.allocId)
  {
    MountCases(w, req, d, f);
    var i := Find(w.c.rows, RowId, req.allocId);
    assert SetState(w.c.rows, req.allocId, MOUNTED)[i] == WithState(w.c.rows[i], req.allocId, MOUNTED);
    SlotHas(SetState(w.c.rows, req.allocId, MOUNTED), i, req.allocId);
  }

  // ---- a refused allocation ----

  lemma RefusedKeepsRows(w: World, req: AllocReq, cap: Option<nat>, create: Faults, delete: Faults)
    requires WorldShaped(w) && Books(w.c) && RowsOk(w.c) && w.c.nextId < TWO64
    requires Alloc(w, req, cap, create, delete).1.status != OK
    ensures Alloc(w, req, cap, create, delete).0.c.rows == w.c.rows
  {
    SearchIsImmediate(w);
    AllocCases(w, req, cap, create, delete);
    if req.size > 0 && HostKey.Key(req.hosts).Some? {
      var a := Admit(w.c, req, HostKey.Key(req.hosts).value, cap);
      if a.Admitted? && Place(w, a.job, create, delete).1.status != OK {
        PlaceAllOrNothing(w, a.job, create, delete);
      }
    }
  }

  lemma GrantedId(w: World, req: AllocReq, cap: Option<nat>, create: Faults, delete: Faults)
    requires WorldShaped(w) && RowsOk(w.c) && w.c.nextId < TWO64 && Alloc(w, req, cap, create, delete).1.status == OK
    requires req.diskName == [] || !Has(w.c.rows, RowName, req.diskName)
    ensures Alloc(w, req, cap, create, delete).1.id == Numbered(ID_PREFIX, w.c.nextId)
    ensures !Has(w.c.rows, RowId, Numbered(ID_PREFIX, w.c.nextId))
  {
    SearchIsImmediate(w);
  }

  /** Releasing a fresh allocation at once gives the row table back. */
  lemma ReleaseUndoesGrant(w: World, req: AllocReq, cap: Option<nat>, create: Faults)
    requires WorldShaped(w) && Books(w.c) && RowsOk(w.c) && Agrees(w) && req.size <= U64_MAX
    requires w.c.nextId < TWO64 && Alloc(w, req, cap, create, map[]).0.m.nextNs < TWO64
    requires Alloc(w, req, cap, create, map[]).1.status == OK
    requires (req.diskName == [] || !Has(w.c.rows, RowName, req.diskName))
    requires !Has(w.c.logdevs, LogdevId, Alloc(w, req, cap, create, map[]).1.id)
    ensures var (w2, out) := Alloc(w, req, cap, create, map[]); Release(w2, out.id, map[]).0.c.rows == w.c.rows
  {
    var (w2, out) := Alloc(w, req, cap, create, map[]);
    var job, n := AllocExtends(w, req, cap, create, map[]);
    GrantedId(w, req, cap, create, map[]);
    AllocKeepsAgreement(w, req, cap, create);
    FreshRowsGo(w, w2, out.id, job, n);
  }

  lemma FreshRowsGo(w: World, w2: World, id: string, job: Job, n: nat)
    requires WorldShaped(w) && WorldShaped(w2) && Agrees(w2) && id == job.id && id != []
    requires Extended(w.c.rows, w2.c.rows, job, w.c.pool, n) && !Has(w.c.rows, RowId, id)
    requires !Has(w2.c.logdevs, LogdevId, id)
    ensures Release(w2, id, map[]).0.c.rows == w.c.rows
  {
    var w3 := Release(w2, id, map[]).0;
    ReleaseFromThins(w2, id, 0, false, map[]);
    HasSome(w3.c.rows, RowId, id);
    if Has(w2.c.rows, RowId, id) {
      ReleaseSucceeds(w2, id);
    } else {
      HasSome(w2.c.rows, RowId, id);
    }
    ThinnedBack(w.c.rows, w2.c.rows, w3.c.rows, job, w.c.pool, n);
  }

  /** Rows of one id put in and all taken out again. */
  lemma ThinnedBack(a: Rows, b: Rows, c: Rows, job: Job, pool: seq<Resource>, n: nat)
    requires Extended(a, b, job, pool, n) && Thinned(b, c, job.id)
    requires !Has(a, RowId, job.id) && forall i :: 0 <= i < |c| ==> !Carries(c[i], RowId, job.id)
    ensures c == a
  {
    HasSome(a, RowId, job.id);
    forall i | 0 <= i < |a| ensures c[i] == a[i] {
      assert !Carries(a[i], RowId, job.id) && !Carries(c[i], RowId, job.id);
    }
  }

  /** A refused ssu_api_allocate leaves the row table as it was, also when the grant
      succeeded and only the request cache had no slot left. */
  lemma RefusedAllocateLeavesRows(a: Api, req: ApiReq, e: Environment)
    requires ApiInv(a) && Agrees(a.w) && EnvFits(e) && e.delete == map[] && a.w.c.nextId < TWO32
    requires ResourceAlloc(a.w, ResourceReq(req), e).0.m.nextNs < TWO64
    requires ApiAllocate(a, req, e).1.Refusal?
    ensures ApiAllocate(a, req, e).0.w.c.rows == a.w.c.rows
  {
    if AllocateCheck(req) == OK && Refresh(a.w.c, e.discovery, e.health).1 == OK {
      var r, cap := ResourceReq(req), Some(MAX_ALLOCATIONS);
      var w1 := Step(a.w, OpRefresh(e.discovery, e.health));
      StepKeepsTables(a.w, OpRefresh(e.discovery, e.health));
      TwoPhaseIsOneCall(a.w, r, e);
      var (w2, out) := Alloc(w1, r, cap, e.create, e.delete);
      if out.status != OK {
        RefusedKeepsRows(w1, r, cap, e.create, e.delete);
      } else if r.diskName != [] && Has(w1.c.rows, RowName, r.diskName) {
        TakenNameChangesNothing(w1, r, cap, e.create, e.delete);
      } else {
        GrantedId(w1, r, cap, e.create, e.delete);
        NewIdHasNoDevice(w1.c, out.id);
        ReleaseUndoesGrant(w1, r, cap, e.create);
      }
    }
  }

  lemma NewIdHasNoDevice(c: Ctl, id: string)
    requires DevsOk(c) && !Has(c.rows, RowId, id)
    ensures !Has(c.logdevs, LogdevId, id)
  {
    HasSome(c.logdevs, LogdevId, id);
  }

  // ---- runs ----

  /** The conditions on a call: discovery is sane, paths fit 63 characters, and mounts
      go through the API. */
  predicate CallFits(op: ApiOp) {
    match op
    case Allocating(req, env) => EnvFits(env)
    case Mounting(path, _, _, _) => |path| < PATH_SIZE
    case Below(o) => BelowFits(o)
    case _ => true
  }

  lemma CallKeepsInv(a: Api, op: ApiOp)
    requires ApiInv(a) && CallFits(op) && ApiStep(a, op).w.c.nextId <= TWO32
    ensures ApiInv(ApiStep(a, op))
  {
    match op
    case Allocating(req, env) => AllocateKeepsInv(a, req, env);
    case Freeing(path, deletes) => FreeKeepsInv(a, path, deletes);
    case Mounting(path, host, d, f) => MountKeepsInv(a, path, host, d, f);
    case Asking(id) => if id != [] && Has(a.w.c.rows, RowId, id) { RegisterKeepsInv(a, id, []); }
    case Looking(path) => if path != [] { ResolveIsCandidate(a, path); }
    case Finishing =>
    case Below(o) => BelowKeepsInv(a, o);
  }

  lemma CallGrows(a: Api, op: ApiOp)
    requires ApiShaped(a) && Books(a.w.c) && CallFits(op)
    ensures Books(ApiStep(a, op).w.c) && a.w.c.nextId <= ApiStep(a, op).w.c.nextId
  {
    match op
    case Allocating(req, env) => AllocatingGrows(a, req, env);
    case Freeing(path, deletes) => FreeingGrows(a, path, deletes);
    case Mounting(path, host, d, f) => MountingGrows(a, path, host, d, f);
    case Asking(id) =>
    case Looking(path) =>
    case Finishing =>
    case Below(o) => StepGrows(a.w, o);
  }

  lemma FreeingGrows(a: Api, path: string, deletes: Faults)
    requires ApiShaped(a) && Books(a.w.c)
    ensures var w2 := ApiFree(a, path, deletes).0.w; Books(w2.c) && a.w.c.nextId <= w2.c.nextId
  {
    var found := Resolve(a, path).1;
    if found.Found? { StepGrows(a.w, OpRelease(found.id, deletes)); }
  }

  lemma MountingGrows(a: Api, path: string, host: string, d: Devices, f: KernelFaults)
    requires ApiShaped(a) && Books(a.w.c)
    ensures var w2 := ApiMount(a, path, host, d, f).0.w; Books(w2.c) && a.w.c.nextId <= w2.c.nextId
  {
    var found := Resolve(a, path).1;
    if found.Found? { StepGrows(a.w, OpMount(MountReq(found.id, host, Clip(path, PATH_SIZE)), d, f)); }
  }

  lemma AllocatingGrows(a: Api, req: ApiReq, env: Environment)
    requires ApiShaped(a) && Books(a.w.c) && EnvFits(env)
    ensures var w2 := ApiAllocate(a, req, env).0.w; Books(w2.c) && a.w.c.nextId <= w2.c.nextId
  {
    if AllocateCheck(req) == OK {
      var (w, out) := ResourceAlloc(a.w, ResourceReq(req), env);
      ResourceAllocGrows(a.w, ResourceReq(req), env);
      StepGrows(w, OpRelease(out.id, env.delete));
    }
  }

  lemma StepGrows(w: World, op: Op)
    requires WorldShaped(w) && Books(w.c) && StepFits(op)
    ensures Books(Step(w, op).c) && w.c.nextId <= Step(w, op).c.nextId
  {
    NextIdGrows(w, op);
    StepKeepsBooks(w, op);
  }

  predicate CallsFit(ops: seq<ApiOp>) { forall i :: 0 <= i < |ops| ==> CallFits(ops[i]) }

  lemma {:induction false} RunKeepsInv(a: Api, ops: seq<ApiOp>)
    requires ApiInv(a) && CallsFit(ops) && ApiRun(a, ops).w.c.nextId <= TWO32
    ensures ApiInv(ApiRun(a, ops))
  {
    if ops != [] {
      var front := ops[..|ops| - 1];
      RunGrows(a, front);
      CallGrows(ApiRun(a, front), ops[|ops| - 1]);
      RunKeepsInv(a, front);
      CallKeepsInv(ApiRun(a, front), ops[|ops| - 1]);
    }
  }

  lemma {:induction false} RunGrows(a: Api, ops: seq<ApiOp>)
    requires ApiShaped(a) && Books(a.w.c) && CallsFit(ops)
    ensures Books(ApiRun(a, ops).w.c) && a.w.c.nextId <= ApiRun(a, ops).w.c.nextId
  {
    if ops != [] {
      var front := ops[..|ops| - 1];
      RunGrows(a, front);
      CallGrows(ApiRun(a, front), ops[|ops| - 1]);
    }
  }

  const BootApi: Api := Api(Boot, EmptyTable(MAX_REQUESTS), 0)

  lemma ReachableInv(ops: seq<ApiOp>)
    requires CallsFit(ops) && ApiRun(BootApi, ops).w.c.nextId <= TWO32
    ensures ApiInv(ApiRun(BootApi, ops))
  {
    BootsApi();
    RunKeepsInv(BootApi, ops);
  }

  lemma BootsApi()
    ensures ApiInv(BootApi)
  {
    assert TablesOk(Boot.c) && DevsOk(Boot.c);
  }

  /** After any run of calls that fit and grants at most 2^32 ids, the resolver
      answers every path as the lookup of its last component does, unless a disk
      that reads ssuN misleads it. */
  lemma ResolverAgrees(ops: seq<ApiOp>, path: string)
    requires CallsFit(ops) && ApiRun(BootApi, ops).w.c.nextId <= TWO32 && path != []
    requires NoneMisled(ApiRun(BootApi, ops).w.c)
    ensures var a := ApiRun(BootApi, ops); Resolve(a, path).1 == Lookup(a.w.c.rows, Basename(path))
  {
    ReachableInv(ops);
    ResolveIsLookup(ApiRun(BootApi, ops), path);
  }

  /** And from there on it agrees with the lookup, whatever further calls do to the
      cache, if and only if nothing misleads it. */
  lemma ResolverAgreesIff(ops: seq<ApiOp>)
    requires CallsFit(ops) && ApiRun(BootApi, ops).w.c.nextId <= TWO32
    ensures AgreesFromHere(ApiRun(BootApi, ops)) <==> NoneMisled(ApiRun(BootApi, ops).w.c)
  {
    ReachableInv(ops);
    AgreesIff(ApiRun(BootApi, ops));
  }

  // ---- exactly when it agrees ----

  /** Calls that touch nothing but the request cache. */
  predicate CacheOnly(ops: seq<ApiOp>) {
    forall i :: 0 <= i < |ops| ==> ops[i].Finishing? || ops[i].Asking? || ops[i].Looking?
  }

  lemma {:induction false} CacheRunKeepsInv(a: Api, ops: seq<ApiOp>)
    requires ApiInv(a) && CacheOnly(ops)
    ensures ApiInv(ApiRun(a, ops)) && ApiRun(a, ops).w == a.w
  {
    if ops != [] {
      CacheRunKeepsInv(a, ops[..|ops| - 1]);
      CacheCallKeepsInv(ApiRun(a, ops[..|ops| - 1]), ops[|ops| - 1]);
    }
  }

  lemma CacheCallKeepsInv(a: Api, op: ApiOp)
    requires ApiInv(a) && (op.Finishing? || op.Asking? || op.Looking?)
    ensures ApiInv(ApiStep(a, op)) && ApiStep(a, op).w == a.w
  {
    CallKeepsInv(a, op);
  }

  /** The resolver and the lookup agree on every path, now and after any further
      calls that only use the cache. */
  ghost predicate AgreesFromHere(a: Api)
    requires ApiShaped(a)
  {
    forall more: seq<ApiOp>, path: string :: CacheOnly(more) && path != [] ==> AgreesAfter(a, more, path)
  }

  predicate AgreesAfter(a: Api, more: seq<ApiOp>, path: string)
    requires ApiShaped(a)
  {
    Resolve(ApiRun(a, more), path).1 == Lookup(a.w.c.rows, Basename(path))
  }

  /** A cleared cache and a result query for the owner of a clashing name are enough. */
  lemma ClashMisleads(a: Api, i: nat) returns (more: seq<ApiOp>, path: string)
    requires ApiInv(a) && i < |a.w.c.rows| && a.w.c.rows[i].Some?
    requires Clashes(a.w.c.rows, a.w.c.rows[i].value.diskName, a.w.c.rows[i].value.allocId)
    requires !Has(a.w.c.logdevs, LogdevDev, DEV_ROOT + a.w.c.rows[i].value.diskName)
    ensures CacheOnly(more) && path != [] && !AgreesAfter(a, more, path)
  {
    var id, name := a.w.c.rows[i].value.allocId, a.w.c.rows[i].value.diskName;
    path := DEV_ROOT + name;
    SlotHas(a.w.c.rows, i, id);
    NameOfRow(a.w.c.rows, id, i);
    more := AskedPathWins(a, id, path);
    NamedPath(name);
    ClashedLookup(a.w.c.rows, name, id);
    Disagrees(a, more, path, id);
  }

  lemma Disagrees(a: Api, more: seq<ApiOp>, path: string, id: string)
    requires ApiShaped(a) && Resolve(ApiRun(a, more), path).1 == Found(id)
    requires Lookup(a.w.c.rows, Basename(path)) != Found(id)
    ensures !AgreesAfter(a, more, path)
  {}

  /** After clearing the cache and asking for id, its path is answered with it, if no
      device is mounted there. */
  lemma AskedPathWins(a: Api, id: string, path: string) returns (more: seq<ApiOp>)
    requires ApiInv(a) && Has(a.w.c.rows, RowId, id) && |ID_PREFIX| <= |id| && path == PathOf(a.w.c.rows, id)
    requires !Has(a.w.c.logdevs, LogdevDev, path)
    ensures CacheOnly(more) && Resolve(ApiRun(a, more), path).1 == Found(id)
  {
    var cleared := Fini(a);
    more := [Finishing, Asking(id)];
    RegisteredFirst(cleared, id);
    CachedPathWins(Register(cleared, id, []).0, id, path);
    AskRun(a, id, cleared);
  }

  lemma ClashedLookup(rows: Rows, base: string, id: string)
    requires Clashes(rows, base, id)
    ensures Lookup(rows, base) != Found(id)
  {}

  /** Finishing and then asking for an active id. */
  lemma AskRun(a: Api, id: string, cleared: Api)
    requires ApiShaped(a) && id != [] && Has(a.w.c.rows, RowId, id) && cleared == Fini(a)
    ensures ApiRun(a, [Finishing, Asking(id)]) == Register(cleared, id, []).0
  {
    FinishRun(a);
    LastCall(a, [Finishing, Asking(id)], [Finishing], Asking(id));
    AskRegisters(cleared, id);
  }

  lemma AskRegisters(a: Api, id: string)
    requires ApiShaped(a) && id != [] && Has(a.w.c.rows, RowId, id)
    ensures ApiStep(a, Asking(id)) == Register(a, id, []).0
  {}

  lemma LastCall(a: Api, ops: seq<ApiOp>, front: seq<ApiOp>, last: ApiOp)
    requires ApiShaped(a) && ops != [] && front == ops[..|ops| - 1] && last == ops[|ops| - 1]
    ensures ApiRun(a, ops) == ApiStep(ApiRun(a, front), last)
  {}

  lemma FinishRun(a: Api)
    requires ApiShaped(a)
    ensures ApiRun(a, [Finishing]) == Fini(a)
  {
    LastCall(a, [Finishing], [], Finishing);
  }

  /** In an empty cache the path of id becomes the first entry. */
  lemma RegisteredFirst(a: Api, id: string)
    requires TablesOk(a.w.c) && Has(a.w.c.rows, RowId, id) && |a.slots| > 0 && forall i :: 0 <= i < |a.slots| ==>
      a.slots[i].None?
    ensures |ID_PREFIX| <= |id|
    ensures var b := Register(a, id, []).0;
      b.w == a.w && |b.slots| > 0 && b.slots[0] == Some(Entry(id, PathOf(a.w.c.rows, id)))
  {
    DefaultPathIs(a.w.c, id, FirstNamed(a.w.c.rows, id), a.next);
    assert Find(a.slots, EntryId, id) == |a.slots| && FirstFree(a.slots) == 0;
  }

  lemma CachedPathWins(a: Api, id: string, path: string)
    requires |a.slots| > 0 && a.slots[0] == Some(Entry(id, path)) && Has(a.w.c.rows, RowId, id)
    requires path != [] && !Has(a.w.c.logdevs, LogdevDev, path)
    ensures Resolve(a, path).1 == Found(id)
  {
    assert Carries(a.slots[0], EntryPath, path);
  }

  /** A device under the ssuN of another active allocation misleads by itself. */
  lemma MountedMisleads(a: Api, i: nat)
    requires ApiInv(a) && i < |a.w.c.logdevs| && a.w.c.logdevs[i].Some?
    requires Clashes(a.w.c.rows, Basename(a.w.c.logdevs[i].value.dev), a.w.c.logdevs[i].value.allocId)
    ensures a.w.c.logdevs[i].value.dev != [] && !AgreesAfter(a, [], a.w.c.logdevs[i].value.dev)
  {
    var dev := a.w.c.logdevs[i].value.dev;
    assert Carries(a.w.c.logdevs[i], LogdevDev, dev);
    HasSome(a.w.c.logdevs, LogdevDev, dev);
    assert ApiRun(a, []) == a;
  }

  /** The exact condition: the answers can be told from the tables alone if and only
      if nothing misleads. */
  lemma AgreesIff(a: Api)
    requires ApiInv(a)
    ensures AgreesFromHere(a) <==> NoneMisled(a.w.c)
  {
    var c := a.w.c;
    if NoneMisled(c) {
      forall more: seq<ApiOp>, path: string | CacheOnly(more) && path != [] ensures AgreesAfter(a, more, path) {
        CacheRunKeepsInv(a, more);
        ResolveIsLookup(ApiRun(a, more), path);
      }
    } else if i :| 0 <= i < |c.logdevs| && DevClashes(c, i) {
      MountedMisleads(a, i);
    } else {
      var i :| 0 <= i < |c.rows| && c.rows[i].Some?
        && Clashes(c.rows, c.rows[i].value.diskName, c.rows[i].value.allocId)
        && !Has(c.logdevs, LogdevDev, DEV_ROOT + c.rows[i].value.diskName);
      var more, path := ClashMisleads(a, i);
    }
  }

  /** In particular no clash at all is enough, and needed while nothing is mounted. */
  lemma NoClashAgrees(c: Ctl)
    requires DevsOk(c) && Uniform(c.rows)
    ensures NoClash(c.rows) ==> NoneMisled(c)
    ensures (forall i :: 0 <= i < |c.logdevs| ==> c.logdevs[i].None?) && NoneMisled(c) ==> NoClash(c.rows)
  {
    if NoClash(c.rows) {
      forall i | 0 <= i < |c.logdevs| && c.logdevs[i].Some?
        ensures !Clashes(c.rows, Basename(c.logdevs[i].value.dev), c.logdevs[i].value.allocId)
      {
        NoClashAt(c, Basename(c.logdevs[i].value.dev), c.logdevs[i].value.allocId);
      }
    }
  }

  /** The path a result query reports is one the resolver takes back to the request. */
  lemma ResultPathResolves(ops: seq<ApiOp>, id: string)
    requires CallsFit(ops) && ApiRun(BootApi, ops).w.c.nextId <= TWO32 && NoClash(ApiRun(BootApi, ops).w.c.rows)
    ensures var (a, st, path) := ApiResult(ApiRun(BootApi, ops), id);
      st == OK ==> path != [] && Resolve(a, path).1 == Found(id)
  {
    ReachableInv(ops);
    ResultResolves(ApiRun(BootApi, ops), id);
  }

  lemma ResultResolves(a: Api, id: string)
    requires ApiInv(a) && NoClash(a.w.c.rows)
    ensures var (b, st, path) := ApiResult(a, id);
      st == OK ==> path != [] && Resolve(b, path).1 == Found(id)
  {
    NoClashAgrees(a.w.c);
    if id != [] && Has(a.w.c.rows, RowId, id) {
      RegisterKeepsCache(a, id, []);
      PathLeadsBack(a.w.c, id);
      if Register(a, id, []).1.Some? {
        ResolveIsLookup(Register(a, id, []).0, Register(a, id, []).1.value);
      }
    }
  }
}
