/** The controller's tables as a value, and its five operations as steps of the
    whole stack: controller, mock plugin and kernel. */
module ControllerState {
  import opened Types
  import opened Tables
  import opened Decimal
  import opened KernelState
  import opened ReqShimIface
  import opened MockState
  import opened Placement
  import HostKey

  const MAX_RESOURCES: nat := 128
  const MAX_ALLOCATIONS: nat := 128
  const MAX_DEVICES: nat := 128
  const MAX_RELEASED: nat := 128
  const TENANT_SIZE: nat := 64

  datatype Reliability = STRIPE | EC | REPLICA
  datatype ShareType = EXCLUSIVE | SHARED
  datatype RowState = ACTIVE | MOUNTED

  /** One extent of an allocation. */
  datatype Row = Row(allocId: string, diskName: string, tenant: string, hostKey: string, share: ShareType,
    state: RowState, ssuId: string, nsId: string, off: nat, len: nat, phys: nat, role: nat)

  /** One extent of a mounted device. */
  datatype Logdev = Logdev(dev: string, hostId: string, allocId: string, off: nat, len: nat, physDev: string,
    nsId: string, phys: nat)

  /** nextId counts past 2^64; the controller keeps it modulo 2^64. */
  datatype Ctl = Ctl(pool: seq<Resource>, rows: seq<Option<Row>>, logdevs: seq<Option<Logdev>>, released: seq<string>,
    nextId: nat)

  datatype World = World(c: Ctl, m: Mock, k: Kernel)

  predicate CtlShaped(c: Ctl) {
    |c.pool| <= MAX_RESOURCES && |c.rows| == MAX_ALLOCATIONS && |c.logdevs| == MAX_DEVICES
      && |c.released| <= MAX_RELEASED
  }

  predicate WorldShaped(w: World) { CtlShaped(w.c) && MockShaped(w.m) && Shaped(w.k) }

  function RowId(r: Row): string { r.allocId }
  function RowName(r: Row): string { r.diskName }

  /** A row without its mount state. */
  function RowBare(r: Row): Row { r.(state := ACTIVE) }

  function RowPiece(r: Row): Piece { Piece(r.ssuId, r.nsId, r.off, r.len, r.phys) }
  function LogdevDev(l: Logdev): string { l.dev }
  function LogdevId(l: Logdev): string { l.allocId }
  function LogdevSpec(l: Logdev): MapSpec { MapSpec(l.physDev, l.nsId, l.off, l.len, l.phys) }

  function FindRes(pool: seq<Resource>, ssuId: string): (i: nat)
    ensures i <= |pool|
    ensures i < |pool| ==> pool[i].ssuId == ssuId
    ensures forall j :: 0 <= j < i ==> pool[j].ssuId != ssuId
  {
    if pool == [] || pool[0].ssuId == ssuId then 0 else 1 + FindRes(pool[1..], ssuId)
  }

  /** Gives len bytes back to an SSU, if it is known and holds that many. */
  function Refund(pool: seq<Resource>, ssuId: string, len: nat): (p: seq<Resource>)
    ensures |p| == |pool|
  {
    var i := FindRes(pool, ssuId);
    if i < |pool| && pool[i].used >= len then pool[i := pool[i].(used := pool[i].used - len)] else pool
  }

  /** Injected refusals of a plugin call, by the extent or slot it is made for. */
  type Faults = map<nat, Status>

  function Fault(f: Faults, i: nat): Status { if i in f then f[i] else OK }

  // ---- refresh ----

  function WithHealth(r: Resource, health: map<string, string>): Resource {
    r.(state := if r.ssuId in health then health[r.ssuId] else "OFFLINE")
  }

  /** A discovered SSU keeps the fill mark the pool has for it. */
  function Carry(pool: seq<Resource>, r: Resource, health: map<string, string>): Resource {
    var i := FindRes(pool, r.ssuId);
    WithHealth(if i < |pool| then r.(used := pool[i].used) else r, health)
  }

  function CarryAll(pool: seq<Resource>, found: seq<Resource>, health: map<string, string>): (p: seq<Resource>)
    ensures |p| == |found|
    ensures forall i :: 0 <= i < |p| ==> p[i] == Carry(pool, found[i], health)
  {
    if found == [] then []
    else CarryAll(pool, found[..|found| - 1], health) + [Carry(pool, found[|found| - 1], health)]
  }

  /** Appends the pool's SSUs from i on that next lacks. */
  function AppendMissing(next: seq<Resource>, pool: seq<Resource>, i: nat,
      health: map<string, string>): Option<seq<Resource>>
    requires i <= |pool|
    decreases |pool| - i
  {
    if i == |pool| then Some(next)
    else if FindRes(next, pool[i].ssuId) < |next| then AppendMissing(next, pool, i + 1, health)
    else if |next| >= MAX_RESOURCES then None
    else AppendMissing(next + [WithHealth(pool[i], health)], pool, i + 1, health)
  }

  datatype Discovery = Discovery(status: Status, found: seq<Resource>)

  function Refresh(c: Ctl, d: Discovery, health: map<string, string>): (Ctl, Status) {
    if d.status != OK then (c, d.status)
    else if |d.found| > MAX_RESOURCES then (c, INTERNAL)
    else
      var next := AppendMissing(CarryAll(c.pool, d.found, health), c.pool, 0, health);
      if next.None? then (c, INTERNAL) else (c.(pool := next.value), OK)
  }

  // ---- allocate ----

  datatype AllocReq = AllocReq(size: nat, diskName: string, diskCount: nat, reliability: Reliability,
    share: ShareType, tenant: string, hosts: seq<string>)

  datatype Extent = Extent(ssuId: string, hostId: string, nsId: string, off: nat, len: nat)

  /** The call's outcome; count is what the caller's counter is set to. */
  datatype AllocOut = AllocOut(status: Status, id: string, extents: seq<Extent>, count: nat)

  function Refuse(st: Status): AllocOut { AllocOut(st, "", [], 0) }

  predicate NameValid(name: string) { name != [] && |name| <= MAX_DISK_NAME && DiskNameChars(name) }

  /** Ids that are active or remembered. */
  function IdsIn(rows: seq<Option<Row>>, released: seq<string>): set<string> {
    (set i | 0 <= i < |rows| && rows[i].Some? :: rows[i].value.allocId) + (set x | x in released)
  }

  function UsedIds(c: Ctl): set<string> { IdsIn(c.rows, c.released) }

  /** The id search: it counts up past ids that are active or remembered. */
  function NextId(used: set<string>, k: nat): (r: nat)
    ensures r >= k
    decreases |used|
  {
    var id := Numbered(ID_PREFIX, k);
    if id !in used then k else NextId(used - {id}, k + 1)
  }

  function SumLen(ps: seq<Row>): nat {
    if ps == [] then 0 else SumLen(ps[..|ps| - 1]) + ps[|ps| - 1].len
  }

  function HostOf(pool: seq<Resource>, ssuId: string): string {
    var i := FindRes(pool, ssuId);
    if i < |pool| then pool[i].hostId else ""
  }

  function ExtentsOf(rows: seq<Row>, pool: seq<Resource>): (es: seq<Extent>)
    ensures |es| == |rows|
  {
    if rows == [] then []
    else
      var r := rows[|rows| - 1];
      ExtentsOf(rows[..|rows| - 1], pool) + [Extent(r.ssuId, HostOf(pool, r.ssuId), r.nsId, r.off, r.len)]
  }

  /** The same request was granted before: same size, disks, sharing, tenant, hosts. */
  predicate SameGrant(rows: seq<Row>, req: AllocReq, key: string)
    requires rows != []
  {
    && SumLen(rows) % TWO64 == req.size
    && (req.diskCount > 0 ==> req.diskCount == |rows|)
    && rows[0].share == req.share
    && rows[0].tenant == req.tenant
    && rows[0].hostKey == key
  }

  function CopyExisting(c: Ctl, req: AllocReq, key: string, cap: Option<nat>): AllocOut
    requires Has(c.rows, RowName, req.diskName)
  {
    var rows := Pick(c.rows, RowName, RowBare, req.diskName);
    PickNone(c.rows, RowName, RowBare, req.diskName);
    if !SameGrant(rows, req, key) then Refuse(NS_EXISTS)
    else if cap.None? || cap.value < |rows| then AllocOut(BUFFER_TOO_SMALL, "", [], |rows|)
    else AllocOut(OK, rows[0].allocId, ExtentsOf(rows, c.pool), |rows|)
  }

  /** What the placement loop works with. */
  datatype Job = Job(id: string, req: AllocReq, key: string, sel: seq<nat>, base: nat, rem: nat)

  function JobLen(job: Job, i: nat): nat { ExtentLen(job.base, job.rem, i) }

  function RequestFor(pool: seq<Resource>, job: Job, i: nat, off: nat): ExtentReq
    requires i < |job.sel| && job.sel[i] < |pool|
  {
    var r := pool[job.sel[i]];
    ExtentReq(job.id, r.ssuId, off, JobLen(job, i), r.used / SECTOR)
  }

  function NewRow(job: Job, x: ExtentReq, nsId: string, i: nat): Row {
    Row(job.id, job.req.diskName, Clip(job.req.tenant, TENANT_SIZE), job.key, job.req.share, ACTIVE,
        x.ssuId, nsId, x.off, x.len, x.hint, i)
  }

  /** Extent i is created: a row, a namespace and a higher fill mark. */
  function PlaceOne(w: World, job: Job, i: nat, off: nat): (r: World)
    requires i < |job.sel| && job.sel[i] < |w.c.pool| && FirstFree(w.c.rows) < |w.c.rows|
    ensures WorldShaped(w) ==> WorldShaped(r)
    ensures |r.c.pool| == |w.c.pool|
  {
    var x := RequestFor(w.c.pool, job, i, off);
    var p := job.sel[i];
    w.(m := CreateNs(w.m, x).0,
       c := w.c.(rows := Put(w.c.rows, NewRow(job, x, Numbered(NS_PREFIX, w.m.nextNs), i)),
                 pool := w.c.pool[p := w.c.pool[p].(used := w.c.pool[p].used + x.len)]))
  }

  /** Whether the plugin creates extent i. */
  function CreateStatus(w: World, job: Job, i: nat, off: nat, create: Faults): Status
    requires i < |job.sel| && job.sel[i] < |w.c.pool|
  {
    if Fault(create, i) != OK then Fault(create, i) else CreateNs(w.m, RequestFor(w.c.pool, job, i, off)).1
  }

  function NewExtent(pool: seq<Resource>, job: Job, i: nat, off: nat, nsId: string): Extent
    requires i < |job.sel| && job.sel[i] < |pool|
  {
    Extent(pool[job.sel[i]].ssuId, pool[job.sel[i]].hostId, nsId, off, JobLen(job, i))
  }

  /** The placement loop's variables: extents 0..i are placed, in these slots. */
  datatype Placing = Placing(w: World, i: nat, off: nat, slots: seq<nat>, extents: seq<Extent>)

  predicate CanPlace(s: Placing, job: Job) {
    && s.i <= |job.sel|
    && (forall j :: 0 <= j < |job.sel| ==> job.sel[j] < |s.w.c.pool|)
    && FreeCount(s.w.c.rows) >= |job.sel| - s.i
  }

  function Start(w: World): Placing { Placing(w, 0, 0, [], []) }

  /** One round that succeeds. */
  function Advance(s: Placing, job: Job): (r: Placing)
    requires CanPlace(s, job) && s.i < |job.sel|
    ensures CanPlace(r, job) && r.i == s.i + 1
    ensures FirstFree(s.w.c.rows) < |s.w.c.rows| && r.w == PlaceOne(s.w, job, s.i, s.off)
    ensures WorldShaped(s.w) ==> WorldShaped(r.w)
    ensures r.w.m.nextNs >= s.w.m.nextNs
  {
    FreeCountPositive(s.w.c.rows);
    var x := RequestFor(s.w.c.pool, job, s.i, s.off);
    var nsId := Numbered(NS_PREFIX, s.w.m.nextNs);
    FreeCountUpdate(s.w.c.rows, FirstFree(s.w.c.rows), Some(NewRow(job, x, nsId, s.i)));
    Placing(PlaceOne(s.w, job, s.i, s.off), s.i + 1, s.off + JobLen(job, s.i),
      s.slots + [FirstFree(s.w.c.rows)], s.extents + [NewExtent(s.w.c.pool, job, s.i, s.off, nsId)])
  }

  /** Whether the plugin creates the next extent. */
  function NextStatus(s: Placing, job: Job, create: Faults): Status
    requires CanPlace(s, job) && s.i < |job.sel|
  {
    CreateStatus(s.w, job, s.i, s.off, create)
  }

  /** The placement loop: where it ends, and with which status. */
  function PlaceFrom(s: Placing, job: Job, create: Faults): (r: (Placing, Status))
    requires CanPlace(s, job)
    ensures WorldShaped(s.w) ==> WorldShaped(r.0.w)
    ensures r.0.w.m.nextNs >= s.w.m.nextNs
    decreases |job.sel| - s.i
  {
    if s.i == |job.sel| then (s, OK)
    else if NextStatus(s, job, create) != OK then (s, NextStatus(s, job, create))
    else PlaceFrom(Advance(s, job), job, create)
  }

  /** Compensation for the row in one slot; a refused delete is ignored. */
  function UndoOne(w: World, slot: nat, fault: Status): (r: World)
    ensures WorldShaped(w) ==> WorldShaped(r)
    ensures r.m.nextNs == w.m.nextNs
  {
    if slot >= |w.c.rows| || w.c.rows[slot].None? then w
    else
      var row := w.c.rows[slot].value;
      w.(m := if fault != OK then w.m else DeleteNs(w.m, row.ssuId, row.nsId).0,
         c := w.c.(rows := w.c.rows[slot := None], pool := Refund(w.c.pool, row.ssuId, row.len)))
  }

  /** The rollback: the last filled slot first. */
  function Undo(w: World, slots: seq<nat>, delete: Faults): (r: World)
    ensures WorldShaped(w) ==> WorldShaped(r)
    ensures r.m.nextNs == w.m.nextNs
    decreases |slots|
  {
    if slots == [] then w
    else Undo(UndoOne(w, slots[|slots| - 1], Fault(delete, |slots| - 1)), slots[..|slots| - 1], delete)
  }

  /** How many extents a request is cut into. */
  function ExtentCount(req: AllocReq, online: nat): nat {
    var n := if req.diskCount > 0 then req.diskCount else online;
    if n > req.size then req.size else n
  }

  function Place(w: World, job: Job, create: Faults, delete: Faults): (r: (World, AllocOut))
    requires CanPlace(Start(w), job)
    ensures WorldShaped(w) ==> WorldShaped(r.0)
  {
    var (p, st) := PlaceFrom(Start(w), job, create);
    if st != OK then (Undo(p.w, p.slots, delete), Refuse(st))
    else (p.w.(c := p.w.c.(nextId := p.w.c.nextId + 1)), AllocOut(OK, job.id, p.extents, |job.sel|))
  }

  /** A request passes all checks up to the placement loop, or is refused. */
  datatype Admission = Refused(out: AllocOut) | Admitted(job: Job)

  /** The chosen SSUs are distinct and each has room for its extent. */
  predicate JobOk(pool: seq<Resource>, job: Job) {
    && 0 < |job.sel| <= job.req.size
    && job.base == job.req.size / |job.sel| && job.rem == job.req.size % |job.sel|
    && Distinct(job.sel)
    && forall i :: 0 <= i < |job.sel| ==> job.sel[i] < |pool| && Room(pool[job.sel[i]], JobLen(job, i))
  }

  /** The last two checks: a free row and an SSU for each of the n extents. */
  function AdmitExtents(c: Ctl, req: AllocReq, key: string, online: seq<nat>, n: nat): (a: Admission)
    requires 0 < n <= req.size && online == OnlineIndexes(c.pool)
    ensures a.Admitted? ==> JobOk(c.pool, a.job) && FreeCount(c.rows) >= |a.job.sel| == n
    ensures a.Admitted? ==> a.job.id == Numbered(ID_PREFIX, c.nextId) && a.job.req == req && a.job.key == key
    ensures a.Refused? ==> a.out.status != OK && a.out.status != BUFFER_TOO_SMALL
  {
    if FreeCount(c.rows) < n then Refused(Refuse(NO_RESOURCE))
    else
      var sel := Select(c.pool, online, req.size / n, req.size % n, n);
      if sel.None? then Refused(Refuse(NO_RESOURCE))
      else
        SelectIsAssignment(c.pool, online, req.size / n, req.size % n, n);
        Admitted(Job(Numbered(ID_PREFIX, c.nextId), req, key, sel.value, req.size / n, req.size % n))
  }

  function Admit(c: Ctl, req: AllocReq, key: string, cap: Option<nat>): (a: Admission)
    requires req.size > 0
    ensures a.Admitted? ==> JobOk(c.pool, a.job) && FreeCount(c.rows) >= |a.job.sel|
    ensures a.Admitted? ==> |a.job.sel| == ExtentCount(req, |OnlineIndexes(c.pool)|)
    ensures a.Admitted? ==> a.job.id == Numbered(ID_PREFIX, c.nextId) && a.job.req == req && a.job.key == key
    ensures a.Refused? ==> a.out.status != OK
  {
    var online := OnlineIndexes(c.pool);
    if online == [] || req.diskCount > |online| then Refused(Refuse(NO_RESOURCE))
    else
      var n := ExtentCount(req, |online|);
      if cap.None? || cap.value < n then Refused(AllocOut(BUFFER_TOO_SMALL, "", [], n))
      else AdmitExtents(c, req, key, online, n)
  }

  /** The world after the id search. */
  function Searched(w: World): (r: World)
    ensures WorldShaped(w) ==> WorldShaped(r)
  {
    w.(c := w.c.(nextId := NextId(UsedIds(w.c), w.c.nextId)))
  }

  function Alloc(w: World, req: AllocReq, cap: Option<nat>, create: Faults, delete: Faults): (r: (World, AllocOut))
    requires WorldShaped(w)
    ensures WorldShaped(r.0)
  {
    if req.reliability != STRIPE then (w, Refuse(UNSUPPORTED))
    else if req.size == 0 || HostKey.Key(req.hosts).None? || (req.diskName != [] && !NameValid(req.diskName)) then
      (w, Refuse(INVALID))
    else
      var key := HostKey.Key(req.hosts).value;
      if req.diskName != [] && Has(w.c.rows, RowName, req.diskName) then (w, CopyExisting(w.c, req, key, cap))
      else
        var w1 := Searched(w);
        match Admit(w1.c, req, key, cap)
        case Refused(out) => (w1, out)
        case Admitted(job) => Place(w1, job, create, delete)
  }

  /** What an allocation can do to the tables. */
  lemma AllocCases(w: World, req: AllocReq, cap: Option<nat>, create: Faults, delete: Faults)
    requires WorldShaped(w)
    ensures var (w2, out) := Alloc(w, req, cap, create, delete);
      || w2 == w
      || (w2 == Searched(w) && out.status != OK)
      || (&& req.size > 0 && HostKey.Key(req.hosts).Some?
        && (req.diskName != [] ==> NameValid(req.diskName) && !Has(w.c.rows, RowName, req.diskName))
          && var a := Admit(Searched(w).c, req, HostKey.Key(req.hosts).value, cap);
             a.Admitted? && (w2, out) == Place(Searched(w), a.job, create, delete))
  {}

  // ---- release ----

  /** The release loop from slot i on: it stops at the first refused delete. */
  function ReleaseFrom(w: World, id: string, i: nat, found: bool, delete: Faults): (r: (World, Status, bool))
    requires i <= |w.c.rows|
    ensures WorldShaped(w) ==> WorldShaped(r.0)
    decreases |w.c.rows| - i
  {
    if i == |w.c.rows| then (w, OK, found)
    else if !Carries(w.c.rows[i], RowId, id) then ReleaseFrom(w, id, i + 1, found, delete)
    else
      var row := w.c.rows[i].value;
      var st := if Fault(delete, i) != OK then Fault(delete, i) else DeleteNs(w.m, row.ssuId, row.nsId).1;
      if st != OK then (w, st, found) else ReleaseFrom(UndoOne(w, i, OK), id, i + 1, true, delete)
  }

  function Remember(released: seq<string>, id: string): seq<string> {
    if id in released || |released| >= MAX_RELEASED then released else released + [id]
  }

  function Release(w: World, id: string, delete: Faults): (r: (World, Status))
    requires WorldShaped(w)
    ensures WorldShaped(r.0)
  {
    if id == [] then (w, INVALID)
    else if Has(w.c.logdevs, LogdevId, id) then (w, BUSY)
    else
      var (w2, st, found) := ReleaseFrom(w, id, 0, false, delete);
      if st != OK then (w2, st)
      else if found then (w2.(c := w2.c.(released := Remember(w2.c.released, id))), OK)
      else (w2, if id in w2.c.released then OK else NOT_FOUND)
  }

  // ---- mount and unmount ----

  datatype MountReq = MountReq(allocId: string, hostId: string, dev: string)

  function WithState(r: Option<Row>, id: string, st: RowState): Option<Row> {
    if Carries(r, RowId, id) then Some(r.value.(state := st)) else r
  }

  function SetState(rows: seq<Option<Row>>, id: string, st: RowState): (r: seq<Option<Row>>)
    ensures |r| == |rows|
    ensures forall i :: 0 <= i < |rows| ==> r[i] == WithState(rows[i], id, st)
  {
    if rows == [] then []
    else SetState(rows[..|rows| - 1], id, st) + [WithState(rows[|rows| - 1], id, st)]
  }

  function NewLogdev(req: MountReq, p: Piece, d: Devices): Logdev
    requires p.ssuId in d.names
  {
    Logdev(req.dev, req.hostId, req.allocId, p.off, p.len, d.names[p.ssuId], p.nsId, p.phys)
  }

  function NewLogdevs(req: MountReq, pieces: seq<Piece>, d: Devices): (ls: seq<Logdev>)
    requires AllConnect(pieces, d)
    ensures |ls| == |pieces|
    ensures forall i :: 0 <= i < |ls| ==> ls[i] == NewLogdev(req, pieces[i], d)
  {
    if pieces == [] then []
    else NewLogdevs(req, pieces[..|pieces| - 1], d) + [NewLogdev(req, pieces[|pieces| - 1], d)]
  }

  /** The checks of a mount before anything changes. */
  function MountCheck(c: Ctl, req: MountReq, d: Devices): Status {
    var pieces := Pick(c.rows, RowId, RowPiece, req.allocId);
    PickNone(c.rows, RowId, RowPiece, req.allocId);
    if req.allocId == [] || req.hostId == [] || req.dev == [] then INVALID
    else if pieces == [] then NOT_FOUND
    else if Has(c.logdevs, LogdevDev, req.dev) then BUSY
    else if c.rows[Find(c.rows, RowId, req.allocId)].value.share != SHARED
      && Has(c.logdevs, LogdevId, req.allocId) then BUSY
    else if FreeCount(c.logdevs) < |pieces| then NO_RESOURCE
    else if !AllConnect(pieces, d) then d.err
    else OK
  }

  function MountOp(w: World, req: MountReq, d: Devices, f: KernelFaults): (r: (World, Status))
    requires WorldShaped(w)
    ensures WorldShaped(r.0)
  {
    if MountCheck(w.c, req, d) != OK then (w, MountCheck(w.c, req, d))
    else
      var pieces := Pick(w.c.rows, RowId, RowPiece, req.allocId);
      var (m, k, st) := MountNs(w.m, w.k, MountRow(req.allocId, req.hostId, req.dev), d, f);
      if st != OK then (w.(m := m, k := k), st)
      else
        (World(w.c.(logdevs := PutAll(w.c.logdevs, NewLogdevs(req, pieces, d)),
                    rows := SetState(w.c.rows, req.allocId, MOUNTED)), m, k), OK)
  }

  function UnmountOp(w: World, dev: string, d: Devices, f: KernelFaults): (r: (World, Status))
    requires WorldShaped(w)
    ensures WorldShaped(r.0)
  {
    if dev == [] then (w, INVALID)
    else
      var i := Find(w.c.logdevs, LogdevDev, dev);
      var (m, k, st) := UnmountNs(w.m, w.k, dev, d, f);
      if st != OK || i == |w.c.logdevs| then (w.(m := m, k := k), st)
      else
        var id := w.c.logdevs[i].value.allocId;
        var logdevs := Drop(w.c.logdevs, LogdevDev, dev);
        var state := if Has(logdevs, LogdevId, id) then MOUNTED else ACTIVE;
        (World(w.c.(logdevs := logdevs, rows := SetState(w.c.rows, id, state)), m, k), OK)
  }

  // ---- runs ----

  datatype Op =
    | OpRefresh(discovery: Discovery, health: map<string, string>)
    | OpAlloc(req: AllocReq, cap: Option<nat>, create: Faults, delete: Faults)
    | OpRelease(id: string, deletes: Faults)
    | OpMount(mount: MountReq, devices: Devices, faults: KernelFaults)
    | OpUnmount(dev: string, devices: Devices, faults: KernelFaults)

  lemma MountCases(w: World, req: MountReq, d: Devices, f: KernelFaults)
    requires WorldShaped(w)
    ensures var (w2, st) := MountOp(w, req, d, f);
      || w2 == w
      || (&& Has(w.c.rows, RowId, req.allocId)
          && var pieces := Pick(w.c.rows, RowId, RowPiece, req.allocId);
             && pieces != [] && !Has(w.c.logdevs, LogdevDev, req.dev)
             && (w.c.rows[Find(w.c.rows, RowId, req.allocId)].value.share == SHARED
               || !Has(w.c.logdevs, LogdevId, req.allocId))
             && FreeCount(w.c.logdevs) >= |pieces| && AllConnect(pieces, d)
             && var (m, k, st2) := MountNs(w.m, w.k, MountRow(req.allocId, req.hostId, req.dev), d, f);
                st == st2 && w2.m == m && w2.k == k &&
                w2.c == if st == OK then w.c.(logdevs := PutAll(w.c.logdevs, NewLogdevs(req, pieces, d)),
                  rows := SetState(w.c.rows, req.allocId, MOUNTED))
                        else w.c)
  {
    PickNone(w.c.rows, RowId, RowPiece, req.allocId);
  }

  lemma UnmountCases(w: World, dev: string, d: Devices, f: KernelFaults)
    requires WorldShaped(w)
    ensures var (w2, st) := UnmountOp(w, dev, d, f);
      || w2 == w
      || (var (m, k, st2) := UnmountNs(w.m, w.k, dev, d, f);
          && st == st2 && w2.m == m && w2.k == k
          && (st != OK || !Has(w.c.logdevs, LogdevDev, dev) ==> w2.c == w.c)
          && (st == OK && Has(w.c.logdevs, LogdevDev, dev) ==>
                var id := w.c.logdevs[Find(w.c.logdevs, LogdevDev, dev)].value.allocId;
                var logdevs := Drop(w.c.logdevs, LogdevDev, dev);
                w2.c == w.c.(logdevs := logdevs,
                  rows := SetState(w.c.rows, id, if Has(logdevs, LogdevId, id) then MOUNTED else ACTIVE))))
  {}

  function Step(w: World, op: Op): (r: World)
    requires WorldShaped(w)
    ensures WorldShaped(r)
  {
    match op
    case OpRefresh(d, h) => RefreshShaped(w.c, d, h); w.(c := Refresh(w.c, d, h).0)
    case OpAlloc(req, cap, create, delete) => Alloc(w, req, cap, create, delete).0
    case OpRelease(id, deletes) => Release(w, id, deletes).0
    case OpMount(req, d, f) => MountOp(w, req, d, f).0
    case OpUnmount(dev, d, f) => UnmountOp(w, dev, d, f).0
  }

  function Run(w: World, ops: seq<Op>): (r: World)
    requires WorldShaped(w)
    ensures WorldShaped(r)
  {
    if ops == [] then w else Step(Run(w, ops[..|ops| - 1]), ops[|ops| - 1])
  }

  lemma {:induction false} AppendMissingShort(next: seq<Resource>, pool: seq<Resource>, i: nat,
      health: map<string, string>)
    requires i <= |pool| && |next| <= MAX_RESOURCES
    ensures var r := AppendMissing(next, pool, i, health); r.Some? ==> |r.value| <= MAX_RESOURCES
    decreases |pool| - i
  {
    if i < |pool| {
      if FindRes(next, pool[i].ssuId) < |next| {
        AppendMissingShort(next, pool, i + 1, health);
      } else if |next| < MAX_RESOURCES {
        AppendMissingShort(next + [WithHealth(pool[i], health)], pool, i + 1, health);
      }
    }
  }

  lemma RefreshShaped(c: Ctl, d: Discovery, health: map<string, string>)
    requires CtlShaped(c)
    ensures CtlShaped(Refresh(c, d, health).0)
  {
    if |d.found| <= MAX_RESOURCES {
      AppendMissingShort(CarryAll(c.pool, d.found, health), c.pool, 0, health);
    }
  }

  function EmptyTable<T>(n: nat): (t: seq<Option<T>>)
    ensures |t| == n && forall i :: 0 <= i < n ==> t[i].None?
  {
    seq(n, _ => None)
  }

  /** All tables empty, all counters zero. */
  const Boot: World := World(
    Ctl([], EmptyTable(MAX_ALLOCATIONS), EmptyTable(MAX_DEVICES), [], 0),
    Mock(EmptyTable(MAX_NAMESPACES), EmptyTable(MAX_MOUNTS), 0),
    Kernel(EmptyTable(MAX_LOGDEVS), EmptyTable(MAX_MAPS)))
}
