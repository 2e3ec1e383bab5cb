/** When a mount succeeds, and how many devices an allocation can have. */
module Mounting {
  import opened Types
  import opened Tables
  import opened Decimal
  import opened KernelState
  import opened ReqShimIface
  import opened MockState
  import opened ControllerState
  import opened Ledger
  import opened Rollback
  import opened Grants
  import opened MountMirror
  import opened Agreement
  import opened Stripe
  import opened EndToEnd
  import HostKey

  // ---- the kernel's mapping table never fills ----

  /** Device row j holds the extent that map slot x maps. */
  predicate SlotRow(logdevs: Logdevs, maps: Maps, x: nat, j: nat) {
    && x < |maps| && maps[x].Some? && j < |logdevs| && logdevs[j].Some?
    && IsMinor(logdevs[j].value, maps[x].value.minor)
    && SpecOk(LogdevSpec(logdevs[j].value), maps[x].value.minor)
    && maps[x].value == EntryOf(LogdevSpec(logdevs[j].value), maps[x].value.minor)
  }

  lemma SlotHasRow(logdevs: Logdevs, k: Kernel, x: nat) returns (j: nat)
    requires Wired(logdevs, k) && OneMountPerDevice(logdevs) && x < |k.maps| && k.maps[x].Some?
    ensures SlotRow(logdevs, k.maps, x, j)
  {
    var minor := k.maps[x].value.minor;
    assert SomeMinor(logdevs, minor);
    var i :| 0 <= i < |logdevs| && logdevs[i].Some? && IsMinor(logdevs[i].value, minor);
    var l := logdevs[i].value;
    assert WiredDev(logdevs, k, l);
    var specs := DevSpecs(logdevs, l.dev);
    var n := SlotIsSpec(k, specs, minor, x);
    j := PickFrom(logdevs, LogdevDev, LogdevSpec, l.dev, specs[n]);
  }

  /** A device row belongs to one map slot only. */
  lemma RowHasOneSlot(logdevs: Logdevs, k: Kernel, x: nat, y: nat, j: nat)
    requires KernelInv(k) && SlotRow(logdevs, k.maps, x, j) && SlotRow(logdevs, k.maps, y, j)
    ensures x == y
  {
    assert k.maps[x].value == k.maps[y].value;
  }

  /** Occupied map slots are at most occupied device rows. */
  lemma MapsWithinRows(logdevs: Logdevs, k: Kernel)
    requires Wired(logdevs, k) && OneMountPerDevice(logdevs)
    ensures |k.maps| - FreeCount(k.maps) <= |logdevs| - FreeCount(logdevs)
  {
    var a, b := UsedSlots(k.maps), UsedSlots(logdevs);
    forall x | x in a ensures exists j: nat :: SlotRow(logdevs, k.maps, x, j) {
      var j := SlotHasRow(logdevs, k, x);
    }
    var f := RowOfSlot(logdevs, k.maps, a);
    forall x, y | x in a && y in a && x != y ensures f[x] != f[y] {
      if f[x] == f[y] { RowHasOneSlot(logdevs, k, x, y, f[x]); }
    }
    InjectedCard(a, b, f);
    UsedCount(k.maps);
    UsedCount(logdevs);
  }

  lemma RowOfSlot(logdevs: Logdevs, maps: Maps, a: set<nat>) returns (f: map<nat, nat>)
    requires forall x :: x in a ==> exists j: nat :: SlotRow(logdevs, maps, x, j)
    ensures forall x :: x in a ==> x in f && SlotRow(logdevs, maps, x, f[x])
  {
    f := map[];
    var left := a;
    while left != {}
      invariant left <= a && forall x :: x in a && x !in left ==> x in f && SlotRow(logdevs, maps, x, f[x])
    {
      var x :| x in left;
      var j: nat :| SlotRow(logdevs, maps, x, j);
      f, left := f[x := j], left - {x};
    }
  }

  // ---- MAP_ADD meets neither a full table nor a used start ----

  predicate FreshStarts(maps: Maps, es: seq<MapEntry>, i: nat) {
    forall n :: i <= n < |es| ==> KeySlot(maps, es[n].minor, es[n].sector) == |maps|
  }

  predicate DistinctStarts(es: seq<MapEntry>) {
    forall m, n :: 0 <= m < n < |es| ==> es[m].sector != es[n].sector
  }

  lemma {:induction false} AddsSucceed(k: Kernel, es: seq<MapEntry>, i: nat, minor: nat)
    requires i <= |es| && OfMinor(es, minor) && Live(k, minor) && DistinctStarts(es) && FreshStarts(k.maps, es, i)
    requires forall n :: 0 <= n < |es| ==> es[n].length > 0 && es[n].dev != []
    requires FreeCount(k.maps) >= |es| - i
    ensures AddFrom(k, es, i, None).1 == EOK
    decreases |es| - i
  {
    if i < |es| {
      FreeCountPositive(k.maps);
      FreeCountUpdate(k.maps, FirstFree(k.maps), Some(es[i]));
      StartsStayFresh(k.maps, es, i);
      AddsSucceed(AddMap(k, es[i]).0, es, i + 1, minor);
    }
  }

  lemma StartsStayFresh(maps: Maps, es: seq<MapEntry>, i: nat)
    requires i < |es| && DistinctStarts(es) && FreshStarts(maps, es, i) && FirstFree(maps) < |maps|
    ensures FreshStarts(Put(maps, es[i]), es, i + 1)
  {
    forall n | i + 1 <= n < |es| ensures KeySlot(Put(maps, es[i]), es[n].minor, es[n].sector) == |maps| {
      assert KeySlot(maps, es[n].minor, es[n].sector) == |maps|;
      assert es[i].sector != es[n].sector;
    }
  }

  /** A minor that is not live has no mapping, so every start is fresh. */
  lemma DeadStartsFresh(k: Kernel, es: seq<MapEntry>, minor: nat)
    requires KernelInv(k) && !Live(k, minor) && OfMinor(es, minor)
    ensures FreshStarts(k.maps, es, 0)
  {}

  lemma StripeStarts(specs: seq<MapSpec>, size: nat, minor: nat)
    requires StripeSpecs(specs, size) && SpecsOk(specs, minor)
    ensures DistinctStarts(EntriesFor(specs, minor))
  {
    var es := EntriesFor(specs, minor);
    forall m, n | 0 <= m < n < |es| ensures es[m].sector != es[n].sector {
      OffsetsRise(specs, size, m, n);
      EntryStart(specs[m], minor);
      EntryStart(specs[n], minor);
    }
  }

  lemma OffsetsRise(specs: seq<MapSpec>, size: nat, m: nat, n: nat)
    requires StripeSpecs(specs, size) && m < n < |specs|
    ensures specs[m].off < specs[n].off
  {
    Monotone(size, |specs|, m, n);
  }

  lemma EntryStart(spec: MapSpec, minor: nat)
    requires SpecOk(spec, minor)
    ensures EntryOf(spec, minor).sector * SECTOR == spec.off
  {}

  /** Nothing is injected. */
  predicate NoFault(f: KernelFaults) { f.ctl == CTL_PRESENT && f.create == EOK && f.addFault == None }

  /** The kernel mounts a buildable stripe exactly on a minor below 256 that is not
      live, under a name of the permitted characters. */
  lemma KernelMounts(k: Kernel, dev: string, minor: nat, specs: seq<MapSpec>, size: nat, f: KernelFaults)
    requires KernelInv(k) && StripeSpecs(specs, size) && NoFault(f) && FreeCount(k.maps) >= |specs|
    ensures Mount(k, dev, minor, specs, f).1 == OK <==>
      Buildable(specs, minor) && DiskNameOk(dev) && minor < MAX_LOGDEVS && !Live(k, minor)
  {
    MountAllOrNothing(k, dev, minor, specs, f);
    if Buildable(specs, minor) && DiskNameOk(dev) && minor < MAX_LOGDEVS && !Live(k, minor) {
      var req, es := LogdevFor(dev, minor, specs), EntriesFor(specs, minor);
      SectorIsPowerOf2();
      var k1 := CreateDev(k, req, EOK).0;
      DeadStartsFresh(k, es, minor);
      StripeStarts(specs, size, minor);
      EntriesReal(specs, size, minor);
      AddsSucceed(k1, es, 0, minor);
    }
  }

  lemma EntriesReal(specs: seq<MapSpec>, size: nat, minor: nat)
    requires StripeSpecs(specs, size) && SpecsOk(specs, minor)
    ensures forall n :: 0 <= n < |specs| ==>
      EntriesFor(specs, minor)[n].length > 0 && EntriesFor(specs, minor)[n].dev != []
  {}

  // ---- exactly when a mount succeeds ----

  /** What the kernel asks of an admitted mount: a disk name of permitted characters,
      an evenly cut stripe of whole sectors, device and namespace names in order, and
      a minor below 256 that is not in use. */
  predicate Mountable(w: World, req: MountReq, d: Devices) {
    var ps, minor := PiecesOfId(w.c.rows, req.allocId), MinorOf(req.allocId, req.dev);
    && DiskNameOk(req.dev)
    && ps != [] && AllConnect(ps, d) && PiecesSize(ps) % (SECTOR * |ps|) == 0
    && (forall i :: 0 <= i < |ps| ==> NamesOk(SpecOf(ps[i], d)))
    && minor.Some? && minor.value < MAX_LOGDEVS && !Live(w.k, minor.value)
  }

  /** What an admitted mount meets on its way to the kernel. */
  lemma AdmittedMount(w: World, req: MountReq, d: Devices)
    requires StackInv(w) && MountCheck(w.c, req, d) == OK
    ensures var ps := PiecesOfId(w.c.rows, req.allocId);
      && ps != [] && PiecesOf(w.m, req.allocId) == ps && AllConnect(ps, d)
      && StripeSpecs(SpecsOf(ps, d), PiecesSize(ps)) && PiecesSize(ps) <= U64_MAX
      && !Has(w.m.mounts, MountDev, req.dev) && FirstFree(w.m.mounts) < |w.m.mounts|
      && FreeCount(w.k.maps) >= |ps|
  {
    var ps := PiecesOfId(w.c.rows, req.allocId);
    PickNone(w.c.rows, RowId, RowPiece, req.allocId);
    MountedStripe(w.c.rows, req.allocId);
    TwinPieces(w.c.rows, w.m.nss, req.allocId);
    SpecsOfPieces(ps, d);
    MatchingStripe(SpecsOf(ps, d), ps);
    UnknownToBoth(w.c.logdevs, w.m.mounts, req.dev);
    MountTableHasRoom(w.c.logdevs, w.m.mounts);
    MapsWithinRows(w.c.logdevs, w.k);
  }

  lemma NamedBuildable(ps: seq<Piece>, d: Devices, minor: nat)
    requires AllConnect(ps, d) && StripeSpecs(SpecsOf(ps, d), PiecesSize(ps)) && PiecesSize(ps) <= U64_MAX
    ensures Buildable(SpecsOf(ps, d), minor) <==>
      PiecesSize(ps) % (SECTOR * |ps|) == 0 && forall i :: 0 <= i < |ps| ==> NamesOk(SpecOf(ps[i], d))
  {
    var specs := SpecsOf(ps, d);
    if forall i :: 0 <= i < |ps| ==> NamesOk(SpecOf(ps[i], d)) {
      StripeMountable(specs, PiecesSize(ps), minor);
    }
  }

  /** In every state the stack keeps, with the control device present and nothing
      injected, a mount succeeds exactly when the controller admits it and it is
      mountable: no table below the controller is ever the reason for a refusal.
      A refused mount changes nothing. */
  lemma MountSucceedsIff(w: World, req: MountReq, d: Devices, f: KernelFaults)
    requires StackInv(w) && NoFault(f)
    ensures MountOp(w, req, d, f).1 == OK <==> MountCheck(w.c, req, d) == OK && Mountable(w, req, d)
    ensures MountOp(w, req, d, f).1 != OK ==> MountOp(w, req, d, f).0 == w
  {
    if MountCheck(w.c, req, d) == OK {
      AdmittedMount(w, req, d);
      AdmittedOutcome(w, req, d, f);
      AdmittedSucceedsIff(w, PiecesOfId(w.c.rows, req.allocId), req, d, f);
    }
  }

  /** From there on the kernel alone decides. */
  lemma AdmittedOutcome(w: World, req: MountReq, d: Devices, f: KernelFaults)
    requires WorldShaped(w) && KernelInv(w.k) && MountCheck(w.c, req, d) == OK
    requires var ps := PiecesOfId(w.c.rows, req.allocId);
      && ps != [] && PiecesOf(w.m, req.allocId) == ps && AllConnect(ps, d)
      && !Has(w.m.mounts, MountDev, req.dev) && FirstFree(w.m.mounts) < |w.m.mounts|
    ensures var minor, r := MinorOf(req.allocId, req.dev), MountOp(w, req, d, f);
      && (minor.None? ==> r == (w, INVALID))
      && (minor.Some? ==> r.1 == Mount(w.k, req.dev, minor.value, SpecsOf(PiecesOfId(w.c.rows, req.allocId), d), f).1)
      && (r.1 != OK ==> r.0 == w)
  {
    var row := MountRow(req.allocId, req.hostId, req.dev);
    PluginOutcome(w.m, w.k, row, PiecesOfId(w.c.rows, req.allocId), d, f);
  }

  lemma PluginOutcome(m: Mock, k: Kernel, row: MountRow, ps: seq<Piece>, d: Devices, f: KernelFaults)
    requires KernelInv(k) && ps == PiecesOf(m, row.allocId) && ps != [] && AllConnect(ps, d)
    requires !Has(m.mounts, MountDev, row.dev) && FirstFree(m.mounts) < |m.mounts|
    ensures var minor, (m2, k2, st) := MinorOf(row.allocId, row.dev), MountNs(m, k, row, d, f);
      && (minor.None? ==> (m2, k2, st) == (m, k, INVALID))
      && (minor.Some? ==> st == Mount(k, row.dev, minor.value, SpecsOf(ps, d), f).1)
      && (st != OK ==> m2 == m && k2 == k)
  {
    var minor := MinorOf(row.allocId, row.dev);
    if minor.Some? {
      MountAllOrNothing(k, row.dev, minor.value, SpecsOf(ps, d), f);
    }
  }

  lemma AdmittedSucceedsIff(w: World, ps: seq<Piece>, req: MountReq, d: Devices, f: KernelFaults)
    requires KernelInv(w.k) && NoFault(f) && ps == PiecesOfId(w.c.rows, req.allocId) && ps != [] && AllConnect(ps, d)
    requires StripeSpecs(SpecsOf(ps, d), PiecesSize(ps)) && PiecesSize(ps) <= U64_MAX && FreeCount(w.k.maps) >= |ps|
    ensures var minor := MinorOf(req.allocId, req.dev);
      Mountable(w, req, d) <==> minor.Some? && Mount(w.k, req.dev, minor.value, SpecsOf(ps, d), f).1 == OK
  {
    var minor := MinorOf(req.allocId, req.dev);
    if minor.Some? {
      NamedBuildable(ps, d, minor.value);
      KernelMounts(w.k, req.dev, minor.value, SpecsOf(ps, d), PiecesSize(ps), f);
    }
  }

  // ---- one device for each allocation ----

  predicate Numbers(id: string, nsId: string, a: nat, b: nat) {
    a <= b && id == ID_PREFIX + Dec(a) && nsId == NS_PREFIX + Dec(b)
  }

  /** The namespace has a number no smaller than its allocation's. */
  ghost predicate NsAhead(id: string, nsId: string) { exists a: nat, b: nat :: Numbers(id, nsId, a, b) }

  ghost predicate RowsAhead(rows: Rows) {
    forall i :: 0 <= i < |rows| && rows[i].Some? ==> NsAhead(rows[i].value.allocId, rows[i].value.nsId)
  }

  /** Namespaces are created at least as fast as allocations. */
  ghost predicate Ahead(w: World) { w.c.nextId <= w.m.nextNs && RowsAhead(w.c.rows) }

  lemma GrantedRowAhead(w: World, job: Job, ps: seq<Piece>, r: Row)
    requires JobOk(w.c.pool, job) && w.c.nextId <= w.m.nextNs && w.m.nextNs + |job.sel| <= TWO64
    requires job.id == Numbered(ID_PREFIX, w.c.nextId) && r.allocId == job.id
    requires ps == PiecesFor(w.c.pool, job, w.m.nextNs, |job.sel|) && RowPiece(r) in ps
    ensures NsAhead(r.allocId, r.nsId)
  {
    var i :| 0 <= i < |ps| && ps[i] == RowPiece(r);
    assert r.nsId == PieceFor(w.c.pool, job, w.m.nextNs, i).nsId;
    NumbersAhead(w.c.nextId, w.m.nextNs + i);
  }

  lemma NumbersAhead(a: nat, b: nat)
    requires a <= b < TWO64
    ensures NsAhead(Numbered(ID_PREFIX, a), Numbered(NS_PREFIX, b))
  {
    NumberedSmall(ID_PREFIX, a);
    NumberedSmall(NS_PREFIX, b);
    assert Numbers(Numbered(ID_PREFIX, a), Numbered(NS_PREFIX, b), a, b);
  }

  lemma GrantKeepsAhead(w: World, job: Job, create: Faults)
    requires JobOk(w.c.pool, job) && CanPlace(Start(w), job) && DistinctSsus(w.c.pool) && job.req.size <= U64_MAX
    requires !Has(w.c.rows, RowId, job.id) && job.id == Numbered(ID_PREFIX, w.c.nextId) && Ahead(w)
    requires PlaceFrom(Start(w), job, create).1 == OK && PlaceFrom(Start(w), job, create).0.w.m.nextNs < TWO64
    ensures var p := PlaceFrom(Start(w), job, create).0;
      RowsAhead(p.w.c.rows) && w.c.nextId + 1 <= p.w.m.nextNs
  {
    var p := PlaceFrom(Start(w), job, create).0;
    StartsMidway(w, job);
    PlaceFromMidway(w, Start(w), job, create);
    PlaceFromEnds(Start(w), job, create);
    GrantedPieces(w, job, create);
    PlaceFromExtends(w, Start(w), job, create);
    forall i | 0 <= i < |p.w.c.rows| && p.w.c.rows[i].Some?
      ensures NsAhead(p.w.c.rows[i].value.allocId, p.w.c.rows[i].value.nsId)
    {
      if w.c.rows[i].None? {
        PickIn(p.w.c.rows, RowId, RowPiece, job.id, i);
        GrantedRowAhead(w, job, PiecesOfId(p.w.c.rows, job.id), p.w.c.rows[i].value);
      }
    }
  }

  lemma AllocKeepsAhead(w: World, req: AllocReq, cap: Option<nat>, create: Faults, delete: Faults)
    requires WorldShaped(w) && Books(w.c) && RowsOk(w.c) && Ahead(w) && req.size <= U64_MAX && w.c.nextId < TWO64
    requires Alloc(w, req, cap, create, delete).0.m.nextNs < TWO64
    ensures Ahead(Alloc(w, req, cap, create, delete).0)
  {
    SearchIsImmediate(w);
    AllocCases(w, req, cap, create, delete);
    if req.size > 0 && HostKey.Key(req.hosts).Some? {
      var a := Admit(w.c, req, HostKey.Key(req.hosts).value, cap);
      if a.Admitted? && Alloc(w, req, cap, create, delete) == Place(w, a.job, create, delete) {
        PlaceKeepsAhead(w, a.job, create, delete);
      }
    }
  }

  lemma PlaceKeepsAhead(w: World, job: Job, create: Faults, delete: Faults)
    requires JobOk(w.c.pool, job) && CanPlace(Start(w), job) && DistinctSsus(w.c.pool) && job.req.size <= U64_MAX
    requires !Has(w.c.rows, RowId, job.id) && job.id == Numbered(ID_PREFIX, w.c.nextId) && Ahead(w)
    requires Place(w, job, create, delete).0.m.nextNs < TWO64
    ensures Ahead(Place(w, job, create, delete).0)
  {
    PlaceFromExtends(w, Start(w), job, create);
    if PlaceFrom(Start(w), job, create).1 == OK {
      GrantKeepsAhead(w, job, create);
    } else {
      PlaceAllOrNothing(w, job, create, delete);
    }
  }

  lemma StateKeepsAhead(rows: Rows, id: string, st: RowState)
    requires RowsAhead(rows)
    ensures RowsAhead(SetState(rows, id, st))
  {
    assert forall i :: 0 <= i < |rows| ==> SetState(rows, id, st)[i] == WithState(rows[i], id, st);
  }

  predicate SizeFits(op: Op) { op.OpAlloc? ==> op.req.size <= U64_MAX }

  lemma StepKeepsAhead(w: World, op: Op)
    requires WorldShaped(w) && Books(w.c) && RowsOk(w.c) && Ahead(w) && SizeFits(op)
    requires Step(w, op).c.nextId < TWO64 && Step(w, op).m.nextNs < TWO64
    ensures Ahead(Step(w, op))
  {
    NextIdGrows(w, op);
    match op
    case OpRefresh(d, h) =>
    case OpAlloc(req, cap, create, delete) => AllocKeepsAhead(w, req, cap, create, delete);
    case OpRelease(id, deletes) => ReleaseFromThins(w, id, 0, false, deletes);
    case OpMount(req, d, f) => MountOpKeepsAhead(w, req, d, f);
    case OpUnmount(dev, d, f) => UnmountKeepsAhead(w, dev, d, f);
  }

  lemma MountOpKeepsAhead(w: World, req: MountReq, d: Devices, f: KernelFaults)
    requires WorldShaped(w) && Ahead(w)
    ensures Ahead(MountOp(w, req, d, f).0)
  {
    MountKeepsNextNs(w, req, d, f);
    MountCases(w, req, d, f);
    StateKeepsAhead(w.c.rows, req.allocId, MOUNTED);
  }

  lemma UnmountKeepsAhead(w: World, dev: string, d: Devices, f: KernelFaults)
    requires WorldShaped(w) && Ahead(w)
    ensures Ahead(UnmountOp(w, dev, d, f).0)
  {
    UnmountKeepsNextNs(w, dev, d, f);
    UnmountCases(w, dev, d, f);
    if Has(w.c.logdevs, LogdevDev, dev) {
      var id := w.c.logdevs[Find(w.c.logdevs, LogdevDev, dev)].value.allocId;
      StateKeepsAhead(w.c.rows, id, MOUNTED);
      StateKeepsAhead(w.c.rows, id, ACTIVE);
    }
  }

  lemma {:induction false} RunKeepsAhead(w: World, ops: seq<Op>)
    requires WorldShaped(w) && Books(w.c) && RowsOk(w.c) && Ahead(w) && RunFits(ops)
    requires forall i :: 0 <= i < |ops| ==> SizeFits(ops[i])
    requires Run(w, ops).c.nextId < TWO64 && Run(w, ops).m.nextNs < TWO64
    ensures Ahead(Run(w, ops))
  {
    if ops != [] {
      var front, last := ops[..|ops| - 1], ops[|ops| - 1];
      Conservation(w, front);
      NextIdGrows(Run(w, front), last);
      NextNsGrows(Run(w, front), last);
      RunKeepsRowsOk(w, front);
      RunKeepsAhead(w, front);
      StepKeepsAhead(Run(w, front), last);
    }
  }

  /** Specs the kernel accepts have namespace numbers of 32 bits, so their
      allocation's number fits them too, and it alone gives the minor. */
  lemma MappableHasNumber(w: World, id: string, specs: seq<MapSpec>, minor: nat)
    requires RowsOk(w.c) && Ahead(w) && SpecsAre(specs, PiecesOfId(w.c.rows, id)) && specs != []
    requires SpecsOk(specs, minor)
    ensures PrefixedMinor(id, ID_PREFIX).Some?
  {
    var ps := PiecesOfId(w.c.rows, id);
    var x := PickFrom(w.c.rows, RowId, RowPiece, id, ps[0]);
    assert SpecOk(specs[0], minor) && SpecIs(specs[0], ps[0]);
    SmallNumber(id, ps[0].nsId);
  }

  lemma SmallNumber(id: string, nsId: string)
    requires NsAhead(id, nsId) && TailU32(nsId).Some?
    ensures PrefixedMinor(id, ID_PREFIX).Some?
  {
    var a: nat, b: nat :| Numbers(id, nsId, a, b);
    TailNumber(NS_PREFIX, b);
    DigitsAreMinor(ID_PREFIX, a);
  }

  /** An allocation whose number needs more than 32 bits cannot be mounted at all. */
  lemma LargeIdsNeverMount(w: World, req: MountReq, d: Devices, f: KernelFaults)
    requires StackInv(w) && Ahead(w) && PrefixedMinor(req.allocId, ID_PREFIX).None?
    ensures MountOp(w, req, d, f).1 != OK && MountOp(w, req, d, f).0 == w
  {
    if MountCheck(w.c, req, d) == OK {
      var ps, minor := PiecesOfId(w.c.rows, req.allocId), MinorOf(req.allocId, req.dev);
      AdmittedMount(w, req, d);
      AdmittedOutcome(w, req, d, f);
      SpecsOfPieces(ps, d);
      if minor.Some? && Buildable(SpecsOf(ps, d), minor.value) {
        MappableHasNumber(w, req.allocId, SpecsOf(ps, d), minor.value);
      }
    }
  }

  /** Two device rows of one allocation are rows of one device. */
  lemma OneDeviceEach(w: World, i: nat, j: nat)
    requires StackInv(w) && Ahead(w) && i < |w.c.logdevs| && j < |w.c.logdevs|
    requires w.c.logdevs[i].Some? && w.c.logdevs[j].Some?
    requires w.c.logdevs[i].value.allocId == w.c.logdevs[j].value.allocId
    ensures w.c.logdevs[i].value.dev == w.c.logdevs[j].value.dev
  {
    var specs, ps, minor := MountedFacts(w, i);
    MappableHasNumber(w, w.c.logdevs[i].value.allocId, specs, minor);
  }

  /** A second mount of an allocation, shared or not, is refused with the control
      device present, and changes nothing. */
  lemma SecondMountRefused(w: World, req: MountReq, d: Devices, f: KernelFaults)
    requires StackInv(w) && Ahead(w) && Has(w.c.logdevs, LogdevId, req.allocId) && f.ctl != CTL_MISSING
    ensures MountOp(w, req, d, f).1 != OK && MountOp(w, req, d, f).0 == w
  {
    var i := Find(w.c.logdevs, LogdevId, req.allocId);
    assert Carries(w.c.logdevs[i], LogdevId, req.allocId);
    var specs, ps, minor := MountedFacts(w, i);
    assert WiredDev(w.c.logdevs, w.k, w.c.logdevs[i].value);
    MappableHasNumber(w, req.allocId, specs, minor);
    if MountCheck(w.c, req, d) == OK {
      AdmittedMount(w, req, d);
      AdmittedOutcome(w, req, d, f);
      MountAllOrNothing(w.k, req.dev, minor, SpecsOf(PiecesOfId(w.c.rows, req.allocId), d), f);
    }
  }

  /** So over every run from the empty stack that keeps the kernel in step, each
      allocation has at most one mounted device. */
  lemma ReachableOneDeviceEach(ops: seq<Op>, i: nat, j: nat)
    requires RunFits(ops) && InStepRun(Boot, ops) && forall n :: 0 <= n < |ops| ==> NoDeleteRefused(ops[n])
    requires Run(Boot, ops).c.nextId < TWO64 && Run(Boot, ops).m.nextNs < TWO64
    requires var ls := Run(Boot, ops).c.logdevs;
      i < |ls| && j < |ls| && ls[i].Some? && ls[j].Some? && ls[i].value.allocId == ls[j].value.allocId
    ensures Run(Boot, ops).c.logdevs[i].value.dev == Run(Boot, ops).c.logdevs[j].value.dev
  {
    BootsInStep();
    RunKeepsStack(Boot, ops);
    RunKeepsAhead(Boot, ops);
    OneDeviceEach(Run(Boot, ops), i, j);
  }

  /** Without that numbering of namespaces a second path could be mounted exactly
      when the allocation's number does not fit 32 bits and the path's own number is
      a minor not in use. */
  lemma SecondMountIff(w: World, req: MountReq, d: Devices, f: KernelFaults)
    requires StackInv(w) && NoFault(f) && Has(w.c.logdevs, LogdevId, req.allocId) && MountCheck(w.c, req, d) == OK
    ensures MountOp(w, req, d, f).1 == OK <==> PrefixedMinor(req.allocId, ID_PREFIX).None? && Mountable(w, req, d)
  {
    var i := Find(w.c.logdevs, LogdevId, req.allocId);
    assert Carries(w.c.logdevs[i], LogdevId, req.allocId);
    assert WiredDev(w.c.logdevs, w.k, w.c.logdevs[i].value);
    MountSucceedsIff(w, req, d, f);
  }

  /** The number of a path gives the minor once the allocation's own is too large. */
  lemma LargeIdFollowsPath(n: nat, k: nat, dir: string)
    requires U32_MAX < n < TWO64 && k <= U32_MAX
    ensures MinorOf(Numbered(ID_PREFIX, n), dir + "/" + (DEV_PREFIX + Dec(k))) == Some(k)
  {
    NumberedSmall(ID_PREFIX, n);
    WholeU32Dec(n);
    assert (ID_PREFIX + Dec(n))[|ID_PREFIX|..] == Dec(n);
    DigitsAreMinor(DEV_PREFIX, k);
    NoSlash(DEV_PREFIX, k);
    LogicalMinorOf(dir, DEV_PREFIX + Dec(k));
  }

  // ---- the stray unmount ----

  /** Unmounting the unmounted path dir/ssuN while alloc-N is mounted elsewhere takes
      the kernel device away under the mounted one: it is reported as done, the
      device row stays, its minor is dead and translates nothing. */
  lemma StrayUnmountKills(w: World, i: nat, n: nat, dir: string, d: Devices, f: KernelFaults)
    requires StackInv(w) && n <= U32_MAX && f.ctl == CTL_PRESENT
    requires i < |w.c.logdevs| && w.c.logdevs[i].Some? && w.c.logdevs[i].value.allocId == Numbered(ID_PREFIX, n)
    requires !Has(w.c.logdevs, LogdevDev, dir + "/" + (DEV_PREFIX + Dec(n)))
    ensures var path := dir + "/" + (DEV_PREFIX + Dec(n));
      var (w2, st) := UnmountOp(w, path, d, f);
      && !StrayHarmless(w, path)
      && st == OK && w2.c == w.c && Live(w.k, n) && !Live(w2.k, n) && !Wired(w2.c.logdevs, w2.k)
      && forall s: nat :: Translate(w2.k.maps, n, s) == Miss(ENOENT)
  {
    var path := dir + "/" + (DEV_PREFIX + Dec(n));
    var l := w.c.logdevs[i].value;
    StrayPathSpellsMinor(n, l.dev, dir);
    assert WiredDev(w.c.logdevs, w.k, l);
    UnmountNsCases(w.m, w.k, path, d, f);
    UnknownToBoth(w.c.logdevs, w.m.mounts, path);
    UnmountClears(w.k, n, [], f);
    StrayUnmountIff(w, path, d, f);
  }
}
