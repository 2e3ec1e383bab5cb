/** The controller in its own form: static tables changed in place by loops: placement,
    rollback, release, refresh, mount and unmount. Every operation is proved to be
    the step ControllerState gives it. */
module ControllerModule {
  import opened Types
  import opened Tables
  import opened Decimal
  import opened KernelState
  import opened ReqShimIface
  import opened MockState
  import opened MockPlugin
  import opened Placement
  import opened ControllerState
  import opened Rollback
  import opened Grants
  import HostKey

  class Manager {
    var pool: seq<Resource>
    const rows: array<Option<Row>>
    const logdevs: array<Option<Logdev>>
    var released: seq<string>
    var nextId: nat
    const plugin: Plugin

    ghost predicate Valid()
      reads this
    {
      && |pool| <= MAX_RESOURCES && rows.Length == MAX_ALLOCATIONS && logdevs.Length == MAX_DEVICES
        && |released| <= MAX_RELEASED
      && plugin.Valid()
    }

    ghost function State(): Ctl
      reads this, rows, logdevs
    {
      Ctl(pool, rows[..], logdevs[..], released, nextId)
    }

    ghost function Everything(): World
      reads this, rows, logdevs, plugin, plugin.nss, plugin.mounts, plugin.shim.devs, plugin.shim.maps
    {
      World(State(), plugin.State(), plugin.shim.State())
    }

    constructor ()
      ensures Valid() && fresh(rows) && fresh(logdevs) && fresh(plugin)
      ensures Everything() == Boot
    {
      pool := [];
      rows := new Option<Row>[MAX_ALLOCATIONS](_ => None);
      logdevs := new Option<Logdev>[MAX_DEVICES](_ => None);
      released := [];
      nextId := 0;
      plugin := new Plugin();
      new;
      assert rows[..] == EmptyTable(MAX_ALLOCATIONS) && logdevs[..] == EmptyTable(MAX_DEVICES);
      assert plugin.State() == Boot.m;
      AllDead(plugin.shim.State());
    }

    // ---- refresh ----

    method FindResource(list: seq<Resource>, ssuId: string) returns (i: nat)
      ensures i == FindRes(list, ssuId)
    {
      i := 0;
      while i < |list| && list[i].ssuId != ssuId
        invariant i <= |list| && forall j :: 0 <= j < i ==> list[j].ssuId != ssuId
      {
        i := i + 1;
      }
    }

    method CarryMarks(d: Discovery, health: map<string, string>) returns (next: seq<Resource>)
      ensures next == CarryAll(pool, d.found, health)
    {
      next := [];
      for i := 0 to |d.found|
        invariant next == CarryAll(pool, d.found[..i], health)
      {
        var old_ := FindResource(pool, d.found[i].ssuId);
        var r := d.found[i];
        if old_ < |pool| {
          r := r.(used := pool[old_].used);
        }
        TakeNext(d.found, i);
        CarryNext(pool, d.found[..i], d.found[i], health);
        next := next + [WithHealth(r, health)];
      }
      TakeAll(d.found);
    }

    /** Appends what discovery missed, unless the pool would grow too large. */
    method KeepMissing(carried: seq<Resource>, health: map<string, string>) returns (all: Option<seq<Resource>>)
      requires |carried| <= MAX_RESOURCES
      ensures all == AppendMissing(carried, pool, 0, health)
      ensures all.Some? ==> |all.value| <= MAX_RESOURCES
    {
      var next := carried;
      for i := 0 to |pool|
        invariant |next| <= MAX_RESOURCES
        invariant AppendMissing(next, pool, i, health) == AppendMissing(carried, pool, 0, health)
      {
        var at := FindResource(next, pool[i].ssuId);
        if at == |next| {
          if |next| >= MAX_RESOURCES {
            return None;
          }
          next := next + [WithHealth(pool[i], health)];
        }
      }
      return Some(next);
    }

    method RefreshPool(d: Discovery, health: map<string, string>) returns (st: Status)
      requires Valid()
      modifies this`pool
      ensures Valid() && (State(), st) == Refresh(old(State()), d, health)
    {
      if d.status != OK {
        return d.status;
      }
      if |d.found| > MAX_RESOURCES {
        return INTERNAL;
      }
      var carried := CarryMarks(d, health);
      var next := KeepMissing(carried, health);
      if next.None? {
        return INTERNAL;
      }
      pool := next.value;
      return OK;
    }

    // ---- allocate ----

    method IdIsUsed(id: string) returns (used: bool)
      requires Valid()
      ensures used <==> id in IdsIn(rows[..], released)
    {
      for i := 0 to rows.Length
        invariant forall j :: 0 <= j < i && rows[j].Some? ==> rows[j].value.allocId != id
      {
        if rows[i].Some? && rows[i].value.allocId == id {
          assert rows[..][i].Some?;
          return true;
        }
      }
      return id in released;
    }

    /** The id search, counting up while the printed id is taken. It ends because
        at most 256 ids are taken and the counter has 2^64 values. */
    method NextAutoId() returns (id: string)
      requires Valid()
      modifies this`nextId
      ensures nextId == NextId(UsedIds(old(State())), old(nextId)) && id == Numbered(ID_PREFIX, nextId)
    {
      ghost var k0, t := nextId, rows[..];
      ghost var used := IdsIn(t, released);
      ghost var left := used;
      UsedIdsFew(State());
      while true
        invariant Searching(used, left, k0, nextId) && rows[..] == t
        decreases |left|
      {
        id := Numbered(ID_PREFIX, nextId);
        var taken := IdIsUsed(id);
        if !taken {
          SearchEnds(used, left, k0, nextId);
          return;
        }
        SearchGoesOn(used, left, k0, nextId);
        left := left - {id};
        nextId := nextId + 1;
      }
    }

    method FindName(name: string) returns (found: bool)
      requires Valid()
      ensures found <==> Has(rows[..], RowName, name)
    {
      HasSome(rows[..], RowName, name);
      for i := 0 to rows.Length
        invariant forall j :: 0 <= j < i ==> !Carries(rows[j], RowName, name)
      {
        if rows[i].Some? && rows[i].value.diskName == name {
          assert Carries(rows[..][i], RowName, name);
          return true;
        }
      }
      return false;
    }

    method RowsByName(name: string) returns (found: seq<Row>)
      requires Valid()
      ensures found == Pick(rows[..], RowName, RowBare, name)
    {
      found := [];
      ghost var t := rows[..];
      for i := 0 to rows.Length
        invariant found == Pick(t[..i], RowName, RowBare, name)
      {
        PickNext(t, i, RowName, RowBare, name);
        if rows[i].Some? && rows[i].value.diskName == name {
          found := found + [RowBare(rows[i].value)];
        }
      }
      TakeAll(t);
    }

    method ListExtents(found: seq<Row>) returns (es: seq<Extent>)
      ensures es == ExtentsOf(found, pool)
    {
      es := [];
      for i := 0 to |found|
        invariant es == ExtentsOf(found[..i], pool)
      {
        var r := found[i];
        var at := FindResource(pool, r.ssuId);
        ExtentsNext(found[..i], r, pool);
        TakeNext(found, i);
        es := es + [Extent(r.ssuId, if at < |pool| then pool[at].hostId else "", r.nsId, r.off, r.len)];
      }
      TakeAll(found);
    }

    /** The sum is kept in 64 bits. */
    method TotalSize(found: seq<Row>) returns (total: nat)
      ensures total == SumLen(found) % TWO64
    {
      total := 0;
      for i := 0 to |found|
        invariant total == SumLen(found[..i]) % TWO64
      {
        assert found[..i + 1][..i] == found[..i];
        total := (total + found[i].len) % TWO64;
      }
      TakeAll(found);
    }

    method CopyExistingAllocation(req: AllocReq, key: string, cap: Option<nat>) returns (out: AllocOut)
      requires Valid() && Has(rows[..], RowName, req.diskName)
      ensures out == CopyExisting(State(), req, key, cap)
    {
      PickNone(rows[..], RowName, RowBare, req.diskName);
      var found := RowsByName(req.diskName);
      var total := TotalSize(found);
      if total != req.size || (req.diskCount > 0 && req.diskCount != |found|) || found[0].share != req.share
        || found[0].tenant != req.tenant || found[0].hostKey != key {
        return Refuse(NS_EXISTS);
      }
      if cap.None? || cap.value < |found| {
        return AllocOut(BUFFER_TOO_SMALL, "", [], |found|);
      }
      var es := ListExtents(found);
      return AllocOut(OK, found[0].allocId, es, |found|);
    }

    method OnlinePoolIndexes() returns (online: seq<nat>)
      ensures online == OnlineIndexes(pool)
    {
      online := [];
      for i := 0 to |pool|
        invariant online == OnlineIndexes(pool[..i])
      {
        assert pool[..i + 1][..i] == pool[..i];
        if Online(pool[i]) {
          online := online + [i];
        }
      }
      TakeAll(pool);
    }

    method FreeSlotCount() returns (n: nat)
      requires Valid()
      ensures n == FreeCount(rows[..])
    {
      n := 0;
      ghost var t := rows[..];
      for i := 0 to rows.Length
        invariant n == FreeCount(t[..i])
      {
        assert t[..i + 1][..i] == t[..i];
        if rows[i].None? {
          n := n + 1;
        }
      }
      TakeAll(t);
    }

    /** The checks before the placement loop. */
    method AdmitRequest(req: AllocReq, key: string, cap: Option<nat>, id: string) returns (a: Admission)
      requires Valid() && req.size > 0 && id == Numbered(ID_PREFIX, nextId)
      ensures a == Admit(State(), req, key, cap)
    {
      var online := OnlinePoolIndexes();
      if |online| == 0 {
        return Refused(Refuse(NO_RESOURCE));
      }
      var n := |online|;
      if req.diskCount > 0 {
        if req.diskCount > |online| {
          return Refused(Refuse(NO_RESOURCE));
        }
        n := req.diskCount;
      }
      if n > req.size {
        n := req.size;
      }
      if cap.None? || cap.value < n {
        return Refused(AllocOut(BUFFER_TOO_SMALL, "", [], n));
      }
      a := AdmitSlots(req, key, id, online, n);
    }

    /** The checks that need the row table and the pool's fill marks. */
    method AdmitSlots(req: AllocReq, key: string, id: string, online: seq<nat>, n: nat) returns (a: Admission)
      requires Valid() && 0 < n <= req.size && online == OnlineIndexes(pool) && id == Numbered(ID_PREFIX, nextId)
      ensures a == AdmitExtents(State(), req, key, online, n)
    {
      var free := FreeSlotCount();
      if free < n {
        return Refused(Refuse(NO_RESOURCE));
      }
      var ok, selected := SelectPoolIndexes(pool, online, n, req.size / n, req.size % n);
      if !ok {
        return Refused(Refuse(NO_RESOURCE));
      }
      return Admitted(Job(id, req, key, selected, req.size / n, req.size % n));
    }

    method CreateVia(x: ExtentReq, fault: Status) returns (st: Status, nsId: string, phys: nat)
      requires Valid()
      modifies plugin, plugin.nss
      ensures st == if fault != OK then fault else CreateNs(old(plugin.State()), x).1
      ensures plugin.State() == if fault != OK then old(plugin.State()) else CreateNs(old(plugin.State()), x).0
      ensures st == OK ==> nsId == Numbered(NS_PREFIX, old(plugin.nextNs)) && phys == x.hint
    {
      if fault != OK {
        return fault, "", 0;
      }
      st, nsId, phys := plugin.Create(x);
    }

    /** One round of the placement loop that the plugin has granted. */
    method FillSlot(slot: nat, row: Row, p: nat)
      requires Valid() && slot == FirstFree(rows[..]) && slot < rows.Length && p < |pool|
      modifies this`pool, rows
      ensures Valid()
      ensures rows[..] == Put(old(rows[..]), row)
      ensures pool == old(pool)[p := old(pool)[p].(used := old(pool)[p].used + row.len)]
    {
      rows[slot] := Some(row);
      assert rows[..] == Put(old(rows[..]), row);
      pool := pool[p := pool[p].(used := pool[p].used + row.len)];
    }

    /** One round of the placement loop. The rechecks of slot, capacity and
        alignment are dead. */
    method PlaceRound(job: Job, i: nat, off: nat, create: Faults, ghost w0: World, ghost cur: Placing)
      returns (st: Status, slot: nat, extent: Extent)
      requires Valid() && JobOk(w0.c.pool, job) && CanPlace(cur, job) && cur.w == Everything() && cur.i == i
      requires cur.off == off
      requires i < |job.sel| && PoolAt(w0.c.pool, pool, job, i)
      modifies this`pool, rows, plugin, plugin.nss
      ensures Valid() && st == NextStatus(cur, job, create)
      ensures st != OK ==> Everything() == cur.w
      ensures st == OK ==> Everything() == Advance(cur, job).w && slot == FirstFree(cur.w.c.rows)
      ensures st == OK ==> extent == NewExtent(cur.w.c.pool, job, i, off, Numbered(NS_PREFIX, cur.w.m.nextNs))
    {
      slot := FirstFreeSlot(rows);
      var p := job.sel[i];
      var length := JobLen(job, i);
      RechecksAreDead(w0, job, cur);
      assert slot < rows.Length && Room(pool[p], length);
      var x := ExtentReq(job.id, pool[p].ssuId, off, length, pool[p].used / SECTOR);
      var nsId, phys;
      st, nsId, phys := CreateVia(x, Fault(create, i));
      extent := Extent(x.ssuId, pool[p].hostId, nsId, off, length);
      if st == OK {
        FillRound(job, i, x, nsId, phys, slot, cur);
      }
    }

    /** The second half of a round: the plugin has created the extent. */
    method FillRound(job: Job, i: nat, x: ExtentReq, nsId: string, phys: nat, slot: nat, ghost cur: Placing)
      requires Valid() && CanPlace(cur, job) && cur.i == i < |job.sel| && State() == cur.w.c
      requires x == RequestFor(cur.w.c.pool, job, i, cur.off) && phys == x.hint
      requires slot == FirstFree(rows[..]) < rows.Length
      requires plugin.State() == CreateNs(cur.w.m, x).0 && plugin.shim.State() == cur.w.k
      requires nsId == Numbered(NS_PREFIX, cur.w.m.nextNs)
      modifies this`pool, rows
      ensures Valid() && Everything() == Advance(cur, job).w
    {
      FillSlot(slot, Row(job.id, job.req.diskName, Clip(job.req.tenant, TENANT_SIZE), job.key, job.req.share, ACTIVE,
        x.ssuId, nsId, x.off, x.len, phys, i), job.sel[i]);
    }

    /** The loop is at cur, and goes on from there as from the start. */
    ghost predicate PlacingAt(job: Job, create: Faults, w0: World, cur: Placing)
      reads this, rows, logdevs, plugin, plugin.nss, plugin.mounts, plugin.shim.devs, plugin.shim.maps
    {
      && Valid() && JobOk(w0.c.pool, job) && CanPlace(cur, job) && CanPlace(Start(w0), job) && cur.w == Everything()
      && PoolAt(w0.c.pool, pool, job, cur.i)
      && PlaceFrom(cur, job, create) == PlaceFrom(Start(w0), job, create)
    }

    method PlaceNext(job: Job, i: nat, off: nat, create: Faults, ghost w0: World, ghost cur: Placing)
      returns (st: Status, slot: nat, extent: Extent, ghost next: Placing)
      requires PlacingAt(job, create, w0, cur) && cur.i == i < |job.sel| && cur.off == off
      modifies this`pool, rows, plugin, plugin.nss
      ensures PlacingAt(job, create, w0, next)
      ensures st != OK ==> next == cur && PlaceFrom(Start(w0), job, create) == (cur, st)
      ensures st == OK ==> next == Placing(next.w, i + 1, off + JobLen(job, i), cur.slots + [slot],
        cur.extents + [extent])
    {
      AdvancePool(w0, cur, job);
      PlaceFromNext(cur, job, create);
      st, slot, extent := PlaceRound(job, i, off, create, w0, cur);
      next := cur;
      if st == OK {
        AdvanceIs(cur, job, slot, extent);
        next := Advance(cur, job);
      }
    }

    /** The placement loop. */
    method PlaceExtents(job: Job, create: Faults) returns (st: Status, slots: seq<nat>, extents: seq<Extent>)
      requires Valid() && JobOk(pool, job) && CanPlace(Start(Everything()), job)
      modifies this`pool, rows, plugin, plugin.nss
      ensures Valid()
      ensures var (p, s) := PlaceFrom(Start(old(Everything())), job, create);
        st == s && Everything() == p.w && slots == p.slots && extents == p.extents
    {
      ghost var w0, cur := Everything(), Start(Everything());
      slots, extents, st := [], [], OK;
      var i: nat, off: nat := 0, 0;
      while i < |job.sel|
        invariant PlacingAt(job, create, w0, cur) && st == OK
        invariant cur == Placing(cur.w, i, off, slots, extents)
        decreases |job.sel| - i
      {
        var slot, extent;
        st, slot, extent, cur := PlaceNext(job, i, off, create, w0, cur);
        if st != OK {
          return;
        }
        extents := extents + [extent];
        slots := slots + [slot];
        off := off + JobLen(job, i);
        i := i + 1;
      }
    }

    method DeleteVia(ssuId: string, nsId: string, fault: Status) returns (st: Status)
      requires Valid()
      modifies plugin.nss
      ensures st == if fault != OK then fault else DeleteNs(old(plugin.State()), ssuId, nsId).1
      ensures plugin.State() == if fault != OK then old(plugin.State())
        else DeleteNs(old(plugin.State()), ssuId, nsId).0
    {
      if fault != OK {
        return fault;
      }
      st := plugin.Delete(ssuId, nsId);
    }

    /** Takes an extent off its SSU's fill mark, unless the mark is too low. */
    method RefundExtent(ssuId: string, len: nat)
      requires Valid()
      modifies this`pool
      ensures Valid() && pool == Refund(old(pool), ssuId, len)
    {
      var p := FindResource(pool, ssuId);
      if p < |pool| && pool[p].used >= len {
        pool := pool[p := pool[p].(used := pool[p].used - len)];
      }
    }

    /** The rollback loop: the last created slot first, delete errors ignored. */
    method RollBackExtents(slots: seq<nat>, delete: Faults)
      requires Valid()
      requires forall i :: 0 <= i < |slots| ==> slots[i] < rows.Length
      modifies this`pool, rows, plugin.nss
      ensures Valid() && Everything() == Undo(old(Everything()), slots, delete)
    {
      var count := |slots|;
      TakeAll(slots);
      ghost var end := Undo(Everything(), slots, delete);
      while count > 0
        invariant Valid() && 0 <= count <= |slots|
        invariant Undo(Everything(), slots[..count], delete) == end
      {
        UndoLast(Everything(), slots, count, delete);
        EmptySlot(slots[count - 1], Fault(delete, count - 1));
        count := count - 1;
      }
    }

    /** Gives one slot's extent back. */
    method EmptySlot(slot: nat, fault: Status)
      requires Valid() && slot < rows.Length
      modifies this`pool, rows, plugin.nss
      ensures Valid() && Everything() == UndoOne(old(Everything()), slot, fault)
    {
      if rows[slot].Some? {
        var row := rows[slot].value;
        var _ := DeleteVia(row.ssuId, row.nsId, fault);
        RefundExtent(row.ssuId, row.len);
        rows[slot] := None;
        assert rows[..] == old(rows[..])[slot := None];
      }
    }

    method Allocate(req: AllocReq, cap: Option<nat>, create: Faults, delete: Faults) returns (out: AllocOut)
      requires Valid()
      modifies this, rows, plugin, plugin.nss
      ensures Valid() && (Everything(), out) == Alloc(old(Everything()), req, cap, create, delete)
    {
      if req.reliability != STRIPE {
        return Refuse(UNSUPPORTED);
      }
      if req.size == 0 {
        return Refuse(INVALID);
      }
      var key := HostKey.BuildHostKey(req.hosts);
      if key.None? || (req.diskName != [] && !NameValid(req.diskName)) {
        return Refuse(INVALID);
      }
      if req.diskName != [] {
        var taken := FindName(req.diskName);
        if taken {
          out := CopyExistingAllocation(req, key.value, cap);
          return;
        }
      }
      out := AllocateFresh(req, key.value, cap, create, delete);
    }

    method AllocateFresh(req: AllocReq, key: string, cap: Option<nat>, create: Faults, delete: Faults)
      returns (out: AllocOut)
      requires Valid() && req.size > 0
      modifies this, rows, plugin, plugin.nss
      ensures Valid()
      ensures var w1 := Searched(old(Everything()));
        (Everything(), out) ==
          match Admit(w1.c, req, key, cap)
          case Refused(o) => (w1, o)
          case Admitted(job) => Place(w1, job, create, delete)
    {
      var id := NextAutoId();
      var a := AdmitRequest(req, key, cap, id);
      match a
      case Refused(o) => return o;
      case Admitted(job) => out := PlaceJob(job, create, delete);
    }

    method PlaceJob(job: Job, create: Faults, delete: Faults) returns (out: AllocOut)
      requires Valid() && JobOk(pool, job) && CanPlace(Start(Everything()), job)
      modifies this, rows, plugin, plugin.nss
      ensures Valid() && (Everything(), out) == Place(old(Everything()), job, create, delete)
    {
      ghost var w0 := Everything();
      var st, slots, extents := PlaceExtents(job, create);
      if st != OK {
        out := RollBackJob(st, slots, delete, w0, job, create);
      } else {
        out := KeepJob(extents, delete, w0, job, create);
      }
    }

    /** The placement failed with st: its slots are emptied again. */
    method RollBackJob(st: Status, slots: seq<nat>, delete: Faults, ghost w0: World, ghost job: Job,
        ghost create: Faults)
      returns (out: AllocOut)
      requires Valid() && CanPlace(Start(w0), job) && st != OK
      requires var p := PlaceFrom(Start(w0), job, create); Everything() == p.0.w && slots == p.0.slots && st == p.1
      modifies this`pool, rows, plugin.nss
      ensures Valid() && (Everything(), out) == Place(w0, job, create, delete)
    {
      SlotsInTable(Start(w0), job, create);
      PlaceIs(w0, job, create, delete);
      RollBackExtents(slots, delete);
      return Refuse(st);
    }

    /** The placement succeeded: the id is used up. */
    method KeepJob(extents: seq<Extent>, ghost delete: Faults, ghost w0: World, job: Job, ghost create: Faults)
      returns (out: AllocOut)
      requires Valid() && CanPlace(Start(w0), job)
      requires var p := PlaceFrom(Start(w0), job, create); Everything() == p.0.w && extents == p.0.extents && p.1 == OK
      modifies this`nextId
      ensures Valid() && (Everything(), out) == Place(w0, job, create, delete)
    {
      PlaceIs(w0, job, create, delete);
      nextId := nextId + 1;
      return AllocOut(OK, job.id, extents, |job.sel|);
    }

    // ---- release ----

    method HasDevice(id: string) returns (found: bool)
      requires Valid()
      ensures found <==> Has(logdevs[..], LogdevId, id)
    {
      HasSome(logdevs[..], LogdevId, id);
      for i := 0 to logdevs.Length
        invariant forall j :: 0 <= j < i ==> !Carries(logdevs[j], LogdevId, id)
      {
        if logdevs[i].Some? && logdevs[i].value.allocId == id {
          assert Carries(logdevs[..][i], LogdevId, id);
          return true;
        }
      }
      return false;
    }

    /** The release loop: it stops where the plugin refuses a delete. */
    method ReleaseRows(id: string, delete: Faults) returns (st: Status, found: bool)
      requires Valid()
      modifies this`pool, rows, plugin.nss
      ensures Valid() && (Everything(), st, found) == ReleaseFrom(old(Everything()), id, 0, false, delete)
    {
      found := false;
      var i := 0;
      while i < rows.Length
        invariant Valid() && 0 <= i <= rows.Length
        invariant ReleaseFrom(Everything(), id, i, found, delete)
          == ReleaseFrom(old(Everything()), id, 0, false, delete)
      {
        ghost var w := Everything();
        if rows[i].Some? && rows[i].value.allocId == id {
          var row := rows[i].value;
          st := DeleteVia(row.ssuId, row.nsId, Fault(delete, i));
          if st != OK {
            assert Everything() == w;
            return;
          }
          RefundExtent(row.ssuId, row.len);
          rows[i] := None;
          assert rows[..] == w.c.rows[i := None];
          assert Everything() == UndoOne(w, i, OK);
          found := true;
        }
        i := i + 1;
      }
      st := OK;
    }

    method ReleaseAllocation(id: string, delete: Faults) returns (st: Status)
      requires Valid()
      modifies this`pool, this`released, rows, plugin.nss
      ensures Valid() && (Everything(), st) == Release(old(Everything()), id, delete)
    {
      if id == [] {
        return INVALID;
      }
      var mounted := HasDevice(id);
      if mounted {
        return BUSY;
      }
      var found;
      st, found := ReleaseRows(id, delete);
      if st != OK {
        return;
      }
      if found {
        if !(id in released || |released| >= MAX_RELEASED) {
          released := released + [id];
        }
        return OK;
      }
      return if id in released then OK else NOT_FOUND;
    }

    // ---- mount and unmount ----

    method RowsById(id: string) returns (pieces: seq<Piece>, first: nat)
      requires Valid()
      ensures pieces == Pick(rows[..], RowId, RowPiece, id) && first == Find(rows[..], RowId, id)
    {
      pieces, first := [], rows.Length;
      ghost var t := rows[..];
      for i := 0 to rows.Length
        invariant pieces == Pick(t[..i], RowId, RowPiece, id)
        invariant first == rows.Length || (first < i && Carries(rows[first], RowId, id))
        invariant forall j :: 0 <= j < i && j < first ==> !Carries(rows[j], RowId, id)
      {
        PickNext(t, i, RowId, RowPiece, id);
        if rows[i].Some? && rows[i].value.allocId == id {
          if first == rows.Length {
            first := i;
          }
          pieces := pieces + [RowPiece(rows[i].value)];
        }
      }
      TakeAll(t);
      assert first < rows.Length ==> Carries(rows[..][first], RowId, id);
    }

    method FindDevice(dev: string) returns (i: nat)
      requires Valid()
      ensures i == Find(logdevs[..], LogdevDev, dev)
    {
      i := 0;
      while i < logdevs.Length && !(logdevs[i].Some? && logdevs[i].value.dev == dev)
        invariant i <= logdevs.Length
        invariant forall j :: 0 <= j < i ==> !Carries(logdevs[j], LogdevDev, dev)
      {
        i := i + 1;
      }
      assert i < logdevs.Length ==> Carries(logdevs[..][i], LogdevDev, dev);
    }

    method SetAllocationState(id: string, st: RowState)
      requires Valid()
      modifies rows
      ensures rows[..] == SetState(old(rows[..]), id, st)
    {
      for i := 0 to rows.Length
        invariant forall j :: 0 <= j < i ==> rows[j] == WithState(old(rows[j]), id, st)
        invariant forall j :: i <= j < rows.Length ==> rows[j] == old(rows[j])
      {
        if rows[i].Some? && rows[i].value.allocId == id {
          rows[i] := Some(rows[i].value.(state := st));
        }
      }
    }

    /** The first n free device slots in table order. */
    method ReserveSlots(n: nat) returns (slots: seq<nat>)
      requires Valid() && FreeCount(logdevs[..]) >= n
      ensures |slots| == n && Reserved(logdevs[..], slots)
    {
      slots := [];
      ghost var t := logdevs[..];
      for i := 0 to logdevs.Length
        invariant |slots| <= n && Reserved(t, slots)
        invariant |slots| < n ==> (forall j :: 0 <= j < i && t[j].None? ==> j in slots) && |slots| == FreeCount(t[..i])
        invariant forall x :: x in slots ==> x < i
      {
        assert t[..i + 1][..i] == t[..i];
        if logdevs[i].None? && |slots| < n {
          ReserveNext(t, slots, i);
          slots := slots + [i];
        }
      }
      TakeAll(t);
    }

    method FillDevices(req: MountReq, pieces: seq<Piece>, d: Devices, slots: seq<nat>)
      requires Valid() && AllConnect(pieces, d) && |slots| == |pieces| && Reserved(logdevs[..], slots)
      requires FreeCount(logdevs[..]) >= |pieces|
      modifies logdevs
      ensures logdevs[..] == PutAll(old(logdevs[..]), NewLogdevs(req, pieces, d))
    {
      ghost var t, ls := logdevs[..], NewLogdevs(req, pieces, d);
      for i := 0 to |pieces|
        invariant logdevs[..] == PutAll(t, ls[..i])
      {
        ReservedIsFirst(t, slots, ls, i);
        var p := pieces[i];
        ghost var before := logdevs[..];
        logdevs[slots[i]] := Some(Logdev(req.dev, req.hostId, req.allocId, p.off, p.len, d.names[p.ssuId], p.nsId,
          p.phys));
        assert logdevs[..] == before[slots[i] := Some(ls[i])];
        PutAllNext(t, ls, i);
      }
      TakeAll(ls);
    }

    method Connect(pieces: seq<Piece>, d: Devices) returns (st: Status)
        ensures st == if AllConnect(pieces, d) then OK else d.err
    {
      for i := 0 to |pieces|
        invariant forall j :: 0 <= j < i ==> pieces[j].ssuId in d.names
      {
        if pieces[i].ssuId !in d.names {
          return d.err;
        }
      }
      return OK;
    }

    method FreeDeviceCount() returns (n: nat)
      requires Valid()
      ensures n == FreeCount(logdevs[..])
    {
      n := 0;
      ghost var t := logdevs[..];
      for i := 0 to logdevs.Length
        invariant n == FreeCount(t[..i])
      {
        assert t[..i + 1][..i] == t[..i];
        if logdevs[i].None? {
          n := n + 1;
        }
      }
      TakeAll(t);
    }

    /** The checks before any table changes. */
    method CheckMount(req: MountReq, d: Devices) returns (st: Status, pieces: seq<Piece>)
      requires Valid()
      ensures pieces == Pick(rows[..], RowId, RowPiece, req.allocId)
      ensures st == MountCheck(State(), req, d)
    {
      var first;
      pieces, first := RowsById(req.allocId);
      PickNone(rows[..], RowId, RowPiece, req.allocId);
      if req.allocId == [] || req.hostId == [] || req.dev == [] {
        return INVALID, pieces;
      }
      if |pieces| == 0 {
        return NOT_FOUND, pieces;
      }
      var at := FindDevice(req.dev);
      if at < logdevs.Length {
        return BUSY, pieces;
      }
      if rows[first].value.share != SHARED {
        var mounted := HasDevice(req.allocId);
        if mounted {
          return BUSY, pieces;
        }
      }
      var free := FreeDeviceCount();
      if free < |pieces| {
        return NO_RESOURCE, pieces;
      }
      st := Connect(pieces, d);
    }

    method MountAllocation(req: MountReq, d: Devices, f: KernelFaults) returns (st: Status)
      requires Valid()
      modifies rows, logdevs, plugin.mounts, plugin.shim.devs, plugin.shim.maps
      ensures Valid() && (Everything(), st) == MountOp(old(Everything()), req, d, f)
    {
      var pieces;
      st, pieces := CheckMount(req, d);
      if st != OK {
        return;
      }
      var slots := ReserveSlots(|pieces|);
      st := plugin.MountDevice(MountRow(req.allocId, req.hostId, req.dev), d, f);
      if st != OK {
        return;
      }
      RecordMount(req, pieces, d, slots);
    }

    method RecordMount(req: MountReq, pieces: seq<Piece>, d: Devices, slots: seq<nat>)
      requires Valid() && AllConnect(pieces, d) && |slots| == |pieces| && Reserved(logdevs[..], slots)
      requires FreeCount(logdevs[..]) >= |pieces|
      modifies rows, logdevs
      ensures Valid() && logdevs[..] == PutAll(old(logdevs[..]), NewLogdevs(req, pieces, d))
      ensures rows[..] == SetState(old(rows[..]), req.allocId, MOUNTED)
    {
      FillDevices(req, pieces, d, slots);
      SetAllocationState(req.allocId, MOUNTED);
    }

    method ClearDevice(dev: string)
      requires Valid()
      modifies logdevs
      ensures logdevs[..] == Drop(old(logdevs[..]), LogdevDev, dev)
    {
      for i := 0 to logdevs.Length
        invariant forall j :: 0 <= j < i ==>
          logdevs[j] == if Carries(old(logdevs[j]), LogdevDev, dev) then None else old(logdevs[j])
        invariant forall j :: i <= j < logdevs.Length ==> logdevs[j] == old(logdevs[j])
      {
        if logdevs[i].Some? && logdevs[i].value.dev == dev {
          logdevs[i] := None;
        }
      }
    }

    method UnmountDevice(dev: string, d: Devices, f: KernelFaults) returns (st: Status)
      requires Valid()
      modifies rows, logdevs, plugin.mounts, plugin.shim.devs, plugin.shim.maps
      ensures Valid() && (Everything(), st) == UnmountOp(old(Everything()), dev, d, f)
    {
      if dev == [] {
        return INVALID;
      }
      var at := FindDevice(dev);
      if at == logdevs.Length {
        st := plugin.UnmountDevice(dev, d, f);
        return;
      }
      var id := logdevs[at].value.allocId;
      st := plugin.UnmountDevice(dev, d, f);
      if st != OK {
        return;
      }
      RecordUnmount(dev, id);
    }

    /** Drops the device's rows and restates the allocation's. */
    method RecordUnmount(dev: string, id: string)
      requires Valid()
      modifies rows, logdevs
      ensures Valid() && logdevs[..] == Drop(old(logdevs[..]), LogdevDev, dev)
      ensures rows[..] == SetState(old(rows[..]), id, if Has(logdevs[..], LogdevId, id) then MOUNTED else ACTIVE)
    {
      ClearDevice(dev);
      var still := HasDevice(id);
      SetAllocationState(id, if still then MOUNTED else ACTIVE);
    }
  }

  /** The id search from k0 is at k; left are the taken ids it has not met. */
  ghost predicate Searching(used: set<string>, left: set<string>, k0: nat, k: nat) {
    && k0 <= k && |left| + (k - k0) == |used| <= 256
    && (forall x :: x in left <==> x in used && forall j :: k0 <= j < k ==> x != Numbered(ID_PREFIX, j))
    && NextId(left, k) == NextId(used, k0)
  }

  lemma SearchGoesOn(used: set<string>, left: set<string>, k0: nat, k: nat)
    requires Searching(used, left, k0, k)
    requires Numbered(ID_PREFIX, k) in used
    ensures Numbered(ID_PREFIX, k) in left && Searching(used, left - {Numbered(ID_PREFIX, k)}, k0, k + 1)
  {
    WindowDistinct(k0, k);
  }

  lemma SearchEnds(used: set<string>, left: set<string>, k0: nat, k: nat)
    requires Searching(used, left, k0, k) && Numbered(ID_PREFIX, k) !in used
    ensures k == NextId(used, k0)
  {
    WindowDistinct(k0, k);
  }

  /** One unfolding of the placement loop. */
  lemma PlaceFromNext(s: Placing, job: Job, create: Faults)
    requires CanPlace(s, job) && s.i < |job.sel|
    ensures PlaceFrom(s, job, create) == if NextStatus(s, job, create) != OK then (s, NextStatus(s, job, create))
      else PlaceFrom(Advance(s, job), job, create)
  {}

  lemma PlaceIs(w: World, job: Job, create: Faults, delete: Faults)
    requires CanPlace(Start(w), job)
    ensures var (p, st) := PlaceFrom(Start(w), job, create);
      Place(w, job, create, delete) ==
      if st != OK then (Undo(p.w, p.slots, delete), Refuse(st))
      else (p.w.(c := p.w.c.(nextId := p.w.c.nextId + 1)), AllocOut(OK, job.id, p.extents, |job.sel|))
  {}

  lemma AdvanceIs(s: Placing, job: Job, slot: nat, extent: Extent)
    requires CanPlace(s, job) && s.i < |job.sel|
    requires slot == FirstFree(s.w.c.rows)
    requires extent == NewExtent(s.w.c.pool, job, s.i, s.off, Numbered(NS_PREFIX, s.w.m.nextNs))
    ensures Advance(s, job) == Placing(Advance(s, job).w, s.i + 1, s.off + JobLen(job, s.i), s.slots + [slot],
      s.extents + [extent])
  {}

  lemma ExtentsNext(front: seq<Row>, r: Row, pool: seq<Resource>)
    ensures ExtentsOf(front + [r], pool) == ExtentsOf(front, pool)
      + [Extent(r.ssuId, HostOf(pool, r.ssuId), r.nsId, r.off, r.len)]
  {
    assert (front + [r])[..|front|] == front;
  }

  /** The slots the loop filled lie in the table. */
  lemma {:induction false} SlotsInTable(s: Placing, job: Job, create: Faults)
    requires CanPlace(s, job) && forall i :: 0 <= i < |s.slots| ==> s.slots[i] < |s.w.c.rows|
    ensures var p := PlaceFrom(s, job, create).0;
      |p.w.c.rows| == |s.w.c.rows| && forall i :: 0 <= i < |p.slots| ==> p.slots[i] < |s.w.c.rows|
    decreases |job.sel| - s.i
  {
    if s.i < |job.sel| && NextStatus(s, job, create) == OK {
      SlotsInTable(Advance(s, job), job, create);
    }
  }

  /** slots are free, ascending, and no free slot below one of them is missing. */
  predicate Reserved<T>(t: seq<Option<T>>, slots: seq<nat>) {
    && (forall i :: 0 <= i < |slots| ==> slots[i] < |t| && t[slots[i]].None?)
    && (forall i, j :: 0 <= i < j < |slots| ==> slots[i] < slots[j])
    && (forall i, x :: 0 <= i < |slots| && 0 <= x < slots[i] && t[x].None? ==> x in slots[..i])
  }

  lemma ReserveNext<T>(t: seq<Option<T>>, slots: seq<nat>, i: nat)
    requires Reserved(t, slots) && i < |t| && t[i].None?
    requires forall x :: x in slots ==> x < i
    requires forall j :: 0 <= j < i && t[j].None? ==> j in slots
    ensures Reserved(t, slots + [i])
  {
    var s2 := slots + [i];
    assert forall j :: 0 <= j < |slots| ==> slots[j] in slots;
    forall a, x | 0 <= a < |s2| && 0 <= x < s2[a] && t[x].None? ensures x in s2[..a] {
      if a < |slots| {
        assert s2[..a] == slots[..a];
      } else {
        assert s2[..a] == slots;
      }
    }
  }

  /** After i reserved slots are filled, the next one is the first free slot. */
  lemma UndoLast(w: World, slots: seq<nat>, count: nat, delete: Faults)
    requires 0 < count <= |slots|
    ensures Undo(w, slots[..count], delete)
      == Undo(UndoOne(w, slots[count - 1], Fault(delete, count - 1)), slots[..count - 1], delete)
  {
    assert slots[..count][..count - 1] == slots[..count - 1];
  }

  /** The slots from i on are the first that are left. */
  lemma NextReserved<T>(t: seq<Option<T>>, cur: seq<Option<T>>, slots: seq<nat>, i: nat)
    requires Reserved(t, slots) && i < |slots| && |cur| == |t|
    requires forall x :: 0 <= x < |t| ==> (cur[x].None? <==> t[x].None? && x !in slots[..i])
    ensures FirstFree(cur) == slots[i]
  {
    assert slots[i] !in slots[..i];
    FirstFreeIs(cur, slots[i]);
  }

  lemma {:induction false} ReservedIsFirst<T>(t: seq<Option<T>>, slots: seq<nat>, xs: seq<T>, i: nat)
    requires Reserved(t, slots) && |xs| == |slots| && i < |slots| && FreeCount(t) >= |xs|
    ensures var cur := PutAll(t, xs[..i]);
      && FirstFree(cur) == slots[i]
      && forall x :: 0 <= x < |t| ==> (cur[x].None? <==> t[x].None? && x !in slots[..i])
  {
    var cur := PutAll(t, xs[..i]);
    if i > 0 {
      ReservedIsFirst(t, slots, xs, i - 1);
      PutAllNext(t, xs, i - 1);
      TakeNext(slots, i - 1);
    }
    NextReserved(t, cur, slots, i);
  }

  lemma FirstFreeIs<T>(t: seq<Option<T>>, i: nat)
    requires i < |t| && t[i].None? && forall j :: 0 <= j < i ==> t[j].Some?
    ensures FirstFree(t) == i
  {}

  lemma PutAllNext<T>(t: seq<Option<T>>, xs: seq<T>, i: nat)
    requires i < |xs| && FreeCount(t) >= |xs|
    ensures FirstFree(PutAll(t, xs[..i])) < |t| && PutAll(t, xs[..i + 1]) == Put(PutAll(t, xs[..i]), xs[i])
  {
    assert xs[..i + 1][..i] == xs[..i];
    FreeCountPositive(PutAll(t, xs[..i]));
  }

  lemma AllDead(k: Kernel)
    requires KernelInv(k) && forall minor: nat :: !Live(k, minor)
    ensures k == Boot.k
  {
    forall i: nat | i < |k.devs| ensures k.devs[i].None? {
      assert !Live(k, i);
    }
    assert k.devs == Boot.k.devs;
    assert forall i :: 0 <= i < |k.maps| ==> k.maps[i].None?;
    assert k.maps == Boot.k.maps;
  }

  lemma CarryNext(pool: seq<Resource>, front: seq<Resource>, r: Resource, health: map<string, string>)
    ensures CarryAll(pool, front + [r], health) == CarryAll(pool, front, health) + [Carry(pool, r, health)]
  {
    assert (front + [r])[..|front|] == front;
  }

  lemma SetOfSlots(rows: seq<Option<Row>>, n: nat)
    requires n <= |rows|
    ensures |set i | 0 <= i < n && rows[i].Some? :: rows[i].value.allocId| <= n
  {
    var s := set i | 0 <= i < n && rows[i].Some? :: rows[i].value.allocId;
    if n == 0 {
      assert s == {};
    } else {
      var t := set i | 0 <= i < n - 1 && rows[i].Some? :: rows[i].value.allocId;
      SetOfSlots(rows, n - 1);
      assert s == t + if rows[n - 1].Some? then {rows[n - 1].value.allocId} else {};
    }
  }

  lemma SetOfSeq(s: seq<string>)
    ensures |set x | x in s| <= |s|
  {
    if s != [] {
      var front := s[..|s| - 1];
      SetOfSeq(front);
      assert (set x | x in s) == (set x | x in front) + {s[|s| - 1]};
    }
  }

  lemma UsedIdsFew(c: Ctl)
    requires CtlShaped(c)
    ensures |UsedIds(c)| <= 256
  {
    SetOfSlots(c.rows, |c.rows|);
    SetOfSeq(c.released);
  }

  /** Within 256 steps the printed counter does not repeat. */
  lemma WindowDistinct(k0: nat, k: nat)
    requires k0 <= k <= k0 + 256
    ensures forall j :: k0 <= j < k ==> Numbered(ID_PREFIX, j) != Numbered(ID_PREFIX, k)
  {
    forall j | k0 <= j < k ensures Numbered(ID_PREFIX, j) != Numbered(ID_PREFIX, k) {
      NumberedInjective(ID_PREFIX, j, k);
    }
  }
}
