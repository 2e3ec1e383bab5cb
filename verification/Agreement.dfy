/** The controller and the mock plugin keep the same books: while the plugin
    refuses no delete, their tables agree slot by slot. */
module Agreement {
  import opened Types
  import opened Tables
  import opened ReqShimIface
  import opened MockState
  import opened ControllerState
  import opened Ledger
  import opened Rollback
  import opened Grants
  import opened MountMirror
  import HostKey

  type Namespaces = seq<Option<Namespace>>
  type Mounts = seq<Option<MountRow>>

  predicate TwinSlot(r: Option<Row>, n: Option<Namespace>) {
    (r.None? && n.None?) || (r.Some? && n.Some? && n.value.allocId == r.value.allocId
      && NsPiece(n.value) == RowPiece(r.value))
  }

  /** Slot i holds an extent in one table exactly when it holds it in the other. */
  predicate Twin(rows: Rows, nss: Namespaces) {
    |rows| == |nss| && forall i :: 0 <= i < |rows| ==> TwinSlot(rows[i], nss[i])
  }

  predicate MountsAgree(logdevs: Logdevs, mounts: Mounts) {
    && (forall i :: 0 <= i < |logdevs| && logdevs[i].Some? ==>
          var l := logdevs[i].value;
          && Has(mounts, MountDev, l.dev)
          && mounts[Find(mounts, MountDev, l.dev)] == Some(MountRow(l.allocId, l.hostId, l.dev)))
    && (forall j :: 0 <= j < |mounts| && mounts[j].Some? ==> Has(logdevs, LogdevDev, mounts[j].value.dev))
    && (forall i, j :: 0 <= i < j < |mounts| && mounts[i].Some? && mounts[j].Some? ==>
      mounts[i].value.dev != mounts[j].value.dev)
  }

  function PiecesSize(ps: seq<Piece>): nat {
    if ps == [] then 0 else ps[|ps| - 1].off + ps[|ps| - 1].len
  }

  /** Every active allocation is a whole stripe. */
  predicate Striped(rows: Rows) {
    forall i :: 0 <= i < |rows| && rows[i].Some? ==>
      var ps := PiecesOfId(rows, rows[i].value.allocId); StripePieces(ps, PiecesSize(ps))
  }

  predicate Agrees(w: World) {
    && Twin(w.c.rows, w.m.nss) && NsFresh(w.m)
    && MountsAgree(w.c.logdevs, w.m.mounts)
    && Striped(w.c.rows)
  }

  predicate NoDeleteRefused(op: Op) {
    && (op.OpAlloc? ==> op.delete == map[] && op.req.size <= U64_MAX)
    && (op.OpRelease? ==> op.deletes == map[])
  }

  // ---- twin tables ----

  lemma {:induction false} TwinFree(rows: Rows, nss: Namespaces)
    requires Twin(rows, nss)
    ensures FirstFree(rows) == FirstFree(nss) && FreeCount(rows) == FreeCount(nss)
  {
    if rows != [] {
      var n := |rows| - 1;
      assert TwinSlot(rows[n], nss[n]);
      TwinFree(rows[..n], nss[..n]);
    }
    var f, g := FirstFree(rows), FirstFree(nss);
    assert f < |rows| ==> TwinSlot(rows[f], nss[f]);
    assert g < |rows| ==> TwinSlot(rows[g], nss[g]);
  }

  lemma TwinPieces(rows: Rows, nss: Namespaces, id: string)
    requires Twin(rows, nss)
    ensures Pick(nss, NsAlloc, NsPiece, id) == PiecesOfId(rows, id)
  {
    forall i | 0 <= i < |rows| ensures Share(nss[i], NsAlloc, NsPiece, id) == Share(rows[i], RowId, RowPiece, id) {
      assert TwinSlot(rows[i], nss[i]);
    }
    PickAgree(nss, rows, NsAlloc, NsPiece, RowId, RowPiece, id, id);
  }

  lemma AdvanceKeepsTwin(s: Placing, job: Job, create: Faults)
    requires CanPlace(s, job) && s.i < |job.sel| && NextStatus(s, job, create) == OK
    requires Twin(s.w.c.rows, s.w.m.nss)
    ensures Twin(Advance(s, job).w.c.rows, Advance(s, job).w.m.nss)
  {
    TwinFree(s.w.c.rows, s.w.m.nss);
  }

  lemma {:induction false} PlaceFromKeepsTwin(s: Placing, job: Job, create: Faults)
    requires CanPlace(s, job) && Twin(s.w.c.rows, s.w.m.nss) && NsFresh(s.w.m)
    requires PlaceFrom(s, job, create).0.w.m.nextNs < TWO64
    ensures var p := PlaceFrom(s, job, create).0; Twin(p.w.c.rows, p.w.m.nss) && NsFresh(p.w.m)
    decreases |job.sel| - s.i
  {
    if s.i < |job.sel| && NextStatus(s, job, create) == OK {
      AdvanceKeepsTwin(s, job, create);
      CreateKeepsFresh(s.w.m, RequestFor(s.w.c.pool, job, s.i, s.off));
      PlaceFromKeepsTwin(Advance(s, job), job, create);
    }
  }

  /** delete_ns never fails on an active row, and it clears that row's slot. */
  lemma DeleteHitsTwin(w: World, slot: nat)
    requires Twin(w.c.rows, w.m.nss) && NsFresh(w.m) && slot < |w.c.rows| && w.c.rows[slot].Some?
    ensures var row := w.c.rows[slot].value;
      DeleteNs(w.m, row.ssuId, row.nsId) == (w.m.(nss := w.m.nss[slot := None]), OK)
    ensures var u := UndoOne(w, slot, OK); Twin(u.c.rows, u.m.nss) && NsFresh(u.m)
  {
    var row := w.c.rows[slot].value;
    assert TwinSlot(w.c.rows[slot], w.m.nss[slot]);
    var i := FindNs(w.m.nss, row.ssuId, row.nsId);
    assert IsNs(w.m.nss[slot], row.ssuId, row.nsId);
    assert i == slot;
  }

  /** A release the plugin does not refuse always runs to the end. */
  lemma {:induction false} ReleaseFromKeepsTwin(w: World, id: string, i: nat, found: bool)
    requires i <= |w.c.rows| && Twin(w.c.rows, w.m.nss) && NsFresh(w.m)
    ensures var (w2, st, f2) := ReleaseFrom(w, id, i, found, map[]);
      st == OK && Twin(w2.c.rows, w2.m.nss) && NsFresh(w2.m)
    decreases |w.c.rows| - i
  {
    if i < |w.c.rows| {
      if !Carries(w.c.rows[i], RowId, id) {
        ReleaseFromKeepsTwin(w, id, i + 1, found);
      } else {
        DeleteHitsTwin(w, i);
        ReleaseFromKeepsTwin(UndoOne(w, i, OK), id, i + 1, true);
      }
    }
  }

  /** So an active allocation without devices can always be released, and is then
      gone from both tables. */
  lemma ReleaseSucceeds(w: World, id: string)
    requires WorldShaped(w) && Twin(w.c.rows, w.m.nss) && NsFresh(w.m)
    requires id != [] && Has(w.c.rows, RowId, id) && !Has(w.c.logdevs, LogdevId, id)
    ensures var (w2, st) := Release(w, id, map[]);
      st == OK && !Has(w2.c.rows, RowId, id) && !Has(w2.m.nss, NsAlloc, id)
  {
    ReleaseFromKeepsTwin(w, id, 0, false);
    ReleaseFromThins(w, id, 0, false, map[]);
    var w2 := ReleaseFrom(w, id, 0, false, map[]).0;
    HasSome(w.c.rows, RowId, id);
    HasSome(w2.c.rows, RowId, id);
    TwinPieces(w2.c.rows, w2.m.nss, id);
    PickNone(w2.c.rows, RowId, RowPiece, id);
    PickNone(w2.m.nss, NsAlloc, NsPiece, id);
  }

  /** The plugin's namespace table never fills before the controller's: an admitted
      request is granted unless the plugin refuses a create outright. */
  lemma AdmittedIsGranted(w: World, job: Job, delete: Faults)
    requires CanPlace(Start(w), job) && Twin(w.c.rows, w.m.nss)
    ensures Place(w, job, map[], delete).1.status == OK
  {
    TwinFree(w.c.rows, w.m.nss);
    OnlyCreateFails(Start(w), job);
  }

  // ---- stripes ----

  lemma StripeSize(ps: seq<Piece>, size: nat)
    requires StripePieces(ps, size)
    ensures PiecesSize(ps) == size
  {}

  lemma GrantKeepsStriped(w: World, job: Job, create: Faults)
    requires JobOk(w.c.pool, job) && CanPlace(Start(w), job) && DistinctSsus(w.c.pool) && job.req.size <= U64_MAX
    requires !Has(w.c.rows, RowId, job.id) && PlaceFrom(Start(w), job, create).1 == OK && Striped(w.c.rows)
    ensures Striped(PlaceFrom(Start(w), job, create).0.w.c.rows)
  {
    var p := PlaceFrom(Start(w), job, create).0;
    GrantedPieces(w, job, create);
    StripeSize(PiecesOfId(p.w.c.rows, job.id), job.req.size);
    PlaceFromExtends(w, Start(w), job, create);
    HasSome(w.c.rows, RowId, job.id);
    forall i | 0 <= i < |p.w.c.rows| && p.w.c.rows[i].Some?
      ensures var ps := PiecesOfId(p.w.c.rows, p.w.c.rows[i].value.allocId); StripePieces(ps, PiecesSize(ps))
    {
      if w.c.rows[i].Some? {
        assert !Carries(w.c.rows[i], RowId, job.id);
        ExtendedPick(w.c.rows, p.w.c.rows, job, w.c.pool, p.i, RowId, RowPiece, w.c.rows[i].value.allocId);
      }
    }
  }

  lemma ReleaseKeepsStriped(a: Rows, b: Rows, id: string)
    requires Striped(a) && Thinned(a, b, id) && forall i :: 0 <= i < |b| ==> !Carries(b[i], RowId, id)
    ensures Striped(b)
  {
    forall i | 0 <= i < |b| && b[i].Some?
      ensures var ps := PiecesOfId(b, b[i].value.allocId); StripePieces(ps, PiecesSize(ps))
    {
      assert b[i] == a[i] && !Carries(b[i], RowId, id);
      ThinnedPick(a, b, id, RowPiece, b[i].value.allocId);
    }
  }

  lemma SetStateKeepsStriped(rows: Rows, id: string, st: RowState, nss: Namespaces)
    requires Striped(rows) && Twin(rows, nss)
    ensures Striped(SetState(rows, id, st)) && Twin(SetState(rows, id, st), nss)
  {
    var rows2 := SetState(rows, id, st);
    forall i | 0 <= i < |rows2|
      ensures TwinSlot(rows2[i], nss[i])
      ensures rows2[i].Some? ==> var ps := PiecesOfId(rows2, rows2[i].value.allocId); StripePieces(ps, PiecesSize(ps))
    {
      assert TwinSlot(rows[i], nss[i]) && rows2[i] == WithState(rows[i], id, st);
      if rows2[i].Some? {
        SetStatePick(rows, id, st, RowId, RowPiece, rows2[i].value.allocId);
      }
    }
  }

  // ---- mounts ----

  lemma MountKeepsAgreement(logdevs: Logdevs, mounts: Mounts, req: MountReq, after: Logdevs)
    requires MountsAgree(logdevs, mounts) && Mounted(logdevs, after, req)
    requires !Has(logdevs, LogdevDev, req.dev) && !Has(mounts, MountDev, req.dev) && FirstFree(mounts) < |mounts|
    requires Has(after, LogdevDev, req.dev)
    ensures MountsAgree(after, Put(mounts, MountRow(req.allocId, req.hostId, req.dev)))
  {
    var row := MountRow(req.allocId, req.hostId, req.dev);
    var mounts2, f := Put(mounts, row), FirstFree(mounts);
    HasSome(mounts, MountDev, req.dev);
    HasSome(logdevs, LogdevDev, req.dev);
    forall i | 0 <= i < |after| && after[i].Some?
      ensures var l := after[i].value;
        && Has(mounts2, MountDev, l.dev)
        && mounts2[Find(mounts2, MountDev, l.dev)] == Some(MountRow(l.allocId, l.hostId, l.dev))
    {
      if logdevs[i].Some? {
        assert !Carries(logdevs[i], LogdevDev, req.dev);
      }
      FindPut(mounts, row, after[i].value.dev);
    }
    forall j | 0 <= j < |mounts2| && mounts2[j].Some? ensures Has(after, LogdevDev, mounts2[j].value.dev) {
      if j != f {
        var dev := mounts[j].value.dev;
        HasSome(logdevs, LogdevDev, dev);
        HasSome(after, LogdevDev, dev);
        var x := Find(logdevs, LogdevDev, dev);
        assert Carries(after[x], LogdevDev, dev);
      }
    }
    forall i, j | 0 <= i < j < |mounts2| && mounts2[i].Some? && mounts2[j].Some?
      ensures mounts2[i].value.dev != mounts2[j].value.dev
    {
      assert !Carries(mounts[i], MountDev, req.dev) && !Carries(mounts[j], MountDev, req.dev);
    }
  }

  /** Where a device's mount is found after one more is put in. */
  lemma FindPut(mounts: Mounts, row: MountRow, dev: string)
    requires FirstFree(mounts) < |mounts| && !Has(mounts, MountDev, row.dev)
    requires dev == row.dev || Has(mounts, MountDev, dev)
    ensures var mounts2 := Put(mounts, row);
      Has(mounts2, MountDev, dev) && mounts2[Find(mounts2, MountDev, dev)] == if dev == row.dev then Some(row)
        else mounts[Find(mounts, MountDev, dev)]
  {
    var mounts2, f := Put(mounts, row), FirstFree(mounts);
    HasSome(mounts, MountDev, row.dev);
    var j := if dev == row.dev then f else Find(mounts, MountDev, dev);
    assert Carries(mounts2[j], MountDev, dev);
    HasSome(mounts2, MountDev, dev);
    assert forall x :: 0 <= x < |mounts| && x != f ==> mounts2[x] == mounts[x];
    if dev == row.dev {
      assert forall x :: 0 <= x < |mounts| && x != f ==> !Carries(mounts2[x], MountDev, dev);
    } else {
      assert forall x :: 0 <= x < j ==> !Carries(mounts2[x], MountDev, dev);
    }
  }

  lemma UnmountKeepsAgreement(logdevs: Logdevs, mounts: Mounts, dev: string)
    requires MountsAgree(logdevs, mounts) && Has(mounts, MountDev, dev)
    ensures MountsAgree(Drop(logdevs, LogdevDev, dev), mounts[Find(mounts, MountDev, dev) := None])
  {
    var j0 := Find(mounts, MountDev, dev);
    var after, mounts2 := Drop(logdevs, LogdevDev, dev), mounts[j0 := None];
    forall i | 0 <= i < |after| && after[i].Some?
      ensures var l := after[i].value;
        && Has(mounts2, MountDev, l.dev)
        && mounts2[Find(mounts2, MountDev, l.dev)] == Some(MountRow(l.allocId, l.hostId, l.dev))
    {
      var l := after[i].value;
      assert after[i] == logdevs[i] && l.dev != dev;
      var j := Find(mounts, MountDev, l.dev);
      assert Carries(mounts2[j], MountDev, l.dev);
      HasSome(mounts2, MountDev, l.dev);
      assert forall x :: 0 <= x < |mounts| && x != j ==> !Carries(mounts2[x], MountDev, l.dev);
    }
    forall j | 0 <= j < |mounts2| && mounts2[j].Some? ensures Has(after, LogdevDev, mounts2[j].value.dev) {
      var d := mounts[j].value.dev;
      assert d != dev;
      HasSome(logdevs, LogdevDev, d);
      HasSome(after, LogdevDev, d);
      assert Carries(after[Find(logdevs, LogdevDev, d)], LogdevDev, d);
    }
  }

  /** A device the controller does not know is unknown to the plugin too. */
  lemma UnknownToBoth(logdevs: Logdevs, mounts: Mounts, dev: string)
    requires MountsAgree(logdevs, mounts)
    ensures Has(logdevs, LogdevDev, dev) <==> Has(mounts, MountDev, dev)
  {
    if Has(logdevs, LogdevDev, dev) {
      assert Carries(logdevs[Find(logdevs, LogdevDev, dev)], LogdevDev, dev);
    }
    if Has(mounts, MountDev, dev) {
      assert Carries(mounts[Find(mounts, MountDev, dev)], MountDev, dev);
    }
  }

  // ---- the plugin's mount table never fills first ----

  function UsedSlots<T>(t: seq<Option<T>>): set<nat> { set i: nat | i < |t| && t[i].Some? }

  lemma {:induction false} UsedCount<T>(t: seq<Option<T>>)
    ensures |UsedSlots(t)| == |t| - FreeCount(t)
  {
    if t != [] {
      var n := |t| - 1;
      UsedCount(t[..n]);
      assert UsedSlots(t) == UsedSlots(t[..n]) + if t[n].Some? then {n} else {};
    }
  }

  lemma {:induction false} InjectedCard(a: set<nat>, b: set<nat>, f: map<nat, nat>)
    requires forall x :: x in a ==> x in f && f[x] in b
    requires forall x, y :: x in a && y in a && x != y ==> f[x] != f[y]
    ensures |a| <= |b|
    decreases |a|
  {
    if a != {} {
      var x :| x in a;
      InjectedCard(a - {x}, b - {f[x]}, f);
    }
  }

  lemma MountTableHasRoom(logdevs: Logdevs, mounts: Mounts)
    requires MountsAgree(logdevs, mounts) && |mounts| >= |logdevs| && FreeCount(logdevs) > 0
    ensures FirstFree(mounts) < |mounts|
  {
    var f := map j: nat | j < |mounts| && mounts[j].Some? :: Find(logdevs, LogdevDev, mounts[j].value.dev);
    var a, b := UsedSlots(mounts), UsedSlots(logdevs);
    forall j | j in a ensures j in f && f[j] in b && Carries(logdevs[f[j]], LogdevDev, mounts[j].value.dev) {}
    InjectedCard(a, b, f);
    UsedCount(mounts);
    UsedCount(logdevs);
    FreeCountPositive(mounts);
  }

  // ---- runs ----

  lemma AllocKeepsAgreement(w: World, req: AllocReq, cap: Option<nat>, create: Faults)
    requires WorldShaped(w) && Books(w.c) && RowsOk(w.c) && Agrees(w) && req.size <= U64_MAX && w.c.nextId < TWO64
    requires Alloc(w, req, cap, create, map[]).0.m.nextNs < TWO64
    ensures Agrees(Alloc(w, req, cap, create, map[]).0)
  {
    SearchIsImmediate(w);
    AllocCases(w, req, cap, create, map[]);
    if req.size > 0 && HostKey.Key(req.hosts).Some? {
      var a := Admit(w.c, req, HostKey.Key(req.hosts).value, cap);
      if a.Admitted? && (Alloc(w, req, cap, create, map[]) == Place(w, a.job, create, map[])) {
        PlaceKeepsAgreement(w, a.job, create);
      }
    }
  }

  lemma PlaceKeepsAgreement(w: World, job: Job, create: Faults)
    requires JobOk(w.c.pool, job) && CanPlace(Start(w), job) && DistinctSsus(w.c.pool) && job.req.size <= U64_MAX
    requires !Has(w.c.rows, RowId, job.id) && Agrees(w) && Place(w, job, create, map[]).0.m.nextNs < TWO64
    ensures Agrees(Place(w, job, create, map[]).0)
  {
    var (p, st) := PlaceFrom(Start(w), job, create);
    PlaceFromKeepsTwin(Start(w), job, create);
    PlaceFromExtends(w, Start(w), job, create);
    if st == OK {
      GrantKeepsStriped(w, job, create);
    } else {
      PlaceAllOrNothing(w, job, create, map[]);
      FreshLater(w.m, Place(w, job, create, map[]).0.m);
    }
  }

  lemma FreshLater(m: Mock, m2: Mock)
    requires NsFresh(m) && m2.nss == m.nss && m2.nextNs >= m.nextNs
    ensures NsFresh(m2)
  {}

  lemma MountedKeepsAgreement(w: World, req: MountReq, d: Devices)
    requires Agrees(w) && !Has(w.c.logdevs, LogdevDev, req.dev) && !Has(w.m.mounts, MountDev, req.dev)
    requires FirstFree(w.m.mounts) < |w.m.mounts|
    requires var pieces := PiecesOfId(w.c.rows, req.allocId);
      pieces != [] && FreeCount(w.c.logdevs) >= |pieces| && AllConnect(pieces, d)
    ensures var after := PutAll(w.c.logdevs, NewLogdevs(req, PiecesOfId(w.c.rows, req.allocId), d));
      && MountsAgree(after, Put(w.m.mounts, MountRow(req.allocId, req.hostId, req.dev)))
      && Striped(SetState(w.c.rows, req.allocId, MOUNTED)) && Twin(SetState(w.c.rows, req.allocId, MOUNTED), w.m.nss)
  {
    var ls := NewLogdevs(req, PiecesOfId(w.c.rows, req.allocId), d);
    MountRows(w.c.logdevs, req, PiecesOfId(w.c.rows, req.allocId), d);
    PutAllHas(w.c.logdevs, ls, LogdevDev, req.dev);
    MountKeepsAgreement(w.c.logdevs, w.m.mounts, req, PutAll(w.c.logdevs, ls));
    SetStateKeepsStriped(w.c.rows, req.allocId, MOUNTED, w.m.nss);
  }

  lemma MountOpKeepsAgreement(w: World, req: MountReq, d: Devices, f: KernelFaults)
    requires WorldShaped(w) && Agrees(w)
    ensures Agrees(MountOp(w, req, d, f).0)
  {
    MountCases(w, req, d, f);
    MountNsCases(w.m, w.k, MountRow(req.allocId, req.hostId, req.dev), d, f);
    var (w2, st) := MountOp(w, req, d, f);
    if w2 != w && st == OK {
      MountedKeepsAgreement(w, req, d);
    }
  }

  lemma UnmountedKeepsAgreement(w: World, dev: string, id: string, st: RowState)
    requires Agrees(w) && Has(w.m.mounts, MountDev, dev)
    ensures MountsAgree(Drop(w.c.logdevs, LogdevDev, dev), w.m.mounts[Find(w.m.mounts, MountDev, dev) := None])
    ensures Striped(SetState(w.c.rows, id, st)) && Twin(SetState(w.c.rows, id, st), w.m.nss)
  {
    UnmountKeepsAgreement(w.c.logdevs, w.m.mounts, dev);
    SetStateKeepsStriped(w.c.rows, id, st, w.m.nss);
  }

  lemma UnmountOpKeepsAgreement(w: World, dev: string, d: Devices, f: KernelFaults)
    requires WorldShaped(w) && Agrees(w)
    ensures Agrees(UnmountOp(w, dev, d, f).0)
  {
    UnmountCases(w, dev, d, f);
    UnmountNsCases(w.m, w.k, dev, d, f);
    UnknownToBoth(w.c.logdevs, w.m.mounts, dev);
    if Has(w.c.logdevs, LogdevDev, dev) {
      var id := w.c.logdevs[Find(w.c.logdevs, LogdevDev, dev)].value.allocId;
      UnmountedKeepsAgreement(w, dev, id, MOUNTED);
      UnmountedKeepsAgreement(w, dev, id, ACTIVE);
    }
  }

  lemma ReleaseKeepsAgreement(w: World, id: string)
    requires WorldShaped(w) && Agrees(w)
    ensures Agrees(Release(w, id, map[]).0) && Release(w, id, map[]).0.m.nextNs == w.m.nextNs
  {
    ReleaseFromKeepsTwin(w, id, 0, false);
    ReleaseFromThins(w, id, 0, false, map[]);
    if id != [] && !Has(w.c.logdevs, LogdevId, id) {
      ReleaseKeepsStriped(w.c.rows, ReleaseFrom(w, id, 0, false, map[]).0.c.rows, id);
    }
  }

  lemma StepKeepsAgreement(w: World, op: Op)
    requires WorldShaped(w) && Books(w.c) && RowsOk(w.c) && Agrees(w) && NoDeleteRefused(op)
    requires Step(w, op).c.nextId < TWO64 && Step(w, op).m.nextNs < TWO64
    ensures Agrees(Step(w, op))
  {
    NextIdGrows(w, op);
    match op
    case OpRefresh(d, h) =>
    case OpAlloc(req, cap, create, delete) => AllocKeepsAgreement(w, req, cap, create);
    case OpRelease(id, deletes) => ReleaseKeepsAgreement(w, id);
    case OpMount(req, d, f) => MountOpKeepsAgreement(w, req, d, f);
    case OpUnmount(dev, d, f) => UnmountOpKeepsAgreement(w, dev, d, f);
  }

  lemma NextNsGrows(w: World, op: Op)
    requires WorldShaped(w)
    ensures w.m.nextNs <= Step(w, op).m.nextNs
  {
    match op
    case OpRefresh(d, h) =>
    case OpAlloc(req, cap, create, delete) => AllocCases(w, req, cap, create, delete);
    case OpRelease(id, deletes) => ReleaseFromThins(w, id, 0, false, deletes);
    case OpMount(req, d, f) => MountKeepsNextNs(w, req, d, f);
    case OpUnmount(dev, d, f) => UnmountKeepsNextNs(w, dev, d, f);
  }

  lemma MountKeepsNextNs(w: World, req: MountReq, d: Devices, f: KernelFaults)
    requires WorldShaped(w)
    ensures MountOp(w, req, d, f).0.m.nextNs == w.m.nextNs
  {
    MountCases(w, req, d, f);
    MountNsCases(w.m, w.k, MountRow(req.allocId, req.hostId, req.dev), d, f);
  }

  lemma UnmountKeepsNextNs(w: World, dev: string, d: Devices, f: KernelFaults)
    requires WorldShaped(w)
    ensures UnmountOp(w, dev, d, f).0.m.nextNs == w.m.nextNs
  {
    UnmountCases(w, dev, d, f);
    UnmountNsCases(w.m, w.k, dev, d, f);
  }

  /** In every state reached without a refused delete and with fewer than 2^64
      namespaces, the two tables are twins, mounts agree, and every allocation is
      a whole stripe. */
  lemma {:induction false} RunKeepsAgreement(w: World, ops: seq<Op>)
    requires WorldShaped(w) && Books(w.c) && RowsOk(w.c) && Agrees(w) && RunFits(ops)
    requires forall i :: 0 <= i < |ops| ==> NoDeleteRefused(ops[i])
    requires Run(w, ops).c.nextId < TWO64 && Run(w, ops).m.nextNs < TWO64
    ensures Agrees(Run(w, ops))
  {
    if ops != [] {
      var front, last := ops[..|ops| - 1], ops[|ops| - 1];
      Conservation(w, front);
      NextIdGrows(Run(w, front), last);
      NextNsGrows(Run(w, front), last);
      RunKeepsRowsOk(w, front);
      RunKeepsAgreement(w, front);
      StepKeepsAgreement(Run(w, front), last);
    }
  }
}
