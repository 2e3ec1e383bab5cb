/** Physical placement: as long as extents leave an SSU in the reverse order they
    came, the active ones tile its used bytes. */
module Tiling {
  import opened Types
  import opened Tables
  import opened Decimal
  import opened ReqShimIface
  import opened MockState
  import opened Placement
  import opened ControllerState
  import opened Ledger
  import opened Rollback
  import opened Grants
  import HostKey

  function StartByte(r: Row): nat { r.phys * SECTOR }
  function EndByte(r: Row): nat { r.phys * SECTOR + r.len }

  predicate On(s: Option<Row>, ssuId: string) { s.Some? && s.value.ssuId == ssuId }

  predicate Covers(s: Option<Row>, ssuId: string, b: nat) {
    On(s, ssuId) && StartByte(s.value) <= b < EndByte(s.value)
  }

  ghost predicate Covered(rows: Rows, ssuId: string, b: nat) {
    exists i :: 0 <= i < |rows| && Covers(rows[i], ssuId, b)
  }

  predicate Apart(a: Row, b: Row) { EndByte(a) <= StartByte(b) || EndByte(b) <= StartByte(a) }

  predicate Inside(pool: seq<Resource>, rows: Rows) {
    forall p, i :: 0 <= p < |pool| && 0 <= i < |rows| && On(rows[i], pool[p].ssuId) ==>
      EndByte(rows[i].value) <= pool[p].used
  }

  predicate PairwiseApart(rows: Rows) {
    forall i, j ::
      0 <= i < j < |rows| && rows[i].Some? && rows[j].Some? && rows[i].value.ssuId == rows[j].value.ssuId ==>
      Apart(rows[i].value, rows[j].value)
  }

  /** The active extents of every SSU are disjoint and cover exactly the bytes
      below its fill mark. */
  ghost predicate Tiled(c: Ctl) {
    && Inside(c.pool, c.rows)
    && PairwiseApart(c.rows)
    && forall p, b :: 0 <= p < |c.pool| && 0 <= b < c.pool[p].used ==> Covered(c.rows, c.pool[p].ssuId, b)
  }

  // ---- placing ----

  lemma AdvanceKeepsTiled(s: Placing, job: Job)
    requires CanPlace(s, job) && s.i < |job.sel| && Books(s.w.c) && Tiled(s.w.c)
    requires Room(s.w.c.pool[job.sel[s.i]], JobLen(job, s.i))
    ensures Tiled(Advance(s, job).w.c)
  {
    var c, c2 := s.w.c, Advance(s, job).w.c;
    var f, p := FirstFree(c.rows), job.sel[s.i];
    var row := c2.rows[f].value;
    assert StartByte(row) == c.pool[p].used && EndByte(row) == c2.pool[p].used;
    assert forall i :: 0 <= i < |c.rows| && i != f ==> c2.rows[i] == c.rows[i];
    forall q, b | 0 <= q < |c2.pool| && 0 <= b < c2.pool[q].used ensures Covered(c2.rows, c2.pool[q].ssuId, b) {
      if q == p && b >= c.pool[p].used {
        assert Covers(c2.rows[f], c2.pool[q].ssuId, b);
      } else {
        assert Covered(c.rows, c.pool[q].ssuId, b);
        var i :| 0 <= i < |c.rows| && Covers(c.rows[i], c.pool[q].ssuId, b);
        assert Covers(c2.rows[i], c2.pool[q].ssuId, b);
      }
    }
    InsideAfter(c, c2, f, p);
    forall i, j | 0 <= i < j < |c2.rows| && c2.rows[i].Some? && c2.rows[j].Some?
      && c2.rows[i].value.ssuId == c2.rows[j].value.ssuId
      ensures Apart(c2.rows[i].value, c2.rows[j].value)
    {
      if i == f {
        assert On(c.rows[j], c.pool[p].ssuId);
      } else if j == f {
        assert On(c.rows[i], c.pool[p].ssuId);
      }
    }
  }

  lemma InsideAfter(c: Ctl, c2: Ctl, f: nat, p: nat)
    requires Inside(c.pool, c.rows) && DistinctSsus(c.pool) && f < |c.rows| == |c2.rows| && p < |c.pool| == |c2.pool|
    requires forall i :: 0 <= i < |c.rows| && i != f ==> c2.rows[i] == c.rows[i]
    requires c2.pool == c.pool[p := c2.pool[p]] && c2.pool[p].ssuId == c.pool[p].ssuId
    requires c2.pool[p].used >= c.pool[p].used
    requires c2.rows[f].Some? && c2.rows[f].value.ssuId == c.pool[p].ssuId
    requires EndByte(c2.rows[f].value) == c2.pool[p].used
    ensures Inside(c2.pool, c2.rows)
  {}

  lemma {:induction false} PlaceFromKeepsTiled(w0: World, s: Placing, job: Job, create: Faults)
    requires JobOk(w0.c.pool, job) && CanPlace(s, job) && Books(s.w.c) && Tiled(s.w.c)
    requires PoolAt(w0.c.pool, s.w.c.pool, job, s.i)
    ensures Tiled(PlaceFrom(s, job, create).0.w.c)
    decreases |job.sel| - s.i
  {
    if s.i < |job.sel| && NextStatus(s, job, create) == OK {
      AdvanceKeepsTiled(s, job);
      AdvanceKeepsBooks(s, job);
      AdvancePool(w0, s, job);
      PlaceFromKeepsTiled(w0, Advance(s, job), job, create);
    }
  }

  lemma AllocKeepsTiled(w: World, req: AllocReq, cap: Option<nat>, create: Faults, delete: Faults)
    requires WorldShaped(w) && Books(w.c) && Tiled(w.c)
    ensures Tiled(Alloc(w, req, cap, create, delete).0.c)
  {
    AllocCases(w, req, cap, create, delete);
    var w1 := Searched(w);
    if req.size > 0 && HostKey.Key(req.hosts).Some? {
      var a := Admit(w1.c, req, HostKey.Key(req.hosts).value, cap);
      if a.Admitted? {
        PlaceKeepsTiled(w1, a.job, create, delete);
      }
    }
  }

  lemma PlaceKeepsTiled(w: World, job: Job, create: Faults, delete: Faults)
    requires Books(w.c) && Tiled(w.c) && JobOk(w.c.pool, job) && CanPlace(Start(w), job)
    ensures Tiled(Place(w, job, create, delete).0.c)
  {
    PlaceFromKeepsTiled(w, Start(w), job, create);
    if Place(w, job, create, delete).1.status != OK {
      PlaceAllOrNothing(w, job, create, delete);
    } else {
      SameTables(PlaceFrom(Start(w), job, create).0.w.c, Place(w, job, create, delete).0.c);
    }
  }

  // ---- releasing ----

  /** No active extent on the same SSU starts later. */
  predicate Top(rows: Rows, i: nat)
    requires i < |rows| && rows[i].Some?
  {
    forall j :: 0 <= j < |rows| && j != i && On(rows[j], rows[i].value.ssuId) ==>
      rows[j].value.phys < rows[i].value.phys
  }

  predicate AllTop(rows: Rows, id: string) {
    forall i :: 0 <= i < |rows| && Carries(rows[i], RowId, id) ==> Top(rows, i)
  }

  /** A top extent ends at the fill mark. */
  lemma TopEndsAtMark(c: Ctl, i: nat, p: nat)
    requires Tiled(c) && Spread(c.rows) && i < |c.rows| && p < |c.pool| && On(c.rows[i], c.pool[p].ssuId)
    requires Top(c.rows, i)
    ensures EndByte(c.rows[i].value) == c.pool[p].used
  {
    var used := c.pool[p].used;
    assert EndByte(c.rows[i].value) <= used;
    assert Covered(c.rows, c.pool[p].ssuId, used - 1);
    var j :| 0 <= j < |c.rows| && Covers(c.rows[j], c.pool[p].ssuId, used - 1);
    assert On(c.rows[j], c.rows[i].value.ssuId);
  }

  lemma UndoOneKeepsTiled(w: World, slot: nat)
    requires Books(w.c) && Spread(w.c.rows) && Tiled(w.c)
    requires slot < |w.c.rows| && w.c.rows[slot].Some? && Top(w.c.rows, slot)
    ensures Tiled(UndoOne(w, slot, OK).c)
  {
    var c, c2 := w.c, UndoOne(w, slot, OK).c;
    var row := c.rows[slot].value;
    var p := FindRes(c.pool, row.ssuId);
    UndoOneKeepsBooks(w, slot, OK);
    TopEndsAtMark(c, slot, p);
    assert c2.pool[p].used == StartByte(row);
    assert forall i :: 0 <= i < |c.rows| && i != slot ==> c2.rows[i] == c.rows[i];
    forall q, b | 0 <= q < |c2.pool| && 0 <= b < c2.pool[q].used ensures Covered(c2.rows, c2.pool[q].ssuId, b) {
      assert Covered(c.rows, c.pool[q].ssuId, b);
      var i :| 0 <= i < |c.rows| && Covers(c.rows[i], c.pool[q].ssuId, b);
      FindIs(c.pool, q);
      assert Covers(c2.rows[i], c2.pool[q].ssuId, b);
    }
    forall q, i | 0 <= q < |c2.pool| && 0 <= i < |c2.rows| && On(c2.rows[i], c2.pool[q].ssuId)
      ensures EndByte(c2.rows[i].value) <= c2.pool[q].used
    {
      FindIs(c.pool, q);
      assert On(c.rows[i], c.pool[q].ssuId);
      if q == p { Below2(c.rows, slot, i); }
    }
  }

  lemma Below2(rows: Rows, top: nat, i: nat)
    requires PairwiseApart(rows) && Spread(rows) && top < |rows| && i < |rows| && i != top
    requires rows[top].Some? && Top(rows, top) && On(rows[i], rows[top].value.ssuId)
    ensures EndByte(rows[i].value) <= StartByte(rows[top].value)
  {}

  lemma ThinnedTop(a: Rows, b: Rows, id: string)
    requires Thinned(a, b, id) && AllTop(a, id)
    ensures AllTop(b, id)
  {}

  lemma {:induction false} ReleaseFromKeepsTiled(w: World, id: string, i: nat, found: bool, delete: Faults)
    requires i <= |w.c.rows| && Books(w.c) && Spread(w.c.rows) && Tiled(w.c) && AllTop(w.c.rows, id)
    ensures Tiled(ReleaseFrom(w, id, i, found, delete).0.c)
    decreases |w.c.rows| - i
  {
    if i < |w.c.rows| {
      if !Carries(w.c.rows[i], RowId, id) {
        ReleaseFromKeepsTiled(w, id, i + 1, found, delete);
      } else {
        var row := w.c.rows[i].value;
        var st := if Fault(delete, i) != OK then Fault(delete, i) else DeleteNs(w.m, row.ssuId, row.nsId).1;
        if st == OK {
          var w1 := UndoOne(w, i, OK);
          UndoOneKeepsTiled(w, i);
          UndoOneKeepsBooks(w, i, OK);
          ThinnedTop(w.c.rows, w1.c.rows, id);
          ThinnedSpread(w.c.rows, w1.c.rows, id);
          ReleaseFromKeepsTiled(w1, id, i + 1, true, delete);
        }
      }
    }
  }

  /** When a row of the released id was not on top, some row stays behind that
      ends above the lowered mark. */
  lemma BuriedReleaseSticksOut(a: Ctl, b: Ctl, id: string, i: nat)
    requires Books(a) && Spread(a.rows) && Tiled(a) && Thinned(a.rows, b.rows, id)
    requires forall j :: 0 <= j < |b.rows| ==> !Carries(b.rows[j], RowId, id)
    requires |b.pool| == |a.pool| && forall q :: 0 <= q < |a.pool| ==> b.pool[q].ssuId == a.pool[q].ssuId
    requires SameSlack(a, b)
    requires i < |a.rows| && Carries(a.rows[i], RowId, id) && !Top(a.rows, i)
    ensures !Inside(b.pool, b.rows)
  {
    var row := a.rows[i].value;
    var p := FindRes(a.pool, row.ssuId);
    var used := a.pool[p].used;
    var t :| 0 <= t < |a.rows| && t != i && On(a.rows[t], row.ssuId) && a.rows[t].value.phys >= row.phys;
    Spreads(a.rows, i, t);
    assert EndByte(a.rows[t].value) <= used;
    assert Covered(a.rows, row.ssuId, used - 1);
    var u :| 0 <= u < |a.rows| && Covers(a.rows[u], row.ssuId, used - 1);
    assert u != i;
    OneRowPerSsu(a.rows, i, u);
    assert b.rows[u] == a.rows[u];
    OnlyRowOfId(a.rows, b.rows, id, i);
    SameFind(a.pool, b.pool, row.ssuId);
    assert Slack(b, row.ssuId) == Slack(a, row.ssuId);
    assert On(b.rows[u], b.pool[p].ssuId);
  }

  lemma OneRowPerSsu(rows: Rows, i: nat, u: nat)
    requires Spread(rows) && i < |rows| && u < |rows| && i != u
    requires rows[i].Some? && On(rows[u], rows[i].value.ssuId)
    ensures rows[u].value.allocId != rows[i].value.allocId
  {}

  lemma Spreads(rows: Rows, i: nat, t: nat)
    requires Spread(rows) && PairwiseApart(rows) && i < |rows| && t < |rows| && i != t
    requires rows[i].Some? && On(rows[t], rows[i].value.ssuId) && rows[t].value.phys >= rows[i].value.phys
    ensures EndByte(rows[i].value) <= StartByte(rows[t].value) < EndByte(rows[t].value)
  {}

  lemma OnlyRowOfId(a: Rows, b: Rows, id: string, i: nat)
    requires Thinned(a, b, id) && Spread(a) && i < |a| && Carries(a[i], RowId, id) && b[i].None?
    ensures LenOn(b, a[i].value.ssuId) == LenOn(a, a[i].value.ssuId) - a[i].value.len
  {
    var ssu := a[i].value.ssuId;
    LenOnUpdate(a, i, None, ssu);
    LenOnAgree(b, a[i := None], ssu);
  }

  /** A release keeps the tiling exactly when every extent of the allocation is the
      last one on its SSU. After any other release an active extent ends above the
      mark at which the next one will start. */
  lemma ReleaseTilesIff(w: World, id: string, delete: Faults)
    requires WorldShaped(w) && Books(w.c) && Spread(w.c.rows) && Tiled(w.c)
    requires id != [] && !Has(w.c.logdevs, LogdevId, id) && ReleaseFrom(w, id, 0, false, delete).1 == OK
    ensures Tiled(Release(w, id, delete).0.c) <==> AllTop(w.c.rows, id)
  {
    var c2 := ReleaseFrom(w, id, 0, false, delete).0.c;
    ReleaseFromThins(w, id, 0, false, delete);
    ReleaseFromKeepsBooks(w, id, 0, false, delete);
    SameTables(Release(w, id, delete).0.c, c2);
    if AllTop(w.c.rows, id) {
      ReleaseFromKeepsTiled(w, id, 0, false, delete);
    } else {
      NotAllTop(w.c, c2, id);
    }
  }

  lemma NotAllTop(c: Ctl, c2: Ctl, id: string)
    requires Books(c) && Spread(c.rows) && Tiled(c) && !AllTop(c.rows, id) && SameSlack(c, c2)
    requires |c2.pool| == |c.pool| && forall q :: 0 <= q < |c.pool| ==> c2.pool[q].ssuId == c.pool[q].ssuId
    requires Thinned(c.rows, c2.rows, id) && forall j :: 0 <= j < |c.rows| ==> !Carries(c2.rows[j], RowId, id)
    ensures !Tiled(c2)
  {
    var i :| 0 <= i < |c.rows| && Carries(c.rows[i], RowId, id) && !Top(c.rows, i);
    BuriedReleaseSticksOut(c, c2, id, i);
  }

  lemma SameTables(a: Ctl, b: Ctl)
    requires a.pool == b.pool && a.rows == b.rows
    ensures Tiled(a) <==> Tiled(b)
  {}

  // ---- exactly when active extents stay disjoint ----

  /** No active extent on the SSU meets the bytes from lo to hi. */
  predicate Free(rows: Rows, ssuId: string, lo: nat, hi: nat) {
    forall i :: 0 <= i < |rows| && On(rows[i], ssuId) ==> EndByte(rows[i].value) <= lo || hi <= StartByte(rows[i].value)
  }

  /** The bytes that extent j of the job will take. */
  predicate FreeFor(rows: Rows, pool: seq<Resource>, job: Job, j: nat)
    requires j < |job.sel| && job.sel[j] < |pool|
  {
    var r := pool[job.sel[j]];
    Free(rows, r.ssuId, r.used, r.used + JobLen(job, j))
  }

  predicate JobFree(rows: Rows, pool: seq<Resource>, job: Job, i: nat)
    requires forall j :: 0 <= j < |job.sel| ==> job.sel[j] < |pool|
  {
    forall j :: i <= j < |job.sel| ==> FreeFor(rows, pool, job, j)
  }

  lemma PutApartIff(rows: Rows, row: Row)
    requires FirstFree(rows) < |rows|
    ensures PairwiseApart(Put(rows, row)) <==>
      PairwiseApart(rows) && Free(rows, row.ssuId, StartByte(row), EndByte(row))
  {
    var after, f := Put(rows, row), FirstFree(rows);
    assert forall i :: 0 <= i < |rows| && i != f ==> after[i] == rows[i];
    if PairwiseApart(after) {
      forall i, j | 0 <= i < j < |rows| && rows[i].Some? && rows[j].Some? && rows[i].value.ssuId == rows[j].value.ssuId
        ensures Apart(rows[i].value, rows[j].value)
      {
        assert after[i] == rows[i] && after[j] == rows[j];
      }
      forall i | 0 <= i < |rows| && On(rows[i], row.ssuId)
        ensures EndByte(rows[i].value) <= StartByte(row) || EndByte(row) <= StartByte(rows[i].value)
      {
        assert after[i] == rows[i] && after[f] == Some(row);
        if i < f {
          assert Apart(after[i].value, after[f].value);
        } else {
          assert Apart(after[f].value, after[i].value);
        }
      }
    }
    if PairwiseApart(rows) && Free(rows, row.ssuId, StartByte(row), EndByte(row)) {
      PutKeepsApart(rows, row);
    }
  }

  lemma PutKeepsApart(rows: Rows, row: Row)
    requires FirstFree(rows) < |rows| && PairwiseApart(rows) && Free(rows, row.ssuId, StartByte(row), EndByte(row))
    ensures PairwiseApart(Put(rows, row))
  {
    var after, f := Put(rows, row), FirstFree(rows);
    forall i, j | 0 <= i < j < |after| && after[i].Some? && after[j].Some?
      && after[i].value.ssuId == after[j].value.ssuId
      ensures Apart(after[i].value, after[j].value)
    {
      if i == f {
        assert On(rows[j], row.ssuId);
      } else if j == f {
        assert On(rows[i], row.ssuId);
      }
    }
  }

  /** One placement keeps extents disjoint exactly when nothing active meets the
      bytes behind the fill mark that it takes. */
  lemma AdvanceApartIff(s: Placing, job: Job)
    requires CanPlace(s, job) && s.i < |job.sel| && Room(s.w.c.pool[job.sel[s.i]], JobLen(job, s.i))
    ensures PairwiseApart(Advance(s, job).w.c.rows) <==>
      PairwiseApart(s.w.c.rows) && FreeFor(s.w.c.rows, s.w.c.pool, job, s.i)
  {
    var r := s.w.c.pool[job.sel[s.i]];
    var row := NewRow(job, RequestFor(s.w.c.pool, job, s.i, s.off), Numbered(NS_PREFIX, s.w.m.nextNs), s.i);
    assert StartByte(row) == r.used && EndByte(row) == r.used + JobLen(job, s.i);
    FreeCountPositive(s.w.c.rows);
    PutApartIff(s.w.c.rows, row);
  }

  /** A placement on one SSU leaves the bytes of the job's other SSUs as they were. */
  lemma AdvanceKeepsFree(s: Placing, job: Job, j: nat)
    requires CanPlace(s, job) && s.i < j < |job.sel| && Distinct(job.sel) && DistinctSsus(s.w.c.pool)
    ensures FreeFor(Advance(s, job).w.c.rows, Advance(s, job).w.c.pool, job, j) <==>
      FreeFor(s.w.c.rows, s.w.c.pool, job, j)
  {
    var c, c2, f := s.w.c, Advance(s, job).w.c, FirstFree(s.w.c.rows);
    assert job.sel[j] != job.sel[s.i];
    assert c2.pool[job.sel[j]] == c.pool[job.sel[j]];
    var ssu := c.pool[job.sel[j]].ssuId;
    assert !On(c2.rows[f], ssu) && !On(c.rows[f], ssu);
    assert forall i :: 0 <= i < |c.rows| && i != f ==> c2.rows[i] == c.rows[i];
  }

  lemma AdvanceKeepsJobFree(s: Placing, job: Job)
    requires CanPlace(s, job) && s.i < |job.sel| && Distinct(job.sel) && DistinctSsus(s.w.c.pool)
    ensures JobFree(Advance(s, job).w.c.rows, Advance(s, job).w.c.pool, job, s.i + 1) <==>
      JobFree(s.w.c.rows, s.w.c.pool, job, s.i + 1)
  {
    forall j | s.i < j < |job.sel|
      ensures FreeFor(Advance(s, job).w.c.rows, Advance(s, job).w.c.pool, job, j) <==>
        FreeFor(s.w.c.rows, s.w.c.pool, job, j)
    {
      AdvanceKeepsFree(s, job, j);
    }
  }

  lemma {:induction false} PlaceFromApartIff(w0: World, s: Placing, job: Job, create: Faults)
    requires JobOk(w0.c.pool, job) && CanPlace(s, job) && DistinctSsus(s.w.c.pool)
    requires PoolAt(w0.c.pool, s.w.c.pool, job, s.i)
    requires PlaceFrom(s, job, create).1 == OK
    ensures PairwiseApart(PlaceFrom(s, job, create).0.w.c.rows) <==>
      PairwiseApart(s.w.c.rows) && JobFree(s.w.c.rows, s.w.c.pool, job, s.i)
    decreases |job.sel| - s.i
  {
    if s.i < |job.sel| {
      AdvanceApartIff(s, job);
      AdvanceKeepsJobFree(s, job);
      AdvancePool(w0, s, job);
      PlaceFromApartIff(w0, Advance(s, job), job, create);
      JobFreeNext(s.w.c.rows, s.w.c.pool, job, s.i);
    }
  }

  lemma JobFreeNext(rows: Rows, pool: seq<Resource>, job: Job, i: nat)
    requires i < |job.sel| && forall j :: 0 <= j < |job.sel| ==> job.sel[j] < |pool|
    ensures JobFree(rows, pool, job, i) <==> FreeFor(rows, pool, job, i) && JobFree(rows, pool, job, i + 1)
  {}

  /** What an allocation that is granted new extents needs: no active extent meets
      the bytes it takes on any of its SSUs. */
  predicate GrantFree(w: World, op: Op)
    requires WorldShaped(w)
  {
    op.OpAlloc? && op.req.size > 0 && HostKey.Key(op.req.hosts).Some? && Step(w, op).c.rows != w.c.rows ==>
      var a := Admit(Searched(w).c, op.req, HostKey.Key(op.req.hosts).value, op.cap);
      a.Admitted? && JobFree(w.c.rows, w.c.pool, a.job, 0)
  }

  /** A step from disjoint extents keeps them disjoint exactly then. */
  lemma StepApartIff(w: World, op: Op)
    requires WorldShaped(w) && Books(w.c) && PairwiseApart(w.c.rows)
    ensures PairwiseApart(Step(w, op).c.rows) <==> GrantFree(w, op)
  {
    match op
    case OpRefresh(d, h) =>
    case OpAlloc(req, cap, create, delete) => AllocApartIff(w, req, cap, create, delete);
    case OpRelease(id, deletes) => ReleaseFromThins(w, id, 0, false, deletes);
    case OpMount(req, d, f) =>
      MountCases(w, req, d, f);
      StateKeepsApart(w.c.rows, req.allocId, MOUNTED);
    case OpUnmount(dev, d, f) => UnmountKeepsApart(w, dev, d, f);
  }

  lemma AllocApartIff(w: World, req: AllocReq, cap: Option<nat>, create: Faults, delete: Faults)
    requires WorldShaped(w) && Books(w.c) && PairwiseApart(w.c.rows)
    ensures PairwiseApart(Alloc(w, req, cap, create, delete).0.c.rows) <==>
      GrantFree(w, OpAlloc(req, cap, create, delete))
  {
    AllocCases(w, req, cap, create, delete);
    var w1, w2 := Searched(w), Alloc(w, req, cap, create, delete).0;
    if w2.c.rows != w.c.rows {
      var job := Admit(w1.c, req, HostKey.Key(req.hosts).value, cap).job;
      PlaceApartIff(w1, job, create, delete);
    }
  }

  lemma PlaceApartIff(w: World, job: Job, create: Faults, delete: Faults)
    requires JobOk(w.c.pool, job) && CanPlace(Start(w), job) && DistinctSsus(w.c.pool) && PairwiseApart(w.c.rows)
    requires Place(w, job, create, delete).0.c.rows != w.c.rows
    ensures PairwiseApart(Place(w, job, create, delete).0.c.rows) <==> JobFree(w.c.rows, w.c.pool, job, 0)
  {
    if PlaceFrom(Start(w), job, create).1 == OK {
      PlaceFromApartIff(w, Start(w), job, create);
    } else {
      PlaceAllOrNothing(w, job, create, delete);
    }
  }

  lemma StateKeepsApart(rows: Rows, id: string, st: RowState)
    requires PairwiseApart(rows)
    ensures PairwiseApart(SetState(rows, id, st))
  {
    var after := SetState(rows, id, st);
    forall i, j | 0 <= i < j < |after| && after[i].Some? && after[j].Some?
      && after[i].value.ssuId == after[j].value.ssuId
      ensures Apart(after[i].value, after[j].value)
    {
      assert after[i] == WithState(rows[i], id, st) && after[j] == WithState(rows[j], id, st);
      assert Apart(rows[i].value, rows[j].value);
    }
  }

  lemma UnmountKeepsApart(w: World, dev: string, d: Devices, f: KernelFaults)
    requires WorldShaped(w) && PairwiseApart(w.c.rows)
    ensures PairwiseApart(UnmountOp(w, dev, d, f).0.c.rows)
  {
    UnmountCases(w, dev, d, f);
    if Has(w.c.logdevs, LogdevDev, dev) {
      var id := w.c.logdevs[Find(w.c.logdevs, LogdevDev, dev)].value.allocId;
      StateKeepsApart(w.c.rows, id, MOUNTED);
      StateKeepsApart(w.c.rows, id, ACTIVE);
    }
  }

  /** Extents are disjoint after every step of the run. */
  predicate AlwaysApart(w: World, ops: seq<Op>)
    requires WorldShaped(w)
  {
    PairwiseApart(Run(w, ops).c.rows) && (ops == [] || AlwaysApart(w, ops[..|ops| - 1]))
  }

  /** Every grant of the run takes bytes that no active extent meets. */
  predicate AlwaysFree(w: World, ops: seq<Op>)
    requires WorldShaped(w)
  {
    ops == [] || (AlwaysFree(w, ops[..|ops| - 1]) && GrantFree(Run(w, ops[..|ops| - 1]), ops[|ops| - 1]))
  }

  /** The exact condition for physical disjointness, over any run with any refusals,
      releases in any order and SSUs discovered with any fill mark. */
  lemma {:induction false} AlwaysApartIff(w: World, ops: seq<Op>)
    requires WorldShaped(w) && Books(w.c) && PairwiseApart(w.c.rows)
    requires forall i :: 0 <= i < |ops| ==> FindsDistinct(ops[i])
    ensures AlwaysApart(w, ops) <==> AlwaysFree(w, ops)
  {
    if ops != [] {
      var front, last := ops[..|ops| - 1], ops[|ops| - 1];
      Conservation(w, front);
      AlwaysApartIff(w, front);
      if AlwaysApart(w, front) {
        assert PairwiseApart(Run(w, front).c.rows);
        StepApartIff(Run(w, front), last);
      }
    }
  }

  /** On the SSU of row i, released on the way from c to c2, the mark has dropped by
      the row's length; the next len bytes from there are free exactly when the row
      was on top or they end by where it ended. */
  predicate NextFits(c: Ctl, c2: Ctl, i: nat, len: nat)
    requires i < |c.rows| && c.rows[i].Some?
  {
    var row := c.rows[i].value;
    && Known(c.pool, row.ssuId) && Known(c2.pool, row.ssuId)
    && var mark := c2.pool[FindRes(c2.pool, row.ssuId)].used;
       && mark + row.len == c.pool[FindRes(c.pool, row.ssuId)].used
       && (Free(c2.rows, row.ssuId, mark, mark + len) <==> Top(c.rows, i) || mark + len <= EndByte(row))
  }

  /** What a release means for the next extent on each SSU it frees. */
  lemma NextAfterRelease(w: World, id: string, delete: Faults, i: nat, len: nat)
    requires WorldShaped(w) && Books(w.c) && Spread(w.c.rows) && Tiled(w.c) && len > 0
    requires id != [] && !Has(w.c.logdevs, LogdevId, id) && ReleaseFrom(w, id, 0, false, delete).1 == OK
    requires i < |w.c.rows| && Carries(w.c.rows[i], RowId, id)
    ensures NextFits(w.c, Release(w, id, delete).0.c, i, len)
  {
    ReleaseFromThins(w, id, 0, false, delete);
    ReleaseFromKeepsBooks(w, id, 0, false, delete);
    var c2 := ReleaseFrom(w, id, 0, false, delete).0.c;
    NextAfterThinning(w.c, c2, id, i, len);
    SameTablesFit(w.c, c2, Release(w, id, delete).0.c, i, len);
  }

  lemma SameTablesFit(c: Ctl, a: Ctl, b: Ctl, i: nat, len: nat)
    requires i < |c.rows| && c.rows[i].Some? && NextFits(c, a, i, len) && a.pool == b.pool && a.rows == b.rows
    ensures NextFits(c, b, i, len)
  {}

  lemma NextAfterThinning(c: Ctl, c2: Ctl, id: string, i: nat, len: nat)
    requires Books(c) && Spread(c.rows) && Tiled(c) && len > 0 && SameSlack(c, c2) && Thinned(c.rows, c2.rows, id)
    requires |c2.pool| == |c.pool| && forall q :: 0 <= q < |c.pool| ==> c2.pool[q].ssuId == c.pool[q].ssuId
    requires forall j :: 0 <= j < |c.rows| ==> !Carries(c2.rows[j], RowId, id)
    requires i < |c.rows| && Carries(c.rows[i], RowId, id)
    ensures NextFits(c, c2, i, len)
  {
    MarkDrops(c, c2, id, i);
    FreeAfter(c, c2, id, i, FindRes(c.pool, c.rows[i].value.ssuId), len);
  }

  lemma MarkDrops(c: Ctl, c2: Ctl, id: string, i: nat)
    requires Books(c) && Spread(c.rows) && SameSlack(c, c2) && Thinned(c.rows, c2.rows, id)
    requires |c2.pool| == |c.pool| && forall q :: 0 <= q < |c.pool| ==> c2.pool[q].ssuId == c.pool[q].ssuId
    requires i < |c.rows| && Carries(c.rows[i], RowId, id) && c2.rows[i].None?
    ensures var row := c.rows[i].value;
      var p := FindRes(c.pool, row.ssuId);
      p < |c.pool| && FindRes(c2.pool, row.ssuId) == p && c2.pool[p].used + row.len == c.pool[p].used
  {
    var row := c.rows[i].value;
    OnlyRowOfId(c.rows, c2.rows, id, i);
    SameFind(c.pool, c2.pool, row.ssuId);
    assert Slack(c2, row.ssuId) == Slack(c, row.ssuId);
  }

  lemma FreeAfter(c: Ctl, c2: Ctl, id: string, i: nat, p: nat, len: nat)
    requires Spread(c.rows) && Tiled(c) && len > 0 && Thinned(c.rows, c2.rows, id)
    requires forall j :: 0 <= j < |c2.rows| ==> !Carries(c2.rows[j], RowId, id)
    requires i < |c.rows| && Carries(c.rows[i], RowId, id) && p < |c.pool| && On(c.rows[i], c.pool[p].ssuId)
    requires c.pool[p].used >= c.rows[i].value.len
    ensures var row := c.rows[i].value;
      var mark := c.pool[p].used - row.len;
      Free(c2.rows, row.ssuId, mark, mark + len) <==> Top(c.rows, i) || mark + len <= EndByte(row)
  {
    var row, used := c.rows[i].value, c.pool[p].used;
    var mark := used - row.len;
    forall j | 0 <= j < |c2.rows| && On(c2.rows[j], row.ssuId)
      ensures c2.rows[j] == c.rows[j] && j != i && EndByte(c.rows[j].value) <= used
      ensures EndByte(c.rows[j].value) <= StartByte(row) || EndByte(row) <= StartByte(c.rows[j].value)
    {
      assert j != i;
      assert On(c.rows[j], c.pool[p].ssuId);
      if i < j {
        assert Apart(c.rows[i].value, c.rows[j].value);
      } else {
        assert Apart(c.rows[j].value, c.rows[i].value);
      }
    }
    if Top(c.rows, i) {
      TopEndsAtMark(c, i, p);
      assert forall j :: 0 <= j < |c2.rows| && On(c2.rows[j], row.ssuId) ==> On(c.rows[j], row.ssuId);
    } else {
      LastByteCovered(c, c2, id, i, p);
      var b := if mark >= EndByte(row) then mark else EndByte(row);
      assert Covered(c2.rows, c.pool[p].ssuId, b);
    }
  }

  /** Some other row that stays takes the SSU's last used byte, and one starts where
      the released row ended. */
  lemma LastByteCovered(c: Ctl, c2: Ctl, id: string, i: nat, p: nat)
    requires Spread(c.rows) && Tiled(c) && Thinned(c.rows, c2.rows, id)
    requires i < |c.rows| && Carries(c.rows[i], RowId, id) && p < |c.pool| && On(c.rows[i], c.pool[p].ssuId)
    requires !Top(c.rows, i)
    ensures EndByte(c.rows[i].value) < c.pool[p].used
    ensures forall b :: EndByte(c.rows[i].value) <= b < c.pool[p].used ==> Covered(c2.rows, c.pool[p].ssuId, b)
  {
    var row := c.rows[i].value;
    var t :| 0 <= t < |c.rows| && t != i && On(c.rows[t], row.ssuId) && c.rows[t].value.phys >= row.phys;
    Spreads(c.rows, i, t);
    assert EndByte(c.rows[t].value) <= c.pool[p].used;
    forall b | EndByte(row) <= b < c.pool[p].used ensures Covered(c2.rows, c.pool[p].ssuId, b) {
      assert Covered(c.rows, c.pool[p].ssuId, b);
      var u :| 0 <= u < |c.rows| && Covers(c.rows[u], c.pool[p].ssuId, b);
      assert u != i;
      OneRowPerSsu(c.rows, i, u);
      assert Covers(c2.rows[u], c.pool[p].ssuId, b);
    }
  }

  /** The next extent on an SSU that has a row above its mark lands inside that row
      or below its end: what a buried release can lead to. */
  lemma NextExtentOverlaps(s: Placing, job: Job, i: nat)
    requires CanPlace(s, job) && s.i < |job.sel| && Room(s.w.c.pool[job.sel[s.i]], JobLen(job, s.i))
    requires JobLen(job, s.i) > 0
    requires i < |s.w.c.rows| && On(s.w.c.rows[i], s.w.c.pool[job.sel[s.i]].ssuId)
    requires StartByte(s.w.c.rows[i].value) <= s.w.c.pool[job.sel[s.i]].used < EndByte(s.w.c.rows[i].value)
    ensures var f, after := FirstFree(s.w.c.rows), Advance(s, job).w.c.rows;
      i != f && after[i] == s.w.c.rows[i] && after[f].Some? && !Apart(after[i].value, after[f].value)
  {
    var f, after := FirstFree(s.w.c.rows), Advance(s, job).w.c.rows;
    assert after[i] == s.w.c.rows[i] && i != f;
    assert StartByte(after[f].value) == s.w.c.pool[job.sel[s.i]].used;
  }

  // ---- refresh ----

  predicate StartsEmpty(op: Op) {
    op.OpRefresh? ==> forall p :: 0 <= p < |op.discovery.found| ==> op.discovery.found[p].used == 0
  }

  predicate NewEmpty(next: seq<Resource>, pool: seq<Resource>) {
    forall j :: 0 <= j < |next| && !Known(pool, next[j].ssuId) ==> next[j].used == 0
  }

  lemma {:induction false} AppendMissingNewEmpty(next: seq<Resource>, pool: seq<Resource>, i: nat,
      health: map<string, string>)
    requires DistinctSsus(pool) && i <= |pool| && NewEmpty(next, pool)
    ensures var r := AppendMissing(next, pool, i, health); r.Some? ==> NewEmpty(r.value, pool)
    decreases |pool| - i
  {
    if i < |pool| {
      if Known(next, pool[i].ssuId) {
        AppendMissingNewEmpty(next, pool, i + 1, health);
      } else if |next| < MAX_RESOURCES {
        FindIs(pool, i);
        AppendMissingNewEmpty(next + [WithHealth(pool[i], health)], pool, i + 1, health);
      }
    }
  }

  /** Known SSUs keep their fill marks, new ones start empty. */
  predicate MarksCarried(a: seq<Resource>, b: seq<Resource>) {
    forall q :: 0 <= q < |b| ==>
      if Known(a, b[q].ssuId) then b[q].used == a[FindRes(a, b[q].ssuId)].used else b[q].used == 0
  }

  lemma RefreshCarriesMarks(c: Ctl, d: Discovery, health: map<string, string>)
    requires Books(c) && DistinctFound(d) && forall p :: 0 <= p < |d.found| ==> d.found[p].used == 0
    ensures MarksCarried(c.pool, Refresh(c, d, health).0.pool)
  {
    var (c2, st) := Refresh(c, d, health);
    if st == OK && d.status == OK {
      RefreshMerges(c, d, health);
      AppendMissingNewEmpty(CarryAll(c.pool, d.found, health), c.pool, 0, health);
    } else {
      forall q | 0 <= q < |c.pool| ensures Known(c.pool, c.pool[q].ssuId) && FindRes(c.pool, c.pool[q].ssuId) == q {
        FindIs(c.pool, q);
      }
    }
  }

  lemma RefreshKeepsTiled(c: Ctl, d: Discovery, health: map<string, string>)
    requires Books(c) && Tiled(c) && DistinctFound(d) && forall p :: 0 <= p < |d.found| ==> d.found[p].used == 0
    ensures Tiled(Refresh(c, d, health).0)
  {
    var c2 := Refresh(c, d, health).0;
    RefreshCarriesMarks(c, d, health);
    CarriedCover(c, c2);
    CarriedInside(c, c2);
  }

  lemma CarriedCover(c: Ctl, c2: Ctl)
    requires Tiled(c) && c2.rows == c.rows && MarksCarried(c.pool, c2.pool)
    ensures forall p, b :: 0 <= p < |c2.pool| && 0 <= b < c2.pool[p].used ==> Covered(c2.rows, c2.pool[p].ssuId, b)
  {}

  lemma CarriedInside(c: Ctl, c2: Ctl)
    requires Books(c) && Tiled(c) && c2.rows == c.rows && MarksCarried(c.pool, c2.pool)
    ensures Inside(c2.pool, c2.rows)
  {}

  // ---- runs ----

  /** A release happens only when every extent of the id is the last on its SSU. */
  predicate LastInFirstOut(w: World, op: Op) { op.OpRelease? ==> AllTop(w.c.rows, op.id) }

  predicate LifoRun(w: World, ops: seq<Op>)
    requires WorldShaped(w)
  {
    ops == [] || (LifoRun(w, ops[..|ops| - 1]) && LastInFirstOut(Run(w, ops[..|ops| - 1]), ops[|ops| - 1]))
  }

  lemma SameExtentsTiled(c: Ctl, c2: Ctl, id: string, st: RowState)
    requires Tiled(c) && c2.pool == c.pool && (c2.rows == c.rows || c2.rows == SetState(c.rows, id, st))
    ensures Tiled(c2)
  {
    if c2.rows != c.rows {
      StateKeepsApart(c.rows, id, st);
      StateKeepsCover(c.rows, id, st);
      StateKeepsInside(c, c2, id, st);
      forall p, b | 0 <= p < |c2.pool| && 0 <= b < c2.pool[p].used ensures Covered(c2.rows, c2.pool[p].ssuId, b) {
        assert Covered(c.rows, c.pool[p].ssuId, b);
      }
    }
  }

  lemma StateKeepsCover(rows: Rows, id: string, st: RowState)
    ensures forall ssu: string, b: nat :: Covered(rows, ssu, b) ==> Covered(SetState(rows, id, st), ssu, b)
  {
    forall ssu: string, b: nat | Covered(rows, ssu, b) ensures Covered(SetState(rows, id, st), ssu, b) {
      var i :| 0 <= i < |rows| && Covers(rows[i], ssu, b);
      assert Covers(SetState(rows, id, st)[i], ssu, b);
    }
  }

  lemma StateKeepsInside(c: Ctl, c2: Ctl, id: string, st: RowState)
    requires Inside(c.pool, c.rows) && c2.pool == c.pool && c2.rows == SetState(c.rows, id, st)
    ensures Inside(c2.pool, c2.rows)
  {
    forall p, i | 0 <= p < |c2.pool| && 0 <= i < |c2.rows| && On(c2.rows[i], c2.pool[p].ssuId)
      ensures EndByte(c2.rows[i].value) <= c2.pool[p].used
    {
      assert c2.rows[i] == WithState(c.rows[i], id, st) && On(c.rows[i], c.pool[p].ssuId);
    }
  }

  lemma StepKeepsTiled(w: World, op: Op)
    requires WorldShaped(w) && Books(w.c) && RowsOk(w.c) && Tiled(w.c)
    requires FindsDistinct(op) && StartsEmpty(op) && LastInFirstOut(w, op)
    ensures Tiled(Step(w, op).c)
  {
    match op
    case OpRefresh(d, h) => RefreshKeepsTiled(w.c, d, h);
    case OpAlloc(req, cap, create, delete) => AllocKeepsTiled(w, req, cap, create, delete);
    case OpRelease(id, deletes) => ReleaseFromKeepsTiled(w, id, 0, false, deletes);
    case OpMount(req, d, f) =>
      MountCases(w, req, d, f);
      SameExtentsTiled(w.c, MountOp(w, req, d, f).0.c, req.allocId, MOUNTED);
    case OpUnmount(dev, d, f) =>
      UnmountKeepsTiled(w, dev, d, f);
  }

  lemma UnmountKeepsTiled(w: World, dev: string, d: Devices, f: KernelFaults)
    requires WorldShaped(w) && Tiled(w.c)
    ensures Tiled(UnmountOp(w, dev, d, f).0.c)
  {
    UnmountCases(w, dev, d, f);
    var c2 := UnmountOp(w, dev, d, f).0.c;
    if c2 != w.c {
      var id := w.c.logdevs[Find(w.c.logdevs, LogdevDev, dev)].value.allocId;
      SameExtentsTiled(w.c, c2, id, if Has(c2.logdevs, LogdevId, id) then MOUNTED else ACTIVE);
    }
  }

  /** On every last-in-first-out run whose SSUs are discovered empty, the active
      extents of each SSU tile exactly its used bytes. */
  lemma {:induction false} LifoRunsTile(w: World, ops: seq<Op>)
    requires WorldShaped(w) && Books(w.c) && RowsOk(w.c) && Tiled(w.c)
    requires RunFits(ops) && LifoRun(w, ops) && Run(w, ops).c.nextId < TWO64
    requires forall i :: 0 <= i < |ops| ==> StartsEmpty(ops[i])
    ensures Tiled(Run(w, ops).c)
  {
    if ops != [] {
      var front, last := ops[..|ops| - 1], ops[|ops| - 1];
      Conservation(w, front);
      NextIdGrows(Run(w, front), last);
      RunKeepsRowsOk(w, front);
      LifoRunsTile(w, front);
      StepKeepsTiled(Run(w, front), last);
    }
  }
}
