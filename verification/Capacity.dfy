/** What a grant takes from the pool, in numbers: when a request is granted, and how
    the fill marks of its SSUs change. */
module Capacity {
  import opened Types
  import opened Tables
  import opened Placement
  import opened ControllerState
  import opened Ledger
  import opened Rollback
  import opened Grants
  import opened Agreement
  import HostKey

  // ---- the pool after a grant ----

  /** Extents 0..n of the job have been added to their SSUs' marks, and nothing else
      has changed. */
  predicate MarksAt(pool0: seq<Resource>, pool: seq<Resource>, job: Job, n: nat) {
    && |pool| == |pool0| && n <= |job.sel|
    && (forall i :: 0 <= i < n ==>
          && job.sel[i] < |pool|
          && pool[job.sel[i]] == pool0[job.sel[i]].(used := pool0[job.sel[i]].used + JobLen(job, i)))
    && (forall p :: 0 <= p < |pool| && p !in job.sel[..n] ==> pool[p] == pool0[p])
  }

  lemma MarkNext(pool0: seq<Resource>, pool: seq<Resource>, after: seq<Resource>, job: Job, n: nat)
    requires MarksAt(pool0, pool, job, n) && n < |job.sel| && job.sel[n] < |pool| && job.sel[n] !in job.sel[..n]
    requires after == pool[job.sel[n] := pool[job.sel[n]].(used := pool[job.sel[n]].used + JobLen(job, n))]
    ensures MarksAt(pool0, after, job, n + 1)
  {
    TakeNext(job.sel, n);
    forall i | 0 <= i < n ensures job.sel[i] != job.sel[n] {
      assert job.sel[i] in job.sel[..n];
    }
  }

  lemma AdvanceMarks(w0: World, s: Placing, job: Job)
    requires CanPlace(s, job) && s.i < |job.sel| && Distinct(job.sel) && MarksAt(w0.c.pool, s.w.c.pool, job, s.i)
    ensures MarksAt(w0.c.pool, Advance(s, job).w.c.pool, job, s.i + 1)
  {
    MarkNext(w0.c.pool, s.w.c.pool, Advance(s, job).w.c.pool, job, s.i);
  }

  lemma {:induction false} PlaceFromMarks(w0: World, s: Placing, job: Job, create: Faults)
    requires CanPlace(s, job) && Distinct(job.sel) && MarksAt(w0.c.pool, s.w.c.pool, job, s.i)
    ensures var p := PlaceFrom(s, job, create).0; MarksAt(w0.c.pool, p.w.c.pool, job, p.i)
    decreases |job.sel| - s.i
  {
    if s.i < |job.sel| && NextStatus(s, job, create) == OK {
      AdvanceMarks(w0, s, job);
      PlaceFromMarks(w0, Advance(s, job), job, create);
    }
  }

  /** The row was not there before. */
  predicate FreshRow(a: Rows, b: Rows, x: nat) { x < |a| && x < |b| && a[x].None? && b[x].Some? }

  /** The row took the next bytes of an online SSU that had them. */
  predicate Took(pool: seq<Resource>, pool2: seq<Resource>, row: Row, p: nat) {
    && p < |pool| && p < |pool2| && pool[p].ssuId == row.ssuId && pool[p].state == "ONLINE"
    && row.phys * 512 == pool[p].used
    && pool2[p] == pool[p].(used := pool[p].used + row.len) && pool[p].used + row.len <= pool[p].total
  }

  ghost predicate TookSome(pool: seq<Resource>, pool2: seq<Resource>, row: Row) {
    exists p: nat :: Took(pool, pool2, row, p)
  }

  /** The SSU got a new extent. */
  ghost predicate Gained(a: Rows, b: Rows, ssuId: string) {
    exists x: nat :: FreshRow(a, b, x) && b[x].value.ssuId == ssuId
  }

  lemma PlacedRowTook(w: World, job: Job, p: Placing, x: nat)
    requires JobOk(w.c.pool, job) && Extended(w.c.rows, p.w.c.rows, job, w.c.pool, |job.sel|)
    requires MarksAt(w.c.pool, p.w.c.pool, job, |job.sel|) && FreshRow(w.c.rows, p.w.c.rows, x)
    requires forall i :: 0 <= i < |job.sel| ==> Online(w.c.pool[job.sel[i]])
    ensures TookSome(w.c.pool, p.w.c.pool, p.w.c.rows[x].value)
  {
    var row := p.w.c.rows[x].value;
    var q := job.sel[row.role];
    assert Room(w.c.pool[q], JobLen(job, row.role));
    assert Took(w.c.pool, p.w.c.pool, row, q);
  }

  lemma PlacedGained(w: World, job: Job, create: Faults, p: Placing, q: nat)
    requires JobOk(w.c.pool, job) && CanPlace(Start(w), job) && DistinctSsus(w.c.pool) && job.req.size <= U64_MAX
    requires !Has(w.c.rows, RowId, job.id) && PlaceFrom(Start(w), job, create) == (p, OK)
    requires MarksAt(w.c.pool, p.w.c.pool, job, |job.sel|) && q < |w.c.pool| && p.w.c.pool[q] != w.c.pool[q]
    ensures Gained(w.c.rows, p.w.c.rows, w.c.pool[q].ssuId)
  {
    GrantedPieces(w, job, create);
    PlaceFromExtends(w, Start(w), job, create);
    var i :| 0 <= i < |job.sel| && job.sel[i] == q;
    PieceGained(w, job, p.w.c.rows, i);
  }

  lemma PieceGained(w: World, job: Job, rows2: Rows, i: nat)
    requires JobOk(w.c.pool, job) && i < |job.sel| && !Has(w.c.rows, RowId, job.id)
    requires |rows2| == |w.c.rows| && forall x :: 0 <= x < |rows2| && w.c.rows[x].Some? ==> rows2[x] == w.c.rows[x]
    requires Pick(rows2, RowId, RowPiece, job.id) == PiecesFor(w.c.pool, job, w.m.nextNs, |job.sel|)
    ensures Gained(w.c.rows, rows2, w.c.pool[job.sel[i]].ssuId)
  {
    var piece := PieceFor(w.c.pool, job, w.m.nextNs, i);
    assert PiecesFor(w.c.pool, job, w.m.nextNs, |job.sel|)[i] == piece;
    var x := PickFrom(rows2, RowId, RowPiece, job.id, piece);
    CarriedIsFresh(w.c.rows, rows2, job.id, x);
  }

  lemma CarriedIsFresh(a: Rows, b: Rows, id: string, x: nat)
    requires !Has(a, RowId, id) && |b| == |a| && x < |b| && Carries(b[x], RowId, id)
    requires forall y :: 0 <= y < |b| && a[y].Some? ==> b[y] == a[y]
    ensures FreshRow(a, b, x)
  {
    HasSome(a, RowId, id);
  }

  /** The chosen SSUs are online. */
  lemma AdmittedOnline(c: Ctl, req: AllocReq, key: string, cap: Option<nat>)
    requires req.size > 0 && Admit(c, req, key, cap).Admitted?
    ensures var job := Admit(c, req, key, cap).job; forall i :: 0 <= i < |job.sel| ==> Online(c.pool[job.sel[i]])
  {
    var online := OnlineIndexes(c.pool);
    var n := ExtentCount(req, |online|);
    SelectIsAssignment(c.pool, online, req.size / n, req.size % n, n);
  }

  /** After a grant of new extents each of them took the next bytes of an online SSU,
      which had that many left below its total; every other SSU is as it was. */
  lemma AllocFills(w: World, req: AllocReq, cap: Option<nat>, create: Faults, delete: Faults)
    requires WorldShaped(w) && Books(w.c) && RowsOk(w.c) && w.c.nextId < TWO64 && req.size <= U64_MAX
    requires req.diskName == [] || !Has(w.c.rows, RowName, req.diskName)
    requires Alloc(w, req, cap, create, delete).1.status == OK
    ensures var c2 := Alloc(w, req, cap, create, delete).0.c;
      && |c2.pool| == |w.c.pool|
      && (forall x: nat :: FreshRow(w.c.rows, c2.rows, x) ==> TookSome(w.c.pool, c2.pool, c2.rows[x].value))
      && (forall q: nat :: q < |w.c.pool| && c2.pool[q] != w.c.pool[q] ==>
            Gained(w.c.rows, c2.rows, w.c.pool[q].ssuId))
  {
    SearchIsImmediate(w);
    var key := HostKey.Key(req.hosts).value;
    var job := Admit(w.c, req, key, cap).job;
    AdmittedOnline(w.c, req, key, cap);
    PlaceFills(w, job, create, delete);
  }

  lemma PlaceFills(w: World, job: Job, create: Faults, delete: Faults)
    requires JobOk(w.c.pool, job) && CanPlace(Start(w), job) && DistinctSsus(w.c.pool) && job.req.size <= U64_MAX
    requires forall i :: 0 <= i < |job.sel| ==> Online(w.c.pool[job.sel[i]])
    requires !Has(w.c.rows, RowId, job.id) && Place(w, job, create, delete).1.status == OK
    ensures var c2 := Place(w, job, create, delete).0.c;
      && |c2.pool| == |w.c.pool|
      && (forall x: nat :: FreshRow(w.c.rows, c2.rows, x) ==> TookSome(w.c.pool, c2.pool, c2.rows[x].value))
      && (forall q: nat :: q < |w.c.pool| && c2.pool[q] != w.c.pool[q] ==>
            Gained(w.c.rows, c2.rows, w.c.pool[q].ssuId))
  {
    var p := PlaceFrom(Start(w), job, create).0;
    PlaceFromMarks(w, Start(w), job, create);
    PlaceFromExtends(w, Start(w), job, create);
    PlaceSucceeds(w, job, create, delete, p);
    forall x: nat | FreshRow(w.c.rows, p.w.c.rows, x) ensures TookSome(w.c.pool, p.w.c.pool, p.w.c.rows[x].value) {
      PlacedRowTook(w, job, p, x);
    }
    forall q: nat | q < |w.c.pool| && p.w.c.pool[q] != w.c.pool[q]
      ensures Gained(w.c.rows, p.w.c.rows, w.c.pool[q].ssuId)
    {
      PlacedGained(w, job, create, p, q);
    }
  }

  // ---- exactly when a request is granted ----

  function OnlineCount(pool: seq<Resource>): nat { |set p: nat | p < |pool| && pool[p].state == "ONLINE"| }

  function FreeRowSet(rows: Rows): set<nat> { set x: nat | x < |rows| && rows[x].None? }

  function FreeRows(rows: Rows): nat { |FreeRowSet(rows)| }

  /** How many extents a request gets: as many as it asks for, or one on every online
      SSU; but never more than it has bytes. */
  function Cut(req: AllocReq, online: nat): nat {
    var n := if req.diskCount > 0 then req.diskCount else online;
    if n <= req.size then n else req.size
  }

  /** a names a different online SSU for each of n extents, with the fill mark on a
      sector border and room for size/n bytes, and one more in the first size%n. */
  predicate Holds(pool: seq<Resource>, size: nat, n: nat, a: seq<nat>) {
    && n > 0 && |a| == n
    && (forall i, j :: 0 <= i < j < n ==> a[i] != a[j])
    && (forall i :: 0 <= i < n ==>
          && a[i] < |pool| && pool[a[i]].state == "ONLINE" && pool[a[i]].used % 512 == 0
          && pool[a[i]].used + size / n + (if i < size % n then 1 else 0) <= pool[a[i]].total)
  }

  ghost predicate SomeHolds(pool: seq<Resource>, size: nat, n: nat) { exists a: seq<nat> :: Holds(pool, size, n, a) }

  /** The request itself is in order. */
  predicate WellFormed(req: AllocReq) {
    && req.reliability == STRIPE && req.size > 0 && HostKey.Key(req.hosts).Some?
    && (req.diskName == [] || NameValid(req.diskName))
  }

  predicate EnoughOnline(pool: seq<Resource>, req: AllocReq) {
    OnlineCount(pool) > 0 && req.diskCount <= OnlineCount(pool)
  }

  lemma OnlineCounts(pool: seq<Resource>)
    ensures |OnlineIndexes(pool)| == OnlineCount(pool)
  {
    DistinctCard(OnlineIndexes(pool));
    assert Elems(OnlineIndexes(pool)) == set p: nat | p < |pool| && pool[p].state == "ONLINE";
  }

  lemma {:induction false} FreeCounts(rows: Rows)
    ensures FreeCount(rows) == FreeRows(rows)
  {
    if rows != [] {
      var n := |rows| - 1;
      FreeCounts(rows[..n]);
      assert FreeRowSet(rows) == FreeRowSet(rows[..n]) + if rows[n].None? then {n} else {};
    }
  }

  lemma HoldsIsPlaceable(pool: seq<Resource>, size: nat, n: nat)
    requires n > 0
    ensures SomeHolds(pool, size, n) <==> Placeable(pool, OnlineIndexes(pool), size / n, size % n, n)
  {
    var online := OnlineIndexes(pool);
    if SomeHolds(pool, size, n) {
      var a: seq<nat> :| Holds(pool, size, n, a);
      assert Assignment(pool, online, size / n, size % n, a);
    }
    if Placeable(pool, online, size / n, size % n, n) {
      var a :| |a| == n && Assignment(pool, online, size / n, size % n, a);
      assert Holds(pool, size, n, a);
    }
  }

  lemma AdmitIff(c: Ctl, req: AllocReq, key: string, cap: Option<nat>)
    requires req.size > 0
    ensures var a, n := Admit(c, req, key, cap), Cut(req, OnlineCount(c.pool));
      && (a.Admitted? <==>
            && EnoughOnline(c.pool, req) && cap.Some? && cap.value >= n && FreeRows(c.rows) >= n
            && SomeHolds(c.pool, req.size, n))
      && (a.Admitted? ==> |a.job.sel| == n)
      && (a.Refused? ==>
            && (a.out.status == BUFFER_TOO_SMALL <==> EnoughOnline(c.pool, req) && (cap.None? || cap.value < n))
            && (a.out.status == BUFFER_TOO_SMALL ==> a.out.count == n))
  {
    var online := OnlineIndexes(c.pool);
    OnlineCounts(c.pool);
    FreeCounts(c.rows);
    var n := ExtentCount(req, |online|);
    if online != [] && req.diskCount <= |online| {
      HoldsIsPlaceable(c.pool, req.size, n);
      SelectComplete(c.pool, online, req.size / n, req.size % n, n);
    }
  }

  /** No create for extents i to n is refused. */
  predicate NoneRefused(create: Faults, i: nat, n: nat) { forall j :: i <= j < n ==> Fault(create, j) == OK }

  lemma NoneRefusedNext(create: Faults, i: nat, n: nat)
    requires i < n
    ensures NoneRefused(create, i, n) <==> Fault(create, i) == OK && NoneRefused(create, i + 1, n)
  {}

  /** While the plugin's table is the twin of the controller's, the loop succeeds
      exactly when none of its creates is refused. */
  lemma {:induction false} PlaceOkIff(s: Placing, job: Job, create: Faults)
    requires CanPlace(s, job) && Twin(s.w.c.rows, s.w.m.nss)
    ensures PlaceFrom(s, job, create).1 == OK <==> NoneRefused(create, s.i, |job.sel|)
    decreases |job.sel| - s.i
  {
    if s.i < |job.sel| {
      NextOkIff(s, job, create);
      NoneRefusedNext(create, s.i, |job.sel|);
      if NextStatus(s, job, create) == OK {
        AdvanceKeepsTwin(s, job, create);
        PlaceOkIff(Advance(s, job), job, create);
      }
    }
  }

  lemma NextOkIff(s: Placing, job: Job, create: Faults)
    requires CanPlace(s, job) && s.i < |job.sel| && Twin(s.w.c.rows, s.w.m.nss)
    ensures NextStatus(s, job, create) == OK <==> Fault(create, s.i) == OK
  {
    TwinFree(s.w.c.rows, s.w.m.nss);
    FreeCountPositive(s.w.c.rows);
  }

  /** A request under a name not in use is granted exactly when it is in order, enough
      SSUs are online, the buffer and the row table have room for its extents, a
      different online SSU can hold each of them, and no create is refused. It asks for
      a larger buffer exactly when the buffer is the first of these to fail, and then
      says how large. */
  lemma AllocGrantedIff(w: World, req: AllocReq, cap: Option<nat>, create: Faults, delete: Faults)
    requires WorldShaped(w) && IdsBelow(w.c) && w.c.nextId < TWO64 && Twin(w.c.rows, w.m.nss)
    requires req.diskName == [] || !Has(w.c.rows, RowName, req.diskName)
    requires forall i :: i in create ==> create[i] != BUFFER_TOO_SMALL
    ensures var out, n := Alloc(w, req, cap, create, delete).1, Cut(req, OnlineCount(w.c.pool));
      && (out.status == OK <==>
            && WellFormed(req) && EnoughOnline(w.c.pool, req) && cap.Some? && cap.value >= n && FreeRows(w.c.rows) >= n
            && SomeHolds(w.c.pool, req.size, n) && NoneRefused(create, 0, n))
      && (out.status == BUFFER_TOO_SMALL <==>
            WellFormed(req) && EnoughOnline(w.c.pool, req) && (cap.None? || cap.value < n))
      && (out.status == BUFFER_TOO_SMALL ==> out.count == n)
  {
    if WellFormed(req) {
      var key := HostKey.Key(req.hosts).value;
      SearchIsImmediate(w);
      AdmitIff(w.c, req, key, cap);
      if Admit(w.c, req, key, cap).Admitted? {
        PlaceOutcome(w, Admit(w.c, req, key, cap).job, create, delete);
      }
    }
  }

  ghost predicate NoRoom(c: Ctl, size: nat, n: nat) { FreeRows(c.rows) < n || !SomeHolds(c.pool, size, n) }

  /** How the request is refused otherwise: as unsupported or malformed, or for want of
      SSUs, rows or room. */
  lemma AllocRefusals(w: World, req: AllocReq, cap: Option<nat>, create: Faults, delete: Faults)
    requires WorldShaped(w) && IdsBelow(w.c) && w.c.nextId < TWO64
    requires req.diskName == [] || !Has(w.c.rows, RowName, req.diskName)
    ensures var st, n := Alloc(w, req, cap, create, delete).1.status, Cut(req, OnlineCount(w.c.pool));
      && (req.reliability != STRIPE ==> st == UNSUPPORTED)
      && (req.reliability == STRIPE && !WellFormed(req) ==> st == INVALID)
      && (WellFormed(req) && !EnoughOnline(w.c.pool, req) ==> st == NO_RESOURCE)
      && (WellFormed(req) && EnoughOnline(w.c.pool, req) && cap.Some? && cap.value >= n && NoRoom(w.c, req.size, n) ==>
            st == NO_RESOURCE)
  {
    if WellFormed(req) {
      SearchIsImmediate(w);
      AdmitIff(w.c, req, HostKey.Key(req.hosts).value, cap);
      OnlineCounts(w.c.pool);
    }
  }

  lemma PlaceOutcome(w: World, job: Job, create: Faults, delete: Faults)
    requires CanPlace(Start(w), job) && Twin(w.c.rows, w.m.nss)
    requires forall i :: i in create ==> create[i] != BUFFER_TOO_SMALL
    ensures Place(w, job, create, delete).1.status == OK <==> NoneRefused(create, 0, |job.sel|)
    ensures Place(w, job, create, delete).1.status != BUFFER_TOO_SMALL
  {
    PlaceOkIff(Start(w), job, create);
    PlaceStatus(Start(w), job, create);
  }

  lemma {:induction false} PlaceStatus(s: Placing, job: Job, create: Faults)
    requires CanPlace(s, job) && forall i :: i in create ==> create[i] != BUFFER_TOO_SMALL
    ensures PlaceFrom(s, job, create).1 != BUFFER_TOO_SMALL
    decreases |job.sel| - s.i
  {
    if s.i < |job.sel| && NextStatus(s, job, create) == OK {
      PlaceStatus(Advance(s, job), job, create);
    }
  }

  // ---- a refused create ----

  /** Extent y is the first whose create is refused. */
  predicate FirstRefused(create: Faults, i: nat, n: nat, y: nat) {
    i <= y < n && NoneRefused(create, i, y) && Fault(create, y) != OK
  }

  lemma {:induction false} PlaceStopsAt(s: Placing, job: Job, create: Faults, y: nat)
    requires CanPlace(s, job) && Twin(s.w.c.rows, s.w.m.nss) && FirstRefused(create, s.i, |job.sel|, y)
    ensures PlaceFrom(s, job, create).1 == Fault(create, y)
    decreases |job.sel| - s.i
  {
    if s.i < y {
      NextOkIff(s, job, create);
      AdvanceKeepsTwin(s, job, create);
      PlaceStopsAt(Advance(s, job), job, create, y);
    }
  }

  /** Where everything else is there, the first refused create gives the answer. */
  lemma AllocStopsAt(w: World, req: AllocReq, cap: Option<nat>, create: Faults, delete: Faults, y: nat)
    requires WorldShaped(w) && IdsBelow(w.c) && w.c.nextId < TWO64 && Twin(w.c.rows, w.m.nss)
    requires req.diskName == [] || !Has(w.c.rows, RowName, req.diskName)
    requires var n := Cut(req, OnlineCount(w.c.pool));
      && WellFormed(req) && EnoughOnline(w.c.pool, req) && cap.Some? && cap.value >= n && !NoRoom(w.c, req.size, n)
      && FirstRefused(create, 0, n, y)
    ensures Alloc(w, req, cap, create, delete).1 == Refuse(create[y])
  {
    var key := HostKey.Key(req.hosts).value;
    SearchIsImmediate(w);
    AdmitIff(w.c, req, key, cap);
    PlaceStopsAt(Start(w), Admit(w.c, req, key, cap).job, create, y);
  }
}
