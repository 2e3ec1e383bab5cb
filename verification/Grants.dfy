/** What a granted allocation looks like in the row table, and what every step
    keeps of the rows. */
module Grants {
  import opened Types
  import opened Tables
  import opened Decimal
  import opened ReqShimIface
  import opened MockState
  import opened Placement
  import opened ControllerState
  import opened Ledger
  import opened Rollback
  import opened Stripe
  import HostKey

  // ---- the extents of a grant ----

  function PieceFor(pool: seq<Resource>, job: Job, nextNs: nat, i: nat): Piece
    requires i < |job.sel| && job.sel[i] < |pool|
  {
    var r := pool[job.sel[i]];
    Piece(r.ssuId, Numbered(NS_PREFIX, nextNs + i), Off(job.req.size, |job.sel|, i), JobLen(job, i), r.used / SECTOR)
  }

  function PiecesFor(pool: seq<Resource>, job: Job, nextNs: nat, n: nat): (ps: seq<Piece>)
    requires n <= |job.sel| && forall i :: 0 <= i < n ==> job.sel[i] < |pool|
    ensures |ps| == n
    ensures forall i :: 0 <= i < n ==> ps[i] == PieceFor(pool, job, nextNs, i)
  {
    if n == 0 then [] else PiecesFor(pool, job, nextNs, n - 1) + [PieceFor(pool, job, nextNs, n - 1)]
  }

  predicate ExtentIs(e: Extent, p: Piece) {
    e.ssuId == p.ssuId && e.nsId == p.nsId && e.off == p.off && e.len == p.len
  }

  predicate ExtentsAre(es: seq<Extent>, ps: seq<Piece>) {
    |es| == |ps| && forall i :: 0 <= i < |es| ==> ExtentIs(es[i], ps[i])
  }

  /** The job's rows and extents when it has placed n extents. */
  predicate PlacedPieces(rows: Rows, extents: seq<Extent>, job: Job, ps: seq<Piece>) {
    && Pick(rows, RowId, RowPiece, job.id) == ps
    && Below(rows, RowId, job.id, FirstFree(rows))
    && ExtentsAre(extents, ps)
  }

  /** The loop's variables at extent s.i, when the job started in w0. */
  predicate Midway(w0: World, s: Placing, job: Job) {
    && JobOk(w0.c.pool, job) && CanPlace(s, job)
    && PoolAt(w0.c.pool, s.w.c.pool, job, s.i)
    && s.off == Off(job.req.size, |job.sel|, s.i)
    && s.w.m.nextNs == w0.m.nextNs + s.i
    && PlacedPieces(s.w.c.rows, s.extents, job, PiecesFor(w0.c.pool, job, w0.m.nextNs, s.i))
  }

  lemma PutPiece(rows: Rows, extents: seq<Extent>, job: Job, ps: seq<Piece>, row: Row, e: Extent)
    requires PlacedPieces(rows, extents, job, ps) && FirstFree(rows) < |rows|
    requires row.allocId == job.id && ExtentIs(e, RowPiece(row))
    ensures PlacedPieces(Put(rows, row), extents + [e], job, ps + [RowPiece(row)])
  {
    PickPut(rows, row, RowId, RowPiece, job.id);
    PutBelow(rows, row, RowId, job.id);
  }

  lemma AdvanceMidway(w0: World, s: Placing, job: Job, create: Faults)
    requires Midway(w0, s, job) && s.i < |job.sel| && NextStatus(s, job, create) == OK
    ensures Midway(w0, Advance(s, job), job)
  {
    Tiles(job.req.size, |job.sel|, s.i);
    FreeCountPositive(s.w.c.rows);
    AdvancePieces(w0, s, job);
    AdvancePool(w0, s, job);
  }

  lemma AdvancePieces(w0: World, s: Placing, job: Job)
    requires Midway(w0, s, job) && s.i < |job.sel|
    ensures PlacedPieces(Advance(s, job).w.c.rows, Advance(s, job).extents, job,
      PiecesFor(w0.c.pool, job, w0.m.nextNs, s.i + 1))
  {
    var x := RequestFor(s.w.c.pool, job, s.i, s.off);
    var nsId := Numbered(NS_PREFIX, s.w.m.nextNs);
    var row := NewRow(job, x, nsId, s.i);
    var ps := PiecesFor(w0.c.pool, job, w0.m.nextNs, s.i);
    FreeCountPositive(s.w.c.rows);
    assert RowPiece(row) == PieceFor(w0.c.pool, job, w0.m.nextNs, s.i);
    PutPiece(s.w.c.rows, s.extents, job, ps, row, NewExtent(s.w.c.pool, job, s.i, s.off, nsId));
    assert PiecesFor(w0.c.pool, job, w0.m.nextNs, s.i + 1) == ps + [RowPiece(row)];
  }

  lemma {:induction false} PlaceFromMidway(w0: World, s: Placing, job: Job, create: Faults)
    requires Midway(w0, s, job)
    ensures Midway(w0, PlaceFrom(s, job, create).0, job)
    decreases |job.sel| - s.i
  {
    if s.i < |job.sel| && NextStatus(s, job, create) == OK {
      AdvanceMidway(w0, s, job, create);
      PlaceFromMidway(w0, Advance(s, job), job, create);
    }
  }

  /** Extents of a size-byte stripe on distinct SSUs. */
  predicate StripePieces(ps: seq<Piece>, size: nat) {
    && 0 < |ps| <= size <= U64_MAX
    && (forall i :: 0 <= i < |ps| ==> ps[i].off == Off(size, |ps|, i) && ps[i].len == Len(size, |ps|, i))
    && (forall i, j :: 0 <= i < j < |ps| ==> ps[i].ssuId != ps[j].ssuId)
  }

  lemma PiecesAreStripe(pool: seq<Resource>, job: Job, nextNs: nat)
    requires JobOk(pool, job) && DistinctSsus(pool) && job.req.size <= U64_MAX
    ensures StripePieces(PiecesFor(pool, job, nextNs, |job.sel|), job.req.size)
  {
    var ps := PiecesFor(pool, job, nextNs, |job.sel|);
    forall i, j | 0 <= i < j < |ps| ensures ps[i].ssuId != ps[j].ssuId {
      assert job.sel[i] != job.sel[j];
      assert ps[i].ssuId == pool[job.sel[i]].ssuId && ps[j].ssuId == pool[job.sel[j]].ssuId;
    }
  }

  lemma StartsMidway(w: World, job: Job)
    requires JobOk(w.c.pool, job) && CanPlace(Start(w), job) && !Has(w.c.rows, RowId, job.id)
    ensures Midway(w, Start(w), job)
  {
    PickNone(w.c.rows, RowId, RowPiece, job.id);
    HasSome(w.c.rows, RowId, job.id);
    Tiles(job.req.size, |job.sel|, 0);
  }

  /** A granted allocation's rows, in table order, tile [0, size) from 0 upwards on
      distinct SSUs, and are what the caller is told. */
  lemma GrantedPieces(w: World, job: Job, create: Faults)
    requires JobOk(w.c.pool, job) && CanPlace(Start(w), job) && DistinctSsus(w.c.pool) && job.req.size <= U64_MAX
    requires !Has(w.c.rows, RowId, job.id)
    requires PlaceFrom(Start(w), job, create).1 == OK
    ensures var p := PlaceFrom(Start(w), job, create).0;
      var ps := Pick(p.w.c.rows, RowId, RowPiece, job.id);
      && ps == PiecesFor(w.c.pool, job, w.m.nextNs, |job.sel|)
      && StripePieces(ps, job.req.size) && ExtentsAre(p.extents, ps)
  {
    StartsMidway(w, job);
    PlaceFromMidway(w, Start(w), job, create);
    PlaceFromEnds(Start(w), job, create);
    PiecesAreStripe(w.c.pool, job, w.m.nextNs);
  }

  lemma {:induction false} PlaceFromEnds(s: Placing, job: Job, create: Faults)
    requires CanPlace(s, job) && PlaceFrom(s, job, create).1 == OK
    ensures PlaceFrom(s, job, create).0.i == |job.sel|
    decreases |job.sel| - s.i
  {
    if s.i < |job.sel| { PlaceFromEnds(Advance(s, job), job, create); }
  }

  /** Rows outside the job are picked as before, by any key the job does not have. */
  lemma ExtendedPick<U>(a: Rows, b: Rows, job: Job, pool: seq<Resource>, n: nat, key: Row -> string, view: Row -> U,
      k: string)
    requires Extended(a, b, job, pool, n)
    requires forall r: Row :: JobRow(r, job, pool) ==> key(r) != k
    ensures Pick(b, key, view, k) == Pick(a, key, view, k)
  {
    PickAgree(b, a, key, view, key, view, k, k);
  }

  // ---- what every step keeps of the rows ----

  predicate SameGrantee(a: Row, b: Row) {
    a.diskName == b.diskName && a.tenant == b.tenant && a.hostKey == b.hostKey && a.share == b.share
      && a.state == b.state
  }

  /** Rows of one id agree on everything but their extent, and a disk name has
      only one id. */
  predicate Uniform(rows: Rows) {
    forall i, j :: 0 <= i < |rows| && 0 <= j < |rows| && rows[i].Some? && rows[j].Some? ==>
      && (rows[i].value.allocId == rows[j].value.allocId ==> SameGrantee(rows[i].value, rows[j].value))
      && (rows[i].value.diskName == rows[j].value.diskName && rows[i].value.diskName != [] ==>
        rows[i].value.allocId == rows[j].value.allocId)
  }

  /** An allocation has at most one extent on an SSU, and none is empty. */
  predicate Spread(rows: Rows) {
    && (forall i :: 0 <= i < |rows| && rows[i].Some? ==> rows[i].value.len > 0)
    && (forall i, j ::
          0 <= i < j < |rows| && rows[i].Some? && rows[j].Some? && rows[i].value.allocId == rows[j].value.allocId ==>
          rows[i].value.ssuId != rows[j].value.ssuId)
  }

  /** Sizes fit 64 bits. */
  predicate Bounded(c: Ctl) {
    && (forall i :: 0 <= i < |c.rows| && c.rows[i].Some? ==>
      c.rows[i].value.phys * SECTOR + c.rows[i].value.len <= U64_MAX)
    && (forall p :: 0 <= p < |c.pool| ==> c.pool[p].total <= U64_MAX)
  }

  predicate RowsOk(c: Ctl) {
    IdsBelow(c) && Uniform(c.rows) && Spread(c.rows) && Bounded(c)
  }

  lemma GrantKeepsUniform(a: Rows, b: Rows, job: Job, pool: seq<Resource>, n: nat)
    requires Uniform(a) && Extended(a, b, job, pool, n)
    requires !Has(a, RowId, job.id) && (job.req.diskName != [] ==> !Has(a, RowName, job.req.diskName))
    ensures Uniform(b)
  {
    HasSome(a, RowId, job.id);
    HasSome(a, RowName, job.req.diskName);
    forall i | 0 <= i < |b| && b[i].Some?
      ensures (a[i].None? && JobRow(b[i].value, job, pool))
        || (b[i] == a[i] && a[i].value.allocId != job.id
          && (job.req.diskName != [] ==> a[i].value.diskName != job.req.diskName))
    {
      if a[i].Some? { assert !Carries(a[i], RowId, job.id); }
    }
  }

  lemma GrantKeepsSpread(a: Rows, b: Rows, job: Job, pool: seq<Resource>, n: nat)
    requires Spread(a) && Extended(a, b, job, pool, n) && !Has(a, RowId, job.id)
    requires JobOk(pool, job) && DistinctSsus(pool)
    ensures Spread(b)
  {
    HasSome(a, RowId, job.id);
    forall i | 0 <= i < |b| && b[i].Some? ensures b[i].value.len > 0 {
      if a[i].None? { Tiles(job.req.size, |job.sel|, b[i].value.role); }
    }
    forall i, j | 0 <= i < j < |b| && b[i].Some? && b[j].Some? && b[i].value.allocId == b[j].value.allocId
      ensures b[i].value.ssuId != b[j].value.ssuId
    {
      assert a[i].Some? ==> !Carries(a[i], RowId, job.id);
      assert a[j].Some? ==> !Carries(a[j], RowId, job.id);
      if a[i].None? && a[j].None? {
        var x, y := b[i].value.role, b[j].value.role;
        assert x != y && job.sel[x] != job.sel[y];
      }
    }
  }

  lemma GrantKeepsBounded(c: Ctl, b: Rows, pool2: seq<Resource>, job: Job, n: nat)
    requires Bounded(c) && Extended(c.rows, b, job, c.pool, n) && JobOk(c.pool, job) && PoolAt(c.pool, pool2, job, n)
    ensures Bounded(c.(rows := b, pool := pool2))
  {
    forall i | 0 <= i < |b| && b[i].Some? ensures b[i].value.phys * SECTOR + b[i].value.len <= U64_MAX {
      if c.rows[i].None? {
        var r := c.pool[job.sel[b[i].value.role]];
        assert Room(r, JobLen(job, b[i].value.role)) && r.used / SECTOR * SECTOR == r.used;
      }
    }
  }

  lemma IssuedLater(prefix: string, s: string, m: nat, n: nat)
    requires m <= n && IssuedBelow(prefix, s, m)
    ensures IssuedBelow(prefix, s, n)
  {}

  lemma GrantKeepsIds(c: Ctl, c2: Ctl, job: Job, pool: seq<Resource>, n: nat)
    requires IdsBelow(c) && Extended(c.rows, c2.rows, job, pool, n)
    requires c2.released == c.released && c2.nextId == c.nextId + 1
    requires job.id == Numbered(ID_PREFIX, c.nextId) && c.nextId < TWO64
    ensures IdsBelow(c2)
  {
    NumberedIssued(ID_PREFIX, c.nextId, c.nextId + 1);
  }

  lemma PlaceKeepsRowsOk(w: World, job: Job, create: Faults, delete: Faults)
    requires RowsOk(w.c) && DistinctSsus(w.c.pool) && CanPlace(Start(w), job) && JobOk(w.c.pool, job)
    requires job.id == Numbered(ID_PREFIX, w.c.nextId) && w.c.nextId < TWO64
    requires !Has(w.c.rows, RowId, job.id) && (job.req.diskName != [] ==> !Has(w.c.rows, RowName, job.req.diskName))
    ensures RowsOk(Place(w, job, create, delete).0.c)
  {
    var (p, st) := PlaceFrom(Start(w), job, create);
    if st != OK {
      PlaceAllOrNothing(w, job, create, delete);
    } else {
      PlacedExtends(w, job, create, p);
      GrantKeepsRowsOk(w.c, p.w.c, job, p.i);
      PlaceSucceeds(w, job, create, delete, p);
    }
  }

  lemma PlacedExtends(w: World, job: Job, create: Faults, p: Placing)
    requires CanPlace(Start(w), job) && Distinct(job.sel) && PlaceFrom(Start(w), job, create) == (p, OK)
    ensures Extended(w.c.rows, p.w.c.rows, job, w.c.pool, p.i) && PoolAt(w.c.pool, p.w.c.pool, job, p.i)
    ensures p.w.c.released == w.c.released && p.w.c.nextId == w.c.nextId
  {
    PlaceFromExtends(w, Start(w), job, create);
  }

  lemma PlaceSucceeds(w: World, job: Job, create: Faults, delete: Faults, p: Placing)
    requires CanPlace(Start(w), job) && PlaceFrom(Start(w), job, create) == (p, OK)
    ensures Place(w, job, create, delete).0.c == p.w.c.(nextId := p.w.c.nextId + 1)
  {}

  lemma GrantKeepsRowsOk(c: Ctl, c2: Ctl, job: Job, n: nat)
    requires RowsOk(c) && DistinctSsus(c.pool) && JobOk(c.pool, job)
    requires job.id == Numbered(ID_PREFIX, c.nextId) && c.nextId < TWO64
    requires !Has(c.rows, RowId, job.id) && (job.req.diskName != [] ==> !Has(c.rows, RowName, job.req.diskName))
    requires Extended(c.rows, c2.rows, job, c.pool, n) && PoolAt(c.pool, c2.pool, job, n)
    requires c2.released == c.released && c2.nextId == c.nextId
    ensures RowsOk(c2.(nextId := c2.nextId + 1))
  {
    GrantKeepsUniform(c.rows, c2.rows, job, c.pool, n);
    GrantKeepsSpread(c.rows, c2.rows, job, c.pool, n);
    GrantKeepsBounded(c, c2.rows, c2.pool, job, n);
    GrantKeepsIds(c, c2.(nextId := c2.nextId + 1), job, c.pool, n);
  }

  // ---- release ----

  /** b is a with some rows of id taken out. */
  predicate Thinned(a: Rows, b: Rows, id: string) {
    |a| == |b| && forall i :: 0 <= i < |a| ==> b[i] == a[i] || (Carries(a[i], RowId, id) && b[i].None?)
  }

  lemma {:induction false} ReleaseFromThins(w: World, id: string, i: nat, found: bool, delete: Faults)
    requires i <= |w.c.rows|
    ensures var (w2, st, found2) := ReleaseFrom(w, id, i, found, delete);
      && Thinned(w.c.rows, w2.c.rows, id)
      && w2.c.released == w.c.released && w2.c.logdevs == w.c.logdevs && w2.c.nextId == w.c.nextId
      && w2.k == w.k && w2.m.mounts == w.m.mounts && w2.m.nextNs == w.m.nextNs
      && |w2.c.pool| == |w.c.pool| && (forall p :: 0 <= p < |w.c.pool| ==>
        w2.c.pool[p].total == w.c.pool[p].total && w2.c.pool[p].ssuId == w.c.pool[p].ssuId)
      && (found2 ==> found || exists j :: i <= j < |w.c.rows| && Carries(w.c.rows[j], RowId, id))
      && (st == OK ==> forall j :: i <= j < |w.c.rows| ==> !Carries(w2.c.rows[j], RowId, id))
      && (st == OK && !found2 ==> w2 == w)
      && (found ==> found2)
    decreases |w.c.rows| - i
  {
    if i < |w.c.rows| {
      if !Carries(w.c.rows[i], RowId, id) {
        ReleaseFromThins(w, id, i + 1, found, delete);
      } else {
        var row := w.c.rows[i].value;
        var st := if Fault(delete, i) != OK then Fault(delete, i) else DeleteNs(w.m, row.ssuId, row.nsId).1;
        if st == OK {
          ReleaseFromThins(UndoOne(w, i, OK), id, i + 1, true, delete);
        }
      }
    }
  }

  lemma ReleaseKeepsRowsOk(w: World, id: string, delete: Faults)
    requires WorldShaped(w) && RowsOk(w.c)
    ensures RowsOk(Release(w, id, delete).0.c)
  {
    var c2 := ReleaseFrom(w, id, 0, false, delete).0.c;
    ReleaseFromThins(w, id, 0, false, delete);
    ThinnedUniform(w.c.rows, c2.rows, id);
    ThinnedSpread(w.c.rows, c2.rows, id);
    ThinnedBounded(w.c, c2, id);
    ReleaseKeepsIds(w.c, c2, id);
  }

  lemma ThinnedUniform(a: Rows, b: Rows, id: string)
    requires Thinned(a, b, id) && Uniform(a)
    ensures Uniform(b)
  {}

  lemma ThinnedSpread(a: Rows, b: Rows, id: string)
    requires Thinned(a, b, id) && Spread(a)
    ensures Spread(b)
  {}

  lemma ThinnedBounded(c: Ctl, c2: Ctl, id: string)
    requires Thinned(c.rows, c2.rows, id) && Bounded(c)
    requires |c2.pool| == |c.pool| && forall p :: 0 <= p < |c.pool| ==> c2.pool[p].total == c.pool[p].total
    ensures Bounded(c2)
  {}

  /** Releasing keeps active ids and remembers at most the one released. */
  lemma ReleaseKeepsIds(c: Ctl, c2: Ctl, id: string)
    requires IdsBelow(c) && Thinned(c.rows, c2.rows, id) && c2.released == c.released && c2.nextId == c.nextId
    ensures IdsBelow(c2)
    ensures (exists i :: 0 <= i < |c.rows| && Carries(c.rows[i], RowId, id)) ==>
      IdsBelow(c2.(released := Remember(c2.released, id)))
  {}

  lemma ThinnedPick<U>(a: Rows, b: Rows, id: string, view: Row -> U, k: string)
    requires Thinned(a, b, id) && k != id
    ensures Pick(b, RowId, view, k) == Pick(a, RowId, view, k)
  {
    PickAgree(b, a, RowId, view, RowId, view, k, k);
  }

  // ---- refresh, mount, unmount ----

  lemma {:induction false} AppendMissingBounded(next: seq<Resource>, pool: seq<Resource>, i: nat,
      health: map<string, string>)
    requires i <= |pool|
    requires forall p :: 0 <= p < |next| ==> next[p].total <= U64_MAX
    requires forall p :: 0 <= p < |pool| ==> pool[p].total <= U64_MAX
    ensures var r := AppendMissing(next, pool, i, health);
      r.Some? ==> forall p :: 0 <= p < |r.value| ==> r.value[p].total <= U64_MAX
    decreases |pool| - i
  {
    if i < |pool| {
      if FindRes(next, pool[i].ssuId) < |next| {
        AppendMissingBounded(next, pool, i + 1, health);
      } else if |next| < MAX_RESOURCES {
        AppendMissingBounded(next + [WithHealth(pool[i], health)], pool, i + 1, health);
      }
    }
  }

  predicate FoundBounded(op: Op) {
    op.OpRefresh? ==> forall p :: 0 <= p < |op.discovery.found| ==> op.discovery.found[p].total <= U64_MAX
  }

  lemma RefreshKeepsRowsOk(c: Ctl, d: Discovery, health: map<string, string>)
    requires RowsOk(c) && forall p :: 0 <= p < |d.found| ==> d.found[p].total <= U64_MAX
    ensures RowsOk(Refresh(c, d, health).0)
  {
    AppendMissingBounded(CarryAll(c.pool, d.found, health), c.pool, 0, health);
  }

  lemma SetStateKeepsRowsOk(c: Ctl, c2: Ctl, id: string, st: RowState)
    requires RowsOk(c) && c2.rows == SetState(c.rows, id, st)
    requires c2.pool == c.pool && c2.released == c.released && c2.nextId == c.nextId
    ensures RowsOk(c2)
  {
    SetStateUniform(c.rows, id, st);
    SetStateSpread(c.rows, id, st);
    SetStateBounds(c, c2, id, st);
  }

  lemma SetStateSpread(rows: Rows, id: string, st: RowState)
    requires Spread(rows)
    ensures Spread(SetState(rows, id, st))
  {
    assert forall i :: 0 <= i < |rows| ==> SetState(rows, id, st)[i] == WithState(rows[i], id, st);
  }

  lemma SetStateBounds(c: Ctl, c2: Ctl, id: string, st: RowState)
    requires IdsBelow(c) && Bounded(c) && c2.rows == SetState(c.rows, id, st)
    requires c2.pool == c.pool && c2.released == c.released && c2.nextId == c.nextId
    ensures IdsBelow(c2) && Bounded(c2)
  {
    assert forall i :: 0 <= i < |c2.rows| ==> c2.rows[i] == WithState(c.rows[i], id, st);
  }

  lemma SetStateUniform(rows: Rows, id: string, st: RowState)
    requires Uniform(rows)
    ensures Uniform(SetState(rows, id, st))
  {
    var rows2 := SetState(rows, id, st);
    forall i, j | 0 <= i < |rows2| && 0 <= j < |rows2| && rows2[i].Some? && rows2[j].Some?
      ensures rows2[i].value.allocId == rows2[j].value.allocId ==> SameGrantee(rows2[i].value, rows2[j].value)
      ensures rows2[i].value.diskName == rows2[j].value.diskName && rows2[i].value.diskName != [] ==>
        rows2[i].value.allocId == rows2[j].value.allocId
    {
      assert rows2[i] == WithState(rows[i], id, st) && rows2[j] == WithState(rows[j], id, st);
    }
  }

  /** A pick whose view ignores the state does not see state changes. */
  lemma SetStatePick<U>(rows: Rows, id: string, st: RowState, key: Row -> string, view: Row -> U, k: string)
    requires forall r: Row :: key(r.(state := st)) == key(r) && view(r.(state := st)) == view(r)
    ensures Pick(SetState(rows, id, st), key, view, k) == Pick(rows, key, view, k)
  {
    PickAgree(SetState(rows, id, st), rows, key, view, key, view, k, k);
  }

  lemma StepKeepsRowsOk(w: World, op: Op)
    requires WorldShaped(w) && Books(w.c) && RowsOk(w.c) && FoundBounded(op)
    requires Step(w, op).c.nextId < TWO64
    ensures RowsOk(Step(w, op).c) && w.c.nextId <= Step(w, op).c.nextId
  {
    match op
    case OpRefresh(d, h) => RefreshKeepsRowsOk(w.c, d, h);
    case OpAlloc(req, cap, create, delete) => AllocKeepsRowsOk(w, req, cap, create, delete);
    case OpRelease(id, deletes) =>
      ReleaseKeepsRowsOk(w, id, deletes);
      ReleaseFromThins(w, id, 0, false, deletes);
    case OpMount(req, d, f) => MountKeepsRowsOk(w, req, d, f);
    case OpUnmount(dev, d, f) => UnmountKeepsRowsOk(w, dev, d, f);
  }

  lemma MountKeepsRowsOk(w: World, req: MountReq, d: Devices, f: KernelFaults)
    requires WorldShaped(w) && RowsOk(w.c)
    ensures RowsOk(MountOp(w, req, d, f).0.c) && MountOp(w, req, d, f).0.c.nextId == w.c.nextId
  {
    MountCases(w, req, d, f);
    var c2 := MountOp(w, req, d, f).0.c;
    if c2 != w.c { SetStateKeepsRowsOk(w.c, c2, req.allocId, MOUNTED); }
  }

  lemma UnmountKeepsRowsOk(w: World, dev: string, d: Devices, f: KernelFaults)
    requires WorldShaped(w) && RowsOk(w.c)
    ensures RowsOk(UnmountOp(w, dev, d, f).0.c) && UnmountOp(w, dev, d, f).0.c.nextId == w.c.nextId
  {
    UnmountCases(w, dev, d, f);
    var c2 := UnmountOp(w, dev, d, f).0.c;
    if c2 != w.c {
      var id := w.c.logdevs[Find(w.c.logdevs, LogdevDev, dev)].value.allocId;
      SetStateKeepsRowsOk(w.c, c2, id, if Has(c2.logdevs, LogdevId, id) then MOUNTED else ACTIVE);
    }
  }

  lemma PlaceNextId(w: World, job: Job, create: Faults, delete: Faults)
    requires CanPlace(Start(w), job) && DistinctSsus(w.c.pool) && Distinct(job.sel)
    ensures var (w2, out) := Place(w, job, create, delete);
      w2.c.nextId == w.c.nextId + (if out.status == OK then 1 else 0)
  {
    PlaceFromExtends(w, Start(w), job, create);
    if Place(w, job, create, delete).1.status != OK {
      PlaceAllOrNothing(w, job, create, delete);
    }
  }

  lemma AllocKeepsRowsOk(w: World, req: AllocReq, cap: Option<nat>, create: Faults, delete: Faults)
    requires WorldShaped(w) && Books(w.c) && RowsOk(w.c)
    requires Alloc(w, req, cap, create, delete).0.c.nextId < TWO64
    ensures RowsOk(Alloc(w, req, cap, create, delete).0.c)
    ensures w.c.nextId <= Alloc(w, req, cap, create, delete).0.c.nextId
  {
    AllocCases(w, req, cap, create, delete);
    if req.size > 0 && HostKey.Key(req.hosts).Some? {
      var a := Admit(Searched(w).c, req, HostKey.Key(req.hosts).value, cap);
      if a.Admitted? {
        PlaceNextId(Searched(w), a.job, create, delete);
        if w.c.nextId < TWO64 {
          SearchIsImmediate(w);
          if req.diskName != [] ==> !Has(w.c.rows, RowName, req.diskName) {
            PlaceKeepsRowsOk(w, a.job, create, delete);
          }
        }
      }
    }
    if w.c.nextId < TWO64 {
      SearchIsImmediate(w);
    }
  }

  // ---- ids over runs ----

  predicate StepFits(op: Op) { FindsDistinct(op) && FoundBounded(op) }

  predicate RunFits(ops: seq<Op>) { forall i :: 0 <= i < |ops| ==> StepFits(ops[i]) }

  lemma {:induction false} RunKeepsRowsOk(w: World, ops: seq<Op>)
    requires WorldShaped(w) && Books(w.c) && RowsOk(w.c) && RunFits(ops)
    requires Run(w, ops).c.nextId < TWO64
    ensures Books(Run(w, ops).c) && RowsOk(Run(w, ops).c) && w.c.nextId <= Run(w, ops).c.nextId
  {
    if ops != [] {
      var front, last := ops[..|ops| - 1], ops[|ops| - 1];
      Conservation(w, front);
      NextIdGrows(Run(w, front), last);
      RunKeepsRowsOk(w, front);
      StepKeepsBooks(Run(w, front), last);
      StepKeepsRowsOk(Run(w, front), last);
    }
  }

  /** The counter never goes back, whatever the step. */
  lemma NextIdGrows(w: World, op: Op)
    requires WorldShaped(w) && Books(w.c)
    ensures w.c.nextId <= Step(w, op).c.nextId
  {
    match op
    case OpRefresh(d, h) =>
    case OpAlloc(req, cap, create, delete) =>
      AllocCases(w, req, cap, create, delete);
      if req.size > 0 && HostKey.Key(req.hosts).Some? {
        var a := Admit(Searched(w).c, req, HostKey.Key(req.hosts).value, cap);
        if a.Admitted? { PlaceNextId(Searched(w), a.job, create, delete); }
      }
    case OpRelease(id, deletes) => ReleaseFromThins(w, id, 0, false, deletes);
    case OpMount(req, d, f) => MountCases(w, req, d, f);
    case OpUnmount(dev, d, f) => UnmountCases(w, dev, d, f);
  }

  predicate OnlyNew(a: Rows, b: Rows, id: string) {
    |a| == |b| && forall i :: 0 <= i < |a| && b[i].Some? ==>
      (a[i].Some? && b[i].value.allocId == a[i].value.allocId) || b[i].value.allocId == id
  }

  lemma AllocOnlyNew(w: World, req: AllocReq, cap: Option<nat>, create: Faults, delete: Faults)
    requires WorldShaped(w) && Books(w.c) && RowsOk(w.c) && w.c.nextId < TWO64
    ensures OnlyNew(w.c.rows, Alloc(w, req, cap, create, delete).0.c.rows, Numbered(ID_PREFIX, w.c.nextId))
  {
    SearchIsImmediate(w);
    AllocCases(w, req, cap, create, delete);
    if req.size > 0 && HostKey.Key(req.hosts).Some? {
      var a := Admit(w.c, req, HostKey.Key(req.hosts).value, cap);
      if a.Admitted? {
        PlaceOnlyNew(w, a.job, create, delete);
      }
    }
  }

  lemma PlaceOnlyNew(w: World, job: Job, create: Faults, delete: Faults)
    requires CanPlace(Start(w), job) && DistinctSsus(w.c.pool) && Distinct(job.sel)
    ensures OnlyNew(w.c.rows, Place(w, job, create, delete).0.c.rows, job.id)
  {
    PlaceFromExtends(w, Start(w), job, create);
    if Place(w, job, create, delete).1.status != OK {
      PlaceAllOrNothing(w, job, create, delete);
    }
  }

  /** A step can only bring the id Numbered(nextId) to life. */
  lemma StepIssues(w: World, op: Op, id: string)
    requires WorldShaped(w) && Books(w.c) && RowsOk(w.c) && StepFits(op) && Step(w, op).c.nextId < TWO64
    requires !Has(w.c.rows, RowId, id) && Has(Step(w, op).c.rows, RowId, id)
    ensures id == Numbered(ID_PREFIX, w.c.nextId) && op.OpAlloc?
  {
    var rows, rows2 := w.c.rows, Step(w, op).c.rows;
    NextIdGrows(w, op);
    HasSome(rows, RowId, id);
    HasSome(rows2, RowId, id);
    match op
    case OpRefresh(d, h) =>
    case OpAlloc(req, cap, create, delete) => AllocOnlyNew(w, req, cap, create, delete);
    case _ => OtherStepsIssueNothing(w, op, id);
  }

  lemma OtherStepsIssueNothing(w: World, op: Op, id: string)
    requires WorldShaped(w) && !op.OpAlloc? && !Has(w.c.rows, RowId, id)
    ensures !Has(Step(w, op).c.rows, RowId, id)
  {
    HasSome(w.c.rows, RowId, id);
    match op
    case OpRefresh(d, h) =>
    case OpRelease(x, deletes) => ReleaseIssuesNothing(w, x, deletes, id);
    case OpMount(req, d, f) => MountIssuesNothing(w, req, d, f, id);
    case OpUnmount(dev, d, f) => UnmountIssuesNothing(w, dev, d, f, id);
  }

  predicate NoRow(rows: Rows, id: string) { forall i :: 0 <= i < |rows| ==> !Carries(rows[i], RowId, id) }

  lemma ReleaseIssuesNothing(w: World, x: string, deletes: Faults, id: string)
    requires WorldShaped(w) && NoRow(w.c.rows, id)
    ensures !Has(Release(w, x, deletes).0.c.rows, RowId, id)
  {
    ReleaseFromThins(w, x, 0, false, deletes);
    HasSome(Release(w, x, deletes).0.c.rows, RowId, id);
  }

  lemma MountIssuesNothing(w: World, req: MountReq, d: Devices, f: KernelFaults, id: string)
    requires WorldShaped(w) && NoRow(w.c.rows, id)
    ensures !Has(MountOp(w, req, d, f).0.c.rows, RowId, id)
  {
    MountCases(w, req, d, f);
    HasSome(MountOp(w, req, d, f).0.c.rows, RowId, id);
  }

  lemma UnmountIssuesNothing(w: World, dev: string, d: Devices, f: KernelFaults, id: string)
    requires WorldShaped(w) && NoRow(w.c.rows, id)
    ensures !Has(UnmountOp(w, dev, d, f).0.c.rows, RowId, id)
  {
    UnmountCases(w, dev, d, f);
    HasSome(UnmountOp(w, dev, d, f).0.c.rows, RowId, id);
  }

  /** An id that was issued and is no longer active never names an allocation
      again in a run of fewer than 2^64 grants, remembered as released or not. */
  lemma {:induction false} IdsNeverReused(w: World, ops: seq<Op>, id: string)
    requires WorldShaped(w) && Books(w.c) && RowsOk(w.c) && RunFits(ops)
    requires Run(w, ops).c.nextId < TWO64
    requires IssuedBelow(ID_PREFIX, id, w.c.nextId) && !Has(w.c.rows, RowId, id)
    ensures !Has(Run(w, ops).c.rows, RowId, id)
  {
    if ops != [] {
      var front, last := ops[..|ops| - 1], ops[|ops| - 1];
      var v := Run(w, front);
      Conservation(w, front);
      NextIdGrows(v, last);
      RunKeepsRowsOk(w, front);
      IdsNeverReused(w, front, id);
      if Has(Step(v, last).c.rows, RowId, id) {
        StepIssues(v, last, id);
        NumberedIssued(ID_PREFIX, v.c.nextId, w.c.nextId);
      }
    }
  }
}
