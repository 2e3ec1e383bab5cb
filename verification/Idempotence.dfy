/** A named allocation asked for again gives the grant it already has. */
module Idempotence {
  import opened Types
  import opened Tables
  import opened Decimal
  import opened ReqShimIface
  import opened MockState
  import opened Placement
  import opened ControllerState
  import opened Ledger
  import opened Rollback
  import opened Grants
  import opened Stripe
  import HostKey

  function BareRows(c: Ctl, id: string): seq<Row> { Pick(c.rows, RowId, RowBare, id) }

  // ---- other steps leave a grant alone ----

  lemma StepKeepsGrant(w: World, op: Op, id: string)
    requires WorldShaped(w) && Books(w.c) && RowsOk(w.c) && Step(w, op).c.nextId < TWO64
    requires IssuedBelow(ID_PREFIX, id, w.c.nextId)
    requires op.OpRelease? ==> op.id != id
    ensures BareRows(Step(w, op).c, id) == BareRows(w.c, id)
  {
    match op
    case OpRefresh(d, h) =>
    case OpAlloc(req, cap, create, delete) =>
      NextIdGrows(w, op);
      AllocKeepsGrant(w, req, cap, create, delete, id);
    case OpRelease(x, deletes) => ReleaseKeepsGrant(w, x, deletes, id);
    case OpMount(req, d, f) => MountKeepsGrant(w, req, d, f, id);
    case OpUnmount(dev, d, f) =>
      UnmountKeepsGrant(w, dev, d, f, id);
  }

  lemma ReleaseKeepsGrant(w: World, x: string, deletes: Faults, id: string)
    requires WorldShaped(w) && x != id
    ensures BareRows(Release(w, x, deletes).0.c, id) == BareRows(w.c, id)
  {
    ReleaseFromThins(w, x, 0, false, deletes);
    ThinnedPick(w.c.rows, Release(w, x, deletes).0.c.rows, x, RowBare, id);
  }

  lemma MountKeepsGrant(w: World, req: MountReq, d: Devices, f: KernelFaults, id: string)
    requires WorldShaped(w)
    ensures BareRows(MountOp(w, req, d, f).0.c, id) == BareRows(w.c, id)
  {
    MountCases(w, req, d, f);
    SetStatePick(w.c.rows, req.allocId, MOUNTED, RowId, RowBare, id);
  }

  lemma UnmountKeepsGrant(w: World, dev: string, d: Devices, f: KernelFaults, id: string)
    requires WorldShaped(w)
    ensures BareRows(UnmountOp(w, dev, d, f).0.c, id) == BareRows(w.c, id)
  {
    UnmountCases(w, dev, d, f);
    if Has(w.c.logdevs, LogdevDev, dev) {
      var x := w.c.logdevs[Find(w.c.logdevs, LogdevDev, dev)].value.allocId;
      SetStatePick(w.c.rows, x, MOUNTED, RowId, RowBare, id);
      SetStatePick(w.c.rows, x, ACTIVE, RowId, RowBare, id);
    }
  }

  lemma AllocKeepsGrant(w: World, req: AllocReq, cap: Option<nat>, create: Faults, delete: Faults, id: string)
    requires WorldShaped(w) && Books(w.c) && RowsOk(w.c) && w.c.nextId < TWO64
    requires IssuedBelow(ID_PREFIX, id, w.c.nextId)
    ensures BareRows(Alloc(w, req, cap, create, delete).0.c, id) == BareRows(w.c, id)
  {
    SearchIsImmediate(w);
    AllocCases(w, req, cap, create, delete);
    NumberedIssued(ID_PREFIX, w.c.nextId, w.c.nextId);
    if req.size > 0 && HostKey.Key(req.hosts).Some? {
      var a := Admit(w.c, req, HostKey.Key(req.hosts).value, cap);
      if a.Admitted? {
        var p := PlaceFrom(Start(w), a.job, create).0;
        PlaceFromExtends(w, Start(w), a.job, create);
        ExtendedPick(w.c.rows, p.w.c.rows, a.job, w.c.pool, p.i, RowId, RowBare, id);
        if Place(w, a.job, create, delete).1.status != OK {
          PlaceAllOrNothing(w, a.job, create, delete);
        }
      }
    }
  }

  predicate NeverReleased(ops: seq<Op>, id: string) {
    forall i :: 0 <= i < |ops| && ops[i].OpRelease? ==> ops[i].id != id
  }

  lemma {:induction false} RunKeepsGrant(w: World, ops: seq<Op>, id: string)
    requires WorldShaped(w) && Books(w.c) && RowsOk(w.c) && RunFits(ops) && NeverReleased(ops, id)
    requires Run(w, ops).c.nextId < TWO64 && IssuedBelow(ID_PREFIX, id, w.c.nextId)
    ensures BareRows(Run(w, ops).c, id) == BareRows(w.c, id)
  {
    if ops != [] {
      var front, last := ops[..|ops| - 1], ops[|ops| - 1];
      Conservation(w, front);
      NextIdGrows(Run(w, front), last);
      RunKeepsRowsOk(w, front);
      RunKeepsGrant(w, front, id);
      IssuedLater(ID_PREFIX, id, w.c.nextId, Run(w, front).c.nextId);
      StepKeepsGrant(Run(w, front), last, id);
    }
  }

  // ---- what a fresh grant's rows say ----

  /** The rows carry the request's attributes and the pieces' extents. */
  predicate GrantRows(rows: seq<Row>, req: AllocReq, key: string, id: string, ps: seq<Piece>) {
    && |rows| == |ps|
    && forall i :: 0 <= i < |rows| ==>
      && rows[i].allocId == id && rows[i].diskName == req.diskName && rows[i].tenant == Clip(req.tenant, TENANT_SIZE)
      && rows[i].hostKey == key && rows[i].share == req.share && RowPiece(rows[i]) == ps[i]
  }

  lemma {:induction false} BarePieces(rows: Rows, id: string)
    ensures var bare := Pick(rows, RowId, RowBare, id); var ps := Pick(rows, RowId, RowPiece, id);
      |bare| == |ps| && forall i :: 0 <= i < |bare| ==> RowPiece(bare[i]) == ps[i]
  {
    if rows != [] { BarePieces(rows[..|rows| - 1], id); }
  }

  lemma FreshGrantRows(w: World, job: Job, create: Faults)
    requires JobOk(w.c.pool, job) && CanPlace(Start(w), job) && DistinctSsus(w.c.pool) && job.req.size <= U64_MAX
    requires !Has(w.c.rows, RowId, job.id) && PlaceFrom(Start(w), job, create).1 == OK
    ensures var p := PlaceFrom(Start(w), job, create).0;
      GrantRows(BareRows(p.w.c, job.id), job.req, job.key, job.id, PiecesFor(w.c.pool, job, w.m.nextNs, |job.sel|))
  {
    var p := PlaceFrom(Start(w), job, create).0;
    var bare := BareRows(p.w.c, job.id);
    GrantedPieces(w, job, create);
    BarePieces(p.w.c.rows, job.id);
    PlaceFromExtends(w, Start(w), job, create);
    HasSome(w.c.rows, RowId, job.id);
    forall i | 0 <= i < |bare|
      ensures bare[i].allocId == job.id && bare[i].diskName == job.req.diskName
      ensures bare[i].tenant == Clip(job.req.tenant, TENANT_SIZE)
      ensures bare[i].hostKey == job.key && bare[i].share == job.req.share
    {
      var s := PickFrom(p.w.c.rows, RowId, RowBare, job.id, bare[i]);
      assert !Carries(w.c.rows[s], RowId, job.id);
    }
  }

  lemma {:induction false} StripeSum(rows: seq<Row>, ps: seq<Piece>, size: nat, i: nat)
    requires StripePieces(ps, size) && |rows| == |ps| && i <= |rows|
    requires forall j :: 0 <= j < |rows| ==> RowPiece(rows[j]) == ps[j]
    ensures SumLen(rows[..i]) == Off(size, |ps|, i)
  {
    if i == 0 {
      Tiles(size, |ps|, 0);
    } else {
      StripeSum(rows, ps, size, i - 1);
      Tiles(size, |ps|, i - 1);
      assert rows[..i][..i - 1] == rows[..i - 1];
    }
  }

  /** The stored rows match a request exactly when the tenant was not cut off and
      the disk count was not lowered to the size. */
  lemma GrantMatches(rows: seq<Row>, req: AllocReq, req2: AllocReq, key: string, id: string, ps: seq<Piece>,
      online: nat)
    requires GrantRows(rows, req, key, id, ps) && StripePieces(ps, req.size)
    requires req2 == req.(hosts := req2.hosts) && HostKey.Key(req2.hosts) == Some(key)
    requires |ps| == ExtentCount(req, online)
    ensures SameGrant(rows, req2, key) <==> |req.tenant| < TENANT_SIZE && req.diskCount <= req.size
  {
    StripeSum(rows, ps, req.size, |rows|);
    TakeAll(rows);
    Tiles(req.size, |ps|, 0);
  }

  lemma {:induction false} ExtentsOfPieces(rows: seq<Row>, ps: seq<Piece>, pool: seq<Resource>)
    requires |rows| == |ps| && forall i :: 0 <= i < |rows| ==> RowPiece(rows[i]) == ps[i]
    ensures ExtentsAre(ExtentsOf(rows, pool), ps)
  {
    if rows != [] { ExtentsOfPieces(rows[..|rows| - 1], ps[..|ps| - 1], pool); }
  }

  /** In a uniform table the rows of a name are the rows of its id. */
  lemma NameIsId(rows: Rows, name: string, id: string)
    requires Uniform(rows) && name != []
    requires var bare := Pick(rows, RowId, RowBare, id); bare != [] && bare[0].diskName == name
    ensures Has(rows, RowName, name) && Pick(rows, RowName, RowBare, name) == Pick(rows, RowId, RowBare, id)
  {
    var bare := Pick(rows, RowId, RowBare, id);
    var s := PickFrom(rows, RowId, RowBare, id, bare[0]);
    HasSome(rows, RowName, name);
    assert Carries(rows[s], RowName, name);
    forall i | 0 <= i < |rows| ensures Share(rows[i], RowName, RowBare, name) == Share(rows[i], RowId, RowBare, id) {
      assert rows[s].value.allocId == id;
    }
    PickAgree(rows, rows, RowName, RowBare, RowId, RowBare, name, id);
  }

  /** A name in use is never allocated again, and no table changes. */
  lemma TakenNameChangesNothing(w: World, req: AllocReq, cap: Option<nat>, create: Faults, delete: Faults)
    requires WorldShaped(w) && req.diskName != [] && Has(w.c.rows, RowName, req.diskName)
    ensures Alloc(w, req, cap, create, delete).0 == w
    ensures var rows := Pick(w.c.rows, RowName, RowBare, req.diskName);
      rows != [] &&
      ((req.reliability == STRIPE && req.size > 0 && HostKey.Key(req.hosts).Some? && NameValid(req.diskName)
        && !SameGrant(rows, req, HostKey.Key(req.hosts).value))
       ==> Alloc(w, req, cap, create, delete).1.status == NS_EXISTS)
  {
    PickNone(w.c.rows, RowName, RowBare, req.diskName);
  }

  /** The second request against rows that hold the first one's grant. */
  lemma RepeatAgainstRows(w: World, req: AllocReq, req2: AllocReq, key: string, id: string, ps: seq<Piece>,
      online: nat, cap: nat, create: Faults, delete: Faults)
    requires WorldShaped(w) && Uniform(w.c.rows)
    requires GrantRows(BareRows(w.c, id), req, key, id, ps) && StripePieces(ps, req.size)
    requires |ps| == ExtentCount(req, online)
    requires req.reliability == STRIPE && req.size > 0 && req.diskName != [] && NameValid(req.diskName)
    requires req2 == req.(hosts := req2.hosts) && HostKey.Key(req2.hosts) == Some(key)
    requires cap >= |ps|
    ensures var (w2, out) := Alloc(w, req2, Some(cap), create, delete);
      && w2 == w
      && (out.status == OK <==> |req.tenant| < TENANT_SIZE && req.diskCount <= req.size)
      && (out.status != OK ==> out.status == NS_EXISTS)
      && (out.status == OK ==> out.id == id && ExtentsAre(out.extents, ps))
  {
    var bare := BareRows(w.c, id);
    NameIsId(w.c.rows, req.diskName, id);
    GrantMatches(bare, req, req2, key, id, ps, online);
    ExtentsOfPieces(bare, ps, w.c.pool);
    TakenNameChangesNothing(w, req2, Some(cap), create, delete);
  }

  /** What a granted named request leaves in the tables. */
  lemma NamedGrant(w: World, req: AllocReq, cap: Option<nat>, create: Faults, delete: Faults)
    returns (ps: seq<Piece>, online: nat)
    requires WorldShaped(w) && Books(w.c) && RowsOk(w.c) && w.c.nextId < TWO64 && req.size <= U64_MAX
    requires req.diskName != [] && !Has(w.c.rows, RowName, req.diskName)
    requires Alloc(w, req, cap, create, delete).1.status == OK
    ensures var (w1, out) := Alloc(w, req, cap, create, delete);
      && req.reliability == STRIPE && req.size > 0 && NameValid(req.diskName) && HostKey.Key(req.hosts).Some?
      && GrantRows(BareRows(w1.c, out.id), req, HostKey.Key(req.hosts).value, out.id, ps)
      && StripePieces(ps, req.size) && |ps| == ExtentCount(req, online) && ExtentsAre(out.extents, ps)
      && out.id == Numbered(ID_PREFIX, w.c.nextId) && w1.c.nextId == w.c.nextId + 1
  {
    SearchIsImmediate(w);
    var key := HostKey.Key(req.hosts).value;
    var job := Admit(w.c, req, key, cap).job;
    online := |OnlineIndexes(w.c.pool)|;
    ps := PiecesFor(w.c.pool, job, w.m.nextNs, |job.sel|);
    GrantedPieces(w, job, create);
    FreshGrantRows(w, job, create);
    PlaceNextId(w, job, create, delete);
  }

  /** Repeating a granted named request, hosts in any order, after any run that
      does not release it, changes nothing. It returns the same id and extents
      exactly when the tenant fits its field and the size is at least the disk
      count; otherwise NS_EXISTS. */
  lemma NamedRequestIsIdempotent(w: World, req: AllocReq, cap: Option<nat>, create: Faults, delete: Faults,
      ops: seq<Op>, req2: AllocReq, cap2: nat, create2: Faults, delete2: Faults)
    requires WorldShaped(w) && Books(w.c) && RowsOk(w.c) && w.c.nextId < TWO64 && req.size <= U64_MAX
    requires req.diskName != [] && !Has(w.c.rows, RowName, req.diskName)
    requires var (w1, out) := Alloc(w, req, cap, create, delete);
      && out.status == OK && cap2 >= |out.extents|
      && RunFits(ops) && NeverReleased(ops, out.id) && Run(w1, ops).c.nextId < TWO64
    requires req2 == req.(hosts := req2.hosts) && multiset(req2.hosts) == multiset(req.hosts)
    ensures var (w1, out) := Alloc(w, req, cap, create, delete);
      var w2 := Run(w1, ops);
      var (w3, again) := Alloc(w2, req2, Some(cap2), create2, delete2);
      && w3 == w2
      && (again.status == OK <==> |req.tenant| < TENANT_SIZE && req.diskCount <= req.size)
      && (again.status != OK ==> again.status == NS_EXISTS)
      && (again.status == OK ==> again.id == out.id && SameExtents(again.extents, out.extents))
  {
    var (w1, out) := Alloc(w, req, cap, create, delete);
    var ps, online := NamedGrant(w, req, cap, create, delete);
    NumberedIssued(ID_PREFIX, w.c.nextId, w.c.nextId + 1);
    AllocKeepsBooks(w, req, cap, create, delete);
    RunBounds(w1, ops);
    AllocKeepsRowsOk(w, req, cap, create, delete);
    RunKeepsRowsOk(w1, ops);
    RunKeepsGrant(w1, ops, out.id);
    HostKey.KeyIgnoresOrder(req.hosts, req2.hosts);
    RepeatAgainstRows(Run(w1, ops), req, req2, HostKey.Key(req.hosts).value, out.id, ps, online, cap2, create2,
      delete2);
  }

  /** Equal but for the host an extent's SSU is reported under. */
  predicate SameExtents(a: seq<Extent>, b: seq<Extent>) {
    |a| == |b| && forall i :: 0 <= i < |a| ==> a[i] == b[i].(hostId := a[i].hostId)
  }

  lemma {:induction false} RunBounds(w: World, ops: seq<Op>)
    requires WorldShaped(w) && Books(w.c) && RunFits(ops)
    ensures w.c.nextId <= Run(w, ops).c.nextId
  {
    if ops != [] {
      var front := ops[..|ops| - 1];
      RunBounds(w, front);
      Conservation(w, front);
      NextIdGrows(Run(w, front), ops[|ops| - 1]);
    }
  }
}
