/** The controller's device rows mirror its allocation rows. */
module MountMirror {
  import opened Types
  import opened Tables
  import opened ReqShimIface
  import opened MockState
  import opened Placement
  import opened ControllerState
  import opened Ledger
  import opened Rollback
  import opened Grants
  import HostKey

  type Logdevs = seq<Option<Logdev>>

  predicate SpecIs(s: MapSpec, p: Piece) {
    s.nsId == p.nsId && s.off == p.off && s.len == p.len && s.phys == p.phys
  }

  predicate SpecsAre(ss: seq<MapSpec>, ps: seq<Piece>) {
    |ss| == |ps| && forall i :: 0 <= i < |ss| ==> SpecIs(ss[i], ps[i])
  }

  function DevSpecs(logdevs: Logdevs, dev: string): seq<MapSpec> { Pick(logdevs, LogdevDev, LogdevSpec, dev) }

  function PiecesOfId(rows: Rows, id: string): seq<Piece> { Pick(rows, RowId, RowPiece, id) }

  /** The rows of every mounted device copy, in order, all rows of one allocation. */
  predicate Copies(rows: Rows, logdevs: Logdevs) {
    forall i :: 0 <= i < |logdevs| && logdevs[i].Some? ==>
      SpecsAre(DevSpecs(logdevs, logdevs[i].value.dev), PiecesOfId(rows, logdevs[i].value.allocId))
  }

  /** A device is mounted for one allocation and one host. */
  predicate OneMountPerDevice(logdevs: Logdevs) {
    forall i, j ::
      && 0 <= i < |logdevs| && 0 <= j < |logdevs| && logdevs[i].Some? && logdevs[j].Some?
      && logdevs[i].value.dev == logdevs[j].value.dev ==>
      logdevs[i].value.allocId == logdevs[j].value.allocId && logdevs[i].value.hostId == logdevs[j].value.hostId
  }

  /** A row says MOUNTED exactly when some device has its id. */
  predicate StatesShow(rows: Rows, logdevs: Logdevs) {
    forall i :: 0 <= i < |rows| && rows[i].Some? ==>
      (rows[i].value.state == MOUNTED <==> Has(logdevs, LogdevId, rows[i].value.allocId))
  }

  /** Two devices for one allocation only if it is shared. */
  predicate ExclusiveOnce(rows: Rows, logdevs: Logdevs) {
    forall i, j, r | 0 <= i < |logdevs| && 0 <= j < |logdevs| && 0 <= r < |rows| && logdevs[i].Some? && logdevs[j].Some?
      && logdevs[i].value.allocId == logdevs[j].value.allocId && logdevs[i].value.dev != logdevs[j].value.dev
      && Carries(rows[r], RowId, logdevs[i].value.allocId) :: rows[r].value.share == SHARED
  }

  predicate Mirror(rows: Rows, logdevs: Logdevs) {
    Copies(rows, logdevs) && OneMountPerDevice(logdevs) && StatesShow(rows, logdevs) && ExclusiveOnce(rows, logdevs)
  }

  /** A mounted allocation has rows. */
  lemma MountedHasRows(rows: Rows, logdevs: Logdevs, i: nat)
    requires Copies(rows, logdevs) && i < |logdevs| && logdevs[i].Some?
    ensures Has(rows, RowId, logdevs[i].value.allocId)
  {
    var l := logdevs[i].value;
    PickIn(logdevs, LogdevDev, LogdevSpec, l.dev, i);
    PickNone(rows, RowId, RowPiece, l.allocId);
  }

  lemma GrantKeepsMirror(a: Rows, b: Rows, job: Job, pool: seq<Resource>, n: nat, logdevs: Logdevs)
    requires Mirror(a, logdevs) && Extended(a, b, job, pool, n) && !Has(a, RowId, job.id)
    ensures Mirror(b, logdevs)
  {
    forall i | 0 <= i < |logdevs| && logdevs[i].Some?
      ensures logdevs[i].value.allocId != job.id
      ensures PiecesOfId(b, logdevs[i].value.allocId) == PiecesOfId(a, logdevs[i].value.allocId)
    {
      MountedHasRows(a, logdevs, i);
      ExtendedPick(a, b, job, pool, n, RowId, RowPiece, logdevs[i].value.allocId);
    }
    HasSome(logdevs, LogdevId, job.id);
    assert !Has(logdevs, LogdevId, job.id);
  }

  lemma ReleaseKeepsMirror(a: Rows, b: Rows, id: string, logdevs: Logdevs)
    requires Mirror(a, logdevs) && Thinned(a, b, id) && !Has(logdevs, LogdevId, id)
    ensures Mirror(b, logdevs)
  {
    HasSome(logdevs, LogdevId, id);
    forall i | 0 <= i < |logdevs| && logdevs[i].Some?
      ensures logdevs[i].value.allocId != id
      ensures PiecesOfId(b, logdevs[i].value.allocId) == PiecesOfId(a, logdevs[i].value.allocId)
    {
      assert !Carries(logdevs[i], LogdevId, id);
      ThinnedPick(a, b, id, RowPiece, logdevs[i].value.allocId);
    }
  }

  // ---- mount ----

  lemma SpecsOfPieces(pieces: seq<Piece>, d: Devices)
    requires AllConnect(pieces, d)
    ensures SpecsAre(SpecsOf(pieces, d), pieces)
  {}

  /** The device's specs are what the plugin gives the kernel; other devices keep
      theirs. */
  lemma MountSpecs(logdevs: Logdevs, req: MountReq, pieces: seq<Piece>, d: Devices)
    requires AllConnect(pieces, d) && FreeCount(logdevs) >= |pieces| && !Has(logdevs, LogdevDev, req.dev)
    ensures var after := PutAll(logdevs, NewLogdevs(req, pieces, d));
      DevSpecs(after, req.dev) == SpecsOf(pieces, d) && forall dev: string :: dev != req.dev ==>
        DevSpecs(after, dev) == DevSpecs(logdevs, dev)
  {
    var ls := NewLogdevs(req, pieces, d);
    PickPutAll(logdevs, ls, LogdevDev, LogdevSpec, req.dev, SpecsOf(pieces, d));
    forall dev: string | dev != req.dev ensures DevSpecs(PutAll(logdevs, ls), dev) == DevSpecs(logdevs, dev) {
      PickPutAllOther(logdevs, ls, LogdevDev, LogdevSpec, dev);
    }
  }

  lemma MountRows(logdevs: Logdevs, req: MountReq, pieces: seq<Piece>, d: Devices)
    requires AllConnect(pieces, d) && FreeCount(logdevs) >= |pieces| > 0
    ensures var after := PutAll(logdevs, NewLogdevs(req, pieces, d));
      && (forall i :: 0 <= i < |logdevs| && logdevs[i].Some? ==> after[i] == logdevs[i])
      && (forall i :: 0 <= i < |logdevs| && logdevs[i].None? && after[i].Some? ==>
            after[i].value.dev == req.dev && after[i].value.allocId == req.allocId
              && after[i].value.hostId == req.hostId)
      && Has(after, LogdevId, req.allocId)
      && (forall id: string :: id != req.allocId ==> (Has(after, LogdevId, id) <==> Has(logdevs, LogdevId, id)))
  {
    var ls := NewLogdevs(req, pieces, d);
    var after := PutAll(logdevs, ls);
    PutAllRows(logdevs, ls);
    PutAllHas(logdevs, ls, LogdevId, req.allocId);
    forall id: string | id != req.allocId ensures Has(after, LogdevId, id) <==> Has(logdevs, LogdevId, id) {
      PickPutAllOther(logdevs, ls, LogdevId, LogdevSpec, id);
      PickNone(logdevs, LogdevId, LogdevSpec, id);
      PickNone(after, LogdevId, LogdevSpec, id);
    }
  }

  lemma PutAllHas<T>(t: seq<Option<T>>, xs: seq<T>, key: T -> string, k: string)
    requires FreeCount(t) >= |xs| > 0 && key(xs[|xs| - 1]) == k
    ensures Has(PutAll(t, xs), key, k)
  {
    var after := PutAll(t, xs);
    var front := PutAll(t, xs[..|xs| - 1]);
    FreeCountPositive(front);
    assert Carries(after[FirstFree(front)], key, k);
    HasSome(after, key, k);
  }

  lemma MountKeepsCopies(rows: Rows, logdevs: Logdevs, req: MountReq, d: Devices)
    requires Mirror(rows, logdevs)
    requires var pieces := PiecesOfId(rows, req.allocId);
      pieces != [] && AllConnect(pieces, d) && FreeCount(logdevs) >= |pieces| && !Has(logdevs, LogdevDev, req.dev)
    ensures Copies(SetState(rows, req.allocId, MOUNTED),
      PutAll(logdevs, NewLogdevs(req, PiecesOfId(rows, req.allocId), d)))
  {
    var pieces := PiecesOfId(rows, req.allocId);
    var after, rows2 := PutAll(logdevs, NewLogdevs(req, pieces, d)), SetState(rows, req.allocId, MOUNTED);
    MountSpecs(logdevs, req, pieces, d);
    MountRows(logdevs, req, pieces, d);
    SpecsOfPieces(pieces, d);
    HasSome(logdevs, LogdevDev, req.dev);
    forall i | 0 <= i < |after| && after[i].Some?
      ensures SpecsAre(DevSpecs(after, after[i].value.dev), PiecesOfId(rows2, after[i].value.allocId))
    {
      SetStatePick(rows, req.allocId, MOUNTED, RowId, RowPiece, after[i].value.allocId);
      if logdevs[i].Some? {
        assert !Carries(logdevs[i], LogdevDev, req.dev);
      }
    }
  }

  lemma MountKeepsMirror(rows: Rows, logdevs: Logdevs, req: MountReq, d: Devices)
    requires Mirror(rows, logdevs) && Uniform(rows)
    requires var pieces := PiecesOfId(rows, req.allocId);
      pieces != [] && AllConnect(pieces, d) && FreeCount(logdevs) >= |pieces| && !Has(logdevs, LogdevDev, req.dev)
    requires Has(rows, RowId, req.allocId)
    requires rows[Find(rows, RowId, req.allocId)].value.share == SHARED || !Has(logdevs, LogdevId, req.allocId)
    ensures Mirror(SetState(rows, req.allocId, MOUNTED),
      PutAll(logdevs, NewLogdevs(req, PiecesOfId(rows, req.allocId), d)))
  {
    var pieces := PiecesOfId(rows, req.allocId);
    var after, rows2 := PutAll(logdevs, NewLogdevs(req, pieces, d)), SetState(rows, req.allocId, MOUNTED);
    MountKeepsCopies(rows, logdevs, req, d);
    MountRows(logdevs, req, pieces, d);
    HasSome(logdevs, LogdevDev, req.dev);
    HasSome(logdevs, LogdevId, req.allocId);
    StatesAfter(rows, logdevs, after, req.allocId);
    OneMountAfter(logdevs, after, req);
    ExclusiveAfter(rows, rows2, logdevs, after, req);
  }

  lemma StatesAfter(rows: Rows, logdevs: Logdevs, after: Logdevs, id: string)
    requires StatesShow(rows, logdevs) && Has(after, LogdevId, id)
    requires forall x: string :: x != id ==> (Has(after, LogdevId, x) <==> Has(logdevs, LogdevId, x))
    ensures StatesShow(SetState(rows, id, MOUNTED), after)
  {}

  predicate Mounted(logdevs: Logdevs, after: Logdevs, req: MountReq) {
    && |after| == |logdevs|
    && (forall i :: 0 <= i < |logdevs| && logdevs[i].Some? ==> after[i] == logdevs[i])
    && (forall i :: 0 <= i < |logdevs| && logdevs[i].None? && after[i].Some? ==>
          after[i].value.dev == req.dev && after[i].value.allocId == req.allocId && after[i].value.hostId == req.hostId)
  }

  lemma OneMountAfter(logdevs: Logdevs, after: Logdevs, req: MountReq)
    requires OneMountPerDevice(logdevs) && Mounted(logdevs, after, req)
    requires forall i :: 0 <= i < |logdevs| ==> !Carries(logdevs[i], LogdevDev, req.dev)
    ensures OneMountPerDevice(after)
  {}

  lemma ExclusiveAfter(rows: Rows, rows2: Rows, logdevs: Logdevs, after: Logdevs, req: MountReq)
    requires ExclusiveOnce(rows, logdevs) && Uniform(rows) && Mounted(logdevs, after, req)
    requires Has(rows, RowId, req.allocId)
    requires rows2 == SetState(rows, req.allocId, MOUNTED)
    requires rows[Find(rows, RowId, req.allocId)].value.share == SHARED || forall i :: 0 <= i < |logdevs| ==>
      !Carries(logdevs[i], LogdevId, req.allocId)
    ensures ExclusiveOnce(rows2, after)
  {}

  // ---- unmount ----

  lemma UnmountKeepsCopies(rows: Rows, logdevs: Logdevs, dev: string, id: string, st: RowState)
    requires Copies(rows, logdevs)
    ensures Copies(SetState(rows, id, st), Drop(logdevs, LogdevDev, dev))
  {
    var after, rows2 := Drop(logdevs, LogdevDev, dev), SetState(rows, id, st);
    forall j | 0 <= j < |after| && after[j].Some?
      ensures SpecsAre(DevSpecs(after, after[j].value.dev), PiecesOfId(rows2, after[j].value.allocId))
    {
      SetStatePick(rows, id, st, RowId, RowPiece, after[j].value.allocId);
      DropPick(logdevs, LogdevDev, dev, LogdevSpec, after[j].value.dev);
    }
  }

  lemma UnmountKeepsStates(rows: Rows, logdevs: Logdevs, i: nat, after: Logdevs, st: RowState)
    requires OneMountPerDevice(logdevs) && StatesShow(rows, logdevs) && i < |logdevs| && logdevs[i].Some?
    requires after == Drop(logdevs, LogdevDev, logdevs[i].value.dev)
    requires st == if Has(after, LogdevId, logdevs[i].value.allocId) then MOUNTED else ACTIVE
    ensures StatesShow(SetState(rows, logdevs[i].value.allocId, st), after)
  {
    var id := logdevs[i].value.allocId;
    forall x: string | x != id ensures Has(after, LogdevId, x) <==> Has(logdevs, LogdevId, x) {
      OtherIdsStay(logdevs, i, after, x);
    }
    RestatedShow(rows, logdevs, after, id, st);
  }

  /** Dropping a device drops no other allocation's devices. */
  lemma OtherIdsStay(logdevs: Logdevs, i: nat, after: Logdevs, x: string)
    requires OneMountPerDevice(logdevs) && i < |logdevs| && logdevs[i].Some? && x != logdevs[i].value.allocId
    requires after == Drop(logdevs, LogdevDev, logdevs[i].value.dev)
    ensures Has(after, LogdevId, x) <==> Has(logdevs, LogdevId, x)
  {
    HasSome(after, LogdevId, x);
    HasSome(logdevs, LogdevId, x);
    if Has(logdevs, LogdevId, x) {
      var j := Find(logdevs, LogdevId, x);
      assert after[j] == logdevs[j];
    }
  }

  lemma RestatedShow(rows: Rows, logdevs: Logdevs, after: Logdevs, id: string, st: RowState)
    requires StatesShow(rows, logdevs) && (st == MOUNTED <==> Has(after, LogdevId, id))
    requires forall x: string :: x != id ==> (Has(after, LogdevId, x) <==> Has(logdevs, LogdevId, x))
    ensures StatesShow(SetState(rows, id, st), after)
  {
    var rows2 := SetState(rows, id, st);
    forall r | 0 <= r < |rows2| && rows2[r].Some?
      ensures rows2[r].value.state == MOUNTED <==> Has(after, LogdevId, rows2[r].value.allocId)
    {
      assert rows2[r] == WithState(rows[r], id, st);
    }
  }

  lemma UnmountKeepsMirror(rows: Rows, logdevs: Logdevs, i: nat)
    requires Mirror(rows, logdevs) && i < |logdevs| && logdevs[i].Some?
    ensures var l := logdevs[i].value; var after := Drop(logdevs, LogdevDev, l.dev);
      Mirror(SetState(rows, l.allocId, if Has(after, LogdevId, l.allocId) then MOUNTED else ACTIVE), after)
  {
    var l := logdevs[i].value;
    var after := Drop(logdevs, LogdevDev, l.dev);
    var st := if Has(after, LogdevId, l.allocId) then MOUNTED else ACTIVE;
    UnmountKeepsCopies(rows, logdevs, l.dev, l.allocId, st);
    UnmountKeepsStates(rows, logdevs, i, after, st);
    ExclusiveFewer(rows, SetState(rows, l.allocId, st), logdevs, after, l.allocId, st);
  }

  lemma ExclusiveFewer(rows: Rows, rows2: Rows, logdevs: Logdevs, after: Logdevs, id: string, st: RowState)
    requires ExclusiveOnce(rows, logdevs) && rows2 == SetState(rows, id, st)
    requires |after| == |logdevs| && forall j :: 0 <= j < |after| && after[j].Some? ==> after[j] == logdevs[j]
    ensures ExclusiveOnce(rows2, after)
  {}

  // ---- runs ----

  lemma AllocKeepsMirror(w: World, req: AllocReq, cap: Option<nat>, create: Faults, delete: Faults)
    requires WorldShaped(w) && Books(w.c) && RowsOk(w.c) && Mirror(w.c.rows, w.c.logdevs) && w.c.nextId < TWO64
    ensures var c2 := Alloc(w, req, cap, create, delete).0.c; Mirror(c2.rows, c2.logdevs) && c2.logdevs == w.c.logdevs
  {
    SearchIsImmediate(w);
    AllocCases(w, req, cap, create, delete);
    if req.size > 0 && HostKey.Key(req.hosts).Some? {
      var a := Admit(w.c, req, HostKey.Key(req.hosts).value, cap);
      if a.Admitted? {
        var p := PlaceFrom(Start(w), a.job, create).0;
        PlaceFromExtends(w, Start(w), a.job, create);
        GrantKeepsMirror(w.c.rows, p.w.c.rows, a.job, w.c.pool, p.i, w.c.logdevs);
        if Place(w, a.job, create, delete).1.status != OK {
          PlaceAllOrNothing(w, a.job, create, delete);
        }
      }
    }
  }

  lemma UnmountOpKeepsMirror(w: World, dev: string, d: Devices, f: KernelFaults)
    requires WorldShaped(w) && Mirror(w.c.rows, w.c.logdevs)
    ensures var c2 := UnmountOp(w, dev, d, f).0.c; Mirror(c2.rows, c2.logdevs)
  {
    UnmountCases(w, dev, d, f);
    if Has(w.c.logdevs, LogdevDev, dev) {
      UnmountKeepsMirror(w.c.rows, w.c.logdevs, Find(w.c.logdevs, LogdevDev, dev));
    }
  }

  lemma MountOpKeepsMirror(w: World, req: MountReq, d: Devices, f: KernelFaults)
    requires WorldShaped(w) && RowsOk(w.c) && Mirror(w.c.rows, w.c.logdevs)
    ensures var c2 := MountOp(w, req, d, f).0.c; Mirror(c2.rows, c2.logdevs)
  {
    MountCases(w, req, d, f);
    if MountOp(w, req, d, f).0.c != w.c {
      MountKeepsMirror(w.c.rows, w.c.logdevs, req, d);
    }
  }

  lemma StepKeepsMirror(w: World, op: Op)
    requires WorldShaped(w) && Books(w.c) && RowsOk(w.c) && Mirror(w.c.rows, w.c.logdevs)
    requires Step(w, op).c.nextId < TWO64
    ensures Mirror(Step(w, op).c.rows, Step(w, op).c.logdevs)
  {
    match op
    case OpRefresh(d, h) =>
    case OpAlloc(req, cap, create, delete) =>
      NextIdGrows(w, op);
      AllocKeepsMirror(w, req, cap, create, delete);
    case OpRelease(id, deletes) =>
      ReleaseFromThins(w, id, 0, false, deletes);
      if id != [] && !Has(w.c.logdevs, LogdevId, id) {
        ReleaseKeepsMirror(w.c.rows, ReleaseFrom(w, id, 0, false, deletes).0.c.rows, id, w.c.logdevs);
      }
    case OpMount(req, d, f) => MountOpKeepsMirror(w, req, d, f);
    case OpUnmount(dev, d, f) => UnmountOpKeepsMirror(w, dev, d, f);
  }

  /** In every reachable state, whatever the plugin and the kernel refuse: each
      mounted device copies all rows of one allocation for one host, row states
      show exactly what is mounted, and only shared allocations are mounted twice. */
  lemma {:induction false} RunKeepsMirror(w: World, ops: seq<Op>)
    requires WorldShaped(w) && Books(w.c) && RowsOk(w.c) && Mirror(w.c.rows, w.c.logdevs) && RunFits(ops)
    requires Run(w, ops).c.nextId < TWO64
    ensures Mirror(Run(w, ops).c.rows, Run(w, ops).c.logdevs)
  {
    if ops != [] {
      var front, last := ops[..|ops| - 1], ops[|ops| - 1];
      Conservation(w, front);
      NextIdGrows(Run(w, front), last);
      RunKeepsRowsOk(w, front);
      RunKeepsMirror(w, front);
      StepKeepsMirror(Run(w, front), last);
    }
  }
}
