/** What a release takes away, when it is refused, and what a second one is answered. */
module Releases {
  import opened Types
  import opened Tables
  import opened Decimal
  import opened ReqShimIface
  import opened MockState
  import opened Placement
  import opened ControllerState
  import opened Ledger
  import opened Rollback
  import opened Grants
  import opened MountMirror
  import opened Agreement
  import opened Tiling
  import opened Refreshing
  import HostKey

  /** From slot i on, y is the first row of the id whose delete is refused, or the end of
      the table. */
  predicate StopsAt(rows: Rows, id: string, deletes: Faults, i: nat, y: nat) {
    && i <= y <= |rows|
    && (forall x :: i <= x < y && Carries(rows[x], RowId, id) ==> Fault(deletes, x) == OK)
    && (y < |rows| ==> Carries(rows[y], RowId, id) && Fault(deletes, y) != OK)
  }

  /** The id's rows from slot i up to y are gone, every other slot is as it was. */
  predicate RowsGone(a: Rows, b: Rows, id: string, i: nat, y: nat) {
    |a| == |b| && forall x :: 0 <= x < |a| ==> b[x] == if i <= x < y && Carries(a[x], RowId, id) then None else a[x]
  }

  /** So are the namespaces in those slots. */
  predicate SpacesGone(rows: Rows, a: Namespaces, b: Namespaces, id: string, i: nat, y: nat) {
    && |a| == |b| == |rows|
    && forall x :: 0 <= x < |a| ==> b[x] == if i <= x < y && Carries(rows[x], RowId, id) then None else a[x]
  }

  lemma RowsGoneNext(a: Rows, mid: Rows, b: Rows, id: string, i: nat, y: nat)
    requires i < |a| && Carries(a[i], RowId, id) && i < y && mid == a[i := None] && RowsGone(mid, b, id, i + 1, y)
    ensures RowsGone(a, b, id, i, y)
  {}

  lemma SpacesGoneNext(rows: Rows, a: Namespaces, b: Namespaces, id: string, i: nat, y: nat)
    requires i < |a| == |rows| && Carries(rows[i], RowId, id) && i < y
    requires SpacesGone(rows[i := None], a[i := None], b, id, i + 1, y)
    ensures SpacesGone(rows, a, b, id, i, y)
  {}

  /** From slot i on the loop ends in w2 with st, having stopped at slot y. */
  predicate LoopEnds(w: World, id: string, deletes: Faults, i: nat, y: nat, w2: World, st: Status) {
    && StopsAt(w.c.rows, id, deletes, i, y)
    && st == (if y == |w.c.rows| then OK else Fault(deletes, y))
    && RowsGone(w.c.rows, w2.c.rows, id, i, y) && SpacesGone(w.c.rows, w.m.nss, w2.m.nss, id, i, y)
  }

  lemma OneMoreGone(w: World, w1: World, id: string, deletes: Faults, i: nat, y: nat, w2: World, st: Status)
    requires i < |w.c.rows| && Carries(w.c.rows[i], RowId, id) && Fault(deletes, i) == OK
    requires w1.c.rows == w.c.rows[i := None] && |w.m.nss| == |w.c.rows| && w1.m.nss == w.m.nss[i := None]
    requires LoopEnds(w1, id, deletes, i + 1, y, w2, st)
    ensures LoopEnds(w, id, deletes, i, y, w2, st)
  {
    RowsGoneNext(w.c.rows, w1.c.rows, w2.c.rows, id, i, y);
    SpacesGoneNext(w.c.rows, w.m.nss, w2.m.nss, id, i, y);
  }

  lemma NoneGone(w: World, id: string, deletes: Faults, i: nat, st: Status)
    requires i <= |w.c.rows| == |w.m.nss|
    requires i < |w.c.rows| ==> Carries(w.c.rows[i], RowId, id) && Fault(deletes, i) != OK
    requires st == if i == |w.c.rows| then OK else Fault(deletes, i)
    ensures LoopEnds(w, id, deletes, i, i, w, st)
  {}

  lemma OneSkipped(w: World, id: string, deletes: Faults, i: nat, y: nat, w2: World, st: Status)
    requires i < |w.c.rows| && !Carries(w.c.rows[i], RowId, id) && LoopEnds(w, id, deletes, i + 1, y, w2, st)
    ensures LoopEnds(w, id, deletes, i, y, w2, st)
  {}

  lemma {:induction false} ReleaseFromStops(w: World, id: string, i: nat, found: bool, deletes: Faults) returns (y: nat)
    requires i <= |w.c.rows| && Twin(w.c.rows, w.m.nss) && NsFresh(w.m)
    ensures var (w2, st, found2) := ReleaseFrom(w, id, i, found, deletes); LoopEnds(w, id, deletes, i, y, w2, st)
    decreases |w.c.rows| - i
  {
    var (w2, st, found2) := ReleaseFrom(w, id, i, found, deletes);
    if i == |w.c.rows| || (Carries(w.c.rows[i], RowId, id) && Fault(deletes, i) != OK) {
      y := i;
      NoneGone(w, id, deletes, i, st);
    } else if !Carries(w.c.rows[i], RowId, id) {
      y := ReleaseFromStops(w, id, i + 1, found, deletes);
      OneSkipped(w, id, deletes, i, y, w2, st);
    } else {
      DeleteHitsTwin(w, i);
      y := ReleaseFromStops(UndoOne(w, i, OK), id, i + 1, true, deletes);
      OneMoreGone(w, UndoOne(w, i, OK), id, deletes, i, y, w2, st);
    }
  }

  lemma {:induction false} FoundIsHas(w: World, id: string, i: nat, found: bool, deletes: Faults)
    requires i <= |w.c.rows| && ReleaseFrom(w, id, i, found, deletes).1 == OK
    ensures ReleaseFrom(w, id, i, found, deletes).2 <==>
      found || exists x :: i <= x < |w.c.rows| && Carries(w.c.rows[x], RowId, id)
    decreases |w.c.rows| - i
  {
    if i < |w.c.rows| {
      if Carries(w.c.rows[i], RowId, id) {
        var w1 := UndoOne(w, i, OK);
        FoundIsHas(w1, id, i + 1, true, deletes);
      } else {
        FoundIsHas(w, id, i + 1, found, deletes);
      }
    }
  }

  // ---- the fill marks ----

  /** The id has an extent of len bytes on the SSU. */
  ghost predicate HadOn(rows: Rows, id: string, ssuId: string, len: nat) {
    exists x :: 0 <= x < |rows| && Carries(rows[x], RowId, id)
      && rows[x].value.ssuId == ssuId && rows[x].value.len == len
  }

  /** SSU p's mark is lower by what the id had on it, and as it was if that is nothing. */
  ghost predicate MarkLowered(rows: Rows, a: seq<Resource>, b: seq<Resource>, id: string, p: nat)
    requires p < |a| && p < |b|
  {
    && b[p] == a[p].(used := b[p].used)
    && (forall len: nat :: HadOn(rows, id, a[p].ssuId, len) ==> b[p].used + len == a[p].used)
    && ((forall len: nat :: !HadOn(rows, id, a[p].ssuId, len)) ==> b[p].used == a[p].used)
  }

  ghost predicate MarksLowered(rows: Rows, a: seq<Resource>, b: seq<Resource>, id: string) {
    |a| == |b| && forall p :: 0 <= p < |a| ==> MarkLowered(rows, a, b, id, p)
  }

  lemma NothingHad(c: Ctl, c2: Ctl, id: string, p: nat)
    requires Books(c) && SameSlack(c, c2) && Thinned(c.rows, c2.rows, id) && OnlyMarks(c.pool, c2.pool) && p < |c.pool|
    requires forall len: nat :: !HadOn(c.rows, id, c.pool[p].ssuId, len)
    ensures c2.pool[p].used == c.pool[p].used
  {
    var ssu := c.pool[p].ssuId;
    forall x | 0 <= x < |c.rows| ensures LenIn(c.rows[x], ssu) == LenIn(c2.rows[x], ssu) {
      if Carries(c.rows[x], RowId, id) && c.rows[x].value.ssuId == ssu {
        assert HadOn(c.rows, id, ssu, c.rows[x].value.len);
      }
    }
    LenOnAgree(c.rows, c2.rows, ssu);
    FindIs(c.pool, p);
    SameFind(c.pool, c2.pool, ssu);
    assert Slack(c2, ssu) == Slack(c, ssu);
  }

  lemma SomethingHad(c: Ctl, c2: Ctl, id: string, p: nat, len: nat)
    requires Books(c) && Spread(c.rows) && SameSlack(c, c2)
    requires Thinned(c.rows, c2.rows, id) && OnlyMarks(c.pool, c2.pool)
    requires forall x :: 0 <= x < |c2.rows| ==> !Carries(c2.rows[x], RowId, id)
    requires p < |c.pool| && HadOn(c.rows, id, c.pool[p].ssuId, len)
    ensures c2.pool[p].used + len == c.pool[p].used
  {
    var x :| 0 <= x < |c.rows| && Carries(c.rows[x], RowId, id) && c.rows[x].value.ssuId == c.pool[p].ssuId
      && c.rows[x].value.len == len;
    assert !Carries(c2.rows[x], RowId, id);
    MarkDrops(c, c2, id, x);
    FindIs(c.pool, p);
  }

  lemma AllLowered(c: Ctl, c2: Ctl, id: string)
    requires Books(c) && Spread(c.rows) && SameSlack(c, c2)
    requires Thinned(c.rows, c2.rows, id) && OnlyMarks(c.pool, c2.pool)
    requires forall x :: 0 <= x < |c2.rows| ==> !Carries(c2.rows[x], RowId, id)
    ensures MarksLowered(c.rows, c.pool, c2.pool, id)
  {
    forall p | 0 <= p < |c.pool| ensures MarkLowered(c.rows, c.pool, c2.pool, id, p) {
      forall len: nat | HadOn(c.rows, id, c.pool[p].ssuId, len) ensures c2.pool[p].used + len == c.pool[p].used {
        SomethingHad(c, c2, id, p, len);
      }
      if forall len: nat :: !HadOn(c.rows, id, c.pool[p].ssuId, len) {
        NothingHad(c, c2, id, p);
      }
    }
  }

  // ---- the whole release ----

  /** No delete for a row of the id is refused. */
  predicate NoneStops(rows: Rows, id: string, deletes: Faults) {
    forall x :: 0 <= x < |rows| && Carries(rows[x], RowId, id) ==> Fault(deletes, x) == OK
  }

  /** Room for one more remembered id, if it is not there already. */
  function Remembered(released: seq<string>, id: string): seq<string> {
    if id !in released && |released| < 128 then released + [id] else released
  }

  /** The id's rows and namespaces are gone, its bytes given back, and nothing else has
      changed but the memory of released ids. */
  ghost predicate Freed(w: World, w2: World, id: string) {
    && RowsGone(w.c.rows, w2.c.rows, id, 0, |w.c.rows|)
    && SpacesGone(w.c.rows, w.m.nss, w2.m.nss, id, 0, |w.c.rows|)
    && MarksLowered(w.c.rows, w.c.pool, w2.c.pool, id)
    && w2.c.logdevs == w.c.logdevs && w2.c.nextId == w.c.nextId && w2.k == w.k
    && w2.m == w.m.(nss := w2.m.nss)
  }

  lemma StopIsEnd(rows: Rows, id: string, deletes: Faults, y: nat)
    requires StopsAt(rows, id, deletes, 0, y)
    ensures y == |rows| <==> NoneStops(rows, id, deletes)
  {}

  /** A release succeeds exactly when the id is not empty, no device is mounted for it, it
      has rows or is remembered as released, and no delete for its rows is refused. Then
      its rows and namespaces are gone, the mark of each SSU is lower by exactly what the
      id had there, and no other slot of any table has changed. */
  lemma ReleaseIff(w: World, id: string, deletes: Faults)
    requires WorldShaped(w) && Books(w.c) && Spread(w.c.rows) && Twin(w.c.rows, w.m.nss) && NsFresh(w.m)
    ensures var (w2, st) := Release(w, id, deletes);
      && (st == OK <==>
            && id != [] && !Has(w.c.logdevs, LogdevId, id) && NoneStops(w.c.rows, id, deletes)
            && (Has(w.c.rows, RowId, id) || id in w.c.released))
      && (st == OK ==> Freed(w, w2, id))
      && (st == OK && Has(w.c.rows, RowId, id) ==> w2.c.released == Remembered(w.c.released, id))
      && (id != [] && Has(w.c.logdevs, LogdevId, id) ==> st == BUSY && w2 == w)
      && (id != [] && !Has(w.c.logdevs, LogdevId, id) && !Has(w.c.rows, RowId, id) ==>
            w2 == w && st == if id in w.c.released then OK else NOT_FOUND)
  {
    LoopOkIff(w, id, deletes);
    if ReleaseFrom(w, id, 0, false, deletes).1 == OK {
      LoopFinds(w, id, deletes);
      LoopFrees(w, id, deletes);
    } else {
      HasSome(w.c.rows, RowId, id);
    }
  }

  lemma LoopOkIff(w: World, id: string, deletes: Faults)
    requires Twin(w.c.rows, w.m.nss) && NsFresh(w.m)
    ensures ReleaseFrom(w, id, 0, false, deletes).1 == OK <==> NoneStops(w.c.rows, id, deletes)
  {
    var y := ReleaseFromStops(w, id, 0, false, deletes);
    StopIsEnd(w.c.rows, id, deletes, y);
  }

  lemma LoopFinds(w: World, id: string, deletes: Faults)
    requires ReleaseFrom(w, id, 0, false, deletes).1 == OK
    ensures ReleaseFrom(w, id, 0, false, deletes).2 <==> Has(w.c.rows, RowId, id)
  {
    FoundIsHas(w, id, 0, false, deletes);
    HasSome(w.c.rows, RowId, id);
  }

  lemma LoopFrees(w: World, id: string, deletes: Faults)
    requires WorldShaped(w) && Books(w.c) && Spread(w.c.rows) && Twin(w.c.rows, w.m.nss) && NsFresh(w.m)
    requires ReleaseFrom(w, id, 0, false, deletes).1 == OK
    ensures var (w2, st, found) := ReleaseFrom(w, id, 0, false, deletes);
      Freed(w, w2, id) && w2.c.released == w.c.released && (!found ==> w2 == w)
  {
    var w2 := ReleaseFrom(w, id, 0, false, deletes).0;
    var y := ReleaseFromStops(w, id, 0, false, deletes);
    ReleaseFromThins(w, id, 0, false, deletes);
    ReleaseFromKeepsBooks(w, id, 0, false, deletes);
    ReleaseFromOnlyMarks(w, id, 0, false, deletes);
    AllLowered(w.c, w2.c, id);
  }

  /** A refused delete stops the loop there: the rows before it are gone, its own and the
      later ones stay, and its status is the answer. */
  lemma ReleaseStops(w: World, id: string, deletes: Faults, y: nat)
    requires WorldShaped(w) && Twin(w.c.rows, w.m.nss) && NsFresh(w.m)
    requires id != [] && !Has(w.c.logdevs, LogdevId, id)
    requires StopsAt(w.c.rows, id, deletes, 0, y) && y < |w.c.rows|
    ensures var (w2, st) := Release(w, id, deletes);
      && st == Fault(deletes, y) && RowsGone(w.c.rows, w2.c.rows, id, 0, y)
      && SpacesGone(w.c.rows, w.m.nss, w2.m.nss, id, 0, y)
  {
    var z := ReleaseFromStops(w, id, 0, false, deletes);
    OneStop(w.c.rows, id, deletes, y, z);
  }

  lemma OneStop(rows: Rows, id: string, deletes: Faults, y: nat, z: nat)
    requires StopsAt(rows, id, deletes, 0, y) && StopsAt(rows, id, deletes, 0, z)
    ensures y == z
  {}

  // ---- a second release ----

  /** The id has neither rows nor devices. */
  predicate Gone(c: Ctl, id: string) { !Has(c.rows, RowId, id) && !Has(c.logdevs, LogdevId, id) }

  lemma MountKeepsGone(w: World, req: MountReq, d: Devices, f: KernelFaults, id: string)
    requires WorldShaped(w) && Gone(w.c, id)
    ensures var c2 := MountOp(w, req, d, f).0.c; Gone(c2, id) && c2.released == w.c.released
  {
    HasSome(w.c.rows, RowId, id);
    MountIssuesNothing(w, req, d, f, id);
    MountCases(w, req, d, f);
    if MountOp(w, req, d, f).0.c != w.c {
      MountRows(w.c.logdevs, req, PiecesOfId(w.c.rows, req.allocId), d);
    }
  }

  lemma UnmountKeepsGone(w: World, dev: string, d: Devices, f: KernelFaults, id: string)
    requires WorldShaped(w) && Gone(w.c, id)
    ensures var c2 := UnmountOp(w, dev, d, f).0.c; Gone(c2, id) && c2.released == w.c.released
  {
    HasSome(w.c.rows, RowId, id);
    HasSome(w.c.logdevs, LogdevId, id);
    UnmountIssuesNothing(w, dev, d, f, id);
    UnmountCases(w, dev, d, f);
    HasSome(UnmountOp(w, dev, d, f).0.c.logdevs, LogdevId, id);
  }

  lemma ReleaseKeepsGone(w: World, x: string, deletes: Faults, id: string)
    requires WorldShaped(w) && Gone(w.c, id)
    ensures var c2 := Release(w, x, deletes).0.c; Gone(c2, id) && (id in c2.released <==> id in w.c.released)
  {
    HasSome(w.c.rows, RowId, id);
    ReleaseIssuesNothing(w, x, deletes, id);
    ReleaseFromThins(w, x, 0, false, deletes);
  }

  lemma AllocKeepsGone(w: World, req: AllocReq, cap: Option<nat>, create: Faults, delete: Faults, id: string)
    requires WorldShaped(w) && Books(w.c) && RowsOk(w.c) && w.c.nextId < TWO64
    requires Gone(w.c, id) && IssuedBelow(ID_PREFIX, id, w.c.nextId)
    ensures var c2 := Alloc(w, req, cap, create, delete).0.c; Gone(c2, id) && c2.released == w.c.released
  {
    HasSome(w.c.rows, RowId, id);
    AllocOnlyNew(w, req, cap, create, delete);
    NumberedIssued(ID_PREFIX, w.c.nextId, w.c.nextId);
    HasSome(Alloc(w, req, cap, create, delete).0.c.rows, RowId, id);
    AllocKeepsMemory(w, req, cap, create, delete);
  }

  lemma AllocKeepsMemory(w: World, req: AllocReq, cap: Option<nat>, create: Faults, delete: Faults)
    requires WorldShaped(w) && Books(w.c)
    ensures var c2 := Alloc(w, req, cap, create, delete).0.c; c2.released == w.c.released && c2.logdevs == w.c.logdevs
  {
    AllocCases(w, req, cap, create, delete);
    var w1 := Searched(w);
    if req.size > 0 && HostKey.Key(req.hosts).Some? {
      var a := Admit(w1.c, req, HostKey.Key(req.hosts).value, cap);
      if a.Admitted? {
        PlaceFromExtends(w1, Start(w1), a.job, create);
        if Place(w1, a.job, create, delete).1.status != OK {
          PlaceAllOrNothing(w1, a.job, create, delete);
        }
      }
    }
  }

  lemma StepKeepsGone(w: World, op: Op, id: string)
    requires WorldShaped(w) && Books(w.c) && RowsOk(w.c) && Step(w, op).c.nextId < TWO64
    requires Gone(w.c, id) && IssuedBelow(ID_PREFIX, id, w.c.nextId)
    ensures var c2 := Step(w, op).c; Gone(c2, id) && (id in c2.released <==> id in w.c.released)
  {
    match op
    case OpRefresh(d, h) =>
    case OpAlloc(req, cap, create, delete) =>
      NextIdGrows(w, op);
      AllocKeepsGone(w, req, cap, create, delete, id);
    case OpRelease(x, deletes) => ReleaseKeepsGone(w, x, deletes, id);
    case OpMount(req, d, f) => MountKeepsGone(w, req, d, f, id);
    case OpUnmount(dev, d, f) => UnmountKeepsGone(w, dev, d, f, id);
  }

  lemma {:induction false} RunKeepsGone(w: World, ops: seq<Op>, id: string)
    requires WorldShaped(w) && Books(w.c) && RowsOk(w.c) && RunFits(ops) && Run(w, ops).c.nextId < TWO64
    requires Gone(w.c, id) && IssuedBelow(ID_PREFIX, id, w.c.nextId)
    ensures var c2 := Run(w, ops).c; Gone(c2, id) && (id in c2.released <==> id in w.c.released)
  {
    if ops != [] {
      var front, last := ops[..|ops| - 1], ops[|ops| - 1];
      Conservation(w, front);
      NextIdGrows(Run(w, front), last);
      RunKeepsRowsOk(w, front);
      RunKeepsGone(w, front, id);
      IssuedLater(ID_PREFIX, id, w.c.nextId, Run(w, front).c.nextId);
      StepKeepsGone(Run(w, front), last, id);
    }
  }

  lemma {:induction false} NothingToRelease(w: World, id: string, i: nat, deletes: Faults)
    requires i <= |w.c.rows| && NoRow(w.c.rows, id)
    ensures ReleaseFrom(w, id, i, false, deletes) == (w, OK, false)
    decreases |w.c.rows| - i
  {
    if i < |w.c.rows| { NothingToRelease(w, id, i + 1, deletes); }
  }

  lemma ReleasedIsGone(w: World, id: string, deletes: Faults)
    requires WorldShaped(w) && id != [] && Has(w.c.rows, RowId, id) && Release(w, id, deletes).1 == OK
    ensures var c2 := Release(w, id, deletes).0.c; Gone(c2, id) && c2.released == Remembered(w.c.released, id)
  {
    ReleaseFromThins(w, id, 0, false, deletes);
    HasSome(w.c.rows, RowId, id);
    FoundIsHas(w, id, 0, false, deletes);
    HasSome(Release(w, id, deletes).0.c.rows, RowId, id);
  }

  /** Releasing a released id again, however much later, changes nothing. It is reported
      as done if there was room to remember the id, and as not found otherwise. */
  lemma ReleaseAgain(w: World, id: string, deletes: Faults, ops: seq<Op>, deletes2: Faults)
    requires WorldShaped(w) && Books(w.c) && RowsOk(w.c)
    requires id != [] && Has(w.c.rows, RowId, id) && Release(w, id, deletes).1 == OK
    requires RunFits(ops) && Run(Release(w, id, deletes).0, ops).c.nextId < TWO64
    ensures var v := Run(Release(w, id, deletes).0, ops);
      Release(v, id, deletes2) ==
        (v, if id in w.c.released || |w.c.released| < 128 then OK else NOT_FOUND)
  {
    var w1 := Release(w, id, deletes).0;
    ReleasedIsGone(w, id, deletes);
    ReleaseKeepsRowsOk(w, id, deletes);
    ReleaseFromKeepsBooks(w, id, 0, false, deletes);
    ReleaseFromThins(w, id, 0, false, deletes);
    assert IssuedBelow(ID_PREFIX, w.c.rows[Find(w.c.rows, RowId, id)].value.allocId, w.c.nextId);
    RunKeepsGone(w1, ops, id);
    var v := Run(w1, ops);
    HasSome(v.c.rows, RowId, id);
    NothingToRelease(v, id, 0, deletes2);
  }
}
