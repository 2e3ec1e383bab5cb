/** Conservation: an SSU's fill mark always equals what it was discovered with
    plus the lengths of the extents placed on it. */
module Ledger {
  import opened Types
  import opened Tables
  import opened ReqShimIface
  import opened MockState
  import opened Placement
  import opened ControllerState
  import HostKey

  type Rows = seq<Option<Row>>

  function LenIn(s: Option<Row>, ssuId: string): nat {
    if s.Some? && s.value.ssuId == ssuId then s.value.len else 0
  }

  /** The bytes of active extents on one SSU. */
  function LenOn(rows: Rows, ssuId: string): nat {
    if rows == [] then 0 else LenOn(rows[..|rows| - 1], ssuId) + LenIn(rows[|rows| - 1], ssuId)
  }

  predicate Known(pool: seq<Resource>, ssuId: string) { FindRes(pool, ssuId) < |pool| }

  predicate DistinctSsus(pool: seq<Resource>) {
    forall i, j :: 0 <= i < j < |pool| ==> pool[i].ssuId != pool[j].ssuId
  }

  /** The fill mark minus the active extents. */
  function Slack(c: Ctl, ssuId: string): int
    requires Known(c.pool, ssuId)
  {
    c.pool[FindRes(c.pool, ssuId)].used - LenOn(c.rows, ssuId)
  }

  /** SSU names are distinct, every extent sits on a known SSU, and no SSU holds
      more than its fill mark. */
  predicate Books(c: Ctl) {
    && DistinctSsus(c.pool)
    && (forall i :: 0 <= i < |c.rows| && c.rows[i].Some? ==> Known(c.pool, c.rows[i].value.ssuId))
    && (forall p :: 0 <= p < |c.pool| ==> c.pool[p].used >= LenOn(c.rows, c.pool[p].ssuId))
  }

  /** No SSU is lost and no slack changes. */
  ghost predicate SameSlack(a: Ctl, b: Ctl) {
    forall s: string :: Known(a.pool, s) ==> Known(b.pool, s) && Slack(b, s) == Slack(a, s)
  }

  lemma FindIs(pool: seq<Resource>, p: nat)
    requires DistinctSsus(pool) && p < |pool|
    ensures FindRes(pool, pool[p].ssuId) == p
  {}

  lemma {:induction false} LenOnConcat(a: Rows, b: Rows, ssuId: string)
    ensures LenOn(a + b, ssuId) == LenOn(a, ssuId) + LenOn(b, ssuId)
  {
    if b == [] {
      assert a + b == a;
    } else {
      assert (a + b)[..|a + b| - 1] == a + b[..|b| - 1];
      LenOnConcat(a, b[..|b| - 1], ssuId);
    }
  }

  lemma LenOnUpdate(rows: Rows, i: nat, x: Option<Row>, ssuId: string)
    requires i < |rows|
    ensures LenOn(rows[i := x], ssuId) == LenOn(rows, ssuId) - LenIn(rows[i], ssuId) + LenIn(x, ssuId)
    ensures LenOn(rows, ssuId) >= LenIn(rows[i], ssuId)
  {
    assert rows == rows[..i] + ([rows[i]] + rows[i + 1..]);
    assert rows[i := x] == rows[..i] + ([x] + rows[i + 1..]);
    LenOnConcat(rows[..i], [rows[i]] + rows[i + 1..], ssuId);
    LenOnConcat(rows[..i], [x] + rows[i + 1..], ssuId);
    LenOnConcat([rows[i]], rows[i + 1..], ssuId);
    LenOnConcat([x], rows[i + 1..], ssuId);
  }

  lemma {:induction false} LenOnAgree(a: Rows, b: Rows, ssuId: string)
    requires |a| == |b|
    requires forall i :: 0 <= i < |a| ==> LenIn(a[i], ssuId) == LenIn(b[i], ssuId)
    ensures LenOn(a, ssuId) == LenOn(b, ssuId)
  {
    if a != [] {
      LenOnAgree(a[..|a| - 1], b[..|b| - 1], ssuId);
    }
  }

  /** A slot and its SSU's fill mark change together. */
  lemma Balance(c: Ctl, c2: Ctl, slot: nat, p: nat)
    requires Books(c) && slot < |c.rows| && p < |c.pool|
    requires |c2.rows| == |c.rows| && c2.rows == c.rows[slot := c2.rows[slot]]
    requires |c2.pool| == |c.pool| && c2.pool == c.pool[p := c2.pool[p]] && c2.pool[p].ssuId == c.pool[p].ssuId
    requires c.rows[slot].Some? ==> c.rows[slot].value.ssuId == c.pool[p].ssuId
    requires c2.rows[slot].Some? ==> c2.rows[slot].value.ssuId == c.pool[p].ssuId
    requires c2.pool[p].used - LenIn(c2.rows[slot], c.pool[p].ssuId)
      == c.pool[p].used - LenIn(c.rows[slot], c.pool[p].ssuId)
    ensures Books(c2) && SameSlack(c, c2)
  {
    forall s: string
      ensures FindRes(c2.pool, s) == FindRes(c.pool, s)
      ensures LenOn(c2.rows, s) == LenOn(c.rows, s) - LenIn(c.rows[slot], s) + LenIn(c2.rows[slot], s)
    {
      LenOnUpdate(c.rows, slot, c2.rows[slot], s);
      SameFind(c.pool, c2.pool, s);
    }
    FindIs(c.pool, p);
    forall s: string | Known(c.pool, s) ensures Known(c2.pool, s) && Slack(c2, s) == Slack(c, s) {}
    forall i | 0 <= i < |c2.rows| && c2.rows[i].Some? ensures Known(c2.pool, c2.rows[i].value.ssuId) {
      if i != slot { assert c2.rows[i] == c.rows[i]; }
    }
    forall q | 0 <= q < |c2.pool| ensures c2.pool[q].used >= LenOn(c2.rows, c2.pool[q].ssuId) {
      FindIs(c.pool, q);
      assert Slack(c2, c.pool[q].ssuId) == Slack(c, c.pool[q].ssuId);
    }
  }

  lemma SameFind(a: seq<Resource>, b: seq<Resource>, s: string)
    requires |a| == |b| && forall i :: 0 <= i < |a| ==> a[i].ssuId == b[i].ssuId
    ensures FindRes(a, s) == FindRes(b, s)
  {}

  lemma AdvanceKeepsBooks(s: Placing, job: Job)
    requires Books(s.w.c) && CanPlace(s, job) && s.i < |job.sel|
    ensures Books(Advance(s, job).w.c) && SameSlack(s.w.c, Advance(s, job).w.c)
  {
    Balance(s.w.c, Advance(s, job).w.c, FirstFree(s.w.c.rows), job.sel[s.i]);
  }

  /** Taking a row out always refunds it: the guard on the fill mark never skips. */
  lemma UndoOneKeepsBooks(w: World, slot: nat, fault: Status)
    requires Books(w.c)
    ensures Books(UndoOne(w, slot, fault).c) && SameSlack(w.c, UndoOne(w, slot, fault).c)
    ensures slot < |w.c.rows| && w.c.rows[slot].Some? ==>
      var row := w.c.rows[slot].value;
      Known(w.c.pool, row.ssuId) && w.c.pool[FindRes(w.c.pool, row.ssuId)].used >= row.len
  {
    if slot < |w.c.rows| && w.c.rows[slot].Some? {
      var row := w.c.rows[slot].value;
      LenOnUpdate(w.c.rows, slot, None, row.ssuId);
      Balance(w.c, UndoOne(w, slot, fault).c, slot, FindRes(w.c.pool, row.ssuId));
    }
  }

  lemma {:induction false} PlaceFromKeepsBooks(s: Placing, job: Job, create: Faults)
    requires Books(s.w.c) && CanPlace(s, job)
    ensures var p := PlaceFrom(s, job, create).0; Books(p.w.c) && SameSlack(s.w.c, p.w.c)
    decreases |job.sel| - s.i
  {
    if s.i < |job.sel| && NextStatus(s, job, create) == OK {
      AdvanceKeepsBooks(s, job);
      PlaceFromKeepsBooks(Advance(s, job), job, create);
    }
  }

  lemma {:induction false} UndoKeepsBooks(w: World, slots: seq<nat>, delete: Faults)
    requires Books(w.c)
    ensures Books(Undo(w, slots, delete).c) && SameSlack(w.c, Undo(w, slots, delete).c)
    decreases |slots|
  {
    if slots != [] {
      var n := |slots| - 1;
      UndoOneKeepsBooks(w, slots[n], Fault(delete, n));
      UndoKeepsBooks(UndoOne(w, slots[n], Fault(delete, n)), slots[..n], delete);
    }
  }

  lemma {:induction false} ReleaseFromKeepsBooks(w: World, id: string, i: nat, found: bool, delete: Faults)
    requires Books(w.c) && i <= |w.c.rows|
    ensures var r := ReleaseFrom(w, id, i, found, delete); Books(r.0.c) && SameSlack(w.c, r.0.c)
    decreases |w.c.rows| - i
  {
    if i < |w.c.rows| {
      if !Carries(w.c.rows[i], RowId, id) {
        ReleaseFromKeepsBooks(w, id, i + 1, found, delete);
      } else {
        var row := w.c.rows[i].value;
        var st := if Fault(delete, i) != OK then Fault(delete, i) else DeleteNs(w.m, row.ssuId, row.nsId).1;
        if st == OK {
          UndoOneKeepsBooks(w, i, OK);
          ReleaseFromKeepsBooks(UndoOne(w, i, OK), id, i + 1, true, delete);
        }
      }
    }
  }

  /** Changing mount states moves no bytes. */
  lemma SetStateKeepsBooks(c: Ctl, c2: Ctl, id: string, st: RowState)
    requires Books(c) && c2.pool == c.pool && c2.rows == SetState(c.rows, id, st)
    ensures Books(c2) && SameSlack(c, c2)
  {
    forall s: string ensures LenOn(c2.rows, s) == LenOn(c.rows, s) {
      LenOnAgree(c.rows, c2.rows, s);
    }
  }

  // ---- refresh ----

  predicate DistinctFound(d: Discovery) { DistinctSsus(d.found) }

  /** next has every SSU of pool[..i], with its fill mark, and is distinct. */
  predicate Merged(next: seq<Resource>, pool: seq<Resource>, i: nat)
    requires i <= |pool|
  {
    && DistinctSsus(next)
    && forall j :: 0 <= j < i ==> Known(next, pool[j].ssuId)
  }

  predicate SameMarks(next: seq<Resource>, pool: seq<Resource>) {
    forall j :: 0 <= j < |next| && Known(pool, next[j].ssuId) ==>
      next[j].used == pool[FindRes(pool, next[j].ssuId)].used
  }

  lemma AppendOne(next: seq<Resource>, pool: seq<Resource>, i: nat,
      health: map<string, string>)
    requires DistinctSsus(pool) && i < |pool| && Merged(next, pool, i) && SameMarks(next, pool)
    requires !Known(next, pool[i].ssuId)
    ensures var next2 := next + [WithHealth(pool[i], health)]; Merged(next2, pool, i + 1) && SameMarks(next2, pool)
  {
    var next2 := next + [WithHealth(pool[i], health)];
    FindIs(pool, i);
    forall j | 0 <= j < i + 1 ensures Known(next2, pool[j].ssuId) {
      if j < i {
        assert next2[FindRes(next, pool[j].ssuId)].ssuId == pool[j].ssuId;
      } else {
        assert next2[|next|].ssuId == pool[i].ssuId;
      }
    }
  }

  lemma {:induction false} AppendMissingMerges(next: seq<Resource>, pool: seq<Resource>, i: nat,
      health: map<string, string>)
    requires DistinctSsus(pool) && i <= |pool| && Merged(next, pool, i) && SameMarks(next, pool)
    requires AppendMissing(next, pool, i, health).Some?
    ensures var r := AppendMissing(next, pool, i, health).value;
      Merged(r, pool, |pool|) && SameMarks(r, pool) && next <= r
    decreases |pool| - i
  {
    if i < |pool| {
      if Known(next, pool[i].ssuId) {
        AppendMissingMerges(next, pool, i + 1, health);
      } else {
        AppendOne(next, pool, i, health);
        AppendMissingMerges(next + [WithHealth(pool[i], health)], pool, i + 1, health);
      }
    }
  }

  lemma RefreshMerges(c: Ctl, d: Discovery, health: map<string, string>)
    requires Books(c) && DistinctFound(d) && d.status == OK && Refresh(c, d, health).1 == OK
    ensures var c2 := Refresh(c, d, health).0;
      Merged(c2.pool, c.pool, |c.pool|) && SameMarks(c2.pool, c.pool) && CarryAll(c.pool, d.found, health) <= c2.pool
  {
    AppendMissingMerges(CarryAll(c.pool, d.found, health), c.pool, 0, health);
  }

  /** A refresh keeps every known SSU and its slack, whatever order discovery
      lists them in. */
  lemma RefreshKeepsBooks(c: Ctl, d: Discovery, health: map<string, string>)
    requires Books(c) && DistinctFound(d)
    ensures var c2 := Refresh(c, d, health).0; Books(c2) && SameSlack(c, c2)
  {
    var (c2, st) := Refresh(c, d, health);
    if st == OK && d.status == OK {
      RefreshMerges(c, d, health);
      RefreshBooks(c, c2);
    }
  }

  /** A newly discovered SSU starts with the mark it reports and no extents. */
  lemma DiscoveryStartsBooks(c: Ctl, d: Discovery, health: map<string, string>, j: nat)
    requires Books(c) && DistinctFound(d) && d.status == OK && Refresh(c, d, health).1 == OK
    requires j < |d.found| && !Known(c.pool, d.found[j].ssuId)
    ensures var c2 := Refresh(c, d, health).0;
      Known(c2.pool, d.found[j].ssuId) && Slack(c2, d.found[j].ssuId) == d.found[j].used
        && LenOn(c2.rows, d.found[j].ssuId) == 0
  {
    var c2 := Refresh(c, d, health).0;
    RefreshMerges(c, d, health);
    assert c2.pool[j] == CarryAll(c.pool, d.found, health)[j];
    FindIs(c2.pool, j);
    NothingOn(c.rows, c.pool, d.found[j].ssuId);
  }

  lemma RefreshBooks(c: Ctl, c2: Ctl)
    requires Books(c) && c2.rows == c.rows
    requires Merged(c2.pool, c.pool, |c.pool|) && SameMarks(c2.pool, c.pool)
    ensures Books(c2) && SameSlack(c, c2)
  {
    forall s: string | Known(c.pool, s) ensures Known(c2.pool, s) && Slack(c2, s) == Slack(c, s) {
      assert c.pool[FindRes(c.pool, s)].ssuId == s;
    }
    forall q | 0 <= q < |c2.pool| ensures c2.pool[q].used >= LenOn(c2.rows, c2.pool[q].ssuId) {
      var s := c2.pool[q].ssuId;
      if Known(c.pool, s) {
        assert c.pool[FindRes(c.pool, s)].used >= LenOn(c.rows, s);
      } else {
        NothingOn(c.rows, c.pool, s);
      }
    }
  }

  lemma {:induction false} NothingOn(rows: Rows, pool: seq<Resource>, s: string)
    requires forall i :: 0 <= i < |rows| && rows[i].Some? ==> Known(pool, rows[i].value.ssuId)
    requires !Known(pool, s)
    ensures LenOn(rows, s) == 0
  {
    if rows != [] {
      NothingOn(rows[..|rows| - 1], pool, s);
    }
  }

  // ---- runs ----

  predicate FindsDistinct(op: Op) { op.OpRefresh? ==> DistinctFound(op.discovery) }

  lemma AllocKeepsBooks(w: World, req: AllocReq, cap: Option<nat>, create: Faults, delete: Faults)
    requires WorldShaped(w) && Books(w.c)
    ensures var w2 := Alloc(w, req, cap, create, delete).0; Books(w2.c) && SameSlack(w.c, w2.c)
  {
    AllocCases(w, req, cap, create, delete);
    var w1 := Searched(w);
    assert Books(w1.c) && SameSlack(w.c, w1.c);
    if req.size > 0 && HostKey.Key(req.hosts).Some? {
      var a := Admit(w1.c, req, HostKey.Key(req.hosts).value, cap);
      if a.Admitted? {
        PlaceKeepsBooks(w1, a.job, create, delete);
      }
    }
  }

  lemma RestateKeepsBooks(w: World, id: string, st: RowState, c2: Ctl)
    requires Books(w.c) && c2.pool == w.c.pool && (c2.rows == w.c.rows || c2.rows == SetState(w.c.rows, id, st))
    ensures Books(c2) && SameSlack(w.c, c2)
  {
    if c2.rows != w.c.rows {
      SetStateKeepsBooks(w.c, c2, id, st);
    }
  }

  lemma PlaceKeepsBooks(w: World, job: Job, create: Faults, delete: Faults)
    requires Books(w.c) && CanPlace(Start(w), job)
    ensures var w2 := Place(w, job, create, delete).0; Books(w2.c) && SameSlack(w.c, w2.c)
  {
    var p := PlaceFrom(Start(w), job, create).0;
    PlaceFromKeepsBooks(Start(w), job, create);
    UndoKeepsBooks(p.w, p.slots, delete);
  }

  lemma StepKeepsBooks(w: World, op: Op)
    requires WorldShaped(w) && Books(w.c) && FindsDistinct(op)
    ensures Books(Step(w, op).c) && SameSlack(w.c, Step(w, op).c)
  {
    match op
    case OpRefresh(d, h) => RefreshKeepsBooks(w.c, d, h);
    case OpAlloc(req, cap, create, delete) => AllocKeepsBooks(w, req, cap, create, delete);
    case OpRelease(id, deletes) => ReleaseFromKeepsBooks(w, id, 0, false, deletes);
    case OpMount(req, d, f) =>
      MountCases(w, req, d, f);
      RestateKeepsBooks(w, req.allocId, MOUNTED, MountOp(w, req, d, f).0.c);
    case OpUnmount(dev, d, f) =>
      UnmountKeepsBooks(w, dev, d, f);
  }

  lemma UnmountKeepsBooks(w: World, dev: string, d: Devices, f: KernelFaults)
    requires WorldShaped(w) && Books(w.c)
    ensures var c2 := UnmountOp(w, dev, d, f).0.c; Books(c2) && SameSlack(w.c, c2)
  {
    UnmountCases(w, dev, d, f);
    var c2 := UnmountOp(w, dev, d, f).0.c;
    if c2 != w.c {
      var id := w.c.logdevs[Find(w.c.logdevs, LogdevDev, dev)].value.allocId;
      RestateKeepsBooks(w, id, if Has(c2.logdevs, LogdevId, id) then MOUNTED else ACTIVE, c2);
    }
  }

  /** Over any run, with any refusals of the plugin and the kernel, an SSU once
      known stays known and its fill mark moves exactly with its extents. */
  lemma {:induction false} Conservation(w: World, ops: seq<Op>)
    requires WorldShaped(w) && Books(w.c)
    requires forall i :: 0 <= i < |ops| ==> FindsDistinct(ops[i])
    ensures Books(Run(w, ops).c) && SameSlack(w.c, Run(w, ops).c)
  {
    if ops != [] {
      Conservation(w, ops[..|ops| - 1]);
      StepKeepsBooks(Run(w, ops[..|ops| - 1]), ops[|ops| - 1]);
    }
  }
}
