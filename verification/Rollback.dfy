/** Allocation is all or nothing: the rollback undoes the placement loop slot by
    slot. Also: ids and namespace names are never reused. */
module Rollback {
  import opened Types
  import opened Tables
  import opened Decimal
  import opened ReqShimIface
  import opened MockState
  import opened Placement
  import opened ControllerState
  import opened Ledger
  import HostKey

  /** Every namespace name was issued before and no two are equal. */
  predicate NsFresh(m: Mock) {
    && (forall i :: 0 <= i < |m.nss| && m.nss[i].Some? ==> IssuedBelow(NS_PREFIX, m.nss[i].value.nsId, m.nextNs))
    && (forall i, j :: 0 <= i < j < |m.nss| && m.nss[i].Some? && m.nss[j].Some? ==>
      m.nss[i].value.nsId != m.nss[j].value.nsId)
  }

  lemma CreateKeepsFresh(m: Mock, req: ExtentReq)
    requires NsFresh(m) && m.nextNs < TWO64
    ensures NsFresh(CreateNs(m, req).0)
    ensures CreateNs(m, req).1 == OK ==>
      FindNs(CreateNs(m, req).0.nss, req.ssuId, Numbered(NS_PREFIX, m.nextNs)) == FirstFree(m.nss)
  {
    var id := Numbered(NS_PREFIX, m.nextNs);
    NumberedIssued(NS_PREFIX, m.nextNs, m.nextNs);
    NumberedIssued(NS_PREFIX, m.nextNs, m.nextNs + 1);
    if FirstFree(m.nss) < |m.nss| {
      var f, nss := FirstFree(m.nss), CreateNs(m, req).0.nss;
      assert nss[f] == Some(NewNs(req, m.nextNs));
      assert forall j :: 0 <= j < |nss| && j != f ==> nss[j] == m.nss[j];
    }
  }

  /** Deleting what was just created restores the namespace table. */
  lemma DeleteUndoesCreate(m: Mock, req: ExtentReq)
    requires NsFresh(m) && m.nextNs < TWO64 && CreateNs(m, req).1 == OK
    ensures var (m2, st) := DeleteNs(CreateNs(m, req).0, req.ssuId, Numbered(NS_PREFIX, m.nextNs));
      st == OK && m2 == m.(nextNs := m.nextNs + 1)
  {
    CreateKeepsFresh(m, req);
    var f := FirstFree(m.nss);
    assert CreateNs(m, req).0.nss[f := None] == m.nss;
  }

  /** The undo step is the inverse of the loop's step. */
  lemma UndoneStep(s: Placing, job: Job, create: Faults, fault: Status)
    requires CanPlace(s, job) && s.i < |job.sel| && DistinctSsus(s.w.c.pool)
    ensures var f := FirstFree(s.w.c.rows);
      && UndoOne(Advance(s, job).w, f, fault).c == s.w.c
      && (fault == OK && NextStatus(s, job, create) == OK && NsFresh(s.w.m) && s.w.m.nextNs < TWO64 ==>
            UndoOne(Advance(s, job).w, f, fault).m == s.w.m.(nextNs := s.w.m.nextNs + 1))
  {
    var f, p, w1 := FirstFree(s.w.c.rows), job.sel[s.i], Advance(s, job).w;
    var x := RequestFor(s.w.c.pool, job, s.i, s.off);
    assert w1.c.rows[f].value.ssuId == x.ssuId && w1.c.rows[f].value.len == x.len;
    FindIs(s.w.c.pool, p);
    SameFind(s.w.c.pool, w1.c.pool, x.ssuId);
    assert s.w.c.pool[p].(used := s.w.c.pool[p].used) == s.w.c.pool[p];
    assert Refund(w1.c.pool, x.ssuId, x.len) == s.w.c.pool;
    assert w1.c.rows[f := None] == s.w.c.rows;
    if fault == OK && NextStatus(s, job, create) == OK && NsFresh(s.w.m) && s.w.m.nextNs < TWO64 {
      DeleteUndoesCreate(s.w.m, x);
    }
  }

  /** The controller's side of the rollback does not depend on the plugin. */
  lemma {:induction false} UndoAgree(a: World, b: World, slots: seq<nat>, delete: Faults)
    requires a.c == b.c
    ensures Undo(a, slots, delete).c == Undo(b, slots, delete).c
    ensures a.m == b.m.(nextNs := a.m.nextNs) ==>
      Undo(a, slots, delete).m == Undo(b, slots, delete).m.(nextNs := a.m.nextNs)
    decreases |slots|
  {
    if slots != [] {
      var n := |slots| - 1;
      UndoAgree(UndoOne(a, slots[n], Fault(delete, n)), UndoOne(b, slots[n], Fault(delete, n)), slots[..n], delete);
    }
  }

  lemma SlotsUndone(w: World, slots: seq<nat>, f: nat, delete: Faults)
    ensures Undo(w, slots + [f], delete) == Undo(UndoOne(w, f, Fault(delete, |slots|)), slots, delete)
  {
    assert (slots + [f])[..|slots|] == slots;
  }

  /** Undoing all that the loop placed from s on is undoing what s had placed. */
  lemma {:induction false} PlaceFromUndone(s: Placing, job: Job, create: Faults, delete: Faults)
    requires CanPlace(s, job) && DistinctSsus(s.w.c.pool)
    ensures var p := PlaceFrom(s, job, create).0;
      Undo(p.w, p.slots, delete).c == Undo(s.w, s.slots, delete).c
    decreases |job.sel| - s.i
  {
    if s.i < |job.sel| && NextStatus(s, job, create) == OK {
      var s1 := Advance(s, job);
      var fault := Fault(delete, |s.slots|);
      PlaceFromUndone(s1, job, create, delete);
      UndoneStep(s, job, create, fault);
      SlotsUndone(s1.w, s.slots, FirstFree(s.w.c.rows), delete);
      UndoAgree(UndoOne(s1.w, FirstFree(s.w.c.rows), fault), s.w, s.slots, delete);
    }
  }

  lemma {:induction false} NamespacesUndone(s: Placing, job: Job, create: Faults)
    requires CanPlace(s, job) && DistinctSsus(s.w.c.pool) && NsFresh(s.w.m)
    requires PlaceFrom(s, job, create).0.w.m.nextNs < TWO64
    ensures var p := PlaceFrom(s, job, create).0; var u := Undo(p.w, p.slots, map[]).m;
      u == Undo(s.w, s.slots, map[]).m.(nextNs := u.nextNs)
    decreases |job.sel| - s.i
  {
    if s.i < |job.sel| && NextStatus(s, job, create) == OK {
      var s1 := Advance(s, job);
      CreateKeepsFresh(s.w.m, RequestFor(s.w.c.pool, job, s.i, s.off));
      NamespacesUndone(s1, job, create);
      UndoneStep(s, job, create, OK);
      SlotsUndone(s1.w, s.slots, FirstFree(s.w.c.rows), map[]);
      UndoAgree(UndoOne(s1.w, FirstFree(s.w.c.rows), OK), s.w, s.slots, map[]);
    }
  }

  /** Every active or remembered id is alloc-k for some k below the counter. */
  predicate IdsBelow(c: Ctl) {
    && (forall i :: 0 <= i < |c.rows| && c.rows[i].Some? ==> IssuedBelow(ID_PREFIX, c.rows[i].value.allocId, c.nextId))
    && (forall i :: 0 <= i < |c.released| ==> IssuedBelow(ID_PREFIX, c.released[i], c.nextId))
  }

  /** The id search stops at its first test, and the id it finds is new. */
  lemma SearchIsImmediate(w: World)
    requires IdsBelow(w.c) && w.c.nextId < TWO64
    ensures Searched(w) == w
    ensures !Has(w.c.rows, RowId, Numbered(ID_PREFIX, w.c.nextId)) && Numbered(ID_PREFIX, w.c.nextId) !in w.c.released
  {
    NumberedIssued(ID_PREFIX, w.c.nextId, w.c.nextId);
    var id := Numbered(ID_PREFIX, w.c.nextId);
    assert id !in UsedIds(w.c);
    HasSome(w.c.rows, RowId, id);
  }

  /** The rows after a successful loop: old rows stay, new ones belong to the job. */
  predicate JobRow(r: Row, job: Job, pool: seq<Resource>) {
    && r.allocId == job.id && r.diskName == job.req.diskName && r.tenant == Clip(job.req.tenant, TENANT_SIZE)
    && r.hostKey == job.key && r.share == job.req.share && r.state == ACTIVE
    && r.role < |job.sel| && job.sel[r.role] < |pool| && r.ssuId == pool[job.sel[r.role]].ssuId
    && r.len == JobLen(job, r.role)
    && r.phys == pool[job.sel[r.role]].used / SECTOR
  }

  /** b is a with rows of the job in slots that were free, each extent below n once. */
  predicate Extended(a: seq<Option<Row>>, b: seq<Option<Row>>, job: Job, pool: seq<Resource>, n: nat) {
    && |a| == |b|
    && (forall i :: 0 <= i < |a| && a[i].Some? ==> b[i] == a[i])
    && (forall i :: 0 <= i < |a| && a[i].None? && b[i].Some? ==> JobRow(b[i].value, job, pool) && b[i].value.role < n)
    && (forall i, j :: 0 <= i < j < |a| && a[i].None? && b[i].Some? && a[j].None? && b[j].Some? ==>
      b[i].value.role != b[j].value.role)
  }

  /** SSUs not placed on yet are as they were; names and sizes never change. */
  predicate PoolAt(pool0: seq<Resource>, pool: seq<Resource>, job: Job, n: nat) {
    && |pool| == |pool0|
    && (forall p :: 0 <= p < |pool| ==>
      pool[p].ssuId == pool0[p].ssuId && pool[p].hostId == pool0[p].hostId && pool[p].total == pool0[p].total)
    && (forall i :: n <= i < |job.sel| ==> job.sel[i] < |pool| && pool[job.sel[i]] == pool0[job.sel[i]])
  }

  lemma AdvanceExtends(w0: World, s: Placing, job: Job)
    requires CanPlace(s, job) && s.i < |job.sel| && Distinct(job.sel)
    requires Extended(w0.c.rows, s.w.c.rows, job, w0.c.pool, s.i) && PoolAt(w0.c.pool, s.w.c.pool, job, s.i)
    ensures var s1 := Advance(s, job);
      Extended(w0.c.rows, s1.w.c.rows, job, w0.c.pool, s1.i) && PoolAt(w0.c.pool, s1.w.c.pool, job, s1.i)
  {
    AdvanceRows(w0, s, job);
    AdvancePool(w0, s, job);
  }

  lemma AdvanceRows(w0: World, s: Placing, job: Job)
    requires CanPlace(s, job) && s.i < |job.sel|
    requires Extended(w0.c.rows, s.w.c.rows, job, w0.c.pool, s.i) && PoolAt(w0.c.pool, s.w.c.pool, job, s.i)
    ensures Extended(w0.c.rows, Advance(s, job).w.c.rows, job, w0.c.pool, s.i + 1)
  {
    var s1, f := Advance(s, job), FirstFree(s.w.c.rows);
    assert w0.c.rows[f].None?;
    assert forall j :: 0 <= j < |s.w.c.rows| && j != f ==> s1.w.c.rows[j] == s.w.c.rows[j];
  }

  lemma AdvancePool(w0: World, s: Placing, job: Job)
    requires CanPlace(s, job) && s.i < |job.sel| && Distinct(job.sel) && PoolAt(w0.c.pool, s.w.c.pool, job, s.i)
    ensures PoolAt(w0.c.pool, Advance(s, job).w.c.pool, job, s.i + 1)
  {}

  lemma {:induction false} PlaceFromExtends(w0: World, s: Placing, job: Job, create: Faults)
    requires CanPlace(s, job) && Distinct(job.sel)
    requires Extended(w0.c.rows, s.w.c.rows, job, w0.c.pool, s.i) && PoolAt(w0.c.pool, s.w.c.pool, job, s.i)
    ensures var p := PlaceFrom(s, job, create).0;
      Extended(w0.c.rows, p.w.c.rows, job, w0.c.pool, p.i) && PoolAt(w0.c.pool, p.w.c.pool, job, p.i)
        && p.w.c.released == s.w.c.released && p.w.c.nextId == s.w.c.nextId && p.w.c.logdevs == s.w.c.logdevs
      && p.w.k == s.w.k && p.w.m.mounts == s.w.m.mounts && s.i <= p.i <= |job.sel|
      && (PlaceFrom(s, job, create).1 == OK ==> p.i == |job.sel|)
    decreases |job.sel| - s.i
  {
    if s.i < |job.sel| && NextStatus(s, job, create) == OK {
      AdvanceExtends(w0, s, job);
      PlaceFromExtends(w0, Advance(s, job), job, create);
    }
  }

  lemma {:induction false} UndoFrame(w: World, slots: seq<nat>, delete: Faults)
    ensures var u := Undo(w, slots, delete); u.k == w.k && u.m.mounts == w.m.mounts
    decreases |slots|
  {
    if slots != [] {
      var n := |slots| - 1;
      UndoFrame(UndoOne(w, slots[n], Fault(delete, n)), slots[..n], delete);
    }
  }

  lemma PlaceAllOrNothing(w: World, job: Job, create: Faults, delete: Faults)
    requires CanPlace(Start(w), job) && DistinctSsus(w.c.pool) && Distinct(job.sel)
    requires Place(w, job, create, delete).1.status != OK
    ensures var w2 := Place(w, job, create, delete).0;
      && w2.c == w.c && w2.k == w.k && w2.m.mounts == w.m.mounts
      && (delete == map[] && NsFresh(w.m) && w2.m.nextNs < TWO64 ==> w2.m.nss == w.m.nss)
  {
    var p := PlaceFrom(Start(w), job, create).0;
    PlaceFromUndone(Start(w), job, create, delete);
    PlaceFromExtends(w, Start(w), job, create);
    UndoFrame(p.w, p.slots, delete);
    if delete == map[] && NsFresh(w.m) && p.w.m.nextNs < TWO64 {
      NamespacesUndone(Start(w), job, create);
    }
  }

  /** Allocation is all or nothing. Whatever makes it fail, all controller tables,
      every fill mark, the id counter, the mounts and the kernel are as before;
      the plugin's namespaces too, unless it also refuses a delete. */
  lemma AllocAllOrNothing(w: World, req: AllocReq, cap: Option<nat>, create: Faults, delete: Faults)
    requires WorldShaped(w) && Books(w.c) && IdsBelow(w.c) && NsFresh(w.m) && w.c.nextId < TWO64
    requires Alloc(w, req, cap, create, delete).0.m.nextNs < TWO64
    requires Alloc(w, req, cap, create, delete).1.status != OK
    ensures var w2 := Alloc(w, req, cap, create, delete).0;
      && w2.c == w.c && w2.k == w.k && w2.m.mounts == w.m.mounts
      && (delete == map[] ==> w2.m.nss == w.m.nss)
  {
    SearchIsImmediate(w);
    AllocCases(w, req, cap, create, delete);
    if req.size > 0 && HostKey.Key(req.hosts).Some? {
      var a := Admit(w.c, req, HostKey.Key(req.hosts).value, cap);
      if a.Admitted? && Place(w, a.job, create, delete).1.status != OK {
        PlaceAllOrNothing(w, a.job, create, delete);
      }
    }
  }

  /** Past the checks only the plugin can fail: with room in its table and no
      refusal the loop places every extent. */
  lemma {:induction false} OnlyCreateFails(s: Placing, job: Job)
    requires CanPlace(s, job) && FreeCount(s.w.m.nss) >= |job.sel| - s.i
    ensures PlaceFrom(s, job, map[]).1 == OK
    decreases |job.sel| - s.i
  {
    if s.i < |job.sel| {
      FreeCountPositive(s.w.m.nss);
      var x := RequestFor(s.w.c.pool, job, s.i, s.off);
      FreeCountUpdate(s.w.m.nss, FirstFree(s.w.m.nss), Some(NewNs(x, s.w.m.nextNs)));
      OnlyCreateFails(Advance(s, job), job);
    }
  }

  /** The in-loop rechecks of capacity and alignment are dead: when extent i is
      reached its SSU is as the selection saw it. */
  lemma RechecksAreDead(w: World, job: Job, s: Placing)
    requires CanPlace(s, job) && s.i < |job.sel| && JobOk(w.c.pool, job)
    requires PoolAt(w.c.pool, s.w.c.pool, job, s.i)
    ensures var r := s.w.c.pool[job.sel[s.i]]; r.used % 512 == 0 && r.used + JobLen(job, s.i) <= r.total
    ensures exists x :: 0 <= x < |s.w.c.rows| && s.w.c.rows[x].None?
  {
    FreeCountPositive(s.w.c.rows);
    assert Room(s.w.c.pool[job.sel[s.i]], JobLen(job, s.i)) && s.w.c.rows[FirstFree(s.w.c.rows)].None?;
  }
}
