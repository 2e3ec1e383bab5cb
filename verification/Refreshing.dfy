/** What a refresh leaves in the pool, and that an SSU found unhealthy takes no extent
    until the next one. */
module Refreshing {
  import opened Types
  import opened Tables
  import opened MockState
  import opened Placement
  import opened ControllerState
  import opened Ledger
  import opened Rollback
  import opened Grants
  import opened Capacity
  import HostKey

  /** The state a health check gives; an SSU that cannot be checked is offline. */
  function StateOf(health: map<string, string>, ssuId: string): string {
    if ssuId in health then health[ssuId] else "OFFLINE"
  }

  /** r is SSU j of the discovery: its size and host, its health, and the mark the
      pool has for it, or the one it reports if it is new. */
  predicate IsFound(c: Ctl, d: Discovery, health: map<string, string>, r: Resource, j: nat) {
    && j < |d.found| && r.ssuId == d.found[j].ssuId && r.total == d.found[j].total && r.hostId == d.found[j].hostId
    && r.state == StateOf(health, r.ssuId)
    && (forall q :: 0 <= q < |c.pool| && c.pool[q].ssuId == r.ssuId ==> r.used == c.pool[q].used)
    && ((forall q :: 0 <= q < |c.pool| ==> c.pool[q].ssuId != r.ssuId) ==> r.used == d.found[j].used)
  }

  /** r is SSU q of the pool, which the discovery did not find, with its health. */
  predicate IsKept(c: Ctl, d: Discovery, health: map<string, string>, r: Resource, q: nat) {
    && q < |c.pool| && r == c.pool[q].(state := StateOf(health, r.ssuId))
    && forall j :: 0 <= j < |d.found| ==> d.found[j].ssuId != r.ssuId
  }

  ghost predicate Refreshed(c: Ctl, d: Discovery, health: map<string, string>, r: Resource) {
    (exists j: nat :: IsFound(c, d, health, r, j)) || (exists q: nat :: IsKept(c, d, health, r, q))
  }

  lemma CarriedIsFound(c: Ctl, d: Discovery, health: map<string, string>, j: nat)
    requires DistinctSsus(c.pool) && j < |d.found|
    ensures IsFound(c, d, health, Carry(c.pool, d.found[j], health), j)
  {
    forall q | 0 <= q < |c.pool| && c.pool[q].ssuId == d.found[j].ssuId
      ensures Carry(c.pool, d.found[j], health).used == c.pool[q].used
    {
      FindIs(c.pool, q);
    }
  }

  lemma {:induction false} AppendedAre(c: Ctl, d: Discovery, next: seq<Resource>, i: nat, health: map<string, string>)
    requires i <= |c.pool| && forall p :: 0 <= p < |next| ==> Refreshed(c, d, health, next[p])
    requires forall j :: 0 <= j < |d.found| ==> Known(next, d.found[j].ssuId)
    requires AppendMissing(next, c.pool, i, health).Some?
    ensures var r := AppendMissing(next, c.pool, i, health).value;
      forall p :: 0 <= p < |r| ==> Refreshed(c, d, health, r[p])
    decreases |c.pool| - i
  {
    if i < |c.pool| {
      if Known(next, c.pool[i].ssuId) {
        AppendedAre(c, d, next, i + 1, health);
      } else {
        var r := WithHealth(c.pool[i], health);
        assert IsKept(c, d, health, r, i);
        KnownMore(d, next, r);
        AppendedAre(c, d, next + [r], i + 1, health);
      }
    }
  }

  lemma KnownMore(d: Discovery, next: seq<Resource>, r: Resource)
    requires forall j :: 0 <= j < |d.found| ==> Known(next, d.found[j].ssuId)
    ensures forall j :: 0 <= j < |d.found| ==> Known(next + [r], d.found[j].ssuId)
  {
    forall j | 0 <= j < |d.found| ensures Known(next + [r], d.found[j].ssuId) {
      assert (next + [r])[FindRes(next, d.found[j].ssuId)].ssuId == d.found[j].ssuId;
    }
  }

  /** After a refresh the pool holds exactly the SSUs found and those it had before,
      each as described; and a refresh fails only with the discovery or a full pool,
      and then changes nothing. */
  lemma RefreshGives(c: Ctl, d: Discovery, health: map<string, string>)
    requires Books(c) && DistinctFound(d)
    ensures var (c2, st) := Refresh(c, d, health);
      && (st != OK ==> c2 == c)
      && (st == OK ==>
            && d.status == OK && c2 == c.(pool := c2.pool)
            && (forall p :: 0 <= p < |c2.pool| ==> Refreshed(c, d, health, c2.pool[p]))
            && (forall j :: 0 <= j < |d.found| ==> Known(c2.pool, d.found[j].ssuId))
            && (forall q :: 0 <= q < |c.pool| ==> Known(c2.pool, c.pool[q].ssuId)))
  {
    var (c2, st) := Refresh(c, d, health);
    if st == OK && d.status == OK {
      var next := CarryAll(c.pool, d.found, health);
      RefreshMerges(c, d, health);
      forall p | 0 <= p < |next| ensures Refreshed(c, d, health, next[p]) {
        CarriedIsFound(c, d, health, p);
      }
      AllFoundKnown(c, d, health, next);
      AppendedAre(c, d, next, 0, health);
      PrefixKnown(d, next, c2.pool);
    }
  }

  /** The SSUs of the pool, from slot i on, that next lacks. */
  function Lacking(next: seq<Resource>, pool: seq<Resource>, i: nat): set<nat> {
    set q: nat | q < |pool| && i <= q && forall j :: 0 <= j < |next| ==> next[j].ssuId != pool[q].ssuId
  }

  lemma LackingNext(next: seq<Resource>, pool: seq<Resource>, i: nat, r: Resource)
    requires DistinctSsus(pool) && i < |pool| && r.ssuId == pool[i].ssuId && !Known(next, pool[i].ssuId)
    ensures |Lacking(next, pool, i)| == |Lacking(next + [r], pool, i + 1)| + 1
  {
    var a, b := Lacking(next, pool, i), Lacking(next + [r], pool, i + 1);
    forall q | q in a && q != i ensures q in b {
      assert pool[q].ssuId != pool[i].ssuId;
    }
    forall q | q in b ensures q in a {
      assert forall j :: 0 <= j < |next| ==> (next + [r])[j] == next[j];
    }
    assert (next + [r])[|next|] == r;
    assert a == b + {i};
  }

  lemma {:induction false} AppendsIff(next: seq<Resource>, pool: seq<Resource>, i: nat, health: map<string, string>)
    requires DistinctSsus(pool) && i <= |pool| && |next| <= MAX_RESOURCES
    ensures AppendMissing(next, pool, i, health).Some? <==> |next| + |Lacking(next, pool, i)| <= 128
    decreases |pool| - i
  {
    if i < |pool| {
      if Known(next, pool[i].ssuId) {
        assert next[FindRes(next, pool[i].ssuId)].ssuId == pool[i].ssuId;
        assert Lacking(next, pool, i) == Lacking(next, pool, i + 1);
        AppendsIff(next, pool, i + 1, health);
      } else {
        LackingNext(next, pool, i, WithHealth(pool[i], health));
        if |next| < MAX_RESOURCES { AppendsIff(next + [WithHealth(pool[i], health)], pool, i + 1, health); }
      }
    } else {
      assert Lacking(next, pool, i) == {};
    }
  }

  /** A refresh succeeds exactly when the discovery does and the SSUs that it finds,
      together with those of the pool that it does not, are at most 128. */
  lemma RefreshOkIff(c: Ctl, d: Discovery, health: map<string, string>)
    requires Books(c) && DistinctFound(d)
    ensures Refresh(c, d, health).1 == OK <==> d.status == OK && |d.found| + |Lacking(d.found, c.pool, 0)| <= 128
    ensures d.status != OK ==> Refresh(c, d, health).1 == d.status
  {
    var next := CarryAll(c.pool, d.found, health);
    assert Lacking(next, c.pool, 0) == Lacking(d.found, c.pool, 0) by {
      forall q: nat | q < |c.pool|
        ensures (forall j :: 0 <= j < |next| ==> next[j].ssuId != c.pool[q].ssuId) <==>
          forall j :: 0 <= j < |d.found| ==> d.found[j].ssuId != c.pool[q].ssuId
      {
        SameNames(c.pool, d.found, health);
      }
    }
    if |d.found| <= MAX_RESOURCES { AppendsIff(next, c.pool, 0, health); }
  }

  lemma SameNames(pool: seq<Resource>, found: seq<Resource>, health: map<string, string>)
    ensures forall j :: 0 <= j < |found| ==> CarryAll(pool, found, health)[j].ssuId == found[j].ssuId
  {}

  lemma AllFoundKnown(c: Ctl, d: Discovery, health: map<string, string>, next: seq<Resource>)
    requires next == CarryAll(c.pool, d.found, health)
    ensures forall j :: 0 <= j < |d.found| ==> Known(next, d.found[j].ssuId)
  {
    forall j | 0 <= j < |d.found| ensures Known(next, d.found[j].ssuId) {
      assert next[j].ssuId == d.found[j].ssuId;
    }
  }

  lemma PrefixKnown(d: Discovery, next: seq<Resource>, pool: seq<Resource>)
    requires next <= pool && forall j :: 0 <= j < |d.found| ==> Known(next, d.found[j].ssuId)
    ensures forall j :: 0 <= j < |d.found| ==> Known(pool, d.found[j].ssuId)
  {
    forall j | 0 <= j < |d.found| ensures Known(pool, d.found[j].ssuId) {
      assert pool[FindRes(next, d.found[j].ssuId)].ssuId == d.found[j].ssuId;
    }
  }

  // ---- states between refreshes ----

  /** Only fill marks differ. */
  predicate OnlyMarks(a: seq<Resource>, b: seq<Resource>) {
    |a| == |b| && forall p :: 0 <= p < |a| ==> b[p] == a[p].(used := b[p].used)
  }

  lemma {:induction false} PlaceFromOnlyMarks(s: Placing, job: Job, create: Faults)
    requires CanPlace(s, job)
    ensures OnlyMarks(s.w.c.pool, PlaceFrom(s, job, create).0.w.c.pool)
    decreases |job.sel| - s.i
  {
    if s.i < |job.sel| && NextStatus(s, job, create) == OK {
      PlaceFromOnlyMarks(Advance(s, job), job, create);
    }
  }

  lemma {:induction false} ReleaseFromOnlyMarks(w: World, id: string, i: nat, found: bool, delete: Faults)
    requires i <= |w.c.rows|
    ensures OnlyMarks(w.c.pool, ReleaseFrom(w, id, i, found, delete).0.c.pool)
    decreases |w.c.rows| - i
  {
    if i < |w.c.rows| {
      if !Carries(w.c.rows[i], RowId, id) {
        ReleaseFromOnlyMarks(w, id, i + 1, found, delete);
      } else {
        var row := w.c.rows[i].value;
        var st := if Fault(delete, i) != OK then Fault(delete, i) else DeleteNs(w.m, row.ssuId, row.nsId).1;
        if st == OK {
          ReleaseFromOnlyMarks(UndoOne(w, i, OK), id, i + 1, true, delete);
        }
      }
    }
  }

  lemma AllocOnlyMarks(w: World, req: AllocReq, cap: Option<nat>, create: Faults, delete: Faults)
    requires WorldShaped(w) && Books(w.c)
    ensures OnlyMarks(w.c.pool, Alloc(w, req, cap, create, delete).0.c.pool)
  {
    AllocCases(w, req, cap, create, delete);
    var w1 := Searched(w);
    if req.size > 0 && HostKey.Key(req.hosts).Some? {
      var a := Admit(w1.c, req, HostKey.Key(req.hosts).value, cap);
      if a.Admitted? {
        PlaceOnlyMarks(w1, a.job, create, delete);
      }
    }
  }

  lemma PlaceOnlyMarks(w: World, job: Job, create: Faults, delete: Faults)
    requires CanPlace(Start(w), job) && DistinctSsus(w.c.pool) && Distinct(job.sel)
    ensures OnlyMarks(w.c.pool, Place(w, job, create, delete).0.c.pool)
  {
    PlaceFromOnlyMarks(Start(w), job, create);
    if Place(w, job, create, delete).1.status != OK {
      PlaceAllOrNothing(w, job, create, delete);
    }
  }

  lemma StepOnlyMarks(w: World, op: Op)
    requires WorldShaped(w) && Books(w.c) && !op.OpRefresh?
    ensures OnlyMarks(w.c.pool, Step(w, op).c.pool)
  {
    match op
    case OpAlloc(req, cap, create, delete) => AllocOnlyMarks(w, req, cap, create, delete);
    case OpRelease(id, deletes) => ReleaseFromOnlyMarks(w, id, 0, false, deletes);
    case OpMount(req, d, f) => MountCases(w, req, d, f);
    case OpUnmount(dev, d, f) => UnmountCases(w, dev, d, f);
  }

  predicate NoRefresh(ops: seq<Op>) { forall i :: 0 <= i < |ops| ==> !ops[i].OpRefresh? }

  lemma {:induction false} RunOnlyMarks(w: World, ops: seq<Op>)
    requires WorldShaped(w) && Books(w.c) && NoRefresh(ops)
    ensures OnlyMarks(w.c.pool, Run(w, ops).c.pool) && Books(Run(w, ops).c)
  {
    if ops != [] {
      var front := ops[..|ops| - 1];
      RunOnlyMarks(w, front);
      StepKeepsBooks(Run(w, front), ops[|ops| - 1]);
      StepOnlyMarks(Run(w, front), ops[|ops| - 1]);
    }
  }

  /** From a refresh to the next one, whatever happens in between, new extents go only
      to SSUs whose health check said ONLINE. */
  lemma UnhealthyTakesNothing(w: World, d: Discovery, health: map<string, string>, ops: seq<Op>, req: AllocReq,
      cap: Option<nat>, create: Faults, delete: Faults, x: nat)
    requires WorldShaped(w) && Books(w.c) && DistinctFound(d) && Refresh(w.c, d, health).1 == OK && NoRefresh(ops)
    requires var v := Run(Step(w, OpRefresh(d, health)), ops);
      && RowsOk(v.c) && v.c.nextId < TWO64 && req.size <= U64_MAX
      && (req.diskName == [] || !Has(v.c.rows, RowName, req.diskName))
      && Alloc(v, req, cap, create, delete).1.status == OK
      && FreshRow(v.c.rows, Alloc(v, req, cap, create, delete).0.c.rows, x)
    ensures var ssu := Alloc(Run(Step(w, OpRefresh(d, health)), ops), req, cap, create, delete).0.c.rows[x].value.ssuId;
      ssu in health && health[ssu] == "ONLINE"
  {
    var w1 := Step(w, OpRefresh(d, health));
    var v := Run(w1, ops);
    RefreshGives(w.c, d, health);
    RefreshKeepsBooks(w.c, d, health);
    RunOnlyMarks(w1, ops);
    AllocFills(v, req, cap, create, delete);
    var c2 := Alloc(v, req, cap, create, delete).0.c;
    var p: nat :| Took(v.c.pool, c2.pool, c2.rows[x].value, p);
    assert Refreshed(w.c, d, health, w1.c.pool[p]);
  }
}
