/** A pool of one SSU, step by step from the empty stack: the runs that show where a
    general claim fails. */
module OneSsu {
  import opened Types
  import opened Tables
  import opened Decimal
  import opened ReqShimIface
  import opened MockState
  import opened Placement
  import opened ControllerState
  import opened Ledger
  import opened Rollback
  import opened Grants
  import opened MountMirror
  import opened Agreement
  import opened EndToEnd
  import opened Tiling
  import HostKey

  const TOTAL: nat := 4096

  /** Discovery finds an empty SSU. */
  const Discover: Op := OpRefresh(Discovery(OK, [Resource("s", TOTAL, 0, "ONLINE", "h")]), map["s" := "ONLINE"])

  function AskFor(size: nat, name: string): AllocReq { AllocReq(size, name, 1, STRIPE, EXCLUSIVE, "t", ["h"]) }

  function Grant(size: nat, name: string): Op { OpAlloc(AskFor(size, name), Some(MAX_ALLOCATIONS), map[], map[]) }

  /** The SSU is online, filled up to used, and everything the stack keeps holds. */
  ghost predicate Filled(w: World, used: nat, nextId: nat) {
    && StackInv(w)
    && |w.c.pool| == 1 && w.c.pool[0] == Resource("s", TOTAL, used, "ONLINE", "h")
    && w.c.logdevs == Boot.c.logdevs && w.c.nextId == nextId
  }

  lemma Discovered()
    ensures Filled(Step(Boot, Discover), 0, 0) && Step(Boot, Discover).c.rows == Boot.c.rows
    ensures Tiled(Step(Boot, Discover).c)
    ensures StepFits(Discover)
  {
    BootsInStep();
    var found := Discover.discovery.found;
    assert CarryAll([], found, Discover.health)[0] == found[0];
    assert Tiled(Boot.c);
    StackStep(Boot, Discover);
    RefreshKeepsTiled(Boot.c, Discover.discovery, Discover.health);
  }

  /** One step of RunKeepsStack. */
  lemma StackStep(w: World, op: Op)
    requires StackInv(w) && StepFits(op) && KeepsKernelInStep(w, op) && NoDeleteRefused(op)
    requires Step(w, op).c.nextId < TWO64 && Step(w, op).m.nextNs < TWO64
    ensures StackInv(Step(w, op))
  {
    NextIdGrows(w, op);
    NextNsGrows(w, op);
    StepKeepsBooks(w, op);
    StepKeepsRowsOk(w, op);
    StepKeepsMirror(w, op);
    StepKeepsAgreement(w, op);
    StepKeepsWired(w, op);
  }

  lemma OneHost()
    ensures HostKey.Key(["h"]) == Some("h")
  {
    assert ["h"][..0] == [];
    assert HostKey.Sort(["h"]) == ["h"];
  }

  /** The one SSU is chosen for the one extent. */
  lemma OneChosen(c: Ctl, req: AllocReq, size: nat)
    requires |c.pool| == 1 && Online(c.pool[0]) && size > 0 && Room(c.pool[0], size) && FreeCount(c.rows) > 0
    requires req.size == size && req.diskCount == 1
    ensures Admit(c, req, "h", Some(MAX_ALLOCATIONS))
         == Admitted(Job(Numbered(ID_PREFIX, c.nextId), req, "h", [0], size, 0))
  {
    OnlyOnline(c.pool);
    OnlySelected(c.pool, size);
  }

  lemma OnlyOnline(pool: seq<Resource>)
    requires |pool| == 1 && Online(pool[0])
    ensures OnlineIndexes(pool) == [0]
  {
    assert pool[..0] == [];
  }

  lemma OnlySelected(pool: seq<Resource>, size: nat)
    requires |pool| == 1 && Room(pool[0], size)
    ensures Select(pool, [0], size, 0, 1) == Some([0])
  {
    assert Suits(pool, 0, [], size);
    assert FirstFit(pool, [0], [], size) == 0;
    assert ExtentLen(size, 0, 0) == size && Select(pool, [0], size, 0, 0) == Some([]);
    assert [] + [[0][0]] == [0];
  }

  /** A request of whole sectors that fits is granted the next bytes of the SSU, in
      the first free row. */
  lemma Granted(w: World, used: nat, nextId: nat, size: nat, name: string) returns (row: Row)
    requires Filled(w, used, nextId) && nextId < 100 && w.m.nextNs < 100 && used % SECTOR == 0
    requires 0 < size <= TOTAL - used && FirstFree(w.c.rows) < |w.c.rows|
    requires name == [] || (NameValid(name) && !Has(w.c.rows, RowName, name))
    ensures var (w2, out) := Alloc(w, AskFor(size, name), Some(MAX_ALLOCATIONS), map[], map[]);
      && out.status == OK && out.id == Numbered(ID_PREFIX, nextId)
      && w2 == Step(w, Grant(size, name)) && Filled(w2, used + size, nextId + 1) && w2.m.nextNs == w.m.nextNs + 1
      && w2.c.rows == Put(w.c.rows, row)
    ensures row.allocId == Numbered(ID_PREFIX, nextId) && row.diskName == name && row.ssuId == "s"
    ensures StartByte(row) == used && EndByte(row) == used + size && row.off == 0
    ensures row.nsId == Numbered(NS_PREFIX, w.m.nextNs) && StepFits(Grant(size, name))
  {
    var req := AskFor(size, name);
    var job := Job(Numbered(ID_PREFIX, nextId), req, "h", [0], size, 0);
    OneHost();
    FreeCountPositive(w.c.rows);
    SearchIsImmediate(w);
    OneChosen(w.c, req, size);
    AdmittedPlaces(w, req, "h", job);
    row := OnePlaced(w, job);
    StackStep(w, Grant(size, name));
  }

  lemma AdmittedPlaces(w: World, req: AllocReq, key: string, job: Job)
    requires WorldShaped(w) && Searched(w) == w && req.reliability == STRIPE && req.size > 0
    requires HostKey.Key(req.hosts) == Some(key) && Admit(w.c, req, key, Some(MAX_ALLOCATIONS)) == Admitted(job)
    requires req.diskName == [] || (NameValid(req.diskName) && !Has(w.c.rows, RowName, req.diskName))
    ensures Alloc(w, req, Some(MAX_ALLOCATIONS), map[], map[]) == Place(w, job, map[], map[])
  {}

  lemma OnePlaced(w: World, job: Job) returns (row: Row)
    requires WorldShaped(w) && Twin(w.c.rows, w.m.nss) && |w.c.pool| == 1 && w.c.pool[0].used % SECTOR == 0
    requires FreeCount(w.c.rows) > 0 && FirstFree(w.c.rows) < |w.c.rows| && job.sel == [0] && job.rem == 0
    ensures var (w2, out) := Place(w, job, map[], map[]);
      && out.status == OK && out.id == job.id
      && w2.c == w.c.(rows := Put(w.c.rows, row), nextId := w.c.nextId + 1,
                      pool := [w.c.pool[0].(used := w.c.pool[0].used + job.base)])
      && w2.m.nextNs == w.m.nextNs + 1
    ensures row.allocId == job.id && row.diskName == job.req.diskName && row.ssuId == w.c.pool[0].ssuId
    ensures StartByte(row) == w.c.pool[0].used && EndByte(row) == w.c.pool[0].used + job.base
    ensures row.off == 0 && row.nsId == Numbered(NS_PREFIX, w.m.nextNs)
  {
    TwinFree(w.c.rows, w.m.nss);
    var s := Start(w);
    row := NewRow(job, RequestFor(w.c.pool, job, 0, 0), Numbered(NS_PREFIX, w.m.nextNs), 0);
    assert NextStatus(s, job, map[]) == OK;
    OneRound(s, job);
    OneRow(s, job, row);
  }

  lemma OneRound(s: Placing, job: Job)
    requires CanPlace(s, job) && s.i == 0 && |job.sel| == 1 && NextStatus(s, job, map[]) == OK
    ensures PlaceFrom(s, job, map[]) == (Advance(s, job), OK)
  {
    var s1 := Advance(s, job);
    assert PlaceFrom(s1, job, map[]) == (s1, OK);
  }

  lemma OneRow(s: Placing, job: Job, row: Row)
    requires CanPlace(s, job) && s.i == 0 && s.off == 0 && job.sel == [0] && job.rem == 0 && |s.w.c.pool| == 1
    requires row == NewRow(job, RequestFor(s.w.c.pool, job, 0, 0), Numbered(NS_PREFIX, s.w.m.nextNs), 0)
    requires FirstFree(s.w.c.rows) < |s.w.c.rows| && FirstFree(s.w.m.nss) < |s.w.m.nss|
    ensures var w1 := Advance(s, job).w;
      && w1.c == s.w.c.(rows := Put(s.w.c.rows, row),
                        pool := [s.w.c.pool[0].(used := s.w.c.pool[0].used + job.base)])
      && w1.m.nextNs == s.w.m.nextNs + 1
  {}

  // ---- a run on which two active extents overlap ----

  lemma FirstIds()
    ensures Numbered(ID_PREFIX, 0) == "alloc-0" && Numbered(ID_PREFIX, 1) == "alloc-1"
    ensures Numbered(ID_PREFIX, 2) == "alloc-2"
  {
    NumberedSmall(ID_PREFIX, 0);
    NumberedSmall(ID_PREFIX, 1);
    NumberedSmall(ID_PREFIX, 2);
  }

  lemma RunNext(w: World, ops: seq<Op>, op: Op)
    requires WorldShaped(w)
    ensures Run(w, ops + [op]) == Step(Run(w, ops), op)
  {
    assert (ops + [op])[..|ops|] == ops;
  }

  lemma RunThree(a: Op, b: Op, c: Op)
    ensures Run(Boot, [a, b, c]) == Step(Step(Step(Boot, a), b), c)
  {
    assert Run(Boot, []) == Boot;
    assert [] + [a] == [a] && [a] + [b] == [a, b] && [a, b] + [c] == [a, b, c];
    RunNext(Boot, [], a);
    RunNext(Boot, [a], b);
    RunNext(Boot, [a, b], c);
  }

  lemma RunFive(a: Op, b: Op, c: Op, d: Op, e: Op)
    ensures Run(Boot, [a, b, c, d, e]) == Step(Step(Step(Step(Step(Boot, a), b), c), d), e)
  {
    RunThree(a, b, c);
    assert [a, b, c] + [d] == [a, b, c, d] && [a, b, c, d] + [e] == [a, b, c, d, e];
    RunNext(Boot, [a, b, c], d);
    RunNext(Boot, [a, b, c, d], e);
  }

  /** A first extent of 1024 bytes. */
  lemma FirstGrant(name: string) returns (w: World, a: Row)
    requires name == [] || NameValid(name)
    ensures w == Step(Step(Boot, Discover), Grant(1024, name))
    ensures Filled(w, 1024, 1) && Tiled(w.c) && w.m.nextNs == 1 && w.c.rows == Boot.c.rows[0 := Some(a)]
    ensures a.allocId == "alloc-0" && a.diskName == name && a.ssuId == "s" && StartByte(a) == 0 && EndByte(a) == 1024
    ensures a.off == 0 && a.nsId == Numbered(NS_PREFIX, 0)
    ensures StepFits(Discover) && StepFits(Grant(1024, name))
  {
    Discovered();
    FirstIds();
    var w1 := Step(Boot, Discover);
    HasSome(w1.c.rows, RowName, name);
    a := Granted(w1, 0, 0, 1024, name);
    GrantKeepsTiled(w1, 1024, name);
    w := Step(w1, Grant(1024, name));
  }

  /** And a second one of 512 bytes behind it, without a name. */
  lemma SecondGrant(w: World, a: Row) returns (b: Row)
    requires Filled(w, 1024, 1) && Tiled(w.c) && w.m.nextNs == 1 && w.c.rows == Boot.c.rows[0 := Some(a)]
    ensures var w2 := Step(w, Grant(512, ""));
      Filled(w2, 1536, 2) && Tiled(w2.c) && w2.m.nextNs == 2 && w2.c.rows == Boot.c.rows[0 := Some(a)][1 := Some(b)]
    ensures b.allocId == "alloc-1" && b.diskName == "" && b.ssuId == "s" && StartByte(b) == 1024 && EndByte(b) == 1536
    ensures b.off == 0 && b.nsId == Numbered(NS_PREFIX, 1)
  {
    FirstIds();
    SecondFree(w.c.rows, a);
    b := Granted(w, 1024, 1, 512, "");
    GrantKeepsTiled(w, 512, "");
  }

  lemma SecondFree(rows: Rows, a: Row)
    requires rows == Boot.c.rows[0 := Some(a)]
    ensures FirstFree(rows) == 1
  {}

  lemma GrantKeepsTiled(w: World, size: nat, name: string)
    requires StackInv(w) && Tiled(w.c)
    ensures Tiled(Step(w, Grant(size, name)).c)
  {
    AllocKeepsTiled(w, AskFor(size, name), Some(MAX_ALLOCATIONS), map[], map[]);
  }

  const Free0: Op := OpRelease("alloc-0", map[])

  lemma {:induction false} NothingLeft(w: World, id: string, i: nat, found: bool)
    requires i <= |w.c.rows| && forall j :: i <= j < |w.c.rows| ==> !Carries(w.c.rows[j], RowId, id)
    ensures ReleaseFrom(w, id, i, found, map[]) == (w, OK, found)
    decreases |w.c.rows| - i
  {
    if i < |w.c.rows| { NothingLeft(w, id, i + 1, found); }
  }

  /** Releasing the first of the two buries nothing new, but lowers the mark to 512
      below the extent that stays. */
  lemma Released0(w: World, a: Row, b: Row)
    requires Filled(w, 1536, 2) && w.c.rows == Boot.c.rows[0 := Some(a)][1 := Some(b)]
    requires a.allocId == "alloc-0" && a.ssuId == "s" && a.len == 1024 && b.allocId == "alloc-1"
    requires w.m.nextNs == 2
    ensures var w2 := Step(w, Free0);
      Filled(w2, 512, 2) && w2.m.nextNs == 2 && w2.c.rows == Boot.c.rows[1 := Some(b)]
  {
    var u := UndoOne(w, 0, OK);
    ReleasedAtOnce(w, a, b, "alloc-0", u);
    StackStep(w, Free0);
  }

  lemma ReleasedAtOnce(w: World, a: Row, b: Row, id: string, u: World)
    requires Agrees(w) && w.c.rows == Boot.c.rows[0 := Some(a)][1 := Some(b)]
    requires a.allocId == id && b.allocId != id && u == UndoOne(w, 0, OK)
    ensures u.c.rows == Boot.c.rows[1 := Some(b)] && ReleaseFrom(w, id, 0, false, map[]) == (u, OK, true)
  {
    assert w.c.rows[0] == Some(a);
    assert u.c.rows == Boot.c.rows[1 := Some(b)];
    FirstReleased(w, id, u);
    NothingLeft(u, id, 1, true);
  }

  lemma FirstReleased(w: World, id: string, u: World)
    requires Agrees(w) && |w.c.rows| > 0 && Carries(w.c.rows[0], RowId, id) && u == UndoOne(w, 0, OK)
    ensures ReleaseFrom(w, id, 0, false, map[]) == ReleaseFrom(u, id, 1, true, map[])
  {
    DeleteHitsTwin(w, 0);
  }

  function RunWith(size: nat): seq<Op> { [Discover, Grant(1024, ""), Grant(512, ""), Free0, Grant(size, "")] }

  lemma GrantAfterRelease(w: World, b: Row, size: nat) returns (c: Row)
    requires Filled(w, 512, 2) && w.m.nextNs == 2 && w.c.rows == Boot.c.rows[1 := Some(b)] && 0 < size <= 1024
    ensures var w2 := Step(w, Grant(size, ""));
      && w2.c.rows == Boot.c.rows[1 := Some(b)][0 := Some(c)] && Filled(w2, 512 + size, 3) && w2.m.nextNs == 3
    ensures c.ssuId == "s" && StartByte(c) == 512 && EndByte(c) == 512 + size
    ensures c.allocId == "alloc-2" && c.off == 0 && c.nsId == Numbered(NS_PREFIX, 2)
  {
    FirstIds();
    assert FirstFree(w.c.rows) == 0;
    c := Granted(w, 512, 2, size, "");
  }

  /** After the release an extent of size bytes goes from 512 on, while the bytes
      from 1024 to 1536 are still taken. */
  lemma AfterRelease(size: nat) returns (b: Row, c: Row)
    requires 0 < size <= 1024
    ensures var w := Run(Boot, RunWith(size));
      && w.c.rows == Boot.c.rows[1 := Some(b)][0 := Some(c)] && Filled(w, 512 + size, 3) && w.m.nextNs == 3
    ensures b.ssuId == c.ssuId == "s" && StartByte(b) == 1024 && EndByte(b) == 1536
    ensures StartByte(c) == 512 && EndByte(c) == 512 + size
    ensures b.allocId == "alloc-1" && b.off == 0 && b.nsId == Numbered(NS_PREFIX, 1)
    ensures c.allocId == "alloc-2" && c.off == 0 && c.nsId == Numbered(NS_PREFIX, 2)
  {
    var w, a := FirstGrant("");
    b := SecondGrant(w, a);
    var w2 := Step(w, Grant(512, ""));
    Released0(w2, a, b);
    c := GrantAfterRelease(Step(w2, Free0), b, size);
    RunFive(Discover, Grant(1024, ""), Grant(512, ""), Free0, Grant(size, ""));
  }

  /** Allocate 1024 and 512 bytes, release the first, allocate again: the active
      extents share bytes exactly when the last request is for more than 512. */
  lemma OverlapRun(size: nat)
    requires 0 < size <= 1024
    ensures PairwiseApart(Run(Boot, RunWith(size)).c.rows) <==> size <= 512
    ensures RunFits(RunWith(size))
  {
    var b, c := AfterRelease(size);
    SlotsOverlap(Run(Boot, RunWith(size)).c.rows, b, c);
    RunWithFits(size);
  }

  lemma RunWithFits(size: nat)
    ensures RunFits(RunWith(size))
  {
    FitFive(Discover, Grant(1024, ""), Grant(512, ""), Free0, Grant(size, ""));
  }

  lemma FitFive(a: Op, b: Op, c: Op, d: Op, e: Op)
    requires StepFits(a) && StepFits(b) && StepFits(c) && StepFits(d) && StepFits(e)
    ensures RunFits([a, b, c, d, e])
  {}

  lemma SlotsOverlap(rows: Rows, b: Row, c: Row)
    requires rows == Boot.c.rows[1 := Some(b)][0 := Some(c)] && b.ssuId == c.ssuId
    ensures PairwiseApart(rows) <==> Apart(c, b)
  {
    assert rows[0] == Some(c) && rows[1] == Some(b);
  }
}
