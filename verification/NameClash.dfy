/** A run of the API on which a disk name misleads the resolver. */
module NameClash {
  import opened Types
  import opened Tables
  import opened Decimal
  import opened ReqShimIface
  import opened ControllerState
  import opened Rollback
  import opened WireCommand
  import opened OneSsu
  import opened Resolver

  /** What discovery finds, with no refusals. */
  const Env: Environment := Environment(Discover.discovery, Discover.health, map[], map[])

  function Request(size: Uint64, name: string): ApiReq { ApiReq(size, 0, 1, 0, Some("t"), ["h"], Some(name)) }

  /** Finding the SSU again changes nothing. */
  lemma Rediscovered(w: World, used: nat, nextId: nat)
    requires Filled(w, used, nextId)
    ensures Step(w, Discover) == w && Refresh(w.c, Env.discovery, Env.health).1 == OK
  {
    var pool, found := w.c.pool, Discover.discovery.found;
    assert FindRes(pool, "s") == 0;
    assert CarryAll(pool, found, Discover.health)[0] == pool[0];
    assert CarryAll(pool, found, Discover.health) == pool;
    assert AppendMissing(pool, pool, 1, Discover.health) == Some(pool);
  }

  lemma BootDiscovers()
    ensures Refresh(Boot.c, Env.discovery, Env.health).1 == OK
  {}

  /** An API allocation there is a grant and a registration. */
  lemma ApiGranted(a: Api, w1: World, size: Uint64, name: string)
    requires ApiShaped(a) && IdsBelow(a.w.c) && a.w.c.nextId < TWO64
    requires w1 == Step(a.w, Discover) && Refresh(a.w.c, Env.discovery, Env.health).1 == OK
    requires size > 0 && FirstFree(a.slots) < |a.slots|
    requires Alloc(w1, AskFor(size, name), Some(MAX_ALLOCATIONS), map[], map[]).1.status == OK
    ensures var (w2, out) := Alloc(w1, AskFor(size, name), Some(MAX_ALLOCATIONS), map[], map[]);
      ApiAllocate(a, Request(size, name), Env) == (Register(a.(w := w2), out.id, name).0, Found(out.id))
  {
    var req := Request(size, name);
    assert AllocateCheck(req) == OK && ResourceReq(req) == AskFor(size, name);
    TwoPhaseIsOneCall(a.w, AskFor(size, name), Env);
  }

  const Ssu1: string := "/dev/ssu/ssu1"

  /** Allocate 1024 bytes under the name ssu1, then 512 bytes without a name. */
  function Misleading(): seq<ApiOp> { [Allocating(Request(1024, "ssu1"), Env), Allocating(Request(512, ""), Env)] }

  lemma Ssu1Valid()
    ensures NameValid("ssu1") && PrefixedU32("ssu1", DEV_PREFIX) == Some(1) && Basename(Ssu1) == "ssu1"
    ensures DEV_ROOT + "ssu1" == Ssu1 && Clip(Ssu1, PATH_SIZE) == Ssu1
  {
    DecOne();
    SsuIndex(1);
    assert DEV_ROOT + "ssu1" == Ssu1;
    NamedPath("ssu1");
  }

  lemma DecOne()
    ensures Dec(1) == "1" && DEV_PREFIX + Dec(1) == "ssu1" && ID_PREFIX + Dec(1) == "alloc-1"
  {}

  /** What such a call does when the SSU has room. */
  lemma Called(a: Api, w1: World, used: nat, nextId: nat, size: Uint64, name: string) returns (w2: World, row: Row)
    requires ApiShaped(a) && IdsBelow(a.w.c) && a.w.c.nextId < TWO64 && FirstFree(a.slots) < |a.slots|
    requires w1 == Step(a.w, Discover) && Refresh(a.w.c, Env.discovery, Env.health).1 == OK
    requires Filled(w1, used, nextId) && nextId < 100 && w1.m.nextNs < 100 && used % SECTOR == 0
    requires 0 < size as nat <= TOTAL - used && FirstFree(w1.c.rows) < |w1.c.rows|
    requires name == [] || (NameValid(name) && !Has(w1.c.rows, RowName, name))
    ensures Filled(w2, used + size as nat, nextId + 1) && w2.m.nextNs == w1.m.nextNs + 1
    ensures w2.c.rows == Put(w1.c.rows, row)
    ensures row.allocId == Numbered(ID_PREFIX, nextId) && row.diskName == name
    ensures ApiStep(a, Allocating(Request(size, name), Env))
      == Register(a.(w := w2), Numbered(ID_PREFIX, nextId), name).0
  {
    row := Granted(w1, used, nextId, size as nat, name);
    w2 := Alloc(w1, AskFor(size as nat, name), Some(MAX_ALLOCATIONS), map[], map[]).0;
    ApiGranted(a, w1, size, name);
  }

  lemma FirstGranted(id: string, name: string) returns (w: World, row: Row)
    requires NameValid(name) && id == Numbered(ID_PREFIX, 0)
    ensures ApiStep(BootApi, Allocating(Request(1024, name), Env)) == Register(BootApi.(w := w), id, name).0
    ensures Filled(w, 1024, 1) && w.m.nextNs == 1 && w.c.rows == Boot.c.rows[0 := Some(row)]
    ensures row.allocId == id && row.diskName == name
  {
    BootDiscovers();
    DiscoveredFresh(name);
    w, row := Called(BootApi, Step(Boot, Discover), 0, 0, 1024, name);
  }

  lemma DiscoveredFresh(name: string)
    ensures var w := Step(Boot, Discover);
      && Filled(w, 0, 0) && w.c.rows == Boot.c.rows && FirstFree(w.c.rows) == 0 && !Has(w.c.rows, RowName, name)
      && w.m.nextNs == 0 && FirstFree(BootApi.slots) == 0
  {
    Discovered();
    HasSome(Step(Boot, Discover).c.rows, RowName, name);
  }

  /** After the first call alloc-0 is cached under /dev/ssu/ssu1. */
  lemma FirstCall() returns (a: Api, row: Row)
    ensures a == ApiStep(BootApi, Allocating(Request(1024, "ssu1"), Env)) && ApiShaped(a)
    ensures Filled(a.w, 1024, 1) && a.w.m.nextNs == 1 && a.w.c.rows == Boot.c.rows[0 := Some(row)]
    ensures row.allocId == "alloc-0" && row.diskName == "ssu1"
    ensures a.slots == BootApi.slots[0 := Some(Entry("alloc-0", Ssu1))]
  {
    var w;
    Ssu1Valid();
    FirstIds();
    w, row := FirstGranted("alloc-0", "ssu1");
    assert FirstFree(BootApi.slots) == 0;
    NewEntry(BootApi.(w := w), "alloc-0", "ssu1");
    a := Register(BootApi.(w := w), "alloc-0", "ssu1").0;
  }

  lemma NewEntry(a: Api, id: string, name: string)
    requires ApiShaped(a) && name != [] && FirstFree(a.slots) < |a.slots|
    requires forall i :: 0 <= i < |a.slots| ==> !Carries(a.slots[i], EntryId, id)
    ensures var b, path := Register(a, id, name).0, Clip(DEV_ROOT + name, PATH_SIZE);
      ApiShaped(b) && b.w == a.w && b.slots == a.slots[FirstFree(a.slots) := Some(Entry(id, path))]
  {}

  lemma SecondGranted(a: Api, row: Row) returns (w: World, row2: Row)
    requires ApiShaped(a) && Filled(a.w, 1024, 1) && a.w.m.nextNs == 1 && a.w.c.rows == Boot.c.rows[0 := Some(row)]
    requires FirstFree(a.slots) < |a.slots|
    ensures ApiStep(a, Allocating(Request(512, ""), Env)) == Register(a.(w := w), "alloc-1", "").0
    ensures w.c.rows == Boot.c.rows[0 := Some(row)][1 := Some(row2)] && row2.allocId == "alloc-1"
    ensures WorldShaped(w) && w.c.logdevs == Boot.c.logdevs && w.c.nextId == 2
  {
    FirstIds();
    Rediscovered(a.w, 1024, 1);
    assert FirstFree(a.w.c.rows) == 1;
    w, row2 := Called(a, a.w, 1024, 1, 512, "");
  }

  lemma SecondCall(a: Api, row: Row) returns (b: Api, row2: Row)
    requires ApiShaped(a) && Filled(a.w, 1024, 1) && a.w.m.nextNs == 1 && a.w.c.rows == Boot.c.rows[0 := Some(row)]
    requires a.slots == BootApi.slots[0 := Some(Entry("alloc-0", Ssu1))]
    ensures b == ApiStep(a, Allocating(Request(512, ""), Env)) && ApiShaped(b)
    ensures b.w.c.rows == Boot.c.rows[0 := Some(row)][1 := Some(row2)] && row2.allocId == "alloc-1"
    ensures b.w.c.logdevs == Boot.c.logdevs && b.w.c.nextId == 2 && b.slots[0] == Some(Entry("alloc-0", Ssu1))
  {
    assert a.slots[0] == Some(Entry("alloc-0", Ssu1)) && FirstFree(a.slots) == 1;
    var w;
    w, row2 := SecondGranted(a, row);
    KeepsOthers(a.(w := w), "alloc-1", "", 0);
    b := Register(a.(w := w), "alloc-1", "").0;
  }

  /** Registering one id leaves the entries of others. */
  lemma KeepsOthers(a: Api, id: string, name: string, i: nat)
    requires i < |a.slots| && a.slots[i].Some? && a.slots[i].value.requestId != id
    ensures Register(a, id, name).0.slots[i] == a.slots[i] && Register(a, id, name).0.w == a.w
  {}

  /** Two API calls from the start, and /dev/ssu/ssu1 is answered with alloc-0 from
      the cache, while its index says alloc-1 and that is active. The run meets all
      that ResolverAgrees asks for but the last condition. */
  lemma MisleadingRun()
    ensures CallsFit(Misleading()) && ApiRun(BootApi, Misleading()).w.c.nextId <= TWO32
    ensures var a := ApiRun(BootApi, Misleading());
      && Resolve(a, Ssu1).1 == Found("alloc-0") && Lookup(a.w.c.rows, Basename(Ssu1)) == Found("alloc-1")
      && !NoneMisled(a.w.c)
  {
    MisleadingFits();
    var a, row, row2 := AfterBoth();
    Answers(a, row, row2);
  }

  lemma MisleadingFits()
    ensures CallsFit(Misleading())
  {
    Discovered();
  }

  lemma AfterBoth() returns (b: Api, row: Row, row2: Row)
    ensures b == ApiRun(BootApi, Misleading())
    ensures b.w.c.rows == Boot.c.rows[0 := Some(row)][1 := Some(row2)] && b.w.c.logdevs == Boot.c.logdevs
    ensures b.w.c.nextId == 2
    ensures row.allocId == "alloc-0" && row.diskName == "ssu1" && row2.allocId == "alloc-1"
    ensures |b.slots| > 0 && b.slots[0] == Some(Entry("alloc-0", Ssu1))
  {
    var a;
    a, row := FirstCall();
    b, row2 := SecondCall(a, row);
    RunOne(Allocating(Request(1024, "ssu1"), Env), a);
    RunTwo(Allocating(Request(1024, "ssu1"), Env), Allocating(Request(512, ""), Env), a, b);
  }

  lemma RunOne(x: ApiOp, a: Api)
    requires ApiStep(BootApi, x) == a
    ensures ApiRun(BootApi, [x]) == a
  {
    LastCall(BootApi, [x], [], x);
  }

  lemma RunTwo(x: ApiOp, y: ApiOp, a: Api, b: Api)
    requires ApiRun(BootApi, [x]) == a && ApiStep(a, y) == b
    ensures ApiRun(BootApi, [x, y]) == b
  {
    LastCall(BootApi, [x, y], [x], y);
  }

  lemma Answers(a: Api, row: Row, row2: Row)
    requires |a.slots| > 0 && a.slots[0] == Some(Entry("alloc-0", Ssu1)) && a.w.c.logdevs == Boot.c.logdevs
    requires a.w.c.rows == Boot.c.rows[0 := Some(row)][1 := Some(row2)]
    requires row.allocId == "alloc-0" && row.diskName == "ssu1" && row2.allocId == "alloc-1"
    ensures Resolve(a, Ssu1).1 == Found("alloc-0") && Lookup(a.w.c.rows, Basename(Ssu1)) == Found("alloc-1")
    ensures !NoneMisled(a.w.c)
  {
    Ssu1Valid();
    DecOne();
    SlotHas(a.w.c.rows, 0, "alloc-0");
    SlotHas(a.w.c.rows, 1, "alloc-1");
    CachedPathWins(a, "alloc-0", Ssu1);
    assert a.w.c.rows[0] == Some(row) && Clashes(a.w.c.rows, "ssu1", "alloc-0");
  }
}
