/** Runs from the empty stack that mount devices: one that reaches a mounted device,
    one whose stray unmount kills it, and one where two devices share a sector. */
module MountRuns {
  import opened Types
  import opened Tables
  import opened Decimal
  import opened KernelState
  import opened ReqShimIface
  import opened MockState
  import opened ControllerState
  import opened Ledger
  import opened Grants
  import opened MountMirror
  import opened Agreement
  import opened Tiling
  import opened EndToEnd
  import opened Mounting
  import opened Isolation
  import opened OneSsu

  const Names: Devices := Connections(map["s" := "nvme0"], NOT_FOUND)

  const Calm: KernelFaults := KernelFaults(CTL_PRESENT, EOK, None)

  function MountAt(id: string, dev: string): Op { OpMount(MountReq(id, "h", dev), Names, Calm) }

  lemma OnePiece(rows: Rows, x: nat, id: string)
    requires x < |rows| && Carries(rows[x], RowId, id)
    requires forall y :: 0 <= y < |rows| && y != x ==> !Carries(rows[y], RowId, id)
    ensures PiecesOfId(rows, id) == [RowPiece(rows[x].value)]
  {
    PickSplit(rows, x, rows[x], RowId, RowPiece, id);
    PickNone(rows[..x], RowId, RowPiece, id);
    PickNone(rows[x + 1..], RowId, RowPiece, id);
    HasSome(rows[..x], RowId, id);
    HasSome(rows[x + 1..], RowId, id);
  }

  /** Row x is the only one of id, which is alloc-n: whole sectors on the SSU, under a
      small namespace number k. */
  predicate OnlyRow(rows: Rows, id: string, n: nat, x: nat, k: nat) {
    && id == Numbered(ID_PREFIX, n) && x < |rows| && Carries(rows[x], RowId, id)
    && (forall y :: 0 <= y < |rows| && y != x ==> !Carries(rows[y], RowId, id))
    && n < 100 && k < 100 && rows[x].value.nsId == Numbered(NS_PREFIX, k)
    && rows[x].value.ssuId == "s" && rows[x].value.off == 0 && rows[x].value.len > 0 && rows[x].value.len % SECTOR == 0
  }

  /** What the controller and the kernel ask of such a mount. */
  predicate CanMount(w: World, id: string, n: nat, dev: string) {
    && dev != [] && DiskNameOk(dev) && FreeCount(w.c.logdevs) > 0 && !Live(w.k, n)
    && !Has(w.c.logdevs, LogdevDev, dev) && !Has(w.c.logdevs, LogdevId, id)
  }

  lemma SmallMinor(n: nat, dev: string)
    requires n < 100
    ensures MinorOf(Numbered(ID_PREFIX, n), dev) == Some(n) && Numbered(ID_PREFIX, n) != []
  {
    NumberedSmall(ID_PREFIX, n);
    PrefixIsMinor(Numbered(ID_PREFIX, n), dev, n);
  }

  lemma OneRowMountable(w: World, id: string, n: nat, x: nat, k: nat, dev: string)
    requires OnlyRow(w.c.rows, id, n, x, k) && CanMount(w, id, n, dev)
    ensures MountCheck(w.c, MountReq(id, "h", dev), Names) == OK && Mountable(w, MountReq(id, "h", dev), Names)
  {
    SmallMinor(n, dev);
    OnePiece(w.c.rows, x, id);
    NamespaceNumber(k);
  }

  /** w2 is w with id mounted under dev. */
  ghost predicate MountedNow(w: World, w2: World, id: string, dev: string) {
    && StackInv(w2) && Mounted(w.c.logdevs, w2.c.logdevs, MountReq(id, "h", dev)) && Has(w2.c.logdevs, LogdevId, id)
    && w2.c.rows == SetState(w.c.rows, id, MOUNTED)
    && w2.c.nextId == w.c.nextId && w2.m.nextNs == w.m.nextNs
    && FreeCount(w2.c.logdevs) == FreeCount(w.c.logdevs) - 1
  }

  lemma MountOpIs(w: World, req: MountReq, w2: World)
    requires StackInv(w) && MountCheck(w.c, req, Names) == OK && MountOp(w, req, Names, Calm) == (w2, OK)
    ensures Mounted(w.c.logdevs, w2.c.logdevs, req) && Has(w2.c.logdevs, LogdevId, req.allocId)
    ensures w2.c.rows == SetState(w.c.rows, req.allocId, MOUNTED)
    ensures w2.c.nextId == w.c.nextId && w2.m.nextNs == w.m.nextNs
    ensures FreeCount(w2.c.logdevs) == FreeCount(w.c.logdevs) - |PiecesOfId(w.c.rows, req.allocId)|
  {
    PickNone(w.c.rows, RowId, RowPiece, req.allocId);
    MountRows(w.c.logdevs, req, PiecesOfId(w.c.rows, req.allocId), Names);
    MountKeepsNextNs(w, req, Names, Calm);
  }

  /** So it is mounted. */
  lemma Mounts(w: World, id: string, n: nat, x: nat, k: nat, dev: string)
    requires StackInv(w) && OnlyRow(w.c.rows, id, n, x, k) && CanMount(w, id, n, dev)
    requires w.c.nextId < 100 && w.m.nextNs < 100
    ensures MountedNow(w, Step(w, MountAt(id, dev)), id, dev)
  {
    var req := MountReq(id, "h", dev);
    var w2 := MountOp(w, req, Names, Calm).0;
    OneRowMountable(w, id, n, x, k, dev);
    MountSucceedsIff(w, req, Names, Calm);
    OnePiece(w.c.rows, x, id);
    MountOpIs(w, req, w2);
    MountStackStep(w, MountAt(id, dev), w2);
  }

  lemma MountStackStep(w: World, op: Op, w2: World)
    requires StackInv(w) && op.OpMount? && op.devices == Names && op.faults == Calm
    requires w2 == MountOp(w, op.mount, Names, Calm).0 && w2.c.nextId < TWO64 && w2.m.nextNs < TWO64
    ensures Step(w, op) == w2 && StackInv(w2)
  {
    StackStep(w, op);
  }

  // ---- a run that reaches a mounted device ----

  function Mounting0(): seq<Op> { [Discover, Grant(1024, ""), MountAt("alloc-0", "/x")] }

  lemma EmptyDevices(logdevs: Logdevs)
    requires logdevs == Boot.c.logdevs
    ensures FreeCount(logdevs) == MAX_DEVICES
    ensures forall k: string :: !Has(logdevs, LogdevDev, k) && !Has(logdevs, LogdevId, k)
  {
    AllFree(logdevs);
  }

  lemma {:induction false} AllFree(logdevs: Logdevs)
    requires forall i :: 0 <= i < |logdevs| ==> logdevs[i].None?
    ensures FreeCount(logdevs) == |logdevs|
  {
    if logdevs != [] { AllFree(logdevs[..|logdevs| - 1]); }
  }

  lemma NothingLive(w: World)
    requires StackInv(w) && w.c.logdevs == Boot.c.logdevs
    ensures forall minor: nat :: !Live(w.k, minor)
  {
    assert forall minor: nat :: !SomeMinor(w.c.logdevs, minor);
  }

  lemma SlashName(dev: string, base: string)
    requires dev == "/" + base && base != [] && '/' !in base && |base| <= MAX_DISK_NAME && DiskNameChars(base)
    ensures DiskNameOk(dev)
  {
    BasenameOf("/", base);
  }

  /** One allocation, mounted: the hypotheses of the theorems about mounted devices
      are met by a run. */
  lemma MountedRun() returns (w: World, i: nat)
    ensures w == Run(Boot, Mounting0()) && StackInv(w) && OnlyDevice(w.c.logdevs, i, "alloc-0", "/x")
    ensures AllQuiet(Mounting0()) && InStepRun(Boot, Mounting0()) && w.c.nextId == 1 && w.m.nextNs == 1
  {
    var w0, a := FirstGrant("");
    FirstIds();
    w, i := FirstMount(w0, a, "alloc-0", "/x");
    RunThree(Discover, Grant(1024, ""), MountAt("alloc-0", "/x"));
    Mounting0Quiet();
  }

  lemma Mounting0Quiet()
    ensures AllQuiet(Mounting0()) && InStepRun(Boot, Mounting0())
  {
    QuietThree(Discover, Grant(1024, ""), MountAt("alloc-0", "/x"));
  }

  /** What the theorems over runs ask of each operation. */
  predicate Quiet(op: Op) { StepFits(op) && NoDeleteRefused(op) && SizeFits(op) }

  predicate AllQuiet(ops: seq<Op>) { RunFits(ops) && forall i :: 0 <= i < |ops| ==> Quiet(ops[i]) }

  lemma QuietThree(a: Op, b: Op, c: Op)
    requires Quiet(a) && Quiet(b) && Quiet(c) && CalmOp(a) && CalmOp(b) && CalmOp(c)
    ensures AllQuiet([a, b, c]) && InStepRun(Boot, [a, b, c])
  {
    CalmInStep(Boot, [a, b, c]);
  }

  lemma QuietFive(a: Op, b: Op, c: Op, d: Op, e: Op)
    requires Quiet(a) && Quiet(b) && Quiet(c) && Quiet(d) && Quiet(e)
    ensures AllQuiet([a, b, c, d, e])
  {}

  /** Without unmounts nothing can get out of step. */
  lemma {:induction false} CalmInStep(w: World, ops: seq<Op>)
    requires WorldShaped(w) && forall i :: 0 <= i < |ops| ==> CalmOp(ops[i])
    ensures InStepRun(w, ops)
  {
    if ops != [] { CalmInStep(w, ops[..|ops| - 1]); }
  }

  predicate CalmOp(op: Op) { !op.OpUnmount? && (op.OpMount? ==> op.devices == Names && op.faults == Calm) }

  /** Row i is a device row of id, and all device rows are of that device. */
  predicate OnlyDevice(logdevs: Logdevs, i: nat, id: string, dev: string) {
    && i < |logdevs| && logdevs[i].Some? && logdevs[i].value.allocId == id
    && forall j :: 0 <= j < |logdevs| && logdevs[j].Some? ==> logdevs[j].value.dev == dev
  }

  lemma FirstMount(w0: World, a: Row, id: string, dev: string) returns (w: World, i: nat)
    requires Filled(w0, 1024, 1) && w0.m.nextNs == 1 && w0.c.rows == Boot.c.rows[0 := Some(a)] && dev == "/x"
    requires id == Numbered(ID_PREFIX, 0) == a.allocId && a.ssuId == "s" && a.off == 0 && a.len == 1024
    requires a.nsId == Numbered(NS_PREFIX, 0)
    ensures w == Step(w0, MountAt(id, dev)) && StackInv(w) && OnlyDevice(w.c.logdevs, i, id, dev)
    ensures w.c.nextId == 1 && w.m.nextNs == 1
  {
    EmptyDevices(w0.c.logdevs);
    NothingLive(w0);
    SlashName(dev, "x");
    assert w0.c.rows[0] == Some(a);
    Mounts(w0, id, 0, 0, 0, dev);
    w := Step(w0, MountAt(id, dev));
    i := NewDevice(w.c.logdevs, id, dev);
  }

  lemma NewDevice(logdevs: Logdevs, id: string, dev: string) returns (i: nat)
    requires Has(logdevs, LogdevId, id) && Mounted(Boot.c.logdevs, logdevs, MountReq(id, "h", dev))
    ensures OnlyDevice(logdevs, i, id, dev)
  {
    i := Find(logdevs, LogdevId, id);
    assert Carries(logdevs[i], LogdevId, id);
  }

  // ---- a run on which a stray unmount kills a mounted device ----

  function Straying(): seq<Op> { Mounting0() + [OpUnmount("/dev/ssu/ssu0", Names, Calm)] }

  /** alloc-0 is mounted under /x; unmounting /dev/ssu/ssu0, which nobody mounted, is
      reported as done, and /x keeps its row but reaches no sector any more. */
  lemma StrayRun() returns (i: nat)
    ensures var w, w2 := Run(Boot, Mounting0()), Run(Boot, Straying());
      && i < |w2.c.logdevs| && w2.c.logdevs[i].Some? && w2.c.logdevs[i].value.dev == "/x"
      && UnmountOp(w, "/dev/ssu/ssu0", Names, Calm) == (w2, OK)
      && MinorOf("alloc-0", "/x") == Some(0) && Live(w.k, 0) && !Live(w2.k, 0) && !Wired(w2.c.logdevs, w2.k)
      && forall s: nat :: Translate(w2.k.maps, 0, s) == Miss(ENOENT)
  {
    var w;
    w, i := MountedRun();
    ZeroMinor();
    StrayAt(w, i);
    StrayStep(w, "/dev/ssu/ssu0");
    RunNext(Boot, Mounting0(), OpUnmount("/dev/ssu/ssu0", Names, Calm));
  }

  lemma StrayStep(w: World, dev: string)
    requires WorldShaped(w)
    ensures Step(w, OpUnmount(dev, Names, Calm)) == UnmountOp(w, dev, Names, Calm).0
  {}

  lemma ZeroMinor()
    ensures MinorOf("alloc-0", "/x") == Some(0)
  {
    FirstIds();
    SmallMinor(0, "/x");
  }

  lemma StrayAt(w: World, i: nat)
    requires StackInv(w) && OnlyDevice(w.c.logdevs, i, "alloc-0", "/x")
    ensures var (w2, st) := UnmountOp(w, "/dev/ssu/ssu0", Names, Calm);
      && st == OK && w2.c == w.c && Live(w.k, 0) && !Live(w2.k, 0) && !Wired(w2.c.logdevs, w2.k)
      && forall s: nat :: Translate(w2.k.maps, 0, s) == Miss(ENOENT)
  {
    FirstIds();
    StrayName();
    HasSome(w.c.logdevs, LogdevDev, "/dev/ssu/ssu0");
    StrayUnmountKills(w, i, 0, "/dev/ssu", Names, Calm);
  }

  lemma StrayName()
    ensures "/dev/ssu" + "/" + (DEV_PREFIX + Dec(0)) == "/dev/ssu/ssu0"
  {}

  // ---- a run on which two devices share a sector ----

  function Sharing(): seq<Op> { RunWith(1024) + [MountAt("alloc-1", "/x")] + [MountAt("alloc-2", "/y")] }

  /** The overlapping allocations of OverlapRun, both mounted: their devices share a
      physical sector, although each translates its own sectors as it should. */
  lemma SharingRun()
    ensures var w := Run(Boot, Sharing());
      StackInv(w) && Ahead(w) && Named(w.c.rows, w.c.logdevs, Names) && !Isolated(w)
  {
    var b, c := AfterRelease(1024);
    var w0 := Run(Boot, RunWith(1024));
    var w1 := Step(w0, MountAt("alloc-1", "/x"));
    var w2 := Step(w1, MountAt("alloc-2", "/y"));
    RunNext(Boot, RunWith(1024), MountAt("alloc-1", "/x"));
    RunNext(Boot, RunWith(1024) + [MountAt("alloc-1", "/x")], MountAt("alloc-2", "/y"));
    FirstIds();
    AheadAfterRelease();
    TwoPaths();
    SharesAtEnd(w0, w1, w2, b, c, "alloc-1", "/x", "alloc-2", "/y");
  }

  predicate GoodPaths(dev: string, dev2: string) {
    dev != [] && dev2 != [] && DiskNameOk(dev) && DiskNameOk(dev2) && dev != dev2
  }

  lemma TwoPaths()
    ensures GoodPaths("/x", "/y")
  {
    SlashName("/x", "x");
    SlashName("/y", "y");
  }

  lemma SharesAtEnd(w0: World, w1: World, w2: World, b: Row, c: Row, id: string, dev: string, id2: string, dev2: string)
    requires Filled(w0, 1536, 3) && w0.m.nextNs == 3 && Ahead(w0) && TwoRows(w0.c.rows, b, c, id, id2)
    requires w1 == Step(w0, MountAt(id, dev)) && w2 == Step(w1, MountAt(id2, dev2)) && GoodPaths(dev, dev2)
    ensures StackInv(w2) && Ahead(w2) && Named(w2.c.rows, w2.c.logdevs, Names) && !Isolated(w2)
  {
    BothMounted(w0, w1, w2, b, c, id, dev, id2, dev2);
    BothNamed(w0, w1, w2, id, dev, id2, dev2);
    NotIsolated(w2);
  }

  lemma NotIsolated(w: World)
    requires StackInv(w) && Ahead(w) && Named(w.c.rows, w.c.logdevs, Names) && !MountedApart(w.c)
    ensures !Isolated(w)
  {
    IsolatedIff(w, Names);
  }

  lemma AheadAfterRelease()
    ensures Ahead(Run(Boot, RunWith(1024)))
  {
    var b, c := AfterRelease(1024);
    RunWithQuiet();
    BootsInStep();
    RunKeepsAhead(Boot, RunWith(1024));
  }

  lemma RunWithQuiet()
    ensures AllQuiet(RunWith(1024))
  {
    QuietFive(Discover, Grant(1024, ""), Grant(512, ""), Free0, Grant(1024, ""));
  }

  /** The rows of the two overlapping allocations. */
  predicate TwoRows(rows: Rows, b: Row, c: Row, id: string, id2: string) {
    && rows == Boot.c.rows[1 := Some(b)][0 := Some(c)] && id != id2
    && b.allocId == id == Numbered(ID_PREFIX, 1) && c.allocId == id2 == Numbered(ID_PREFIX, 2)
    && b.ssuId == c.ssuId == "s" && b.off == c.off == 0 && StartByte(c) == 512 && EndByte(c) == 1536
    && StartByte(b) == 1024 && EndByte(b) == 1536
    && b.nsId == Numbered(NS_PREFIX, 1) && c.nsId == Numbered(NS_PREFIX, 2)
  }

  lemma BothOnly(rows: Rows, b: Row, c: Row, id: string, id2: string)
    requires TwoRows(rows, b, c, id, id2)
    ensures OnlyRow(rows, id, 1, 1, 1) && OnlyRow(rows, id2, 2, 0, 2)
  {
    assert rows[1] == Some(b) && rows[0] == Some(c);
  }

  lemma BothMounted(w0: World, w1: World, w2: World, b: Row, c: Row, id: string, dev: string, id2: string, dev2: string)
    requires Filled(w0, 1536, 3) && w0.m.nextNs == 3 && TwoRows(w0.c.rows, b, c, id, id2)
    requires w1 == Step(w0, MountAt(id, dev)) && w2 == Step(w1, MountAt(id2, dev2)) && GoodPaths(dev, dev2)
    ensures StackInv(w1) && StackInv(w2) && !MountedApart(w2.c)
  {
    BothOnly(w0.c.rows, b, c, id, id2);
    FirstOfTwo(w0, w1, id, dev);
    SecondMount(w0, w1, id, dev, id2, dev2);
    StillHas(w1.c.logdevs, w2.c.logdevs, id, MountReq(id2, "h", dev2));
    OverlapMounted(w0.c.rows, w1.c.rows, w2.c, b, c, id, id2);
  }

  lemma FirstOfTwo(w0: World, w1: World, id: string, dev: string)
    requires Filled(w0, 1536, 3) && w0.m.nextNs == 3 && OnlyRow(w0.c.rows, id, 1, 1, 1)
    requires w1 == Step(w0, MountAt(id, dev)) && dev != [] && DiskNameOk(dev)
    ensures MountedNow(w0, w1, id, dev) && FreeCount(w0.c.logdevs) == MAX_DEVICES
  {
    EmptyDevices(w0.c.logdevs);
    NothingLive(w0);
    Mounts(w0, id, 1, 1, 1, dev);
  }

  lemma OverlapMounted(rows: Rows, rows1: Rows, c2: Ctl, b: Row, c: Row, id: string, id2: string)
    requires TwoRows(rows, b, c, id, id2)
    requires rows1 == SetState(rows, id, MOUNTED) && c2.rows == SetState(rows1, id2, MOUNTED)
    requires Has(c2.logdevs, LogdevId, id) && Has(c2.logdevs, LogdevId, id2)
    ensures !MountedApart(c2)
  {
    assert rows[1] == Some(b) && rows[0] == Some(c);
    RestatedTwice(rows, rows1, c2.rows, 0, id, id2);
    RestatedTwice(rows, rows1, c2.rows, 1, id, id2);
    OverlapNotApart(c2, b, c, c2.rows[1].value, c2.rows[0].value);
  }

  predicate Alike(a: Row, b: Row) { RowBare(a) == RowBare(b) }

  lemma RestatedTwice(rows: Rows, rows1: Rows, rows2: Rows, x: nat, id: string, id2: string)
    requires rows1 == SetState(rows, id, MOUNTED) && rows2 == SetState(rows1, id2, MOUNTED)
    requires x < |rows| && rows[x].Some?
    ensures x < |rows2| && rows2[x].Some? && Alike(rows[x].value, rows2[x].value)
  {
    assert rows1[x] == WithState(rows[x], id, MOUNTED) && rows2[x] == WithState(rows1[x], id2, MOUNTED);
  }

  lemma OverlapNotApart(c2: Ctl, b: Row, c: Row, b2: Row, c3: Row)
    requires Alike(b, b2) && Alike(c, c3) && b.ssuId == c.ssuId && b.allocId != c.allocId && !Apart(c, b)
    requires Has(c2.logdevs, LogdevId, b.allocId) && Has(c2.logdevs, LogdevId, c.allocId)
    ensures !MountedRowsApart(c2, c3, b2)
  {}

  lemma StillHas(logdevs: Logdevs, after: Logdevs, id: string, req: MountReq)
    requires Mounted(logdevs, after, req) && Has(logdevs, LogdevId, id)
    ensures Has(after, LogdevId, id)
  {
    assert Carries(after[Find(logdevs, LogdevId, id)], LogdevId, id);
    HasSome(after, LogdevId, id);
  }

  lemma SecondMount(w0: World, w1: World, id: string, dev: string, id2: string, dev2: string)
    requires MountedNow(w0, w1, id, dev) && w0.c.logdevs == Boot.c.logdevs && OnlyRow(w0.c.rows, id2, 2, 0, 2)
    requires id == Numbered(ID_PREFIX, 1) && id != id2 && FreeCount(w0.c.logdevs) == MAX_DEVICES
    requires dev != dev2 && dev2 != [] && DiskNameOk(dev2) && w1.c.nextId < 100 && w1.m.nextNs < 100
    ensures MountedNow(w1, Step(w1, MountAt(id2, dev2)), id2, dev2)
  {
    SecondReady(w0, w1, id, dev, id2, dev2);
    Mounts(w1, id2, 2, 0, 2, dev2);
  }

  lemma SecondReady(w0: World, w1: World, id: string, dev: string, id2: string, dev2: string)
    requires MountedNow(w0, w1, id, dev) && w0.c.logdevs == Boot.c.logdevs && OnlyRow(w0.c.rows, id2, 2, 0, 2)
    requires id == Numbered(ID_PREFIX, 1) && id != id2 && FreeCount(w0.c.logdevs) == MAX_DEVICES
    requires dev != dev2 && dev2 != [] && DiskNameOk(dev2)
    ensures OnlyRow(w1.c.rows, id2, 2, 0, 2) && CanMount(w1, id2, 2, dev2)
  {
    OneDeviceOnly(w1.c.logdevs, id, dev, id2, dev2);
    OtherMinorFree(w1, id, dev);
    RestatedRow(w0.c.rows, id, id2);
  }

  lemma OneDeviceOnly(logdevs: Logdevs, id: string, dev: string, id2: string, dev2: string)
    requires Mounted(Boot.c.logdevs, logdevs, MountReq(id, "h", dev)) && id != id2 && dev != dev2
    ensures !Has(logdevs, LogdevDev, dev2) && !Has(logdevs, LogdevId, id2)
  {
    HasSome(logdevs, LogdevDev, dev2);
    HasSome(logdevs, LogdevId, id2);
  }

  lemma OtherMinorFree(w: World, id: string, dev: string)
    requires StackInv(w) && Mounted(Boot.c.logdevs, w.c.logdevs, MountReq(id, "h", dev)) && id == Numbered(ID_PREFIX, 1)
    ensures !Live(w.k, 2)
  {
    OnlyMinorOne(w.c.logdevs, id, dev);
    assert !SomeMinor(w.c.logdevs, 2);
  }

  lemma OnlyMinorOne(logdevs: Logdevs, id: string, dev: string)
    requires Mounted(Boot.c.logdevs, logdevs, MountReq(id, "h", dev)) && id == Numbered(ID_PREFIX, 1)
    ensures !SomeMinor(logdevs, 2)
  {
    SmallMinor(1, dev);
    assert forall i :: 0 <= i < |logdevs| && logdevs[i].Some? ==> IsMinor(logdevs[i].value, 1);
  }

  lemma RestatedRow(rows: Rows, id: string, id2: string)
    requires OnlyRow(rows, id2, 2, 0, 2) && id != id2
    ensures OnlyRow(SetState(rows, id, MOUNTED), id2, 2, 0, 2)
  {
    assert forall i :: 0 <= i < |rows| ==> SetState(rows, id, MOUNTED)[i] == WithState(rows[i], id, MOUNTED);
  }

  lemma BothNamed(w0: World, w1: World, w2: World, id: string, dev: string, id2: string, dev2: string)
    requires StackInv(w0) && StackInv(w1) && StackInv(w2) && Ahead(w0) && w0.c.logdevs == Boot.c.logdevs
    requires w1 == Step(w0, MountAt(id, dev)) && w2 == Step(w1, MountAt(id2, dev2))
    requires w0.c.nextId < 100 && w0.m.nextNs < 100
    ensures Ahead(w2) && Named(w2.c.rows, w2.c.logdevs, Names)
  {
    MountCounters(w0, id, dev);
    MountCounters(w1, id2, dev2);
    StepKeepsAhead(w0, MountAt(id, dev));
    StepKeepsAhead(w1, MountAt(id2, dev2));
    StepKeepsNamed(w0, MountAt(id, dev), Names);
    StepKeepsNamed(w1, MountAt(id2, dev2), Names);
  }

  lemma MountCounters(w: World, id: string, dev: string)
    requires WorldShaped(w) && RowsOk(w.c)
    ensures Step(w, MountAt(id, dev)).c.nextId == w.c.nextId && Step(w, MountAt(id, dev)).m.nextNs == w.m.nextNs
  {
    MountKeepsRowsOk(w, MountReq(id, "h", dev), Names, Calm);
    MountKeepsNextNs(w, MountReq(id, "h", dev), Names, Calm);
  }
}
