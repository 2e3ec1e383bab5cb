/** The whole stack: what the kernel's table says about every mounted device. */
module EndToEnd {
  import opened Types
  import opened Tables
  import opened Decimal
  import opened KernelState
  import opened ReqShimIface
  import opened MockState
  import opened ControllerState
  import opened Ledger
  import opened Rollback
  import opened Grants
  import opened MountMirror
  import opened Agreement
  import opened Stripe
  import ChunkedIo
  import HostKey

  predicate DistinctDevs(specs: seq<MapSpec>) {
    forall i, j :: 0 <= i < j < |specs| ==> specs[i].dev != specs[j].dev
  }

  function EntrySet(specs: seq<MapSpec>, minor: nat): set<MapEntry>
    requires SpecsOk(specs, minor)
  {
    set e | e in EntriesFor(specs, minor)
  }

  /** The device's minor is live and maps exactly the device's extents. */
  predicate WiredDev(logdevs: Logdevs, k: Kernel, l: Logdev) {
    var minor := MinorOf(l.allocId, l.dev);
    var specs := DevSpecs(logdevs, l.dev);
    && minor.Some? && Live(k, minor.value)
    && Buildable(specs, minor.value) && DistinctDevs(specs)
    && EntriesOf(k.maps, minor.value) == EntrySet(specs, minor.value)
  }

  predicate IsMinor(l: Logdev, minor: nat) { MinorOf(l.allocId, l.dev) == Some(minor) }

  ghost predicate SomeMinor(logdevs: Logdevs, minor: nat) {
    exists i :: 0 <= i < |logdevs| && logdevs[i].Some? && IsMinor(logdevs[i].value, minor)
  }

  /** The kernel's live minors are exactly those of the mounted devices, one each,
      and each maps exactly its device's extents. */
  ghost predicate Wired(logdevs: Logdevs, k: Kernel) {
    && KernelInv(k)
    && AllWired(logdevs, k)
    && OneDevPerMinor(logdevs)
    && (forall minor: nat :: Live(k, minor) ==> SomeMinor(logdevs, minor))
  }

  /** Connecting gives different SSUs different device names. */
  predicate DevicesOk(d: Devices) {
    forall a, b :: a in d.names && b in d.names && a != b ==> d.names[a] != d.names[b]
  }

  // ---- steps ----

  lemma UnmappedMinor(k: Kernel, minor: nat)
    requires KernelInv(k) && !Live(k, minor)
    ensures Cleared(k.maps, minor) == k.maps
  {}

  /** Another device stays wired when only minor m's slots change. */
  lemma StaysWired(logdevs: Logdevs, k: Kernel, after: Logdevs, k2: Kernel, l: Logdev, m: nat)
    requires WiredDev(logdevs, k, l) && DevSpecs(after, l.dev) == DevSpecs(logdevs, l.dev)
    requires MinorOf(l.allocId, l.dev) != Some(m)
    requires Cleared(k2.maps, m) == Cleared(k.maps, m)
    requires |k2.devs| == |k.devs| && forall x :: 0 <= x < |k.devs| && x != m ==> k2.devs[x] == k.devs[x]
    ensures WiredDev(after, k2, l)
  {
    OtherMinors(k.maps, k2.maps, m, MinorOf(l.allocId, l.dev).value);
  }

  lemma MountedSpecsDistinct(pieces: seq<Piece>, d: Devices, size: nat)
    requires AllConnect(pieces, d) && DevicesOk(d) && StripePieces(pieces, size)
    ensures DistinctDevs(SpecsOf(pieces, d))
  {}

  lemma NewDevWired(logdevs: Logdevs, after: Logdevs, k: Kernel, k2: Kernel, req: MountReq, pieces: seq<Piece>,
      d: Devices, f: KernelFaults, minor: nat)
    requires Wired(logdevs, k) && AllConnect(pieces, d) && DistinctDevs(SpecsOf(pieces, d))
    requires MinorOf(req.allocId, req.dev) == Some(minor) && f.ctl == CTL_PRESENT
    requires Mount(k, req.dev, minor, SpecsOf(pieces, d), f) == (k2, OK)
    requires DevSpecs(after, req.dev) == SpecsOf(pieces, d)
    ensures KernelInv(k2) && !Live(k, minor) && Live(k2, minor)
    ensures WiredDev(after, k2, Logdev(req.dev, req.hostId, req.allocId, 0, 0, "", "", 0))
    ensures Cleared(k2.maps, minor) == Cleared(k.maps, minor)
    ensures |k2.devs| == |k.devs| && forall x :: 0 <= x < |k.devs| && x != minor ==> k2.devs[x] == k.devs[x]
  {
    MountAllOrNothing(k, req.dev, minor, SpecsOf(pieces, d), f);
    UnmappedMinor(k, minor);
  }

  /** Being wired depends on the device's name and allocation only. */
  lemma WiredDevByName(logdevs: Logdevs, k: Kernel, a: Logdev, b: Logdev)
    requires WiredDev(logdevs, k, a) && a.dev == b.dev && a.allocId == b.allocId
    ensures WiredDev(logdevs, k, b)
  {}

  /** Nothing but slots of minor m changed. */
  predicate OnlyMinor(k: Kernel, k2: Kernel, m: nat) {
    && Cleared(k2.maps, m) == Cleared(k.maps, m)
    && |k2.devs| == |k.devs| && forall x :: 0 <= x < |k.devs| && x != m ==> k2.devs[x] == k.devs[x]
  }

  ghost predicate AllWired(logdevs: Logdevs, k: Kernel) {
    forall i :: 0 <= i < |logdevs| && logdevs[i].Some? ==> WiredDev(logdevs, k, logdevs[i].value)
  }

  predicate OneDevPerMinor(logdevs: Logdevs) {
    forall i, j ::
      && 0 <= i < |logdevs| && 0 <= j < |logdevs| && logdevs[i].Some? && logdevs[j].Some?
      && logdevs[i].value.dev != logdevs[j].value.dev ==>
      MinorOf(logdevs[i].value.allocId, logdevs[i].value.dev) != MinorOf(logdevs[j].value.allocId, logdevs[j].value.dev)
  }

  lemma AllWiredAfterMount(logdevs: Logdevs, after: Logdevs, k: Kernel, k2: Kernel, req: MountReq, minor: nat,
      l: Logdev)
    requires AllWired(logdevs, k) && Mounted(logdevs, after, req) && OnlyMinor(k, k2, minor)
    requires forall i :: 0 <= i < |logdevs| ==> !Carries(logdevs[i], LogdevDev, req.dev)
    requires forall dev: string :: dev != req.dev ==> DevSpecs(after, dev) == DevSpecs(logdevs, dev)
    requires MinorOf(req.allocId, req.dev) == Some(minor) && !Live(k, minor)
    requires l.dev == req.dev && l.allocId == req.allocId && WiredDev(after, k2, l)
    ensures AllWired(after, k2)
  {
    forall i | 0 <= i < |after| && after[i].Some? ensures WiredDev(after, k2, after[i].value) {
      if logdevs[i].Some? {
        assert !Carries(logdevs[i], LogdevDev, req.dev);
        assert WiredDev(logdevs, k, logdevs[i].value);
        StaysWired(logdevs, k, after, k2, logdevs[i].value, minor);
      } else {
        WiredDevByName(after, k2, l, after[i].value);
      }
    }
  }

  lemma OneDevPerMinorAfterMount(logdevs: Logdevs, after: Logdevs, k: Kernel, req: MountReq, minor: nat)
    requires AllWired(logdevs, k) && OneDevPerMinor(logdevs) && Mounted(logdevs, after, req)
    requires MinorOf(req.allocId, req.dev) == Some(minor) && !Live(k, minor)
    ensures OneDevPerMinor(after)
  {}

  lemma MountKeepsWired(logdevs: Logdevs, k: Kernel, k2: Kernel, req: MountReq, pieces: seq<Piece>, d: Devices,
      f: KernelFaults, minor: nat)
    requires Wired(logdevs, k) && AllConnect(pieces, d) && DistinctDevs(SpecsOf(pieces, d))
    requires pieces != [] && FreeCount(logdevs) >= |pieces| && !Has(logdevs, LogdevDev, req.dev)
    requires MinorOf(req.allocId, req.dev) == Some(minor) && f.ctl == CTL_PRESENT
    requires Mount(k, req.dev, minor, SpecsOf(pieces, d), f) == (k2, OK)
    ensures Wired(PutAll(logdevs, NewLogdevs(req, pieces, d)), k2)
  {
    var after := PutAll(logdevs, NewLogdevs(req, pieces, d));
    var l := Logdev(req.dev, req.hostId, req.allocId, 0, 0, "", "", 0);
    MountSpecs(logdevs, req, pieces, d);
    MountRows(logdevs, req, pieces, d);
    HasSome(logdevs, LogdevDev, req.dev);
    NewDevWired(logdevs, after, k, k2, req, pieces, d, f, minor);
    AllWiredAfterMount(logdevs, after, k, k2, req, minor, l);
    OneDevPerMinorAfterMount(logdevs, after, k, req, minor);
    PutAllHas(logdevs, NewLogdevs(req, pieces, d), LogdevDev, req.dev);
    NewLogdevPresent(logdevs, after, req, minor);
    MinorsAfterMount(logdevs, after, k, k2, req, minor);
  }

  lemma NewLogdevPresent(logdevs: Logdevs, after: Logdevs, req: MountReq, minor: nat)
    requires Mounted(logdevs, after, req) && MinorOf(req.allocId, req.dev) == Some(minor)
    requires Has(after, LogdevDev, req.dev) && !Has(logdevs, LogdevDev, req.dev)
    ensures SomeMinor(after, minor)
  {}

  lemma MinorsAfterMount(logdevs: Logdevs, after: Logdevs, k: Kernel, k2: Kernel, req: MountReq, minor: nat)
    requires forall x: nat :: Live(k, x) ==> SomeMinor(logdevs, x)
    requires Mounted(logdevs, after, req) && SomeMinor(after, minor)
    requires |k2.devs| == |k.devs| && forall x :: 0 <= x < |k.devs| && x != minor ==> k2.devs[x] == k.devs[x]
    ensures forall x: nat :: Live(k2, x) ==> SomeMinor(after, x)
  {
    forall x: nat | Live(k2, x) ensures SomeMinor(after, x) {
      if x != minor {
        assert Live(k, x) && SomeMinor(logdevs, x);
        var i :| 0 <= i < |logdevs| && logdevs[i].Some? && IsMinor(logdevs[i].value, x);
        assert after[i] == logdevs[i];
      }
    }
  }

  lemma ClearedTwice(maps: Maps, m: nat)
    ensures Cleared(Cleared(maps, m), m) == Cleared(maps, m)
  {}

  lemma AllWiredAfterUnmount(logdevs: Logdevs, k: Kernel, k2: Kernel, i: nat, minor: nat)
    requires AllWired(logdevs, k) && OneDevPerMinor(logdevs) && i < |logdevs| && logdevs[i].Some?
    requires IsMinor(logdevs[i].value, minor) && OnlyMinor(k, k2, minor)
    ensures AllWired(Drop(logdevs, LogdevDev, logdevs[i].value.dev), k2)
  {
    var after := Drop(logdevs, LogdevDev, logdevs[i].value.dev);
    forall j | 0 <= j < |after| && after[j].Some? ensures WiredDev(after, k2, after[j].value) {
      assert after[j] == logdevs[j];
      OtherMinor(logdevs, i, j, minor);
      OtherDevStays(logdevs, k, k2, logdevs[i].value, logdevs[j].value, minor);
    }
  }

  lemma OtherMinor(logdevs: Logdevs, i: nat, j: nat, minor: nat)
    requires OneDevPerMinor(logdevs) && i < |logdevs| && j < |logdevs| && logdevs[i].Some? && logdevs[j].Some?
    requires IsMinor(logdevs[i].value, minor) && logdevs[j].value.dev != logdevs[i].value.dev
    ensures !IsMinor(logdevs[j].value, minor)
  {}

  lemma OtherDevStays(logdevs: Logdevs, k: Kernel, k2: Kernel, gone: Logdev, l: Logdev, minor: nat)
    requires WiredDev(logdevs, k, l) && l.dev != gone.dev && !IsMinor(l, minor) && OnlyMinor(k, k2, minor)
    ensures WiredDev(Drop(logdevs, LogdevDev, gone.dev), k2, l)
  {
    DropPick(logdevs, LogdevDev, gone.dev, LogdevSpec, l.dev);
    StaysWired(logdevs, k, Drop(logdevs, LogdevDev, gone.dev), k2, l, minor);
  }

  lemma MinorStays(logdevs: Logdevs, i: nat, minor: nat, x: nat)
    requires OneMountPerDevice(logdevs) && i < |logdevs| && logdevs[i].Some? && IsMinor(logdevs[i].value, minor)
    requires SomeMinor(logdevs, x) && x != minor
    ensures SomeMinor(Drop(logdevs, LogdevDev, logdevs[i].value.dev), x)
  {}

  lemma MinorsAfterUnmount(logdevs: Logdevs, k: Kernel, k2: Kernel, i: nat, minor: nat)
    requires forall x: nat :: Live(k, x) ==> SomeMinor(logdevs, x)
    requires OneMountPerDevice(logdevs) && i < |logdevs| && logdevs[i].Some? && IsMinor(logdevs[i].value, minor)
    requires minor < |k.devs| && k2.devs == k.devs[minor := None]
    ensures forall x: nat :: Live(k2, x) ==> SomeMinor(Drop(logdevs, LogdevDev, logdevs[i].value.dev), x)
  {
    forall x: nat | Live(k2, x) ensures SomeMinor(Drop(logdevs, LogdevDev, logdevs[i].value.dev), x) {
      assert Live(k, x);
      MinorStays(logdevs, i, minor, x);
    }
  }

  lemma UnmountKeepsWired(logdevs: Logdevs, k: Kernel, k2: Kernel, i: nat, minor: nat)
    requires Wired(logdevs, k) && OneMountPerDevice(logdevs) && i < |logdevs| && logdevs[i].Some?
    requires IsMinor(logdevs[i].value, minor) && Live(k, minor) && KernelInv(k2)
    requires k2.maps == Cleared(k.maps, minor) && k2.devs == k.devs[minor := None]
    ensures Wired(Drop(logdevs, LogdevDev, logdevs[i].value.dev), k2)
  {
    ClearedTwice(k.maps, minor);
    AllWiredAfterUnmount(logdevs, k, k2, i, minor);
    MinorsAfterUnmount(logdevs, k, k2, i, minor);
    FewerKeepOneDev(logdevs, Drop(logdevs, LogdevDev, logdevs[i].value.dev));
  }

  lemma FewerKeepOneDev(logdevs: Logdevs, after: Logdevs)
    requires OneDevPerMinor(logdevs)
    requires |after| == |logdevs| && forall j :: 0 <= j < |after| && after[j].Some? ==> after[j] == logdevs[j]
    ensures OneDevPerMinor(after)
  {}

  /** While rows mirror devices, a mounted allocation's pieces form a stripe. */
  lemma MountedStripe(rows: Rows, id: string)
    requires Striped(rows) && Has(rows, RowId, id)
    ensures var ps := PiecesOfId(rows, id); StripePieces(ps, PiecesSize(ps))
  {}

  lemma MountOpKeepsWired(w: World, req: MountReq, d: Devices, f: KernelFaults)
    requires WorldShaped(w) && Agrees(w) && Wired(w.c.logdevs, w.k) && DevicesOk(d) && f.ctl != CTL_MISSING
    ensures var w2 := MountOp(w, req, d, f).0; Wired(w2.c.logdevs, w2.k)
  {
    var row := MountRow(req.allocId, req.hostId, req.dev);
    MountCases(w, req, d, f);
    MountNsCases(w.m, w.k, row, d, f);
    TwinPieces(w.c.rows, w.m.nss, req.allocId);
    var w2 := MountOp(w, req, d, f).0;
    var pieces := PiecesOfId(w.c.rows, req.allocId);
    if w2.k != w.k || MountNs(w.m, w.k, row, d, f).2 == OK {
      var minor := MinorOf(req.allocId, req.dev).value;
      MountAllOrNothing(w.k, req.dev, minor, SpecsOf(pieces, d), f);
      if w2.c != w.c {
        MountedStripe(w.c.rows, req.allocId);
        MountedSpecsDistinct(pieces, d, PiecesSize(pieces));
        MountKeepsWired(w.c.logdevs, w.k, w2.k, req, pieces, d, f, minor);
      }
    }
  }

  /** Unmounting a path nobody mounted reaches for the minor its name spells. This
      is harmless when there is no such number or no live device under it. */
  predicate StrayHarmless(w: World, dev: string) {
    Has(w.c.logdevs, LogdevDev, dev) || LogicalMinor(dev).None? || !Live(w.k, LogicalMinor(dev).value)
  }

  lemma UnmountOpKeepsWired(w: World, dev: string, d: Devices, f: KernelFaults)
    requires WorldShaped(w) && Agrees(w) && OneMountPerDevice(w.c.logdevs) && Wired(w.c.logdevs, w.k)
    requires f.ctl != CTL_MISSING
    requires StrayHarmless(w, dev)
    ensures var w2 := UnmountOp(w, dev, d, f).0; Wired(w2.c.logdevs, w2.k)
  {
    UnmountCases(w, dev, d, f);
    UnmountNsCases(w.m, w.k, dev, d, f);
    UnknownToBoth(w.c.logdevs, w.m.mounts, dev);
    var (w2, st) := UnmountOp(w, dev, d, f);
    if !Has(w.c.logdevs, LogdevDev, dev) {
      if LogicalMinor(dev).Some? {
        UnmountClears(w.k, LogicalMinor(dev).value, [], f);
      }
    } else if w2 != w {
      MountedUnmountWired(w, dev, d, f);
    }
  }

  lemma MountedUnmountWired(w: World, dev: string, d: Devices, f: KernelFaults)
    requires WorldShaped(w) && Agrees(w) && OneMountPerDevice(w.c.logdevs) && Wired(w.c.logdevs, w.k)
    requires f.ctl != CTL_MISSING
    requires Has(w.c.logdevs, LogdevDev, dev)
    ensures var w2 := UnmountOp(w, dev, d, f).0; Wired(w2.c.logdevs, w2.k)
  {
    UnmountCases(w, dev, d, f);
    UnmountNsCases(w.m, w.k, dev, d, f);
    var i := Find(w.c.logdevs, LogdevDev, dev);
    var l := w.c.logdevs[i].value;
    assert Carries(w.c.logdevs[i], LogdevDev, dev);
    assert WiredDev(w.c.logdevs, w.k, l);
    var (m, k2, st) := UnmountNs(w.m, w.k, dev, d, f);
    if k2 != w.k || st == OK {
      var pieces := PiecesOf(w.m, l.allocId);
      var minor := MinorOf(l.allocId, dev).value;
      UnmountClears(w.k, minor, SpecsOf(pieces, d), f);
      if st == OK {
        UnmountKeepsWired(w.c.logdevs, w.k, k2, i, minor);
      }
    }
  }

  /** And it is exactly then that an unmount keeps the kernel in step. */
  lemma StrayUnmountIff(w: World, dev: string, d: Devices, f: KernelFaults)
    requires WorldShaped(w) && Agrees(w) && OneMountPerDevice(w.c.logdevs) && Wired(w.c.logdevs, w.k)
    requires f.ctl == CTL_PRESENT && dev != []
    ensures (var w2 := UnmountOp(w, dev, d, f).0; Wired(w2.c.logdevs, w2.k)) <==> StrayHarmless(w, dev)
  {
    if StrayHarmless(w, dev) {
      UnmountOpKeepsWired(w, dev, d, f);
    } else {
      var minor := LogicalMinor(dev).value;
      UnmountNsCases(w.m, w.k, dev, d, f);
      UnknownToBoth(w.c.logdevs, w.m.mounts, dev);
      UnmountClears(w.k, minor, [], f);
      var w2 := UnmountOp(w, dev, d, f).0;
      assert w2.c == w.c && !Live(w2.k, minor);
      assert SomeMinor(w.c.logdevs, minor);
      var i :| 0 <= i < |w.c.logdevs| && w.c.logdevs[i].Some? && IsMinor(w.c.logdevs[i].value, minor);
      assert !WiredDev(w2.c.logdevs, w2.k, w2.c.logdevs[i].value);
    }
  }

  /** The danger is real for every small id: /dev/ssu/ssuN spells the minor of
      alloc-N, under whatever path that allocation is mounted. */
  lemma StrayPathSpellsMinor(n: nat, dev: string, dir: string)
    requires n <= U32_MAX
    ensures MinorOf(Numbered(ID_PREFIX, n), dev) == Some(n)
    ensures LogicalMinor(dir + "/" + (DEV_PREFIX + Dec(n))) == Some(n)
  {
    NumberedSmall(ID_PREFIX, n);
    PrefixIsMinor(Numbered(ID_PREFIX, n), dev, n);
    DigitsAreMinor(DEV_PREFIX, n);
    NoSlash(DEV_PREFIX, n);
    LogicalMinorOf(dir, DEV_PREFIX + Dec(n));
  }

  lemma PrefixIsMinor(id: string, dev: string, n: nat)
    requires n <= U32_MAX && id == ID_PREFIX + Dec(n)
    ensures MinorOf(id, dev) == Some(n)
  {
    DigitsAreMinor(ID_PREFIX, n);
  }

  lemma LogicalMinorOf(dir: string, base: string)
    requires '/' !in base
    ensures LogicalMinor(dir + "/" + base) == PrefixedMinor(base, DEV_PREFIX)
  {
    BasenameOf(dir + "/", base);
  }

  lemma NoSlash(prefix: string, n: nat)
    requires '/' !in prefix
    ensures '/' !in prefix + Dec(n)
  {}

  lemma DigitsAreMinor(prefix: string, n: nat)
    requires n <= U32_MAX
    ensures PrefixedMinor(prefix + Dec(n), prefix) == Some(n)
  {
    WholeU32Dec(n);
    assert (prefix + Dec(n))[|prefix|..] == Dec(n);
  }

  // ---- runs ----

  /** The plugin connects properly, the control device is there, and no stray
      unmount spells a live minor. */
  predicate KeepsKernelInStep(w: World, op: Op)
    requires WorldShaped(w)
  {
    && (op.OpMount? ==> DevicesOk(op.devices) && op.faults.ctl != CTL_MISSING)
    && (op.OpUnmount? ==> op.faults.ctl != CTL_MISSING && StrayHarmless(w, op.dev))
  }

  predicate InStepRun(w: World, ops: seq<Op>)
    requires WorldShaped(w)
  {
    ops == [] || (InStepRun(w, ops[..|ops| - 1]) && KeepsKernelInStep(Run(w, ops[..|ops| - 1]), ops[|ops| - 1]))
  }

  lemma StepKeepsWired(w: World, op: Op)
    requires WorldShaped(w) && Agrees(w) && OneMountPerDevice(w.c.logdevs) && Wired(w.c.logdevs, w.k)
    requires Books(w.c) && KeepsKernelInStep(w, op)
    ensures Wired(Step(w, op).c.logdevs, Step(w, op).k)
  {
    if op.OpMount? {
      MountStepKeepsWired(w, op);
    } else if op.OpUnmount? {
      UnmountStepKeepsWired(w, op);
    } else {
      OtherKeepsWired(w, op);
    }
  }

  lemma MountStepKeepsWired(w: World, op: Op)
    requires WorldShaped(w) && Agrees(w) && Wired(w.c.logdevs, w.k) && op.OpMount? && KeepsKernelInStep(w, op)
    ensures Wired(Step(w, op).c.logdevs, Step(w, op).k)
  {
    MountOpKeepsWired(w, op.mount, op.devices, op.faults);
  }

  lemma UnmountStepKeepsWired(w: World, op: Op)
    requires WorldShaped(w) && Agrees(w) && OneMountPerDevice(w.c.logdevs) && Wired(w.c.logdevs, w.k)
    requires op.OpUnmount? && KeepsKernelInStep(w, op)
    ensures Wired(Step(w, op).c.logdevs, Step(w, op).k)
  {
    UnmountOpKeepsWired(w, op.dev, op.devices, op.faults);
  }

  lemma OtherKeepsWired(w: World, op: Op)
    requires WorldShaped(w) && Books(w.c) && !op.OpMount? && !op.OpUnmount? && Wired(w.c.logdevs, w.k)
    ensures Wired(Step(w, op).c.logdevs, Step(w, op).k)
  {
    OtherFrame(w, op);
  }

  /** Refresh, allocate and release touch neither devices nor the kernel. */
  lemma OtherFrame(w: World, op: Op)
    requires WorldShaped(w) && Books(w.c) && !op.OpMount? && !op.OpUnmount?
    ensures Step(w, op).k == w.k && Step(w, op).c.logdevs == w.c.logdevs
  {
    match op
    case OpRefresh(d, h) =>
    case OpAlloc(req, cap, create, delete) => AllocFrame(w, req, cap, create, delete);
    case OpRelease(id, deletes) => ReleaseFromThins(w, id, 0, false, deletes);
  }

  lemma AllocFrame(w: World, req: AllocReq, cap: Option<nat>, create: Faults, delete: Faults)
    requires WorldShaped(w) && Books(w.c)
    ensures var w2 := Alloc(w, req, cap, create, delete).0; w2.k == w.k && w2.c.logdevs == w.c.logdevs
  {
    AllocCases(w, req, cap, create, delete);
    var w1 := Searched(w);
    if req.size > 0 && HostKey.Key(req.hosts).Some? {
      var a := Admit(w1.c, req, HostKey.Key(req.hosts).value, cap);
      if a.Admitted? {
        PlaceFromExtends(w1, Start(w1), a.job, create);
        if Place(w1, a.job, create, delete).1.status != OK {
          PlaceAllOrNothing(w1, a.job, create, delete);
        }
      }
    }
  }

  /** Everything the stack keeps when nothing interferes. */
  ghost predicate StackInv(w: World) {
    && WorldShaped(w) && Books(w.c) && RowsOk(w.c) && Mirror(w.c.rows, w.c.logdevs) && Agrees(w)
      && Wired(w.c.logdevs, w.k)
  }

  lemma {:induction false} RunKeepsStack(w: World, ops: seq<Op>)
    requires StackInv(w) && RunFits(ops) && InStepRun(w, ops)
    requires forall i :: 0 <= i < |ops| ==> NoDeleteRefused(ops[i])
    requires Run(w, ops).c.nextId < TWO64 && Run(w, ops).m.nextNs < TWO64
    ensures StackInv(Run(w, ops))
  {
    if ops != [] {
      var front, last := ops[..|ops| - 1], ops[|ops| - 1];
      var v := Run(w, front);
      Conservation(w, front);
      NextIdGrows(v, last);
      NextNsGrows(v, last);
      RunKeepsStack(w, front);
      StepKeepsBooks(v, last);
      StepKeepsRowsOk(v, last);
      StepKeepsMirror(v, last);
      StepKeepsAgreement(v, last);
      StepKeepsWired(v, last);
    }
  }

  /** The empty stack satisfies all of it. */
  lemma BootsInStep()
    ensures StackInv(Boot)
  {
    assert forall minor: nat :: !Live(Boot.k, minor);
    assert EntriesOf(Boot.k.maps, 0) == {};
  }

  // ---- what a mounted device translates ----

  /** Sector s lies in extent i of the stripe. */
  predicate InExtent(specs: seq<MapSpec>, i: nat, s: nat)
    requires i < |specs|
  {
    specs[i].off <= s * SECTOR < specs[i].off + specs[i].len
  }

  lemma EntryMatches(specs: seq<MapSpec>, minor: nat, i: nat, s: nat)
    requires SpecsOk(specs, minor) && i < |specs|
    ensures InExtent(specs, i, s) <==> Matches(Some(EntryOf(specs[i], minor)), minor, s)
    ensures EntryOf(specs[i], minor) in EntrySet(specs, minor)
    ensures EntryOf(specs[i], minor).sector * SECTOR == specs[i].off
    ensures EntryOf(specs[i], minor).length * SECTOR == specs[i].len
  {}

  lemma StripeApart(specs: seq<MapSpec>, size: nat, i: nat, j: nat, s: nat)
    requires StripeSpecs(specs, size) && i < |specs| && j < |specs| && InExtent(specs, i, s) && InExtent(specs, j, s)
    ensures i == j
  {
    var n := |specs|;
    Tiles(size, n, i);
    Tiles(size, n, j);
    if i < j { Monotone(size, n, i + 1, j); }
    if j < i { Monotone(size, n, j + 1, i); }
  }

  /** A kernel slot of the minor holds the entry of one of the specs. */
  lemma SlotIsSpec(k: Kernel, specs: seq<MapSpec>, minor: nat, x: nat) returns (i: nat)
    requires SpecsOk(specs, minor) && EntriesOf(k.maps, minor) == EntrySet(specs, minor)
    requires x < |k.maps| && k.maps[x].Some? && k.maps[x].value.minor == minor
    ensures i < |specs| && k.maps[x].value == EntryOf(specs[i], minor)
  {
    assert k.maps[x].value in EntriesOf(k.maps, minor);
    i :| 0 <= i < |specs| && EntriesFor(specs, minor)[i] == k.maps[x].value;
  }

  predicate PhysFits(specs: seq<MapSpec>) {
    forall i :: 0 <= i < |specs| ==> specs[i].phys * SECTOR + specs[i].len <= U64_MAX
  }

  /** A wired stripe has no overlap and no wrap-around, as chunked I/O needs. */
  lemma WiredIsClean(k: Kernel, specs: seq<MapSpec>, minor: nat, size: nat)
    requires KernelInv(k) && Buildable(specs, minor) && StripeSpecs(specs, size) && PhysFits(specs)
    requires EntriesOf(k.maps, minor) == EntrySet(specs, minor)
    ensures Disjoint(k.maps, minor) && NoWrap(k.maps, minor)
  {
    forall x, y, s | 0 <= x < |k.maps| && 0 <= y < |k.maps| && Matches(k.maps[x], minor, s)
      && Matches(k.maps[y], minor, s) ensures x == y
    {
      var i := SlotIsSpec(k, specs, minor, x);
      var j := SlotIsSpec(k, specs, minor, y);
      EntryMatches(specs, minor, i, s);
      EntryMatches(specs, minor, j, s);
      StripeApart(specs, size, i, j, s);
    }
    forall x | 0 <= x < |k.maps| && k.maps[x].Some? && k.maps[x].value.minor == minor
      ensures k.maps[x].value.sector + k.maps[x].value.length <= U64_MAX
      ensures k.maps[x].value.phys + k.maps[x].value.length <= U64_MAX
    {
      var i := SlotIsSpec(k, specs, minor, x);
      EntryMatches(specs, minor, i, 0);
      assert SpecOk(specs[i], minor);
    }
  }

  lemma WiredHits(k: Kernel, specs: seq<MapSpec>, minor: nat, size: nat, i: nat, s: nat)
    requires KernelInv(k) && Buildable(specs, minor) && StripeSpecs(specs, size) && PhysFits(specs)
    requires EntriesOf(k.maps, minor) == EntrySet(specs, minor)
    requires i < |specs| && InExtent(specs, i, s)
    ensures Translate(k.maps, minor, s) == Hit(EntryOf(specs[i], minor), specs[i].phys + (s - specs[i].off / SECTOR))
  {
    WiredIsClean(k, specs, minor, size);
    CleanHits(k, specs, minor, i, s);
  }

  lemma CleanHits(k: Kernel, specs: seq<MapSpec>, minor: nat, i: nat, s: nat)
    requires Buildable(specs, minor) && EntriesOf(k.maps, minor) == EntrySet(specs, minor)
    requires Disjoint(k.maps, minor) && NoWrap(k.maps, minor)
    requires i < |specs| && InExtent(specs, i, s)
    ensures Translate(k.maps, minor, s) == Hit(EntryOf(specs[i], minor), specs[i].phys + (s - specs[i].off / SECTOR))
  {
    EntryMatches(specs, minor, i, s);
    var x := SlotOfSpec(k, specs, minor, i);
    TranslateDisjoint(k.maps, minor, s, x);
  }

  lemma SlotOfSpec(k: Kernel, specs: seq<MapSpec>, minor: nat, i: nat) returns (x: nat)
    requires Buildable(specs, minor) && EntriesOf(k.maps, minor) == EntrySet(specs, minor) && i < |specs|
    ensures x < |k.maps| && k.maps[x] == Some(EntryOf(specs[i], minor))
  {
    assert EntryOf(specs[i], minor) in EntriesOf(k.maps, minor);
    x :| 0 <= x < |k.maps| && k.maps[x] == Some(EntryOf(specs[i], minor));
  }

  lemma SectorInExtent(specs: seq<MapSpec>, size: nat, s: nat) returns (i: nat)
    requires StripeSpecs(specs, size) && s < size / SECTOR
    ensures i < |specs| && InExtent(specs, i, s)
  {
    Tiles(size, |specs|, 0);
    i := Locate(size, |specs|, |specs|, s * SECTOR);
  }

  /** Exactly the sectors of [0, size/512) translate. */
  lemma WiredRange(k: Kernel, specs: seq<MapSpec>, minor: nat, size: nat, s: nat)
    requires KernelInv(k) && Buildable(specs, minor) && StripeSpecs(specs, size) && PhysFits(specs)
    requires EntriesOf(k.maps, minor) == EntrySet(specs, minor)
    ensures Translate(k.maps, minor, s).Hit? <==> s < size / SECTOR
  {
    StripeEnd(specs, size);
    if s < size / SECTOR {
      var i := SectorInExtent(specs, size, s);
      WiredHits(k, specs, minor, size, i, s);
    } else if Translate(k.maps, minor, s).Hit? {
      var x := QuerySlot(k.maps, minor, s);
      var i := SlotIsSpec(k, specs, minor, x);
      EntryMatches(specs, minor, i, s);
    }
  }

  /** Different sectors of a device go to different places. */
  lemma WiredInjective(k: Kernel, specs: seq<MapSpec>, minor: nat, size: nat, s: nat, t: nat)
    requires KernelInv(k) && Buildable(specs, minor) && StripeSpecs(specs, size) && PhysFits(specs)
    requires DistinctDevs(specs)
    requires EntriesOf(k.maps, minor) == EntrySet(specs, minor)
    requires s < size / SECTOR && t < size / SECTOR && s != t
    ensures var a, b := Translate(k.maps, minor, s), Translate(k.maps, minor, t);
      a.Hit? && b.Hit? && (a.entry.dev != b.entry.dev || a.phys != b.phys)
  {
    var i := SectorInExtent(specs, size, s);
    var j := SectorInExtent(specs, size, t);
    WiredHits(k, specs, minor, size, i, s);
    WiredHits(k, specs, minor, size, j, t);
    EntryNames(specs[i], minor);
    EntryNames(specs[j], minor);
    if i < j { assert specs[i].dev != specs[j].dev; }
    if j < i { assert specs[j].dev != specs[i].dev; }
  }

  lemma EntryNames(spec: MapSpec, minor: nat)
    requires SpecOk(spec, minor)
    ensures EntryOf(spec, minor).dev == spec.dev
  {}

  // ---- the theorems about a mounted device ----

  lemma MatchingStripe(specs: seq<MapSpec>, ps: seq<Piece>)
    requires SpecsAre(specs, ps) && StripePieces(ps, PiecesSize(ps))
    ensures StripeSpecs(specs, PiecesSize(ps))
  {}

  lemma PiecesFit(c: Ctl, id: string, specs: seq<MapSpec>)
    requires RowsOk(c) && SpecsAre(specs, PiecesOfId(c.rows, id))
    ensures PhysFits(specs)
  {
    var ps := PiecesOfId(c.rows, id);
    forall i | 0 <= i < |specs| ensures specs[i].phys * SECTOR + specs[i].len <= U64_MAX {
      var x := PickFrom(c.rows, RowId, RowPiece, id, ps[i]);
      assert SpecIs(specs[i], ps[i]);
    }
  }

  /** What holds of one mounted device: its specs are its allocation's pieces, and
      the kernel maps its minor to exactly those. */
  lemma MountedFacts(w: World, i: nat) returns (specs: seq<MapSpec>, ps: seq<Piece>, minor: nat)
    requires StackInv(w) && i < |w.c.logdevs| && w.c.logdevs[i].Some?
    ensures var l := w.c.logdevs[i].value;
      && specs == DevSpecs(w.c.logdevs, l.dev) && ps == PiecesOfId(w.c.rows, l.allocId)
        && MinorOf(l.allocId, l.dev) == Some(minor)
      && SpecsAre(specs, ps) && StripePieces(ps, PiecesSize(ps)) && StripeSpecs(specs, PiecesSize(ps))
        && PhysFits(specs) && DistinctDevs(specs)
      && KernelInv(w.k) && Buildable(specs, minor) && EntriesOf(w.k.maps, minor) == EntrySet(specs, minor)
  {
    var l := w.c.logdevs[i].value;
    specs, ps := DevSpecs(w.c.logdevs, l.dev), PiecesOfId(w.c.rows, l.allocId);
    assert WiredDev(w.c.logdevs, w.k, l);
    minor := MinorOf(l.allocId, l.dev).value;
    MountedHasRows(w.c.rows, w.c.logdevs, i);
    MountedStripe(w.c.rows, l.allocId);
    MatchingStripe(specs, ps);
    PiecesFit(w.c, l.allocId, specs);
  }

  /** t is the sector of piece p that holds logical sector s. */
  predicate PieceTarget(t: Translation, p: Piece, s: nat)
    requires PieceHolds(p, s)
  {
    t.Hit? && t.phys == p.phys + (s - p.off / SECTOR) && Some(t.entry.nsid) == TailU32(p.nsId)
  }

  predicate PieceHolds(p: Piece, s: nat) { p.off <= s * SECTOR < p.off + p.len }

  /** In every state the stack keeps, a mounted device of size bytes translates
      exactly the sectors [0, size/512) of its minor, each sector of extent j to
      the device extent j was connected to, at phys_sector plus the distance into
      the extent. */
  lemma MountedDeviceTranslates(w: World, i: nat, s: nat)
    requires StackInv(w) && i < |w.c.logdevs| && w.c.logdevs[i].Some?
    ensures var l := w.c.logdevs[i].value;
      var ps, specs, minor := PiecesOfId(w.c.rows, l.allocId), DevSpecs(w.c.logdevs, l.dev),
        MinorOf(l.allocId, l.dev).value;
      var t := Translate(w.k.maps, minor, s);
      && |specs| == |ps| && Live(w.k, minor)
      && (t.Hit? <==> s < PiecesSize(ps) / SECTOR)
      && forall j :: 0 <= j < |ps| && PieceHolds(ps[j], s) ==>
           PieceTarget(t, ps[j], s) && t.entry.dev == specs[j].dev
  {
    var specs, ps, minor := MountedFacts(w, i);
    assert WiredDev(w.c.logdevs, w.k, w.c.logdevs[i].value);
    WiredRange(w.k, specs, minor, PiecesSize(ps), s);
    forall j | 0 <= j < |ps| && PieceHolds(ps[j], s)
      ensures var t := Translate(w.k.maps, minor, s); PieceTarget(t, ps[j], s) && t.entry.dev == specs[j].dev
    {
      assert SpecIs(specs[j], ps[j]);
      WiredHits(w.k, specs, minor, PiecesSize(ps), j, s);
    }
  }

  /** No two sectors of a mounted device share a physical sector; and the kernel's
      chunked I/O on it meets its conditions. */
  lemma MountedDeviceInjective(w: World, i: nat, s: nat, t: nat)
    requires StackInv(w) && i < |w.c.logdevs| && w.c.logdevs[i].Some?
    ensures var l := w.c.logdevs[i].value;
      var size, minor := PiecesSize(PiecesOfId(w.c.rows, l.allocId)), MinorOf(l.allocId, l.dev).value;
      && Disjoint(w.k.maps, minor) && NoWrap(w.k.maps, minor)
      && (s < size / SECTOR && t < size / SECTOR && s != t ==>
            var a, b := Translate(w.k.maps, minor, s), Translate(w.k.maps, minor, t);
            a.Hit? && b.Hit? && (a.entry.dev != b.entry.dev || a.phys != b.phys))
  {
    var specs, ps, minor := MountedFacts(w, i);
    WiredIsClean(w.k, specs, minor, PiecesSize(ps));
    if s < PiecesSize(ps) / SECTOR && t < PiecesSize(ps) / SECTOR && s != t {
      WiredInjective(w.k, specs, minor, PiecesSize(ps), s, t);
    }
  }

  /** So whatever is read from or written to it, the chunks the kernel sends are the
      per-sector translation, and only a missing translation stops them. */
  lemma MountedDeviceIo(w: World, i: nat)
    requires StackInv(w) && i < |w.c.logdevs| && w.c.logdevs[i].Some?
    ensures var l := w.c.logdevs[i].value;
      var minor := MinorOf(l.allocId, l.dev).value;
      && ChunkedIo.ChunkSafe(w.k.maps, minor)
      && ChunkedIo.ChunksAgree(w.k.maps, minor) && ChunkedIo.StopsAtMiss(w.k.maps, minor)
  {
    var minor := MinorOf(w.c.logdevs[i].value.allocId, w.c.logdevs[i].value.dev).value;
    MountedDeviceInjective(w, i, 0, 0);
    ChunkedIo.CleanHolds(w.k.maps, minor);
    ChunkedIo.ChunksAgreeIff(w.k.maps, minor);
    ChunkedIo.StopsAtMissIff(w.k.maps, minor);
  }

  /** The same, said of every run from the empty stack. */
  lemma ReachableDevicesTranslate(ops: seq<Op>, i: nat, s: nat)
    requires RunFits(ops) && InStepRun(Boot, ops) && forall j :: 0 <= j < |ops| ==> NoDeleteRefused(ops[j])
    requires Run(Boot, ops).c.nextId < TWO64 && Run(Boot, ops).m.nextNs < TWO64
    requires i < |Run(Boot, ops).c.logdevs| && Run(Boot, ops).c.logdevs[i].Some?
    ensures var w := Run(Boot, ops);
      var l := w.c.logdevs[i].value;
      var ps := PiecesOfId(w.c.rows, l.allocId);
      && StripePieces(ps, PiecesSize(ps))
      && MinorOf(l.allocId, l.dev).Some?
      && (Translate(w.k.maps, MinorOf(l.allocId, l.dev).value, s).Hit? <==> s < PiecesSize(ps) / SECTOR)
      && forall j :: 0 <= j < |ps| && PieceHolds(ps[j], s) ==>
        PieceTarget(Translate(w.k.maps, MinorOf(l.allocId, l.dev).value, s), ps[j], s)
  {
    BootsInStep();
    RunKeepsStack(Boot, ops);
    MountedDeviceTranslates(Run(Boot, ops), i, s);
    var _, _, _ := MountedFacts(Run(Boot, ops), i);
  }
}
