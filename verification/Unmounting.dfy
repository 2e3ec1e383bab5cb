/** When an unmount succeeds, what it leaves, and that it undoes a mount. */
module Unmounting {
  import opened Types
  import opened Tables
  import opened KernelState
  import opened ReqShimIface
  import opened MockState
  import opened ControllerState
  import opened Ledger
  import opened MountMirror
  import opened Agreement
  import opened EndToEnd
  import opened Mounting

  /** The device row of a mounted path, and the minor of its kernel device. */
  predicate IsDevice(w: World, dev: string, i: nat, minor: nat) {
    && i < |w.c.logdevs| && Carries(w.c.logdevs[i], LogdevDev, dev)
    && MinorOf(w.c.logdevs[i].value.allocId, dev) == Some(minor)
  }

  // ---- what it needs ----

  /** Every SSU that holds an extent of the allocation connects, to a device name of 1
      to 63 characters. */
  predicate Reconnects(rows: Rows, id: string, d: Devices) {
    forall x :: 0 <= x < |rows| && Carries(rows[x], RowId, id) ==>
      rows[x].value.ssuId in d.names && 0 < |d.names[rows[x].value.ssuId]| < 64
  }

  /** Every SSU that holds an extent of the allocation connects. */
  predicate Connects(rows: Rows, id: string, d: Devices) {
    forall x :: 0 <= x < |rows| && Carries(rows[x], RowId, id) ==> rows[x].value.ssuId in d.names
  }

  lemma ConnectAlike(rows: Rows, id: string, d: Devices)
    ensures AllConnect(PiecesOfId(rows, id), d) <==> Connects(rows, id, d)
  {
    var ps := PiecesOfId(rows, id);
    if AllConnect(ps, d) {
      forall x | 0 <= x < |rows| && Carries(rows[x], RowId, id) ensures rows[x].value.ssuId in d.names {
        PickIn(rows, RowId, RowPiece, id, x);
      }
    }
    if Connects(rows, id, d) {
      forall i | 0 <= i < |ps| ensures ps[i].ssuId in d.names {
        var x := PickFrom(rows, RowId, RowPiece, id, ps[i]);
      }
    }
  }

  predicate NamedAll(ps: seq<Piece>, d: Devices) {
    AllConnect(ps, d) && forall i :: 0 <= i < |ps| ==> 0 < |d.names[ps[i].ssuId]| < 64
  }

  lemma ReconnectsIsNamed(rows: Rows, id: string, d: Devices)
    ensures Reconnects(rows, id, d) <==> NamedAll(PiecesOfId(rows, id), d)
  {
    var ps := PiecesOfId(rows, id);
    if Reconnects(rows, id, d) {
      forall i | 0 <= i < |ps| ensures ps[i].ssuId in d.names && 0 < |d.names[ps[i].ssuId]| < 64 {
        var x := PickFrom(rows, RowId, RowPiece, id, ps[i]);
      }
    }
    if NamedAll(ps, d) {
      forall x | 0 <= x < |rows| && Carries(rows[x], RowId, id)
        ensures rows[x].value.ssuId in d.names && 0 < |d.names[rows[x].value.ssuId]| < 64
      {
        PickIn(rows, RowId, RowPiece, id, x);
      }
    }
  }

  predicate CanRebuild(ps: seq<Piece>, d: Devices, minor: nat) {
    AllConnect(ps, d) && Buildable(SpecsOf(ps, d), minor)
  }

  /** The specs of a mounted device can be built again exactly when the names they are
      built with fit. */
  lemma BuiltAgain(specs: seq<MapSpec>, ps: seq<Piece>, d: Devices, minor: nat)
    requires SpecsAre(specs, ps) && StripeSpecs(specs, PiecesSize(ps)) && PiecesSize(ps) <= U64_MAX
    requires Buildable(specs, minor)
    ensures CanRebuild(ps, d, minor) <==> NamedAll(ps, d)
  {
    if AllConnect(ps, d) { BuiltFrom(specs, ps, d, minor); }
  }

  lemma BuiltFrom(specs: seq<MapSpec>, ps: seq<Piece>, d: Devices, minor: nat)
    requires SpecsAre(specs, ps) && StripeSpecs(specs, PiecesSize(ps)) && PiecesSize(ps) <= U64_MAX
    requires Buildable(specs, minor) && AllConnect(ps, d)
    ensures Buildable(SpecsOf(ps, d), minor) <==> NamedAll(ps, d)
  {
    forall i | 0 <= i < |specs| ensures NamesOk(specs[i]) {
      assert SpecOk(specs[i], minor);
    }
    StripeMountable(specs, PiecesSize(ps), minor);
    SpecsOfPieces(ps, d);
    SameStripe(SpecsOf(ps, d), specs, ps);
    NamedBuildable(ps, d, minor);
    forall i | 0 <= i < |ps| ensures NamesOk(SpecOf(ps[i], d)) <==> 0 < |d.names[ps[i].ssuId]| < 64 {
      assert SpecIs(specs[i], ps[i]) && NamesOk(specs[i]);
    }
  }

  lemma SameStripe(a: seq<MapSpec>, b: seq<MapSpec>, ps: seq<Piece>)
    requires SpecsAre(a, ps) && SpecsAre(b, ps) && StripeSpecs(b, PiecesSize(ps))
    ensures StripeSpecs(a, PiecesSize(ps))
  {
    forall i | 0 <= i < |a| ensures a[i].off == b[i].off && a[i].len == b[i].len {
      assert SpecIs(a[i], ps[i]) && SpecIs(b[i], ps[i]);
    }
  }

  // ---- what it leaves ----

  /** The path's rows are gone from the table, every other slot is as it was. */
  predicate OnlyDeviceGone(a: Logdevs, b: Logdevs, dev: string) {
    |a| == |b| && forall x :: 0 <= x < |a| ==> b[x] == if Carries(a[x], LogdevDev, dev) then None else a[x]
  }

  predicate OnlyMountGone(a: Mounts, b: Mounts, dev: string) {
    |a| == |b| && forall x :: 0 <= x < |a| ==> b[x] == if Carries(a[x], MountDev, dev) then None else a[x]
  }

  /** The rows of the id say st, every other row is as it was. */
  predicate OnlyRestated(a: Rows, b: Rows, id: string, st: RowState) {
    |a| == |b| && forall x :: 0 <= x < |a| ==>
      b[x] == if Carries(a[x], RowId, id) then Some(a[x].value.(state := st)) else a[x]
  }

  /** The minor is dead and no sector of it translates; every other minor is as it was. */
  ghost predicate OnlyMinorGone(a: Kernel, b: Kernel, minor: nat) {
    && !Live(b, minor) && (forall s: nat :: Translate(b.maps, minor, s) == Miss(ENOENT))
    && |b.devs| == |a.devs| && (forall x :: 0 <= x < |a.devs| && x != minor ==> b.devs[x] == a.devs[x])
    && (forall x: nat, s: nat :: x != minor ==> Translate(b.maps, x, s) == Translate(a.maps, x, s))
  }

  /** Whether another device is mounted for the id. */
  predicate MountedElsewhere(logdevs: Logdevs, id: string, dev: string) {
    exists x :: 0 <= x < |logdevs| && Carries(logdevs[x], LogdevId, id) && logdevs[x].value.dev != dev
  }

  /** The path is gone from the controller and the plugin, its allocation is restated, and
      nothing else has changed above the kernel. */
  predicate TablesGone(w: World, w2: World, dev: string, id: string) {
    && OnlyDeviceGone(w.c.logdevs, w2.c.logdevs, dev) && OnlyMountGone(w.m.mounts, w2.m.mounts, dev)
    && OnlyRestated(w.c.rows, w2.c.rows, id, if MountedElsewhere(w.c.logdevs, id, dev) then MOUNTED else ACTIVE)
    && w2.c == w.c.(rows := w2.c.rows, logdevs := w2.c.logdevs) && w2.m == w.m.(mounts := w2.m.mounts)
  }

  ghost predicate DeviceGone(w: World, w2: World, dev: string, id: string, minor: nat) {
    TablesGone(w, w2, dev, id) && OnlyMinorGone(w.k, w2.k, minor)
  }

  lemma ClearedTranslation(k: Kernel, k2: Kernel, minor: nat)
    requires Live(k, minor) && k2.maps == Cleared(k.maps, minor) && k2.devs == k.devs[minor := None]
    ensures OnlyMinorGone(k, k2, minor)
  {
    forall x: nat, s: nat | x != minor ensures Translate(k2.maps, x, s) == Translate(k.maps, x, s) {
      OtherTranslation(k.maps, k2.maps, minor, x, s);
    }
  }

  lemma OtherTranslation(a: Maps, b: Maps, minor: nat, x: nat, s: nat)
    requires b == Cleared(a, minor) && x != minor
    ensures Translate(b, x, s) == Translate(a, x, s)
  {
    forall i | 0 <= i < |a| ensures Matches(b[i], x, s) <==> Matches(a[i], x, s) {}
    var i, j := QuerySlot(a, x, s), QuerySlot(b, x, s);
    assert i < |a| ==> Matches(b[i], x, s);
    assert j < |a| ==> Matches(a[j], x, s);
  }

  lemma DroppedHas(logdevs: Logdevs, dev: string, id: string)
    ensures Has(Drop(logdevs, LogdevDev, dev), LogdevId, id) <==> MountedElsewhere(logdevs, id, dev)
  {
    var after := Drop(logdevs, LogdevDev, dev);
    HasSome(after, LogdevId, id);
    if MountedElsewhere(logdevs, id, dev) {
      var x :| 0 <= x < |logdevs| && Carries(logdevs[x], LogdevId, id) && logdevs[x].value.dev != dev;
      assert Carries(after[x], LogdevId, id);
    }
  }

  lemma MountDropped(logdevs: Logdevs, mounts: Mounts, dev: string)
    requires MountsAgree(logdevs, mounts) && Has(mounts, MountDev, dev)
    ensures OnlyMountGone(mounts, mounts[Find(mounts, MountDev, dev) := None], dev)
  {}

  // ---- the plugin and the kernel ----

  /** What the plugin finds for a mounted path. */
  lemma PluginKnows(w: World, dev: string, i: nat)
    requires Agrees(w) && i < |w.c.logdevs| && Carries(w.c.logdevs[i], LogdevDev, dev)
    ensures Has(w.m.mounts, MountDev, dev)
    ensures w.m.mounts[Find(w.m.mounts, MountDev, dev)].value.allocId == w.c.logdevs[i].value.allocId
    ensures PiecesOf(w.m, w.c.logdevs[i].value.allocId) == PiecesOfId(w.c.rows, w.c.logdevs[i].value.allocId)
  {
    TwinPieces(w.c.rows, w.m.nss, w.c.logdevs[i].value.allocId);
  }

  lemma PluginUnmounts(m: Mock, k: Kernel, dev: string, id: string, d: Devices, f: KernelFaults, minor: nat)
    requires KernelInv(k) && Live(k, minor) && f.ctl == CTL_PRESENT && Has(m.mounts, MountDev, dev)
    requires m.mounts[Find(m.mounts, MountDev, dev)].value.allocId == id && MinorOf(id, dev) == Some(minor)
    requires PiecesOf(m, id) != []
    requires CanRebuild(PiecesOf(m, id), d, minor) <==> NamedAll(PiecesOf(m, id), d)
    ensures var (m2, k2, st) := UnmountNs(m, k, dev, d, f);
      && (st == OK <==> NamedAll(PiecesOf(m, id), d))
      && (st == OK ==>
            && m2 == m.(mounts := m.mounts[Find(m.mounts, MountDev, dev) := None])
            && k2.maps == Cleared(k.maps, minor) && k2.devs == k.devs[minor := None])
      && (st != OK ==> m2 == m && k2 == k && st == if AllConnect(PiecesOf(m, id), d) then INVALID else d.err)
  {
    if AllConnect(PiecesOf(m, id), d) {
      UnmountClears(k, minor, SpecsOf(PiecesOf(m, id), d), f);
    }
  }

  /** In every state the stack keeps, with the control device present, the unmount of a
      mounted path succeeds exactly when every SSU of its allocation connects again under
      a name that fits. Then the path is gone from the device table, the plugin and the
      kernel, its allocation is ACTIVE again unless another device holds it, and nothing
      else has changed; a refused unmount changes nothing at all. */
  lemma UnmountSucceedsIff(w: World, dev: string, d: Devices, f: KernelFaults, i: nat)
    returns (minor: nat)
    requires StackInv(w) && f.ctl == CTL_PRESENT && i < |w.c.logdevs| && Carries(w.c.logdevs[i], LogdevDev, dev)
    ensures IsDevice(w, dev, i, minor)
    ensures var id, (w2, st) := w.c.logdevs[i].value.allocId, UnmountOp(w, dev, d, f);
      && (st == OK <==> dev != [] && Reconnects(w.c.rows, id, d))
      && (st == OK ==> DeviceGone(w, w2, dev, id, minor))
      && (st != OK ==> w2 == w && st == if dev == [] || Connects(w.c.rows, id, d) then INVALID else d.err)
  {
    var id := w.c.logdevs[i].value.allocId;
    var specs, ps;
    specs, ps, minor := MountedFacts(w, i);
    assert WiredDev(w.c.logdevs, w.k, w.c.logdevs[i].value);
    PluginKnows(w, dev, i);
    BuiltAgain(specs, ps, d, minor);
    PluginUnmounts(w.m, w.k, dev, id, d, f, minor);
    ReconnectsIsNamed(w.c.rows, id, d);
    ConnectAlike(w.c.rows, id, d);
    if dev != [] && Reconnects(w.c.rows, id, d) {
      UnmountedTables(w, dev, d, f, i);
      ClearedTranslation(w.k, UnmountNs(w.m, w.k, dev, d, f).1, minor);
    }
  }

  lemma UnmountedTables(w: World, dev: string, d: Devices, f: KernelFaults, i: nat)
    requires WorldShaped(w) && Agrees(w) && Mirror(w.c.rows, w.c.logdevs) && dev != []
    requires i < |w.c.logdevs| && Carries(w.c.logdevs[i], LogdevDev, dev)
    requires Has(w.m.mounts, MountDev, dev)
    requires var (m2, k2, st) := UnmountNs(w.m, w.k, dev, d, f);
      st == OK && m2 == w.m.(mounts := w.m.mounts[Find(w.m.mounts, MountDev, dev) := None])
    ensures var (w2, st) := UnmountOp(w, dev, d, f);
      st == OK && TablesGone(w, w2, dev, w.c.logdevs[i].value.allocId) && w2.k == UnmountNs(w.m, w.k, dev, d, f).1
  {
    var id := w.c.logdevs[i].value.allocId;
    var w2 := UnmountOp(w, dev, d, f).0;
    assert Carries(w.c.logdevs[Find(w.c.logdevs, LogdevDev, dev)], LogdevDev, dev);
    DroppedHas(w.c.logdevs, dev, id);
    MountDropped(w.c.logdevs, w.m.mounts, dev);
    var state := if Has(Drop(w.c.logdevs, LogdevDev, dev), LogdevId, id) then MOUNTED else ACTIVE;
    assert w2.c.rows == SetState(w.c.rows, id, state);
    Restated(w.c.rows, id, state);
  }

  lemma Restated(rows: Rows, id: string, st: RowState)
    ensures OnlyRestated(rows, SetState(rows, id, st), id, st)
  {
    forall x | 0 <= x < |rows| ensures SetState(rows, id, st)[x] == WithState(rows[x], id, st) {}
  }

  /** What a mount or unmount reports when the control device cannot be used. */
  predicate ControlSays(ctl: Control, st: Status) {
    && (ctl == CTL_MISSING ==> st == OK) && (ctl == CTL_ERROR ==> st == KERNEL)
    && (ctl == CTL_OTHER_VERSION ==> st == UNSUPPORTED) && (ctl.CTL_NO_VERSION? ==> st == ErrnoToStatus(ctl.err))
  }

  /** Without a control device the unmount of a mounted path is recorded all the same,
      and the kernel keeps its device; with one that fails it is refused. */
  lemma UnmountWithoutControl(w: World, dev: string, d: Devices, f: KernelFaults, i: nat)
    requires StackInv(w) && f.ctl != CTL_PRESENT && i < |w.c.logdevs| && Carries(w.c.logdevs[i], LogdevDev, dev)
    requires dev != [] && Reconnects(w.c.rows, w.c.logdevs[i].value.allocId, d)
    ensures var (w2, st) := UnmountOp(w, dev, d, f);
      && ControlSays(f.ctl, st) && w2.k == w.k && (st != OK ==> w2 == w)
      && (st == OK ==> TablesGone(w, w2, dev, w.c.logdevs[i].value.allocId))
  {
    var id := w.c.logdevs[i].value.allocId;
    var specs, ps, minor := MountedFacts(w, i);
    PluginKnows(w, dev, i);
    BuiltAgain(specs, ps, d, minor);
    ReconnectsIsNamed(w.c.rows, id, d);
    PluginWithout(w.m, w.k, dev, id, d, f, minor);
    if UnmountNs(w.m, w.k, dev, d, f).2 == OK { UnmountedTables(w, dev, d, f, i); }
  }

  lemma PluginWithout(m: Mock, k: Kernel, dev: string, id: string, d: Devices, f: KernelFaults, minor: nat)
    requires Shaped(k) && f.ctl != CTL_PRESENT && Has(m.mounts, MountDev, dev)
    requires m.mounts[Find(m.mounts, MountDev, dev)].value.allocId == id && MinorOf(id, dev) == Some(minor)
    requires PiecesOf(m, id) != [] && CanRebuild(PiecesOf(m, id), d, minor)
    ensures var (m2, k2, st) := UnmountNs(m, k, dev, d, f);
      && ControlSays(f.ctl, st) && k2 == k && (st != OK ==> m2 == m)
      && (st == OK ==> m2 == m.(mounts := m.mounts[Find(m.mounts, MountDev, dev) := None]))
  {}

  /** The unmount of a path that is not mounted reaches for the minor that its last
      component spells. It takes a live one away, whoever has it mounted; otherwise it is
      refused, as malformed without such a number or as not found, and changes nothing. */
  lemma StrayOutcome(w: World, dev: string, d: Devices, f: KernelFaults)
    requires StackInv(w) && f.ctl == CTL_PRESENT && !Has(w.c.logdevs, LogdevDev, dev)
    ensures var (w2, st), spelt := UnmountOp(w, dev, d, f), LogicalMinor(dev);
      && w2.c == w.c && w2.m == w.m
      && (st == OK <==> dev != [] && spelt.Some? && Live(w.k, spelt.value))
      && (st == OK ==> OnlyMinorGone(w.k, w2.k, spelt.value))
      && (st != OK ==>
            w2 == w && st == if dev == [] || spelt.None? || spelt.value >= 256 then INVALID else NOT_FOUND)
  {
    UnmountNsCases(w.m, w.k, dev, d, f);
    UnknownToBoth(w.c.logdevs, w.m.mounts, dev);
    var spelt := LogicalMinor(dev);
    if dev != [] && spelt.Some? {
      UnmountClears(w.k, spelt.value, [], f);
      DeadMinor(w.k, spelt.value, f);
      if Live(w.k, spelt.value) {
        ClearedTranslation(w.k, Unmount(w.k, spelt.value, [], f).0, spelt.value);
      }
    }
  }

  lemma DeadMinor(k: Kernel, minor: nat, f: KernelFaults)
    requires Shaped(k) && f.ctl == CTL_PRESENT
    ensures !Live(k, minor) ==> Unmount(k, minor, [], f).1 == if minor >= 256 then INVALID else NOT_FOUND
  {}

  // ---- mount and unmount ----

  lemma RestatedBack(rows: Rows, logdevs: Logdevs, id: string)
    requires StatesShow(rows, logdevs)
    ensures SetState(SetState(rows, id, MOUNTED), id, if Has(logdevs, LogdevId, id) then MOUNTED else ACTIVE) == rows
  {
    var st := if Has(logdevs, LogdevId, id) then MOUNTED else ACTIVE;
    var mid := SetState(rows, id, MOUNTED);
    forall x | 0 <= x < |rows| ensures SetState(mid, id, st)[x] == rows[x] {
      assert mid[x] == WithState(rows[x], id, MOUNTED) && SetState(mid, id, st)[x] == WithState(mid[x], id, st);
    }
  }

  lemma DroppedBack(logdevs: Logdevs, req: MountReq, pieces: seq<Piece>, d: Devices)
    requires AllConnect(pieces, d) && FreeCount(logdevs) >= |pieces| > 0 && !Has(logdevs, LogdevDev, req.dev)
    ensures var after := PutAll(logdevs, NewLogdevs(req, pieces, d));
      Drop(after, LogdevDev, req.dev) == logdevs && Has(after, LogdevDev, req.dev)
      && after[Find(after, LogdevDev, req.dev)].value.allocId == req.allocId
  {
    var ls := NewLogdevs(req, pieces, d);
    var after := PutAll(logdevs, ls);
    MountRows(logdevs, req, pieces, d);
    PutAllHas(logdevs, ls, LogdevDev, req.dev);
    HasSome(logdevs, LogdevDev, req.dev);
    forall x | 0 <= x < |logdevs| ensures Drop(after, LogdevDev, req.dev)[x] == logdevs[x] {
      assert !Carries(logdevs[x], LogdevDev, req.dev);
    }
  }

  lemma MountTakenBack(mounts: Mounts, row: MountRow)
    requires FirstFree(mounts) < |mounts| && !Has(mounts, MountDev, row.dev)
    ensures var after := Put(mounts, row); var j := Find(after, MountDev, row.dev);
      j < |after| && after[j] == Some(row) && after[j := None] == mounts
  {
    FindPut(mounts, row, row.dev);
    var after := Put(mounts, row);
    var f, j := FirstFree(mounts), Find(after, MountDev, row.dev);
    HasSome(mounts, MountDev, row.dev);
    assert j == f;
    assert mounts[f := None] == mounts;
  }

  /** The plugin and the kernel take a mount back. */
  lemma PluginTakesBack(m: Mock, k: Kernel, row: MountRow, d: Devices, f: KernelFaults, g: KernelFaults)
    requires KernelInv(k) && f.ctl == g.ctl == CTL_PRESENT && MountNs(m, k, row, d, f).2 == OK
    ensures var (m1, k1, st) := MountNs(m, k, row, d, f); UnmountNs(m1, k1, row.dev, d, g) == (m, k, OK)
  {
    var (m1, k1, st) := MountNs(m, k, row, d, f);
    MountNsCases(m, k, row, d, f);
    MountTakenBack(m.mounts, row);
    var pieces, minor := PiecesOf(m, row.allocId), MinorOf(row.allocId, row.dev).value;
    UnmountUndoesMount(k, row.dev, minor, SpecsOf(pieces, d), f, g);
    assert m1.(mounts := m.mounts) == m;
  }

  /** Unmounting a path that was just mounted gives back the whole stack: every table of
      the controller, the plugin and the kernel, slot by slot. */
  lemma MountThenUnmount(w: World, req: MountReq, d: Devices, f: KernelFaults, g: KernelFaults)
    requires StackInv(w) && f.ctl == g.ctl == CTL_PRESENT && MountOp(w, req, d, f).1 == OK
    ensures UnmountOp(MountOp(w, req, d, f).0, req.dev, d, g) == (w, OK)
  {
    var pieces := PiecesOfId(w.c.rows, req.allocId);
    MountAdmitted(w, req, d, f);
    PluginTakesBack(w.m, w.k, MountRow(req.allocId, req.hostId, req.dev), d, f, g);
    DroppedBack(w.c.logdevs, req, pieces, d);
    RestatedBack(w.c.rows, w.c.logdevs, req.allocId);
    TablesBack(w, req, pieces, d, f, g);
  }

  lemma MountAdmitted(w: World, req: MountReq, d: Devices, f: KernelFaults)
    requires WorldShaped(w) && MountOp(w, req, d, f).1 == OK
    ensures MountCheck(w.c, req, d) == OK && req.dev != []
    ensures var pieces := PiecesOfId(w.c.rows, req.allocId);
      pieces != [] && FreeCount(w.c.logdevs) >= |pieces| && AllConnect(pieces, d)
      && !Has(w.c.logdevs, LogdevDev, req.dev)
    ensures MountNs(w.m, w.k, MountRow(req.allocId, req.hostId, req.dev), d, f).2 == OK
  {}

  lemma TablesBack(w: World, req: MountReq, pieces: seq<Piece>, d: Devices, f: KernelFaults, g: KernelFaults)
    requires WorldShaped(w) && MountOp(w, req, d, f).1 == OK && MountCheck(w.c, req, d) == OK && req.dev != []
    requires pieces == PiecesOfId(w.c.rows, req.allocId) && AllConnect(pieces, d) && FreeCount(w.c.logdevs) >= |pieces|
    requires var after := PutAll(w.c.logdevs, NewLogdevs(req, pieces, d));
      && Drop(after, LogdevDev, req.dev) == w.c.logdevs && Has(after, LogdevDev, req.dev)
      && after[Find(after, LogdevDev, req.dev)].value.allocId == req.allocId
    requires SetState(SetState(w.c.rows, req.allocId, MOUNTED), req.allocId,
      if Has(w.c.logdevs, LogdevId, req.allocId) then MOUNTED else ACTIVE) == w.c.rows
    requires var (m1, k1, st) := MountNs(w.m, w.k, MountRow(req.allocId, req.hostId, req.dev), d, f);
      st == OK && UnmountNs(m1, k1, req.dev, d, g) == (w.m, w.k, OK)
    ensures UnmountOp(MountOp(w, req, d, f).0, req.dev, d, g) == (w, OK)
  {
    var w2 := UnmountOp(MountOp(w, req, d, f).0, req.dev, d, g).0;
    assert w2.c == w.c && w2.m == w.m && w2.k == w.k;
  }
}
