/** When the controller admits a mount, in numbers, and what a mount leaves. */
module MountEffects {
  import opened Types
  import opened Tables
  import opened KernelState
  import opened ReqShimIface
  import opened MockState
  import opened ControllerState
  import opened Ledger
  import opened Grants
  import opened MountMirror
  import opened Agreement
  import opened EndToEnd
  import opened Mounting
  import opened Unmounting

  // ---- when it is admitted ----

  function RowsOf(rows: Rows, id: string): set<nat> { set x: nat | x < |rows| && Carries(rows[x], RowId, id) }

  lemma {:induction false} PickCount<U>(rows: Rows, view: Row -> U, id: string)
    ensures |Pick(rows, RowId, view, id)| == |RowsOf(rows, id)|
  {
    if rows != [] {
      var n := |rows| - 1;
      PickCount(rows[..n], view, id);
      assert RowsOf(rows, id) == RowsOf(rows[..n], id) + if Carries(rows[n], RowId, id) then {n} else {};
    }
  }

  predicate PathFree(c: Ctl, dev: string) {
    forall j :: 0 <= j < |c.logdevs| ==> !Carries(c.logdevs[j], LogdevDev, dev)
  }

  /** The allocation is shared, or no device is mounted for it. */
  predicate MayShare(c: Ctl, id: string) {
    || (forall x :: 0 <= x < |c.rows| && Carries(c.rows[x], RowId, id) ==> c.rows[x].value.share == SHARED)
    || (forall j :: 0 <= j < |c.logdevs| ==> !Carries(c.logdevs[j], LogdevId, id))
  }

  /** There is a free device row for each of its extents. */
  predicate DeviceRowsLeft(c: Ctl, id: string) { |UsedSlots(c.logdevs)| + |RowsOf(c.rows, id)| <= |c.logdevs| }

  /** The allocation has rows, the path is free, no other device holds an allocation that
      is not shared, there is a free device row for each extent, and every SSU connects. */
  predicate MountAllowed(c: Ctl, req: MountReq, d: Devices) {
    && req.allocId != [] && req.hostId != [] && req.dev != [] && RowsOf(c.rows, req.allocId) != {}
    && PathFree(c, req.dev) && MayShare(c, req.allocId) && DeviceRowsLeft(c, req.allocId)
    && Connects(c.rows, req.allocId, d)
  }

  /** The status of a mount that is not allowed: the first of the checks that fails. */
  function Denied(c: Ctl, req: MountReq, d: Devices): Status {
    if req.allocId == [] || req.hostId == [] || req.dev == [] then INVALID
    else if RowsOf(c.rows, req.allocId) == {} then NOT_FOUND
    else if !PathFree(c, req.dev) || !MayShare(c, req.allocId) then BUSY
    else if !DeviceRowsLeft(c, req.allocId) then NO_RESOURCE
    else d.err
  }

  lemma SharedAlike(rows: Rows, id: string)
    requires Uniform(rows) && Has(rows, RowId, id)
    ensures rows[Find(rows, RowId, id)].value.share == SHARED <==>
      forall x :: 0 <= x < |rows| && Carries(rows[x], RowId, id) ==> rows[x].value.share == SHARED
  {
    var i := Find(rows, RowId, id);
    assert Carries(rows[i], RowId, id);
  }

  /** The controller's checks pass exactly then. */
  lemma MountCheckIff(c: Ctl, req: MountReq, d: Devices)
    requires Uniform(c.rows)
    ensures MountCheck(c, req, d) == if MountAllowed(c, req, d) then OK else Denied(c, req, d)
  {
    var id := req.allocId;
    PickNone(c.rows, RowId, RowPiece, id);
    PickCount(c.rows, RowPiece, id);
    HasSome(c.rows, RowId, id);
    HasSome(c.logdevs, LogdevDev, req.dev);
    HasSome(c.logdevs, LogdevId, id);
    UsedCount(c.logdevs);
    ConnectAlike(c.rows, id, d);
    if Has(c.rows, RowId, id) { SharedAlike(c.rows, id); }
  }

  // ---- what it leaves ----

  /** The device row of one extent. */
  function DeviceRow(req: MountReq, row: Row, d: Devices): Logdev
    requires row.ssuId in d.names
  {
    Logdev(req.dev, req.hostId, req.allocId, row.off, row.len, d.names[row.ssuId], row.nsId, row.phys)
  }

  ghost predicate Listed(logdevs: Logdevs, l: Logdev) { exists j :: 0 <= j < |logdevs| && logdevs[j] == Some(l) }

  /** Each extent of the allocation has a device row, there is one more row for each, and
      all rows that were there stay. */
  ghost predicate RowsAdded(rows: Rows, a: Logdevs, b: Logdevs, req: MountReq, d: Devices) {
    && Mounted(a, b, req) && |UsedSlots(b)| == |UsedSlots(a)| + |RowsOf(rows, req.allocId)|
    && forall x :: 0 <= x < |rows| && Carries(rows[x], RowId, req.allocId) ==>
      rows[x].value.ssuId in d.names && Listed(b, DeviceRow(req, rows[x].value, d))
  }

  predicate MountAdded(a: Mounts, b: Mounts, row: MountRow) {
    exists j :: 0 <= j < |a| && a[j].None? && b == a[j := Some(row)]
  }

  /** The minor, dead before, is live, and every other minor is as it was. */
  ghost predicate MinorAdded(a: Kernel, b: Kernel, minor: nat) {
    && !Live(a, minor) && Live(b, minor)
    && |b.devs| == |a.devs| && (forall x :: 0 <= x < |a.devs| && x != minor ==> b.devs[x] == a.devs[x])
    && (forall x: nat, s: nat :: x != minor ==> Translate(b.maps, x, s) == Translate(a.maps, x, s))
  }

  ghost predicate DeviceAdded(w: World, w2: World, req: MountReq, d: Devices, minor: nat) {
    && RowsAdded(w.c.rows, w.c.logdevs, w2.c.logdevs, req, d)
    && MountAdded(w.m.mounts, w2.m.mounts, MountRow(req.allocId, req.hostId, req.dev))
    && OnlyRestated(w.c.rows, w2.c.rows, req.allocId, MOUNTED)
    && MinorAdded(w.k, w2.k, minor)
    && w2.c == w.c.(rows := w2.c.rows, logdevs := w2.c.logdevs) && w2.m == w.m.(mounts := w2.m.mounts)
  }

  lemma ExtentListed(rows: Rows, logdevs: Logdevs, req: MountReq, d: Devices, x: nat)
    requires var pieces := PiecesOfId(rows, req.allocId);
      && AllConnect(pieces, d) && FreeCount(logdevs) >= |pieces| > 0 && !Has(logdevs, LogdevDev, req.dev)
    requires x < |rows| && Carries(rows[x], RowId, req.allocId)
    ensures rows[x].value.ssuId in d.names
    ensures Listed(PutAll(logdevs, NewLogdevs(req, PiecesOfId(rows, req.allocId), d)), DeviceRow(req, rows[x].value, d))
  {
    var pieces := PiecesOfId(rows, req.allocId);
    var after := PutAll(logdevs, NewLogdevs(req, pieces, d));
    PickIn(rows, RowId, RowPiece, req.allocId, x);
    var i :| 0 <= i < |pieces| && pieces[i] == RowPiece(rows[x].value);
    MountSpecs(logdevs, req, pieces, d);
    MountRows(logdevs, req, pieces, d);
    HasSome(logdevs, LogdevDev, req.dev);
    assert SpecsOf(pieces, d)[i] in DevSpecs(after, req.dev);
    var j := PickFrom(after, LogdevDev, LogdevSpec, req.dev, SpecsOf(pieces, d)[i]);
    assert !Carries(logdevs[j], LogdevDev, req.dev);
    assert after[j] == Some(DeviceRow(req, rows[x].value, d));
  }

  lemma RowsAreAdded(rows: Rows, logdevs: Logdevs, req: MountReq, d: Devices)
    requires var pieces := PiecesOfId(rows, req.allocId);
      && AllConnect(pieces, d) && FreeCount(logdevs) >= |pieces| > 0 && !Has(logdevs, LogdevDev, req.dev)
    ensures RowsAdded(rows, logdevs, PutAll(logdevs, NewLogdevs(req, PiecesOfId(rows, req.allocId), d)), req, d)
  {
    var pieces := PiecesOfId(rows, req.allocId);
    var after := PutAll(logdevs, NewLogdevs(req, pieces, d));
    MountRows(logdevs, req, pieces, d);
    UsedCount(logdevs);
    UsedCount(after);
    PickCount(rows, RowPiece, req.allocId);
    forall x | 0 <= x < |rows| && Carries(rows[x], RowId, req.allocId)
      ensures rows[x].value.ssuId in d.names && Listed(after, DeviceRow(req, rows[x].value, d))
    {
      ExtentListed(rows, logdevs, req, d, x);
    }
  }

  lemma KernelAdds(k: Kernel, k2: Kernel, dev: string, minor: nat, specs: seq<MapSpec>, f: KernelFaults)
    requires KernelInv(k) && f.ctl == CTL_PRESENT && Mount(k, dev, minor, specs, f) == (k2, OK)
    ensures MinorAdded(k, k2, minor)
  {
    MountAllOrNothing(k, dev, minor, specs, f);
    forall x: nat, s: nat | x != minor ensures Translate(k2.maps, x, s) == Translate(k.maps, x, s) {
      OtherTranslation(k2.maps, k.maps, minor, x, s);
    }
  }

  /** What any mount that succeeds leaves above the kernel. */
  lemma TablesGain(w: World, req: MountReq, d: Devices, f: KernelFaults)
    requires WorldShaped(w) && MountOp(w, req, d, f).1 == OK
    ensures var w2 := MountOp(w, req, d, f).0;
      && RowsAdded(w.c.rows, w.c.logdevs, w2.c.logdevs, req, d)
      && MountAdded(w.m.mounts, w2.m.mounts, MountRow(req.allocId, req.hostId, req.dev))
      && OnlyRestated(w.c.rows, w2.c.rows, req.allocId, MOUNTED)
      && w2.c == w.c.(rows := w2.c.rows, logdevs := w2.c.logdevs) && w2.m == w.m.(mounts := w2.m.mounts)
  {
    MountAdmitted(w, req, d, f);
    MountNsCases(w.m, w.k, MountRow(req.allocId, req.hostId, req.dev), d, f);
    RowsAreAdded(w.c.rows, w.c.logdevs, req, d);
    Restated(w.c.rows, req.allocId, MOUNTED);
    assert w.m.mounts[FirstFree(w.m.mounts)].None?;
  }

  /** What a mount that succeeds with the control device present leaves: the device's
      rows, one for each extent under the name its SSU was connected to, the plugin's
      mount, its live minor and the state MOUNTED on the allocation's rows; and nothing
      else has changed. */
  lemma MountGives(w: World, req: MountReq, d: Devices, f: KernelFaults) returns (minor: nat)
    requires WorldShaped(w) && KernelInv(w.k) && f.ctl == CTL_PRESENT && MountOp(w, req, d, f).1 == OK
    ensures MinorOf(req.allocId, req.dev) == Some(minor) && DeviceAdded(w, MountOp(w, req, d, f).0, req, d, minor)
  {
    var row := MountRow(req.allocId, req.hostId, req.dev);
    MountAdmitted(w, req, d, f);
    MountNsCases(w.m, w.k, row, d, f);
    minor := MinorOf(req.allocId, req.dev).value;
    KernelAdds(w.k, MountNs(w.m, w.k, row, d, f).1, req.dev, minor, SpecsOf(PiecesOf(w.m, req.allocId), d), f);
    TablesGain(w, req, d, f);
  }

  /** All that a mountable request needs but a minor that is not in use. */
  predicate CanBuild(w: World, req: MountReq, d: Devices) {
    var ps, minor := PiecesOfId(w.c.rows, req.allocId), MinorOf(req.allocId, req.dev);
    && DiskNameOk(req.dev) && ps != [] && AllConnect(ps, d) && PiecesSize(ps) % (512 * |ps|) == 0
    && (forall i :: 0 <= i < |ps| ==> NamesOk(SpecOf(ps[i], d)))
    && minor.Some? && minor.value < 256
  }

  lemma MountableIs(w: World, req: MountReq, d: Devices)
    ensures Mountable(w, req, d) <==> CanBuild(w, req, d) && !Live(w.k, MinorOf(req.allocId, req.dev).value)
  {}

  lemma KernelRefuses(k: Kernel, dev: string, minor: nat, specs: seq<MapSpec>, f: KernelFaults)
    requires KernelInv(k) && NoFault(f) && specs != []
    ensures var st := Mount(k, dev, minor, specs, f).1;
      && (Buildable(specs, minor) && DiskNameOk(dev) && minor < 256 && Live(k, minor) ==> st == BUSY)
      && (!(Buildable(specs, minor) && DiskNameOk(dev) && minor < 256) ==> st == INVALID)
  {
    SectorIsPowerOf2();
  }

  lemma AdmittedStatus(w: World, req: MountReq, d: Devices, f: KernelFaults)
    requires StackInv(w) && NoFault(f) && MountCheck(w.c, req, d) == OK
    ensures !CanBuild(w, req, d) ==> MountOp(w, req, d, f).1 == INVALID
    ensures CanBuild(w, req, d) && !Mountable(w, req, d) ==> MountOp(w, req, d, f).1 == BUSY
  {
    AdmittedMount(w, req, d);
    AdmittedOutcome(w, req, d, f);
    BuildStatus(w, req, d, f, PiecesOfId(w.c.rows, req.allocId), MountOp(w, req, d, f).1);
  }

  lemma BuildStatus(w: World, req: MountReq, d: Devices, f: KernelFaults, ps: seq<Piece>, st: Status)
    requires KernelInv(w.k) && NoFault(f) && ps == PiecesOfId(w.c.rows, req.allocId) && ps != [] && AllConnect(ps, d)
    requires StripeSpecs(SpecsOf(ps, d), PiecesSize(ps)) && PiecesSize(ps) <= U64_MAX
    requires var minor := MinorOf(req.allocId, req.dev);
      st == if minor.None? then INVALID else Mount(w.k, req.dev, minor.value, SpecsOf(ps, d), f).1
    ensures !CanBuild(w, req, d) ==> st == INVALID
    ensures CanBuild(w, req, d) && !Mountable(w, req, d) ==> st == BUSY
  {
    var minor := MinorOf(req.allocId, req.dev);
    if minor.Some? {
      NamedBuildable(ps, d, minor.value);
      KernelRefuses(w.k, req.dev, minor.value, SpecsOf(ps, d), f);
    }
  }

  /** In every state the stack keeps, with nothing injected, a mount succeeds exactly when
      the tables allow it and the device can be built on a minor of its own. Otherwise it
      changes nothing, and says which of these it lacks. */
  lemma MountIff(w: World, req: MountReq, d: Devices, f: KernelFaults)
    requires StackInv(w) && NoFault(f)
    ensures var (w2, st) := MountOp(w, req, d, f);
      && (st == OK <==> MountAllowed(w.c, req, d) && Mountable(w, req, d))
      && (st != OK ==> w2 == w)
      && (!MountAllowed(w.c, req, d) ==> st == Denied(w.c, req, d))
      && (MountAllowed(w.c, req, d) && !Mountable(w, req, d) ==> st == if CanBuild(w, req, d) then BUSY else INVALID)
  {
    MountSucceedsIff(w, req, d, f);
    MountCheckIff(w.c, req, d);
    if MountCheck(w.c, req, d) == OK { AdmittedStatus(w, req, d, f); }
  }

  // ---- without the control device ----

  /** A mount that is allowed and can be built never reaches the kernel then. Without a
      control device it is recorded by the controller and the plugin all the same; with
      one that fails it is refused and changes nothing. */
  lemma MountWithoutControl(w: World, req: MountReq, d: Devices, f: KernelFaults)
    requires StackInv(w) && f.ctl != CTL_PRESENT && MountAllowed(w.c, req, d) && CanBuild(w, req, d)
    ensures var (w2, st) := MountOp(w, req, d, f);
      && ControlSays(f.ctl, st) && w2.k == w.k && (st != OK ==> w2 == w)
      && (st == OK ==>
            && RowsAdded(w.c.rows, w.c.logdevs, w2.c.logdevs, req, d)
            && MountAdded(w.m.mounts, w2.m.mounts, MountRow(req.allocId, req.hostId, req.dev))
            && OnlyRestated(w.c.rows, w2.c.rows, req.allocId, MOUNTED))
  {
    MountCheckIff(w.c, req, d);
    AdmittedWithout(w, req, d, f);
    if MountOp(w, req, d, f).1 == OK { TablesGain(w, req, d, f); }
  }

  lemma KernelWithout(k: Kernel, dev: string, minor: nat, specs: seq<MapSpec>, f: KernelFaults)
    requires Shaped(k) && f.ctl != CTL_PRESENT && specs != [] && Buildable(specs, minor) && DiskNameOk(dev)
    ensures Mount(k, dev, minor, specs, f).0 == k && ControlSays(f.ctl, Mount(k, dev, minor, specs, f).1)
  {}

  lemma AdmittedWithout(w: World, req: MountReq, d: Devices, f: KernelFaults)
    requires StackInv(w) && f.ctl != CTL_PRESENT && MountCheck(w.c, req, d) == OK && CanBuild(w, req, d)
    ensures var (w2, st) := MountOp(w, req, d, f); ControlSays(f.ctl, st) && w2.k == w.k && (st != OK ==> w2 == w)
  {
    var ps, minor := PiecesOfId(w.c.rows, req.allocId), MinorOf(req.allocId, req.dev);
    AdmittedMount(w, req, d);
    AdmittedOutcome(w, req, d, f);
    NamedBuildable(ps, d, minor.value);
    KernelWithout(w.k, req.dev, minor.value, SpecsOf(ps, d), f);
    KernelOfMount(w, req, d, f, minor.value, ps);
  }

  lemma KernelOfMount(w: World, req: MountReq, d: Devices, f: KernelFaults, minor: nat, ps: seq<Piece>)
    requires WorldShaped(w) && PiecesOf(w.m, req.allocId) == ps && AllConnect(ps, d)
    requires MinorOf(req.allocId, req.dev) == Some(minor) && Mount(w.k, req.dev, minor, SpecsOf(ps, d), f).0 == w.k
    ensures MountOp(w, req, d, f).0.k == w.k
  {
    MountCases(w, req, d, f);
    MountNsCases(w.m, w.k, MountRow(req.allocId, req.hostId, req.dev), d, f);
  }
}
