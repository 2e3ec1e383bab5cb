/** Two mounted devices share no physical sector: when that holds, over runs. */
module Isolation {
  import opened Types
  import opened Tables
  import opened Decimal
  import opened KernelState
  import opened ReqShimIface
  import opened MockState
  import opened ControllerState
  import opened Ledger
  import opened Grants
  import opened Idempotence
  import opened MountMirror
  import opened Agreement
  import opened Tiling
  import opened EndToEnd
  import opened Mounting

  // ---- one name for each SSU ----

  /** A mount's connections use the device names of d, as far as SSUs connect. */
  predicate NamesBy(some: Devices, d: Devices) {
    forall s :: s in some.names ==> s in d.names && d.names[s] == some.names[s]
  }

  predicate OneNaming(op: Op, d: Devices) { op.OpMount? ==> NamesBy(op.devices, d) }

  /** The device's extents are its allocation's, under d's names. */
  predicate DevNamed(rows: Rows, logdevs: Logdevs, d: Devices, l: Logdev) {
    var ps := PiecesOfId(rows, l.allocId);
    AllConnect(ps, d) && DevSpecs(logdevs, l.dev) == SpecsOf(ps, d)
  }

  predicate Named(rows: Rows, logdevs: Logdevs, d: Devices) {
    forall i :: 0 <= i < |logdevs| && logdevs[i].Some? ==> DevNamed(rows, logdevs, d, logdevs[i].value)
  }

  lemma SameSpecs(ps: seq<Piece>, some: Devices, d: Devices)
    requires AllConnect(ps, some) && NamesBy(some, d)
    ensures AllConnect(ps, d) && SpecsOf(ps, some) == SpecsOf(ps, d)
  {}

  /** Rows that agree without their state have the same pieces. */
  lemma SameBareSamePieces(a: Rows, b: Rows, id: string)
    requires Pick(a, RowId, RowBare, id) == Pick(b, RowId, RowBare, id)
    ensures PiecesOfId(a, id) == PiecesOfId(b, id)
  {
    BarePieces(a, id);
    BarePieces(b, id);
  }

  lemma PiecesStay(w: World, op: Op, id: string)
    requires WorldShaped(w) && Books(w.c) && RowsOk(w.c) && Step(w, op).c.nextId < TWO64
    requires Has(w.c.rows, RowId, id) && (op.OpRelease? ==> op.id != id)
    ensures PiecesOfId(Step(w, op).c.rows, id) == PiecesOfId(w.c.rows, id)
  {
    assert IssuedBelow(ID_PREFIX, w.c.rows[Find(w.c.rows, RowId, id)].value.allocId, w.c.nextId);
    StepKeepsGrant(w, op, id);
    SameBareSamePieces(Step(w, op).c.rows, w.c.rows, id);
  }

  /** A device that keeps its specs keeps its names. */
  lemma NamedStays(w: World, op: Op, d: Devices, l: Logdev)
    requires WorldShaped(w) && Books(w.c) && RowsOk(w.c) && Step(w, op).c.nextId < TWO64
    requires Has(w.c.rows, RowId, l.allocId) && (op.OpRelease? ==> op.id != l.allocId)
    requires DevNamed(w.c.rows, w.c.logdevs, d, l)
    requires DevSpecs(Step(w, op).c.logdevs, l.dev) == DevSpecs(w.c.logdevs, l.dev)
    ensures DevNamed(Step(w, op).c.rows, Step(w, op).c.logdevs, d, l)
  {
    PiecesStay(w, op, l.allocId);
  }

  lemma StepKeepsNamed(w: World, op: Op, d: Devices)
    requires WorldShaped(w) && Books(w.c) && RowsOk(w.c) && Mirror(w.c.rows, w.c.logdevs)
    requires Named(w.c.rows, w.c.logdevs, d) && OneNaming(op, d) && Step(w, op).c.nextId < TWO64
    ensures Named(Step(w, op).c.rows, Step(w, op).c.logdevs, d)
  {
    if op.OpMount? {
      MountKeepsNamed(w, op, d);
    } else if op.OpUnmount? {
      UnmountKeepsNamed(w, op, d);
    } else {
      OtherKeepsNamed(w, op, d);
    }
  }

  lemma OtherKeepsNamed(w: World, op: Op, d: Devices)
    requires WorldShaped(w) && Books(w.c) && RowsOk(w.c) && Mirror(w.c.rows, w.c.logdevs)
    requires Named(w.c.rows, w.c.logdevs, d) && !op.OpMount? && !op.OpUnmount? && Step(w, op).c.nextId < TWO64
    ensures Named(Step(w, op).c.rows, Step(w, op).c.logdevs, d)
  {
    var c2 := Step(w, op).c;
    OtherFrame(w, op);
    forall i | 0 <= i < |c2.logdevs| && c2.logdevs[i].Some?
      ensures DevNamed(c2.rows, c2.logdevs, d, c2.logdevs[i].value)
    {
      MountedHasRows(w.c.rows, w.c.logdevs, i);
      var l := w.c.logdevs[i].value;
      if op.OpRelease? && op.id == l.allocId {
        assert Carries(w.c.logdevs[i], LogdevId, op.id);
        HasSome(w.c.logdevs, LogdevId, op.id);
      } else {
        NamedStays(w, op, d, l);
      }
    }
  }

  lemma UnmountKeepsNamed(w: World, op: Op, d: Devices)
    requires WorldShaped(w) && Books(w.c) && RowsOk(w.c) && Mirror(w.c.rows, w.c.logdevs)
    requires Named(w.c.rows, w.c.logdevs, d) && op.OpUnmount? && Step(w, op).c.nextId < TWO64
    ensures Named(Step(w, op).c.rows, Step(w, op).c.logdevs, d)
  {
    var c2 := Step(w, op).c;
    UnmountCases(w, op.dev, op.devices, op.faults);
    forall i | 0 <= i < |c2.logdevs| && c2.logdevs[i].Some?
      ensures DevNamed(c2.rows, c2.logdevs, d, c2.logdevs[i].value)
    {
      var l := w.c.logdevs[i].value;
      assert c2.logdevs[i] == w.c.logdevs[i];
      MountedHasRows(w.c.rows, w.c.logdevs, i);
      if c2.logdevs != w.c.logdevs {
        DropPick(w.c.logdevs, LogdevDev, op.dev, LogdevSpec, l.dev);
      }
      NamedStays(w, op, d, l);
    }
  }

  lemma MountKeepsNamed(w: World, op: Op, d: Devices)
    requires WorldShaped(w) && Books(w.c) && RowsOk(w.c) && Mirror(w.c.rows, w.c.logdevs)
    requires Named(w.c.rows, w.c.logdevs, d) && op.OpMount? && NamesBy(op.devices, d) && Step(w, op).c.nextId < TWO64
    ensures Named(Step(w, op).c.rows, Step(w, op).c.logdevs, d)
  {
    var c2 := Step(w, op).c;
    MountCases(w, op.mount, op.devices, op.faults);
    if c2 != w.c {
      var ps := PiecesOfId(w.c.rows, op.mount.allocId);
      MountSpecs(w.c.logdevs, op.mount, ps, op.devices);
      MountRows(w.c.logdevs, op.mount, ps, op.devices);
      HasSome(w.c.logdevs, LogdevDev, op.mount.dev);
      SameSpecs(ps, op.devices, d);
      PiecesStay(w, op, op.mount.allocId);
      forall i | 0 <= i < |c2.logdevs| && c2.logdevs[i].Some?
        ensures DevNamed(c2.rows, c2.logdevs, d, c2.logdevs[i].value)
      {
        if w.c.logdevs[i].Some? {
          assert !Carries(w.c.logdevs[i], LogdevDev, op.mount.dev);
          MountedHasRows(w.c.rows, w.c.logdevs, i);
          NamedStays(w, op, d, w.c.logdevs[i].value);
        }
      }
    }
  }

  lemma {:induction false} RunKeepsNamed(w: World, ops: seq<Op>, d: Devices)
    requires WorldShaped(w) && Books(w.c) && RowsOk(w.c) && Mirror(w.c.rows, w.c.logdevs) && RunFits(ops)
    requires Named(w.c.rows, w.c.logdevs, d) && forall i :: 0 <= i < |ops| ==> OneNaming(ops[i], d)
    requires Run(w, ops).c.nextId < TWO64
    ensures Named(Run(w, ops).c.rows, Run(w, ops).c.logdevs, d)
  {
    if ops != [] {
      var front, last := ops[..|ops| - 1], ops[|ops| - 1];
      Conservation(w, front);
      NextIdGrows(Run(w, front), last);
      RunKeepsRowsOk(w, front);
      RunKeepsMirror(w, front);
      RunKeepsNamed(w, front, d);
      StepKeepsNamed(Run(w, front), last, d);
    }
  }

  // ---- from sectors to bytes of rows and back ----

  /** A translated sector of device i lies in a row of its allocation, on the SSU that
      has the sector's device name. */
  predicate LiesIn(c: Ctl, d: Devices, id: string, t: Translation, x: nat) {
    && t.Hit? && x < |c.rows| && Carries(c.rows[x], RowId, id)
    && var row := c.rows[x].value;
       row.ssuId in d.names && d.names[row.ssuId] == t.entry.dev && Covers(c.rows[x], row.ssuId, t.phys * SECTOR)
  }

  function DevMinor(l: Logdev): nat
    requires MinorOf(l.allocId, l.dev).Some?
  {
    MinorOf(l.allocId, l.dev).value
  }

  lemma SectorLiesIn(w: World, d: Devices, i: nat, s: nat) returns (x: nat)
    requires StackInv(w) && Named(w.c.rows, w.c.logdevs, d) && i < |w.c.logdevs| && w.c.logdevs[i].Some?
    requires MinorOf(w.c.logdevs[i].value.allocId, w.c.logdevs[i].value.dev).Some?
    requires Translate(w.k.maps, DevMinor(w.c.logdevs[i].value), s).Hit?
    ensures LiesIn(w.c, d, w.c.logdevs[i].value.allocId, Translate(w.k.maps, DevMinor(w.c.logdevs[i].value), s), x)
  {
    var l := w.c.logdevs[i].value;
    var specs, ps, minor := MountedFacts(w, i);
    assert DevNamed(w.c.rows, w.c.logdevs, d, l);
    var j := HitExtent(w.k, specs, minor, PiecesSize(ps), s);
    x := PickFrom(w.c.rows, RowId, RowPiece, l.allocId, ps[j]);
    RowLies(w.c, d, l.allocId, Translate(w.k.maps, minor, s), x, specs[j], minor, s);
  }

  lemma RowLies(c: Ctl, d: Devices, id: string, t: Translation, x: nat, spec: MapSpec, minor: nat, s: nat)
    requires x < |c.rows| && Carries(c.rows[x], RowId, id) && c.rows[x].value.ssuId in d.names
    requires SpecIs(spec, RowPiece(c.rows[x].value)) && spec.dev == d.names[c.rows[x].value.ssuId]
    requires SpecOk(spec, minor) && spec.off <= s * SECTOR < spec.off + spec.len
    requires t.Hit? && t.entry.dev == spec.dev && t.phys == spec.phys + (s - spec.off / SECTOR)
    ensures LiesIn(c, d, id, t, x)
  {
    PhysInRow(c.rows[x].value, spec, minor, s);
  }

  /** The extent that a translated sector of a wired stripe lies in. */
  lemma HitExtent(k: Kernel, specs: seq<MapSpec>, minor: nat, size: nat, s: nat) returns (j: nat)
    requires KernelInv(k) && Buildable(specs, minor) && StripeSpecs(specs, size) && PhysFits(specs)
    requires EntriesOf(k.maps, minor) == EntrySet(specs, minor) && Translate(k.maps, minor, s).Hit?
    ensures j < |specs| && InExtent(specs, j, s)
    ensures var t := Translate(k.maps, minor, s);
      t.entry.dev == specs[j].dev && t.phys == specs[j].phys + (s - specs[j].off / SECTOR)
  {
    WiredRange(k, specs, minor, size, s);
    j := SectorInExtent(specs, size, s);
    WiredHits(k, specs, minor, size, j, s);
    EntryNames(specs[j], minor);
  }

  lemma PhysInRow(row: Row, spec: MapSpec, minor: nat, s: nat)
    requires SpecIs(spec, RowPiece(row)) && SpecOk(spec, minor) && spec.off <= s * SECTOR < spec.off + spec.len
    ensures var b := (spec.phys + (s - spec.off / SECTOR)) * SECTOR; StartByte(row) <= b < EndByte(row)
  {}

  /** And every sector-aligned byte of such a row is reached by some sector. */
  lemma ByteReached(w: World, d: Devices, i: nat, x: nat, p: nat) returns (s: nat)
    requires StackInv(w) && Named(w.c.rows, w.c.logdevs, d) && i < |w.c.logdevs| && w.c.logdevs[i].Some?
    requires x < |w.c.rows| && Carries(w.c.rows[x], RowId, w.c.logdevs[i].value.allocId)
    requires Covers(w.c.rows[x], w.c.rows[x].value.ssuId, p * SECTOR)
    ensures var l, ssu := w.c.logdevs[i].value, w.c.rows[x].value.ssuId;
      && MinorOf(l.allocId, l.dev).Some? && ssu in d.names
      && var t := Translate(w.k.maps, DevMinor(l), s); t.Hit? && t.entry.dev == d.names[ssu] && t.phys == p
  {
    var l, row := w.c.logdevs[i].value, w.c.rows[x].value;
    var specs, ps, minor := MountedFacts(w, i);
    assert DevNamed(w.c.rows, w.c.logdevs, d, l);
    PickIn(w.c.rows, RowId, RowPiece, l.allocId, x);
    var j :| 0 <= j < |ps| && ps[j] == RowPiece(row);
    s := ExtentReached(w.k, specs, minor, PiecesSize(ps), j, row, p);
  }

  lemma ExtentReached(k: Kernel, specs: seq<MapSpec>, minor: nat, size: nat, j: nat, row: Row, p: nat) returns (s: nat)
    requires KernelInv(k) && Buildable(specs, minor) && StripeSpecs(specs, size) && PhysFits(specs)
    requires EntriesOf(k.maps, minor) == EntrySet(specs, minor)
    requires j < |specs| && SpecIs(specs[j], RowPiece(row)) && StartByte(row) <= p * SECTOR < EndByte(row)
    ensures var t := Translate(k.maps, minor, s); t.Hit? && t.entry.dev == specs[j].dev && t.phys == p
  {
    s := SectorAt(row, specs[j], minor, p);
    WiredHits(k, specs, minor, size, j, s);
    EntryNames(specs[j], minor);
  }

  lemma SectorAt(row: Row, spec: MapSpec, minor: nat, p: nat) returns (s: nat)
    requires SpecIs(spec, RowPiece(row)) && SpecOk(spec, minor) && StartByte(row) <= p * SECTOR < EndByte(row)
    ensures spec.off <= s * SECTOR < spec.off + spec.len && spec.phys + (s - spec.off / SECTOR) == p
  {
    s := spec.off / SECTOR + (p - spec.phys);
  }

  // ---- isolation ----

  /** Sectors s and t of two devices go to different places, if anywhere. */
  predicate SectorsApart(w: World, i: nat, j: nat, s: nat, t: nat)
    requires i < |w.c.logdevs| && j < |w.c.logdevs| && w.c.logdevs[i].Some? && w.c.logdevs[j].Some?
  {
    var l, m := w.c.logdevs[i].value, w.c.logdevs[j].value;
    MinorOf(l.allocId, l.dev).Some? && MinorOf(m.allocId, m.dev).Some? ==>
      var a, b := Translate(w.k.maps, DevMinor(l), s), Translate(w.k.maps, DevMinor(m), t);
      a.Hit? && b.Hit? ==> a.entry.dev != b.entry.dev || a.phys != b.phys
  }

  /** No two mounted devices share a physical sector. */
  ghost predicate Isolated(w: World) {
    forall i: nat, j: nat, s: nat, t: nat :: TwoDevices(w.c.logdevs, i, j) ==> SectorsApart(w, i, j, s, t)
  }

  predicate TwoDevices(logdevs: Logdevs, i: nat, j: nat) {
    && i < |logdevs| && j < |logdevs| && logdevs[i].Some? && logdevs[j].Some?
    && logdevs[i].value.dev != logdevs[j].value.dev
  }

  /** Extents of different mounted allocations share no byte. */
  predicate MountedApart(c: Ctl) {
    forall x, y ::
      0 <= x < |c.rows| && 0 <= y < |c.rows| && c.rows[x].Some? && c.rows[y].Some? ==>
      MountedRowsApart(c, c.rows[x].value, c.rows[y].value)
  }

  predicate MountedRowsApart(c: Ctl, a: Row, b: Row) {
    && a.ssuId == b.ssuId && a.allocId != b.allocId
    && Has(c.logdevs, LogdevId, a.allocId) && Has(c.logdevs, LogdevId, b.allocId) ==>
      Apart(a, b)
  }

  lemma ApartIsolates(w: World, d: Devices, i: nat, j: nat, s: nat, t: nat)
    requires StackInv(w) && Ahead(w) && Named(w.c.rows, w.c.logdevs, d) && DevicesOk(d) && MountedApart(w.c)
    requires TwoDevices(w.c.logdevs, i, j)
    ensures SectorsApart(w, i, j, s, t)
  {
    var l, m := w.c.logdevs[i].value, w.c.logdevs[j].value;
    if l.allocId == m.allocId { OneDeviceEach(w, i, j); }
    if MinorOf(l.allocId, l.dev).Some? && MinorOf(m.allocId, m.dev).Some? {
      var a, b := Translate(w.k.maps, DevMinor(l), s), Translate(w.k.maps, DevMinor(m), t);
      if a.Hit? && b.Hit? {
        var x := SectorLiesIn(w, d, i, s);
        var y := SectorLiesIn(w, d, j, t);
        DeviceIdHas(w.c.logdevs, i);
        DeviceIdHas(w.c.logdevs, j);
        PlacesApart(w.c, d, l.allocId, m.allocId, a, b, x, y);
      }
    }
  }

  lemma PlacesApart(c: Ctl, d: Devices, id: string, id2: string, a: Translation, b: Translation, x: nat, y: nat)
    requires MountedApart(c) && DevicesOk(d) && id != id2
    requires Has(c.logdevs, LogdevId, id) && Has(c.logdevs, LogdevId, id2)
    requires LiesIn(c, d, id, a, x) && LiesIn(c, d, id2, b, y)
    ensures a.entry.dev != b.entry.dev || a.phys != b.phys
  {
    assert MountedRowsApart(c, c.rows[x].value, c.rows[y].value);
  }

  lemma DeviceIdHas(logdevs: Logdevs, i: nat)
    requires i < |logdevs| && logdevs[i].Some?
    ensures Has(logdevs, LogdevId, logdevs[i].value.allocId)
  {
    assert Carries(logdevs[i], LogdevId, logdevs[i].value.allocId);
    HasSome(logdevs, LogdevId, logdevs[i].value.allocId);
  }

  /** Two extents of mounted allocations that share a byte make their devices share
      the sector where the later one starts. */
  lemma OverlapShares(w: World, d: Devices, x: nat, y: nat) returns (i: nat, j: nat, s: nat, t: nat)
    requires StackInv(w) && Named(w.c.rows, w.c.logdevs, d)
    requires x < |w.c.rows| && y < |w.c.rows| && w.c.rows[x].Some? && w.c.rows[y].Some?
    requires !MountedRowsApart(w.c, w.c.rows[x].value, w.c.rows[y].value)
    ensures TwoDevices(w.c.logdevs, i, j) && !SectorsApart(w, i, j, s, t)
  {
    var a, b := w.c.rows[x].value, w.c.rows[y].value;
    i, j := Find(w.c.logdevs, LogdevId, a.allocId), Find(w.c.logdevs, LogdevId, b.allocId);
    assert Carries(w.c.logdevs[i], LogdevId, a.allocId) && Carries(w.c.logdevs[j], LogdevId, b.allocId);
    var p := if a.phys >= b.phys then a.phys else b.phys;
    assert Covers(w.c.rows[x], a.ssuId, p * SECTOR) && Covers(w.c.rows[y], b.ssuId, p * SECTOR);
    s := ByteReached(w, d, i, x, p);
    t := ByteReached(w, d, j, y, p);
  }

  /** With one name for each SSU, mounted devices share no physical sector if and only
      if the extents of mounted allocations share no byte. */
  lemma IsolatedIff(w: World, d: Devices)
    requires StackInv(w) && Ahead(w) && Named(w.c.rows, w.c.logdevs, d) && DevicesOk(d)
    ensures Isolated(w) <==> MountedApart(w.c)
  {
    if MountedApart(w.c) {
      forall i: nat, j: nat, s: nat, t: nat | TwoDevices(w.c.logdevs, i, j) ensures SectorsApart(w, i, j, s, t) {
        ApartIsolates(w, d, i, j, s, t);
      }
    } else {
      var x, y :| 0 <= x < |w.c.rows| && 0 <= y < |w.c.rows| && w.c.rows[x].Some? && w.c.rows[y].Some?
        && !MountedRowsApart(w.c, w.c.rows[x].value, w.c.rows[y].value);
      var i, j, s, t := OverlapShares(w, d, x, y);
    }
  }

  lemma PairwiseMountedApart(c: Ctl)
    requires PairwiseApart(c.rows)
    ensures MountedApart(c)
  {
    forall x, y | 0 <= x < |c.rows| && 0 <= y < |c.rows| && c.rows[x].Some? && c.rows[y].Some?
      ensures MountedRowsApart(c, c.rows[x].value, c.rows[y].value)
    {
      if x < y && c.rows[x].value.ssuId == c.rows[y].value.ssuId { assert Apart(c.rows[x].value, c.rows[y].value); }
      if y < x && c.rows[x].value.ssuId == c.rows[y].value.ssuId { assert Apart(c.rows[y].value, c.rows[x].value); }
    }
  }

  /** Over every run from the empty stack that keeps the kernel in step, under one
      injective naming of SSUs, whose grants take free bytes: mounted devices share no
      physical sector. */
  lemma ReachableIsolated(ops: seq<Op>, d: Devices)
    requires RunFits(ops) && InStepRun(Boot, ops) && AlwaysFree(Boot, ops) && DevicesOk(d)
    requires forall i :: 0 <= i < |ops| ==> NoDeleteRefused(ops[i]) && OneNaming(ops[i], d)
    requires Run(Boot, ops).c.nextId < TWO64 && Run(Boot, ops).m.nextNs < TWO64
    ensures Isolated(Run(Boot, ops))
  {
    BootReady(d);
    RunIsolated(Boot, ops, d);
  }

  lemma BootReady(d: Devices)
    ensures StackInv(Boot) && Ahead(Boot) && Named(Boot.c.rows, Boot.c.logdevs, d) && PairwiseApart(Boot.c.rows)
  {
    BootsInStep();
  }

  /** The same from any state that has all of it. */
  lemma RunIsolated(w: World, ops: seq<Op>, d: Devices)
    requires StackInv(w) && Ahead(w) && Named(w.c.rows, w.c.logdevs, d) && PairwiseApart(w.c.rows) && DevicesOk(d)
    requires RunFits(ops) && InStepRun(w, ops) && AlwaysFree(w, ops)
    requires forall i :: 0 <= i < |ops| ==> NoDeleteRefused(ops[i]) && OneNaming(ops[i], d)
    requires Run(w, ops).c.nextId < TWO64 && Run(w, ops).m.nextNs < TWO64
    ensures Isolated(Run(w, ops))
  {
    RunKeepsStack(w, ops);
    RunKeepsAhead(w, ops);
    RunKeepsNamed(w, ops, d);
    AlwaysApartIff(w, ops);
    ApartIsIsolated(Run(w, ops), d);
  }

  lemma ApartIsIsolated(w: World, d: Devices)
    requires StackInv(w) && Ahead(w) && Named(w.c.rows, w.c.logdevs, d) && DevicesOk(d) && PairwiseApart(w.c.rows)
    ensures Isolated(w)
  {
    PairwiseMountedApart(w.c);
    IsolatedIff(w, d);
  }
}
