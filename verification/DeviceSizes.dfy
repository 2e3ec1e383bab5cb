/** The kernel's record of every mounted device: its size, block size and name. */
module DeviceSizes {
  import opened Types
  import opened Tables
  import opened KernelState
  import opened ReqShimIface
  import opened MockState
  import opened ControllerState
  import opened Ledger
  import opened Grants
  import opened MountMirror
  import opened Agreement
  import opened EndToEnd

  /** The minor of the device row is recorded with the end of the device's extents in
      sectors of 512 bytes, and under the last component of its path. */
  predicate SizedDev(logdevs: Logdevs, k: Kernel, l: Logdev) {
    var minor := MinorOf(l.allocId, l.dev);
    && minor.Some? && minor.value < |k.devs|
    && k.devs[minor.value] ==
       Some(LogdevReq(minor.value, MaxEnd(DevSpecs(logdevs, l.dev)) / 512, 512, Basename(l.dev)))
  }

  predicate Sized(logdevs: Logdevs, k: Kernel) {
    forall i :: 0 <= i < |logdevs| && logdevs[i].Some? ==> SizedDev(logdevs, k, logdevs[i].value)
  }

  lemma StaysSized(logdevs: Logdevs, k: Kernel, after: Logdevs, k2: Kernel, l: Logdev, m: nat)
    requires SizedDev(logdevs, k, l) && DevSpecs(after, l.dev) == DevSpecs(logdevs, l.dev)
    requires MinorOf(l.allocId, l.dev) != Some(m)
    requires |k2.devs| == |k.devs| && forall x :: 0 <= x < |k.devs| && x != m ==> k2.devs[x] == k.devs[x]
    ensures SizedDev(after, k2, l)
  {}

  lemma NewSized(after: Logdevs, k: Kernel, k2: Kernel, dev: string, id: string, minor: nat, specs: seq<MapSpec>,
      f: KernelFaults, l: Logdev)
    requires KernelInv(k) && f.ctl == CTL_PRESENT && Mount(k, dev, minor, specs, f) == (k2, OK)
    requires MinorOf(id, dev) == Some(minor) && l.dev == dev && l.allocId == id && DevSpecs(after, dev) == specs
    ensures SizedDev(after, k2, l)
  {
    MountAllOrNothing(k, dev, minor, specs, f);
  }

  lemma MountedStaySized(logdevs: Logdevs, k: Kernel, after: Logdevs, k2: Kernel, req: MountReq, pieces: seq<Piece>,
      d: Devices, minor: nat, i: nat)
    requires Sized(logdevs, k) && AllConnect(pieces, d) && FreeCount(logdevs) >= |pieces|
    requires !Has(logdevs, LogdevDev, req.dev) && after == PutAll(logdevs, NewLogdevs(req, pieces, d))
    requires !Live(k, minor) && |k2.devs| == |k.devs| && forall x :: 0 <= x < |k.devs| && x != minor ==>
      k2.devs[x] == k.devs[x]
    requires i < |logdevs| && logdevs[i].Some?
    ensures SizedDev(after, k2, logdevs[i].value)
  {
    MountSpecs(logdevs, req, pieces, d);
    HasSome(logdevs, LogdevDev, req.dev);
    assert !Carries(logdevs[i], LogdevDev, req.dev);
    assert SizedDev(logdevs, k, logdevs[i].value);
    StaysSized(logdevs, k, after, k2, logdevs[i].value, minor);
  }

  lemma MountKeepsSized(logdevs: Logdevs, k: Kernel, k2: Kernel, req: MountReq, pieces: seq<Piece>, d: Devices,
      f: KernelFaults, minor: nat)
    requires KernelInv(k) && Sized(logdevs, k) && pieces != [] && AllConnect(pieces, d)
    requires FreeCount(logdevs) >= |pieces| && !Has(logdevs, LogdevDev, req.dev)
    requires MinorOf(req.allocId, req.dev) == Some(minor) && f.ctl == CTL_PRESENT
    requires Mount(k, req.dev, minor, SpecsOf(pieces, d), f) == (k2, OK)
    ensures Sized(PutAll(logdevs, NewLogdevs(req, pieces, d)), k2)
  {
    var after := PutAll(logdevs, NewLogdevs(req, pieces, d));
    MountRows(logdevs, req, pieces, d);
    OthersKept(k, k2, req.dev, minor, SpecsOf(pieces, d), f);
    forall i | 0 <= i < |after| && after[i].Some? ensures SizedDev(after, k2, after[i].value) {
      if logdevs[i].Some? {
        MountedStaySized(logdevs, k, after, k2, req, pieces, d, minor, i);
      } else {
        AddedIsSized(logdevs, k, k2, req, pieces, d, f, minor, after[i].value);
      }
    }
  }

  lemma OthersKept(k: Kernel, k2: Kernel, dev: string, minor: nat, specs: seq<MapSpec>, f: KernelFaults)
    requires KernelInv(k) && f.ctl == CTL_PRESENT && Mount(k, dev, minor, specs, f) == (k2, OK)
    ensures !Live(k, minor) && |k2.devs| == |k.devs| && forall x :: 0 <= x < |k.devs| && x != minor ==>
      k2.devs[x] == k.devs[x]
  {
    MountAllOrNothing(k, dev, minor, specs, f);
  }

  lemma AddedIsSized(logdevs: Logdevs, k: Kernel, k2: Kernel, req: MountReq, pieces: seq<Piece>, d: Devices,
      f: KernelFaults, minor: nat, l: Logdev)
    requires KernelInv(k) && AllConnect(pieces, d)
    requires FreeCount(logdevs) >= |pieces| && !Has(logdevs, LogdevDev, req.dev)
    requires MinorOf(req.allocId, req.dev) == Some(minor) && f.ctl == CTL_PRESENT
    requires Mount(k, req.dev, minor, SpecsOf(pieces, d), f) == (k2, OK) && l.dev == req.dev && l.allocId == req.allocId
    ensures SizedDev(PutAll(logdevs, NewLogdevs(req, pieces, d)), k2, l)
  {
    var after := PutAll(logdevs, NewLogdevs(req, pieces, d));
    MountSpecs(logdevs, req, pieces, d);
    NewSized(after, k, k2, req.dev, req.allocId, minor, SpecsOf(pieces, d), f, l);
  }

  lemma MountOpKeepsSized(w: World, req: MountReq, d: Devices, f: KernelFaults)
    requires WorldShaped(w) && KernelInv(w.k) && Twin(w.c.rows, w.m.nss) && Sized(w.c.logdevs, w.k)
    requires f.ctl != CTL_MISSING
    ensures var w2 := MountOp(w, req, d, f).0; Sized(w2.c.logdevs, w2.k)
  {
    var row := MountRow(req.allocId, req.hostId, req.dev);
    MountCases(w, req, d, f);
    MountNsCases(w.m, w.k, row, d, f);
    TwinPieces(w.c.rows, w.m.nss, req.allocId);
    var w2 := MountOp(w, req, d, f).0;
    var pieces := PiecesOfId(w.c.rows, req.allocId);
    if w2.k != w.k || MountNs(w.m, w.k, row, d, f).2 == OK {
      var minor := MinorOf(req.allocId, req.dev).value;
      MountAllOrNothing(w.k, req.dev, minor, SpecsOf(pieces, d), f);
      if w2.c != w.c {
        MountKeepsSized(w.c.logdevs, w.k, w2.k, req, pieces, d, f, minor);
      }
    }
  }

  lemma DroppedStaySized(logdevs: Logdevs, k: Kernel, k2: Kernel, i: nat, minor: nat)
    requires Sized(logdevs, k) && OneDevPerMinor(logdevs) && i < |logdevs| && logdevs[i].Some?
    requires IsMinor(logdevs[i].value, minor) && minor < |k.devs| && k2.devs == k.devs[minor := None]
    ensures Sized(Drop(logdevs, LogdevDev, logdevs[i].value.dev), k2)
  {
    var after := Drop(logdevs, LogdevDev, logdevs[i].value.dev);
    forall j | 0 <= j < |after| && after[j].Some? ensures SizedDev(after, k2, after[j].value) {
      assert after[j] == logdevs[j];
      OtherMinor(logdevs, i, j, minor);
      DropPick(logdevs, LogdevDev, logdevs[i].value.dev, LogdevSpec, logdevs[j].value.dev);
      StaysSized(logdevs, k, after, k2, logdevs[j].value, minor);
    }
  }

  lemma UnmountOpKeepsSized(w: World, dev: string, d: Devices, f: KernelFaults)
    requires StackInv(w) && Sized(w.c.logdevs, w.k) && f.ctl != CTL_MISSING && StrayHarmless(w, dev)
    ensures var w2 := UnmountOp(w, dev, d, f).0; Sized(w2.c.logdevs, w2.k)
  {
    UnmountCases(w, dev, d, f);
    UnmountNsCases(w.m, w.k, dev, d, f);
    UnknownToBoth(w.c.logdevs, w.m.mounts, dev);
    if !Has(w.c.logdevs, LogdevDev, dev) {
      if LogicalMinor(dev).Some? {
        UnmountClears(w.k, LogicalMinor(dev).value, [], f);
      }
    } else if UnmountOp(w, dev, d, f).0 != w {
      MountedUnmountSized(w, dev, d, f);
    }
  }

  lemma MountedUnmountSized(w: World, dev: string, d: Devices, f: KernelFaults)
    requires StackInv(w) && Sized(w.c.logdevs, w.k) && f.ctl != CTL_MISSING && Has(w.c.logdevs, LogdevDev, dev)
    ensures var w2 := UnmountOp(w, dev, d, f).0; Sized(w2.c.logdevs, w2.k)
  {
    UnmountCases(w, dev, d, f);
    UnmountNsCases(w.m, w.k, dev, d, f);
    var i := Find(w.c.logdevs, LogdevDev, dev);
    var l := w.c.logdevs[i].value;
    assert Carries(w.c.logdevs[i], LogdevDev, dev);
    var (m, k2, st) := UnmountNs(w.m, w.k, dev, d, f);
    if k2 != w.k || st == OK {
      var minor := MinorOf(l.allocId, dev).value;
      UnmountClears(w.k, minor, SpecsOf(PiecesOf(w.m, l.allocId), d), f);
      if st == OK {
        DroppedStaySized(w.c.logdevs, w.k, k2, i, minor);
      }
    }
  }

  lemma MountStepKeepsSized(w: World, op: Op)
    requires StackInv(w) && Sized(w.c.logdevs, w.k) && op.OpMount? && KeepsKernelInStep(w, op)
    ensures Sized(Step(w, op).c.logdevs, Step(w, op).k)
  {
    MountOpKeepsSized(w, op.mount, op.devices, op.faults);
  }

  lemma UnmountStepKeepsSized(w: World, op: Op)
    requires StackInv(w) && Sized(w.c.logdevs, w.k) && op.OpUnmount? && KeepsKernelInStep(w, op)
    ensures Sized(Step(w, op).c.logdevs, Step(w, op).k)
  {
    UnmountOpKeepsSized(w, op.dev, op.devices, op.faults);
  }

  lemma OtherStepKeepsSized(w: World, op: Op)
    requires WorldShaped(w) && Books(w.c) && Sized(w.c.logdevs, w.k) && !op.OpMount? && !op.OpUnmount?
    ensures Sized(Step(w, op).c.logdevs, Step(w, op).k)
  {
    OtherFrame(w, op);
  }

  lemma StepKeepsSized(w: World, op: Op)
    requires StackInv(w) && Sized(w.c.logdevs, w.k) && KeepsKernelInStep(w, op)
    ensures Sized(Step(w, op).c.logdevs, Step(w, op).k)
  {
    if op.OpMount? {
      MountStepKeepsSized(w, op);
    } else if op.OpUnmount? {
      UnmountStepKeepsSized(w, op);
    } else {
      OtherStepKeepsSized(w, op);
    }
  }

  lemma {:induction false} RunKeepsSized(w: World, ops: seq<Op>)
    requires StackInv(w) && Sized(w.c.logdevs, w.k) && RunFits(ops) && InStepRun(w, ops)
    requires forall i :: 0 <= i < |ops| ==> NoDeleteRefused(ops[i])
    requires Run(w, ops).c.nextId < TWO64 && Run(w, ops).m.nextNs < TWO64
    ensures Sized(Run(w, ops).c.logdevs, Run(w, ops).k)
  {
    if ops != [] {
      var front, last := ops[..|ops| - 1], ops[|ops| - 1];
      Conservation(w, front);
      NextIdGrows(Run(w, front), last);
      NextNsGrows(Run(w, front), last);
      RunKeepsStack(w, front);
      RunKeepsSized(w, front);
      StepKeepsSized(Run(w, front), last);
    }
  }

  /** After every run from the empty stack, with the control device present and no stray
      unmount, the kernel's record of a mounted device says its allocation's size in
      512-byte sectors, 512 as its block size, and the last component of its path. */
  lemma DeviceRecords(ops: seq<Op>, i: nat)
    requires RunFits(ops) && InStepRun(Boot, ops) && forall j :: 0 <= j < |ops| ==> NoDeleteRefused(ops[j])
    requires Run(Boot, ops).c.nextId < TWO64 && Run(Boot, ops).m.nextNs < TWO64
    requires i < |Run(Boot, ops).c.logdevs| && Run(Boot, ops).c.logdevs[i].Some?
    ensures var w := Run(Boot, ops);
      var l := w.c.logdevs[i].value;
      var minor := MinorOf(l.allocId, l.dev);
      && minor.Some? && minor.value < |w.k.devs|
      && w.k.devs[minor.value] ==
         Some(LogdevReq(minor.value, PiecesSize(PiecesOfId(w.c.rows, l.allocId)) / 512, 512, Basename(l.dev)))
  {
    BootsInStep();
    RunKeepsStack(Boot, ops);
    RunKeepsSized(Boot, ops);
    RecordIsSize(Run(Boot, ops), i);
  }

  lemma RecordIsSize(w: World, i: nat)
    requires StackInv(w) && Sized(w.c.logdevs, w.k) && i < |w.c.logdevs| && w.c.logdevs[i].Some?
    ensures var l := w.c.logdevs[i].value;
      var minor := MinorOf(l.allocId, l.dev);
      && minor.Some? && minor.value < |w.k.devs|
      && w.k.devs[minor.value] ==
         Some(LogdevReq(minor.value, PiecesSize(PiecesOfId(w.c.rows, l.allocId)) / 512, 512, Basename(l.dev)))
  {
    var specs, ps, minor := MountedFacts(w, i);
    StripeEnd(specs, PiecesSize(ps));
    assert SizedDev(w.c.logdevs, w.k, w.c.logdevs[i].value);
  }
}
