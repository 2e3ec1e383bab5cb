/** The user side of ReqShim: turning extents into map entries, and the mount and
    unmount sagas over the module's ioctls. */
module ReqShimIface {
  import opened Types
  import opened Tables
  import opened Decimal
  import opened KernelState
  import opened ReqShimModule
  import opened Stripe

  const DEV_PREFIX := "ssu"
  const ID_PREFIX := "alloc-"

  datatype MapSpec = MapSpec(dev: string, nsId: string, off: nat, len: nat, phys: nat)

  type Failure = e: Errno | e != EOK witness EINVAL

  /** What opening the control device and asking for its version gives: it is there
      with the right version, it is missing, it cannot be opened, the version ioctl
      fails, or the version is another one. */
  datatype Control = CTL_PRESENT | CTL_MISSING | CTL_ERROR | CTL_NO_VERSION(err: Failure) | CTL_OTHER_VERSION

  /** How the kernel may refuse: the errno of device creation (EOK when it
      obliges), and the index of a MAP_ADD whose argument cannot be copied in. */
  datatype KernelFaults = KernelFaults(ctl: Control, create: Errno, addFault: Option<nat>)

  function ErrnoToStatus(err: Errno): Status {
    match err
    case EOK => OK
    case EINVAL => INVALID
    case ENOMEM | ENOSPC => NO_RESOURCE
    case ENOENT | ENODEV => NOT_FOUND
    case EBUSY | EEXIST => BUSY
    case EOPNOTSUPP => UNSUPPORTED
    case EFAULT => KERNEL
  }

  /** The outcome of a mount or unmount that gets no further than that. */
  function ControlStatus(ctl: Control): (st: Status)
    ensures st == OK <==> ctl == CTL_PRESENT || ctl == CTL_MISSING
  {
    match ctl
    case CTL_PRESENT | CTL_MISSING => OK
    case CTL_ERROR => KERNEL
    case CTL_NO_VERSION(err) => ErrnoToStatus(err)
    case CTL_OTHER_VERSION => UNSUPPORTED
  }

  function PrefixedMinor(s: string, prefix: string): Option<nat> {
    if prefix <= s then WholeU32(s[|prefix|..]) else None
  }

  /** ssuN below any directory. */
  function LogicalMinor(dev: string): Option<nat> { PrefixedMinor(Basename(dev), DEV_PREFIX) }

  /** The minor is the N of alloc-N, or else of ssuN. */
  function MinorOf(allocId: string, dev: string): Option<nat> {
    var m := PrefixedMinor(allocId, ID_PREFIX);
    if m.Some? then m else LogicalMinor(dev)
  }

  predicate DiskNameOk(dev: string) {
    0 < |Basename(dev)| <= MAX_DISK_NAME && DiskNameChars(Basename(dev))
  }

  /** The checks on one extent, and the fields of its map entry. */
  function BuildMapEntry(spec: MapSpec, minor: nat): Option<MapEntry> {
    if spec.dev == [] || |spec.dev| >= 64 || spec.len == 0 || spec.off % SECTOR != 0 || spec.len % SECTOR != 0
      || TailU32(spec.nsId).None? then None
    else Some(MapEntry(minor, spec.off / SECTOR, spec.len / SECTOR, spec.dev, TailU32(spec.nsId).value, spec.phys))
  }

  predicate SpecOk(spec: MapSpec, minor: nat) {
    spec.off + spec.len <= U64_MAX && BuildMapEntry(spec, minor).Some?
  }

  function EntryOf(spec: MapSpec, minor: nat): MapEntry
    requires SpecOk(spec, minor)
  {
    BuildMapEntry(spec, minor).value
  }

  predicate SpecsOk(specs: seq<MapSpec>, minor: nat) {
    forall i :: 0 <= i < |specs| ==> SpecOk(specs[i], minor)
  }

  function EntriesFor(specs: seq<MapSpec>, minor: nat): (es: seq<MapEntry>)
    requires SpecsOk(specs, minor)
    ensures |es| == |specs|
    ensures forall i :: 0 <= i < |es| ==> es[i] == EntryOf(specs[i], minor)
  {
    if specs == [] then []
    else EntriesFor(specs[..|specs| - 1], minor) + [EntryOf(specs[|specs| - 1], minor)]
  }

  /** The end of the furthest extent. */
  function MaxEnd(specs: seq<MapSpec>): (e: nat)
    ensures forall i :: 0 <= i < |specs| ==> specs[i].off + specs[i].len <= e
    ensures e == 0 || exists i :: 0 <= i < |specs| && specs[i].off + specs[i].len == e
  {
    if specs == [] then 0
    else
      var last := specs[|specs| - 1];
      var front := MaxEnd(specs[..|specs| - 1]);
      if last.off + last.len > front then last.off + last.len else front
  }

  predicate Buildable(specs: seq<MapSpec>, minor: nat) {
    SpecsOk(specs, minor) && MaxEnd(specs) > 0 && MaxEnd(specs) % SECTOR == 0
  }

  lemma SpecAppended(front: seq<MapSpec>, spec: MapSpec, minor: nat)
    requires SpecsOk(front, minor) && SpecOk(spec, minor)
    ensures SpecsOk(front + [spec], minor)
    ensures EntriesFor(front + [spec], minor) == EntriesFor(front, minor) + [EntryOf(spec, minor)]
    ensures MaxEnd(front + [spec]) == if spec.off + spec.len > MaxEnd(front) then spec.off + spec.len else MaxEnd(front)
  {}

  method BuildEntries(specs: seq<MapSpec>, minor: nat) returns (ok: bool, entries: seq<MapEntry>, capacity: nat)
    ensures ok <==> Buildable(specs, minor)
    ensures ok ==> entries == EntriesFor(specs, minor) && capacity == MaxEnd(specs) / SECTOR
  {
    ok, entries, capacity := false, [], 0;
    var bytes := 0;
    for i := 0 to |specs|
      invariant SpecsOk(specs[..i], minor)
      invariant entries == EntriesFor(specs[..i], minor) && bytes == MaxEnd(specs[..i])
    {
      var e := BuildMapEntry(specs[i], minor);
      if specs[i].off + specs[i].len > U64_MAX || e.None? {
        assert !SpecOk(specs[i], minor);
        return;
      }
      SpecAppended(specs[..i], specs[i], minor);
      TakeNext(specs, i);
      if specs[i].off + specs[i].len > bytes {
        bytes := specs[i].off + specs[i].len;
      }
      entries := entries + [e.value];
    }
    TakeAll(specs);
    if bytes == 0 || bytes % SECTOR != 0 {
      return;
    }
    ok, capacity := true, bytes / SECTOR;
  }

  /** specs are the extents of a size-byte stripe. */
  predicate StripeSpecs(specs: seq<MapSpec>, size: nat) {
    && 0 < |specs| <= size
    && forall i :: 0 <= i < |specs| ==> specs[i].off == Off(size, |specs|, i) && specs[i].len == Len(size, |specs|, i)
  }

  lemma StripeEnd(specs: seq<MapSpec>, size: nat)
    requires StripeSpecs(specs, size)
    ensures forall i :: 0 <= i < |specs| ==> specs[i].len > 0 && specs[i].off + specs[i].len <= size
    ensures MaxEnd(specs) == size
  {
    var n := |specs|;
    forall i | 0 <= i < n ensures specs[i].off + specs[i].len <= size && specs[i].len > 0 {
      Tiles(size, n, i);
      Monotone(size, n, i + 1, n);
    }
    Tiles(size, n, n - 1);
    assert specs[n - 1].off + specs[n - 1].len == size;
  }

  predicate NamesOk(spec: MapSpec) { 0 < |spec.dev| < 64 && TailU32(spec.nsId).Some? }

  lemma AlignedSpec(spec: MapSpec, minor: nat)
    requires NamesOk(spec) && spec.len > 0 && spec.off + spec.len <= U64_MAX
    ensures SpecOk(spec, minor) <==> spec.off % SECTOR == 0 && spec.len % SECTOR == 0
  {}

  /** A stripe whose device and namespace names are in order can be mounted
      exactly when 512 times the extent count divides its size; the device then
      has size/512 sectors. */
  lemma StripeMountable(specs: seq<MapSpec>, size: nat, minor: nat)
    requires StripeSpecs(specs, size) && size <= U64_MAX
    requires forall i :: 0 <= i < |specs| ==> NamesOk(specs[i])
    ensures Buildable(specs, minor) <==> size % (SECTOR * |specs|) == 0
    ensures MaxEnd(specs) == size
  {
    var n := |specs|;
    StripeEnd(specs, size);
    SectorAligned(size, n);
    forall i | 0 <= i < n ensures SpecOk(specs[i], minor) <==>
      Off(size, n, i) % SECTOR == 0 && Len(size, n, i) % SECTOR == 0
    {
      AlignedSpec(specs[i], minor);
    }
  }

  /** MAP_ADD for entries i, i+1, ... until one fails; the index where it stopped. */
  function AddFrom(k: Kernel, es: seq<MapEntry>, i: nat, fault: Option<nat>): (r: (Kernel, Errno, nat))
    requires i <= |es|
    ensures (Shaped(k) ==> Shaped(r.0)) && r.0.devs == k.devs && i <= r.2 <= |es|
    decreases |es| - i
  {
    if i == |es| then (k, EOK, i)
    else if fault == Some(i) then (k, EFAULT, i)
    else
      var (k1, err) := AddMap(k, es[i]);
      if err != EOK then (k, err, i) else AddFrom(k1, es, i + 1, fault)
  }

  function DelDown(k: Kernel, es: seq<MapEntry>, i: nat): (r: Kernel)
    requires i <= |es|
    ensures (Shaped(k) ==> Shaped(r)) && r.devs == k.devs
    decreases i
  {
    if i == 0 then k else DelDown(DelMap(k, es[i - 1]).0, es, i - 1)
  }

  function DelUp(k: Kernel, es: seq<MapEntry>, i: nat): (r: Kernel)
    requires i <= |es|
    ensures (Shaped(k) ==> Shaped(r)) && r.devs == k.devs
    decreases |es| - i
  {
    if i == |es| then k else DelUp(DelMap(k, es[i]).0, es, i + 1)
  }

  /** The ioctls of a mount: create, add, and on failure delete and destroy. */
  function CreateAndAdd(k: Kernel, req: LogdevReq, es: seq<MapEntry>, f: KernelFaults): (r: (Kernel, Errno))
    requires Shaped(k)
    ensures Shaped(r.0)
  {
    var (k1, err) := CreateDev(k, req, f.create);
    if err != EOK then (k1, err)
    else
      var (k2, err2, at) := AddFrom(k1, es, 0, f.addFault);
      if err2 == EOK then (k2, EOK) else (DestroyDev(DelDown(k2, es, at), req.minor).0, err2)
  }

  function LogdevFor(dev: string, minor: nat, specs: seq<MapSpec>): LogdevReq {
    LogdevReq(minor, MaxEnd(specs) / SECTOR, SECTOR, Basename(dev))
  }

  /** The mount saga as one step on the kernel's state. */
  function Mount(k: Kernel, dev: string, minor: nat, specs: seq<MapSpec>, f: KernelFaults): (r: (Kernel, Status))
    requires Shaped(k)
    ensures Shaped(r.0)
  {
    if specs == [] || !Buildable(specs, minor) || !DiskNameOk(dev) then (k, INVALID)
    else if f.ctl != CTL_PRESENT then (k, ControlStatus(f.ctl))
    else
      var (k1, err) := CreateAndAdd(k, LogdevFor(dev, minor, specs), EntriesFor(specs, minor), f);
      (k1, ErrnoToStatus(err))
  }

  /** The ioctls of an unmount: the result of a delete is ignored. */
  function DeleteAndDestroy(k: Kernel, minor: nat, es: seq<MapEntry>): (r: (Kernel, Errno))
    requires Shaped(k)
    ensures Shaped(r.0)
  {
    DestroyDev(DelUp(k, es, 0), minor)
  }

  function Unmount(k: Kernel, minor: nat, specs: seq<MapSpec>, f: KernelFaults): (r: (Kernel, Status))
    requires Shaped(k)
    ensures Shaped(r.0)
  {
    if specs != [] && !Buildable(specs, minor) then (k, INVALID)
    else if f.ctl != CTL_PRESENT then (k, ControlStatus(f.ctl))
    else
      var (k2, err) := DeleteAndDestroy(k, minor, EntriesFor(specs, minor));
      (k2, ErrnoToStatus(err))
  }

  predicate OfMinor(es: seq<MapEntry>, minor: nat) {
    forall i :: 0 <= i < |es| ==> es[i].minor == minor
  }

  /** The tables differ in slots that are free or the minor's own only. */
  predicate SameBut(a: Maps, b: Maps, minor: nat) {
    |a| == |b| && forall i :: 0 <= i < |a| ==> a[i] == b[i] || (Own(a[i], minor) && Own(b[i], minor))
  }

  predicate Own(s: Option<MapEntry>, minor: nat) { s.Some? ==> s.value.minor == minor }

  lemma SameButCleared(a: Maps, b: Maps, minor: nat)
    requires SameBut(a, b, minor)
    ensures Cleared(a, minor) == Cleared(b, minor)
  {}

  lemma {:induction false} AddsOwn(k: Kernel, es: seq<MapEntry>, i: nat, fault: Option<nat>, minor: nat, maps: Maps)
    requires i <= |es| && OfMinor(es, minor) && SameBut(k.maps, maps, minor)
    ensures SameBut(AddFrom(k, es, i, fault).0.maps, maps, minor)
    decreases |es| - i
  {
    if i < |es| && fault != Some(i) && AddMap(k, es[i]).1 == EOK {
      AddsOwn(AddMap(k, es[i]).0, es, i + 1, fault, minor, maps);
    }
  }

  /** Apart from the minor's own mappings the adds and deletes change no slot. */
  lemma AddCleared(k: Kernel, es: seq<MapEntry>, fault: Option<nat>, minor: nat)
    requires OfMinor(es, minor)
    ensures Cleared(AddFrom(k, es, 0, fault).0.maps, minor) == Cleared(k.maps, minor)
  {
    AddsOwn(k, es, 0, fault, minor, k.maps);
    SameButCleared(AddFrom(k, es, 0, fault).0.maps, k.maps, minor);
  }

  lemma OneDelCleared(k: Kernel, e: MapEntry, k1: Kernel, minor: nat)
    requires e.minor == minor && k1 == DelMap(k, e).0
    ensures Cleared(k1.maps, minor) == Cleared(k.maps, minor)
  {
    AddDelCleared(k, e);
  }

  lemma {:induction false} DelDownCleared(k: Kernel, es: seq<MapEntry>, i: nat, minor: nat, maps: Maps)
    requires i <= |es| && OfMinor(es, minor) && Cleared(k.maps, minor) == maps
    ensures Cleared(DelDown(k, es, i).maps, minor) == maps
    decreases i
  {
    if i > 0 {
      OneDelCleared(k, es[i - 1], DelMap(k, es[i - 1]).0, minor);
      DelDownCleared(DelMap(k, es[i - 1]).0, es, i - 1, minor, maps);
    }
  }

  lemma {:induction false} DelUpCleared(k: Kernel, es: seq<MapEntry>, i: nat, minor: nat, maps: Maps)
    requires i <= |es| && OfMinor(es, minor) && Cleared(k.maps, minor) == maps
    ensures Cleared(DelUp(k, es, i).maps, minor) == maps
    decreases |es| - i
  {
    if i < |es| {
      OneDelCleared(k, es[i], DelMap(k, es[i]).0, minor);
      DelUpCleared(DelMap(k, es[i]).0, es, i + 1, minor, maps);
    }
  }

  /** The mappings of the minor grow by exactly the entries. */
  lemma {:induction false} AddEntries(k: Kernel, es: seq<MapEntry>, i: nat, fault: Option<nat>, minor: nat)
    requires i <= |es| && OfMinor(es, minor)
    ensures var (k2, err, at) := AddFrom(k, es, i, fault);
      err == EOK ==> EntriesOf(k2.maps, minor) == EntriesOf(k.maps, minor) + (set e | e in es[i..])
    decreases |es| - i
  {
    if i < |es| && fault != Some(i) && AddMap(k, es[i]).1 == EOK {
      AddMapEntries(k, es[i]);
      AddEntries(AddMap(k, es[i]).0, es, i + 1, fault, minor);
      assert es[i..] == [es[i]] + es[i + 1..];
    }
  }

  lemma {:induction false} AddInv(k: Kernel, es: seq<MapEntry>, i: nat, fault: Option<nat>)
    requires i <= |es| && KernelInv(k)
    ensures KernelInv(AddFrom(k, es, i, fault).0)
    decreases |es| - i
  {
    if i < |es| && fault != Some(i) && AddMap(k, es[i]).1 == EOK {
      AddKeepsInv(k, es[i]);
      AddInv(AddMap(k, es[i]).0, es, i + 1, fault);
    }
  }

  lemma {:induction false} DelUpInv(k: Kernel, es: seq<MapEntry>, i: nat)
    requires i <= |es| && KernelInv(k)
    ensures KernelInv(DelUp(k, es, i))
    decreases |es| - i
  {
    if i < |es| {
      DelKeepsInv(k, es[i]);
      DelUpInv(DelMap(k, es[i]).0, es, i + 1);
    }
  }

  /** A failed create-and-add leaves both kernel tables as they were, slot by slot. */
  lemma CreateAndAddFails(k: Kernel, req: LogdevReq, es: seq<MapEntry>, f: KernelFaults)
    requires KernelInv(k) && OfMinor(es, req.minor)
    requires CreateAndAdd(k, req, es, f).1 != EOK
    ensures CreateAndAdd(k, req, es, f).0 == k
  {
    var (k1, err) := CreateDev(k, req, f.create);
    if err == EOK {
      var (k2, err2, at) := AddFrom(k1, es, 0, f.addFault);
      AddCleared(k1, es, f.addFault, req.minor);
      DelDownCleared(k2, es, at, req.minor, Cleared(k2.maps, req.minor));
      ClearedUnmapped(k.maps, req.minor);
      assert k.devs == k1.devs[req.minor := None];
    }
  }

  lemma CreateAndAddSucceeds(k: Kernel, req: LogdevReq, es: seq<MapEntry>, f: KernelFaults)
    requires KernelInv(k) && OfMinor(es, req.minor)
    requires CreateAndAdd(k, req, es, f).1 == EOK
    ensures var k2 := CreateAndAdd(k, req, es, f).0;
      && KernelInv(k2) && ValidLogdevReq(req) && !Live(k, req.minor)
      && k2.devs == k.devs[req.minor := Some(req)]
      && EntriesOf(k2.maps, req.minor) == (set e | e in es)
      && Cleared(k2.maps, req.minor) == k.maps
  {
    var k1 := CreateDev(k, req, f.create).0;
    CreateKeepsInv(k, req, f.create);
    AddInv(k1, es, 0, f.addFault);
    AddCleared(k1, es, f.addFault, req.minor);
    AddEntries(k1, es, 0, f.addFault, req.minor);
    ClearedUnmapped(k.maps, req.minor);
    assert es[0..] == es;
    assert EntriesOf(k1.maps, req.minor) == {};
  }

  /** A mount that fails at any point leaves both kernel tables as they were, slot
      by slot. One that succeeds brings its minor to life with exactly its entries
      and touches no other minor. */
  lemma MountAllOrNothing(k: Kernel, dev: string, minor: nat, specs: seq<MapSpec>, f: KernelFaults)
    requires KernelInv(k)
    ensures var (k2, st) := Mount(k, dev, minor, specs, f);
      && KernelInv(k2)
      && (st != OK || f.ctl == CTL_MISSING ==> k2 == k)
      && (st == OK && f.ctl == CTL_PRESENT ==>
        && specs != [] && Buildable(specs, minor) && DiskNameOk(dev)
        && minor < MAX_LOGDEVS && !Live(k, minor)
        && k2.devs == k.devs[minor := Some(LogdevFor(dev, minor, specs))]
        && EntriesOf(k2.maps, minor) == (set e | e in EntriesFor(specs, minor))
        && Cleared(k2.maps, minor) == k.maps)
  {
    if specs != [] && Buildable(specs, minor) && DiskNameOk(dev) && f.ctl == CTL_PRESENT {
      var req, es := LogdevFor(dev, minor, specs), EntriesFor(specs, minor);
      if CreateAndAdd(k, req, es, f).1 != EOK {
        CreateAndAddFails(k, req, es, f);
      } else {
        CreateAndAddSucceeds(k, req, es, f);
      }
    }
  }

  lemma OtherMinors(a: Maps, b: Maps, minor: nat, other: nat)
    requires Cleared(a, minor) == Cleared(b, minor) && other != minor
    ensures EntriesOf(a, other) == EntriesOf(b, other)
  {}

  lemma DeleteAndDestroyClears(k: Kernel, minor: nat, es: seq<MapEntry>)
    requires KernelInv(k) && OfMinor(es, minor)
    ensures var (k2, err) := DeleteAndDestroy(k, minor, es);
      && KernelInv(k2)
      && (err == EOK <==> Live(k, minor))
      && (err != EOK ==> k2 == k)
      && (err == EOK ==> k2.maps == Cleared(k.maps, minor) && k2.devs == k.devs[minor := None])
  {
    var k1 := DelUp(k, es, 0);
    DelUpCleared(k, es, 0, minor, Cleared(k.maps, minor));
    DelUpInv(k, es, 0);
    DestroyKeepsInv(k1, minor);
    if !Live(k, minor) {
      ClearedUnmapped(k.maps, minor);
      ClearedUnmapped(k1.maps, minor);
    }
  }

  /** An unmount that reaches the kernel and succeeds leaves the minor dead without
      mappings and every other slot untouched; one that fails changes nothing. */
  lemma UnmountClears(k: Kernel, minor: nat, specs: seq<MapSpec>, f: KernelFaults)
    requires KernelInv(k)
    ensures var (k2, st) := Unmount(k, minor, specs, f);
      && KernelInv(k2)
      && (st != OK || f.ctl == CTL_MISSING ==> k2 == k)
      && (st == OK && f.ctl == CTL_PRESENT ==>
        Live(k, minor) && k2.maps == Cleared(k.maps, minor) && k2.devs == k.devs[minor := None])
      && (f.ctl == CTL_PRESENT && Live(k, minor) && (specs == [] || Buildable(specs, minor)) ==> st == OK)
  {
    if specs == [] || Buildable(specs, minor) {
      DeleteAndDestroyClears(k, minor, EntriesFor(specs, minor));
    }
  }

  /** Mount followed by unmount is the identity on the kernel's tables. */
  lemma UnmountUndoesMount(k: Kernel, dev: string, minor: nat, specs: seq<MapSpec>, f: KernelFaults, g: KernelFaults)
    requires KernelInv(k) && f.ctl == g.ctl == CTL_PRESENT
    requires Mount(k, dev, minor, specs, f).1 == OK
    ensures Unmount(Mount(k, dev, minor, specs, f).0, minor, specs, g) == (k, OK)
  {
    MountAllOrNothing(k, dev, minor, specs, f);
    var k2 := Mount(k, dev, minor, specs, f).0;
    UnmountClears(k2, minor, specs, g);
    assert Live(k2, minor);
    assert k2.devs[minor := None] == k.devs;
  }

  /** The create-and-add ioctls, with the rollback of a failed add. */
  method IssueMount(shim: ReqShim, req: LogdevReq, es: seq<MapEntry>, f: KernelFaults) returns (err: Errno)
    requires shim.Valid()
    modifies shim.devs, shim.maps
    ensures (shim.State(), err) == CreateAndAdd(old(shim.State()), req, es, f)
  {
    err := shim.LogdevCreate(req, f.create);
    if err != EOK {
      return;
    }
    ghost var end := AddFrom(shim.State(), es, 0, f.addFault);
    var at;
    err, at := AddEach(shim, es, f.addFault, end);
    if err != EOK {
      RollBack(shim, req.minor, es, at);
    }
  }

  /** The add loop: it stops at the first ioctl that fails. */
  method AddEach(shim: ReqShim, es: seq<MapEntry>, fault: Option<nat>, ghost end: (Kernel, Errno, nat))
    returns (err: Errno, i: nat)
    requires shim.Valid() && AddFrom(shim.State(), es, 0, fault) == end
    modifies shim.maps
    ensures (shim.State(), err, i) == end
  {
    i := 0;
    while i < |es|
      invariant 0 <= i <= |es|
      invariant AddFrom(shim.State(), es, i, fault) == end
    {
      if fault == Some(i) {
        err := EFAULT;
      } else {
        err := shim.MapAdd(es[i]);
      }
      if err != EOK {
        return;
      }
      i := i + 1;
    }
    err := EOK;
  }

  method RollBack(shim: ReqShim, minor: nat, es: seq<MapEntry>, at: nat)
    requires shim.Valid() && at <= |es|
    modifies shim.devs, shim.maps
    ensures shim.State() == DestroyDev(DelDown(old(shim.State()), es, at), minor).0
  {
    var i := at;
    while i > 0
      invariant 0 <= i <= at
      invariant DelDown(shim.State(), es, i) == DelDown(old(shim.State()), es, at)
    {
      i := i - 1;
      var _ := shim.MapDel(es[i]);
    }
    var _ := shim.LogdevDestroy(minor);
  }

  /** Opens the control device and compares its version. A missing device is skipped. */
  method OpenControl(ctl: Control) returns (st: Status, ready: bool)
    ensures ready <==> ctl == CTL_PRESENT
    ensures st == ControlStatus(ctl)
  {
    if ctl == CTL_MISSING {
      return OK, false;
    }
    if ctl == CTL_ERROR {
      return KERNEL, false;
    }
    if ctl.CTL_NO_VERSION? {
      return ErrnoToStatus(ctl.err), false;
    }
    if ctl == CTL_OTHER_VERSION {
      return UNSUPPORTED, false;
    }
    return OK, true;
  }

  /** The saga in its own form, ioctl by ioctl. */
  method MountLogdev(shim: ReqShim, dev: string, minor: nat, specs: seq<MapSpec>, f: KernelFaults) returns (st: Status)
    requires shim.Valid()
    modifies shim.devs, shim.maps
    ensures (shim.State(), st) == Mount(old(shim.State()), dev, minor, specs, f)
  {
    if specs == [] {
      return INVALID;
    }
    var ok, es, capacity := BuildEntries(specs, minor);
    if !ok || !DiskNameOk(dev) {
      return INVALID;
    }
    var ready;
    st, ready := OpenControl(f.ctl);
    if !ready {
      return;
    }
    var err := IssueMount(shim, LogdevReq(minor, capacity, SECTOR, Basename(dev)), es, f);
    return ErrnoToStatus(err);
  }

  method IssueUnmount(shim: ReqShim, minor: nat, es: seq<MapEntry>) returns (err: Errno)
    requires shim.Valid()
    modifies shim.devs, shim.maps
    ensures (shim.State(), err) == DeleteAndDestroy(old(shim.State()), minor, es)
  {
    for i := 0 to |es|
      invariant DelUp(shim.State(), es, i) == DelUp(old(shim.State()), es, 0)
    {
      var _ := shim.MapDel(es[i]);
    }
    err := shim.LogdevDestroy(minor);
  }

  method UnmountLogdev(shim: ReqShim, minor: nat, specs: seq<MapSpec>, f: KernelFaults) returns (st: Status)
    requires shim.Valid()
    modifies shim.devs, shim.maps
    ensures (shim.State(), st) == Unmount(old(shim.State()), minor, specs, f)
  {
    var es: seq<MapEntry> := [];
    if specs != [] {
      var ok, capacity;
      ok, es, capacity := BuildEntries(specs, minor);
      if !ok {
        return INVALID;
      }
    }
    var ready;
    st, ready := OpenControl(f.ctl);
    if !ready {
      return;
    }
    var err := IssueUnmount(shim, minor, es);
    return ErrnoToStatus(err);
  }
}
