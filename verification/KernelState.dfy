/** The ReqShim kernel module's two tables as a value, and each ioctl as one
    atomic step on them. */
module KernelState {
  import opened Types
  import opened Tables

  const MAX_LOGDEVS: nat := 256
  const MAX_MAPS: nat := 1024

  datatype Errno = EOK | EINVAL | ENOENT | ENODEV | ENOMEM | ENOSPC | EBUSY | EEXIST | EFAULT | EOPNOTSUPP

  datatype LogdevReq = LogdevReq(minor: nat, capacity: nat, blockSize: nat, name: string)

  datatype MapEntry = MapEntry(minor: nat, sector: nat, length: nat, dev: string, nsid: nat, phys: nat)

  /** devs is indexed by minor; maps is searched slot by slot. */
  datatype Kernel = Kernel(devs: seq<Option<LogdevReq>>, maps: seq<Option<MapEntry>>)

  type Maps = seq<Option<MapEntry>>

  predicate Shaped(k: Kernel) { |k.devs| == MAX_LOGDEVS && |k.maps| == MAX_MAPS }

  predicate Live(k: Kernel, minor: nat) { minor < |k.devs| && k.devs[minor].Some? }

  predicate Keyed(s: Option<MapEntry>, minor: nat, sector: nat) {
    s.Some? && s.value.minor == minor && s.value.sector == sector
  }

  predicate Matches(s: Option<MapEntry>, minor: nat, sector: nat) {
    s.Some? && s.value.minor == minor && s.value.sector <= sector && sector - s.value.sector < s.value.length
  }

  function KeySlot(maps: Maps, minor: nat, sector: nat): (i: nat)
    ensures i <= |maps|
    ensures i < |maps| ==> Keyed(maps[i], minor, sector)
    ensures forall j :: 0 <= j < i ==> !Keyed(maps[j], minor, sector)
  {
    if maps == [] || Keyed(maps[0], minor, sector) then 0 else 1 + KeySlot(maps[1..], minor, sector)
  }

  /** The first slot whose range holds the sector, as the table scan finds it. */
  function QuerySlot(maps: Maps, minor: nat, sector: nat): (i: nat)
    ensures i <= |maps|
    ensures i < |maps| ==> Matches(maps[i], minor, sector)
    ensures forall j :: 0 <= j < i ==> !Matches(maps[j], minor, sector)
  {
    if maps == [] || Matches(maps[0], minor, sector) then 0 else 1 + QuerySlot(maps[1..], minor, sector)
  }

  function AddMap(k: Kernel, e: MapEntry): (r: (Kernel, Errno))
    ensures Shaped(k) ==> Shaped(r.0)
    ensures r.0.devs == k.devs
  {
    if e.length == 0 || e.dev == [] then (k, EINVAL)
    else if !Live(k, e.minor) then (k, ENOENT)
    else if KeySlot(k.maps, e.minor, e.sector) < |k.maps| then (k, EEXIST)
    else if FirstFree(k.maps) == |k.maps| then (k, ENOSPC)
    else (k.(maps := Put(k.maps, e)), EOK)
  }

  function DelMap(k: Kernel, e: MapEntry): (r: (Kernel, Errno))
    ensures Shaped(k) ==> Shaped(r.0)
    ensures r.0.devs == k.devs
  {
    var i := KeySlot(k.maps, e.minor, e.sector);
    if i < |k.maps| then (k.(maps := k.maps[i := None]), EOK) else (k, ENOENT)
  }

  function Cleared(maps: Maps, minor: nat): (r: Maps)
    ensures |r| == |maps|
    ensures forall i :: 0 <= i < |maps| ==>
      r[i] == if maps[i].Some? && maps[i].value.minor == minor then None else maps[i]
  {
    if maps == [] then []
    else
      var last := maps[|maps| - 1];
      Cleared(maps[..|maps| - 1], minor) + [if last.Some? && last.value.minor == minor then None else last]
  }

  predicate IsPowerOf2(n: nat) {
    n == 1 || (n > 1 && n % 2 == 0 && IsPowerOf2(n / 2))
  }

  lemma SectorIsPowerOf2()
    ensures IsPowerOf2(SECTOR)
  {
    assert IsPowerOf2(4) && IsPowerOf2(16) && IsPowerOf2(64) && IsPowerOf2(256);
  }

  predicate ValidLogdevReq(req: LogdevReq) {
    && req.minor < MAX_LOGDEVS
    && req.capacity > 0
    && 0 < |req.name| <= MAX_DISK_NAME
    && DiskNameChars(req.name)
    && req.blockSize >= SECTOR
    && IsPowerOf2(req.blockSize)
  }

  /** Device creation; fault is the errno of the block layer, EOK when it obliges. */
  function CreateDev(k: Kernel, req: LogdevReq, fault: Errno): (r: (Kernel, Errno))
    requires Shaped(k)
    ensures Shaped(r.0)
  {
    if !ValidLogdevReq(req) then (k, EINVAL)
    else if k.devs[req.minor].Some? then (k, EBUSY)
    else if fault != EOK then (k, fault)
    else (k.(devs := k.devs[req.minor := Some(req)]), EOK)
  }

  function DestroyDev(k: Kernel, minor: nat): (r: (Kernel, Errno))
    requires Shaped(k)
    ensures Shaped(r.0)
  {
    if minor >= MAX_LOGDEVS then (k, EINVAL)
    else if k.devs[minor].None? then (k, ENOENT)
    else (Kernel(k.devs[minor := None], Cleared(k.maps, minor)), EOK)
  }

  datatype Translation = Hit(entry: MapEntry, phys: nat) | Miss(errno: Errno)

  function Translate(maps: Maps, minor: nat, sector: nat): Translation {
    var i := QuerySlot(maps, minor, sector);
    if i == |maps| then Miss(ENOENT)
    else
      var e := maps[i].value;
      if e.phys > U64_MAX - (sector - e.sector) then Miss(EINVAL)
      else Hit(e, e.phys + (sector - e.sector))
  }

  /** The mappings of one minor. */
  function EntriesOf(maps: Maps, minor: nat): set<MapEntry> {
    set i | 0 <= i < |maps| && maps[i].Some? && maps[i].value.minor == minor :: maps[i].value
  }

  predicate UniqueKeys(maps: Maps) {
    forall i, j :: 0 <= i < j < |maps| && maps[i].Some? && maps[j].Some? ==>
      maps[i].value.minor != maps[j].value.minor || maps[i].value.sector != maps[j].value.sector
  }

  /** What every ioctl keeps: keys are unique, ranges are not empty, and an
      inactive minor has no mappings. */
  predicate KernelInv(k: Kernel) {
    && Shaped(k)
    && UniqueKeys(k.maps)
    && forall i :: 0 <= i < |k.maps| && k.maps[i].Some? ==> k.maps[i].value.length > 0 && Live(k, k.maps[i].value.minor)
  }

  lemma AddKeepsInv(k: Kernel, e: MapEntry)
    requires KernelInv(k)
    ensures KernelInv(AddMap(k, e).0)
  {
    assert forall j :: 0 <= j < KeySlot(k.maps, e.minor, e.sector) ==> !Keyed(k.maps[j], e.minor, e.sector);
  }

  lemma DelKeepsInv(k: Kernel, e: MapEntry)
    requires KernelInv(k)
    ensures KernelInv(DelMap(k, e).0)
  {}

  lemma CreateKeepsInv(k: Kernel, req: LogdevReq, fault: Errno)
    requires KernelInv(k)
    ensures KernelInv(CreateDev(k, req, fault).0)
  {}

  lemma DestroyKeepsInv(k: Kernel, minor: nat)
    requires KernelInv(k)
    ensures KernelInv(DestroyDev(k, minor).0)
  {}

  lemma IoctlsKeepInv(k: Kernel, e: MapEntry, req: LogdevReq, fault: Errno, minor: nat)
    requires KernelInv(k)
    ensures KernelInv(AddMap(k, e).0)
    ensures KernelInv(DelMap(k, e).0)
    ensures KernelInv(CreateDev(k, req, fault).0)
    ensures KernelInv(DestroyDev(k, minor).0)
  {
    AddKeepsInv(k, e);
    DelKeepsInv(k, e);
    CreateKeepsInv(k, req, fault);
    DestroyKeepsInv(k, minor);
  }

  /** An ioctl touches the mappings of its own minor only. */
  lemma IoctlFrame(k: Kernel, e: MapEntry, minor: nat, other: nat)
    requires Shaped(k)
    ensures other != e.minor ==> EntriesOf(AddMap(k, e).0.maps, other) == EntriesOf(k.maps, other)
    ensures other != e.minor ==> EntriesOf(DelMap(k, e).0.maps, other) == EntriesOf(k.maps, other)
    ensures other != minor ==> EntriesOf(DestroyDev(k, minor).0.maps, other) == EntriesOf(k.maps, other)
    ensures DestroyDev(k, minor).1 == EOK ==> EntriesOf(DestroyDev(k, minor).0.maps, minor) == {}
  {
    if other != e.minor {
      SameEntries(k.maps, AddMap(k, e).0.maps, other);
      SameEntries(k.maps, DelMap(k, e).0.maps, other);
    }
    if other != minor {
      SameEntries(k.maps, DestroyDev(k, minor).0.maps, other);
    }
  }

  lemma SameEntries(a: Maps, b: Maps, minor: nat)
    requires |a| == |b|
    requires forall i :: 0 <= i < |a| ==>
      a[i] == b[i] || ((a[i].Some? ==> a[i].value.minor != minor) && (b[i].Some? ==> b[i].value.minor != minor))
    ensures EntriesOf(a, minor) == EntriesOf(b, minor)
  {
    forall e ensures e in EntriesOf(a, minor) <==> e in EntriesOf(b, minor) {
      if e in EntriesOf(a, minor) {
        var i :| 0 <= i < |a| && a[i].Some? && a[i].value.minor == minor && a[i].value == e;
        assert b[i] == a[i];
      }
      if e in EntriesOf(b, minor) {
        var i :| 0 <= i < |b| && b[i].Some? && b[i].value.minor == minor && b[i].value == e;
        assert a[i] == b[i];
      }
    }
  }

  lemma AddMapEntries(k: Kernel, e: MapEntry)
    requires AddMap(k, e).1 == EOK
    ensures EntriesOf(AddMap(k, e).0.maps, e.minor) == EntriesOf(k.maps, e.minor) + {e}
  {
    var f := FirstFree(k.maps);
    var maps := AddMap(k, e).0.maps;
    assert maps[f] == Some(e);
    forall x ensures x in EntriesOf(maps, e.minor) <==> x in EntriesOf(k.maps, e.minor) + {e} {
      if x in EntriesOf(k.maps, e.minor) {
        var i :| 0 <= i < |k.maps| && k.maps[i].Some? && k.maps[i].value.minor == e.minor && k.maps[i].value == x;
        assert maps[i] == k.maps[i];
      }
    }
  }

  /** Adding and deleting only touch what clearing the minor removes anyway. */
  lemma AddDelCleared(k: Kernel, e: MapEntry)
    ensures Cleared(AddMap(k, e).0.maps, e.minor) == Cleared(k.maps, e.minor)
    ensures Cleared(DelMap(k, e).0.maps, e.minor) == Cleared(k.maps, e.minor)
  {}

  lemma ClearedUnmapped(maps: Maps, minor: nat)
    requires forall i :: 0 <= i < |maps| && maps[i].Some? ==> maps[i].value.minor != minor
    ensures Cleared(maps, minor) == maps
  {}

  /** Two ranges of one minor share no sector. */
  ghost predicate Disjoint(maps: Maps, minor: nat) {
    forall i, j, s ::
      0 <= i < |maps| && 0 <= j < |maps| && Matches(maps[i], minor, s) && Matches(maps[j], minor, s) ==> i == j
  }

  /** No range of the minor wraps past 64 bits, logically or physically. */
  predicate NoWrap(maps: Maps, minor: nat) {
    forall i :: 0 <= i < |maps| && maps[i].Some? && maps[i].value.minor == minor ==>
      maps[i].value.sector + maps[i].value.length <= U64_MAX && maps[i].value.phys + maps[i].value.length <= U64_MAX
  }

  /** Without overlap the slot order does not matter: the scan hits e exactly on
      the sectors of e's range. */
  lemma TranslateDisjoint(maps: Maps, minor: nat, s: nat, i: nat)
    requires Disjoint(maps, minor) && NoWrap(maps, minor)
    requires i < |maps| && Matches(maps[i], minor, s)
    ensures Translate(maps, minor, s) == Hit(maps[i].value, maps[i].value.phys + (s - maps[i].value.sector))
  {
    var j := QuerySlot(maps, minor, s);
    assert Matches(maps[j], minor, s);
  }

  // ---- when each ioctl succeeds, and what it changes ----

  predicate Occupied(maps: Maps, minor: nat, sector: nat) {
    exists i :: 0 <= i < |maps| && maps[i].Some? && maps[i].value.minor == minor && maps[i].value.sector == sector
  }

  predicate IsFirstFree(maps: Maps, i: nat) {
    i < |maps| && maps[i].None? && forall j :: 0 <= j < i ==> maps[j].Some?
  }

  /** MAP_ADD takes a named, non-empty range of a live minor that starts where none of the
      minor's does, while a slot is free: the first free one. */
  lemma AddMapIff(k: Kernel, e: MapEntry)
    ensures var (k2, err) := AddMap(k, e);
      && (err == EOK <==>
            && e.length > 0 && e.dev != [] && Live(k, e.minor) && !Occupied(k.maps, e.minor, e.sector)
            && exists i :: 0 <= i < |k.maps| && k.maps[i].None?)
      && (err != EOK ==> k2 == k)
      && (err == EOK ==> exists i: nat :: IsFirstFree(k.maps, i) && k2 == k.(maps := k.maps[i := Some(e)]))
  {
    var i, f := KeySlot(k.maps, e.minor, e.sector), FirstFree(k.maps);
    assert i < |k.maps| ==> Keyed(k.maps[i], e.minor, e.sector);
    assert f < |k.maps| ==> IsFirstFree(k.maps, f);
  }

  /** MAP_DEL frees the slot of the minor's range that starts there, and fails if there is
      none. */
  lemma DelMapIff(k: Kernel, e: MapEntry)
    requires UniqueKeys(k.maps)
    ensures var (k2, err) := DelMap(k, e);
      && (err == EOK <==> Occupied(k.maps, e.minor, e.sector))
      && k2.devs == k.devs && |k2.maps| == |k.maps|
      && forall i :: 0 <= i < |k.maps| ==> k2.maps[i] == if Keyed(k.maps[i], e.minor, e.sector) then None else k.maps[i]
  {
    var i := KeySlot(k.maps, e.minor, e.sector);
    assert i < |k.maps| ==> Keyed(k.maps[i], e.minor, e.sector);
  }

  /** A minor below 256 that is not live becomes a device of at least one block, of 512
      bytes or a larger power of two, under a permitted name, unless the block layer
      refuses; and a live one becomes none, without mappings. */
  lemma DeviceIoctlsIff(k: Kernel, req: LogdevReq, fault: Errno, minor: nat)
    requires Shaped(k)
    ensures var (k2, err) := CreateDev(k, req, fault);
      && (err == EOK <==>
            && req.minor < 256 && !Live(k, req.minor) && fault == EOK && req.capacity > 0
            && 0 < |req.name| <= 27 && DiskNameChars(req.name) && req.blockSize >= 512 && IsPowerOf2(req.blockSize))
      && k2 == if err == EOK then k.(devs := k.devs[req.minor := Some(req)]) else k
    ensures var (k2, err) := DestroyDev(k, minor);
      && (err == EOK <==> Live(k, minor))
      && (err != EOK ==> k2 == k)
      && (err == EOK ==> k2.devs == k.devs[minor := None] && |k2.maps| == |k.maps|)
      && (err == EOK ==>
            forall i :: 0 <= i < |k.maps| ==>
              k2.maps[i] == if k.maps[i].Some? && k.maps[i].value.minor == minor then None else k.maps[i])
  {}

  /** The first slot whose range holds the sector. */
  predicate FirstHolding(maps: Maps, minor: nat, s: nat, i: nat) {
    && i < |maps| && maps[i].Some? && maps[i].value.minor == minor
    && maps[i].value.sector <= s < maps[i].value.sector + maps[i].value.length
    && forall j :: 0 <= j < i && maps[j].Some? && maps[j].value.minor == minor ==>
      !(maps[j].value.sector <= s < maps[j].value.sector + maps[j].value.length)
  }

  /** For any table, overlapping or not: a sector goes to the first range that holds it,
      as far behind that range's physical start as it lies behind its own; past 64 bits it
      is refused, and where no range holds it there is nothing. */
  lemma TranslateIff(maps: Maps, minor: nat, s: nat)
    ensures forall i: nat :: FirstHolding(maps, minor, s, i) ==>
      Translate(maps, minor, s) ==
        if maps[i].value.phys + (s - maps[i].value.sector) <= U64_MAX
        then Hit(maps[i].value, maps[i].value.phys + (s - maps[i].value.sector))
        else Miss(EINVAL)
    ensures (forall i: nat :: !FirstHolding(maps, minor, s, i)) ==> Translate(maps, minor, s) == Miss(ENOENT)
  {
    var q := QuerySlot(maps, minor, s);
    forall i: nat | FirstHolding(maps, minor, s, i) ensures i == q {
      assert Matches(maps[i], minor, s);
    }
    if q < |maps| { QueryIsFirst(maps, minor, s); }
  }

  lemma QueryIsFirst(maps: Maps, minor: nat, s: nat)
    requires QuerySlot(maps, minor, s) < |maps|
    ensures FirstHolding(maps, minor, s, QuerySlot(maps, minor, s))
  {
    var q := QuerySlot(maps, minor, s);
    assert Matches(maps[q], minor, s);
    forall j | 0 <= j < q && maps[j].Some? && maps[j].value.minor == minor
      ensures !(maps[j].value.sector <= s < maps[j].value.sector + maps[j].value.length)
    {
      assert !Matches(maps[j], minor, s);
    }
  }
}
