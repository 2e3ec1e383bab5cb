/** What submissions do to the blocks behind the devices: a read after a write of the
    same sectors of a mounted device returns what was written, and other devices keep
    their contents. */
module Storage {
  import opened Types
  import opened KernelState
  import opened ReqShimIface
  import opened ControllerState
  import opened ChunkedIo
  import opened EndToEnd
  import opened Isolation

  type Block = seq<bv8>

  /** The blocks by device name and physical sector. */
  type Store = (string, nat) -> Block

  /** The request's pages: the 512 bytes at an offset of a page. */
  type Memory = (nat, nat) -> Block

  function StoreOne(st: Store, io: SectorIo, b: Block): Store {
    (dev: string, phys: nat) => if dev == io.dev && phys == io.phys then b else st(dev, phys)
  }

  /** The store after writing the sectors in order. */
  function Written(st: Store, mem: Memory, ios: seq<Option<SectorIo>>): Store {
    if ios == [] then st
    else
      var front, last := Written(st, mem, ios[..|ios| - 1]), ios[|ios| - 1];
      if last.None? then front else StoreOne(front, last.value, mem(last.value.page, last.value.offset))
  }

  function FetchOne(mem: Memory, io: SectorIo, b: Block): Memory {
    (page: nat, offset: nat) => if page == io.page && offset == io.offset then b else mem(page, offset)
  }

  /** The pages after reading the sectors in order. */
  function Fetched(st: Store, mem: Memory, ios: seq<Option<SectorIo>>): Memory {
    if ios == [] then mem
    else
      var front, last := Fetched(st, mem, ios[..|ios| - 1]), ios[|ios| - 1];
      if last.None? then front else FetchOne(front, last.value, st(last.value.dev, last.value.phys))
  }

  predicate SamePlace(a: Option<SectorIo>, dev: string, phys: nat) {
    a.Some? && a.value.dev == dev && a.value.phys == phys
  }

  predicate SameSlot(a: Option<SectorIo>, page: nat, offset: nat) {
    a.Some? && a.value.page == page && a.value.offset == offset
  }

  /** No place on the devices is written twice. */
  predicate DistinctPlaces(ios: seq<Option<SectorIo>>) {
    forall i, j :: 0 <= i < j < |ios| && ios[j].Some? ==> !SamePlace(ios[i], ios[j].value.dev, ios[j].value.phys)
  }

  /** No part of a page is read twice. */
  predicate DistinctSlots(ios: seq<Option<SectorIo>>) {
    forall i, j :: 0 <= i < j < |ios| && ios[j].Some? ==> !SameSlot(ios[i], ios[j].value.page, ios[j].value.offset)
  }

  lemma {:induction false} WrittenAt(st: Store, mem: Memory, ios: seq<Option<SectorIo>>, k: nat)
    requires DistinctPlaces(ios) && k < |ios| && ios[k].Some?
    ensures Written(st, mem, ios)(ios[k].value.dev, ios[k].value.phys) == mem(ios[k].value.page, ios[k].value.offset)
  {
    var n := |ios| - 1;
    if k < n {
      WrittenAt(st, mem, ios[..n], k);
      assert ios[..n][k] == ios[k];
      if ios[n].Some? { assert !SamePlace(ios[k], ios[n].value.dev, ios[n].value.phys); }
    }
  }

  lemma {:induction false} WrittenElsewhere(st: Store, mem: Memory, ios: seq<Option<SectorIo>>, dev: string, phys: nat)
    requires forall k :: 0 <= k < |ios| ==> !SamePlace(ios[k], dev, phys)
    ensures Written(st, mem, ios)(dev, phys) == st(dev, phys)
  {
    if ios != [] {
      var n := |ios| - 1;
      WrittenElsewhere(st, mem, ios[..n], dev, phys);
      assert !SamePlace(ios[n], dev, phys);
    }
  }

  lemma {:induction false} FetchedAt(st: Store, mem: Memory, ios: seq<Option<SectorIo>>, k: nat)
    requires DistinctSlots(ios) && k < |ios| && ios[k].Some?
    ensures Fetched(st, mem, ios)(ios[k].value.page, ios[k].value.offset) == st(ios[k].value.dev, ios[k].value.phys)
  {
    var n := |ios| - 1;
    if k < n {
      FetchedAt(st, mem, ios[..n], k);
      assert ios[..n][k] == ios[k];
      if ios[n].Some? { assert !SameSlot(ios[k], ios[n].value.page, ios[n].value.offset); }
    }
  }

  // ---- the sectors of a request ----

  /** Page and offset of each sector of n sectors of a segment. */
  function SegmentSlots(b: Bvec, n: nat): (s: seq<(nat, nat)>)
    ensures |s| == n && forall k :: 0 <= k < n ==> s[k] == (b.page, b.offset + SECTOR * k)
  {
    seq(n, (k: nat) => (b.page, b.offset + SECTOR * k))
  }

  /** And of a request. */
  function Slots(bvecs: seq<Bvec>): seq<(nat, nat)> {
    if bvecs == [] then []
    else
      var last := bvecs[|bvecs| - 1];
      Slots(bvecs[..|bvecs| - 1]) + SegmentSlots(last, last.len / SECTOR)
  }

  lemma {:induction false} RequestAt(maps: Maps, minor: nat, start: nat, bvecs: seq<Bvec>)
    ensures var ts, slots := RequestTargets(maps, minor, start, bvecs), Slots(bvecs);
      && |ts| == |slots| == TotalSectors(bvecs)
      && forall k :: 0 <= k < |ts| ==> ts[k] == Target(maps, minor, start + k, slots[k].0, slots[k].1)
  {
    if bvecs != [] {
      var front, b := bvecs[..|bvecs| - 1], bvecs[|bvecs| - 1];
      RequestAt(maps, minor, start, front);
      PerSectorAt(maps, minor, start + TotalSectors(front), b.page, b.offset, b.len / SECTOR);
    }
  }

  /** The part of a page that sector k of a request uses is used by no other. */
  predicate OwnPages(bvecs: seq<Bvec>) {
    forall i, j :: 0 <= i < j < |Slots(bvecs)| ==> Slots(bvecs)[i] != Slots(bvecs)[j]
  }

  /** Different sectors from start on go to different places. */
  predicate PlacesDiffer(maps: Maps, minor: nat, start: nat, n: nat) {
    forall s, t :: start <= s < t < start + n ==>
      var a, b := Translate(maps, minor, s), Translate(maps, minor, t);
      a.Hit? && b.Hit? ==> a.entry.dev != b.entry.dev || a.phys != b.phys
  }

  lemma TargetsDistinct(maps: Maps, minor: nat, start: nat, bvecs: seq<Bvec>, ios: seq<Option<SectorIo>>)
    requires ios == RequestTargets(maps, minor, start, bvecs) && PlacesDiffer(maps, minor, start, TotalSectors(bvecs))
    ensures DistinctPlaces(ios)
    ensures OwnPages(bvecs) ==> DistinctSlots(ios)
  {
    RequestAt(maps, minor, start, bvecs);
  }

  /** Sector k of a request that was sent in full. */
  lemma SentSector(maps: Maps, minor: nat, start: nat, bvecs: seq<Bvec>, subs: seq<Submission>, k: nat)
    requires SentAll(maps, minor, start, bvecs, subs) && k < TotalSectors(bvecs)
    ensures var t := Translate(maps, minor, start + k);
      && t.Hit? && k < |AllSectors(subs)| && k < |Slots(bvecs)|
      && AllSectors(subs)[k] == Some(SectorIo(t.entry.dev, t.entry.nsid, t.phys, Slots(bvecs)[k].0, Slots(bvecs)[k].1))
  {
    RequestAt(maps, minor, start, bvecs);
    assert Translate(maps, minor, start + k).Hit?;
  }

  /** Block k of the pages after write and read is block k of the pages written. */
  predicate BlockBack(st: Store, mem: Memory, mem2: Memory, wb: seq<Bvec>, rb: seq<Bvec>, wsubs: seq<Submission>,
      rsubs: seq<Submission>, k: nat)
  {
    k < |Slots(wb)| && k < |Slots(rb)| &&
    Fetched(Written(st, mem, AllSectors(wsubs)), mem2, AllSectors(rsubs))(Slots(rb)[k].0, Slots(rb)[k].1)
      == mem(Slots(wb)[k].0, Slots(wb)[k].1)
  }

  /** Whatever chunks the kernel cut the two requests into, a completed read of the
      sectors of a completed write returns its pages, where different sectors go to
      different places and the read uses no part of a page twice. */
  lemma ReadBack(maps: Maps, minor: nat, start: nat, wb: seq<Bvec>, rb: seq<Bvec>, wsubs: seq<Submission>,
      rsubs: seq<Submission>, st: Store, mem: Memory, mem2: Memory, k: nat)
    requires SentAll(maps, minor, start, wb, wsubs) && SentAll(maps, minor, start, rb, rsubs)
    requires TotalSectors(wb) == TotalSectors(rb) && k < TotalSectors(wb)
    requires PlacesDiffer(maps, minor, start, TotalSectors(wb)) && OwnPages(rb)
    ensures BlockBack(st, mem, mem2, wb, rb, wsubs, rsubs, k)
  {
    SentSector(maps, minor, start, wb, wsubs, k);
    SentSector(maps, minor, start, rb, rsubs, k);
    TargetsDistinct(maps, minor, start, wb, AllSectors(wsubs));
    TargetsDistinct(maps, minor, start, rb, AllSectors(rsubs));
    WrittenAt(st, mem, AllSectors(wsubs), k);
    FetchedAt(Written(st, mem, AllSectors(wsubs)), mem2, AllSectors(rsubs), k);
  }

  /** A write touches only the places its sectors translate to. */
  lemma OnlyTargetsWritten(maps: Maps, minor: nat, start: nat, wb: seq<Bvec>, wsubs: seq<Submission>, st: Store,
      mem: Memory, dev: string, phys: nat)
    requires SentAll(maps, minor, start, wb, wsubs)
    requires forall s :: start <= s < start + TotalSectors(wb) ==>
      var t := Translate(maps, minor, s); t.Hit? ==> t.entry.dev != dev || t.phys != phys
    ensures Written(st, mem, AllSectors(wsubs))(dev, phys) == st(dev, phys)
  {
    RequestAt(maps, minor, start, wb);
    forall k | 0 <= k < |AllSectors(wsubs)| ensures !SamePlace(AllSectors(wsubs)[k], dev, phys) {
      SentSector(maps, minor, start, wb, wsubs, k);
    }
    WrittenElsewhere(st, mem, AllSectors(wsubs), dev, phys);
  }

  // ---- mounted devices ----

  lemma MountedPlacesDiffer(w: World, i: nat, minor: nat, start: nat, n: nat)
    requires StackInv(w) && i < |w.c.logdevs| && w.c.logdevs[i].Some?
    requires MinorOf(w.c.logdevs[i].value.allocId, w.c.logdevs[i].value.dev) == Some(minor)
    ensures PlacesDiffer(w.k.maps, minor, start, n)
  {
    forall s, t | start <= s < t < start + n
      ensures var a, b := Translate(w.k.maps, minor, s), Translate(w.k.maps, minor, t);
        a.Hit? && b.Hit? ==> a.entry.dev != b.entry.dev || a.phys != b.phys
    {
      MountedDeviceTranslates(w, i, s);
      MountedDeviceTranslates(w, i, t);
      MountedDeviceInjective(w, i, s, t);
    }
  }

  /** In every state the stack keeps, what a completed read of a mounted device
      returns is what the last completed write of those sectors put there. */
  lemma MountedReadBack(w: World, i: nat, minor: nat, start: nat, wb: seq<Bvec>, rb: seq<Bvec>, wsubs: seq<Submission>,
      rsubs: seq<Submission>, st: Store, mem: Memory, mem2: Memory, k: nat)
    requires StackInv(w) && i < |w.c.logdevs| && w.c.logdevs[i].Some?
    requires MinorOf(w.c.logdevs[i].value.allocId, w.c.logdevs[i].value.dev) == Some(minor)
    requires SentAll(w.k.maps, minor, start, wb, wsubs) && SentAll(w.k.maps, minor, start, rb, rsubs)
    requires TotalSectors(wb) == TotalSectors(rb) && k < TotalSectors(wb) && OwnPages(rb)
    ensures BlockBack(st, mem, mem2, wb, rb, wsubs, rsubs, k)
  {
    MountedPlacesDiffer(w, i, minor, start, TotalSectors(wb));
    ReadBack(w.k.maps, minor, start, wb, rb, wsubs, rsubs, st, mem, mem2, k);
  }

  /** Where mounted devices are isolated, a completed write of one leaves every sector
      of the others as it was. */
  lemma OthersKeepContents(w: World, i: nat, j: nat, start: nat, wb: seq<Bvec>, wsubs: seq<Submission>, st: Store,
      mem: Memory, t: nat)
    requires StackInv(w) && Isolated(w) && TwoDevices(w.c.logdevs, i, j)
    requires var l, m := w.c.logdevs[i].value, w.c.logdevs[j].value;
      && MinorOf(l.allocId, l.dev).Some? && MinorOf(m.allocId, m.dev).Some?
      && SentAll(w.k.maps, DevMinor(l), start, wb, wsubs) && Translate(w.k.maps, DevMinor(m), t).Hit?
    ensures var b := Translate(w.k.maps, DevMinor(w.c.logdevs[j].value), t);
      Written(st, mem, AllSectors(wsubs))(b.entry.dev, b.phys) == st(b.entry.dev, b.phys)
  {
    var l, m := w.c.logdevs[i].value, w.c.logdevs[j].value;
    var b := Translate(w.k.maps, DevMinor(m), t);
    forall s: nat | start <= s < start + TotalSectors(wb)
      ensures var a := Translate(w.k.maps, DevMinor(l), s); a.Hit? ==> a.entry.dev != b.entry.dev || a.phys != b.phys
    {
      assert SectorsApart(w, i, j, s, t);
    }
    OnlyTargetsWritten(w.k.maps, DevMinor(l), start, wb, wsubs, st, mem, b.entry.dev, b.phys);
  }
}
