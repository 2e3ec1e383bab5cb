/** The user-side data path and the kernel reach the same bytes of a mounted device. */
module DeviceBytes {
  import opened Types
  import opened Tables
  import opened KernelState
  import opened ReqShimIface
  import opened ControllerState
  import opened MountMirror
  import opened Agreement
  import opened EndToEnd
  import opened DataPlane
  import opened Stripe

  /** Row r of the device table holds byte b of device dev. */
  predicate HoldsByte(logdevs: Logdevs, dev: string, r: nat, b: nat) {
    && r < |logdevs| && Carries(logdevs[r], LogdevDev, dev)
    && logdevs[r].value.off <= b < logdevs[r].value.off + logdevs[r].value.len
  }

  function Minor(l: Logdev): nat {
    if MinorOf(l.allocId, l.dev).Some? then MinorOf(l.allocId, l.dev).value else 0
  }

  /** Where the row's spec stands among the device's. */
  lemma RowSpec(w: World, r: nat) returns (specs: seq<MapSpec>, size: nat, j: nat)
    requires StackInv(w) && r < |w.c.logdevs| && w.c.logdevs[r].Some?
    ensures var l := w.c.logdevs[r].value;
      && specs == DevSpecs(w.c.logdevs, l.dev) && size == PiecesSize(PiecesOfId(w.c.rows, l.allocId))
      && MinorOf(l.allocId, l.dev).Some? && KernelInv(w.k)
      && StripeSpecs(specs, size) && PhysFits(specs) && Buildable(specs, Minor(l))
      && EntriesOf(w.k.maps, Minor(l)) == EntrySet(specs, Minor(l))
      && j < |specs| && specs[j] == LogdevSpec(l)
  {
    var l := w.c.logdevs[r].value;
    var ps, minor;
    specs, ps, minor := MountedFacts(w, r);
    size := PiecesSize(ps);
    PickIn(w.c.logdevs, LogdevDev, LogdevSpec, l.dev, r);
    j :| 0 <= j < |specs| && specs[j] == LogdevSpec(l);
  }

  /** A byte of an extent that starts on a sector, in sectors. */
  lemma ByteSector(off: nat, len: nat, phys: nat, b: nat)
    requires off % 512 == 0 && len % 512 == 0 && off <= b < off + len
    ensures off <= b / 512 * 512 < off + len && off / 512 <= b / 512
    ensures 512 * (phys + (b / 512 - off / 512)) + b % 512 == phys * 512 + (b - off)
  {}

  /** The kernel sends the byte's sector to the row's device; the file byte that the
      data path reaches there for a range from b on is byte b % 512 of the physical
      sector. */
  predicate SameByte(maps: Maps, l: Logdev, b: nat, len: nat) {
    var t, x := Translate(maps, Minor(l), b / 512), Target(l, b, len);
    t.Hit? && t.entry.dev == l.physDev && x.Some? && Unsigned(x.value) == 512 * t.phys + b % 512
  }

  lemma SpecByte(k: Kernel, specs: seq<MapSpec>, size: nat, j: nat, l: Logdev, b: nat, len: nat)
    requires KernelInv(k) && Buildable(specs, Minor(l)) && StripeSpecs(specs, size) && PhysFits(specs)
    requires EntriesOf(k.maps, Minor(l)) == EntrySet(specs, Minor(l)) && j < |specs| && specs[j] == LogdevSpec(l)
    requires l.off <= b < l.off + l.len && b + len <= l.off + l.len
    ensures SameByte(k.maps, l, b, len)
  {
    assert SpecOk(specs[j], Minor(l));
    ByteSector(l.off, l.len, l.phys, b);
    WiredHits(k, specs, Minor(l), size, j, b / 512);
    EntryNames(specs[j], Minor(l));
    RowTarget(l, b, len);
  }

  lemma RowTarget(l: Logdev, b: nat, len: nat)
    requires l.physDev != [] && l.off <= b && b + len <= l.off + l.len && l.phys * 512 + l.len <= U64_MAX
    ensures Target(l, b, len).Some? && Unsigned(Target(l, b, len).value) == l.phys * 512 + (b - l.off)
  {
    OffTRoundTrip(l.phys * 512 + (b - l.off));
  }

  /** Each byte of a mounted device, through the row that holds it, is the byte that the
      kernel's own translation gives. */
  lemma DeviceByte(w: World, r: nat, b: nat, len: nat)
    requires StackInv(w) && r < |w.c.logdevs| && w.c.logdevs[r].Some?
    requires var l := w.c.logdevs[r].value; l.off <= b < l.off + l.len && b + len <= l.off + l.len
    ensures SameByte(w.k.maps, w.c.logdevs[r].value, b, len)
  {
    var specs, size, j := RowSpec(w, r);
    SpecByte(w.k, specs, size, j, w.c.logdevs[r].value, b, len);
  }

  /** On a row of a mounted device the bound and overflow checks refuse exactly the
      ranges that are not the row's. */
  lemma RowRefusesOthers(w: World, r: nat, b: nat, len: nat)
    requires StackInv(w) && r < |w.c.logdevs| && w.c.logdevs[r].Some?
    ensures var l := w.c.logdevs[r].value; Target(l, b, len).Some? <==> l.off <= b && b + len <= l.off + l.len
  {
    var l := w.c.logdevs[r].value;
    var specs, size, j := RowSpec(w, r);
    assert SpecOk(specs[j], Minor(l));
  }

  /** x is the file's byte where the kernel's translation puts byte b of the device. */
  predicate KernelHas(data: seq<Byte>, maps: Maps, minor: nat, b: nat, x: Byte) {
    var t := Translate(maps, minor, b / 512);
    t.Hit? && x == ByteAt(data, 512 * t.phys + b % 512)
  }

  /** The bytes stand where the kernel's translation of each one's sector puts it. */
  predicate Stands(data: seq<Byte>, maps: Maps, minor: nat, off: nat, bytes: seq<Byte>) {
    forall i :: 0 <= i < |bytes| ==> KernelHas(data, maps, minor, off + i, bytes[i])
  }

  predicate BothSay(data: seq<Byte>, maps: Maps, l: Logdev, off: nat, bytes: seq<Byte>, i: nat)
    requires i < |bytes| && l.off <= off
  {
    KernelHas(data, maps, Minor(l), off + i, bytes[i]) <==> bytes[i] == ByteAt(data, PhysByte(l, off) + i)
  }

  lemma SameByteSays(data: seq<Byte>, maps: Maps, l: Logdev, off: nat, bytes: seq<Byte>, i: nat)
    requires l.off <= off && i < |bytes| && SameByte(maps, l, off + i, 0)
    ensures BothSay(data, maps, l, off, bytes, i)
  {
    RowByte(l, off + i);
  }

  predicate RowFollows(maps: Maps, l: Logdev) {
    forall b: nat :: l.off <= b < l.off + l.len ==> SameByte(maps, l, b, 0)
  }

  lemma RowBytes(w: World, r: nat)
    requires StackInv(w) && r < |w.c.logdevs| && w.c.logdevs[r].Some?
    ensures RowFollows(w.k.maps, w.c.logdevs[r].value)
  {
    var l := w.c.logdevs[r].value;
    forall b: nat | l.off <= b < l.off + l.len ensures SameByte(w.k.maps, l, b, 0) {
      DeviceByte(w, r, b, 0);
    }
  }

  /** So what a completed write puts into the row's file, and a completed read takes
      from it, is what the kernel reaches, byte by byte. */
  lemma TransferFollowsKernel(w: World, r: nat, off: nat, data: seq<Byte>, bytes: seq<Byte>)
    requires StackInv(w) && r < |w.c.logdevs| && w.c.logdevs[r].Some?
    requires var l := w.c.logdevs[r].value; l.off <= off && off + |bytes| <= l.off + l.len
    ensures var l := w.c.logdevs[r].value; InFile(data, l, off, bytes) <==> Stands(data, w.k.maps, Minor(l), off, bytes)
  {
    RowBytes(w, r);
    StandsIff(data, w.k.maps, w.c.logdevs[r].value, off, bytes);
  }

  lemma StandsIff(data: seq<Byte>, maps: Maps, l: Logdev, off: nat, bytes: seq<Byte>)
    requires l.off <= off && off + |bytes| <= l.off + l.len && RowFollows(maps, l)
    ensures InFile(data, l, off, bytes) <==> Stands(data, maps, Minor(l), off, bytes)
  {
    forall i | 0 <= i < |bytes| ensures BothSay(data, maps, l, off, bytes, i) {
      SameByteSays(data, maps, l, off, bytes, i);
    }
    if InFile(data, l, off, bytes) {
      forall i | 0 <= i < |bytes| ensures KernelHas(data, maps, Minor(l), off + i, bytes[i]) {
        assert BothSay(data, maps, l, off, bytes, i);
      }
    }
    if Stands(data, maps, Minor(l), off, bytes) {
      forall i | 0 <= i < |bytes| ensures bytes[i] == ByteAt(data, PhysByte(l, off) + i) {
        assert BothSay(data, maps, l, off, bytes, i);
        assert KernelHas(data, maps, Minor(l), off + i, bytes[i]);
      }
    }
  }

  lemma RowByte(l: Logdev, b: nat)
    requires Target(l, b, 0).Some?
    ensures Unsigned(Target(l, b, 0).value) == PhysByte(l, b)
  {
    OffTRoundTrip(PhysByte(l, b));
  }

  /** Different bytes of one device go to different places. */
  lemma BytesApart(w: World, r: nat, a: nat, q: nat, b: nat)
    requires StackInv(w) && r < |w.c.logdevs| && w.c.logdevs[r].Some? && a != b
    requires HoldsByte(w.c.logdevs, w.c.logdevs[r].value.dev, r, a)
    requires HoldsByte(w.c.logdevs, w.c.logdevs[r].value.dev, q, b)
    ensures var l, m := w.c.logdevs[r].value, w.c.logdevs[q].value;
      var x, y := Target(l, a, 1), Target(m, b, 1);
      x.Some? && y.Some? && (l.physDev != m.physDev || Unsigned(x.value) != Unsigned(y.value))
  {
    var l, m := w.c.logdevs[r].value, w.c.logdevs[q].value;
    DeviceByte(w, r, a, 1);
    DeviceByte(w, q, b, 1);
    OneMinor(w.c.logdevs, r, q);
    InRange(w, r, a);
    InRange(w, q, b);
    if a / 512 != b / 512 {
      MountedDeviceInjective(w, r, a / 512, b / 512);
    }
  }

  lemma OneMinor(logdevs: Logdevs, r: nat, q: nat)
    requires OneMountPerDevice(logdevs) && r < |logdevs| && q < |logdevs| && logdevs[r].Some? && logdevs[q].Some?
    requires logdevs[r].value.dev == logdevs[q].value.dev
    ensures Minor(logdevs[r].value) == Minor(logdevs[q].value)
    ensures logdevs[r].value.allocId == logdevs[q].value.allocId
  {}

  lemma InRange(w: World, r: nat, b: nat)
    requires StackInv(w) && r < |w.c.logdevs| && w.c.logdevs[r].Some?
    requires HoldsByte(w.c.logdevs, w.c.logdevs[r].value.dev, r, b)
    ensures b / 512 < PiecesSize(PiecesOfId(w.c.rows, w.c.logdevs[r].value.allocId)) / 512
  {
    var specs, size, j := RowSpec(w, r);
    DeviceByte(w, r, b, 0);
    WiredRange(w.k, specs, Minor(w.c.logdevs[r].value), size, b / 512);
  }

  // ---- each byte has one row ----

  lemma {:induction false} PickOrder<T, U>(t: seq<Option<T>>, key: T -> string, view: T -> U, k: string, x: nat, y: nat)
    returns (i: nat, j: nat)
    requires x < y < |t| && Carries(t[x], key, k) && Carries(t[y], key, k)
    ensures var us := Pick(t, key, view, k);
      i < j < |us| && us[i] == view(t[x].value) && us[j] == view(t[y].value)
  {
    var n := |t| - 1;
    if y < n {
      i, j := PickOrder(t[..n], key, view, k, x, y);
    } else {
      var front := Pick(t[..n], key, view, k);
      PickIn(t[..n], key, view, k, x);
      i :| 0 <= i < |front| && front[i] == view(t[x].value);
      j := |front|;
    }
  }

  /** No two rows of a device hold the same byte. */
  lemma OneRowHolds(w: World, r: nat, q: nat, b: nat)
    requires StackInv(w) && r < q < |w.c.logdevs| && w.c.logdevs[r].Some?
    ensures var dev := w.c.logdevs[r].value.dev;
      !(HoldsByte(w.c.logdevs, dev, r, b) && HoldsByte(w.c.logdevs, dev, q, b))
  {
    var l := w.c.logdevs[r].value;
    if HoldsByte(w.c.logdevs, l.dev, r, b) && HoldsByte(w.c.logdevs, l.dev, q, b) {
      var specs, size, n := RowSpec(w, r);
      var i, j := PickOrder(w.c.logdevs, LogdevDev, LogdevSpec, l.dev, r, q);
      assert SpecOk(specs[i], Minor(l)) && SpecOk(specs[j], Minor(l));
      ByteSector(specs[i].off, specs[i].len, 0, b);
      ByteSector(specs[j].off, specs[j].len, 0, b);
      StripeApart(specs, size, i, j, b / 512);
    }
  }

  /** And every byte below the allocation's size has one. */
  lemma SomeRowHolds(w: World, r: nat, b: nat) returns (q: nat)
    requires StackInv(w) && r < |w.c.logdevs| && w.c.logdevs[r].Some?
    requires b < PiecesSize(PiecesOfId(w.c.rows, w.c.logdevs[r].value.allocId))
    ensures HoldsByte(w.c.logdevs, w.c.logdevs[r].value.dev, q, b)
  {
    var l := w.c.logdevs[r].value;
    var specs, size, j := RowSpec(w, r);
    Tiles(size, |specs|, 0);
    var i := Locate(size, |specs|, |specs|, b);
    q := PickFrom(w.c.logdevs, LogdevDev, LogdevSpec, l.dev, specs[i]);
  }
}
