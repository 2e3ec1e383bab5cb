/** The mock plugin's namespace and mount tables as a value, and its calls as
    steps. A mount or unmount also steps the kernel below it. */
module MockState {
  import opened Types
  import opened Tables
  import opened Decimal
  import opened KernelState
  import opened ReqShimIface

  const MAX_NAMESPACES: nat := 128
  const MAX_MOUNTS: nat := 128
  const NS_PREFIX := "mock-ns"

  datatype Namespace = Namespace(allocId: string, ssuId: string, nsId: string, off: nat, len: nat, phys: nat)

  datatype MountRow = MountRow(allocId: string, hostId: string, dev: string)

  /** nextNs counts all namespaces ever created; the plugin keeps it modulo 2^64. */
  datatype Mock = Mock(nss: seq<Option<Namespace>>, mounts: seq<Option<MountRow>>, nextNs: nat)

  /** An extent as both the plugin and the controller record it. */
  datatype Piece = Piece(ssuId: string, nsId: string, off: nat, len: nat, phys: nat)

  /** The device name each SSU connects to; any other SSU is refused with err. */
  datatype Connections = Connections(names: map<string, string>, err: Status)

  type Devices = d: Connections | d.err != OK witness Connections(map[], NOT_FOUND)

  function NsAlloc(n: Namespace): string { n.allocId }
  function NsPiece(n: Namespace): Piece { Piece(n.ssuId, n.nsId, n.off, n.len, n.phys) }
  function MountDev(m: MountRow): string { m.dev }

  predicate MockShaped(m: Mock) { |m.nss| == MAX_NAMESPACES && |m.mounts| == MAX_MOUNTS }

  predicate IsNs(s: Option<Namespace>, ssuId: string, nsId: string) {
    s.Some? && s.value.ssuId == ssuId && s.value.nsId == nsId
  }

  function FindNs(nss: seq<Option<Namespace>>, ssuId: string, nsId: string): (i: nat)
    ensures i <= |nss|
    ensures i < |nss| ==> IsNs(nss[i], ssuId, nsId)
    ensures forall j :: 0 <= j < i ==> !IsNs(nss[j], ssuId, nsId)
  {
    if nss == [] || IsNs(nss[0], ssuId, nsId) then 0 else 1 + FindNs(nss[1..], ssuId, nsId)
  }

  /** The number in a namespace's name is the number it was created under, as long
      as that fits 32 bits; from there on the kernel's namespace id has no value. */
  lemma NamespaceNumber(n: nat)
    requires n < TWO64
    ensures TailU32(Numbered(NS_PREFIX, n)) == if n <= U32_MAX then Some(n) else None
  {
    NumberedSmall(NS_PREFIX, n);
    TailNumber(NS_PREFIX, n);
  }

  /** What the controller asks for: one extent. */
  datatype ExtentReq = ExtentReq(allocId: string, ssuId: string, off: nat, len: nat, hint: nat)

  function NewNs(req: ExtentReq, n: nat): Namespace {
    Namespace(req.allocId, req.ssuId, Numbered(NS_PREFIX, n), req.off, req.len, req.hint)
  }

  function CreateNs(m: Mock, req: ExtentReq): (r: (Mock, Status))
    ensures MockShaped(m) ==> MockShaped(r.0)
  {
    if FirstFree(m.nss) == |m.nss| then (m, NO_RESOURCE)
    else (m.(nss := Put(m.nss, NewNs(req, m.nextNs)), nextNs := m.nextNs + 1), OK)
  }

  function DeleteNs(m: Mock, ssuId: string, nsId: string): (r: (Mock, Status))
    ensures MockShaped(m) ==> MockShaped(r.0)
  {
    var i := FindNs(m.nss, ssuId, nsId);
    if i < |m.nss| then (m.(nss := m.nss[i := None]), OK) else (m, NOT_FOUND)
  }

  /** The first piece, in table order, whose SSU does not connect. */
  predicate AllConnect(pieces: seq<Piece>, d: Devices) {
    forall i :: 0 <= i < |pieces| ==> pieces[i].ssuId in d.names
  }

  function SpecOf(p: Piece, d: Devices): MapSpec
    requires p.ssuId in d.names
  {
    MapSpec(d.names[p.ssuId], p.nsId, p.off, p.len, p.phys)
  }

  function SpecsOf(pieces: seq<Piece>, d: Devices): (s: seq<MapSpec>)
    requires AllConnect(pieces, d)
    ensures |s| == |pieces|
    ensures forall i :: 0 <= i < |s| ==> s[i] == SpecOf(pieces[i], d)
  {
    if pieces == [] then []
    else SpecsOf(pieces[..|pieces| - 1], d) + [SpecOf(pieces[|pieces| - 1], d)]
  }

  function PiecesOf(m: Mock, allocId: string): seq<Piece> { Pick(m.nss, NsAlloc, NsPiece, allocId) }

  function MountNs(m: Mock, k: Kernel, row: MountRow, d: Devices, f: KernelFaults): (r: (Mock, Kernel, Status))
    requires Shaped(k)
    ensures (MockShaped(m) ==> MockShaped(r.0)) && Shaped(r.1)
  {
    var pieces := PiecesOf(m, row.allocId);
    if pieces == [] then (m, k, NOT_FOUND)
    else if Has(m.mounts, MountDev, row.dev) then (m, k, BUSY)
    else if FirstFree(m.mounts) == |m.mounts| then (m, k, NO_RESOURCE)
    else if !AllConnect(pieces, d) then (m, k, d.err)
    else
      var minor := MinorOf(row.allocId, row.dev);
      if minor.None? then (m, k, INVALID)
      else
        var (k2, st) := Mount(k, row.dev, minor.value, SpecsOf(pieces, d), f);
        (if st == OK then m.(mounts := Put(m.mounts, row)) else m, k2, st)
  }

  function UnmountNs(m: Mock, k: Kernel, dev: string, d: Devices, f: KernelFaults): (r: (Mock, Kernel, Status))
    requires Shaped(k)
    ensures (MockShaped(m) ==> MockShaped(r.0)) && Shaped(r.1)
  {
    var i := Find(m.mounts, MountDev, dev);
    if i == |m.mounts| then
      var minor := LogicalMinor(dev);
      if minor.None? then (m, k, INVALID)
      else
        var (k2, st) := Unmount(k, minor.value, [], f);
        (m, k2, st)
    else
      var row := m.mounts[i].value;
      var pieces := PiecesOf(m, row.allocId);
      if pieces == [] then (m, k, NOT_FOUND)
      else if !AllConnect(pieces, d) then (m, k, d.err)
      else
        var minor := MinorOf(row.allocId, dev);
        if minor.None? then (m, k, INVALID)
        else
          var (k2, st) := Unmount(k, minor.value, SpecsOf(pieces, d), f);
          (if st == OK then m.(mounts := m.mounts[i := None]) else m, k2, st)
  }

  /** What mounting and unmounting do to the plugin's tables and the kernel. */
  lemma MountNsCases(m: Mock, k: Kernel, row: MountRow, d: Devices, f: KernelFaults)
    requires Shaped(k)
    ensures var (m2, k2, st) := MountNs(m, k, row, d, f);
      var pieces := PiecesOf(m, row.allocId);
      var reached := pieces != [] && AllConnect(pieces, d) && MinorOf(row.allocId, row.dev).Some?;
      && (st != OK ==> m2 == m)
      && (st == OK ==>
            && reached && !Has(m.mounts, MountDev, row.dev)
            && FirstFree(m.mounts) < |m.mounts| && m2 == m.(mounts := Put(m.mounts, row)))
      && (!reached ==> k2 == k)
      && (k2 != k || st == OK ==>
            (k2, st) == Mount(k, row.dev, MinorOf(row.allocId, row.dev).value, SpecsOf(pieces, d), f))
  {}

  lemma UnmountNsCases(m: Mock, k: Kernel, dev: string, d: Devices, f: KernelFaults)
    requires Shaped(k)
    ensures var (m2, k2, st) := UnmountNs(m, k, dev, d, f);
      && (st != OK ==> m2 == m)
      && (!Has(m.mounts, MountDev, dev) ==> m2 == m)
      && (!Has(m.mounts, MountDev, dev) ==>
        (k2, st) == if LogicalMinor(dev).None? then (k, INVALID) else Unmount(k, LogicalMinor(dev).value, [], f))
      && (Has(m.mounts, MountDev, dev) ==>
            var i := Find(m.mounts, MountDev, dev);
            var pieces := PiecesOf(m, m.mounts[i].value.allocId);
            var minor := MinorOf(m.mounts[i].value.allocId, dev);
            && (st == OK ==> m2 == m.(mounts := m.mounts[i := None]))
            && (k2 != k || st == OK ==>
                  && pieces != [] && AllConnect(pieces, d) && minor.Some?
                  && (k2, st) == Unmount(k, minor.value, SpecsOf(pieces, d), f)))
  {}
}
