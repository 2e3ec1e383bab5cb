/** The mock plugin in its own form: static tables scanned and changed in place. */
module MockPlugin {
  import opened Types
  import opened Tables
  import opened Decimal
  import opened KernelState
  import opened ReqShimModule
  import opened ReqShimIface
  import opened MockState

  class Plugin {
    const nss: array<Option<Namespace>>
    const mounts: array<Option<MountRow>>
    const shim: ReqShim
    var nextNs: nat

    ghost predicate Valid() {
      nss.Length == MAX_NAMESPACES && mounts.Length == MAX_MOUNTS && shim.Valid()
    }

    ghost function State(): Mock
      reads this, nss, mounts
    {
      Mock(nss[..], mounts[..], nextNs)
    }

    constructor ()
      ensures Valid() && fresh(nss) && fresh(mounts) && fresh(shim.devs) && fresh(shim.maps)
      ensures forall i :: 0 <= i < nss.Length ==> nss[i].None?
      ensures forall i :: 0 <= i < mounts.Length ==> mounts[i].None?
      ensures nextNs == 0 && KernelInv(shim.State()) && forall minor: nat :: !Live(shim.State(), minor)
    {
      nss := new Option<Namespace>[MAX_NAMESPACES](_ => None);
      mounts := new Option<MountRow>[MAX_MOUNTS](_ => None);
      shim := new ReqShim();
      nextNs := 0;
    }

    /** Stores a namespace in the first free slot and names it. */
    method Create(req: ExtentReq) returns (st: Status, nsId: string, phys: nat)
      requires Valid()
      modifies this, nss
      ensures (State(), st) == CreateNs(old(State()), req)
      ensures st == OK ==> nsId == Numbered(NS_PREFIX, old(nextNs)) && phys == req.hint
    {
      var slot := FirstFreeSlot(nss);
      if slot == nss.Length {
        return NO_RESOURCE, "", 0;
      }
      nsId := Numbered(NS_PREFIX, nextNs);
      nss[slot] := Some(Namespace(req.allocId, req.ssuId, nsId, req.off, req.len, req.hint));
      assert nss[..] == Put(old(nss[..]), NewNs(req, nextNs));
      nextNs := nextNs + 1;
      return OK, nsId, req.hint;
    }

    method Delete(ssuId: string, nsId: string) returns (st: Status)
      requires Valid()
      modifies nss
      ensures (State(), st) == DeleteNs(old(State()), ssuId, nsId)
    {
      for i := 0 to nss.Length
        invariant nss[..] == old(nss[..])
        invariant forall j :: 0 <= j < i ==> !IsNs(nss[j], ssuId, nsId)
      {
        if nss[i].Some? && nss[i].value.ssuId == ssuId && nss[i].value.nsId == nsId {
          assert FindNs(nss[..], ssuId, nsId) == i;
          nss[i] := None;
          assert nss[..] == old(nss[..])[i := None];
          return OK;
        }
      }
      return NOT_FOUND;
    }

    /** The map specs of an allocation's namespaces in table order. */
    method CollectMaps(allocId: string, d: Devices) returns (st: Status, specs: seq<MapSpec>)
      requires Valid()
      ensures var pieces := PiecesOf(State(), allocId);
        && st == (if pieces == [] then NOT_FOUND else if !AllConnect(pieces, d) then d.err else OK)
        && (st == OK ==> specs == SpecsOf(pieces, d))
    {
      specs := [];
      ghost var t := nss[..];
      for i := 0 to nss.Length
        invariant AllConnect(Pick(t[..i], NsAlloc, NsPiece, allocId), d)
        invariant specs == SpecsOf(Pick(t[..i], NsAlloc, NsPiece, allocId), d)
      {
        PickNext(t, i, NsAlloc, NsPiece, allocId);
        if nss[i].None? || nss[i].value.allocId != allocId {
          continue;
        }
        var ns := nss[i].value;
        if ns.ssuId !in d.names {
          PickConnect(t, i, allocId, d);
          return d.err, specs;
        }
        specs := specs + [MapSpec(d.names[ns.ssuId], ns.nsId, ns.off, ns.len, ns.phys)];
      }
      TakeAll(t);
      return if specs == [] then NOT_FOUND else OK, specs;
    }

    method FindMount(dev: string) returns (i: nat)
      requires Valid()
      ensures i == Find(mounts[..], MountDev, dev)
    {
      i := 0;
      while i < mounts.Length && !(mounts[i].Some? && mounts[i].value.dev == dev)
        invariant i <= mounts.Length
        invariant forall j :: 0 <= j < i ==> !Carries(mounts[j], MountDev, dev)
      {
        i := i + 1;
      }
      if i < mounts.Length { assert Carries(mounts[..][i], MountDev, dev); }
    }

    method MountDevice(row: MountRow, d: Devices, f: KernelFaults) returns (st: Status)
      requires Valid()
      modifies mounts, shim.devs, shim.maps
      ensures (State(), shim.State(), st) == MountNs(old(State()), old(shim.State()), row, d, f)
    {
      var known := FindByAllocate(row.allocId);
      if !known {
        return NOT_FOUND;
      }
      var busy := FindMount(row.dev);
      if busy < mounts.Length {
        return BUSY;
      }
      var slot := FirstFreeSlot(mounts);
      if slot == mounts.Length {
        return NO_RESOURCE;
      }
      var specs;
      st, specs := CollectMaps(row.allocId, d);
      if st != OK {
        return;
      }
      st := MountForAllocate(shim, row.dev, row.allocId, specs, f);
      if st == OK {
        mounts[slot] := Some(row);
        assert mounts[..] == Put(old(mounts[..]), row);
      }
    }

    method FindByAllocate(allocId: string) returns (known: bool)
      requires Valid()
      ensures known <==> PiecesOf(State(), allocId) != []
    {
      PickNone(nss[..], NsAlloc, NsPiece, allocId);
      HasSome(nss[..], NsAlloc, allocId);
      for i := 0 to nss.Length
        invariant forall j :: 0 <= j < i ==> !Carries(nss[j], NsAlloc, allocId)
      {
        if nss[i].Some? && nss[i].value.allocId == allocId {
          assert Carries(nss[..][i], NsAlloc, allocId);
          return true;
        }
      }
      return false;
    }

    method UnmountDevice(dev: string, d: Devices, f: KernelFaults) returns (st: Status)
      requires Valid()
      modifies mounts, shim.devs, shim.maps
      ensures (State(), shim.State(), st) == UnmountNs(old(State()), old(shim.State()), dev, d, f)
    {
      var i := FindMount(dev);
      if i == mounts.Length {
        var minor := LogicalMinor(dev);
        if minor.None? {
          return INVALID;
        }
        st := UnmountLogdev(shim, minor.value, [], f);
        return;
      }
      var row := mounts[i].value;
      var specs;
      st, specs := CollectMaps(row.allocId, d);
      if st != OK {
        return;
      }
      var minor := MinorOf(row.allocId, dev);
      if minor.None? {
        return INVALID;
      }
      st := UnmountLogdev(shim, minor.value, specs, f);
      if st == OK {
        mounts[i] := None;
        assert mounts[..] == old(mounts[..])[i := None];
      }
    }
  }

  method FirstFreeSlot<T>(t: array<Option<T>>) returns (i: nat)
    ensures i == FirstFree(t[..])
  {
    i := 0;
    while i < t.Length && t[i].Some?
      invariant i <= t.Length
      invariant forall j :: 0 <= j < i ==> t[j].Some?
    {
      i := i + 1;
    }
    assert forall j :: 0 <= j < i ==> t[..][j].Some?;
    if i < t.Length { assert t[..][i].None?; }
  }

  method MountForAllocate(shim: ReqShim, dev: string, allocId: string, specs: seq<MapSpec>, f: KernelFaults)
    returns (st: Status)
    requires shim.Valid()
    modifies shim.devs, shim.maps
    ensures var minor := MinorOf(allocId, dev);
      (shim.State(), st) == if minor.None? then (old(shim.State()), INVALID)
        else Mount(old(shim.State()), dev, minor.value, specs, f)
  {
    var minor := MinorOf(allocId, dev);
    if minor.None? {
      return INVALID;
    }
    st := MountLogdev(shim, dev, minor.value, specs, f);
  }

  lemma PickNext<T, U>(t: seq<Option<T>>, i: nat, key: T -> string, view: T -> U, k: string)
    requires i < |t|
    ensures Pick(t[..i + 1], key, view, k) == Pick(t[..i], key, view, k) + Share(t[i], key, view, k)
  {
    assert t[..i + 1][..i] == t[..i];
  }

  /** A namespace whose SSU does not connect spoils the whole collection. */
  lemma PickConnect(t: seq<Option<Namespace>>, i: nat, allocId: string, d: Devices)
    requires i < |t| && Carries(t[i], NsAlloc, allocId) && t[i].value.ssuId !in d.names
    ensures !AllConnect(Pick(t, NsAlloc, NsPiece, allocId), d)
    ensures Pick(t, NsAlloc, NsPiece, allocId) != []
  {
    PickIn(t, NsAlloc, NsPiece, allocId, i);
  }

  /** insert_index keeps the discovered device numbers ascending and distinct:
      index is shifted into place unless it is there or the buffer is full. */
  predicate Sorted(s: seq<nat>) { forall i, j :: 0 <= i < j < |s| ==> s[i] < s[j] }

  method InsertIndex(indexes: array<nat>, count: nat, index: nat) returns (newCount: nat)
    requires count <= indexes.Length && Sorted(indexes[..count])
    modifies indexes
    ensures newCount <= indexes.Length && Sorted(indexes[..newCount])
    ensures forall x :: x in indexes[..newCount] <==>
      x in old(indexes[..count]) || (x == index && count < indexes.Length)
    ensures newCount == count + if count < indexes.Length && index !in old(indexes[..count]) then 1 else 0
  {
    if count >= indexes.Length {
      return count;
    }
    ghost var s := indexes[..count];
    assert forall k :: 0 <= k < count ==> s[k] == indexes[k];
    var pos := 0;
    while pos < count && indexes[pos] < index
      invariant pos <= count
      invariant forall k :: 0 <= k < pos ==> indexes[k] < index
    {
      pos := pos + 1;
    }
    if pos < count && indexes[pos] == index {
      assert s[pos] == index;
      return count;
    }
    assert s[..pos] == indexes[..pos] && s[pos..] == indexes[pos..count];
    ShiftIn(indexes, count, pos, index);
    Inserted(s, pos, index);
    return count + 1;
  }

  method ShiftIn(indexes: array<nat>, count: nat, pos: nat, index: nat)
    requires pos <= count < indexes.Length
    modifies indexes
    ensures indexes[..count + 1] == old(indexes[..pos]) + [index] + old(indexes[pos..count])
  {
    ghost var s := indexes[..count];
    var i := count;
    while i > pos
      invariant pos <= i <= count
      invariant indexes[..i] == s[..i]
      invariant forall k :: i < k <= count ==> indexes[k] == s[k - 1]
    {
      indexes[i] := indexes[i - 1];
      i := i - 1;
    }
    indexes[pos] := index;
    assert s[..pos] == old(indexes[..pos]) && s[pos..] == old(indexes[pos..count]);
    assert indexes[..count + 1] == s[..pos] + [index] + s[pos..];
  }

  lemma Inserted(s: seq<nat>, pos: nat, x: nat)
    requires Sorted(s) && pos <= |s|
    requires (forall k :: 0 <= k < pos ==> s[k] < x) && (pos < |s| ==> x < s[pos])
    ensures var t := s[..pos] + [x] + s[pos..];
      Sorted(t) && x !in s && forall y :: y in t <==> y in s || y == x
  {}
}
