/** The kernel module itself: two static tables changed in place by the ioctl
    handlers. Each handler is proved to be the step KernelState gives it. */
module ReqShimModule {
  import opened Types
  import opened Tables
  import opened KernelState

  class ReqShim {
    const devs: array<Option<LogdevReq>>
    const maps: array<Option<MapEntry>>

    ghost predicate Valid() {
      devs.Length == MAX_LOGDEVS && maps.Length == MAX_MAPS
    }

    ghost function State(): Kernel
      reads devs, maps
    {
      Kernel(devs[..], maps[..])
    }

    constructor ()
      ensures Valid() && fresh(devs) && fresh(maps)
      ensures KernelInv(State())
      ensures forall minor: nat :: !Live(State(), minor)
    {
      devs := new Option<LogdevReq>[MAX_LOGDEVS](_ => None);
      maps := new Option<MapEntry>[MAX_MAPS](_ => None);
    }

    method LogdevExists(minor: nat) returns (exists_: bool)
      requires Valid()
      ensures exists_ == Live(State(), minor)
    {
      if minor >= MAX_LOGDEVS {
        return false;
      }
      exists_ := devs[minor].Some?;
    }

    method MapAdd(e: MapEntry) returns (err: Errno)
      requires Valid()
      modifies maps
      ensures (State(), err) == AddMap(old(State()), e)
    {
      if e.length == 0 || e.dev == [] {
        return EINVAL;
      }
      var live := LogdevExists(e.minor);
      if !live {
        return ENOENT;
      }
      var slot: nat := MAX_MAPS;
      for i := 0 to MAX_MAPS
        invariant forall j :: 0 <= j < i ==> !Keyed(maps[j], e.minor, e.sector)
        invariant slot == MAX_MAPS || (slot < i && maps[slot].None?)
        invariant forall j :: 0 <= j < i && j < slot ==> maps[j].Some?
      {
        if maps[i].Some? && maps[i].value.minor == e.minor && maps[i].value.sector == e.sector {
          assert Keyed(maps[..][i], e.minor, e.sector);
          return EEXIST;
        }
        if maps[i].None? && slot == MAX_MAPS {
          slot := i;
        }
      }
      assert FirstFree(maps[..]) == slot;
      assert KeySlot(maps[..], e.minor, e.sector) == MAX_MAPS;
      if slot == MAX_MAPS {
        return ENOSPC;
      }
      maps[slot] := Some(e);
      assert maps[..] == old(maps[..])[slot := Some(e)];
      return EOK;
    }

    method MapDel(e: MapEntry) returns (err: Errno)
      requires Valid()
      modifies maps
      ensures (State(), err) == DelMap(old(State()), e)
    {
      for i := 0 to MAX_MAPS
        invariant maps[..] == old(maps[..])
        invariant forall j :: 0 <= j < i ==> !Keyed(maps[j], e.minor, e.sector)
      {
        if maps[i].Some? && maps[i].value.minor == e.minor && maps[i].value.sector == e.sector {
          assert Keyed(maps[..][i], e.minor, e.sector);
          assert KeySlot(maps[..], e.minor, e.sector) == i;
          maps[i] := None;
          assert maps[..] == old(maps[..])[i := None];
          return EOK;
        }
      }
      return ENOENT;
    }

    /** The first active slot whose range holds the sector. */
    method MapQuery(minor: nat, sector: nat) returns (entry: Option<MapEntry>)
      requires Valid()
      ensures var i := QuerySlot(maps[..], minor, sector);
        entry == if i < MAX_MAPS then maps[i] else None
    {
      for i := 0 to MAX_MAPS
        invariant forall j :: 0 <= j < i ==> !Matches(maps[j], minor, sector)
      {
        if maps[i].Some? {
          var e := maps[i].value;
          if e.minor == minor && sector >= e.sector && sector - e.sector < e.length {
            assert Matches(maps[..][i], minor, sector);
            return maps[i];
          }
        }
      }
      return None;
    }

    method MapClearMinor(minor: nat)
      requires Valid()
      modifies maps
      ensures maps[..] == Cleared(old(maps[..]), minor)
    {
      for i := 0 to MAX_MAPS
        invariant forall j :: 0 <= j < i ==> maps[j] == Cleared(old(maps[..]), minor)[j]
        invariant forall j :: i <= j < MAX_MAPS ==> maps[j] == old(maps[j])
      {
        if maps[i].Some? && maps[i].value.minor == minor {
          maps[i] := None;
        }
      }
    }

    /** The range checks after the query can only fail by physical overflow. */
    method TranslateSector(minor: nat, sector: nat) returns (t: Translation)
      requires Valid()
      ensures t == Translate(maps[..], minor, sector)
    {
      var q := MapQuery(minor, sector);
      if q.None? {
        return Miss(ENOENT);
      }
      var e := q.value;
      if sector < e.sector {
        return Miss(EINVAL);
      }
      var delta := sector - e.sector;
      if delta >= e.length || e.phys > U64_MAX - delta {
        return Miss(EINVAL);
      }
      return Hit(e, e.phys + delta);
    }

    /** fault stands for the tag set, disk allocation and add_disk calls. */
    method LogdevCreate(req: LogdevReq, fault: Errno) returns (err: Errno)
      requires Valid()
      modifies devs
      ensures (State(), err) == CreateDev(old(State()), req, fault)
    {
      if !ValidLogdevReq(req) {
        return EINVAL;
      }
      if devs[req.minor].Some? {
        return EBUSY;
      }
      devs[req.minor] := Some(req);
      if fault != EOK {
        devs[req.minor] := None;
        assert devs[..] == old(devs[..]);
        return fault;
      }
      assert devs[..] == old(devs[..])[req.minor := Some(req)];
      return EOK;
    }

    method LogdevDestroy(minor: nat) returns (err: Errno)
      requires Valid()
      modifies devs, maps
      ensures (State(), err) == DestroyDev(old(State()), minor)
    {
      if minor >= MAX_LOGDEVS {
        return EINVAL;
      }
      if devs[minor].None? {
        return ENOENT;
      }
      devs[minor] := None;
      MapClearMinor(minor);
      assert devs[..] == old(devs[..])[minor := None];
      return EOK;
    }
  }
}
