/** The user-side data plane: a logical range becomes a file offset, and a transfer
    is repeated until it is complete, however the system splits it. */
module DataPlane {
  import opened Types
  import opened ControllerState

  type Byte = i: int | 0 <= i < 256

  // ---- offsets ----

  /** A 64-bit value as the signed 64-bit off_t reads it. */
  function OffT(x: nat): int { if x <= U64_MAX / 2 then x else x - TWO64 }

  /** And back. */
  function Unsigned(x: int): nat { x % TWO64 }

  lemma OffTRoundTrip(x: nat)
    requires x <= U64_MAX
    ensures Unsigned(OffT(x)) == x
  {}

  /** The checks in 64-bit arithmetic, in the order in which
      translate_offset makes them. */
  method TranslateOffset(l: Logdev, off: nat, len: nat) returns (r: Option<int>)
    requires off <= U64_MAX && len <= U64_MAX && l.off <= U64_MAX && l.len <= U64_MAX && l.phys <= U64_MAX
    ensures r == Target(l, off, len)
    ensures r.Some? ==> Unsigned(r.value) == 512 * l.phys + (off - l.off)
  {
    if l.physDev == [] {
      return None;
    }
    if off < l.off {
      return None;
    }
    var relative := off - l.off;
    if relative > l.len || len > l.len - relative {
      return None;
    }
    if l.phys > U64_MAX / SECTOR {
      return None;
    }
    var base := l.phys * SECTOR;
    if relative > U64_MAX - base {
      return None;
    }
    var phys := base + relative;
    OffTRoundTrip(phys);
    assert Unsigned(OffT(phys)) == phys;
    if len > 0 {
      if len - 1 > U64_MAX - phys {
        return None;
      }
      OffTRoundTrip(phys + len - 1);
      assert Unsigned(OffT(phys + len - 1)) == phys + len - 1;
    }
    return Some(OffT(phys));
  }

  predicate InDevice(l: Logdev, off: nat, len: nat) { l.off <= off && off + len <= l.off + l.len }

  /** The first physical byte, without any bound. */
  function PhysByte(l: Logdev, off: nat): int { l.phys * SECTOR + (off - l.off) }

  /** A range translates exactly when the device has a name, the range lies in it,
      and the unbounded first and last byte fit 64 bits. */
  function Target(l: Logdev, off: nat, len: nat): Option<int> {
    if l.physDev != [] && InDevice(l, off, len) && PhysByte(l, off) <= U64_MAX
      && (len > 0 ==> PhysByte(l, off) + len - 1 <= U64_MAX)
    then Some(OffT(PhysByte(l, off)))
    else None
  }

  // ---- files ----

  /** Reading past the end of a file gives zeros. */
  function ByteAt(data: seq<Byte>, i: nat): Byte { if i < |data| then data[i] else 0 }

  function Zeros(n: nat): (z: seq<Byte>)
    ensures |z| == n && forall i :: 0 <= i < n ==> z[i] == 0
  {
    seq(n, _ => 0)
  }

  /** The file after bytes land at offset; a gap is filled with zeros. */
  function WriteAt(data: seq<Byte>, offset: nat, bytes: seq<Byte>): (r: seq<Byte>)
    ensures forall i: nat :: ByteAt(r, i) == if offset <= i < offset + |bytes| then bytes[i - offset]
      else ByteAt(data, i)
  {
    if bytes == [] then data
    else
      var padded := if |data| < offset then data + Zeros(offset - |data|) else data;
      padded[..offset] + bytes + if offset + |bytes| < |padded| then padded[offset + |bytes|..] else []
  }

  /** What one pwrite or pread does: it is interrupted, fails, or moves at most n bytes. */
  datatype Outcome = INTERRUPTED | FAILED | MOVES(n: nat)

  class Image {
    var data: seq<Byte>

    constructor (data: seq<Byte>)
      ensures this.data == data
    {
      this.data := data;
    }

    /** -1 is an error; a negative offset is one. */
    method Pwrite(bytes: seq<Byte>, offset: int, o: Outcome) returns (rc: int, interrupted: bool)
      modifies this
      ensures -1 <= rc <= |bytes|
      ensures rc > 0 ==> offset >= 0
      ensures data == if rc <= 0 then old(data) else WriteAt(old(data), offset, bytes[..rc])
      ensures interrupted <==> o.INTERRUPTED?
      ensures o.MOVES? && offset >= 0 ==> rc == if o.n < |bytes| then o.n else |bytes|
      ensures !o.MOVES? || offset < 0 <==> rc == -1
    {
      if !o.MOVES? || offset < 0 {
        return -1, o.INTERRUPTED?;
      }
      rc := if o.n < |bytes| then o.n else |bytes|;
      if rc > 0 {
        data := WriteAt(data, offset, bytes[..rc]);
      }
      return rc, false;
    }

    /** Moves at least one byte before the end of the file, and 0 at it. */
    method Pread(count: nat, offset: int, o: Outcome) returns (rc: int, bytes: seq<Byte>, interrupted: bool)
      requires count > 0
      ensures -1 <= rc <= count && |bytes| == if rc > 0 then rc else 0
      ensures rc > 0 ==> offset >= 0 && offset + rc <= |data| && bytes == data[offset..offset + rc]
      ensures rc == 0 ==> offset >= |data|
      ensures interrupted <==> o.INTERRUPTED?
      ensures !o.MOVES? || offset < 0 <==> rc == -1
    {
      if !o.MOVES? || offset < 0 {
        return -1, [], o.INTERRUPTED?;
      }
      if offset >= |data| {
        return 0, [], false;
      }
      var most := if count < |data| - offset then count else |data| - offset;
      rc := if o.n == 0 then 1 else if o.n < most then o.n else most;
      return rc, data[offset..offset + rc], false;
    }
  }

  /** The bytes [offset, offset+n) of the file are the buffer's, all others are as before. */
  ghost predicate WrittenUpTo(before: seq<Byte>, after: seq<Byte>, offset: int, buf: seq<Byte>, n: nat)
    requires n <= |buf|
  {
    && (n > 0 ==> offset >= 0)
    && forall i: nat :: ByteAt(after, i) == if offset <= i < offset + n then buf[i - offset] else ByteAt(before, i)
  }

  lemma WriteMore(before: seq<Byte>, mid: seq<Byte>, offset: int, buf: seq<Byte>, n: nat, m: nat)
    requires n + m <= |buf| && m > 0 && offset + n >= 0 && WrittenUpTo(before, mid, offset, buf, n)
    requires n == 0 ==> offset >= 0
    ensures WrittenUpTo(before, WriteAt(mid, offset + n, buf[n..n + m]), offset, buf, n + m)
  {}

  /** One pwrite of what is left of the buffer. */
  method WriteRest(file: Image, buf: array<Byte>, len: nat, offset: int, done: nat, o: Outcome, ghost before: seq<Byte>)
    returns (rc: int, interrupted: bool)
    requires done < len <= buf.Length && WrittenUpTo(before, file.data, offset, buf[..len], done)
    modifies file
    ensures -1 <= rc <= len - done
    ensures WrittenUpTo(before, file.data, offset, buf[..len], if rc > 0 then done + rc else done)
    ensures interrupted <==> o.INTERRUPTED?
    ensures o.MOVES? && offset + done >= 0 ==> rc == if o.n < len - done then o.n else len - done
    ensures !o.MOVES? || offset + done < 0 <==> rc == -1
  {
    ghost var mid, bytes := file.data, buf[..len];
    rc, interrupted := file.Pwrite(buf[done..len], offset + done, o);
    if rc > 0 {
      assert buf[done..len][..rc] == bytes[done..done + rc];
      WriteMore(before, mid, offset, bytes, done, rc);
    }
  }

  /** pwrite until done. Whatever the outcomes, a prefix of the buffer is in place
      and nothing else changed; success means all of it. outcomes lists what the
      calls do, one after the other; later calls move everything asked for. */
  method WriteAll(file: Image, buf: array<Byte>, len: nat, offset: int, outcomes: seq<Outcome>)
    returns (st: Status, done: nat)
    requires len <= buf.Length
    modifies file
    ensures done <= len && WrittenUpTo(old(file.data), file.data, offset, buf[..len], done)
    ensures st == OK <==> done == len
    ensures st == OK || st == IO
    ensures offset >= 0 && FAILED !in outcomes && MOVES(0) !in outcomes ==> st == OK
  {
    done := 0;
    var call := 0;
    ghost var before := file.data;
    while done < len
      invariant done <= len && 0 <= call <= |outcomes|
      invariant WrittenUpTo(before, file.data, offset, buf[..len], done)
      decreases |outcomes| - call, len - done
    {
      var o := if call < |outcomes| then outcomes[call] else MOVES(len);
      assert o in outcomes || o == MOVES(len);
      var rc, interrupted := WriteRest(file, buf, len, offset, done, o, before);
      if call < |outcomes| {
        call := call + 1;
      }
      if rc < 0 {
        if interrupted {
          continue;
        }
        return IO, done;
      }
      if rc == 0 {
        assert offset >= 0 ==> o == MOVES(0);
        return IO, done;
      }
      done := done + rc;
    }
    return OK, done;
  }

  /** pread until done; at the end of the file the rest of the buffer is zeroed. */
  method ReadAll(file: Image, buf: array<Byte>, len: nat, offset: int, outcomes: seq<Outcome>) returns (st: Status)
    requires len <= buf.Length
    modifies buf
    ensures forall i :: len <= i < buf.Length ==> buf[i] == old(buf[i])
    ensures st == OK ==> (len > 0 ==> offset >= 0) && forall i :: 0 <= i < len ==>
      buf[i] == ByteAt(file.data, offset + i)
    ensures st == OK || st == IO
    ensures offset >= 0 && FAILED !in outcomes ==> st == OK
  {
    var done, call := 0, 0;
    while done < len
      invariant 0 <= done <= len && 0 <= call <= |outcomes|
      invariant done > 0 ==> offset >= 0
      invariant forall i :: 0 <= i < done ==> buf[i] == ByteAt(file.data, offset + i)
      invariant forall i :: len <= i < buf.Length ==> buf[i] == old(buf[i])
      decreases |outcomes| - call, len - done
    {
      var o := if call < |outcomes| then outcomes[call] else MOVES(len);
      assert o in outcomes || o == MOVES(len);
      var rc, bytes, interrupted := file.Pread(len - done, offset + done, o);
      if call < |outcomes| {
        call := call + 1;
      }
      if rc < 0 {
        if interrupted {
          continue;
        }
        return IO;
      }
      if rc == 0 {
        forall i | done <= i < len {
          buf[i] := 0;
        }
        return OK;
      }
      forall i | 0 <= i < rc {
        buf[done + i] := bytes[i];
      }
      done := done + rc;
    }
    return OK;
  }

  /** The whole write: translate, open the device's file, write. */
  method Write(file: Image, l: Logdev, off: nat, buf: array<Byte>, opens: bool, outcomes: seq<Outcome>)
    returns (st: Status)
    requires off <= U64_MAX && buf.Length <= U64_MAX && l.off <= U64_MAX && l.len <= U64_MAX && l.phys <= U64_MAX
    modifies file
    ensures st == INVALID <==> Target(l, off, buf.Length).None?
    ensures (st == OK || st == IO || st == INVALID) && (st != INVALID && !opens ==> st == IO)
    ensures st == INVALID || !opens ==> file.data == old(file.data)
    ensures st == OK ==> InFile(file.data, l, off, buf[..])
    ensures OutsideSame(old(file.data), file.data, l, off, buf.Length)
    ensures st != INVALID && opens && PhysByte(l, off) + buf.Length <= U64_MAX / 2 ==>
      FAILED !in outcomes && MOVES(0) !in outcomes ==> st == OK
  {
    var at := TranslateOffset(l, off, buf.Length);
    if at.None? {
      return INVALID;
    }
    if !opens {
      return IO;
    }
    var done;
    st, done := WriteAll(file, buf, buf.Length, at.value, outcomes);
  }

  /** The whole read. */
  method Read(file: Image, l: Logdev, off: nat, buf: array<Byte>, opens: bool, outcomes: seq<Outcome>)
    returns (st: Status)
    requires off <= U64_MAX && buf.Length <= U64_MAX && l.off <= U64_MAX && l.len <= U64_MAX && l.phys <= U64_MAX
    modifies buf
    ensures st == INVALID <==> Target(l, off, buf.Length).None?
    ensures (st == OK || st == IO || st == INVALID) && (st != INVALID && !opens ==> st == IO)
    ensures st == OK ==> InFile(file.data, l, off, buf[..])
    ensures st != INVALID && opens && PhysByte(l, off) + buf.Length <= U64_MAX / 2 ==>
      FAILED !in outcomes ==> st == OK
  {
    var at := TranslateOffset(l, off, buf.Length);
    if at.None? {
      return INVALID;
    }
    if !opens {
      return IO;
    }
    st := ReadAll(file, buf, buf.Length, at.value, outcomes);
  }

  /** The bytes stand in the file where the device's range lies: as far behind the
      physical sector's first byte as the range lies behind the device's start. */
  predicate InFile(data: seq<Byte>, l: Logdev, off: nat, bytes: seq<Byte>) {
    var first := 512 * l.phys + (off - l.off);
    bytes != [] ==> first >= 0 && forall i :: 0 <= i < |bytes| ==> bytes[i] == ByteAt(data, first + i)
  }

  ghost predicate OutsideSame(before: seq<Byte>, after: seq<Byte>, l: Logdev, off: nat, len: nat) {
    var first := 512 * l.phys + (off - l.off);
    forall i: nat :: !(first <= i < first + len) ==> ByteAt(after, i) == ByteAt(before, i)
  }

  /** A completed write followed by a completed read of the same range returns the
      buffer, however the system splits either of them. */
  method WriteThenRead(file: Image, l: Logdev, off: nat, buf: array<Byte>, opens: bool, opensAgain: bool,
      outcomes: seq<Outcome>, outcomes2: seq<Outcome>)
    returns (st: Status, back: seq<Byte>)
    requires off <= U64_MAX && buf.Length <= U64_MAX && l.off <= U64_MAX && l.len <= U64_MAX && l.phys <= U64_MAX
    modifies file
    ensures st == OK ==> back == buf[..]
    ensures OutsideSame(old(file.data), file.data, l, off, buf.Length)
    ensures st == INVALID <==> Target(l, off, buf.Length).None?
    ensures st != INVALID && !(opens && opensAgain) ==> st == IO
    ensures st != INVALID && opens && opensAgain && PhysByte(l, off) + buf.Length <= U64_MAX / 2 ==>
      FAILED !in outcomes && MOVES(0) !in outcomes && FAILED !in outcomes2 ==> st == OK
  {
    back := [];
    st := Write(file, l, off, buf, opens, outcomes);
    if st != OK {
      return;
    }
    var out := new Byte[buf.Length](_ => 0);
    st := Read(file, l, off, out, opensAgain, outcomes2);
    if st == OK {
      assert forall i :: 0 <= i < buf.Length ==> out[..][i] == buf[..][i];
      back := out[..];
    }
  }
}
