/** The block request path: a segment is cut into chunks at mapping borders, and
    each chunk is sent to one physical device. */
module ChunkedIo {
  import opened Types
  import opened Tables
  import opened KernelState
  import opened ReqShimModule

  datatype BlkStatus = STS_OK | STS_RESOURCE | STS_NOTSUPP | STS_IOERR

  datatype Bvec = Bvec(page: nat, len: nat, offset: nat)

  /** One physical submission: bytes of a page to consecutive sectors. */
  datatype Submission = Submission(dev: string, nsid: nat, phys: nat, page: nat, bytes: nat, offset: nat)

  /** One sector of a page at one physical sector. */
  datatype SectorIo = SectorIo(dev: string, nsid: nat, phys: nat, page: nat, offset: nat)

  function ErrnoStatus(err: Errno): BlkStatus {
    match err
    case EOK => STS_OK
    case ENOMEM | ENOSPC => STS_RESOURCE
    case EOPNOTSUPP => STS_NOTSUPP
    case _ => STS_IOERR
  }

  /** Where translating sector alone sends it. */
  function Target(maps: Maps, minor: nat, sector: nat, page: nat, offset: nat): Option<SectorIo> {
    match Translate(maps, minor, sector)
    case Hit(e, phys) => Some(SectorIo(e.dev, e.nsid, phys, page, offset))
    case Miss(_) => None
  }

  /** n sectors of one page, translated one at a time. */
  function PerSector(maps: Maps, minor: nat, sector: nat, page: nat, offset: nat, n: nat): seq<Option<SectorIo>> {
    if n == 0 then []
    else
      PerSector(maps, minor, sector, page, offset, n - 1)
      + [Target(maps, minor, sector + n - 1, page, offset + SECTOR * (n - 1))]
  }

  /** The sectors a submission covers. */
  function Sectors(s: Submission, n: nat): seq<Option<SectorIo>> {
    if n == 0 then []
    else Sectors(s, n - 1) + [Some(SectorIo(s.dev, s.nsid, s.phys + n - 1, s.page, s.offset + SECTOR * (n - 1)))]
  }

  function AllSectors(subs: seq<Submission>): seq<Option<SectorIo>> {
    if subs == [] then []
    else AllSectors(subs[..|subs| - 1]) + Sectors(subs[|subs| - 1], subs[|subs| - 1].bytes / SECTOR)
  }

  lemma {:induction false} PerSectorSplit(maps: Maps, minor: nat, sector: nat, page: nat, offset: nat, m: nat, n: nat)
    ensures PerSector(maps, minor, sector, page, offset, m + n)
         == PerSector(maps, minor, sector, page, offset, m)
           + PerSector(maps, minor, sector + m, page, offset + SECTOR * m, n)
  {
    if n > 0 {
      PerSectorSplit(maps, minor, sector, page, offset, m, n - 1);
      assert sector + (m + n) - 1 == (sector + m) + n - 1;
      assert offset + SECTOR * (m + n - 1) == (offset + SECTOR * m) + SECTOR * (n - 1);
    }
  }

  lemma {:induction false} PerSectorAt(maps: Maps, minor: nat, sector: nat, page: nat, offset: nat, n: nat)
    ensures |PerSector(maps, minor, sector, page, offset, n)| == n
    ensures forall k :: 0 <= k < n ==>
      PerSector(maps, minor, sector, page, offset, n)[k] == Target(maps, minor, sector + k, page, offset + SECTOR * k)
  {
    if n > 0 {
      PerSectorAt(maps, minor, sector, page, offset, n - 1);
    }
  }

  /** A chunk inside one mapping goes where each of its sectors would go. */
  lemma {:induction false} ChunkAgrees(maps: Maps, minor: nat, sector: nat, i: nat, s: Submission, n: nat)
    requires Disjoint(maps, minor) && NoWrap(maps, minor)
    requires i < |maps| && Matches(maps[i], minor, sector)
    requires sector + n <= maps[i].value.sector + maps[i].value.length
    requires s.dev == maps[i].value.dev && s.nsid == maps[i].value.nsid
    requires s.phys == maps[i].value.phys + (sector - maps[i].value.sector)
    ensures Sectors(s, n) == PerSector(maps, minor, sector, s.page, s.offset, n)
  {
    if n > 0 {
      ChunkAgrees(maps, minor, sector, i, s, n - 1);
      TranslateDisjoint(maps, minor, sector + n - 1, i);
    }
  }

  predicate Translatable(maps: Maps, minor: nat, sector: nat, n: nat) {
    forall k :: sector <= k < sector + n ==> Translate(maps, minor, k).Hit?
  }

  /** The size of the next chunk in 32-bit arithmetic. */
  function ChunkBytes(sectorsLeft: nat, bytesLeft: nat): nat {
    var maxBytes := if sectorsLeft > U32_MAX / SECTOR then U32_MAX - U32_MAX % SECTOR else sectorsLeft * SECTOR;
    var chunk := if bytesLeft < maxBytes then bytesLeft else maxBytes;
    chunk - chunk % SECTOR
  }

  /** The next chunk in sectors. */
  function ChunkSectors(sectorsLeft: nat, wanted: nat): nat {
    var limit := if sectorsLeft > U32_MAX / SECTOR then U32_MAX / SECTOR else sectorsLeft;
    if wanted < limit then wanted else limit
  }

  /** Neither the shift nor the mask overflows 32 bits, and on whole sectors the
      chunk is never empty and never leaves the mapping or the segment. */
  lemma ChunkFits(sectorsLeft: nat, wanted: nat, bytesLeft: nat)
    requires sectorsLeft > 0 && wanted > 0 && bytesLeft == wanted * SECTOR
    ensures sectorsLeft <= U32_MAX / SECTOR ==> sectorsLeft * SECTOR <= U32_MAX
    ensures 0 < ChunkSectors(sectorsLeft, wanted) <= sectorsLeft
    ensures ChunkSectors(sectorsLeft, wanted) <= wanted
    ensures ChunkBytes(sectorsLeft, bytesLeft) == ChunkSectors(sectorsLeft, wanted) * SECTOR
    ensures ChunkBytes(sectorsLeft, bytesLeft) / SECTOR == ChunkSectors(sectorsLeft, wanted)
  {}

  /** Where the range that the scan finds at sector ends, in 64 bits. */
  function RangeEnd(e: MapEntry): nat { (e.sector + e.length) % TWO64 }

  /** A chunk sent from s0 can be long enough to carry sector s. */
  predicate SameChunk(maps: Maps, minor: nat, s0: nat, s: nat) {
    var t := Translate(maps, minor, s0);
    t.Hit? && s0 <= s < RangeEnd(t.entry) && s - s0 < U32_MAX / SECTOR
  }

  /** Sector s alone translates to where a chunk from s0 takes it. */
  predicate Continues(maps: Maps, minor: nat, s0: nat, s: nat)
    requires s0 <= s
  {
    var t, u := Translate(maps, minor, s0), Translate(maps, minor, s);
    t.Hit? && u.Hit? && u.entry.dev == t.entry.dev && u.entry.nsid == t.entry.nsid && u.phys == t.phys + (s - s0)
  }

  /** Every range is continued by whatever the scan finds at its later sectors. */
  ghost predicate RangesHold(maps: Maps, minor: nat) {
    forall s0: nat, s: nat :: SameChunk(maps, minor, s0, s) ==> Continues(maps, minor, s0, s)
  }

  /** No range that the scan finds wraps past 64 bits. */
  ghost predicate EndsHold(maps: Maps, minor: nat) {
    forall s: nat :: Translate(maps, minor, s).Hit? ==> s < RangeEnd(Translate(maps, minor, s).entry)
  }

  /** The minor's ranges neither overlap nor wrap. */
  ghost predicate CleanMinor(maps: Maps, minor: nat) { Disjoint(maps, minor) && NoWrap(maps, minor) }

  /** A clean minor meets both conditions. */
  lemma CleanHolds(maps: Maps, minor: nat)
    requires CleanMinor(maps, minor)
    ensures RangesHold(maps, minor) && EndsHold(maps, minor)
  {
    forall s0: nat, s: nat | SameChunk(maps, minor, s0, s) ensures Continues(maps, minor, s0, s) {
      TranslateDisjoint(maps, minor, s, QuerySlot(maps, minor, s0));
    }
  }

  /** s is the submission of n sectors that starts where sector translates to. */
  predicate StartsAt(maps: Maps, minor: nat, sector: nat, s: Submission, n: nat) {
    var t := Translate(maps, minor, sector);
    && t.Hit? && s.dev == t.entry.dev && s.nsid == t.entry.nsid && s.phys == t.phys && s.bytes == n * SECTOR
    && sector + n <= RangeEnd(t.entry) && n <= U32_MAX / SECTOR
  }

  lemma {:induction false} ChunkContinues(maps: Maps, minor: nat, sector: nat, s: Submission, m: nat, n: nat)
    requires RangesHold(maps, minor) && StartsAt(maps, minor, sector, s, m) && n <= m
    ensures Sectors(s, n) == PerSector(maps, minor, sector, s.page, s.offset, n)
    ensures Translatable(maps, minor, sector, n)
  {
    if n > 0 {
      ChunkContinues(maps, minor, sector, s, m, n - 1);
      assert SameChunk(maps, minor, sector, sector + n - 1);
    }
  }

  /** Appending the chunk keeps the record equal to per-sector translation. */
  lemma ChunkStep(maps: Maps, minor: nat, start: nat, d: nat, bvec: Bvec, n: nat, before: seq<Submission>,
      subs: seq<Submission>, s: Submission)
    requires RangesHold(maps, minor) && StartsAt(maps, minor, start + d, s, n)
    requires s.page == bvec.page && s.offset == bvec.offset + d * SECTOR
    requires Sent(maps, minor, bvec, start, before, subs, d)
    ensures Sent(maps, minor, bvec, start, before, subs + [s], d + n)
  {
    ChunkContinues(maps, minor, start + d, s, n, n);
    TranslatableGrows(maps, minor, start, d, n);
    RecordGrows(maps, minor, start, d, bvec, n, before, subs, s);
  }

  lemma RecordGrows(maps: Maps, minor: nat, start: nat, d: nat, bvec: Bvec, n: nat, before: seq<Submission>,
      subs: seq<Submission>, s: Submission)
    requires s.bytes == n * SECTOR
    requires Sectors(s, n) == PerSector(maps, minor, start + d, bvec.page, bvec.offset + SECTOR * d, n)
    requires AllSectors(subs) == AllSectors(before) + PerSector(maps, minor, start, bvec.page, bvec.offset, d)
    ensures AllSectors(subs + [s]) == AllSectors(before) + PerSector(maps, minor, start, bvec.page, bvec.offset, d + n)
  {
    PerSectorSplit(maps, minor, start, bvec.page, bvec.offset, d, n);
    AllSectorsNext(subs, s, n);
    Regroup(AllSectors(before), PerSector(maps, minor, start, bvec.page, bvec.offset, d), Sectors(s, n));
  }

  lemma Regroup<T>(a: seq<T>, b: seq<T>, c: seq<T>)
    ensures (a + b) + c == a + (b + c)
  {}

  lemma AllSectorsNext(subs: seq<Submission>, s: Submission, n: nat)
    requires s.bytes == n * SECTOR
    ensures AllSectors(subs + [s]) == AllSectors(subs) + Sectors(s, n)
  {
    assert (subs + [s])[..|subs|] == subs;
    assert s.bytes / SECTOR == n;
  }

  lemma TranslatableGrows(maps: Maps, minor: nat, start: nat, d: nat, n: nat)
    requires Translatable(maps, minor, start, d) && Translatable(maps, minor, start + d, n)
    ensures Translatable(maps, minor, start, d + n)
  {}

  /** What has been recorded after d sectors of the segment: exactly what
      translating those sectors one by one gives, in order. */
  ghost predicate Sent(maps: Maps, minor: nat, bvec: Bvec, start: nat, before: seq<Submission>, subs: seq<Submission>,
      d: nat)
  {
    && before <= subs
    && AllSectors(subs) == AllSectors(before) + PerSector(maps, minor, start, bvec.page, bvec.offset, d)
    && Translatable(maps, minor, start, d)
  }

  // ---- the chunk loop as a function ----

  type Faults = f: map<nat, BlkStatus> | forall n :: n in f ==> f[n] != STS_OK witness map[]

  datatype Round = Stop(status: BlkStatus) | Send(chunk: Submission)

  /** One round up to the submission: translate, then cut at the range's end and
      at 32 bits. */
  function NextRound(maps: Maps, minor: nat, bvec: Bvec, sector: nat, done: nat): (r: Round)
    requires done < bvec.len
    ensures r.Send? ==> 0 < r.chunk.bytes <= bvec.len - done
    ensures r.Stop? ==> r.status != STS_OK
  {
    match Translate(maps, minor, sector)
    case Miss(err) => Stop(ErrnoStatus(err))
    case Hit(e, phys) =>
      if sector >= RangeEnd(e) then Stop(STS_IOERR)
      else
        var bytes := ChunkBytes(RangeEnd(e) - sector, bvec.len - done);
        if bytes == 0 then Stop(STS_IOERR)
        else Send(Submission(e.dev, e.nsid, phys, bvec.page, bytes, bvec.offset + done))
  }

  /** Where the loop ends: with which status, at which sector, with what recorded. */
  datatype LoopEnd = LoopEnd(status: BlkStatus, sector: nat, subs: seq<Submission>)

  /** The rounds of a segment, by sector and bytes done. */
  type Rounds = (nat, nat) -> Round

  ghost predicate RoundsFit(next: Rounds, len: nat) {
    forall sector: nat, done: nat :: done < len ==>
      if next(sector, done).Send? then 0 < next(sector, done).chunk.bytes <= len - done
        else next(sector, done).status != STS_OK
  }

  function RoundsOf(maps: Maps, minor: nat, bvec: Bvec): (next: Rounds)
    ensures RoundsFit(next, bvec.len)
  {
    (sector: nat, done: nat) => if done < bvec.len then NextRound(maps, minor, bvec, sector, done) else Stop(STS_IOERR)
  }

  /** The loop from done on. faults gives the status of the physical submission with
      that number; all others succeed. Submitted chunks are recorded in order. */
  function ChunkLoop(next: Rounds, len: nat, sector: nat, done: nat, faults: Faults, subs: seq<Submission>): LoopEnd
    requires done <= len && RoundsFit(next, len)
    decreases len - done
  {
    if done == len then LoopEnd(STS_OK, sector, subs)
    else
      match next(sector, done)
      case Stop(status) => LoopEnd(status, sector, subs)
      case Send(s) =>
        if |subs| in faults then LoopEnd(faults[|subs|], sector, subs)
        else ChunkLoop(next, len, sector + s.bytes / SECTOR, done + s.bytes, faults, subs + [s])
  }

  /** The loop goes from here to end. */
  ghost predicate LeadsTo(next: Rounds, len: nat, sector: nat, done: nat, faults: Faults, subs: seq<Submission>,
      end: LoopEnd)
  {
    done <= len && RoundsFit(next, len) && ChunkLoop(next, len, sector, done, faults, subs) == end
  }

  /** One turn of the loop. */
  lemma LoopTurns(next: Rounds, len: nat, sector: nat, done: nat, faults: Faults, subs: seq<Submission>, end: LoopEnd,
      round: Round)
    requires LeadsTo(next, len, sector, done, faults, subs, end) && done < len && round == next(sector, done)
    ensures round.Stop? ==> end == LoopEnd(round.status, sector, subs)
    ensures round.Send? && |subs| in faults ==> end == LoopEnd(faults[|subs|], sector, subs)
    ensures round.Send? && |subs| !in faults ==>
      LeadsTo(next, len, sector + round.chunk.bytes / SECTOR, done + round.chunk.bytes, faults, subs + [round.chunk],
        end)
  {}

  function Submit(maps: Maps, minor: nat, bvec: Bvec, start: nat, faults: Faults, before: seq<Submission>): LoopEnd {
    if bvec.len % SECTOR != 0 then LoopEnd(STS_IOERR, start, before)
    else ChunkLoop(RoundsOf(maps, minor, bvec), bvec.len, start, 0, faults, before)
  }

  /** On whole sectors a round that translates to a range not yet ended sends a
      non-empty run of whole sectors of that range. */
  lemma RoundSends(maps: Maps, minor: nat, bvec: Bvec, sector: nat, done: nat, wanted: nat)
    requires wanted > 0 && bvec.len - done == wanted * SECTOR && bvec.len <= U32_MAX
    ensures var t, r := Translate(maps, minor, sector), NextRound(maps, minor, bvec, sector, done);
      && r.Send? == (t.Hit? && sector < RangeEnd(t.entry))
      && (r.Send? ==> var n := r.chunk.bytes / SECTOR;
            && 0 < n <= wanted && StartsAt(maps, minor, sector, r.chunk, n)
            && n == ChunkSectors(RangeEnd(t.entry) - sector, wanted)
            && r.chunk.page == bvec.page && r.chunk.offset == bvec.offset + done)
  {
    var t := Translate(maps, minor, sector);
    if t.Hit? && sector < RangeEnd(t.entry) {
      ChunkFits(RangeEnd(t.entry) - sector, wanted, bvec.len - done);
    }
  }

  /** What is said of the loop's sector, bytes done and record. */
  type Claim = (nat, nat, seq<Submission>) -> bool

  /** Every round that sends keeps p of the sector, the bytes done and the record. */
  ghost predicate RoundsKeep(next: Rounds, len: nat, p: Claim) {
    forall sector: nat, done: nat, subs: seq<Submission> :: RoundKeeps(next, len, p, sector, done, subs)
  }

  predicate RoundKeeps(next: Rounds, len: nat, p: Claim, sector: nat, done: nat, subs: seq<Submission>) {
    p(sector, done, subs) && done < len && next(sector, done).Send? ==>
      var s := next(sector, done).chunk;
      p(sector + s.bytes / SECTOR, done + s.bytes, subs + [s])
  }

  /** So the loop keeps it, and stops with all done or for one of two reasons. */
  lemma {:induction false} LoopKeeps(next: Rounds, len: nat, sector: nat, done: nat, faults: Faults,
      subs: seq<Submission>,
      p: Claim) returns (d: nat)
    requires RoundsFit(next, len) && done <= len && p(sector, done, subs) && RoundsKeep(next, len, p)
    ensures var r := ChunkLoop(next, len, sector, done, faults, subs);
      && d <= len && p(r.sector, d, r.subs)
      && (d == len ==> r.status == STS_OK)
      && (d < len ==>
            if |r.subs| in faults && next(r.sector, d).Send? then r.status == faults[|r.subs|]
            else next(r.sector, d) == Stop(r.status))
    decreases len - done
  {
    d := done;
    if done < len && next(sector, done).Send? && |subs| !in faults {
      var s := next(sector, done).chunk;
      assert RoundKeeps(next, len, p, sector, done, subs);
      d := LoopKeeps(next, len, sector + s.bytes / SECTOR, done + s.bytes, faults, subs + [s], p);
    }
  }

  /** Sectors and bytes go together. */
  predicate InStep(start: nat, sector: nat, done: nat) { sector >= start && done == (sector - start) * SECTOR }

  function StaysInStep(start: nat, len: nat): Claim {
    (sector: nat, done: nat, subs: seq<Submission>) => InStep(start, sector, done) && done <= len
  }

  lemma RoundsStayInStep(maps: Maps, minor: nat, bvec: Bvec, start: nat, total: nat)
    requires bvec.len == total * SECTOR <= U32_MAX
    ensures RoundsKeep(RoundsOf(maps, minor, bvec), bvec.len, StaysInStep(start, bvec.len))
  {
    var next, p := RoundsOf(maps, minor, bvec), StaysInStep(start, bvec.len);
    forall sector: nat, done: nat, subs: seq<Submission> ensures RoundKeeps(next, bvec.len, p, sector, done, subs) {
      if p(sector, done, subs) && done < bvec.len {
        LeftOver(start, sector, done, total);
        RoundSends(maps, minor, bvec, sector, done, start + total - sector);
      }
    }
  }

  lemma LeftOver(start: nat, sector: nat, done: nat, total: nat)
    requires InStep(start, sector, done) && done < total * SECTOR
    ensures sector < start + total && total * SECTOR - done == (start + total - sector) * SECTOR
  {}

  /** The loop passes whole sectors, success means all of them, and without device
      errors it stops where translation misses or a range has wrapped. */
  lemma LoopBounds(maps: Maps, minor: nat, bvec: Bvec, start: nat, total: nat, faults: Faults, before: seq<Submission>)
    requires bvec.len == total * SECTOR <= U32_MAX
    ensures var r := Submit(maps, minor, bvec, start, faults, before);
      InBounds(r, start, total) && (r.status != STS_OK && faults == map[] ==> StoppedAt(maps, minor, r.sector))
  {
    var next := RoundsOf(maps, minor, bvec);
    RoundsStayInStep(maps, minor, bvec, start, total);
    var r := LoopStaysInStep(next, bvec.len, start, total, faults, before);
    WholeLength(total);
    if r.status != STS_OK && faults == map[] {
      StopReason(maps, minor, bvec, start, total, r.sector);
    }
  }

  lemma SegmentBounds(maps: Maps, minor: nat, bvec: Bvec, start: nat, faults: Faults, before: seq<Submission>)
    requires bvec.len <= U32_MAX
    ensures var r := Submit(maps, minor, bvec, start, faults, before);
      && r.sector >= start && (r.sector - start) * SECTOR <= bvec.len
      && (r.status == STS_OK ==> bvec.len == (r.sector - start) * SECTOR)
      && (r.status != STS_OK && faults == map[] && bvec.len % SECTOR == 0 ==>
            r.sector < start + bvec.len / SECTOR && StoppedAt(maps, minor, r.sector))
  {
    if bvec.len % SECTOR == 0 {
      LoopBounds(maps, minor, bvec, start, bvec.len / SECTOR, faults, before);
    }
  }

  lemma WholeLength(n: nat)
    ensures n * SECTOR % SECTOR == 0 && n * SECTOR / SECTOR == n
  {}

  predicate InBounds(r: LoopEnd, start: nat, total: nat) {
    start <= r.sector <= start + total && (r.status == STS_OK <==> r.sector == start + total)
  }

  predicate StopsThere(next: Rounds, start: nat, sector: nat) {
    sector >= start && next(sector, (sector - start) * SECTOR).Stop?
  }

  lemma LoopStaysInStep(next: Rounds, len: nat, start: nat, total: nat, faults: Faults, before: seq<Submission>)
    returns (r: LoopEnd)
    requires len == total * SECTOR && RoundsFit(next, len) && RoundsKeep(next, len, StaysInStep(start, len))
    ensures r == ChunkLoop(next, len, start, 0, faults, before) && InBounds(r, start, total)
    ensures r.status != STS_OK && faults == map[] ==> StopsThere(next, start, r.sector)
  {
    r := ChunkLoop(next, len, start, 0, faults, before);
    var d := LoopKeeps(next, len, start, 0, faults, before, StaysInStep(start, len));
    assert InStep(start, r.sector, d);
  }

  predicate StoppedAt(maps: Maps, minor: nat, sector: nat) {
    var t := Translate(maps, minor, sector);
    t.Miss? || sector >= RangeEnd(t.entry)
  }

  lemma StopReason(maps: Maps, minor: nat, bvec: Bvec, start: nat, total: nat, sector: nat)
    requires sector < start + total && bvec.len == total * SECTOR <= U32_MAX
    requires StopsThere(RoundsOf(maps, minor, bvec), start, sector)
    ensures StoppedAt(maps, minor, sector)
  {
    var done := (sector - start) * SECTOR;
    LeftOver(start, sector, done, total);
    RoundSends(maps, minor, bvec, sector, done, start + total - sector);
  }

  ghost function StaysSent(maps: Maps, minor: nat, bvec: Bvec, start: nat, before: seq<Submission>): Claim {
    (sector: nat, done: nat, subs: seq<Submission>) =>
      InStep(start, sector, done) && done <= bvec.len && Sent(maps, minor, bvec, start, before, subs, sector - start)
  }

  lemma RoundsStaySent(maps: Maps, minor: nat, bvec: Bvec, start: nat, total: nat, before: seq<Submission>)
    requires RangesHold(maps, minor) && bvec.len == total * SECTOR <= U32_MAX
    ensures RoundsKeep(RoundsOf(maps, minor, bvec), bvec.len, StaysSent(maps, minor, bvec, start, before))
  {
    var next, p := RoundsOf(maps, minor, bvec), StaysSent(maps, minor, bvec, start, before);
    forall sector: nat, done: nat, subs: seq<Submission> ensures RoundKeeps(next, bvec.len, p, sector, done, subs) {
      if p(sector, done, subs) && done < bvec.len && next(sector, done).Send? {
        RoundStaysSent(maps, minor, bvec, start, total, sector, done, before, subs, next(sector, done).chunk);
      }
    }
  }

  lemma RoundStaysSent(maps: Maps, minor: nat, bvec: Bvec, start: nat, total: nat, sector: nat, done: nat,
      before: seq<Submission>, subs: seq<Submission>, s: Submission)
    requires RangesHold(maps, minor) && bvec.len == total * SECTOR <= U32_MAX && InStep(start, sector, done)
    requires done < bvec.len && NextRound(maps, minor, bvec, sector, done) == Send(s)
    requires Sent(maps, minor, bvec, start, before, subs, sector - start)
    ensures StaysSent(maps, minor, bvec, start, before)(sector + s.bytes / SECTOR, done + s.bytes, subs + [s])
  {
    LeftOver(start, sector, done, total);
    RoundSends(maps, minor, bvec, sector, done, start + total - sector);
    RoundKeepsSent(maps, minor, bvec, start, sector - start, s.bytes / SECTOR, before, subs, s);
  }

  /** What one more chunk does to the record. */
  lemma RoundKeepsSent(maps: Maps, minor: nat, bvec: Bvec, start: nat, d: nat, n: nat,
      before: seq<Submission>, subs: seq<Submission>, s: Submission)
    requires RangesHold(maps, minor) && StartsAt(maps, minor, start + d, s, n)
    requires s.page == bvec.page && s.offset == bvec.offset + d * SECTOR && (d + n) * SECTOR <= bvec.len
    requires Sent(maps, minor, bvec, start, before, subs, d)
    ensures StaysSent(maps, minor, bvec, start, before)(start + d + n, (d + n) * SECTOR, subs + [s])
  {
    ChunkStep(maps, minor, start, d, bvec, n, before, subs, s);
    assert start + d + n - start == d + n;
  }

  /** If all ranges hold, the record is the per-sector translation at every exit. */
  lemma LoopSends(maps: Maps, minor: nat, bvec: Bvec, start: nat, total: nat, faults: Faults, before: seq<Submission>)
    requires RangesHold(maps, minor) && bvec.len == total * SECTOR <= U32_MAX
    requires Sent(maps, minor, bvec, start, before, before, 0)
    ensures SentAt(maps, minor, bvec, start, before, Submit(maps, minor, bvec, start, faults, before))
  {
    RoundsStaySent(maps, minor, bvec, start, total, before);
    var p := StaysSent(maps, minor, bvec, start, before);
    assert p(start, 0, before);
    var d := LoopKeeps(RoundsOf(maps, minor, bvec), bvec.len, start, 0, faults, before, p);
  }

  ghost predicate SentAt(maps: Maps, minor: nat, bvec: Bvec, start: nat, before: seq<Submission>, r: LoopEnd) {
    r.sector >= start && Sent(maps, minor, bvec, start, before, r.subs, r.sector - start)
  }

  // ---- exactly when chunks agree with translation ----

  /** Whatever a segment asks for, the record equals per-sector translation of the
      sectors that were passed. */
  ghost predicate ChunksAgree(maps: Maps, minor: nat) {
    forall bvec: Bvec, start: nat, faults: Faults, before: seq<Submission> :: bvec.len <= U32_MAX ==>
      SegmentAgrees(maps, minor, bvec, start, faults, before)
  }

  ghost predicate SegmentAgrees(maps: Maps, minor: nat, bvec: Bvec, start: nat, faults: Faults,
      before: seq<Submission>)
  {
    SentAt(maps, minor, bvec, start, before, Submit(maps, minor, bvec, start, faults, before))
  }

  /** Without device errors only a length that is not whole sectors or a missing
      translation stops a segment. */
  ghost predicate StopsAtMiss(maps: Maps, minor: nat) {
    forall bvec: Bvec, start: nat, before: seq<Submission> :: bvec.len <= U32_MAX ==>
      SegmentStops(maps, minor, bvec, start, before)
  }

  predicate SegmentStops(maps: Maps, minor: nat, bvec: Bvec, start: nat, before: seq<Submission>) {
    var r := Submit(maps, minor, bvec, start, map[], before);
    r.status != STS_OK && bvec.len % SECTOR == 0 ==> Translate(maps, minor, r.sector).Miss?
  }

  lemma SegmentSends(maps: Maps, minor: nat, bvec: Bvec, start: nat, faults: Faults, before: seq<Submission>)
    requires RangesHold(maps, minor) && bvec.len <= U32_MAX
    ensures SegmentAgrees(maps, minor, bvec, start, faults, before)
  {
    assert AllSectors(before) + [] == AllSectors(before);
    if bvec.len % SECTOR == 0 {
      LoopSends(maps, minor, bvec, start, bvec.len / SECTOR, faults, before);
    }
  }

  /** The segment from s0 up to s is one chunk. */
  lemma OneChunk(maps: Maps, minor: nat, s0: nat, s: nat)
    requires SameChunk(maps, minor, s0, s)
    ensures var n, t := s - s0 + 1, Translate(maps, minor, s0);
      && n * SECTOR <= U32_MAX
      && Submit(maps, minor, Bvec(0, n * SECTOR, 0), s0, map[], [])
         == LoopEnd(STS_OK, s + 1, [Submission(t.entry.dev, t.entry.nsid, t.phys, 0, n * SECTOR, 0)])
  {
    var n := s - s0 + 1;
    var bvec := Bvec(0, n * SECTOR, 0);
    RoundSends(maps, minor, bvec, s0, 0, n);
    var chunk := NextRound(maps, minor, bvec, s0, 0).chunk;
    OneRound(RoundsOf(maps, minor, bvec), bvec.len, s0, chunk);
  }

  lemma OneRound(next: Rounds, len: nat, sector: nat, chunk: Submission)
    requires RoundsFit(next, len) && len > 0 && next(sector, 0) == Send(chunk) && chunk.bytes == len
    ensures ChunkLoop(next, len, sector, 0, map[], []) == LoopEnd(STS_OK, sector + len / SECTOR, [chunk])
  {}

  lemma {:induction false} SectorsAt(s: Submission, n: nat)
    ensures |Sectors(s, n)| == n
    ensures n > 0 ==> Sectors(s, n)[n - 1] == Some(SectorIo(s.dev, s.nsid, s.phys + n - 1, s.page,
      s.offset + SECTOR * (n - 1)))
  {
    if n > 0 { SectorsAt(s, n - 1); }
  }

  lemma AgreementContinues(maps: Maps, minor: nat, s0: nat, s: nat)
    requires ChunksAgree(maps, minor) && SameChunk(maps, minor, s0, s)
    ensures Continues(maps, minor, s0, s)
  {
    var n, t := s - s0 + 1, Translate(maps, minor, s0);
    var chunk := Submission(t.entry.dev, t.entry.nsid, t.phys, 0, n * SECTOR, 0);
    OneChunk(maps, minor, s0, s);
    assert SegmentAgrees(maps, minor, Bvec(0, n * SECTOR, 0), s0, map[], []);
    OneChunkSent(maps, minor, s0, n, chunk);
    LastSector(maps, minor, s0, n, chunk);
  }

  lemma OneChunkSent(maps: Maps, minor: nat, s0: nat, n: nat, chunk: Submission)
    requires chunk.bytes == n * SECTOR && Sent(maps, minor, Bvec(0, n * SECTOR, 0), s0, [], [chunk], n)
    ensures Sectors(chunk, n) == PerSector(maps, minor, s0, 0, 0, n)
  {
    AllSectorsNext([], chunk, n);
    assert [] + [chunk] == [chunk] && AllSectors([]) + Sectors(chunk, n) == Sectors(chunk, n);
  }

  lemma LastSector(maps: Maps, minor: nat, s0: nat, n: nat, chunk: Submission)
    requires n > 0 && Sectors(chunk, n) == PerSector(maps, minor, s0, chunk.page, chunk.offset, n)
    ensures Target(maps, minor, s0 + n - 1, chunk.page, chunk.offset + SECTOR * (n - 1))
         == Some(SectorIo(chunk.dev, chunk.nsid, chunk.phys + n - 1, chunk.page, chunk.offset + SECTOR * (n - 1)))
  {
    SectorsAt(chunk, n);
    PerSectorAt(maps, minor, s0, chunk.page, chunk.offset, n);
  }

  /** Chunked I/O equals per-sector translation exactly when every range that the
      scan finds at some sector is continued, within one 32-bit chunk, by whatever
      the scan finds at its later sectors. */
  lemma ChunksAgreeIff(maps: Maps, minor: nat)
    ensures ChunksAgree(maps, minor) <==> RangesHold(maps, minor)
  {
    if RangesHold(maps, minor) {
      forall bvec: Bvec, start: nat, faults: Faults, before: seq<Submission> | bvec.len <= U32_MAX
        ensures SegmentAgrees(maps, minor, bvec, start, faults, before)
      {
        SegmentSends(maps, minor, bvec, start, faults, before);
      }
    }
    if ChunksAgree(maps, minor) {
      forall s0: nat, s: nat | SameChunk(maps, minor, s0, s) ensures Continues(maps, minor, s0, s) {
        AgreementContinues(maps, minor, s0, s);
      }
    }
  }

  /** And it stops for no reason but a missing translation exactly when no range
      that the scan finds wraps. */
  lemma StopsAtMissIff(maps: Maps, minor: nat)
    ensures StopsAtMiss(maps, minor) <==> EndsHold(maps, minor)
  {
    if EndsHold(maps, minor) {
      forall bvec: Bvec, start: nat, before: seq<Submission> | bvec.len <= U32_MAX
        ensures SegmentStops(maps, minor, bvec, start, before)
      {
        if bvec.len % SECTOR == 0 {
          LoopBounds(maps, minor, bvec, start, bvec.len / SECTOR, map[], before);
        }
      }
    }
    if StopsAtMiss(maps, minor) {
      forall s: nat | Translate(maps, minor, s).Hit? ensures s < RangeEnd(Translate(maps, minor, s).entry) {
        assert SegmentStops(maps, minor, Bvec(0, SECTOR, 0), s, []);
        RoundSends(maps, minor, Bvec(0, SECTOR, 0), s, 0, 1);
      }
    }
  }

  const RangeA: MapEntry := MapEntry(0, 0, 2, "a", 1, 0)
  const RangeB: MapEntry := MapEntry(0, 1, 1, "b", 1, 0)

  /** Device 0 is created in an empty kernel, then B and A are added. */
  function Overlapped(k0: Kernel): (Kernel, Errno)
    requires Shaped(k0)
  {
    var (k1, e1) := CreateDev(k0, LogdevReq(0, 2, SECTOR, "d"), EOK);
    var (k2, e2) := AddMap(k1, RangeB);
    var (k3, e3) := AddMap(k2, RangeA);
    (k3, if e1 != EOK then e1 else if e2 != EOK then e2 else e3)
  }

  /** map_add accepts overlapping ranges with different starts: after these three
      ioctls on empty tables the loop sends sectors 0 and 1 as one chunk to device
      a, although sector 1 alone translates to device b. */
  lemma OverlapBreaksChunks(k0: Kernel)
    requires KernelInv(k0)
    requires (forall i :: 0 <= i < |k0.devs| ==> k0.devs[i].None?)
    requires (forall i :: 0 <= i < |k0.maps| ==> k0.maps[i].None?)
    ensures var (k, err) := Overlapped(k0);
      && err == EOK && KernelInv(k)
      && Submit(k.maps, 0, Bvec(0, 2 * SECTOR, 0), 0, map[], [])
         == LoopEnd(STS_OK, 2, [Submission("a", 1, 0, 0, 2 * SECTOR, 0)])
      && Translate(k.maps, 0, 1) == Hit(RangeB, 0)
      && !RangesHold(k.maps, 0) && !ChunksAgree(k.maps, 0)
  {
    OverlapIsAccepted(k0);
    OverlapMisleads(Overlapped(k0).0.maps);
  }

  lemma OverlapIsAccepted(k0: Kernel)
    requires KernelInv(k0)
    requires (forall i :: 0 <= i < |k0.devs| ==> k0.devs[i].None?)
    requires (forall i :: 0 <= i < |k0.maps| ==> k0.maps[i].None?)
    ensures var (k, err) := Overlapped(k0);
      err == EOK && KernelInv(k) && |k.maps| == MAX_MAPS && k.maps[0] == Some(RangeB) && k.maps[1] == Some(RangeA)
  {
    var req := LogdevReq(0, 2, SECTOR, "d");
    SectorIsPowerOf2();
    var k1 := CreateDev(k0, req, EOK).0;
    assert FirstFree(k1.maps) == 0 && KeySlot(k1.maps, 0, 1) == |k1.maps|;
    var k2 := AddMap(k1, RangeB).0;
    assert k2.maps == k1.maps[0 := Some(RangeB)];
    SecondAdd(k2, RangeA, RangeB);
    CreateKeepsInv(k0, req, EOK);
    AddKeepsInv(k1, RangeB);
    AddKeepsInv(k2, RangeA);
  }

  lemma OverlapMisleads(maps: Maps)
    requires |maps| >= 2 && maps[0] == Some(RangeB) && maps[1] == Some(RangeA)
    ensures Submit(maps, 0, Bvec(0, 2 * SECTOR, 0), 0, map[], [])
         == LoopEnd(STS_OK, 2, [Submission("a", 1, 0, 0, 2 * SECTOR, 0)])
    ensures Translate(maps, 0, 1) == Hit(RangeB, 0) && !RangesHold(maps, 0) && !ChunksAgree(maps, 0)
  {
    QueryIs(maps, 0, 1, 0);
    QueryIs(maps, 0, 0, 1);
    assert SameChunk(maps, 0, 0, 1);
    OneChunk(maps, 0, 0, 1);
    ChunksAgreeIff(maps, 0);
  }

  const Wrapped: MapEntry := MapEntry(0, 5, TWO64 - 3, "a", 1, 0)

  /** A device of eight sectors in an empty kernel, with one range added. */
  function WithWrapped(k0: Kernel): (Kernel, Errno)
    requires Shaped(k0)
  {
    var (k1, e1) := CreateDev(k0, LogdevReq(0, 8, SECTOR, "d"), EOK);
    var (k2, e2) := AddMap(k1, Wrapped);
    (k2, if e1 != EOK then e1 else e2)
  }

  /** map_add also accepts a range whose end wraps past 64 bits: after these two
      ioctls on empty tables sector 5 translates, but the loop refuses to send it. */
  lemma WrapStopsChunks(k0: Kernel)
    requires KernelInv(k0)
    requires (forall i :: 0 <= i < |k0.devs| ==> k0.devs[i].None?)
    requires (forall i :: 0 <= i < |k0.maps| ==> k0.maps[i].None?)
    ensures var (k, err) := WithWrapped(k0);
      && err == EOK && KernelInv(k)
      && Translate(k.maps, 0, 5) == Hit(Wrapped, 0)
      && Submit(k.maps, 0, Bvec(0, SECTOR, 0), 5, map[], []) == LoopEnd(STS_IOERR, 5, [])
      && !EndsHold(k.maps, 0) && !StopsAtMiss(k.maps, 0)
  {
    var req := LogdevReq(0, 8, SECTOR, "d");
    SectorIsPowerOf2();
    var k1 := CreateDev(k0, req, EOK).0;
    assert FirstFree(k1.maps) == 0 && KeySlot(k1.maps, 0, 5) == |k1.maps|;
    var maps := AddMap(k1, Wrapped).0.maps;
    CreateKeepsInv(k0, req, EOK);
    AddKeepsInv(k1, Wrapped);
    QueryIs(maps, 0, 5, 0);
    assert NextRound(maps, 0, Bvec(0, SECTOR, 0), 5, 0) == Stop(STS_IOERR);
    StopsAtMissIff(maps, 0);
  }

  lemma SecondAdd(k: Kernel, a: MapEntry, b: MapEntry)
    requires Shaped(k) && Live(k, 0) && k.maps[0] == Some(b) && forall i :: 1 <= i < |k.maps| ==> k.maps[i].None?
    requires a.minor == b.minor == 0 && a.sector != b.sector && a.length > 0 && a.dev != []
    ensures AddMap(k, a) == (k.(maps := k.maps[1 := Some(a)]), EOK)
  {
    assert k.maps[1].None?;
    assert forall j :: 0 <= j < |k.maps| ==> !Keyed(k.maps[j], 0, a.sector);
  }

  lemma QueryIs(maps: Maps, minor: nat, sector: nat, i: nat)
    requires i < |maps| && Matches(maps[i], minor, sector) && forall j :: 0 <= j < i ==>
      !Matches(maps[j], minor, sector)
    ensures QuerySlot(maps, minor, sector) == i
  {}

  // ---- the loop in its own form ----

  /** next gives each round of this segment over this table. */
  ghost predicate Follows(next: Rounds, maps: Maps, minor: nat, bvec: Bvec) {
    forall sector: nat, done: nat {:trigger NextRound(maps, minor, bvec, sector, done)} :: done < bvec.len ==>
      next(sector, done) == NextRound(maps, minor, bvec, sector, done)
  }

  /** One round of the loop up to the submission. */
  method NextChunk(shim: ReqShim, minor: nat, bvec: Bvec, sector: nat, done: nat, ghost next: Rounds) returns (r: Round)
    requires shim.Valid() && done < bvec.len && Follows(next, shim.maps[..], minor, bvec)
    ensures r == next(sector, done)
  {
    assert next(sector, done) == NextRound(shim.maps[..], minor, bvec, sector, done);
    var t := shim.TranslateSector(minor, sector);
    if t.Miss? {
      return Stop(ErrnoStatus(t.errno));
    }
    var e := t.entry;
    var entryEnd := (e.sector + e.length) % TWO64;
    if sector >= entryEnd {
      return Stop(STS_IOERR);
    }
    var chunk := ChunkBytes(entryEnd - sector, bvec.len - done);
    if chunk == 0 {
      return Stop(STS_IOERR);
    }
    return Send(Submission(e.dev, e.nsid, t.phys, bvec.page, chunk, bvec.offset + done));
  }

  /** The chunk loop, for any table: what it returns and records. What that means is
      in terms of the conditions above. */
  method SubmitBvec(shim: ReqShim, minor: nat, bvec: Bvec, start: nat, faults: Faults, before: seq<Submission>)
    returns (status: BlkStatus, sector: nat, subs: seq<Submission>)
    requires shim.Valid() && bvec.len <= U32_MAX
    ensures LoopEnd(status, sector, subs) == Submit(shim.maps[..], minor, bvec, start, faults, before)
    ensures sector >= start && (sector - start) * SECTOR <= bvec.len
    ensures status == STS_OK ==> bvec.len == (sector - start) * SECTOR
    ensures RangesHold(shim.maps[..], minor) ==>
      SentAt(shim.maps[..], minor, bvec, start, before, LoopEnd(status, sector, subs))
    // nothing but alignment, a missing mapping or a device error stops the loop
    ensures EndsHold(shim.maps[..], minor) && status != STS_OK && faults == map[] ==>
      bvec.len % SECTOR != 0 || (sector < start + bvec.len / SECTOR && Translate(shim.maps[..], minor, sector).Miss?)
  {
    ghost var maps := shim.maps[..];
    ghost var end := Submit(maps, minor, bvec, start, faults, before);
    if RangesHold(maps, minor) {
      SegmentSends(maps, minor, bvec, start, faults, before);
    }
    SegmentBounds(maps, minor, bvec, start, faults, before);
    if bvec.len % SECTOR != 0 {
      return STS_IOERR, start, before;
    }
    status, sector, subs := SubmitSectors(shim, minor, bvec, start, faults, before, RoundsOf(maps, minor, bvec), end);
  }

  /** The loop proper. */
  method SubmitSectors(shim: ReqShim, minor: nat, bvec: Bvec, start: nat, faults: Faults, before: seq<Submission>,
      ghost next: Rounds, ghost end: LoopEnd)
    returns (status: BlkStatus, sector: nat, subs: seq<Submission>)
    requires shim.Valid() && Follows(next, shim.maps[..], minor, bvec)
    requires LeadsTo(next, bvec.len, start, 0, faults, before, end)
    ensures LoopEnd(status, sector, subs) == end
  {
    sector, subs := start, before;
    var done := 0;
    while done < bvec.len
      invariant done <= bvec.len
      invariant LeadsTo(next, bvec.len, sector, done, faults, subs, end)
      decreases bvec.len - done
    {
      var round := NextChunk(shim, minor, bvec, sector, done, next);
      LoopTurns(next, bvec.len, sector, done, faults, subs, end, round);
      if round.Stop? {
        return round.status, sector, subs;
      }
      if |subs| in faults {
        return faults[|subs|], sector, subs;
      }
      subs := subs + [round.chunk];
      done := done + round.chunk.bytes;
      sector := sector + round.chunk.bytes / SECTOR;
    }
    return STS_OK, sector, subs;
  }

  predicate WholeSectors(bvecs: seq<Bvec>) {
    forall i :: 0 <= i < |bvecs| ==> bvecs[i].len % SECTOR == 0
  }

  function TotalSectors(bvecs: seq<Bvec>): nat {
    if bvecs == [] then 0 else TotalSectors(bvecs[..|bvecs| - 1]) + bvecs[|bvecs| - 1].len / SECTOR
  }

  /** A whole request translated sector by sector. */
  function RequestTargets(maps: Maps, minor: nat, start: nat, bvecs: seq<Bvec>): seq<Option<SectorIo>> {
    if bvecs == [] then []
    else
      var front := bvecs[..|bvecs| - 1];
      var b := bvecs[|bvecs| - 1];
      RequestTargets(maps, minor, start, front)
        + PerSector(maps, minor, start + TotalSectors(front), b.page, b.offset, b.len / SECTOR)
  }

  /** The record equals the translation of all the segments, in order. */
  ghost predicate SentAll(maps: Maps, minor: nat, start: nat, bvecs: seq<Bvec>, subs: seq<Submission>) {
    && AllSectors(subs) == RequestTargets(maps, minor, start, bvecs)
    && WholeSectors(bvecs)
    && Translatable(maps, minor, start, TotalSectors(bvecs))
  }

  lemma SegmentSent(maps: Maps, minor: nat, start: nat, front: seq<Bvec>, b: Bvec, before: seq<Submission>,
      subs: seq<Submission>)
    requires SentAll(maps, minor, start, front, before)
    requires b.len % SECTOR == 0
    requires Sent(maps, minor, b, start + TotalSectors(front), before, subs, b.len / SECTOR)
    ensures SentAll(maps, minor, start, front + [b], subs)
    ensures TotalSectors(front + [b]) == TotalSectors(front) + b.len / SECTOR
  {
    assert (front + [b])[..|front|] == front;
  }

  /** Everything a request needs to succeed, but for device errors. */
  predicate Serviceable(maps: Maps, minor: nat, start: nat, bvecs: seq<Bvec>) {
    WholeSectors(bvecs) && Translatable(maps, minor, start, TotalSectors(bvecs))
  }

  lemma ServiceableSegment(maps: Maps, minor: nat, start: nat, bvecs: seq<Bvec>, i: nat)
    requires i < |bvecs| && Serviceable(maps, minor, start, bvecs)
    ensures bvecs[i].len % SECTOR == 0
    ensures Translatable(maps, minor, start + TotalSectors(bvecs[..i]), bvecs[i].len / SECTOR)
  {
    TotalGrows(bvecs, i + 1);
    assert bvecs[..i + 1][..i] == bvecs[..i];
  }

  /** The exact conditions for chunked I/O to be faithful, together. */
  ghost predicate ChunkSafe(maps: Maps, minor: nat) { RangesHold(maps, minor) && EndsHold(maps, minor) }

  datatype RequestOp = READ | WRITE | FLUSH | DISCARD | OTHER

  predicate ReadsOrWrites(op: RequestOp) { op == READ || op == WRITE }

  /** The work function: a request on a live device is the concatenation of its
      segments, each starting where the one before ended. */
  method RunRequest(shim: ReqShim, minor: nat, op: RequestOp, start: nat, bvecs: seq<Bvec>, faults: Faults)
    returns (status: BlkStatus, subs: seq<Submission>)
    requires shim.Valid()
    requires forall i :: 0 <= i < |bvecs| ==> bvecs[i].len <= U32_MAX
    ensures status == STS_OK ==> WholeSectors(bvecs)
    ensures ChunkSafe(shim.maps[..], minor) && status == STS_OK ==> SentAll(shim.maps[..], minor, start, bvecs, subs)
    ensures ChunkSafe(shim.maps[..], minor) && faults == map[] && Live(shim.State(), minor) && ReadsOrWrites(op) ==>
      (status == STS_OK <==> Serviceable(shim.maps[..], minor, start, bvecs))
    ensures !(Live(shim.State(), minor) && ReadsOrWrites(op)) ==> status != STS_OK && subs == []
  {
    subs := [];
    var live := shim.LogdevExists(minor);
    if !live {
      return STS_IOERR, subs;
    }
    if op != READ && op != WRITE {
      return STS_NOTSUPP, subs;
    }
    status, subs := RunSegments(shim, minor, start, bvecs, faults);
  }

  /** The segment loop. */
  method RunSegments(shim: ReqShim, minor: nat, start: nat, bvecs: seq<Bvec>, faults: Faults)
    returns (status: BlkStatus, subs: seq<Submission>)
    requires shim.Valid()
    requires forall i :: 0 <= i < |bvecs| ==> bvecs[i].len <= U32_MAX
    ensures status == STS_OK ==> WholeSectors(bvecs)
    ensures ChunkSafe(shim.maps[..], minor) && status == STS_OK ==> SentAll(shim.maps[..], minor, start, bvecs, subs)
    ensures ChunkSafe(shim.maps[..], minor) && faults == map[] && Serviceable(shim.maps[..], minor, start, bvecs) ==>
      status == STS_OK
  {
    subs := [];
    var sector := start;
    for i := 0 to |bvecs|
      invariant SegmentsDone(shim.maps[..], minor, start, bvecs, i, sector, subs)
    {
      status, sector, subs := RunSegment(shim, minor, start, bvecs, i, sector, faults, subs);
      if status != STS_OK {
        return status, subs;
      }
    }
    TakeAll(bvecs);
    return STS_OK, subs;
  }

  /** The loop has passed the first i segments. */
  ghost predicate SegmentsDone(maps: Maps, minor: nat, start: nat, bvecs: seq<Bvec>, i: nat, sector: nat,
      subs: seq<Submission>)
    requires i <= |bvecs|
  {
    && WholeSectors(bvecs[..i])
    && sector == start + TotalSectors(bvecs[..i])
    && (ChunkSafe(maps, minor) ==> SentAll(maps, minor, start, bvecs[..i], subs))
  }

  method RunSegment(shim: ReqShim, minor: nat, ghost start: nat, bvecs: seq<Bvec>, i: nat, sector: nat,
      faults: Faults, subs: seq<Submission>)
    returns (status: BlkStatus, sector2: nat, subs2: seq<Submission>)
    requires shim.Valid() && i < |bvecs| && bvecs[i].len <= U32_MAX
    requires SegmentsDone(shim.maps[..], minor, start, bvecs, i, sector, subs)
    ensures status == STS_OK ==> SegmentsDone(shim.maps[..], minor, start, bvecs, i + 1, sector2, subs2)
    ensures ChunkSafe(shim.maps[..], minor) && faults == map[] && Serviceable(shim.maps[..], minor, start, bvecs) ==>
      status == STS_OK
  {
    ghost var maps := shim.maps[..];
    status, sector2, subs2 := SubmitBvec(shim, minor, bvecs[i], sector, faults, subs);
    if Serviceable(maps, minor, start, bvecs) {
      ServiceableSegment(maps, minor, start, bvecs, i);
    }
    if status == STS_OK {
      WholeLength(sector2 - sector);
      SegmentPassed(maps, minor, start, bvecs, i, sector, subs, subs2);
    }
  }

  lemma SegmentPassed(maps: Maps, minor: nat, start: nat, bvecs: seq<Bvec>, i: nat, sector: nat,
      before: seq<Submission>,
      subs: seq<Submission>)
    requires i < |bvecs| && SegmentsDone(maps, minor, start, bvecs, i, sector, before) && bvecs[i].len % SECTOR == 0
    requires ChunkSafe(maps, minor) ==> Sent(maps, minor, bvecs[i], sector, before, subs, bvecs[i].len / SECTOR)
    ensures SegmentsDone(maps, minor, start, bvecs, i + 1, sector + bvecs[i].len / SECTOR, subs)
  {
    TakeNext(bvecs, i);
    TotalNext(bvecs, i);
    if ChunkSafe(maps, minor) {
      SegmentSent(maps, minor, start, bvecs[..i], bvecs[i], before, subs);
    }
  }

  lemma TotalNext(bvecs: seq<Bvec>, i: nat)
    requires i < |bvecs|
    ensures TotalSectors(bvecs[..i + 1]) == TotalSectors(bvecs[..i]) + bvecs[i].len / SECTOR
  {
    assert bvecs[..i + 1][..i] == bvecs[..i];
  }

  lemma {:induction false} TotalGrows(bvecs: seq<Bvec>, i: nat)
    requires i <= |bvecs|
    ensures TotalSectors(bvecs[..i]) <= TotalSectors(bvecs)
  {
    if i == |bvecs| {
      assert bvecs[..i] == bvecs;
    } else {
      assert bvecs[..|bvecs| - 1][..i] == bvecs[..i];
      TotalGrows(bvecs[..|bvecs| - 1], i);
    }
  }
}
