/** What a second request for a granted name is answered, told from the two requests
    alone; and the hosts that a grant reports. */
module Repeats {
  import opened Types
  import opened Tables
  import opened Decimal
  import opened MockState
  import opened Placement
  import opened ControllerState
  import opened Ledger
  import opened Rollback
  import opened Grants
  import opened Idempotence
  import opened Stripe
  import opened ReqShimIface
  import HostKey

  /** The second request asks for what the first one was granted as n extents: the same
      bytes for the same hosts in any order, shared alike, for the first 63 characters
      of the same tenant, on n disks or on a number left open. */
  predicate SameAsk(req: AllocReq, req2: AllocReq, n: nat) {
    && req2.size == req.size && multiset(req2.hosts) == multiset(req.hosts) && req2.share == req.share
    && req2.tenant == (if |req.tenant| <= 63 then req.tenant else req.tenant[..63])
    && (req2.diskCount == 0 || req2.diskCount == n)
  }

  /** What the second request is answered. */
  predicate Answered(out: AllocOut, first: AllocOut, same: bool, cap: Option<nat>) {
    var n := |first.extents|;
    && (!same ==> out == AllocOut(NS_EXISTS, "", [], 0))
    && (same && (cap.None? || cap.value < n) ==> out == AllocOut(BUFFER_TOO_SMALL, "", [], n))
    && (same && cap.Some? && cap.value >= n ==>
          out.status == OK && out.id == first.id && out.count == n && SameExtents(out.extents, first.extents))
  }

  lemma GrantedSum(rows: seq<Row>, req: AllocReq, key: string, id: string, ps: seq<Piece>)
    requires GrantRows(rows, req, key, id, ps) && StripePieces(ps, req.size)
    ensures rows != [] && SumLen(rows) % TWO64 == req.size
  {
    StripeSum(rows, ps, req.size, |rows|);
    TakeAll(rows);
    Tiles(req.size, |ps|, 0);
  }

  lemma RowsSameAsk(rows: seq<Row>, req: AllocReq, req2: AllocReq, key: string, id: string, ps: seq<Piece>)
    requires GrantRows(rows, req, key, id, ps) && StripePieces(ps, req.size)
    requires HostKey.Key(req.hosts) == Some(key) && HostKey.Key(req2.hosts).Some?
    ensures rows != [] && (SameGrant(rows, req2, HostKey.Key(req2.hosts).value) <==> SameAsk(req, req2, |ps|))
  {
    GrantedSum(rows, req, key, id, ps);
    HostKey.KeyCanonical(req2.hosts, req.hosts);
    SameTerms(rows, req, req2, key, HostKey.Key(req2.hosts).value, |ps|);
  }

  lemma SameTerms(rows: seq<Row>, req: AllocReq, req2: AllocReq, key: string, key2: string, n: nat)
    requires rows != [] && |rows| == n && SumLen(rows) % TWO64 == req.size
    requires rows[0].share == req.share && rows[0].tenant == Clip(req.tenant, TENANT_SIZE) && rows[0].hostKey == key
    requires key2 == key <==> multiset(req2.hosts) == multiset(req.hosts)
    ensures SameGrant(rows, req2, key2) <==> SameAsk(req, req2, n)
  {}

  /** The second request against rows that hold the first one's grant. */
  lemma AskedAgain(w: World, req: AllocReq, req2: AllocReq, key: string, id: string, ps: seq<Piece>,
      cap: Option<nat>, create: Faults, delete: Faults)
    requires WorldShaped(w) && Uniform(w.c.rows)
    requires GrantRows(BareRows(w.c, id), req, key, id, ps) && StripePieces(ps, req.size)
    requires req2.diskName == req.diskName && NameValid(req.diskName) && HostKey.Key(req.hosts) == Some(key)
    requires req2.reliability == STRIPE && req2.size > 0 && HostKey.Key(req2.hosts).Some?
    ensures Alloc(w, req2, cap, create, delete).0 == w
    ensures var out, same := Alloc(w, req2, cap, create, delete).1, SameAsk(req, req2, |ps|);
      && (!same ==> out == AllocOut(NS_EXISTS, "", [], 0))
      && (same && (cap.None? || cap.value < |ps|) ==> out == AllocOut(BUFFER_TOO_SMALL, "", [], |ps|))
      && (same && cap.Some? && cap.value >= |ps| ==>
            out.status == OK && out.id == id && out.count == |ps| && ExtentsAre(out.extents, ps))
  {
    var bare := BareRows(w.c, id);
    NameIsId(w.c.rows, req.diskName, id);
    RowsSameAsk(bare, req, req2, key, id, ps);
    ExtentsOfPieces(bare, ps, w.c.pool);
  }

  /** After any run that does not release a granted name, a second request for it, in
      order by itself, changes nothing. It gets the same id and extents, or is told how
      large a buffer it needs, exactly when it asks for the same; otherwise the name is
      taken. */
  lemma SecondRequest(w: World, req: AllocReq, cap: Option<nat>, create: Faults, delete: Faults, ops: seq<Op>,
      req2: AllocReq, cap2: Option<nat>, create2: Faults, delete2: Faults)
    requires WorldShaped(w) && Books(w.c) && RowsOk(w.c) && w.c.nextId < TWO64 && req.size <= U64_MAX
    requires req.diskName != [] && !Has(w.c.rows, RowName, req.diskName)
    requires var (w1, out) := Alloc(w, req, cap, create, delete);
      out.status == OK && RunFits(ops) && NeverReleased(ops, out.id) && Run(w1, ops).c.nextId < TWO64
    requires req2.diskName == req.diskName
    requires req2.reliability == STRIPE && req2.size > 0 && HostKey.Key(req2.hosts).Some?
    ensures var (w1, first) := Alloc(w, req, cap, create, delete);
      var w2 := Run(w1, ops);
      var (w3, out) := Alloc(w2, req2, cap2, create2, delete2);
      w3 == w2 && Answered(out, first, SameAsk(req, req2, |first.extents|), cap2)
  {
    var (w1, out) := Alloc(w, req, cap, create, delete);
    var ps, online := NamedGrant(w, req, cap, create, delete);
    NumberedIssued(ID_PREFIX, w.c.nextId, w.c.nextId + 1);
    AllocKeepsBooks(w, req, cap, create, delete);
    RunBounds(w1, ops);
    AllocKeepsRowsOk(w, req, cap, create, delete);
    RunKeepsRowsOk(w1, ops);
    RunKeepsGrant(w1, ops, out.id);
    AskedAgain(Run(w1, ops), req, req2, HostKey.Key(req.hosts).value, out.id, ps, cap2, create2, delete2);
  }

  // ---- what a grant reports and stores ----

  /** Every extent names an SSU of the pool, and that SSU's host. */
  predicate HostsShown(es: seq<Extent>, pool: seq<Resource>) {
    forall i :: 0 <= i < |es| ==>
      Known(pool, es[i].ssuId) && es[i].hostId == pool[FindRes(pool, es[i].ssuId)].hostId
  }

  predicate SameHosts(a: seq<Resource>, b: seq<Resource>) {
    |a| == |b| && forall p :: 0 <= p < |a| ==> a[p].ssuId == b[p].ssuId && a[p].hostId == b[p].hostId
  }

  lemma ShownInBoth(es: seq<Extent>, a: seq<Resource>, b: seq<Resource>)
    requires SameHosts(a, b) && HostsShown(es, a)
    ensures HostsShown(es, b)
  {
    forall i | 0 <= i < |es| ensures FindRes(b, es[i].ssuId) == FindRes(a, es[i].ssuId) {
      SameFind(a, b, es[i].ssuId);
    }
  }

  lemma AdvanceShowsHosts(s: Placing, job: Job)
    requires CanPlace(s, job) && s.i < |job.sel| && DistinctSsus(s.w.c.pool) && HostsShown(s.extents, s.w.c.pool)
    ensures HostsShown(Advance(s, job).extents, Advance(s, job).w.c.pool)
  {
    var s1 := Advance(s, job);
    FindIs(s.w.c.pool, job.sel[s.i]);
    assert HostsShown(s1.extents, s.w.c.pool);
    ShownInBoth(s1.extents, s.w.c.pool, s1.w.c.pool);
  }

  lemma {:induction false} PlaceFromShowsHosts(s: Placing, job: Job, create: Faults)
    requires CanPlace(s, job) && Books(s.w.c) && HostsShown(s.extents, s.w.c.pool)
    ensures var p := PlaceFrom(s, job, create).0; HostsShown(p.extents, p.w.c.pool)
    decreases |job.sel| - s.i
  {
    if s.i < |job.sel| && NextStatus(s, job, create) == OK {
      AdvanceShowsHosts(s, job);
      AdvanceKeepsBooks(s, job);
      PlaceFromShowsHosts(Advance(s, job), job, create);
    }
  }

  lemma {:induction false} CopiedShowHosts(rows: seq<Row>, pool: seq<Resource>)
    requires forall i :: 0 <= i < |rows| ==> Known(pool, rows[i].ssuId)
    ensures HostsShown(ExtentsOf(rows, pool), pool)
  {
    if rows != [] { CopiedShowHosts(rows[..|rows| - 1], pool); }
  }

  /** Whoever is granted extents, new or kept, is told the host of each one's SSU. */
  lemma GrantShowsHosts(w: World, req: AllocReq, cap: Option<nat>, create: Faults, delete: Faults)
    requires WorldShaped(w) && Books(w.c) && Alloc(w, req, cap, create, delete).1.status == OK
    ensures var (w2, out) := Alloc(w, req, cap, create, delete); HostsShown(out.extents, w2.c.pool)
  {
    if req.diskName != [] && Has(w.c.rows, RowName, req.diskName) {
      var rows := Pick(w.c.rows, RowName, RowBare, req.diskName);
      forall i | 0 <= i < |rows| ensures Known(w.c.pool, rows[i].ssuId) {
        var x := PickFrom(w.c.rows, RowName, RowBare, req.diskName, rows[i]);
      }
      CopiedShowHosts(rows, w.c.pool);
    } else {
      var w1 := Searched(w);
      PlaceShowsHosts(w1, Admit(w1.c, req, HostKey.Key(req.hosts).value, cap).job, create, delete);
    }
  }

  lemma PlaceShowsHosts(w: World, job: Job, create: Faults, delete: Faults)
    requires CanPlace(Start(w), job) && Books(w.c) && Place(w, job, create, delete).1.status == OK
    ensures var (w2, out) := Place(w, job, create, delete); HostsShown(out.extents, w2.c.pool)
  {
    PlaceFromShowsHosts(Start(w), job, create);
  }

  /** The row is not mounted and carries the request's name and sharing, the first 63
      characters of its tenant, and its hosts. */
  predicate OnTerms(row: Row, req: AllocReq) {
    && row.state == ACTIVE && row.diskName == req.diskName && row.share == req.share
    && row.tenant == (if |req.tenant| <= 63 then req.tenant else req.tenant[..63])
    && Some(row.hostKey) == HostKey.Key(req.hosts)
  }

  /** A new grant stores the request's terms in every row of its id; the rows are a
      stripe of the size that was asked for, and what the caller is told. */
  lemma GrantStoresTerms(w: World, req: AllocReq, cap: Option<nat>, create: Faults, delete: Faults)
    requires WorldShaped(w) && Books(w.c) && RowsOk(w.c) && w.c.nextId < TWO64 && req.size <= U64_MAX
    requires req.diskName == [] || !Has(w.c.rows, RowName, req.diskName)
    requires Alloc(w, req, cap, create, delete).1.status == OK
    ensures var (w2, out) := Alloc(w, req, cap, create, delete);
      var ps := Pick(w2.c.rows, RowId, RowPiece, out.id);
      && StripePieces(ps, req.size) && ExtentsAre(out.extents, ps)
      && forall x :: 0 <= x < |w2.c.rows| && Carries(w2.c.rows[x], RowId, out.id) ==> OnTerms(w2.c.rows[x].value, req)
  {
    SearchIsImmediate(w);
    PlaceStoresTerms(w, Admit(w.c, req, HostKey.Key(req.hosts).value, cap).job, create, delete);
  }

  lemma PlaceStoresTerms(w: World, job: Job, create: Faults, delete: Faults)
    requires JobOk(w.c.pool, job) && CanPlace(Start(w), job) && DistinctSsus(w.c.pool) && job.req.size <= U64_MAX
    requires !Has(w.c.rows, RowId, job.id) && Some(job.key) == HostKey.Key(job.req.hosts)
    requires Place(w, job, create, delete).1.status == OK
    ensures var (w2, out) := Place(w, job, create, delete);
      var ps := Pick(w2.c.rows, RowId, RowPiece, out.id);
      && StripePieces(ps, job.req.size) && ExtentsAre(out.extents, ps)
      && forall x :: 0 <= x < |w2.c.rows| && Carries(w2.c.rows[x], RowId, out.id) ==>
        OnTerms(w2.c.rows[x].value, job.req)
  {
    var p := PlaceFrom(Start(w), job, create).0;
    GrantedPieces(w, job, create);
    PlaceFromExtends(w, Start(w), job, create);
    NewRowsOnTerms(w.c.rows, p.w.c.rows, job, w.c.pool, p.i);
  }

  lemma NewRowsOnTerms(a: Rows, b: Rows, job: Job, pool: seq<Resource>, n: nat)
    requires Extended(a, b, job, pool, n) && !Has(a, RowId, job.id) && Some(job.key) == HostKey.Key(job.req.hosts)
    ensures forall x :: 0 <= x < |b| && Carries(b[x], RowId, job.id) ==> OnTerms(b[x].value, job.req)
  {
    HasSome(a, RowId, job.id);
    forall x | 0 <= x < |b| && Carries(b[x], RowId, job.id) ensures OnTerms(b[x].value, job.req) {
      assert !Carries(a[x], RowId, job.id);
    }
  }
}
