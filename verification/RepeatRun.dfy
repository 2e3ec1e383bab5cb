/** A run on which repeating a granted named request is refused. */
module RepeatRun {
  import opened Types
  import opened Tables
  import opened Decimal
  import opened ReqShimIface
  import opened ControllerState
  import opened Ledger
  import opened Rollback
  import opened Idempotence
  import opened Agreement
  import opened OneSsu

  /** A named request for a tenant. */
  function NamedAsk(tenant: string): AllocReq { AskFor(1024, "vol").(tenant := tenant) }

  lemma NamedGranted(w: World, tenant: string)
    requires Filled(w, 0, 0) && w.c.rows == Boot.c.rows
    ensures Alloc(w, NamedAsk(tenant), Some(MAX_ALLOCATIONS), map[], map[]).1.status == OK
  {
    var req := NamedAsk(tenant);
    var job := Job(Numbered(ID_PREFIX, 0), req, "h", [0], 1024, 0);
    FreshName(w.c.rows, "vol");
    OneHost();
    SearchIsImmediate(w);
    OneChosen(w.c, req, 1024);
    AdmittedPlaces(w, req, "h", job);
    AdmittedIsGranted(w, job, map[]);
  }

  lemma FreshName(rows: Rows, name: string)
    requires rows == Boot.c.rows
    ensures FreeCount(rows) > 0 && !Has(rows, RowName, name)
  {
    FreeCountPositive(rows);
    HasSome(rows, RowName, name);
  }

  /** The SSU is discovered, and a tenant whose name does not fit its field is granted
      a disk; the same request again is NS_EXISTS, and changes nothing. */
  lemma RepeatRefused(tenant: string)
    requires |tenant| >= TENANT_SIZE
    ensures var w := Run(Boot, [Discover]);
      var (w1, out) := Alloc(w, NamedAsk(tenant), Some(MAX_ALLOCATIONS), map[], map[]);
      var (w2, again) := Alloc(w1, NamedAsk(tenant), Some(MAX_ALLOCATIONS), map[], map[]);
      out.status == OK && again.status == NS_EXISTS && w2 == w1
  {
    Discovered();
    FirstStep();
    RepeatAt(Run(Boot, [Discover]), tenant);
  }

  lemma FirstStep()
    ensures Run(Boot, [Discover]) == Step(Boot, Discover)
  {
    assert Run(Boot, []) == Boot;
    assert [] + [Discover] == [Discover];
    RunNext(Boot, [], Discover);
  }

  lemma RepeatAt(w: World, tenant: string)
    requires Filled(w, 0, 0) && w.c.rows == Boot.c.rows && |tenant| >= TENANT_SIZE
    ensures var (w1, out) := Alloc(w, NamedAsk(tenant), Some(MAX_ALLOCATIONS), map[], map[]);
      var (w2, again) := Alloc(w1, NamedAsk(tenant), Some(MAX_ALLOCATIONS), map[], map[]);
      out.status == OK && again.status == NS_EXISTS && w2 == w1
  {
    var req, cap := NamedAsk(tenant), MAX_ALLOCATIONS;
    NamedGranted(w, tenant);
    HasSome(w.c.rows, RowName, "vol");
    var w1 := Alloc(w, req, Some(cap), map[], map[]).0;
    var ps, online := NamedGrant(w, req, Some(cap), map[], map[]);
    assert Run(w1, []) == w1;
    NamedRequestIsIdempotent(w, req, Some(cap), map[], map[], [], req, cap, map[], map[]);
  }
}
