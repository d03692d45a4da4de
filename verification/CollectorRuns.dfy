/**
 The cache is invisible: over every run of submissions, validations, duplicates, aborts and ledger
 changes, the caching collector answers and stores what the reference collector does.
 */
module CollectorRuns {
  import opened Types
  import opened Wire
  import opened Registry
  import opened Collector
  import Dedup
  import Staging
  import Engine

  // ---------------------------------------------------------------------------
  // Agreement of the cache with the tables
  // ---------------------------------------------------------------------------

  /** Every cached device is the live one, every cached series id names an existing row. */
  ghost predicate Agrees(c: Cache, devices: seq<Device>, b: Book) {
    && (forall hw | hw in c.devices :: Alive(devices, hw) == Some(c.devices[hw]))
    && (forall sk | sk in c.series :: sk in b.series && b.series[sk].id == c.series[sk])
  }

  /** An older generation may hold anything: it is emptied before use. */
  ghost predicate CacheOk(c: Cache, db: Db) {
    c.generation <= db.generation && (c.generation == db.generation ==> Agrees(c, db.devices, db.book))
  }

  /** Evaluation never touches the series table. */
  lemma EvaluateKeepsSeries(b: Book, catalog: Catalog, subject: SystemId, item: Item)
    ensures Evaluate(b, catalog, subject, item).Ok? ==> Evaluate(b, catalog, subject, item).value.0.series == b.series
  {
  }

  lemma RecordKeepsLedger(cfg: Config, env: Env, p: Principal, item: Item, i: nat, db: Db, series: nat, quarantined: bool)
    ensures var db' := Record(cfg, env, p, item, i, db, series, quarantined);
            db'.devices == db.devices && db'.book == db.book && db'.generation == db.generation
  {
  }

  lemma ResolvedAgrees(c: Cache, db: Db, p: Principal, item: Item)
    requires Agrees(c, db.devices, db.book) && !NeedsHint(p, item)
    ensures var (resolved, c') := CachedResolved(c, db, p, item);
            resolved == Resolved(db, p, item) && Agrees(c', db.devices, db.book) && c'.generation == c.generation
  {
  }

  lemma SeriesAgrees(c: Cache, devices: seq<Device>, b: Book, sk: SeriesKey, q: bool, reason: Option<QuarantineReason>)
    requires Agrees(c, devices, b)
    ensures var (b', id, c') := CachedSeries(c, b, sk, q, reason);
            (b', id) == EnsureSeries(b, sk, q, reason) && Agrees(c', devices, b') && c'.generation == c.generation
  {
  }

  lemma StoreItemAgrees(
    cfg: Config, env: Env, p: Principal, item: Item, i: nat, w: Work, c: Cache, id: SystemId, state: DeviceState)
    requires Agrees(c, w.db.devices, w.db.book)
    ensures var (r, c') := CachedStoreItem(cfg, env, p, item, i, w, c, id, state);
            && r == StoreItem(cfg, env, p, item, i, w, id, state) && c'.generation == c.generation
            && (r.Some? ==> r.value.0.db.generation == w.db.generation
                            && Agrees(c', r.value.0.db.devices, r.value.0.db.book))
  {
    EvaluateKeepsSeries(w.db.book, cfg.catalog, id, item);
    var e := Evaluate(w.db.book, cfg.catalog, id, item);
    if e.Ok? && e.value.1.Accept? {
      var (b, v) := e.value;
      var held := HeldReason(v.quarantine);
      var sk := SeriesKeyOf(id, item, v.key, v.channel);
      SeriesAgrees(c, w.db.devices, b, sk, held.Some?, held);
      var (b', series) := EnsureSeries(b, sk, held.Some?, held);
      RecordKeepsLedger(cfg, env, p, item, i, w.db.(book := b'), series, StatusOf(state, v.quarantine).disposition != Durable);
    }
  }

  lemma ItemAgrees(cfg: Config, env: Env, p: Principal, item: Item, i: nat, w: Work, c: Cache)
    requires Agrees(c, w.db.devices, w.db.book)
    ensures var (r, c') := CachedProcessItem(cfg, env, p, item, i, w, c);
            && r == ProcessItem(cfg, env, p, item, i, w) && c'.generation == c.generation
            && (r.Some? ==> r.value.0.db.generation == w.db.generation
                            && Agrees(c', r.value.0.db.devices, r.value.0.db.book))
  {
    if !NeedsHint(p, item) {
      ResolvedAgrees(c, w.db, p, item);
      var (resolved, c1) := CachedResolved(c, w.db, p, item);
      var screened := Screen(cfg, env, p, item, resolved);
      if screened.Proceed? { StoreItemAgrees(cfg, env, p, item, i, w, c1, screened.id, screened.state); }
    }
  }

  lemma {:induction false} ItemsAgree(cfg: Config, env: Env, req: Request, i: nat, w: Work, c: Cache, statuses: seq<ItemStatus>)
    requires i <= |req.envelope.items| && Agrees(c, w.db.devices, w.db.book)
    ensures var (r, c') := CachedProcessItems(cfg, env, req, i, w, c, statuses);
            && r == ProcessItems(cfg, env, req, i, w, statuses) && c'.generation == c.generation
            && (r.Some? ==> r.value.0.db.generation == w.db.generation
                            && Agrees(c', r.value.0.db.devices, r.value.0.db.book))
    decreases |req.envelope.items| - i
  {
    if i < |req.envelope.items| {
      ItemAgrees(cfg, env, req.principal, req.envelope.items[i], i, w, c);
      var (r, c') := CachedProcessItem(cfg, env, req.principal, req.envelope.items[i], i, w, c);
      if r.Some? { ItemsAgree(cfg, env, req, i + 1, r.value.0, c', statuses + [r.value.1]); }
    }
  }

  lemma TransactAgrees(cfg: Config, db: Db, req: Request, env: Env, c: Cache)
    requires Agrees(c, db.devices, db.book) && c.generation == db.generation
    ensures var (r, c') := CachedTransact(cfg, db, req, env, c);
            && r == Transact(cfg, db, req, env)
            && (r.None? ==> c' == EMPTY_CACHE)
            && (r.Some? ==> && r.value.0.generation == db.generation == c'.generation
                            && Agrees(c', r.value.0.devices, r.value.0.book))
  {
    ItemsAgree(cfg, env, req, 0, Work(db, []), c, []);
  }

  /** One request: same tables, same answer, and the cache is sound again. */
  lemma CachedRefines(cfg: Config, db: Db, c: Cache, req: Request, env: Env, commit: bool)
    requires CacheOk(c, db)
    ensures var (db', c', reply) := CachedProcess(cfg, db, c, req, env, commit);
            (db', reply) == Process(cfg, db, req, env, commit) && CacheOk(c', db')
  {
    if Preflight(req, env).None? {
      var c1 := Refreshed(c, db.generation);
      var (first, db1) := if commit then Claimed(db, req, env) else (true, db);
      if first { TransactAgrees(cfg, db1, req, env, c1); }
    }
  }

  // ---------------------------------------------------------------------------
  // Runs
  // ---------------------------------------------------------------------------

  /**
   A ledger change replaces devices, registry and series at will but bumps the generation in the
   same transaction; other writers leave devices and series alone.
   */
  datatype Event =
    | Submit(req: Request, env: Env)
    | Validate(req: Request, env: Env)
    | StorageDown
    | LedgerChange(devices: seq<Device>, book: Book)
    | OtherWrite(tables: Engine.Tables, admitsPublication: bool, staging: Staging.Store)
    | PurgeClaims(cutoff: int)

  function Unpurged(claims: Dedup.Claims, cutoff: int): Dedup.Claims {
    if claims == [] then []
    else
      var before := Unpurged(claims[..|claims| - 1], cutoff);
      if claims[|claims| - 1].receivedAt < cutoff then before else before + [claims[|claims| - 1]]
  }

  /** What an event other than a request writes. */
  function Written(db: Db, e: Event): Db {
    match e
    case LedgerChange(devices, book) => db.(devices := devices, book := book, generation := db.generation + 1)
    case OtherWrite(tables, admits, staging) => db.(tables := tables, admitsPublication := admits, staging := staging)
    case PurgeClaims(cutoff) => db.(claims := Unpurged(db.claims, cutoff))
    case _ => db
  }

  ghost function Step(cfg: Config, db: Db, e: Event): (Db, Option<Reply>) {
    match e
    case Submit(req, env) => (var (db', reply) := Process(cfg, db, req, env, true); (db', Some(reply)))
    case Validate(req, env) => (var (db', reply) := Process(cfg, db, req, env, false); (db', Some(reply)))
    case StorageDown => (db, Some(NoAck))
    case _ => (Written(db, e), None)
  }

  ghost function CachedStep(cfg: Config, db: Db, c: Cache, e: Event): (Db, Cache, Option<Reply>) {
    match e
    case Submit(req, env) => (var (db', c', reply) := CachedProcess(cfg, db, c, req, env, true); (db', c', Some(reply)))
    case Validate(req, env) => (var (db', c', reply) := CachedProcess(cfg, db, c, req, env, false); (db', c', Some(reply)))
    case StorageDown => (db, EMPTY_CACHE, Some(NoAck))
    case _ => (Written(db, e), c, None)
  }

  ghost function Run(cfg: Config, db: Db, es: seq<Event>, replies: seq<Option<Reply>>): (Db, seq<Option<Reply>>)
    decreases |es|
  {
    if es == [] then (db, replies)
    else
      var (db', reply) := Step(cfg, db, es[0]);
      Run(cfg, db', es[1..], replies + [reply])
  }

  ghost function CachedRun(cfg: Config, db: Db, c: Cache, es: seq<Event>, replies: seq<Option<Reply>>)
    : (Db, Cache, seq<Option<Reply>>)
    decreases |es|
  {
    if es == [] then (db, c, replies)
    else
      var (db', c', reply) := CachedStep(cfg, db, c, es[0]);
      CachedRun(cfg, db', c', es[1..], replies + [reply])
  }

  lemma StepRefines(cfg: Config, db: Db, c: Cache, e: Event)
    requires CacheOk(c, db)
    ensures var (db', c', reply) := CachedStep(cfg, db, c, e);
            (db', reply) == Step(cfg, db, e) && CacheOk(c', db')
  {
    match e
    case Submit(req, env) => CachedRefines(cfg, db, c, req, env, true);
    case Validate(req, env) => CachedRefines(cfg, db, c, req, env, false);
    case _ =>
  }

  lemma {:induction false} RunRefines(cfg: Config, db: Db, c: Cache, es: seq<Event>, replies: seq<Option<Reply>>)
    requires CacheOk(c, db)
    ensures var (db', c', rs) := CachedRun(cfg, db, c, es, replies);
            (db', rs) == Run(cfg, db, es, replies) && CacheOk(c', db')
    decreases |es|
  {
    if es != [] {
      StepRefines(cfg, db, c, es[0]);
      var (db', c', reply) := CachedStep(cfg, db, c, es[0]);
      RunRefines(cfg, db', c', es[1..], replies + [reply]);
    }
  }

  /**
   From any database and an empty cache, every run gives the same answers and the same tables with
   the cache as without it; and whenever the cache is current, all it holds exists in the tables.
   */
  lemma CacheIsInvisible(cfg: Config, db: Db, es: seq<Event>)
    ensures var (db', c, replies) := CachedRun(cfg, db, EMPTY_CACHE, es, []);
            && (db', replies) == Run(cfg, db, es, [])
            && (c.generation == db'.generation ==> Agrees(c, db'.devices, db'.book))
  {
    RunRefines(cfg, db, EMPTY_CACHE, es, []);
  }
}
