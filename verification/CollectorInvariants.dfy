/**
 What every run keeps, across registry, pipelines, publications, claims and staging, and how the
 acknowledged item statuses account for the readings stored.
 */
module CollectorInvariants {
  import opened Types
  import opened Wire
  import opened Registry
  import opened Collector
  import opened CollectorRuns
  import Dedup
  import Staging
  import StagingRuns
  import Delivery
  import Engine
  import EngineRuns
  import RegistryRuns

  /** Reading rows point at series rows, publications at readings that are not quarantined. */
  ghost predicate Linked(b: Book, rs: seq<ReadingRow>, ps: seq<Publication>) {
    && (forall i | 0 <= i < |rs| :: HasSeries(b, rs[i].series))
    && (forall i | 0 <= i < |ps| :: 1 <= ps[i].reading <= |rs| && !rs[ps[i].reading - 1].quarantined)
  }

  ghost predicate HasSeries(b: Book, id: nat) {
    exists sk :: sk in b.series && b.series[sk].id == id
  }

  ghost predicate WorkInv(db: Db) {
    && EngineRuns.Inv(db.tables)
    && RegistryRuns.Inv(RegistryRuns.State(db.book, []))
    && Linked(db.book, db.readings, db.publications)
  }

  ghost predicate DbInv(db: Db) {
    && WorkInv(db)
    && StagingRuns.Inv(db.staging, STAGING_LIMITS)
    && Dedup.DistinctKeys(db.claims) && Dedup.WithinBounds(db.claims, DEDUP_LIMITS)
  }

  /** Item statuses that stand for a stored reading. */
  function ReadingsIn(ss: seq<ItemStatus>): nat {
    if ss == [] then 0
    else
      ReadingsIn(ss[..|ss| - 1])
      + if ss[|ss| - 1].Stored? && ss[|ss| - 1].disposition != Staged then 1 else 0
  }

  lemma ReadingsAppend(ss: seq<ItemStatus>, s: ItemStatus)
    ensures ReadingsIn(ss + [s]) == ReadingsIn(ss) + if s.Stored? && s.disposition != Staged then 1 else 0
  {
    assert (ss + [s])[..|ss|] == ss;
  }

  // ---------------------------------------------------------------------------
  // One item
  // ---------------------------------------------------------------------------

  /** Appending a reading of an existing series, and possibly its publication, keeps the links. */
  lemma AppendLinked(b: Book, rs: seq<ReadingRow>, ps: seq<Publication>, row: ReadingRow, more: seq<Publication>)
    requires Linked(b, rs, ps) && HasSeries(b, row.series)
    requires forall i | 0 <= i < |more| :: more[i].reading == |rs| + 1 && !row.quarantined
    ensures Linked(b, rs + [row], ps + more)
  {
    var rs', ps' := rs + [row], ps + more;
    forall i | 0 <= i < |ps'| ensures 1 <= ps'[i].reading <= |rs'| && !rs'[ps'[i].reading - 1].quarantined {
      assert ps'[i] == if i < |ps| then ps[i] else more[i - |ps|];
    }
  }

  lemma RecordKeeps(
    cfg: Config, env: Env, p: Principal, item: Item, i: nat, db: Db, sk: SeriesKey, quarantined: bool)
    requires WorkInv(db) && sk in db.book.series
    ensures var db' := Record(cfg, env, p, item, i, db, db.book.series[sk].id, quarantined);
            && WorkInv(db') && |db'.readings| == |db.readings| + 1
            && db'.claims == db.claims && db'.staging == db.staging
  {
    var series := db.book.series[sk].id;
    var row := NewReading(env, item, series, quarantined);
    var more := if !quarantined && db.admitsPublication
                then [Publication(db.epoch, |db.readings| + 1, env.receivedAt)] else [];
    AppendLinked(db.book, db.readings, db.publications, row, more);
    if !quarantined && p.source in cfg.adapters {
      EngineRuns.ApplyKeeps(db.tables, EngineRuns.DeliverOp(ReadingOf(cfg, env, p, item, i)));
    }
    var db' := Record(cfg, env, p, item, i, db, series, quarantined);
    assert db'.readings == db.readings + [row] && db'.publications == db.publications + more;
  }

  /** The series table only grows. */
  lemma GrowLinked(b: Book, b': Book, rs: seq<ReadingRow>, ps: seq<Publication>)
    requires Linked(b, rs, ps)
    requires forall sk | sk in b.series :: sk in b'.series && b'.series[sk].id == b.series[sk].id
    ensures Linked(b', rs, ps)
  {
    forall i | 0 <= i < |rs| ensures HasSeries(b', rs[i].series) {
      assert HasSeries(b, rs[i].series);
      var sk :| sk in b.series && b.series[sk].id == rs[i].series;
      assert b'.series[sk].id == rs[i].series;
    }
  }

  lemma EnsureKeeps(db: Db, sk: SeriesKey, quarantined: bool, reason: Option<QuarantineReason>)
    requires WorkInv(db)
    ensures var (b, id) := EnsureSeries(db.book, sk, quarantined, reason);
            WorkInv(db.(book := b)) && sk in b.series && b.series[sk].id == id
  {
    RegistryRuns.SeriesIdsKeep(db.book, sk, quarantined, reason);
    GrowLinked(db.book, EnsureSeries(db.book, sk, quarantined, reason).0, db.readings, db.publications);
  }

  lemma EvaluateKeeps(db: Db, catalog: Catalog, id: SystemId, item: Item)
    requires WorkInv(db) && RegistryRuns.ValidCatalog(catalog)
    ensures Evaluate(db.book, catalog, id, item).Ok?
    ensures WorkInv(db.(book := Evaluate(db.book, catalog, id, item).value.0))
  {
    RegistryRuns.EvaluateFacts(db.book, catalog, id, item);
    GrowLinked(db.book, Evaluate(db.book, catalog, id, item).value.0, db.readings, db.publications);
  }

  /** An accepted item opens its series if need be and is recorded under it. */
  lemma AcceptedKeeps(
    cfg: Config, env: Env, p: Principal, item: Item, i: nat, db: Db, sk: SeriesKey, held: Option<QuarantineReason>, quarantined: bool)
    requires WorkInv(db)
    ensures var (b', series) := EnsureSeries(db.book, sk, held.Some?, held);
            var db' := Record(cfg, env, p, item, i, db.(book := b'), series, quarantined);
            && WorkInv(db') && |db'.readings| == |db.readings| + 1
            && db'.claims == db.claims && db'.staging == db.staging
  {
    EnsureKeeps(db, sk, held.Some?, held);
    RecordKeeps(cfg, env, p, item, i, db.(book := EnsureSeries(db.book, sk, held.Some?, held).0), sk, quarantined);
  }

  lemma StoreItemKeeps(
    cfg: Config, env: Env, p: Principal, item: Item, i: nat, w: Work, id: SystemId, state: DeviceState)
    requires WorkInv(w.db) && RegistryRuns.ValidCatalog(cfg.catalog)
    ensures var r := StoreItem(cfg, env, p, item, i, w, id, state);
            && r.Some? && WorkInv(r.value.0.db)
            && r.value.0.db.claims == w.db.claims && r.value.0.db.staging == w.db.staging
            && |r.value.0.db.readings| == |w.db.readings| + (if r.value.1.Stored? then 1 else 0)
            && (r.value.1.Stored? ==> r.value.1.disposition != Staged)
  {
    EvaluateKeeps(w.db, cfg.catalog, id, item);
    var (b, v) := Evaluate(w.db.book, cfg.catalog, id, item).value;
    if v.Accept? {
      AcceptedKeeps(cfg, env, p, item, i, w.db.(book := b), SeriesKeyOf(id, item, v.key, v.channel),
                    HeldReason(v.quarantine), StatusOf(state, v.quarantine).disposition != Durable);
    }
  }

  lemma ItemKeeps(cfg: Config, env: Env, p: Principal, item: Item, i: nat, w: Work)
    requires WorkInv(w.db) && RegistryRuns.ValidCatalog(cfg.catalog)
    ensures var r := ProcessItem(cfg, env, p, item, i, w);
            && r.Some? && WorkInv(r.value.0.db)
            && r.value.0.db.claims == w.db.claims && r.value.0.db.staging == w.db.staging
            && |r.value.0.db.readings|
               == |w.db.readings| + if r.value.1.Stored? && r.value.1.disposition != Staged then 1 else 0
  {
    if !NeedsHint(p, item) {
      var screened := Screen(cfg, env, p, item, Resolved(w.db, p, item));
      if screened.Proceed? { StoreItemKeeps(cfg, env, p, item, i, w, screened.id, screened.state); }
    }
  }

  // ---------------------------------------------------------------------------
  // One envelope
  // ---------------------------------------------------------------------------

  lemma {:induction false} ItemsKeep(cfg: Config, env: Env, req: Request, i: nat, w: Work, statuses: seq<ItemStatus>)
    requires i <= |req.envelope.items| && |statuses| == i
    requires WorkInv(w.db) && RegistryRuns.ValidCatalog(cfg.catalog)
    ensures var r := ProcessItems(cfg, env, req, i, w, statuses);
            && r.Some? && WorkInv(r.value.0.db)
            && r.value.0.db.claims == w.db.claims && r.value.0.db.staging == w.db.staging
            && |r.value.1| == |req.envelope.items|
            && |r.value.0.db.readings| - ReadingsIn(r.value.1) == |w.db.readings| - ReadingsIn(statuses)
    decreases |req.envelope.items| - i
  {
    if i < |req.envelope.items| {
      ItemKeeps(cfg, env, req.principal, req.envelope.items[i], i, w);
      var (w', status) := ProcessItem(cfg, env, req.principal, req.envelope.items[i], i, w).value;
      ReadingsAppend(statuses, status);
      ItemsKeep(cfg, env, req, i + 1, w', statuses + [status]);
    }
  }

  lemma StageAllKeeps(w: Work, principal: string, receivedAt: int)
    requires WorkInv(w.db) && StagingRuns.Inv(w.db.staging, STAGING_LIMITS)
    ensures var r := StageAll(w, principal, receivedAt);
            r.Some? ==>
              && WorkInv(r.value) && StagingRuns.Inv(r.value.staging, STAGING_LIMITS)
              && r.value.claims == w.db.claims && r.value.readings == w.db.readings
  {
    if w.sightings != [] && Staging.Stage(w.db.staging, principal, receivedAt, w.sightings, STAGING_LIMITS).Ok? {
      StagingRuns.StageKeeps(w.db.staging, principal, receivedAt, w.sightings, STAGING_LIMITS);
    }
  }

  lemma TransactKeeps(cfg: Config, db: Db, req: Request, env: Env)
    requires WorkInv(db) && StagingRuns.Inv(db.staging, STAGING_LIMITS) && RegistryRuns.ValidCatalog(cfg.catalog)
    ensures var r := Transact(cfg, db, req, env);
            r.Some? ==>
              && WorkInv(r.value.0) && StagingRuns.Inv(r.value.0.staging, STAGING_LIMITS)
              && r.value.0.claims == db.claims
              && |r.value.1| == |req.envelope.items|
              && |r.value.0.readings| == |db.readings| + ReadingsIn(r.value.1)
  {
    ItemsKeep(cfg, env, req, 0, Work(db, []), []);
    StageAllKeeps(ProcessItems(cfg, env, req, 0, Work(db, []), []).value.0, req.principal.id, env.receivedAt);
  }

  /**
   Every request keeps series numbering, disjoint namespaces, links between rows, staging reserve
   and claim bounds; an accepted envelope gets one status per item and exactly as many readings as
   its statuses say.
   */
  lemma ProcessKeeps(cfg: Config, db: Db, req: Request, env: Env, commit: bool)
    requires DbInv(db) && RegistryRuns.ValidCatalog(cfg.catalog)
    ensures var (db', reply) := Process(cfg, db, req, env, commit);
            && DbInv(db')
            && (reply.Ack? && reply.status.Accepted? ==>
                  && |reply.status.items| == |req.envelope.items|
                  && (commit ==> |db'.readings| == |db.readings| + ReadingsIn(reply.status.items)))
  {
    if Preflight(req, env).None? {
      if commit {
        Dedup.ClaimKeepsBounds(db.claims, req.principal.id, req.envelope.id, env.receivedAt, DEDUP_LIMITS);
      }
      TransactKeeps(cfg, if commit then Claimed(db, req, env).1 else db, req, env);
    }
  }

  // ---------------------------------------------------------------------------
  // Whole runs
  // ---------------------------------------------------------------------------

  /** Requests, and what operators and maintenance do to the same tables. */
  datatype Happening =
    | Call(event: Event)
    | Pipelines(op: EngineRuns.Op)
    | Definitions(change: RegistryRuns.Op)
    | Devices(devices: seq<Device>)
    | Pins(subject: Staging.Subject, pinned: bool)
    | Admission(admits: bool)
    | ClaimPurge(cutoff: int)

  /** The event as the collector's runs know it; a request is only ever a request. */
  ghost function EventOf(cfg: Config, db: Db, h: Happening): Event {
    match h
    case Call(event) => if event.Submit? || event.Validate? then event else StorageDown
    case Pipelines(op) => OtherWrite(EngineRuns.Apply(db.tables, op), db.admitsPublication, db.staging)
    case Definitions(change) =>
      LedgerChange(db.devices, RegistryRuns.Apply(RegistryRuns.State(db.book, []), cfg.catalog, change).book)
    case Devices(devices) => LedgerChange(devices, db.book)
    case Pins(subject, pinned) =>
      OtherWrite(db.tables, db.admitsPublication,
                 StagingRuns.Apply(db.staging, StagingRuns.PinOp(subject, pinned), STAGING_LIMITS))
    case Admission(admits) => OtherWrite(db.tables, admits, db.staging)
    case ClaimPurge(cutoff) => PurgeClaims(cutoff)
  }

  /** Readings that the answer to an event acknowledges. */
  function Acknowledged(e: Event, reply: Option<Reply>): nat {
    if e.Submit? && reply.Some? && reply.value.Ack? && reply.value.status.Accepted?
    then ReadingsIn(reply.value.status.items) else 0
  }

  /** The tables after one happening, and the readings its answer acknowledges. */
  ghost function Next(cfg: Config, db: Db, h: Happening): (Db, nat) {
    var e := EventOf(cfg, db, h);
    var (db', reply) := Step(cfg, db, e);
    (db', Acknowledged(e, reply))
  }

  ghost function Fold(next: (Db, Happening) -> (Db, nat), db: Db, hs: seq<Happening>, acknowledged: nat): (Db, nat)
    decreases |hs|
  {
    if hs == [] then (db, acknowledged)
    else
      var (db', more) := next(db, hs[0]);
      Fold(next, db', hs[1..], acknowledged + more)
  }

  /** The tables after a whole run, and the readings acknowledged on the way. */
  ghost function Live(cfg: Config, db: Db, hs: seq<Happening>): (Db, nat) {
    Fold((d, h) => Next(cfg, d, h), db, hs, 0)
  }

  function Fresh(epoch: nat, devices: seq<Device>, admits: bool): Db {
    Db(devices, 0, epoch, RegistryRuns.EMPTY.book, [], Engine.EMPTY, [], admits, [], Staging.Store([], map[]))
  }

  /** No registry operation renumbers or drops a series. */
  lemma SeriesGrow(b: Book, catalog: Catalog, change: RegistryRuns.Op)
    ensures var b' := RegistryRuns.Apply(RegistryRuns.State(b, []), catalog, change).book;
            forall sk | sk in b.series :: sk in b'.series && b'.series[sk].id == b.series[sk].id
  {
    if change.Reading? { EvaluateKeepsSeries(b, catalog, change.subject, change.item); }
  }

  lemma RecordsAside(st: RegistryRuns.State)
    requires RegistryRuns.Inv(st)
    ensures RegistryRuns.Inv(RegistryRuns.State(st.book, []))
  {
  }

  lemma DefinitionsKeep(db: Db, catalog: Catalog, change: RegistryRuns.Op)
    requires WorkInv(db) && RegistryRuns.ValidCatalog(catalog)
    ensures WorkInv(db.(book := RegistryRuns.Apply(RegistryRuns.State(db.book, []), catalog, change).book))
  {
    var st := RegistryRuns.Apply(RegistryRuns.State(db.book, []), catalog, change);
    assert RegistryRuns.Inv(RegistryRuns.State(st.book, [])) by {
      RegistryRuns.ApplyKeeps(RegistryRuns.State(db.book, []), catalog, change);
      RecordsAside(st);
    }
    assert Linked(st.book, db.readings, db.publications) by {
      SeriesGrow(db.book, catalog, change);
      GrowLinked(db.book, st.book, db.readings, db.publications);
    }
  }

  lemma {:induction false} UnpurgedCount(claims: Dedup.Claims, cutoff: int, principal: Option<string>)
    ensures |Unpurged(claims, cutoff)| <= |claims|
    ensures Dedup.Count(Unpurged(claims, cutoff), principal) <= Dedup.Count(claims, principal)
  {
    if claims != [] {
      UnpurgedCount(claims[..|claims| - 1], cutoff, principal);
      Dedup.CountAppend(Unpurged(claims[..|claims| - 1], cutoff), claims[|claims| - 1], principal);
    }
  }

  lemma PurgeKeepsClaims(claims: Dedup.Claims, cutoff: int)
    requires Dedup.DistinctKeys(claims) && Dedup.WithinBounds(claims, DEDUP_LIMITS)
    ensures Dedup.DistinctKeys(Unpurged(claims, cutoff)) && Dedup.WithinBounds(Unpurged(claims, cutoff), DEDUP_LIMITS)
  {
    Delivery.UnpurgedMember(claims, cutoff);
    UnpurgedCount(claims, cutoff, None);
    forall p: string ensures Dedup.Count(Unpurged(claims, cutoff), Some(p)) <= DEDUP_LIMITS.principalRows {
      UnpurgedCount(claims, cutoff, Some(p));
    }
  }

  lemma PinsKeep(db: Db, subject: Staging.Subject, pinned: bool)
    requires DbInv(db)
    ensures DbInv(db.(staging := StagingRuns.Apply(db.staging, StagingRuns.PinOp(subject, pinned), STAGING_LIMITS)))
  {
    if Staging.SetPin(db.staging, subject, pinned, STAGING_LIMITS).Ok? {
      StagingRuns.PinKeeps(db.staging, subject, pinned, STAGING_LIMITS);
    }
  }

  /** Writers other than requests keep the invariant and store no reading. */
  lemma OthersKeep(cfg: Config, db: Db, h: Happening)
    requires DbInv(db) && RegistryRuns.ValidCatalog(cfg.catalog) && !h.Call?
    ensures var (db', more) := Next(cfg, db, h); DbInv(db') && db'.readings == db.readings && more == 0
  {
    WrittenKeeps(cfg, db, h);
  }

  lemma WrittenKeeps(cfg: Config, db: Db, h: Happening)
    requires DbInv(db) && RegistryRuns.ValidCatalog(cfg.catalog) && !h.Call?
    ensures var db' := Written(db, EventOf(cfg, db, h)); DbInv(db') && db'.readings == db.readings
  {
    match h
    case Pipelines(op) => EngineRuns.ApplyKeeps(db.tables, op);
    case Definitions(change) => DefinitionsKeep(db, cfg.catalog, change);
    case Pins(subject, pinned) => PinsKeep(db, subject, pinned);
    case ClaimPurge(cutoff) => PurgeKeepsClaims(db.claims, cutoff);
    case _ =>
  }

  /** A request stores exactly the readings it acknowledges. */
  lemma RequestKeeps(cfg: Config, db: Db, event: Event)
    requires DbInv(db) && RegistryRuns.ValidCatalog(cfg.catalog)
    ensures var (db', more) := Next(cfg, db, Call(event)); DbInv(db') && |db'.readings| == |db.readings| + more
  {
    if event.Submit? {
      ProcessKeeps(cfg, db, event.req, event.env, true);
      RefusedStoresNothing(cfg, db, event.req, event.env);
    } else if event.Validate? {
      ProcessKeeps(cfg, db, event.req, event.env, false);
      Delivery.ValidationPredicts(cfg, db, event.req, event.env);
    }
  }

  /** Any answer but Accepted leaves the tables as they were. */
  lemma RefusedStoresNothing(cfg: Config, db: Db, req: Request, env: Env)
    ensures var (db', reply) := Process(cfg, db, req, env, true);
            !(reply.Ack? && reply.status.Accepted?) ==> db' == db
  {
  }

  lemma NextKeeps(cfg: Config, db: Db, h: Happening)
    requires DbInv(db) && RegistryRuns.ValidCatalog(cfg.catalog)
    ensures var (db', more) := Next(cfg, db, h); DbInv(db') && |db'.readings| == |db.readings| + more
  {
    if h.Call? { RequestKeeps(cfg, db, h.event); } else { OthersKeep(cfg, db, h); }
  }

  lemma {:induction false} FoldKeeps(
    next: (Db, Happening) -> (Db, nat), db: Db, hs: seq<Happening>, acknowledged: nat)
    requires forall d: Db, h: Happening :: DbInv(d) ==>
               var (d', more) := next(d, h); DbInv(d') && |d'.readings| == |d.readings| + more
    requires DbInv(db) && |db.readings| == acknowledged
    ensures var (db', total) := Fold(next, db, hs, acknowledged); DbInv(db') && |db'.readings| == total
    decreases |hs|
  {
    if hs != [] {
      var (db', more) := next(db, hs[0]);
      FoldKeeps(next, db', hs[1..], acknowledged + more);
    }
  }

  /**
   From an empty database, over any run of requests, pipeline, registry, device, pin and admission
   changes and claim purges: series and publications stay numbered and linked, namespaces disjoint,
   pins within the reserve, claims unique and bounded, and the readings stored are exactly as many
   as the acknowledgements said.
   */
  lemma EveryRunKeeps(cfg: Config, epoch: nat, devices: seq<Device>, admits: bool, hs: seq<Happening>)
    requires RegistryRuns.ValidCatalog(cfg.catalog)
    ensures var (db, total) := Live(cfg, Fresh(epoch, devices, admits), hs); DbInv(db) && |db.readings| == total
  {
    forall d: Db, h: Happening | DbInv(d)
      ensures var (d', more) := Next(cfg, d, h); DbInv(d') && |d'.readings| == |d.readings| + more
    {
      NextKeeps(cfg, d, h);
    }
    FoldKeeps((d, h) => Next(cfg, d, h), Fresh(epoch, devices, admits), hs, 0);
  }
}
