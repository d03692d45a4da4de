/** The collector actor: it owns the cache, and runs each request in one transaction. */
module CollectorActor {
  import opened Types
  import opened Wire
  import opened Registry
  import opened Collector
  import Dedup
  import Staging
  import Engine

  method RecordReading(cfg: Config, env: Env, p: Principal, item: Item, i: nat, start: Db, series: nat, quarantined: bool)
    returns (db: Db)
    ensures db == Record(cfg, env, p, item, i, start, series, quarantined)
    ensures start.readings < db.readings && |db.readings| == |start.readings| + 1
    ensures quarantined ==> db == start.(readings := db.readings)
    ensures |db.publications| == |start.publications| + if !quarantined && start.admitsPublication then 1 else 0
  {
    db := start.(readings := start.readings + [NewReading(env, item, series, quarantined)]);
    if quarantined { return; }
    if p.source in cfg.adapters {
      var tables, outcomes := Engine.RunDeliver(db.tables, ReadingOf(cfg, env, p, item, i));
      db := db.(tables := tables);
    }
    if db.admitsPublication {
      db := db.(publications := db.publications + [Publication(db.epoch, |db.readings|, env.receivedAt)]);
    }
  }

  method RunStoreItem(cfg: Config, env: Env, p: Principal, item: Item, i: nat, w: Work, start: Cache, id: SystemId, state: DeviceState)
    returns (r: ItemResult, c: Cache)
    ensures (r, c) == CachedStoreItem(cfg, env, p, item, i, w, start, id, state)
  {
    c := start;
    var verdict := Evaluate(w.db.book, cfg.catalog, id, item);
    if verdict.Err? { return None, c; }
    var (book, v) := verdict.value;
    if v.RejectItem? { return Some((w.(db := w.db.(book := book)), ItemRejected(v.code))), c; }
    var sk := SeriesKeyOf(id, item, v.key, v.channel);
    var series: nat;
    if sk in c.series {
      series := c.series[sk];
    } else {
      var held := HeldReason(v.quarantine);
      var (book', created) := EnsureSeries(book, sk, held.Some?, held);
      book, series := book', created;
      c := c.(series := c.series[sk := series]);
    }
    var status := StatusOf(state, v.quarantine);
    var db := RecordReading(cfg, env, p, item, i, w.db.(book := book), series, status.disposition != Durable);
    return Some((w.(db := db), status)), c;
  }

  method RunItem(cfg: Config, env: Env, p: Principal, item: Item, i: nat, w: Work, start: Cache)
    returns (r: ItemResult, c: Cache)
    ensures (r, c) == CachedProcessItem(cfg, env, p, item, i, w, start)
  {
    c := start;
    var resolved: Option<(SystemId, DeviceState)>;
    if item.subjectHint.Some? {
      var hw := item.subjectHint.value;
      if hw in c.devices {
        resolved := Some(c.devices[hw]);
      } else {
        resolved := Alive(w.db.devices, hw);
        if resolved.Some? { c := c.(devices := c.devices[hw := resolved.value]); }
      }
    } else if p.scope.Restricted? && |p.scope.subjects| == 1 {
      resolved := Registered(w.db.devices, p.scope.subjects[0]);
    } else {
      return Some((w, ItemRejected(UnknownSubject))), c;
    }
    match Screen(cfg, env, p, item, resolved)
    case Settled(status) => r := Some((w, status));
    case Unknown(hardware) => r := Some((StageLater(w, hardware, item), Stored(Staged, None)));
    case Proceed(id, state) => r, c := RunStoreItem(cfg, env, p, item, i, w, c, id, state);
  }

  /** Items in order; storage may fail before any of them. */
  method RunItems(cfg: Config, env: Env, req: Request, db: Db, start: Cache)
    returns (r: Option<(Work, seq<ItemStatus>)>, c: Cache)
    ensures env.fault.None? ==> (r, c) == CachedProcessItems(cfg, env, req, 0, Work(db, []), start, [])
  {
    c := start;
    var w, statuses := Work(db, []), [];
    var items := req.envelope.items;
    for i := 0 to |items|
      invariant env.fault.None? ==>
        CachedProcessItems(cfg, env, req, i, w, c, statuses) == CachedProcessItems(cfg, env, req, 0, Work(db, []), start, [])
    {
      if env.fault == Some(i) { return None, c; }
      var result, c' := RunItem(cfg, env, req.principal, items[i], i, w, c);
      c := c';
      if result.None? { return None, c; }
      w := result.value.0;
      statuses := statuses + [result.value.1];
    }
    return Some((w, statuses)), c;
  }

  method RecordSightings(start: map<string, string>, ss: seq<Staging.Sighting>, principal: string)
    returns (sightings: map<string, string>)
    ensures sightings == Sighted(start, ss, principal)
  {
    sightings := start;
    for i := 0 to |ss|
      invariant Sighted(sightings, ss[i..], principal) == Sighted(start, ss, principal)
    {
      assert ss[i..][1..] == ss[i + 1..];
      sightings := sightings[ss[i].hardware := principal];
    }
  }

  method StagePending(w: Work, principal: string, receivedAt: int) returns (r: Option<Db>)
    ensures r == StageAll(w, principal, receivedAt)
  {
    if w.sightings == [] { return Some(w.db); }
    var staged := Staging.RunStage(w.db.staging, principal, receivedAt, w.sightings, STAGING_LIMITS);
    if staged.Err? { return None; }
    var store := staged.value.0;
    var sightings := RecordSightings(store.sightings, w.sightings, principal);
    return Some(w.db.(staging := store.(sightings := sightings)));
  }

  class Actor {
    const cfg: Config
    var db: Db
    var cache: Cache

    constructor (cfg: Config, db: Db)
      ensures this.cfg == cfg && this.db == db && cache == EMPTY_CACHE
    {
      this.cfg, this.db, cache := cfg, db, EMPTY_CACHE;
    }

    /** The transaction after the claim, on its own copies of the tables and the cache. */
    method Transact(claimed: Db, req: Request, env: Env, start: Cache)
      returns (r: Option<(Db, seq<ItemStatus>)>, c: Cache)
      ensures (r, c) == CachedTransact(cfg, claimed, req, env, start)
    {
      var items, c' := RunItems(cfg, env, req, claimed, start);
      if items.None? { return None, EMPTY_CACHE; }
      var (w, statuses) := items.value;
      var staged := StagePending(w, req.principal.id, env.receivedAt);
      if staged.None? || env.fault.Some? { return None, EMPTY_CACHE; }
      return Some((staged.value, statuses)), c';
    }

    method Handle(req: Request, env: Env, commit: bool) returns (reply: Reply)
      modifies this
      ensures (db, cache, reply) == CachedProcess(cfg, old(db), old(cache), req, env, commit)
    {
      var early := Preflight(req, env);
      if early.Some? { return early.value; }
      if db.generation != cache.generation {
        cache := Cache(map[], map[], db.generation);
      }
      var claimed := db;
      if commit {
        var first, claims := Dedup.TryClaim(db.claims, req.principal.id, req.envelope.id, env.receivedAt, DEDUP_LIMITS);
        if !first { return Ack(Duplicate); }
        claimed := db.(claims := claims);
      }
      var result, c := Transact(claimed, req, env, cache);
      cache := c;
      if result.None? { return NoAck; }
      if commit {
        db := result.value.0;
      } else {
        cache := c.(devices := map[], series := map[]);
      }
      return Ack(Accepted(result.value.1));
    }

    /** Storage could not be reached at all: the cache, taken for the call, is lost with it. */
    method Unreachable() returns (reply: Reply)
      modifies this
      ensures db == old(db) && cache == EMPTY_CACHE && reply == NoAck
    {
      cache := EMPTY_CACHE;
      return NoAck;
    }
  }
}
