/**
 The collector: one transaction per envelope, with a cache of resolved devices and series that is
 trusted only while the ledger generation it was filled under is still current.
 */
module Collector {
  import opened Types
  import opened Wire
  import opened Registry
  import Dedup
  import Staging
  import Engine

  // ---------------------------------------------------------------------------
  // State
  // ---------------------------------------------------------------------------

  datatype DeviceState = ActiveDevice | QuarantinedDevice | RetiredDevice

  datatype Device = Device(id: SystemId, hardware: string, state: DeviceState)

  datatype ReadingRow = ReadingRow(
    series: nat, receivedAt: int, deviceTime: Option<int>, timeSource: TimeSource, eventTime: int,
    values: seq<Float>, quarantined: bool)

  /** A measurement publication: ledger epoch, reading number, time. */
  datatype Publication = Publication(epoch: nat, reading: nat, at: int)

  /** `readings` is append-only here; the reading at index i has number i + 1. */
  datatype Db = Db(
    devices: seq<Device>, generation: nat, epoch: nat, book: Book, readings: seq<ReadingRow>,
    tables: Engine.Tables, publications: seq<Publication>, admitsPublication: bool,
    claims: Dedup.Claims, staging: Staging.Store)

  datatype Cache = Cache(devices: map<string, (SystemId, DeviceState)>, series: map<SeriesKey, nat>, generation: nat)

  const EMPTY_CACHE := Cache(map[], map[], 0)

  datatype ActorKind = OfficialAdapter | DeviceToken

  /** `Restricted` lists each authorised subject once. */
  datatype SubjectScope = OfficialDiscovery | Restricted(subjects: seq<SystemId>)

  datatype Principal = Principal(id: string, source: string, scope: SubjectScope, kind: ActorKind)

  datatype Request = Request(principal: Principal, envelope: Envelope)

  datatype Config = Config(catalog: Catalog, adapters: map<string, string>, maxAge: int, maxFutureSkew: int)

  /**
   What one transaction meets outside the tables: whether the proof is still current, the clock,
   the monotonic time at each delivery, and whether storage fails before the given item or, past
   the items, at the commit.
   */
  datatype Env = Env(
    authCurrent: bool, receivedAt: int, trusted: Option<int>, uptimes: seq<int>, fault: Option<nat>)

  datatype Reply = Ack(status: AckStatus) | NoAck | ClockUntrusted | AuthenticationStale

  const MAX_ITEMS := 256
  const FUTURE_TOLERANCE := 300_000
  const MAX_I64: int := 0x7fff_ffff_ffff_ffff
  const DEDUP_LIMITS := Dedup.Limits(100_000, 10_000, 259_200_000)
  const STAGING_LIMITS := Staging.Limits(10_000, 1_000, 67_108_864, 8_388_608, 2_592_000_000, 256, 65_536)

  // ---------------------------------------------------------------------------
  // Lookups
  // ---------------------------------------------------------------------------

  /** The live device with this hardware id, and its state. */
  function Alive(devices: seq<Device>, hardware: string): Option<(SystemId, DeviceState)> {
    if devices == [] then None
    else if devices[0].hardware == hardware && devices[0].state != RetiredDevice
    then Some((devices[0].id, devices[0].state))
    else Alive(devices[1..], hardware)
  }

  function Registered(devices: seq<Device>, id: SystemId): Option<(SystemId, DeviceState)> {
    if devices == [] then None
    else if devices[0].id == id then
      (if devices[0].state != RetiredDevice then Some((id, devices[0].state)) else None)
    else Registered(devices[1..], id)
  }

  function CachedAlive(c: Cache, devices: seq<Device>, hardware: string): (Option<(SystemId, DeviceState)>, Cache) {
    if hardware in c.devices then (Some(c.devices[hardware]), c)
    else
      var found := Alive(devices, hardware);
      (found, if found.Some? then c.(devices := c.devices[hardware := found.value]) else c)
  }

  function CachedSeries(c: Cache, b: Book, sk: SeriesKey, quarantined: bool, reason: Option<QuarantineReason>)
    : (Book, nat, Cache)
  {
    if sk in c.series then (b, c.series[sk], c)
    else
      var (b', id) := EnsureSeries(b, sk, quarantined, reason);
      (b', id, c.(series := c.series[sk := id]))
  }

  // ---------------------------------------------------------------------------
  // Screening an item
  // ---------------------------------------------------------------------------

  predicate RequiresAbsoluteTime(item: Item) {
    item.deviceTime.Some? && item.timeSource != EdgeNode
  }

  predicate Stale(item: Item, env: Env, cfg: Config) {
    || (item.deviceTime.None? && item.age.Some? && item.age.value > cfg.maxAge)
    || (RequiresAbsoluteTime(item) && env.trusted.Some?
        && (item.deviceTime.value < env.trusted.value - cfg.maxAge
            || item.deviceTime.value > env.trusted.value + cfg.maxFutureSkew))
  }

  predicate SubjectAllowed(p: Principal, id: SystemId) {
    p.scope.OfficialDiscovery? || id in p.scope.subjects
  }

  predicate NeedsHint(p: Principal, item: Item) {
    item.subjectHint.None? && !(p.scope.Restricted? && |p.scope.subjects| == 1)
  }

  /** A verdict reached before the registry is asked, or the subject to go on with. */
  datatype Screened = Settled(status: ItemStatus) | Unknown(hardware: string) | Proceed(id: SystemId, state: DeviceState)

  function Screen(cfg: Config, env: Env, p: Principal, item: Item, resolved: Option<(SystemId, DeviceState)>): Screened {
    if resolved.Some? && !SubjectAllowed(p, resolved.value.0) then Settled(ItemRejected(SubjectScopeViolation))
    else if !ValidKey(item.key) then Settled(ItemRejected(MalformedMeasurementKey))
    else if exists i :: 0 <= i < |item.values| && !item.values[i].Finite? then Settled(ItemRejected(ValueTypeMismatch))
    else if Stale(item, env, cfg) then Settled(ItemRejected(StaleTimestamp))
    else if resolved.Some? then Proceed(resolved.value.0, resolved.value.1)
    else if item.subjectHint.None? || !(p.scope.OfficialDiscovery? && p.kind == OfficialAdapter)
    then Settled(ItemRejected(UnknownSubject))
    else Unknown(item.subjectHint.value)
  }

  // ---------------------------------------------------------------------------
  // Storing an item
  // ---------------------------------------------------------------------------

  /** A declared device time wins; otherwise an age is turned into a time, if that is representable. */
  function RestoreDeviceTime(receivedAt: int, item: Item): (Option<int>, TimeSource) {
    if item.deviceTime.Some? then (item.deviceTime, item.timeSource)
    else if item.age.Some? && item.age.value <= MAX_I64 && receivedAt - item.age.value >= -MAX_I64 - 1
    then (Some(receivedAt - item.age.value), EdgeNodeAdjusted)
    else (None, item.timeSource)
  }

  function EventTime(receivedAt: int, deviceTime: Option<int>, timeSource: TimeSource): int {
    if timeSource != EdgeNode && deviceTime.Some? && deviceTime.value <= receivedAt + FUTURE_TOLERANCE
    then deviceTime.value else receivedAt
  }

  function Uptime(env: Env, i: nat): int {
    if i < |env.uptimes| then env.uptimes[i] else 0
  }

  function ReadingOf(cfg: Config, env: Env, p: Principal, item: Item, i: nat): Engine.Reading
    requires p.source in cfg.adapters
  {
    Engine.Reading(cfg.adapters[p.source], item.subjectHint, item.key, item.channel, item.values,
                   Engine.InputTime(Uptime(env, i), env.trusted))
  }

  function NewReading(env: Env, item: Item, series: nat, quarantined: bool): ReadingRow {
    var (deviceTime, timeSource) := RestoreDeviceTime(env.receivedAt, item);
    ReadingRow(series, env.receivedAt, deviceTime, timeSource, EventTime(env.receivedAt, deviceTime, timeSource),
               item.values, quarantined)
  }

  /** The reading row, then pipeline delivery, then its publication; quarantined rows stop at the first. */
  ghost function Record(cfg: Config, env: Env, p: Principal, item: Item, i: nat, db: Db, series: nat, quarantined: bool): Db {
    var db1 := db.(readings := db.readings + [NewReading(env, item, series, quarantined)]);
    if quarantined then db1
    else
      var db2 := if p.source in cfg.adapters
                 then db1.(tables := Engine.Deliver(db1.tables, ReadingOf(cfg, env, p, item, i)).0) else db1;
      if db2.admitsPublication
      then db2.(publications := db2.publications + [Publication(db2.epoch, |db2.readings|, env.receivedAt)])
      else db2
  }

  function StatusOf(state: DeviceState, quarantine: Option<QuarantineReason>): ItemStatus {
    if quarantine.Some? then Stored(Quarantined, quarantine)
    else if state == QuarantinedDevice then Stored(Quarantined, Some(DeviceQuarantined))
    else Stored(Durable, None)
  }

  function HeldReason(quarantine: Option<QuarantineReason>): Option<QuarantineReason> {
    if quarantine.Some? && SeriesLevel(quarantine.value) then quarantine else None
  }

  // ---------------------------------------------------------------------------
  // One item, with and without the cache
  // ---------------------------------------------------------------------------

  /** The transaction so far: tables, and sightings to be staged at the end. */
  datatype Work = Work(db: Db, sightings: seq<Staging.Sighting>)

  /** `None` stands for a storage error, which aborts the envelope. */
  type ItemResult = Option<(Work, ItemStatus)>

  function Resolved(db: Db, p: Principal, item: Item): Option<(SystemId, DeviceState)>
    requires !NeedsHint(p, item)
  {
    if item.subjectHint.Some? then Alive(db.devices, item.subjectHint.value)
    else Registered(db.devices, p.scope.subjects[0])
  }

  function CachedResolved(c: Cache, db: Db, p: Principal, item: Item): (Option<(SystemId, DeviceState)>, Cache)
    requires !NeedsHint(p, item)
  {
    if item.subjectHint.Some? then CachedAlive(c, db.devices, item.subjectHint.value)
    else (Registered(db.devices, p.scope.subjects[0]), c)
  }

  function StageLater(w: Work, hardware: string, item: Item): Work {
    w.(sightings := w.sightings + [Staging.Sighting(hardware, item.json)])
  }

  function SeriesKeyOf(id: SystemId, item: Item, key: string, channel: int): SeriesKey {
    SeriesKey(id, key, channel, Variant(item))
  }

  ghost function StoreItem(cfg: Config, env: Env, p: Principal, item: Item, i: nat, w: Work, id: SystemId, state: DeviceState)
    : ItemResult
  {
    match Evaluate(w.db.book, cfg.catalog, id, item)
    case Err(_) => None
    case Ok((b, RejectItem(code))) => Some((w.(db := w.db.(book := b)), ItemRejected(code)))
    case Ok((b, Accept(key, channel, quarantine))) =>
      var held := HeldReason(quarantine);
      var (b', series) := EnsureSeries(b, SeriesKeyOf(id, item, key, channel), held.Some?, held);
      var status := StatusOf(state, quarantine);
      Some((w.(db := Record(cfg, env, p, item, i, w.db.(book := b'), series, status.disposition != Durable)), status))
  }

  ghost function ProcessItem(cfg: Config, env: Env, p: Principal, item: Item, i: nat, w: Work): ItemResult {
    if NeedsHint(p, item) then Some((w, ItemRejected(UnknownSubject)))
    else
      match Screen(cfg, env, p, item, Resolved(w.db, p, item))
      case Settled(status) => Some((w, status))
      case Unknown(hardware) => Some((StageLater(w, hardware, item), Stored(Staged, None)))
      case Proceed(id, state) => StoreItem(cfg, env, p, item, i, w, id, state)
  }

  ghost function CachedStoreItem(
    cfg: Config, env: Env, p: Principal, item: Item, i: nat, w: Work, c: Cache, id: SystemId, state: DeviceState)
    : (ItemResult, Cache)
  {
    match Evaluate(w.db.book, cfg.catalog, id, item)
    case Err(_) => (None, c)
    case Ok((b, RejectItem(code))) => (Some((w.(db := w.db.(book := b)), ItemRejected(code))), c)
    case Ok((b, Accept(key, channel, quarantine))) =>
      var held := HeldReason(quarantine);
      var (b', series, c') := CachedSeries(c, b, SeriesKeyOf(id, item, key, channel), held.Some?, held);
      var status := StatusOf(state, quarantine);
      (Some((w.(db := Record(cfg, env, p, item, i, w.db.(book := b'), series, status.disposition != Durable)), status)), c')
  }

  ghost function CachedProcessItem(cfg: Config, env: Env, p: Principal, item: Item, i: nat, w: Work, c: Cache)
    : (ItemResult, Cache)
  {
    if NeedsHint(p, item) then (Some((w, ItemRejected(UnknownSubject))), c)
    else
      var (resolved, c1) := CachedResolved(c, w.db, p, item);
      match Screen(cfg, env, p, item, resolved)
      case Settled(status) => (Some((w, status)), c1)
      case Unknown(hardware) => (Some((StageLater(w, hardware, item), Stored(Staged, None))), c1)
      case Proceed(id, state) => CachedStoreItem(cfg, env, p, item, i, w, c1, id, state)
  }

  // ---------------------------------------------------------------------------
  // All items
  // ---------------------------------------------------------------------------

  ghost function ProcessItems(cfg: Config, env: Env, req: Request, i: nat, w: Work, statuses: seq<ItemStatus>)
    : Option<(Work, seq<ItemStatus>)>
    requires i <= |req.envelope.items|
    decreases |req.envelope.items| - i
  {
    if i == |req.envelope.items| then Some((w, statuses))
    else
      match ProcessItem(cfg, env, req.principal, req.envelope.items[i], i, w)
      case None => None
      case Some((w', status)) => ProcessItems(cfg, env, req, i + 1, w', statuses + [status])
  }

  ghost function CachedProcessItems(
    cfg: Config, env: Env, req: Request, i: nat, w: Work, c: Cache, statuses: seq<ItemStatus>)
    : (Option<(Work, seq<ItemStatus>)>, Cache)
    requires i <= |req.envelope.items|
    decreases |req.envelope.items| - i
  {
    if i == |req.envelope.items| then (Some((w, statuses)), c)
    else
      match CachedProcessItem(cfg, env, req.principal, req.envelope.items[i], i, w, c)
      case (None, c') => (None, c')
      case (Some((w', status)), c') => CachedProcessItems(cfg, env, req, i + 1, w', c', statuses + [status])
  }

  function Sighted(sightings: map<string, string>, ss: seq<Staging.Sighting>, principal: string): map<string, string>
    decreases |ss|
  {
    if ss == [] then sightings else Sighted(sightings[ss[0].hardware := principal], ss[1..], principal)
  }

  /** Stages the unknown subjects of the envelope and records their sightings. */
  function StageAll(w: Work, principal: string, receivedAt: int): Option<Db> {
    if w.sightings == [] then Some(w.db)
    else
      match Staging.Stage(w.db.staging, principal, receivedAt, w.sightings, STAGING_LIMITS)
      case Err(_) => None
      case Ok((st, _)) =>
        Some(w.db.(staging := st.(sightings := Sighted(st.sightings, w.sightings, principal))))
  }

  // ---------------------------------------------------------------------------
  // One envelope, with and without the cache
  // ---------------------------------------------------------------------------

  /** An answer that needs neither the ledger nor the claim table. */
  function Preflight(req: Request, env: Env): Option<Reply> {
    if req.principal.kind == DeviceToken && !env.authCurrent then Some(AuthenticationStale)
    else if req.envelope.source != req.principal.source then Some(Ack(Rejected(SubjectScopeViolation)))
    else if |req.envelope.items| > MAX_ITEMS then Some(Ack(Rejected(BatchTooLarge)))
    else if env.trusted.None?
            && exists i :: 0 <= i < |req.envelope.items| && RequiresAbsoluteTime(req.envelope.items[i])
    then Some(ClockUntrusted)
    else None
  }

  function Claimed(db: Db, req: Request, env: Env): (bool, Db) {
    var (first, claims) :=
      Dedup.Claimed(db.claims, req.principal.id, req.envelope.id, env.receivedAt, DEDUP_LIMITS);
    (first, db.(claims := claims))
  }

  /** The transaction after the claim: `None` if it is aborted. */
  ghost function Transact(cfg: Config, db: Db, req: Request, env: Env): Option<(Db, seq<ItemStatus>)> {
    if env.fault.Some? then None
    else
      match ProcessItems(cfg, env, req, 0, Work(db, []), [])
      case None => None
      case Some((w, statuses)) =>
        match StageAll(w, req.principal.id, env.receivedAt)
        case None => None
        case Some(db') => Some((db', statuses))
  }

  /** The reference collector, which looks everything up in the database. */
  ghost function Process(cfg: Config, db: Db, req: Request, env: Env, commit: bool): (Db, Reply) {
    if Preflight(req, env).Some? then (db, Preflight(req, env).value)
    else
      var (first, db1) := if commit then Claimed(db, req, env) else (true, db);
      if !first then (db, Ack(Duplicate))
      else
        match Transact(cfg, db1, req, env)
        case None => (db, NoAck)
        case Some((db', statuses)) => (if commit then db' else db, Ack(Accepted(statuses)))
  }

  function Refreshed(c: Cache, generation: nat): Cache {
    if c.generation == generation then c else Cache(map[], map[], generation)
  }

  ghost function CachedTransact(cfg: Config, db: Db, req: Request, env: Env, c: Cache): (Option<(Db, seq<ItemStatus>)>, Cache) {
    if env.fault.Some? then (None, EMPTY_CACHE)
    else
      match CachedProcessItems(cfg, env, req, 0, Work(db, []), c, [])
      case (None, _) => (None, EMPTY_CACHE)
      case (Some((w, statuses)), c') =>
        match StageAll(w, req.principal.id, env.receivedAt)
        case None => (None, EMPTY_CACHE)
        case Some(db') => (Some((db', statuses)), c')
  }

  /** The collector as it is: the cache survives a commit, is emptied by a rollback and dropped by an error. */
  ghost function CachedProcess(cfg: Config, db: Db, c: Cache, req: Request, env: Env, commit: bool): (Db, Cache, Reply) {
    if Preflight(req, env).Some? then (db, c, Preflight(req, env).value)
    else
      var c1 := Refreshed(c, db.generation);
      var (first, db1) := if commit then Claimed(db, req, env) else (true, db);
      if !first then (db, c1, Ack(Duplicate))
      else
        match CachedTransact(cfg, db1, req, env, c1)
        case (None, c2) => (db, c2, NoAck)
        case (Some((db', statuses)), c2) =>
          if commit then (db', c2, Ack(Accepted(statuses)))
          else (db, c2.(devices := map[], series := map[]), Ack(Accepted(statuses)))
  }
}
