/**
 What the collector's answers mean, on the fields of the request and of the tables: which device an
 item belongs to, why it is refused, staged, quarantined or stored, and what a stored item becomes.
 */
module CollectorAnswers {
  import opened Types
  import opened Wire
  import opened Registry
  import opened Collector
  import CollectorInvariants
  import Dedup
  import Staging
  import Engine
  import EngineRuns
  import RegistryRuns

  // ---------------------------------------------------------------------------
  // Whose item it is
  // ---------------------------------------------------------------------------

  predicate LiveAs(d: Device, hardware: string) {
    d.hardware == hardware && d.state != RetiredDevice
  }

  /** The first live device with the hardware id, if there is one. */
  lemma {:induction false} AliveExact(devices: seq<Device>, hardware: string)
    ensures Alive(devices, hardware).None? <==> forall i | 0 <= i < |devices| :: !LiveAs(devices[i], hardware)
    ensures Alive(devices, hardware).Some? ==>
              exists i :: 0 <= i < |devices| && LiveAs(devices[i], hardware)
                          && Alive(devices, hardware).value == (devices[i].id, devices[i].state)
                          && forall j | 0 <= j < i :: !LiveAs(devices[j], hardware)
  {
    if devices != [] && !LiveAs(devices[0], hardware) {
      var rest := devices[1..];
      AliveExact(rest, hardware);
      assert forall i | 0 < i < |devices| :: devices[i] == rest[i - 1];
      if Alive(rest, hardware).Some? {
        var i :| 0 <= i < |rest| && LiveAs(rest[i], hardware)
                 && Alive(rest, hardware).value == (rest[i].id, rest[i].state)
                 && forall j | 0 <= j < i :: !LiveAs(rest[j], hardware);
        assert devices[i + 1] == rest[i];
      }
    }
  }

  /** The device with the id, unless it is retired. */
  lemma {:induction false} RegisteredExact(devices: seq<Device>, id: SystemId)
    ensures Registered(devices, id).Some? ==>
              exists i :: 0 <= i < |devices| && devices[i].id == id && devices[i].state != RetiredDevice
                          && Registered(devices, id).value == (id, devices[i].state)
                          && forall j | 0 <= j < i :: devices[j].id != id
    ensures Registered(devices, id).None? ==>
              forall i | 0 <= i < |devices| && devices[i].id == id && (forall j | 0 <= j < i :: devices[j].id != id) ::
                devices[i].state == RetiredDevice
  {
    if devices != [] && devices[0].id != id {
      var rest := devices[1..];
      RegisteredExact(rest, id);
      assert forall i | 0 < i < |devices| :: devices[i] == rest[i - 1];
      if Registered(rest, id).Some? {
        var i :| 0 <= i < |rest| && rest[i].id == id && rest[i].state != RetiredDevice
                 && Registered(rest, id).value == (id, rest[i].state)
                 && forall j | 0 <= j < i :: rest[j].id != id;
        assert devices[i + 1] == rest[i];
      } else {
        forall i | 0 <= i < |devices| && devices[i].id == id && (forall j | 0 <= j < i :: devices[j].id != id)
          ensures devices[i].state == RetiredDevice
        {
          assert devices[i] == rest[i - 1];
          forall j | 0 <= j < i - 1 ensures rest[j].id != id { assert rest[j] == devices[j + 1]; }
        }
      }
    }
  }

  // ---------------------------------------------------------------------------
  // Answers to a whole envelope
  // ---------------------------------------------------------------------------

  /** The item states a device time that only a trusted clock can judge. */
  predicate Dated(item: Item) {
    item.deviceTime.Some? && item.timeSource != EdgeNode
  }

  /**
   The envelope is refused as a whole, and leaves no trace, for these reasons in this order: a
   token that is no longer current, a foreign source, too many items, or a device time that no
   trusted clock can judge.
   */
  lemma RefusalsExact(cfg: Config, db: Db, req: Request, env: Env, commit: bool)
    ensures var (db', reply) := Process(cfg, db, req, env, commit);
            var stale := req.principal.kind == DeviceToken && !env.authCurrent;
            var foreign := req.envelope.source != req.principal.source;
            var large := |req.envelope.items| > 256;
            var untimed := env.trusted.None?
                           && exists i :: 0 <= i < |req.envelope.items| && Dated(req.envelope.items[i]);
            && (reply == AuthenticationStale <==> stale)
            && (reply == Ack(Rejected(SubjectScopeViolation)) <==> !stale && foreign)
            && (reply == Ack(Rejected(BatchTooLarge)) <==> !stale && !foreign && large)
            && (reply == ClockUntrusted <==> !stale && !foreign && !large && untimed)
            && (stale || foreign || large || untimed ==> db' == db)
            && (reply.Ack? && reply.status.Rejected? ==>
                  reply.status.code == SubjectScopeViolation || reply.status.code == BatchTooLarge)
            && reply != Ack(Deferred)
  {
    assert forall i | 0 <= i < |req.envelope.items| :: RequiresAbsoluteTime(req.envelope.items[i]) == Dated(req.envelope.items[i]);
  }

  /** An envelope that passes is acknowledged unless storage fails or its unknown subjects cannot be staged. */
  lemma NoAckExact(cfg: Config, db: Db, req: Request, env: Env)
    requires CollectorInvariants.DbInv(db) && RegistryRuns.ValidCatalog(cfg.catalog) && Preflight(req, env).None?
    requires Claimed(db, req, env).0
    ensures var db1 := Claimed(db, req, env).1;
            var items := ProcessItems(cfg, env, req, 0, Work(db1, []), []);
            && items.Some?
            && (Process(cfg, db, req, env, true).1 == NoAck
                <==> env.fault.Some?
                     || (items.value.0.sightings != []
                         && Staging.Stage(items.value.0.db.staging, req.principal.id, env.receivedAt,
                                          items.value.0.sightings, STAGING_LIMITS).Err?))
  {
    CollectorInvariants.ItemsKeep(cfg, env, req, 0, Work(Claimed(db, req, env).1, []), []);
  }

  // ---------------------------------------------------------------------------
  // Answers to one item
  // ---------------------------------------------------------------------------

  predicate AllFinite(values: seq<Float>) {
    forall i | 0 <= i < |values| :: values[i].Finite?
  }

  /** Older than allowed by its own age, or by its device time against the trusted clock, or too far ahead. */
  predicate Lapsed(cfg: Config, env: Env, item: Item) {
    || (item.deviceTime.None? && item.age.Some? && item.age.value > cfg.maxAge)
    || (Dated(item) && env.trusted.Some? && item.deviceTime.value < env.trusted.value - cfg.maxAge)
    || (Dated(item) && env.trusted.Some? && item.deviceTime.value > env.trusted.value + cfg.maxFutureSkew)
  }

  /** Fit to be looked at further: known key grammar, finite values, fresh enough. */
  predicate WellFormed(cfg: Config, env: Env, item: Item) {
    ValidKey(item.key) && AllFinite(item.values) && !Lapsed(cfg, env, item)
  }

  /** The subject is not one the principal may speak for. */
  predicate Forbidden(p: Principal, resolved: Option<(SystemId, DeviceState)>) {
    resolved.Some? && p.scope.Restricted? && resolved.value.0 !in p.scope.subjects
  }

  /** Official adapters that discover may report hardware no live device has. */
  predicate MayStage(p: Principal, item: Item, resolved: Option<(SystemId, DeviceState)>) {
    resolved.None? && item.subjectHint.Some? && p.scope.OfficialDiscovery? && p.kind == OfficialAdapter
  }

  /**
   Each status with its reason, in the order of the checks: a forbidden subject whatever else is
   wrong, a malformed key, a value that is no number, a lapsed time, an unknown subject; what a
   discovering adapter reports of unknown hardware is staged as it is, and only what is left asks
   the registry.
   */
  lemma StatusMeans(cfg: Config, env: Env, p: Principal, item: Item, i: nat, w: Work)
    requires !NeedsHint(p, item) && ProcessItem(cfg, env, p, item, i, w).Some?
    ensures var (w', status) := ProcessItem(cfg, env, p, item, i, w).value;
            var resolved := Resolved(w.db, p, item);
            && (status == ItemRejected(SubjectScopeViolation) <==> Forbidden(p, resolved))
            && (status == ItemRejected(MalformedMeasurementKey) <==> !Forbidden(p, resolved) && !ValidKey(item.key))
            && (!Forbidden(p, resolved) && ValidKey(item.key) && !AllFinite(item.values) ==>
                  status == ItemRejected(ValueTypeMismatch))
            && (status == ItemRejected(StaleTimestamp)
                <==> !Forbidden(p, resolved) && ValidKey(item.key) && AllFinite(item.values) && Lapsed(cfg, env, item))
            && (status == ItemRejected(UnknownSubject)
                <==> resolved.None? && WellFormed(cfg, env, item) && !MayStage(p, item, resolved))
            && (status == Stored(Staged, None) <==> WellFormed(cfg, env, item) && MayStage(p, item, resolved))
            && (status == Stored(Staged, None) ==>
                  w' == w.(sightings := w.sightings + [Staging.Sighting(item.subjectHint.value, item.json)]))
            && (status.Stored? ==> status.disposition == Staged
                                   || (resolved.Some? && !Forbidden(p, resolved) && WellFormed(cfg, env, item)))
            && (resolved.Some? && !Forbidden(p, resolved) && WellFormed(cfg, env, item) ==>
                  Some((w', status)) == StoreItem(cfg, env, p, item, i, w, resolved.value.0, resolved.value.1))
            && (resolved.None? || Forbidden(p, resolved) || !WellFormed(cfg, env, item) ==> w'.db == w.db)
  {
    assert AllFinite(item.values) <==> !exists k :: 0 <= k < |item.values| && !item.values[k].Finite?;
    StoreStatus(cfg, env, p, item, i, w);
  }

  /** The registry and the device state never give one of the screening answers. */
  lemma StoreStatus(cfg: Config, env: Env, p: Principal, item: Item, i: nat, w: Work)
    ensures forall id, state | StoreItem(cfg, env, p, item, i, w, id, state).Some? ::
              var status := StoreItem(cfg, env, p, item, i, w, id, state).value.1;
              (status.ItemRejected? ==> status.code == ValueTypeMismatch) && (status.Stored? ==> status.disposition != Staged)
  {
  }

  /** An item without a hint belongs to the one subject of its principal; if there is not exactly one, it is unknown. */
  lemma HintExact(cfg: Config, env: Env, p: Principal, item: Item, i: nat, w: Work)
    ensures NeedsHint(p, item) <==> item.subjectHint.None? && (p.scope.OfficialDiscovery? || |p.scope.subjects| != 1)
    ensures NeedsHint(p, item) ==> ProcessItem(cfg, env, p, item, i, w) == Some((w, ItemRejected(UnknownSubject)))
    ensures !NeedsHint(p, item) ==>
              Resolved(w.db, p, item) == if item.subjectHint.Some? then Alive(w.db.devices, item.subjectHint.value)
                                         else Registered(w.db.devices, p.scope.subjects[0])
  {
  }

  /** A stored item is quarantined for the registry's reason, else for its device's, else durable. */
  lemma StoredExact(cfg: Config, env: Env, p: Principal, item: Item, i: nat, w: Work, id: SystemId, state: DeviceState)
    requires Evaluate(w.db.book, cfg.catalog, id, item).Ok?
    ensures StoreItem(cfg, env, p, item, i, w, id, state).Some?
    ensures var status := StoreItem(cfg, env, p, item, i, w, id, state).value.1;
            var v := Evaluate(w.db.book, cfg.catalog, id, item).value.1;
            && (v.RejectItem? ==> status == ItemRejected(v.code))
            && (v.Accept? && v.quarantine.Some? ==> status == Stored(Quarantined, v.quarantine))
            && (v.Accept? && v.quarantine.None? ==>
                  && (status == Stored(Quarantined, Some(DeviceQuarantined)) <==> state == QuarantinedDevice)
                  && (status == Stored(Durable, None) <==> state != QuarantinedDevice))
  {
  }

  // ---------------------------------------------------------------------------
  // What a stored item becomes
  // ---------------------------------------------------------------------------

  /** The largest 64-bit integer. */
  const MOST: int := 9_223_372_036_854_775_807

  /** A stated device time is kept; an age counts back from the receive time, if that can be written down. */
  predicate TimedAs(row: ReadingRow, env: Env, item: Item) {
    && row.receivedAt == env.receivedAt
    && (if item.deviceTime.Some? then row.deviceTime == item.deviceTime && row.timeSource == item.timeSource
        else if item.age.Some? && item.age.value <= MOST && env.receivedAt - item.age.value >= -MOST - 1
        then row.deviceTime == Some(env.receivedAt - item.age.value) && row.timeSource == EdgeNodeAdjusted
        else row.deviceTime == None && row.timeSource == item.timeSource)
    && (if row.deviceTime.Some? && row.timeSource != EdgeNode && row.deviceTime.value <= env.receivedAt + 300_000
        then row.eventTime == row.deviceTime.value else row.eventTime == env.receivedAt)
  }

  /** The reading handed to the pipelines is the item, under the adapter's configured name. */
  predicate DeliveredAs(r: Engine.Reading, cfg: Config, env: Env, p: Principal, item: Item, i: nat) {
    && p.source in cfg.adapters && r.adapter == cfg.adapters[p.source]
    && r.subject == item.subjectHint && r.measurementKey == item.key && r.channel == item.channel
    && r.values == item.values && r.receivedAt.epoch == env.trusted
    && (i < |env.uptimes| ==> r.receivedAt.uptime == env.uptimes[i])
  }

  /** What recording an item changes, table by table. */
  ghost predicate Recorded(
    cfg: Config, env: Env, p: Principal, item: Item, i: nat, db: Db, db': Db, series: nat, quarantined: bool)
  {
    && db'.readings != [] && db'.readings[..|db'.readings| - 1] == db.readings
    && (var row := db'.readings[|db'.readings| - 1];
        row.series == series && row.values == item.values && row.quarantined == quarantined && TimedAs(row, env, item))
    && (!quarantined && p.source in cfg.adapters ==>
          exists r :: DeliveredAs(r, cfg, env, p, item, i)
                      && db'.tables == EngineRuns.Apply(db.tables, EngineRuns.DeliverOp(r)))
    && (quarantined || p.source !in cfg.adapters ==> db'.tables == db.tables)
    && db'.publications
       == db.publications + (if !quarantined && db.admitsPublication
                             then [Publication(db.epoch, |db'.readings|, env.receivedAt)] else [])
    && db' == db.(readings := db'.readings, tables := db'.tables, publications := db'.publications)
  }

  lemma RecordExact(cfg: Config, env: Env, p: Principal, item: Item, i: nat, db: Db, series: nat, quarantined: bool)
    ensures Recorded(cfg, env, p, item, i, db, Record(cfg, env, p, item, i, db, series, quarantined), series, quarantined)
  {
    var db' := Record(cfg, env, p, item, i, db, series, quarantined);
    assert db'.readings == db.readings + [NewReading(env, item, series, quarantined)];
    if !quarantined && p.source in cfg.adapters {
      var r := ReadingOf(cfg, env, p, item, i);
      assert DeliveredAs(r, cfg, env, p, item, i);
      assert db'.tables == EngineRuns.Apply(db.tables, EngineRuns.DeliverOp(r));
    }
  }

  /** Held as a series: no definition covers it, or not on this channel. */
  predicate HoldsSeries(quarantine: Option<QuarantineReason>) {
    quarantine == Some(UnknownKey) || quarantine == Some(UndeclaredChannel)
  }

  /** The series exists, as it was or newly opened without a range of its own. */
  ghost predicate Opened(b: Book, b': Book, sk: SeriesKey, quarantine: Option<QuarantineReason>) {
    && sk in b'.series
    && (sk in b.series ==> b' == b)
    && (sk !in b.series ==>
          && b'.series.Keys == b.series.Keys + {sk} && (forall k | k in b.series :: b'.series[k] == b.series[k])
          && b'.series[sk] == SeriesRow(b.nextSeries, HoldsSeries(quarantine),
                                        if HoldsSeries(quarantine) then quarantine else None, None, None))
  }

  lemma OpenedExact(b: Book, sk: SeriesKey, quarantine: Option<QuarantineReason>)
    ensures var held := HeldReason(quarantine);
            var (b', series) := EnsureSeries(b, sk, held.Some?, held);
            Opened(b, b', sk, quarantine) && b'.series[sk].id == series
  {
  }

  function KeyOf(id: SystemId, item: Item, v: Verdict): SeriesKey
    requires v.Accept?
  {
    SeriesKey(id, v.key, v.channel, if item.variant.Some? then item.variant.value else "primary")
  }

  /** The work after storing an accepted item. */
  ghost predicate StoredAs(
    cfg: Config, env: Env, p: Principal, item: Item, i: nat, w: Work, id: SystemId, b: Book, v: Verdict, w': Work, quarantined: bool)
    requires v.Accept?
  {
    var b' := w'.db.book;
    && Opened(b, b', KeyOf(id, item, v), v.quarantine)
    && Recorded(cfg, env, p, item, i, w.db.(book := b'), w'.db, b'.series[KeyOf(id, item, v)].id, quarantined)
    && w'.sightings == w.sightings
  }

  lemma AcceptedIsStored(
    cfg: Config, env: Env, p: Principal, item: Item, i: nat, w: Work, id: SystemId, b: Book, v: Verdict, quarantined: bool)
    requires v.Accept?
    ensures var held := HeldReason(v.quarantine);
            var (b', series) := EnsureSeries(b, SeriesKeyOf(id, item, v.key, v.channel), held.Some?, held);
            var w' := w.(db := Record(cfg, env, p, item, i, w.db.(book := b'), series, quarantined));
            StoredAs(cfg, env, p, item, i, w, id, b, v, w', quarantined)
  {
    var held := HeldReason(v.quarantine);
    OpenedExact(b, KeyOf(id, item, v), v.quarantine);
    var (b', series) := EnsureSeries(b, KeyOf(id, item, v), held.Some?, held);
    RecordExact(cfg, env, p, item, i, w.db.(book := b'), series, quarantined);
  }

  /**
   A stored item is one reading with its values and times, under the series of its subject, the
   key and channel the registry chose and its variant; durable, it reaches the pipelines as it
   came and is published under the current epoch if that is admitted; quarantined, it goes no
   further. A series that it opens is held exactly for lack of a definition or channel.
   */
  lemma ReadingIsItem(cfg: Config, env: Env, p: Principal, item: Item, i: nat, w: Work, id: SystemId, state: DeviceState)
    requires StoreItem(cfg, env, p, item, i, w, id, state).Some?
    ensures var (w', status) := StoreItem(cfg, env, p, item, i, w, id, state).value;
            status.Stored? ==>
              && Evaluate(w.db.book, cfg.catalog, id, item).Ok?
              && var (b, v) := Evaluate(w.db.book, cfg.catalog, id, item).value;
                 v.Accept? && StoredAs(cfg, env, p, item, i, w, id, b, v, w', status.disposition == Quarantined)
  {
    var e := Evaluate(w.db.book, cfg.catalog, id, item);
    if e.Ok? && e.value.1.Accept? {
      var (b, v) := e.value;
      var quarantined := StatusOf(state, v.quarantine).disposition == Quarantined;
      assert quarantined == (StatusOf(state, v.quarantine).disposition != Durable);
      AcceptedIsStored(cfg, env, p, item, i, w, id, b, v, quarantined);
    }
  }

  // ---------------------------------------------------------------------------
  // Sightings
  // ---------------------------------------------------------------------------

  lemma {:induction false} SightedExact(sightings: map<string, string>, ss: seq<Staging.Sighting>, principal: string, h: string)
    ensures var after := Sighted(sightings, ss, principal);
            var seen := exists i :: 0 <= i < |ss| && ss[i].hardware == h;
            && (h in after <==> h in sightings || seen)
            && (h in after ==> after[h] == if seen then principal else sightings[h])
    decreases |ss|
  {
    if ss != [] {
      SightedExact(sightings[ss[0].hardware := principal], ss[1..], principal, h);
      var seen := exists i :: 0 <= i < |ss| && ss[i].hardware == h;
      if i :| 0 < i < |ss| && ss[i].hardware == h { assert ss[1..][i - 1].hardware == h; }
      if i :| 0 <= i < |ss[1..]| && ss[1..][i].hardware == h { assert ss[i + 1].hardware == h; }
    }
  }

  /** The unknown subjects of an envelope are staged together, and each is then on record for the principal. */
  lemma StagedTogether(w: Work, principal: string, receivedAt: int, h: string)
    requires w.sightings != [] && StageAll(w, principal, receivedAt).Some?
    ensures var db := StageAll(w, principal, receivedAt).value;
            var r := Staging.Stage(w.db.staging, principal, receivedAt, w.sightings, STAGING_LIMITS);
            && r.Ok? && db.staging.rows == r.value.0.rows && db == w.db.(staging := db.staging)
            && ((exists i :: 0 <= i < |w.sightings| && w.sightings[i].hardware == h) ==>
                  h in db.staging.sightings && db.staging.sightings[h] == principal)
  {
    SightedExact(Staging.Stage(w.db.staging, principal, receivedAt, w.sightings, STAGING_LIMITS).value.0.sightings,
                 w.sightings, principal, h);
  }
}
