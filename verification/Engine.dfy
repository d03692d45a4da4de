/**
 Series, sequences and single-transaction delivery of pipeline observations. The database is a
 value; every operation maps the tables it is given to the tables it leaves behind.
 */
module Engine {
  import opened Types
  import opened Definition
  import opened Evaluator
  import opened Ordering

  datatype InputTime = InputTime(uptime: int, epoch: Option<int>)

  datatype Value = MeasurementValue(r: real) | StateValue(b: bool) | CountValue(n: int) {
    function Kind(): Kind {
      match this
      case MeasurementValue(_) => Measurement
      case StateValue(_) => State
      case CountValue(_) => AccumulatedCount
    }
  }

  datatype Observation = Observation(
    pipeline: PipelineId, series: nat, sequence: nat, at: InputTime, value: Value)

  datatype Topic = Topic(pipeline: PipelineId, kind: Kind)

  /** A publication: an observation, or the empty payload that clears the retained value. */
  datatype Row = Row(pipeline: PipelineId, topic: Topic, payload: Option<Observation>, retain: bool, at: InputTime)

  datatype PipelineState = PipelineState(
    hash: Structural, series: nat, next: nat, evaluation: EvaluationState,
    lastValue: Option<Value>, lastAt: Option<InputTime>)

  /**
   `log` holds every publication ever enqueued, oldest first; its indices are the outbox
   sequence. `nextSeries` stands for the supply of series ids never handed out before.
   */
  datatype Tables = Tables(
    definitions: map<PipelineId, PipelineDefinition>, states: map<PipelineId, PipelineState>,
    log: seq<Row>, nextSeries: nat)

  const EMPTY := Tables(map[], map[], [], 0)

  datatype EngineError =
    | InvalidDefinition | DuplicateId | AlreadyExists | NotFound | KindChanged
    | MissingValue | EvaluationFailed(error: EvaluatorError)

  datatype SeriesStart = SeriesStart(pipeline: PipelineId, series: nat, published: Option<Observation>)

  datatype DeliveryOutcome = SilentInput | Published(observation: Observation)

  datatype Reading = Reading(
    adapter: string, subject: Option<string>, measurementKey: string, channel: Option<nat>,
    values: seq<Float>, receivedAt: InputTime)

  // ---------------------------------------------------------------------------
  // Single-pipeline steps
  // ---------------------------------------------------------------------------

  function Publish(t: Tables, def: PipelineDefinition, s: PipelineState, value: Value, at: InputTime)
    : (Tables, PipelineState, Observation)
  {
    var o := Observation(def.id, s.series, s.next, at, value);
    var row := Row(def.id, Topic(def.id, value.Kind()), Some(o), true, at);
    (t.(log := t.log + [row]), s.(next := s.next + 1, lastValue := Some(value), lastAt := Some(at)), o)
  }

  function PutState(t: Tables, id: PipelineId, s: PipelineState): Tables {
    t.(states := t.states[id := s])
  }

  function StartSeries(t: Tables, def: PipelineDefinition, now: InputTime): (Tables, SeriesStart) {
    var s := PipelineState(def.StructuralFields(), t.nextSeries, 1, INITIAL, None, None);
    var t1 := t.(nextSeries := t.nextSeries + 1);
    if def.kind == AccumulatedCount then
      var (t2, s2, o) := Publish(t1, def, s, CountValue(0), now);
      (PutState(t2, def.id, s2), SeriesStart(def.id, s.series, Some(o)))
    else
      (PutState(t1, def.id, s), SeriesStart(def.id, s.series, None))
  }

  function EnqueueDeletion(t: Tables, def: PipelineDefinition, now: InputTime): Tables {
    t.(log := t.log + [Row(def.id, Topic(def.id, def.kind), None, true, now)])
  }

  /** Deleting a definition cascades to its state. */
  function DropDefinition(t: Tables, id: PipelineId): Tables {
    t.(definitions := t.definitions - {id}, states := t.states - {id})
  }

  predicate Continues(t: Tables, def: PipelineDefinition) {
    def.id in t.states && t.states[def.id].hash == def.StructuralFields()
  }

  function EmittedValue(def: PipelineDefinition, e: Evaluation): Option<Value> {
    if !e.emitted then None
    else match def.kind
      case Measurement => if e.number.Some? then Some(MeasurementValue(e.number.value)) else None
      case State => if e.boolean.Some? then Some(StateValue(e.boolean.value)) else None
      case AccumulatedCount => if e.integer.Some? then Some(CountValue(e.integer.value)) else None
  }

  /**
   One input for one pipeline. A missing or stale state starts a series first; that series stays
   even when the evaluation of this input then fails.
   */
  function Process(t: Tables, def: PipelineDefinition, input: Float, at: InputTime)
    : (Tables, Result<DeliveryOutcome, EngineError>)
  {
    var t1 := if Continues(t, def) then t else StartSeries(t, def, at).0;
    var s := t1.states[def.id];
    match Evaluated(def, s.evaluation, input, at.uptime)
    case Err(e) => (t1, Err(EvaluationFailed(e)))
    case Ok((e, next)) =>
      var s1 := s.(evaluation := next);
      match EmittedValue(def, e)
      case None => (PutState(t1, def.id, s1), Ok(SilentInput))
      case Some(v) =>
        var (t2, s2, o) := Publish(t1, def, s1, v, at);
        (PutState(t2, def.id, s2), Ok(Published(o)))
  }

  // ---------------------------------------------------------------------------
  // Operations
  // ---------------------------------------------------------------------------

  function Create(t: Tables, def: PipelineDefinition, now: InputTime): Result<(Tables, SeriesStart), EngineError> {
    if !def.Valid() then Err(InvalidDefinition)
    else if def.id in t.definitions then Err(AlreadyExists)
    else Ok(StartSeries(t.(definitions := t.definitions[def.id := def]), def, now))
  }

  function Update(t: Tables, def: PipelineDefinition, now: InputTime)
    : Result<(Tables, Option<SeriesStart>), EngineError>
  {
    if !def.Valid() then Err(InvalidDefinition)
    else if def.id !in t.definitions then Err(NotFound)
    else if t.definitions[def.id].kind != def.kind then Err(KindChanged)
    else
      var t1 := t.(definitions := t.definitions[def.id := def]);
      if Continues(t1, def) then Ok((t1, None))
      else
        var (t2, start) := StartSeries(t1, def, now);
        Ok((t2, Some(start)))
  }

  function Delete(t: Tables, id: PipelineId, now: InputTime): Result<Tables, EngineError> {
    if id !in t.definitions then Err(NotFound)
    else Ok(EnqueueDeletion(DropDefinition(t, id), t.definitions[id], now))
  }

  function Reset(t: Tables, id: PipelineId, now: InputTime): Result<(Tables, SeriesStart), EngineError> {
    if id !in t.definitions then Err(NotFound) else Ok(StartSeries(t, t.definitions[id], now))
  }

  // ---------------------------------------------------------------------------
  // Operations that loop over definitions, in pipeline-id order
  // ---------------------------------------------------------------------------

  /** The definitions with the given ids, in that order. */
  function Select(t: Tables, ids: seq<PipelineId>): seq<PipelineDefinition>
    decreases |ids|
  {
    if ids == [] then []
    else if ids[0] in t.definitions then [t.definitions[ids[0]]] + Select(t, ids[1..])
    else Select(t, ids[1..])
  }

  ghost function Listed(t: Tables): seq<PipelineDefinition> {
    Select(t, Sorted(t.definitions.Keys))
  }

  /** Import, first pass: every old definition goes; those not imported again clear their topic. */
  function DropAll(t: Tables, existing: seq<PipelineDefinition>, keep: set<PipelineId>, now: InputTime): Tables
    decreases |existing|
  {
    if existing == [] then t
    else
      var t1 := DropDefinition(t, existing[0].id);
      var t2 := if existing[0].id in keep then t1 else EnqueueDeletion(t1, existing[0], now);
      DropAll(t2, existing[1..], keep, now)
  }

  /** Import, second pass: every imported definition starts a new series. */
  function InsertAll(t: Tables, defs: seq<PipelineDefinition>, now: InputTime, started: seq<SeriesStart>)
    : (Tables, seq<SeriesStart>)
    decreases |defs|
  {
    if defs == [] then (t, started)
    else
      var (t1, start) := StartSeries(t.(definitions := t.definitions[defs[0].id := defs[0]]), defs[0], now);
      InsertAll(t1, defs[1..], now, started + [start])
  }

  function Ids(defs: seq<PipelineDefinition>): set<PipelineId> {
    set i | 0 <= i < |defs| :: defs[i].id
  }

  predicate Distinct(defs: seq<PipelineDefinition>) {
    forall i, j | 0 <= i < j < |defs| :: defs[i].id != defs[j].id
  }

  predicate AllValid(defs: seq<PipelineDefinition>) {
    forall i | 0 <= i < |defs| :: defs[i].Valid()
  }

  ghost function Import(t: Tables, defs: seq<PipelineDefinition>, now: InputTime)
    : Result<(Tables, seq<SeriesStart>), EngineError>
  {
    if !AllValid(defs) then Err(InvalidDefinition)
    else if !Distinct(defs) then Err(DuplicateId)
    else Ok(InsertAll(DropAll(t, Listed(t), Ids(defs), now), defs, now, []))
  }

  method CheckIds(defs: seq<PipelineDefinition>) returns (ok: bool, seen: set<PipelineId>)
    ensures ok == Distinct(defs)
    ensures ok ==> seen == Ids(defs)
  {
    seen := {};
    for i := 0 to |defs|
      invariant forall x :: x in seen <==> exists j | 0 <= j < i :: defs[j].id == x
      invariant forall j, k | 0 <= j < k < i :: defs[j].id != defs[k].id
    {
      if defs[i].id in seen {
        return false, seen;
      }
      seen := seen + {defs[i].id};
    }
    return true, seen;
  }

  method RunImport(start: Tables, defs: seq<PipelineDefinition>, now: InputTime)
    returns (r: Result<(Tables, seq<SeriesStart>), EngineError>)
    ensures r == Import(start, defs, now)
  {
    for i := 0 to |defs|
      invariant forall j | 0 <= j < i :: defs[j].Valid()
    {
      if !defs[i].Valid() { return Err(InvalidDefinition); }
    }
    var ok, seen := CheckIds(defs);
    if !ok { return Err(DuplicateId); }
    var t := start;
    var ids := SortIds(start.definitions.Keys);
    var existing := Select(start, ids);
    for i := 0 to |existing|
      invariant DropAll(t, existing[i..], seen, now) == DropAll(start, existing, seen, now)
    {
      assert existing[i..][1..] == existing[i + 1..];
      t := DropDefinition(t, existing[i].id);
      if existing[i].id !in seen { t := EnqueueDeletion(t, existing[i], now); }
    }
    ghost var dropped := t;
    var started: seq<SeriesStart> := [];
    for i := 0 to |defs|
      invariant InsertAll(t, defs[i..], now, started) == InsertAll(dropped, defs, now, [])
    {
      assert defs[i..][1..] == defs[i + 1..];
      var (t1, s) := StartSeries(t.(definitions := t.definitions[defs[i].id := defs[i]]), defs[i], now);
      t := t1;
      started := started + [s];
    }
    return Ok((t, started));
  }

  function ReconcileAll(t: Tables, defs: seq<PipelineDefinition>, now: InputTime, started: seq<SeriesStart>)
    : (Tables, seq<SeriesStart>)
    decreases |defs|
  {
    if defs == [] then (t, started)
    else if Continues(t, defs[0]) then ReconcileAll(t, defs[1..], now, started)
    else
      var (t1, start) := StartSeries(t, defs[0], now);
      ReconcileAll(t1, defs[1..], now, started + [start])
  }

  ghost function Reconcile(t: Tables, now: InputTime): (Tables, seq<SeriesStart>) {
    ReconcileAll(t, Listed(t), now, [])
  }

  method RunReconcile(start: Tables, now: InputTime) returns (t: Tables, started: seq<SeriesStart>)
    ensures (t, started) == Reconcile(start, now)
  {
    t, started := start, [];
    var ids := SortIds(start.definitions.Keys);
    var defs := Select(start, ids);
    for i := 0 to |defs|
      invariant ReconcileAll(t, defs[i..], now, started) == ReconcileAll(start, defs, now, [])
    {
      assert defs[i..][1..] == defs[i + 1..];
      if !Continues(t, defs[i]) {
        var (t1, s) := StartSeries(t, defs[i], now);
        t := t1;
        started := started + [s];
      }
    }
  }

  function MatchingIds(t: Tables, r: Reading): set<PipelineId> {
    set id | id in t.definitions
             && t.definitions[id].input.Matches(r.adapter, r.subject, r.measurementKey, r.channel)
  }

  function DeliverOne(t: Tables, def: PipelineDefinition, r: Reading): (Tables, Result<DeliveryOutcome, EngineError>) {
    if def.input.valueIndex < |r.values| then Process(t, def, r.values[def.input.valueIndex], r.receivedAt)
    else (t, Err(MissingValue))
  }

  type Delivery = (PipelineId, Result<DeliveryOutcome, EngineError>)

  function DeliverAll(t: Tables, defs: seq<PipelineDefinition>, r: Reading, outcomes: seq<Delivery>)
    : (Tables, seq<Delivery>)
    decreases |defs|
  {
    if defs == [] then (t, outcomes)
    else
      var (t1, outcome) := DeliverOne(t, defs[0], r);
      DeliverAll(t1, defs[1..], r, outcomes + [(defs[0].id, outcome)])
  }

  ghost function Deliver(t: Tables, r: Reading): (Tables, seq<Delivery>) {
    DeliverAll(t, Select(t, Sorted(MatchingIds(t, r))), r, [])
  }

  method RunDeliver(start: Tables, r: Reading) returns (t: Tables, outcomes: seq<Delivery>)
    ensures (t, outcomes) == Deliver(start, r)
  {
    t, outcomes := start, [];
    var ids := SortIds(MatchingIds(start, r));
    var defs := Select(start, ids);
    for i := 0 to |defs|
      invariant DeliverAll(t, defs[i..], r, outcomes) == DeliverAll(start, defs, r, [])
    {
      assert defs[i..][1..] == defs[i + 1..];
      var (t1, outcome) := DeliverOne(t, defs[i], r);
      t := t1;
      outcomes := outcomes + [(defs[i].id, outcome)];
    }
  }
}
