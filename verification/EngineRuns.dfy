/**
 What every run of engine operations keeps: each series is numbered 1, 2, 3, ... in outbox
 order, accumulated counts start at 0 and rise by one, and a series that ended never resumes.
 */
module EngineRuns {
  import opened Types
  import opened Definition
  import opened Evaluator
  import opened Ordering
  import opened Engine

  predicate InSeries(row: Row, series: nat) {
    row.payload.Some? && row.payload.value.series == series
  }

  /** The observations of one series, in outbox order. */
  function SeriesRows(log: seq<Row>, series: nat): seq<Observation> {
    if log == [] then []
    else
      var before := SeriesRows(log[..|log| - 1], series);
      var last := log[|log| - 1];
      if InSeries(last, series) then before + [last.payload.value] else before
  }

  lemma AppendRow(log: seq<Row>, row: Row, series: nat)
    ensures SeriesRows(log + [row], series)
            == if InSeries(row, series) then SeriesRows(log, series) + [row.payload.value]
               else SeriesRows(log, series)
  {
    assert (log + [row])[..|log|] == log;
  }

  /** One series: consecutive numbers from 1, one pipeline, one kind; counts are number minus one. */
  predicate Numbered(os: seq<Observation>) {
    forall i | 0 <= i < |os| ::
      && os[i].sequence == i + 1
      && os[i].pipeline == os[0].pipeline
      && os[i].value.Kind() == os[0].value.Kind()
      && (os[i].value.CountValue? ==> os[i].value.n == i)
  }

  /** The state of pipeline `id` continues its series exactly where the log ends, and knows what it published last. */
  ghost predicate StateFits(log: seq<Row>, id: PipelineId, s: PipelineState) {
    var os := SeriesRows(log, s.series);
    && s.hash.id == id
    && s.next == |os| + 1
    && (os != [] ==> os[0].pipeline == id && os[0].value.Kind() == s.hash.kind)
    && (s.hash.kind == AccumulatedCount ==> os != [] && s.evaluation.counter == |os| - 1)
    && s.lastValue == (if os == [] then None else Some(os[|os| - 1].value))
    && s.lastAt == (if os == [] then None else Some(os[|os| - 1].at))
  }

  ghost predicate Inv(t: Tables) {
    && (forall series: nat :: Numbered(SeriesRows(t.log, series)))
    && (forall series: nat | series >= t.nextSeries :: SeriesRows(t.log, series) == [])
    && (forall id | id in t.states :: t.states[id].series < t.nextSeries && StateFits(t.log, id, t.states[id]))
    && (forall i, j | i in t.states && j in t.states && i != j :: t.states[i].series != t.states[j].series)
    && (forall id | id in t.definitions :: t.definitions[id].id == id)
  }

  predicate Live(t: Tables, series: nat) {
    exists id :: id in t.states && t.states[id].series == series
  }

  /** What an operation may do to the past: append, and leave ended series ended. */
  ghost predicate Extends(t: Tables, t': Tables) {
    && t.log <= t'.log
    && t.nextSeries <= t'.nextSeries
    && (forall series: nat | series < t.nextSeries && !Live(t, series) ::
          !Live(t', series) && SeriesRows(t'.log, series) == SeriesRows(t.log, series))
  }

  lemma ExtendsTransitive(a: Tables, b: Tables, c: Tables)
    requires Extends(a, b) && Extends(b, c)
    ensures Extends(a, c)
  {
  }

  // ---------------------------------------------------------------------------
  // Single-pipeline steps
  // ---------------------------------------------------------------------------

  /** An accumulated-count evaluation emits the next count exactly when the counter moves. */
  lemma CountStep(def: PipelineDefinition, s: EvaluationState, input: Float, at: int)
    requires def.kind == AccumulatedCount
    requires Evaluated(def, s, input, at).Ok?
    ensures var (e, s') := Evaluated(def, s, input, at).value;
            match EmittedValue(def, e)
            case None => s'.counter == s.counter
            case Some(v) => s'.counter == s.counter + 1 && v == CountValue(s'.counter)
  {
  }

  lemma ValueKind(def: PipelineDefinition, e: Evaluation)
    requires EmittedValue(def, e).Some?
    ensures EmittedValue(def, e).value.Kind() == def.kind
  {
  }

  /** Appending the next observation of a fitting state keeps every series numbered. */
  lemma PublishKeeps(t: Tables, def: PipelineDefinition, s: PipelineState, v: Value, at: InputTime)
    requires Inv(t) && s.series < t.nextSeries && s.hash == def.StructuralFields()
    requires v.Kind() == def.kind
    requires var os := SeriesRows(t.log, s.series);
             && s.next == |os| + 1
             && (os != [] ==> os[0].pipeline == def.id && os[0].value.Kind() == def.kind)
             && (v.CountValue? ==> v.n == |os|)
    ensures var (t', s', o) := Publish(t, def, s, v, at);
            && (forall series: nat :: Numbered(SeriesRows(t'.log, series)))
            && (forall series: nat | series != s.series :: SeriesRows(t'.log, series) == SeriesRows(t.log, series))
            && SeriesRows(t'.log, s.series) == SeriesRows(t.log, s.series) + [o]
  {
    var (t', s', o) := Publish(t, def, s, v, at);
    forall series: nat
      ensures Numbered(SeriesRows(t'.log, series))
      ensures series != s.series ==> SeriesRows(t'.log, series) == SeriesRows(t.log, series)
    {
      AppendRow(t.log, t'.log[|t.log|], series);
    }
    AppendRow(t.log, t'.log[|t.log|], s.series);
  }

  /** Only the rows and the state of one series move, and that series was live or is new. */
  lemma PutKeeps(t: Tables, t': Tables, id: PipelineId)
    requires Inv(t)
    requires t.log <= t'.log && t.nextSeries <= t'.nextSeries && t'.definitions == t.definitions
    requires id in t'.states && t'.states == t.states[id := t'.states[id]]
    requires var mine := t'.states[id].series;
             && mine < t'.nextSeries && StateFits(t'.log, id, t'.states[id])
             && ((id in t.states && mine == t.states[id].series) || t.nextSeries <= mine)
             && Numbered(SeriesRows(t'.log, mine))
             && forall series: nat | series != mine :: SeriesRows(t'.log, series) == SeriesRows(t.log, series)
    ensures Inv(t') && Extends(t, t')
  {
    var mine := t'.states[id].series;
    forall series: nat ensures Numbered(SeriesRows(t'.log, series)) {
      if series != mine { assert SeriesRows(t'.log, series) == SeriesRows(t.log, series); }
    }
    forall j | j in t'.states && j != id
      ensures t'.states[j].series != mine && StateFits(t'.log, j, t'.states[j])
    {
    }
    forall series: nat | series < t.nextSeries && !Live(t, series)
      ensures !Live(t', series) && SeriesRows(t'.log, series) == SeriesRows(t.log, series)
    {
      assert forall j | j in t'.states && t'.states[j].series == series :: j in t.states;
    }
  }

  lemma StartSeriesKeeps(t: Tables, def: PipelineDefinition, now: InputTime)
    requires Inv(t)
    ensures var (t', start) := StartSeries(t, def, now);
            && Inv(t') && Extends(t, t')
            && start.series == t.nextSeries
            && Continues(t', def) && t'.states[def.id].series == t.nextSeries
            && t'.states == t.states[def.id := t'.states[def.id]]
            && t'.definitions == t.definitions && t'.nextSeries == t.nextSeries + 1
  {
    if def.kind == AccumulatedCount {
      var s := PipelineState(def.StructuralFields(), t.nextSeries, 1, INITIAL, None, None);
      var t1 := t.(nextSeries := t.nextSeries + 1);
      PublishKeeps(t1, def, s, CountValue(0), now);
    }
    PutKeeps(t, StartSeries(t, def, now).0, def.id);
  }

  /** Publishing the next value of the series a pipeline holds. */
  lemma PublishedKeeps(t: Tables, def: PipelineDefinition, next: EvaluationState, v: Value, at: InputTime)
    requires Inv(t) && Continues(t, def) && v.Kind() == def.kind
    requires def.kind == AccumulatedCount ==>
               next.counter == t.states[def.id].evaluation.counter + 1 && v == CountValue(next.counter)
    ensures var (t2, s2, _) := Publish(t, def, t.states[def.id].(evaluation := next), v, at);
            var t' := PutState(t2, def.id, s2); Inv(t') && Extends(t, t')
  {
    var s := t.states[def.id].(evaluation := next);
    PublishKeeps(t, def, s, v, at);
    var (t2, s2, _) := Publish(t, def, s, v, at);
    PutKeeps(t, PutState(t2, def.id, s2), def.id);
  }

  /** An input that publishes nothing moves the evaluation state alone. */
  lemma SilentKeeps(t: Tables, def: PipelineDefinition, next: EvaluationState)
    requires Inv(t) && Continues(t, def)
    requires def.kind == AccumulatedCount ==> next.counter == t.states[def.id].evaluation.counter
    ensures var t' := PutState(t, def.id, t.states[def.id].(evaluation := next)); Inv(t') && Extends(t, t')
  {
    PutKeeps(t, PutState(t, def.id, t.states[def.id].(evaluation := next)), def.id);
  }

  lemma ContinueKeeps(t: Tables, def: PipelineDefinition, input: Float, at: InputTime)
    requires Inv(t) && Continues(t, def)
    ensures var t' := Process(t, def, input, at).0;
            Inv(t') && Extends(t, t') && t'.definitions == t.definitions
  {
    var s := t.states[def.id];
    var r := Evaluated(def, s.evaluation, input, at.uptime);
    if r.Ok? {
      var (e, next) := r.value;
      if def.kind == AccumulatedCount { CountStep(def, s.evaluation, input, at.uptime); }
      if EmittedValue(def, e).Some? {
        ValueKind(def, e);
        PublishedKeeps(t, def, next, EmittedValue(def, e).value, at);
      } else {
        SilentKeeps(t, def, next);
      }
    }
  }

  lemma ProcessKeeps(t: Tables, def: PipelineDefinition, input: Float, at: InputTime)
    requires Inv(t)
    ensures var t' := Process(t, def, input, at).0;
            Inv(t') && Extends(t, t') && t'.definitions == t.definitions
  {
    if Continues(t, def) {
      ContinueKeeps(t, def, input, at);
    } else {
      StartSeriesKeeps(t, def, at);
      var t1 := StartSeries(t, def, at).0;
      ContinueKeeps(t1, def, input, at);
      assert Process(t, def, input, at) == Process(t1, def, input, at);
      ExtendsTransitive(t, t1, Process(t1, def, input, at).0);
    }
  }

  lemma EnqueueDeletionKeeps(t: Tables, def: PipelineDefinition, now: InputTime)
    requires Inv(t)
    ensures Inv(EnqueueDeletion(t, def, now)) && Extends(t, EnqueueDeletion(t, def, now))
  {
    var t' := EnqueueDeletion(t, def, now);
    forall series: nat ensures SeriesRows(t'.log, series) == SeriesRows(t.log, series) {
      AppendRow(t.log, t'.log[|t.log|], series);
    }
  }

  lemma DropKeeps(t: Tables, id: PipelineId)
    requires Inv(t)
    ensures Inv(DropDefinition(t, id)) && Extends(t, DropDefinition(t, id))
  {
  }

  // ---------------------------------------------------------------------------
  // Operations and runs
  // ---------------------------------------------------------------------------

  /** Operations, and the two accidents the engine recovers from: lost state, edited definition. */
  datatype Op =
    | CreateOp(def: PipelineDefinition, now: InputTime)
    | UpdateOp(def: PipelineDefinition, now: InputTime)
    | DeleteOp(id: PipelineId, now: InputTime)
    | ResetOp(id: PipelineId, now: InputTime)
    | ImportOp(defs: seq<PipelineDefinition>, now: InputTime)
    | ReconcileOp(now: InputTime)
    | DeliverOp(reading: Reading)
    | LoseState(id: PipelineId)
    | EditDefinition(def: PipelineDefinition)

  /** A failed operation rolls its transaction back. */
  ghost function Apply(t: Tables, op: Op): Tables {
    match op
    case CreateOp(def, now) => (match Create(t, def, now) case Ok((t', _)) => t' case Err(_) => t)
    case UpdateOp(def, now) => (match Update(t, def, now) case Ok((t', _)) => t' case Err(_) => t)
    case DeleteOp(id, now) => (match Delete(t, id, now) case Ok(t') => t' case Err(_) => t)
    case ResetOp(id, now) => (match Reset(t, id, now) case Ok((t', _)) => t' case Err(_) => t)
    case ImportOp(defs, now) => (match Import(t, defs, now) case Ok((t', _)) => t' case Err(_) => t)
    case ReconcileOp(now) => Reconcile(t, now).0
    case DeliverOp(reading) => Deliver(t, reading).0
    case LoseState(id) => t.(states := t.states - {id})
    case EditDefinition(def) =>
      if def.id in t.definitions then t.(definitions := t.definitions[def.id := def]) else t
  }

  ghost function Run(t: Tables, ops: seq<Op>): Tables
    decreases |ops|
  {
    if ops == [] then t else Run(Apply(t, ops[0]), ops[1..])
  }

  lemma {:induction false} DropAllKeeps(
    t: Tables, existing: seq<PipelineDefinition>, keep: set<PipelineId>, now: InputTime)
    requires Inv(t)
    ensures var t' := DropAll(t, existing, keep, now); Inv(t') && Extends(t, t')
    decreases |existing|
  {
    if existing != [] {
      var t1 := DropDefinition(t, existing[0].id);
      DropKeeps(t, existing[0].id);
      EnqueueDeletionKeeps(t1, existing[0], now);
      var t2 := if existing[0].id in keep then t1 else EnqueueDeletion(t1, existing[0], now);
      ExtendsTransitive(t, t1, t2);
      DropAllKeeps(t2, existing[1..], keep, now);
      ExtendsTransitive(t, t2, DropAll(t2, existing[1..], keep, now));
    }
  }

  lemma {:induction false} InsertAllKeeps(
    t: Tables, defs: seq<PipelineDefinition>, now: InputTime, started: seq<SeriesStart>)
    requires Inv(t)
    ensures var t' := InsertAll(t, defs, now, started).0; Inv(t') && Extends(t, t')
    decreases |defs|
  {
    if defs != [] {
      var t1 := t.(definitions := t.definitions[defs[0].id := defs[0]]);
      StartSeriesKeeps(t1, defs[0], now);
      var (t2, start) := StartSeries(t1, defs[0], now);
      InsertAllKeeps(t2, defs[1..], now, started + [start]);
      assert Extends(t, t1);
      ExtendsTransitive(t, t1, t2);
      ExtendsTransitive(t, t2, InsertAll(t2, defs[1..], now, started + [start]).0);
    }
  }

  lemma {:induction false} ReconcileAllKeeps(
    t: Tables, defs: seq<PipelineDefinition>, now: InputTime, started: seq<SeriesStart>)
    requires Inv(t)
    ensures var t' := ReconcileAll(t, defs, now, started).0; Inv(t') && Extends(t, t')
    decreases |defs|
  {
    if defs != [] {
      if Continues(t, defs[0]) {
        ReconcileAllKeeps(t, defs[1..], now, started);
      } else {
        StartSeriesKeeps(t, defs[0], now);
        var (t1, start) := StartSeries(t, defs[0], now);
        ReconcileAllKeeps(t1, defs[1..], now, started + [start]);
        ExtendsTransitive(t, t1, ReconcileAll(t1, defs[1..], now, started + [start]).0);
      }
    }
  }

  lemma {:induction false} DeliverAllKeeps(
    t: Tables, defs: seq<PipelineDefinition>, r: Reading, outcomes: seq<Delivery>)
    requires Inv(t)
    ensures var t' := DeliverAll(t, defs, r, outcomes).0; Inv(t') && Extends(t, t')
    decreases |defs|
  {
    if defs != [] {
      if defs[0].input.valueIndex < |r.values| {
        ProcessKeeps(t, defs[0], r.values[defs[0].input.valueIndex], r.receivedAt);
      }
      var (t1, outcome) := DeliverOne(t, defs[0], r);
      DeliverAllKeeps(t1, defs[1..], r, outcomes + [(defs[0].id, outcome)]);
      ExtendsTransitive(t, t1, DeliverAll(t1, defs[1..], r, outcomes + [(defs[0].id, outcome)]).0);
    }
  }

  /** Storing a definition under its own id, then starting its series unless it continues one. */
  lemma InstallKeeps(t: Tables, def: PipelineDefinition, now: InputTime)
    requires Inv(t)
    ensures var t1 := t.(definitions := t.definitions[def.id := def]);
            && Inv(t1) && Extends(t, t1)
            && Inv(StartSeries(t1, def, now).0) && Extends(t, StartSeries(t1, def, now).0)
  {
    var t1 := t.(definitions := t.definitions[def.id := def]);
    StartSeriesKeeps(t1, def, now);
    ExtendsTransitive(t, t1, StartSeries(t1, def, now).0);
  }

  lemma DeleteKeeps(t: Tables, id: PipelineId, now: InputTime)
    requires Inv(t) && id in t.definitions
    ensures Inv(Delete(t, id, now).value) && Extends(t, Delete(t, id, now).value)
  {
    DropKeeps(t, id);
    EnqueueDeletionKeeps(DropDefinition(t, id), t.definitions[id], now);
    ExtendsTransitive(t, DropDefinition(t, id), Delete(t, id, now).value);
  }

  lemma ImportKeeps(t: Tables, defs: seq<PipelineDefinition>, now: InputTime)
    requires Inv(t) && AllValid(defs) && Distinct(defs)
    ensures Inv(Import(t, defs, now).value.0) && Extends(t, Import(t, defs, now).value.0)
  {
    DropAllKeeps(t, Listed(t), Ids(defs), now);
    var t1 := DropAll(t, Listed(t), Ids(defs), now);
    InsertAllKeeps(t1, defs, now, []);
    ExtendsTransitive(t, t1, InsertAll(t1, defs, now, []).0);
  }

  lemma LossKeeps(t: Tables, id: PipelineId)
    requires Inv(t)
    ensures var t' := t.(states := t.states - {id}); Inv(t') && Extends(t, t')
  {
  }

  lemma ApplyKeeps(t: Tables, op: Op)
    requires Inv(t)
    ensures Inv(Apply(t, op)) && Extends(t, Apply(t, op))
  {
    match op
    case CreateOp(def, now) => InstallKeeps(t, def, now);
    case UpdateOp(def, now) => InstallKeeps(t, def, now);
    case DeleteOp(id, now) => if id in t.definitions { DeleteKeeps(t, id, now); }
    case ResetOp(id, now) => if id in t.definitions { StartSeriesKeeps(t, t.definitions[id], now); }
    case ImportOp(defs, now) => if AllValid(defs) && Distinct(defs) { ImportKeeps(t, defs, now); }
    case ReconcileOp(now) => ReconcileAllKeeps(t, Listed(t), now, []);
    case DeliverOp(reading) =>
      DeliverAllKeeps(t, Select(t, Sorted(MatchingIds(t, reading))), reading, []);
    case LoseState(id) => LossKeeps(t, id);
    case EditDefinition(def) => InstallKeeps(t, def, InputTime(0, None));
  }

  lemma {:induction false} RunKeeps(t: Tables, ops: seq<Op>)
    requires Inv(t)
    ensures Inv(Run(t, ops)) && Extends(t, Run(t, ops))
    decreases |ops|
  {
    if ops != [] {
      var t1 := Apply(t, ops[0]);
      ApplyKeeps(t, ops[0]);
      RunKeeps(t1, ops[1..]);
      ExtendsTransitive(t, t1, Run(t1, ops[1..]));
    }
  }

  /**
   Over any run from an empty database every series is published as 1, 2, 3, ... by one pipeline
   with one kind, accumulated counts being 0, 1, 2, ...; each live state stands exactly one past
   its series and holds the value and time published last, an accumulated count its count.
   */
  lemma SeriesAreNumbered(ops: seq<Op>)
    ensures var t := Run(EMPTY, ops);
            && (forall series: nat :: Numbered(SeriesRows(t.log, series)))
            && (forall id | id in t.states :: StateFits(t.log, id, t.states[id]))
  {
    RunKeeps(EMPTY, ops);
  }

  /** A series that no pipeline holds any more is never held and never published again. */
  lemma RetiredSeriesStaysRetired(before: seq<Op>, after: seq<Op>, series: nat)
    requires series < Run(EMPTY, before).nextSeries && !Live(Run(EMPTY, before), series)
    ensures var t, t' := Run(EMPTY, before), Run(Run(EMPTY, before), after);
            !Live(t', series) && SeriesRows(t'.log, series) == SeriesRows(t.log, series)
  {
    RunKeeps(EMPTY, before);
    RunKeeps(Run(EMPTY, before), after);
  }

  /**
   A successful update keeps the series, its sequence and its evaluation state exactly when id,
   kind, input, trigger and unit are those the series started with.
   */
  lemma UpdateKeepsSeries(ops: seq<Op>, def: PipelineDefinition, now: InputTime)
    requires var t := Run(EMPTY, ops); def.id in t.states && Update(t, def, now).Ok?
    ensures var t := Run(EMPTY, ops);
            var t' := Update(t, def, now).value.0;
            var started := t.states[def.id].hash == Structural(def.id, def.kind, def.input, def.trigger, def.unit);
            && def.id in t'.states
            && (t'.states[def.id].series == t.states[def.id].series <==> started)
            && (started ==> t'.states == t.states && t'.log == t.log)
  {
    RunKeeps(EMPTY, ops);
    var t := Run(EMPTY, ops);
    StartSeriesKeeps(t.(definitions := t.definitions[def.id := def]), def, now);
  }
}
