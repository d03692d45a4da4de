/**
 From inputs to outbox: over every run a series is, value for value, what the evaluator emits for
 the inputs delivered to its pipeline, and every outbox row carries the topic of its own pipeline
 and kind.
 */
module PipelineTrace {
  import opened Types
  import opened Definition
  import opened Evaluator
  import opened Ordering
  import opened Engine
  import opened EngineRuns
  import opened EngineEffects
  import EvaluatorRuns

  /** An input given to the pipeline holding a series, with the definition in force at that moment. */
  datatype Feed = Feed(series: nat, def: PipelineDefinition, value: Float, at: InputTime)

  function SampleOf(f: Feed): EvaluatorRuns.Sample {
    EvaluatorRuns.Sample(f.value, f.at.uptime)
  }

  /** The feeds of one series, in order. */
  function FedTo(hist: seq<Feed>, series: nat): seq<Feed> {
    if hist == [] then []
    else
      var before := FedTo(hist[..|hist| - 1], series);
      if hist[|hist| - 1].series == series then before + [hist[|hist| - 1]] else before
  }

  /** Evaluation state after the feeds, each under its own definition. */
  function StateAfter(fs: seq<Feed>): EvaluationState {
    if fs == [] then INITIAL
    else
      var last := fs[|fs| - 1];
      EvaluatorRuns.After(last.def, StateAfter(fs[..|fs| - 1]), SampleOf(last))
  }

  /** What the evaluator emits on the last feed, if anything. */
  function Emission(def: PipelineDefinition, s: EvaluationState, x: EvaluatorRuns.Sample): seq<Value> {
    match Evaluated(def, s, x.input, x.at)
    case Err(_) => []
    case Ok((e, _)) => if EmittedValue(def, e).Some? then [EmittedValue(def, e).value] else []
  }

  /** What the evaluator emits over the feeds. */
  function EmittedBy(fs: seq<Feed>): seq<Value> {
    if fs == [] then []
    else
      var last, before := fs[|fs| - 1], fs[..|fs| - 1];
      EmittedBy(before) + Emission(last.def, StateAfter(before), SampleOf(last))
  }

  function Values(os: seq<Observation>): seq<Value> {
    seq(|os|, i requires 0 <= i < |os| => os[i].value)
  }

  /** A new accumulated count publishes 0, any other series nothing. */
  function Opening(kind: Kind): seq<Value> {
    if kind == AccumulatedCount then [CountValue(0)] else []
  }

  // ---------------------------------------------------------------------------
  // What a run feeds to each series
  // ---------------------------------------------------------------------------

  /** The input a delivery has for a pipeline, given to the series it holds when the delivery is done. */
  function FeedOf(t': Tables, def: PipelineDefinition, r: Reading): seq<Feed> {
    if def.input.valueIndex < |r.values| && def.id in t'.states
    then [Feed(t'.states[def.id].series, def, r.values[def.input.valueIndex], r.receivedAt)]
    else []
  }

  /** The feeds so far, and after them one for each of the definitions that has a value. */
  function FeedsOf(t': Tables, defs: seq<PipelineDefinition>, r: Reading, hist: seq<Feed>): seq<Feed>
    decreases |defs|
  {
    if defs == [] then hist else FeedsOf(t', defs[1..], r, hist + FeedOf(t', defs[0], r))
  }

  /** Only a delivery feeds: each matching definition, in id order. */
  ghost function OpFeeds(t: Tables, op: Op, hist: seq<Feed>): seq<Feed> {
    match op
    case DeliverOp(r) => FeedsOf(Apply(t, op), Select(t, Sorted(MatchingIds(t, r))), r, hist)
    case _ => hist
  }

  /** Everything a run feeds, after what was fed before it. */
  ghost function History(t: Tables, ops: seq<Op>, hist: seq<Feed>): seq<Feed>
    decreases |ops|
  {
    if ops == [] then hist else History(Apply(t, ops[0]), ops[1..], OpFeeds(t, ops[0], hist))
  }

  // ---------------------------------------------------------------------------
  // Steps
  // ---------------------------------------------------------------------------

  /** One input: the evaluation state moves as the evaluator says, and its emission is appended. */
  lemma ProcessDrivesEvaluator(t: Tables, def: PipelineDefinition, value: Float, at: InputTime)
    requires Continues(t, def)
    ensures var t' := Process(t, def, value, at).0;
            var s := t.states[def.id];
            var x := EvaluatorRuns.Sample(value, at.uptime);
            var emission := Emission(def, s.evaluation, x);
            && Continues(t', def) && t'.states[def.id].series == s.series && t'.nextSeries == t.nextSeries
            && t'.states == t.states[def.id := t'.states[def.id]]
            && t'.states[def.id].evaluation == EvaluatorRuns.After(def, s.evaluation, x)
            && t'.log == t.log + (if emission == [] then []
                                  else [Row(def.id, Topic(def.id, emission[0].Kind()),
                                            Some(Observation(def.id, s.series, s.next, at, emission[0])), true, at)])
  {
  }

  /** While a change is waiting, the state is the old one. */
  lemma WaitingKeepsActive(d: Detector, s: EvaluationState, v: real, at: int)
    ensures s.initialized && Advance(d, s, v, at).pending ==> Advance(d, s, v, at).active == s.active
  {
  }

  /**
   What an accepted input publishes: a measurement its calibrated value, a state pipeline its state
   when that is new, a count pipeline the next count when the state turns active.
   */
  lemma EmissionExact(def: PipelineDefinition, s: EvaluationState, x: EvaluatorRuns.Sample)
    ensures var s' := EvaluatorRuns.After(def, s, x);
            Emission(def, s, x)
            == if Evaluated(def, s, x.input, x.at).Err? then []
               else match def.kind
                 case Measurement => [MeasurementValue(EvaluatorRuns.Signal(def, x))]
                 case State => if !s.initialized || s'.active != s.active then [StateValue(s'.active)] else []
                 case AccumulatedCount =>
                   if s.initialized && !s.active && s'.active then [CountValue(s.counter + 1)] else []
  {
    if x.input.Finite? {
      var v := def.calibration.Apply(x.input.r);
      assert EvaluatorRuns.Signal(def, x) == v;
      if def.detector.Some? { WaitingKeepsActive(def.detector.value, s, v, x.at); }
    }
  }

  /**
   The outcome of one delivery: a missing value or a failed evaluation is reported and publishes
   nothing, an emission is published as this pipeline's next observation at the reading's time, and
   anything else is silent. The evaluation state is that of the series held, or fresh.
   */
  lemma OutcomeExact(t: Tables, def: PipelineDefinition, r: Reading)
    ensures def.input.valueIndex >= |r.values| ==> DeliverOne(t, def, r) == (t, Err(MissingValue))
    ensures def.input.valueIndex < |r.values| ==>
              var (t', outcome) := DeliverOne(t, def, r);
              var s := if Continues(t, def) then t.states[def.id].evaluation else INITIAL;
              var x := EvaluatorRuns.Sample(r.values[def.input.valueIndex], r.receivedAt.uptime);
              var e := Evaluated(def, s, x.input, x.at);
              && def.id in t'.states
              && (e.Err? ==> outcome == Err(EvaluationFailed(e.error)))
              && (e.Ok? && Emission(def, s, x) == [] ==> outcome == Ok(SilentInput))
              && (e.Ok? && Emission(def, s, x) != [] ==>
                    outcome == Ok(Published(Observation(def.id, t'.states[def.id].series, t'.states[def.id].next - 1,
                                                        r.receivedAt, Emission(def, s, x)[0]))))
  {
  }

  lemma FedAppend(hist: seq<Feed>, f: Feed, series: nat)
    ensures FedTo(hist + [f], series) == if f.series == series then FedTo(hist, series) + [f] else FedTo(hist, series)
  {
    assert (hist + [f])[..|hist|] == hist;
  }

  lemma FeedAppend(fs: seq<Feed>, f: Feed)
    ensures StateAfter(fs + [f]) == EvaluatorRuns.After(f.def, StateAfter(fs), SampleOf(f))
    ensures EmittedBy(fs + [f]) == EmittedBy(fs) + Emission(f.def, StateAfter(fs), SampleOf(f))
  {
    assert (fs + [f])[..|fs|] == fs;
  }

  lemma AppendValue(log: seq<Row>, row: Row, series: nat)
    ensures Values(SeriesRows(log + [row], series))
            == Values(SeriesRows(log, series)) + if InSeries(row, series) then [row.payload.value.value] else []
  {
    AppendRow(log, row, series);
  }

  /** What is known of one series: its structural fields, feeds, published values and evaluation state. */
  datatype Track = Track(hash: Structural, fed: seq<Feed>, values: seq<Value>, evaluation: EvaluationState)

  /** The values are the opening and the emissions of the feeds, and the state is where they lead. */
  predicate Explains(k: Track) {
    && k.values == Opening(k.hash.kind) + EmittedBy(k.fed)
    && k.evaluation == StateAfter(k.fed)
    && forall i | 0 <= i < |k.fed| :: k.fed[i].def.StructuralFields() == k.hash
  }

  predicate AllExplain(ks: seq<Track>) {
    forall i | 0 <= i < |ks| :: Explains(ks[i])
  }

  /** The track of a series that was started agrees with the outbox and the feeds; the others have none. */
  ghost predicate SeriesTracked(log: seq<Row>, hist: seq<Feed>, ks: seq<Track>, series: nat) {
    if series < |ks|
    then ks[series].fed == FedTo(hist, series) && ks[series].values == Values(SeriesRows(log, series))
    else FedTo(hist, series) == []
  }

  predicate StateTracked(ks: seq<Track>, s: PipelineState) {
    s.series < |ks| && ks[s.series].hash == s.hash && ks[s.series].evaluation == s.evaluation
  }

  /** The tracks, one per series, agree with the tables and with the feeds so far. */
  ghost predicate Tracked(t: Tables, hist: seq<Feed>, ks: seq<Track>) {
    && |ks| == t.nextSeries
    && (forall series: nat :: SeriesTracked(t.log, hist, ks, series))
    && (forall id | id in t.states :: StateTracked(ks, t.states[id]))
  }

  ghost predicate Trace(t: Tables, hist: seq<Feed>, ks: seq<Track>) {
    Tracked(t, hist, ks) && AllExplain(ks)
  }

  lemma ExplainAppend(ks: seq<Track>, k: Track)
    requires AllExplain(ks) && Explains(k)
    ensures AllExplain(ks + [k])
  {
  }

  lemma ExplainUpdate(ks: seq<Track>, i: nat, k: Track)
    requires i < |ks| && AllExplain(ks) && Explains(k)
    ensures AllExplain(ks[i := k])
  {
  }

  // Starting a series

  lemma StartValues(t: Tables, def: PipelineDefinition, now: InputTime, series: nat)
    ensures Values(SeriesRows(StartSeries(t, def, now).0.log, series))
            == Values(SeriesRows(t.log, series)) + if series == t.nextSeries then Opening(def.kind) else []
  {
    var t' := StartSeries(t, def, now).0;
    if def.kind == AccumulatedCount { AppendValue(t.log, t'.log[|t.log|], series); }
  }

  function Started(def: PipelineDefinition): Track {
    Track(def.StructuralFields(), [], Opening(def.kind), INITIAL)
  }

  lemma StartTracked(t: Tables, t': Tables, id: PipelineId, hist: seq<Feed>, ks: seq<Track>, k: Track)
    requires Tracked(t, hist, ks) && k.fed == []
    requires t'.nextSeries == t.nextSeries + 1
    requires forall series: nat | series < t'.nextSeries ::
               Values(SeriesRows(t'.log, series)) == if series == t.nextSeries then k.values else Values(SeriesRows(t.log, series))
    requires id in t'.states && t'.states == t.states[id := t'.states[id]]
    requires t'.states[id].series == t.nextSeries && t'.states[id].hash == k.hash && t'.states[id].evaluation == k.evaluation
    ensures Tracked(t', hist, ks + [k])
  {
    var ks' := ks + [k];
    forall series: nat ensures SeriesTracked(t'.log, hist, ks', series) {
      assert SeriesTracked(t.log, hist, ks, series);
    }
    forall other | other in t'.states ensures StateTracked(ks', t'.states[other]) {
      assert other != id ==> StateTracked(ks, t.states[other]);
    }
  }

  lemma StartTraced(t: Tables, def: PipelineDefinition, now: InputTime, hist: seq<Feed>, ks: seq<Track>)
    requires Inv(t) && Trace(t, hist, ks)
    ensures Trace(StartSeries(t, def, now).0, hist, ks + [Started(def)])
  {
    var t' := StartSeries(t, def, now).0;
    StartSeriesKeeps(t, def, now);
    forall series: nat | series < t'.nextSeries
      ensures Values(SeriesRows(t'.log, series))
              == if series == t.nextSeries then Opening(def.kind) else Values(SeriesRows(t.log, series))
    {
      StartValues(t, def, now, series);
      assert series == t.nextSeries ==> SeriesRows(t.log, series) == [];
    }
    StartFacts(t, def, now);
    StartTracked(t, t', def.id, hist, ks, Started(def));
    ExplainAppend(ks, Started(def));
  }

  lemma StartFacts(t: Tables, def: PipelineDefinition, now: InputTime)
    ensures var t' := StartSeries(t, def, now).0;
            && t'.states[def.id].hash == def.StructuralFields() && t'.states[def.id].evaluation == INITIAL
  {
  }

  // Feeding a series

  function Fed(k: Track, f: Feed, emission: seq<Value>, evaluation: EvaluationState): Track {
    k.(fed := k.fed + [f], values := k.values + emission, evaluation := evaluation)
  }

  lemma FedExplains(k: Track, f: Feed)
    requires Explains(k) && f.def.StructuralFields() == k.hash
    ensures Explains(Fed(k, f, Emission(f.def, k.evaluation, SampleOf(f)),
                         EvaluatorRuns.After(f.def, k.evaluation, SampleOf(f))))
  {
    FeedAppend(k.fed, f);
  }

  lemma FeedSeries(
    log: seq<Row>, log': seq<Row>, f: Feed, emission: seq<Value>, evaluation: EvaluationState,
    hist: seq<Feed>, ks: seq<Track>, series: nat)
    requires SeriesTracked(log, hist, ks, series) && f.series < |ks|
    requires Values(SeriesRows(log', series))
             == Values(SeriesRows(log, series)) + if series == f.series then emission else []
    ensures SeriesTracked(log', hist + [f], ks[f.series := Fed(ks[f.series], f, emission, evaluation)], series)
  {
    FedAppend(hist, f, series);
  }

  /** Only the series of the feed moves. */
  lemma FeedTracked(
    t: Tables, t': Tables, id: PipelineId, f: Feed, emission: seq<Value>, evaluation: EvaluationState,
    hist: seq<Feed>, ks: seq<Track>)
    requires Tracked(t, hist, ks) && id in t.states && f.series == t.states[id].series
    requires forall other | other in t.states && other != id :: t.states[other].series != f.series
    requires t'.nextSeries == t.nextSeries
    requires forall series: nat ::
               Values(SeriesRows(t'.log, series))
               == Values(SeriesRows(t.log, series)) + if series == f.series then emission else []
    requires id in t'.states && t'.states == t.states[id := t'.states[id]]
    requires t'.states[id].series == f.series && t'.states[id].hash == t.states[id].hash
    requires t'.states[id].evaluation == evaluation
    ensures Tracked(t', hist + [f], ks[f.series := Fed(ks[f.series], f, emission, evaluation)])
  {
    var ks' := ks[f.series := Fed(ks[f.series], f, emission, evaluation)];
    forall series: nat ensures SeriesTracked(t'.log, hist + [f], ks', series) {
      FeedSeries(t.log, t'.log, f, emission, evaluation, hist, ks, series);
    }
    forall other | other in t'.states ensures StateTracked(ks', t'.states[other]) {
      assert StateTracked(ks, t.states[other]);
    }
  }

  lemma ProcessValues(t: Tables, def: PipelineDefinition, value: Float, at: InputTime, series: nat)
    requires Continues(t, def)
    ensures Values(SeriesRows(Process(t, def, value, at).0.log, series))
            == Values(SeriesRows(t.log, series))
               + if series == t.states[def.id].series
                 then Emission(def, t.states[def.id].evaluation, EvaluatorRuns.Sample(value, at.uptime)) else []
  {
    ProcessDrivesEvaluator(t, def, value, at);
    var t' := Process(t, def, value, at).0;
    if |t'.log| > |t.log| { AppendValue(t.log, t'.log[|t.log|], series); }
  }

  lemma FeedTraced(
    t: Tables, def: PipelineDefinition, value: Float, at: InputTime, hist: seq<Feed>, ks: seq<Track>)
    returns (ks': seq<Track>)
    requires Inv(t) && Trace(t, hist, ks) && Continues(t, def)
    ensures Trace(Process(t, def, value, at).0, hist + [Feed(t.states[def.id].series, def, value, at)], ks')
  {
    var f := Feed(t.states[def.id].series, def, value, at);
    var k := ks[f.series];
    var emission := Emission(def, k.evaluation, SampleOf(f));
    var evaluation := EvaluatorRuns.After(def, k.evaluation, SampleOf(f));
    ProcessDrivesEvaluator(t, def, value, at);
    forall series: nat
      ensures Values(SeriesRows(Process(t, def, value, at).0.log, series))
              == Values(SeriesRows(t.log, series)) + if series == f.series then emission else []
    {
      ProcessValues(t, def, value, at, series);
    }
    FeedTracked(t, Process(t, def, value, at).0, def.id, f, emission, evaluation, hist, ks);
    FedExplains(k, f);
    ks' := ks[f.series := Fed(k, f, emission, evaluation)];
    ExplainUpdate(ks, f.series, ks'[f.series]);
  }

  /** A delivered input: the series is started if need be, then fed. */
  lemma ProcessTraced(
    t: Tables, def: PipelineDefinition, value: Float, at: InputTime, hist: seq<Feed>, ks: seq<Track>)
    returns (ks': seq<Track>)
    requires Inv(t) && Trace(t, hist, ks)
    ensures var t' := Process(t, def, value, at).0;
            def.id in t'.states && Trace(t', hist + [Feed(t'.states[def.id].series, def, value, at)], ks')
  {
    if Continues(t, def) {
      ProcessDrivesEvaluator(t, def, value, at);
      ks' := FeedTraced(t, def, value, at, hist, ks);
    } else {
      StartSeriesKeeps(t, def, at);
      StartTraced(t, def, at, hist, ks);
      var t1 := StartSeries(t, def, at).0;
      ProcessDrivesEvaluator(t1, def, value, at);
      ks' := FeedTraced(t1, def, value, at, hist, ks + [Started(def)]);
      assert Process(t, def, value, at) == Process(t1, def, value, at);
    }
  }

  // ---------------------------------------------------------------------------
  // Operations
  // ---------------------------------------------------------------------------

  /** Rows without a payload and lost states leave every series as it was. */
  lemma ShrinkTraced(t: Tables, t': Tables, hist: seq<Feed>, ks: seq<Track>)
    requires Trace(t, hist, ks) && t'.nextSeries == t.nextSeries
    requires t'.log == t.log || exists row: Row :: row.payload.None? && t'.log == t.log + [row]
    requires forall id | id in t'.states :: id in t.states && t'.states[id] == t.states[id]
    ensures Trace(t', hist, ks)
  {
    forall series: nat ensures SeriesTracked(t'.log, hist, ks, series) {
      assert SeriesTracked(t.log, hist, ks, series);
      if t'.log != t.log { AppendRow(t.log, t'.log[|t.log|], series); }
    }
  }

  lemma DropTraced(t: Tables, def: PipelineDefinition, clear: bool, now: InputTime, hist: seq<Feed>, ks: seq<Track>)
    requires Trace(t, hist, ks)
    ensures var t1 := DropDefinition(t, def.id);
            Trace(if clear then EnqueueDeletion(t1, def, now) else t1, hist, ks)
  {
    var t1 := DropDefinition(t, def.id);
    ShrinkTraced(t, t1, hist, ks);
    if clear {
      var row := Row(def.id, Topic(def.id, def.kind), None, true, now);
      assert EnqueueDeletion(t1, def, now).log == t1.log + [row];
      ShrinkTraced(t1, EnqueueDeletion(t1, def, now), hist, ks);
    }
  }

  lemma {:induction false} DropAllTraced(
    t: Tables, existing: seq<PipelineDefinition>, keep: set<PipelineId>, now: InputTime,
    hist: seq<Feed>, ks: seq<Track>)
    requires Trace(t, hist, ks)
    ensures Trace(DropAll(t, existing, keep, now), hist, ks)
    decreases |existing|
  {
    if existing != [] {
      DropTraced(t, existing[0], existing[0].id !in keep, now, hist, ks);
      var t1 := DropDefinition(t, existing[0].id);
      DropAllTraced(if existing[0].id in keep then t1 else EnqueueDeletion(t1, existing[0], now),
                    existing[1..], keep, now, hist, ks);
    }
  }

  /** Definitions do not matter to the trace. */
  lemma InstallTraced(t: Tables, def: PipelineDefinition, now: InputTime, hist: seq<Feed>, ks: seq<Track>)
    requires Inv(t) && Trace(t, hist, ks)
    ensures var t1 := t.(definitions := t.definitions[def.id := def]);
            && Inv(t1) && Trace(t1, hist, ks) && Inv(StartSeries(t1, def, now).0)
            && Trace(StartSeries(t1, def, now).0, hist, ks + [Started(def)])
  {
    InstallKeeps(t, def, now);
    StartTraced(t.(definitions := t.definitions[def.id := def]), def, now, hist, ks);
  }

  lemma {:induction false} InsertAllTraced(
    t: Tables, defs: seq<PipelineDefinition>, now: InputTime, started: seq<SeriesStart>,
    hist: seq<Feed>, ks: seq<Track>)
    returns (ks': seq<Track>)
    requires Inv(t) && Trace(t, hist, ks)
    ensures Trace(InsertAll(t, defs, now, started).0, hist, ks')
    decreases |defs|
  {
    if defs == [] {
      ks' := ks;
    } else {
      InstallTraced(t, defs[0], now, hist, ks);
      var (t1, start) := StartSeries(t.(definitions := t.definitions[defs[0].id := defs[0]]), defs[0], now);
      ks' := InsertAllTraced(t1, defs[1..], now, started + [start], hist, ks + [Started(defs[0])]);
    }
  }

  lemma {:induction false} ReconcileAllTraced(
    t: Tables, defs: seq<PipelineDefinition>, now: InputTime, started: seq<SeriesStart>,
    hist: seq<Feed>, ks: seq<Track>)
    returns (ks': seq<Track>)
    requires Inv(t) && Trace(t, hist, ks)
    ensures Trace(ReconcileAll(t, defs, now, started).0, hist, ks')
    decreases |defs|
  {
    if defs == [] {
      ks' := ks;
    } else if Continues(t, defs[0]) {
      ks' := ReconcileAllTraced(t, defs[1..], now, started, hist, ks);
    } else {
      StartSeriesKeeps(t, defs[0], now);
      StartTraced(t, defs[0], now, hist, ks);
      var (t1, start) := StartSeries(t, defs[0], now);
      ks' := ReconcileAllTraced(t1, defs[1..], now, started + [start], hist, ks + [Started(defs[0])]);
    }
  }

  /** A pipeline's feed does not depend on what later pipelines of the same delivery do. */
  lemma FeedStays(t1: Tables, defs: seq<PipelineDefinition>, r: Reading, outcomes: seq<Delivery>)
    requires defs != [] && Distinct(defs)
    ensures FeedOf(DeliverAll(t1, defs[1..], r, outcomes).0, defs[0], r) == FeedOf(t1, defs[0], r)
  {
    IdsSplit(defs);
    DeliverAllEffects(t1, defs[1..], r, outcomes);
    assert SameState(t1, DeliverAll(t1, defs[1..], r, outcomes).0, defs[0].id);
  }

  lemma DeliverOneTraced(t: Tables, def: PipelineDefinition, r: Reading, hist: seq<Feed>, ks: seq<Track>)
    returns (ks': seq<Track>)
    requires Inv(t) && Trace(t, hist, ks)
    ensures var t1 := DeliverOne(t, def, r).0;
            Inv(t1) && Trace(t1, hist + FeedOf(t1, def, r), ks')
  {
    ks' := ks;
    if def.input.valueIndex < |r.values| {
      ProcessKeeps(t, def, r.values[def.input.valueIndex], r.receivedAt);
      ks' := ProcessTraced(t, def, r.values[def.input.valueIndex], r.receivedAt, hist, ks);
    } else {
      assert hist + [] == hist;
    }
  }

  lemma {:induction false} DeliverAllTraced(
    t: Tables, defs: seq<PipelineDefinition>, r: Reading, outcomes: seq<Delivery>, hist: seq<Feed>, ks: seq<Track>)
    returns (ks': seq<Track>)
    requires Inv(t) && Trace(t, hist, ks) && Distinct(defs)
    ensures var t' := DeliverAll(t, defs, r, outcomes).0; Trace(t', FeedsOf(t', defs, r, hist), ks')
    decreases |defs|, 1
  {
    if defs == [] {
      ks' := ks;
    } else {
      var (t1, outcome) := DeliverOne(t, defs[0], r);
      var ks1 := DeliverOneTraced(t, defs[0], r, hist, ks);
      ks' := DeliverRestTraced(t1, defs, r, outcomes + [(defs[0].id, outcome)], hist, ks1);
    }
  }

  lemma {:induction false} DeliverRestTraced(
    t1: Tables, defs: seq<PipelineDefinition>, r: Reading, outcomes: seq<Delivery>, hist: seq<Feed>, ks: seq<Track>)
    returns (ks': seq<Track>)
    requires defs != [] && Distinct(defs) && Inv(t1) && Trace(t1, hist + FeedOf(t1, defs[0], r), ks)
    ensures var t' := DeliverAll(t1, defs[1..], r, outcomes).0; Trace(t', FeedsOf(t', defs, r, hist), ks')
    decreases |defs|, 0
  {
    FeedStays(t1, defs, r, outcomes);
    ks' := DeliverAllTraced(t1, defs[1..], r, outcomes, hist + FeedOf(t1, defs[0], r), ks);
  }

  lemma DeliverTraced(t: Tables, r: Reading, hist: seq<Feed>, ks: seq<Track>) returns (ks': seq<Track>)
    requires Inv(t) && Trace(t, hist, ks)
    ensures Trace(Apply(t, DeliverOp(r)), OpFeeds(t, DeliverOp(r), hist), ks')
  {
    SelectSorted(t, MatchingIds(t, r));
    ks' := DeliverAllTraced(t, Select(t, Sorted(MatchingIds(t, r))), r, [], hist, ks);
  }

  lemma ImportTraced(t: Tables, defs: seq<PipelineDefinition>, now: InputTime, hist: seq<Feed>, ks: seq<Track>)
    returns (ks': seq<Track>)
    requires Inv(t) && Trace(t, hist, ks) && AllValid(defs) && Distinct(defs)
    ensures Trace(Import(t, defs, now).value.0, hist, ks')
  {
    DropAllKeeps(t, Listed(t), Ids(defs), now);
    DropAllTraced(t, Listed(t), Ids(defs), now, hist, ks);
    ks' := InsertAllTraced(DropAll(t, Listed(t), Ids(defs), now), defs, now, [], hist, ks);
  }

  lemma ConfigTraced(t: Tables, op: Op, hist: seq<Feed>, ks: seq<Track>) returns (ks': seq<Track>)
    requires Inv(t) && Trace(t, hist, ks) && !op.DeliverOp?
    ensures Trace(Apply(t, op), hist, ks')
  {
    ks' := ks;
    match op
    case CreateOp(def, now) =>
      InstallTraced(t, def, now, hist, ks);
      if Create(t, def, now).Ok? { ks' := ks + [Started(def)]; }
    case UpdateOp(def, now) =>
      InstallTraced(t, def, now, hist, ks);
      if Update(t, def, now).Ok? && Update(t, def, now).value.1.Some? { ks' := ks + [Started(def)]; }
    case DeleteOp(id, now) => if id in t.definitions { DropTraced(t, t.definitions[id], true, now, hist, ks); }
    case ResetOp(id, now) =>
      if id in t.definitions {
        StartTraced(t, t.definitions[id], now, hist, ks);
        ks' := ks + [Started(t.definitions[id])];
      }
    case ImportOp(defs, now) =>
      if AllValid(defs) && Distinct(defs) { ks' := ImportTraced(t, defs, now, hist, ks); }
    case ReconcileOp(now) => ks' := ReconcileAllTraced(t, Listed(t), now, [], hist, ks);
    case LoseState(id) => ShrinkTraced(t, Apply(t, op), hist, ks);
    case EditDefinition(def) => ShrinkTraced(t, Apply(t, op), hist, ks);
    case DeliverOp(_) =>
  }

  lemma OpTraced(t: Tables, op: Op, hist: seq<Feed>, ks: seq<Track>) returns (ks': seq<Track>)
    requires Inv(t) && Trace(t, hist, ks)
    ensures Inv(Apply(t, op)) && Trace(Apply(t, op), OpFeeds(t, op, hist), ks')
  {
    ApplyKeeps(t, op);
    if op.DeliverOp? {
      ks' := DeliverTraced(t, op.reading, hist, ks);
    } else {
      ks' := ConfigTraced(t, op, hist, ks);
    }
  }

  lemma {:induction false} RunTraced(t: Tables, ops: seq<Op>, hist: seq<Feed>, ks: seq<Track>)
    returns (ks': seq<Track>)
    requires Inv(t) && Trace(t, hist, ks)
    ensures Trace(Run(t, ops), History(t, ops, hist), ks')
    decreases |ops|
  {
    if ops == [] {
      ks' := ks;
    } else {
      var ks1 := OpTraced(t, ops[0], hist, ks);
      ks' := RunTraced(Apply(t, ops[0]), ops[1..], OpFeeds(t, ops[0], hist), ks1);
    }
  }

  /** Under these structural fields the feeds explain the values of the series and the state holding it. */
  ghost predicate Explained(t: Tables, series: nat, fed: seq<Feed>, hash: Structural) {
    && Values(SeriesRows(t.log, series)) == Opening(hash.kind) + EmittedBy(fed)
    && (forall i | 0 <= i < |fed| :: fed[i].def.StructuralFields() == hash)
    && (forall id | id in t.states && t.states[id].series == series ::
          t.states[id].hash == hash && t.states[id].evaluation == StateAfter(fed))
  }

  /**
   Over any run, with deliveries to other pipelines, tuning updates, imports and accidents in
   between: every series ever started holds exactly its opening value and what the evaluator
   emits for the inputs delivered to its pipeline while it was held, each evaluated under the
   definition in force; all those definitions share their structural fields, and the state still
   holding the series is where those inputs left it.
   */
  lemma SeriesIsEvaluation(ops: seq<Op>, series: nat)
    requires series < Run(EMPTY, ops).nextSeries
    ensures exists hash :: Explained(Run(EMPTY, ops), series, FedTo(History(EMPTY, ops, []), series), hash)
  {
    EmptyTraced();
    var ks := RunTraced(EMPTY, ops, [], []);
    TraceExplains(Run(EMPTY, ops), History(EMPTY, ops, []), ks, series);
  }

  lemma EmptyTraced()
    ensures Inv(EMPTY) && Trace(EMPTY, [], [])
  {
    assert forall series: nat :: FedTo([], series) == [];
  }

  lemma TraceExplains(t: Tables, hist: seq<Feed>, ks: seq<Track>, series: nat)
    requires Trace(t, hist, ks) && series < t.nextSeries
    ensures Explained(t, series, FedTo(hist, series), ks[series].hash)
  {
    assert Explains(ks[series]) && SeriesTracked(t.log, hist, ks, series);
    forall id | id in t.states && t.states[id].series == series
      ensures t.states[id].hash == ks[series].hash && t.states[id].evaluation == ks[series].evaluation
    {
      assert StateTracked(ks, t.states[id]);
    }
  }

  function Samples(fs: seq<Feed>): seq<EvaluatorRuns.Sample> {
    seq(|fs|, i requires 0 <= i < |fs| => SampleOf(fs[i]))
  }

  /** Under one unchanged definition the feeds are an input list of the evaluator's own theorems. */
  lemma {:induction false} UntunedFeeds(def: PipelineDefinition, fs: seq<Feed>, k: nat)
    requires k <= |fs| && forall i | 0 <= i < k :: fs[i].def == def
    ensures StateAfter(fs[..k]) == EvaluatorRuns.StateAt(def, Samples(fs), k)
  {
    if k > 0 {
      UntunedFeeds(def, fs, k - 1);
      assert fs[..k][..k - 1] == fs[..k - 1];
    }
  }

  // ---------------------------------------------------------------------------
  // Topics
  // ---------------------------------------------------------------------------

  /** Retained, on the topic of the pipeline and of the kind of the value; or a clear of such a topic. */
  predicate Addressed(row: Row) {
    && row.retain && row.topic.pipeline == row.pipeline
    && (row.payload.Some? ==>
          row.payload.value.pipeline == row.pipeline && row.topic.kind == row.payload.value.value.Kind())
  }

  predicate AllAddressed(log: seq<Row>) {
    forall i | 0 <= i < |log| :: Addressed(log[i])
  }

  lemma ProcessAddressed(t: Tables, def: PipelineDefinition, input: Float, at: InputTime)
    requires AllAddressed(t.log)
    ensures AllAddressed(Process(t, def, input, at).0.log)
  {
  }

  lemma {:induction false} LoopsAddressed(
    t: Tables, defs: seq<PipelineDefinition>, keep: set<PipelineId>, r: Reading, now: InputTime,
    started: seq<SeriesStart>, outcomes: seq<Delivery>)
    requires AllAddressed(t.log)
    ensures AllAddressed(DropAll(t, defs, keep, now).log)
    ensures AllAddressed(InsertAll(t, defs, now, started).0.log)
    ensures AllAddressed(ReconcileAll(t, defs, now, started).0.log)
    ensures AllAddressed(DeliverAll(t, defs, r, outcomes).0.log)
    decreases |defs|
  {
    if defs != [] {
      var d, rest := defs[0], defs[1..];
      var dropped := DropDefinition(t, d.id);
      LoopsAddressed(if d.id in keep then dropped else EnqueueDeletion(dropped, d, now), rest, keep, r, now, started, outcomes);
      var (t1, s1) := StartSeries(t.(definitions := t.definitions[d.id := d]), d, now);
      LoopsAddressed(t1, rest, keep, r, now, started + [s1], outcomes);
      var (t2, s2) := StartSeries(t, d, now);
      LoopsAddressed(t2, rest, keep, r, now, started + [s2], outcomes);
      LoopsAddressed(t, rest, keep, r, now, started, outcomes);
      if d.input.valueIndex < |r.values| { ProcessAddressed(t, d, r.values[d.input.valueIndex], r.receivedAt); }
      var (t3, o) := DeliverOne(t, d, r);
      LoopsAddressed(t3, rest, keep, r, now, started, outcomes + [(d.id, o)]);
    }
  }

  const ANY := Reading("", None, "", None, [], InputTime(0, None))

  lemma ApplyAddressed(t: Tables, op: Op)
    requires AllAddressed(t.log)
    ensures AllAddressed(Apply(t, op).log)
  {
    match op
    case ImportOp(defs, now) =>
      LoopsAddressed(t, Listed(t), Ids(defs), ANY, now, [], []);
      LoopsAddressed(DropAll(t, Listed(t), Ids(defs), now), defs, {}, ANY, now, [], []);
    case ReconcileOp(now) => LoopsAddressed(t, Listed(t), {}, ANY, now, [], []);
    case DeliverOp(r) =>
      LoopsAddressed(t, Select(t, Sorted(MatchingIds(t, r))), {}, r, InputTime(0, None), [], []);
    case _ =>
  }

  lemma {:induction false} RunAddressed(t: Tables, ops: seq<Op>)
    requires AllAddressed(t.log)
    ensures AllAddressed(Run(t, ops).log)
    decreases |ops|
  {
    if ops != [] {
      ApplyAddressed(t, ops[0]);
      RunAddressed(Apply(t, ops[0]), ops[1..]);
    }
  }

  /** Over any run every outbox row is retained on its own pipeline's topic for its own kind. */
  lemma RowsAreAddressed(ops: seq<Op>)
    ensures AllAddressed(Run(EMPTY, ops).log)
  {
    RunAddressed(EMPTY, ops);
  }
}
