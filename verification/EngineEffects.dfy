/**
 What the operations that loop over pipelines achieve as a whole: import replaces everything,
 reconcile repairs exactly what is broken, and delivery treats every pipeline as if it were alone.
 */
module EngineEffects {
  import opened Types
  import opened Definition
  import opened Ordering
  import Evaluator
  import opened Engine
  import opened EngineRuns

  ghost predicate Keyed(t: Tables) {
    forall id | id in t.definitions :: t.definitions[id].id == id
  }

  predicate SameState(t: Tables, t': Tables, id: PipelineId) {
    && (id in t.states <==> id in t'.states)
    && (id in t.states ==> t'.states[id] == t.states[id])
  }

  lemma {:induction false} SelectFacts(t: Tables, ids: seq<PipelineId>)
    requires Keyed(t) && forall i | 0 <= i < |ids| :: ids[i] in t.definitions
    ensures |Select(t, ids)| == |ids|
    ensures forall i | 0 <= i < |ids| :: Select(t, ids)[i] == t.definitions[ids[i]] && Select(t, ids)[i].id == ids[i]
    decreases |ids|
  {
    if ids != [] { SelectFacts(t, ids[1..]); }
  }

  /** Listing by id order yields each definition once. */
  lemma SelectSorted(t: Tables, ids: set<PipelineId>)
    requires Keyed(t) && ids <= t.definitions.Keys
    ensures var defs := Select(t, Sorted(ids));
            && |defs| == |Sorted(ids)| && Distinct(defs) && Ids(defs) == ids
            && (forall i | 0 <= i < |defs| :: defs[i].id == Sorted(ids)[i] && defs[i] == t.definitions[defs[i].id])
  {
    SortedFacts(ids);
    SelectFacts(t, Sorted(ids));
    var defs := Select(t, Sorted(ids));
    forall id | id in ids ensures id in Ids(defs) {
      var i :| 0 <= i < |Sorted(ids)| && Sorted(ids)[i] == id;
      assert defs[i].id == id;
    }
  }

  // ---------------------------------------------------------------------------
  // Delivery
  // ---------------------------------------------------------------------------

  lemma DeliverOneFrame(t: Tables, def: PipelineDefinition, r: Reading)
    ensures var t' := DeliverOne(t, def, r).0;
            && t'.definitions == t.definitions && t.log <= t'.log
            && (forall id | id != def.id :: SameState(t, t', id))
            && (forall k | |t.log| <= k < |t'.log| :: t'.log[k].pipeline == def.id)
  {
  }

  /** The rows added between two states of the log. */
  function Added(t: Tables, t': Tables): seq<Row>
    requires |t.log| <= |t'.log|
  {
    t'.log[|t.log|..]
  }

  /** Those of one pipeline. */
  function Own(rows: seq<Row>, id: PipelineId): seq<Row> {
    if rows == [] then []
    else
      var before := Own(rows[..|rows| - 1], id);
      if rows[|rows| - 1].pipeline == id then before + [rows[|rows| - 1]] else before
  }

  function Renumbered(rows: seq<Row>, series: nat): seq<Row> {
    seq(|rows|, i requires 0 <= i < |rows| =>
      if rows[i].payload.Some? then rows[i].(payload := Some(rows[i].payload.value.(series := series))) else rows[i])
  }

  function Recast(outcome: Result<DeliveryOutcome, EngineError>, series: nat): Result<DeliveryOutcome, EngineError> {
    match outcome
    case Ok(Published(o)) => Ok(Published(o.(series := series)))
    case _ => outcome
  }

  /** The same state; if a series was started, up to the number it got. */
  predicate SameUpToSeries(alone: Tables, t': Tables, id: PipelineId) {
    && (id in alone.states <==> id in t'.states)
    && (id in alone.states ==> t'.states[id] == alone.states[id].(series := t'.states[id].series))
  }

  function SeriesOf(t: Tables, id: PipelineId): nat {
    if id in t.states then t.states[id].series else 0
  }

  /**
   In t' the pipeline has the outcome, state and rows that delivery to it alone gives it: exactly
   if it continues its series, and up to the number of the new series if it starts one.
   */
  ghost predicate AsIfAlone(
    t: Tables, def: PipelineDefinition, r: Reading, t': Tables, outcome: Result<DeliveryOutcome, EngineError>)
  {
    var (alone, own) := DeliverOne(t, def, r);
    && |t.log| <= |alone.log| && |t.log| <= |t'.log|
    && SameUpToSeries(alone, t', def.id)
    && outcome == Recast(own, SeriesOf(t', def.id))
    && Own(Added(t, t'), def.id) == Renumbered(Added(t, alone), SeriesOf(t', def.id))
    && (Continues(t, def) ==>
          && SameState(alone, t', def.id) && outcome == own && Own(Added(t, t'), def.id) == Added(t, alone))
  }

  function RowOf(o: Observation): Row {
    Row(o.pipeline, Topic(o.pipeline, o.value.Kind()), Some(o), true, o.at)
  }

  function OutcomeRows(outcome: Result<DeliveryOutcome, EngineError>): seq<Row> {
    match outcome
    case Ok(Published(o)) => [RowOf(o)]
    case _ => []
  }

  /** A continuing pipeline adds the row of its outcome and stays in its series. */
  lemma ProcessRows(t: Tables, def: PipelineDefinition, value: Float, at: InputTime)
    requires Continues(t, def)
    ensures var (t', outcome) := Process(t, def, value, at);
            && t'.log == t.log + OutcomeRows(outcome)
            && def.id in t'.states && t'.states[def.id].series == t.states[def.id].series
            && Recast(outcome, t.states[def.id].series) == outcome
  {
  }

  /** The same state but for the series number gives the same result but for the series number. */
  lemma ProcessLocal(t: Tables, u: Tables, def: PipelineDefinition, value: Float, at: InputTime)
    requires Continues(t, def) && Continues(u, def)
    requires u.states[def.id] == t.states[def.id].(series := u.states[def.id].series)
    ensures var ((t', a), (u', b)) := (Process(t, def, value, at), Process(u, def, value, at));
            SameUpToSeries(t', u', def.id) && b == Recast(a, u.states[def.id].series)
  {
  }

  lemma RecastRows(outcome: Result<DeliveryOutcome, EngineError>, series: nat)
    ensures OutcomeRows(Recast(outcome, series)) == Renumbered(OutcomeRows(outcome), series)
  {
  }

  function OpeningRows(start: SeriesStart): seq<Row> {
    if start.published.Some? then [RowOf(start.published.value)] else []
  }

  lemma StartRows(t: Tables, u: Tables, def: PipelineDefinition, now: InputTime)
    ensures var ((t', a), (u', b)) := (StartSeries(t, def, now), StartSeries(u, def, now));
            && t'.log == t.log + OpeningRows(a) && Continues(t', def)
            && u'.log == u.log + OpeningRows(b) && Continues(u', def)
            && u'.states[def.id] == t'.states[def.id].(series := u'.states[def.id].series)
            && OpeningRows(b) == Renumbered(OpeningRows(a), u'.states[def.id].series)
  {
  }

  /** What one delivery does to its own pipeline depends on that pipeline's state alone. */
  ghost predicate Local(t: Tables, u: Tables, def: PipelineDefinition, r: Reading) {
    var ((t', a), (u', b)) := (DeliverOne(t, def, r), DeliverOne(u, def, r));
    && |t.log| <= |t'.log| && |u.log| <= |u'.log|
    && SameUpToSeries(t', u', def.id)
    && b == Recast(a, SeriesOf(u', def.id))
    && Added(u, u') == Renumbered(Added(t, t'), SeriesOf(u', def.id))
    && (Continues(t, def) ==> SameState(t', u', def.id) && a == b && Added(t, t') == Added(u, u'))
  }

  lemma ContinuingLocal(t: Tables, u: Tables, def: PipelineDefinition, r: Reading)
    requires SameState(t, u, def.id) && Continues(t, def) && def.input.valueIndex < |r.values|
    ensures Local(t, u, def, r)
  {
    var value, at := r.values[def.input.valueIndex], r.receivedAt;
    ProcessRows(t, def, value, at);
    ProcessRows(u, def, value, at);
    ProcessLocal(t, u, def, value, at);
    RecastRows(Process(t, def, value, at).1, u.states[def.id].series);
  }

  lemma AddedTwice(t: Tables, t1: Tables, t': Tables, a: seq<Row>, b: seq<Row>)
    requires t1.log == t.log + a && t'.log == t1.log + b
    ensures Added(t, t') == a + b
  {
  }

  lemma RenumberedConcat(a: seq<Row>, b: seq<Row>, series: nat)
    ensures Renumbered(a + b, series) == Renumbered(a, series) + Renumbered(b, series)
  {
  }

  lemma StartingLocal(t: Tables, u: Tables, def: PipelineDefinition, r: Reading)
    requires SameState(t, u, def.id) && !Continues(t, def) && def.input.valueIndex < |r.values|
    ensures Local(t, u, def, r)
  {
    var value, at := r.values[def.input.valueIndex], r.receivedAt;
    var (t1, a) := StartSeries(t, def, at);
    var (u1, b) := StartSeries(u, def, at);
    StartRows(t, u, def, at);
    ProcessRows(t1, def, value, at);
    ProcessRows(u1, def, value, at);
    ProcessLocal(t1, u1, def, value, at);
    var ((t', outcome), (u', _)) := (Process(t1, def, value, at), Process(u1, def, value, at));
    var series := u1.states[def.id].series;
    RecastRows(outcome, series);
    AddedTwice(t, t1, t', OpeningRows(a), OutcomeRows(outcome));
    AddedTwice(u, u1, u', OpeningRows(b), OutcomeRows(Recast(outcome, series)));
    RenumberedConcat(OpeningRows(a), OutcomeRows(outcome), series);
    assert DeliverOne(t, def, r) == (t', outcome) && DeliverOne(u, def, r).0 == u';
  }

  lemma DeliverOneLocal(t: Tables, u: Tables, def: PipelineDefinition, r: Reading)
    requires SameState(t, u, def.id)
    ensures Local(t, u, def, r)
  {
    if def.input.valueIndex < |r.values| {
      if Continues(t, def) { ContinuingLocal(t, u, def, r); } else { StartingLocal(t, u, def, r); }
    }
  }

  /** Delivery leaves every other pipeline alone and answers for the given ones, in order. */
  ghost predicate Delivered(
    t: Tables, defs: seq<PipelineDefinition>, t': Tables, before: seq<Delivery>, outcomes: seq<Delivery>)
  {
    && |outcomes| == |before| + |defs| && before <= outcomes
    && t'.definitions == t.definitions && t.log <= t'.log
    && (forall i | 0 <= i < |defs| :: outcomes[|before| + i].0 == defs[i].id)
    && (forall id | id !in Ids(defs) :: SameState(t, t', id))
    && (forall k | |t.log| <= k < |t'.log| :: t'.log[k].pipeline in Ids(defs))
  }

  lemma IdsSplit(defs: seq<PipelineDefinition>)
    requires defs != []
    ensures Ids(defs) == {defs[0].id} + Ids(defs[1..])
    ensures Distinct(defs) ==> defs[0].id !in Ids(defs[1..])
  {
    assert defs == [defs[0]] + defs[1..];
  }

  lemma {:induction false} OwnConcat(a: seq<Row>, b: seq<Row>, id: PipelineId)
    ensures Own(a + b, id) == Own(a, id) + Own(b, id)
    decreases |b|
  {
    if b == [] {
      assert a + b == a;
    } else {
      OwnConcat(a, b[..|b| - 1], id);
      assert (a + b)[..|a + b| - 1] == a + b[..|b| - 1];
    }
  }

  lemma {:induction false} OwnAll(rows: seq<Row>, id: PipelineId)
    ensures (forall k | 0 <= k < |rows| :: rows[k].pipeline == id) ==> Own(rows, id) == rows
    ensures (forall k | 0 <= k < |rows| :: rows[k].pipeline != id) ==> Own(rows, id) == []
  {
    if rows != [] { OwnAll(rows[..|rows| - 1], id); }
  }

  lemma AddedSplit(t: Tables, t1: Tables, t': Tables, id: PipelineId)
    requires t.log <= t1.log <= t'.log
    ensures Own(Added(t, t'), id) == Own(Added(t, t1), id) + Own(Added(t1, t'), id)
  {
    assert Added(t, t') == Added(t, t1) + Added(t1, t');
    OwnConcat(Added(t, t1), Added(t1, t'), id);
  }

  /** The first pipeline keeps what it got while the others are served. */
  lemma FirstAsIfAlone(t: Tables, def: PipelineDefinition, r: Reading, t': Tables)
    requires var t1 := DeliverOne(t, def, r).0;
             && t1.log <= t'.log && SameState(t1, t', def.id)
             && forall k | |t1.log| <= k < |t'.log| :: t'.log[k].pipeline != def.id
    ensures AsIfAlone(t, def, r, t', DeliverOne(t, def, r).1)
  {
    var t1 := DeliverOne(t, def, r).0;
    DeliverOneFrame(t, def, r);
    AddedSplit(t, t1, t', def.id);
    OwnAll(Added(t, t1), def.id);
    OwnAll(Added(t1, t'), def.id);
    DeliverOneLocal(t, t, def, r);
  }

  /** A later pipeline does not notice the first. */
  lemma LaterAsIfAlone(
    t: Tables, first: PipelineDefinition, def: PipelineDefinition, r: Reading, t': Tables,
    outcome: Result<DeliveryOutcome, EngineError>)
    requires def.id != first.id && DeliverOne(t, first, r).0.log <= t'.log
    requires AsIfAlone(DeliverOne(t, first, r).0, def, r, t', outcome)
    ensures AsIfAlone(t, def, r, t', outcome)
  {
    var t1 := DeliverOne(t, first, r).0;
    DeliverOneFrame(t, first, r);
    DeliverOneLocal(t, t1, def, r);
    AddedSplit(t, t1, t', def.id);
    OwnAll(Added(t, t1), def.id);
    RecastTwice(DeliverOne(t, def, r).1, Added(t, DeliverOne(t, def, r).0),
                SeriesOf(DeliverOne(t1, def, r).0, def.id), SeriesOf(t', def.id));
  }

  lemma RecastTwice(outcome: Result<DeliveryOutcome, EngineError>, rows: seq<Row>, a: nat, b: nat)
    ensures Recast(Recast(outcome, a), b) == Recast(outcome, b)
    ensures Renumbered(Renumbered(rows, a), b) == Renumbered(rows, b)
  {
  }

  lemma DeliveredStep(
    t: Tables, t1: Tables, defs: seq<PipelineDefinition>, t': Tables, before: seq<Delivery>, first: Delivery,
    outcomes: seq<Delivery>)
    requires defs != [] && first.0 == defs[0].id
    requires t1.definitions == t.definitions && t.log <= t1.log
    requires forall id | id != defs[0].id :: SameState(t, t1, id)
    requires forall k | |t.log| <= k < |t1.log| :: t1.log[k].pipeline == defs[0].id
    requires Delivered(t1, defs[1..], t', before + [first], outcomes)
    ensures Delivered(t, defs, t', before, outcomes)
  {
    IdsSplit(defs);
    assert outcomes[|before|] == (before + [first])[|before|] == first;
    forall i | 0 < i < |defs| ensures outcomes[|before| + i].0 == defs[i].id {
      assert outcomes[|before + [first]| + (i - 1)].0 == defs[1..][i - 1].id;
    }
    forall id | id !in Ids(defs) ensures SameState(t, t', id) {
      assert SameState(t, t1, id) && SameState(t1, t', id);
    }
  }

  lemma {:induction false} DeliverAllEffects(
    t: Tables, defs: seq<PipelineDefinition>, r: Reading, before: seq<Delivery>)
    ensures var (t', outcomes) := DeliverAll(t, defs, r, before); Delivered(t, defs, t', before, outcomes)
    decreases |defs|
  {
    if defs != [] {
      var (t1, outcome) := DeliverOne(t, defs[0], r);
      var first := (defs[0].id, outcome);
      DeliverOneFrame(t, defs[0], r);
      DeliverAllEffects(t1, defs[1..], r, before + [first]);
      var (t', outcomes) := DeliverAll(t1, defs[1..], r, before + [first]);
      DeliveredStep(t, t1, defs, t', before, first, outcomes);
    }
  }

  lemma FirstServed(t: Tables, defs: seq<PipelineDefinition>, r: Reading, before: seq<Delivery>)
    requires defs != [] && Distinct(defs)
    ensures var (t', outcomes) := DeliverAll(t, defs, r, before);
            |before| < |outcomes| && AsIfAlone(t, defs[0], r, t', outcomes[|before|].1)
  {
    var (t1, outcome) := DeliverOne(t, defs[0], r);
    var before1 := before + [(defs[0].id, outcome)];
    IdsSplit(defs);
    DeliverAllEffects(t1, defs[1..], r, before1);
    assert DeliverAll(t, defs, r, before).1[|before|] == before1[|before|];
    FirstAsIfAlone(t, defs[0], r, DeliverAll(t, defs, r, before).0);
  }

  /** Whether it comes first or later, each pipeline is served as if it were alone. */
  lemma {:induction false} DeliverAllLocal(
    t: Tables, defs: seq<PipelineDefinition>, r: Reading, before: seq<Delivery>, i: nat)
    requires Distinct(defs) && i < |defs|
    ensures var (t', outcomes) := DeliverAll(t, defs, r, before);
            |before| + i < |outcomes| && AsIfAlone(t, defs[i], r, t', outcomes[|before| + i].1)
    decreases |defs|
  {
    if i == 0 {
      FirstServed(t, defs, r, before);
    } else {
      var (t1, outcome) := DeliverOne(t, defs[0], r);
      var before1 := before + [(defs[0].id, outcome)];
      assert DeliverAll(t, defs, r, before) == DeliverAll(t1, defs[1..], r, before1);
      assert Distinct(defs[1..]) && defs[1..][i - 1] == defs[i] && |before1| + (i - 1) == |before| + i;
      DeliverAllLocal(t1, defs[1..], r, before1, i - 1);
      var (t', outcomes) := DeliverAll(t1, defs[1..], r, before1);
      assert t1.log <= t'.log by { DeliverAllEffects(t1, defs[1..], r, before1); }
      LaterAsIfAlone(t, defs[0], defs[i], r, t', outcomes[|before| + i].1);
    }
  }

  lemma DeliverFrame(t: Tables, r: Reading)
    requires Keyed(t)
    ensures var (t', outcomes) := Deliver(t, r);
            var ids := Sorted(MatchingIds(t, r));
            && |outcomes| == |ids| && (forall i | 0 <= i < |ids| :: outcomes[i].0 == ids[i])
            && (forall id | id !in MatchingIds(t, r) :: SameState(t, t', id))
            && t'.definitions == t.definitions && t.log <= t'.log
            && (forall k | |t.log| <= k < |t'.log| :: t'.log[k].pipeline in MatchingIds(t, r))
  {
    SelectSorted(t, MatchingIds(t, r));
    DeliverAllEffects(t, Select(t, Sorted(MatchingIds(t, r))), r, []);
  }

  lemma DeliverLocal(t: Tables, r: Reading, i: nat)
    requires Keyed(t) && i < |Sorted(MatchingIds(t, r))|
    ensures var (t', outcomes) := Deliver(t, r);
            var id := Sorted(MatchingIds(t, r))[i];
            id in t.definitions && i < |outcomes| && AsIfAlone(t, t.definitions[id], r, t', outcomes[i].1)
  {
    var defs := Select(t, Sorted(MatchingIds(t, r)));
    assert Distinct(defs) && i < |defs| by { SelectSorted(t, MatchingIds(t, r)); }
    assert defs[i].id == Sorted(MatchingIds(t, r))[i] && defs[i] == t.definitions[defs[i].id] by {
      SelectSorted(t, MatchingIds(t, r));
    }
    DeliverAllLocal(t, defs, r, [], i);
  }

  /** Same adapter, measurement key and channel, and the same subject if one is asked for. */
  predicate Wants(input: PipelineInput, r: Reading) {
    && input.adapter == r.adapter && input.measurementKey == r.measurementKey && input.channel == r.channel
    && (input.subject.None? || (r.subject.Some? && r.subject.value == input.subject.value))
  }

  /**
   Delivery reaches exactly the matching pipelines, in id order, and gives each the outcome, the
   state and the rows it would get if it were the only pipeline: exactly if it continues its
   series, and up to the number of the new series if it starts one. The failure of one never
   touches another.
   */
  lemma DeliveryIsIsolated(ops: seq<Op>, r: Reading)
    ensures var t := Run(EMPTY, ops);
            var (t', outcomes) := Deliver(t, r);
            var ids := Sorted(MatchingIds(t, r));
            && (forall id :: id in MatchingIds(t, r) <==> id in t.definitions && Wants(t.definitions[id].input, r))
            && |outcomes| == |ids| && (forall i | 0 <= i < |ids| :: outcomes[i].0 == ids[i])
            && (forall id | id !in MatchingIds(t, r) :: SameState(t, t', id))
            && (forall k | |t.log| <= k < |t'.log| :: t'.log[k].pipeline in MatchingIds(t, r))
            && (forall i | 0 <= i < |ids| ::
                  ids[i] in t.definitions && AsIfAlone(t, t.definitions[ids[i]], r, t', outcomes[i].1))
  {
    RunKeeps(EMPTY, ops);
    var t := Run(EMPTY, ops);
    DeliverFrame(t, r);
    forall i | 0 <= i < |Sorted(MatchingIds(t, r))|
      ensures var (t', outcomes) := Deliver(t, r);
              var id := Sorted(MatchingIds(t, r))[i];
              id in t.definitions && i < |outcomes| && AsIfAlone(t, t.definitions[id], r, t', outcomes[i].1)
    {
      DeliverLocal(t, r, i);
    }
  }

  // ---------------------------------------------------------------------------
  // Reconcile
  // ---------------------------------------------------------------------------

  /** What starting a series writes. */
  lemma StartSeriesFrame(t: Tables, def: PipelineDefinition, now: InputTime)
    ensures var (t', start) := StartSeries(t, def, now);
            && t'.definitions == t.definitions && t.log <= t'.log && t'.nextSeries == t.nextSeries + 1
            && start.pipeline == def.id && start.series == t.nextSeries
            && Continues(t', def) && t'.states[def.id].series == t.nextSeries
            && (forall id | id != def.id :: SameState(t, t', id))
            && t'.states.Keys == t.states.Keys + {def.id}
            && (forall k | |t.log| <= k < |t'.log| :: t'.log[k].payload.Some?)
  {
  }

  /** The definition continues a series in t': the one it had, or else one never used before. */
  predicate Repaired(t: Tables, t': Tables, def: PipelineDefinition) {
    && Continues(t', def)
    && (if Continues(t, def) then SameState(t, t', def.id) else t.nextSeries <= t'.states[def.id].series)
  }

  lemma {:induction false} ReconcileAllEffects(
    t: Tables, defs: seq<PipelineDefinition>, now: InputTime, started: seq<SeriesStart>)
    requires Distinct(defs)
    ensures var t' := ReconcileAll(t, defs, now, started).0;
            && t'.definitions == t.definitions && t.nextSeries <= t'.nextSeries
            && (forall id | id !in Ids(defs) :: SameState(t, t', id))
            && (forall i | 0 <= i < |defs| :: Repaired(t, t', defs[i]))
    decreases |defs|
  {
    if defs != [] {
      IdsSplit(defs);
      var t1 := if Continues(t, defs[0]) then t else StartSeries(t, defs[0], now).0;
      var started1 := if Continues(t, defs[0]) then started else started + [StartSeries(t, defs[0], now).1];
      StartSeriesFrame(t, defs[0], now);
      ReconcileAllEffects(t1, defs[1..], now, started1);
      var t' := ReconcileAll(t1, defs[1..], now, started1).0;
      assert SameState(t1, t', defs[0].id);
      forall i | 0 < i < |defs| ensures Repaired(t, t', defs[i]) {
        assert defs[i] == defs[1..][i - 1] && Repaired(t1, t', defs[1..][i - 1]);
      }
    }
  }

  /** The definitions that continue no series, in the order given. */
  function Broken(t: Tables, defs: seq<PipelineDefinition>): seq<PipelineDefinition> {
    if defs == [] then []
    else if Continues(t, defs[0]) then Broken(t, defs[1..])
    else [defs[0]] + Broken(t, defs[1..])
  }

  lemma {:induction false} BrokenSame(t: Tables, t': Tables, defs: seq<PipelineDefinition>)
    requires forall i | 0 <= i < |defs| :: SameState(t, t', defs[i].id)
    ensures Broken(t', defs) == Broken(t, defs)
  {
    if defs != [] { BrokenSame(t, t', defs[1..]); }
  }

  /** One start for each broken definition, in order, on consecutive series numbers. */
  predicate StartsFor(starts: seq<SeriesStart>, broken: seq<PipelineDefinition>, series: nat) {
    && |starts| == |broken|
    && forall i | 0 <= i < |starts| :: starts[i].pipeline == broken[i].id && starts[i].series == series + i
  }

  lemma {:induction false} ReconcileAllStarts(
    t: Tables, defs: seq<PipelineDefinition>, now: InputTime, started: seq<SeriesStart>)
    requires Distinct(defs)
    ensures var all := ReconcileAll(t, defs, now, started).1;
            started <= all && StartsFor(all[|started|..], Broken(t, defs), t.nextSeries)
    decreases |defs|
  {
    if defs != [] {
      IdsSplit(defs);
      if Continues(t, defs[0]) {
        ReconcileAllStarts(t, defs[1..], now, started);
      } else {
        var (t1, start) := StartSeries(t, defs[0], now);
        StartSeriesFrame(t, defs[0], now);
        ReconcileAllStarts(t1, defs[1..], now, started + [start]);
        BrokenSame(t, t1, defs[1..]);
        var all := ReconcileAll(t1, defs[1..], now, started + [start]).1;
        StartsForMore(all[|started|..], start, all[|started| + 1..], defs[0], Broken(t, defs[1..]), t.nextSeries);
      }
    }
  }

  lemma StartsForMore(
    starts: seq<SeriesStart>, start: SeriesStart, rest: seq<SeriesStart>, def: PipelineDefinition,
    broken: seq<PipelineDefinition>, series: nat)
    requires starts != [] && starts[0] == start && starts[1..] == rest
    requires start.pipeline == def.id && start.series == series && StartsFor(rest, broken, series + 1)
    ensures StartsFor(starts, [def] + broken, series)
  {
    assert forall i | 0 < i < |starts| :: starts[i] == rest[i - 1];
  }

  lemma {:induction false} ReconcileAllSettled(
    t: Tables, defs: seq<PipelineDefinition>, now: InputTime, started: seq<SeriesStart>)
    requires forall i | 0 <= i < |defs| :: Continues(t, defs[i])
    ensures ReconcileAll(t, defs, now, started) == (t, started)
    decreases |defs|
  {
    if defs != [] { ReconcileAllSettled(t, defs[1..], now, started); }
  }

  lemma ReconcileEffects(t: Tables, now: InputTime)
    requires Keyed(t)
    ensures var t' := Reconcile(t, now).0;
            && t'.definitions == t.definitions
            && (forall id | id in t.definitions :: Repaired(t, t', t.definitions[id]))
            && (forall id | id !in t.definitions :: SameState(t, t', id))
  {
    var defs := Listed(t);
    SelectSorted(t, t.definitions.Keys);
    ReconcileAllEffects(t, defs, now, []);
    forall id | id in t.definitions ensures Repaired(t, Reconcile(t, now).0, t.definitions[id]) {
      assert id in Ids(defs);
      var i :| 0 <= i < |defs| && defs[i].id == id;
    }
  }

  lemma ReconcileSettled(t: Tables, now: InputTime)
    requires Keyed(t) && forall id | id in t.definitions :: Continues(t, t.definitions[id])
    ensures Reconcile(t, now) == (t, [])
  {
    SelectSorted(t, t.definitions.Keys);
    ReconcileAllSettled(t, Listed(t), now, []);
  }

  /**
   After reconcile every definition continues a series; those that did so before keep their state
   untouched, the others are reported in id order and hold consecutive new series, and a second
   reconcile does nothing.
   */
  lemma ReconcileRepairs(ops: seq<Op>, now: InputTime, later: InputTime)
    ensures var t := Run(EMPTY, ops);
            var t' := Reconcile(t, now).0;
            && t'.definitions == t.definitions
            && (forall id | id in t.definitions :: Repaired(t, t', t.definitions[id]))
            && StartsFor(Reconcile(t, now).1, Broken(t, Listed(t)), t.nextSeries)
            && Reconcile(t', later) == (t', [])
  {
    RunKeeps(EMPTY, ops);
    var t := Run(EMPTY, ops);
    ReconcileEffects(t, now);
    ReconcileSettled(Reconcile(t, now).0, later);
    SelectSorted(t, t.definitions.Keys);
    ReconcileAllStarts(t, Listed(t), now, []);
  }

  // ---------------------------------------------------------------------------
  // Import
  // ---------------------------------------------------------------------------

  /** One clearing publication per definition that is not imported again. */
  function Clears(existing: seq<PipelineDefinition>, keep: set<PipelineId>, now: InputTime): seq<Row>
    decreases |existing|
  {
    if existing == [] then []
    else
      (if existing[0].id in keep then []
       else [Row(existing[0].id, Topic(existing[0].id, existing[0].kind), None, true, now)])
      + Clears(existing[1..], keep, now)
  }

  lemma {:induction false} DropAllEffects(
    t: Tables, existing: seq<PipelineDefinition>, keep: set<PipelineId>, now: InputTime)
    ensures var t' := DropAll(t, existing, keep, now);
            && t'.definitions == t.definitions - Ids(existing) && t'.states == t.states - Ids(existing)
            && t'.nextSeries == t.nextSeries
            && t'.log == t.log + Clears(existing, keep, now)
    decreases |existing|
  {
    if existing != [] {
      IdsSplit(existing);
      var t1 := DropDefinition(t, existing[0].id);
      var t2 := if existing[0].id in keep then t1 else EnqueueDeletion(t1, existing[0], now);
      DropAllEffects(t2, existing[1..], keep, now);
    }
  }

  /** The definition is stored and continues the given series. */
  predicate Placed(t: Tables, def: PipelineDefinition, series: nat) {
    def.id in t.definitions && t.definitions[def.id] == def && Continues(t, def) && t.states[def.id].series == series
  }

  predicate SamePipeline(t: Tables, t': Tables, id: PipelineId) {
    && SameState(t, t', id)
    && (id in t.definitions <==> id in t'.definitions)
    && (id in t.definitions ==> t'.definitions[id] == t.definitions[id])
  }

  /** Every imported definition is stored and continues a fresh series of its own. */
  ghost predicate Inserted(t: Tables, defs: seq<PipelineDefinition>, t': Tables, starts: seq<SeriesStart>) {
    && |starts| == |defs|
    && t.log <= t'.log
    && (forall id | id !in Ids(defs) :: SamePipeline(t, t', id))
    && (forall k | |t.log| <= k < |t'.log| :: t'.log[k].payload.Some?)
    && (forall i | 0 <= i < |defs| ::
          Placed(t', defs[i], t.nextSeries + i)
          && starts[i].pipeline == defs[i].id && starts[i].series == t.nextSeries + i)
  }

  function Install(t: Tables, def: PipelineDefinition, now: InputTime): (Tables, SeriesStart) {
    StartSeries(t.(definitions := t.definitions[def.id := def]), def, now)
  }

  lemma InstallFrame(t: Tables, def: PipelineDefinition, now: InputTime)
    ensures var (t', start) := Install(t, def, now);
            && t.log <= t'.log && t'.nextSeries == t.nextSeries + 1
            && start.pipeline == def.id && start.series == t.nextSeries
            && Placed(t', def, t.nextSeries)
            && (forall id | id != def.id :: SamePipeline(t, t', id))
            && (forall k | |t.log| <= k < |t'.log| :: t'.log[k].payload.Some?)
  {
    StartSeriesFrame(t.(definitions := t.definitions[def.id := def]), def, now);
  }

  lemma InsertedStep(
    t: Tables, t1: Tables, start: SeriesStart, defs: seq<PipelineDefinition>, now: InputTime,
    t': Tables, rest: seq<SeriesStart>)
    requires defs != [] && Distinct(defs)
    requires (t1, start) == Install(t, defs[0], now)
    requires Inserted(t1, defs[1..], t', rest)
    ensures Inserted(t, defs, t', [start] + rest)
  {
    var starts := [start] + rest;
    IdsSplit(defs);
    InstallFrame(t, defs[0], now);
    assert SamePipeline(t1, t', defs[0].id);
    forall i | 0 < i < |defs|
      ensures Placed(t', defs[i], t.nextSeries + i)
      ensures starts[i].pipeline == defs[i].id && starts[i].series == t.nextSeries + i
    {
      assert defs[i] == defs[1..][i - 1] && starts[i] == rest[i - 1];
      assert Placed(t', defs[1..][i - 1], t1.nextSeries + (i - 1));
    }
    forall id | id !in Ids(defs) ensures SamePipeline(t, t', id) {
      assert SamePipeline(t, t1, id) && SamePipeline(t1, t', id);
    }
  }

  lemma {:induction false} InsertAllEffects(
    t: Tables, defs: seq<PipelineDefinition>, now: InputTime, before: seq<SeriesStart>)
    returns (starts: seq<SeriesStart>)
    requires Distinct(defs)
    ensures InsertAll(t, defs, now, before).1 == before + starts
    ensures Inserted(t, defs, InsertAll(t, defs, now, before).0, starts)
    decreases |defs|
  {
    if defs == [] {
      starts := [];
    } else {
      var (t1, start) := Install(t, defs[0], now);
      var rest := InsertAllEffects(t1, defs[1..], now, before + [start]);
      starts := [start] + rest;
      InsertedStep(t, t1, start, defs, now, InsertAll(t1, defs[1..], now, before + [start]).0, rest);
      assert before + [start] + rest == before + starts;
    }
  }

  /** Every state belongs to a definition (the cascade of the foreign key). */
  predicate Owned(t: Tables) {
    t.states.Keys <= t.definitions.Keys
  }

  lemma ImportOwned(t: Tables, defs: seq<PipelineDefinition>, now: InputTime)
    requires Inv(t) && Owned(t) && AllValid(defs) && Distinct(defs)
    ensures Owned(Import(t, defs, now).value.0)
  {
    DropAllEffects(t, Listed(t), Ids(defs), now);
    var t1 := DropAll(t, Listed(t), Ids(defs), now);
    var starts := InsertAllEffects(t1, defs, now, []);
    InsertedOwned(t1, defs, InsertAll(t1, defs, now, []).0, starts);
  }

  lemma InsertedOwned(t: Tables, defs: seq<PipelineDefinition>, t': Tables, starts: seq<SeriesStart>)
    requires Owned(t) && Inserted(t, defs, t', starts)
    ensures Owned(t')
  {
    forall id | id in t'.states ensures id in t'.definitions {
      if id in Ids(defs) {
        var i :| 0 <= i < |defs| && defs[i].id == id;
        assert Placed(t', defs[i], t.nextSeries + i);
      } else {
        assert SamePipeline(t, t', id);
      }
    }
  }

  lemma DeliverOwned(t: Tables, r: Reading)
    requires Inv(t) && Owned(t)
    ensures Owned(Deliver(t, r).0)
  {
    DeliverFrame(t, r);
    var t' := Deliver(t, r).0;
    forall id | id in t'.states ensures id in t'.definitions {
      if id !in MatchingIds(t, r) { assert SameState(t, t', id); }
    }
  }

  lemma ApplyOwned(t: Tables, op: Op)
    requires Inv(t) && Owned(t)
    ensures Owned(Apply(t, op))
  {
    match op
    case CreateOp(_, _) =>
    case UpdateOp(_, _) =>
    case DeleteOp(_, _) =>
    case ResetOp(_, _) =>
    case ImportOp(defs, now) => if AllValid(defs) && Distinct(defs) { ImportOwned(t, defs, now); }
    case ReconcileOp(now) =>
      ReconcileEffects(t, now);
      assert forall id | id !in t.definitions :: SameState(t, Reconcile(t, now).0, id);
    case DeliverOp(r) => DeliverOwned(t, r);
    case LoseState(_) =>
    case EditDefinition(_) =>
  }

  lemma {:induction false} RunOwned(t: Tables, ops: seq<Op>)
    requires Inv(t) && Owned(t)
    ensures Owned(Run(t, ops))
    decreases |ops|
  {
    if ops != [] {
      ApplyKeeps(t, ops[0]);
      ApplyOwned(t, ops[0]);
      RunOwned(Apply(t, ops[0]), ops[1..]);
    }
  }

  lemma InsertedIntoEmpty(t: Tables, defs: seq<PipelineDefinition>, t': Tables, starts: seq<SeriesStart>)
    requires t.definitions.Keys == t.states.Keys == {} && Inserted(t, defs, t', starts)
    ensures t'.definitions.Keys == t'.states.Keys == Ids(defs)
  {
    forall id ensures id in t'.definitions <==> id in Ids(defs) ensures id in t'.states <==> id in Ids(defs) {
      if id in Ids(defs) {
        var i :| 0 <= i < |defs| && defs[i].id == id;
        assert Placed(t', defs[i], t.nextSeries + i);
      } else {
        assert SamePipeline(t, t', id);
      }
    }
  }

  /** Exactly the given definitions, each on its own new series; the rest cleared, in id order. */
  ghost predicate Replaced(
    t: Tables, defs: seq<PipelineDefinition>, now: InputTime, t': Tables, starts: seq<SeriesStart>)
  {
    var cleared := t.log + Clears(Listed(t), Ids(defs), now);
    && t'.definitions.Keys == t'.states.Keys == Ids(defs)
    && |starts| == |defs|
    && (forall i | 0 <= i < |defs| ::
          Placed(t', defs[i], t.nextSeries + i)
          && starts[i].pipeline == defs[i].id && starts[i].series == t.nextSeries + i)
    && cleared <= t'.log
    && (forall k | |cleared| <= k < |t'.log| :: t'.log[k].payload.Some?)
  }

  lemma DroppedAll(t: Tables, keep: set<PipelineId>, now: InputTime)
    requires Keyed(t) && Owned(t)
    ensures var t1 := DropAll(t, Listed(t), keep, now);
            && t1.definitions.Keys == t1.states.Keys == {} && t1.nextSeries == t.nextSeries
            && t1.log == t.log + Clears(Listed(t), keep, now)
  {
    SelectSorted(t, t.definitions.Keys);
    DropAllEffects(t, Listed(t), keep, now);
  }

  lemma InsertedReplaces(
    t: Tables, t1: Tables, defs: seq<PipelineDefinition>, now: InputTime, t': Tables, starts: seq<SeriesStart>)
    requires t1.definitions.Keys == t1.states.Keys == {} && t1.nextSeries == t.nextSeries
    requires t1.log == t.log + Clears(Listed(t), Ids(defs), now)
    requires Inserted(t1, defs, t', starts)
    ensures Replaced(t, defs, now, t', starts)
  {
    InsertedIntoEmpty(t1, defs, t', starts);
  }

  lemma ImportEffects(t: Tables, defs: seq<PipelineDefinition>, now: InputTime)
    requires Keyed(t) && Owned(t) && AllValid(defs) && Distinct(defs)
    ensures Replaced(t, defs, now, Import(t, defs, now).value.0, Import(t, defs, now).value.1)
  {
    DroppedAll(t, Ids(defs), now);
    var t1 := DropAll(t, Listed(t), Ids(defs), now);
    var starts := InsertAllEffects(t1, defs, now, []);
    InsertedReplaces(t, t1, defs, now, InsertAll(t1, defs, now, []).0, starts);
  }

  /**
   A successful import leaves exactly the imported definitions, each on a new series; it first
   clears, in id order, the topic of every pipeline that disappears, and of no other.
   */
  lemma ImportReplaces(ops: seq<Op>, defs: seq<PipelineDefinition>, now: InputTime)
    ensures var t := Run(EMPTY, ops);
            && (Import(t, defs, now).Ok? <==> AllValid(defs) && Distinct(defs))
            && (Import(t, defs, now) == Err(InvalidDefinition) <==> !AllValid(defs))
            && (Import(t, defs, now) == Err(DuplicateId) <==> AllValid(defs) && !Distinct(defs))
            && (Import(t, defs, now).Ok? ==>
                  var (t', starts) := Import(t, defs, now).value;
                  Replaced(t, defs, now, t', starts))
  {
    RunKeeps(EMPTY, ops);
    RunOwned(EMPTY, ops);
    if AllValid(defs) && Distinct(defs) { ImportEffects(Run(EMPTY, ops), defs, now); }
  }

  // ---------------------------------------------------------------------------
  // Configuration commands
  // ---------------------------------------------------------------------------

  /** Unicode white space. */
  const WHITE: set<char> := {
    '\t', '\n', '\U{B}', '\U{C}', '\r', ' ', '\U{85}', '\U{A0}', '\U{1680}', '\U{2000}', '\U{2001}', '\U{2002}',
    '\U{2003}', '\U{2004}', '\U{2005}', '\U{2006}', '\U{2007}', '\U{2008}', '\U{2009}', '\U{200A}', '\U{2028}',
    '\U{2029}', '\U{202F}', '\U{205F}', '\U{3000}'}

  /** Short enough, and not just white space. */
  predicate Named(s: string, most: nat) {
    |s| <= most && exists i :: 0 <= i < |s| && s[i] !in WHITE
  }

  lemma BlankExact(s: string)
    ensures Blank(s) <==> forall i | 0 <= i < |s| :: s[i] in WHITE
  {
    forall i | 0 <= i < |s| ensures IsWhitespace(s[i]) <==> s[i] in WHITE { WhiteExact(s[i]); }
  }

  lemma WhiteExact(c: char)
    ensures IsWhitespace(c) <==> c in WHITE
  {
  }

  /** What validation demands, by kind: a unit for measurements, thresholds in order for the others. */
  lemma ValidExact(def: PipelineDefinition)
    ensures def.Valid()
            <==> && def.input.adapter != "" && def.input.measurementKey != ""
                 && (def.input.subject.Some? ==> def.input.subject.value != "")
                 && (def.displayName.Some? ==> Named(def.displayName.value, 128))
                 && def.calibration.scale != 0.0
                 && (def.kind == Measurement <==> def.detector.None?)
                 && (def.kind == Measurement <==> def.unit.Some?)
                 && (def.kind == AccumulatedCount <==> def.trigger.Some?)
                 && (def.unit.Some? ==> Named(def.unit.value, 32))
                 && (def.detector.Some? ==>
                       && def.detector.value.fall <= def.detector.value.rise
                       && 0 <= def.detector.value.riseDebounce <= 300_000
                       && 0 <= def.detector.value.fallDebounce <= 300_000)
  {
    if def.displayName.Some? { BlankExact(def.displayName.value); }
    if def.unit.Some? { BlankExact(def.unit.value); }
  }

  /** The structural fields, and no other: tuning name, calibration and detector keeps them. */
  lemma StructuralExact(a: PipelineDefinition, b: PipelineDefinition)
    ensures a.StructuralFields() == b.StructuralFields()
            <==> a.id == b.id && a.kind == b.kind && a.input == b.input && a.trigger == b.trigger && a.unit == b.unit
  {
  }

  /** Nothing of the other pipelines moves. */
  ghost predicate OnlyTouches(t: Tables, t': Tables, id: PipelineId) {
    && t.log <= t'.log
    && (forall other | other != id :: SamePipeline(t, t', other))
    && (forall k | |t.log| <= k < |t'.log| :: t'.log[k].pipeline == id)
  }

  /** What a new series opens with: an accumulated count publishes its 0, any other nothing yet. */
  lemma StartExact(t: Tables, def: PipelineDefinition, now: InputTime)
    ensures var (t', start) := StartSeries(t, def, now);
            var opening := Observation(def.id, t.nextSeries, 1, now, CountValue(0));
            && start == SeriesStart(def.id, t.nextSeries, if def.kind == AccumulatedCount then Some(opening) else None)
            && t'.log == t.log + (if def.kind == AccumulatedCount
                                  then [Row(def.id, Topic(def.id, AccumulatedCount), Some(opening), true, now)] else [])
            && t'.states[def.id].evaluation == Evaluator.EvaluationState(false, false, 0, false, false, 0)
            && t'.states[def.id].next == if def.kind == AccumulatedCount then 2 else 1
  {
  }

  /** Create takes a valid definition with a new id, stores it and starts its first series. */
  lemma CreateExact(t: Tables, def: PipelineDefinition, now: InputTime)
    ensures Create(t, def, now) == Err(InvalidDefinition) <==> !def.Valid()
    ensures Create(t, def, now) == Err(AlreadyExists) <==> def.Valid() && def.id in t.definitions
    ensures Create(t, def, now).Ok? <==> def.Valid() && def.id !in t.definitions
    ensures Create(t, def, now).Ok? ==>
              var (t', start) := Create(t, def, now).value;
              && t'.definitions == t.definitions[def.id := def] && Placed(t', def, t.nextSeries)
              && start == StartSeries(t, def, now).1 && OnlyTouches(t, t', def.id)
  {
  }

  /** Delete forgets definition and state and clears the pipeline's topic, and nothing else. */
  lemma DeleteExact(t: Tables, id: PipelineId, now: InputTime)
    requires Keyed(t)
    ensures Delete(t, id, now).Ok? <==> id in t.definitions
    ensures id !in t.definitions ==> Delete(t, id, now) == Err(NotFound)
    ensures id in t.definitions ==>
              var t' := Delete(t, id, now).value;
              && t'.definitions == t.definitions - {id} && t'.states == t.states - {id} && t'.nextSeries == t.nextSeries
              && t'.log == t.log + [Row(id, Topic(id, t.definitions[id].kind), None, true, now)]
  {
  }

  /** Reset starts a new series under the stored definition. */
  lemma ResetExact(t: Tables, id: PipelineId, now: InputTime)
    requires Keyed(t)
    ensures Reset(t, id, now).Ok? <==> id in t.definitions
    ensures id !in t.definitions ==> Reset(t, id, now) == Err(NotFound)
    ensures id in t.definitions ==>
              var (t', start) := Reset(t, id, now).value;
              && t'.definitions == t.definitions && Placed(t', t.definitions[id], t.nextSeries)
              && (t', start) == StartSeries(t, t.definitions[id], now) && OnlyTouches(t, t', id)
  {
  }

  /**
   Update takes a valid definition of a stored pipeline of the same kind and stores it; and after a
   create it keeps the series exactly if id, kind, input, trigger and unit are those created.
   */
  lemma UpdateExact(t: Tables, def: PipelineDefinition, now: InputTime)
    ensures Update(t, def, now).Ok?
            <==> def.Valid() && def.id in t.definitions && t.definitions[def.id].kind == def.kind
    ensures Update(t, def, now) == Err(InvalidDefinition) <==> !def.Valid()
    ensures Update(t, def, now) == Err(NotFound) <==> def.Valid() && def.id !in t.definitions
    ensures Update(t, def, now).Err? ==> Update(t, def, now).error in {InvalidDefinition, NotFound, KindChanged}
    ensures Update(t, def, now).Ok? ==>
              var (t', start) := Update(t, def, now).value;
              && t'.definitions == t.definitions[def.id := def] && Continues(t', def) && OnlyTouches(t, t', def.id)
              && (start.None? ==> t' == t.(definitions := t'.definitions))
              && (start.Some? ==> t'.states[def.id].series == t.nextSeries == start.value.series)
  {
  }

  lemma TuningKeepsSeries(t: Tables, a: PipelineDefinition, b: PipelineDefinition, now: InputTime, later: InputTime)
    requires Create(t, a, now).Ok? && a.id == b.id && b.Valid() && a.kind == b.kind
    ensures var t1 := Create(t, a, now).value.0;
            && Update(t1, b, later).Ok?
            && (Update(t1, b, later).value.0.states[a.id].series == t1.states[a.id].series
                <==> a.input == b.input && a.trigger == b.trigger && a.unit == b.unit)
  {
    var t1 := Create(t, a, now).value.0;
    CreateExact(t, a, now);
    UpdateExact(t1, b, later);
    StructuralExact(a, b);
  }
}
