/**
 What whole input lists do to an evaluator: exactly when a debounced transition is confirmed,
 and how a state pipeline and an accumulated-count pipeline on the same signal relate.
 */
module EvaluatorRuns {
  import opened Types
  import opened Definition
  import opened Evaluator

  datatype Sample = Sample(input: Float, at: int)

  /** A rejected input leaves the state as it was. */
  function After(def: PipelineDefinition, s: EvaluationState, x: Sample): EvaluationState {
    match Evaluated(def, s, x.input, x.at)
    case Ok((_, s')) => s'
    case Err(_) => s
  }

  function StateAt(def: PipelineDefinition, xs: seq<Sample>, k: nat): EvaluationState
    requires k <= |xs|
  {
    if k == 0 then INITIAL else After(def, StateAt(def, xs, k - 1), xs[k - 1])
  }

  // ---------------------------------------------------------------------------
  // Debounce
  // ---------------------------------------------------------------------------

  /** One input as the detector sees it: was it accepted, which state does it select, and when. */
  datatype Tick = Tick(ok: bool, candidate: bool, at: int)

  predicate Detecting(def: PipelineDefinition) {
    def.kind != Measurement && def.detector.Some?
  }

  function TickOf(def: PipelineDefinition, s: EvaluationState, x: Sample): Tick
    requires Detecting(def)
  {
    var candidate :=
      x.input.Finite? && Candidate(def.detector.value, s, def.calibration.Apply(x.input.r));
    Tick(Evaluated(def, s, x.input, x.at).Ok?, candidate, x.at)
  }

  /** The states before, between and after the samples. */
  function States(def: PipelineDefinition, xs: seq<Sample>): seq<EvaluationState> {
    seq(|xs| + 1, k requires 0 <= k <= |xs| => StateAt(def, xs, k))
  }

  function Ticks(def: PipelineDefinition, xs: seq<Sample>): seq<Tick>
    requires Detecting(def)
  {
    seq(|xs|, k requires 0 <= k < |xs| => TickOf(def, StateAt(def, xs, k), xs[k]))
  }

  /**
   From j up to k every accepted input selects the state opposite to the one held at k, and
   that state is held throughout.
   */
  predicate Run(ss: seq<EvaluationState>, ts: seq<Tick>, j: nat, k: nat)
    requires |ss| == |ts| + 1 && k < |ss|
  {
    && j < k
    && ts[j].ok
    && forall m | j <= m < k && ts[m].ok ::
         ss[m].initialized && ss[m].active == ss[k].active && ts[m].candidate != ss[k].active
  }

  /** What one accepted input does to the detector, given the state it selects. */
  ghost predicate Moves(d: Detector, s: EvaluationState, c: bool, at: int, s': EvaluationState) {
    && s'.initialized
    && if !s.initialized then s'.active == c && s'.pending == s.pending
       else if c == s.active then s'.active == s.active && !s'.pending
       else
         var w := TransitionDebounce(d, c);
         var waiting := s.pending && s.pendingActive == c && s.pendingSince <= at;
         if w == 0 || (waiting && w <= at - s.pendingSince) then s'.active == c && !s'.pending
         else
           && s'.active == s.active && s'.pending && s'.pendingActive == c
           && s'.pendingSince == if waiting then s.pendingSince else at
  }

  ghost predicate Chain(d: Detector, ss: seq<EvaluationState>, ts: seq<Tick>) {
    && |ss| == |ts| + 1
    && ss[0] == INITIAL
    && forall k | 0 <= k < |ts| ::
         if ts[k].ok then Moves(d, ss[k], ts[k].candidate, ts[k].at, ss[k + 1]) else ss[k + 1] == ss[k]
  }

  lemma StepMoves(def: PipelineDefinition, s: EvaluationState, x: Sample)
    requires Detecting(def)
    ensures var t, s' := TickOf(def, s, x), After(def, s, x);
            if t.ok then Moves(def.detector.value, s, t.candidate, t.at, s') else s' == s
  {
    if Evaluated(def, s, x.input, x.at).Ok? {
      var s' := Advance(def.detector.value, s, def.calibration.Apply(x.input.r), x.at);
      assert After(def, s, x) == s'.(counter := After(def, s, x).counter);
    }
  }

  lemma TraceIsChain(def: PipelineDefinition, xs: seq<Sample>)
    requires Detecting(def)
    ensures Chain(def.detector.value, States(def, xs), Ticks(def, xs))
  {
    forall k: nat | k < |xs| {
      StepMoves(def, StateAt(def, xs, k), xs[k]);
    }
  }

  /** The pending window starts at the earliest time of the current run. */
  ghost predicate Window(ss: seq<EvaluationState>, ts: seq<Tick>, k: nat)
    requires |ss| == |ts| + 1 && k < |ss|
  {
    var s := ss[k];
    && (s.pending ==> s.initialized && s.pendingActive != s.active)
    && (s.pending ==> exists j: nat :: Run(ss, ts, j, k) && ts[j].at == s.pendingSince)
    && (forall j: nat | Run(ss, ts, j, k) :: s.pending && s.pendingSince <= ts[j].at)
  }

  lemma {:induction false} WindowHolds(d: Detector, ss: seq<EvaluationState>, ts: seq<Tick>, k: nat)
    requires Chain(d, ss, ts) && k < |ss|
    ensures Window(ss, ts, k)
  {
    if k > 0 {
      WindowHolds(d, ss, ts, k - 1);
      forall j: nat | Run(ss, ts, j, k) ensures ss[k].pending && ss[k].pendingSince <= ts[j].at {
        RunIsWaiting(d, ss, ts, j, k);
      }
      if ss[k].pending { var j := WaitingIsRun(d, ss, ts, k); }
    }
  }

  /** A run that reaches k is the one waited for. */
  lemma RunIsWaiting(d: Detector, ss: seq<EvaluationState>, ts: seq<Tick>, j: nat, k: nat)
    requires Chain(d, ss, ts) && 0 < k < |ss| && Window(ss, ts, k - 1) && Run(ss, ts, j, k)
    ensures ss[k].pending && ss[k].pendingSince <= ts[j].at
  {
    var p := k - 1;
    if ts[p].ok { assert Moves(d, ss[p], ts[p].candidate, ts[p].at, ss[k]); }
    if j < p { assert Run(ss, ts, j, p); }
  }

  /** A wait began with the input it counts from, and the run from there is unbroken. */
  lemma WaitingIsRun(d: Detector, ss: seq<EvaluationState>, ts: seq<Tick>, k: nat) returns (j: nat)
    requires Chain(d, ss, ts) && 0 < k < |ss| && Window(ss, ts, k - 1) && ss[k].pending
    ensures Run(ss, ts, j, k) && ts[j].at == ss[k].pendingSince
    ensures ss[k].initialized && ss[k].pendingActive != ss[k].active
  {
    var p := k - 1;
    if ts[p].ok { assert Moves(d, ss[p], ts[p].candidate, ts[p].at, ss[k]); }
    if ts[p].ok && ss[k].pendingSince == ts[p].at {
      j := p;
    } else {
      j :| Run(ss, ts, j, p) && ts[j].at == ss[p].pendingSince;
    }
  }

  /** A wait in progress always waits for the state the pipeline is not in. */
  lemma PendingDiffers(def: PipelineDefinition, xs: seq<Sample>, k: nat)
    requires Detecting(def) && k <= |xs|
    requires StateAt(def, xs, k).pending
    ensures StateAt(def, xs, k).initialized
    ensures StateAt(def, xs, k).pendingActive != StateAt(def, xs, k).active
  {
    TraceIsChain(def, xs);
    WindowHolds(def.detector.value, States(def, xs), Ticks(def, xs), k);
    assert States(def, xs)[k] == StateAt(def, xs, k);
  }

  /**
   Debounce, exactly: an accepted input that selects the other state confirms the transition if
   and only if some unbroken run of inputs selecting that state began at least the debounce
   time before it. Clocks may go backwards anywhere in the list.
   */
  lemma DebounceExact(def: PipelineDefinition, xs: seq<Sample>, k: nat)
    requires Detecting(def) && k < |xs|
    requires var s, t := States(def, xs)[k], Ticks(def, xs)[k];
             && s.initialized && t.ok && t.candidate != s.active
             && TransitionDebounce(def.detector.value, t.candidate) > 0
    ensures var ss, ts := States(def, xs), Ticks(def, xs);
            ss[k + 1].active != ss[k].active
            <==> exists j: nat :: Run(ss, ts, j, k)
                   && TransitionDebounce(def.detector.value, ts[k].candidate) <= ts[k].at - ts[j].at
  {
    TraceIsChain(def, xs);
    WindowHolds(def.detector.value, States(def, xs), Ticks(def, xs), k);
  }

  /**
   A confirmed transition has a window start: the run from it is unbroken, no input of the run
   was received before it, and the confirming input came at least the debounce time after it.
   */
  lemma DebounceSound(def: PipelineDefinition, xs: seq<Sample>, k: nat) returns (start: nat)
    requires Detecting(def) && k < |xs|
    requires var ss := States(def, xs);
             && ss[k].initialized && ss[k + 1].active != ss[k].active
             && TransitionDebounce(def.detector.value, ss[k + 1].active) > 0
    ensures var ss, ts := States(def, xs), Ticks(def, xs);
            && ts[k].ok && ts[k].candidate == ss[k + 1].active
            && Run(ss, ts, start, k)
            && TransitionDebounce(def.detector.value, ss[k + 1].active) <= ts[k].at - ts[start].at
            && forall m | start <= m <= k && ts[m].ok :: ts[start].at <= ts[m].at
  {
    var ss, ts := States(def, xs), Ticks(def, xs);
    TraceIsChain(def, xs);
    WindowHolds(def.detector.value, ss, ts, k);
    assert Moves(def.detector.value, ss[k], ts[k].candidate, ts[k].at, ss[k + 1]);
    start :| Run(ss, ts, start, k) && ts[start].at == ss[k].pendingSince;
    forall m | start <= m < k && ts[m].ok ensures ts[start].at <= ts[m].at {
      assert Run(ss, ts, m, k);
    }
  }

  // ---------------------------------------------------------------------------
  // Thresholds
  // ---------------------------------------------------------------------------

  /** Whether the signal is past the threshold that ends the state held. */
  predicate Leaves(d: Detector, active: bool, signal: real) {
    match (d.mode, active)
    case (HighActive, true) => signal <= d.fall
    case (HighActive, false) => signal >= d.rise
    case (LowActive, true) => signal >= d.rise
    case (LowActive, false) => signal <= d.fall
  }

  /** The debounce that governs leaving the state held: that of the direction the signal moves in. */
  function Wait(d: Detector, active: bool): int {
    match (d.mode, active)
    case (HighActive, true) => d.fallDebounce
    case (HighActive, false) => d.riseDebounce
    case (LowActive, true) => d.riseDebounce
    case (LowActive, false) => d.fallDebounce
  }

  /**
   An input is rejected for these reasons and no other; `moved` is what the detector alone makes
   of it, and only counting can fail on that.
   */
  lemma AcceptedExact(def: PipelineDefinition, s: EvaluationState, x: Sample)
    ensures var moved := After(def.(kind := State), s, x);
            Evaluated(def, s, x.input, x.at).Ok?
            <==> && x.at >= 0 && def.calibration.scale != 0.0 && x.input.Finite?
                 && (def.kind == Measurement || def.detector.Some?)
                 && (def.kind == AccumulatedCount && s.initialized && !moved.pending ==>
                       def.trigger.Some? && (!s.active && moved.active ==> s.counter < MAX_SAFE_INTEGER))
  {
  }

  /**
   The detector on the calibrated signal: the first input starts a high-active pipeline active at
   or above the rise threshold and a low-active one at or below the fall threshold; afterwards the
   state held is left exactly when the signal is past its threshold and either there is no
   debounce in that direction or the wait for the other state has lasted it.
   */
  lemma DetectorExact(def: PipelineDefinition, s: EvaluationState, x: Sample)
    requires Detecting(def) && Evaluated(def, s, x.input, x.at).Ok?
    ensures x.input.Finite? && After(def, s, x).initialized
    ensures var d := def.detector.value;
            var signal := x.input.r * def.calibration.scale + def.calibration.offset;
            var s' := After(def, s, x);
            && (!s.initialized ==> (s'.active <==> if d.mode == HighActive then signal >= d.rise else signal <= d.fall))
            && (s.initialized ==>
                  (s'.active != s.active
                   <==> && Leaves(d, s.active, signal)
                        && (Wait(d, s.active) == 0
                            || (s.pending && s.pendingActive != s.active && s.pendingSince <= x.at
                                && Wait(d, s.active) <= x.at - s.pendingSince))))
            && (s.initialized && s'.active == s.active ==> (s'.pending <==> Leaves(d, s.active, signal)))
  {
    StepMoves(def, s, x);
  }

  lemma CandidateExact(d: Detector, s: EvaluationState, signal: real)
    requires s.initialized
    ensures Candidate(d, s, signal) != s.active <==> Leaves(d, s.active, signal)
    ensures TransitionDebounce(d, !s.active) == Wait(d, s.active)
  {
  }

  function Signal(def: PipelineDefinition, x: Sample): real {
    if x.input.Finite? then x.input.r * def.calibration.scale + def.calibration.offset else 0.0
  }

  predicate Accepted(def: PipelineDefinition, xs: seq<Sample>, k: nat)
    requires k < |xs|
  {
    Evaluated(def, StateAt(def, xs, k), xs[k].input, xs[k].at).Ok?
  }

  /** From j up to k one state is held and every accepted input is past its threshold. */
  predicate PastSince(def: PipelineDefinition, xs: seq<Sample>, j: nat, k: nat)
    requires Detecting(def) && k < |xs|
  {
    && j < k && Accepted(def, xs, j)
    && forall m: nat | j <= m < k && Accepted(def, xs, m) ::
         && StateAt(def, xs, m).initialized && StateAt(def, xs, m).active == StateAt(def, xs, k).active
         && Leaves(def.detector.value, StateAt(def, xs, k).active, Signal(def, xs[m]))
  }

  lemma TickExact(def: PipelineDefinition, s: EvaluationState, x: Sample)
    requires Detecting(def) && Evaluated(def, s, x.input, x.at).Ok?
    ensures s.initialized ==>
              (TickOf(def, s, x).candidate != s.active <==> Leaves(def.detector.value, s.active, Signal(def, x)))
    ensures TickOf(def, s, x).ok && TickOf(def, s, x).at == x.at
  {
    if s.initialized { CandidateExact(def.detector.value, s, def.calibration.Apply(x.input.r)); }
  }

  lemma RunIsPast(def: PipelineDefinition, xs: seq<Sample>, j: nat, k: nat)
    requires Detecting(def) && k < |xs|
    ensures Run(States(def, xs), Ticks(def, xs), j, k) <==> PastSince(def, xs, j, k)
  {
    var ss, ts := States(def, xs), Ticks(def, xs);
    forall m: nat | m < k
      ensures ts[m].ok == Accepted(def, xs, m) && ss[m] == StateAt(def, xs, m) && ss[k] == StateAt(def, xs, k)
      ensures ts[m].ok && ss[m].initialized ==>
                (ts[m].candidate != ss[m].active <==> Leaves(def.detector.value, ss[m].active, Signal(def, xs[m])))
    {
      if Accepted(def, xs, m) { TickExact(def, ss[m], xs[m]); }
    }
  }

  /**
   Debounce on the signal itself: an accepted input past the threshold of the state held ends that
   state exactly when some unbroken stretch of such inputs began at least the debounce of that
   direction earlier, whatever the clock did in between.
   */
  lemma DebounceOnSignal(def: PipelineDefinition, xs: seq<Sample>, k: nat)
    requires Detecting(def) && k < |xs| && Accepted(def, xs, k)
    requires var s := StateAt(def, xs, k);
             && s.initialized && Leaves(def.detector.value, s.active, Signal(def, xs[k]))
             && Wait(def.detector.value, s.active) > 0
    ensures StateAt(def, xs, k + 1).active != StateAt(def, xs, k).active
            <==> exists j: nat :: PastSince(def, xs, j, k)
                   && Wait(def.detector.value, StateAt(def, xs, k).active) <= xs[k].at - xs[j].at
  {
    var d, s := def.detector.value, StateAt(def, xs, k);
    TickExact(def, s, xs[k]);
    CandidateExact(d, s, def.calibration.Apply(xs[k].input.r));
    DebounceExact(def, xs, k);
    forall j: nat ensures Run(States(def, xs), Ticks(def, xs), j, k) <==> PastSince(def, xs, j, k) {
      RunIsPast(def, xs, j, k);
    }
  }

  /** A measurement pipeline publishes the calibrated value of every input it accepts. */
  lemma MeasurementExact(def: PipelineDefinition, s: EvaluationState, x: Sample)
    requires def.kind == Measurement && Evaluated(def, s, x.input, x.at).Ok?
    ensures var e := Evaluated(def, s, x.input, x.at).value.0;
            e.emitted && e.number == Some(x.input.r * def.calibration.scale + def.calibration.offset)
    ensures After(def, s, x) == s.(initialized := true)
  {
    assert def.calibration.Apply(x.input.r) == x.input.r * def.calibration.scale + def.calibration.offset;
  }

  /** With a valid definition the only input refused for its effect is the edge past the limit. */
  lemma ValidNeverFails(def: PipelineDefinition, s: EvaluationState, x: Sample)
    requires def.Valid() && x.at >= 0 && x.input.Finite?
    ensures Evaluated(def, s, x.input, x.at).Ok? || Evaluated(def, s, x.input, x.at) == Err(CounterLimit)
  {
  }

  // ---------------------------------------------------------------------------
  // Hysteresis
  // ---------------------------------------------------------------------------

  /** Between the thresholds an initialised pipeline keeps its state and drops any wait. */
  lemma DeadBandHolds(def: PipelineDefinition, s: EvaluationState, x: Sample)
    requires Detecting(def) && s.initialized && x.input.Finite? && TickOf(def, s, x).ok
    requires def.detector.value.fall < def.calibration.Apply(x.input.r) < def.detector.value.rise
    ensures After(def, s, x).active == s.active && !After(def, s, x).pending
  {
    StepMoves(def, s, x);
  }

  /**
   After a transition the same input selects the new state again, so that a constant signal
   settles, exactly unless both thresholds coincide with the calibrated value: then every input
   selects the opposite state.
   */
  lemma TransitionSettlesExact(def: PipelineDefinition, s: EvaluationState, x: Sample, y: Sample)
    requires Detecting(def) && def.detector.value.Valid() && s.initialized
    requires x.input.Finite? && y.input == x.input && After(def, s, x).active != s.active
    ensures TickOf(def, After(def, s, x), y).candidate == After(def, s, x).active
            <==> !(def.detector.value.fall == def.detector.value.rise == def.calibration.Apply(x.input.r))
  {
    StepMoves(def, s, x);
  }

  /** Such a detector is accepted, and without debounce it toggles on every repetition of that input. */
  lemma CoincidingThresholdsToggle()
    ensures var d := Detector(HighActive, 1.0, 1.0, 0, 0);
            var def := PipelineDefinition(0, State, PipelineInput("a", None, "k", None, 0), None, None, None,
                                          Calibration(1.0, 0.0), Some(d));
            var on, off := INITIAL.(initialized := true, active := true), INITIAL.(initialized := true);
            && def.Valid()
            && After(def, off, Sample(Finite(1.0), 0)) == on && After(def, on, Sample(Finite(1.0), 1)) == off
  {
  }

  // ---------------------------------------------------------------------------
  // State and accumulated-count pipelines on one signal
  // ---------------------------------------------------------------------------

  /** Values a state pipeline publishes for the first k samples. */
  function Emissions(def: PipelineDefinition, xs: seq<Sample>, k: nat): seq<bool>
    requires k <= |xs|
  {
    if k == 0 then []
    else
      var before := Emissions(def, xs, k - 1);
      match Evaluated(def, StateAt(def, xs, k - 1), xs[k - 1].input, xs[k - 1].at)
      case Ok((e, _)) => if e.boolean.Some? then before + [e.boolean.value] else before
      case Err(_) => before
  }

  /** Values an accumulated-count pipeline publishes for the first k samples. */
  function Counts(def: PipelineDefinition, xs: seq<Sample>, k: nat): seq<int>
    requires k <= |xs|
  {
    if k == 0 then []
    else
      var before := Counts(def, xs, k - 1);
      match Evaluated(def, StateAt(def, xs, k - 1), xs[k - 1].input, xs[k - 1].at)
      case Ok((e, _)) => if e.integer.Some? then before + [e.integer.value] else before
      case Err(_) => before
  }

  function Trues(bs: seq<bool>): nat {
    if bs == [] then 0 else Trues(bs[..|bs| - 1]) + (if bs[|bs| - 1] then 1 else 0)
  }

  /** Rising edges: true publications after the first publication. */
  function Rises(bs: seq<bool>): nat {
    if bs == [] then 0 else Trues(bs[1..])
  }

  lemma RisesAppend(bs: seq<bool>, b: bool)
    ensures Rises(bs + [b]) == Rises(bs) + (if b && bs != [] then 1 else 0)
  {
    if bs != [] {
      assert (bs + [b])[1..] == bs[1..] + [b];
      assert (bs[1..] + [b])[..|bs| - 1] == bs[1..];
    }
  }

  /** Same calibration and detector, one of each kind. */
  predicate SameSignal(state: PipelineDefinition, count: PipelineDefinition) {
    && state.kind == State && count.kind == AccumulatedCount
    && state.calibration == count.calibration
    && state.detector == count.detector && state.detector.Some?
    && count.trigger.Some?
  }

  /** Publications of a state pipeline alternate, and the last one is the state held. */
  lemma {:induction false} StateAlternates(def: PipelineDefinition, xs: seq<Sample>, k: nat)
    requires def.kind == State && def.detector.Some? && k <= |xs|
    ensures var bs := Emissions(def, xs, k);
            && (forall i | 0 < i < |bs| :: bs[i] != bs[i - 1])
            && (bs != [] <==> StateAt(def, xs, k).initialized)
            && (bs != [] ==> bs[|bs| - 1] == StateAt(def, xs, k).active)
  {
    if k > 0 {
      StateAlternates(def, xs, k - 1);
    }
  }

  /** Whether the state pipeline publishes a rise on this sample. */
  predicate RisesOn(def: PipelineDefinition, s: EvaluationState, x: Sample) {
    match Evaluated(def, s, x.input, x.at)
    case Ok((e, _)) => e.boolean == Some(true) && s.initialized
    case Err(_) => false
  }

  /** One sample: the count pipeline moves as the state pipeline does, counting the rise if there is one. */
  lemma OneSample(state: PipelineDefinition, count: PipelineDefinition, s: EvaluationState, n: nat, x: Sample)
    requires SameSignal(state, count)
    ensures var rise := RisesOn(state, s, x);
            var r := Evaluated(count, s.(counter := n), x.input, x.at);
            && (r == Err(CounterLimit) <==> rise && n + 1 > MAX_SAFE_INTEGER)
            && (r != Err(CounterLimit) ==>
                  && After(count, s.(counter := n), x) == After(state, s, x).(counter := if rise then n + 1 else n)
                  && (r.Ok? ==> r.value.0.integer == if rise then Some(n + 1) else None)
                  && (r.Err? ==> !rise))
  {
  }

  /** The rises published so far, one sample at a time. */
  lemma RisesStep(def: PipelineDefinition, xs: seq<Sample>, k: nat)
    requires def.kind == State && def.detector.Some? && 0 < k <= |xs|
    ensures Rises(Emissions(def, xs, k))
            == Rises(Emissions(def, xs, k - 1)) + if RisesOn(def, StateAt(def, xs, k - 1), xs[k - 1]) then 1 else 0
  {
    var before := Emissions(def, xs, k - 1);
    StateAlternates(def, xs, k - 1);
    RisesAppend(before, true);
    RisesAppend(before, false);
  }

  /**
   Up to the safe-integer bound the two pipelines pass through the same states, the counter is
   the number of rising edges the state pipeline published, and the counts published are
   1, 2, 3, ... without a gap.
   */
  lemma {:induction false} CountFollowsState(
    state: PipelineDefinition, count: PipelineDefinition, xs: seq<Sample>, k: nat)
    requires SameSignal(state, count) && k <= |xs|
    requires Rises(Emissions(state, xs, k)) <= MAX_SAFE_INTEGER
    ensures StateAt(count, xs, k) == StateAt(state, xs, k).(counter := Rises(Emissions(state, xs, k)))
    ensures Counts(count, xs, k) == seq(Rises(Emissions(state, xs, k)), i => i + 1)
  {
    if k > 0 {
      var p := k - 1;
      RisesStep(state, xs, k);
      CountFollowsState(state, count, xs, p);
      OneSample(state, count, StateAt(state, xs, p), Rises(Emissions(state, xs, p)), xs[p]);
    }
  }

  /** Counting stops exactly at the input that would publish the edge beyond 2^53 - 1. */
  lemma CounterLimitExact(state: PipelineDefinition, count: PipelineDefinition, xs: seq<Sample>, k: nat)
    requires SameSignal(state, count) && k < |xs|
    requires Rises(Emissions(state, xs, k)) <= MAX_SAFE_INTEGER
    ensures Evaluated(count, StateAt(count, xs, k), xs[k].input, xs[k].at) == Err(CounterLimit)
            <==> Rises(Emissions(state, xs, k + 1)) > MAX_SAFE_INTEGER
  {
    CountFollowsState(state, count, xs, k);
    RisesStep(state, xs, k + 1);
    OneSample(state, count, StateAt(state, xs, k), Rises(Emissions(state, xs, k)), xs[k]);
  }
}
