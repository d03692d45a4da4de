/**
 Calibration, thresholding with hysteresis, debounce and accumulated counting of one
 pipeline input.
 */
module Evaluator {
  import opened Types
  import opened Definition

  /** Largest integer every JSON number consumer represents exactly (2^53 - 1). */
  const MAX_SAFE_INTEGER: int := 9_007_199_254_740_991

  datatype EvaluationState = EvaluationState(
    initialized: bool, active: bool, counter: int, pending: bool, pendingActive: bool, pendingSince: int)

  const INITIAL := EvaluationState(false, false, 0, false, false, 0)

  datatype Evaluation = Evaluation(
    emitted: bool, number: Option<real>, boolean: Option<bool>, integer: Option<int>, calibrated: real)

  function Silent(calibrated: real): Evaluation {
    Evaluation(false, None, None, None, calibrated)
  }

  datatype EvaluatorError =
    NegativeTime | InvalidCalibration | InputNotFinite | DetectorMissing | TriggerMissing | CounterLimit

  type Outcome = Result<(Evaluation, EvaluationState), EvaluatorError>

  /** Does the detector select the active state for this value (hysteresis depends on the current state)? */
  predicate Candidate(d: Detector, s: EvaluationState, v: real) {
    match d.mode
    case HighActive => if s.initialized && s.active then v > d.fall else v >= d.rise
    case LowActive => if s.initialized && s.active then v < d.rise else v <= d.fall
  }

  function TransitionDebounce(d: Detector, target: bool): int {
    var risingSignal := if d.mode == HighActive then target else !target;
    if risingSignal then d.riseDebounce else d.fallDebounce
  }

  /** The detector part alone: what one accepted input does to active and pending. */
  function Advance(d: Detector, s: EvaluationState, v: real, at: int): EvaluationState {
    var c := Candidate(d, s, v);
    if !s.initialized then s.(initialized := true, active := c)
    else if c == s.active then s.(pending := false)
    else
      var w := TransitionDebounce(d, c);
      var waiting := s.pending && s.pendingActive == c && s.pendingSince <= at;
      if w == 0 || (waiting && w <= at - s.pendingSince) then s.(active := c, pending := false)
      else if waiting then s
      else s.(pending := true, pendingActive := c, pendingSince := at)
  }

  /** Result of one input, by kind. */
  function Evaluated(def: PipelineDefinition, s: EvaluationState, input: Float, at: int): Outcome {
    if at < 0 then Err(NegativeTime)
    else if !def.calibration.Valid() then Err(InvalidCalibration)
    else if input.NotFinite? then Err(InputNotFinite)
    else
      var v := def.calibration.Apply(input.r);
      var silent := Silent(v);
      if def.kind == Measurement then
        Ok((silent.(emitted := true, number := Some(v)), s.(initialized := true)))
      else if def.detector.None? then Err(DetectorMissing)
      else
        var s' := Advance(def.detector.value, s, v, at);
        if def.kind == State then
          var changed := !s.initialized || s'.active != s.active;
          Ok((if changed then silent.(emitted := true, boolean := Some(s'.active)) else silent, s'))
        else if !s.initialized || s'.pending then Ok((silent, s'))
        else if def.trigger.None? then Err(TriggerMissing)
        else if s.active || !s'.active then Ok((silent, s'))
        else if s.counter >= MAX_SAFE_INTEGER then Err(CounterLimit)
        else Ok((silent.(emitted := true, integer := Some(s.counter + 1)), s'.(counter := s.counter + 1)))
  }

  /** The node's evaluation, field by field on its own copy of the state. */
  method Evaluate(def: PipelineDefinition, start: EvaluationState, input: Float, at: int) returns (r: Outcome)
    ensures r == Evaluated(def, start, input, at)
  {
    var state := start;
    if at < 0 { return Err(NegativeTime); }
    if !def.calibration.Valid() { return Err(InvalidCalibration); }
    if input.NotFinite? { return Err(InputNotFinite); }
    var calibrated := def.calibration.Apply(input.r);
    var result := Silent(calibrated);
    if def.kind == Measurement {
      result := result.(emitted := true, number := Some(calibrated));
      state := state.(initialized := true);
      return Ok((result, state));
    }
    if def.detector.None? { return Err(DetectorMissing); }
    var detector := def.detector.value;
    var candidate := Candidate(detector, state, calibrated);
    if !state.initialized {
      state := state.(initialized := true, active := candidate);
      if def.kind == State {
        result := result.(emitted := true, boolean := Some(candidate));
      }
      return Ok((result, state));
    }
    var previous := state.active;
    if candidate == state.active {
      state := state.(pending := false);
    } else {
      var debounce := TransitionDebounce(detector, candidate);
      if debounce == 0 {
        state := state.(active := candidate, pending := false);
      } else if !state.pending || state.pendingActive != candidate {
        state := state.(pending := true, pendingActive := candidate, pendingSince := at);
        return Ok((result, state));
      } else if at < state.pendingSince {
        state := state.(pendingSince := at);
        return Ok((result, state));
      } else if at - state.pendingSince < debounce {
        return Ok((result, state));
      } else {
        state := state.(active := candidate, pending := false);
      }
    }
    if def.kind == State {
      if previous != state.active {
        result := result.(emitted := true, boolean := Some(state.active));
      }
    } else {
      if def.trigger.None? { return Err(TriggerMissing); }
      if !previous && state.active {
        if state.counter >= MAX_SAFE_INTEGER { return Err(CounterLimit); }
        state := state.(counter := state.counter + 1);
        result := result.(emitted := true, integer := Some(state.counter));
      }
    }
    return Ok((result, state));
  }
}
