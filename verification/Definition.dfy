/**
 Pipeline definitions: the structural fields that identify a series and the tuning
 fields that may change without starting a new one.
 */
module Definition {
  import opened Types

  const MAX_DEBOUNCE_MS := 300_000
  const MAX_DISPLAY_NAME_CHARS := 128
  const MAX_UNIT_CHARS := 32

  /** Only equality and order of pipeline ids matter to the engine. */
  type PipelineId = nat

  datatype Kind = Measurement | State | AccumulatedCount

  datatype Trigger = OnTransition

  datatype Mode = HighActive | LowActive

  datatype Detector = Detector(mode: Mode, rise: real, fall: real, riseDebounce: int, fallDebounce: int) {

    predicate Valid() {
      && 0 <= riseDebounce <= MAX_DEBOUNCE_MS
      && 0 <= fallDebounce <= MAX_DEBOUNCE_MS
      && fall <= rise
    }
  }

  datatype Calibration = Calibration(scale: real, offset: real) {

    predicate Valid() {
      scale != 0.0
    }

    function Apply(input: real): real {
      input * scale + offset
    }
  }

  datatype PipelineInput = PipelineInput(
    adapter: string, subject: Option<string>, measurementKey: string, channel: Option<nat>, valueIndex: nat)
  {
    predicate Matches(fromAdapter: string, fromSubject: Option<string>, key: string, fromChannel: Option<nat>) {
      && adapter == fromAdapter
      && measurementKey == key
      && channel == fromChannel
      && (subject.Some? ==> subject == fromSubject)
    }
  }

  /** Two definitions with equal structural fields continue the same series. */
  datatype Structural = Structural(
    id: PipelineId, kind: Kind, input: PipelineInput, trigger: Option<Trigger>, unit: Option<string>)

  datatype PipelineDefinition = PipelineDefinition(
    id: PipelineId, kind: Kind, input: PipelineInput, trigger: Option<Trigger>, unit: Option<string>,
    displayName: Option<string>, calibration: Calibration, detector: Option<Detector>)
  {
    function StructuralFields(): Structural {
      Structural(id, kind, input, trigger, unit)
    }

    predicate Valid() {
      && input.adapter != ""
      && input.measurementKey != ""
      && input.subject != Some("")
      && (displayName.Some? ==> !Blank(displayName.value) && |displayName.value| <= MAX_DISPLAY_NAME_CHARS)
      && calibration.Valid()
      && match kind
         case Measurement =>
           && detector.None?
           && trigger.None?
           && unit.Some? && !Blank(unit.value) && |unit.value| <= MAX_UNIT_CHARS
         case State => unit.None? && detector.Some? && detector.value.Valid() && trigger.None?
         case AccumulatedCount => unit.None? && detector.Some? && detector.value.Valid() && trigger.Some?
    }
  }

  predicate IsWhitespace(c: char) {
    var n := c as int;
    || 0x9 <= n <= 0xD || n in {0x20, 0x85, 0xA0, 0x1680, 0x2028, 0x2029, 0x202F, 0x205F, 0x3000}
    || 0x2000 <= n <= 0x200A
  }

  predicate Blank(s: string) {
    forall i | 0 <= i < |s| :: IsWhitespace(s[i])
  }
}
