/** The generation-aware holder of the active ingest listener. */
module Transition {
  import opened Types

  datatype TransitionError = GenerationRollback | GenerationNotNew

  /** `active` is the number of the listener in service. */
  datatype Holder = Holder(desired: nat, applied: nat, active: Option<nat>) {
    /** What is applied was desired, and a listener in service has an applied generation. */
    predicate Valid() {
      applied <= desired && (active.Some? ==> applied > 0)
    }
  }

  const FRESH := Holder(0, 0, None)

  function Restored(h: Holder, desired: nat, applied: nat, active: nat): Result<Holder, TransitionError> {
    if applied == 0 || applied > desired then Err(GenerationRollback) else Ok(Holder(desired, applied, Some(active)))
  }

  function Observed(h: Holder, generation: nat): Result<Holder, TransitionError> {
    if generation < h.desired || generation < h.applied then Err(GenerationRollback) else Ok(h.(desired := generation))
  }

  /** The desired generation is noted even when it turns out not to be new. */
  function Prepared(h: Holder, generation: nat): (Holder, Result<(), TransitionError>) {
    match Observed(h, generation)
    case Err(e) => (h, Err(e))
    case Ok(h') => (h', if generation <= h'.applied then Err(GenerationNotNew) else Ok(()))
  }

  function Reused(h: Holder, generation: nat): Result<Holder, TransitionError> {
    if generation != h.desired || generation <= h.applied then Err(GenerationNotNew)
    else if h.active.None? then Err(GenerationRollback)
    else Ok(h.(applied := generation))
  }

  function Replaced(h: Holder, generation: nat, active: nat): Result<Holder, TransitionError> {
    if generation != h.desired || generation <= h.applied then Err(GenerationNotNew)
    else Ok(h.(applied := generation, active := Some(active)))
  }

  function Disabled(h: Holder, generation: nat): Result<Holder, TransitionError> {
    if generation != h.desired || generation < h.applied then Err(GenerationRollback)
    else Ok(h.(applied := generation, active := None))
  }

  function Invalidated(h: Holder): Holder {
    h.(applied := 0, active := None)
  }

  class ListenerTransition {
    var desired: nat
    var applied: nat
    var active: Option<nat>

    function State(): Holder
      reads this
    {
      Holder(desired, applied, active)
    }

    constructor ()
      ensures State() == FRESH && State().Valid()
    {
      desired, applied, active := 0, 0, None;
    }

    method RestoreApplied(desired': nat, applied': nat, listener: nat) returns (r: Result<(), TransitionError>)
      modifies this
      ensures match Restored(old(State()), desired', applied', listener)
              case Ok(h) => r.Ok? && State() == h
              case Err(e) => r == Err(e) && State() == old(State())
      ensures r.Ok? ==> State().Valid() && active == Some(listener)
      ensures old(State()).Valid() ==> State().Valid()
    {
      if applied' == 0 || applied' > desired' { return Err(GenerationRollback); }
      desired, applied, active := desired', applied', Some(listener);
      return Ok(());
    }

    method ObserveDesired(generation: nat) returns (r: Result<(), TransitionError>)
      modifies this
      ensures match Observed(old(State()), generation)
              case Ok(h) => r.Ok? && State() == h
              case Err(e) => r == Err(e) && State() == old(State())
      ensures desired >= old(desired) && applied == old(applied) && active == old(active)
      ensures old(State()).Valid() ==> State().Valid()
    {
      if generation < desired || generation < applied { return Err(GenerationRollback); }
      desired := generation;
      return Ok(());
    }

    method PrepareGeneration(generation: nat) returns (r: Result<(), TransitionError>)
      modifies this
      ensures (State(), r) == Prepared(old(State()), generation)
      ensures desired >= old(desired) && applied == old(applied) && active == old(active)
      ensures r.Ok? <==> applied < generation && old(desired) <= generation
      ensures old(State()).Valid() ==> State().Valid()
    {
      r := ObserveDesired(generation);
      if r.Err? { return; }
      if generation <= applied { return Err(GenerationNotNew); }
      return Ok(());
    }

    method CommitReused(generation: nat) returns (r: Result<(), TransitionError>)
      modifies this
      ensures match Reused(old(State()), generation)
              case Ok(h) => r.Ok? && State() == h
              case Err(e) => r == Err(e) && State() == old(State())
      ensures r.Ok? ==> old(applied) < applied == generation == desired && active == old(active)
      ensures old(State()).Valid() ==> State().Valid()
    {
      if generation != desired || generation <= applied { return Err(GenerationNotNew); }
      if active.None? { return Err(GenerationRollback); }
      applied := generation;
      return Ok(());
    }

    /** Returns the listener that was in service before, for orderly drain. */
    method CommitReplaced(generation: nat, listener: nat) returns (r: Result<Option<nat>, TransitionError>)
      modifies this
      ensures match Replaced(old(State()), generation, listener)
              case Ok(h) => r == Ok(old(active)) && State() == h
              case Err(e) => r == Err(e) && State() == old(State())
      ensures r.Ok? ==> old(applied) < applied == generation == desired && active == Some(listener)
      ensures old(State()).Valid() ==> State().Valid()
    {
      if generation != desired || generation <= applied { return Err(GenerationNotNew); }
      var previous := active;
      active, applied := Some(listener), generation;
      return Ok(previous);
    }

    method CommitDisabled(generation: nat) returns (r: Result<Option<nat>, TransitionError>)
      modifies this
      ensures match Disabled(old(State()), generation)
              case Ok(h) => r == Ok(old(active)) && State() == h
              case Err(e) => r == Err(e) && State() == old(State())
      ensures r.Ok? ==> old(applied) <= applied == generation == desired && active.None?
      ensures old(State()).Valid() ==> State().Valid()
    {
      if generation != desired || generation < applied { return Err(GenerationRollback); }
      var previous := active;
      active, applied := None, generation;
      return Ok(previous);
    }

    method Invalidate() returns (previous: Option<nat>)
      modifies this
      ensures previous == old(active) && State() == Invalidated(old(State()))
      ensures State().Valid() && desired == old(desired)
    {
      previous := active;
      active, applied := None, 0;
    }
  }

  // ---------------------------------------------------------------------------
  // Runs
  // ---------------------------------------------------------------------------

  datatype Call =
    | Restore(desired: nat, applied: nat, listener: nat)
    | Observe(generation: nat)
    | Prepare(generation: nat)
    | Reuse(generation: nat)
    | Replace(generation: nat, listener: nat)
    | Disable(generation: nat)
    | Forget

  function Kept(h: Holder, r: Result<Holder, TransitionError>): Holder {
    match r case Ok(h') => h' case Err(_) => h
  }

  function After(h: Holder, c: Call): Holder {
    match c
    case Restore(desired, applied, listener) => Kept(h, Restored(h, desired, applied, listener))
    case Observe(generation) => Kept(h, Observed(h, generation))
    case Prepare(generation) => Prepared(h, generation).0
    case Reuse(generation) => Kept(h, Reused(h, generation))
    case Replace(generation, listener) => Kept(h, Replaced(h, generation, listener))
    case Disable(generation) => Kept(h, Disabled(h, generation))
    case Forget => Invalidated(h)
  }

  function AfterAll(h: Holder, cs: seq<Call>): Holder
    decreases |cs|
  {
    if cs == [] then h else AfterAll(After(h, cs[0]), cs[1..])
  }

  lemma {:induction false} AfterAllAdvances(h: Holder, cs: seq<Call>)
    requires h.Valid()
    ensures var h' := AfterAll(h, cs);
            && h'.Valid()
            && ((forall i | 0 <= i < |cs| :: !cs[i].Restore?) ==>
                  && h.desired <= h'.desired
                  && ((forall i | 0 <= i < |cs| :: !cs[i].Forget?) ==> h.applied <= h'.applied))
    decreases |cs|
  {
    if cs != [] { AfterAllAdvances(After(h, cs[0]), cs[1..]); }
  }

  /**
   Over any calls what is applied was desired and a listener in service has a generation; until
   the next restore the desired generation never goes back, and until the listener is given up
   neither does the applied one.
   */
  lemma GenerationsAdvance(before: seq<Call>, after: seq<Call>)
    ensures var h := AfterAll(FRESH, before);
            var h' := AfterAll(h, after);
            && h'.Valid()
            && ((forall i | 0 <= i < |after| :: !after[i].Restore?) ==>
                  && h.desired <= h'.desired
                  && ((forall i | 0 <= i < |after| :: !after[i].Forget?) ==> h.applied <= h'.applied))
  {
    AfterAllAdvances(FRESH, before);
    AfterAllAdvances(AfterAll(FRESH, before), after);
  }
}
