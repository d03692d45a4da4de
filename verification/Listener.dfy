/**
 The ingress supervisor, one externally visible step at a time, interleaved with operator changes,
 listener exits and crashes: pause, publish, switch over, resume, commit.
 */
module Listener {
  import opened Types
  import opened Transition

  /** `generation` is the configuration whose policy the listener enforces. */
  datatype Listener = Listener(accepting: bool, exited: bool, generation: nat)

  /**
   What the supervisor does next. `g` is the generation it read and is applying; `staged` is the
   number of the listener bound for it.
   */
  datatype Phase =
    | Idle
    | SamePausing(g: nat) | SamePublishing(g: nat) | SameRestoring
    | SameReplacing(g: nat) | SameResuming(g: nat) | SameCommitting(g: nat)
    | NewBinding(g: nat) | NewPausing(g: nat, staged: nat) | NewPublishing(g: nat, staged: nat)
    | NewRestoring(staged: nat) | NewDropping(staged: nat)
    | NewResuming(g: nat, staged: nat) | NewCommitting(g: nat, staged: nat) | NewInvalidating(staged: nat)
    | OffPausing(g: nat) | OffPublishing(g: nat) | OffRestoring | OffCommitting(g: nat)
    | Draining(previous: nat)

  /** `desired` and `enabled` are the committed configuration, `durable` the applied generation on disk. */
  datatype World = World(
    desired: nat, enabled: bool, durable: nat, listeners: seq<Listener>, t: Holder, phase: Phase)

  datatype Event =
    | Operator(enable: bool)
    | Exit(i: nat)
    | Crash(recover: bool, written: bool)
    | Begin(valid: bool, sameBind: bool)
    | Proceed(ok: bool)
    | Invalidate(written: bool)

  // ---------------------------------------------------------------------------
  // Listener commands
  // ---------------------------------------------------------------------------

  function SetAccepting(w: World, i: nat, accepting: bool): World
    requires i < |w.listeners|
  {
    w.(listeners := w.listeners[i := w.listeners[i].(accepting := accepting)])
  }

  function Stop(w: World, i: nat): World
    requires i < |w.listeners|
  {
    w.(listeners := w.listeners[i := w.listeners[i].(accepting := false, exited := true)])
  }

  predicate Runs(w: World, i: Option<nat>) {
    i.Some? && i.value < |w.listeners| && !w.listeners[i.value].exited
  }

  /** Pausing and resuming fail only on a listener that has exited. */
  function Paused(w: World, next: Phase, failed: Phase): World {
    if Runs(w, w.t.active) then SetAccepting(w, w.t.active.value, false).(phase := next) else w.(phase := failed)
  }

  function Resumed(w: World, next: Phase): World {
    if Runs(w, w.t.active) then SetAccepting(w, w.t.active.value, true).(phase := next) else w.(phase := next)
  }

  /** One transaction: the configuration read is still the committed one, and the write succeeds. */
  function Published(w: World, g: nat, enabled: bool, ok: bool, next: Phase, failed: Phase): World {
    if ok && w.desired == g && w.enabled == enabled then w.(durable := g, phase := next) else w.(phase := failed)
  }

  /** The held listener is dropped, and the applied generation on disk is cleared if the write succeeds. */
  function Unbound(w: World, written: bool): World {
    var w1 := if w.t.active.Some? && w.t.active.value < |w.listeners| then Stop(w, w.t.active.value) else w;
    w1.(t := Invalidated(w.t), durable := if written then 0 else w.durable, phase := Idle)
  }

  // ---------------------------------------------------------------------------
  // Steps
  // ---------------------------------------------------------------------------

  function Started(w: World, valid: bool, sameBind: bool): World {
    var g := w.desired;
    if !w.enabled && w.t.active.None? && w.t.applied == g then w
    else if w.enabled && Runs(w, w.t.active) && w.t.applied == g then w
    else if w.enabled && w.t.active.Some? && !Runs(w, w.t.active) then w
    else
      var (t, r) := Prepared(w.t, g);
      var w1 := w.(t := t);
      if r.Err? then w1
      else if !w.enabled then w1.(phase := if t.active.Some? then OffPausing(g) else OffPublishing(g))
      else if !valid then w1
      else w1.(phase := if sameBind && t.active.Some? then SamePausing(g) else NewBinding(g))
  }

  function Proceeded(w: World, ok: bool): World {
    match w.phase
    case Idle => w
    case SamePausing(g) => Paused(w, SamePublishing(g), Idle)
    case SamePublishing(g) => Published(w, g, true, ok, SameReplacing(g), SameRestoring)
    case SameRestoring => Resumed(w, Idle)
    case SameReplacing(g) =>
      if Runs(w, w.t.active)
      then w.(listeners := w.listeners[w.t.active.value := w.listeners[w.t.active.value].(generation := g)],
              phase := SameResuming(g))
      else w.(phase := Idle)
    case SameResuming(g) => Resumed(w, if Runs(w, w.t.active) then SameCommitting(g) else Idle)
    case SameCommitting(g) =>
      (match Reused(w.t, g) case Ok(t) => w.(t := t, phase := Idle) case Err(_) => w.(phase := Idle))
    case NewBinding(g) =>
      if ok then w.(listeners := w.listeners + [Listener(false, false, g)], phase := NewPausing(g, |w.listeners|))
      else w.(phase := Idle)
    case NewPausing(g, staged) =>
      if w.t.active.None? then w.(phase := NewPublishing(g, staged))
      else Paused(w, NewPublishing(g, staged), NewDropping(staged))
    case NewPublishing(g, staged) => Published(w, g, true, ok, NewResuming(g, staged), NewRestoring(staged))
    case NewRestoring(staged) => Resumed(w, NewDropping(staged))
    case NewDropping(staged) => (if staged < |w.listeners| then Stop(w, staged) else w).(phase := Idle)
    case NewResuming(g, staged) =>
      if Runs(w, Some(staged)) then SetAccepting(w, staged, true).(phase := NewCommitting(g, staged))
      else w.(phase := NewInvalidating(staged))
    case NewInvalidating(staged) => Unbound(if staged < |w.listeners| then Stop(w, staged) else w, ok)
    case NewCommitting(g, staged) =>
      (match Replaced(w.t, g, staged)
       case Ok(t) => w.(t := t, phase := if w.t.active.Some? then Draining(w.t.active.value) else Idle)
       case Err(_) => w.(phase := NewDropping(staged)))
    case OffPausing(g) => Paused(w, OffPublishing(g), Idle)
    case OffPublishing(g) => Published(w, g, false, ok, OffCommitting(g), OffRestoring)
    case OffRestoring => Resumed(w, Idle)
    case OffCommitting(g) =>
      (match Disabled(w.t, g)
       case Ok(t) => w.(t := t, phase := if w.t.active.Some? then Draining(w.t.active.value) else Idle)
       case Err(_) => w.(phase := Idle))
    case Draining(previous) => (if previous < |w.listeners| then Stop(w, previous) else w).(phase := Idle)
  }

  /** Nothing in memory survives; an enabled, applied configuration may be served again. */
  function Restarted(w: World, recover: bool, written: bool): World {
    var down := w.(listeners := seq(|w.listeners|, i requires 0 <= i < |w.listeners| =>
                     w.listeners[i].(accepting := false, exited := true)),
                   t := FRESH, phase := Idle);
    var restored := Restored(FRESH, w.desired, w.durable, |w.listeners|);
    if recover && w.enabled && restored.Ok?
    then down.(listeners := down.listeners + [Listener(true, false, w.durable)], t := restored.value)
    else down.(durable := if written then 0 else w.durable)
  }

  function Step(w: World, e: Event): World {
    match e
    case Operator(enable) => w.(desired := w.desired + 1, enabled := enable)
    case Exit(i) => if i < |w.listeners| then Stop(w, i) else w
    case Crash(recover, written) => Restarted(w, recover, written)
    case Begin(valid, sameBind) => if w.phase.Idle? then Started(w, valid, sameBind) else w
    case Proceed(ok) => Proceeded(w, ok)
    case Invalidate(written) => if w.phase.Idle? then Unbound(w, written) else w
  }

  function Run(w: World, es: seq<Event>): World
    decreases |es|
  {
    if es == [] then w else Run(Step(w, es[0]), es[1..])
  }

  function Boot(desired: nat, enabled: bool): World {
    World(desired, enabled, 0, [], FRESH, Idle)
  }

  // ---------------------------------------------------------------------------
  // Invariant
  // ---------------------------------------------------------------------------

  /** The listener being brought up, if any. */
  function StagedOf(p: Phase): Option<nat> {
    match p
    case NewPausing(_, s) => Some(s)
    case NewPublishing(_, s) => Some(s)
    case NewRestoring(s) => Some(s)
    case NewDropping(s) => Some(s)
    case NewResuming(_, s) => Some(s)
    case NewCommitting(_, s) => Some(s)
    case NewInvalidating(s) => Some(s)
    case _ => None
  }

  /** The generation being applied, if any. */
  function Applying(p: Phase): Option<nat> {
    match p
    case SamePausing(g) => Some(g)
    case SamePublishing(g) => Some(g)
    case SameReplacing(g) => Some(g)
    case SameResuming(g) => Some(g)
    case SameCommitting(g) => Some(g)
    case NewBinding(g) => Some(g)
    case NewPausing(g, _) => Some(g)
    case NewPublishing(g, _) => Some(g)
    case NewResuming(g, _) => Some(g)
    case NewCommitting(g, _) => Some(g)
    case OffPausing(g) => Some(g)
    case OffPublishing(g) => Some(g)
    case OffCommitting(g) => Some(g)
    case _ => None
  }

  /** The listener in service has been paused for the publication. */
  predicate Quiet(p: Phase) {
    || p.SamePublishing? || p.SameRestoring? || p.SameReplacing? || p.SameResuming?
    || p.NewPublishing? || p.NewRestoring? || p.NewResuming? || p.NewCommitting? || p.NewInvalidating?
    || p.OffPublishing? || p.OffRestoring? || p.OffCommitting?
  }

  /** The applied generation on disk is the new one; the holder still has the old. */
  predicate Switching(p: Phase) {
    || p.SameReplacing? || p.SameResuming? || p.SameCommitting?
    || p.NewResuming? || p.NewCommitting? || p.NewInvalidating? || p.OffCommitting?
  }

  /** The listener in service is being kept and only its policy replaced. */
  predicate InPlace(p: Phase) {
    || p.SamePausing? || p.SamePublishing? || p.SameRestoring?
    || p.SameReplacing? || p.SameResuming? || p.SameCommitting?
  }

  predicate Accepts(w: World, i: nat) {
    i < |w.listeners| && w.listeners[i].accepting
  }

  ghost predicate Numbers(w: World) {
    && w.t.applied <= w.t.desired <= w.desired && w.durable <= w.desired
    && (w.t.active.Some? ==> w.t.active.value < |w.listeners|)
    && (StagedOf(w.phase).Some? ==> StagedOf(w.phase).value < |w.listeners| && StagedOf(w.phase) != w.t.active)
    && (w.phase.Draining? ==> w.phase.previous < |w.listeners| && Some(w.phase.previous) != w.t.active)
    && (Applying(w.phase).Some? ==> Applying(w.phase).value == w.t.desired && w.t.applied < w.t.desired)
    && (forall i | 0 <= i < |w.listeners| && w.listeners[i].exited :: !w.listeners[i].accepting)
  }

  /** Only the listener in service accepts, and not while paused; or, at the very end, the staged one. */
  ghost predicate WhoAccepts(w: World) {
    forall i | 0 <= i < |w.listeners| && w.listeners[i].accepting ::
      if w.phase.NewCommitting? then i == w.phase.staged else w.t.active == Some(i) && !Quiet(w.phase)
  }

  /** The policies in force match the applied generation on disk. */
  ghost predicate Faithful(w: World) {
    && (Switching(w.phase) && Applying(w.phase).Some? ==> w.durable == Applying(w.phase).value)
    && (!Switching(w.phase) && Runs(w, w.t.active) ==>
          w.listeners[w.t.active.value].generation == w.t.applied == w.durable)
    && ((w.phase.SameResuming? || w.phase.SameCommitting?) && Runs(w, w.t.active) ==>
          w.listeners[w.t.active.value].generation == w.phase.g)
    && (w.phase.NewPausing? || w.phase.NewPublishing? || w.phase.NewResuming? || w.phase.NewCommitting? ==>
          w.phase.staged < |w.listeners| && w.listeners[w.phase.staged].generation == w.phase.g)
    && (InPlace(w.phase) ==> w.t.active.Some?)
  }

  ghost predicate Inv(w: World) {
    Numbers(w) && WhoAccepts(w) && Faithful(w)
  }

  lemma StartedKeeps(w: World, valid: bool, sameBind: bool)
    requires Inv(w) && w.phase.Idle?
    ensures Inv(Started(w, valid, sameBind))
  {
  }

  lemma ExitKeeps(w: World, i: nat)
    requires Inv(w) && i < |w.listeners|
    ensures Inv(Stop(w, i))
  {
  }

  lemma RestartedKeeps(w: World, recover: bool, written: bool)
    requires Inv(w)
    ensures Inv(Restarted(w, recover, written))
  {
  }

  lemma UnboundKeeps(w: World, written: bool)
    requires Numbers(w)
    requires forall i | 0 <= i < |w.listeners| && w.listeners[i].accepting :: w.t.active == Some(i)
    ensures Inv(Unbound(w, written))
  {
  }

  lemma SamePausingKeeps(w: World, ok: bool)
    requires Inv(w) && (w.phase.SamePausing? || w.phase.SameRestoring?)
    ensures Inv(Proceeded(w, ok))
  {
  }

  lemma SamePublishingKeeps(w: World, ok: bool)
    requires Inv(w) && w.phase.SamePublishing?
    ensures Inv(Proceeded(w, ok))
  {
  }

  lemma SameSwitchKeeps(w: World, ok: bool)
    requires Inv(w) && (w.phase.SameReplacing? || w.phase.SameResuming? || w.phase.SameCommitting?)
    ensures Inv(Proceeded(w, ok))
  {
  }

  lemma OffPausingKeeps(w: World, ok: bool)
    requires Inv(w) && w.phase.OffPausing?
    ensures Inv(Proceeded(w, ok))
  {
  }

  lemma OffPublishingKeeps(w: World, ok: bool)
    requires Inv(w) && w.phase.OffPublishing?
    ensures Inv(Proceeded(w, ok))
  {
  }

  lemma OffRestoringKeeps(w: World, ok: bool)
    requires Inv(w) && w.phase.OffRestoring?
    ensures Inv(Proceeded(w, ok))
  {
  }

  lemma OffCommittingKeeps(w: World, ok: bool)
    requires Inv(w) && w.phase.OffCommitting?
    ensures Inv(Proceeded(w, ok))
  {
  }

  lemma DrainingKeeps(w: World, ok: bool)
    requires Inv(w) && (w.phase.Draining? || w.phase.NewDropping?)
    ensures Inv(Proceeded(w, ok))
  {
    var i := if w.phase.Draining? then w.phase.previous else w.phase.staged;
    ExitKeeps(w, i);
  }

  lemma BindingKeeps(w: World, ok: bool)
    requires Inv(w) && w.phase.NewBinding?
    ensures Inv(Proceeded(w, ok))
  {
  }

  lemma NewPausingKeeps(w: World, ok: bool)
    requires Inv(w) && w.phase.NewPausing?
    ensures Inv(Proceeded(w, ok))
  {
  }

  lemma NewPublishingKeeps(w: World, ok: bool)
    requires Inv(w) && w.phase.NewPublishing?
    ensures Inv(Proceeded(w, ok))
  {
  }

  lemma NewRestoringKeeps(w: World, ok: bool)
    requires Inv(w) && w.phase.NewRestoring?
    ensures Inv(Proceeded(w, ok))
  {
  }

  lemma SwitchKeeps(w: World, ok: bool)
    requires Inv(w) && (w.phase.NewResuming? || w.phase.NewCommitting?)
    ensures Inv(Proceeded(w, ok))
  {
  }

  lemma InvalidatingKeeps(w: World, ok: bool)
    requires Inv(w) && w.phase.NewInvalidating?
    ensures Inv(Proceeded(w, ok))
  {
    var w1 := Stop(w, w.phase.staged);
    UnboundKeeps(w1.(phase := Idle), ok);
    assert Proceeded(w, ok) == Unbound(w1.(phase := Idle), ok);
  }

  lemma StepKeeps(w: World, e: Event)
    requires Inv(w)
    ensures Inv(Step(w, e))
  {
    match e
    case Operator(_) =>
    case Exit(i) => if i < |w.listeners| { ExitKeeps(w, i); }
    case Crash(recover, written) => RestartedKeeps(w, recover, written);
    case Begin(valid, sameBind) => if w.phase.Idle? { StartedKeeps(w, valid, sameBind); }
    case Invalidate(written) => if w.phase.Idle? { UnboundKeeps(w, written); }
    case Proceed(ok) =>
      var p := w.phase;
      if p.SamePausing? || p.SameRestoring? {
        SamePausingKeeps(w, ok);
      } else if p.SamePublishing? {
        SamePublishingKeeps(w, ok);
      } else if p.SameReplacing? || p.SameResuming? || p.SameCommitting? {
        SameSwitchKeeps(w, ok);
      } else if p.NewBinding? {
        BindingKeeps(w, ok);
      } else if p.NewPausing? {
        NewPausingKeeps(w, ok);
      } else if p.NewPublishing? {
        NewPublishingKeeps(w, ok);
      } else if p.NewRestoring? {
        NewRestoringKeeps(w, ok);
      } else if p.NewResuming? || p.NewCommitting? {
        SwitchKeeps(w, ok);
      } else if p.NewInvalidating? {
        InvalidatingKeeps(w, ok);
      } else if p.NewDropping? || p.Draining? {
        DrainingKeeps(w, ok);
      } else if p.OffCommitting? {
        OffCommittingKeeps(w, ok);
      } else if p.OffPausing? {
        OffPausingKeeps(w, ok);
      } else if p.OffPublishing? {
        OffPublishingKeeps(w, ok);
      } else if p.OffRestoring? {
        OffRestoringKeeps(w, ok);
      }
  }

  lemma {:induction false} RunKeeps(w: World, es: seq<Event>)
    requires Inv(w)
    ensures Inv(Run(w, es))
    decreases |es|
  {
    if es != [] {
      StepKeeps(w, es[0]);
      RunKeeps(Step(w, es[0]), es[1..]);
    }
  }

  // ---------------------------------------------------------------------------
  // Switchover
  // ---------------------------------------------------------------------------

  /**
   At every step of every run at most one listener accepts, and it enforces exactly the applied
   generation recorded on disk, which never runs ahead of the committed configuration.
   */
  lemma AtMostOneAccepts(desired: nat, enabled: bool, es: seq<Event>)
    ensures var w := Run(Boot(desired, enabled), es);
            && (forall i: nat, j: nat | Accepts(w, i) && Accepts(w, j) :: i == j)
            && (forall i: nat | Accepts(w, i) :: w.listeners[i].generation == w.durable)
            && w.durable <= w.desired
  {
    RunKeeps(Boot(desired, enabled), es);
    var w := Run(Boot(desired, enabled), es);
    forall i: nat | Accepts(w, i) ensures w.listeners[i].generation == w.durable {
      assert !w.listeners[i].exited;
    }
  }

  /** Only a publication raises the applied generation, and it touches no listener. */
  lemma OnlyPublicationAdvances(w: World, e: Event)
    ensures var w' := Step(w, e);
            w'.durable > w.durable ==>
              && e.Proceed? && (w.phase.SamePublishing? || w.phase.NewPublishing? || w.phase.OffPublishing?)
              && w'.durable == w.desired && w'.listeners == w.listeners
  {
  }

  /**
   The applied generation on disk moves forward only by a publication, while no listener accepts,
   and only to the generation the operator has committed at that moment.
   */
  lemma AppliedAdvancesInSilence(desired: nat, enabled: bool, es: seq<Event>, e: Event)
    ensures var w := Run(Boot(desired, enabled), es);
            var w' := Step(w, e);
            w'.durable > w.durable ==>
              && e.Proceed? && w'.durable == w.desired
              && (forall i: nat :: !Accepts(w, i) && !Accepts(w', i))
  {
    RunKeeps(Boot(desired, enabled), es);
    var w := Run(Boot(desired, enabled), es);
    OnlyPublicationAdvances(w, e);
  }

  /**
   When a publication fails, restoring leaves the applied generation and every policy as they
   were, and the old listener accepts again unless it has exited.
   */
  lemma FailedPublicationRestores(desired: nat, enabled: bool, es: seq<Event>, ok: bool)
    requires var w := Run(Boot(desired, enabled), es);
             w.phase.SameRestoring? || w.phase.NewRestoring? || w.phase.OffRestoring?
    ensures var w := Run(Boot(desired, enabled), es);
            var w' := Step(w, Proceed(ok));
            && w'.durable == w.durable && w'.t == w.t && |w'.listeners| == |w.listeners|
            && (forall i | 0 <= i < |w.listeners| :: w'.listeners[i].generation == w.listeners[i].generation)
            && (Runs(w, w.t.active) ==>
                  && Accepts(w', w.t.active.value)
                  && w'.listeners[w.t.active.value].generation == w.t.applied == w.durable)
  {
    RunKeeps(Boot(desired, enabled), es);
  }

  // ---------------------------------------------------------------------------
  // Completion
  // ---------------------------------------------------------------------------

  /** The supervisor's next k steps, none of which fails. */
  function Onward(w: World, k: nat): World
    decreases k
  {
    if k == 0 then w else Onward(Step(w, Proceed(true)), k - 1)
  }

  /** The generation is applied: its listener accepts, or, if ingress is disabled, none does. */
  ghost predicate Serves(w: World, g: nat) {
    && w.phase.Idle? && w.t.applied == w.durable == w.desired == g
    && (w.enabled ==>
          Runs(w, w.t.active) && Accepts(w, w.t.active.value) && w.listeners[w.t.active.value].generation == g)
    && (!w.enabled ==> w.t.active.None? && forall i: nat :: !Accepts(w, i))
  }

  lemma {:induction false} IdleStays(w: World, k: nat)
    requires w.phase.Idle?
    ensures Onward(w, k) == w
  {
    if k > 0 { IdleStays(w, k - 1); }
  }

  lemma OnwardSplit(w: World, w': World, k: nat)
    requires k > 0 && w' == Step(w, Proceed(true))
    ensures Onward(w, k) == Onward(w', k - 1)
  {
  }

  /** Published, and the generation about to be committed. */
  predicate Applies(w: World, g: nat) {
    w.durable == w.desired == w.t.desired == g && w.t.applied < g
  }

  lemma InPlaceSwitches(w: World, g: nat, k: nat)
    requires k >= 3 && Applies(w, g) && w.phase == SameReplacing(g) && w.enabled && Runs(w, w.t.active)
    ensures Serves(Onward(w, k), g)
  {
    var i := w.t.active.value;
    var w1 := Step(w, Proceed(true));
    assert w1 == w.(listeners := w.listeners[i := w.listeners[i].(generation := g)], phase := SameResuming(g));
    var w2 := Step(w1, Proceed(true));
    assert w2 == SetAccepting(w1, i, true).(phase := SameCommitting(g));
    var w3 := Step(w2, Proceed(true));
    assert w3 == w2.(t := w.t.(applied := g), phase := Idle);
    OnwardSplit(w, w1, k); OnwardSplit(w1, w2, k - 1); OnwardSplit(w2, w3, k - 2);
    IdleStays(w3, k - 3);
  }

  /** The held listener is paused, given the new policy and resumed. */
  lemma InPlaceCompletes(w: World, k: nat)
    requires k >= 5
    requires Inv(w) && w.phase.SamePausing? && w.enabled && w.desired == w.phase.g && Runs(w, w.t.active)
    ensures Serves(Onward(w, k), w.desired)
  {
    var g := w.desired;
    var w1 := Step(w, Proceed(true));
    assert w1 == SetAccepting(w, w.t.active.value, false).(phase := SamePublishing(g));
    var w2 := Step(w1, Proceed(true));
    assert w2 == w1.(durable := g, phase := SameReplacing(g));
    OnwardSplit(w, w1, k); OnwardSplit(w1, w2, k - 1);
    InPlaceSwitches(w2, g, k - 2);
  }

  lemma ReplacementSwitches(w: World, g: nat, n: nat, k: nat)
    requires k >= 3 && Applies(w, g) && w.phase == NewResuming(g, n) && w.enabled
    requires n < |w.listeners| && w.listeners[n] == Listener(false, false, g)
    requires w.t.active.Some? ==> w.t.active.value < |w.listeners| && w.t.active.value != n
    ensures Serves(Onward(w, k), g)
  {
    var w1 := Step(w, Proceed(true));
    assert w1 == SetAccepting(w, n, true).(phase := NewCommitting(g, n));
    var w2 := Step(w1, Proceed(true));
    assert w2.t == Holder(g, g, Some(n)) && w2.listeners == w1.listeners;
    var w3 := Step(w2, Proceed(true));
    OnwardSplit(w, w1, k); OnwardSplit(w1, w2, k - 1); OnwardSplit(w2, w3, k - 2);
    IdleStays(w3, k - 3);
  }

  /** A new listener is bound, the old one, if any, paused, and after the switch drained. */
  lemma ReplacementCompletes(w: World, k: nat)
    requires k >= 6
    requires Inv(w) && w.phase.NewBinding? && w.enabled && w.desired == w.phase.g
    requires w.t.active.Some? ==> Runs(w, w.t.active)
    ensures Serves(Onward(w, k), w.desired)
  {
    var g, n := w.desired, |w.listeners|;
    var w1 := Step(w, Proceed(true));
    assert w1 == w.(listeners := w.listeners + [Listener(false, false, g)], phase := NewPausing(g, n));
    var w2 := Step(w1, Proceed(true));
    assert w2 == w1.(listeners := w2.listeners, phase := NewPublishing(g, n));
    assert |w2.listeners| == n + 1 && w2.listeners[n] == Listener(false, false, g);
    var w3 := Step(w2, Proceed(true));
    assert w3 == w2.(durable := g, phase := NewResuming(g, n));
    OnwardSplit(w, w1, k); OnwardSplit(w1, w2, k - 1); OnwardSplit(w2, w3, k - 2);
    ReplacementSwitches(w3, g, n, k - 3);
  }

  lemma StoppingAccepts(w: World, i: nat, j: nat)
    requires i < |w.listeners| && Accepts(Stop(w, i).(phase := Idle), j)
    ensures Accepts(w, j)
  {
  }

  lemma DrainingEnds(w: World, g: nat, k: nat)
    requires w.phase.Draining? && w.phase.previous < |w.listeners| && w.t == Holder(g, g, None)
    requires w.durable == w.desired == g && !w.enabled && forall i: nat :: !Accepts(w, i)
    requires k > 0
    ensures Serves(Onward(w, k), g)
  {
    var w1 := Step(w, Proceed(true));
    assert w1 == Stop(w, w.phase.previous).(phase := Idle);
    forall i: nat ensures !Accepts(w1, i) {
      if Accepts(w1, i) { StoppingAccepts(w, w.phase.previous, i); }
    }
    OnwardSplit(w, w1, k);
    IdleStays(w1, k - 1);
  }

  lemma DisablingSwitches(w: World, g: nat, k: nat)
    requires k >= 2 && Applies(w, g) && w.phase == OffCommitting(g) && !w.enabled
    requires w.t.active.Some? && w.t.active.value < |w.listeners| && forall i: nat :: !Accepts(w, i)
    ensures Serves(Onward(w, k), g)
  {
    var w1 := Step(w, Proceed(true));
    assert w1 == w.(t := Holder(g, g, None), phase := Draining(w.t.active.value));
    assert forall i: nat :: Accepts(w1, i) ==> Accepts(w, i);
    OnwardSplit(w, w1, k);
    DrainingEnds(w1, g, k - 1);
  }

  /** Pausing the listener in service leaves none accepting. */
  lemma PausedIsSilent(w: World)
    requires Inv(w) && w.phase.OffPausing? && Runs(w, w.t.active)
    ensures forall i: nat :: !Accepts(SetAccepting(w, w.t.active.value, false), i)
  {
  }

  /** The listener in service is paused and, after the publication, stopped. */
  lemma DisablingCompletes(w: World, k: nat)
    requires k >= 4
    requires Inv(w) && w.phase.OffPausing? && !w.enabled && w.desired == w.phase.g && Runs(w, w.t.active)
    ensures Serves(Onward(w, k), w.desired)
  {
    var g := w.desired;
    var w1 := Step(w, Proceed(true));
    assert w1 == SetAccepting(w, w.t.active.value, false).(phase := OffPublishing(g));
    var w2 := Step(w1, Proceed(true));
    assert w2 == w1.(durable := g, phase := OffCommitting(g));
    assert forall i: nat :: !Accepts(w2, i) by {
      PausedIsSilent(w);
      assert forall i: nat :: Accepts(w2, i) ==> Accepts(SetAccepting(w, w.t.active.value, false), i);
    }
    OnwardSplit(w, w1, k); OnwardSplit(w1, w2, k - 1);
    DisablingSwitches(w2, g, k - 2);
  }

  /** With none in service, the publication is all there is to do. */
  lemma DisablingRecords(w: World, k: nat)
    requires k >= 2
    requires Inv(w) && w.phase.OffPublishing? && !w.enabled && w.desired == w.phase.g && w.t.active.None?
    ensures Serves(Onward(w, k), w.desired)
  {
    var w1 := Step(w, Proceed(true));
    assert w1 == w.(durable := w.desired, phase := OffCommitting(w.desired));
    var w2 := Step(w1, Proceed(true));
    OnwardSplit(w, w1, k); OnwardSplit(w1, w2, k - 1);
    IdleStays(w2, k - 2);
  }

  lemma BeginStarts(w: World, sameBind: bool)
    requires Inv(w) && w.phase.Idle? && w.t.applied < w.desired && (w.t.active.Some? ==> Runs(w, w.t.active))
    ensures var w1 := Step(w, Begin(true, sameBind));
            && w1 == w.(t := w.t.(desired := w.desired), phase := w1.phase)
            && w1.phase == if !w.enabled then (if w.t.active.Some? then OffPausing(w.desired) else OffPublishing(w.desired))
                           else if sameBind && w.t.active.Some? then SamePausing(w.desired) else NewBinding(w.desired)
  {
  }

  /**
   Undisturbed, a switchover completes: from any reachable state in which the supervisor is idle,
   a newer generation is committed and the listener in service, if any, still runs, beginning it
   and six or more steps that do not fail leave that generation applied, on disk and in memory, with its
   listener accepting under its policy, or with no listener at all if ingress is disabled.
   */
  lemma SwitchoverCompletes(desired: nat, enabled: bool, es: seq<Event>, sameBind: bool, k: nat)
    requires k >= 6
    requires var w := Run(Boot(desired, enabled), es);
             w.phase.Idle? && w.t.applied < w.desired && (w.t.active.Some? ==> Runs(w, w.t.active))
    ensures var w := Run(Boot(desired, enabled), es);
            Serves(Onward(Step(w, Begin(true, sameBind)), k), w.desired)
  {
    RunKeeps(Boot(desired, enabled), es);
    Completes(Run(Boot(desired, enabled), es), sameBind, k);
  }

  lemma Completes(w: World, sameBind: bool, k: nat)
    requires k >= 6
    requires Inv(w) && w.phase.Idle? && w.t.applied < w.desired && (w.t.active.Some? ==> Runs(w, w.t.active))
    ensures Serves(Onward(Step(w, Begin(true, sameBind)), k), w.desired)
  {
    var w1 := Step(w, Begin(true, sameBind));
    BeginStarts(w, sameBind);
    StepKeeps(w, Begin(true, sameBind));
    if w.enabled {
      if sameBind && w.t.active.Some? { InPlaceCompletes(w1, k); } else { ReplacementCompletes(w1, k); }
    } else {
      if w.t.active.Some? { DisablingCompletes(w1, k); } else { DisablingRecords(w1, k); }
    }
  }

  /**
   After a restart the applied generation is served again at once, if it can be bound and ingress
   is still enabled; otherwise nothing is served and, if that can be written down, nothing is
   applied any more.
   */
  lemma RestartServes(desired: nat, enabled: bool, es: seq<Event>, recover: bool, written: bool)
    ensures var w := Run(Boot(desired, enabled), es);
            var w' := Step(w, Crash(recover, written));
            && w'.phase.Idle? && w'.desired == w.desired && w'.enabled == w.enabled
            && (if recover && w.enabled && w.durable > 0
                then w'.durable == w'.t.applied == w.durable && Runs(w', w'.t.active) && Accepts(w', w'.t.active.value)
                     && w'.listeners[w'.t.active.value].generation == w.durable
                else w'.t == FRESH && (forall i: nat :: !Accepts(w', i)) && w'.durable == if written then 0 else w.durable)
  {
    RunKeeps(Boot(desired, enabled), es);
  }

  /** Giving up the listener leaves none accepting and, if that can be written down, nothing applied. */
  lemma InvalidationStops(desired: nat, enabled: bool, es: seq<Event>, written: bool)
    requires Run(Boot(desired, enabled), es).phase.Idle?
    ensures var w := Run(Boot(desired, enabled), es);
            var w' := Step(w, Invalidate(written));
            && w'.phase.Idle? && w'.t == Holder(w.t.desired, 0, None) && (forall i: nat :: !Accepts(w', i))
            && w'.durable == (if written then 0 else w.durable)
            && (w.t.active.Some? ==> !Runs(w', w.t.active))
  {
    RunKeeps(Boot(desired, enabled), es);
  }
}
