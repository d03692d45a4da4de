/**
 Conservation of envelopes in the ingest client: nothing admitted is lost or answered twice, final
 answers come in submission order, and every retry carries the envelope that was admitted.
 */
module SpoolRuns {
  import opened Types
  import opened Wire
  import opened Spool

  datatype Event =
    | Submit(envelope: Envelope, receipt: bool)
    | Loop(turn: Turn)
    | DropSenders

  /** A dropped sender cannot submit. */
  function Step(s: SpoolState, queueCap: nat, cap: nat, e: Event): SpoolState {
    match e
    case Submit(envelope, receipt) => if s.senders then Submitted(s, queueCap, envelope, receipt).0 else s
    case Loop(turn) => Turned(s, cap, turn)
    case DropSenders => s.(senders := false)
  }

  function Run(s: SpoolState, queueCap: nat, cap: nat, es: seq<Event>): SpoolState
    decreases |es|
  {
    if es == [] then s else Run(Step(s, queueCap, cap, es[0]), queueCap, cap, es[1..])
  }

  /** While running, resolved, spooled and queued entries are the admitted ones in ticket order. */
  ghost predicate InOrder(s: SpoolState) {
    && |s.admitted| == |s.resolved| + |s.spool| + |s.queue|
    && (forall i | 0 <= i < |s.resolved| :: s.resolved[i].entry.ticket == i)
    && (forall i | 0 <= i < |s.spool| :: s.spool[i].ticket == |s.resolved| + i)
    && (forall i | 0 <= i < |s.queue| :: s.queue[i].ticket == |s.resolved| + |s.spool| + i)
  }

  ghost predicate Unchanged(s: SpoolState) {
    && (forall i | 0 <= i < |s.resolved| :: Genuine(s, s.resolved[i].entry))
    && (forall i | 0 <= i < |s.spool| :: Genuine(s, s.spool[i]))
    && (forall i | 0 <= i < |s.queue| :: Genuine(s, s.queue[i]))
  }

  predicate Genuine(s: SpoolState, e: Entry) {
    e.ticket < |s.admitted| && e.envelope == s.admitted[e.ticket]
  }

  /** Every ticket is resolved exactly once. */
  ghost predicate EachOnce(rs: seq<Resolution>, n: nat) {
    && |rs| == n
    && (forall i | 0 <= i < n :: rs[i].entry.ticket < n)
    && (forall i, j | 0 <= i < j < n :: rs[i].entry.ticket != rs[j].entry.ticket)
  }

  predicate FinalsInOrder(rs: seq<Resolution>) {
    forall i, j | 0 <= i < j < |rs| && rs[i].outcome.Final? && rs[j].outcome.Final? ::
      rs[i].entry.ticket < rs[j].entry.ticket
  }

  /** Attempts never go back to an earlier envelope, and a final answer follows an attempt. */
  ghost predicate Attempts(s: SpoolState) {
    && (forall i, j | 0 <= i < j < |s.tried| :: s.tried[i] <= s.tried[j])
    && (forall i | 0 <= i < |s.tried| :: s.tried[i] < |s.admitted|)
    && (s.running ==> forall i | 0 <= i < |s.tried| :: s.tried[i] <= |s.resolved|)
    && (forall i | 0 <= i < |s.resolved| && s.resolved[i].outcome.Final? :: s.resolved[i].entry.ticket in s.tried)
  }

  ghost predicate Inv(s: SpoolState, cap: nat) {
    && Unchanged(s)
    && FinalsInOrder(s.resolved)
    && Attempts(s)
    && |s.spool| <= (if cap == 0 then 1 else cap)
    && (if s.running then InOrder(s) else s.spool == [] && s.queue == [] && EachOnce(s.resolved, |s.admitted|))
  }

  lemma DroppedKeeps(s: SpoolState, cap: nat)
    requires Inv(s, cap) && s.running && s.spool != []
    ensures Inv(Dropped(s), cap)
  {
  }

  lemma TakenKeeps(s: SpoolState, cap: nat)
    requires Inv(s, cap) && s.running && s.queue != [] && (|s.spool| < cap || s.spool == [])
    ensures Inv(Taken(s), cap)
  {
  }

  lemma PushedKeeps(s: SpoolState, cap: nat)
    requires Inv(s, cap) && s.running && s.queue != []
    ensures Inv(Pushed(s, cap), cap)
  {
    if |s.spool| >= cap && s.spool != [] {
      DroppedKeeps(s, cap);
      TakenKeeps(Dropped(s), cap);
    } else {
      TakenKeeps(s, cap);
    }
  }

  lemma AbandonOnce(s: SpoolState, reason: AbandonReason)
    requires InOrder(s)
    ensures EachOnce(AbandonAll(s, reason).resolved, |s.admitted|)
  {
    var rs := AbandonAll(s, reason).resolved;
    var a, b := |s.resolved|, |s.queue|;
    forall i | 0 <= i < |rs|
      ensures rs[i].entry.ticket == if i < a then i else if i < a + b then i + |s.spool| else i - b
    {
      if a <= i < a + b { assert rs[i] == Abandon(s.queue, reason)[i - a]; }
      if a + b <= i { assert rs[i] == Abandon(s.spool, reason)[i - a - b]; }
    }
  }

  lemma AbandonKeeps(s: SpoolState, cap: nat, reason: AbandonReason)
    requires Inv(s, cap) && s.running
    ensures Inv(AbandonAll(s, reason), cap)
  {
    AbandonOnce(s, reason);
    var s' := AbandonAll(s, reason);
    var a, b := |s.resolved|, |s.queue|;
    forall i | a <= i < |s'.resolved|
      ensures !s'.resolved[i].outcome.Final? && Genuine(s', s'.resolved[i].entry)
    {
      if i < a + b {
        assert s'.resolved[i] == Abandon(s.queue, reason)[i - a];
      } else {
        assert s'.resolved[i] == Abandon(s.spool, reason)[i - a - b];
      }
    }
  }

  lemma TriedKeeps(s: SpoolState, cap: nat)
    requires Inv(s, cap) && s.running && s.spool != []
    ensures Inv(Tried(s), cap) && s.spool[0].ticket in Tried(s).tried
  {
    assert Tried(s).tried[|s.tried|] == s.spool[0].ticket == |s.resolved|;
  }

  /** Only the backoff clock moves. */
  lemma BackoffKeeps(s: SpoolState, cap: nat, backoff: Option<int>, attempt: nat)
    requires Inv(s, cap)
    ensures Inv(s.(backoff := backoff, attempt := attempt), cap)
  {
  }

  lemma AnsweredKeeps(s: SpoolState, cap: nat, now: int, reply: Reply)
    requires Inv(s, cap) && s.running && s.spool != []
    ensures Inv(Answered(Tried(s), now, reply), cap)
  {
    var s1 := Tried(s);
    TriedKeeps(s, cap);
    if reply.Closed? {
      AbandonKeeps(s1, cap, CollectorClosed);
    } else if reply.Ack? && !reply.status.Deferred? {
      FinishedKeeps(s1, cap, reply.status);
    } else {
      var retried := Retried(s1, now);
      BackoffKeeps(s1, cap, retried.backoff, retried.attempt);
    }
  }

  lemma FinishedKeeps(s: SpoolState, cap: nat, status: AckStatus)
    requires Inv(s, cap) && s.running && s.spool != [] && s.spool[0].ticket in s.tried
    ensures Inv(Finished(s, status), cap)
  {
  }

  lemma SubmittedKeeps(s: SpoolState, queueCap: nat, cap: nat, envelope: Envelope, receipt: bool)
    requires Inv(s, cap)
    ensures Inv(Submitted(s, queueCap, envelope, receipt).0, cap)
  {
  }

  lemma TurnedKeeps(s: SpoolState, cap: nat, t: Turn)
    requires Inv(s, cap)
    ensures Inv(Turned(s, cap, t), cap)
  {
    if s.running {
      if Ready(s, t.now) {
        AnsweredKeeps(s, cap, t.now, t.reply);
      } else if s.queue != [] {
        PushedKeeps(s, cap);
        BackoffKeeps(s, cap, None, s.attempt);
      } else {
        AbandonKeeps(s, cap, ClientShutdown);
        BackoffKeeps(s, cap, None, s.attempt);
      }
    }
  }

  lemma StepKeeps(s: SpoolState, queueCap: nat, cap: nat, e: Event)
    requires Inv(s, cap)
    ensures Inv(Step(s, queueCap, cap, e), cap)
  {
    match e
    case Submit(envelope, receipt) => SubmittedKeeps(s, queueCap, cap, envelope, receipt);
    case Loop(turn) => TurnedKeeps(s, cap, turn);
    case DropSenders =>
  }

  lemma {:induction false} RunKeeps(s: SpoolState, queueCap: nat, cap: nat, es: seq<Event>)
    requires Inv(s, cap)
    ensures Inv(Run(s, queueCap, cap, es), cap)
    decreases |es|
  {
    if es != [] {
      StepKeeps(s, queueCap, cap, es[0]);
      RunKeeps(Step(s, queueCap, cap, es[0]), queueCap, cap, es[1..]);
    }
  }

  /**
   Over any run: while the client runs, the admitted envelopes are the resolved, the spooled and the
   queued ones, in that order; once it has exited, each has been resolved exactly once.
   */
  lemma EnvelopesAreConserved(queueCap: nat, cap: nat, es: seq<Event>)
    ensures var s := Run(INITIAL, queueCap, cap, es);
            && (s.running ==> InOrder(s))
            && (!s.running ==> s.spool == [] && s.queue == [] && EachOnce(s.resolved, |s.admitted|))
            && |s.spool| <= (if cap == 0 then 1 else cap)
  {
    RunKeeps(INITIAL, queueCap, cap, es);
  }

  /** Final answers follow submission order, and whatever is submitted or handed back is unchanged. */
  lemma FinalsFollowSubmission(queueCap: nat, cap: nat, es: seq<Event>)
    ensures var s := Run(INITIAL, queueCap, cap, es);
            && FinalsInOrder(s.resolved) && Attempts(s)
            && (forall i | 0 <= i < |s.resolved| :: Genuine(s, s.resolved[i].entry))
            && (forall i | 0 <= i < |s.spool| :: Genuine(s, s.spool[i]))
  {
    RunKeeps(INITIAL, queueCap, cap, es);
  }

  /** Retries wait their step and at most a quarter more, and the steps never shrink. */
  lemma BackoffIsBounded(attempt: nat, later: nat, id: string)
    requires attempt <= later
    ensures Base(attempt) <= Delay(attempt, id) <= Base(attempt) + Base(attempt) / 4
    ensures Base(attempt) <= Base(later) <= Delay(later, id)
  {
    assert ByteSum(id) % (Base(attempt) / 4 + 1) <= Base(attempt) / 4;
  }

  // ---------------------------------------------------------------------------
  // What a reply does
  // ---------------------------------------------------------------------------

  /** Replies that say nothing final about the envelope. */
  predicate Transient(reply: Reply) {
    reply.NoAck? || reply.ClockUntrusted? || reply.AuthenticationStale? || reply == Ack(Deferred)
  }

  /** The steps of the backoff, in milliseconds; the last one repeats. */
  lemma BackoffSteps(attempt: nat)
    ensures Base(attempt) == match attempt case 0 => 100 case 1 => 500 case 2 => 2000 case _ => 5000
  {
  }

  function Codes(id: string): nat {
    if id == "" then 0 else Codes(id[..|id| - 1]) + id[|id| - 1] as nat
  }

  lemma {:induction false} ByteSumExact(id: string)
    ensures ByteSum(id) == Codes(id) % 0x1_0000_0000_0000_0000
  {
    if id != "" {
      ByteSumExact(id[..|id| - 1]);
      WrapOnce(Codes(id[..|id| - 1]), id[|id| - 1] as nat);
    }
  }

  /** Wrapping at every step is wrapping once. */
  lemma WrapOnce(a: nat, b: nat)
    ensures (a % 0x1_0000_0000_0000_0000 + b) % 0x1_0000_0000_0000_0000 == (a + b) % 0x1_0000_0000_0000_0000
  {
  }

  /** The jitter is the id's own: the sum of its codes, as a 64-bit number, within a quarter of the step. */
  lemma JitterExact(attempt: nat, id: string)
    ensures Delay(attempt, id) == Base(attempt) + (Codes(id) % 0x1_0000_0000_0000_0000) % (Base(attempt) / 4 + 1)
  {
    ByteSumExact(id);
  }

  /**
   A transient reply costs an attempt and nothing else: the client goes on, everything stays where
   it is, and the next attempt is due after the backoff; as long as nothing is resolved in between,
   however the run goes on, the next submission is of the very same envelope.
   */
  lemma TransientIsRetried(queueCap: nat, cap: nat, es: seq<Event>, t: Turn, more: seq<Event>, later: Turn)
    requires var s := Run(INITIAL, queueCap, cap, es); s.running && Ready(s, t.now) && Transient(t.reply)
    ensures var s := Run(INITIAL, queueCap, cap, es);
            var s' := Step(s, queueCap, cap, Loop(t));
            && s'.running && s'.spool == s.spool && s'.queue == s.queue && s'.resolved == s.resolved
            && s'.admitted == s.admitted && s'.tried == s.tried + [s.spool[0].ticket] && s'.attempt == s.attempt + 1
            && s'.backoff.Some? && t.now + Base(s.attempt) <= s'.backoff.value <= t.now + Base(s.attempt) * 5 / 4
            && (var s2 := Run(s', queueCap, cap, more);
                s2.running && s2.resolved == s.resolved && Ready(s2, later.now) ==>
                  Step(s2, queueCap, cap, Loop(later)).tried == s2.tried + [s.spool[0].ticket])
  {
    RunKeeps(INITIAL, queueCap, cap, es);
    var s := Run(INITIAL, queueCap, cap, es);
    var s' := Step(s, queueCap, cap, Loop(t));
    StepKeeps(s, queueCap, cap, Loop(t));
    RunKeeps(s', queueCap, cap, more);
    BackoffIsBounded(s.attempt, s.attempt, s.spool[0].envelope.id);
    var s2 := Run(s', queueCap, cap, more);
    if s2.running && s2.resolved == s.resolved && Ready(s2, later.now) { TriesHead(s2, cap, later); }
  }

  lemma TriesHead(s: SpoolState, cap: nat, t: Turn)
    requires Inv(s, cap) && s.running && Ready(s, t.now)
    ensures Turned(s, cap, t).tried == s.tried + [|s.resolved|] && s.spool[0].ticket == |s.resolved|
  {
  }

  /** A final answer resolves the head with it and clears the way for the next envelope at once. */
  lemma FinalIsFinal(s: SpoolState, cap: nat, t: Turn)
    requires s.running && Ready(s, t.now) && t.reply.Ack? && t.reply.status != Deferred
    ensures var s' := Turned(s, cap, t);
            && s'.running && s'.resolved == s.resolved + [Resolution(s.spool[0], Final(t.reply.status))]
            && s'.spool == s.spool[1..] && s'.queue == s.queue && s'.attempt == 0
            && (s'.spool != [] ==> Ready(s', t.now))
  {
  }

  /** While it waits the client takes in what is queued, oldest first, and leaves when no sender is left. */
  lemma WaitingTakesInput(s: SpoolState, cap: nat, t: Turn)
    requires s.running && !Ready(s, t.now) && (s.backoff.None? || t.inputFirst)
    ensures var s' := Turned(s, cap, t);
            && (s.queue != [] ==>
                  && s'.running && s'.queue == s.queue[1..] && s'.spool != [] && s'.spool[|s'.spool| - 1] == s.queue[0]
                  && (if |s.spool| >= cap && s.spool != []
                      then s'.spool[..|s'.spool| - 1] == s.spool[1..]
                           && s'.resolved == s.resolved + [Resolution(s.spool[0], AbandonedBeforeFinal(SpoolOverflow))]
                      else s'.spool[..|s'.spool| - 1] == s.spool && s'.resolved == s.resolved))
            && (s.queue == [] && s.senders ==> s' == s)
            && (s.queue == [] && !s.senders ==> !s'.running && s'.spool == [])
  {
  }

  /** A closed collector ends the client: everything it holds is handed back, the queue before the spool. */
  lemma ClosedEndsEverything(s: SpoolState, cap: nat, t: Turn)
    requires s.running && Ready(s, t.now) && t.reply.Closed?
    ensures var s' := Turned(s, cap, t);
            && !s'.running && s'.spool == [] && s'.queue == []
            && |s'.resolved| == |s.resolved| + |s.queue| + |s.spool|
            && (forall i | 0 <= i < |s.queue| ::
                  s'.resolved[|s.resolved| + i] == Resolution(s.queue[i], AbandonedBeforeFinal(CollectorClosed)))
            && (forall i | 0 <= i < |s.spool| ::
                  s'.resolved[|s.resolved| + |s.queue| + i] == Resolution(s.spool[i], AbandonedBeforeFinal(CollectorClosed)))
  {
  }

  predicate Conclusive(ts: seq<Turn>) {
    forall i | 0 <= i < |ts| :: ts[i].reply.Ack? && ts[i].reply.status != Deferred
  }

  /** Nothing left, or running without a pending retry. */
  predicate Flowing(s: SpoolState) {
    if s.running then s.backoff.None? else s.spool == [] && s.queue == []
  }

  predicate FinalFrom(rs: seq<Resolution>, from: nat) {
    forall i | from <= i < |rs| :: rs[i].outcome.Final?
  }

  lemma FlowStep(s: SpoolState, cap: nat, t: Turn, from: nat)
    requires Flowing(s) && t.reply.Ack? && t.reply.status != Deferred && FinalFrom(s.resolved, from) && from <= |s.resolved|
    ensures var s' := Turned(s, cap, t);
            && Flowing(s') && FinalFrom(s'.resolved, from) && from <= |s'.resolved|
            && |s'.resolved| + |s'.spool| + |s'.queue| == |s.resolved| + |s.spool| + |s.queue|
            && (2 * |s'.queue| + |s'.spool| < 2 * |s.queue| + |s.spool| || (s.queue == [] && s.spool == [] && s'.queue == [] && s'.spool == []))
  {
  }

  lemma {:induction false} FlowDrains(s: SpoolState, cap: nat, ts: seq<Turn>, from: nat)
    requires Flowing(s) && Conclusive(ts) && FinalFrom(s.resolved, from) && from <= |s.resolved|
    requires |ts| >= 2 * |s.queue| + |s.spool|
    ensures var s' := TurnedAll(s, cap, ts);
            && s'.spool == [] && s'.queue == [] && FinalFrom(s'.resolved, from)
            && |s'.resolved| == |s.resolved| + |s.spool| + |s.queue|
    decreases |ts|
  {
    if ts != [] {
      FlowStep(s, cap, ts[0], from);
      FlowDrains(Turned(s, cap, ts[0]), cap, ts[1..], from);
    }
  }

  /**
   As long as the collector gives final answers, every admitted envelope gets its own: from any
   reachable state without a pending retry, as many turns as two for each queued and one for each
   spooled envelope resolve them all with a final answer, and none is given up.
   */
  lemma AnswersDrain(queueCap: nat, cap: nat, es: seq<Event>, ts: seq<Turn>)
    requires var s := Run(INITIAL, queueCap, cap, es);
             s.running && s.backoff.None? && Conclusive(ts) && |ts| >= 2 * |s.queue| + |s.spool|
    ensures var s := Run(INITIAL, queueCap, cap, es);
            var s' := TurnedAll(s, cap, ts);
            s'.spool == [] && s'.queue == [] && |s'.resolved| == |s.admitted| && FinalFrom(s'.resolved, |s.resolved|)
  {
    RunKeeps(INITIAL, queueCap, cap, es);
    var s := Run(INITIAL, queueCap, cap, es);
    FlowDrains(s, cap, ts, |s.resolved|);
  }

  /** An envelope is admitted exactly if the client runs and its queue has room, and otherwise handed back. */
  lemma AdmissionExact(s: SpoolState, queueCap: nat, envelope: Envelope, receipt: bool)
    ensures var (s', r) := Submitted(s, queueCap, envelope, receipt);
            && (r == Enqueued <==> s.running && |s.queue| < queueCap)
            && (r == QueueClosed(envelope) <==> !s.running)
            && (r != Enqueued ==> s' == s)
            && (r == Enqueued ==>
                  s'.queue == s.queue + [Entry(|s.admitted|, envelope, receipt)] && s'.admitted == s.admitted + [envelope])
  {
  }

  // ---------------------------------------------------------------------------
  // Why an envelope was resolved
  // ---------------------------------------------------------------------------

  /** In this state, this turn gives the entry this outcome for a good reason. */
  predicate Reason(s: SpoolState, cap: nat, t: Turn, r: Resolution) {
    && s.running
    && match r.outcome
       case Final(status) =>
         status != Deferred && t.reply == Ack(status) && Ready(s, t.now) && s.spool[0] == r.entry
       case AbandonedBeforeFinal(CollectorClosed) => t.reply.Closed? && Ready(s, t.now)
       case AbandonedBeforeFinal(ClientShutdown) => !s.senders && s.queue == [] && !Ready(s, t.now)
       case AbandonedBeforeFinal(SpoolOverflow) => |s.spool| >= cap && s.spool != [] && s.spool[0] == r.entry && s.queue != []
  }

  /** Some turn of the run had that reason. */
  ghost predicate Justified(queueCap: nat, cap: nat, es: seq<Event>, r: Resolution) {
    exists k :: 0 <= k < |es| && es[k].Loop? && Reason(Run(INITIAL, queueCap, cap, es[..k]), cap, es[k].turn, r)
  }

  lemma {:induction false} RunLast(s: SpoolState, queueCap: nat, cap: nat, es: seq<Event>)
    requires es != []
    ensures Run(s, queueCap, cap, es) == Step(Run(s, queueCap, cap, es[..|es| - 1]), queueCap, cap, es[|es| - 1])
    decreases |es|
  {
    if |es| > 1 {
      RunLast(Step(s, queueCap, cap, es[0]), queueCap, cap, es[1..]);
      assert es[1..][..|es| - 2] == es[..|es| - 1][1..];
    } else {
      assert es[..0] == [] && es[1..] == [];
    }
  }

  /** Whatever a step resolves, it has the reason for. */
  lemma StepReason(s: SpoolState, queueCap: nat, cap: nat, e: Event, i: nat)
    requires |s.resolved| <= i < |Step(s, queueCap, cap, e).resolved|
    ensures e.Loop? && Reason(s, cap, e.turn, Step(s, queueCap, cap, e).resolved[i])
  {
    var s' := Step(s, queueCap, cap, e);
    if s.running && e.Loop? && !s'.running {
      var reason := if Ready(s, e.turn.now) then CollectorClosed else ClientShutdown;
      assert s'.resolved == s.resolved + Abandon(s.queue, reason) + Abandon(s.spool, reason);
      assert i < |s.resolved| + |s.queue| ==> s'.resolved[i] == Abandon(s.queue, reason)[i - |s.resolved|];
      assert i >= |s.resolved| + |s.queue| ==>
        s'.resolved[i] == Abandon(s.spool, reason)[i - |s.resolved| - |s.queue|];
    }
  }

  lemma StepResolvedGrows(s: SpoolState, queueCap: nat, cap: nat, e: Event)
    ensures s.resolved <= Step(s, queueCap, cap, e).resolved
  {
  }

  /**
   Over any run every outcome has its reason: a final status was the collector's answer for that
   very envelope, CollectorClosed needs a reply that the collector is closed, ClientShutdown that
   all senders are gone, and SpoolOverflow a spool at its cap with more input waiting.
   */
  lemma {:induction false} OutcomesAreJustified(queueCap: nat, cap: nat, es: seq<Event>, i: nat)
    requires i < |Run(INITIAL, queueCap, cap, es).resolved|
    ensures Justified(queueCap, cap, es, Run(INITIAL, queueCap, cap, es).resolved[i])
    decreases |es|
  {
    assert es != [];
    var before := es[..|es| - 1];
    var s := Run(INITIAL, queueCap, cap, before);
    RunLast(INITIAL, queueCap, cap, es);
    StepResolvedGrows(s, queueCap, cap, es[|es| - 1]);
    if i < |s.resolved| {
      OutcomesAreJustified(queueCap, cap, before, i);
      var k :| 0 <= k < |before| && before[k].Loop?
               && Reason(Run(INITIAL, queueCap, cap, before[..k]), cap, before[k].turn, s.resolved[i]);
      assert before[..k] == es[..k] && before[k] == es[k];
    } else {
      StepReason(s, queueCap, cap, es[|es| - 1], i);
    }
  }
}
