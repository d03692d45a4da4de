/**
 The in-process ingest client: a bounded queue feeding a bounded spool whose head is submitted and
 resubmitted, unchanged, until the collector answers for good.
 */
module Spool {
  import opened Types
  import opened Wire

  /** `ticket` numbers the admitted submissions 0, 1, 2, ...; `receipt` says whether anyone waits. */
  datatype Entry = Entry(ticket: nat, envelope: Envelope, receipt: bool)

  datatype AbandonReason = SpoolOverflow | ClientShutdown | CollectorClosed

  datatype Outcome = Final(status: AckStatus) | AbandonedBeforeFinal(reason: AbandonReason)

  /** An abandoned envelope is handed back with its outcome, ready to be retried. */
  datatype Resolution = Resolution(entry: Entry, outcome: Outcome)

  datatype Reply = Ack(status: AckStatus) | NoAck | ClockUntrusted | AuthenticationStale | Closed

  datatype SpoolState = SpoolState(
    admitted: seq<Envelope>, queue: seq<Entry>, spool: seq<Entry>, resolved: seq<Resolution>, tried: seq<nat>,
    backoff: Option<int>, attempt: nat, senders: bool, running: bool)

  const INITIAL := SpoolState([], [], [], [], [], None, 0, true, true)

  datatype SubmitResult = Enqueued | QueueFull(retry: Envelope) | QueueClosed(retry: Envelope)

  /** What the loop meets on one turn: the time, the collector's reply, and which wait ends first. */
  datatype Turn = Turn(now: int, reply: Reply, inputFirst: bool)

  const BACKOFF: seq<nat> := [100, 500, 2000, 5000]

  function ByteSum(id: string): nat {
    if id == "" then 0 else (ByteSum(id[..|id| - 1]) + id[|id| - 1] as nat) % 0x1_0000_0000_0000_0000
  }

  /** The backoff step; past the last one it stays. */
  function Base(attempt: nat): nat {
    BACKOFF[if attempt < 3 then attempt else 3]
  }

  function Delay(attempt: nat, id: string): nat {
    Base(attempt) + ByteSum(id) % (Base(attempt) / 4 + 1)
  }

  // ---------------------------------------------------------------------------
  // Steps
  // ---------------------------------------------------------------------------

  function Submitted(s: SpoolState, queueCap: nat, envelope: Envelope, receipt: bool): (SpoolState, SubmitResult) {
    if !s.running then (s, QueueClosed(envelope))
    else if |s.queue| >= queueCap then (s, QueueFull(envelope))
    else (s.(admitted := s.admitted + [envelope], queue := s.queue + [Entry(|s.admitted|, envelope, receipt)]), Enqueued)
  }

  /** The oldest entry is handed back to its sender. */
  function Dropped(s: SpoolState): SpoolState
    requires s.spool != []
  {
    s.(spool := s.spool[1..],
       resolved := s.resolved + [Resolution(s.spool[0], AbandonedBeforeFinal(SpoolOverflow))])
  }

  function Taken(s: SpoolState): SpoolState
    requires s.queue != []
  {
    s.(spool := s.spool + [s.queue[0]], queue := s.queue[1..])
  }

  /** Takes the oldest queued submission; a full spool drops its oldest entry first. */
  function Pushed(s: SpoolState, cap: nat): SpoolState
    requires s.queue != []
  {
    Taken(if |s.spool| >= cap && s.spool != [] then Dropped(s) else s)
  }

  function Retried(s: SpoolState, now: int): SpoolState
    requires s.spool != []
  {
    s.(backoff := Some(now + Delay(s.attempt, s.spool[0].envelope.id)), attempt := s.attempt + 1)
  }

  function Finished(s: SpoolState, status: AckStatus): SpoolState
    requires s.spool != []
  {
    s.(spool := s.spool[1..], resolved := s.resolved + [Resolution(s.spool[0], Final(status))],
       attempt := 0, backoff := None)
  }

  function Abandon(es: seq<Entry>, reason: AbandonReason): seq<Resolution> {
    seq(|es|, i requires 0 <= i < |es| => Resolution(es[i], AbandonedBeforeFinal(reason)))
  }

  lemma AbandonFirst(resolved: seq<Resolution>, es: seq<Entry>, reason: AbandonReason)
    requires es != []
    ensures resolved + Abandon(es, reason)
            == resolved + [Resolution(es[0], AbandonedBeforeFinal(reason))] + Abandon(es[1..], reason)
  {
  }

  /** Closes admission, then gives up the queue and after it the spool. */
  function AbandonAll(s: SpoolState, reason: AbandonReason): SpoolState {
    s.(running := false, queue := [], spool := [],
       resolved := s.resolved + Abandon(s.queue, reason) + Abandon(s.spool, reason))
  }

  predicate Ready(s: SpoolState, now: int) {
    s.spool != [] && (s.backoff.None? || now >= s.backoff.value)
  }

  function Received(s: SpoolState, cap: nat): SpoolState {
    if s.queue != [] then Pushed(s, cap) else if !s.senders then AbandonAll(s, ClientShutdown) else s
  }

  function Tried(s: SpoolState): SpoolState
    requires s.spool != []
  {
    s.(tried := s.tried + [s.spool[0].ticket])
  }

  function Answered(s: SpoolState, now: int, reply: Reply): SpoolState
    requires s.spool != []
  {
    match reply
    case Ack(Deferred) => Retried(s, now)
    case Ack(status) => Finished(s, status)
    case NoAck => Retried(s, now)
    case ClockUntrusted => Retried(s, now)
    case AuthenticationStale => Retried(s, now)
    case Closed => AbandonAll(s, CollectorClosed)
  }

  /** One turn of the client loop. */
  function Turned(s: SpoolState, cap: nat, t: Turn): SpoolState {
    if !s.running then s
    else if Ready(s, t.now) then Answered(Tried(s), t.now, t.reply)
    else if s.backoff.Some? then
      if t.inputFirst then Received(s, cap)
      else if t.now >= s.backoff.value then s.(backoff := None)
      else s
    else Received(s, cap)
  }

  function TurnedAll(s: SpoolState, cap: nat, ts: seq<Turn>): SpoolState
    decreases |ts|
  {
    if ts == [] then s else TurnedAll(Turned(s, cap, ts[0]), cap, ts[1..])
  }

  // ---------------------------------------------------------------------------
  // The client task
  // ---------------------------------------------------------------------------

  class Client {
    const queueCap: nat
    const spoolCap: nat
    var admitted: seq<Envelope>
    var queue: seq<Entry>
    var spool: seq<Entry>
    var resolved: seq<Resolution>
    var tried: seq<nat>
    var backoff: Option<int>
    var attempt: nat
    var senders: bool
    var running: bool

    function State(): SpoolState
      reads this
    {
      SpoolState(admitted, queue, spool, resolved, tried, backoff, attempt, senders, running)
    }

    constructor (queueCap: nat, spoolCap: nat)
      ensures State() == INITIAL && this.queueCap == queueCap && this.spoolCap == spoolCap
    {
      this.queueCap, this.spoolCap := queueCap, spoolCap;
      admitted, queue, spool, resolved, tried, backoff, attempt := [], [], [], [], [], None, 0;
      senders, running := true, true;
    }

    method TrySubmit(envelope: Envelope, receipt: bool) returns (r: SubmitResult)
      modifies this
      ensures (State(), r) == Submitted(old(State()), queueCap, envelope, receipt)
    {
      if !running { return QueueClosed(envelope); }
      if |queue| >= queueCap { return QueueFull(envelope); }
      queue := queue + [Entry(|admitted|, envelope, receipt)];
      admitted := admitted + [envelope];
      return Enqueued;
    }

    method PushBounded()
      requires queue != []
      modifies this
      ensures State() == Pushed(old(State()), spoolCap)
    {
      var submission := queue[0];
      queue := queue[1..];
      if |spool| >= spoolCap {
        if spool != [] {
          resolved := resolved + [Resolution(spool[0], AbandonedBeforeFinal(SpoolOverflow))];
          spool := spool[1..];
        }
      }
      spool := spool + [submission];
    }

    method ScheduleRetry(now: int)
      requires spool != []
      modifies this
      ensures State() == Retried(old(State()), now)
      ensures backoff.Some? && now + Base(old(attempt)) <= backoff.value <= now + Base(old(attempt)) * 5 / 4
      ensures spool == old(spool) && queue == old(queue) && resolved == old(resolved)
    {
      backoff := Some(now + Delay(attempt, spool[0].envelope.id));
      attempt := attempt + 1;
    }

    method DrainQueue(reason: AbandonReason)
      modifies this
      ensures State() == old(State()).(queue := [], resolved := old(resolved) + Abandon(old(queue), reason))
    {
      ghost var s := State();
      while queue != []
        invariant State() == s.(queue := queue, resolved := resolved)
        invariant resolved + Abandon(queue, reason) == s.resolved + Abandon(s.queue, reason)
        decreases |queue|
      {
        AbandonFirst(resolved, queue, reason);
        resolved := resolved + [Resolution(queue[0], AbandonedBeforeFinal(reason))];
        queue := queue[1..];
      }
    }

    method DrainSpool(reason: AbandonReason)
      modifies this
      ensures State() == old(State()).(spool := [], resolved := old(resolved) + Abandon(old(spool), reason))
    {
      ghost var s := State();
      while spool != []
        invariant State() == s.(spool := spool, resolved := resolved)
        invariant resolved + Abandon(spool, reason) == s.resolved + Abandon(s.spool, reason)
        decreases |spool|
      {
        AbandonFirst(resolved, spool, reason);
        resolved := resolved + [Resolution(spool[0], AbandonedBeforeFinal(reason))];
        spool := spool[1..];
      }
    }

    method AbandonEverything(reason: AbandonReason)
      modifies this
      ensures State() == AbandonAll(old(State()), reason)
    {
      running := false;
      DrainQueue(reason);
      DrainSpool(reason);
    }

    method Receive()
      modifies this
      ensures State() == Received(old(State()), spoolCap)
    {
      if queue != [] {
        PushBounded();
      } else if !senders {
        AbandonEverything(ClientShutdown);
      }
    }

    method SubmitHead(now: int, reply: Reply)
      requires spool != []
      modifies this
      ensures State() == Answered(Tried(old(State())), now, reply)
    {
      tried := tried + [spool[0].ticket];
      match reply
      case Ack(status) =>
        if status == Deferred {
          ScheduleRetry(now);
        } else {
          resolved := resolved + [Resolution(spool[0], Final(status))];
          spool := spool[1..];
          attempt := 0;
          backoff := None;
        }
      case NoAck => ScheduleRetry(now);
      case ClockUntrusted => ScheduleRetry(now);
      case AuthenticationStale => ScheduleRetry(now);
      case Closed => AbandonEverything(CollectorClosed);
    }

    /** The client loop, driven by what it meets. */
    method Drive(ts: seq<Turn>)
      modifies this
      ensures State() == TurnedAll(old(State()), spoolCap, ts)
    {
      var i := 0;
      while i < |ts|
        invariant 0 <= i <= |ts|
        invariant TurnedAll(State(), spoolCap, ts[i..]) == TurnedAll(old(State()), spoolCap, ts)
      {
        assert ts[i..][1..] == ts[i + 1..];
        var t := ts[i];
        if running {
          var ready := spool != [] && (backoff.None? || t.now >= backoff.value);
          if ready {
            SubmitHead(t.now, t.reply);
          } else if backoff.Some? {
            if t.inputFirst { Receive(); } else if t.now >= backoff.value { backoff := None; }
          } else {
            Receive();
          }
        }
        i := i + 1;
      }
    }
  }
}
