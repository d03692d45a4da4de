/**
 The MQTT output session: one outbox row in flight, the row deleted only after its PUBACK, and
 the outbox as the only source of retransmission.
 */
module OutputSession {
  import opened Types

  /** A publication handed to the MQTT client: the status heartbeat, or an outbox row. */
  datatype Publication = Status | Outbox(row: nat)

  /** The packet id is unknown until the client reports that it wrote the packet. */
  datatype Pending = Pending(publication: Publication, pkid: Option<nat>)

  /**
   The session fields, with the two things it writes to: the client's request queue and the
   observation outbox (row numbers, oldest first).
   */
  datatype SessionState = SessionState(
    connected: bool, pending: seq<Pending>, inflight: Option<nat>,
    requests: seq<Publication>, outbox: seq<nat>)

  /** Failures the environment may inject into one call: reading, queueing, deleting. */
  datatype Faults = Faults(read: bool, queue: bool, delete: bool)

  function Enqueued(s: SessionState, p: Publication, f: Faults): SessionState {
    if f.queue then (if p.Outbox? then s.(inflight := None) else s)
    else s.(requests := s.requests + [p], pending := s.pending + [Pending(p, None)])
  }

  function NextRow(s: SessionState, f: Faults): SessionState {
    if s.inflight.Some? || f.read || s.outbox == [] then s
    else Enqueued(s.(inflight := Some(s.outbox[0])), Outbox(s.outbox[0]), f)
  }

  /** First pending publication that satisfies the test, or the length when there is none. */
  function FirstIndex(pending: seq<Pending>, pkid: Option<nat>): nat {
    if pending == [] || pending[0].pkid == pkid then 0 else 1 + FirstIndex(pending[1..], pkid)
  }

  function PacketWritten(s: SessionState, pkid: nat): SessionState {
    var i := FirstIndex(s.pending, None);
    if i < |s.pending| then s.(pending := s.pending[i := s.pending[i].(pkid := Some(pkid))]) else s
  }

  function Without(outbox: seq<nat>, row: nat): seq<nat> {
    if outbox == [] then []
    else if outbox[0] == row then Without(outbox[1..], row)
    else [outbox[0]] + Without(outbox[1..], row)
  }

  function Puback(s: SessionState, pkid: nat, f: Faults): SessionState {
    var i := FirstIndex(s.pending, Some(pkid));
    if i >= |s.pending| then s
    else
      var s1 := s.(pending := s.pending[..i] + s.pending[i + 1..]);
      match s.pending[i].publication
      case Status => s1
      case Outbox(row) =>
        var s2 := if f.delete then s1 else s1.(outbox := Without(s1.outbox, row));
        NextRow(if s2.inflight == Some(row) then s2.(inflight := None) else s2, f)
  }

  /** Status first, then the outbox. */
  function Connected(s: SessionState, f: Faults): SessionState {
    NextRow(Enqueued(s.(connected := true, pending := [], inflight := None), Status, f), f)
  }

  function Disconnected(s: SessionState): SessionState {
    s.(connected := false, pending := [], inflight := None)
  }

  /** Graceful shutdown forgets what is pending and publishes `offline`. */
  function ShutdownBegun(s: SessionState, f: Faults): SessionState {
    Enqueued(s.(pending := []), Status, f)
  }

  predicate StatusAcknowledged(s: SessionState) {
    forall i | 0 <= i < |s.pending| :: s.pending[i].publication != Status
  }

  class Session {
    var connected: bool
    var pending: seq<Pending>
    var inflight: Option<nat>
    var requests: seq<Publication>
    var outbox: seq<nat>

    function State(): SessionState
      reads this
    {
      SessionState(connected, pending, inflight, requests, outbox)
    }

    constructor (rows: seq<nat>)
      ensures State() == SessionState(false, [], None, [], rows)
    {
      connected, pending, inflight, requests, outbox := false, [], None, [], rows;
    }

    method Publish(p: Publication, f: Faults)
      modifies this
      ensures State() == Enqueued(old(State()), p, f)
    {
      if f.queue {
        if p.Outbox? { inflight := None; }
      } else {
        requests := requests + [p];
        pending := pending + [Pending(p, None)];
      }
    }

    method PublishNextOutboxRow(f: Faults)
      modifies this
      ensures State() == NextRow(old(State()), f)
    {
      if inflight.Some? { return; }
      if f.read || outbox == [] { return; }
      var row := outbox[0];
      inflight := Some(row);
      Publish(Outbox(row), f);
    }

    method Find(pkid: Option<nat>) returns (i: nat)
      ensures i == FirstIndex(pending, pkid)
      ensures i <= |pending|
      ensures i < |pending| ==> pending[i].pkid == pkid
      ensures forall j | 0 <= j < i :: pending[j].pkid != pkid
    {
      i := 0;
      while i < |pending| && pending[i].pkid != pkid
        invariant i <= |pending|
        invariant FirstIndex(pending, pkid) == i + FirstIndex(pending[i..], pkid)
        invariant forall j | 0 <= j < i :: pending[j].pkid != pkid
      {
        assert pending[i..][1..] == pending[i + 1..];
        i := i + 1;
      }
    }

    method NotePacketWritten(pkid: nat)
      modifies this
      ensures State() == PacketWritten(old(State()), pkid)
    {
      var i := Find(None);
      if i < |pending| {
        pending := pending[i := pending[i].(pkid := Some(pkid))];
      }
    }

    method NotePuback(pkid: nat, f: Faults)
      modifies this
      ensures State() == Puback(old(State()), pkid, f)
    {
      var i := Find(Some(pkid));
      if i >= |pending| { return; }
      var publication := pending[i].publication;
      pending := pending[..i] + pending[i + 1..];
      if publication.Outbox? {
        var row := publication.row;
        if !f.delete { outbox := Without(outbox, row); }
        if inflight == Some(row) { inflight := None; }
        PublishNextOutboxRow(f);
      }
    }

    method OnConnAck(f: Faults)
      modifies this
      ensures State() == Connected(old(State()), f)
    {
      connected := true;
      pending := [];
      inflight := None;
      Publish(Status, f);
      PublishNextOutboxRow(f);
    }

    method OnError()
      modifies this
      ensures State() == Disconnected(old(State()))
      ensures pending == [] && inflight.None? && outbox == old(outbox) && requests == old(requests)
    {
      connected := false;
      pending := [];
      inflight := None;
    }

    method BeginShutdown(f: Faults)
      modifies this
      ensures State() == ShutdownBegun(old(State()), f)
    {
      pending := [];
      Publish(Status, f);
    }
  }
}
