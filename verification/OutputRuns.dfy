/**
 The output session against a Broker, over every interleaving of commits, connects, losses,
 writes, PUBACKs, failed deletes, shutdowns and crashes.

 The MQTT client is a first-in first-out queue of publish requests that gives each written
 packet a fresh id. A connection is clean (MQTT Version 3.1.1, section 3.1.2.4): no request,
 packet or acknowledgement of one connection survives into the next. The Broker keeps the order
 of packets and of acknowledgements (section 4.6) and acknowledges what it received (4.3.2).
 */
module OutputRuns {
  import opened Types
  import opened OutputSession

  datatype Packet = Packet(pkid: nat, publication: Publication)

  datatype Mode = Running | Draining | Stopped(acked: bool)

  /**
   `outs` are packet ids written but not yet reported to the session; `wire` and `acks` are the
   packets on their way to the Broker and the acknowledgements not yet reported back. `rows`
   counts every row ever enqueued, so rows are numbered 0, 1, 2, ... in enqueue order.
   */
  datatype Net = Net(
    mode: Mode, session: SessionState, outs: seq<nat>, wire: seq<Packet>, acks: seq<Packet>,
    received: seq<Publication>, nextPkid: nat, rows: nat)

  const START := Net(Running, SessionState(false, [], None, [], []), [], [], [], [], 0, 0)

  datatype Event =
    | Commit(n: nat)
    | ConnAck(f: Faults)
    | ConnLost
    | Notified(f: Faults)
    | Heartbeat(f: Faults)
    | Write
    | Deliver
    | WriteReported
    | PubackReported(f: Faults)
    | Shutdown(f: Faults)
    | GiveUp
    | Crash

  /** Rows lo, lo + 1, ..., hi - 1. */
  function Range(lo: nat, hi: nat): seq<nat>
    requires lo <= hi
  {
    seq(hi - lo, i => lo + i)
  }

  /** Nothing of a connection outlives it. */
  function LinkDown(n: Net): Net {
    n.(session := n.session.(requests := []), outs := [], wire := [], acks := [])
  }

  function WriteNext(n: Net): Net
    requires n.session.requests != []
  {
    n.(session := n.session.(requests := n.session.requests[1..]), outs := n.outs + [n.nextPkid],
       wire := n.wire + [Packet(n.nextPkid, n.session.requests[0])], nextPkid := n.nextPkid + 1)
  }

  function DeliverNext(n: Net): Net
    requires n.wire != []
  {
    n.(received := n.received + [n.wire[0].publication], acks := n.acks + [n.wire[0]], wire := n.wire[1..])
  }

  function ReportPuback(n: Net, f: Faults): Net
    requires n.acks != []
  {
    n.(session := Puback(n.session, n.acks[0].pkid, f), acks := n.acks[1..])
  }

  function Step(n: Net, e: Event): Net {
    var s := n.session;
    match e
    case Commit(k) =>
      n.(session := s.(outbox := s.outbox + Range(n.rows, n.rows + k)), rows := n.rows + k)
    case ConnAck(f) =>
      if n.mode.Running? && !s.connected then n.(session := Connected(s, f)) else n
    case ConnLost =>
      if n.mode.Running? then LinkDown(n.(session := Disconnected(s)))
      else if n.mode.Draining? then LinkDown(n.(mode := Stopped(false)))
      else LinkDown(n)
    case Notified(f) =>
      if n.mode.Running? && s.connected && s.inflight.None? then n.(session := NextRow(s, f)) else n
    case Heartbeat(f) =>
      if n.mode.Running? && s.connected then n.(session := Enqueued(s, Status, f)) else n
    case Write => if s.connected && s.requests != [] then WriteNext(n) else n
    case Deliver => if n.wire != [] then DeliverNext(n) else n
    case WriteReported =>
      if n.mode.Stopped? || n.outs == [] then n
      else n.(session := PacketWritten(s, n.outs[0]), outs := n.outs[1..])
    case PubackReported(f) =>
      if n.mode.Stopped? || n.acks == [] || n.acks[0].pkid in n.outs then n
      else
        var n1 := ReportPuback(n, f);
        if n.mode.Draining? && StatusAcknowledged(n1.session) then n1.(mode := Stopped(true)) else n1
    case Shutdown(f) =>
      if !n.mode.Running? then n
      else if s.connected then n.(mode := Draining, session := ShutdownBegun(s, f))
      else n.(mode := Stopped(false))
    case GiveUp =>
      if n.mode.Draining? then n.(mode := Stopped(false)) else n
    case Crash =>
      LinkDown(n.(mode := Running, session := Disconnected(s)))
  }

  function Run(n: Net, es: seq<Event>): Net
    decreases |es|
  {
    if es == [] then n else Run(Step(n, es[0]), es[1..])
  }

  // ---------------------------------------------------------------------------
  // Invariant
  // ---------------------------------------------------------------------------

  /** Outbox rows among the publications the Broker received, in order of arrival. */
  function RowsOf(ps: seq<Publication>): seq<nat> {
    if ps == [] then []
    else
      var before := RowsOf(ps[..|ps| - 1]);
      if ps[|ps| - 1].Outbox? then before + [ps[|ps| - 1].row] else before
  }

  /** Rows 0, 1, 2, ... in order, each possibly repeated before the next one arrives. */
  predicate Stutters(rs: seq<nat>) {
    && (rs != [] ==> rs[0] == 0)
    && forall i | 0 < i < |rs| :: rs[i] == rs[i - 1] || rs[i] == rs[i - 1] + 1
  }

  /** Number of rows deleted so far. */
  function Deleted(n: Net): int {
    n.rows - |n.session.outbox|
  }

  /** Everything deleted was received; the Broker is at most one row ahead of the deletions. */
  predicate CaughtUp(rs: seq<nat>, d: int, rows: nat) {
    if rs == [] then d == 0 else d == rs[|rs| - 1] < rows || d == rs[|rs| - 1] + 1
  }

  predicate OnlyOldest(ps: seq<Packet>, d: int, rows: nat) {
    forall i | 0 <= i < |ps| && ps[i].publication.Outbox? :: ps[i].publication.row == d < rows
  }

  predicate OnlyOldestRequest(ps: seq<Publication>, d: int, rows: nat) {
    forall i | 0 <= i < |ps| && ps[i].Outbox? :: ps[i].row == d < rows
  }

  ghost predicate Durable(n: Net) {
    var d := Deleted(n);
    && 0 <= d
    && n.session.outbox == Range(d, n.rows)
    && Stutters(RowsOf(n.received))
    && CaughtUp(RowsOf(n.received), d, n.rows)
  }

  /** Whatever is still travelling is the oldest row, and what is acknowledged has arrived. */
  ghost predicate Travelling(n: Net) {
    var d := Deleted(n);
    && OnlyOldestRequest(n.session.requests, d, n.rows)
    && OnlyOldest(n.wire, d, n.rows)
    && OnlyOldest(n.acks, d, n.rows)
    && (forall i | 0 <= i < |n.acks| && n.acks[i].publication.Outbox? ::
          var rs := RowsOf(n.received); rs != [] && rs[|rs| - 1] == n.acks[i].publication.row)
  }

  /**
   The session's pending list is the written, unacknowledged packets followed by the requests
   not yet written, and exactly the reported ones carry their packet id.
   */
  ghost predicate Aligned(s: SessionState, written: seq<Packet>, outs: seq<nat>) {
    && |s.pending| == |written| + |s.requests|
    && |outs| <= |written|
    && (forall i | 0 <= i < |written| :: s.pending[i].publication == written[i].publication)
    && (forall i | 0 <= i < |s.requests| :: s.pending[|written| + i].publication == s.requests[i])
    && (forall i | 0 <= i < |written| - |outs| :: s.pending[i].pkid == Some(written[i].pkid))
    && (forall i | |written| - |outs| <= i < |s.pending| :: s.pending[i].pkid == None)
    && (forall i | 0 <= i < |outs| :: outs[i] == written[|written| - |outs| + i].pkid)
    && (forall i, j | 0 <= i < j < |written| :: written[i].pkid < written[j].pkid)
  }

  /** At most one outbox row is in flight: the oldest one, once. */
  ghost predicate OneInFlight(s: SessionState) {
    && (forall i | 0 <= i < |s.pending| && s.pending[i].publication.Outbox? ::
          s.inflight == Some(s.pending[i].publication.row))
    && (forall i, j | 0 <= i < j < |s.pending| ::
          !(s.pending[i].publication.Outbox? && s.pending[j].publication.Outbox?))
    && (s.inflight.Some? ==>
          && s.outbox != [] && s.inflight.value == s.outbox[0]
          && exists i :: 0 <= i < |s.pending| && s.pending[i].publication.Outbox?)
  }

  ghost predicate Idle(n: Net) {
    && n.session.pending == [] && n.session.inflight.None? && n.session.requests == []
    && n.outs == [] && n.wire == [] && n.acks == []
  }

  ghost predicate Live(n: Net) {
    if n.session.connected then
      && Aligned(n.session, n.acks + n.wire, n.outs)
      && OneInFlight(n.session)
    else Idle(n)
  }

  ghost predicate Quiet(n: Net) {
    forall i | 0 <= i < |n.session.pending| :: n.session.pending[i].publication == Status
  }

  predicate Issued(ps: seq<Packet>, nextPkid: nat) {
    forall i | 0 <= i < |ps| :: ps[i].pkid < nextPkid
  }

  ghost predicate Inv(n: Net) {
    && Durable(n)
    && Travelling(n)
    && Issued(n.wire, n.nextPkid) && Issued(n.acks, n.nextPkid)
    && (if n.mode.Running? then Live(n) else Quiet(n))
  }

  // ---------------------------------------------------------------------------
  // Session steps
  // ---------------------------------------------------------------------------

  lemma FirstIndexFacts(pending: seq<Pending>, pkid: Option<nat>)
    ensures var i := FirstIndex(pending, pkid);
            && i <= |pending|
            && (i < |pending| ==> pending[i].pkid == pkid)
            && forall j | 0 <= j < i :: pending[j].pkid != pkid
  {
    if pending != [] && pending[0].pkid != pkid {
      FirstIndexFacts(pending[1..], pkid);
      forall j | 0 <= j < FirstIndex(pending, pkid) ensures pending[j].pkid != pkid {
        if j > 0 { assert pending[j] == pending[1..][j - 1]; }
      }
    }
  }

  lemma StatusKeeps(s: SessionState, f: Faults, written: seq<Packet>, outs: seq<nat>)
    requires Aligned(s, written, outs) && OneInFlight(s)
    ensures Aligned(Enqueued(s, Status, f), written, outs) && OneInFlight(Enqueued(s, Status, f))
  {
    var s' := Enqueued(s, Status, f);
    assert forall i | 0 <= i < |s.pending| :: s'.pending[i] == s.pending[i];
  }

  lemma NextRowKeeps(s: SessionState, f: Faults, written: seq<Packet>, outs: seq<nat>)
    requires Aligned(s, written, outs) && OneInFlight(s)
    ensures Aligned(NextRow(s, f), written, outs) && OneInFlight(NextRow(s, f))
  {
    var s' := NextRow(s, f);
    if s' != s && !f.queue {
      assert s'.pending == s.pending + [Pending(Outbox(s.outbox[0]), None)];
      assert s'.pending[|s.pending|].publication.Outbox?;
    }
  }

  /** Packet ids do not matter for what is in flight. */
  lemma SamePublications(s: SessionState, s': SessionState)
    requires OneInFlight(s) && s'.inflight == s.inflight && s'.outbox == s.outbox && |s'.pending| == |s.pending|
    requires forall i | 0 <= i < |s.pending| :: s'.pending[i].publication == s.pending[i].publication
    ensures OneInFlight(s')
  {
    if s.inflight.Some? {
      var i :| 0 <= i < |s.pending| && s.pending[i].publication.Outbox?;
      assert s'.pending[i].publication.Outbox?;
    }
  }

  lemma ReportedAligned(s: SessionState, written: seq<Packet>, outs: seq<nat>, at: nat)
    requires Aligned(s, written, outs) && outs != [] && at == |written| - |outs|
    ensures Aligned(s.(pending := s.pending[at := s.pending[at].(pkid := Some(outs[0]))]), written, outs[1..])
  {
    assert outs[0] == written[at + 0].pkid;
    forall i | 0 <= i < |outs[1..]| ensures outs[1..][i] == written[at + 1 + i].pkid {
      assert outs[i + 1] == written[at + (i + 1)].pkid;
    }
  }

  lemma WrittenKeeps(s: SessionState, written: seq<Packet>, outs: seq<nat>)
    requires Aligned(s, written, outs) && OneInFlight(s) && outs != []
    ensures var s' := PacketWritten(s, outs[0]); Aligned(s', written, outs[1..]) && OneInFlight(s')
  {
    FirstIndexFacts(s.pending, None);
    var at := |written| - |outs|;
    assert s.pending[at].pkid == None;
    ReportedAligned(s, written, outs, at);
    SamePublications(s, PacketWritten(s, outs[0]));
  }

  /** Once its write is reported, the head acknowledgement belongs to the first pending publication. */
  lemma HeadIsFirst(s: SessionState, written: seq<Packet>, outs: seq<nat>)
    requires Aligned(s, written, outs) && written != []
    ensures s.pending[0].publication == written[0].publication
    ensures written[0].pkid !in outs
            ==> |outs| < |written| && FirstIndex(s.pending, Some(written[0].pkid)) == 0
  {
    if |outs| == |written| {
      assert outs[0] == written[|written| - |outs| + 0].pkid;
    }
  }

  lemma DropFirst(outbox: seq<nat>, d: nat, rows: nat)
    requires d < rows && outbox == Range(d, rows)
    ensures Without(outbox, d) == Range(d + 1, rows) == outbox[1..]
  {
    WithoutAbsent(outbox[1..], d);
  }

  lemma WithoutAbsent(outbox: seq<nat>, row: nat)
    requires forall i | 0 <= i < |outbox| :: outbox[i] != row
    ensures Without(outbox, row) == outbox
  {
    if outbox != [] { WithoutAbsent(outbox[1..], row); }
  }

  lemma PopAligned(s: SessionState, s': SessionState, written: seq<Packet>, outs: seq<nat>)
    requires Aligned(s, written, outs) && |outs| < |written|
    requires s'.pending == s.pending[1..] && s'.requests == s.requests
    ensures Aligned(s', written[1..], outs)
  {
  }

  lemma PopStatus(s: SessionState, s': SessionState)
    requires OneInFlight(s) && s.pending != [] && s.pending[0].publication == Status
    requires s' == s.(pending := s.pending[1..])
    ensures OneInFlight(s')
  {
    if s.inflight.Some? {
      var i :| 0 <= i < |s.pending| && s.pending[i].publication.Outbox?;
      assert s'.pending[i - 1].publication.Outbox?;
    }
  }

  lemma PopOutbox(s: SessionState, s': SessionState)
    requires OneInFlight(s) && s.pending != [] && s.pending[0].publication.Outbox?
    requires s'.pending == s.pending[1..] && s'.inflight.None?
    ensures OneInFlight(s')
  {
    forall i | 0 <= i < |s'.pending| ensures s'.pending[i].publication == Status {
      assert s'.pending[i] == s.pending[i + 1];
    }
  }

  /** What a PUBACK for the first pending publication does, spelled out. */
  function Acked(s: SessionState, f: Faults): SessionState
    requires s.pending != []
  {
    var s1 := s.(pending := s.pending[1..]);
    match s.pending[0].publication
    case Status => s1
    case Outbox(row) =>
      NextRow(s1.(inflight := None, outbox := if f.delete then s.outbox else Without(s.outbox, row)), f)
  }

  lemma PubackIsAcked(s: SessionState, f: Faults, written: seq<Packet>, outs: seq<nat>)
    requires Aligned(s, written, outs) && OneInFlight(s)
    requires written != [] && written[0].pkid !in outs
    ensures s.pending != [] && s.pending[0].publication == written[0].publication
    ensures Puback(s, written[0].pkid, f) == Acked(s, f)
  {
    HeadIsFirst(s, written, outs);
    assert s.pending[..0] + s.pending[0 + 1..] == s.pending[1..];
  }

  /** A PUBACK removes the first pending entry, deletes its row if it has one, and sends the next. */
  lemma AckedKeeps(s: SessionState, f: Faults, written: seq<Packet>, outs: seq<nat>)
    requires Aligned(s, written, outs) && OneInFlight(s)
    requires written != [] && |outs| < |written|
    ensures s.pending != []
    ensures Aligned(Acked(s, f), written[1..], outs) && OneInFlight(Acked(s, f))
  {
    var s1 := s.(pending := s.pending[1..]);
    match s.pending[0].publication
    case Status =>
      PopAligned(s, s1, written, outs);
      PopStatus(s, s1);
    case Outbox(row) =>
      var s2 := s1.(inflight := None, outbox := if f.delete then s.outbox else Without(s.outbox, row));
      PopAligned(s, s2, written, outs);
      PopOutbox(s, s2);
      NextRowKeeps(s2, f, written[1..], outs);
  }

  /** The outbox and the requests after a PUBACK. */
  lemma AckedStores(s: SessionState, f: Faults, d: nat, rows: nat)
    requires OneInFlight(s) && s.pending != []
    requires d <= rows && s.outbox == Range(d, rows)
    ensures var s' := Acked(s, f);
            if s.pending[0].publication == Status then s'.outbox == s.outbox && s'.requests == s.requests
            else
              && s.pending[0].publication == Outbox(d) && d < rows
              && (f.delete ==> s'.outbox == s.outbox)
              && (!f.delete ==> s'.outbox == Range(d + 1, rows))
              && (s'.requests == s.requests
                  || (s'.outbox != [] && s'.requests == s.requests + [Outbox(s'.outbox[0])]))
  {
    if s.pending[0].publication.Outbox? {
      assert s.inflight == Some(s.pending[0].publication.row);
      DropFirst(s.outbox, d, rows);
    }
  }

  // ---------------------------------------------------------------------------
  // Steps keep the invariant
  // ---------------------------------------------------------------------------

  lemma RowsAppend(ps: seq<Publication>, p: Publication)
    ensures RowsOf(ps + [p]) == if p.Outbox? then RowsOf(ps) + [p.row] else RowsOf(ps)
  {
    assert (ps + [p])[..|ps|] == ps;
  }

  lemma RangeAppend(lo: nat, mid: nat, hi: nat)
    requires lo <= mid <= hi
    ensures Range(lo, mid) + Range(mid, hi) == Range(lo, hi)
  {
  }

  /** The outbox only grew at its end: what was oldest still is. */
  lemma GrowKeeps(s: SessionState, more: seq<nat>)
    requires OneInFlight(s)
    ensures OneInFlight(s.(outbox := s.outbox + more))
  {
  }

  lemma CommitKeeps(n: Net, k: nat)
    requires Inv(n)
    ensures Inv(Step(n, Commit(k)))
  {
    CommitTravels(n, k);
    if n.mode.Running? && n.session.connected { GrowKeeps(n.session, Range(n.rows, n.rows + k)); }
  }

  lemma CommitTravels(n: Net, k: nat)
    requires Durable(n) && Travelling(n)
    ensures Durable(Step(n, Commit(k))) && Travelling(Step(n, Commit(k))) && Deleted(Step(n, Commit(k))) == Deleted(n)
  {
    RangeAppend(Deleted(n), n.rows, n.rows + k);
  }

  /** Sending the next row adds at most the oldest row to the requests. */
  lemma NextRowRequests(s: SessionState, f: Faults, d: nat, rows: nat)
    requires d <= rows && s.outbox == Range(d, rows)
    requires OnlyOldestRequest(s.requests, d, rows)
    ensures OnlyOldestRequest(NextRow(s, f).requests, d, rows)
    ensures NextRow(s, f).outbox == s.outbox && NextRow(s, f).connected == s.connected
  {
  }

  lemma NotifiedKeeps(n: Net, f: Faults)
    requires Inv(n) && n.mode.Running? && n.session.connected
    ensures Inv(n.(session := NextRow(n.session, f)))
  {
    NextRowKeeps(n.session, f, n.acks + n.wire, n.outs);
    NextRowRequests(n.session, f, Deleted(n), n.rows);
  }

  lemma HeartbeatKeeps(n: Net, f: Faults)
    requires Inv(n) && n.mode.Running? && n.session.connected
    ensures Inv(n.(session := Enqueued(n.session, Status, f)))
  {
    StatusKeeps(n.session, f, n.acks + n.wire, n.outs);
  }

  lemma ConnectKeeps(n: Net, f: Faults)
    requires Inv(n) && n.mode.Running? && !n.session.connected
    ensures Inv(Step(n, ConnAck(f)))
  {
    var n1 := n.(session := n.session.(connected := true));
    assert n1.acks + n1.wire == [];
    assert Inv(n1);
    HeartbeatKeeps(n1, f);
    var n2 := n1.(session := Enqueued(n1.session, Status, f));
    NotifiedKeeps(n2, f);
    assert n1.session == n.session.(connected := true, pending := [], inflight := None);
  }

  lemma WriteAligned(s: SessionState, written: seq<Packet>, outs: seq<nat>, pkid: nat)
    requires Aligned(s, written, outs) && s.requests != []
    requires forall i | 0 <= i < |written| :: written[i].pkid < pkid
    ensures Aligned(s.(requests := s.requests[1..]), written + [Packet(pkid, s.requests[0])], outs + [pkid])
  {
    var s', written' := s.(requests := s.requests[1..]), written + [Packet(pkid, s.requests[0])];
    assert s.pending[|written| + 0].publication == s.requests[0];
    forall i | 0 <= i < |s'.requests| ensures s'.pending[|written'| + i].publication == s'.requests[i] {
      assert s.pending[|written| + (i + 1)].publication == s.requests[i + 1];
    }
  }

  lemma WriteKeeps(n: Net)
    requires Inv(n) && n.session.connected && n.session.requests != []
    ensures Inv(WriteNext(n))
  {
    var n' := WriteNext(n);
    assert n'.acks + n'.wire == n.acks + n.wire + [Packet(n.nextPkid, n.session.requests[0])];
    if n.mode.Running? {
      WriteAligned(n.session, n.acks + n.wire, n.outs, n.nextPkid);
    }
  }

  lemma DeliverKeeps(n: Net)
    requires Inv(n) && n.wire != []
    ensures Inv(DeliverNext(n))
  {
    DeliverTravels(n);
    Rotate(n.acks, n.wire);
    assert Issued(n.acks + [n.wire[0]], n.nextPkid);
  }

  lemma Rotate(acks: seq<Packet>, wire: seq<Packet>)
    requires wire != []
    ensures acks + [wire[0]] + wire[1..] == acks + wire
  {
  }

  lemma DeliverTravels(n: Net)
    requires Durable(n) && Travelling(n) && n.wire != []
    ensures Durable(DeliverNext(n)) && Travelling(DeliverNext(n))
  {
    var n' := DeliverNext(n);
    var p := n.wire[0].publication;
    RowsAppend(n.received, p);
    assert p.Outbox? ==> p.row == Deleted(n);
    forall i | 0 <= i < |n'.acks| && n'.acks[i].publication.Outbox?
      ensures var rs := RowsOf(n'.received); rs != [] && rs[|rs| - 1] == n'.acks[i].publication.row
    {
      assert i < |n.acks| ==> n'.acks[i] == n.acks[i];
    }
  }

  /** When the head acknowledgement carries a row, everything else under way is status. */
  lemma RestIsStatus(s: SessionState, acks: seq<Packet>, wire: seq<Packet>, outs: seq<nat>)
    requires Aligned(s, acks + wire, outs) && OneInFlight(s)
    requires acks != [] && s.pending[0].publication.Outbox?
    ensures forall i | 0 < i < |acks| :: acks[i].publication == Status
    ensures forall i | 0 <= i < |wire| :: wire[i].publication == Status
    ensures forall i | 0 <= i < |s.requests| :: s.requests[i] == Status
  {
    var written := acks + wire;
    forall i | 0 < i < |acks| ensures acks[i].publication == Status {
      assert acks[i] == written[i] && s.pending[i].publication == written[i].publication;
    }
    forall i | 0 <= i < |wire| ensures wire[i].publication == Status {
      assert wire[i] == written[|acks| + i];
      assert s.pending[|acks| + i].publication == written[|acks| + i].publication;
    }
    forall i | 0 <= i < |s.requests| ensures s.requests[i] == Status {
      assert s.pending[|written| + i].publication == s.requests[i];
    }
  }

  lemma PubackTravels(n: Net, f: Faults)
    requires Inv(n) && n.mode.Running? && n.session.connected
    requires n.acks != [] && n.session.pending != []
    requires n.session.pending[0].publication == n.acks[0].publication
    ensures var n' := n.(session := Acked(n.session, f), acks := n.acks[1..]);
            Durable(n') && Travelling(n') && n'.session.connected
  {
    AckedStores(n.session, f, Deleted(n), n.rows);
    if n.acks[0].publication.Outbox? {
      RestIsStatus(n.session, n.acks, n.wire, n.outs);
      var rs := RowsOf(n.received);
      assert rs[|rs| - 1] == Deleted(n);
    }
  }

  lemma PubackKeeps(n: Net, f: Faults)
    requires Inv(n) && n.mode.Running? && n.acks != [] && n.acks[0].pkid !in n.outs
    ensures n.session.connected && n.session.pending != []
    ensures ReportPuback(n, f) == n.(session := Acked(n.session, f), acks := n.acks[1..])
    ensures Inv(ReportPuback(n, f))
  {
    var written := n.acks + n.wire;
    PubackIsAcked(n.session, f, written, n.outs);
    HeadIsFirst(n.session, written, n.outs);
    AckedKeeps(n.session, f, written, n.outs);
    PubackTravels(n, f);
    assert n.acks[1..] + n.wire == written[1..];
  }

  /** A session that tracks only status publications neither deletes a row nor sends one. */
  lemma QuietPuback(s: SessionState, pkid: nat, f: Faults)
    requires forall i | 0 <= i < |s.pending| :: s.pending[i].publication == Status
    ensures var s' := Puback(s, pkid, f);
            && s' == s.(pending := s'.pending)
            && forall i | 0 <= i < |s'.pending| :: s'.pending[i].publication == Status
  {
    FirstIndexFacts(s.pending, Some(pkid));
  }

  lemma DrainingKeeps(n: Net, f: Faults)
    requires Inv(n) && n.mode.Draining? && n.acks != []
    ensures ReportPuback(n, f).session.outbox == n.session.outbox
    ensures Inv(ReportPuback(n, f))
  {
    QuietPuback(n.session, n.acks[0].pkid, f);
  }

  lemma ReportedKeeps(n: Net)
    requires Inv(n) && !n.mode.Stopped? && n.outs != []
    ensures Inv(n.(session := PacketWritten(n.session, n.outs[0]), outs := n.outs[1..]))
  {
    FirstIndexFacts(n.session.pending, None);
    if n.mode.Running? { WrittenKeeps(n.session, n.acks + n.wire, n.outs); }
  }

  lemma LostKeeps(n: Net, mode: Mode)
    requires Inv(n) && !mode.Draining?
    ensures mode.Running? ==> Inv(LinkDown(n.(mode := mode, session := Disconnected(n.session))))
    ensures mode.Stopped? && !n.mode.Running? ==> Inv(LinkDown(n.(mode := mode)))
  {
  }

  lemma ShutdownKeeps(n: Net, f: Faults)
    requires Inv(n) && n.mode.Running?
    ensures Inv(Step(n, Shutdown(f)))
  {
  }

  lemma PubackStepKeeps(n: Net, f: Faults)
    requires Inv(n)
    ensures Inv(Step(n, PubackReported(f)))
  {
    if n.acks != [] && n.acks[0].pkid !in n.outs {
      if n.mode.Running? { PubackKeeps(n, f); }
      if n.mode.Draining? { DrainingKeeps(n, f); }
    }
  }

  lemma LostStepKeeps(n: Net)
    requires Inv(n)
    ensures Inv(Step(n, ConnLost)) && Inv(Step(n, Crash))
  {
    LostKeeps(n, if n.mode.Draining? then Stopped(false) else n.mode);
    LostKeeps(n, Running);
  }

  lemma StepKeeps(n: Net, e: Event)
    requires Inv(n)
    ensures Inv(Step(n, e))
  {
    var s := n.session;
    match e
    case Commit(k) => CommitKeeps(n, k);
    case ConnAck(f) => if n.mode.Running? && !s.connected { ConnectKeeps(n, f); }
    case ConnLost => LostStepKeeps(n);
    case Notified(f) => if n.mode.Running? && s.connected { NotifiedKeeps(n, f); }
    case Heartbeat(f) => if n.mode.Running? && s.connected { HeartbeatKeeps(n, f); }
    case Write => if s.connected && s.requests != [] { WriteKeeps(n); }
    case Deliver => if n.wire != [] { DeliverKeeps(n); }
    case WriteReported => if !n.mode.Stopped? && n.outs != [] { ReportedKeeps(n); }
    case PubackReported(f) => PubackStepKeeps(n, f);
    case Shutdown(f) => if n.mode.Running? { ShutdownKeeps(n, f); }
    case GiveUp =>
    case Crash => LostStepKeeps(n);
  }

  lemma {:induction false} RunKeeps(n: Net, es: seq<Event>)
    requires Inv(n)
    ensures Inv(Run(n, es))
    decreases |es|
  {
    if es != [] {
      StepKeeps(n, es[0]);
      RunKeeps(Step(n, es[0]), es[1..]);
    }
  }

  // ---------------------------------------------------------------------------
  // What the Broker sees
  // ---------------------------------------------------------------------------

  /**
   Over any run the Broker receives rows 0, 1, 2, ... in enqueue order, repeating only the most
   recent one, and the rows still stored are exactly those after the deleted ones, all of which
   the Broker received.
   */
  lemma BrokerReceivesInOrder(es: seq<Event>)
    ensures var n := Run(START, es);
            && Stutters(RowsOf(n.received))
            && 0 <= Deleted(n) && n.session.outbox == Range(Deleted(n), n.rows)
            && (forall row: nat | row < Deleted(n) :: row in RowsOf(n.received))
  {
    RunKeeps(START, es);
    var n := Run(START, es);
    forall row: nat | row < Deleted(n) ensures row in RowsOf(n.received) {
      StuttersCovers(RowsOf(n.received), row);
    }
  }

  /** A stuttering list that reaches a row has passed every row before it. */
  lemma {:induction false} StuttersCovers(rs: seq<nat>, row: nat)
    requires Stutters(rs) && rs != [] && row <= rs[|rs| - 1]
    ensures row in rs
    decreases |rs|
  {
    if row != rs[|rs| - 1] {
      StuttersCovers(rs[..|rs| - 1], row);
    }
  }

  /** The Broker holds no row that was never enqueued. */
  lemma ReceivedWithin(n: Net)
    requires Inv(n)
    ensures var rs := RowsOf(n.received); rs != [] ==> rs[|rs| - 1] < n.rows
  {
  }

  function Carried(ps: seq<Packet>): seq<Publication> {
    seq(|ps|, i requires 0 <= i < |ps| => ps[i].publication)
  }

  /** Everything handed to the client whose PUBACK has not been reported: on its way, or not yet written. */
  function UnderWay(n: Net): seq<Publication> {
    Carried(n.acks + n.wire) + n.session.requests
  }

  predicate OneOutbox(ps: seq<Publication>) {
    forall i, j | 0 <= i < j < |ps| :: !(ps[i].Outbox? && ps[j].Outbox?)
  }

  /** While running, what is under way is what is pending. */
  lemma RunningOneOutbox(n: Net)
    requires Inv(n) && n.mode.Running?
    ensures OneOutbox(UnderWay(n))
  {
    var ps := UnderWay(n);
    if n.session.connected {
      assert |ps| == |n.session.pending|;
      assert forall i | 0 <= i < |ps| :: ps[i] == n.session.pending[i].publication;
    }
  }

  lemma WriteUnderWay(n: Net)
    requires n.session.requests != []
    ensures UnderWay(WriteNext(n)) == UnderWay(n)
  {
    var n' := WriteNext(n);
    assert n'.acks + n'.wire == n.acks + n.wire + [Packet(n.nextPkid, n.session.requests[0])];
    assert Carried(n'.acks + n'.wire) == Carried(n.acks + n.wire) + [n.session.requests[0]];
  }

  lemma DeliverUnderWay(n: Net)
    requires n.wire != []
    ensures UnderWay(DeliverNext(n)) == UnderWay(n)
  {
    Rotate(n.acks, n.wire);
  }

  /** Once draining or stopped nothing but the `offline` status is added. */
  lemma StepOneOutbox(n: Net, e: Event)
    requires Inv(n) && OneOutbox(UnderWay(n))
    ensures OneOutbox(UnderWay(Step(n, e)))
  {
    var n' := Step(n, e);
    if n'.mode.Running? {
      StepKeeps(n, e);
      RunningOneOutbox(n');
    } else if n.mode.Running? {
      assert UnderWay(n') == UnderWay(n) || UnderWay(n') == UnderWay(n) + [Status];
    } else {
      StoppedUnderWay(n, e);
    }
  }

  lemma StoppedUnderWay(n: Net, e: Event)
    requires Inv(n) && !n.mode.Running? && !e.Crash?
    ensures var ps, ps' := UnderWay(n), UnderWay(Step(n, e)); ps' == ps || ps' == [] || (ps != [] && ps' == ps[1..])
  {
    if e.Write? && n.session.connected && n.session.requests != [] { WriteUnderWay(n); }
    if e.Deliver? && n.wire != [] { DeliverUnderWay(n); }
    if e.PubackReported? && n.mode.Draining? && n.acks != [] {
      QuietPuback(n.session, n.acks[0].pkid, e.f);
      assert n.acks[1..] + n.wire == (n.acks + n.wire)[1..];
    }
  }

  lemma {:induction false} RunOneOutbox(n: Net, es: seq<Event>)
    requires Inv(n) && OneOutbox(UnderWay(n))
    ensures OneOutbox(UnderWay(Run(n, es)))
    decreases |es|
  {
    if es != [] {
      StepKeeps(n, es[0]);
      StepOneOutbox(n, es[0]);
      RunOneOutbox(Step(n, es[0]), es[1..]);
    }
  }

  lemma UnderWayIsOldest(n: Net, i: nat)
    requires Inv(n) && i < |UnderWay(n)| && UnderWay(n)[i].Outbox?
    ensures n.session.outbox != [] && UnderWay(n)[i].row == n.session.outbox[0]
  {
    var written := n.acks + n.wire;
    assert i < |written| ==> UnderWay(n)[i] == written[i].publication;
    assert i < |n.acks| ==> written[i] == n.acks[i];
    assert |n.acks| <= i < |written| ==> written[i] == n.wire[i - |n.acks|];
  }

  /**
   In every state of every run, shutdown included, at most one outbox row is under way between the
   session and the reported PUBACK, and it is the oldest row stored; while running, the session's
   own list and in-flight mark say the same.
   */
  lemma AtMostOneInFlight(es: seq<Event>)
    ensures var n := Run(START, es);
            && OneOutbox(UnderWay(n))
            && (forall i | 0 <= i < |UnderWay(n)| && UnderWay(n)[i].Outbox? ::
                  n.session.outbox != [] && UnderWay(n)[i].row == n.session.outbox[0])
            && (n.mode.Running? && n.session.connected ==> OneInFlight(n.session))
  {
    RunOneOutbox(START, es);
    RunKeeps(START, es);
    var n := Run(START, es);
    forall i | 0 <= i < |UnderWay(n)| && UnderWay(n)[i].Outbox?
      ensures n.session.outbox != [] && UnderWay(n)[i].row == n.session.outbox[0]
    {
      UnderWayIsOldest(n, i);
    }
  }

  /** No event but the report of a PUBACK shrinks the outbox. */
  lemma OthersOnlyGrow(n: Net, e: Event)
    requires Inv(n) && !e.PubackReported?
    ensures n.session.outbox <= Step(n, e).session.outbox
  {
    FirstIndexFacts(n.session.pending, None);
  }

  /**
   A step that removes a row from the outbox is the report of a PUBACK for a packet carrying that
   very row, which the Broker has received; it removes that row alone.
   */
  lemma DeletedOnlyAfterPuback(es: seq<Event>, e: Event, row: nat)
    requires var n := Run(START, es); row in n.session.outbox && row !in Step(n, e).session.outbox
    ensures var n := Run(START, es);
            && e.PubackReported? && n.mode.Running?
            && n.acks != [] && n.acks[0].publication == Outbox(row)
            && row in RowsOf(n.received)
            && row == n.session.outbox[0] && Step(n, e).session.outbox == n.session.outbox[1..]
  {
    RunKeeps(START, es);
    var n := Run(START, es);
    if !e.PubackReported? {
      OthersOnlyGrow(n, e);
    } else if n.acks != [] && n.acks[0].pkid !in n.outs {
      if n.mode.Draining? { DrainingKeeps(n, e.f); }
      if n.mode.Running? { PubackRemoves(n, e.f); }
    }
  }

  lemma PubackRemoves(n: Net, f: Faults)
    requires Inv(n) && n.mode.Running? && n.acks != [] && n.acks[0].pkid !in n.outs
    ensures var outbox, outbox' := n.session.outbox, ReportPuback(n, f).session.outbox;
            outbox' == outbox
            || (outbox != [] && outbox' == outbox[1..] && n.acks[0].publication == Outbox(outbox[0])
                && outbox[0] in RowsOf(n.received))
  {
    PubackKeeps(n, f);
    AckedStores(n.session, f, Deleted(n), n.rows);
    PubackIsAcked(n.session, f, n.acks + n.wire, n.outs);
    if n.acks[0].publication.Outbox? {
      DropFirst(n.session.outbox, Deleted(n), n.rows);
    }
  }

  // ---------------------------------------------------------------------------
  // Progress
  // ---------------------------------------------------------------------------

  const CALM := Faults(false, false, false)

  /** What is in flight is under way. */
  lemma InFlightUnderWay(n: Net)
    requires Inv(n) && n.mode.Running? && n.session.connected && n.session.inflight.Some?
    ensures n.session.outbox != [] && Outbox(n.session.outbox[0]) in UnderWay(n)
  {
    var s := n.session;
    var i :| 0 <= i < |s.pending| && s.pending[i].publication.Outbox?;
    assert i < |UnderWay(n)| && UnderWay(n)[i] == s.pending[i].publication;
  }

  /** While connected the session never rests on a stored row: told to look, it has the oldest one under way. */
  lemma NotificationSends(es: seq<Event>)
    requires var n := Run(START, es); n.mode.Running? && n.session.connected && n.session.outbox != []
    ensures var n := Run(START, es);
            var n' := Step(n, Notified(CALM));
            Outbox(n.session.outbox[0]) in UnderWay(n') && n'.session.inflight == Some(n.session.outbox[0])
  {
    RunKeeps(START, es);
    NotifiedSends(Run(START, es));
  }

  lemma NotifiedSends(n: Net)
    requires Inv(n) && n.mode.Running? && n.session.connected && n.session.outbox != []
    ensures var n' := Step(n, Notified(CALM));
            Outbox(n.session.outbox[0]) in UnderWay(n') && n'.session.inflight == Some(n.session.outbox[0])
  {
    if n.session.inflight.Some? {
      InFlightUnderWay(n);
    } else {
      var ps := UnderWay(Step(n, Notified(CALM)));
      assert ps[|ps| - 1] == Outbox(n.session.outbox[0]);
    }
  }

  /** An acknowledged row makes way for the next at once. */
  lemma PubackSendsNext(es: seq<Event>, row: nat)
    requires var n := Run(START, es);
             var n' := Step(n, PubackReported(CALM));
             row in n.session.outbox && row !in n'.session.outbox && n'.session.outbox != []
    ensures var n' := Step(Run(START, es), PubackReported(CALM));
            && n'.session.outbox[0] == row + 1
            && Outbox(row + 1) in UnderWay(n') && n'.session.inflight == Some(row + 1)
  {
    DeletedOnlyAfterPuback(es, PubackReported(CALM), row);
    RunKeeps(START, es);
    var n := Run(START, es);
    assert n.session.outbox == Range(Deleted(n), n.rows) && n.session.outbox[1] == row + 1;
    AckedSendsNext(n, CALM);
  }

  /** A row that was acknowledged but could not be deleted goes out again. */
  lemma FailedDeleteResends(es: seq<Event>, f: Faults)
    requires var n := Run(START, es);
             && n.mode.Running? && n.acks != [] && n.acks[0].pkid !in n.outs && n.acks[0].publication.Outbox?
             && f.delete && !f.read && !f.queue
    ensures var n := Run(START, es);
            var n' := Step(n, PubackReported(f));
            && n'.session.outbox == n.session.outbox != []
            && Outbox(n.session.outbox[0]) in UnderWay(n') && n'.session.inflight == Some(n.session.outbox[0])
  {
    RunKeeps(START, es);
    AckedSendsNext(Run(START, es), f);
  }

  /** Even if the acknowledged row cannot be deleted: then it is sent again. */
  lemma AckedSendsNext(n: Net, f: Faults)
    requires Inv(n) && n.mode.Running? && n.acks != [] && n.acks[0].pkid !in n.outs && n.acks[0].publication.Outbox?
    requires !f.read && !f.queue
    ensures var n' := ReportPuback(n, f);
            && n.session.outbox != []
            && n'.session.outbox == (if f.delete then n.session.outbox else n.session.outbox[1..])
            && (n'.session.outbox != [] ==>
                  Outbox(n'.session.outbox[0]) in UnderWay(n') && n'.session.inflight == Some(n'.session.outbox[0]))
  {
    PubackKeeps(n, f);
    PubackIsAcked(n.session, f, n.acks + n.wire, n.outs);
    AckedStores(n.session, f, Deleted(n), n.rows);
    DropFirst(n.session.outbox, Deleted(n), n.rows);
    var n' := ReportPuback(n, f);
    if n'.session.outbox != [] { InFlightUnderWay(n'); }
  }

  /** A heartbeat puts a status under way. */
  lemma HeartbeatSends(n: Net)
    requires n.mode.Running? && n.session.connected
    ensures Step(n, Heartbeat(CALM)).session.requests == n.session.requests + [Status]
  {
  }

  /** What the network and the session do by themselves while nothing fails. */
  predicate Effortless(e: Event) {
    e == Notified(CALM) || e == Write || e == Deliver || e == WriteReported || e == PubackReported(CALM)
  }

  /** The effort still needed: five steps for a row not yet sent, four, two and one on its way. */
  function Effort(n: Net): int {
    SessionEffort(n.session) + 2 * |n.wire| + |n.acks| + |n.outs|
  }

  function SessionEffort(s: SessionState): int {
    5 * (|s.outbox| - (if s.inflight.Some? then 1 else 0)) + 4 * |s.requests|
  }

  lemma EffortFacts(n: Net)
    requires Inv(n) && n.mode.Running? && n.session.connected
    ensures Effort(n) >= 0
    ensures Effort(n) == 0 ==> n.session.outbox == [] && UnderWay(n) == []
  {
    if n.session.inflight.Some? { InFlightUnderWay(n); }
  }

  /** The acknowledged row goes and the next, if any, takes its place. */
  lemma AckedEffort(s: SessionState, d: nat, rows: nat)
    requires OneInFlight(s) && s.pending != [] && d <= rows && s.outbox == Range(d, rows)
    ensures SessionEffort(Acked(s, CALM)) <= SessionEffort(s) && Acked(s, CALM).connected == s.connected
  {
    if s.pending[0].publication.Outbox? {
      assert s.inflight == Some(s.pending[0].publication.row);
      DropFirst(s.outbox, d, rows);
    }
  }

  /** The step brought the end nearer, or did nothing; and the connection stays. */
  predicate Eases(n: Net, n': Net) {
    && n'.mode.Running? && n'.session.connected && n'.rows == n.rows
    && (n' == n || Effort(n') < Effort(n))
  }

  lemma PubackEases(n: Net)
    requires Inv(n) && n.mode.Running? && n.session.connected && n.acks != [] && n.acks[0].pkid !in n.outs
    ensures Eases(n, ReportPuback(n, CALM))
  {
    PubackKeeps(n, CALM);
    AckedEffort(n.session, Deleted(n), n.rows);
  }

  lemma ReportEases(n: Net)
    requires n.mode.Running? && n.session.connected && n.outs != []
    ensures Eases(n, n.(session := PacketWritten(n.session, n.outs[0]), outs := n.outs[1..]))
  {
    FirstIndexFacts(n.session.pending, None);
  }

  /** Every such step that does anything brings the end nearer. */
  lemma StepEases(n: Net, e: Event)
    requires Inv(n) && n.mode.Running? && n.session.connected && Effortless(e)
    ensures Eases(n, Step(n, e))
  {
    match e
    case PubackReported(_) => if n.acks != [] && n.acks[0].pkid !in n.outs { PubackEases(n); }
    case WriteReported => if n.outs != [] { ReportEases(n); }
    case _ =>
  }

  /** Until everything is acknowledged, some such step does something. */
  lemma NeverStuck(n: Net) returns (e: Event)
    requires Inv(n) && n.mode.Running? && n.session.connected && Effort(n) > 0
    ensures Effortless(e) && Step(n, e) != n
  {
    if n.outs != [] {
      e := WriteReported;
    } else if n.acks != [] {
      e := PubackReported(CALM);
    } else if n.wire != [] {
      e := Deliver;
    } else if n.session.requests != [] {
      e := Write;
    } else {
      e := Notified(CALM);
      if n.session.inflight.Some? { InFlightUnderWay(n); }
    }
  }

  /** A run of such steps, each of which does something. */
  predicate Busy(n: Net, es: seq<Event>)
    decreases |es|
  {
    es != [] ==> Effortless(es[0]) && Step(n, es[0]) != n && Busy(Step(n, es[0]), es[1..])
  }

  lemma {:induction false} BusyEases(n: Net, es: seq<Event>)
    requires Inv(n) && n.mode.Running? && n.session.connected && Busy(n, es)
    ensures var n' := Run(n, es);
            && Inv(n') && n'.mode.Running? && n'.session.connected && n'.rows == n.rows
            && Effort(n') <= Effort(n) - |es|
    decreases |es|
  {
    if es != [] {
      StepKeeps(n, es[0]);
      StepEases(n, es[0]);
      BusyEases(Step(n, es[0]), es[1..]);
    }
  }

  ghost predicate AtRest(n: Net) {
    forall e | Effortless(e) :: Step(n, e) == n
  }

  lemma RestIsDrained(n: Net)
    requires Inv(n) && n.mode.Running? && n.session.connected && AtRest(n)
    ensures n.session.outbox == [] && UnderWay(n) == []
    ensures forall row: nat | row < n.rows :: row in RowsOf(n.received)
  {
    EffortFacts(n);
    if Effort(n) > 0 { var e := NeverStuck(n); }
    forall row: nat | row < n.rows ensures row in RowsOf(n.received) {
      StuttersCovers(RowsOf(n.received), row);
    }
  }

  /**
   Undisturbed, a connected session drains: whatever the order in which the network and the
   session take their steps, at most `Effort` of them do anything, and when none can do anything
   any more, every row ever enqueued has been received and deleted.
   */
  lemma OutboxDrains(es: seq<Event>, more: seq<Event>)
    requires var n := Run(START, es); n.mode.Running? && n.session.connected && Busy(n, more)
    ensures var n := Run(START, es);
            var n' := Run(n, more);
            && |more| <= Effort(n)
            && (AtRest(n') ==>
                  && n'.session.outbox == [] && UnderWay(n') == []
                  && forall row: nat | row < n.rows :: row in RowsOf(n'.received))
  {
    RunKeeps(START, es);
    var n := Run(START, es);
    BusyEases(n, more);
    var n' := Run(n, more);
    EffortFacts(n');
    if AtRest(n') { RestIsDrained(n'); }
  }
}
