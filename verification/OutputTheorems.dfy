/**
 From pipeline to Broker: what arrives on each topic and in each series, and when the graceful
 `offline` may claim to be acknowledged.
 */
module OutputTheorems {
  import opened Types
  import opened OutputSession
  import opened OutputRuns
  import Engine
  import EngineRuns

  // ---------------------------------------------------------------------------
  // Engine and session together
  // ---------------------------------------------------------------------------

  datatype System = System(tables: Engine.Tables, net: Net)

  datatype Happening = OnEngine(op: EngineRuns.Op) | OnNet(event: Event)

  /** A committed engine operation makes the rows it appended visible to the session. */
  ghost function Happen(s: System, h: Happening): System {
    match h
    case OnEngine(op) =>
      var t := EngineRuns.Apply(s.tables, op);
      var added := |t.log| - |s.tables.log|;
      System(t, if added >= 0 then Step(s.net, Commit(added)) else s.net)
    case OnNet(e) => if e.Commit? then s else s.(net := Step(s.net, e))
  }

  ghost function History(s: System, hs: seq<Happening>): System
    decreases |hs|
  {
    if hs == [] then s else History(Happen(s, hs[0]), hs[1..])
  }

  const ORIGIN := System(Engine.EMPTY, START)

  ghost predicate SystemInv(s: System) {
    EngineRuns.Inv(s.tables) && Inv(s.net) && s.net.rows == |s.tables.log|
  }

  /** Only commits change the number of rows. */
  lemma StepRows(n: Net, e: Event)
    ensures Step(n, e).rows == n.rows + (if e.Commit? then e.n else 0)
  {
  }

  lemma {:induction false} HistoryKeeps(s: System, hs: seq<Happening>)
    requires SystemInv(s)
    ensures SystemInv(History(s, hs))
    decreases |hs|
  {
    if hs != [] {
      match hs[0] {
        case OnEngine(op) =>
          EngineRuns.ApplyKeeps(s.tables, op);
          StepKeeps(s.net, Commit(|EngineRuns.Apply(s.tables, op).log| - |s.tables.log|));
        case OnNet(e) =>
          StepKeeps(s.net, e);
          StepRows(s.net, e);
      }
      HistoryKeeps(Happen(s, hs[0]), hs[1..]);
    }
  }

  // ---------------------------------------------------------------------------
  // Order on a topic
  // ---------------------------------------------------------------------------

  function Kept(rs: seq<nat>, p: nat -> bool): seq<nat> {
    if rs == [] then []
    else
      var before := Kept(rs[..|rs| - 1], p);
      if p(rs[|rs| - 1]) then before + [rs[|rs| - 1]] else before
  }

  /** Immediate repeats removed, as a consumer that ignores the last row seen does. */
  function Collapse(rs: seq<nat>): seq<nat> {
    if |rs| <= 1 then rs
    else
      var before := Collapse(rs[..|rs| - 1]);
      if rs[|rs| - 1] == rs[|rs| - 2] then before else before + [rs[|rs| - 1]]
  }

  /** How far a stuttering list of rows has got. */
  function Reached(rs: seq<nat>): nat {
    if rs == [] then 0 else rs[|rs| - 1] + 1
  }

  lemma {:induction false} KeptBelow(rs: seq<nat>, p: nat -> bool)
    requires Stutters(rs)
    ensures forall i | 0 <= i < |Kept(rs, p)| :: Kept(rs, p)[i] < Reached(rs)
    ensures rs != [] && p(rs[|rs| - 1]) ==> Kept(rs, p) != [] && Kept(rs, p)[|Kept(rs, p)| - 1] == rs[|rs| - 1]
  {
    if rs != [] { KeptBelow(rs[..|rs| - 1], p); }
  }

  lemma KeptRange(m: nat, p: nat -> bool)
    ensures Kept(Range(0, m + 1), p) == Kept(Range(0, m), p) + (if p(m) then [m] else [])
  {
    assert Range(0, m + 1)[..m] == Range(0, m);
  }

  lemma CollapseAppend(rs: seq<nat>, r: nat)
    ensures Collapse(rs + [r])
            == if rs != [] && rs[|rs| - 1] == r then Collapse(rs) else Collapse(rs) + [r]
  {
    assert (rs + [r])[..|rs|] == rs;
  }

  /**
   For any selection of rows, such as those of one topic, the selected rows that arrived are, up
   to immediate repeats, the selected rows enqueued so far, in enqueue order and without a gap.
   */
  lemma {:induction false} SelectionInOrder(rs: seq<nat>, p: nat -> bool)
    requires Stutters(rs)
    ensures Collapse(Kept(rs, p)) == Kept(Range(0, Reached(rs)), p)
  {
    if rs != [] {
      var r, before := rs[|rs| - 1], rs[..|rs| - 1];
      SelectionInOrder(before, p);
      KeptBelow(before, p);
      KeptRange(r, p);
      if p(r) { CollapseAppend(Kept(before, p), r); }
      if Reached(before) == r { assert p(r) ==> Kept(before, p) == [] || Kept(before, p)[|Kept(before, p)| - 1] != r; }
    }
  }

  predicate OnTopic(log: seq<Engine.Row>, topic: Engine.Topic, row: nat) {
    row < |log| && log[row].topic == topic
  }

  /** Rows of a selection that arrived, immediate repeats removed. */
  function Arrived(n: Net, p: nat -> bool): seq<nat> {
    Collapse(Kept(RowsOf(n.received), p))
  }

  lemma ArrivedInOrder(n: Net, p: nat -> bool)
    requires Inv(n)
    ensures Reached(RowsOf(n.received)) <= n.rows
    ensures Arrived(n, p) == Kept(Range(0, Reached(RowsOf(n.received))), p)
  {
    ReachedWithin(n);
    SelectionInOrder(RowsOf(n.received), p);
  }

  /** What the Broker received on a topic is what was enqueued for it, in order, repeats aside. */
  lemma TopicInOrder(hs: seq<Happening>, topic: Engine.Topic)
    ensures var s := History(ORIGIN, hs);
            var reached := Reached(RowsOf(s.net.received));
            && reached <= |s.tables.log|
            && Arrived(s.net, (row: nat) => OnTopic(s.tables.log, topic, row))
               == Kept(Range(0, reached), (row: nat) => OnTopic(s.tables.log, topic, row))
  {
    HistoryKeeps(ORIGIN, hs);
    var s := History(ORIGIN, hs);
    ArrivedInOrder(s.net, (row: nat) => OnTopic(s.tables.log, topic, row));
  }

  /** The Broker holds no row that was never enqueued. */
  lemma ReachedWithin(n: Net)
    requires Inv(n)
    ensures Reached(RowsOf(n.received)) <= n.rows
  {
    ReceivedWithin(n);
  }

  /** On every connection the status goes out first, then the oldest row if there is one. */
  lemma StatusComesFirst(es: seq<Event>, f: Faults)
    requires var n := Run(START, es); n.mode.Running? && !n.session.connected
    ensures var n := Run(START, es);
            Step(n, ConnAck(f)).session.requests == Greeting(n.session.outbox, f)
  {
    RunKeeps(START, es);
    IdleHasNoRequests(Run(START, es));
    ConnectGreets(Run(START, es).session, f);
  }

  lemma IdleHasNoRequests(n: Net)
    requires Inv(n) && n.mode.Running? && !n.session.connected
    ensures n.session.requests == []
  {
  }

  lemma ConnectGreets(s: SessionState, f: Faults)
    requires s.requests == []
    ensures Connected(s, f).requests == Greeting(s.outbox, f)
  {
  }

  function Greeting(outbox: seq<nat>, f: Faults): seq<Publication> {
    if f.queue then [] else if f.read || outbox == [] then [Status] else [Status, Outbox(outbox[0])]
  }

  // ---------------------------------------------------------------------------
  // Sequence numbers of a series
  // ---------------------------------------------------------------------------

  predicate OfSeries(log: seq<Engine.Row>, series: nat, row: nat) {
    row < |log| && EngineRuns.InSeries(log[row], series)
  }

  lemma {:induction false} SeriesPrefix(log: seq<Engine.Row>, m: nat, series: nat)
    requires m <= |log|
    ensures EngineRuns.SeriesRows(log[..m], series) <= EngineRuns.SeriesRows(log, series)
    decreases |log|
  {
    if m == |log| {
      assert log[..m] == log;
    } else {
      SeriesPrefix(log[..|log| - 1], m, series);
      assert log[..|log| - 1][..m] == log[..m];
    }
  }

  /** The rows of a series among the first m are the series' observations, one for one. */
  lemma {:induction false} SelectedSeries(log: seq<Engine.Row>, m: nat, series: nat)
    requires m <= |log|
    ensures var rows := Kept(Range(0, m), (row: nat) => OfSeries(log, series, row));
            var os := EngineRuns.SeriesRows(log[..m], series);
            && |rows| == |os|
            && forall i | 0 <= i < |rows| :: OfSeries(log, series, rows[i]) && log[rows[i]].payload.value == os[i]
  {
    if m > 0 {
      SelectedSeries(log, m - 1, series);
      KeptRange(m - 1, (row: nat) => OfSeries(log, series, row));
      assert log[..m][..m - 1] == log[..m - 1];
    } else {
      assert Range(0, 0) == [];
    }
  }

  /** Row numbers whose observations carry sequences 1, 2, 3, ... of the series. */
  predicate ReadsFromOne(log: seq<Engine.Row>, series: nat, rows: seq<nat>) {
    forall i | 0 <= i < |rows| :: OfSeries(log, series, rows[i]) && log[rows[i]].payload.value.sequence == i + 1
  }

  lemma PrefixReadsFromOne(log: seq<Engine.Row>, m: nat, series: nat)
    requires m <= |log| && EngineRuns.Numbered(EngineRuns.SeriesRows(log, series))
    ensures ReadsFromOne(log, series, Kept(Range(0, m), (row: nat) => OfSeries(log, series, row)))
  {
    SelectedSeries(log, m, series);
    SeriesPrefix(log, m, series);
    var rows := Kept(Range(0, m), (row: nat) => OfSeries(log, series, row));
    var os, all := EngineRuns.SeriesRows(log[..m], series), EngineRuns.SeriesRows(log, series);
    forall i | 0 <= i < |rows| ensures log[rows[i]].payload.value.sequence == i + 1 {
      assert os[i] == all[i];
    }
  }

  /**
   Over any history of engine operations and network events, the Broker reads every series as
   1, 2, 3, ... with no gap, repeats of the latest publication aside.
   */
  lemma SeriesReadsFromOne(hs: seq<Happening>, series: nat)
    ensures var s := History(ORIGIN, hs);
            ReadsFromOne(s.tables.log, series, Arrived(s.net, (row: nat) => OfSeries(s.tables.log, series, row)))
  {
    HistoryKeeps(ORIGIN, hs);
    var s := History(ORIGIN, hs);
    ArrivedInOrder(s.net, (row: nat) => OfSeries(s.tables.log, series, row));
    assert EngineRuns.Numbered(EngineRuns.SeriesRows(s.tables.log, series));
    PrefixReadsFromOne(s.tables.log, Reached(RowsOf(s.net.received)), series);
  }

  // ---------------------------------------------------------------------------
  // Graceful offline
  // ---------------------------------------------------------------------------

  /** What the Broker will have received once everything handed to the client has arrived. */
  function Expected(n: Net): seq<Publication> {
    n.received + Carried(n.wire) + n.session.requests
  }

  predicate NoCrash(es: seq<Event>) {
    forall i | 0 <= i < |es| :: !es[i].Crash?
  }

  /**
   A shutdown reported as acknowledged although the Broker has not received everything under way
   followed by the `offline` status.
   */
  predicate Misled(n: Net, f: Faults, es: seq<Event>) {
    var n' := Run(Step(n, Shutdown(f)), es);
    n'.mode == Stopped(true) && n'.received != Expected(n) + [Status]
  }

  /** No publication waits for its packet id; or, if `offline` cannot be queued, none is pending. */
  predicate OfflineSafe(s: SessionState, f: Faults) {
    if f.queue then s.pending == [] else forall i | 0 <= i < |s.pending| :: s.pending[i].pkid.Some?
  }

  lemma ExpectedWrite(n: Net)
    requires n.session.requests != []
    ensures Expected(WriteNext(n)) == Expected(n)
  {
    var p := n.session.requests[0];
    assert Carried(n.wire + [Packet(n.nextPkid, p)]) == Carried(n.wire) + [p];
    assert n.session.requests == [p] + n.session.requests[1..];
  }

  lemma ExpectedDeliver(n: Net)
    requires n.wire != []
    ensures Expected(DeliverNext(n)) == Expected(n)
  {
    assert Carried(n.wire) == [n.wire[0].publication] + Carried(n.wire[1..]);
  }

  /** While `offline` is tracked: not yet written, written but not reported, or reported. */
  ghost predicate TrackingOffline(n: Net) {
    var s := n.session;
    var written := n.acks + n.wire;
    && n.mode.Draining?
    && (forall i, j | 0 <= i < j < |written| :: written[i].pkid != written[j].pkid)
    && Issued(written, n.nextPkid)
    && |s.pending| == 1 && s.pending[0].publication == Status
    && if s.requests != [] then |s.requests| == 1 && n.outs == [] && s.pending[0].pkid.None?
       else
         && written != []
         && var last := written[|written| - 1].pkid;
            (n.outs == [last] && s.pending[0].pkid.None?) || (n.outs == [] && s.pending[0].pkid == Some(last))
  }

  ghost predicate NothingToAck(n: Net) {
    n.session.pending == [] && n.session.requests == [] && n.wire == [] && n.acks == []
  }

  /** Draining towards `target`; acknowledged only once it has been received. */
  ghost predicate OfflineInv(n: Net, target: seq<Publication>) {
    match n.mode
    case Running => false
    case Draining => NothingToAck(n) || (TrackingOffline(n) && Expected(n) == target)
    case Stopped(acked) => acked ==> n.session.requests == [] && n.wire == [] && n.received == target
  }

  lemma OfflineReported(n: Net)
    requires TrackingOffline(n) && n.outs != []
    ensures TrackingOffline(n.(session := PacketWritten(n.session, n.outs[0]), outs := n.outs[1..]))
  {
    assert n.session.pending == [n.session.pending[0]];
    assert FirstIndex(n.session.pending, None) == 0;
  }

  lemma OfflineWritten(n: Net)
    requires TrackingOffline(n) && n.session.requests != []
    ensures TrackingOffline(WriteNext(n))
  {
    var n' := WriteNext(n);
    assert n'.acks + n'.wire == n.acks + n.wire + [Packet(n.nextPkid, n.session.requests[0])];
  }

  lemma OfflineDelivered(n: Net)
    requires TrackingOffline(n) && n.wire != []
    ensures TrackingOffline(DeliverNext(n))
  {
    Rotate(n.acks, n.wire);
  }

  lemma OfflineAcked(n: Net, f: Faults)
    requires TrackingOffline(n) && n.acks != [] && n.acks[0].pkid !in n.outs
    ensures var n' := ReportPuback(n, f);
            if StatusAcknowledged(n'.session) then n'.session.requests == [] && n'.wire == []
            else TrackingOffline(n')
    ensures Expected(ReportPuback(n, f)) == Expected(n)
  {
    var s, written := n.session, n.acks + n.wire;
    var pkid := n.acks[0].pkid;
    assert written[0] == n.acks[0];
    assert s.pending == [s.pending[0]];
    assert n.acks[1..] + n.wire == written[1..];
    FirstIndexFacts(s.pending, Some(pkid));
    if s.pending[0].pkid == Some(pkid) {
      assert |written| == 1;
    } else {
      assert s.requests == [] ==> |written| > 1;
    }
  }

  lemma OfflineStep(n: Net, e: Event, target: seq<Publication>)
    requires OfflineInv(n, target) && !e.Crash?
    ensures OfflineInv(Step(n, e), target)
  {
    if n.mode.Draining? && !NothingToAck(n) {
      if e.Write? && n.session.connected && n.session.requests != [] { OfflineWritten(n); ExpectedWrite(n); }
      if e.Deliver? && n.wire != [] { OfflineDelivered(n); ExpectedDeliver(n); }
      if e.WriteReported? && n.outs != [] { OfflineReported(n); }
      if e.PubackReported? && n.acks != [] && n.acks[0].pkid !in n.outs { OfflineAcked(n, e.f); }
    }
  }

  lemma {:induction false} OfflineRun(n: Net, es: seq<Event>, target: seq<Publication>)
    requires OfflineInv(n, target) && NoCrash(es)
    ensures OfflineInv(Run(n, es), target)
    decreases |es|
  {
    if es != [] {
      OfflineStep(n, es[0], target);
      OfflineRun(Step(n, es[0]), es[1..], target);
    }
  }

  /** Anything not written, or written but not reported, leaves the last pending entry without an id. */
  lemma LastIsWaiting(s: SessionState, written: seq<Packet>, outs: seq<nat>)
    requires Aligned(s, written, outs)
    ensures s.requests != [] || outs != [] ==> s.pending != [] && s.pending[|s.pending| - 1].pkid == None
  {
  }

  /** With every write reported, shutdown starts out tracking the right packet. */
  lemma SafeStart(n: Net, f: Faults)
    requires Inv(n) && n.mode.Running? && n.session.connected && OfflineSafe(n.session, f)
    ensures OfflineInv(Step(n, Shutdown(f)), Expected(n) + [Status])
  {
    var s, written := n.session, n.acks + n.wire;
    if f.queue {
      assert NothingToAck(Step(n, Shutdown(f)));
    } else {
      LastIsWaiting(s, written, n.outs);
      assert Issued(written, n.nextPkid);
    }
  }

  /** Once `offline` is mistaken for packet k on its way, that packet's PUBACK ends the wait. */
  lemma {:induction false} MistakenAck(n: Net, pkid: nat, k: nat) returns (es: seq<Event>)
    requires n.mode.Draining? && n.session.pending == [Pending(Status, Some(pkid))] && n.session.requests != []
    requires var written := n.acks + n.wire;
             && k < |written| && written[k].pkid == pkid
             && (forall i | 0 <= i < k :: written[i].pkid != pkid)
             && (forall i | 0 <= i <= k :: written[i].pkid !in n.outs)
    ensures NoCrash(es) && Run(n, es).mode == Stopped(true) && |Run(n, es).received| < |Expected(n)|
    decreases k, n.acks == []
  {
    var written := n.acks + n.wire;
    if n.acks == [] {
      Rotate(n.acks, n.wire);
      ExpectedDeliver(n);
      var rest := MistakenAck(DeliverNext(n), pkid, k);
      es := [Deliver] + rest;
      assert es[0] == Deliver && es[1..] == rest;
    } else {
      assert written[0] == n.acks[0];
      var n1 := Step(n, PubackReported(CALM));
      FirstIndexFacts(n.session.pending, Some(n.acks[0].pkid));
      if k == 0 {
        es := [PubackReported(CALM)];
        assert Run(n, es) == Run(n1, []);
      } else {
        assert n1.acks + n1.wire == written[1..];
        var rest := MistakenAck(n1, pkid, k - 1);
        es := [PubackReported(CALM)] + rest;
        assert es[0] == PubackReported(CALM) && es[1..] == rest;
      }
    }
  }

  /** A publication whose write is reported after shutdown is mistaken for `offline`. */
  lemma MistakenReport(n: Net, k: nat) returns (es: seq<Event>)
    requires n.mode.Draining? && n.session.pending == [Pending(Status, None)] && n.session.requests != []
    requires var written := n.acks + n.wire;
             && n.outs != [] && k < |written| && written[k].pkid == n.outs[0]
             && (forall i | 0 <= i < k :: written[i].pkid < n.outs[0])
             && (forall i, j | 0 <= i < j < |n.outs| :: n.outs[i] < n.outs[j])
    ensures NoCrash(es) && Run(n, es).mode == Stopped(true) && |Run(n, es).received| < |Expected(n)|
  {
    var n1 := Step(n, WriteReported);
    assert FirstIndex(n.session.pending, None) == 0;
    assert n1.session.pending == [Pending(Status, Some(n.outs[0]))];
    var rest := MistakenAck(n1, n.outs[0], k);
    es := [WriteReported] + rest;
    assert es[0] == WriteReported && es[1..] == rest;
  }

  /** Shutdown while a write is still unreported. */
  lemma UnsafeReport(n: Net, f: Faults) returns (es: seq<Event>)
    requires Inv(n) && n.mode.Running? && n.session.connected && !f.queue && n.outs != []
    ensures NoCrash(es) && Run(Step(n, Shutdown(f)), es).mode == Stopped(true)
    ensures |Run(Step(n, Shutdown(f)), es).received| < |Expected(n)| + 1
  {
    var n1 := Step(n, Shutdown(f));
    assert Expected(n1) == Expected(n) + [Status];
    es := MistakenReport(n1, |n.acks + n.wire| - |n.outs|);
  }

  /** Shutdown while a request is still unwritten. */
  lemma UnsafeWrite(n: Net, f: Faults) returns (es: seq<Event>)
    requires Inv(n) && n.mode.Running? && n.session.connected && !f.queue && n.outs == [] && n.session.requests != []
    ensures NoCrash(es) && Run(Step(n, Shutdown(f)), es).mode == Stopped(true)
    ensures |Run(Step(n, Shutdown(f)), es).received| < |Expected(n)| + 1
  {
    var n1 := Step(n, Shutdown(f));
    var written := n.acks + n.wire;
    assert Expected(n1) == Expected(n) + [Status];
    var n2 := Step(n1, Write);
    ExpectedWrite(n1);
    assert n2.acks + n2.wire == written + [Packet(n.nextPkid, n1.session.requests[0])];
    assert Issued(written, n.nextPkid);
    var rest := MistakenReport(n2, |written|);
    es := [Write] + rest;
    assert es[0] == Write && es[1..] == rest;
  }

  /** With a write not reported at shutdown, some continuation is reported as acknowledged too early. */
  lemma UnsafeRun(n: Net, f: Faults) returns (es: seq<Event>)
    requires Inv(n) && n.mode.Running? && n.session.connected && !OfflineSafe(n.session, f) && !f.queue
    ensures NoCrash(es) && Misled(n, f, es)
  {
    if n.outs != [] {
      es := UnsafeReport(n, f);
    } else {
      var i :| 0 <= i < |n.session.pending| && n.session.pending[i].pkid.None?;
      assert i >= |n.acks + n.wire|;
      es := UnsafeWrite(n, f);
    }
  }

  /** If `offline` was never queued, the PUBACK of anything still under way ends the wait. */
  lemma {:induction false} StrayAck(n: Net) returns (es: seq<Event>)
    requires n.mode.Draining? && n.session.connected && n.session.pending == []
    requires n.acks + n.wire != [] || n.session.requests != []
    ensures NoCrash(es) && Run(n, es).mode == Stopped(true) && |Run(n, es).received| <= |Expected(n)|
    decreases |n.session.requests|, |n.wire|, |n.outs|
  {
    var e := if n.outs != [] then WriteReported
             else if n.acks != [] then PubackReported(CALM)
             else if n.wire != [] then Deliver else Write;
    var n1 := Step(n, e);
    if n.outs == [] && n.acks != [] {
      es := [e];
      assert Run(n, es) == Run(n1, []);
    } else {
      if n.outs == [] && n.wire != [] { ExpectedDeliver(n); }
      if n.outs == [] && n.wire == [] { ExpectedWrite(n); }
      var rest := StrayAck(n1);
      es := [e] + rest;
      assert es[0] == e && es[1..] == rest;
    }
  }

  /**
   The acknowledgement of the graceful `offline` can be trusted, however the network goes on,
   exactly when at shutdown no publication is waiting for its packet id (or, should queueing
   `offline` fail, when nothing is pending at all).
   */
  lemma OfflineAckExact(before: seq<Event>, f: Faults)
    requires var n := Run(START, before); n.mode.Running? && n.session.connected
    ensures var n := Run(START, before);
            OfflineSafe(n.session, f) <==> forall es | NoCrash(es) :: !Misled(n, f, es)
  {
    var n := Run(START, before);
    RunKeeps(START, before);
    if OfflineSafe(n.session, f) {
      forall es | NoCrash(es) ensures !Misled(n, f, es) {
        SafeStart(n, f);
        OfflineRun(Step(n, Shutdown(f)), es, Expected(n) + [Status]);
      }
    } else if f.queue {
      var es := StrayAck(Step(n, Shutdown(f)));
      assert Misled(n, f, es);
    } else {
      var es := UnsafeRun(n, f);
    }
  }

  /**
   The failing case is reached at once: shut down right after connecting, before the first status
   is written, and some continuation is reported as acknowledged although `offline` never arrived.
   */
  lemma OfflineAckCanMislead()
    ensures var n := Run(START, [ConnAck(CALM)]);
            && n.mode.Running? && n.session.connected && !OfflineSafe(n.session, CALM)
            && exists es :: NoCrash(es) && Misled(n, CALM, es)
  {
    var es := [ConnAck(CALM)];
    var n := Step(START, ConnAck(CALM));
    assert es[1..] == [] && Run(START, es) == Run(n, es[1..]) == n;
    assert n.session.pending == [Pending(Status, None)];
    assert n.session.pending[0].pkid.None?;
    OfflineAckExact(es, CALM);
  }
}
