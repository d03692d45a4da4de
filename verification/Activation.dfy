/**
 Activation of an Edge Node by its IoTKit Edge: from standalone through discovery-only to active,
 with a boundary below which pre-activation readings are discarded.
 */
module Activation {
  import opened Types
  import opened Ordering
  import opened Custody

  datatype ActivationState = Standalone | DiscoveryOnly | Active

  datatype Request = Request(
    schemaVersion: nat, activationId: string, edgeId: string, edgeNodeId: string, epoch: string,
    grantRevision: nat, issuedAt: int)

  datatype Outcome = Outcome(
    activationId: string, edgeId: string, edgeNodeId: string, epoch: string,
    discardThrough: nat, firstPublication: nat, appliedAt: int)

  /** The singleton activation row; a migrated active node has no boundary. */
  datatype Row = Row(
    state: ActivationState, request: Option<Request>, outcome: Option<Outcome>, boundary: Option<nat>, progress: nat)

  datatype Target = Target(cursorEpoch: Option<string>, cursor: nat)

  /** `lastReading` and `lastPublication` are the highest numbers ever allocated. */
  datatype Node = Node(
    id: string, epoch: string, row: Row, targets: seq<Target>, store: Store, lastReading: nat, lastPublication: nat)

  datatype Error = Invalid | NoBoundary

  // ---------------------------------------------------------------------------
  // Validation
  // ---------------------------------------------------------------------------

  predicate PrefixedHex(s: string, prefix: string) {
    && |s| == |prefix| + 32 && prefix <= s
    && forall i | |prefix| <= i < |s| :: '0' <= s[i] <= '9' || 'a' <= s[i] <= 'f'
  }

  predicate Control(c: char) {
    c < ' ' || '\U{7F}' <= c <= '\U{9F}'
  }

  predicate ValidIdentity(s: string) {
    0 < |s| <= 255 && forall i | 0 <= i < |s| :: s[i] != ':' && !Control(s[i])
  }

  predicate TopicSegment(s: string) {
    ValidIdentity(s) && '/' !in s && '+' !in s && '#' !in s
  }

  predicate ValidRequest(r: Request) {
    && r.schemaVersion == 1 && PrefixedHex(r.activationId, "act-") && PrefixedHex(r.edgeId, "edge-")
    && TopicSegment(r.edgeNodeId) && ValidIdentity(r.epoch) && r.grantRevision == 1 && r.issuedAt >= 0
  }

  predicate ValidOutcome(o: Outcome) {
    && PrefixedHex(o.activationId, "act-") && PrefixedHex(o.edgeId, "edge-")
    && TopicSegment(o.edgeNodeId) && ValidIdentity(o.epoch) && o.firstPublication == 1 && o.appliedAt >= 0
  }

  // ---------------------------------------------------------------------------
  // Operations
  // ---------------------------------------------------------------------------

  predicate PublicationAdmitted(n: Node) {
    n.row.state != DiscoveryOnly
  }

  predicate UnusedStream(n: Node) {
    n.store.publications == map[] && n.lastPublication == 0
  }

  function Install(n: Node, t: Target): Result<Node, Error> {
    if t.cursor != 0 || t.cursorEpoch.Some? then Err(Invalid)
    else if n.row.state != Standalone || n.targets != [] || !UnusedStream(n) then Err(Invalid)
    else Ok(n.(targets := [t], row := n.row.(state := DiscoveryOnly)))
  }

  /** Highest reading number present, or 0. */
  ghost function MaxReading(rs: map<nat, Reading>): nat {
    if rs == map[] then 0 else var ids := Sorted(rs.Keys); if ids == [] then 0 else ids[|ids| - 1]
  }

  ghost function Apply(n: Node, r: Request, now: int): Result<(Node, Outcome), Error> {
    if !ValidRequest(r) || now < 0 || r.edgeNodeId != n.id || r.epoch != n.epoch then Err(Invalid)
    else
      match n.row.state
      case Active =>
        if n.row.request != Some(r) || n.row.outcome.None? || !ValidOutcome(n.row.outcome.value) then Err(Invalid)
        else Ok((n, n.row.outcome.value))
      case Standalone => Err(Invalid)
      case DiscoveryOnly =>
        if |n.targets| != 1 || n.targets[0].cursor != 0 || n.targets[0].cursorEpoch.Some? || !UnusedStream(n)
        then Err(Invalid)
        else
          var boundary := MaxReading(n.store.readings);
          var o := Outcome(r.activationId, r.edgeId, n.id, n.epoch, boundary, 1, now);
          Ok((n.(row := Row(Active, Some(r), Some(o), Some(boundary), 0)), o))
  }

  /** Readings after the progress mark and up to the boundary, in order. */
  ghost function Pending(n: Node, boundary: nat): seq<nat> {
    Sorted(InRange(n.store, n.row.progress, boundary))
  }

  function InRange(st: Store, lo: nat, hi: nat): set<nat> {
    set s | s in st.readings && lo < s <= hi
  }

  function DeleteRange(st: Store, lo: nat, hi: nat): Store {
    st.(readings := st.readings - InRange(st, lo, hi))
  }

  ghost function Cleanup(n: Node, limit: nat): Result<(Node, nat), Error> {
    if limit == 0 || n.row.state != Active then Ok((n, 0))
    else if n.row.boundary.None? then Err(NoBoundary)
    else
      var boundary := n.row.boundary.value;
      var pending := Pending(n, boundary);
      if pending == [] then
        Ok((if n.row.progress < boundary then n.(row := n.row.(progress := boundary)) else n, 0))
      else
        var end := pending[(if limit < |pending| then limit else |pending|) - 1];
        Ok((n.(store := DeleteRange(n.store, n.row.progress, end), row := n.row.(progress := end)),
            |InRange(n.store, n.row.progress, end)|))
  }

  /** A reading is stored under a new number and, if admitted and not quarantined, published. */
  function Insert(n: Node, r: Reading): Node {
    var s := n.lastReading + 1;
    var n1 := n.(lastReading := s, store := n.store.(readings := n.store.readings[s := r]));
    if r.quarantined || !PublicationAdmitted(n) then n1 else Enqueue(n1, Publication(n.epoch, Measurement, Some(s)))
  }

  function Enqueue(n: Node, p: Publication): Node {
    var k := n.lastPublication + 1;
    n.(lastPublication := k, store := n.store.(publications := n.store.publications[k := p]))
  }

  /** A cursor of another epoch counts for nothing. */
  function EffectiveCursor(epoch: string, t: Target): nat {
    if t.cursorEpoch == Some(epoch) then t.cursor else 0
  }

  predicate Unacked(n: Node, t: Target) {
    exists k :: k in n.store.publications && n.store.publications[k].epoch == n.epoch && k > EffectiveCursor(n.epoch, t)
  }

  /** The operator's own registration, whatever the activation state. */
  function AddTarget(n: Node): Result<Node, Error> {
    if n.targets != [] then Err(Invalid) else Ok(n.(targets := [Target(None, 0)]))
  }

  function RemoveTarget(n: Node, abandon: bool): Result<Node, Error> {
    if n.targets == [] || (!abandon && Unacked(n, n.targets[0])) then Err(Invalid) else Ok(n.(targets := n.targets[1..]))
  }

  // ---------------------------------------------------------------------------
  // Runs
  // ---------------------------------------------------------------------------

  datatype Op =
    | InstallOp(t: Target)
    | AddTargetOp
    | RemoveTargetOp(abandon: bool)
    | RenewEpochOp(epoch: string)
    | ApplyOp(r: Request, now: int)
    | CleanupOp(limit: nat)
    | InsertOp(reading: Reading)
    | NoteOp(kind: Kind)
    | PurgeOp(cutoff: int, cursor: Option<int>)
    | AckOp(target: nat, accepted: nat)

  ghost function Step(n: Node, op: Op): Node {
    match op
    case InstallOp(t) => (match Install(n, t) case Ok(n') => n' case Err(_) => n)
    case AddTargetOp => (match AddTarget(n) case Ok(n') => n' case Err(_) => n)
    case RemoveTargetOp(abandon) => (match RemoveTarget(n, abandon) case Ok(n') => n' case Err(_) => n)
    case RenewEpochOp(epoch) => n.(epoch := epoch)
    case ApplyOp(r, now) => (match Apply(n, r, now) case Ok((n', _)) => n' case Err(_) => n)
    case CleanupOp(limit) => (match Cleanup(n, limit) case Ok((n', _)) => n' case Err(_) => n)
    case InsertOp(reading) => Insert(n, reading)
    case NoteOp(kind) =>
      if PublicationAdmitted(n) && kind != Measurement then Enqueue(n, Publication(n.epoch, kind, None)) else n
    case PurgeOp(cutoff, cursor) => n.(store := Purged(n.store, cutoff, n.epoch, cursor))
    case AckOp(target, cursor) =>
      if target < |n.targets| then n.(targets := n.targets[target := Target(Some(n.epoch), cursor)]) else n
  }

  ghost function Run(n: Node, ops: seq<Op>): Node
    decreases |ops|
  {
    if ops == [] then n else Run(Step(n, ops[0]), ops[1..])
  }

  function Rank(s: ActivationState): nat {
    match s case Standalone => 0 case DiscoveryOnly => 1 case Active => 2
  }

  /**
   No publication names a reading at or below the boundary or one that is gone; numbers stay below
   their high marks.
   */
  ghost predicate Inv(n: Node) {
    && Sound(n.store)
    && (forall s | s in n.store.readings :: 1 <= s <= n.lastReading)
    && (n.row.boundary.Some? ==>
          && n.row.boundary.value <= n.lastReading
          && n.row.progress <= n.row.boundary.value
          && (forall s | s in n.store.readings :: s > n.row.progress)
          && (forall k | k in n.store.publications && n.store.publications[k].reading.Some? ::
                n.store.publications[k].reading.value > n.row.boundary.value))
    && (n.row.outcome.Some? ==> ValidOutcome(n.row.outcome.value))
    && (n.row.state == Active <==> n.row.boundary.Some?)
    && (forall k | k in n.store.publications :: 1 <= k <= n.lastPublication)
    && (n.row.state == DiscoveryOnly ==> UnusedStream(n))
    && |n.targets| <= 1
  }

  lemma MaxReadingBounds(rs: map<nat, Reading>, high: nat)
    requires forall s | s in rs :: s <= high
    ensures MaxReading(rs) <= high
    ensures forall s | s in rs :: s <= MaxReading(rs)
    ensures MaxReading(rs) in rs || (MaxReading(rs) == 0 && rs == map[])
  {
    SortedFacts(rs.Keys);
    var ids := Sorted(rs.Keys);
    forall s | s in rs ensures s <= MaxReading(rs) {
      assert s in ids;
      var i :| 0 <= i < |ids| && ids[i] == s;
    }
    if rs != map[] {
      var s :| s in rs.Keys;
      assert s in ids;
      assert ids[|ids| - 1] in rs.Keys;
    }
  }

  lemma CleanupEnd(n: Node, limit: nat)
    requires n.row.boundary.Some? && limit > 0 && Pending(n, n.row.boundary.value) != []
    ensures var pending := Pending(n, n.row.boundary.value);
            n.row.progress < pending[(if limit < |pending| then limit else |pending|) - 1] <= n.row.boundary.value
  {
    SortedFacts(InRange(n.store, n.row.progress, n.row.boundary.value));
  }

  lemma CleanupKeeps(n: Node, limit: nat)
    requires Inv(n) && Cleanup(n, limit).Ok?
    ensures Inv(Cleanup(n, limit).value.0)
  {
    if limit > 0 && n.row.state == Active {
      if Pending(n, n.row.boundary.value) != [] {
        CleanupEnd(n, limit);
      } else {
        NothingPending(n);
        assert forall s | s in n.store.readings && n.row.progress < s <= n.row.boundary.value ::
          s in InRange(n.store, n.row.progress, n.row.boundary.value);
      }
    }
  }

  lemma ApplyKeeps(n: Node, r: Request, now: int)
    requires Inv(n) && Apply(n, r, now).Ok?
    ensures Inv(Apply(n, r, now).value.0)
  {
    MaxReadingBounds(n.store.readings, n.lastReading);
  }

  lemma PurgeKeeps(n: Node, cutoff: int, cursor: Option<int>)
    requires Inv(n)
    ensures Inv(n.(store := Purged(n.store, cutoff, n.epoch, cursor)))
  {
    PurgeKeepsCustody(n.store, cutoff, n.epoch, cursor);
  }

  /** The state moves at most one step, and only forward. */
  lemma StepForward(n: Node, op: Op)
    ensures Rank(n.row.state) <= Rank(Step(n, op).row.state) <= Rank(n.row.state) + 1
  {
  }

  lemma StepKeeps(n: Node, op: Op)
    requires Inv(n)
    ensures Inv(Step(n, op))
  {
    match op
    case ApplyOp(r, now) => if Apply(n, r, now).Ok? { ApplyKeeps(n, r, now); }
    case CleanupOp(limit) => if Cleanup(n, limit).Ok? { CleanupKeeps(n, limit); }
    case PurgeOp(cutoff, cursor) => PurgeKeeps(n, cutoff, cursor);
    case _ =>
  }

  lemma NothingPending(n: Node)
    requires n.row.boundary.Some?
    ensures Pending(n, n.row.boundary.value) == []
            ==> InRange(n.store, n.row.progress, n.row.boundary.value) == {}
  {
    SortedFacts(InRange(n.store, n.row.progress, n.row.boundary.value));
  }

  lemma {:induction false} RunKeeps(n: Node, ops: seq<Op>)
    requires Inv(n)
    ensures Inv(Run(n, ops)) && Rank(n.row.state) <= Rank(Run(n, ops).row.state)
    decreases |ops|
  {
    if ops != [] {
      StepKeeps(n, ops[0]);
      StepForward(n, ops[0]);
      RunKeeps(Step(n, ops[0]), ops[1..]);
    }
  }

  /** A node that has never been anything but standalone. */
  function Unused(id: string, epoch: string): Node {
    Node(id, epoch, Row(Standalone, None, None, None, 0), [], Store(map[], map[]), 0, 0)
  }

  /** Once active, the stored request, result and boundary never change. */
  lemma StepKeepsOutcome(n: Node, op: Op)
    requires n.row.state == Active
    ensures var n' := Step(n, op);
            && n'.row.state == Active && n'.row.request == n.row.request && n'.row.outcome == n.row.outcome
            && n'.row.boundary == n.row.boundary && n'.id == n.id
  {
  }

  lemma {:induction false} RunKeepsOutcome(n: Node, ops: seq<Op>)
    requires n.row.state == Active
    ensures var n' := Run(n, ops);
            && n'.row.state == Active && n'.row.request == n.row.request && n'.row.outcome == n.row.outcome
            && n'.row.boundary == n.row.boundary && n'.id == n.id
    decreases |ops|
  {
    if ops != [] {
      StepKeepsOutcome(n, ops[0]);
      RunKeepsOutcome(Step(n, ops[0]), ops[1..]);
    }
  }

  /**
   After an activation succeeds, replaying the same request at any later time returns the very
   same result and changes nothing, exactly as long as the ledger epoch is the one it was made for;
   any other request is refused.
   */
  lemma ActivationReplays(
    id: string, epoch: string, before: seq<Op>, r: Request, now: int, after: seq<Op>, other: Request, later: int)
    requires Apply(Run(Unused(id, epoch), before), r, now).Ok?
    requires later >= 0
    ensures var (n, o) := Apply(Run(Unused(id, epoch), before), r, now).value;
            var n' := Run(n, after);
            && Apply(n', r, later) == (if n'.epoch == r.epoch then Ok((n', o)) else Err(Invalid))
            && (other != r ==> Apply(n', other, later).Err?)
  {
    var n0 := Run(Unused(id, epoch), before);
    RunKeeps(Unused(id, epoch), before);
    MaxReadingBounds(n0.store.readings, n0.lastReading);
    var (n, o) := Apply(n0, r, now).value;
    RunKeepsOutcome(n, after);
  }

  /**
   While a node is discovery-only nothing can be published, so a request is applied exactly when it
   is valid and for this node and epoch and the one target's cursor is unused; its boundary covers
   every reading, and the first publication afterwards is number 1.
   */
  lemma ActivationSucceeds(id: string, epoch: string, ops: seq<Op>, r: Request, now: int)
    requires Run(Unused(id, epoch), ops).row.state == DiscoveryOnly
    ensures var n := Run(Unused(id, epoch), ops);
            && n.store.publications == map[]
            && (Apply(n, r, now).Ok?
                <==> ValidRequest(r) && now >= 0 && r.edgeNodeId == id && r.epoch == n.epoch
                     && n.targets == [Target(None, 0)])
            && (Apply(n, r, now).Ok? ==>
                  var (n', o) := Apply(n, r, now).value;
                  && n' == n.(row := n'.row) && n'.row.state == Active && n'.row.progress == 0
                  && n'.row.request == Some(r) && n'.row.outcome == Some(o) && n'.row.boundary == Some(o.discardThrough)
                  && o == Outcome(r.activationId, r.edgeId, id, n.epoch, o.discardThrough, 1, now)
                  && (o.discardThrough in n.store.readings || (o.discardThrough == 0 && n.store.readings == map[]))
                  && o.firstPublication == n'.lastPublication + 1
                  && forall s | s in n.store.readings :: s <= o.discardThrough)
  {
    RunKeeps(Unused(id, epoch), ops);
    RunKeepsIdentity(Unused(id, epoch), ops);
    var n := Run(Unused(id, epoch), ops);
    MaxReadingBounds(n.store.readings, n.lastReading);
    if |n.targets| == 1 { assert n.targets == [n.targets[0]]; }
  }

  lemma {:induction false} RunKeepsIdentity(n: Node, ops: seq<Op>)
    ensures Run(n, ops).id == n.id
    decreases |ops|
  {
    if ops != [] { RunKeepsIdentity(Step(n, ops[0]), ops[1..]); }
  }

  /**
   Every reading is stored under a number never used before; unless it is quarantined, or the node
   is discovery-only, it is also published, under a number never used before and the current epoch.
   */
  lemma InsertExact(id: string, epoch: string, ops: seq<Op>, r: Reading)
    ensures var n := Run(Unused(id, epoch), ops);
            var n' := Step(n, InsertOp(r));
            var s, k := n.lastReading + 1, n.lastPublication + 1;
            && s !in n.store.readings && k !in n.store.publications
            && n'.store.readings == n.store.readings[s := r] && n'.lastReading == s
            && (if !r.quarantined && n.row.state != DiscoveryOnly
                then n'.lastPublication == k
                     && n'.store.publications == n.store.publications[k := Publication(n.epoch, Measurement, Some(s))]
                else n'.lastPublication == n.lastPublication && n'.store.publications == n.store.publications)
            && n'.row == n.row && n'.targets == n.targets
  {
    RunKeeps(Unused(id, epoch), ops);
  }

  /** A target can be installed once, on a standalone node that never published anything. */
  lemma InstallExact(n: Node, t: Target)
    ensures Install(n, t).Ok?
            <==> && t == Target(None, 0) && n.row.state == Standalone && n.targets == []
                 && n.store.publications == map[] && n.lastPublication == 0
    ensures Install(n, t).Ok? ==> Install(n, t).value == n.(targets := [t], row := n.row.(state := DiscoveryOnly))
  {
  }

  /** Annotations and smoke tests are published like readings, under numbers of their own, but of no reading. */
  lemma NoteExact(n: Node, kind: Kind)
    ensures Step(n, NoteOp(kind))
            == if kind == Measurement || n.row.state == DiscoveryOnly then n
               else n.(lastPublication := n.lastPublication + 1,
                       store := n.store.(publications := n.store.publications[n.lastPublication + 1 := Publication(n.epoch, kind, None)]))
  {
  }

  /** A target leaves only with everything acknowledged in the current epoch, or when custody is abandoned. */
  lemma RemoveExact(n: Node, abandon: bool)
    ensures RemoveTarget(n, abandon).Ok?
            <==> && n.targets != []
                 && (abandon
                     || forall k | k in n.store.publications && n.store.publications[k].epoch == n.epoch ::
                          k == 0 || (n.targets[0].cursorEpoch == Some(n.epoch) && k <= n.targets[0].cursor))
    ensures RemoveTarget(n, abandon).Ok? ==> RemoveTarget(n, abandon).value == n.(targets := n.targets[1..])
    ensures AddTarget(n).Ok? <==> n.targets == []
    ensures AddTarget(n).Ok? ==> AddTarget(n).value == n.(targets := [Target(None, 0)])
  {
  }

  const HEX: set<char> := {'0', '1', '2', '3', '4', '5', '6', '7', '8', '9', 'a', 'b', 'c', 'd', 'e', 'f'}

  /** Identifiers on the wire: a fixed prefix and 32 lower-case hexadecimal digits. */
  predicate HexId(s: string, prefix: string) {
    && |s| == |prefix| + 32 && s[..|prefix|] == prefix
    && forall i | |prefix| <= i < |s| :: s[i] in HEX
  }

  /** Names without separators, wildcards or control characters. */
  predicate Plain(s: string, banned: set<char>) {
    1 <= |s| <= 255 && forall i | 0 <= i < |s| :: s[i] !in banned && !('\0' <= s[i] <= '\U{1F}' || '\U{7F}' <= s[i] <= '\U{9F}')
  }

  /** What a request must look like. */
  lemma RequestExact(r: Request)
    ensures ValidRequest(r)
            <==> && r.schemaVersion == 1 && r.grantRevision == 1 && r.issuedAt >= 0
                 && HexId(r.activationId, "act-") && HexId(r.edgeId, "edge-")
                 && Plain(r.edgeNodeId, {':', '/', '+', '#'}) && Plain(r.epoch, {':'})
  {
    HexExact(r.activationId, "act-");
    HexExact(r.edgeId, "edge-");
    PlainExact(r.edgeNodeId);
    PlainExact(r.epoch);
  }

  lemma PlainExact(s: string)
    ensures TopicSegment(s) <==> Plain(s, {':', '/', '+', '#'})
    ensures ValidIdentity(s) <==> Plain(s, {':'})
  {
    assert forall c: char :: Control(c) <==> '\0' <= c <= '\U{1F}' || '\U{7F}' <= c <= '\U{9F}';
  }

  lemma HexExact(s: string, prefix: string)
    ensures PrefixedHex(s, prefix) <==> HexId(s, prefix)
  {
    assert forall c: char :: c in HEX <==> '0' <= c <= '9' || 'a' <= c <= 'f';
    assert |prefix| <= |s| ==> (prefix <= s <==> s[..|prefix|] == prefix);
  }

  /** Whatever the run, no measurement publication points at a reading that is gone. */
  lemma CustodyHolds(id: string, epoch: string, ops: seq<Op>)
    ensures Sound(Run(Unused(id, epoch), ops).store)
  {
    RunKeeps(Unused(id, epoch), ops);
  }

  /**
   Pre-activation cleanup, in any reachable state and for any batch size, deletes only readings
   at or below the boundary and none that a publication refers to; when it reports nothing left,
   no reading at or below the boundary remains.
   */
  lemma CleanupIsSafe(id: string, epoch: string, ops: seq<Op>, limit: nat)
    ensures var n := Run(Unused(id, epoch), ops);
            var r := Cleanup(n, limit);
            && r.Ok?
            && var (n', deleted) := r.value;
               && n'.store.publications == n.store.publications
               && (forall s | s in n'.store.readings :: s in n.store.readings && n'.store.readings[s] == n.store.readings[s])
               && (forall s | s in n.store.readings && s !in n'.store.readings ::
                     && n.row.boundary.Some? && s <= n.row.boundary.value
                     && forall k | k in n.store.publications :: n.store.publications[k].reading != Some(s))
               && (deleted == 0 && limit > 0 && n.row.boundary.Some? ==>
                     forall s | s in n'.store.readings :: s > n.row.boundary.value)
  {
    RunKeeps(Unused(id, epoch), ops);
    var n := Run(Unused(id, epoch), ops);
    if limit > 0 && n.row.state == Active && n.row.boundary.Some? {
      if Pending(n, n.row.boundary.value) != [] {
        CleanupEnd(n, limit);
        CleanupDeletes(n, limit);
      } else {
        NothingPending(n);
        assert forall s | s in n.store.readings && n.row.progress < s <= n.row.boundary.value ::
          s in InRange(n.store, n.row.progress, n.row.boundary.value);
      }
    }
  }

  /** The count a batch reports is the number of readings it deleted. */
  lemma CleanupCounts(n: Node, limit: nat)
    requires Cleanup(n, limit).Ok?
    ensures var (n', deleted) := Cleanup(n, limit).value; deleted == |n.store.readings.Keys - n'.store.readings.Keys|
  {
    var n' := Cleanup(n, limit).value.0;
    assert n.store.readings.Keys - n.store.readings.Keys == {};
    if n'.store != n.store {
      assert n.store.readings.Keys - n'.store.readings.Keys == InRange(n.store, n.row.progress, n'.row.progress);
    }
  }

  /** With readings pending, a batch deletes at least one. */
  lemma CleanupDeletes(n: Node, limit: nat)
    requires limit > 0 && n.row.state == Active && n.row.boundary.Some? && Pending(n, n.row.boundary.value) != []
    ensures Cleanup(n, limit).value.1 > 0
  {
    var pending := Pending(n, n.row.boundary.value);
    SortedFacts(InRange(n.store, n.row.progress, n.row.boundary.value));
    var end := pending[(if limit < |pending| then limit else |pending|) - 1];
    CleanupEnd(n, limit);
    assert pending[0] in InRange(n.store, n.row.progress, end);
  }

  // ---------------------------------------------------------------------------
  // Repeated cleanup
  // ---------------------------------------------------------------------------

  function Batches(limits: seq<nat>): seq<Op> {
    if limits == [] then [] else [CleanupOp(limits[0])] + Batches(limits[1..])
  }

  function Sum(limits: seq<nat>): nat {
    if limits == [] then 0 else limits[0] + Sum(limits[1..])
  }

  function Less(count: nat, deleted: nat): nat {
    if deleted < count then count - deleted else 0
  }

  /** So many readings at or below the boundary are left; those deleted are the ones up to the mark. */
  ghost predicate CleanedTo(n: Node, n': Node, limit: nat)
    requires n.row.boundary.Some?
  {
    && n'.row.boundary == n.row.boundary && n'.store.publications == n.store.publications
    && n.row.progress <= n'.row.progress <= n.row.boundary.value
    && n'.store.readings == n.store.readings - InRange(n.store, 0, n'.row.progress)
    && |InRange(n'.store, 0, n.row.boundary.value)| == Less(|InRange(n.store, 0, n.row.boundary.value)|, limit)
  }

  /** A batch deletes as many readings as it may, or all that are pending. */
  lemma BatchCount(st: Store, lo: nat, hi: nat, m: nat)
    requires 0 < m <= |Sorted(InRange(st, lo, hi))|
    ensures var end := Sorted(InRange(st, lo, hi))[m - 1];
            lo < end <= hi && |InRange(st, lo, end)| == m && |Sorted(InRange(st, lo, hi))| == |InRange(st, lo, hi)|
  {
    var all := InRange(st, lo, hi);
    var end := Sorted(all)[m - 1];
    SortedFacts(all);
    SortedRank(all, m - 1);
    SortedLength(all);
    assert InRange(st, lo, end) == UpTo(all, end);
  }

  lemma DeletedLeaves(n: Node, end: nat)
    requires Inv(n) && n.row.boundary.Some? && n.row.progress <= end <= n.row.boundary.value
    ensures var st' := DeleteRange(n.store, n.row.progress, end);
            var b := n.row.boundary.value;
            && st'.readings == n.store.readings - InRange(n.store, 0, end)
            && |InRange(st', 0, b)| == |InRange(n.store, 0, b)| - |InRange(n.store, n.row.progress, end)|
            && InRange(n.store, 0, b) == InRange(n.store, n.row.progress, b)
  {
    var b := n.row.boundary.value;
    var st' := DeleteRange(n.store, n.row.progress, end);
    assert InRange(n.store, 0, end) == InRange(n.store, n.row.progress, end);
    assert InRange(st', 0, b) == InRange(n.store, 0, b) - InRange(n.store, n.row.progress, end);
    assert InRange(n.store, n.row.progress, end) <= InRange(n.store, 0, b);
  }

  lemma CleanupBatch(n: Node, limit: nat)
    requires Inv(n) && n.row.boundary.Some?
    ensures CleanedTo(n, Step(n, CleanupOp(limit)), limit)
  {
    var b := n.row.boundary.value;
    var pending := Pending(n, b);
    DeletedLeaves(n, n.row.progress);
    assert InRange(n.store, n.row.progress, n.row.progress) == {};
    if limit > 0 {
      if pending == [] {
        NothingPending(n);
        DeletedLeaves(n, b);
      } else {
        var m := if limit < |pending| then limit else |pending|;
        BatchCount(n.store, n.row.progress, b, m);
        DeletedLeaves(n, pending[m - 1]);
      }
    }
  }

  lemma CleanedTwice(n: Node, n1: Node, n2: Node, a: nat, b: nat)
    requires n.row.boundary.Some? && CleanedTo(n, n1, a) && CleanedTo(n1, n2, b)
    ensures CleanedTo(n, n2, a + b)
  {
    assert InRange(n.store, 0, n2.row.progress) == InRange(n.store, 0, n1.row.progress) + InRange(n1.store, 0, n2.row.progress);
  }

  lemma {:induction false} CleanupRun(n: Node, limits: seq<nat>)
    requires Inv(n) && n.row.boundary.Some?
    ensures CleanedTo(n, Run(n, Batches(limits)), Sum(limits))
    decreases |limits|
  {
    if limits == [] {
      CleanupBatch(n, 0);
    } else {
      var n1 := Step(n, CleanupOp(limits[0]));
      CleanupBatch(n, limits[0]);
      StepKeeps(n, CleanupOp(limits[0]));
      CleanupRun(n1, limits[1..]);
      assert Batches(limits)[1..] == Batches(limits[1..]);
      CleanedTwice(n, n1, Run(n, Batches(limits)), limits[0], Sum(limits[1..]));
    }
  }

  /**
   On an active node, batches of any sizes leave exactly as many pre-activation readings as there
   were less the sum of the sizes, lowest numbers first; once the sum covers them, exactly the
   readings above the boundary remain.
   */
  lemma CleanupCompletes(id: string, epoch: string, ops: seq<Op>, limits: seq<nat>)
    requires Run(Unused(id, epoch), ops).row.state == Active
    ensures var n := Run(Unused(id, epoch), ops);
            var n' := Run(n, Batches(limits));
            && n.row.boundary.Some? && CleanedTo(n, n', Sum(limits))
            && (Sum(limits) >= |InRange(n.store, 0, n.row.boundary.value)| ==>
                  n'.store.readings == map s | s in n.store.readings && s > n.row.boundary.value :: n.store.readings[s])
  {
    RunKeeps(Unused(id, epoch), ops);
    var n := Run(Unused(id, epoch), ops);
    var b := n.row.boundary.value;
    CleanupRun(n, limits);
    var n' := Run(n, Batches(limits));
    if Sum(limits) >= |InRange(n.store, 0, b)| {
      var low := InRange(n'.store, 0, b);
      assert low == {};
      forall s | s in n.store.readings ensures s in n'.store.readings <==> s > b {
        assert s in n'.store.readings && s <= b ==> s in low;
        assert s > b ==> s !in InRange(n.store, 0, n'.row.progress);
      }
    }
  }
}
