/**
 Staging of sightings from unregistered hardware: a table bounded by rows and bytes, per principal
 and overall, with expiry, pins, oldest-subject eviction, and a reserve that pins cannot consume.
 */
module Staging {
  import opened Types

  datatype Limits = Limits(
    globalRows: int, principalRows: int, globalBytes: int, principalBytes: int,
    maxAge: int, reserveRows: int, reserveBytes: int)
  {
    predicate Valid() {
      && 0 < principalRows <= globalRows && 0 < principalBytes <= globalBytes && 0 < maxAge
      && 0 < reserveRows < principalRows && 0 < reserveBytes < principalBytes
    }
  }

  datatype Subject = Subject(principal: string, hardware: string)

  datatype Row = Row(subject: Subject, receivedAt: int, payload: string, bytes: nat, pinned: bool)

  datatype Sighting = Sighting(hardware: string, payload: string)

  /** `rows` in id order; `sightings` maps a hardware id to the principal that reported it last. */
  datatype Store = Store(rows: seq<Row>, sightings: map<string, string>)

  const LEGACY := "legacy:unknown"

  datatype Admission = Admission(expired: nat, evicted: nat)

  datatype Refusal = EnvelopeTooLarge | PinGrowth | Protected | NoSuchSubject

  // ---------------------------------------------------------------------------
  // Totals
  // ---------------------------------------------------------------------------

  datatype Amount = Amount(rows: nat, bytes: nat) {
    function Plus(a: Amount): Amount {
      Amount(rows + a.rows, bytes + a.bytes)
    }

    predicate Within(maxRows: int, maxBytes: int) {
      rows <= maxRows && bytes <= maxBytes
    }
  }

  datatype Which = All | Pinned | Of(subjects: set<Subject>)

  predicate Selected(r: Row, scope: Option<string>, which: Which) {
    && (scope.None? || r.subject.principal == scope.value)
    && (match which case All => true case Pinned => r.pinned case Of(subjects) => r.subject in subjects)
  }

  /** Rows and bytes of the selected rows of one principal, or of all. */
  function Load(rows: seq<Row>, scope: Option<string>, which: Which): Amount {
    if rows == [] then Amount(0, 0)
    else
      var last := rows[|rows| - 1];
      var before := Load(rows[..|rows| - 1], scope, which);
      if Selected(last, scope, which) then before.Plus(Amount(1, last.bytes)) else before
  }

  function PinnedSubjects(rows: seq<Row>): set<Subject> {
    set i | 0 <= i < |rows| && rows[i].pinned :: rows[i].subject
  }

  // ---------------------------------------------------------------------------
  // Removal
  // ---------------------------------------------------------------------------

  /** Either every row of one subject, or the rows before a time whose subject is not kept. */
  datatype Removal = Whole(subject: Subject) | Before(cutoff: int, kept: set<Subject>)

  predicate Removes(removal: Removal, r: Row) {
    match removal
    case Whole(subject) => r.subject == subject
    case Before(cutoff, kept) => r.receivedAt < cutoff && r.subject !in kept
  }

  function Remaining(rows: seq<Row>, removal: Removal): seq<Row> {
    if rows == [] then []
    else
      var before := Remaining(rows[..|rows| - 1], removal);
      if Removes(removal, rows[|rows| - 1]) then before else before + [rows[|rows| - 1]]
  }

  /** Earliest receive time of the subject, or `bound` if that is earlier. */
  function MinAt(rows: seq<Row>, subject: Subject, bound: int): int {
    if rows == [] then bound
    else
      var m := MinAt(rows[..|rows| - 1], subject, bound);
      var last := rows[|rows| - 1];
      if last.subject == subject && last.receivedAt < m then last.receivedAt else m
  }

  function Age(rows: seq<Row>, i: nat): int
    requires i < |rows|
  {
    MinAt(rows, rows[i].subject, rows[i].receivedAt)
  }

  predicate Evictable(r: Row, scope: Option<string>, held: set<Subject>) {
    (scope.None? || r.subject.principal == scope.value) && r.subject !in held
  }

  /** Among the first k rows, the first row of the evictable subject with the earliest row. */
  function Victim(rows: seq<Row>, k: nat, scope: Option<string>, held: set<Subject>): (v: Option<nat>)
    requires k <= |rows|
    ensures v.Some? ==> v.value < k && Evictable(rows[v.value], scope, held)
  {
    if k == 0 then None
    else
      var v := Victim(rows, k - 1, scope, held);
      if Evictable(rows[k - 1], scope, held) && (v.None? || Age(rows, k - 1) < Age(rows, v.value)) then Some(k - 1)
      else v
  }

  predicate PrincipalOver(rows: seq<Row>, principal: string, staged: Amount, limits: Limits) {
    !Load(rows, Some(principal), All).Plus(staged).Within(limits.principalRows, limits.principalBytes)
  }

  predicate GlobalOver(rows: seq<Row>, staged: Amount, limits: Limits) {
    !Load(rows, None, All).Plus(staged).Within(limits.globalRows, limits.globalBytes)
  }

  function Scope(rows: seq<Row>, principal: string, staged: Amount, limits: Limits): Option<string> {
    if PrincipalOver(rows, principal, staged, limits) then Some(principal) else None
  }

  lemma {:induction false} RemainingShrinks(rows: seq<Row>, removal: Removal)
    ensures |Remaining(rows, removal)| <= |rows|
    ensures (exists i :: 0 <= i < |rows| && Removes(removal, rows[i])) ==> |Remaining(rows, removal)| < |rows|
  {
    if rows != [] {
      var before := rows[..|rows| - 1];
      RemainingShrinks(before, removal);
      if i :| 0 <= i < |rows| && Removes(removal, rows[i]) {
        assert i < |before| ==> before[i] == rows[i];
      }
    }
  }

  /** Evicts whole subjects until the staged amount fits, or reports that nothing may go. */
  function MakeRoom(
    rows: seq<Row>, principal: string, staged: Amount, current: set<Subject>, limits: Limits, evicted: seq<Subject>)
    : Result<(seq<Row>, seq<Subject>), Refusal>
    decreases |rows|
  {
    if !PrincipalOver(rows, principal, staged, limits) && !GlobalOver(rows, staged, limits) then Ok((rows, evicted))
    else
      match Victim(rows, |rows|, Scope(rows, principal, staged, limits), PinnedSubjects(rows) + current)
      case None => Err(Protected)
      case Some(i) =>
        RemainingShrinks(rows, Whole(rows[i].subject));
        MakeRoom(Remaining(rows, Whole(rows[i].subject)), principal, staged, current, limits,
                 evicted + [rows[i].subject])
  }

  // ---------------------------------------------------------------------------
  // Operations
  // ---------------------------------------------------------------------------

  /** The rows a staged envelope adds; each inherits the pin of its subject. */
  function Incoming(rows: seq<Row>, principal: string, now: int, ss: seq<Sighting>): seq<Row> {
    seq(|ss|, i requires 0 <= i < |ss| =>
      var subject := Subject(principal, ss[i].hardware);
      Row(subject, now, ss[i].payload, |ss[i].payload|, subject in PinnedSubjects(rows)))
  }

  function Current(principal: string, ss: seq<Sighting>): set<Subject> {
    set i | 0 <= i < |ss| :: Subject(principal, ss[i].hardware)
  }

  /** Whether the pinned rows may grow by this much without touching the reserve. */
  predicate PinsFit(rows: seq<Row>, principal: string, more: Amount, limits: Limits) {
    && Load(rows, None, Pinned).Plus(more)
         .Within(limits.globalRows - limits.reserveRows, limits.globalBytes - limits.reserveBytes)
    && Load(rows, Some(principal), Pinned).Plus(more)
         .Within(limits.principalRows - limits.reserveRows, limits.principalBytes - limits.reserveBytes)
  }

  predicate FitsReserve(staged: Amount, limits: Limits) {
    && staged.Within(limits.reserveRows, limits.reserveBytes)
    && staged.Within(limits.principalRows, limits.principalBytes)
  }

  /** Subjects that expiry touches: unpinned, with a row before the cutoff. */
  function ExpiredSubjects(rows: seq<Row>, cutoff: int): set<Subject> {
    set i | 0 <= i < |rows| && Removes(Before(cutoff, PinnedSubjects(rows)), rows[i]) :: rows[i].subject
  }

  predicate Staged(rows: seq<Row>, hardware: string) {
    exists i :: 0 <= i < |rows| && rows[i].subject.hardware == hardware
  }

  /** Sightings go with their last staged row; legacy ones stay. */
  function Cleaned(sightings: map<string, string>, rows: seq<Row>, gone: set<Subject>): map<string, string> {
    map h | h in sightings && !(Subject(sightings[h], h) in gone && sightings[h] != LEGACY && !Staged(rows, h)) ::
      sightings[h]
  }

  function Elements(ss: seq<Subject>): set<Subject> {
    set i | 0 <= i < |ss| :: ss[i]
  }

  /** Inserts the new rows and cleans up after the subjects that lost rows. */
  function Finish(
    st: Store, principal: string, now: int, ss: seq<Sighting>, expired: set<Subject>, kept: seq<Row>, evicted: seq<Subject>)
    : (Store, Admission)
  {
    var rows := kept + Incoming(st.rows, principal, now, ss);
    (Store(rows, Cleaned(st.sightings, rows, expired + Elements(evicted))), Admission(|expired|, |evicted|))
  }

  function RoomFor(
    rows: seq<Row>, principal: string, staged: Amount, current: set<Subject>, limits: Limits, cutoff: int)
    : Result<(seq<Row>, seq<Subject>), Refusal>
  {
    MakeRoom(Remaining(rows, Before(cutoff, PinnedSubjects(rows))), principal, staged, current, limits, [])
  }

  /** Expires, makes room, inserts and cleans up, once the envelope has passed its checks. */
  function Admit(st: Store, principal: string, now: int, ss: seq<Sighting>, limits: Limits, staged: Amount)
    : Result<(Store, Admission), Refusal>
  {
    var cutoff := now - limits.maxAge;
    match RoomFor(st.rows, principal, staged, Current(principal, ss), limits, cutoff)
    case Err(e) => Err(e)
    case Ok((kept, evicted)) =>
      Ok(Finish(st, principal, now, ss, ExpiredSubjects(st.rows, cutoff), kept, evicted))
  }

  function Stage(st: Store, principal: string, now: int, ss: seq<Sighting>, limits: Limits)
    : Result<(Store, Admission), Refusal>
  {
    var incoming := Incoming(st.rows, principal, now, ss);
    var staged := Load(incoming, None, All);
    var inherited := Load(incoming, None, Pinned);
    if !FitsReserve(staged, limits) then Err(EnvelopeTooLarge)
    else if ss == [] then Ok((st, Admission(0, 0)))
    else if inherited.rows != 0 && !PinsFit(st.rows, principal, inherited, limits) then Err(PinGrowth)
    else Admit(st, principal, now, ss, limits, staged)
  }

  function Repinned(rows: seq<Row>, subject: Subject, pinned: bool): seq<Row> {
    seq(|rows|, i requires 0 <= i < |rows| => if rows[i].subject == subject then rows[i].(pinned := pinned) else rows[i])
  }

  function SetPin(st: Store, subject: Subject, pinned: bool, limits: Limits): Result<Store, Refusal> {
    var mine := Load(st.rows, None, Of({subject}));
    if mine.rows == 0 then Err(NoSuchSubject)
    else if pinned && subject !in PinnedSubjects(st.rows) && !PinsFit(st.rows, subject.principal, mine, limits) then
      Err(PinGrowth)
    else Ok(st.(rows := Repinned(st.rows, subject, pinned)))
  }

  // ---------------------------------------------------------------------------
  // The staging procedure
  // ---------------------------------------------------------------------------

  lemma LoadAppend(rows: seq<Row>, r: Row, scope: Option<string>, which: Which)
    ensures Load(rows + [r], scope, which)
            == if Selected(r, scope, which) then Load(rows, scope, which).Plus(Amount(1, r.bytes))
               else Load(rows, scope, which)
  {
    assert (rows + [r])[..|rows|] == rows;
  }

  /** One pin per sighting: the pin of its subject before the envelope. */
  ghost predicate PinsMatch(pins: seq<bool>, rows: seq<Row>, principal: string, now: int, ss: seq<Sighting>) {
    |pins| == |ss| && forall i | 0 <= i < |ss| :: pins[i] == Incoming(rows, principal, now, ss)[i].pinned
  }

  method MeasureEnvelope(rows: seq<Row>, principal: string, now: int, ss: seq<Sighting>)
    returns (staged: Amount, inherited: Amount, pins: seq<bool>)
    ensures var incoming := Incoming(rows, principal, now, ss);
            && staged == Load(incoming, None, All) && inherited == Load(incoming, None, Pinned)
            && PinsMatch(pins, rows, principal, now, ss)
  {
    ghost var incoming := Incoming(rows, principal, now, ss);
    staged, inherited, pins := Amount(0, 0), Amount(0, 0), [];
    for k := 0 to |ss|
      invariant staged == Load(incoming[..k], None, All) && inherited == Load(incoming[..k], None, Pinned)
      invariant |pins| == k && forall i | 0 <= i < k :: pins[i] == incoming[i].pinned
    {
      var subject := Subject(principal, ss[k].hardware);
      var bytes := |ss[k].payload|;
      var pinned := subject in PinnedSubjects(rows);
      assert incoming[..k + 1] == incoming[..k] + [incoming[k]];
      LoadAppend(incoming[..k], incoming[k], None, All);
      LoadAppend(incoming[..k], incoming[k], None, Pinned);
      staged := staged.Plus(Amount(1, bytes));
      pins := pins + [pinned];
      if pinned { inherited := inherited.Plus(Amount(1, bytes)); }
    }
    assert incoming[..|ss|] == incoming;
  }

  method EvictUntilFits(
    start: seq<Row>, principal: string, staged: Amount, current: set<Subject>, limits: Limits)
    returns (r: Result<(seq<Row>, seq<Subject>), Refusal>)
    ensures r == MakeRoom(start, principal, staged, current, limits, [])
  {
    var rows, evicted := start, [];
    while true
      invariant MakeRoom(rows, principal, staged, current, limits, evicted)
                == MakeRoom(start, principal, staged, current, limits, [])
      decreases |rows|
    {
      var principalOver := PrincipalOver(rows, principal, staged, limits);
      var globalOver := GlobalOver(rows, staged, limits);
      if !principalOver && !globalOver { return Ok((rows, evicted)); }
      var victim := Victim(rows, |rows|, if principalOver then Some(principal) else None, PinnedSubjects(rows) + current);
      if victim.None? { return Err(Protected); }
      var subject := rows[victim.value].subject;
      RemainingShrinks(rows, Whole(subject));
      rows := Remaining(rows, Whole(subject));
      evicted := evicted + [subject];
    }
  }

  method DeleteUnstagedSightings(start: map<string, string>, rows: seq<Row>, gone: set<Subject>)
    returns (sightings: map<string, string>)
    ensures sightings == Cleaned(start, rows, gone)
  {
    sightings := start;
    var todo := gone;
    while todo != {}
      invariant todo <= gone
      invariant sightings == Cleaned(start, rows, gone - todo)
      decreases |todo|
    {
      var subject :| subject in todo;
      if subject.principal != LEGACY && !Staged(rows, subject.hardware) {
        if subject.hardware in sightings && sightings[subject.hardware] == subject.principal {
          sightings := sightings - {subject.hardware};
        }
      }
      todo := todo - {subject};
    }
    assert gone - todo == gone;
  }

  method InsertRows(
    kept: seq<Row>, before: seq<Row>, principal: string, now: int, ss: seq<Sighting>, pins: seq<bool>)
    returns (rows: seq<Row>)
    requires PinsMatch(pins, before, principal, now, ss)
    ensures rows == kept + Incoming(before, principal, now, ss)
  {
    ghost var incoming := Incoming(before, principal, now, ss);
    rows := kept;
    for k := 0 to |ss|
      invariant rows == kept + incoming[..k]
    {
      rows := rows + [Row(Subject(principal, ss[k].hardware), now, ss[k].payload, |ss[k].payload|, pins[k])];
    }
  }

  method RunFinish(
    st: Store, principal: string, now: int, ss: seq<Sighting>, pins: seq<bool>,
    expired: set<Subject>, kept: seq<Row>, evicted: seq<Subject>)
    returns (st': Store, admission: Admission)
    requires PinsMatch(pins, st.rows, principal, now, ss)
    ensures (st', admission) == Finish(st, principal, now, ss, expired, kept, evicted)
  {
    var rows := InsertRows(kept, st.rows, principal, now, ss, pins);
    var sightings := DeleteUnstagedSightings(st.sightings, rows, expired + Elements(evicted));
    return Store(rows, sightings), Admission(|expired|, |evicted|);
  }

  method ExpireAndEvict(
    rows: seq<Row>, principal: string, staged: Amount, current: set<Subject>, limits: Limits, cutoff: int)
    returns (r: Result<(seq<Row>, seq<Subject>), Refusal>)
    ensures r == RoomFor(rows, principal, staged, current, limits, cutoff)
  {
    r := EvictUntilFits(Remaining(rows, Before(cutoff, PinnedSubjects(rows))), principal, staged, current, limits);
  }

  method RunAdmit(
    st: Store, principal: string, now: int, ss: seq<Sighting>, limits: Limits, staged: Amount, pins: seq<bool>)
    returns (r: Result<(Store, Admission), Refusal>)
    requires PinsMatch(pins, st.rows, principal, now, ss)
    ensures r == Admit(st, principal, now, ss, limits, staged)
  {
    var cutoff := now - limits.maxAge;
    var expired := ExpiredSubjects(st.rows, cutoff);
    var room := ExpireAndEvict(st.rows, principal, staged, Current(principal, ss), limits, cutoff);
    if room.Err? { return Err(room.error); }
    var st', admission := RunFinish(st, principal, now, ss, pins, expired, room.value.0, room.value.1);
    return Ok((st', admission));
  }

  method RunStage(st: Store, principal: string, now: int, ss: seq<Sighting>, limits: Limits)
    returns (r: Result<(Store, Admission), Refusal>)
    ensures r == Stage(st, principal, now, ss, limits)
  {
    var staged, inherited, pins := MeasureEnvelope(st.rows, principal, now, ss);
    if !FitsReserve(staged, limits) { return Err(EnvelopeTooLarge); }
    if ss == [] { return Ok((st, Admission(0, 0))); }
    if inherited.rows != 0 && !PinsFit(st.rows, principal, inherited, limits) { return Err(PinGrowth); }
    r := RunAdmit(st, principal, now, ss, limits, staged, pins);
  }
}
