/**
 Exactly when staging refuses an envelope, what eviction may take, and the guarantee that the
 reserve gives to newcomers over every run of staging and pinning.
 */
module StagingRuns {
  import opened Types
  import opened Staging

  // ---------------------------------------------------------------------------
  // Totals and removal
  // ---------------------------------------------------------------------------

  lemma {:induction false} LoadConcat(a: seq<Row>, b: seq<Row>, scope: Option<string>, which: Which)
    ensures Load(a + b, scope, which) == Load(a, scope, which).Plus(Load(b, scope, which))
    decreases |b|
  {
    if b == [] {
      assert a + b == a;
    } else {
      LoadConcat(a, b[..|b| - 1], scope, which);
      assert (a + b)[..|a + b| - 1] == a + b[..|b| - 1];
    }
  }

  lemma {:induction false} RemainingMember(rows: seq<Row>, removal: Removal, r: Row)
    ensures r in Remaining(rows, removal) <==> r in rows && !Removes(removal, r)
  {
    if rows != [] {
      RemainingMember(rows[..|rows| - 1], removal, r);
      assert rows == rows[..|rows| - 1] + [rows[|rows| - 1]];
    }
  }

  /** Removal leaves the total of a selection alone if it takes none of the selected rows. */
  lemma {:induction false} RemainingLoad(rows: seq<Row>, removal: Removal, scope: Option<string>, which: Which)
    requires forall i | 0 <= i < |rows| && Selected(rows[i], scope, which) :: !Removes(removal, rows[i])
    ensures Load(Remaining(rows, removal), scope, which) == Load(rows, scope, which)
  {
    if rows != [] {
      var before, last := rows[..|rows| - 1], rows[|rows| - 1];
      RemainingLoad(before, removal, scope, which);
      if !Removes(removal, last) { LoadAppend(Remaining(before, removal), last, scope, which); }
    }
  }

  lemma RemainingPins(rows: seq<Row>, removal: Removal)
    requires forall i | 0 <= i < |rows| && rows[i].pinned :: !Removes(removal, rows[i])
    ensures PinnedSubjects(Remaining(rows, removal)) == PinnedSubjects(rows)
  {
    var rows' := Remaining(rows, removal);
    forall s | s in PinnedSubjects(rows) ensures s in PinnedSubjects(rows') {
      var i :| 0 <= i < |rows| && rows[i].pinned && rows[i].subject == s;
      RemainingMember(rows, removal, rows[i]);
    }
    forall s | s in PinnedSubjects(rows') ensures s in PinnedSubjects(rows) {
      var i :| 0 <= i < |rows'| && rows'[i].pinned && rows'[i].subject == s;
      RemainingMember(rows, removal, rows'[i]);
    }
  }

  lemma {:induction false} HeldLoad(rows: seq<Row>, scope: Option<string>, held: set<Subject>)
    ensures var some, all := Load(rows, scope, Of(held)), Load(rows, scope, All);
            && some.rows <= all.rows && some.bytes <= all.bytes
            && ((forall i | 0 <= i < |rows| :: !Evictable(rows[i], scope, held)) ==> some == all)
  {
    if rows != [] { HeldLoad(rows[..|rows| - 1], scope, held); }
  }

  /** The victim is the evictable subject with the earliest row; first id among equals. */
  lemma {:induction false} VictimIsOldest(rows: seq<Row>, k: nat, scope: Option<string>, held: set<Subject>)
    requires k <= |rows|
    ensures var v := Victim(rows, k, scope, held);
            && (v.None? ==> forall i | 0 <= i < k :: !Evictable(rows[i], scope, held))
            && (v.Some? ==> forall i: nat | i < k && Evictable(rows[i], scope, held) ::
                  Age(rows, v.value) < Age(rows, i) || (Age(rows, v.value) == Age(rows, i) && v.value <= i))
  {
    if k > 0 { VictimIsOldest(rows, k - 1, scope, held); }
  }

  // ---------------------------------------------------------------------------
  // Making room
  // ---------------------------------------------------------------------------

  predicate HeldFits(rows: seq<Row>, principal: string, staged: Amount, held: set<Subject>, limits: Limits) {
    && Load(rows, Some(principal), Of(held)).Plus(staged).Within(limits.principalRows, limits.principalBytes)
    && Load(rows, None, Of(held)).Plus(staged).Within(limits.globalRows, limits.globalBytes)
  }

  lemma EvictKeepsHeld(rows: seq<Row>, i: nat, current: set<Subject>)
    requires i < |rows| && rows[i].subject !in PinnedSubjects(rows) + current
    ensures var rows1 := Remaining(rows, Whole(rows[i].subject));
            PinnedSubjects(rows1) == PinnedSubjects(rows)
  {
    RemainingPins(rows, Whole(rows[i].subject));
  }

  /** Room is found exactly when the rows that may not be evicted leave enough of it. */
  lemma {:induction false} RoomExact(
    rows: seq<Row>, principal: string, staged: Amount, current: set<Subject>, limits: Limits, evicted: seq<Subject>)
    ensures MakeRoom(rows, principal, staged, current, limits, evicted).Ok?
            <==> HeldFits(rows, principal, staged, PinnedSubjects(rows) + current, limits)
    decreases |rows|
  {
    var held := PinnedSubjects(rows) + current;
    HeldLoad(rows, Some(principal), held);
    HeldLoad(rows, None, held);
    if PrincipalOver(rows, principal, staged, limits) || GlobalOver(rows, staged, limits) {
      var scope := Scope(rows, principal, staged, limits);
      var v := Victim(rows, |rows|, scope, held);
      VictimIsOldest(rows, |rows|, scope, held);
      if v.Some? {
        var gone := Whole(rows[v.value].subject);
        RemainingShrinks(rows, gone);
        EvictKeepsHeld(rows, v.value, current);
        RemainingLoad(rows, gone, Some(principal), Of(held));
        RemainingLoad(rows, gone, None, Of(held));
        RoomExact(Remaining(rows, gone), principal, staged, current, limits, evicted + [rows[v.value].subject]);
      }
    }
  }

  /** Once there is room: the staged amount fits, and only unheld rows of evicted subjects are gone. */
  ghost predicate Roomy(
    rows: seq<Row>, principal: string, staged: Amount, held: set<Subject>, limits: Limits,
    rows': seq<Row>, evicted: seq<Subject>)
  {
    && !PrincipalOver(rows', principal, staged, limits) && !GlobalOver(rows', staged, limits)
    && PinnedSubjects(rows') == PinnedSubjects(rows)
    && (forall r | r in rows' :: r in rows)
    && (forall r | r in rows && r !in rows' :: r.subject !in held && r.subject in evicted)
    && (forall scope: Option<string> :: Load(rows', scope, Pinned) == Load(rows, scope, Pinned))
  }

  lemma EvictStep(rows: seq<Row>, i: nat, held: set<Subject>)
    requires i < |rows| && rows[i].subject !in held && PinnedSubjects(rows) <= held
    ensures var rows1 := Remaining(rows, Whole(rows[i].subject));
            && PinnedSubjects(rows1) == PinnedSubjects(rows)
            && (forall r | r in rows1 :: r in rows)
            && (forall r | r in rows && r !in rows1 :: r.subject == rows[i].subject)
            && (forall scope: Option<string> :: Load(rows1, scope, Pinned) == Load(rows, scope, Pinned))
  {
    var gone := Whole(rows[i].subject);
    RemainingPins(rows, gone);
    forall r ensures r in Remaining(rows, gone) <==> r in rows && !Removes(gone, r) { RemainingMember(rows, gone, r); }
    forall scope: Option<string> ensures Load(Remaining(rows, gone), scope, Pinned) == Load(rows, scope, Pinned) {
      RemainingLoad(rows, gone, scope, Pinned);
    }
  }

  lemma {:induction false} RoomKeeps(
    rows: seq<Row>, principal: string, staged: Amount, current: set<Subject>, limits: Limits, evicted: seq<Subject>)
    requires MakeRoom(rows, principal, staged, current, limits, evicted).Ok?
    ensures var (rows', evicted') := MakeRoom(rows, principal, staged, current, limits, evicted).value;
            && evicted <= evicted'
            && Roomy(rows, principal, staged, PinnedSubjects(rows) + current, limits, rows', evicted')
    decreases |rows|
  {
    if PrincipalOver(rows, principal, staged, limits) || GlobalOver(rows, staged, limits) {
      var held := PinnedSubjects(rows) + current;
      var v := Victim(rows, |rows|, Scope(rows, principal, staged, limits), held);
      var subject := rows[v.value].subject;
      var rows1 := Remaining(rows, Whole(subject));
      RemainingShrinks(rows, Whole(subject));
      EvictStep(rows, v.value, held);
      RoomKeeps(rows1, principal, staged, current, limits, evicted + [subject]);
      var (rows', evicted') := MakeRoom(rows1, principal, staged, current, limits, evicted + [subject]).value;
      assert evicted' [|evicted|] == subject;
    }
  }

  // ---------------------------------------------------------------------------
  // Staging one envelope
  // ---------------------------------------------------------------------------

  function Unexpired(rows: seq<Row>, now: int, limits: Limits): seq<Row> {
    Remaining(rows, Before(now - limits.maxAge, PinnedSubjects(rows)))
  }

  lemma ExpiryKeepsPins(rows: seq<Row>, now: int, limits: Limits)
    ensures PinnedSubjects(Unexpired(rows, now, limits)) == PinnedSubjects(rows)
    ensures forall scope: Option<string> :: Load(Unexpired(rows, now, limits), scope, Pinned) == Load(rows, scope, Pinned)
  {
    var gone := Before(now - limits.maxAge, PinnedSubjects(rows));
    RemainingPins(rows, gone);
    forall scope: Option<string> ensures Load(Unexpired(rows, now, limits), scope, Pinned) == Load(rows, scope, Pinned) {
      RemainingLoad(rows, gone, scope, Pinned);
    }
  }

  /**
   Staging succeeds exactly when the envelope fits the reserve, its inherited pins leave the
   reserve alone, and the unexpired rows of pinned and of current subjects leave room for it.
   */
  lemma StageExact(st: Store, principal: string, now: int, ss: seq<Sighting>, limits: Limits)
    ensures var incoming := Incoming(st.rows, principal, now, ss);
            var staged, inherited := Load(incoming, None, All), Load(incoming, None, Pinned);
            var held := PinnedSubjects(st.rows) + Current(principal, ss);
            Stage(st, principal, now, ss, limits).Ok?
            <==> && FitsReserve(staged, limits)
                 && (ss != [] ==> inherited.rows == 0 || PinsFit(st.rows, principal, inherited, limits))
                 && (ss != [] ==> HeldFits(Unexpired(st.rows, now, limits), principal, staged, held, limits))
  {
    var staged := Load(Incoming(st.rows, principal, now, ss), None, All);
    ExpiryKeepsPins(st.rows, now, limits);
    RoomExact(Unexpired(st.rows, now, limits), principal, staged, Current(principal, ss), limits, []);
  }

  lemma {:induction false} ScopedIncoming(rows: seq<Row>, scope: Option<string>, which: Which, principal: string)
    requires forall i | 0 <= i < |rows| :: rows[i].subject.principal == principal
    ensures Load(rows, scope, which)
            == if scope.None? || scope.value == principal then Load(rows, None, which) else Amount(0, 0)
  {
    if rows != [] { ScopedIncoming(rows[..|rows| - 1], scope, which, principal); }
  }

  /** The rows kept after expiry and eviction. */
  ghost predicate Kept(
    rows: seq<Row>, principal: string, now: int, current: set<Subject>, staged: Amount, limits: Limits, kept: seq<Row>)
  {
    && !PrincipalOver(kept, principal, staged, limits) && !GlobalOver(kept, staged, limits)
    && (forall r | r in kept :: r in rows)
    && (forall r | r in rows && r.subject in PinnedSubjects(rows) :: r in kept)
    && (forall r | r in rows && r.subject in current && r.receivedAt >= now - limits.maxAge :: r in kept)
    && (forall scope: Option<string> :: Load(kept, scope, Pinned) == Load(rows, scope, Pinned))
  }

  lemma UnexpiredMember(rows: seq<Row>, now: int, limits: Limits, r: Row)
    ensures r in Unexpired(rows, now, limits)
            <==> r in rows && (r.receivedAt >= now - limits.maxAge || r.subject in PinnedSubjects(rows))
  {
    RemainingMember(rows, Before(now - limits.maxAge, PinnedSubjects(rows)), r);
  }

  lemma RoomyIsKept(
    rows: seq<Row>, live: seq<Row>, principal: string, now: int, current: set<Subject>, staged: Amount, limits: Limits,
    kept: seq<Row>, evicted: seq<Subject>)
    requires Roomy(live, principal, staged, PinnedSubjects(rows) + current, limits, kept, evicted)
    requires forall r :: r in live
               <==> r in rows && (r.receivedAt >= now - limits.maxAge || r.subject in PinnedSubjects(rows))
    requires forall scope: Option<string> :: Load(live, scope, Pinned) == Load(rows, scope, Pinned)
    ensures Kept(rows, principal, now, current, staged, limits, kept)
  {
  }

  lemma KeptAfterRoom(rows: seq<Row>, principal: string, now: int, current: set<Subject>, staged: Amount, limits: Limits)
    requires MakeRoom(Unexpired(rows, now, limits), principal, staged, current, limits, []).Ok?
    ensures Kept(rows, principal, now, current, staged, limits,
                 MakeRoom(Unexpired(rows, now, limits), principal, staged, current, limits, []).value.0)
  {
    var live := Unexpired(rows, now, limits);
    ExpiryKeepsPins(rows, now, limits);
    RoomKeeps(live, principal, staged, current, limits, []);
    var (kept, evicted) := MakeRoom(live, principal, staged, current, limits, []).value;
    forall r
      ensures r in live <==> r in rows && (r.receivedAt >= now - limits.maxAge || r.subject in PinnedSubjects(rows))
    {
      UnexpiredMember(rows, now, limits, r);
    }
    RoomyIsKept(rows, live, principal, now, current, staged, limits, kept, evicted);
  }

  /**
   Success leaves the principal and the table within their limits and the envelope staged at the
   end, each sighting as a row of its own that is pinned if its subject was; no row of a pinned
   subject is lost, nor an unexpired row of a subject in the envelope; and no expired row of an
   unpinned subject is left.
   */
  lemma StageSuccess(st: Store, principal: string, now: int, ss: seq<Sighting>, limits: Limits)
    requires ss != [] && Stage(st, principal, now, ss, limits).Ok?
    ensures var rows' := Stage(st, principal, now, ss, limits).value.0.rows;
            && Load(rows', Some(principal), All).Within(limits.principalRows, limits.principalBytes)
            && Load(rows', None, All).Within(limits.globalRows, limits.globalBytes)
            && StagedAs(st, principal, now, ss, limits, rows')
  {
    var incoming := Incoming(st.rows, principal, now, ss);
    var staged := Load(incoming, None, All);
    var current := Current(principal, ss);
    KeptAfterRoom(st.rows, principal, now, current, staged, limits);
    var kept := MakeRoom(Unexpired(st.rows, now, limits), principal, staged, current, limits, []).value.0;
    StagedWithin(kept, incoming, principal, staged, limits);
    forall r | r in kept ensures r.receivedAt >= now - limits.maxAge || r.subject in PinnedSubjects(st.rows) {
      KeptIsUnexpired(st.rows, principal, now, current, staged, limits, r);
    }
    StagedRows(st, principal, now, ss, limits, kept, staged);
  }

  lemma StagedWithin(kept: seq<Row>, incoming: seq<Row>, principal: string, staged: Amount, limits: Limits)
    requires !PrincipalOver(kept, principal, staged, limits) && !GlobalOver(kept, staged, limits)
    requires staged == Load(incoming, None, All) && forall i | 0 <= i < |incoming| :: incoming[i].subject.principal == principal
    ensures Load(kept + incoming, Some(principal), All).Within(limits.principalRows, limits.principalBytes)
    ensures Load(kept + incoming, None, All).Within(limits.globalRows, limits.globalBytes)
  {
    LoadConcat(kept, incoming, Some(principal), All);
    LoadConcat(kept, incoming, None, All);
    ScopedIncoming(incoming, Some(principal), All, principal);
  }

  /** Row by row: what is kept, and what the envelope adds. */
  ghost predicate StagedAs(st: Store, principal: string, now: int, ss: seq<Sighting>, limits: Limits, rows': seq<Row>) {
    && |ss| <= |rows'|
    && (forall k | 0 <= k < |ss| ::
          rows'[|rows'| - |ss| + k]
          == Row(Subject(principal, ss[k].hardware), now, ss[k].payload, |ss[k].payload|,
                 HasPin(st.rows, Subject(principal, ss[k].hardware))))
    && (forall r | r in st.rows && HasPin(st.rows, r.subject) :: r in rows')
    && (forall r, k | r in st.rows && 0 <= k < |ss| && r.subject == Subject(principal, ss[k].hardware)
                      && r.receivedAt >= now - limits.maxAge :: r in rows')
    && (forall r | r in rows'[..|rows'| - |ss|] ::
          r in st.rows && (r.receivedAt >= now - limits.maxAge || HasPin(st.rows, r.subject)))
  }

  lemma PinnedExact(rows: seq<Row>, s: Subject)
    ensures s in PinnedSubjects(rows) <==> HasPin(rows, s)
  {
  }

  lemma StagedRows(
    st: Store, principal: string, now: int, ss: seq<Sighting>, limits: Limits, kept: seq<Row>, staged: Amount)
    requires Kept(st.rows, principal, now, Current(principal, ss), staged, limits, kept)
    requires forall r | r in kept :: r.receivedAt >= now - limits.maxAge || r.subject in PinnedSubjects(st.rows)
    ensures StagedAs(st, principal, now, ss, limits, kept + Incoming(st.rows, principal, now, ss))
  {
    var rows' := kept + Incoming(st.rows, principal, now, ss);
    assert rows'[..|rows'| - |ss|] == kept;
    forall s ensures s in PinnedSubjects(st.rows) <==> HasPin(st.rows, s) { PinnedExact(st.rows, s); }
    forall r, k | r in st.rows && 0 <= k < |ss| && r.subject == Subject(principal, ss[k].hardware)
                  && r.receivedAt >= now - limits.maxAge
      ensures r in rows'
    {
      assert r.subject in Current(principal, ss);
      assert r in kept;
    }
  }

  predicate HasPin(rows: seq<Row>, s: Subject) {
    exists i :: 0 <= i < |rows| && rows[i].pinned && rows[i].subject == s
  }

  lemma KeptIsUnexpired(
    rows: seq<Row>, principal: string, now: int, current: set<Subject>, staged: Amount, limits: Limits, r: Row)
    requires MakeRoom(Unexpired(rows, now, limits), principal, staged, current, limits, []).Ok?
    requires r in MakeRoom(Unexpired(rows, now, limits), principal, staged, current, limits, []).value.0
    ensures r.receivedAt >= now - limits.maxAge || r.subject in PinnedSubjects(rows)
  {
    RoomKeeps(Unexpired(rows, now, limits), principal, staged, current, limits, []);
    UnexpiredMember(rows, now, limits, r);
  }

  // ---------------------------------------------------------------------------
  // Runs
  // ---------------------------------------------------------------------------

  ghost predicate PinsBounded(rows: seq<Row>, limits: Limits) {
    && Load(rows, None, Pinned).Within(limits.globalRows - limits.reserveRows, limits.globalBytes - limits.reserveBytes)
    && forall p: string :: Load(rows, Some(p), Pinned)
         .Within(limits.principalRows - limits.reserveRows, limits.principalBytes - limits.reserveBytes)
  }

  predicate OnePin(rows: seq<Row>) {
    forall i, j | 0 <= i < |rows| && 0 <= j < |rows| && rows[i].subject == rows[j].subject ::
      rows[i].pinned == rows[j].pinned
  }

  ghost predicate Inv(st: Store, limits: Limits) {
    PinsBounded(st.rows, limits) && OnePin(st.rows)
  }

  datatype Op =
    | StageOp(principal: string, now: int, ss: seq<Sighting>)
    | PinOp(subject: Subject, pinned: bool)

  function Apply(st: Store, op: Op, limits: Limits): Store {
    match op
    case StageOp(principal, now, ss) =>
      (match Stage(st, principal, now, ss, limits) case Ok((st', _)) => st' case Err(_) => st)
    case PinOp(subject, pinned) =>
      (match SetPin(st, subject, pinned, limits) case Ok(st') => st' case Err(_) => st)
  }

  function Run(st: Store, ops: seq<Op>, limits: Limits): Store
    decreases |ops|
  {
    if ops == [] then st else Run(Apply(st, ops[0], limits), ops[1..], limits)
  }

  lemma {:induction false} NoRowsNoBytes(rows: seq<Row>, scope: Option<string>, which: Which)
    ensures Load(rows, scope, which).rows == 0 ==> Load(rows, scope, which).bytes == 0
  {
    if rows != [] { NoRowsNoBytes(rows[..|rows| - 1], scope, which); }
  }

  /** New rows bring exactly their own pins. */
  lemma GrowPins(
    before: seq<Row>, kept: seq<Row>, principal: string, now: int, ss: seq<Sighting>, limits: Limits)
    requires PinsBounded(before, limits)
    requires forall scope: Option<string> :: Load(kept, scope, Pinned) == Load(before, scope, Pinned)
    requires var inherited := Load(Incoming(before, principal, now, ss), None, Pinned);
             inherited.rows == 0 || PinsFit(before, principal, inherited, limits)
    ensures PinsBounded(kept + Incoming(before, principal, now, ss), limits)
  {
    var incoming := Incoming(before, principal, now, ss);
    NoRowsNoBytes(incoming, None, Pinned);
    LoadConcat(kept, incoming, None, Pinned);
    forall p: string
      ensures Load(kept + incoming, Some(p), Pinned)
                .Within(limits.principalRows - limits.reserveRows, limits.principalBytes - limits.reserveBytes)
    {
      LoadConcat(kept, incoming, Some(p), Pinned);
      ScopedIncoming(incoming, Some(p), Pinned, principal);
    }
  }

  lemma GrowOnePin(before: seq<Row>, kept: seq<Row>, principal: string, now: int, ss: seq<Sighting>)
    requires OnePin(before) && forall r | r in kept :: r in before
    ensures OnePin(kept + Incoming(before, principal, now, ss))
  {
    var incoming := Incoming(before, principal, now, ss);
    var rows := kept + incoming;
    forall i | 0 <= i < |rows| ensures rows[i].pinned <==> rows[i].subject in PinnedSubjects(before) {
      if i < |kept| {
        assert rows[i] in before;
      }
    }
  }

  lemma StageKeeps(st: Store, principal: string, now: int, ss: seq<Sighting>, limits: Limits)
    requires Inv(st, limits) && Stage(st, principal, now, ss, limits).Ok?
    ensures Inv(Stage(st, principal, now, ss, limits).value.0, limits)
  {
    if ss != [] {
      var staged := Load(Incoming(st.rows, principal, now, ss), None, All);
      var current := Current(principal, ss);
      KeptAfterRoom(st.rows, principal, now, current, staged, limits);
      var kept := MakeRoom(Unexpired(st.rows, now, limits), principal, staged, current, limits, []).value.0;
      GrowPins(st.rows, kept, principal, now, ss, limits);
      GrowOnePin(st.rows, kept, principal, now, ss);
    }
  }

  lemma RepinnedBefore(rows: seq<Row>, subject: Subject, pinned: bool)
    requires rows != []
    ensures Repinned(rows, subject, pinned)[..|rows| - 1] == Repinned(rows[..|rows| - 1], subject, pinned)
  {
  }

  lemma {:induction false} UnpinLoad(rows: seq<Row>, subject: Subject, scope: Option<string>)
    ensures var after, before := Load(Repinned(rows, subject, false), scope, Pinned), Load(rows, scope, Pinned);
            after.rows <= before.rows && after.bytes <= before.bytes
  {
    if rows != [] {
      RepinnedBefore(rows, subject, false);
      UnpinLoad(rows[..|rows| - 1], subject, scope);
    }
  }

  lemma {:induction false} PinLoad(rows: seq<Row>, subject: Subject, scope: Option<string>)
    requires forall i | 0 <= i < |rows| && rows[i].subject == subject :: !rows[i].pinned
    ensures Load(Repinned(rows, subject, true), scope, Pinned)
            == if scope.None? || scope.value == subject.principal
               then Load(rows, scope, Pinned).Plus(Load(rows, None, Of({subject}))) else Load(rows, scope, Pinned)
  {
    if rows != [] {
      RepinnedBefore(rows, subject, true);
      PinLoad(rows[..|rows| - 1], subject, scope);
    }
  }

  lemma PinKeeps(st: Store, subject: Subject, pinned: bool, limits: Limits)
    requires Inv(st, limits) && SetPin(st, subject, pinned, limits).Ok?
    ensures Inv(SetPin(st, subject, pinned, limits).value, limits)
  {
    var rows, rows' := st.rows, Repinned(st.rows, subject, pinned);
    if pinned && subject in PinnedSubjects(rows) {
      assert rows' == rows;
    } else if pinned {
      forall scope: Option<string>
        ensures scope.None? || scope.value == subject.principal
                ==> Load(rows', scope, Pinned) == Load(rows, scope, Pinned).Plus(Load(rows, None, Of({subject})))
        ensures scope.Some? && scope.value != subject.principal
                ==> Load(rows', scope, Pinned) == Load(rows, scope, Pinned)
      {
        PinLoad(rows, subject, scope);
      }
    } else {
      forall scope: Option<string>
        ensures Load(rows', scope, Pinned).rows <= Load(rows, scope, Pinned).rows
        ensures Load(rows', scope, Pinned).bytes <= Load(rows, scope, Pinned).bytes
      {
        UnpinLoad(rows, subject, scope);
      }
    }
  }

  lemma {:induction false} RunKeeps(st: Store, ops: seq<Op>, limits: Limits)
    requires Inv(st, limits)
    ensures Inv(Run(st, ops, limits), limits)
    decreases |ops|
  {
    if ops != [] {
      match ops[0] {
        case StageOp(principal, now, ss) =>
          if Stage(st, principal, now, ss, limits).Ok? { StageKeeps(st, principal, now, ss, limits); }
        case PinOp(subject, pinned) =>
          if SetPin(st, subject, pinned, limits).Ok? { PinKeeps(st, subject, pinned, limits); }
      }
      RunKeeps(Apply(st, ops[0], limits), ops[1..], limits);
    }
  }

  /** With one pin per subject, the rows of pinned subjects are the pinned rows. */
  lemma {:induction false} HeldArePinned(rows: seq<Row>, scope: Option<string>, held: set<Subject>)
    requires forall i | 0 <= i < |rows| :: rows[i].pinned <==> rows[i].subject in held
    ensures Load(rows, scope, Of(held)) == Load(rows, scope, Pinned)
  {
    if rows != [] { HeldArePinned(rows[..|rows| - 1], scope, held); }
  }

  lemma {:induction false} UnpinnedLoad(rows: seq<Row>)
    requires forall i | 0 <= i < |rows| :: !rows[i].pinned
    ensures Load(rows, None, Pinned) == Amount(0, 0)
  {
    if rows != [] { UnpinnedLoad(rows[..|rows| - 1]); }
  }

  lemma NewcomerFits(st: Store, principal: string, now: int, ss: seq<Sighting>, limits: Limits)
    requires limits.Valid() && Inv(st, limits)
    requires FitsReserve(Load(Incoming(st.rows, principal, now, ss), None, All), limits)
    requires forall r | r in st.rows :: r.subject !in Current(principal, ss)
    ensures Stage(st, principal, now, ss, limits).Ok?
  {
    StageExact(st, principal, now, ss, limits);
    var pins := PinnedSubjects(st.rows);
    var incoming := Incoming(st.rows, principal, now, ss);
    forall i | 0 <= i < |incoming| ensures !incoming[i].pinned {
      assert incoming[i].subject in Current(principal, ss);
    }
    UnpinnedLoad(incoming);
    var live := Unexpired(st.rows, now, limits);
    ExpiryKeepsPins(st.rows, now, limits);
    forall i | 0 <= i < |live| ensures live[i].pinned <==> live[i].subject in pins + Current(principal, ss) {
      RemainingMember(st.rows, Before(now - limits.maxAge, pins), live[i]);
    }
    HeldArePinned(live, Some(principal), pins + Current(principal, ss));
    HeldArePinned(live, None, pins + Current(principal, ss));
  }

  /**
   In every state reachable by staging and pinning, pins leave the reserve free per principal and
   overall and each subject has one pin value; hence an envelope within the reserve whose
   subjects are not staged yet is never refused.
   */
  lemma NewcomersAreAdmitted(
    sightings: map<string, string>, ops: seq<Op>, principal: string, now: int, ss: seq<Sighting>, limits: Limits)
    requires limits.Valid()
    ensures var st := Run(Store([], sightings), ops, limits);
            && Inv(st, limits)
            && (FitsReserve(Load(Incoming(st.rows, principal, now, ss), None, All), limits)
                && (forall r | r in st.rows :: r.subject !in Current(principal, ss))
                ==> Stage(st, principal, now, ss, limits).Ok?)
  {
    RunKeeps(Store([], sightings), ops, limits);
    var st := Run(Store([], sightings), ops, limits);
    if FitsReserve(Load(Incoming(st.rows, principal, now, ss), None, All), limits)
       && forall r | r in st.rows :: r.subject !in Current(principal, ss) {
      NewcomerFits(st, principal, now, ss, limits);
    }
  }

  /** Evicted subjects had rows. */
  lemma {:induction false} RoomEvicts(
    rows: seq<Row>, principal: string, staged: Amount, current: set<Subject>, limits: Limits, evicted: seq<Subject>)
    requires MakeRoom(rows, principal, staged, current, limits, evicted).Ok?
    ensures var evicted' := MakeRoom(rows, principal, staged, current, limits, evicted).value.1;
            forall s | s in evicted' && s !in evicted :: HadRow(rows, s)
    decreases |rows|
  {
    if PrincipalOver(rows, principal, staged, limits) || GlobalOver(rows, staged, limits) {
      var v := Victim(rows, |rows|, Scope(rows, principal, staged, limits), PinnedSubjects(rows) + current);
      var subject := rows[v.value].subject;
      var rows1 := Remaining(rows, Whole(subject));
      RemainingShrinks(rows, Whole(subject));
      RoomEvicts(rows1, principal, staged, current, limits, evicted + [subject]);
      var evicted' := MakeRoom(rows1, principal, staged, current, limits, evicted + [subject]).value.1;
      forall s | s in evicted' && s !in evicted ensures HadRow(rows, s) {
        if s == subject {
          assert rows[v.value] in rows;
        } else {
          var r :| r in rows1 && r.subject == s;
          RemainingMember(rows, Whole(subject), r);
        }
      }
    }
  }

  ghost predicate HadRow(rows: seq<Row>, s: Subject) {
    exists r :: r in rows && r.subject == s
  }

  lemma KeptIsStaged(kept: seq<Row>, incoming: seq<Row>, r: Row)
    requires r in kept
    ensures Staged(kept + incoming, r.subject.hardware)
  {
    var i :| 0 <= i < |kept| && kept[i] == r;
    assert (kept + incoming)[i] == r;
  }

  /** A subject that had rows and has none left lost them to expiry or to eviction. */
  lemma LostIsGone(
    rows: seq<Row>, now: int, limits: Limits, principal: string, staged: Amount, held: set<Subject>,
    kept: seq<Row>, evicted: seq<Subject>, incoming: seq<Row>, s: Subject)
    requires Roomy(Unexpired(rows, now, limits), principal, staged, held, limits, kept, evicted)
    requires HadRow(rows, s) && !Staged(kept + incoming, s.hardware)
    ensures s in ExpiredSubjects(rows, now - limits.maxAge) + Elements(evicted)
  {
    var r :| r in rows && r.subject == s;
    UnexpiredMember(rows, now, limits, r);
    if r in Unexpired(rows, now, limits) {
      assert r !in kept by {
        if r in kept { KeptIsStaged(kept, incoming, r); }
      }
      assert s in evicted;
    } else {
      var i :| 0 <= i < |rows| && rows[i] == r;
      assert Removes(Before(now - limits.maxAge, PinnedSubjects(rows)), rows[i]);
    }
  }

  lemma GoneHadRows(rows: seq<Row>, now: int, limits: Limits, evicted: seq<Subject>, s: Subject)
    requires forall s | s in evicted :: HadRow(Unexpired(rows, now, limits), s)
    requires s in ExpiredSubjects(rows, now - limits.maxAge) + Elements(evicted)
    ensures HadRow(rows, s)
  {
    if s in Elements(evicted) {
      assert s in evicted;
      var r :| r in Unexpired(rows, now, limits) && r.subject == s;
      UnexpiredMember(rows, now, limits, r);
    } else {
      var i :| 0 <= i < |rows| && rows[i].subject == s;
      assert rows[i] in rows;
    }
  }

  /**
   A sighting disappears exactly with the last staged row of its hardware, if its own subject had
   rows at all, and never a legacy one.
   */
  lemma SightingsOutliveRows(st: Store, principal: string, now: int, ss: seq<Sighting>, limits: Limits)
    requires Stage(st, principal, now, ss, limits).Ok?
    ensures var st' := Stage(st, principal, now, ss, limits).value.0;
            && (forall h | h in st'.sightings :: h in st.sightings && st'.sightings[h] == st.sightings[h])
            && (forall h | h in st.sightings ::
                  h !in st'.sightings
                  <==> && ss != [] && st.sightings[h] != "legacy:unknown"
                       && HadRow(st.rows, Subject(st.sightings[h], h))
                       && forall r | r in st'.rows :: r.subject.hardware != h)
  {
    var st' := Stage(st, principal, now, ss, limits).value.0;
    if ss != [] {
      var staged := Load(Incoming(st.rows, principal, now, ss), None, All);
      var live := Unexpired(st.rows, now, limits);
      RoomEvicts(live, principal, staged, Current(principal, ss), limits, []);
      RoomKeeps(live, principal, staged, Current(principal, ss), limits, []);
      var (kept, evicted) := MakeRoom(live, principal, staged, Current(principal, ss), limits, []).value;
      var held := PinnedSubjects(live) + Current(principal, ss);
      var gone := ExpiredSubjects(st.rows, now - limits.maxAge) + Elements(evicted);
      forall h | h in st.sightings
        ensures Staged(st'.rows, h) <==> exists r :: r in st'.rows && r.subject.hardware == h
        ensures !Staged(st'.rows, h) ==> (Subject(st.sightings[h], h) in gone <==> HadRow(st.rows, Subject(st.sightings[h], h)))
      {
        var s := Subject(st.sightings[h], h);
        if s in gone { GoneHadRows(st.rows, now, limits, evicted, s); }
        if HadRow(st.rows, s) && !Staged(st'.rows, h) {
          LostIsGone(st.rows, now, limits, principal, staged, held, kept, evicted, Incoming(st.rows, principal, now, ss), s);
        }
      }
    }
  }

  // ---------------------------------------------------------------------------
  // Totals, counted row by row
  // ---------------------------------------------------------------------------

  /** Of the principal asked for, if any; pinned, or of one of the subjects, if that is asked. */
  predicate Counted(r: Row, scope: Option<string>, which: Which) {
    && (scope.Some? ==> r.subject.principal == scope.value)
    && (which == Pinned ==> r.pinned) && (which.Of? ==> r.subject in which.subjects)
  }

  function Tally(rows: seq<Row>, scope: Option<string>, which: Which): Amount {
    if rows == [] then Amount(0, 0)
    else
      var before, last := Tally(rows[..|rows| - 1], scope, which), rows[|rows| - 1];
      if Counted(last, scope, which) then Amount(before.rows + 1, before.bytes + last.bytes) else before
  }

  /** Every total is a count of rows and of their bytes: of one principal or all, pinned, or of some subjects. */
  lemma {:induction false} LoadExact(rows: seq<Row>, scope: Option<string>, which: Which)
    ensures Load(rows, scope, which) == Tally(rows, scope, which)
  {
    if rows != [] { LoadExact(rows[..|rows| - 1], scope, which); }
  }

  function Bytes(ss: seq<Sighting>): nat {
    if ss == [] then 0 else Bytes(ss[..|ss| - 1]) + |ss[|ss| - 1].payload|
  }

  lemma {:induction false} IncomingLoad(rows: seq<Row>, principal: string, now: int, ss: seq<Sighting>)
    ensures Load(Incoming(rows, principal, now, ss), None, All) == Amount(|ss|, Bytes(ss))
  {
    if ss != [] {
      IncomingLoad(rows, principal, now, ss[..|ss| - 1]);
      assert Incoming(rows, principal, now, ss)[..|ss| - 1] == Incoming(rows, principal, now, ss[..|ss| - 1]);
    }
  }

  /**
   Each refusal for its own reason: an envelope of more rows or bytes than the reserve is too
   large; one that adds to pinned rows must leave the reserve free per principal and overall; any
   other is refused only because rows that may not be evicted leave no room.
   */
  lemma StageRefusals(st: Store, principal: string, now: int, ss: seq<Sighting>, limits: Limits)
    ensures var r := Stage(st, principal, now, ss, limits);
            var more := Load(Incoming(st.rows, principal, now, ss), None, Pinned);
            && (r == Err(EnvelopeTooLarge) <==> TooLarge(ss, limits))
            && (r == Err(PinGrowth)
                <==> !TooLarge(ss, limits) && ss != [] && more.rows > 0 && Crowds(st.rows, principal, more, limits))
            && (ss == [] && !TooLarge(ss, limits) ==> r == Ok((st, Admission(0, 0))))
            && (r.Err? ==> r.error != NoSuchSubject)
  {
    var incoming := Incoming(st.rows, principal, now, ss);
    StageCodes(st, principal, now, ss, limits, Load(incoming, None, All), Load(incoming, None, Pinned));
    IncomingLoad(st.rows, principal, now, ss);
    ReserveExact(ss, limits);
    CrowdsExact(st.rows, principal, Load(incoming, None, Pinned), limits);
  }

  lemma StageCodes(
    st: Store, principal: string, now: int, ss: seq<Sighting>, limits: Limits, staged: Amount, inherited: Amount)
    requires var incoming := Incoming(st.rows, principal, now, ss);
             staged == Load(incoming, None, All) && inherited == Load(incoming, None, Pinned)
    ensures var r := Stage(st, principal, now, ss, limits);
            && (r == Err(EnvelopeTooLarge) <==> !FitsReserve(staged, limits))
            && (r == Err(PinGrowth)
                <==> FitsReserve(staged, limits) && ss != [] && inherited.rows > 0 && !PinsFit(st.rows, principal, inherited, limits))
            && (ss == [] && FitsReserve(staged, limits) ==> r == Ok((st, Admission(0, 0))))
            && (r.Err? ==> r.error != NoSuchSubject)
  {
    AdmitRefuses(st, principal, now, ss, limits, staged);
  }

  lemma ReserveExact(ss: seq<Sighting>, limits: Limits)
    ensures FitsReserve(Amount(|ss|, Bytes(ss)), limits) <==> !TooLarge(ss, limits)
  {
  }

  predicate TooLarge(ss: seq<Sighting>, limits: Limits) {
    || |ss| > limits.reserveRows || Bytes(ss) > limits.reserveBytes
    || |ss| > limits.principalRows || Bytes(ss) > limits.principalBytes
  }

  /** So many more pinned rows and bytes would eat into the reserve, of the table or of the principal. */
  predicate Crowds(rows: seq<Row>, principal: string, more: Amount, limits: Limits) {
    var all, mine := Load(rows, None, Pinned), Load(rows, Some(principal), Pinned);
    || all.rows + more.rows > limits.globalRows - limits.reserveRows
    || all.bytes + more.bytes > limits.globalBytes - limits.reserveBytes
    || mine.rows + more.rows > limits.principalRows - limits.reserveRows
    || mine.bytes + more.bytes > limits.principalBytes - limits.reserveBytes
  }

  lemma CrowdsExact(rows: seq<Row>, principal: string, more: Amount, limits: Limits)
    ensures PinsFit(rows, principal, more, limits) <==> !Crowds(rows, principal, more, limits)
  {
  }

  lemma AdmitRefuses(st: Store, principal: string, now: int, ss: seq<Sighting>, limits: Limits, staged: Amount)
    ensures var r := Admit(st, principal, now, ss, limits, staged); r.Err? ==> r.error == Protected
  {
    RoomRefuses(Unexpired(st.rows, now, limits), principal, staged, Current(principal, ss), limits, []);
  }

  lemma {:induction false} RoomRefuses(
    rows: seq<Row>, principal: string, staged: Amount, current: set<Subject>, limits: Limits, evicted: seq<Subject>)
    ensures var r := MakeRoom(rows, principal, staged, current, limits, evicted); r.Err? ==> r.error == Protected
    decreases |rows|
  {
    if PrincipalOver(rows, principal, staged, limits) || GlobalOver(rows, staged, limits) {
      var v := Victim(rows, |rows|, Scope(rows, principal, staged, limits), PinnedSubjects(rows) + current);
      if v.Some? {
        RemainingShrinks(rows, Whole(rows[v.value].subject));
        RoomRefuses(Remaining(rows, Whole(rows[v.value].subject)), principal, staged, current, limits,
                    evicted + [rows[v.value].subject]);
      }
    }
  }

  // ---------------------------------------------------------------------------
  // Eviction is forced
  // ---------------------------------------------------------------------------

  /** Someone's limit is passed: the principal's, or if not, that of the whole table. */
  predicate Over(rows: seq<Row>, scope: Option<string>, staged: Amount, limits: Limits) {
    var load := Load(rows, scope, All);
    if scope.Some?
    then load.rows + staged.rows > limits.principalRows || load.bytes + staged.bytes > limits.principalBytes
    else load.rows + staged.rows > limits.globalRows || load.bytes + staged.bytes > limits.globalBytes
  }

  /** May be evicted for the principal's sake, or for that of the table. */
  predicate MayGo(rows: seq<Row>, r: Row, scope: Option<string>, current: set<Subject>) {
    (scope.Some? ==> r.subject.principal == scope.value) && !HasPin(rows, r.subject) && r.subject !in current
  }

  /**
   The subject had to go: the principal's own limit was passed and it is one of the principal's
   subjects, or else the table's; and among those that may go it has the earliest row.
   */
  ghost predicate Forced(rows: seq<Row>, s: Subject, principal: string, staged: Amount, current: set<Subject>, limits: Limits) {
    var scope := if Over(rows, Some(principal), staged, limits) then Some(principal) else None;
    && Over(rows, scope, staged, limits)
    && exists q :: q in rows && q.subject == s && MayGo(rows, q, scope, current)
                   && forall r | r in rows && MayGo(rows, r, scope, current) :: q.receivedAt <= r.receivedAt
  }

  /** One after the other was forced, and in the end everything fits. */
  ghost predicate AllForced(
    rows: seq<Row>, evicted: seq<Subject>, principal: string, staged: Amount, current: set<Subject>, limits: Limits, kept: seq<Row>)
    decreases |evicted|
  {
    if evicted == [] then kept == rows && !Over(rows, Some(principal), staged, limits) && !Over(rows, None, staged, limits)
    else
      && Forced(rows, evicted[0], principal, staged, current, limits)
      && AllForced(Remaining(rows, Whole(evicted[0])), evicted[1..], principal, staged, current, limits, kept)
  }

  lemma {:induction false} MinAtFacts(rows: seq<Row>, subject: Subject, bound: int)
    ensures var m := MinAt(rows, subject, bound);
            && m <= bound && (forall i | 0 <= i < |rows| && rows[i].subject == subject :: m <= rows[i].receivedAt)
            && (m == bound || exists i :: 0 <= i < |rows| && rows[i].subject == subject && rows[i].receivedAt == m)
  {
    if rows != [] {
      var before := rows[..|rows| - 1];
      MinAtFacts(before, subject, bound);
      if i :| 0 <= i < |before| && before[i].subject == subject && before[i].receivedAt == MinAt(before, subject, bound) {
        assert rows[i] == before[i];
      }
    }
  }

  lemma VictimIsForced(rows: seq<Row>, principal: string, staged: Amount, current: set<Subject>, limits: Limits)
    requires PrincipalOver(rows, principal, staged, limits) || GlobalOver(rows, staged, limits)
    requires Victim(rows, |rows|, Scope(rows, principal, staged, limits), PinnedSubjects(rows) + current).Some?
    ensures var v := Victim(rows, |rows|, Scope(rows, principal, staged, limits), PinnedSubjects(rows) + current).value;
            Forced(rows, rows[v].subject, principal, staged, current, limits)
  {
    var scope, held := Scope(rows, principal, staged, limits), PinnedSubjects(rows) + current;
    var v := Victim(rows, |rows|, scope, held).value;
    VictimIsOldest(rows, |rows|, scope, held);
    MinAtFacts(rows, rows[v].subject, rows[v].receivedAt);
    var i :| 0 <= i < |rows| && rows[i].subject == rows[v].subject && rows[i].receivedAt == Age(rows, v);
    forall r | r in rows && MayGo(rows, r, scope, current) ensures rows[i].receivedAt <= r.receivedAt {
      var k: nat :| k < |rows| && rows[k] == r;
      assert Evictable(rows[k], scope, held);
      MinAtFacts(rows, rows[k].subject, rows[k].receivedAt);
    }
    assert rows[i] in rows && MayGo(rows, rows[i], scope, current);
  }

  lemma {:induction false} RoomIsForced(
    rows: seq<Row>, principal: string, staged: Amount, current: set<Subject>, limits: Limits, before: seq<Subject>)
    requires MakeRoom(rows, principal, staged, current, limits, before).Ok?
    ensures var (kept, all) := MakeRoom(rows, principal, staged, current, limits, before).value;
            before <= all && AllForced(rows, all[|before|..], principal, staged, current, limits, kept)
    decreases |rows|
  {
    if PrincipalOver(rows, principal, staged, limits) || GlobalOver(rows, staged, limits) {
      var v := Victim(rows, |rows|, Scope(rows, principal, staged, limits), PinnedSubjects(rows) + current);
      var subject := rows[v.value].subject;
      var rows1 := Remaining(rows, Whole(subject));
      VictimIsForced(rows, principal, staged, current, limits);
      RemainingShrinks(rows, Whole(subject));
      RoomIsForced(rows1, principal, staged, current, limits, before + [subject]);
      var (kept, all) := MakeRoom(rows1, principal, staged, current, limits, before + [subject]).value;
      ForcedFirst(rows, subject, before, all, principal, staged, current, limits, kept);
    } else {
      ForcedNone(rows, principal, staged, current, limits);
    }
  }

  lemma ForcedNone(rows: seq<Row>, principal: string, staged: Amount, current: set<Subject>, limits: Limits)
    requires !PrincipalOver(rows, principal, staged, limits) && !GlobalOver(rows, staged, limits)
    ensures AllForced(rows, [], principal, staged, current, limits, rows)
  {
  }

  lemma ForcedFirst(
    rows: seq<Row>, subject: Subject, before: seq<Subject>, all: seq<Subject>, principal: string, staged: Amount,
    current: set<Subject>, limits: Limits, kept: seq<Row>)
    requires Forced(rows, subject, principal, staged, current, limits)
    requires before + [subject] <= all
    requires AllForced(Remaining(rows, Whole(subject)), all[|before| + 1..], principal, staged, current, limits, kept)
    ensures before <= all && AllForced(rows, all[|before|..], principal, staged, current, limits, kept)
  {
    assert all[|before|] == (before + [subject])[|before|];
    assert all[|before|..][1..] == all[|before| + 1..];
  }

  function Room(st: Store, principal: string, now: int, ss: seq<Sighting>, limits: Limits)
    : Result<(seq<Row>, seq<Subject>), Refusal>
  {
    MakeRoom(Unexpired(st.rows, now, limits), principal, Amount(|ss|, Bytes(ss)), Current(principal, ss), limits, [])
  }

  lemma StageShape(st: Store, principal: string, now: int, ss: seq<Sighting>, limits: Limits)
    requires ss != [] && Stage(st, principal, now, ss, limits).Ok?
    ensures Room(st, principal, now, ss, limits).Ok?
    ensures var (st', admission) := Stage(st, principal, now, ss, limits).value;
            var (kept, evicted) := Room(st, principal, now, ss, limits).value;
            && |st'.rows| == |kept| + |ss| && st'.rows[..|kept|] == kept
            && admission == Admission(|ExpiredSubjects(st.rows, now - limits.maxAge)|, |evicted|)
  {
    IncomingLoad(st.rows, principal, now, ss);
  }

  lemma RoomForced(st: Store, principal: string, now: int, ss: seq<Sighting>, limits: Limits)
    requires Room(st, principal, now, ss, limits).Ok?
    ensures var (kept, evicted) := Room(st, principal, now, ss, limits).value;
            AllForced(Unexpired(st.rows, now, limits), evicted, principal, Amount(|ss|, Bytes(ss)), Current(principal, ss),
                      limits, kept)
  {
    RoomIsForced(Unexpired(st.rows, now, limits), principal, Amount(|ss|, Bytes(ss)), Current(principal, ss), limits, []);
    var evicted := Room(st, principal, now, ss, limits).value.1;
    assert evicted[0..] == evicted;
  }

  /**
   Staging evicts no more than it must: starting from the unexpired rows, each evicted subject had
   to go while a limit was passed, oldest first, and the counts reported are those of the evicted
   subjects and of the subjects that lost a row to expiry.
   */
  lemma EvictionIsForced(st: Store, principal: string, now: int, ss: seq<Sighting>, limits: Limits)
    returns (evicted: seq<Subject>)
    requires ss != [] && Stage(st, principal, now, ss, limits).Ok?
    ensures var (st', admission) := Stage(st, principal, now, ss, limits).value;
            && |ss| <= |st'.rows| && admission.evicted == |evicted|
            && admission.expired
               == |set r | r in st.rows && r.receivedAt < now - limits.maxAge && !HasPin(st.rows, r.subject) :: r.subject|
            && AllForced(Unexpired(st.rows, now, limits), evicted, principal, Amount(|ss|, Bytes(ss)), Current(principal, ss),
                         limits, st'.rows[..|st'.rows| - |ss|])
  {
    StageShape(st, principal, now, ss, limits);
    RoomForced(st, principal, now, ss, limits);
    ExpiredExact(st.rows, now - limits.maxAge);
    evicted := Room(st, principal, now, ss, limits).value.1;
  }

  lemma ExpiredExact(rows: seq<Row>, cutoff: int)
    ensures ExpiredSubjects(rows, cutoff) == set r | r in rows && r.receivedAt < cutoff && !HasPin(rows, r.subject) :: r.subject
  {
    var subjects := set r | r in rows && r.receivedAt < cutoff && !HasPin(rows, r.subject) :: r.subject;
    forall s | s in ExpiredSubjects(rows, cutoff) ensures s in subjects {
      var i :| 0 <= i < |rows| && Removes(Before(cutoff, PinnedSubjects(rows)), rows[i]) && rows[i].subject == s;
      assert rows[i] in rows;
    }
    forall s | s in subjects ensures s in ExpiredSubjects(rows, cutoff) {
      var r :| r in rows && r.receivedAt < cutoff && !HasPin(rows, r.subject) && r.subject == s;
      var i :| 0 <= i < |rows| && rows[i] == r;
      assert Removes(Before(cutoff, PinnedSubjects(rows)), rows[i]);
    }
  }

  // ---------------------------------------------------------------------------
  // Pinning
  // ---------------------------------------------------------------------------

  /**
   A pin is set exactly if the subject has rows and, unless it is pinned already or being unpinned,
   its rows fit beside the other pinned rows without touching the reserve; then all its rows carry
   it and no other row changes.
   */
  lemma PinExact(st: Store, subject: Subject, pinned: bool, limits: Limits)
    ensures var r := SetPin(st, subject, pinned, limits);
            var own := Load(st.rows, None, Of({subject}));
            && (r == Err(NoSuchSubject) <==> forall i | 0 <= i < |st.rows| :: st.rows[i].subject != subject)
            && (r == Err(PinGrowth)
                <==> && r != Err(NoSuchSubject) && pinned && !HasPin(st.rows, subject)
                     && Crowds(st.rows, subject.principal, own, limits))
            && (r.Ok? <==> r != Err(NoSuchSubject) && r != Err(PinGrowth))
            && (r.Ok? ==>
                  && r.value.sightings == st.sightings && |r.value.rows| == |st.rows|
                  && forall i | 0 <= i < |st.rows| ::
                       r.value.rows[i] == if st.rows[i].subject == subject then st.rows[i].(pinned := pinned) else st.rows[i])
  {
    SubjectLoad(st.rows, subject);
    CrowdsExact(st.rows, subject.principal, Load(st.rows, None, Of({subject})), limits);
  }

  lemma {:induction false} SubjectLoad(rows: seq<Row>, subject: Subject)
    ensures Load(rows, None, Of({subject})).rows == 0 <==> forall i | 0 <= i < |rows| :: rows[i].subject != subject
  {
    if rows != [] {
      SubjectLoad(rows[..|rows| - 1], subject);
      assert forall i | 0 <= i < |rows| - 1 :: rows[..|rows| - 1][i] == rows[i];
    }
  }
}
