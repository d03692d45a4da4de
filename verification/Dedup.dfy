/**
 The bounded claim table that makes ingest idempotent: one row per principal and envelope id,
 held for a time window and evicted oldest first when a row bound would be passed.
 */
module Dedup {
  import opened Types

  datatype Limits = Limits(globalRows: int, principalRows: int, maxAge: int) {
    predicate Valid() {
      0 < principalRows <= globalRows && 0 < maxAge
    }
  }

  datatype Claim = Claim(principal: string, envelope: string, receivedAt: int)

  /** The table, in row-id order. */
  type Claims = seq<Claim>

  predicate Of(c: Claim, principal: Option<string>) {
    principal.None? || c.principal == principal.value
  }

  /** Rows of one principal, or of all. */
  function Count(rows: Claims, principal: Option<string>): nat {
    if rows == [] then 0
    else Count(rows[..|rows| - 1], principal) + if Of(rows[|rows| - 1], principal) then 1 else 0
  }

  /** Row with the smallest receive time, the earliest row id among equals. */
  function Oldest(rows: Claims, principal: Option<string>): (r: Option<nat>)
    ensures r.Some? ==> r.value < |rows| && Of(rows[r.value], principal)
  {
    if rows == [] then None
    else
      var last := rows[|rows| - 1];
      var r := Oldest(rows[..|rows| - 1], principal);
      if Of(last, principal) && (r.None? || last.receivedAt < rows[r.value].receivedAt) then Some(|rows| - 1) else r
  }

  lemma {:induction false} OldestFacts(rows: Claims, principal: Option<string>)
    ensures var r := Oldest(rows, principal);
            && (r.None? <==> Count(rows, principal) == 0)
            && (r.None? ==> forall j | 0 <= j < |rows| :: !Of(rows[j], principal))
            && (r.Some? ==> forall j | 0 <= j < |rows| && Of(rows[j], principal) ::
                  || rows[r.value].receivedAt < rows[j].receivedAt
                  || (rows[r.value].receivedAt == rows[j].receivedAt && r.value <= j))
  {
    if rows != [] {
      var before := rows[..|rows| - 1];
      OldestFacts(before, principal);
      assert forall j | 0 <= j < |before| :: rows[j] == before[j];
    }
  }

  function Remove(rows: Claims, i: nat): Claims
    requires i < |rows|
  {
    rows[..i] + rows[i + 1..]
  }

  /** Index of the claim for this principal and envelope, or the length. */
  function Find(rows: Claims, principal: string, envelope: string): (i: nat)
    ensures i <= |rows|
    ensures i < |rows| ==> rows[i].principal == principal && rows[i].envelope == envelope
    ensures forall j | 0 <= j < i :: !(rows[j].principal == principal && rows[j].envelope == envelope)
  {
    if rows == [] || (rows[0].principal == principal && rows[0].envelope == envelope) then 0
    else 1 + Find(rows[1..], principal, envelope)
  }

  predicate Full(rows: Claims, principal: string, limits: Limits) {
    Count(rows, Some(principal)) >= limits.principalRows || |rows| >= limits.globalRows
  }

  /** Whose oldest row goes next: the claimant's own if its bound is reached, anyone's otherwise. */
  function Scope(rows: Claims, principal: string, limits: Limits): Option<string> {
    if Count(rows, Some(principal)) >= limits.principalRows then Some(principal) else None
  }

  lemma VictimExists(rows: Claims, principal: string, limits: Limits)
    requires limits.Valid() && Full(rows, principal, limits)
    ensures Oldest(rows, Scope(rows, principal, limits)).Some?
  {
    OldestFacts(rows, Scope(rows, principal, limits));
    CountAll(rows);
  }

  lemma {:induction false} CountAll(rows: Claims)
    ensures Count(rows, None) == |rows|
  {
    if rows != [] { CountAll(rows[..|rows| - 1]); }
  }

  function MakeRoom(rows: Claims, principal: string, limits: Limits): Claims
    requires limits.Valid()
    decreases |rows|
  {
    if !Full(rows, principal, limits) then rows
    else
      VictimExists(rows, principal, limits);
      MakeRoom(Remove(rows, Oldest(rows, Scope(rows, principal, limits)).value), principal, limits)
  }

  /** Whether the claim is the first in its window, and the table afterwards. */
  function Claimed(rows: Claims, principal: string, envelope: string, now: int, limits: Limits): (bool, Claims)
    requires limits.Valid()
  {
    var i := Find(rows, principal, envelope);
    if i < |rows| && rows[i].receivedAt >= now - limits.maxAge then (false, rows)
    else if i < |rows| then (true, rows[i := rows[i].(receivedAt := now)])
    else (true, MakeRoom(rows, principal, limits) + [Claim(principal, envelope, now)])
  }

  method TryClaim(start: Claims, principal: string, envelope: string, now: int, limits: Limits)
    returns (first: bool, rows: Claims)
    requires limits.Valid()
    ensures (first, rows) == Claimed(start, principal, envelope, now, limits)
  {
    rows := start;
    var cutoff := now - limits.maxAge;
    var i := Find(rows, principal, envelope);
    if i < |rows| && rows[i].receivedAt >= cutoff { return false, rows; }
    if i < |rows| && rows[i].receivedAt < now {
      return true, rows[i := rows[i].(receivedAt := now)];
    }
    while true
      invariant MakeRoom(rows, principal, limits) == MakeRoom(start, principal, limits)
      decreases |rows|
    {
      var principalCount, globalCount := Count(rows, Some(principal)), |rows|;
      if principalCount < limits.principalRows && globalCount < limits.globalRows { break; }
      VictimExists(rows, principal, limits);
      var victim := if principalCount >= limits.principalRows then Oldest(rows, Some(principal))
                    else Oldest(rows, None);
      rows := Remove(rows, victim.value);
    }
    return true, rows + [Claim(principal, envelope, now)];
  }

  // ---------------------------------------------------------------------------
  // Bounds
  // ---------------------------------------------------------------------------

  predicate DistinctKeys(rows: Claims) {
    forall i, j | 0 <= i < j < |rows| ::
      rows[i].principal != rows[j].principal || rows[i].envelope != rows[j].envelope
  }

  ghost predicate WithinBounds(rows: Claims, limits: Limits) {
    |rows| <= limits.globalRows && forall p: string :: Count(rows, Some(p)) <= limits.principalRows
  }

  lemma {:induction false} CountConcat(a: Claims, b: Claims, principal: Option<string>)
    ensures Count(a + b, principal) == Count(a, principal) + Count(b, principal)
    decreases |b|
  {
    if b == [] {
      assert a + b == a;
    } else {
      CountConcat(a, b[..|b| - 1], principal);
      assert (a + b)[..|a + b| - 1] == a + b[..|b| - 1];
    }
  }

  lemma CountRemove(rows: Claims, i: nat, principal: Option<string>)
    requires i < |rows|
    ensures Count(rows, principal) == Count(Remove(rows, i), principal) + if Of(rows[i], principal) then 1 else 0
  {
    assert rows == rows[..i] + ([rows[i]] + rows[i + 1..]);
    CountConcat(rows[..i], [rows[i]] + rows[i + 1..], principal);
    CountConcat([rows[i]], rows[i + 1..], principal);
    CountConcat(rows[..i], rows[i + 1..], principal);
    assert [rows[i]][..0] == [];
  }

  /** Each remaining row was there before, in the same order, and counts only shrink. */
  lemma {:induction false} RoomFacts(rows: Claims, principal: string, limits: Limits, other: Option<string>)
    requires limits.Valid()
    ensures var room := MakeRoom(rows, principal, limits);
            && !Full(room, principal, limits)
            && Count(room, other) <= Count(rows, other)
            && (forall i | 0 <= i < |room| :: room[i] in rows)
            && (DistinctKeys(rows) ==> DistinctKeys(room))
    decreases |rows|
  {
    if Full(rows, principal, limits) {
      VictimExists(rows, principal, limits);
      var i := Oldest(rows, Scope(rows, principal, limits)).value;
      RoomFacts(Remove(rows, i), principal, limits, other);
      CountRemove(rows, i, other);
    }
  }

  lemma {:induction false} CountReplace(rows: Claims, i: nat, at: int, principal: Option<string>)
    requires i < |rows|
    ensures Count(rows[i := rows[i].(receivedAt := at)], principal) == Count(rows, principal)
    decreases |rows|
  {
    var rows' := rows[i := rows[i].(receivedAt := at)];
    if i == |rows| - 1 {
      assert rows'[..|rows| - 1] == rows[..|rows| - 1];
    } else {
      CountReplace(rows[..|rows| - 1], i, at, principal);
      assert rows'[..|rows| - 1] == rows[..|rows| - 1][i := rows[i].(receivedAt := at)];
    }
  }

  lemma RefreshKeeps(rows: Claims, i: nat, at: int, limits: Limits)
    requires i < |rows| && DistinctKeys(rows)
    ensures var rows' := rows[i := rows[i].(receivedAt := at)];
            DistinctKeys(rows') && (WithinBounds(rows, limits) ==> WithinBounds(rows', limits))
  {
    forall p: string ensures Count(rows[i := rows[i].(receivedAt := at)], Some(p)) == Count(rows, Some(p)) {
      CountReplace(rows, i, at, Some(p));
    }
  }

  lemma CountAppend(rows: Claims, c: Claim, principal: Option<string>)
    ensures Count(rows + [c], principal) == Count(rows, principal) + if Of(c, principal) then 1 else 0
  {
    assert (rows + [c])[..|rows|] == rows;
  }

  lemma InsertKeys(rows: Claims, c: Claim)
    requires DistinctKeys(rows)
    requires forall i | 0 <= i < |rows| :: rows[i].principal != c.principal || rows[i].envelope != c.envelope
    ensures DistinctKeys(rows + [c])
  {
  }

  lemma InsertBounds(rows: Claims, c: Claim, limits: Limits)
    requires limits.Valid() && WithinBounds(rows, limits)
    ensures WithinBounds(MakeRoom(rows, c.principal, limits) + [c], limits)
  {
    var room := MakeRoom(rows, c.principal, limits);
    RoomFacts(rows, c.principal, limits, None);
    forall p: string ensures Count(room + [c], Some(p)) <= limits.principalRows {
      RoomFacts(rows, c.principal, limits, Some(p));
      CountAppend(room, c, Some(p));
    }
  }

  /** A claim keeps keys unique and both bounds, and whatever it says the pair is then held in window. */
  lemma ClaimKeepsBounds(rows: Claims, principal: string, envelope: string, now: int, limits: Limits)
    requires limits.Valid() && DistinctKeys(rows)
    ensures var (first, rows') := Claimed(rows, principal, envelope, now, limits);
            && DistinctKeys(rows')
            && (WithinBounds(rows, limits) ==> WithinBounds(rows', limits))
            && (exists i :: 0 <= i < |rows'| && rows'[i].principal == principal && rows'[i].envelope == envelope
                            && rows'[i].receivedAt >= now - limits.maxAge)
  {
    var rows' := Claimed(rows, principal, envelope, now, limits).1;
    var i := Find(rows, principal, envelope);
    if i < |rows| {
      RefreshKeeps(rows, i, now, limits);
      assert rows'[i].principal == principal && rows'[i].envelope == envelope;
    } else {
      var room, c := MakeRoom(rows, principal, limits), Claim(principal, envelope, now);
      RoomFacts(rows, principal, limits, None);
      InsertKeys(room, c);
      if WithinBounds(rows, limits) { InsertBounds(rows, c, limits); }
      assert rows'[|room|] == c;
    }
  }

  // ---------------------------------------------------------------------------
  // What may be evicted
  // ---------------------------------------------------------------------------

  /** Rows of one principal, or of all, received no earlier than `at`. */
  function NoEarlier(rows: Claims, principal: Option<string>, at: int): nat {
    if rows == [] then 0
    else
      NoEarlier(rows[..|rows| - 1], principal, at)
      + if Of(rows[|rows| - 1], principal) && rows[|rows| - 1].receivedAt >= at then 1 else 0
  }

  lemma {:induction false} AllNoEarlier(rows: Claims, principal: Option<string>, at: int)
    requires forall j | 0 <= j < |rows| && Of(rows[j], principal) :: rows[j].receivedAt >= at
    ensures NoEarlier(rows, principal, at) == Count(rows, principal)
  {
    if rows != [] { AllNoEarlier(rows[..|rows| - 1], principal, at); }
  }

  lemma {:induction false} NoEarlierConcat(a: Claims, b: Claims, principal: Option<string>, at: int)
    ensures NoEarlier(a + b, principal, at) == NoEarlier(a, principal, at) + NoEarlier(b, principal, at)
    decreases |b|
  {
    if b == [] {
      assert a + b == a;
    } else {
      NoEarlierConcat(a, b[..|b| - 1], principal, at);
      assert (a + b)[..|a + b| - 1] == a + b[..|b| - 1];
    }
  }

  lemma NoEarlierRemove(rows: Claims, i: nat, principal: Option<string>, at: int)
    requires i < |rows|
    ensures NoEarlier(Remove(rows, i), principal, at) <= NoEarlier(rows, principal, at)
  {
    assert rows == rows[..i] + ([rows[i]] + rows[i + 1..]);
    NoEarlierConcat(rows[..i], [rows[i]] + rows[i + 1..], principal, at);
    NoEarlierConcat([rows[i]], rows[i + 1..], principal, at);
    NoEarlierConcat(rows[..i], rows[i + 1..], principal, at);
  }

  /**
   The row is crowded out: counting itself, its principal holds `principalRows` rows received no
   earlier than it, or the table holds `globalRows` such rows.
   */
  predicate CrowdedOut(rows: Claims, c: Claim, limits: Limits) {
    || NoEarlier(rows, Some(c.principal), c.receivedAt) >= limits.principalRows
    || NoEarlier(rows, None, c.receivedAt) >= limits.globalRows
  }

  lemma VictimIsCrowdedOut(rows: Claims, principal: string, limits: Limits)
    requires limits.Valid() && Full(rows, principal, limits)
    ensures Oldest(rows, Scope(rows, principal, limits)).Some?
    ensures CrowdedOut(rows, rows[Oldest(rows, Scope(rows, principal, limits)).value], limits)
  {
    VictimExists(rows, principal, limits);
    var scope := Scope(rows, principal, limits);
    OldestFacts(rows, scope);
    AllNoEarlier(rows, scope, rows[Oldest(rows, scope).value].receivedAt);
    CountAll(rows);
  }

  lemma {:induction false} RoomEvicts(rows: Claims, principal: string, limits: Limits, c: Claim)
    requires limits.Valid() && c in rows && c !in MakeRoom(rows, principal, limits)
    ensures CrowdedOut(rows, c, limits)
    decreases |rows|
  {
    if Full(rows, principal, limits) {
      VictimIsCrowdedOut(rows, principal, limits);
      var i := Oldest(rows, Scope(rows, principal, limits)).value;
      if c in Remove(rows, i) {
        RoomEvicts(Remove(rows, i), principal, limits, c);
        NoEarlierRemove(rows, i, Some(c.principal), c.receivedAt);
        NoEarlierRemove(rows, i, None, c.receivedAt);
      } else {
        assert c == rows[i];
      }
    }
  }

  /** A claim drops another principal-envelope pair only when that row is crowded out. */
  lemma EvictionIsJustified(
    rows: Claims, principal: string, envelope: string, now: int, limits: Limits, c: Claim)
    requires limits.Valid() && c in rows && (c.principal != principal || c.envelope != envelope)
    ensures c !in Claimed(rows, principal, envelope, now, limits).1 ==> CrowdedOut(rows, c, limits)
  {
    var i := Find(rows, principal, envelope);
    if i < |rows| {
      var j :| 0 <= j < |rows| && rows[j] == c;
      assert Claimed(rows, principal, envelope, now, limits).1[j] == c;
    } else if c !in MakeRoom(rows, principal, limits) {
      RoomEvicts(rows, principal, limits, c);
    }
  }

  /** The answer is no exactly when the pair is already held in window. */
  lemma DuplicateExact(rows: Claims, principal: string, envelope: string, now: int, limits: Limits)
    requires limits.Valid() && DistinctKeys(rows)
    ensures !Claimed(rows, principal, envelope, now, limits).0
            <==> exists i :: 0 <= i < |rows| && rows[i].principal == principal && rows[i].envelope == envelope
                             && rows[i].receivedAt >= now - limits.maxAge
  {
    var i := Find(rows, principal, envelope);
    assert forall j | 0 <= j < |rows| && rows[j].principal == principal && rows[j].envelope == envelope :: j == i;
  }

  /**
   A refused claim changes nothing; a first one leaves the pair claimed as of now, once, and adds
   nothing else.
   */
  lemma ClaimExact(rows: Claims, principal: string, envelope: string, now: int, limits: Limits)
    requires limits.Valid() && DistinctKeys(rows)
    ensures var (first, rows') := Claimed(rows, principal, envelope, now, limits);
            && (!first ==> rows' == rows)
            && (first ==>
                  && Claim(principal, envelope, now) in rows'
                  && forall c | c in rows' ::
                       c == Claim(principal, envelope, now)
                       || (c in rows && (c.principal != principal || c.envelope != envelope)))
  {
    var (first, rows') := Claimed(rows, principal, envelope, now, limits);
    var mine := Claim(principal, envelope, now);
    var i := Find(rows, principal, envelope);
    if first {
      if i < |rows| {
        assert rows'[i] == mine;
        assert forall j | 0 <= j < |rows| && j != i :: rows'[j] == rows[j];
      } else {
        RoomFacts(rows, principal, limits, None);
        assert rows'[|rows'| - 1] == mine;
        forall c | c in rows' ensures c == mine || (c in rows && (c.principal != principal || c.envelope != envelope)) {
          var j :| 0 <= j < |rows'| && rows'[j] == c;
          if j < |rows'| - 1 { assert c in rows; }
        }
      }
    }
  }
}
