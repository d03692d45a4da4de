/**
 The life of a device credential: issued, used, proven, confirmed, revoked, with wall-clock
 readings that may jump in either direction.
 */
module Credentials {
  import opened Types

  datatype State = Current | Pending | Revoked

  /** `reissue` marks a credential issued to replace a current one. */
  datatype Credential = Credential(
    id: string, principal: string, epoch: nat, state: State, reissue: bool, issued: int,
    lastUsed: Option<int>, proven: Option<int>, confirmed: Option<int>, revoked: Option<int>)

  datatype Store = Store(rows: seq<Credential>, epoch: nat)

  datatype Error = Conflict | NotFound

  const LAST_USED_INTERVAL := 60_000

  // ---------------------------------------------------------------------------
  // Logical time
  // ---------------------------------------------------------------------------

  function Later(a: int, b: Option<int>): int {
    if b.Some? && b.value > a then b.value else a
  }

  /** The observed time, or the latest time already stored for the credential if that is later. */
  function Logical(observed: int, c: Credential): int {
    Later(Later(Later(Later(observed, Some(c.issued)), c.lastUsed), c.proven), c.confirmed)
  }

  /** No live credential of the principal carries a time after this. */
  function Floor(rows: seq<Credential>, principal: string, now: int): int {
    if rows == [] then now
    else
      var last := rows[|rows| - 1];
      var before := Floor(rows[..|rows| - 1], principal, now);
      if last.principal == principal && last.state != Revoked then Logical(before, last) else before
  }

  // ---------------------------------------------------------------------------
  // Operations
  // ---------------------------------------------------------------------------

  predicate Live(c: Credential) {
    c.state != Revoked
  }

  function Find(rows: seq<Credential>, id: string): (i: nat)
    ensures i <= |rows|
    ensures i < |rows| ==> rows[i].id == id
    ensures forall j | 0 <= j < i :: rows[j].id != id
  {
    if rows == [] || rows[0].id == id then 0 else 1 + Find(rows[1..], id)
  }

  predicate Has(rows: seq<Credential>, principal: string, state: State) {
    exists i :: 0 <= i < |rows| && rows[i].principal == principal && rows[i].state == state
  }

  /** First issue makes a current credential, reissue a pending one; one of each per principal. */
  function Issue(st: Store, id: string, principal: string, reissue: bool, now: int): Result<Store, Error> {
    var state := if reissue then Pending else Current;
    if Find(st.rows, id) < |st.rows| || Has(st.rows, principal, state) then Err(Conflict)
    else Ok(st.(rows := st.rows + [Credential(id, principal, st.epoch, state, reissue, now, None, None, None, None)]))
  }

  function Used(c: Credential, now: int): Credential {
    var at := Logical(now, c);
    var c1 := if c.state == Pending && c.proven.None? then c.(proven := Some(at)) else c;
    if c.lastUsed.None? || now - c.lastUsed.value >= LAST_USED_INTERVAL then c1.(lastUsed := Some(at)) else c1
  }

  /** Presenting the token of a live credential of the current epoch; `usable` is the live-principal view. */
  function Authenticate(st: Store, id: string, usable: bool, now: int): (Store, bool) {
    var i := Find(st.rows, id);
    if i == |st.rows| || !Live(st.rows[i]) || st.rows[i].epoch != st.epoch || !usable then (st, false)
    else (st.(rows := st.rows[i := Used(st.rows[i], now)]), true)
  }

  function Confirmed(c: Credential, id: string, principal: string, at: int): Credential {
    if c.principal == principal && c.state == Current then c.(state := Revoked, revoked := Some(at))
    else if c.id == id && c.principal == principal && c.state == Pending && c.proven.Some?
    then c.(state := Current, confirmed := Some(at))
    else c
  }

  function ConfirmAll(rows: seq<Credential>, id: string, principal: string, at: int): seq<Credential> {
    seq(|rows|, k requires 0 <= k < |rows| => Confirmed(rows[k], id, principal, at))
  }

  /** The proven pending credential becomes current and the previous one is revoked, at one time. */
  function Confirm(st: Store, principal: string, id: string, now: int): Result<Store, Error> {
    var i := Find(st.rows, id);
    if i == |st.rows| || st.rows[i].principal != principal || st.rows[i].state != Pending || st.rows[i].proven.None?
    then Err(Conflict)
    else
      var at := Floor(st.rows, principal, Logical(now, st.rows[i]));
      Ok(st.(rows := ConfirmAll(st.rows, id, principal, at)))
  }

  /** Abandoning takes a pending credential, revoking any live one. */
  function Revoke(st: Store, principal: string, id: string, pendingOnly: bool, now: int): Result<Store, Error> {
    var i := Find(st.rows, id);
    if i == |st.rows| || st.rows[i].principal != principal || !Live(st.rows[i])
       || (pendingOnly && st.rows[i].state != Pending)
    then Err(Conflict)
    else Ok(st.(rows := st.rows[i := st.rows[i].(state := Revoked, revoked := Some(Logical(now, st.rows[i])))]))
  }

  function Closed(c: Credential, principals: set<string>, now: int): Credential {
    if c.principal in principals && Live(c) then c.(state := Revoked, revoked := Some(Logical(now, c))) else c
  }

  /** Hardware replacement and retirement revoke everything of the principals concerned. */
  function CloseAuthority(st: Store, principals: set<string>, now: int): Store {
    st.(rows := seq(|st.rows|, k requires 0 <= k < |st.rows| => Closed(st.rows[k], principals, now)))
  }

  // ---------------------------------------------------------------------------
  // Runs
  // ---------------------------------------------------------------------------

  datatype Op =
    | IssueOp(id: string, principal: string, reissue: bool, now: int)
    | UseOp(id: string, usable: bool, now: int)
    | ConfirmOp(principal: string, id: string, now: int)
    | RevokeOp(principal: string, id: string, pendingOnly: bool, now: int)
    | CloseOp(principals: set<string>, now: int)
    | NewEpoch

  function Apply(st: Store, op: Op): Store {
    match op
    case IssueOp(id, p, reissue, now) => (match Issue(st, id, p, reissue, now) case Ok(st') => st' case Err(_) => st)
    case UseOp(id, usable, now) => Authenticate(st, id, usable, now).0
    case ConfirmOp(p, id, now) => (match Confirm(st, p, id, now) case Ok(st') => st' case Err(_) => st)
    case RevokeOp(p, id, pendingOnly, now) =>
      (match Revoke(st, p, id, pendingOnly, now) case Ok(st') => st' case Err(_) => st)
    case CloseOp(ps, now) => CloseAuthority(st, ps, now)
    case NewEpoch => st.(epoch := st.epoch + 1)
  }

  function Run(st: Store, ops: seq<Op>): Store
    decreases |ops|
  {
    if ops == [] then st else Run(Apply(st, ops[0]), ops[1..])
  }

  predicate NotBefore(a: Option<int>, b: int) {
    a.None? || b <= a.value
  }

  /** Times in order, whatever the clocks did; and no reissued credential is current unproven. */
  predicate Ordered(c: Credential) {
    && NotBefore(c.lastUsed, c.issued) && NotBefore(c.proven, c.issued) && NotBefore(c.confirmed, c.issued)
    && (c.confirmed.Some? ==> c.proven.Some? && c.proven.value <= c.confirmed.value)
    && (c.state == Revoked <==> c.revoked.Some?)
    && (c.revoked.Some? ==> c.revoked.value == Logical(c.revoked.value, c))
    && (c.state == Pending ==> c.reissue && c.confirmed.None?)
    && (c.state == Current && c.reissue ==> c.confirmed.Some?)
  }

  predicate OnePerState(rows: seq<Credential>) {
    forall i, j | 0 <= i < j < |rows| && rows[i].principal == rows[j].principal && rows[i].state == rows[j].state ::
      rows[i].state == Revoked
  }

  predicate DistinctIds(rows: seq<Credential>) {
    forall i, j | 0 <= i < j < |rows| :: rows[i].id != rows[j].id
  }

  ghost predicate Inv(st: Store) {
    && (forall i | 0 <= i < |st.rows| :: Ordered(st.rows[i]))
    && OnePerState(st.rows) && DistinctIds(st.rows)
  }

  lemma {:induction false} FloorFacts(rows: seq<Credential>, principal: string, now: int)
    ensures now <= Floor(rows, principal, now)
    ensures forall i | 0 <= i < |rows| && rows[i].principal == principal && Live(rows[i]) ::
              Logical(Floor(rows, principal, now), rows[i]) == Floor(rows, principal, now)
  {
    if rows != [] { FloorFacts(rows[..|rows| - 1], principal, now); }
  }

  lemma UsedKeeps(c: Credential, now: int)
    requires Ordered(c) && Live(c)
    ensures var c' := Used(c, now);
            && Ordered(c') && c'.id == c.id && c'.principal == c.principal && c'.state == c.state
            && (c.proven.Some? ==> c'.proven == c.proven) && (c.state == Pending ==> c'.proven.Some?)
  {
  }

  lemma ConfirmedOrdered(c: Credential, id: string, principal: string, at: int)
    requires Ordered(c) && (c.principal == principal && Live(c) ==> Logical(at, c) == at)
    ensures Ordered(Confirmed(c, id, principal, at))
  {
  }

  lemma ConfirmAllKeeps(rows: seq<Credential>, i: nat, principal: string, id: string, at: int)
    requires OnePerState(rows) && DistinctIds(rows) && i < |rows| && rows[i].id == id && rows[i].principal == principal
    requires rows[i].state == Pending && rows[i].proven.Some?
    ensures OnePerState(ConfirmAll(rows, id, principal, at)) && DistinctIds(ConfirmAll(rows, id, principal, at))
  {
    var rows' := ConfirmAll(rows, id, principal, at);
    assert forall k | 0 <= k < |rows| && rows'[k].principal == principal && rows'[k].state == Current :: k == i;
  }

  lemma ConfirmKeeps(st: Store, principal: string, id: string, now: int)
    requires Inv(st) && Confirm(st, principal, id, now).Ok?
    ensures Inv(Confirm(st, principal, id, now).value)
  {
    var i := Find(st.rows, id);
    var start := Logical(now, st.rows[i]);
    var at := Floor(st.rows, principal, start);
    FloorFacts(st.rows, principal, start);
    var rows' := ConfirmAll(st.rows, id, principal, at);
    forall k | 0 <= k < |rows'| ensures Ordered(rows'[k]) {
      ConfirmedOrdered(st.rows[k], id, principal, at);
    }
    ConfirmAllKeeps(st.rows, i, principal, id, at);
  }

  lemma RevokeKeeps(st: Store, principal: string, id: string, pendingOnly: bool, now: int)
    requires Inv(st) && Revoke(st, principal, id, pendingOnly, now).Ok?
    ensures Inv(Revoke(st, principal, id, pendingOnly, now).value)
  {
  }

  lemma CloseKeeps(st: Store, principals: set<string>, now: int)
    requires Inv(st)
    ensures Inv(CloseAuthority(st, principals, now))
  {
    var rows' := CloseAuthority(st, principals, now).rows;
    forall k | 0 <= k < |rows'| ensures Ordered(rows'[k]) { assert Ordered(st.rows[k]); }
  }

  lemma IssueKeeps(st: Store, id: string, principal: string, reissue: bool, now: int)
    requires Inv(st) && Issue(st, id, principal, reissue, now).Ok?
    ensures Inv(Issue(st, id, principal, reissue, now).value)
  {
    var rows' := Issue(st, id, principal, reissue, now).value.rows;
    assert forall k | 0 <= k < |st.rows| :: rows'[k] == st.rows[k];
  }

  lemma AuthenticateKeeps(st: Store, id: string, usable: bool, now: int)
    requires Inv(st)
    ensures Inv(Authenticate(st, id, usable, now).0)
  {
    var i := Find(st.rows, id);
    if i < |st.rows| && Live(st.rows[i]) { UsedKeeps(st.rows[i], now); }
  }

  lemma ApplyKeeps(st: Store, op: Op)
    requires Inv(st)
    ensures Inv(Apply(st, op))
  {
    match op
    case IssueOp(id, p, reissue, now) => if Issue(st, id, p, reissue, now).Ok? { IssueKeeps(st, id, p, reissue, now); }
    case UseOp(id, usable, now) => AuthenticateKeeps(st, id, usable, now);
    case ConfirmOp(p, id, now) => if Confirm(st, p, id, now).Ok? { ConfirmKeeps(st, p, id, now); }
    case RevokeOp(p, id, pendingOnly, now) =>
      if Revoke(st, p, id, pendingOnly, now).Ok? { RevokeKeeps(st, p, id, pendingOnly, now); }
    case CloseOp(ps, now) => CloseKeeps(st, ps, now);
    case NewEpoch =>
  }

  lemma {:induction false} RunKeeps(st: Store, ops: seq<Op>)
    requires Inv(st)
    ensures Inv(Run(st, ops))
    decreases |ops|
  {
    if ops != [] {
      ApplyKeeps(st, ops[0]);
      RunKeeps(Apply(st, ops[0]), ops[1..]);
    }
  }

  /**
   For any operations and any wall-clock readings, every credential keeps
   issued <= last used, proven, confirmed <= revoked; a principal has at most one current and one
   pending credential; and a replacement is current only after it was proven and confirmed.
   */
  lemma LifecyclesAreOrdered(ops: seq<Op>)
    ensures var st := Run(Store([], 0), ops);
            && (forall i | 0 <= i < |st.rows| :: Ordered(st.rows[i]))
            && OnePerState(st.rows)
  {
    RunKeeps(Store([], 0), ops);
  }

  /** Only a confirmation turns a pending credential current, and only if it had been proven. */
  lemma PromotionNeedsProof(ops: seq<Op>, op: Op, k: nat)
    requires var st := Run(Store([], 0), ops); k < |st.rows| && st.rows[k].state == Pending
    ensures var st := Run(Store([], 0), ops);
            var st' := Apply(st, op);
            && k < |st'.rows| && st'.rows[k].id == st.rows[k].id
            && (st'.rows[k].state == Current ==>
                  op.ConfirmOp? && op.id == st.rows[k].id && st.rows[k].proven.Some?
                  && st'.rows[k].confirmed.Some? && st.rows[k].proven.value <= st'.rows[k].confirmed.value)
  {
    var st := Run(Store([], 0), ops);
    RunKeeps(Store([], 0), ops);
    ApplyKeeps(st, op);
    if op.ConfirmOp? {
      FloorFacts(st.rows, op.principal, Logical(op.now, st.rows[k]));
      var i := Find(st.rows, op.id);
      if i < |st.rows| { FloorFacts(st.rows, op.principal, Logical(op.now, st.rows[i])); }
    }
  }

  // ---------------------------------------------------------------------------
  // What each command does
  // ---------------------------------------------------------------------------

  /** The latest of the observed time and every time the credential carries. */
  predicate LatestOf(at: int, observed: int, c: Credential) {
    && at >= observed && at >= c.issued && NotAfter(c.lastUsed, at) && NotAfter(c.proven, at) && NotAfter(c.confirmed, at)
    && (at == observed || at == c.issued || Some(at) == c.lastUsed || Some(at) == c.proven || Some(at) == c.confirmed)
  }

  predicate NotAfter(a: Option<int>, b: int) {
    a.None? || a.value <= b
  }

  lemma LogicalExact(observed: int, c: Credential)
    ensures LatestOf(Logical(observed, c), observed, c)
  {
  }

  predicate OthersSame(rows: seq<Credential>, rows': seq<Credential>, i: nat) {
    |rows'| == |rows| && forall j | 0 <= j < |rows| && j != i :: rows'[j] == rows[j]
  }

  /**
   A token is honoured exactly if its credential is not revoked, of the current epoch and of a
   usable principal; that proves a pending credential, and the last use is noted at most once a
   minute. A refused token leaves no trace.
   */
  lemma AuthenticateExact(st: Store, id: string, usable: bool, now: int)
    requires DistinctIds(st.rows)
    ensures var (st', ok) := Authenticate(st, id, usable, now);
            && (ok <==> usable && exists i :: 0 <= i < |st.rows| && st.rows[i].id == id
                                            && st.rows[i].state != Revoked && st.rows[i].epoch == st.epoch)
            && (!ok ==> st' == st)
            && (ok ==> Find(st.rows, id) < |st.rows| && st'.epoch == st.epoch && OthersSame(st.rows, st'.rows, Find(st.rows, id))
                       && UsedAt(st.rows[Find(st.rows, id)], st'.rows[Find(st.rows, id)], now))
  {
    var i := Find(st.rows, id);
    assert forall j | 0 <= j < |st.rows| && st.rows[j].id == id :: j == i;
    if i < |st.rows| { LogicalExact(now, st.rows[i]); }
  }

  ghost predicate UsedAt(c: Credential, c': Credential, now: int) {
    exists at :: LatestOf(at, now, c)
      && c'.proven == (if c.state == Pending && c.proven.None? then Some(at) else c.proven)
      && c'.lastUsed == (if c.lastUsed.None? || now - c.lastUsed.value >= 60_000 then Some(at) else c.lastUsed)
      && c' == c.(proven := c'.proven, lastUsed := c'.lastUsed)
  }

  /** One current and one pending credential per principal, under ids never used before. */
  lemma IssueExact(st: Store, id: string, principal: string, reissue: bool, now: int)
    ensures Issue(st, id, principal, reissue, now).Ok?
            <==> forall i | 0 <= i < |st.rows| ::
                   && st.rows[i].id != id
                   && !(st.rows[i].principal == principal && st.rows[i].state == if reissue then Pending else Current)
    ensures Issue(st, id, principal, reissue, now).Ok? ==>
              Issue(st, id, principal, reissue, now).value
              == st.(rows := st.rows + [Credential(id, principal, st.epoch, if reissue then Pending else Current, reissue,
                                                   now, None, None, None, None)])
  {
  }

  /**
   A confirmation needs the principal's own proven pending credential; it becomes current and the
   principal's current one is revoked at the same time, which no live credential of the principal
   has passed. Nothing else changes.
   */
  lemma ConfirmExact(st: Store, principal: string, id: string, now: int)
    requires DistinctIds(st.rows)
    ensures Confirm(st, principal, id, now).Ok?
            <==> exists i :: 0 <= i < |st.rows| && st.rows[i].id == id && st.rows[i].principal == principal
                             && st.rows[i].state == Pending && st.rows[i].proven.Some?
    ensures Confirm(st, principal, id, now).Ok? ==>
              exists at :: at >= now && ConfirmedAt(st, Confirm(st, principal, id, now).value, principal, id, at)
  {
    var i := Find(st.rows, id);
    assert forall j | 0 <= j < |st.rows| && st.rows[j].id == id :: j == i;
    if Confirm(st, principal, id, now).Ok? {
      var start := Logical(now, st.rows[i]);
      var at := Floor(st.rows, principal, start);
      FloorFacts(st.rows, principal, start);
      LogicalExact(now, st.rows[i]);
      forall k | 0 <= k < |st.rows| && st.rows[k].principal == principal && st.rows[k].state != Revoked
        ensures LatestOf(at, at, st.rows[k])
      {
        LogicalExact(at, st.rows[k]);
      }
      assert ConfirmedAt(st, Confirm(st, principal, id, now).value, principal, id, at);
    }
  }

  predicate ConfirmedAt(st: Store, st': Store, principal: string, id: string, at: int) {
    && st'.epoch == st.epoch && |st'.rows| == |st.rows|
    && forall k | 0 <= k < |st.rows| ::
         && (st.rows[k].principal == principal && st.rows[k].state != Revoked ==> LatestOf(at, at, st.rows[k]))
         && st'.rows[k]
            == if st.rows[k].id == id then st.rows[k].(state := Current, confirmed := Some(at))
               else if st.rows[k].principal == principal && st.rows[k].state == Current
               then st.rows[k].(state := Revoked, revoked := Some(at))
               else st.rows[k]
  }

  /** Revoking takes any live credential of the principal, abandoning only a pending one; it alone is revoked. */
  lemma RevokeExact(st: Store, principal: string, id: string, pendingOnly: bool, now: int)
    requires DistinctIds(st.rows)
    ensures Revoke(st, principal, id, pendingOnly, now).Ok?
            <==> exists i :: 0 <= i < |st.rows| && st.rows[i].id == id && st.rows[i].principal == principal
                             && (st.rows[i].state == Pending || (!pendingOnly && st.rows[i].state == Current))
    ensures Revoke(st, principal, id, pendingOnly, now).Ok? ==>
              var st', i := Revoke(st, principal, id, pendingOnly, now).value, Find(st.rows, id);
              && i < |st.rows| && st'.epoch == st.epoch && OthersSame(st.rows, st'.rows, i)
              && RevokedAt(st.rows[i], st'.rows[i], now)
  {
    var i := Find(st.rows, id);
    assert forall j | 0 <= j < |st.rows| && st.rows[j].id == id :: j == i;
    if i < |st.rows| { LogicalExact(now, st.rows[i]); }
  }

  ghost predicate RevokedAt(c: Credential, c': Credential, now: int) {
    exists at :: LatestOf(at, now, c) && c' == c.(state := Revoked, revoked := Some(at))
  }

  /** Closing authority revokes every live credential of the principals concerned, and no other. */
  lemma CloseExact(st: Store, principals: set<string>, now: int)
    ensures var st' := CloseAuthority(st, principals, now);
            && st'.epoch == st.epoch && |st'.rows| == |st.rows|
            && forall k | 0 <= k < |st.rows| ::
                 if st.rows[k].principal in principals && st.rows[k].state != Revoked
                 then RevokedAt(st.rows[k], st'.rows[k], now) else st'.rows[k] == st.rows[k]
  {
    forall k | 0 <= k < |st.rows| ensures LatestOf(Logical(now, st.rows[k]), now, st.rows[k]) {
      LogicalExact(now, st.rows[k]);
    }
  }

  /** Hence no revoked credential, and none of an earlier epoch, is ever honoured again. */
  lemma RevokedStaysOut(before: seq<Op>, after: seq<Op>, k: nat, usable: bool, now: int)
    requires var st := Run(Store([], 0), before);
             k < |st.rows| && (st.rows[k].state == Revoked || st.rows[k].epoch < st.epoch)
    ensures var st := Run(Store([], 0), before);
            var st' := Run(st, after);
            && k < |st'.rows| && st'.rows[k].id == st.rows[k].id
            && !Authenticate(st', st.rows[k].id, usable, now).1
  {
    var st := Run(Store([], 0), before);
    RunKeeps(Store([], 0), before);
    RunKeeps(st, after);
    OutStaysOut(st, after, k);
    AuthenticateExact(Run(st, after), st.rows[k].id, usable, now);
    assert forall j | 0 <= j < |Run(st, after).rows| && j != k :: Run(st, after).rows[j].id != st.rows[k].id;
  }

  lemma {:induction false} OutStaysOut(st: Store, ops: seq<Op>, k: nat)
    requires Inv(st) && k < |st.rows| && (st.rows[k].state == Revoked || st.rows[k].epoch < st.epoch)
    ensures var st' := Run(st, ops);
            && k < |st'.rows| && st'.rows[k].id == st.rows[k].id
            && (st'.rows[k].state == Revoked || st'.rows[k].epoch < st'.epoch)
    decreases |ops|
  {
    if ops != [] {
      ApplyKeeps(st, ops[0]);
      OutAfterStep(st, ops[0], k);
      OutStaysOut(Apply(st, ops[0]), ops[1..], k);
    }
  }

  lemma OutAfterStep(st: Store, op: Op, k: nat)
    requires Inv(st) && k < |st.rows| && (st.rows[k].state == Revoked || st.rows[k].epoch < st.epoch)
    ensures var st' := Apply(st, op);
            && k < |st'.rows| && st'.rows[k].id == st.rows[k].id
            && (st'.rows[k].state == Revoked || st'.rows[k].epoch < st'.epoch)
  {
  }
}
