/**
 Debt discipline: prospective status is what the change turns out to require, and no reachable
 state exceeds capacity by more than the one active debt allows.
 */
module CapacityRuns {
  import opened Types
  import opened Capacity

  // ---------------------------------------------------------------------------
  // Prospective status is exact
  // ---------------------------------------------------------------------------

  function Cost(p: Principal, w: Weights): Units {
    if p.Live() then w.Of(p.class_) else Units(0, 0)
  }

  lemma {:induction false} TotalReplace(ps: seq<Principal>, i: nat, p: Principal, w: Weights)
    requires i < |ps|
    ensures Total(ps[i := p], w) == Total(ps, w).Minus(Cost(ps[i], w)).Plus(Cost(p, w))
    decreases |ps|
  {
    if i == |ps| - 1 {
      assert ps[i := p][..|ps| - 1] == ps[..|ps| - 1];
    } else {
      TotalReplace(ps[..|ps| - 1], i, p, w);
      assert ps[i := p][..|ps| - 1] == ps[..|ps| - 1][i := p];
    }
  }

  lemma TotalAppend(ps: seq<Principal>, p: Principal, w: Weights)
    ensures Total(ps + [p], w) == Total(ps, w).Plus(Cost(p, w))
  {
    assert (ps + [p])[..|ps|] == ps;
  }

  /** Subtracting the old class and adding the new gives the status recomputed after the change. */
  lemma ReplacementIsExact(a: Authority, id: string, c: FlowClass)
    requires Required(a).Ok? && Find(a.principals, id) < |a.principals| && a.principals[Find(a.principals, id)].device
    ensures var i := Find(a.principals, id);
            var after := a.(principals := a.principals[i := a.principals[i].(class_ := c)]);
            CapacityStatus(a, Some((id, c))) == CapacityStatus(after, None)
  {
    var i := Find(a.principals, id);
    TotalReplace(a.principals, i, a.principals[i].(class_ := c), a.weights);
  }

  lemma NewIsExact(a: Authority, id: string, c: FlowClass)
    requires Required(a).Ok?
    ensures var after := a.(principals := a.principals + [Principal(id, c, true, true, true)]);
            StatusForNew(a, c) == CapacityStatus(after, None)
  {
    TotalAppend(a.principals, Principal(id, c, true, true, true), a.weights);
  }

  lemma ActivationIsExact(a: Authority, id: string)
    requires Required(a).Ok? && StatusForActivation(a, id) != Err(NotFound)
    ensures var i := Find(a.principals, id);
            var after := a.(principals := a.principals[i := a.principals[i].(credentialed := true)]);
            StatusForActivation(a, id) == CapacityStatus(after, None)
  {
    var i := Find(a.principals, id);
    TotalReplace(a.principals, i, a.principals[i].(credentialed := true), a.weights);
  }

  // ---------------------------------------------------------------------------
  // Runs
  // ---------------------------------------------------------------------------

  datatype Op =
    | AddOp(id: string, class_: FlowClass, approve: bool)
    | IssueOp(id: string, approve: bool)
    | ClassOp(id: string, class_: FlowClass, approve: bool)
    | ConfigureOp(weights: Weights, capacity: Units, approve: bool)
    | WithdrawOp(ids: set<string>, loss: Loss)
    | RecoverOp

  function Attempt(a: Authority, op: Op): Result<Authority, Error> {
    match op
    case AddOp(id, c, approve) => AddDevice(a, id, c, approve)
    case IssueOp(id, approve) => Issue(a, id, approve)
    case ClassOp(id, c, approve) => ChangeClass(a, id, c, approve)
    case ConfigureOp(w, capacity, approve) => Configure(a, w, capacity, approve)
    case WithdrawOp(ids, loss) => Withdraw(a, ids, loss)
    case RecoverOp => RecoverIfPossible(a)
  }

  function Apply(a: Authority, op: Op): Authority {
    match Attempt(a, op) case Ok(a') => a' case Err(_) => a
  }

  function Run(a: Authority, ops: seq<Op>): Authority
    decreases |ops|
  {
    if ops == [] then a else Run(Apply(a, ops[0]), ops[1..])
  }

  predicate OneActive(debts: seq<Debt>) {
    forall i, j | 0 <= i < j < |debts| :: debts[i].recovered || debts[j].recovered
  }

  /** If more is required than there is, exactly one active debt bounds the overage on both axes. */
  ghost predicate Covered(a: Authority) {
    && Required(a).Ok?
    && (var status := Status(Required(a).value, a.capacity);
        status.Exceeds() ==> ActiveDebt(a).Some? && status.NoWorseThan(ActiveDebt(a).value))
  }

  ghost predicate Inv(a: Authority) {
    && OneActive(a.debts) && Covered(a)
    && a.weights.Valid() && a.capacity.Positive()
  }

  lemma WithActiveFacts(debts: seq<Debt>, status: Status, recovered: bool)
    requires OneActive(debts)
    ensures var debts' := WithActive(debts, status, recovered);
            && OneActive(debts')
            && ActiveIndex(debts') == (if recovered then |debts| else ActiveIndex(debts))
            && (!recovered && ActiveIndex(debts) < |debts| ==> debts'[ActiveIndex(debts)] == Debt(status, false))
  {
    var debts' := WithActive(debts, status, recovered);
    if recovered {
      assert forall j | 0 <= j < |debts'| :: debts'[j].recovered;
    } else if ActiveIndex(debts) < |debts| {
      assert !debts'[ActiveIndex(debts)].recovered;
    }
  }

  lemma ApproveFacts(a: Authority, status: Status)
    requires OneActive(a.debts)
    ensures var a' := Approve(a, status);
            && OneActive(a'.debts)
            && (status.Exceeds() ==> ActiveDebt(a') == Some(status))
            && (!status.Exceeds() ==> a' == a)
  {
    if status.Exceeds() {
      if ActiveDebt(a).Some? {
        WithActiveFacts(a.debts, status, false);
      } else {
        var debts' := a.debts + [Debt(status, false)];
        assert debts'[ActiveIndex(a.debts)] == Debt(status, false);
        assert ActiveIndex(debts') == |a.debts|;
      }
    }
  }

  /** An admitted change is covered: it fits, is approved, or is no worse than the active debt. */
  lemma AdmittedIsCovered(a: Authority, after: Authority, status: Status, approve: bool)
    requires OneActive(a.debts) && (approve || !RequiresApproval(a, status))
    requires CapacityStatus(after, None) == Ok(status)
    requires after.debts == (if approve then Approve(a, status) else a).debts
    ensures OneActive(after.debts) && Covered(after)
  {
    ApproveFacts(a, status);
  }

  lemma SettleIsCovered(before: Authority, a: Authority, status: Status, approve: bool)
    requires a.debts == before.debts && OneActive(a.debts) && (approve || !RequiresApproval(before, status))
    requires CapacityStatus(a, None) == Ok(status)
    ensures Settle(a, status, approve).Ok?
    ensures var a' := Settle(a, status, approve).value;
            OneActive(a'.debts) && Covered(a') && a'.weights == a.weights && a'.capacity == a.capacity
  {
    ApproveFacts(a, status);
    WithActiveFacts(a.debts, status, false);
  }

  lemma ApplyKeeps(a: Authority, op: Op)
    requires Inv(a)
    ensures Inv(Apply(a, op))
  {
    match op
    case AddOp(id, c, approve) =>
      NewIsExact(a, id, c);
      if Attempt(a, op).Ok? { AdmittedIsCovered(a, Apply(a, op), StatusForNew(a, c).value, approve); }
    case IssueOp(id, approve) =>
      if Attempt(a, op).Ok? {
        ActivationIsExact(a, id);
        AdmittedIsCovered(a, Apply(a, op), StatusForActivation(a, id).value, approve);
      }
    case ClassOp(id, c, approve) =>
      if Attempt(a, op).Ok? {
        ReplacementIsExact(a, id, c);
        var i := Find(a.principals, id);
        SettleIsCovered(a, a.(principals := a.principals[i := a.principals[i].(class_ := c)]),
                        CapacityStatus(a, Some((id, c))).value, approve);
      }
    case ConfigureOp(w, capacity, approve) =>
      if Attempt(a, op).Ok? {
        var a1 := a.(weights := w, capacity := capacity);
        SettleIsCovered(a1, a1, CapacityStatus(a1, None).value, approve);
      }
    case WithdrawOp(ids, loss) =>
      if Attempt(a, op).Ok? { WithdrawKeeps(a, ids, loss); }
    case RecoverOp =>
  }

  lemma WithdrawKeeps(a: Authority, ids: set<string>, loss: Loss)
    requires Inv(a) && Withdraw(a, ids, loss).Ok?
    ensures Inv(Withdraw(a, ids, loss).value)
  {
    var a1 := a.(principals := Withdrawn(a.principals, ids, loss));
    var status := CapacityStatus(a1, None).value;
    WithActiveFacts(a.debts, status, !status.Exceeds());
    WithdrawnTotal(a.principals, ids, loss, a.weights);
    if status.Exceeds() {
      assert Status(Required(a).value, a.capacity).Exceeds();
    }
  }

  /** Withdrawing authority never raises what is required. */
  lemma {:induction false} WithdrawnTotal(ps: seq<Principal>, ids: set<string>, loss: Loss, w: Weights)
    requires w.Valid()
    ensures Total(Withdrawn(ps, ids, loss), w).AtMost(Total(ps, w))
  {
    if ps != [] {
      var before := ps[..|ps| - 1];
      WithdrawnTotal(before, ids, loss, w);
      assert Withdrawn(ps, ids, loss)[..|ps| - 1] == Withdrawn(before, ids, loss);
    }
  }

  lemma {:induction false} RunKeeps(a: Authority, ops: seq<Op>)
    requires Inv(a)
    ensures Inv(Run(a, ops))
    decreases |ops|
  {
    if ops != [] {
      ApplyKeeps(a, ops[0]);
      RunKeeps(Apply(a, ops[0]), ops[1..]);
    }
  }

  /**
   In every reachable state in which the live principals require more than the capacity, exactly
   one debt is active and its overage bounds the actual overage on both axes.
   */
  lemma DebtBoundsOverage(ops: seq<Op>)
    ensures var a := Run(BOOTSTRAP, ops);
            && OneActive(a.debts)
            && CapacityStatus(a, None).Ok?
            && (CapacityStatus(a, None).value.Exceeds() ==>
                  ActiveDebt(a).Some?
                  && CapacityStatus(a, None).value.Overage().AtMost(ActiveDebt(a).value.Overage()))
  {
    RunKeeps(BOOTSTRAP, ops);
  }

  // ---------------------------------------------------------------------------
  // What is required, and when it must be approved
  // ---------------------------------------------------------------------------

  /** The units of its class while device, scope and credential are all there; otherwise nothing. */
  function Demand(p: Principal, low: int, mid: int, high: int): int {
    if !p.device || !p.scoped || !p.credentialed then 0
    else if p.class_ == Low then low else if p.class_ == Default then mid else high
  }

  function Demands(ps: seq<Principal>, low: int, mid: int, high: int): int {
    if ps == [] then 0 else Demands(ps[..|ps| - 1], low, mid, high) + Demand(ps[|ps| - 1], low, mid, high)
  }

  lemma {:induction false} TotalExact(ps: seq<Principal>, w: Weights)
    ensures Total(ps, w) == Units(Demands(ps, w.low.steady, w.default_.steady, w.high.steady),
                                  Demands(ps, w.low.burst, w.default_.burst, w.high.burst))
  {
    if ps != [] { TotalExact(ps[..|ps| - 1], w); }
  }

  /** The status is the sum of the demands against the capacity, or an overflow of 64 bits on either axis. */
  lemma StatusExact(a: Authority)
    ensures var steady := Demands(a.principals, a.weights.low.steady, a.weights.default_.steady, a.weights.high.steady);
            var burst := Demands(a.principals, a.weights.low.burst, a.weights.default_.burst, a.weights.high.burst);
            CapacityStatus(a, None)
            == if steady > 9_223_372_036_854_775_807 || burst > 9_223_372_036_854_775_807 then Err(Overflow)
               else Ok(Status(Units(steady, burst), a.capacity))
  {
    TotalExact(a.principals, a.weights);
  }

  function Excess(required: int, capacity: int): int {
    if required > capacity then required - capacity else 0
  }

  /** By how much, on each axis, a status exceeds the capacity. */
  predicate Beyond(s: Status) {
    Excess(s.required.steady, s.capacity.steady) > 0 || Excess(s.required.burst, s.capacity.burst) > 0
  }

  predicate Worse(s: Status, than: Status) {
    || Excess(s.required.steady, s.capacity.steady) > Excess(than.required.steady, than.capacity.steady)
    || Excess(s.required.burst, s.capacity.burst) > Excess(than.required.burst, than.capacity.burst)
  }

  /** Approval is needed for an excess that no active debt covers on both axes. */
  lemma ApprovalExact(a: Authority, s: Status)
    ensures s.Exceeds() <==> Beyond(s)
    ensures RequiresApproval(a, s)
            <==> Beyond(s) && (ActiveDebt(a).None? || Worse(s, ActiveDebt(a).value))
  {
  }

  predicate Known(ps: seq<Principal>, id: string) {
    exists i :: 0 <= i < |ps| && ps[i].id == id
  }

  /** The debt after an admitted change: the approved excess, or as it was. */
  ghost predicate DebtAfter(a: Authority, a': Authority, status: Status, approve: bool) {
    if approve && Beyond(status) then ActiveDebt(a') == Some(status) else a'.debts == a.debts
  }

  /** A new device is admitted under a new id if its class fits, is covered by a debt, or is approved. */
  lemma AddExact(a: Authority, id: string, c: FlowClass, approve: bool)
    requires OneActive(a.debts)
    ensures AddDevice(a, id, c, approve).Ok?
            <==> && !Known(a.principals, id) && StatusForNew(a, c).Ok?
                 && (approve || !RequiresApproval(a, StatusForNew(a, c).value))
    ensures AddDevice(a, id, c, approve).Ok? ==>
              var a' := AddDevice(a, id, c, approve).value;
              && a'.principals == a.principals + [Principal(id, c, true, true, true)]
              && a'.weights == a.weights && a'.capacity == a.capacity && DebtAfter(a, a', StatusForNew(a, c).value, approve)
  {
    if StatusForNew(a, c).Ok? { ApproveFacts(a, StatusForNew(a, c).value); }
  }

  /** Issuing gives a known, scoped device without a credential its credential, on the same terms. */
  lemma IssueExact(a: Authority, id: string, approve: bool)
    requires OneActive(a.debts)
    ensures var i := Find(a.principals, id);
            Issue(a, id, approve).Ok?
            <==> && i < |a.principals| && a.principals[i].device && a.principals[i].scoped && !a.principals[i].credentialed
                 && StatusForActivation(a, id).Ok?
                 && (approve || !RequiresApproval(a, StatusForActivation(a, id).value))
    ensures Issue(a, id, approve).Ok? ==>
              var a', i := Issue(a, id, approve).value, Find(a.principals, id);
              && a'.principals == a.principals[i := a.principals[i].(credentialed := true)]
              && a'.weights == a.weights && a'.capacity == a.capacity
              && DebtAfter(a, a', StatusForActivation(a, id).value, approve)
  {
    if StatusForActivation(a, id).Ok? { ApproveFacts(a, StatusForActivation(a, id).value); }
  }

  /** A class change or a new configuration is accepted on the same terms, and then in force. */
  lemma ChangesExact(a: Authority, id: string, c: FlowClass, w: Weights, capacity: Units, approve: bool)
    requires Inv(a)
    ensures ChangeClass(a, id, c, approve).Ok?
            <==> && CapacityStatus(a, Some((id, c))).Ok?
                 && (approve || !RequiresApproval(a, CapacityStatus(a, Some((id, c))).value))
    ensures ChangeClass(a, id, c, approve).Ok? ==>
              var a', i := ChangeClass(a, id, c, approve).value, Find(a.principals, id);
              i < |a.principals| && a'.principals == a.principals[i := a.principals[i].(class_ := c)]
    ensures var a1 := a.(weights := w, capacity := capacity);
            Configure(a, w, capacity, approve).Ok?
            <==> && w.low.steady > 0 && w.low.burst > 0 && w.default_.steady > 0 && w.default_.burst > 0
                 && w.high.steady > 0 && w.high.burst > 0 && capacity.steady > 0 && capacity.burst > 0
                 && CapacityStatus(a1, None).Ok? && (approve || !RequiresApproval(a1, CapacityStatus(a1, None).value))
    ensures Configure(a, w, capacity, approve).Ok? ==>
              var a' := Configure(a, w, capacity, approve).value;
              a'.weights == w && a'.capacity == capacity && a'.principals == a.principals
  {
    if CapacityStatus(a, Some((id, c))).Ok? {
      ReplacementIsExact(a, id, c);
      var i := Find(a.principals, id);
      RecoverEnds(a.(principals := a.principals[i := a.principals[i].(class_ := c)]));
    }
  }

  /** Withdrawal takes from the named principals what it names, and what then counts is gone. */
  lemma WithdrawExact(a: Authority, ids: set<string>, loss: Loss)
    requires Withdraw(a, ids, loss).Ok?
    ensures var a' := Withdraw(a, ids, loss).value;
            && |a'.principals| == |a.principals| && a'.weights == a.weights && a'.capacity == a.capacity
            && forall i | 0 <= i < |a.principals| ::
                 var p, p' := a.principals[i], a'.principals[i];
                 && (p.id !in ids ==> p' == p)
                 && (p.id in ids ==>
                       && p'.id == p.id && p'.class_ == p.class_
                       && Demand(p', 1, 1, 1) == 0
                       && p'.device == (p.device && loss != Devices)
                       && p'.scoped == (p.scoped && loss == Credentials)
                       && p'.credentialed == (p.credentialed && loss == Scopes))
  {
  }

  /**
   Debt follows the excess: after a class change, a new configuration or a withdrawal the active
   debt is the actual status if that exceeds the capacity, and there is none if it does not; a
   recovery ends the debt in the same case and otherwise changes nothing.
   */
  lemma DebtEnds(ops: seq<Op>, op: Op)
    requires op.ClassOp? || op.ConfigureOp? || op.WithdrawOp? || op.RecoverOp?
    requires Attempt(Run(BOOTSTRAP, ops), op).Ok?
    ensures var a' := Attempt(Run(BOOTSTRAP, ops), op).value;
            && CapacityStatus(a', None).Ok?
            && (Beyond(CapacityStatus(a', None).value) <==> ActiveDebt(a').Some?)
            && (Beyond(CapacityStatus(a', None).value) ==>
                  if op.RecoverOp? then a' == Run(BOOTSTRAP, ops) else ActiveDebt(a') == Some(CapacityStatus(a', None).value))
  {
    var a := Run(BOOTSTRAP, ops);
    RunKeeps(BOOTSTRAP, ops);
    ApplyKeeps(a, op);
    var a' := Attempt(a, op).value;
    assert Inv(a');
    FittingEnds(a, op);
    ApprovalExact(a', CapacityStatus(a', None).value);
  }

  lemma FittingEnds(a: Authority, op: Op)
    requires Inv(a) && (op.ClassOp? || op.ConfigureOp? || op.WithdrawOp? || op.RecoverOp?) && Attempt(a, op).Ok?
    ensures var a' := Attempt(a, op).value;
            CapacityStatus(a', None).Ok? ==>
              && (!CapacityStatus(a', None).value.Exceeds() ==> ActiveDebt(a').None?)
              && (CapacityStatus(a', None).value.Exceeds() && ActiveDebt(a').Some? ==>
                    if op.RecoverOp? then a' == a else ActiveDebt(a') == Some(CapacityStatus(a', None).value))
  {
    match op
    case ClassOp(id, c, approve) =>
      ReplacementIsExact(a, id, c);
      var i := Find(a.principals, id);
      SettleEnds(a.(principals := a.principals[i := a.principals[i].(class_ := c)]), CapacityStatus(a, Some((id, c))).value, approve);
    case ConfigureOp(w, capacity, approve) =>
      var a1 := a.(weights := w, capacity := capacity);
      SettleEnds(a1, CapacityStatus(a1, None).value, approve);
    case WithdrawOp(ids, loss) => WithdrawEnds(a, ids, loss);
    case RecoverOp => RecoverEnds(a);
  }

  lemma WithdrawEnds(a: Authority, ids: set<string>, loss: Loss)
    requires OneActive(a.debts) && Withdraw(a, ids, loss).Ok?
    ensures var a' := Withdraw(a, ids, loss).value;
            CapacityStatus(a', None).Ok? ==>
              && (!CapacityStatus(a', None).value.Exceeds() ==> ActiveDebt(a').None?)
              && (CapacityStatus(a', None).value.Exceeds() && ActiveDebt(a').Some? ==>
                    ActiveDebt(a') == Some(CapacityStatus(a', None).value))
  {
    var status := CapacityStatus(a.(principals := Withdrawn(a.principals, ids, loss)), None).value;
    WithActiveFacts(a.debts, status, !status.Exceeds());
  }

  lemma SettleEnds(a: Authority, status: Status, approve: bool)
    requires OneActive(a.debts) && CapacityStatus(a, None) == Ok(status) && Settle(a, status, approve).Ok?
    ensures var a' := Settle(a, status, approve).value;
            && CapacityStatus(a', None) == Ok(status) && (!status.Exceeds() ==> ActiveDebt(a').None?)
            && (status.Exceeds() && ActiveDebt(a').Some? ==> ActiveDebt(a') == Some(status))
  {
    RecoverEnds(a);
    ApproveFacts(a, status);
    WithActiveFacts(a.debts, status, false);
  }

  lemma RecoverEnds(a: Authority)
    requires RecoverIfPossible(a).Ok?
    ensures var a' := RecoverIfPossible(a).value;
            && CapacityStatus(a', None) == CapacityStatus(a, None)
            && (!CapacityStatus(a, None).value.Exceeds() ==> ActiveDebt(a').None?)
            && (CapacityStatus(a, None).value.Exceeds() ==> a' == a)
  {
    var debts := Close(a.debts);
    assert forall j | 0 <= j < |debts| :: debts[j].recovered;
  }

  /** A debt that has ended stays on record as it ended. */
  lemma EndedDebtsStay(a: Authority, op: Op, i: nat)
    requires i < |a.debts| && a.debts[i].recovered
    ensures i < |Apply(a, op).debts| && Apply(a, op).debts[i] == a.debts[i]
  {
  }
}
