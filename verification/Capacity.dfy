/**
 Declared ingest capacity: what the live principals require, what the node offers, and the debt an
 operator must approve before the one may exceed the other.
 */
module Capacity {
  import opened Types

  const MAX_I64: int := 0x7fff_ffff_ffff_ffff

  datatype Units = Units(steady: int, burst: int) {
    function Plus(u: Units): Units {
      Units(steady + u.steady, burst + u.burst)
    }

    function Minus(u: Units): Units {
      Units(steady - u.steady, burst - u.burst)
    }

    function Times(n: int): Units {
      Units(n * steady, n * burst)
    }

    predicate AtMost(u: Units) {
      steady <= u.steady && burst <= u.burst
    }

    predicate Positive() {
      steady > 0 && burst > 0
    }
  }

  const LIMIT := Units(MAX_I64, MAX_I64)

  datatype FlowClass = Low | Default | High

  datatype Weights = Weights(low: Units, default_: Units, high: Units) {
    function Of(c: FlowClass): Units {
      match c case Low => low case Default => default_ case High => high
    }

    predicate Valid() {
      low.Positive() && default_.Positive() && high.Positive()
    }
  }

  /** A principal counts while its device, a usable scope and a credential are all live. */
  datatype Principal = Principal(id: string, class_: FlowClass, device: bool, scoped: bool, credentialed: bool) {
    predicate Live() {
      device && scoped && credentialed
    }
  }

  datatype Status = Status(required: Units, capacity: Units) {
    predicate Exceeds() {
      !required.AtMost(capacity)
    }

    function Overage(): Units {
      Units(if required.steady > capacity.steady then required.steady - capacity.steady else 0,
            if required.burst > capacity.burst then required.burst - capacity.burst else 0)
    }

    predicate NoWorseThan(previous: Status) {
      Overage().AtMost(previous.Overage())
    }
  }

  datatype Debt = Debt(status: Status, recovered: bool)

  datatype Authority = Authority(principals: seq<Principal>, weights: Weights, capacity: Units, debts: seq<Debt>)

  datatype Error = Overflow | NotFound | Conflict | Validation

  const BOOTSTRAP := Authority([], Weights(Units(1, 1), Units(1, 1), Units(1, 1)), Units(1, 1), [])

  // ---------------------------------------------------------------------------
  // What is required
  // ---------------------------------------------------------------------------

  function Count(ps: seq<Principal>, c: FlowClass): nat {
    if ps == [] then 0
    else Count(ps[..|ps| - 1], c) + if ps[|ps| - 1].Live() && ps[|ps| - 1].class_ == c then 1 else 0
  }

  /** Row by row, as the triggers add it up. */
  function Total(ps: seq<Principal>, w: Weights): Units {
    if ps == [] then Units(0, 0)
    else
      var last := ps[|ps| - 1];
      if last.Live() then Total(ps[..|ps| - 1], w).Plus(w.Of(last.class_)) else Total(ps[..|ps| - 1], w)
  }

  function Checked(u: Units): Result<Units, Error> {
    if u.AtMost(LIMIT) then Ok(u) else Err(Overflow)
  }

  function Required(a: Authority): Result<Units, Error> {
    Checked(Total(a.principals, a.weights))
  }

  lemma {:induction false} TotalByClass(ps: seq<Principal>, w: Weights)
    ensures Total(ps, w)
            == w.low.Times(Count(ps, Low)).Plus(w.default_.Times(Count(ps, Default))).Plus(w.high.Times(Count(ps, High)))
  {
    if ps != [] {
      var before, last := ps[..|ps| - 1], ps[|ps| - 1];
      TotalByClass(before, w);
      if last.Live() { TimesNext(w.Of(last.class_), Count(before, last.class_)); }
    } else {
      assert w.low.Times(0) == w.default_.Times(0) == w.high.Times(0) == Units(0, 0);
    }
  }

  lemma TimesNext(u: Units, n: nat)
    ensures u.Times(n + 1) == u.Times(n).Plus(u)
  {
    assert (n + 1) * u.steady == n * u.steady + u.steady;
    assert (n + 1) * u.burst == n * u.burst + u.burst;
  }

  const CLASSES := [Low, Default, High]

  function Term(a: Authority, c: FlowClass): Units {
    a.weights.Of(c).Times(Count(a.principals, c))
  }

  function PartialSum(a: Authority, i: nat): Units
    requires i <= 3
  {
    if i == 0 then Units(0, 0) else PartialSum(a, i - 1).Plus(Term(a, CLASSES[i - 1]))
  }

  lemma TermNonNegative(a: Authority, c: FlowClass)
    requires a.weights.Valid()
    ensures Units(0, 0).AtMost(Term(a, c))
  {
    var n, u := Count(a.principals, c), a.weights.Of(c);
    assert n * u.steady >= 0 && n * u.burst >= 0;
  }

  /** Terms and partial sums never exceed the total, so they overflow only if it does. */
  lemma PartialSumFacts(a: Authority, i: nat)
    requires a.weights.Valid() && i < 3
    ensures PartialSum(a, 3) == Total(a.principals, a.weights)
    ensures Term(a, CLASSES[i]).AtMost(Total(a.principals, a.weights))
    ensures PartialSum(a, i + 1).AtMost(Total(a.principals, a.weights))
  {
    TotalByClass(a.principals, a.weights);
    TermNonNegative(a, Low);
    TermNonNegative(a, Default);
    TermNonNegative(a, High);
    SumOfThree(a);
  }

  lemma SumOfThree(a: Authority)
    ensures PartialSum(a, 1) == Term(a, Low)
    ensures PartialSum(a, 2) == Term(a, Low).Plus(Term(a, Default))
    ensures PartialSum(a, 3) == Term(a, Low).Plus(Term(a, Default)).Plus(Term(a, High))
  {
    assert CLASSES[0] == Low && CLASSES[1] == Default && CLASSES[2] == High;
    assert PartialSum(a, 0) == Units(0, 0);
    assert PartialSum(a, 1) == PartialSum(a, 0).Plus(Term(a, Low));
    assert PartialSum(a, 2) == PartialSum(a, 1).Plus(Term(a, Default));
    assert PartialSum(a, 3) == PartialSum(a, 2).Plus(Term(a, High));
  }

  /** Class by class with checked arithmetic, as the authority code adds it up. */
  method RequiredCapacity(a: Authority) returns (r: Result<Units, Error>)
    requires a.weights.Valid()
    ensures r == Required(a)
  {
    var sum := Units(0, 0);
    for i := 0 to 3
      invariant sum == PartialSum(a, i) && sum.AtMost(LIMIT)
    {
      PartialSumFacts(a, i);
      var term := Term(a, CLASSES[i]);
      if !term.AtMost(LIMIT) { return Err(Overflow); }
      sum := sum.Plus(term);
      if !sum.AtMost(LIMIT) { return Err(Overflow); }
    }
    PartialSumFacts(a, 2);
    return Ok(sum);
  }

  function Find(ps: seq<Principal>, id: string): (i: nat)
    ensures i <= |ps|
    ensures i < |ps| ==> ps[i].id == id
    ensures forall j | 0 <= j < i :: ps[j].id != id
  {
    if ps == [] || ps[0].id == id then 0 else 1 + Find(ps[1..], id)
  }

  /** Current status, or the status with one live principal's class exchanged. */
  function CapacityStatus(a: Authority, replacement: Option<(string, FlowClass)>): Result<Status, Error> {
    match Required(a)
    case Err(e) => Err(e)
    case Ok(required) =>
      if replacement.None? then Ok(Status(required, a.capacity))
      else
        var i := Find(a.principals, replacement.value.0);
        if i == |a.principals| || !a.principals[i].device then Err(NotFound)
        else if !a.principals[i].Live() then Ok(Status(required, a.capacity))
        else
          var changed := required.Minus(a.weights.Of(a.principals[i].class_)).Plus(a.weights.Of(replacement.value.1));
          match Checked(changed) case Err(e) => Err(e) case Ok(u) => Ok(Status(u, a.capacity))
  }

  function Added(a: Authority, units: Units): Result<Status, Error> {
    match Required(a)
    case Err(e) => Err(e)
    case Ok(required) =>
      match Checked(required.Plus(units)) case Err(e) => Err(e) case Ok(u) => Ok(Status(u, a.capacity))
  }

  function StatusForNew(a: Authority, c: FlowClass): Result<Status, Error> {
    Added(a, a.weights.Of(c))
  }

  function StatusForActivation(a: Authority, id: string): Result<Status, Error> {
    var i := Find(a.principals, id);
    if i == |a.principals| || !a.principals[i].device || !a.principals[i].scoped then Err(NotFound)
    else if a.principals[i].Live() then CapacityStatus(a, None)
    else Added(a, a.weights.Of(a.principals[i].class_))
  }

  // ---------------------------------------------------------------------------
  // Debt
  // ---------------------------------------------------------------------------

  function ActiveIndex(debts: seq<Debt>): (i: nat)
    ensures i <= |debts|
    ensures i < |debts| ==> !debts[i].recovered
    ensures forall j | 0 <= j < i :: debts[j].recovered
  {
    if debts == [] || !debts[0].recovered then 0 else 1 + ActiveIndex(debts[1..])
  }

  function ActiveDebt(a: Authority): Option<Status> {
    var i := ActiveIndex(a.debts);
    if i < |a.debts| then Some(a.debts[i].status) else None
  }

  predicate RequiresApproval(a: Authority, prospective: Status) {
    prospective.Exceeds() && (ActiveDebt(a).None? || !prospective.NoWorseThan(ActiveDebt(a).value))
  }

  /** Rewrites every active debt row. */
  function WithActive(debts: seq<Debt>, status: Status, recovered: bool): seq<Debt> {
    seq(|debts|, i requires 0 <= i < |debts| => if debts[i].recovered then debts[i] else Debt(status, recovered))
  }

  function Close(debts: seq<Debt>): seq<Debt> {
    seq(|debts|, i requires 0 <= i < |debts| => debts[i].(recovered := true))
  }

  function Approve(a: Authority, status: Status): Authority {
    if !status.Exceeds() then a
    else if ActiveDebt(a).Some? then a.(debts := WithActive(a.debts, status, false))
    else a.(debts := a.debts + [Debt(status, false)])
  }

  function RecoverIfPossible(a: Authority): Result<Authority, Error> {
    match CapacityStatus(a, None)
    case Err(e) => Err(e)
    case Ok(status) => Ok(if status.Exceeds() then a else a.(debts := Close(a.debts)))
  }

  /** The triggers that run when authority is withdrawn: active debt follows the actual status. */
  function Reconcile(a: Authority): Result<Authority, Error> {
    match CapacityStatus(a, None)
    case Err(e) => Err(e)
    case Ok(status) => Ok(a.(debts := WithActive(a.debts, status, !status.Exceeds())))
  }

  // ---------------------------------------------------------------------------
  // Operations
  // ---------------------------------------------------------------------------

  function AddDevice(a: Authority, id: string, c: FlowClass, approve: bool): Result<Authority, Error> {
    if Find(a.principals, id) < |a.principals| then Err(Conflict)
    else
      match StatusForNew(a, c)
      case Err(e) => Err(e)
      case Ok(status) =>
        if !approve && RequiresApproval(a, status) then Err(Conflict)
        else
          var a1 := if approve then Approve(a, status) else a;
          Ok(a1.(principals := a.principals + [Principal(id, c, true, true, true)]))
  }

  function Issue(a: Authority, id: string, approve: bool): Result<Authority, Error> {
    var i := Find(a.principals, id);
    if i == |a.principals| then Err(NotFound)
    else if a.principals[i].credentialed then Err(Conflict)
    else
      match StatusForActivation(a, id)
      case Err(e) => Err(e)
      case Ok(status) =>
        if !approve && RequiresApproval(a, status) then Err(Conflict)
        else
          var a1 := if approve then Approve(a, status) else a;
          Ok(a1.(principals := a.principals[i := a.principals[i].(credentialed := true)]))
  }

  /** Without approval the debt row is still brought up to date; with it, the debt is re-approved. */
  function Settle(a: Authority, status: Status, approve: bool): Result<Authority, Error> {
    if status.Exceeds() then
      if approve then Ok(Approve(a, status)) else Ok(a.(debts := WithActive(a.debts, status, false)))
    else RecoverIfPossible(a)
  }

  function ChangeClass(a: Authority, id: string, c: FlowClass, approve: bool): Result<Authority, Error> {
    match CapacityStatus(a, Some((id, c)))
    case Err(e) => Err(e)
    case Ok(status) =>
      if !approve && RequiresApproval(a, status) then Err(Conflict)
      else
        var i := Find(a.principals, id);
        if i == |a.principals| then Err(NotFound)
        else Settle(a.(principals := a.principals[i := a.principals[i].(class_ := c)]), status, approve)
  }

  function Configure(a: Authority, w: Weights, capacity: Units, approve: bool): Result<Authority, Error> {
    if !w.Valid() || !capacity.Positive() then Err(Validation)
    else
      var a1 := a.(weights := w, capacity := capacity);
      match CapacityStatus(a1, None)
      case Err(e) => Err(e)
      case Ok(status) =>
        if !approve && RequiresApproval(a1, status) then Err(Conflict) else Settle(a1, status, approve)
  }

  /** Principals lose their credentials, their scopes or their device. */
  datatype Loss = Credentials | Scopes | Devices

  function Lost(p: Principal, loss: Loss): Principal {
    match loss
    case Credentials => p.(credentialed := false)
    case Scopes => p.(scoped := false)
    case Devices => p.(device := false, scoped := false, credentialed := false)
  }

  function Withdrawn(ps: seq<Principal>, ids: set<string>, loss: Loss): seq<Principal> {
    seq(|ps|, i requires 0 <= i < |ps| => if ps[i].id in ids then Lost(ps[i], loss) else ps[i])
  }

  function Withdraw(a: Authority, ids: set<string>, loss: Loss): Result<Authority, Error> {
    Reconcile(a.(principals := Withdrawn(a.principals, ids, loss)))
  }
}
