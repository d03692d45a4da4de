/**
 From envelope to tables, exactly once: retries, lost acknowledgements and aborts leave no trace
 beyond the claim table, and a final receipt means the envelope was committed.
 */
module Delivery {
  import opened Types
  import opened Wire
  import opened Collector
  import opened CollectorRuns
  import Dedup
  import Spool
  import SpoolRuns

  // ---------------------------------------------------------------------------
  // Processing does not depend on the claim table
  // ---------------------------------------------------------------------------

  function WithClaims(db: Db, claims: Dedup.Claims): Db {
    db.(claims := claims)
  }

  function WorkWith(w: Work, claims: Dedup.Claims): Work {
    w.(db := WithClaims(w.db, claims))
  }

  lemma ItemIgnoresClaims(cfg: Config, env: Env, p: Principal, item: Wire.Item, i: nat, w: Work, claims: Dedup.Claims)
    ensures ProcessItem(cfg, env, p, item, i, WorkWith(w, claims))
            == match ProcessItem(cfg, env, p, item, i, w)
               case None => None
               case Some((w', status)) => Some((WorkWith(w', claims), status))
  {
  }

  lemma {:induction false} ItemsIgnoreClaims(
    cfg: Config, env: Env, req: Request, i: nat, w: Work, statuses: seq<ItemStatus>, claims: Dedup.Claims)
    requires i <= |req.envelope.items|
    ensures ProcessItems(cfg, env, req, i, WorkWith(w, claims), statuses)
            == match ProcessItems(cfg, env, req, i, w, statuses)
               case None => None
               case Some((w', ss)) => Some((WorkWith(w', claims), ss))
    decreases |req.envelope.items| - i
  {
    if i < |req.envelope.items| {
      ItemIgnoresClaims(cfg, env, req.principal, req.envelope.items[i], i, w, claims);
      var r := ProcessItem(cfg, env, req.principal, req.envelope.items[i], i, w);
      if r.Some? { ItemsIgnoreClaims(cfg, env, req, i + 1, r.value.0, statuses + [r.value.1], claims); }
    }
  }

  lemma TransactIgnoresClaims(cfg: Config, db: Db, req: Request, env: Env, claims: Dedup.Claims)
    ensures Transact(cfg, WithClaims(db, claims), req, env)
            == match Transact(cfg, db, req, env)
               case None => None
               case Some((db', ss)) => Some((WithClaims(db', claims), ss))
  {
    ItemsIgnoreClaims(cfg, env, req, 0, Work(db, []), [], claims);
    assert WorkWith(Work(db, []), claims) == Work(WithClaims(db, claims), []);
  }

  /** Validation answers what a first submission would, and writes nothing. */
  lemma ValidationPredicts(cfg: Config, db: Db, req: Request, env: Env)
    ensures Process(cfg, db, req, env, false).0 == db
    ensures Process(cfg, db, req, env, true).1 != Ack(Duplicate)
            ==> Process(cfg, db, req, env, true).1 == Process(cfg, db, req, env, false).1
  {
    TransactIgnoresClaims(cfg, db, req, env, Claimed(db, req, env).1.claims);
  }

  // ---------------------------------------------------------------------------
  // Runs with a commit log
  // ---------------------------------------------------------------------------

  type Pair = (string, string)

  /** `log` lists, in commit order, the requests that committed and the other writes. */
  datatype State = State(db: Db, log: seq<Event>)

  ghost predicate Commits(cfg: Config, db: Db, e: Event) {
    match e
    case Submit(req, env) => Process(cfg, db, req, env, true).1.Ack? && Process(cfg, db, req, env, true).1.status.Accepted?
    case LedgerChange(_, _) => true
    case OtherWrite(_, _, _) => true
    case _ => false
  }

  ghost function Advance(cfg: Config, s: State, e: Event): State {
    State(Step(cfg, s.db, e).0, if Commits(cfg, s.db, e) then s.log + [e] else s.log)
  }

  ghost function History(cfg: Config, s: State, es: seq<Event>): State
    decreases |es|
  {
    if es == [] then s else History(cfg, Advance(cfg, s, es[0]), es[1..])
  }

  /** A collector without claims, retries or failures: it runs each logged request once. */
  ghost function Replay(cfg: Config, db: Db, log: seq<Event>): Db {
    if log == [] then db
    else
      var before := Replay(cfg, db, log[..|log| - 1]);
      match log[|log| - 1]
      case Submit(req, env) => (match Transact(cfg, before, req, env) case None => before case Some((db', _)) => db')
      case other => Written(before, other)
  }

  function Product(db: Db): Db {
    WithClaims(db, [])
  }

  lemma ReplayAppend(cfg: Config, db: Db, log: seq<Event>, e: Event)
    ensures (log + [e])[..|log|] == log && (log + [e])[|log|] == e
  {
  }

  /** Whatever does not commit leaves the product tables alone; whatever commits is replayed. */
  lemma AdvanceReplays(cfg: Config, start: Db, s: State, e: Event)
    requires Product(s.db) == Replay(cfg, start, s.log)
    ensures Product(Advance(cfg, s, e).db) == Replay(cfg, start, Advance(cfg, s, e).log)
  {
    ReplayAppend(cfg, start, s.log, e);
    if e.Submit? && Commits(cfg, s.db, e) {
      var claimed := Claimed(s.db, e.req, e.env).1;
      TransactIgnoresClaims(cfg, claimed, e.req, e.env, []);
      assert WithClaims(claimed, []) == Product(s.db);
    }
  }

  lemma {:induction false} HistoryReplays(cfg: Config, start: Db, s: State, es: seq<Event>)
    requires Product(s.db) == Replay(cfg, start, s.log)
    ensures var s' := History(cfg, s, es); Product(s'.db) == Replay(cfg, start, s'.log)
    decreases |es|
  {
    if es != [] {
      AdvanceReplays(cfg, start, s, es[0]);
      HistoryReplays(cfg, start, Advance(cfg, s, es[0]), es[1..]);
    }
  }

  /**
   Over any run with aborts, lost acknowledgements, duplicates and validations, readings, series,
   pipeline states, outbox rows, publications and staging equal those of a run that has no retries
   and no claims and processes each committed request once, in commit order.
   */
  lemma RetriesLeaveNoTrace(cfg: Config, db: Db, es: seq<Event>)
    ensures var s := History(cfg, State(db, []), es);
            Product(s.db) == Replay(cfg, Product(db), s.log)
  {
    HistoryReplays(cfg, Product(db), State(db, []), es);
  }

  // ---------------------------------------------------------------------------
  // Each pair commits once
  // ---------------------------------------------------------------------------

  function PairOf(req: Request): Pair {
    (req.principal.id, req.envelope.id)
  }

  function Pairs(log: seq<Event>): seq<Pair> {
    if log == [] then []
    else
      var before := Pairs(log[..|log| - 1]);
      if log[|log| - 1].Submit? then before + [PairOf(log[|log| - 1].req)] else before
  }

  predicate Distinct(ps: seq<Pair>) {
    forall i, j | 0 <= i < j < |ps| :: ps[i] != ps[j]
  }

  predicate ClaimHeld(claims: Dedup.Claims, pair: Pair, now: int) {
    exists i :: 0 <= i < |claims| && claims[i].principal == pair.0 && claims[i].envelope == pair.1
                && claims[i].receivedAt >= now - DEDUP_LIMITS.maxAge
  }

  /** A request for a pair that already committed finds its claim in the table and in its window. */
  ghost predicate Held(s: State, e: Event) {
    e.Submit? && PairOf(e.req) in Pairs(s.log) ==> ClaimHeld(s.db.claims, PairOf(e.req), e.env.receivedAt)
  }

  ghost predicate AlwaysHeld(cfg: Config, s: State, es: seq<Event>)
    decreases |es|
  {
    es != [] ==> Held(s, es[0]) && AlwaysHeld(cfg, Advance(cfg, s, es[0]), es[1..])
  }

  /** Claims are for committed pairs, one each. */
  ghost predicate ClaimsOk(s: State) {
    && Dedup.DistinctKeys(s.db.claims)
    && forall c | c in s.db.claims :: (c.principal, c.envelope) in Pairs(s.log)
  }

  lemma PairsAppend(log: seq<Event>, e: Event)
    ensures Pairs(log + [e]) == if e.Submit? then Pairs(log) + [PairOf(e.req)] else Pairs(log)
  {
    assert (log + [e])[..|log|] == log;
  }

  /** The purge takes exactly the claims received before the cutoff. */
  lemma {:induction false} UnpurgedMember(claims: Dedup.Claims, cutoff: int)
    ensures forall c :: c in Unpurged(claims, cutoff) <==> c in claims && c.receivedAt >= cutoff
    ensures Dedup.DistinctKeys(claims) ==> Dedup.DistinctKeys(Unpurged(claims, cutoff))
  {
    if claims != [] {
      var before := claims[..|claims| - 1];
      UnpurgedMember(before, cutoff);
      assert claims == before + [claims[|claims| - 1]];
      if Dedup.DistinctKeys(claims) {
        assert Dedup.DistinctKeys(before);
        forall i | 0 <= i < |Unpurged(before, cutoff)|
          ensures var c, last := Unpurged(before, cutoff)[i], claims[|claims| - 1];
                  c.principal != last.principal || c.envelope != last.envelope
        {
          assert Unpurged(before, cutoff)[i] in before;
        }
      }
    }
  }

  /** Every claim after claiming a pair was there before, up to its time, or is for that pair. */
  lemma ClaimedPairs(claims: Dedup.Claims, principal: string, envelope: string, now: int, limits: Dedup.Limits)
    requires limits.Valid()
    ensures forall c | c in Dedup.Claimed(claims, principal, envelope, now, limits).1 ::
              c in claims || (c.principal == principal && c.envelope == envelope)
  {
    Dedup.RoomFacts(claims, principal, limits, None);
    var claims' := Dedup.Claimed(claims, principal, envelope, now, limits).1;
    forall c | c in claims' ensures c in claims || (c.principal == principal && c.envelope == envelope) {
      var i :| 0 <= i < |claims'| && claims'[i] == c;
    }
  }

  /** Processing an envelope leaves the claim table as the claim left it. */
  lemma CommittedClaims(cfg: Config, db: Db, req: Request, env: Env)
    requires Commits(cfg, db, Submit(req, env))
    ensures var (first, claims) := Dedup.Claimed(db.claims, req.principal.id, req.envelope.id, env.receivedAt, DEDUP_LIMITS);
            first && Step(cfg, db, Submit(req, env)).0.claims == claims
  {
    var claimed := Claimed(db, req, env).1;
    TransactIgnoresClaims(cfg, claimed, req, env, claimed.claims);
    assert WithClaims(claimed, claimed.claims) == claimed;
  }

  lemma AdvanceClaims(cfg: Config, s: State, e: Event)
    requires ClaimsOk(s)
    ensures ClaimsOk(Advance(cfg, s, e))
  {
    PairsAppend(s.log, e);
    if e.Submit? && Commits(cfg, s.db, e) {
      CommittedClaims(cfg, s.db, e.req, e.env);
      var pid, eid, now := e.req.principal.id, e.req.envelope.id, e.env.receivedAt;
      ClaimedPairs(s.db.claims, pid, eid, now, DEDUP_LIMITS);
      Dedup.ClaimKeepsBounds(s.db.claims, pid, eid, now, DEDUP_LIMITS);
      var ps := Pairs(s.log + [e]);
      assert ps[|ps| - 1] == (pid, eid);
    } else if e.PurgeClaims? {
      UnpurgedMember(s.db.claims, e.cutoff);
    }
  }

  lemma AdvanceDistinct(cfg: Config, s: State, e: Event)
    requires ClaimsOk(s) && Held(s, e) && Distinct(Pairs(s.log))
    ensures Distinct(Pairs(Advance(cfg, s, e).log))
  {
    PairsAppend(s.log, e);
    if e.Submit? && Commits(cfg, s.db, e) {
      CommittedClaims(cfg, s.db, e.req, e.env);
      Dedup.DuplicateExact(s.db.claims, e.req.principal.id, e.req.envelope.id, e.env.receivedAt, DEDUP_LIMITS);
    }
  }

  lemma {:induction false} HistoryDistinct(cfg: Config, s: State, es: seq<Event>)
    requires ClaimsOk(s) && Distinct(Pairs(s.log)) && AlwaysHeld(cfg, s, es)
    ensures Distinct(Pairs(History(cfg, s, es).log))
    decreases |es|
  {
    if es != [] {
      AdvanceClaims(cfg, s, es[0]);
      AdvanceDistinct(cfg, s, es[0]);
      HistoryDistinct(cfg, Advance(cfg, s, es[0]), es[1..]);
    }
  }

  /**
   From a database without claims, while every retried claim is still in its window and not
   evicted, no principal and envelope id commits twice.
   */
  lemma CommittedOnce(cfg: Config, db: Db, es: seq<Event>)
    requires db.claims == [] && AlwaysHeld(cfg, State(db, []), es)
    ensures Distinct(Pairs(History(cfg, State(db, []), es).log))
  {
    HistoryDistinct(cfg, State(db, []), es);
  }

  // ---------------------------------------------------------------------------
  // When claims are certainly held
  // ---------------------------------------------------------------------------

  /** Receive times within one window, and no claim purged inside it. */
  predicate WithinWindow(es: seq<Event>, since: int) {
    forall i | 0 <= i < |es| ::
      && (es[i].Submit? ==> since <= es[i].env.receivedAt <= since + DEDUP_LIMITS.maxAge)
      && (es[i].PurgeClaims? ==> es[i].cutoff <= since)
  }

  predicate HasClaim(claims: Dedup.Claims, pair: Pair) {
    exists i :: 0 <= i < |claims| && claims[i].principal == pair.0 && claims[i].envelope == pair.1
  }

  ghost predicate AllClaimed(claims: Dedup.Claims, ps: seq<Pair>, since: int) {
    && (forall i | 0 <= i < |claims| :: claims[i].receivedAt >= since)
    && (forall i | 0 <= i < |ps| :: HasClaim(claims, ps[i]))
  }

  lemma {:induction false} NothingToPurge(claims: Dedup.Claims, cutoff: int)
    requires forall i | 0 <= i < |claims| :: claims[i].receivedAt >= cutoff
    ensures Unpurged(claims, cutoff) == claims
  {
    if claims != [] { NothingToPurge(claims[..|claims| - 1], cutoff); }
  }

  lemma {:induction false} CountAtMost(claims: Dedup.Claims, principal: Option<string>)
    ensures Dedup.Count(claims, principal) <= |claims|
  {
    if claims != [] { CountAtMost(claims[..|claims| - 1], principal); }
  }

  lemma AllClaimedAppend(claims: Dedup.Claims, ps: seq<Pair>, since: int, c: Dedup.Claim)
    requires AllClaimed(claims, ps, since) && c.receivedAt >= since
    ensures AllClaimed(claims + [c], ps + [(c.principal, c.envelope)], since)
  {
    var claims', ps' := claims + [c], ps + [(c.principal, c.envelope)];
    forall i | 0 <= i < |ps'| ensures HasClaim(claims', ps'[i]) {
      if i < |ps| {
        assert HasClaim(claims, ps[i]);
        var k :| 0 <= k < |claims| && claims[k].principal == ps[i].0 && claims[k].envelope == ps[i].1;
        assert claims'[k] == claims[k];
      } else {
        assert claims'[|claims|] == c;
      }
    }
  }

  /** A first claim with room to spare is appended and evicts nothing. */
  lemma FirstClaimAppends(claims: Dedup.Claims, ps: seq<Pair>, req: Request, env: Env, since: int)
    requires AllClaimed(claims, ps, since) && |claims| < DEDUP_LIMITS.principalRows
    requires since <= env.receivedAt <= since + DEDUP_LIMITS.maxAge
    ensures var (first, claims') :=
              Dedup.Claimed(claims, req.principal.id, req.envelope.id, env.receivedAt, DEDUP_LIMITS);
            first ==> claims' == claims + [Dedup.Claim(req.principal.id, req.envelope.id, env.receivedAt)]
  {
    CountAtMost(claims, Some(req.principal.id));
  }

  lemma AllClaimedHeld(s: State, e: Event, since: int)
    requires AllClaimed(s.db.claims, Pairs(s.log), since) && WithinWindow([e], since)
    ensures Held(s, e)
  {
    assert [e][0] == e;
    if e.Submit? && PairOf(e.req) in Pairs(s.log) {
      var k :| 0 <= k < |Pairs(s.log)| && Pairs(s.log)[k] == PairOf(e.req);
      assert HasClaim(s.db.claims, Pairs(s.log)[k]);
    }
  }

  /** Events that are not commits leave the claims of a window alone. */
  lemma OthersKeepClaims(cfg: Config, s: State, e: Event, since: int)
    requires forall i | 0 <= i < |s.db.claims| :: s.db.claims[i].receivedAt >= since
    requires e.PurgeClaims? ==> e.cutoff <= since
    requires e.Submit? ==> !Commits(cfg, s.db, e)
    ensures Advance(cfg, s, e).db.claims == s.db.claims && Pairs(Advance(cfg, s, e).log) == Pairs(s.log)
  {
    PairsAppend(s.log, e);
    if e.PurgeClaims? { NothingToPurge(s.db.claims, e.cutoff); }
  }

  lemma AdvanceAllClaimed(cfg: Config, s: State, e: Event, since: int)
    requires AllClaimed(s.db.claims, Pairs(s.log), since) && |s.db.claims| < DEDUP_LIMITS.principalRows
    requires WithinWindow([e], since)
    ensures var s' := Advance(cfg, s, e);
            AllClaimed(s'.db.claims, Pairs(s'.log), since) && |s'.db.claims| <= |s.db.claims| + 1
  {
    assert [e][0] == e;
    if e.Submit? && Commits(cfg, s.db, e) {
      PairsAppend(s.log, e);
      CommittedClaims(cfg, s.db, e.req, e.env);
      FirstClaimAppends(s.db.claims, Pairs(s.log), e.req, e.env, since);
      AllClaimedAppend(s.db.claims, Pairs(s.log), since,
                       Dedup.Claim(e.req.principal.id, e.req.envelope.id, e.env.receivedAt));
    } else {
      OthersKeepClaims(cfg, s, e, since);
    }
  }

  lemma {:induction false} WindowIsHeld(cfg: Config, s: State, es: seq<Event>, since: int)
    requires AllClaimed(s.db.claims, Pairs(s.log), since) && WithinWindow(es, since)
    requires |s.db.claims| + |es| <= DEDUP_LIMITS.principalRows
    ensures AlwaysHeld(cfg, s, es)
    decreases |es|
  {
    if es != [] {
      assert WithinWindow([es[0]], since);
      AllClaimedHeld(s, es[0], since);
      AdvanceAllClaimed(cfg, s, es[0], since);
      WindowIsHeld(cfg, Advance(cfg, s, es[0]), es[1..], since);
    }
  }

  /** In particular, up to `principalRows` events inside one window commit each pair at most once. */
  lemma CommittedOnceInWindow(cfg: Config, db: Db, es: seq<Event>, since: int)
    requires db.claims == [] && WithinWindow(es, since) && |es| <= DEDUP_LIMITS.principalRows
    ensures Distinct(Pairs(History(cfg, State(db, []), es).log))
  {
    WindowIsHeld(cfg, State(db, []), es, since);
    CommittedOnce(cfg, db, es);
  }

  // ---------------------------------------------------------------------------
  // The spool in front of the collector
  // ---------------------------------------------------------------------------

  datatype Pipeline = Pipeline(spool: Spool.SpoolState, state: State)

  /**
   `env` is what the collector meets if the turn submits; `lost` loses its answer after the
   transaction, `closed` means the collector is gone before it.
   */
  datatype Happening =
    | Offer(envelope: Envelope, receipt: bool)
    | ClientTurn(now: int, inputFirst: bool, env: Env, lost: bool, closed: bool)
    | Hangup
    | Elsewhere(event: Event)

  function ClientReply(reply: Reply): Spool.Reply {
    match reply
    case Ack(status) => Spool.Ack(status)
    case NoAck => Spool.NoAck
    case ClockUntrusted => Spool.ClockUntrusted
    case AuthenticationStale => Spool.AuthenticationStale
  }

  ghost function Happen(cfg: Config, p: Principal, queueCap: nat, cap: nat, s: Pipeline, h: Happening): Pipeline {
    match h
    case Offer(envelope, receipt) =>
      s.(spool := SpoolRuns.Step(s.spool, queueCap, cap, SpoolRuns.Submit(envelope, receipt)))
    case Hangup => s.(spool := SpoolRuns.Step(s.spool, queueCap, cap, SpoolRuns.DropSenders))
    case Elsewhere(event) => s.(state := Advance(cfg, s.state, event))
    case ClientTurn(now, inputFirst, env, lost, closed) =>
      if s.spool.running && Spool.Ready(s.spool, now) && !closed then
        var event := Submit(Request(p, s.spool.spool[0].envelope), env);
        var reply := Process(cfg, s.state.db, event.req, env, true).1;
        var seen := if lost then Spool.NoAck else ClientReply(reply);
        Pipeline(Spool.Turned(s.spool, cap, Spool.Turn(now, seen, inputFirst)), Advance(cfg, s.state, event))
      else s.(spool := Spool.Turned(s.spool, cap, Spool.Turn(now, Spool.Closed, inputFirst)))
  }

  ghost function Play(cfg: Config, p: Principal, queueCap: nat, cap: nat, s: Pipeline, hs: seq<Happening>): Pipeline
    decreases |hs|
  {
    if hs == [] then s else Play(cfg, p, queueCap, cap, Happen(cfg, p, queueCap, cap, s, hs[0]), hs[1..])
  }

  /** This very request is among the committed ones. */
  ghost predicate Committed(log: seq<Event>, req: Request) {
    exists k :: 0 <= k < |log| && log[k].Submit? && log[k].req == req
  }

  /** An answer is true if Accepted means this very request committed, and Duplicate that its pair did. */
  ghost predicate TrueOf(log: seq<Event>, req: Request, status: AckStatus) {
    && (status.Accepted? ==> Committed(log, req))
    && (status.Duplicate? ==> PairOf(req) in Pairs(log))
  }

  ghost predicate Truthful(p: Principal, resolved: seq<Spool.Resolution>, log: seq<Event>) {
    forall i | 0 <= i < |resolved| && resolved[i].outcome.Final? ::
      TrueOf(log, Request(p, resolved[i].entry.envelope), resolved[i].outcome.status)
  }

  ghost predicate PipelineOk(p: Principal, cap: nat, s: Pipeline) {
    && SpoolRuns.Inv(s.spool, cap)
    && ClaimsOk(s.state)
    && Truthful(p, s.spool.resolved, s.state.log)
  }

  lemma LogGrows(cfg: Config, s: State, e: Event, req: Request, status: AckStatus)
    requires TrueOf(s.log, req, status)
    ensures TrueOf(Advance(cfg, s, e).log, req, status)
  {
    PairsAppend(s.log, e);
    if status.Accepted? {
      var k :| 0 <= k < |s.log| && s.log[k].Submit? && s.log[k].req == req;
      assert Advance(cfg, s, e).log[k] == s.log[k];
    }
  }

  /** A positive answer is true in the log, by this commit or an earlier one. */
  lemma AnswerIsTrue(cfg: Config, s: State, req: Request, env: Env)
    requires ClaimsOk(s)
    ensures var reply := Process(cfg, s.db, req, env, true).1;
            reply.Ack? ==> TrueOf(Advance(cfg, s, Submit(req, env)).log, req, reply.status)
  {
    var e := Submit(req, env);
    var reply := Process(cfg, s.db, req, env, true).1;
    if reply == Ack(Duplicate) {
      Dedup.DuplicateExact(s.db.claims, req.principal.id, req.envelope.id, env.receivedAt, DEDUP_LIMITS);
      var i :| 0 <= i < |s.db.claims| && s.db.claims[i].principal == req.principal.id
               && s.db.claims[i].envelope == req.envelope.id;
      assert s.db.claims[i] in s.db.claims;
    } else if Commits(cfg, s.db, e) {
      assert (s.log + [e])[|s.log|] == e;
    }
  }

  /** A turn adds at most final answers it was just given; anything else it resolves is abandoned. */
  lemma TurnResolves(s: Spool.SpoolState, cap: nat, t: Spool.Turn)
    ensures var s' := Spool.Turned(s, cap, t);
            && s.resolved <= s'.resolved
            && forall i | |s.resolved| <= i < |s'.resolved| && s'.resolved[i].outcome.Final? ::
                 && s.running && Spool.Ready(s, t.now)
                 && s'.resolved[i].entry == s.spool[0] && t.reply == Spool.Ack(s'.resolved[i].outcome.status)
  {
  }

  lemma SubmitTurnTruthful(cfg: Config, p: Principal, cap: nat, s: Pipeline, now: int, inputFirst: bool, env: Env, lost: bool)
    requires PipelineOk(p, cap, s) && s.spool.running && Spool.Ready(s.spool, now)
    ensures var event := Submit(Request(p, s.spool.spool[0].envelope), env);
            var reply := Process(cfg, s.state.db, event.req, env, true).1;
            var seen := if lost then Spool.NoAck else ClientReply(reply);
            Truthful(p, Spool.Turned(s.spool, cap, Spool.Turn(now, seen, inputFirst)).resolved,
                     Advance(cfg, s.state, event).log)
  {
    var req := Request(p, s.spool.spool[0].envelope);
    var e := Submit(req, env);
    var reply := Process(cfg, s.state.db, req, env, true).1;
    var seen := if lost then Spool.NoAck else ClientReply(reply);
    TurnResolves(s.spool, cap, Spool.Turn(now, seen, inputFirst));
    AnswerIsTrue(cfg, s.state, req, env);
    var resolved' := Spool.Turned(s.spool, cap, Spool.Turn(now, seen, inputFirst)).resolved;
    forall i | 0 <= i < |resolved'| && resolved'[i].outcome.Final?
      ensures TrueOf(Advance(cfg, s.state, e).log, Request(p, resolved'[i].entry.envelope), resolved'[i].outcome.status)
    {
      if i < |s.spool.resolved| {
        assert resolved'[i] == s.spool.resolved[i];
        LogGrows(cfg, s.state, e, Request(p, resolved'[i].entry.envelope), resolved'[i].outcome.status);
      }
    }
  }

  lemma HappenKeeps(cfg: Config, p: Principal, queueCap: nat, cap: nat, s: Pipeline, h: Happening)
    requires PipelineOk(p, cap, s)
    ensures PipelineOk(p, cap, Happen(cfg, p, queueCap, cap, s, h))
  {
    match h
    case Offer(envelope, receipt) => SpoolRuns.StepKeeps(s.spool, queueCap, cap, SpoolRuns.Submit(envelope, receipt));
    case Hangup => SpoolRuns.StepKeeps(s.spool, queueCap, cap, SpoolRuns.DropSenders);
    case Elsewhere(event) =>
      AdvanceClaims(cfg, s.state, event);
      forall i | 0 <= i < |s.spool.resolved| && s.spool.resolved[i].outcome.Final?
        ensures TrueOf(Advance(cfg, s.state, event).log, Request(p, s.spool.resolved[i].entry.envelope),
                       s.spool.resolved[i].outcome.status)
      {
        LogGrows(cfg, s.state, event, Request(p, s.spool.resolved[i].entry.envelope), s.spool.resolved[i].outcome.status);
      }
    case ClientTurn(now, inputFirst, env, lost, closed) =>
      if s.spool.running && Spool.Ready(s.spool, now) && !closed {
        SubmitTurnKeeps(cfg, p, cap, s, now, inputFirst, env, lost);
      } else {
        OtherTurnKeeps(p, cap, s, Spool.Turn(now, Spool.Closed, inputFirst));
      }
  }

  lemma SubmitTurnKeeps(cfg: Config, p: Principal, cap: nat, s: Pipeline, now: int, inputFirst: bool, env: Env, lost: bool)
    requires PipelineOk(p, cap, s) && s.spool.running && Spool.Ready(s.spool, now)
    ensures var event := Submit(Request(p, s.spool.spool[0].envelope), env);
            var reply := Process(cfg, s.state.db, event.req, env, true).1;
            var seen := if lost then Spool.NoAck else ClientReply(reply);
            PipelineOk(p, cap, Pipeline(Spool.Turned(s.spool, cap, Spool.Turn(now, seen, inputFirst)),
                                        Advance(cfg, s.state, event)))
  {
    var event := Submit(Request(p, s.spool.spool[0].envelope), env);
    AdvanceClaims(cfg, s.state, event);
    SubmitTurnTruthful(cfg, p, cap, s, now, inputFirst, env, lost);
    var reply := Process(cfg, s.state.db, event.req, env, true).1;
    var seen := if lost then Spool.NoAck else ClientReply(reply);
    SpoolRuns.TurnedKeeps(s.spool, cap, Spool.Turn(now, seen, inputFirst));
  }

  lemma OtherTurnKeeps(p: Principal, cap: nat, s: Pipeline, t: Spool.Turn)
    requires PipelineOk(p, cap, s) && t.reply == Spool.Closed
    ensures PipelineOk(p, cap, s.(spool := Spool.Turned(s.spool, cap, t)))
  {
    SpoolRuns.TurnedKeeps(s.spool, cap, t);
    TurnResolves(s.spool, cap, t);
  }

  lemma {:induction false} PlayKeeps(cfg: Config, p: Principal, queueCap: nat, cap: nat, s: Pipeline, hs: seq<Happening>)
    requires PipelineOk(p, cap, s)
    ensures PipelineOk(p, cap, Play(cfg, p, queueCap, cap, s, hs))
    decreases |hs|
  {
    if hs != [] {
      HappenKeeps(cfg, p, queueCap, cap, s, hs[0]);
      PlayKeeps(cfg, p, queueCap, cap, Happen(cfg, p, queueCap, cap, s, hs[0]), hs[1..]);
    }
  }

  /**
   Whatever is lost, retried or aborted on the way, Final(Accepted) is only ever given for an
   envelope that itself committed, and Final(Duplicate) only if an envelope of that id did.
   */
  lemma ReceiptsAreTruthful(cfg: Config, db: Db, p: Principal, queueCap: nat, cap: nat, hs: seq<Happening>)
    requires db.claims == []
    ensures var s := Play(cfg, p, queueCap, cap, Pipeline(Spool.INITIAL, State(db, [])), hs);
            Truthful(p, s.spool.resolved, s.state.log)
  {
    PlayKeeps(cfg, p, queueCap, cap, Pipeline(Spool.INITIAL, State(db, [])), hs);
  }

  // ---------------------------------------------------------------------------
  // Ids that name two envelopes
  // ---------------------------------------------------------------------------

  /** No committed request of this principal id uses the envelope's id for another envelope. */
  ghost predicate NamesOne(log: seq<Event>, principal: string, envelope: Envelope) {
    forall k | 0 <= k < |log| && log[k].Submit? && PairOf(log[k].req) == (principal, envelope.id) ::
      log[k].req.envelope == envelope
  }

  lemma {:induction false} PairsHaveEvents(log: seq<Event>, pair: Pair)
    requires pair in Pairs(log)
    ensures exists k :: 0 <= k < |log| && log[k].Submit? && PairOf(log[k].req) == pair
  {
    var before := log[..|log| - 1];
    if pair in Pairs(before) {
      PairsHaveEvents(before, pair);
      var k :| 0 <= k < |before| && before[k].Submit? && PairOf(before[k].req) == pair;
      assert log[k] == before[k];
    } else {
      assert log[|log| - 1].Submit?;
    }
  }

  /** As long as ids name one envelope, Final(Duplicate) too is only given for a committed envelope. */
  lemma DuplicateIsSameEnvelope(
    cfg: Config, db: Db, p: Principal, queueCap: nat, cap: nat, hs: seq<Happening>, i: nat)
    requires db.claims == []
    requires var s := Play(cfg, p, queueCap, cap, Pipeline(Spool.INITIAL, State(db, [])), hs);
             && i < |s.spool.resolved| && s.spool.resolved[i].outcome == Spool.Final(Duplicate)
             && NamesOne(s.state.log, p.id, s.spool.resolved[i].entry.envelope)
    ensures var s := Play(cfg, p, queueCap, cap, Pipeline(Spool.INITIAL, State(db, [])), hs);
            exists k :: 0 <= k < |s.state.log| && s.state.log[k].Submit?
                        && s.state.log[k].req.envelope == s.spool.resolved[i].entry.envelope
  {
    ReceiptsAreTruthful(cfg, db, p, queueCap, cap, hs);
    var s := Play(cfg, p, queueCap, cap, Pipeline(Spool.INITIAL, State(db, [])), hs);
    PairsHaveEvents(s.state.log, (p.id, s.spool.resolved[i].entry.envelope.id));
  }

  /**
   The collector compares ids only: once a pair is claimed and in its window, any envelope that
   reuses the id is answered Duplicate and nothing of it is stored, whatever it holds; and these
   are the only Duplicate answers.
   */
  lemma ReusedIdIsSwallowed(cfg: Config, s: State, req: Request, env: Env)
    requires ClaimsOk(s)
    ensures Process(cfg, s.db, req, env, true).1 == Ack(Duplicate)
            <==> Preflight(req, env).None? && ClaimHeld(s.db.claims, PairOf(req), env.receivedAt)
    ensures Process(cfg, s.db, req, env, true).1 == Ack(Duplicate) ==> Advance(cfg, s, Submit(req, env)) == s
  {
    Dedup.DuplicateExact(s.db.claims, req.principal.id, req.envelope.id, env.receivedAt, DEDUP_LIMITS);
  }
}
