/** The life of a chat request's hold, interleaved with every other request, the stale-hold
    sweeper, the cleanup of closed holds, top-ups and monthly resets. */
module RequestHolds {
  import opened Common
  import opened Ledger
  import opened Estimator
  import L = LedgerLaws

  /** How forwarding ended, branch by branch of the two handlers. */
  datatype Upstream =
    | StreamingUnsupported
    | RequestNotBuilt
    | Unreachable(clientGone: bool)
    | BodyUnreadable
    | BadStatus
    | Body(tokens: Tokens, length: nat)
    | Stream(tokens: Tokens, bytesWritten: nat, status: Status)

  /** What the handler does with the hold, and the status it logs, if any. */
  datatype Plan = Free(log: Option<Status>) | Charge(cost: real, status: Status)

  /** The tokens billed: those reported, or an estimate from the response's length when no usage
      could be extracted. */
  function Billed(t: Tokens, length: nat): (int, int) {
    if t.total == 0 && length > 0 then (0, EstimateFromResponseBytes(length)) else (t.prompt, t.completion)
  }

  function SettlementCost(pricing: Option<Pricing>, t: Tokens, length: nat): real {
    EstimateCost(pricing, Billed(t, length).0, Billed(t, length).1)
  }

  function PlanFor(pricing: Option<Pricing>, u: Upstream): Plan {
    match u
    case StreamingUnsupported => Free(None)
    case RequestNotBuilt => Free(None)
    case Unreachable(clientGone) => Free(Some(if clientGone then Partial else Error))
    case BodyUnreadable => Free(Some(Error))
    case BadStatus => Free(Some(Error))
    case Body(t, length) => Charge(SettlementCost(pricing, t, length), Completed)
    case Stream(t, bytes, status) =>
      if status == Error && bytes == 0 then Free(Some(Error)) else Charge(SettlementCost(pricing, t, bytes), status)
  }

  datatype UsageEntry = UsageEntry(request: nat, status: Status, creditsCharged: real)

  /** The token counts a request reserved for. */
  datatype Estimates = Estimates(prompt: nat, completion: nat)

  /** Where a request is.  `Done` keeps what the request knew when it returned. */
  datatype Pc =
    | Holding(hold: nat, pricing: Option<Pricing>, estimates: Estimates)
    | Releasing(hold: nat, log: Option<Status>)
    | Settling(hold: nat, cost: real, status: Status)
    | Logging(hold: nat, charged: real, status: Status)
    | Done(hold: nat)
    | Rejected

  datatype System = System(ledger: Ledger, pcs: map<nat, Pc>, usage: seq<UsageEntry>)

  const START := System(EMPTY, map[], [])

  datatype Event =
    | Begin(r: nat, account: nat, pricing: Option<Pricing>, promptEst: nat, completionEst: nat, now: real)
    | Forwarded(r: nat, upstream: Upstream)
    | Advance(r: nat, now: real, queueFull: bool)
    | Sweep(hold: nat, now: real)
    | Other(op: L.Op)

  /** Steps outside the handlers: they never reserve or settle. */
  predicate Outside(op: L.Op) {
    !op.Reserve? && !op.Settle?
  }

  function At(s: System, r: nat, pc: Pc): System {
    s.(pcs := s.pcs[r := pc])
  }

  function AdvanceSpec(s: System, r: nat, now: real, queueFull: bool): System
    requires r in s.pcs
  {
    match s.pcs[r]
    case Releasing(hold, log) =>
      At(s.(ledger := ReleaseSpec(s.ledger, hold, now)), r,
         if log.None? then Done(hold) else Logging(hold, 0.0, log.value))
    case Settling(hold, cost, status) =>
      var (l, charged) := SettleSpec(s.ledger, hold, cost, now);
      At(s.(ledger := l), r, Logging(hold, charged, status))
    case Logging(hold, charged, status) =>
      At(if queueFull then s else s.(usage := s.usage + [UsageEntry(r, status, charged)]), r, Done(hold))
    case _ => s
  }

  function Step(s: System, e: Event): System {
    match e
    case Begin(r, account, pricing, promptEst, completionEst, now) =>
      if r in s.pcs then s
      else
        var (l, hold) := ReserveSpec(s.ledger, account, EstimateCost(pricing, promptEst, completionEst), now);
        At(s.(ledger := l), r,
           if hold.None? then Rejected else Holding(hold.value, pricing, Estimates(promptEst, completionEst)))
    case Forwarded(r, upstream) =>
      if r !in s.pcs || !s.pcs[r].Holding? then s
      else
        var hold := s.pcs[r].hold;
        At(s, r, match PlanFor(s.pcs[r].pricing, upstream)
                 case Free(log) => Releasing(hold, log)
                 case Charge(cost, status) => Settling(hold, cost, status))
    case Advance(r, now, queueFull) => if r in s.pcs then AdvanceSpec(s, r, now, queueFull) else s
    case Sweep(hold, now) => s.(ledger := ReleaseSpec(s.ledger, hold, now))
    case Other(op) => if Outside(op) then s.(ledger := L.Step(s.ledger, op)) else s
  }

  function Run(s: System, events: seq<Event>): System {
    if events == [] then s else Step(Run(s, events[..|events| - 1]), events[|events| - 1])
  }

  // ---- The promise --------------------------------------------------------------------------

  /** How often, and how much in all, the audit trail debits a hold. */
  function Debits(txns: seq<Txn>, hold: nat): nat {
    if txns == [] then 0
    else Debits(txns[..|txns| - 1], hold) + if txns[|txns| - 1].kind == Kind.Usage(hold) then 1 else 0
  }

  function Debited(txns: seq<Txn>, hold: nat): real {
    if txns == [] then 0.0
    else
      var t := txns[|txns| - 1];
      Debited(txns[..|txns| - 1], hold) - if t.kind == Kind.Usage(hold) then t.amount else 0.0
  }

  ghost predicate HasHold(pc: Pc) {
    !pc.Rejected?
  }

  /** A hold that is still the request's to settle has not been debited; one it has dealt with is
      no longer pending, and what the request remembers as charged is what was debited. */
  ghost predicate Faithful(l: Ledger, pc: Pc) {
    match pc
    case Rejected => true
    case Holding(hold, _, _) => hold < |l.holds| && Debits(l.txns, hold) == 0
    case Releasing(hold, _) => hold < |l.holds| && Debits(l.txns, hold) == 0
    case Settling(hold, _, _) => hold < |l.holds| && Debits(l.txns, hold) == 0
    case Logging(hold, charged, _) =>
      hold < |l.holds| && !IsPending(l.holds, hold) && Debits(l.txns, hold) <= 1 && charged == Debited(l.txns, hold)
    case Done(hold) => hold < |l.holds| && !IsPending(l.holds, hold) && Debits(l.txns, hold) <= 1
  }

  ghost predicate AllFaithful(s: System) {
    forall r :: r in s.pcs ==> Faithful(s.ledger, s.pcs[r])
  }

  /** No two requests share a hold. */
  ghost predicate HoldsDistinct(s: System) {
    forall r, q :: r in s.pcs && q in s.pcs && r != q && HasHold(s.pcs[r]) && HasHold(s.pcs[q]) ==>
      s.pcs[r].hold != s.pcs[q].hold
  }

  ghost predicate FutureHoldsUndebited(l: Ledger) {
    forall h: nat :: |l.holds| <= h ==> Debits(l.txns, h) == 0
  }

  ghost predicate UsageExact(s: System) {
    forall i :: 0 <= i < |s.usage| ==>
      s.usage[i].request in s.pcs && s.pcs[s.usage[i].request].Done? &&
      s.usage[i].creditsCharged == Debited(s.ledger.txns, s.pcs[s.usage[i].request].hold)
  }

  ghost predicate Inv(s: System) {
    L.Reserves(s.ledger) && AllFaithful(s) && HoldsDistinct(s) && FutureHoldsUndebited(s.ledger) && UsageExact(s)
  }

  lemma DebitsAppend(txns: seq<Txn>, t: Txn, hold: nat)
    ensures Debits(txns + [t], hold) == Debits(txns, hold) + (if t.kind == Kind.Usage(hold) then 1 else 0)
    ensures Debited(txns + [t], hold) == Debited(txns, hold) - (if t.kind == Kind.Usage(hold) then t.amount else 0.0)
  {
    assert (txns + [t])[..|txns|] == txns;
  }

  lemma {:induction false} NoDebitsNoAmount(txns: seq<Txn>, hold: nat)
    requires Debits(txns, hold) == 0
    ensures Debited(txns, hold) == 0.0
  {
    if txns != [] {
      NoDebitsNoAmount(txns[..|txns| - 1], hold);
    }
  }

  /** From `l` to `m` no hold comes back to pending, none disappears, and only `except` is debited. */
  ghost predicate Onward(l: Ledger, m: Ledger, except: Option<nat>) {
    && |l.holds| <= |m.holds|
    && (forall h: nat :: h < |l.holds| && !IsPending(l.holds, h) ==> !IsPending(m.holds, h))
    && (forall h: nat :: except != Some(h) ==>
          Debits(m.txns, h) == Debits(l.txns, h) && Debited(m.txns, h) == Debited(l.txns, h))
  }

  lemma LedgerStepOnward(l: Ledger, op: L.Op)
    ensures Onward(l, L.Step(l, op), if op.Settle? then Some(op.hold) else None)
  {
    var m := L.Step(l, op);
    if m.txns != l.txns {
      var t := m.txns[|l.txns|];
      assert m.txns == l.txns + [t];
      forall h: nat ensures Debits(m.txns, h) == Debits(l.txns, h) + (if t.kind == Kind.Usage(h) then 1 else 0) &&
                       Debited(m.txns, h) == Debited(l.txns, h) - (if t.kind == Kind.Usage(h) then t.amount else 0.0)
      {
        DebitsAppend(l.txns, t, h);
      }
    }
  }

  lemma OnwardKeepsFaithful(l: Ledger, m: Ledger, except: Option<nat>, pc: Pc)
    requires Onward(l, m, except) && Faithful(l, pc) && (HasHold(pc) ==> except != Some(pc.hold))
    ensures Faithful(m, pc)
  {}

  lemma SettleIsExact(l: Ledger, hold: nat, cost: real, now: real)
    requires L.Reserves(l) && hold < |l.holds| && Debits(l.txns, hold) == 0
    ensures var (m, charged) := SettleSpec(l, hold, cost, now);
            !IsPending(m.holds, hold) && Debits(m.txns, hold) <= 1 && charged == Debited(m.txns, hold)
  {
    NoDebitsNoAmount(l.txns, hold);
    if IsPending(l.holds, hold) {
      var m := SettleSpec(l, hold, cost, now).0;
      assert m.txns == l.txns + [m.txns[|l.txns|]];
      DebitsAppend(l.txns, m.txns[|l.txns|], hold);
    }
  }

  /** The ledger operation an event performs. */
  function LedgerOp(s: System, e: Event): Option<L.Op> {
    match e
    case Begin(r, account, pricing, p, c, now) =>
      if r in s.pcs then None else Some(L.Reserve(account, EstimateCost(pricing, p, c), now))
    case Forwarded(_, _) => None
    case Advance(r, now, _) =>
      if r !in s.pcs then None
      else if s.pcs[r].Releasing? then Some(L.Release(s.pcs[r].hold, now))
      else if s.pcs[r].Settling? then Some(L.Settle(s.pcs[r].hold, s.pcs[r].cost, now))
      else None
    case Sweep(hold, now) => Some(L.Release(hold, now))
    case Other(op) => if Outside(op) then Some(op) else None
  }

  function Except(s: System, e: Event): Option<nat> {
    var op := LedgerOp(s, e);
    if op.Some? && op.value.Settle? then Some(op.value.hold) else None
  }

  lemma EventOnward(s: System, e: Event)
    requires L.Reserves(s.ledger)
    ensures Onward(s.ledger, Step(s, e).ledger, Except(s, e)) && L.Reserves(Step(s, e).ledger)
  {
    hide Onward, L.Reserves;
    var t, op := Step(s, e), LedgerOp(s, e);
    assert t.ledger == if op.None? then s.ledger else L.Step(s.ledger, op.value);
    if op.Some? {
      L.StepKeepsReserves(s.ledger, op.value);
      LedgerStepOnward(s.ledger, op.value);
    } else {
      OnwardRefl(s.ledger);
    }
  }

  lemma OnwardRefl(l: Ledger)
    ensures Onward(l, l, None)
  {}

  lemma StepKeepsFaithful(s: System, e: Event)
    requires Inv(s)
    ensures AllFaithful(Step(s, e))
  {
    var t := Step(s, e);
    EventOnward(s, e);
    forall r | r in t.pcs ensures Faithful(t.ledger, t.pcs[r]) {
      if r in s.pcs && t.pcs[r] == s.pcs[r] {
        assert Faithful(s.ledger, s.pcs[r]);
        OnwardKeepsFaithful(s.ledger, t.ledger, Except(s, e), s.pcs[r]);
      } else {
        MoverStaysFaithful(s, e, r);
      }
    }
  }

  /** A request that reserves holds a hold nobody debited yet. */
  lemma ReservedIsUndebited(l: Ledger, account: nat, amount: real, now: real)
    requires FutureHoldsUndebited(l)
    ensures var (m, hold) := ReserveSpec(l, account, amount, now);
            hold.Some? ==> hold.value < |m.holds| && Debits(m.txns, hold.value) == 0
  {}

  lemma ReleasedIsClosed(l: Ledger, hold: nat, now: real)
    requires L.Reserves(l) && hold < |l.holds| && Debits(l.txns, hold) == 0
    ensures var m := ReleaseSpec(l, hold, now);
            hold < |m.holds| && !IsPending(m.holds, hold) && Debits(m.txns, hold) == 0 && Debited(m.txns, hold) == 0.0
  {
    NoDebitsNoAmount(l.txns, hold);
    hide Debits, Debited;
  }

  lemma SettleKeepsHolds(l: Ledger, hold: nat, cost: real, now: real)
    ensures |SettleSpec(l, hold, cost, now).0.holds| == |l.holds|
  {}

  lemma AdvanceIsFaithful(s: System, r: nat, now: real, queueFull: bool)
    requires L.Reserves(s.ledger) && r in s.pcs && Faithful(s.ledger, s.pcs[r])
    ensures var t := AdvanceSpec(s, r, now, queueFull); t == s || Faithful(t.ledger, t.pcs[r])
  {
    hide Debits, Debited, L.Reserves;
    match s.pcs[r]
    case Settling(hold, cost, _) =>
      SettleIsExact(s.ledger, hold, cost, now);
      SettleKeepsHolds(s.ledger, hold, cost, now);
      hide SettleSpec;
    case Releasing(hold, _) =>
      hide ReleaseSpec;
      ReleasedIsClosed(s.ledger, hold, now);
    case _ =>
  }

  lemma MoverStaysFaithful(s: System, e: Event, r: nat)
    requires Inv(s) && r in Step(s, e).pcs && !(r in s.pcs && Step(s, e).pcs[r] == s.pcs[r])
    ensures Faithful(Step(s, e).ledger, Step(s, e).pcs[r])
  {
    assert r in s.pcs ==> Faithful(s.ledger, s.pcs[r]);
    hide Debits, Debited, EstimateCost, PlanFor, AdvanceSpec;
    hide L.Reserves, AllFaithful, HoldsDistinct, UsageExact, FutureHoldsUndebited;
    match e
    case Begin(_, account, pricing, promptEst, completionEst, now) =>
      ReservedIsUndebited(s.ledger, account, EstimateCost(pricing, promptEst, completionEst), now);
      hide ReserveSpec;
    case Advance(x, now, queueFull) =>
      AdvanceMovesOne(s, x, now, queueFull);
      AdvanceIsFaithful(s, r, now, queueFull);
    case _ =>
  }

  lemma AdvanceMovesOne(s: System, r: nat, now: real, queueFull: bool)
    ensures r in s.pcs ==> var t := AdvanceSpec(s, r, now, queueFull); r in t.pcs && t.pcs == s.pcs[r := t.pcs[r]]
  {
    hide SettleSpec, ReleaseSpec;
  }

  /** A step moves one request, which keeps its hold or takes the next new one. */
  lemma StepMovesOne(s: System, e: Event, r: nat)
    ensures var t := Step(s, e);
            r in t.pcs && HasHold(t.pcs[r]) ==>
              (r in s.pcs && HasHold(s.pcs[r]) && s.pcs[r].hold == t.pcs[r].hold) ||
              (e.Begin? && r == e.r && t.pcs[r].hold == |s.ledger.holds|)
  {
    hide EstimateCost, PlanFor, L.Step;
  }

  lemma StepKeepsDistinct(s: System, e: Event)
    requires Inv(s)
    ensures HoldsDistinct(Step(s, e))
  {
    var t := Step(s, e);
    hide Step, Debits, Debited, L.Reserves, UsageExact, FutureHoldsUndebited;
    forall r | r in s.pcs && HasHold(s.pcs[r]) ensures s.pcs[r].hold < |s.ledger.holds| {
      assert Faithful(s.ledger, s.pcs[r]);
    }
    forall r, q | r in t.pcs && q in t.pcs && r != q && HasHold(t.pcs[r]) && HasHold(t.pcs[q])
      ensures t.pcs[r].hold != t.pcs[q].hold
    {
      StepMovesOne(s, e, r);
      StepMovesOne(s, e, q);
    }
  }

  lemma StepKeepsUsage(s: System, e: Event)
    requires Inv(s)
    ensures UsageExact(Step(s, e)) && FutureHoldsUndebited(Step(s, e).ledger)
  {
    var t := Step(s, e);
    EventOnward(s, e);
    assert e.Advance? && e.r in s.pcs ==> Faithful(s.ledger, s.pcs[e.r]);
    forall h: nat | |t.ledger.holds| <= h ensures Debits(t.ledger.txns, h) == 0 {
      assert Debits(s.ledger.txns, h) == 0;
    }
    forall i | 0 <= i < |s.usage|
      ensures s.usage[i].creditsCharged == Debited(t.ledger.txns, s.pcs[s.usage[i].request].hold)
    {
      assert Except(s, e) != Some(s.pcs[s.usage[i].request].hold);
    }
  }

  lemma StepKeepsInv(s: System, e: Event)
    requires Inv(s)
    ensures Inv(Step(s, e))
  {
    EventOnward(s, e);
    StepKeepsFaithful(s, e);
    StepKeepsDistinct(s, e);
    StepKeepsUsage(s, e);
  }

  lemma {:induction false} AlwaysFaithful(events: seq<Event>)
    ensures Inv(Run(START, events))
  {
    if events != [] {
      AlwaysFaithful(events[..|events| - 1]);
      StepKeepsInv(Run(START, events[..|events| - 1]), events[|events| - 1]);
    }
  }

  /** Whatever the interleaving: a returned request's hold is not pending and was debited at most
      once, and every usage entry carries exactly what its request's hold was debited. */
  lemma ChargedAtMostOnce(events: seq<Event>)
    ensures var s := Run(START, events);
            && (forall r :: r in s.pcs && s.pcs[r].Done? ==>
                  !IsPending(s.ledger.holds, s.pcs[r].hold) && Debits(s.ledger.txns, s.pcs[r].hold) <= 1)
            && (forall i :: 0 <= i < |s.usage| ==>
                  s.usage[i].request in s.pcs && s.pcs[s.usage[i].request].Done? &&
                  s.usage[i].creditsCharged == Debited(s.ledger.txns, s.pcs[s.usage[i].request].hold))
  {
    AlwaysFaithful(events);
    var s := Run(START, events);
    forall r | r in s.pcs && s.pcs[r].Done?
      ensures !IsPending(s.ledger.holds, s.pcs[r].hold) && Debits(s.ledger.txns, s.pcs[r].hold) <= 1
    {
      assert Faithful(s.ledger, s.pcs[r]);
    }
  }

  // ---- Overruns -----------------------------------------------------------------------------

  predicate FairlyPriced(pricing: Option<Pricing>) {
    pricing.Some? ==> pricing.value.promptRate >= 0.0 && pricing.value.completionRate >= 0.0
  }

  /** The billed tokens stay within the estimates. */
  predicate WithinEstimates(u: Upstream, estimates: Estimates) {
    (u.Body? ==> var (p, c) := Billed(u.tokens, u.length); p <= estimates.prompt && c <= estimates.completion) &&
    (u.Stream? ==> var (p, c) := Billed(u.tokens, u.bytesWritten); p <= estimates.prompt && c <= estimates.completion)
  }

  /** A settlement within the request's estimates costs no more than the hold those reserved. */
  lemma SettlementWithinHold(pricing: Option<Pricing>, estimates: Estimates, u: Upstream)
    requires FairlyPriced(pricing) && WithinEstimates(u, estimates)
    ensures PlanFor(pricing, u).Charge? ==>
              PlanFor(pricing, u).cost <= EstimateCost(pricing, estimates.prompt, estimates.completion)
  {
    if u.Body? {
      var (p, c) := Billed(u.tokens, u.length);
      CostMonotone(pricing, p, c, estimates.prompt, estimates.completion);
    } else if u.Stream? {
      var (p, c) := Billed(u.tokens, u.bytesWritten);
      CostMonotone(pricing, p, c, estimates.prompt, estimates.completion);
    }
  }

  predicate Considerate(s: System, e: Event) {
    (e.Begin? ==> FairlyPriced(e.pricing)) &&
    (e.Forwarded? && e.r in s.pcs && s.pcs[e.r].Holding? ==> WithinEstimates(e.upstream, s.pcs[e.r].estimates))
  }

  /** Prices are not negative and every response stays within its request's estimates. */
  ghost predicate AllConsiderate(events: seq<Event>) {
    events == [] ||
    (AllConsiderate(events[..|events| - 1]) && Considerate(Run(START, events[..|events| - 1]), events[|events| - 1]))
  }

  /** The ledger operations a run performs. */
  function LedgerOps(events: seq<Event>): seq<L.Op> {
    if events == [] then []
    else
      var op := LedgerOp(Run(START, events[..|events| - 1]), events[|events| - 1]);
      LedgerOps(events[..|events| - 1]) + if op.None? then [] else [op.value]
  }

  /** What a request may still charge is covered by its hold, as long as the hold is stored. */
  ghost predicate Covered(l: Ledger, pc: Pc) {
    match pc
    case Holding(hold, pricing, estimates) =>
      FairlyPriced(pricing) && hold < |l.holds| &&
      (l.holds[hold].Some? ==>
         l.holds[hold].value.amount == EstimateCost(pricing, estimates.prompt, estimates.completion))
    case Settling(hold, cost, _) => hold < |l.holds| && (l.holds[hold].Some? ==> cost <= l.holds[hold].value.amount)
    case _ => true
  }

  ghost predicate AllCovered(s: System) {
    forall r :: r in s.pcs ==> Covered(s.ledger, s.pcs[r])
  }

  /** Holds are only ever appended, closed or deleted: the amount of a stored one never changes. */
  ghost predicate AmountsStay(l: Ledger, m: Ledger) {
    |l.holds| <= |m.holds| &&
    forall h: nat :: h < |l.holds| && m.holds[h].Some? ==>
        l.holds[h].Some? && m.holds[h].value.amount == l.holds[h].value.amount
  }

  lemma LedgerStepKeepsAmounts(l: Ledger, op: L.Op)
    ensures AmountsStay(l, L.Step(l, op))
  {}

  lemma EventKeepsAmounts(s: System, e: Event)
    ensures AmountsStay(s.ledger, Step(s, e).ledger)
    ensures Step(s, e).ledger == if LedgerOp(s, e).None? then s.ledger else L.Step(s.ledger, LedgerOp(s, e).value)
  {
    hide AmountsStay;
    AmountsRefl(s.ledger);
    if LedgerOp(s, e).Some? {
      LedgerStepKeepsAmounts(s.ledger, LedgerOp(s, e).value);
    }
  }

  lemma AmountsRefl(l: Ledger)
    ensures AmountsStay(l, l)
  {}

  lemma CoveredStays(l: Ledger, m: Ledger, pc: Pc)
    requires AmountsStay(l, m) && Covered(l, pc)
    ensures Covered(m, pc)
  {}

  lemma MoverStaysCovered(s: System, e: Event, r: nat)
    requires AllCovered(s) && Considerate(s, e)
    requires r in Step(s, e).pcs && !(r in s.pcs && Step(s, e).pcs[r] == s.pcs[r])
    ensures Covered(Step(s, e).ledger, Step(s, e).pcs[r])
  {
    hide EstimateCost, WithinEstimates, FairlyPriced;
    assert r in s.pcs ==> Covered(s.ledger, s.pcs[r]);
    if e.Forwarded? {
      SettlementWithinHold(s.pcs[r].pricing, s.pcs[r].estimates, e.upstream);
    }
  }

  lemma StepKeepsCovered(s: System, e: Event)
    requires AllCovered(s) && Considerate(s, e)
    ensures AllCovered(Step(s, e))
  {
    var t := Step(s, e);
    EventKeepsAmounts(s, e);
    hide Considerate, Step, AmountsStay, Covered;
    forall r | r in t.pcs ensures Covered(t.ledger, t.pcs[r]) {
      if r in s.pcs && t.pcs[r] == s.pcs[r] {
        CoveredStays(s.ledger, t.ledger, s.pcs[r]);
      } else {
        MoverStaysCovered(s, e, r);
      }
    }
  }

  lemma {:induction false} AppendRun(l: Ledger, ops: seq<L.Op>, op: L.Op, a: nat)
    ensures L.Run(l, ops + [op]) == L.Step(L.Run(l, ops), op)
    ensures L.WithinHolds(l, ops, a) && L.WithinHolds(L.Run(l, ops), [op], a) ==> L.WithinHolds(l, ops + [op], a)
    decreases |ops|
  {
    if ops == [] {
      assert ops + [op] == [op] && [op][1..] == [];
    } else {
      assert (ops + [op])[1..] == ops[1..] + [op];
      AppendRun(L.Step(l, ops[0]), ops[1..], op, a);
    }
  }

  lemma SettlesWithin(s: System, e: Event, a: nat)
    requires AllCovered(s) && LedgerOp(s, e).Some?
    ensures L.WithinHolds(s.ledger, [LedgerOp(s, e).value], a)
  {
    var op := LedgerOp(s, e).value;
    assert e.Advance? && e.r in s.pcs ==> Covered(s.ledger, s.pcs[e.r]);
    assert [op][1..] == [];
  }

  /** The run of requests is a run of the ledger, and as long as responses stay within their
      requests' estimates no account ever pays more than its holds: overruns are zero. */
  lemma {:induction false} NoOverrunsWithinEstimates(events: seq<Event>, a: nat)
    requires AllConsiderate(events)
    ensures L.Run(EMPTY, LedgerOps(events)) == Run(START, events).ledger
    ensures AllCovered(Run(START, events))
    ensures L.WithinHolds(EMPTY, LedgerOps(events), a) && L.Overruns(EMPTY, LedgerOps(events), a) == 0.0
  {
    if events != [] {
      var front, e := events[..|events| - 1], events[|events| - 1];
      var s := Run(START, front);
      NoOverrunsWithinEstimates(front, a);
      StepKeepsCovered(s, e);
      EventKeepsAmounts(s, e);
      var op := LedgerOp(s, e);
      hide Step, LedgerOp, L.Step, Considerate, AllCovered, L.WithinHolds, L.Overruns;
      if op.Some? {
        SettlesWithin(s, e, a);
        AppendRun(EMPTY, LedgerOps(front), op.value, a);
      } else {
        assert LedgerOps(front) + [] == LedgerOps(front);
      }
    }
    L.NoOverrunWithinHolds(EMPTY, LedgerOps(events), a);
  }

  lemma {:induction false} WithinHoldsSuffix(l: Ledger, front: seq<L.Op>, ops: seq<L.Op>, a: nat)
    requires L.WithinHolds(l, front + ops, a)
    ensures L.WithinHolds(L.Run(l, front), ops, a)
    decreases |front|
  {
    if front == [] {
      assert front + ops == ops;
    } else {
      assert (front + ops)[1..] == front[1..] + ops;
      WithinHoldsSuffix(L.Step(l, front[0]), front[1..], ops, a);
    }
  }

  lemma CostNonNegative(pricing: Option<Pricing>, p: nat, c: nat)
    requires FairlyPriced(pricing)
    ensures EstimateCost(pricing, p, c) >= 0.0
  {
    CostMonotone(pricing, 0, 0, p, c);
  }

  lemma {:induction false} ReservesAreNonNegative(events: seq<Event>)
    requires AllConsiderate(events)
    ensures L.ReservesNonNegative(LedgerOps(events))
  {
    if events != [] {
      var front, e := events[..|events| - 1], events[|events| - 1];
      ReservesAreNonNegative(front);
      if e.Begin? { CostNonNegative(e.pricing, e.promptEst, e.completionEst); }
    }
  }

  /** From request to ledger: as long as responses stay within their requests' estimates, an account
      is charged between two resets at most its grant or the holds pending at the first, whichever
      is larger, plus its positive top-ups. */
  lemma MonthlySpendWithinEstimates(events: seq<Event>, history: seq<L.Op>, a: nat, grant: real, month: int,
                                    ops: seq<L.Op>)
    requires AllConsiderate(events) && LedgerOps(events) == history + [L.Reset(a, grant, month)] + ops && grant >= 0.0
    requires ResetSpec(L.Run(EMPTY, history), a, grant, month).1
    requires L.NoReset(ResetSpec(L.Run(EMPTY, history), a, grant, month).0, ops, a)
    ensures var l := ResetSpec(L.Run(EMPTY, history), a, grant, month).0;
            L.Charges(l, ops, a) <= Max(grant, L.SumPending(l.holds, a)) + L.TopUps(l, ops, a)
  {
    var reset := L.Reset(a, grant, month);
    var l := ResetSpec(L.Run(EMPTY, history), a, grant, month).0;
    NoOverrunsWithinEstimates(events, a);
    ReservesAreNonNegative(events);
    AppendRun(EMPTY, history, reset, a);
    assert L.Run(EMPTY, history + [reset]) == l;
    WithinHoldsSuffix(EMPTY, history + [reset], ops, a);
    L.NoOverrunWithinHolds(l, ops, a);
    ReservesSplit(history, reset, ops);
    L.MonthlySpendCapped(history, a, grant, month, ops);
  }

  lemma ReservesSplit(history: seq<L.Op>, op: L.Op, ops: seq<L.Op>)
    requires L.ReservesNonNegative(history + [op] + ops)
    ensures L.ReservesNonNegative(history) && L.ReservesNonNegative(ops)
  {
    var all := history + [op] + ops;
    forall i | 0 <= i < |history| && history[i].Reserve? ensures history[i].amount >= 0.0 {
      assert all[i] == history[i];
    }
    forall i | 0 <= i < |ops| && ops[i].Reserve? ensures ops[i].amount >= 0.0 {
      assert all[|history| + 1 + i] == ops[i];
    }
  }
}
