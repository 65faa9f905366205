/** What a request is billed, from the upstream result to the balance and the usage entry. */
module Billing {
  import opened Common
  import opened Ledger
  import opened Estimator
  import opened RequestHolds
  import L = LedgerLaws

  /** No event of the run moves the request on. */
  ghost predicate Rests(events: seq<Event>, r: nat) {
    forall e <- events :: e.Advance? ==> e.r != r
  }

  lemma {:induction false} RunKeepsInv(s: System, events: seq<Event>)
    requires Inv(s)
    ensures Inv(Run(s, events))
  {
    if events != [] {
      RunKeepsInv(s, events[..|events| - 1]);
      StepKeepsInv(Run(s, events[..|events| - 1]), events[|events| - 1]);
    }
  }

  lemma StepLeaves(s: System, e: Event, r: nat)
    requires r in s.pcs && !s.pcs[r].Holding? && (e.Advance? ==> e.r != r)
    ensures r in Step(s, e).pcs && Step(s, e).pcs[r] == s.pcs[r]
  {
    hide ReserveSpec, ReleaseSpec, SettleSpec, PlanFor, EstimateCost, L.Step;
  }

  lemma {:induction false} RunLeaves(s: System, events: seq<Event>, r: nat)
    requires r in s.pcs && !s.pcs[r].Holding? && Rests(events, r)
    ensures r in Run(s, events).pcs && Run(s, events).pcs[r] == s.pcs[r]
  {
    hide Step;
    if events != [] {
      var front, e := events[..|events| - 1], events[|events| - 1];
      assert e in events && forall x <- front :: x in events;
      RunLeaves(s, front, r);
      StepLeaves(Run(s, front), e, r);
    }
  }

  /** The course of a request from its upstream result on: others' events, its store call, others'
      events, and its usage entry, which the queue takes. */
  datatype Course = Course(forwarded: System, before: System, settled: System, waiting: System, done: System)

  function CourseOf(s: System, r: nat, u: Upstream, between: seq<Event>, now: real, full: bool, after: seq<Event>,
                    later: real): Course
  {
    var forwarded := Step(s, Forwarded(r, u));
    var before := Run(forwarded, between);
    var settled := Step(before, Advance(r, now, full));
    var waiting := Run(settled, after);
    Course(forwarded, before, settled, waiting, Step(waiting, Advance(r, later, false)))
  }

  lemma SettleStep(s: System, r: nat, now: real, full: bool)
    requires Inv(s) && r in s.pcs && s.pcs[r].Settling? && IsPending(s.ledger.holds, s.pcs[r].hold)
    ensures var t, pc := Step(s, Advance(r, now, full)), s.pcs[r];
            var a := s.ledger.holds[pc.hold].value.account;
            r in t.pcs && t.pcs[r] == Logging(pc.hold, pc.cost, pc.status) && t.usage == s.usage &&
            L.BalanceOf(t.ledger, a) == L.BalanceOf(s.ledger, a) - pc.cost && Debits(t.ledger.txns, pc.hold) == 1
  {
    var pc := s.pcs[r];
    assert Faithful(s.ledger, pc);
    L.SettleCharges(s.ledger, pc.hold, pc.cost, now);
    var m := SettleSpec(s.ledger, pc.hold, pc.cost, now).0;
    assert m.txns == s.ledger.txns + [m.txns[|s.ledger.txns|]];
    DebitsAppend(s.ledger.txns, m.txns[|s.ledger.txns|], pc.hold);
  }

  lemma ReleaseStep(s: System, r: nat, now: real, full: bool)
    requires Inv(s) && r in s.pcs && s.pcs[r].Releasing?
    ensures var t, pc := Step(s, Advance(r, now, full)), s.pcs[r];
            r in t.pcs && t.pcs[r] == (if pc.log.None? then Done(pc.hold) else Logging(pc.hold, 0.0, pc.log.value)) &&
            t.usage == s.usage && t.ledger.txns == s.ledger.txns && !IsPending(t.ledger.holds, pc.hold) &&
            forall a :: L.BalanceOf(t.ledger, a) == L.BalanceOf(s.ledger, a)
  {
    assert Faithful(s.ledger, s.pcs[r]);
    L.ReleaseFrees(s.ledger, s.pcs[r].hold, now);
    hide Debits, Debited;
  }

  lemma LogStep(s: System, r: nat, now: real)
    requires Inv(s) && r in s.pcs && s.pcs[r].Logging?
    ensures var t, pc := Step(s, Advance(r, now, false)), s.pcs[r];
            t.usage == s.usage + [UsageEntry(r, pc.status, pc.charged)] &&
            Debits(t.ledger.txns, pc.hold) <= 1 && Debited(t.ledger.txns, pc.hold) == pc.charged
  {
    assert Faithful(s.ledger, s.pcs[r]);
    hide Debits, Debited;
  }

  /** The request was billed this amount, logged with this status. */
  ghost predicate Billed(c: Course, r: nat, hold: nat, amount: real, status: Status) {
    && c.done.usage == c.waiting.usage + [UsageEntry(r, status, amount)]
    && Debited(c.done.ledger.txns, hold) == amount
    && Debits(c.settled.ledger.txns, hold) == 1 && Debits(c.done.ledger.txns, hold) <= 1
    && IsPending(c.before.ledger.holds, hold)
    && var a := c.before.ledger.holds[hold].value.account;
       L.BalanceOf(c.settled.ledger, a) == L.BalanceOf(c.before.ledger, a) - amount
  }

  /** The request was billed nothing and its hold freed; `log` is the status logged, if any. */
  ghost predicate Unbilled(c: Course, r: nat, hold: nat, log: Option<Status>) {
    && Debits(c.done.ledger.txns, hold) == 0
    && !IsPending(c.settled.ledger.holds, hold)
    && (forall a :: L.BalanceOf(c.settled.ledger, a) == L.BalanceOf(c.before.ledger, a))
    && c.done.usage == c.waiting.usage + if log.None? then [] else [UsageEntry(r, log.value, 0.0)]
  }

  lemma Charges(s: System, r: nat, u: Upstream, between: seq<Event>, now: real, full: bool, after: seq<Event>,
                later: real)
    requires Inv(s) && r in s.pcs && s.pcs[r].Holding? && Rests(between, r) && Rests(after, r)
    requires PlanFor(s.pcs[r].pricing, u).Charge?
    ensures var c, plan := CourseOf(s, r, u, between, now, full, after, later), PlanFor(s.pcs[r].pricing, u);
            IsPending(c.before.ledger.holds, s.pcs[r].hold) ==> Billed(c, r, s.pcs[r].hold, plan.cost, plan.status)
  {
    var c := CourseOf(s, r, u, between, now, full, after, later);
    StepKeepsInv(s, Forwarded(r, u));
    RunKeepsInv(c.forwarded, between);
    RunLeaves(c.forwarded, between, r);
    StepKeepsInv(c.before, Advance(r, now, full));
    RunKeepsInv(c.settled, after);
    hide Inv, Debits, Debited;
    if IsPending(c.before.ledger.holds, s.pcs[r].hold) {
      SettleStep(c.before, r, now, full);
      RunLeaves(c.settled, after, r);
      LogStep(c.waiting, r, later);
    }
  }

  lemma ChargesAmount(s: System, r: nat, u: Upstream, amount: real, status: Status, between: seq<Event>, now: real,
                      full: bool, after: seq<Event>, later: real)
    requires Inv(s) && r in s.pcs && s.pcs[r].Holding? && Rests(between, r) && Rests(after, r)
    requires PlanFor(s.pcs[r].pricing, u) == Charge(amount, status)
    ensures var c := CourseOf(s, r, u, between, now, full, after, later);
            IsPending(c.before.ledger.holds, s.pcs[r].hold) ==> Billed(c, r, s.pcs[r].hold, amount, status)
  {
    hide *;
    Charges(s, r, u, between, now, full, after, later);
  }

  lemma {:induction false} RunKeepsUndebited(s: System, events: seq<Event>, r: nat)
    requires Inv(s) && r in s.pcs && !s.pcs[r].Holding? && HasHold(s.pcs[r]) && Rests(events, r)
    requires Debits(s.ledger.txns, s.pcs[r].hold) == 0
    ensures Debits(Run(s, events).ledger.txns, s.pcs[r].hold) == 0
  {
    if events != [] {
      var front, e := events[..|events| - 1], events[|events| - 1];
      assert e in events && forall x <- front :: x in events;
      RunKeepsUndebited(s, front, r);
      RunKeepsInv(s, front);
      RunLeaves(s, front, r);
      hide Debits;
      EventOnward(Run(s, front), e);
      NotItsHold(Run(s, front), e, r);
    }
  }

  lemma NotItsHold(s: System, e: Event, r: nat)
    requires Inv(s) && r in s.pcs && HasHold(s.pcs[r]) && (e.Advance? ==> e.r != r)
    ensures Except(s, e) != Some(s.pcs[r].hold)
  {
    hide Debits, Debited, L.Reserves, UsageExact, FutureHoldsUndebited, AllFaithful;
  }

  lemma Frees(s: System, r: nat, u: Upstream, between: seq<Event>, now: real, full: bool, after: seq<Event>,
              later: real)
    requires Inv(s) && r in s.pcs && s.pcs[r].Holding? && Rests(between, r) && Rests(after, r)
    requires PlanFor(s.pcs[r].pricing, u).Free?
    ensures Unbilled(CourseOf(s, r, u, between, now, full, after, later), r, s.pcs[r].hold,
                     PlanFor(s.pcs[r].pricing, u).log)
  {
    var c, hold := CourseOf(s, r, u, between, now, full, after, later), s.pcs[r].hold;
    assert Faithful(s.ledger, s.pcs[r]);
    StepKeepsInv(s, Forwarded(r, u));
    RunKeepsInv(c.forwarded, between);
    RunLeaves(c.forwarded, between, r);
    RunKeepsUndebited(c.forwarded, between, r);
    StepKeepsInv(c.before, Advance(r, now, full));
    RunKeepsInv(c.settled, after);
    hide Inv, Debits, Debited;
    ReleaseStep(c.before, r, now, full);
    RunLeaves(c.settled, after, r);
    RunKeepsUndebited(c.settled, after, r);
    hide PlanFor;
    if c.waiting.pcs[r].Logging? { LogStep(c.waiting, r, later); }
    LogKeepsTxns(c.waiting, r, later);
  }

  lemma LogKeepsTxns(s: System, r: nat, later: real)
    requires r in s.pcs && (s.pcs[r].Logging? || s.pcs[r].Done?)
    ensures var t := Step(s, Advance(r, later, false)); t.ledger == s.ledger && (s.pcs[r].Done? ==> t.usage == s.usage)
  {}

  // ---- The bill, result by result ---------------------------------------------------------------------

  lemma BodyPlan(pricing: Pricing, tokens: Tokens, length: nat)
    ensures var estimated := tokens.total == 0 && length > 0;
            var p := if estimated then 0 else tokens.prompt;
            var q := if !estimated then tokens.completion else if length < 4 then 1 else length / 4;
            PlanFor(Some(pricing), Body(tokens, length)) ==
            Charge((p as real * pricing.promptRate + q as real * pricing.completionRate) / 1000000.0, Completed)
  {}

  lemma StreamPlan(pricing: Pricing, tokens: Tokens, bytes: nat, status: Status)
    requires status != Error || bytes > 0
    ensures var estimated := tokens.total == 0 && bytes > 0;
            var p := if estimated then 0 else tokens.prompt;
            var q := if !estimated then tokens.completion else if bytes < 4 then 1 else bytes / 4;
            PlanFor(Some(pricing), Stream(tokens, bytes, status)) ==
            Charge((p as real * pricing.promptRate + q as real * pricing.completionRate) / 1000000.0, status)
  {}

  lemma FailurePlan(pricing: Option<Pricing>, u: Upstream)
    requires !u.Body? && (u.Stream? ==> u.status == Error && u.bytesWritten == 0)
    ensures PlanFor(pricing, u) ==
            Free(if u.StreamingUnsupported? || u.RequestNotBuilt? then None
                 else if u == Unreachable(true) then Some(Partial) else Some(Error))
  {}

  /** In every run, a completed response is billed the tokens it reports at the model's rates, per million;
      one that reports none, a token for every four bytes of it, at least one, at the completion rate.
      That is what leaves the balance, what the audit trail debits and what the usage entry says. */
  lemma BodyBilled(events: seq<Event>, r: nat, pricing: Pricing, tokens: Tokens, length: nat, between: seq<Event>,
                   now: real, full: bool, after: seq<Event>, later: real)
    requires var s := Run(START, events); r in s.pcs && s.pcs[r].Holding? && s.pcs[r].pricing == Some(pricing)
    requires Rests(between, r) && Rests(after, r)
    ensures var s := Run(START, events);
            var c := CourseOf(s, r, Body(tokens, length), between, now, full, after, later);
            var estimated := tokens.total == 0 && length > 0;
            var p := if estimated then 0 else tokens.prompt;
            var q := if !estimated then tokens.completion else if length < 4 then 1 else length / 4;
            IsPending(c.before.ledger.holds, s.pcs[r].hold) ==>
              Billed(c, r, s.pcs[r].hold,
                     (p as real * pricing.promptRate + q as real * pricing.completionRate) / 1000000.0, Completed)
  {
    hide *;
    AlwaysFaithful(events);
    var u := Body(tokens, length);
    BodyPlan(pricing, tokens, length);
    var cost := PlanFor(Some(pricing), u).cost;
    ChargesAmount(Run(START, events), r, u, cost, Completed, between, now, full, after, later);
  }

  /** So is a stream, by the bytes relayed where it reports no tokens, unless it failed before a byte of it was
      relayed; its entry carries the stream's own status. */
  lemma StreamBilled(events: seq<Event>, r: nat, pricing: Pricing, tokens: Tokens, bytes: nat, status: Status,
                     between: seq<Event>, now: real, full: bool, after: seq<Event>, later: real)
    requires var s := Run(START, events); r in s.pcs && s.pcs[r].Holding? && s.pcs[r].pricing == Some(pricing)
    requires Rests(between, r) && Rests(after, r) && (status != Error || bytes > 0)
    ensures var s := Run(START, events);
            var c := CourseOf(s, r, Stream(tokens, bytes, status), between, now, full, after, later);
            var estimated := tokens.total == 0 && bytes > 0;
            var p := if estimated then 0 else tokens.prompt;
            var q := if !estimated then tokens.completion else if bytes < 4 then 1 else bytes / 4;
            IsPending(c.before.ledger.holds, s.pcs[r].hold) ==>
              Billed(c, r, s.pcs[r].hold,
                     (p as real * pricing.promptRate + q as real * pricing.completionRate) / 1000000.0, status)
  {
    hide *;
    AlwaysFaithful(events);
    var u := Stream(tokens, bytes, status);
    StreamPlan(pricing, tokens, bytes, status);
    ChargesAmount(Run(START, events), r, u, PlanFor(Some(pricing), u).cost, status, between, now, full, after, later);
  }

  /** At positive rates such a bill is zero exactly if it counts no tokens at all. */
  lemma ZeroBill(pricing: Pricing, p: nat, q: nat)
    requires pricing.promptRate > 0.0 && pricing.completionRate > 0.0
    ensures (p as real * pricing.promptRate + q as real * pricing.completionRate) / 1000000.0 == 0.0 <==>
              p == 0 && q == 0
  {
    Positive(p, pricing.promptRate);
    Positive(q, pricing.completionRate);
  }

  lemma Positive(n: nat, rate: real)
    requires rate > 0.0
    ensures n as real * rate >= 0.0 && (n as real * rate == 0.0 <==> n == 0)
  {}

  /** Every other result is billed nothing and frees the hold: requests that could not be streamed or built
      are not logged, a client that left is logged as partial, the rest as errors. */
  lemma FailureUnbilled(events: seq<Event>, r: nat, u: Upstream, between: seq<Event>, now: real, full: bool,
                        after: seq<Event>, later: real)
    requires var s := Run(START, events); r in s.pcs && s.pcs[r].Holding?
    requires Rests(between, r) && Rests(after, r)
    requires !u.Body? && (u.Stream? ==> u.status == Error && u.bytesWritten == 0)
    ensures var s := Run(START, events);
            Unbilled(CourseOf(s, r, u, between, now, full, after, later), r, s.pcs[r].hold,
                     if u.StreamingUnsupported? || u.RequestNotBuilt? then None
                     else if u == Unreachable(true) then Some(Partial) else Some(Error))
  {
    AlwaysFaithful(events);
    FailurePlan(Run(START, events).pcs[r].pricing, u);
    hide *;
    Frees(Run(START, events), r, u, between, now, full, after, later);
  }

  /** A hold that was swept before its request came to settle it is not charged for. */
  lemma SweptUnbilled(s: System, r: nat, now: real, full: bool)
    requires Inv(s) && r in s.pcs && s.pcs[r].Settling? && !IsPending(s.ledger.holds, s.pcs[r].hold)
    ensures var t := Step(s, Advance(r, now, full));
            r in t.pcs && t.pcs[r] == Logging(s.pcs[r].hold, 0.0, s.pcs[r].status) && t.ledger == s.ledger
  {
    hide Debits, Debited;
  }

  /** What a request counts on: a prompt token for every four bytes of its body, at least one, and as completion
      tokens the limit it names; failing that, what the account averaged over ten requests or more; failing
      that, what is typical of the model; failing that, 500. */
  lemma CountedOn(bodyLen: nat, maxTokens: Option<int>, xs: seq<int>, pricing: Pricing)
    requires forall i :: 0 <= i < |xs| ==> xs[i] > 0
    ensures EstimatePromptTokens(bodyLen) == if bodyLen < 4 then 1 else bodyLen / 4
    ensures EstimateCompletionTokens(maxTokens, AfterSamples(xs), Some(pricing)) ==
            if maxTokens.Some? && maxTokens.value > 0 then maxTokens.value
            else if |xs| >= 10 && AfterSamples(xs).Some? then AfterSamples(xs).value.avg
            else if pricing.typicalCompletion > 0 then pricing.typicalCompletion
            else 500
  {
    hide Absorb;
    if xs != [] { RunningAverage(xs, 1, Largest(xs)); }
  }

  /** What it reserves: the price of those tokens, if the account's balance covers it beside the holds that are
      pending; otherwise it is rejected and nothing changes. */
  lemma Reserved(s: System, r: nat, account: nat, pricing: Pricing, p: nat, q: nat, now: real)
    requires L.Reserves(s.ledger) && r !in s.pcs
    ensures var amount := (p as real * pricing.promptRate + q as real * pricing.completionRate) / 1000000.0;
            var l, t := s.ledger, Step(s, Begin(r, account, Some(pricing), p, q, now));
            r in t.pcs &&
            if account in l.balances && L.SumPending(l.holds, account) + amount <= L.BalanceOf(l, account) then
              t.ledger.holds == l.holds + [Some(Hold(account, amount, Pending, now, None))] &&
              t.pcs[r] == Holding(|l.holds|, Some(pricing), Estimates(p, q))
            else t.ledger == l && t.pcs[r] == Rejected
  {
    var amount := EstimateCost(Some(pricing), p, q);
    assert amount == (p as real * pricing.promptRate + q as real * pricing.completionRate) / 1000000.0;
    hide EstimateCost;
    L.ReserveCovers(s.ledger, account, amount, now);
    hide L.SumPending, L.Reserves, L.BalanceOf, ReserveSpec;
  }
}
