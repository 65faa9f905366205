/** A request that the rate limits turn away is unobservable to all others, in any interleaving. */
module Rejections {
  import opened Common
  import opened TokenBuckets
  import opened LimiterLaws
  import opened Concurrency
  import opened Admission

  // ---- The limiter calls of a step ---------------------------------------------------------------

  function AccountCall(pc: Pc, q: Request, limits: Limits, now: real): Option<Call> {
    if q.billing.None? then None
    else if pc.Arrived? && q.key.Some? then
      Some(Call(now, AllowOp(q.billing.value.account, LimitOf(q.billing.value, limits))))
    else if pc.Refunding? then Some(Call(now, ReturnOp(q.billing.value.account)))
    else None
  }

  function KeyCall(pc: Pc, q: Request, now: real): Option<Call> {
    if pc.Charged? && q.key.Some? then Some(Call(now, AllowOp(q.key.value.id, q.key.value.rateLimit))) else None
  }

  function Apply(bs: Buckets, c: Option<Call>): Buckets {
    if c.None? then bs else Step(bs, c.value)
  }

  function VerdictOf(bs: Buckets, c: Option<Call>): Option<Verdict> {
    if c.Some? && c.value.op.AllowOp? then Some(AllowSpec(bs, c.value.op.id, c.value.op.limit, c.value.at).1) else None
  }

  lemma StepCalls(l: Local, limits: Limits, q: Request, now: real)
    ensures var m := LocalStep(l, limits, q, now);
            m.gates.accounts == Apply(l.gates.accounts, AccountCall(l.pc, q, limits, now)) &&
            m.gates.keys == Apply(l.gates.keys, KeyCall(l.pc, q, now))
  {
    hide AllowSpec, ReturnSpec, LimitOf, MaxConcurrent, AcquireSpec, ReleaseSpec;
  }

  /** A request's step depends on the limiters only through their verdicts. */
  lemma VerdictsDecide(l: Local, m: Local, limits: Limits, q: Request, now: real)
    requires l.pc == m.pc && l.gates.inUse == m.gates.inUse
    requires var c := AccountCall(l.pc, q, limits, now);
             VerdictOf(l.gates.accounts, c) == VerdictOf(m.gates.accounts, c)
    requires var c := KeyCall(l.pc, q, now); VerdictOf(l.gates.keys, c) == VerdictOf(m.gates.keys, c)
    ensures var l', m' := LocalStep(l, limits, q, now), LocalStep(m, limits, q, now);
            l'.pc == m'.pc && l'.gates.inUse == m'.gates.inUse
  {
    hide AllowSpec, ReturnSpec, LimitOf, MaxConcurrent, AcquireSpec, ReleaseSpec;
  }

  // ---- Two limiters that differ by one request -----------------------------------------------------

  /** An id and its limit. */
  datatype Party = Party(id: nat, limit: int)

  /** `a` and `b` are both sound, and agree but for what `a` owes the party, if there is one. */
  ghost predicate Close(a: Buckets, b: Buckets, who: Option<Party>, now: real, owed: real) {
    Sound(a, now) && Sound(b, now) &&
    if who.None? then a == b else Short(a, b, who.value.id, who.value.limit, now, owed)
  }

  /** A call that keeps to the limits, and to the party's own. */
  ghost predicate Proper(c: Call, who: Option<Party>, owed: real) {
    (c.op.AllowOp? ==> c.op.limit >= 1) &&
    (who.Some? ==> who.value.limit >= 1 && owed >= 0.0 && FixedLimit([c], who.value.id, who.value.limit) &&
                   (owed == 0.0 || Untouched([c], who.value.id)))
  }

  lemma CloseAges(a: Buckets, b: Buckets, who: Option<Party>, now: real, later: real, owed: real)
    requires Close(a, b, who, now, owed) && now <= later && (who.Some? ==> who.value.limit >= 1 && owed >= 0.0)
    ensures Close(a, b, who, later, owed)
  {
    SoundAges(a, now, later);
    SoundAges(b, now, later);
    hide Short, Sound;
    if who.Some? { ShortAges(a, b, now, later, who.value.id, who.value.limit, owed); }
  }

  lemma SoundAges(bs: Buckets, now: real, later: real)
    requires Sound(bs, now) && now <= later
    ensures Sound(bs, later)
  {}

  lemma CloseStep(a: Buckets, b: Buckets, who: Option<Party>, now: real, c: Option<Call>, at: real, owed: real)
    requires Close(a, b, who, now, owed) && now <= at && (who.Some? ==> who.value.limit >= 1 && owed >= 0.0)
    requires c.Some? ==> c.value.at == at && Proper(c.value, who, owed)
    ensures Close(Apply(a, c), Apply(b, c), who, at, owed) && VerdictOf(a, c) == VerdictOf(b, c)
  {
    hide Short, Sound, AllowSpec, Step, FixedLimit, Untouched;
    if c.None? {
      CloseAges(a, b, who, now, at, owed);
    } else {
      assert Timely(now, [c.value]) by { assert [c.value][1..] == []; }
      StepKeepsSound(a, now, c.value);
      StepKeepsSound(b, now, c.value);
      if who.Some? { ShortStep(a, b, now, c.value, who.value.id, who.value.limit, owed); }
    }
  }

  /** The party's own call, made on `a` alone: it owes a token afterwards exactly if it was granted. */
  lemma CloseOwn(a: Buckets, b: Buckets, who: Party, now: real, at: real)
    requires Close(a, b, Some(who), now, 0.0) && now <= at && who.limit >= 1
    ensures var c := Call(at, AllowOp(who.id, who.limit));
            Close(Step(a, c), b, Some(who), at, if AllowSpec(a, who.id, who.limit, at).1 == Allowed then 1.0 else 0.0)
  {
    var c := Call(at, AllowOp(who.id, who.limit));
    assert Timely(now, [c]) by { assert [c][1..] == []; }
    StepKeepsSound(a, now, c);
    CloseAges(a, b, Some(who), now, at, 0.0);
    LevelBounds(a, who.id, who.limit, at);
    LevelStep(a, now, c, who.id, who.limit);
    OwnElsewhere(a, b, c);
    hide Step, AllowSpec, Level, AgreeElsewhere, Sound, FixedAt;
  }

  lemma OwnElsewhere(a: Buckets, b: Buckets, c: Call)
    requires !c.op.PruneOp? && AgreeElsewhere(a, b, c.op.id)
    ensures AgreeElsewhere(Step(a, c), b, c.op.id)
  {
    hide Refilled, WaitFor, Rate, Min;
  }

  lemma CloseRefund(a: Buckets, b: Buckets, who: Party, now: real, at: real)
    requires Close(a, b, Some(who), now, 1.0) && now <= at && who.limit >= 1
    ensures Close(Step(a, Call(at, ReturnOp(who.id))), b, Some(who), at, 0.0)
  {
    var c := Call(at, ReturnOp(who.id));
    assert Timely(now, [c]) by { assert [c][1..] == []; }
    StepKeepsSound(a, now, c);
    CloseAges(a, b, Some(who), now, at, 1.0);
    ReturnRepays(a, b, at, who.id, who.limit);
  }

  // ---- The systems with and without the request ------------------------------------------------------

  /** The configured limits are positive, and agree with q's on q's key and on q's account. */
  ghost predicate Agrees(p: Request, q: Request, limits: Limits) {
    && (p.key.Some? ==> p.key.value.rateLimit >= 1)
    && (p.billing.Some? ==> LimitOf(p.billing.value, limits) >= 1)
    && (p.key.Some? && q.key.Some? && p.key.value.id == q.key.value.id ==>
          p.key.value.rateLimit == q.key.value.rateLimit)
    && (p.billing.Some? && q.billing.Some? && p.billing.value.account == q.billing.value.account ==>
          LimitOf(p.billing.value, limits) == LimitOf(q.billing.value, limits))
  }

  function Account(q: Request, limits: Limits): Option<Party> {
    if q.billing.None? then None else Some(Party(q.billing.value.account, LimitOf(q.billing.value, limits)))
  }

  function KeyOf(q: Request): Option<Party> {
    if q.key.None? then None else Some(Party(q.key.value.id, q.key.value.rateLimit))
  }

  /** Between the charge of its account and the refund. */
  predicate Out(s: System, r: nat, q: Request) {
    r in s.pcs && q.billing.Some? && (s.pcs[r].Charged? || s.pcs[r].Refunding?)
  }

  function Owed(s: System, r: nat, q: Request): real {
    if Out(s, r, q) then 1.0 else 0.0
  }

  function TimeOf(e: Event, now: real): real {
    match e
    case Arrive(_, _) => now
    case Advance(_, at) => at
    case PruneKeys(at) => at
    case PruneAccounts(at) => at
  }

  predicate ByOther(e: Event, r: nat) {
    (e.Arrive? || e.Advance?) ==> e.r != r
  }

  /** The request has not been let past its key's limit. */
  predicate NotPast(pc: Pc) {
    !pc.KeyPassed? && !pc.Serving?
  }

  /** The event keeps the clock and the limits, does not let r past its key's limit, and while r's
      account is charged is no call of another request on that account. */
  ghost predicate Fits(s: System, limits: Limits, r: nat, q: Request, now: real, e: Event) {
    now <= TimeOf(e, now) &&
    match e
    case Arrive(x, p) => Agrees(p, q, limits) && (x == r ==> p == q)
    case Advance(x, at) =>
      x in s.pcs && x in s.requests ==>
        if x == r then NotPast(AdvanceSpec(s, limits, r, at).pcs[r])
        else
          var c := AccountCall(s.pcs[x], s.requests[x], limits, at);
          Out(s, r, q) && c.Some? ==> s.requests[x].billing.value.account != q.billing.value.account
    case _ => true
  }

  function Clock(start: real, events: seq<Event>): real {
    if events == [] then start else TimeOf(events[|events| - 1], Clock(start, events[..|events| - 1]))
  }

  /** In this run r, a request q, is turned away by its account's or its key's limit, as far as it
      gets, and no other request calls on its account between charge and refund. */
  ghost predicate TurnedAway(limits: Limits, start: real, events: seq<Event>, r: nat, q: Request) {
    events == [] ||
    (var front := events[..|events| - 1];
     TurnedAway(limits, start, front, r, q) &&
     Fits(RunSystem(EMPTY, limits, front), limits, r, q, Clock(start, front), events[|events| - 1]))
  }

  /** The run without r. */
  function Erased(events: seq<Event>, r: nat): seq<Event> {
    if events == [] then []
    else
      var e := events[|events| - 1];
      Erased(events[..|events| - 1], r) + if ByOther(e, r) then [e] else []
  }

  ghost predicate SameBut<V>(m: map<nat, V>, m': map<nat, V>, r: nat) {
    r !in m' && forall x :: x != r ==> (x in m <==> x in m') && (x in m ==> m[x] == m'[x])
  }

  /** `t` is `s` had r never come. */
  ghost predicate Shadows(s: System, t: System, limits: Limits, r: nat, q: Request, now: real) {
    && SameBut(s.pcs, t.pcs, r) && SameBut(s.requests, t.requests, r) && s.inUse == t.inUse
    && (forall x :: x in s.requests ==> Agrees(s.requests[x], q, limits))
    && (r in s.pcs <==> r in s.requests) && (r in s.pcs ==> s.requests[r] == q && NotPast(s.pcs[r]))
    && Close(s.accounts, t.accounts, Account(q, limits), now, Owed(s, r, q))
    && Close(s.keys, t.keys, KeyOf(q), now, 0.0)
  }

  lemma ProperAccountCall(p: Request, q: Request, limits: Limits, pc: Pc, at: real, owed: real)
    requires Agrees(p, q, limits) && Agrees(q, q, limits) && (owed == 0.0 || owed == 1.0)
    requires var c := AccountCall(pc, p, limits, at);
             owed == 1.0 && c.Some? && q.billing.Some? ==> p.billing.value.account != q.billing.value.account
    ensures var c := AccountCall(pc, p, limits, at);
            c.Some? ==> c.value.at == at && Proper(c.value, Account(q, limits), owed)
  {
    hide LimitOf;
  }

  lemma ProperKeyCall(p: Request, q: Request, limits: Limits, pc: Pc, at: real)
    requires Agrees(p, q, limits) && Agrees(q, q, limits)
    ensures var c := KeyCall(pc, p, at); c.Some? ==> c.value.at == at && Proper(c.value, KeyOf(q), 0.0)
  {
    hide LimitOf;
  }

  function GatesOf(s: System): Gates {
    Gates(s.keys, s.accounts, s.inUse)
  }

  /** Another request's step, on both sides. */
  lemma OtherGates(l: Local, m: Local, limits: Limits, p: Request, q: Request, now: real, at: real, owed: real)
    requires Agrees(p, q, limits) && Agrees(q, q, limits) && now <= at && (owed == 0.0 || owed == 1.0)
    requires l.pc == m.pc && l.gates.inUse == m.gates.inUse
    requires Close(l.gates.accounts, m.gates.accounts, Account(q, limits), now, owed)
    requires Close(l.gates.keys, m.gates.keys, KeyOf(q), now, 0.0)
    requires var c := AccountCall(l.pc, p, limits, at);
             owed == 1.0 && c.Some? && q.billing.Some? ==> p.billing.value.account != q.billing.value.account
    ensures var l', m' := LocalStep(l, limits, p, at), LocalStep(m, limits, p, at);
            l'.pc == m'.pc && l'.gates.inUse == m'.gates.inUse &&
            Close(l'.gates.accounts, m'.gates.accounts, Account(q, limits), at, owed) &&
            Close(l'.gates.keys, m'.gates.keys, KeyOf(q), at, 0.0)
  {
    var ac, kc := AccountCall(l.pc, p, limits, at), KeyCall(l.pc, p, at);
    ProperAccountCall(p, q, limits, l.pc, at, owed);
    ProperKeyCall(p, q, limits, l.pc, at);
    PartiesLimited(q, limits);
    hide Agrees, AccountCall, KeyCall, Close, LocalStep, Apply, VerdictOf, Proper, Account, KeyOf;
    CloseStep(l.gates.accounts, m.gates.accounts, Account(q, limits), now, ac, at, owed);
    CloseStep(l.gates.keys, m.gates.keys, KeyOf(q), now, kc, at, 0.0);
    StepCalls(l, limits, p, at);
    StepCalls(m, limits, p, at);
    VerdictsDecide(l, m, limits, p, at);
  }

  lemma SameButBoth<V>(m: map<nat, V>, m': map<nat, V>, r: nat, x: nat, v: V)
    requires SameBut(m, m', r) && x != r
    ensures SameBut(m[x := v], m'[x := v], r)
  {}

  lemma OtherAdvances(s: System, t: System, limits: Limits, r: nat, q: Request, now: real, x: nat, at: real)
    requires Shadows(s, t, limits, r, q, now) && Agrees(q, q, limits) && x != r && x in s.pcs && x in s.requests
    requires Fits(s, limits, r, q, now, Advance(x, at))
    ensures x in t.pcs && x in t.requests
    ensures Shadows(AdvanceSpec(s, limits, x, at), AdvanceSpec(t, limits, x, at), limits, r, q, at)
  {
    var p, pc := s.requests[x], s.pcs[x];
    var l, m := Local(GatesOf(s), pc), Local(GatesOf(t), pc);
    assert Agrees(p, q, limits);
    hide Agrees, AccountCall, Close, LocalStep, Account, KeyOf;
    OtherGates(l, m, limits, p, q, now, at, Owed(s, r, q));
    SameButBoth(s.pcs, t.pcs, r, x, LocalStep(l, limits, p, at).pc);
    hide SameBut;
  }

  lemma PartiesLimited(q: Request, limits: Limits)
    requires Agrees(q, q, limits)
    ensures Account(q, limits).Some? ==> Account(q, limits).value.limit >= 1
    ensures KeyOf(q).Some? ==> KeyOf(q).value.limit >= 1
  {}

  lemma OwnAccountStep(l: Local, b: Buckets, limits: Limits, q: Request, now: real, at: real, owed: real)
    requires Agrees(q, q, limits) && now <= at
    requires owed == if q.billing.Some? && (l.pc.Charged? || l.pc.Refunding?) then 1.0 else 0.0
    requires Close(l.gates.accounts, b, Account(q, limits), now, owed)
    requires NotPast(l.pc) && NotPast(LocalStep(l, limits, q, at).pc)
    ensures var m := LocalStep(l, limits, q, at);
            Close(m.gates.accounts, b, Account(q, limits), at,
                  if q.billing.Some? && (m.pc.Charged? || m.pc.Refunding?) then 1.0 else 0.0)
  {
    hide Close, LimitOf;
    PartiesLimited(q, limits);
    CloseAges(l.gates.accounts, b, Account(q, limits), now, at, owed);
    if q.billing.Some? {
      var who := Account(q, limits).value;
      hide AllowSpec, ReturnSpec;
      if l.pc.Arrived? {
        CloseOwn(l.gates.accounts, b, who, now, at);
      } else if l.pc.Refunding? {
        CloseRefund(l.gates.accounts, b, who, now, at);
      }
    }
  }

  lemma OwnKeyStep(l: Local, b: Buckets, limits: Limits, q: Request, now: real, at: real)
    requires Agrees(q, q, limits) && now <= at
    requires Close(l.gates.keys, b, KeyOf(q), now, 0.0)
    requires NotPast(l.pc) && NotPast(LocalStep(l, limits, q, at).pc)
    ensures Close(LocalStep(l, limits, q, at).gates.keys, b, KeyOf(q), at, 0.0)
  {
    hide Close, LimitOf;
    PartiesLimited(q, limits);
    CloseAges(l.gates.keys, b, KeyOf(q), now, at, 0.0);
    if l.pc.Charged? && q.key.Some? {
      hide AllowSpec, ReturnSpec;
      CloseOwn(l.gates.keys, b, KeyOf(q).value, now, at);
    }
  }

  lemma OwnAdvances(s: System, t: System, limits: Limits, r: nat, q: Request, now: real, at: real)
    requires Shadows(s, t, limits, r, q, now) && Agrees(q, q, limits) && r in s.pcs
    requires Fits(s, limits, r, q, now, Advance(r, at))
    ensures Shadows(AdvanceSpec(s, limits, r, at), t, limits, r, q, at)
  {
    var l := Local(GatesOf(s), s.pcs[r]);
    OwnAccountStep(l, t.accounts, limits, q, now, at, Owed(s, r, q));
    OwnKeyStep(l, t.keys, limits, q, now, at);
    OwnSlots(l, limits, q, at);
    hide Agrees, Close, LocalStep, Account, KeyOf;
  }

  lemma OwnSlots(l: Local, limits: Limits, q: Request, at: real)
    requires NotPast(l.pc)
    ensures LocalStep(l, limits, q, at).gates.inUse == l.gates.inUse
  {
    hide AllowSpec, ReturnSpec, LimitOf, AcquireSpec, ReleaseSpec;
  }

  lemma OtherArrives(s: System, t: System, limits: Limits, r: nat, q: Request, now: real, x: nat, p: Request)
    requires Shadows(s, t, limits, r, q, now) && Agrees(p, q, limits) && x != r
    ensures Shadows(StepSystem(s, limits, Arrive(x, p)), StepSystem(t, limits, Arrive(x, p)), limits, r, q, now)
  {
    hide Agrees, Close, Account, KeyOf;
    assert x in s.pcs <==> x in t.pcs;
    if x !in s.pcs {
      SameButBoth(s.pcs, t.pcs, r, x, Arrived);
      SameButBoth(s.requests, t.requests, r, x, p);
      hide SameBut;
    }
  }

  lemma OwnArrives(s: System, t: System, limits: Limits, r: nat, q: Request, now: real)
    requires Shadows(s, t, limits, r, q, now) && Agrees(q, q, limits)
    ensures Shadows(StepSystem(s, limits, Arrive(r, q)), t, limits, r, q, now)
  {
    hide Agrees, Close, Account, KeyOf;
  }

  lemma PrunedClose(a: Buckets, b: Buckets, who: Option<Party>, now: real, at: real, owed: real)
    requires Close(a, b, who, now, owed) && now <= at && (who.Some? ==> who.value.limit >= 1 && owed >= 0.0)
    ensures Close(PruneSpec(a, at), PruneSpec(b, at), who, at, owed)
  {
    hide Close, PruneSpec;
    CloseStep(a, b, who, now, Some(Call(at, PruneOp)), at, owed);
  }

  /** Nothing that other requests see depends on the limiters' clocks or on prunes. */
  lemma LimitersMove(s: System, t: System, limits: Limits, r: nat, q: Request, now: real, s': System, t': System,
                     at: real)
    requires Shadows(s, t, limits, r, q, now) && s'.pcs == s.pcs && t'.pcs == t.pcs
    requires s'.requests == s.requests && t'.requests == t.requests && s'.inUse == s.inUse && t'.inUse == t.inUse
    requires Close(s'.accounts, t'.accounts, Account(q, limits), at, Owed(s, r, q))
    requires Close(s'.keys, t'.keys, KeyOf(q), at, 0.0)
    ensures Shadows(s', t', limits, r, q, at)
  {
    hide Agrees, Close, Account, KeyOf, SameBut;
  }

  lemma Prunes(s: System, t: System, limits: Limits, r: nat, q: Request, now: real, e: Event)
    requires Shadows(s, t, limits, r, q, now) && Agrees(q, q, limits) && (e.PruneKeys? || e.PruneAccounts?)
    requires now <= TimeOf(e, now)
    ensures Shadows(StepSystem(s, limits, e), StepSystem(t, limits, e), limits, r, q, TimeOf(e, now))
  {
    var at, owed := TimeOf(e, now), Owed(s, r, q);
    var s', t' := StepSystem(s, limits, e), StepSystem(t, limits, e);
    PartiesLimited(q, limits);
    assert Close(s.accounts, t.accounts, Account(q, limits), now, owed) && Close(s.keys, t.keys, KeyOf(q), now, 0.0);
    hide Agrees, Close, Account, KeyOf, PruneSpec, Shadows;
    if e.PruneAccounts? {
      PrunedClose(s.accounts, t.accounts, Account(q, limits), now, at, owed);
      CloseAges(s.keys, t.keys, KeyOf(q), now, at, 0.0);
    } else {
      CloseAges(s.accounts, t.accounts, Account(q, limits), now, at, owed);
      PrunedClose(s.keys, t.keys, KeyOf(q), now, at, 0.0);
    }
    LimitersMove(s, t, limits, r, q, now, s', t', at);
  }

  lemma StepShadows(s: System, t: System, limits: Limits, r: nat, q: Request, now: real, e: Event)
    requires Shadows(s, t, limits, r, q, now) && Agrees(q, q, limits) && Fits(s, limits, r, q, now, e)
    ensures Shadows(StepSystem(s, limits, e), if ByOther(e, r) then StepSystem(t, limits, e) else t, limits, r, q,
                    TimeOf(e, now))
  {
    match e
    case Arrive(x, p) =>
      hide Shadows;
      if x == r { OwnArrives(s, t, limits, r, q, now); } else { OtherArrives(s, t, limits, r, q, now, x, p); }
    case Advance(x, at) =>
      if x in s.pcs && x in s.requests {
        hide AdvanceSpec, Fits;
        if x == r { OwnAdvances(s, t, limits, r, q, now, at); } else { OtherAdvances(s, t, limits, r, q, now, x, at); }
      } else {
        NobodyAdvances(s, t, limits, r, q, now, at);
      }
    case _ =>
      hide Shadows;
      Prunes(s, t, limits, r, q, now, e);
  }

  lemma NobodyAdvances(s: System, t: System, limits: Limits, r: nat, q: Request, now: real, at: real)
    requires Shadows(s, t, limits, r, q, now) && Agrees(q, q, limits) && now <= at
    ensures Shadows(s, t, limits, r, q, at)
  {
    PartiesLimited(q, limits);
    hide Agrees, Close, Account, KeyOf, SameBut;
    CloseAges(s.accounts, t.accounts, Account(q, limits), now, at, Owed(s, r, q));
    CloseAges(s.keys, t.keys, KeyOf(q), now, at, 0.0);
  }

  lemma EmptyShadows(limits: Limits, r: nat, q: Request, start: real)
    requires Agrees(q, q, limits)
    ensures Shadows(EMPTY, EMPTY, limits, r, q, start)
  {}

  lemma {:induction false} RunShadows(limits: Limits, start: real, events: seq<Event>, r: nat, q: Request)
    requires TurnedAway(limits, start, events, r, q) && Agrees(q, q, limits)
    ensures Shadows(RunSystem(EMPTY, limits, events), RunSystem(EMPTY, limits, Erased(events, r)), limits, r, q,
                    Clock(start, events))
  {
    if events == [] {
      EmptyShadows(limits, r, q, start);
    } else {
      hide Shadows, StepSystem, Fits, Agrees;
      var front, e := events[..|events| - 1], events[|events| - 1];
      RunShadows(limits, start, front, r, q);
      var s, t := RunSystem(EMPTY, limits, front), RunSystem(EMPTY, limits, Erased(front, r));
      StepShadows(s, t, limits, r, q, Clock(start, front), e);
      if ByOther(e, r) {
        assert (Erased(front, r) + [e])[..|Erased(front, r)|] == Erased(front, r);
      } else {
        assert Erased(front, r) + [] == Erased(front, r);
      }
    }
  }

  /** In any interleaving, a request that its account's or its key's limit turns away, with no other call
      on its account between charge and refund, might as well not have come: take its events out of the
      run, and every other request stands where it stood, was told what it was told, and as many slots
      are in use. */
  lemma TurnedAwayUnobservable(limits: Limits, start: real, events: seq<Event>, r: nat, q: Request, x: nat)
    requires TurnedAway(limits, start, events, r, q) && Agrees(q, q, limits) && x != r
    ensures var s, t := RunSystem(EMPTY, limits, events), RunSystem(EMPTY, limits, Erased(events, r));
            r !in t.pcs && s.inUse == t.inUse &&
            (x in s.pcs <==> x in t.pcs) && (x in s.pcs ==> s.pcs[x] == t.pcs[x])
  {
    RunShadows(limits, start, events, r, q);
  }
}
