/** The rate-limiting middleware: account bucket, then key bucket (refunding the account on a
    reject), then the concurrency slot that is released when the handler returns. */
module Admission {
  import opened Common
  import opened TokenBuckets
  import opened LimiterLaws
  import opened Concurrency

  datatype Limits = Limits(endUserPerMin: int, servicePerMin: int, endUserMaxConcurrent: int, serviceMaxConcurrent: int)

  datatype Key = Key(id: nat, rateLimit: int)

  datatype Billing = Billing(account: nat, allowanceManaged: bool, perMinute: Option<int>)

  datatype Request = Request(key: Option<Key>, billing: Option<Billing>, isGet: bool)

  datatype Outcome = AccountLimited(wait: Wait) | KeyLimited(wait: Wait) | TooManyConcurrent | Admitted(slot: bool)

  function MaxConcurrent(limits: Limits, allowanceManaged: bool): int {
    if allowanceManaged then limits.endUserMaxConcurrent else limits.serviceMaxConcurrent
  }

  function EffectiveLimit(perMinute: Option<int>, allowanceManaged: bool, limits: Limits): int {
    match perMinute
    case Some(n) => n
    case None => if allowanceManaged then limits.endUserPerMin else limits.servicePerMin
  }

  function LimitOf(b: Billing, limits: Limits): int {
    EffectiveLimit(b.perMinute, b.allowanceManaged, limits)
  }

  /** The state of the three gates. */
  datatype Gates = Gates(keys: Buckets, accounts: Buckets, inUse: InUse)

  /** What an outcome charged, refunded and acquired, and what it left alone. */
  ghost predicate Gated(limits: Limits, req: Request, now: real, now': real, before: Gates, after: Gates, o: Outcome) {
    && (req.key.None? ==> o == Admitted(false) && after == before)
    && (o.AccountLimited? ==>
          after.keys == before.keys && after.inUse == before.inUse && req.billing.Some? &&
          (after.accounts, Denied(o.wait)) ==
          AllowSpec(before.accounts, req.billing.value.account, LimitOf(req.billing.value, limits), now))
    && (req.key.Some? && !o.AccountLimited? ==>
          var (ks, kv) := AllowSpec(before.keys, req.key.value.id, req.key.value.rateLimit, now');
          after.keys == ks && (o.KeyLimited? <==> kv.Denied?) && (o.KeyLimited? ==> kv == Denied(o.wait)))
    && (req.key.Some? && req.billing.Some? && !o.AccountLimited? ==>
          var a := req.billing.value.account;
          var (bs, v) := AllowSpec(before.accounts, a, LimitOf(req.billing.value, limits), now);
          v == Allowed && after.accounts == if o.KeyLimited? then ReturnSpec(bs, a) else bs)
    && (req.billing.None? ==> after.accounts == before.accounts)
    && if req.key.Some? && req.billing.Some? && !req.isGet && (o.Admitted? || o.TooManyConcurrent?) then
         (after.inUse, o.Admitted?) ==
         AcquireSpec(before.inUse, req.billing.value.account, MaxConcurrent(limits, req.billing.value.allowanceManaged))
         && (o.Admitted? ==> o.slot)
       else after.inUse == before.inUse && !o.TooManyConcurrent? && (o.Admitted? ==> !o.slot)
  }

  class Middleware {
    const keys: Limiter
    const accounts: Limiter
    const conc: ConcurrencyLimiter
    const limits: Limits

    ghost predicate Valid() {
      keys != accounts
    }

    constructor (limits: Limits)
      ensures Valid() && fresh(keys) && fresh(accounts) && fresh(conc) && this.limits == limits
      ensures keys.buckets == accounts.buckets == map[] && conc.inUse == map[]
    {
      this.limits := limits;
      keys := new Limiter();
      accounts := new Limiter();
      conc := new ConcurrencyLimiter();
    }

    /** The gates in order, up to the call of the next handler.  `now` and `now'` are the times the
        account and the key bucket are read. */
    method Admit(req: Request, now: real, now': real) returns (o: Outcome)
      requires Valid()
      modifies keys, accounts, conc
      ensures Gated(limits, req, now, now', Gates(old(keys.buckets), old(accounts.buckets), old(conc.inUse)),
                    Gates(keys.buckets, accounts.buckets, conc.inUse), o)
    {
      if req.key.None? {
        return Admitted(false);
      }
      if req.billing.Some? {
        var b := req.billing.value;
        var v := accounts.Allow(b.account, EffectiveLimit(b.perMinute, b.allowanceManaged, limits), now);
        if v.Denied? {
          return AccountLimited(v.retryAfter);
        }
      }
      var kv := keys.Allow(req.key.value.id, req.key.value.rateLimit, now');
      if kv.Denied? {
        if req.billing.Some? {
          accounts.Return(req.billing.value.account);
        }
        return KeyLimited(kv.retryAfter);
      }
      if req.billing.Some? && !req.isGet {
        var b := req.billing.value;
        var ok := conc.TryAcquire(b.account, MaxConcurrent(limits, b.allowanceManaged));
        return if ok then Admitted(true) else TooManyConcurrent;
      }
      return Admitted(false);
    }
  }

  /** A key-level reject with no other call on the account in between, whatever other accounts do,
      leaves the account limiter observationally as if the request never came. */
  lemma KeyRejectUnobservable(bs: Buckets, now: real, b: Billing, limits: Limits, at: real, between: seq<Call>,
                              future: seq<Call>)
    requires Sound(bs, now) && now <= at && LimitOf(b, limits) >= 1 && FixedAt(bs, b.account, LimitOf(b, limits))
    requires AllowSpec(bs, b.account, LimitOf(b, limits), at).1 == Allowed
    requires Untouched(between, b.account) && Timely(at, between)
    requires FixedLimit(future, b.account, LimitOf(b, limits)) && Timely(End(at, between), future)
    ensures var charged := AllowSpec(bs, b.account, LimitOf(b, limits), at).0;
            Verdicts(charged, between) == Verdicts(bs, between) &&
            Verdicts(ReturnSpec(Run(charged, between), b.account), future) == Verdicts(Run(bs, between), future)
  {
    RefundUnobservable(bs, now, b.account, LimitOf(b, limits), at, between, future);
  }

  // ---- Any number of requests, interleaved at every locked section ------------------------

  /** Where a request is: each constructor names what it has passed, the last what it was told. */
  datatype Pc = Arrived | Charged | Refunding(wait: Wait) | KeyPassed | Serving(slot: bool) | Left(outcome: Outcome)

  datatype System =
    System(keys: Buckets, accounts: Buckets, inUse: InUse, requests: map<nat, Request>, pcs: map<nat, Pc>)

  datatype Event =
    | Arrive(r: nat, request: Request)
    | Advance(r: nat, now: real)
    | PruneKeys(now: real)
    | PruneAccounts(now: real)

  const EMPTY := System(map[], map[], map[], map[], map[])

  /** What one request's steps can see and change. */
  datatype Local = Local(gates: Gates, pc: Pc)

  function LocalStep(l: Local, limits: Limits, q: Request, now: real): Local {
    var g := l.gates;
    match l.pc
    case Arrived =>
      if q.key.None? then Local(g, Serving(false))
      else if q.billing.None? then Local(g, Charged)
      else
        var (bs, v) := AllowSpec(g.accounts, q.billing.value.account, LimitOf(q.billing.value, limits), now);
        Local(g.(accounts := bs), if v.Denied? then Left(AccountLimited(v.retryAfter)) else Charged)
    case Charged =>
      if q.key.None? then l
      else
        var (bs, v) := AllowSpec(g.keys, q.key.value.id, q.key.value.rateLimit, now);
        Local(g.(keys := bs),
              if v == Allowed then KeyPassed
              else if q.billing.Some? then Refunding(v.retryAfter) else Left(KeyLimited(v.retryAfter)))
    case Refunding(wait) =>
      Local(if q.billing.None? then g else g.(accounts := ReturnSpec(g.accounts, q.billing.value.account)),
            Left(KeyLimited(wait)))
    case KeyPassed =>
      if q.billing.None? || q.isGet then Local(g, Serving(false))
      else
        var b := q.billing.value;
        var (m, ok) := AcquireSpec(g.inUse, b.account, MaxConcurrent(limits, b.allowanceManaged));
        Local(g.(inUse := m), if ok then Serving(true) else Left(TooManyConcurrent))
    case Serving(slot) =>
      Local(if !slot || q.billing.None? then g else g.(inUse := ReleaseSpec(g.inUse, q.billing.value.account)),
            Left(Admitted(slot)))
    case Left(_) => l
  }

  function AdvanceSpec(s: System, limits: Limits, r: nat, now: real): System
    requires r in s.pcs && r in s.requests
  {
    var l := LocalStep(Local(Gates(s.keys, s.accounts, s.inUse), s.pcs[r]), limits, s.requests[r], now);
    System(l.gates.keys, l.gates.accounts, l.gates.inUse, s.requests, s.pcs[r := l.pc])
  }

  /** One more step of a request that is still at the gates. */
  function AtGates(l: Local, limits: Limits, q: Request, now: real): Local {
    if l.pc.Serving? || l.pc.Left? then l else LocalStep(l, limits, q, now)
  }

  /** A request nobody interrupts leaves the gates as the middleware's contract says, and gets on
      to the handler exactly when it is admitted. */
  lemma UninterruptedIsGated(limits: Limits, q: Request, now: real, now': real, before: Gates, after: Gates, o: Outcome)
    requires Gated(limits, q, now, now', before, after, o)
    ensures AtGates(AtGates(AtGates(Local(before, Arrived), limits, q, now), limits, q, now'), limits, q, now') ==
            Local(after, if o.Admitted? then Serving(o.slot) else Left(o))
  {
    hide AllowSpec, ReturnSpec, LimitOf, MaxConcurrent, AcquireSpec;
  }

  function StepSystem(s: System, limits: Limits, e: Event): System {
    match e
    case Arrive(r, q) => if r in s.pcs then s else s.(requests := s.requests[r := q], pcs := s.pcs[r := Arrived])
    case Advance(r, now) => if r in s.pcs && r in s.requests then AdvanceSpec(s, limits, r, now) else s
    case PruneKeys(now) => s.(keys := PruneSpec(s.keys, now))
    case PruneAccounts(now) => s.(accounts := PruneSpec(s.accounts, now))
  }

  function RunSystem(s: System, limits: Limits, events: seq<Event>): System {
    if events == [] then s
    else StepSystem(RunSystem(s, limits, events[..|events| - 1]), limits, events[|events| - 1])
  }

  /** Requests between their acquire and their deferred release. */
  ghost function Holders(s: System): set<nat> {
    set r | r in s.pcs && s.pcs[r] == Serving(true)
  }

  ghost predicate HoldsFor(s: System, r: nat, account: nat)
    requires r in s.pcs
  {
    s.pcs[r] == Serving(true) && BilledTo(s, r, account)
  }

  ghost predicate BilledTo(s: System, r: nat, account: nat) {
    r in s.requests && s.requests[r].billing.Some? && s.requests[r].billing.value.account == account
  }

  ghost function HoldersOf(s: System, account: nat): set<nat> {
    set r | r in s.pcs && HoldsFor(s, r, account)
  }

  /** Every request on an account carries the account's own class. */
  ghost predicate Classed(s: System, managed: nat -> bool) {
    forall r :: r in s.requests && s.requests[r].billing.Some? ==>
      s.requests[r].billing.value.allowanceManaged == managed(s.requests[r].billing.value.account)
  }

  ghost predicate Counted(s: System, limits: Limits, managed: nat -> bool) {
    && s.pcs.Keys == s.requests.Keys && Classed(s, managed)
    && (forall r :: r in Holders(s) ==> s.requests[r].billing.Some?)
    && (forall a :: Used(s.inUse, a) == |HoldersOf(s, a)|)
    && (forall a :: a in s.inUse ==> 1 <= s.inUse[a] <= MaxConcurrent(limits, managed(a)))
  }

  lemma SizeWithout<T>(xs: set<T>, x: T)
    ensures |xs| == |xs - {x}| + if x in xs then 1 else 0
  {
    if x !in xs { assert xs - {x} == xs; }
  }

  /** Moving one request changes the holders of an account only where that request billed to it
      takes or gives up its slot. */
  lemma MoveChangesHolders(s: System, t: System, r: nat, a: nat)
    requires s.requests == t.requests && r in s.pcs && r in s.requests && r in t.pcs && t.pcs == s.pcs[r := t.pcs[r]]
    ensures |HoldersOf(t, a)| == |HoldersOf(s, a)| +
            (if HoldsFor(t, r, a) then 1 else 0) - (if HoldsFor(s, r, a) then 1 else 0)
  {
    var before, after := HoldersOf(s, a), HoldersOf(t, a);
    forall x | x != r ensures x in before <==> x in after {
      assert x in before <==> x in s.pcs && HoldsFor(s, x, a);
      assert x in after <==> x in t.pcs && HoldsFor(t, x, a);
    }
    assert before - {r} == after - {r};
    SizeWithout(before, r);
    SizeWithout(after, r);
  }

  /** `r` moves from `s` to `t`, taking a slot, giving one up, or neither. */
  ghost predicate SlotMove(s: System, t: System, limits: Limits, r: nat) {
    && r in s.pcs && r in s.requests && t.requests == s.requests && r in t.pcs && t.pcs == s.pcs[r := t.pcs[r]]
    && var b := s.requests[r].billing;
       if t.pcs[r] == Serving(true) then
         b.Some? && s.pcs[r] != Serving(true) &&
         (t.inUse, true) == AcquireSpec(s.inUse, b.value.account, MaxConcurrent(limits, b.value.allowanceManaged))
       else if s.pcs[r] == Serving(true) then b.Some? && t.inUse == ReleaseSpec(s.inUse, b.value.account)
       else t.inUse == s.inUse
  }

  lemma AdvanceIsSlotMove(s: System, limits: Limits, r: nat, now: real)
    requires r in s.pcs && r in s.requests && (s.pcs[r] == Serving(true) ==> s.requests[r].billing.Some?)
    ensures var t := AdvanceSpec(s, limits, r, now); t == s || SlotMove(s, t, limits, r)
  {
    hide AllowSpec, ReturnSpec, LimitOf, ReleaseSpec;
    match s.pcs[r]
    case Arrived =>
    case Charged =>
    case Refunding(_) =>
    case KeyPassed =>
    case Serving(_) =>
    case Left(_) =>
  }

  lemma SlotMoveKeepsCounted(s: System, t: System, limits: Limits, managed: nat -> bool, r: nat)
    requires limits.endUserMaxConcurrent >= 1 && limits.serviceMaxConcurrent >= 1
    requires Counted(s, limits, managed) && SlotMove(s, t, limits, r)
    ensures Counted(t, limits, managed)
  {
    hide HoldersOf;
    forall a ensures Used(t.inUse, a) == |HoldersOf(t, a)| {
      assert Used(s.inUse, a) == |HoldersOf(s, a)|;
      MoveChangesHolders(s, t, r, a);
    }
  }

  lemma ArrivalKeepsCounted(s: System, limits: Limits, managed: nat -> bool, r: nat, q: Request)
    requires Counted(s, limits, managed) && r !in s.pcs
    requires q.billing.Some? ==> q.billing.value.allowanceManaged == managed(q.billing.value.account)
    ensures Counted(s.(requests := s.requests[r := q], pcs := s.pcs[r := Arrived]), limits, managed)
  {
    var t := s.(requests := s.requests[r := q], pcs := s.pcs[r := Arrived]);
    forall a ensures HoldersOf(t, a) == HoldersOf(s, a) {}
    hide HoldersOf;
    assert Holders(t) == Holders(s);
  }

  lemma SameHoldersCounted(s: System, t: System, limits: Limits, managed: nat -> bool)
    requires Counted(s, limits, managed) && t.pcs == s.pcs && t.requests == s.requests && t.inUse == s.inUse
    ensures Counted(t, limits, managed)
  {
    forall a ensures HoldersOf(t, a) == HoldersOf(s, a) {}
    hide HoldersOf;
  }

  lemma StepKeepsCounted(s: System, limits: Limits, managed: nat -> bool, e: Event)
    requires limits.endUserMaxConcurrent >= 1 && limits.serviceMaxConcurrent >= 1
    requires Counted(s, limits, managed)
    requires e.Arrive? && e.request.billing.Some? ==>
               e.request.billing.value.allowanceManaged == managed(e.request.billing.value.account)
    ensures Counted(StepSystem(s, limits, e), limits, managed)
  {
    var t := StepSystem(s, limits, e);
    match e
    case Arrive(r, q) =>
      hide Counted;
      if r !in s.pcs { ArrivalKeepsCounted(s, limits, managed, r, q); }
    case Advance(r, now) =>
      if r in s.pcs && r in s.requests {
        assert s.pcs[r] == Serving(true) ==> r in Holders(s);
        hide Counted, AdvanceSpec, SlotMove;
        AdvanceIsSlotMove(s, limits, r, now);
        if t != s { SlotMoveKeepsCounted(s, t, limits, managed, r); }
      }
    case _ =>
      hide Counted;
      SameHoldersCounted(s, t, limits, managed);
  }

  /** In every interleaving, an account's in-use count is the number of its requests between
      acquire and release, is positive wherever it is stored, and never exceeds the cap. */
  lemma {:induction false} SlotsCounted(limits: Limits, managed: nat -> bool, events: seq<Event>)
    requires limits.endUserMaxConcurrent >= 1 && limits.serviceMaxConcurrent >= 1
    requires forall i :: 0 <= i < |events| && events[i].Arrive? && events[i].request.billing.Some? ==>
               events[i].request.billing.value.allowanceManaged == managed(events[i].request.billing.value.account)
    ensures Counted(RunSystem(EMPTY, limits, events), limits, managed)
  {
    if events == [] {
      forall a ensures HoldersOf(EMPTY, a) == {} {}
    } else {
      SlotsCounted(limits, managed, events[..|events| - 1]);
      StepKeepsCounted(RunSystem(EMPTY, limits, events[..|events| - 1]), limits, managed, events[|events| - 1]);
    }
  }

  ghost function On(holders: set<nat>, account: map<nat, nat>, a: nat): set<nat>
    requires holders <= account.Keys
  {
    set h | h in holders && account[h] == a
  }

  lemma HolderCounts(holders: set<nat>, account: map<nat, nat>, h: nat)
    requires holders <= account.Keys && h in holders
    ensures |On(holders, account, account[h])| >= 1
  {
    assert h in On(holders, account, account[h]);
  }

  lemma {:induction false} TotalCounts(m: InUse, holders: set<nat>, account: map<nat, nat>)
    requires holders <= account.Keys
    requires forall a :: Used(m, a) == |On(holders, account, a)|
    ensures Total(m) == |holders|
    decreases |m|
  {
    if m == map[] {
      if h :| h in holders {
        HolderCounts(holders, account, h);
        assert false;
      }
    } else {
      var id :| id in m;
      TotalWithout(m, id);
      var mine := On(holders, account, id);
      var rest := holders - mine;
      forall a ensures Used(m - {id}, a) == |On(rest, account, a)| {
        assert Used(m, a) == |On(holders, account, a)|;
        assert On(rest, account, a) == if a == id then {} else On(holders, account, a);
      }
      TotalCounts(m - {id}, rest, account);
      assert holders == mine + rest && Used(m, id) == |mine|;
    }
  }

  /** The in-flight gauge is the number of requests being served under a slot. */
  lemma InFlightCounts(s: System, limits: Limits, managed: nat -> bool)
    requires Counted(s, limits, managed)
    ensures Total(s.inUse) == |Holders(s)|
  {
    var account := map r | r in Holders(s) :: s.requests[r].billing.value.account;
    forall a ensures Used(s.inUse, a) == |On(Holders(s), account, a)| {
      assert On(Holders(s), account, a) == HoldersOf(s, a);
    }
    TotalCounts(s.inUse, Holders(s), account);
  }

  // ---- What each gate answers ------------------------------------------------------------------------------

  /** An account is held to its own limit if it has one, and otherwise to the default of its class: end users,
      whose allowance is managed, to theirs, services to theirs. So is its number of requests in flight. */
  lemma HeldTo(perMinute: Option<int>, managed: bool, limits: Limits)
    ensures perMinute.Some? ==> EffectiveLimit(perMinute, managed, limits) == perMinute.value
    ensures perMinute.None? && managed ==> EffectiveLimit(perMinute, managed, limits) == limits.endUserPerMin
    ensures perMinute.None? && !managed ==> EffectiveLimit(perMinute, managed, limits) == limits.servicePerMin
    ensures MaxConcurrent(limits, managed) ==
            if managed then limits.endUserMaxConcurrent else limits.serviceMaxConcurrent
  {}

  /** The account gate turns a request away exactly if the account's bucket holds less than one token at its
      limit; else it takes one. */
  lemma AccountGate(l: Local, limits: Limits, q: Request, before: real, now: real)
    requires l.pc.Arrived? && q.key.Some? && q.billing.Some? && Sound(l.gates.accounts, before) && before <= now
    requires LimitOf(q.billing.value, limits) >= 1
    requires FixedAt(l.gates.accounts, q.billing.value.account, LimitOf(q.billing.value, limits))
    ensures var m, b := LocalStep(l, limits, q, now), q.billing.value;
            var limit := if b.perMinute.Some? then b.perMinute.value
                         else if b.allowanceManaged then limits.endUserPerMin else limits.servicePerMin;
            var level := Level(l.gates.accounts, b.account, limit, now);
            m.gates.keys == l.gates.keys && m.gates.inUse == l.gates.inUse &&
            Level(m.gates.accounts, b.account, limit, now) == (if level < 1.0 then level else level - 1.0) &&
            if level < 1.0 then m.pc.Left? && m.pc.outcome.AccountLimited? else m.pc == Charged
  {
    var b := q.billing.value;
    HeldTo(b.perMinute, b.allowanceManaged, limits);
    var c := Call(now, AllowOp(b.account, LimitOf(b, limits)));
    assert Timely(before, [c]) by { assert [c][1..] == []; }
    LevelStep(l.gates.accounts, before, c, b.account, LimitOf(b, limits));
    hide Level, AllowSpec;
  }

  /** So does the key gate with the key's own limit, and what it turns away is refunded to the account. */
  lemma KeyGate(l: Local, limits: Limits, q: Request, before: real, now: real)
    requires l.pc.Charged? && q.key.Some? && Sound(l.gates.keys, before) && before <= now && q.key.value.rateLimit >= 1
    requires FixedAt(l.gates.keys, q.key.value.id, q.key.value.rateLimit)
    ensures var m, k := LocalStep(l, limits, q, now), q.key.value;
            var level := Level(l.gates.keys, k.id, k.rateLimit, now);
            m.gates.accounts == l.gates.accounts && m.gates.inUse == l.gates.inUse &&
            Level(m.gates.keys, k.id, k.rateLimit, now) == (if level < 1.0 then level else level - 1.0) &&
            if level >= 1.0 then m.pc == KeyPassed
            else if q.billing.Some? then m.pc.Refunding?
            else m.pc.Left? && m.pc.outcome.KeyLimited?
  {
    var k := q.key.value;
    var c := Call(now, AllowOp(k.id, k.rateLimit));
    assert Timely(before, [c]) by { assert [c][1..] == []; }
    LevelStep(l.gates.keys, before, c, k.id, k.rateLimit);
    hide Level, AllowSpec;
  }

  /** In every reachable state a request that is no GET is refused a slot exactly if as many requests of its
      account are being served as its class may have. */
  lemma RefusedOnlyAtCap(s: System, limits: Limits, managed: nat -> bool, r: nat, now: real)
    requires limits.endUserMaxConcurrent >= 1 && limits.serviceMaxConcurrent >= 1 && Counted(s, limits, managed)
    requires r in s.pcs && s.pcs[r] == KeyPassed && s.requests[r].billing.Some? && !s.requests[r].isGet
    ensures var b, pc := s.requests[r].billing.value, AdvanceSpec(s, limits, r, now).pcs[r];
            var cap := if b.allowanceManaged then limits.endUserMaxConcurrent else limits.serviceMaxConcurrent;
            |HoldersOf(s, b.account)| <= cap &&
            pc == if |HoldersOf(s, b.account)| == cap then Left(TooManyConcurrent) else Serving(true)
  {
    var b := s.requests[r].billing.value;
    assert Used(s.inUse, b.account) == |HoldersOf(s, b.account)|;
    hide HoldersOf;
  }

  /** A request holds a slot while it is served exactly if it came with a key, is billed and is no GET. */
  predicate BySort(pc: Pc, q: Request) {
    (pc.Serving? ==> (pc.slot <==> q.key.Some? && q.billing.Some? && !q.isGet)) &&
    (pc.Charged? || pc.Refunding? || pc.KeyPassed? ==> q.key.Some?)
  }

  ghost predicate SlotsBySort(s: System) {
    s.pcs.Keys == s.requests.Keys && forall r :: r in s.pcs && r in s.requests ==> BySort(s.pcs[r], s.requests[r])
  }

  lemma StepKeepsSort(l: Local, limits: Limits, q: Request, now: real)
    requires BySort(l.pc, q)
    ensures BySort(LocalStep(l, limits, q, now).pc, q)
  {
    hide AllowSpec, ReturnSpec, AcquireSpec, ReleaseSpec, LimitOf, MaxConcurrent;
  }

  lemma StepKeepsSlotsBySort(s: System, limits: Limits, e: Event)
    requires SlotsBySort(s)
    ensures SlotsBySort(StepSystem(s, limits, e))
  {
    if e.Advance? && e.r in s.pcs {
      StepKeepsSort(Local(Gates(s.keys, s.accounts, s.inUse), s.pcs[e.r]), limits, s.requests[e.r], e.now);
    }
    hide BySort, LocalStep, PruneSpec;
    assert BySort(Arrived, if e.Arrive? then e.request else Request(None, None, true)) by { SortStarts(e); }
  }

  lemma SortStarts(e: Event)
    ensures BySort(Arrived, if e.Arrive? then e.request else Request(None, None, true))
  {}

  lemma {:induction false} SlotsAreBySort(limits: Limits, events: seq<Event>)
    ensures SlotsBySort(RunSystem(EMPTY, limits, events))
  {
    hide StepSystem;
    if events != [] {
      SlotsAreBySort(limits, events[..|events| - 1]);
      StepKeepsSlotsBySort(RunSystem(EMPTY, limits, events[..|events| - 1]), limits, events[|events| - 1]);
    }
  }
}
