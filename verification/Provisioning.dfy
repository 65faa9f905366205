/** First sight of a federated identity by any number of callers at once.  A provisioning
    transaction inserts a provisional account, then the identity row under a uniqueness
    constraint; what it inserted is seen by others only once it commits. */
module Provisioning {
  /** The identity authority: (source, external id). */
  datatype Identity = Identity(source: string, externalId: string)

  /** Where one `ResolveEndUserAccount` call is. */
  datatype Pc =
    | Looking
    | Unknown
    | AccountInserted(account: nat)
    | IdentityInserted(account: nat)
    | Conflicted
    | Resolved(account: nat, provisioned: bool)
    | Failed
    | Vanished

  datatype Call = Call(id: Identity, pc: Pc)

  /** `identities` and `accounts` are the committed rows; account ids come from a sequence that
      rollbacks do not rewind. */
  datatype Store = Store(identities: map<Identity, nat>, accounts: set<nat>, nextAccount: nat, calls: map<nat, Call>)

  const EMPTY := Store(map[], {}, 1, map[])

  /** `ok` is false when the statement or the commit fails for a reason outside the model. */
  datatype Event = Arrive(c: nat, id: Identity) | Advance(c: nat, ok: bool)

  function At(s: Store, c: nat, pc: Pc): Store
    requires c in s.calls
  {
    s.(calls := s.calls[c := s.calls[c].(pc := pc)])
  }

  /** An uncommitted insert of the same identity makes a second insert wait for its outcome. */
  ghost predicate Blocked(s: Store, c: nat)
    requires c in s.calls
  {
    exists d :: d in s.calls && d != c && s.calls[d].id == s.calls[c].id && s.calls[d].pc.IdentityInserted?
  }

  /** One atomic step of a call. */
  ghost function AdvanceSpec(s: Store, c: nat, ok: bool): Store
    requires c in s.calls
  {
    var id := s.calls[c].id;
    match s.calls[c].pc
    case Looking =>
      if !ok then At(s, c, Failed)
      else At(s, c, if id in s.identities then Resolved(s.identities[id], false) else Unknown)
    case Unknown =>
      if !ok then At(s, c, Failed)
      else At(s.(nextAccount := s.nextAccount + 1), c, AccountInserted(s.nextAccount))
    case AccountInserted(account) =>
      if !ok then At(s, c, Failed)
      else if id in s.identities then At(s, c, Conflicted)
      else if Blocked(s, c) then s
      else At(s, c, IdentityInserted(account))
    case IdentityInserted(account) =>
      if !ok then At(s, c, Failed)
      else
        var t := s.(identities := s.identities[id := account], accounts := s.accounts + {account});
        At(t, c, Resolved(account, true))
    case Conflicted =>
      if !ok then At(s, c, Failed)
      else At(s, c, if id in s.identities then Resolved(s.identities[id], false) else Vanished)
    case Resolved(_, _) => s
    case Failed => s
    case Vanished => s
  }

  ghost function Step(s: Store, e: Event): Store {
    match e
    case Arrive(c, id) => if c in s.calls then s else s.(calls := s.calls[c := Call(id, Looking)])
    case Advance(c, ok) => if c in s.calls then AdvanceSpec(s, c, ok) else s
  }

  ghost function Run(s: Store, events: seq<Event>): Store {
    if events == [] then s else Step(Run(s, events[..|events| - 1]), events[|events| - 1])
  }

  ghost predicate Inserting(s: Store, c: nat, id: Identity) {
    c in s.calls && s.calls[c].id == id && s.calls[c].pc.IdentityInserted?
  }

  /** At most one uncommitted insert per identity, and none of an identity already committed. */
  ghost predicate OneInserter(s: Store) {
    && (forall c, d, id :: Inserting(s, c, id) && Inserting(s, d, id) ==> c == d)
    && (forall c, id :: Inserting(s, c, id) ==> id !in s.identities)
  }

  ghost predicate Provisional(pc: Pc) {
    pc.AccountInserted? || pc.IdentityInserted?
  }

  ghost predicate Holding(s: Store, c: nat) {
    c in s.calls && Provisional(s.calls[c].pc)
  }

  ghost predicate AccountsFresh(s: Store) {
    && (forall a :: a in s.accounts ==> a < s.nextAccount)
    && (forall c :: Holding(s, c) ==> s.calls[c].pc.account < s.nextAccount && s.calls[c].pc.account !in s.accounts)
    && (forall c, d :: Holding(s, c) && Holding(s, d) && c != d ==> s.calls[c].pc.account != s.calls[d].pc.account)
  }

  ghost predicate CallsAgree(s: Store) {
    forall c :: c in s.calls ==>
      match s.calls[c].pc
      case Resolved(account, _) => s.calls[c].id in s.identities && s.identities[s.calls[c].id] == account
      case Conflicted => s.calls[c].id in s.identities
      case Vanished => false
      case _ => true
  }

  ghost predicate Provisioner(s: Store, c: nat, id: Identity) {
    c in s.calls && s.calls[c].id == id && s.calls[c].pc.Resolved? && s.calls[c].pc.provisioned
  }

  ghost predicate OneProvisioner(s: Store) {
    forall c, d, id :: Provisioner(s, c, id) && Provisioner(s, d, id) ==> c == d
  }

  /** Committed accounts and identities are the two ends of one bijection. */
  ghost predicate Bijective(s: Store) {
    && (forall id :: id in s.identities ==> s.identities[id] in s.accounts)
    && (forall a :: a in s.accounts ==> exists id :: id in s.identities && s.identities[id] == a)
    && (forall id, id' :: id in s.identities && id' in s.identities && s.identities[id] == s.identities[id'] ==>
          id == id')
  }

  ghost predicate Inv(s: Store) {
    OneInserter(s) && AccountsFresh(s) && CallsAgree(s) && OneProvisioner(s) && Bijective(s)
  }

  /** A step moves one call and leaves the others where they are. */
  lemma StepMovesOne(s: Store, e: Event, c: nat)
    ensures c != e.c ==>
              (c in Step(s, e).calls <==> c in s.calls) && (c in s.calls ==> Step(s, e).calls[c] == s.calls[c])
    ensures c in s.calls ==> c in Step(s, e).calls && Step(s, e).calls[c].id == s.calls[c].id
  {
    hide Blocked;
  }

  lemma StepKeepsInserter(s: Store, e: Event)
    requires Inv(s)
    ensures OneInserter(Step(s, e))
  {
    hide AccountsFresh, CallsAgree, OneProvisioner, Bijective;
    var t := Step(s, e);
    forall c, d, id | Inserting(t, c, id) && Inserting(t, d, id) ensures c == d {
      StepMovesOne(s, e, c);
      StepMovesOne(s, e, d);
      assert c != e.c ==> Inserting(s, c, id);
      assert d != e.c ==> Inserting(s, d, id);
    }
    forall c, id | Inserting(t, c, id) ensures id !in t.identities {
      StepMovesOne(s, e, c);
      assert c != e.c ==> Inserting(s, c, id);
      assert t.identities != s.identities ==> Inserting(s, e.c, s.calls[e.c].id);
    }
  }

  lemma StepKeepsAgreement(s: Store, e: Event)
    requires Inv(s)
    ensures CallsAgree(Step(s, e))
  {
    hide AccountsFresh, OneProvisioner, Bijective, Blocked;
    IdentitiesStay(s, e);
    forall c
      ensures c != e.c ==>
                (c in Step(s, e).calls <==> c in s.calls) && (c in s.calls ==> Step(s, e).calls[c] == s.calls[c])
    {
      StepMovesOne(s, e, c);
    }
  }

  lemma StepKeepsProvisioner(s: Store, e: Event)
    requires Inv(s)
    ensures OneProvisioner(Step(s, e))
  {
    hide AccountsFresh, Bijective, Blocked;
    var t := Step(s, e);
    forall c, d, id | Provisioner(t, c, id) && Provisioner(t, d, id) ensures c == d {
      StepMovesOne(s, e, c);
      StepMovesOne(s, e, d);
      assert c != e.c ==> Provisioner(s, c, id);
      assert d != e.c ==> Provisioner(s, d, id);
      assert e.c in s.calls && !Provisioner(s, e.c, id) && Provisioner(t, e.c, id) ==> Inserting(s, e.c, id);
    }
  }

  /** A provisional account is the call's own or the next new one. */
  lemma StepAllocates(s: Store, e: Event, c: nat)
    ensures var t := Step(s, e);
            s.nextAccount <= t.nextAccount &&
            (Holding(t, c) ==>
               (Holding(s, c) && s.calls[c].pc.account == t.calls[c].pc.account) ||
               (c == e.c && t.calls[c].pc.account == s.nextAccount < t.nextAccount))
  {
    hide Blocked;
  }

  /** The step commits the account and the identity that its call has inserted. */
  ghost predicate Commits(s: Store, e: Event) {
    e.Advance? && e.ok && e.c in s.calls && s.calls[e.c].pc.IdentityInserted?
  }

  lemma StepCommits(s: Store, e: Event)
    ensures var t := Step(s, e);
            if Commits(s, e) then
              e.c in s.calls && s.calls[e.c].pc.IdentityInserted? &&
              var id, account := s.calls[e.c].id, s.calls[e.c].pc.account;
              t.identities == s.identities[id := account] && t.accounts == s.accounts + {account} &&
              e.c in t.calls && !Provisional(t.calls[e.c].pc)
            else t.identities == s.identities && t.accounts == s.accounts
  {
    hide Blocked;
  }

  lemma StepKeepsAccounts(s: Store, e: Event)
    requires Inv(s)
    ensures AccountsFresh(Step(s, e))
  {
    hide Step, Commits, OneInserter, CallsAgree, OneProvisioner, Bijective;
    var t := Step(s, e);
    StepCommits(s, e);
    StepAllocates(s, e, e.c);
    forall c | Holding(t, c) ensures t.calls[c].pc.account < t.nextAccount && t.calls[c].pc.account !in t.accounts {
      StepAllocates(s, e, c);
      assert Commits(s, e) ==> Holding(s, e.c);
    }
    forall c, d | Holding(t, c) && Holding(t, d) && c != d ensures t.calls[c].pc.account != t.calls[d].pc.account {
      StepAllocates(s, e, c);
      StepAllocates(s, e, d);
    }
    assert Commits(s, e) ==> Holding(s, e.c);
  }

  lemma StepKeepsBijection(s: Store, e: Event)
    requires Inv(s)
    ensures Bijective(Step(s, e))
  {
    var t := Step(s, e);
    StepCommits(s, e);
    if Commits(s, e) {
      assert Inserting(s, e.c, s.calls[e.c].id) && Holding(s, e.c);
      hide Step, CallsAgree, OneProvisioner;
      var id, account := s.calls[e.c].id, s.calls[e.c].pc.account;
      assert id !in s.identities && account !in s.accounts;
      hide OneInserter, AccountsFresh;
      forall a | a in t.accounts ensures exists i :: i in t.identities && t.identities[i] == a {
        if a in s.accounts {
          var i :| i in s.identities && s.identities[i] == a;
          assert t.identities[i] == a;
        } else {
          assert t.identities[id] == a;
        }
      }
    }
  }

  lemma {:induction false} AlwaysElectsOne(events: seq<Event>)
    ensures Inv(Run(EMPTY, events))
  {
    if events != [] {
      var s, e := Run(EMPTY, events[..|events| - 1]), events[|events| - 1];
      AlwaysElectsOne(events[..|events| - 1]);
      StepKeepsInserter(s, e);
      StepKeepsAgreement(s, e);
      StepKeepsProvisioner(s, e);
      StepKeepsAccounts(s, e);
      StepKeepsBijection(s, e);
    }
  }

  /** Once an identity is committed, no step moves it or takes it away. */
  lemma IdentitiesStay(s: Store, e: Event)
    requires Inv(s)
    ensures forall id :: id in s.identities ==>
              id in Step(s, e).identities && Step(s, e).identities[id] == s.identities[id]
  {
    hide Blocked, AccountsFresh, CallsAgree, OneProvisioner, Bijective;
    if Step(s, e).identities != s.identities {
      assert Inserting(s, e.c, s.calls[e.c].id);
    }
  }

  /** Under every interleaving: all resolutions of one identity return the same account, at most
      one of them reports having provisioned it, every committed account has exactly one identity,
      and nobody sees an identity vanish after a conflict. */
  lemma WinnerElected(events: seq<Event>)
    ensures var s := Run(EMPTY, events);
            && (forall c, d ::
                  (c in s.calls && d in s.calls && c != d && s.calls[c].id == s.calls[d].id &&
                   s.calls[c].pc.Resolved? && s.calls[d].pc.Resolved?) ==>
                    s.calls[c].pc.account == s.calls[d].pc.account &&
                    !(s.calls[c].pc.provisioned && s.calls[d].pc.provisioned))
            && (forall a :: a in s.accounts ==> exists id :: id in s.identities && s.identities[id] == a)
            && (forall id, id' ::
                  id in s.identities && id' in s.identities && s.identities[id] == s.identities[id'] ==> id == id')
            && (forall c :: c in s.calls ==> !s.calls[c].pc.Vanished?)
  {
    AlwaysElectsOne(events);
    var s := Run(EMPTY, events);
    forall c | c in s.calls && s.calls[c].pc.Resolved? && s.calls[c].pc.provisioned
      ensures Provisioner(s, c, s.calls[c].id)
    {}
  }

  // ---- Everybody gets an answer ------------------------------------------------------------------------

  /** A call whose every statement succeeds does not fail. */
  lemma {:induction false} SuccessNeverFails(events: seq<Event>, c: nat)
    requires forall e <- events :: e.Advance? && e.c == c ==> e.ok
    ensures var s := Run(EMPTY, events); c in s.calls ==> !s.calls[c].pc.Failed?
  {
    if events != [] {
      var front, e := events[..|events| - 1], events[|events| - 1];
      assert e in events && forall x <- front :: x in events;
      SuccessNeverFails(front, c);
      StepMovesOne(Run(EMPTY, front), e, c);
    }
  }

  /** Some number of successful steps of one call, nobody else moving. */
  ghost function Alone(s: Store, c: nat, n: nat): Store {
    if n == 0 then s else Step(Alone(s, c, n - 1), Advance(c, true))
  }

  /** The call waits for the outcome of another's insert of the same identity. */
  ghost predicate Waits(s: Store, c: nat) {
    c in s.calls && exists d :: d != c && Inserting(s, d, s.calls[c].id)
  }

  lemma OneStepOn(s: Store, c: nat)
    requires c in s.calls && CallsAgree(s) && OneInserter(s)
    ensures var t, id := Step(s, Advance(c, true)), s.calls[c].id;
            c in t.calls && t.calls[c].id == id && t.calls.Keys == s.calls.Keys &&
            (forall d :: d in s.calls && d != c ==> t.calls[d] == s.calls[d]) &&
            (if s.calls[c].pc.Looking? then
               t.identities == s.identities &&
               t.calls[c].pc == if id in s.identities then Resolved(s.identities[id], false) else Unknown
             else if s.calls[c].pc.Unknown? then
               t.identities == s.identities && t.calls[c].pc == AccountInserted(s.nextAccount)
             else if s.calls[c].pc.AccountInserted? && !Waits(s, c) then
               t.identities == s.identities &&
               t.calls[c].pc == if id in s.identities then Conflicted else IdentityInserted(s.calls[c].pc.account)
             else if s.calls[c].pc.IdentityInserted? then
               t.calls[c].pc == Resolved(s.calls[c].pc.account, true)
             else if s.calls[c].pc.Conflicted? then
               t.identities == s.identities && id in s.identities && t.calls[c].pc == Resolved(s.identities[id], false)
             else s.calls[c].pc.AccountInserted? || t == s)
  {
    var id := s.calls[c].id;
    assert forall d :: d in s.calls && s.calls[d].id == id && s.calls[d].pc.IdentityInserted? <==> Inserting(s, d, id);
  }

  /** How many steps a call is from its answer, at most. */
  function Distance(pc: Pc): nat {
    match pc
    case Looking => 4
    case Unknown => 3
    case AccountInserted(_) => 2
    case IdentityInserted(_) => 1
    case Conflicted => 1
    case _ => 0
  }

  /** The answer in store for a call: the committed account, not provisioned by it, if there is one; else one
      that it provisions itself. */
  ghost predicate Answer(s: Store, id: Identity, pc: Pc) {
    pc.Resolved? && if id in s.identities then pc == Resolved(s.identities[id], false) else pc.provisioned
  }

  ghost predicate Open(pc: Pc) {
    pc.Looking? || pc.Unknown? || pc.AccountInserted? || pc.IdentityInserted? || pc.Conflicted?
  }

  lemma StepKeepsInv(s: Store, e: Event)
    requires Inv(s)
    ensures Inv(Step(s, e))
  {
    StepKeepsInserter(s, e);
    StepKeepsAgreement(s, e);
    StepKeepsProvisioner(s, e);
    StepKeepsAccounts(s, e);
    StepKeepsBijection(s, e);
  }

  /** A step of an open call that waits for nobody brings it closer, and waits for nobody still. */
  lemma StepsCloser(s: Store, c: nat)
    requires Inv(s) && c in s.calls && Open(s.calls[c].pc) && !Waits(s, c)
    ensures var t := Step(s, Advance(c, true));
            Inv(t) && c in t.calls && t.calls[c].id == s.calls[c].id && !Waits(t, c) &&
            (if Open(t.calls[c].pc) then
               t.identities == s.identities && Distance(t.calls[c].pc) < Distance(s.calls[c].pc)
             else Answer(s, s.calls[c].id, t.calls[c].pc))
  {
    var t, id := Step(s, Advance(c, true)), s.calls[c].id;
    StepKeepsInv(s, Advance(c, true));
    OneStepOn(s, c);
    assert s.calls[c].pc.IdentityInserted? ==> Inserting(s, c, id);
    forall d | d != c && Inserting(t, d, id) ensures Inserting(s, d, id) {}
    hide AccountsFresh, CallsAgree, OneProvisioner, Bijective, Step;
  }

  lemma {:induction false} ResolvesIn(s: Store, c: nat, n: nat)
    requires Inv(s) && c in s.calls && Open(s.calls[c].pc) && !Waits(s, c) && n >= Distance(s.calls[c].pc)
    ensures var t := Alone(s, c, n); c in t.calls && Answer(s, s.calls[c].id, t.calls[c].pc)
    decreases n
  {
    StepsCloser(s, c);
    var t := Step(s, Advance(c, true));
    AloneFirst(s, c, n);
    hide Inv, Step, Waits, Alone;
    if Open(t.calls[c].pc) {
      ResolvesIn(t, c, n - 1);
    } else {
      ResolvedStays(t, c, n - 1);
    }
  }

  lemma {:induction false} AloneFirst(s: Store, c: nat, n: nat)
    requires n > 0
    ensures Alone(s, c, n) == Alone(Step(s, Advance(c, true)), c, n - 1)
  {
    if n > 1 { AloneFirst(s, c, n - 1); }
  }

  lemma {:induction false} ResolvedStays(s: Store, c: nat, n: nat)
    requires c in s.calls && s.calls[c].pc.Resolved?
    ensures Alone(s, c, n) == s
  {
    if n > 0 { ResolvedStays(s, c, n - 1); }
  }

  /** From any reachable state, a call that has neither answered nor failed and waits for nobody has its answer
      after four steps of its own: the account committed for its identity, not provisioned by it, and if
      none was committed, one it has provisioned. The loser of a race so adopts the winner's account. */
  lemma AnsweredInFour(events: seq<Event>, c: nat)
    requires var s := Run(EMPTY, events);
             c in s.calls && !s.calls[c].pc.Failed? && !s.calls[c].pc.Resolved? && !Waits(s, c)
    ensures var s, t := Run(EMPTY, events), Alone(Run(EMPTY, events), c, 4);
            var id := s.calls[c].id;
            c in t.calls && t.calls[c].pc.Resolved? &&
            (id in s.identities ==> t.calls[c].pc == Resolved(s.identities[id], false)) &&
            (id !in s.identities ==> t.calls[c].pc.provisioned)
  {
    AlwaysElectsOne(events);
    var s := Run(EMPTY, events);
    assert s.calls[c].pc != Vanished;
    hide Inv, Waits;
    ResolvesIn(s, c, 4);
  }
}
