/** What the ledger keeps in every reachable state, over any order of its transactions. */
module LedgerLaws {
  import opened Common
  import opened Ledger

  datatype Op =
    | Init(account: nat)
    | Register(account: nat, grant: real)
    | AddCredits(account: nat, amount: real)
    | Reserve(account: nat, amount: real, now: real)
    | Settle(hold: nat, actual: real, now: real)
    | Release(hold: nat, now: real)
    | Cleanup(cutoff: real)
    | Reset(account: nat, grant: real, month: int)

  function Step(l: Ledger, op: Op): Ledger {
    match op
    case Init(account) => InitSpec(l, account)
    case Register(account, grant) => RegisterSpec(l, account, grant)
    case AddCredits(account, amount) => AddCreditsSpec(l, account, amount).0
    case Reserve(account, amount, now) => ReserveSpec(l, account, amount, now).0
    case Settle(hold, actual, now) => SettleSpec(l, hold, actual, now).0
    case Release(hold, now) => ReleaseSpec(l, hold, now)
    case Cleanup(cutoff) => CleanupSpec(l, cutoff)
    case Reset(account, grant, month) => ResetSpec(l, account, grant, month).0
  }

  function Run(l: Ledger, ops: seq<Op>): Ledger
    decreases |ops|
  {
    if ops == [] then l else Run(Step(l, ops[0]), ops[1..])
  }

  function BalanceOf(l: Ledger, a: nat): real {
    if a in l.balances then l.balances[a].balance else 0.0
  }

  function ReservedOf(l: Ledger, a: nat): real {
    if a in l.balances then l.balances[a].reserved else 0.0
  }

  function PendingAmount(h: Option<Hold>, a: nat): real {
    if h.Some? && h.value.status == Pending && h.value.account == a then h.value.amount else 0.0
  }

  function SumPending(holds: seq<Option<Hold>>, a: nat): real {
    if holds == [] then 0.0
    else SumPending(holds[..|holds| - 1], a) + PendingAmount(holds[|holds| - 1], a)
  }

  /** The balance the audit trail tells: grants and usage add, a monthly allowance sets. */
  function Replay(txns: seq<Txn>, a: nat): real {
    if txns == [] then 0.0
    else
      var t, before := txns[|txns| - 1], Replay(txns[..|txns| - 1], a);
      if t.account != a then before else if t.kind.MonthlyAllowance? then t.amount else before + t.amount
  }

  /** Every stored hold is on an account with a balance. */
  ghost predicate Owned(l: Ledger) {
    forall i :: 0 <= i < |l.holds| && l.holds[i].Some? ==> l.holds[i].value.account in l.balances
  }

  ghost predicate Reserves(l: Ledger) {
    (forall a :: ReservedOf(l, a) == SumPending(l.holds, a)) && Owned(l)
  }

  ghost predicate Replays(l: Ledger) {
    && (forall a :: BalanceOf(l, a) == Replay(l.txns, a))
    && (forall i :: 0 <= i < |l.txns| ==> l.txns[i].balanceAfter == Replay(l.txns[..i + 1], l.txns[i].account))
  }

  lemma SumAppend(holds: seq<Option<Hold>>, h: Option<Hold>, a: nat)
    ensures SumPending(holds + [h], a) == SumPending(holds, a) + PendingAmount(h, a)
  {
    assert (holds + [h])[..|holds|] == holds;
  }

  lemma {:induction false} SumUpdate(holds: seq<Option<Hold>>, i: nat, h: Option<Hold>, a: nat)
    requires i < |holds|
    ensures SumPending(holds[i := h], a) == SumPending(holds, a) - PendingAmount(holds[i], a) + PendingAmount(h, a)
  {
    var n := |holds| - 1;
    if i == n {
      assert holds[i := h][..n] == holds[..n];
    } else {
      assert holds[i := h][..n] == holds[..n][i := h];
      SumUpdate(holds[..n], i, h, a);
    }
  }

  lemma {:induction false} SumUnmoved(before: seq<Option<Hold>>, after: seq<Option<Hold>>, a: nat)
    requires |before| == |after|
    requires forall i :: 0 <= i < |before| ==> PendingAmount(before[i], a) == PendingAmount(after[i], a)
    ensures SumPending(before, a) == SumPending(after, a)
  {
    if before != [] {
      SumUnmoved(before[..|before| - 1], after[..|after| - 1], a);
    }
  }

  /** Closing a pending hold takes its amount out of its account's sum. */
  lemma ClosingFrees(l: Ledger, hold: nat, status: HoldStatus, now: real, a: nat)
    requires IsPending(l.holds, hold) && status != Pending
    ensures SumPending(Closed(l, hold, status, now), a) ==
            SumPending(l.holds, a) - if l.holds[hold].value.account == a then l.holds[hold].value.amount else 0.0
  {
    SumUpdate(l.holds, hold, Some(l.holds[hold].value.(status := status, settledAt := Some(now))), a);
  }

  lemma ReserveAdds(l: Ledger, account: nat, amount: real, now: real, a: nat)
    ensures var m := ReserveSpec(l, account, amount, now).0;
            SumPending(m.holds, a) - SumPending(l.holds, a) == ReservedOf(m, a) - ReservedOf(l, a)
  {
    SumAppend(l.holds, Some(Hold(account, amount, Pending, now, None)), a);
    hide SumPending;
  }

  lemma CleanupKeepsSum(l: Ledger, cutoff: real, a: nat)
    ensures SumPending(CleanupSpec(l, cutoff).holds, a) == SumPending(l.holds, a)
  {
    SumUnmoved(l.holds, CleanupSpec(l, cutoff).holds, a);
  }

  lemma StepKeepsOwned(l: Ledger, op: Op)
    requires Owned(l)
    ensures Owned(Step(l, op))
  {}

  lemma StepKeepsSum(l: Ledger, op: Op, a: nat)
    requires Owned(l) && ReservedOf(l, a) == SumPending(l.holds, a)
    ensures ReservedOf(Step(l, op), a) == SumPending(Step(l, op).holds, a)
  {
    match op
    case Reserve(account, amount, now) =>
      ReserveAdds(l, account, amount, now, a);
    case Settle(hold, _, now) =>
      if IsPending(l.holds, hold) { ClosingFrees(l, hold, Settled, now, a); }
    case Release(hold, now) =>
      if IsPending(l.holds, hold) { ClosingFrees(l, hold, Released, now, a); }
    case Cleanup(cutoff) =>
      CleanupKeepsSum(l, cutoff, a);
    case _ =>
  }

  lemma StepKeepsReserves(l: Ledger, op: Op)
    requires Reserves(l)
    ensures Reserves(Step(l, op))
  {
    hide Step, SumPending;
    StepKeepsOwned(l, op);
    forall a ensures ReservedOf(Step(l, op), a) == SumPending(Step(l, op).holds, a) {
      StepKeepsSum(l, op, a);
    }
  }

  lemma ReplayAppend(txns: seq<Txn>, t: Txn, a: nat)
    ensures Replay(txns + [t], a) ==
            if t.account != a then Replay(txns, a)
            else if t.kind.MonthlyAllowance? then t.amount else Replay(txns, a) + t.amount
  {
    assert (txns + [t])[..|txns|] == txns;
  }

  /** A transaction appends at most one entry, which records what it does to its account's balance. */
  lemma StepRecords(l: Ledger, op: Op)
    ensures var m := Step(l, op);
            if m.txns == l.txns then forall a :: BalanceOf(m, a) == BalanceOf(l, a)
            else
              |m.txns| == |l.txns| + 1 &&
              var t := m.txns[|l.txns|];
              m.txns == l.txns + [t] && t.balanceAfter == BalanceOf(m, t.account) &&
              forall a :: BalanceOf(m, a) ==
                if t.account != a then BalanceOf(l, a)
                else if t.kind.MonthlyAllowance? then t.amount else BalanceOf(l, a) + t.amount
  {}

  lemma AppendKeepsReplays(l: Ledger, m: Ledger, t: Txn)
    requires Replays(l) && m.txns == l.txns + [t] && forall a :: BalanceOf(m, a) == Replay(m.txns, a)
    requires t.balanceAfter == BalanceOf(m, t.account)
    ensures Replays(m)
  {
    forall i | 0 <= i < |m.txns| ensures m.txns[i].balanceAfter == Replay(m.txns[..i + 1], m.txns[i].account) {
      if i < |l.txns| {
        assert m.txns[..i + 1] == l.txns[..i + 1];
      } else {
        assert m.txns[..i + 1] == m.txns;
      }
    }
  }

  lemma StepKeepsReplays(l: Ledger, op: Op)
    requires Replays(l)
    ensures Replays(Step(l, op))
  {
    hide Step, BalanceOf, Replay;
    var m := Step(l, op);
    StepRecords(l, op);
    if m.txns != l.txns {
      var t := m.txns[|l.txns|];
      forall a ensures BalanceOf(m, a) == Replay(m.txns, a) {
        ReplayAppend(l.txns, t, a);
      }
      AppendKeepsReplays(l, m, t);
    }
  }

  lemma {:induction false} RunKeepsBooks(l: Ledger, ops: seq<Op>)
    requires Reserves(l) && Replays(l)
    ensures Reserves(Run(l, ops)) && Replays(Run(l, ops))
    decreases |ops|
  {
    if ops != [] {
      StepKeepsReserves(l, ops[0]);
      StepKeepsReplays(l, ops[0]);
      RunKeepsBooks(Step(l, ops[0]), ops[1..]);
    }
  }

  /** In every reachable state each account's reserved is the sum of its pending holds, and
      replaying the audit trail yields every recorded balance and the current one. */
  lemma BooksBalance(ops: seq<Op>)
    ensures Reserves(Run(EMPTY, ops)) && Replays(Run(EMPTY, ops))
  {
    RunKeepsBooks(EMPTY, ops);
  }

  // ---- Sweeping ---------------------------------------------------------------------------

  lemma {:induction false} ReleaseAllReleases(l: Ledger, ids: seq<nat>, now: real)
    requires Reserves(l)
    ensures var m := ReleaseAll(l, ids, now);
            |m.holds| == |l.holds| && Reserves(m) &&
            forall i :: 0 <= i < |l.holds| ==>
              m.holds[i] == if i in ids && IsPending(l.holds, i) then Closed(l, i, Released, now)[i] else l.holds[i]
  {
    if ids != [] {
      var front, id := ids[..|ids| - 1], ids[|ids| - 1];
      assert ids == front + [id];
      ReleaseAllReleases(l, front, now);
      StepKeepsReserves(ReleaseAll(l, front, now), Release(id, now));
    }
  }

  /** A sweep leaves no pending hold older than its cutoff, touches no other hold, and keeps the
      books. */
  lemma SweepClears(l: Ledger, cutoff: real, now: real)
    requires Reserves(l)
    ensures var m := ReleaseAll(l, StaleIds(l.holds, cutoff), now);
            |m.holds| == |l.holds| && Reserves(m) &&
            forall i :: 0 <= i < |l.holds| ==>
              match l.holds[i]
              case None => m.holds[i] == None
              case Some(h) =>
                m.holds[i] ==
                Some(if h.status == Pending && h.createdAt < cutoff
                     then h.(status := Released, settledAt := Some(now)) else h)
  {
    ReleaseAllReleases(l, StaleIds(l.holds, cutoff), now);
  }

  // ---- Monthly resets -----------------------------------------------------------------------

  /** The allowances recorded for one account carry ever later months, the last one at most the
      account's period. */
  ghost predicate ResetsAscend(l: Ledger) {
    && (forall i :: 0 <= i < |l.txns| && l.txns[i].kind.MonthlyAllowance? ==>
          var a := l.txns[i].account;
          a in l.balances && l.balances[a].period.Some? && l.txns[i].kind.month <= l.balances[a].period.value)
    && (forall i, j ::
          (0 <= i < j < |l.txns| && l.txns[i].kind.MonthlyAllowance? && l.txns[j].kind.MonthlyAllowance? &&
           l.txns[i].account == l.txns[j].account) ==> l.txns[i].kind.month < l.txns[j].kind.month)
  }

  lemma StepKeepsResetsAscending(l: Ledger, op: Op)
    requires ResetsAscend(l)
    ensures ResetsAscend(Step(l, op))
  {
    var m := Step(l, op);
    assert forall i :: 0 <= i < |l.txns| ==> m.txns[i] == l.txns[i];
  }

  /** Whatever order the clock readings arrive in, the resets of one account carry strictly
      increasing months. */
  lemma {:induction false} ResetMonthsIncrease(l: Ledger, ops: seq<Op>)
    requires ResetsAscend(l)
    ensures ResetsAscend(Run(l, ops))
    decreases |ops|
  {
    if ops != [] {
      StepKeepsResetsAscending(l, ops[0]);
      ResetMonthsIncrease(Step(l, ops[0]), ops[1..]);
    }
  }

  // ---- The monthly spend cap -------------------------------------------------------------------

  predicate Settles(l: Ledger, op: Op, a: nat) {
    op.Settle? && IsPending(l.holds, op.hold) && l.holds[op.hold].value.account == a && a in l.balances
  }

  function Charge(l: Ledger, op: Op, a: nat): real {
    if Settles(l, op, a) then op.actual else 0.0
  }

  /** What a settlement charges above its hold. */
  function Overrun(l: Ledger, op: Op, a: nat): real {
    if Settles(l, op, a) then Max(0.0, op.actual - l.holds[op.hold].value.amount) else 0.0
  }

  function TopUp(l: Ledger, op: Op, a: nat): real {
    if op.AddCredits? && op.account == a && a in l.balances then Max(0.0, op.amount) else 0.0
  }

  function Charges(l: Ledger, ops: seq<Op>, a: nat): real
    decreases |ops|
  {
    if ops == [] then 0.0 else Charge(l, ops[0], a) + Charges(Step(l, ops[0]), ops[1..], a)
  }

  function Overruns(l: Ledger, ops: seq<Op>, a: nat): real
    decreases |ops|
  {
    if ops == [] then 0.0 else Overrun(l, ops[0], a) + Overruns(Step(l, ops[0]), ops[1..], a)
  }

  function TopUps(l: Ledger, ops: seq<Op>, a: nat): real
    decreases |ops|
  {
    if ops == [] then 0.0 else TopUp(l, ops[0], a) + TopUps(Step(l, ops[0]), ops[1..], a)
  }

  /** No operation of the run resets the account. */
  ghost predicate NoReset(l: Ledger, ops: seq<Op>, a: nat)
    decreases |ops|
  {
    ops == [] ||
    ((ops[0].Reset? && ops[0].account == a ==> !ResetSpec(l, a, ops[0].grant, ops[0].month).1) &&
     NoReset(Step(l, ops[0]), ops[1..], a))
  }

  ghost predicate HoldsNonNegative(l: Ledger) {
    forall i :: 0 <= i < |l.holds| && l.holds[i].Some? ==> l.holds[i].value.amount >= 0.0
  }

  ghost predicate ReservesNonNegative(ops: seq<Op>) {
    forall i :: 0 <= i < |ops| && ops[i].Reserve? ==> ops[i].amount >= 0.0
  }

  lemma {:induction false} SumNonNegative(holds: seq<Option<Hold>>, a: nat)
    requires forall i :: 0 <= i < |holds| && holds[i].Some? ==> holds[i].value.amount >= 0.0
    ensures SumPending(holds, a) >= 0.0
  {
    if holds != [] {
      SumNonNegative(holds[..|holds| - 1], a);
    }
  }

  /** What the account can still be made to pay without a top-up or an overrun. */
  function Exposure(l: Ledger, a: nat): real {
    Max(BalanceOf(l, a), ReservedOf(l, a))
  }

  lemma ExposurePays(l: Ledger, op: Op, a: nat)
    requires HoldsNonNegative(l) && (op.Reserve? ==> op.amount >= 0.0) && a in l.balances
    requires op.Reset? && op.account == a ==> !ResetSpec(l, a, op.grant, op.month).1
    ensures Charge(l, op, a) + Exposure(Step(l, op), a) <= Exposure(l, a) + TopUp(l, op, a) + Overrun(l, op, a)
    ensures HoldsNonNegative(Step(l, op)) && a in Step(l, op).balances
  {}

  lemma {:induction false} ChargesCovered(l: Ledger, ops: seq<Op>, a: nat)
    requires Reserves(l) && HoldsNonNegative(l) && ReservesNonNegative(ops) && NoReset(l, ops, a) && a in l.balances
    ensures Charges(l, ops, a) <= Exposure(l, a) + TopUps(l, ops, a) + Overruns(l, ops, a)
    decreases |ops|
  {
    if ops == [] {
      SumNonNegative(l.holds, a);
    } else {
      ExposurePays(l, ops[0], a);
      StepKeepsReserves(l, ops[0]);
      ChargesCovered(Step(l, ops[0]), ops[1..], a);
    }
  }

  lemma {:induction false} RunKeepsHoldsNonNegative(l: Ledger, ops: seq<Op>)
    requires HoldsNonNegative(l) && ReservesNonNegative(ops)
    ensures HoldsNonNegative(Run(l, ops))
    decreases |ops|
  {
    if ops != [] {
      RunKeepsHoldsNonNegative(Step(l, ops[0]), ops[1..]);
    }
  }

  /** After any history and a monthly reset, and until the next reset, an account is charged no
      more than the grant or the holds pending at the reset, whichever is larger, plus its positive
      top-ups plus what settlements ran over their holds. */
  lemma MonthlySpendCapped(history: seq<Op>, a: nat, grant: real, month: int, ops: seq<Op>)
    requires ReservesNonNegative(history) && ReservesNonNegative(ops) && grant >= 0.0
    requires ResetSpec(Run(EMPTY, history), a, grant, month).1
    requires NoReset(ResetSpec(Run(EMPTY, history), a, grant, month).0, ops, a)
    ensures var l := ResetSpec(Run(EMPTY, history), a, grant, month).0;
            var pending := SumPending(l.holds, a);
            Charges(l, ops, a) <= Max(grant, pending) + TopUps(l, ops, a) + Overruns(l, ops, a) &&
            Charges(l, ops, a) <= grant + pending + TopUps(l, ops, a) + Overruns(l, ops, a)
  {
    var l0 := Run(EMPTY, history);
    RunKeepsBooks(EMPTY, history);
    RunKeepsHoldsNonNegative(EMPTY, history);
    StepKeepsReserves(l0, Reset(a, grant, month));
    var l := Step(l0, Reset(a, grant, month));
    SumNonNegative(l.holds, a);
    ChargesCovered(l, ops, a);
  }

  /** Every settlement of the run stays within its hold. */
  ghost predicate WithinHolds(l: Ledger, ops: seq<Op>, a: nat)
    decreases |ops|
  {
    ops == [] ||
    ((Settles(l, ops[0], a) ==> ops[0].actual <= l.holds[ops[0].hold].value.amount) &&
     WithinHolds(Step(l, ops[0]), ops[1..], a))
  }

  lemma {:induction false} NoOverrunWithinHolds(l: Ledger, ops: seq<Op>, a: nat)
    requires WithinHolds(l, ops, a)
    ensures Overruns(l, ops, a) == 0.0
    decreases |ops|
  {
    if ops != [] {
      NoOverrunWithinHolds(Step(l, ops[0]), ops[1..], a);
    }
  }

  // ---- What each transaction does to what an account can see -------------------------------------

  /** Nothing of any other account changes. */
  ghost predicate OthersKept(l: Ledger, m: Ledger, a: nat) {
    forall x :: x != a ==>
      (x in m.balances <==> x in l.balances) && BalanceOf(m, x) == BalanceOf(l, x) &&
      ReservedOf(m, x) == ReservedOf(l, x)
  }

  /** A pending hold is charged what was asked, no more and no less, and gives back its reservation; any
      other hold id is charged nothing. */
  lemma SettleCharges(l: Ledger, hold: nat, actual: real, now: real)
    requires Reserves(l)
    ensures var (m, charged) := SettleSpec(l, hold, actual, now);
            |m.holds| == |l.holds| && (forall i :: 0 <= i < |l.holds| && i != hold ==> m.holds[i] == l.holds[i]) &&
            if hold < |l.holds| && l.holds[hold].Some? && l.holds[hold].value.status == Pending then
              var h := l.holds[hold].value;
              charged == actual && BalanceOf(m, h.account) == BalanceOf(l, h.account) - actual &&
              ReservedOf(m, h.account) == ReservedOf(l, h.account) - h.amount && OthersKept(l, m, h.account) &&
              m.holds[hold] == Some(h.(status := Settled, settledAt := Some(now)))
            else charged == 0.0 && m == l
  {}

  lemma ReleaseFrees(l: Ledger, hold: nat, now: real)
    requires Reserves(l)
    ensures var m := ReleaseSpec(l, hold, now);
            m.txns == l.txns && |m.holds| == |l.holds| &&
            (forall i :: 0 <= i < |l.holds| && i != hold ==> m.holds[i] == l.holds[i]) &&
            (forall x :: BalanceOf(m, x) == BalanceOf(l, x)) &&
            if hold < |l.holds| && l.holds[hold].Some? && l.holds[hold].value.status == Pending then
              var h := l.holds[hold].value;
              ReservedOf(m, h.account) == ReservedOf(l, h.account) - h.amount && OthersKept(l, m, h.account) &&
              m.holds[hold] == Some(h.(status := Released, settledAt := Some(now)))
            else m == l
  {}

  /** A reservation is made exactly if the balance covers it beside the account's pending holds. */
  lemma ReserveCovers(l: Ledger, a: nat, amount: real, now: real)
    requires Reserves(l)
    ensures var (m, hold) := ReserveSpec(l, a, amount, now);
            (hold.Some? <==> a in l.balances && SumPending(l.holds, a) + amount <= BalanceOf(l, a)) &&
            (hold.None? ==> m == l) &&
            (hold.Some? ==>
               hold.value == |l.holds| && m.holds == l.holds + [Some(Hold(a, amount, Pending, now, None))] &&
               m.txns == l.txns && OthersKept(l, m, a) && BalanceOf(m, a) == BalanceOf(l, a) &&
               ReservedOf(m, a) == ReservedOf(l, a) + amount)
  {
    assert ReservedOf(l, a) == SumPending(l.holds, a);
  }

  /** The first activity of a later month, and no other, sets the balance to the grant. */
  lemma ResetSets(l: Ledger, a: nat, grant: real, month: int)
    ensures var (m, granted) := ResetSpec(l, a, grant, month);
            (granted <==> a in l.balances && (l.balances[a].period.None? || l.balances[a].period.value < month)) &&
            m.holds == l.holds && ReservedOf(m, a) == ReservedOf(l, a) && OthersKept(l, m, a) &&
            if granted then BalanceOf(m, a) == grant && a in m.balances && m.balances[a].period == Some(month)
            else m == l
  {}

  /** A new account starts at its token's grant, if that is positive, with nothing reserved. */
  lemma RegistrationGrants(l: Ledger, a: nat, grant: real)
    requires a !in l.balances
    ensures var m := RegisterSpec(l, a, grant);
            a in m.balances && m.balances[a] == Balance(Max(grant, 0.0), 0.0, None) && OthersKept(l, m, a) &&
            m.holds == l.holds && |m.txns| == |l.txns| + (if grant > 0.0 then 1 else 0)
  {}

  /** Cleanup deletes the closed holds settled before the cutoff, and nothing else. */
  lemma CleanupDeletes(l: Ledger, cutoff: real, i: nat)
    requires i < |l.holds|
    ensures var m := CleanupSpec(l, cutoff);
            m.balances == l.balances && m.txns == l.txns && |m.holds| == |l.holds| &&
            match l.holds[i]
            case None => m.holds[i] == None
            case Some(h) =>
              if h.status == Pending || h.settledAt.None? || h.settledAt.value >= cutoff then m.holds[i] == Some(h)
              else m.holds[i] == None
  {}

  // ---- The balance equation ----------------------------------------------------------------------

  function Credited(l: Ledger, op: Op, a: nat): real {
    if op.AddCredits? && op.account == a && a in l.balances then op.amount else 0.0
  }

  /** The amounts of the AddCredits calls on an account. */
  function Credits(l: Ledger, ops: seq<Op>, a: nat): real
    decreases |ops|
  {
    if ops == [] then 0.0 else Credited(l, ops[0], a) + Credits(Step(l, ops[0]), ops[1..], a)
  }

  lemma BalanceMoves(l: Ledger, op: Op, a: nat)
    requires a in l.balances && (op.Reset? && op.account == a ==> !ResetSpec(l, a, op.grant, op.month).1)
    ensures a in Step(l, op).balances
    ensures BalanceOf(Step(l, op), a) == BalanceOf(l, a) + Credited(l, op, a) - Charge(l, op, a)
  {}

  /** Between resets, a balance is what it was plus what was credited less what settlements asked for: holds,
      releases, sweeps and cleanups never move it. */
  lemma {:induction false} BalanceEquation(l: Ledger, ops: seq<Op>, a: nat)
    requires a in l.balances && NoReset(l, ops, a)
    ensures BalanceOf(Run(l, ops), a) == BalanceOf(l, a) + Credits(l, ops, a) - Charges(l, ops, a)
    decreases |ops|
  {
    if ops != [] {
      BalanceMoves(l, ops[0], a);
      BalanceEquation(Step(l, ops[0]), ops[1..], a);
    }
  }
}
