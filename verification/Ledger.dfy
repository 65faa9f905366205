/** The credit ledger: balances, holds and the audit trail.  Every store transaction is one
    atomic step; amounts are exact numbers. */
module Ledger {
  import opened Common

  datatype HoldStatus = Pending | Settled | Released

  datatype Hold = Hold(account: nat, amount: real, status: HoldStatus, createdAt: real, settledAt: Option<real>)

  /** `reserved` is what pending holds have set aside; `period` is the month last granted. */
  datatype Balance = Balance(balance: real, reserved: real, period: Option<int>)

  datatype Kind = Grant | Usage(hold: nat) | MonthlyAllowance(month: int)

  datatype Txn = Txn(account: nat, amount: real, balanceAfter: real, kind: Kind)

  /** A hold's id is its index, so ids are never reused; `None` is a row that cleanup deleted. */
  datatype Ledger = Ledger(balances: map<nat, Balance>, holds: seq<Option<Hold>>, txns: seq<Txn>)

  const EMPTY := Ledger(map[], [], [])

  predicate IsPending(holds: seq<Option<Hold>>, id: nat) {
    id < |holds| && holds[id].Some? && holds[id].value.status == Pending
  }

  function InitSpec(l: Ledger, account: nat): Ledger {
    if account in l.balances then l
    else l.(balances := l.balances[account := Balance(0.0, 0.0, None)])
  }

  /** A new service account with the grant its registration token carries. */
  function RegisterSpec(l: Ledger, account: nat, grant: real): Ledger {
    if account in l.balances then l
    else if grant > 0.0 then
      l.(balances := l.balances[account := Balance(grant, 0.0, None)],
         txns := l.txns + [Txn(account, grant, grant, Grant)])
    else InitSpec(l, account)
  }

  function AddCreditsSpec(l: Ledger, account: nat, amount: real): (Ledger, bool) {
    if account !in l.balances then (l, false)
    else
      var b := l.balances[account];
      var after := b.balance + amount;
      (l.(balances := l.balances[account := b.(balance := after)],
          txns := l.txns + [Txn(account, amount, after, Grant)]), true)
  }

  function ReserveSpec(l: Ledger, account: nat, amount: real, now: real): (Ledger, Option<nat>) {
    if account !in l.balances then (l, None)
    else
      var b := l.balances[account];
      if b.balance - b.reserved < amount then (l, None)
      else
        (l.(balances := l.balances[account := b.(reserved := b.reserved + amount)],
            holds := l.holds + [Some(Hold(account, amount, Pending, now, None))]), Some(|l.holds|))
  }

  function Closed(l: Ledger, hold: nat, status: HoldStatus, now: real): seq<Option<Hold>>
    requires IsPending(l.holds, hold)
  {
    l.holds[hold := Some(l.holds[hold].value.(status := status, settledAt := Some(now)))]
  }

  /** Charges a pending hold and reports the charge; a hold no longer pending is charged nothing. */
  function SettleSpec(l: Ledger, hold: nat, actual: real, now: real): (Ledger, real) {
    if !IsPending(l.holds, hold) || l.holds[hold].value.account !in l.balances then (l, 0.0)
    else
      var h := l.holds[hold].value;
      var b := l.balances[h.account];
      var after := b.balance - actual;
      (Ledger(l.balances[h.account := b.(balance := after, reserved := b.reserved - h.amount)],
              Closed(l, hold, Settled, now),
              l.txns + [Txn(h.account, -actual, after, Usage(hold))]), actual)
  }

  function ReleaseSpec(l: Ledger, hold: nat, now: real): Ledger {
    if !IsPending(l.holds, hold) || l.holds[hold].value.account !in l.balances then l
    else
      var h := l.holds[hold].value;
      var b := l.balances[h.account];
      l.(balances := l.balances[h.account := b.(reserved := b.reserved - h.amount)],
         holds := Closed(l, hold, Released, now))
  }

  function ReleaseAll(l: Ledger, ids: seq<nat>, now: real): Ledger {
    if ids == [] then l
    else ReleaseSpec(ReleaseAll(l, ids[..|ids| - 1], now), ids[|ids| - 1], now)
  }

  predicate Stale(h: Option<Hold>, cutoff: real) {
    h.Some? && h.value.status == Pending && h.value.createdAt < cutoff
  }

  function StaleIds(holds: seq<Option<Hold>>, cutoff: real): (ids: seq<nat>)
    ensures forall i :: i in ids <==> 0 <= i < |holds| && Stale(holds[i], cutoff)
  {
    if holds == [] then []
    else
      var n := |holds| - 1;
      StaleIds(holds[..n], cutoff) + if Stale(holds[n], cutoff) then [n] else []
  }

  predicate Expired(h: Option<Hold>, cutoff: real) {
    h.Some? && h.value.status != Pending && h.value.settledAt.Some? && h.value.settledAt.value < cutoff
  }

  function CleanupSpec(l: Ledger, cutoff: real): Ledger {
    var n := |l.holds|;
    l.(holds := seq(n, i requires 0 <= i < n => if Expired(l.holds[i], cutoff) then None else l.holds[i]))
  }

  /** The first activity of a later month sets the balance to the grant; holds are untouched. */
  function ResetSpec(l: Ledger, account: nat, grant: real, month: int): (Ledger, bool) {
    if account !in l.balances then (l, false)
    else
      var b := l.balances[account];
      if b.period.Some? && b.period.value >= month then (l, false)
      else
        (l.(balances := l.balances[account := b.(balance := grant, period := Some(month))],
            txns := l.txns + [Txn(account, grant, grant, MonthlyAllowance(month))]), true)
  }

  class CreditStore {
    var balances: map<nat, Balance>
    var holds: seq<Option<Hold>>
    var txns: seq<Txn>

    ghost function View(): Ledger
      reads this
    {
      Ledger(balances, holds, txns)
    }

    constructor ()
      ensures View() == EMPTY
    {
      balances, holds, txns := map[], [], [];
    }

    method InitCreditBalance(account: nat)
      modifies this
      ensures View() == InitSpec(old(View()), account)
    {
      if account !in balances {
        balances := balances[account := Balance(0.0, 0.0, None)];
      }
    }

    method GrantOnRegistration(account: nat, grant: real)
      requires account !in balances
      modifies this
      ensures View() == RegisterSpec(old(View()), account, grant)
    {
      balances := balances[account := Balance(0.0, 0.0, None)];
      if grant > 0.0 {
        balances := balances[account := balances[account].(balance := grant)];
        txns := txns + [Txn(account, grant, grant, Grant)];
      }
    }

    method AddCredits(account: nat, amount: real) returns (ok: bool)
      modifies this
      ensures (View(), ok) == AddCreditsSpec(old(View()), account, amount)
    {
      if account !in balances {
        return false;
      }
      var newBalance := balances[account].balance + amount;
      balances := balances[account := balances[account].(balance := newBalance)];
      txns := txns + [Txn(account, amount, newBalance, Grant)];
      return true;
    }

    method ReserveCredits(account: nat, amount: real, now: real) returns (hold: Option<nat>)
      modifies this
      ensures (View(), hold) == ReserveSpec(old(View()), account, amount, now)
    {
      if account !in balances {
        return None;
      }
      var available := balances[account].balance - balances[account].reserved;
      if available < amount {
        return None;
      }
      hold := Some(|holds|);
      holds := holds + [Some(Hold(account, amount, Pending, now, None))];
      balances := balances[account := balances[account].(reserved := balances[account].reserved + amount)];
    }

    method SettleHold(hold: nat, actual: real, now: real) returns (charged: real)
      modifies this
      ensures (View(), charged) == SettleSpec(old(View()), hold, actual, now)
    {
      if !IsPending(holds, hold) {
        return 0.0;
      }
      var h := holds[hold].value;
      if h.account !in balances {
        return 0.0;
      }
      holds := holds[hold := Some(h.(status := Settled, settledAt := Some(now)))];
      var b := balances[h.account];
      balances := balances[h.account := b.(balance := b.balance - actual, reserved := b.reserved - h.amount)];
      txns := txns + [Txn(h.account, -actual, b.balance - actual, Usage(hold))];
      return actual;
    }

    method ReleaseHold(hold: nat, now: real)
      modifies this
      ensures View() == ReleaseSpec(old(View()), hold, now)
    {
      if IsPending(holds, hold) && holds[hold].value.account in balances {
        var h := holds[hold].value;
        holds := holds[hold := Some(h.(status := Released, settledAt := Some(now)))];
        var b := balances[h.account];
        balances := balances[h.account := b.(reserved := b.reserved - h.amount)];
      }
    }

    method FindStaleHolds(cutoff: real) returns (holdIDs: seq<nat>)
      ensures holdIDs == StaleIds(holds, cutoff)
    {
      holdIDs := [];
      for i := 0 to |holds|
        invariant holdIDs == StaleIds(holds[..i], cutoff)
      {
        assert holds[..i + 1][..i] == holds[..i];
        if Stale(holds[i], cutoff) {
          holdIDs := holdIDs + [i];
        }
      }
      assert holds[..|holds|] == holds;
    }

    /** Collects the stale ids first, then releases them one transaction at a time. */
    method SweepStaleHolds(cutoff: real, now: real) returns (released: nat)
      modifies this
      ensures View() == ReleaseAll(old(View()), StaleIds(old(holds), cutoff), now)
      ensures released == |StaleIds(old(holds), cutoff)|
    {
      hide StaleIds, ReleaseSpec;
      var holdIDs := FindStaleHolds(cutoff);
      released := 0;
      for n := 0 to |holdIDs|
        invariant released == n && View() == ReleaseAll(old(View()), holdIDs[..n], now)
      {
        assert holdIDs[..n + 1][..n] == holdIDs[..n];
        ReleaseHold(holdIDs[n], now);
        released := released + 1;
      }
      assert holdIDs[..|holdIDs|] == holdIDs;
    }

    method CleanupSettledHolds(cutoff: real)
      modifies this
      ensures View() == CleanupSpec(old(View()), cutoff)
    {
      for i := 0 to |holds|
        invariant balances == old(balances) && txns == old(txns) && |holds| == |old(holds)|
        invariant forall k :: 0 <= k < |holds| ==>
                    holds[k] == if k < i && Expired(old(holds)[k], cutoff) then None else old(holds)[k]
      {
        if Expired(holds[i], cutoff) {
          holds := holds[i := None];
        }
      }
    }

    method ApplyMonthlyAllowance(account: nat, managed: bool, override: Option<real>, defaultGrant: real, month: int)
      returns (granted: bool)
      modifies this
      ensures !managed ==> View() == old(View()) && !granted
      ensures managed ==>
                (View(), granted) ==
                ResetSpec(old(View()), account, if override.Some? then override.value else defaultGrant, month)
    {
      if !managed || account !in balances {
        return false;
      }
      var grant := if override.Some? then override.value else defaultGrant;
      var b := balances[account];
      if b.period.Some? && b.period.value >= month {
        return false;
      }
      balances := balances[account := b.(balance := grant, period := Some(month))];
      txns := txns + [Txn(account, grant, grant, MonthlyAllowance(month))];
      return true;
    }
  }
}
