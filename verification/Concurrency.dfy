/** The keyed semaphore that caps an account's in-flight requests. */
module Concurrency {

  /** Slots in use per account; an account holding none has no entry. */
  type InUse = map<nat, int>

  function Used(m: InUse, id: nat): int {
    if id in m then m[id] else 0
  }

  function AcquireSpec(m: InUse, id: nat, max: int): (InUse, bool) {
    if max <= 0 then (m, true)
    else if Used(m, id) >= max then (m, false)
    else (m[id := Used(m, id) + 1], true)
  }

  function ReleaseSpec(m: InUse, id: nat): InUse {
    if id !in m then m
    else if m[id] <= 1 then m - {id}
    else m[id := m[id] - 1]
  }

  /** A slot is granted exactly below the cap, and then counted; without a cap always, and not counted. No other
      account is affected. */
  lemma Acquires(m: InUse, id: nat, max: int, x: nat)
    ensures var (after, ok) := AcquireSpec(m, id, max);
            (ok <==> max <= 0 || Used(m, id) < max) &&
            Used(after, x) == Used(m, x) + if x == id && max > 0 && ok then 1 else 0
  {}

  /** A release takes one slot off the account's count, if it has an entry, and keeps no entry without slots. */
  lemma Releases(m: InUse, id: nat, x: nat)
    requires id in m ==> m[id] >= 1
    ensures var after := ReleaseSpec(m, id);
            Used(after, x) == Used(m, x) - (if x == id && id in m then 1 else 0) &&
            (x == id && x in after ==> after[x] >= 1)
  {}

  ghost function Total(m: InUse): int
    decreases |m|
  {
    if m == map[] then 0 else var id :| id in m; m[id] + Total(m - {id})
  }

  lemma {:induction false} TotalWithout(m: InUse, id: nat)
    requires id in m
    ensures Total(m) == m[id] + Total(m - {id})
    decreases |m|
  {
    var first :| first in m && Total(m) == m[first] + Total(m - {first});
    if first != id {
      TotalWithout(m - {first}, id);
      TotalWithout(m - {id}, first);
      assert m - {first} - {id} == m - {id} - {first};
    }
  }

  class ConcurrencyLimiter {
    var inUse: InUse

    constructor ()
      ensures inUse == map[]
    {
      inUse := map[];
    }

    method TryAcquire(id: nat, max: int) returns (ok: bool)
      modifies this
      ensures (inUse, ok) == AcquireSpec(old(inUse), id, max)
    {
      if max <= 0 {
        return true;
      }
      var n := if id in inUse then inUse[id] else 0;
      if n >= max {
        return false;
      }
      inUse := inUse[id := n + 1];
      return true;
    }

    method Release(id: nat)
      modifies this
      ensures inUse == ReleaseSpec(old(inUse), id)
    {
      if id !in inUse {
        return;
      }
      var n := inUse[id];
      if n <= 1 {
        inUse := inUse - {id};
        return;
      }
      inUse := inUse[id := n - 1];
    }

    method InFlight() returns (total: int)
      ensures total == Total(inUse)
    {
      total := 0;
      var todo := inUse;
      while todo != map[]
        invariant forall id :: id in todo ==> id in inUse && todo[id] == inUse[id]
        invariant total + Total(todo) == Total(inUse)
        decreases |todo|
      {
        var id :| id in todo;
        TotalWithout(todo, id);
        total := total + todo[id];
        todo := todo - {id};
      }
    }
  }
}
