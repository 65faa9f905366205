/** The keyed token-bucket limiter: one bucket per id, refilled on demand, refunded by
    `Return`, and evicted by `Prune` after ten idle minutes.  Time is in seconds. */
module TokenBuckets {

  datatype Bucket = Bucket(tokens: real, capacity: real, refillRate: real, lastRefill: real, lastAccess: real)

  type Buckets = map<nat, Bucket>

  /** How long a denied caller is told to wait.  `Forever` is the infinite quotient of a
      zero refill rate. */
  datatype Wait = Seconds(secs: real) | Forever

  datatype Verdict = Allowed | Denied(retryAfter: Wait)

  const IDLE_CUTOFF := 600.0

  function Min(a: real, b: real): real {
    if a <= b then a else b
  }

  function Rate(limit: int): real {
    limit as real / 60.0
  }

  /** The tokens that `elapsed` seconds add at this limit. */
  function Accrued(elapsed: real, limit: int): real {
    elapsed * Rate(limit)
  }

  /** The bucket a call on `id` works on: rewritten to the call's limit and refilled up to `now`. */
  function Refilled(b: Bucket, limit: int, now: real): Bucket {
    Bucket(Min(limit as real, b.tokens + Accrued(now - b.lastRefill, limit)), limit as real, Rate(limit), now, now)
  }

  function WaitFor(b: Bucket): Wait {
    if b.refillRate == 0.0 then Forever else Seconds((1.0 - b.tokens) / b.refillRate)
  }

  function AllowSpec(bs: Buckets, id: nat, limit: int, now: real): (Buckets, Verdict) {
    if id !in bs then
      (bs[id := Bucket(limit as real - 1.0, limit as real, Rate(limit), now, now)], Allowed)
    else
      var b := Refilled(bs[id], limit, now);
      if b.tokens >= 1.0 then (bs[id := b.(tokens := b.tokens - 1.0)], Allowed)
      else (bs[id := b], Denied(WaitFor(b)))
  }

  function ReturnSpec(bs: Buckets, id: nat): Buckets {
    if id !in bs then bs
    else bs[id := bs[id].(tokens := Min(bs[id].capacity, bs[id].tokens + 1.0))]
  }

  function PruneSpec(bs: Buckets, now: real): Buckets {
    map id | id in bs && !(bs[id].lastAccess < now - IDLE_CUTOFF) :: bs[id]
  }

  class Limiter {
    var buckets: Buckets

    constructor ()
      ensures buckets == map[]
    {
      buckets := map[];
    }

    method Allow(id: nat, rateLimit: int, now: real) returns (verdict: Verdict)
      modifies this
      ensures (buckets, verdict) == AllowSpec(old(buckets), id, rateLimit, now)
    {
      if id !in buckets {
        var b := Bucket(rateLimit as real - 1.0, rateLimit as real, rateLimit as real / 60.0, now, now);
        buckets := buckets[id := b];
        return Allowed;
      }
      var b := buckets[id];
      b := b.(capacity := rateLimit as real, refillRate := rateLimit as real / 60.0);
      var elapsed := now - b.lastRefill;
      b := b.(tokens := Min(b.capacity, b.tokens + elapsed * b.refillRate), lastRefill := now, lastAccess := now);
      assert b == Refilled(buckets[id], rateLimit, now);
      if b.tokens >= 1.0 {
        buckets := buckets[id := b.(tokens := b.tokens - 1.0)];
        return Allowed;
      }
      buckets := buckets[id := b];
      return Denied(if b.refillRate == 0.0 then Forever else Seconds((1.0 - b.tokens) / b.refillRate));
    }

    method Return(id: nat)
      modifies this
      ensures buckets == ReturnSpec(old(buckets), id)
    {
      if id in buckets {
        var b := buckets[id];
        buckets := buckets[id := b.(tokens := Min(b.capacity, b.tokens + 1.0))];
      }
    }

    /** Visits the buckets in an arbitrary order, deleting while it goes. */
    method Prune(now: real)
      modifies this
      ensures buckets == PruneSpec(old(buckets), now)
    {
      var cutoff := now - IDLE_CUTOFF;
      var todo := buckets.Keys;
      while todo != {}
        invariant todo <= buckets.Keys
        invariant forall id :: id in buckets ==> id in old(buckets) && buckets[id] == old(buckets)[id]
        invariant forall id :: id in old(buckets) && id !in todo ==>
                    (id in buckets <==> !(old(buckets)[id].lastAccess < cutoff))
        decreases |todo|
      {
        var id: nat :| id in todo;
        todo := todo - {id};
        if buckets[id].lastAccess < cutoff {
          buckets := buckets - {id};
        }
      }
    }
  }

  // ---- Runs of calls -------------------------------------------------------------------

  datatype Op = AllowOp(id: nat, limit: int) | ReturnOp(id: nat) | PruneOp

  datatype Call = Call(at: real, op: Op)

  function Step(bs: Buckets, c: Call): Buckets {
    match c.op
    case AllowOp(id, limit) => AllowSpec(bs, id, limit, c.at).0
    case ReturnOp(id) => ReturnSpec(bs, id)
    case PruneOp => PruneSpec(bs, c.at)
  }

  function Run(bs: Buckets, calls: seq<Call>): Buckets
    decreases |calls|
  {
    if calls == [] then bs else Run(Step(bs, calls[0]), calls[1..])
  }

  /** What the callers of a run are told, in order. */
  function Verdicts(bs: Buckets, calls: seq<Call>): seq<Verdict>
    decreases |calls|
  {
    if calls == [] then []
    else
      var rest := Verdicts(Step(bs, calls[0]), calls[1..]);
      match calls[0].op
      case AllowOp(id, limit) => [AllowSpec(bs, id, limit, calls[0].at).1] + rest
      case _ => rest
  }

  /** The clock never goes back and every limit is at least 1. */
  ghost predicate Timely(now: real, calls: seq<Call>)
    decreases |calls|
  {
    calls == [] ||
    (now <= calls[0].at && (calls[0].op.AllowOp? ==> calls[0].op.limit >= 1) && Timely(calls[0].at, calls[1..]))
  }

  /** The moment a timely run ends. */
  ghost function End(now: real, calls: seq<Call>): real
    decreases |calls|
  {
    if calls == [] then now else End(calls[0].at, calls[1..])
  }

  ghost predicate SoundBucket(b: Bucket, now: real) {
    b.tokens >= 0.0 && b.capacity >= 1.0 && b.lastRefill == b.lastAccess <= now
  }

  ghost predicate Sound(bs: Buckets, now: real) {
    forall id :: id in bs ==> SoundBucket(bs[id], now)
  }

  lemma AccrualNonNegative(elapsed: real, limit: int)
    requires elapsed >= 0.0 && limit >= 1
    ensures Accrued(elapsed, limit) >= 0.0
  {}

  lemma AccrualFills(elapsed: real, limit: int)
    requires elapsed >= 60.0 && limit >= 1
    ensures Accrued(elapsed, limit) >= limit as real
  {
    assert (elapsed - 60.0) * Rate(limit) >= 0.0;
  }

  lemma AccrualStartsAtZero(limit: int)
    ensures Accrued(0.0, limit) == 0.0
  {}

  lemma AccrualAdds(a: real, b: real, limit: int)
    ensures Accrued(a + b, limit) == Accrued(a, limit) + Accrued(b, limit)
  {}

  lemma StepKeepsSound(bs: Buckets, now: real, c: Call)
    requires Sound(bs, now) && Timely(now, [c])
    ensures Sound(Step(bs, c), c.at)
  {
    hide Accrued;
    assert now <= c.at;
    if c.op.AllowOp? && c.op.id in bs {
      assert SoundBucket(bs[c.op.id], now);
      AccrualNonNegative(c.at - bs[c.op.id].lastRefill, c.op.limit);
    }
  }

  lemma {:induction false} RunKeepsSound(bs: Buckets, now: real, calls: seq<Call>)
    requires Sound(bs, now) && Timely(now, calls)
    ensures Sound(Run(bs, calls), End(now, calls)) && now <= End(now, calls)
    decreases |calls|
  {
    if calls != [] {
      assert Timely(now, [calls[0]]);
      StepKeepsSound(bs, now, calls[0]);
      RunKeepsSound(Step(bs, calls[0]), calls[0].at, calls[1..]);
    }
  }

  /** At a limit of zero a known id is denied for good, an unknown one is let through once. */
  lemma ZeroLimit(bs: Buckets, id: nat, now: real)
    requires id in bs ==> bs[id].tokens >= 0.0
    ensures AllowSpec(bs, id, 0, now).1 == if id in bs then Denied(Forever) else Allowed
  {}

  /** A bucket used within the last ten minutes survives a prune, as it is; any other goes. */
  lemma PruneSpares(bs: Buckets, id: nat, now: real)
    ensures id in PruneSpec(bs, now) <==> id in bs && now - bs[id].lastAccess <= 600.0
    ensures id in PruneSpec(bs, now) ==> PruneSpec(bs, now)[id] == bs[id]
  {}

  // ---- Pruning is unobservable ----------------------------------------------------------

  function WithoutPrunes(calls: seq<Call>): seq<Call> {
    if calls == [] then []
    else (if calls[0].op.PruneOp? then [] else [calls[0]]) + WithoutPrunes(calls[1..])
  }

  /** `pruned` is `kept` less some buckets that have been idle for longer than the cutoff. */
  ghost predicate Evicted(pruned: Buckets, kept: Buckets, now: real) {
    && (forall id :: id in pruned ==> id in kept && kept[id] == pruned[id])
    && (forall id :: id in kept && id !in pruned ==> kept[id].lastRefill < now - IDLE_CUTOFF)
  }

  lemma IdleBucketIsFull(b: Bucket, limit: int, now: real)
    requires SoundBucket(b, now) && b.lastRefill < now - IDLE_CUTOFF && limit >= 1
    ensures Refilled(b, limit, now).tokens == limit as real
  {
    AccrualFills(now - b.lastRefill, limit);
  }

  lemma EvictionSimulates(pruned: Buckets, kept: Buckets, now: real, c: Call)
    requires Sound(kept, now) && Evicted(pruned, kept, now) && Timely(now, [c])
    ensures c.op.PruneOp? ==> Evicted(Step(pruned, c), kept, c.at)
    ensures !c.op.PruneOp? ==> Evicted(Step(pruned, c), Step(kept, c), c.at)
    ensures c.op.AllowOp? ==>
              AllowSpec(pruned, c.op.id, c.op.limit, c.at).1 == AllowSpec(kept, c.op.id, c.op.limit, c.at).1
  {
    hide Accrued;
    if c.op.AllowOp? && c.op.id in kept && c.op.id !in pruned {
      IdleBucketIsFull(kept[c.op.id], c.op.limit, c.at);
    }
  }

  lemma {:induction false} PruningSimulated(pruned: Buckets, kept: Buckets, now: real, calls: seq<Call>)
    requires Sound(kept, now) && Evicted(pruned, kept, now) && Timely(now, calls)
    ensures Verdicts(pruned, calls) == Verdicts(kept, WithoutPrunes(calls))
    decreases |calls|
  {
    if calls != [] {
      var c, rest := calls[0], calls[1..];
      assert Timely(now, [c]);
      EvictionSimulates(pruned, kept, now, c);
      if c.op.PruneOp? {
        assert WithoutPrunes(calls) == WithoutPrunes(rest);
        PruningSimulated(Step(pruned, c), kept, c.at, rest);
      } else {
        StepKeepsSound(kept, now, c);
        PruningSimulated(Step(pruned, c), Step(kept, c), c.at, rest);
        assert WithoutPrunes(calls)[1..] == WithoutPrunes(rest);
      }
    }
  }

  /** Deleting every prune from a run, with limits that may change from call to call, changes no
      verdict and no retry-after. */
  lemma PruningUnobservable(now: real, calls: seq<Call>)
    requires Timely(now, calls)
    ensures Verdicts(map[], calls) == Verdicts(map[], WithoutPrunes(calls))
  {
    PruningSimulated(map[], map[], now, calls);
  }
}
