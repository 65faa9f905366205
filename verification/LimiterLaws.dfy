/** What the limiter promises one id whose limit stays the same: at every moment the bucket is
    worth a level between 0 and the limit, whether or not the bucket is stored. */
module LimiterLaws {
  import opened TokenBuckets

  /** The tokens a call on `id` would find at `now`; an id without a bucket is worth a full one. */
  function Level(bs: Buckets, id: nat, limit: int, now: real): real {
    if id in bs then Refilled(bs[id], limit, now).tokens else limit as real
  }

  /** The bucket of `id`, if stored, was last written under this limit. */
  ghost predicate FixedAt(bs: Buckets, id: nat, limit: int) {
    id in bs ==> bs[id].capacity == limit as real
  }

  ghost predicate FixedLimit(calls: seq<Call>, id: nat, limit: int) {
    forall i :: 0 <= i < |calls| && calls[i].op.AllowOp? && calls[i].op.id == id ==> calls[i].op.limit == limit
  }

  /** No call of the run is made on `id`. */
  ghost predicate Untouched(calls: seq<Call>, id: nat) {
    forall i :: 0 <= i < |calls| ==> calls[i].op.PruneOp? || calls[i].op.id != id
  }

  lemma LevelBounds(bs: Buckets, id: nat, limit: int, now: real)
    requires Sound(bs, now) && limit >= 1
    ensures 0.0 <= Level(bs, id, limit, now) <= limit as real
  {
    hide Accrued;
    if id in bs {
      assert SoundBucket(bs[id], now);
      AccrualNonNegative(now - bs[id].lastRefill, limit);
    }
  }

  lemma LevelAges(bs: Buckets, id: nat, limit: int, now: real, later: real)
    requires Sound(bs, now) && now <= later && limit >= 1
    ensures Level(bs, id, limit, later) == Min(limit as real, Level(bs, id, limit, now) + Accrued(later - now, limit))
  {
    hide Accrued;
    AccrualNonNegative(later - now, limit);
    if id in bs {
      AccrualAdds(now - bs[id].lastRefill, later - now, limit);
      assert now - bs[id].lastRefill + (later - now) == later - bs[id].lastRefill;
    }
  }

  /** What one call does to the level of `id`: a granted call takes one token, a refund gives one
      back up to the limit, and nothing else, pruning included, moves it. */
  lemma LevelStep(bs: Buckets, now: real, c: Call, id: nat, limit: int)
    requires Sound(bs, now) && Timely(now, [c]) && limit >= 1
    requires FixedAt(bs, id, limit) && FixedLimit([c], id, limit)
    ensures FixedAt(Step(bs, c), id, limit)
    ensures var aged := Level(bs, id, limit, c.at);
            Level(Step(bs, c), id, limit, c.at) ==
            (if c.op.PruneOp? || c.op.id != id then aged
             else if c.op.ReturnOp? then Min(limit as real, aged + 1.0)
             else if aged >= 1.0 then aged - 1.0 else aged)
    ensures var aged := Level(bs, id, limit, c.at);
            c.op.AllowOp? && c.op.id == id ==>
              AllowSpec(bs, id, limit, c.at).1 ==
              (if aged >= 1.0 then Allowed else Denied(Seconds((1.0 - aged) / Rate(limit))))
  {
    hide Accrued;
    assert c == [c][0];
    AccrualStartsAtZero(limit);
    if c.op.PruneOp? {
      if id in bs && bs[id].lastAccess < c.at - IDLE_CUTOFF {
        assert SoundBucket(bs[id], c.at);
        IdleBucketIsFull(bs[id], limit, c.at);
      }
    } else if c.op.id == id && id in bs {
      assert SoundBucket(bs[id], now);
      AccrualNonNegative(c.at - bs[id].lastRefill, limit);
    }
  }

  // ---- The rate a caller can sustain ----------------------------------------------------

  function Granted(bs: Buckets, calls: seq<Call>, id: nat): nat
    decreases |calls|
  {
    if calls == [] then 0
    else
      Granted(Step(bs, calls[0]), calls[1..], id) +
      match calls[0].op
      case AllowOp(i, limit) => if i == id && AllowSpec(bs, i, limit, calls[0].at).1 == Allowed then 1 else 0
      case _ => 0
  }

  function Refunded(calls: seq<Call>, id: nat): nat {
    if calls == [] then 0
    else Refunded(calls[1..], id) + if calls[0].op == ReturnOp(id) then 1 else 0
  }

  lemma {:induction false} LevelAccounts(bs: Buckets, now: real, calls: seq<Call>, id: nat, limit: int)
    requires Sound(bs, now) && Timely(now, calls) && limit >= 1
    requires FixedAt(bs, id, limit) && FixedLimit(calls, id, limit)
    ensures now <= End(now, calls)
    ensures Granted(bs, calls, id) as real - Refunded(calls, id) as real
            <= Level(bs, id, limit, now) + Accrued(End(now, calls) - now, limit)
    decreases |calls|
  {
    hide Accrued;
    if calls == [] {
      AccrualStartsAtZero(limit);
      LevelBounds(bs, id, limit, now);
    } else {
      var c, rest := calls[0], calls[1..];
      assert Timely(now, [c]);
      StepKeepsSound(bs, now, c);
      LevelAges(bs, id, limit, now, c.at);
      LevelStep(bs, now, c, id, limit);
      LevelAccounts(Step(bs, c), c.at, rest, id, limit);
      AccrualAdds(c.at - now, End(now, calls) - c.at, limit);
      assert c.at - now + (End(now, calls) - c.at) == End(now, calls) - now;
    }
  }

  lemma {:induction false} RunKeepsFixed(bs: Buckets, now: real, calls: seq<Call>, id: nat, limit: int)
    requires Sound(bs, now) && Timely(now, calls) && limit >= 1
    requires FixedAt(bs, id, limit) && FixedLimit(calls, id, limit)
    ensures FixedAt(Run(bs, calls), id, limit)
    decreases |calls|
  {
    hide Accrued;
    if calls != [] {
      assert Timely(now, [calls[0]]);
      StepKeepsSound(bs, now, calls[0]);
      LevelStep(bs, now, calls[0], id, limit);
      RunKeepsFixed(Step(bs, calls[0]), calls[0].at, calls[1..], id, limit);
    }
  }

  lemma AccruedPerMinute(elapsed: real, limit: int)
    ensures Accrued(elapsed, limit) == limit as real * elapsed / 60.0
  {}

  lemma WindowAccounts(start: real, before: seq<Call>, from: real, calls: seq<Call>, to: real, id: nat, limit: int)
    requires limit >= 1 && FixedLimit(before, id, limit) && FixedLimit(calls, id, limit)
    requires Timely(start, before) && End(start, before) <= from && Timely(from, calls) && End(from, calls) <= to
    ensures Granted(Run(map[], before), calls, id) as real - Refunded(calls, id) as real
            <= limit as real + Accrued(to - from, limit)
  {
    hide Accrued;
    var bs, last := Run(map[], before), End(from, calls);
    RunKeepsSound(map[], start, before);
    RunKeepsFixed(map[], start, before, id, limit);
    LevelBounds(bs, id, limit, from);
    LevelAccounts(bs, from, calls, id, limit);
    AccrualAdds(last - from, to - last, limit);
    AccrualNonNegative(to - last, limit);
    assert last - from + (to - last) == to - from;
  }

  /** In any window of a run, grants less refunds stay within the limit plus what the window's
      length accrues at limit-per-minute. */
  lemma WindowBound(start: real, before: seq<Call>, from: real, calls: seq<Call>, to: real, id: nat, limit: int)
    requires limit >= 1 && FixedLimit(before, id, limit) && FixedLimit(calls, id, limit)
    requires Timely(start, before) && End(start, before) <= from && Timely(from, calls) && End(from, calls) <= to
    ensures Granted(Run(map[], before), calls, id) as real - Refunded(calls, id) as real
            <= limit as real + limit as real * (to - from) / 60.0
  {
    hide *;
    WindowAccounts(start, before, from, calls, to, id, limit);
    AccruedPerMinute(to - from, limit);
  }

  // ---- Retry-After is exact ---------------------------------------------------------------

  lemma {:induction false} UntouchedLevel(bs: Buckets, now: real, calls: seq<Call>, id: nat, limit: int)
    requires Sound(bs, now) && Timely(now, calls) && limit >= 1
    requires FixedAt(bs, id, limit) && Untouched(calls, id)
    ensures FixedAt(Run(bs, calls), id, limit) && now <= End(now, calls)
    ensures Level(Run(bs, calls), id, limit, End(now, calls)) == Level(bs, id, limit, End(now, calls))
    decreases |calls|
  {
    hide Accrued;
    if calls != [] {
      var c, rest := calls[0], calls[1..];
      assert Timely(now, [c]) && FixedLimit([c], id, limit);
      StepKeepsSound(bs, now, c);
      LevelStep(bs, now, c, id, limit);
      UntouchedLevel(Step(bs, c), c.at, rest, id, limit);
      LevelAges(bs, id, limit, c.at, End(now, calls));
      LevelAges(Step(bs, c), id, limit, c.at, End(now, calls));
    }
  }

  lemma WaitReachesOne(level: real, wait: real, limit: int)
    requires limit >= 1
    ensures level + Accrued(wait, limit) >= 1.0 <==> wait >= (1.0 - level) / Rate(limit)
  {
    var r := Rate(limit);
    var w := (1.0 - level) / r;
    assert w * r == 1.0 - level;
    if wait >= w {
      assert (wait - w) * r >= 0.0;
    } else {
      assert (w - wait) * r > 0.0;
    }
  }

  /** A denied caller that makes no call in between, whatever the others do, is granted on its
      next call exactly when it waited at least the retry-after it was given. */
  lemma RetryAfterExact(bs: Buckets, now: real, id: nat, limit: int, denied: real, between: seq<Call>, again: real)
    requires Sound(bs, now) && limit >= 1 && FixedAt(bs, id, limit) && now <= denied
    requires AllowSpec(bs, id, limit, denied).1.Denied?
    requires Untouched(between, id) && Timely(denied, between) && End(denied, between) <= again
    ensures var wait := AllowSpec(bs, id, limit, denied).1.retryAfter;
            wait.Seconds? && 0.0 < wait.secs <= 60.0 &&
            (AllowSpec(Run(AllowSpec(bs, id, limit, denied).0, between), id, limit, again).1 == Allowed <==>
             again - denied >= wait.secs)
  {
    hide Accrued;
    var c := Call(denied, AllowOp(id, limit));
    var after := Step(bs, c);
    assert Timely(now, [c]);
    StepKeepsSound(bs, now, c);
    LevelStep(bs, now, c, id, limit);
    var level := Level(after, id, limit, denied);
    LevelBounds(after, id, limit, denied);
    UntouchedLevel(after, denied, between, id, limit);
    RunKeepsSound(after, denied, between);
    var later := Run(after, between);
    LevelAges(after, id, limit, End(denied, between), again);
    LevelAges(later, id, limit, End(denied, between), again);
    LevelAges(after, id, limit, denied, again);
    var c' := Call(again, AllowOp(id, limit));
    assert Timely(End(denied, between), [c']);
    LevelStep(later, End(denied, between), c', id, limit);
    WaitReachesOne(level, again - denied, limit);
    AccrualFills(60.0, limit);
    WaitReachesOne(level, 60.0, limit);
    WaitReachesOne(level, 0.0, limit);
  }

  function Ceiling(x: real): int {
    -((-x).Floor)
  }

  /** The Retry-After header: whole seconds, clamped to [1s, 1h]. */
  function RetryHeader(wait: Wait): (secs: int)
    ensures 1 <= secs <= 3600
    ensures wait.Forever? ==> secs == 3600
    ensures wait.Seconds? && 0.0 < wait.secs <= 3600.0 ==> secs as real - 1.0 < wait.secs <= secs as real
  {
    match wait
    case Forever => 3600
    case Seconds(s) => if Ceiling(s) < 1 then 1 else if Ceiling(s) > 3600 then 3600 else Ceiling(s)
  }

  /** The clamped header never understates the wait: a client that honours it is granted. */
  lemma HeaderSuffices(bs: Buckets, now: real, id: nat, limit: int, denied: real, between: seq<Call>, again: real)
    requires Sound(bs, now) && limit >= 1 && FixedAt(bs, id, limit) && now <= denied
    requires AllowSpec(bs, id, limit, denied).1.Denied?
    requires Untouched(between, id) && Timely(denied, between) && End(denied, between) <= again
    ensures var (after, verdict) := AllowSpec(bs, id, limit, denied);
            again - denied >= RetryHeader(verdict.retryAfter) as real ==>
              AllowSpec(Run(after, between), id, limit, again).1 == Allowed
  {
    RetryAfterExact(bs, now, id, limit, denied, between, again);
  }

  /** Nor does it overstate it: any fewer whole seconds would have been too few. */
  lemma HeaderLeast(bs: Buckets, now: real, id: nat, limit: int, denied: real, between: seq<Call>, secs: int)
    requires Sound(bs, now) && limit >= 1 && FixedAt(bs, id, limit) && now <= denied
    requires AllowSpec(bs, id, limit, denied).1.Denied?
    requires Untouched(between, id) && Timely(denied, between) && End(denied, between) <= denied + secs as real
    ensures var (after, verdict) := AllowSpec(bs, id, limit, denied);
            secs < RetryHeader(verdict.retryAfter) ==>
              AllowSpec(Run(after, between), id, limit, denied + secs as real).1.Denied?
  {
    RetryAfterExact(bs, now, id, limit, denied, between, denied + secs as real);
  }

  // ---- A refunded request leaves no trace --------------------------------------------------

  ghost predicate AgreeElsewhere(a: Buckets, b: Buckets, id: nat) {
    forall i :: i != id ==> (i in a <==> i in b) && (i in a ==> a[i] == b[i])
  }

  /** A call treats ids on which two limiters agree alike. */
  lemma StepElsewhere(a: Buckets, b: Buckets, c: Call, id: nat)
    requires AgreeElsewhere(a, b, id)
    ensures AgreeElsewhere(Step(a, c), Step(b, c), id)
    ensures c.op.AllowOp? && c.op.id != id ==>
              AllowSpec(a, c.op.id, c.op.limit, c.at).1 == AllowSpec(b, c.op.id, c.op.limit, c.at).1
  {
    hide Refilled, WaitFor, Rate, Min;
  }

  /** The two limiters agree except on `id`, where the first is `owed` tokens short. */
  ghost predicate Short(a: Buckets, b: Buckets, id: nat, limit: int, now: real, owed: real) {
    && AgreeElsewhere(a, b, id)
    && FixedAt(a, id, limit) && FixedAt(b, id, limit)
    && Level(b, id, limit, now) == Min(limit as real, Level(a, id, limit, now) + owed)
  }

  lemma ShortAges(a: Buckets, b: Buckets, now: real, later: real, id: nat, limit: int, owed: real)
    requires Sound(a, now) && Sound(b, now) && now <= later && limit >= 1 && owed >= 0.0
    requires Short(a, b, id, limit, now, owed)
    ensures Short(a, b, id, limit, later, owed)
  {
    hide Accrued;
    LevelBounds(a, id, limit, now);
    AccrualNonNegative(later - now, limit);
    LevelAges(a, id, limit, now, later);
    LevelAges(b, id, limit, now, later);
  }

  lemma ShortStep(a: Buckets, b: Buckets, now: real, c: Call, id: nat, limit: int, owed: real)
    requires Sound(a, now) && Sound(b, now) && Timely(now, [c]) && limit >= 1 && owed >= 0.0
    requires Short(a, b, id, limit, now, owed) && FixedLimit([c], id, limit)
    requires owed == 0.0 || Untouched([c], id)
    ensures Short(Step(a, c), Step(b, c), id, limit, c.at, owed)
    ensures c.op.AllowOp? ==>
              AllowSpec(a, c.op.id, c.op.limit, c.at).1 == AllowSpec(b, c.op.id, c.op.limit, c.at).1
  {
    hide Accrued;
    assert c == [c][0];
    ShortAges(a, b, now, c.at, id, limit, owed);
    StepElsewhere(a, b, c, id);
    LevelBounds(a, id, limit, c.at);
    LevelStep(a, now, c, id, limit);
    LevelStep(b, now, c, id, limit);
    hide Step, AllowSpec, Level, Rate, AgreeElsewhere, FixedAt, Sound;
  }

  lemma {:induction false} ShortRun(a: Buckets, b: Buckets, now: real, calls: seq<Call>, id: nat, limit: int,
                                    owed: real)
    requires Sound(a, now) && Sound(b, now) && Timely(now, calls) && limit >= 1 && owed >= 0.0
    requires Short(a, b, id, limit, now, owed) && FixedLimit(calls, id, limit)
    requires owed == 0.0 || Untouched(calls, id)
    ensures Short(Run(a, calls), Run(b, calls), id, limit, End(now, calls), owed)
    ensures Verdicts(a, calls) == Verdicts(b, calls)
    decreases |calls|
  {
    hide Accrued;
    if calls != [] {
      var c, rest := calls[0], calls[1..];
      assert Timely(now, [c]);
      ShortStep(a, b, now, c, id, limit, owed);
      StepKeepsSound(a, now, c);
      StepKeepsSound(b, now, c);
      ShortRun(Step(a, c), Step(b, c), c.at, rest, id, limit, owed);
    }
  }

  lemma ReturnRepays(a: Buckets, b: Buckets, now: real, id: nat, limit: int)
    requires Sound(a, now) && limit >= 1 && Short(a, b, id, limit, now, 1.0)
    ensures Short(ReturnSpec(a, id), b, id, limit, now, 0.0)
  {
    hide Accrued;
    var c := Call(now, ReturnOp(id));
    assert Timely(now, [c]);
    LevelStep(a, now, c, id, limit);
    LevelBounds(a, id, limit, now);
  }

  /** A request charged to `id` and refunded with no other call on `id` in between is
      unobservable: every verdict while it was out, and every verdict ever after, is the one
      given had the request never come. */
  lemma RefundUnobservable(bs: Buckets, now: real, id: nat, limit: int, at: real, between: seq<Call>, future: seq<Call>)
    requires Sound(bs, now) && limit >= 1 && FixedAt(bs, id, limit) && now <= at
    requires AllowSpec(bs, id, limit, at).1 == Allowed
    requires Untouched(between, id) && Timely(at, between)
    requires FixedLimit(future, id, limit) && Timely(End(at, between), future)
    ensures var charged := AllowSpec(bs, id, limit, at).0;
            Verdicts(charged, between) == Verdicts(bs, between) &&
            Verdicts(ReturnSpec(Run(charged, between), id), future) == Verdicts(Run(bs, between), future)
  {
    hide Accrued;
    var c := Call(at, AllowOp(id, limit));
    assert Timely(now, [c]);
    var charged := Step(bs, c);
    StepKeepsSound(bs, now, c);
    LevelStep(bs, now, c, id, limit);
    LevelBounds(bs, id, limit, at);
    ShortRun(charged, bs, at, between, id, limit, 1.0);
    RunKeepsSound(charged, at, between);
    RunKeepsSound(bs, at, between);
    var a, b, t := Run(charged, between), Run(bs, between), End(at, between);
    ReturnRepays(a, b, t, id, limit);
    assert Timely(t, [Call(t, ReturnOp(id))]);
    StepKeepsSound(a, t, Call(t, ReturnOp(id)));
    ShortRun(ReturnSpec(a, id), b, t, future, id, limit, 0.0);
  }
}
