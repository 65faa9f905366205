/** Fairness of resolution across republishes: the counter of a model that stays routable is never
    reset, so consecutive resolutions cycle through its candidates. */
module RoundRobin {
  import opened NodeRegistry

  /** The part of the registry that resolution reads and turns; its two operations are those of the
      registry's own contracts. */
  datatype Router = Router(counters: map<string, nat>, routes: Routes)

  datatype Op = Resolve(model: string) | Republish(routes: Routes)

  function Step(r: Router, op: Op): Router {
    match op
    case Resolve(m) =>
      r.(counters := Turned(r.counters, r.routes, m))
    case Republish(routes) => Router(Pruned(r.counters, routes), routes)
  }

  function Run(r: Router, ops: seq<Op>): Router
    decreases |ops|
  {
    if ops == [] then r else Run(Step(r, ops[0]), ops[1..])
  }

  /** The positions that the resolutions of one model pick, in order. */
  function Picks(r: Router, ops: seq<Op>, model: string): seq<nat>
    decreases |ops|
  {
    if ops == [] then []
    else
      var rest := Picks(Step(r, ops[0]), ops[1..], model);
      var picks := ops[0] == Resolve(model) && Candidates(r.routes, model) != [];
      if picks then [Position(r.counters, r.routes, model)] + rest else rest
  }

  /** The model has k candidates now and after every republish of the run. */
  ghost predicate Keeps(r: Router, ops: seq<Op>, model: string, k: nat) {
    && |Candidates(r.routes, model)| == k
    && forall i :: 0 <= i < |ops| && ops[i].Republish? ==> |Candidates(ops[i].routes, model)| == k
  }

  /** Counters exist only for models routable in the current snapshot, whatever is looked up. */
  lemma {:induction false} CountersBounded(r: Router, ops: seq<Op>)
    requires r.counters.Keys <= r.routes.Keys
    ensures Run(r, ops).counters.Keys <= Run(r, ops).routes.Keys
    decreases |ops|
  {
    if ops != [] {
      CountersBounded(Step(r, ops[0]), ops[1..]);
    }
  }

  lemma {:induction false} PicksCycle(r: Router, ops: seq<Op>, model: string, k: nat)
    requires k >= 2 && Keeps(r, ops, model, k)
    ensures forall i :: 0 <= i < |Picks(r, ops, model)| ==>
              Picks(r, ops, model)[i] == (CounterOf(r.counters, model) + i) % k
    decreases |ops|
  {
    if ops != [] {
      var s := Step(r, ops[0]);
      assert Keeps(s, ops[1..], model, k);
      PicksCycle(s, ops[1..], model, k);
      var picks, rest := Picks(r, ops, model), Picks(s, ops[1..], model);
      if ops[0] == Resolve(model) {
        forall i | 0 <= i < |picks| ensures picks[i] == (CounterOf(r.counters, model) + i) % k {
          if i > 0 {
            assert picks[i] == rest[i - 1] == (CounterOf(s.counters, model) + (i - 1)) % k;
          }
        }
      }
    }
  }

  function Count(xs: seq<nat>, x: nat): nat {
    if xs == [] then 0 else Count(xs[..|xs| - 1], x) + if xs[|xs| - 1] == x then 1 else 0
  }

  lemma {:induction false} CountAppend(xs: seq<nat>, ys: seq<nat>, x: nat)
    ensures Count(xs + ys, x) == Count(xs, x) + Count(ys, x)
  {
    if ys == [] {
      assert xs + ys == xs;
    } else {
      assert (xs + ys)[..|xs + ys| - 1] == xs + ys[..|ys| - 1];
      CountAppend(xs, ys[..|ys| - 1], x);
    }
  }

  lemma {:induction false} ProductGrows(a: nat, b: nat, k: nat)
    requires a < b
    ensures a * k + k <= b * k
    decreases b - a
  {
    if b == a + 1 {
      assert b * k == a * k + k;
    } else {
      ProductGrows(a, b - 1, k);
      assert b * k == (b - 1) * k + k;
    }
  }

  lemma UniqueQuotient(q: nat, r: nat, q': nat, r': nat, k: nat)
    requires q * k + r == q' * k + r' && r < k && r' < k
    ensures q == q' && r == r'
  {
    if q < q' {
      ProductGrows(q, q', k);
    } else if q' < q {
      ProductGrows(q', q, k);
    }
  }

  lemma Remainder(x: nat, q: nat, r: nat, k: nat)
    requires x == q * k + r && r < k
    ensures x / k == q && x % k == r
  {
    var q', r' := x / k, x % k;
    assert x == q' * k + r';
    UniqueQuotient(q, r, q', r', k);
  }

  lemma ShiftedRemainder(c: nat, i: nat, k: nat)
    requires i < k
    ensures (c + i) % k == if c % k + i < k then c % k + i else c % k + i - k
  {
    var q, b := c / k, c % k;
    assert c == q * k + b;
    if b + i < k {
      Remainder(c + i, q, b + i, k);
    } else {
      assert c + i == (q + 1) * k + (b + i - k);
      Remainder(c + i, q + 1, b + i - k, k);
    }
  }

  /** The i-th cyclic pick equals `p` at exactly one place of a block of k. */
  function PlaceOf(c: nat, p: nat, k: nat): nat
    requires p < k
  {
    if p >= c % k then p - c % k else p - c % k + k
  }

  /** Fewer than k cyclic picks hold a position at most once; a whole block of k holds it once. */
  lemma {:induction false} BlockCount(xs: seq<nat>, c: nat, k: nat, p: nat)
    requires p < k && |xs| <= k
    requires forall i :: 0 <= i < |xs| ==> xs[i] == (c + i) % k
    ensures Count(xs, p) == if PlaceOf(c, p, k) < |xs| then 1 else 0
  {
    if xs != [] {
      BlockCount(xs[..|xs| - 1], c, k, p);
      ShiftedRemainder(c, |xs| - 1, k);
    }
  }

  lemma DivisionSteps(n: nat, k: nat)
    requires 0 < k <= n
    ensures n / k == (n - k) / k + 1 && (n + k - 1) / k == (n - 1) / k + 1
  {
    StepDown(n, k);
    StepDown(n + k - 1, k);
  }

  lemma StepDown(n: nat, k: nat)
    requires 0 < k <= n
    ensures n / k == (n - k) / k + 1
  {
    var q, r := (n - k) / k, (n - k) % k;
    assert n - k == q * k + r;
    assert n == (q + 1) * k + r;
    Remainder(n, q + 1, r, k);
  }

  lemma DivisionSmall(n: nat, k: nat)
    requires n < k
    ensures n / k == 0 && (n + k - 1) / k == if n == 0 then 0 else 1
  {
    Remainder(n, 0, n, k);
    if n == 0 { Remainder(k - 1, 0, k - 1, k); } else { Remainder(n + k - 1, 1, n - 1, k); }
  }

  lemma ShiftByBlock(c: nat, i: nat, k: nat)
    requires k > 0
    ensures (c + k + i) % k == (c + i) % k
  {
    StepDown(c + k + i, k);
    var x := c + i;
    assert x == x / k * k + x % k;
    assert x + k == (x / k + 1) * k + x % k;
    Remainder(x + k, x / k + 1, x % k, k);
  }

  lemma {:induction false} CyclicCount(xs: seq<nat>, c: nat, k: nat, p: nat)
    requires p < k && forall i :: 0 <= i < |xs| ==> xs[i] == (c + i) % k
    ensures |xs| / k <= Count(xs, p) <= (|xs| + k - 1) / k
    decreases |xs|
  {
    if |xs| < k {
      BlockCount(xs, c, k, p);
      DivisionSmall(|xs|, k);
    } else {
      var block, rest := xs[..k], xs[k..];
      BlockCount(block, c, k, p);
      forall i | 0 <= i < |rest| ensures rest[i] == (c + i) % k {
        assert rest[i] == xs[k + i];
        ShiftByBlock(c, i, k);
      }
      CyclicCount(rest, c, k, p);
      assert xs == block + rest;
      CountAppend(block, rest, p);
      DivisionSteps(|xs|, k);
    }
  }

  /** Across any number of republishes that keep a model's k >= 2 candidates, any n consecutive
      resolutions pick each position floor(n/k) or ceil(n/k) times. */
  lemma Fair(r: Router, ops: seq<Op>, model: string, k: nat, p: nat)
    requires k >= 2 && p < k && Keeps(r, ops, model, k)
    ensures var n := |Picks(r, ops, model)|;
            n / k <= Count(Picks(r, ops, model), p) <= (n + k - 1) / k
  {
    PicksCycle(r, ops, model, k);
    CyclicCount(Picks(r, ops, model), CounterOf(r.counters, model), k, p);
  }
}
