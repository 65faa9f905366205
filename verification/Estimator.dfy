/** Cost estimates, and the per-account running average that feeds them. */
module Estimator {
  import opened Common

  const GLOBAL_DEFAULT_COMPLETION := 500

  /** Rates are credits per million tokens. */
  datatype Pricing = Pricing(promptRate: real, completionRate: real, typicalCompletion: int)

  datatype Stats = Stats(avg: int, count: nat)

  function EstimatePromptTokens(bodyLen: nat): nat {
    if bodyLen / 4 < 1 then 1 else bodyLen / 4
  }

  function EstimateCompletionTokens(maxTokens: Option<int>, stats: Option<Stats>, pricing: Option<Pricing>): int {
    if maxTokens.Some? && maxTokens.value > 0 then maxTokens.value
    else if stats.Some? && stats.value.count >= 10 then stats.value.avg
    else if pricing.Some? && pricing.value.typicalCompletion > 0 then pricing.value.typicalCompletion
    else GLOBAL_DEFAULT_COMPLETION
  }

  function EstimateCost(pricing: Option<Pricing>, promptTokens: int, completionTokens: int): real {
    if pricing.None? then 0.0
    else
      var p := pricing.value;
      (promptTokens as real * p.promptRate + completionTokens as real * p.completionRate) / 1000000.0
  }

  function EstimateFromResponseBytes(bytes: nat): nat {
    if bytes / 4 < 1 && bytes > 0 then 1 else bytes / 4
  }

  lemma ScaledLeq(a: int, b: int, rate: real)
    requires a <= b && rate >= 0.0
    ensures a as real * rate <= b as real * rate
  {
    assert (b - a) as real * rate >= 0.0;
  }

  /** Fewer tokens never cost more. */
  lemma CostMonotone(pricing: Option<Pricing>, p: int, c: int, p': int, c': int)
    requires pricing.Some? ==> pricing.value.promptRate >= 0.0 && pricing.value.completionRate >= 0.0
    requires p <= p' && c <= c'
    ensures EstimateCost(pricing, p, c) <= EstimateCost(pricing, p', c')
  {
    if pricing.Some? {
      ScaledLeq(p, p', pricing.value.promptRate);
      ScaledLeq(c, c', pricing.value.completionRate);
    }
  }

  /** SQL integer division truncates toward zero. */
  function SqlDiv(a: int, b: int): int
    requires b > 0
  {
    if a >= 0 then a / b else -((-a) / b)
  }

  function Absorb(st: Option<Stats>, tokens: int): Stats {
    match st
    case None => Stats(tokens, 1)
    case Some(s) => Stats(SqlDiv(s.avg * s.count + tokens, s.count + 1), s.count + 1)
  }

  class UsageStats {
    /** Keyed by account and model. */
    var rows: map<(nat, string), Stats>

    constructor ()
      ensures rows == map[]
    {
      rows := map[];
    }

    method Update(account: nat, model: string, completionTokens: int)
      modifies this
      ensures var k := (account, model);
              rows == old(rows)[k := Absorb(if k in old(rows) then Some(old(rows)[k]) else None, completionTokens)]
    {
      var k := (account, model);
      if k !in rows {
        rows := rows[k := Stats(completionTokens, 1)];
      } else {
        var s := rows[k];
        rows := rows[k := Stats(SqlDiv(s.avg * s.count + completionTokens, s.count + 1), s.count + 1)];
      }
    }
  }

  function AfterSamples(xs: seq<int>): Option<Stats> {
    if xs == [] then None else Some(Absorb(AfterSamples(xs[..|xs| - 1]), xs[|xs| - 1]))
  }

  function Sum(xs: seq<int>): int {
    if xs == [] then 0 else Sum(xs[..|xs| - 1]) + xs[|xs| - 1]
  }

  lemma ProductLeq(a: int, b: int, n: nat)
    requires a <= b
    ensures a * n <= b * n
  {}

  lemma QuotientWithin(lo: int, hi: int, q: int, r: int, n: nat)
    requires 0 <= r < n && lo * n <= q * n + r <= hi * n
    ensures lo <= q <= hi
  {
    if q < lo {
      ProductLeq(q + 1, lo, n);
    } else if q > hi {
      ProductLeq(hi + 1, q, n);
    }
  }

  /** What rounding has dropped so far: the sum of the samples less the average times their number. */
  function Dropped(sum: int, avg: int, n: nat): int {
    sum - avg * n
  }

  lemma Division(total: int, m: nat)
    requires m >= 1
    ensures total == total / m * m + total % m && 0 <= total % m < m
  {}

  lemma DroppedGrows(sum: int, avg: int, n: nat, x: int, q: int, r: int)
    requires avg * n + x == q * (n + 1) + r
    ensures Dropped(sum + x, q, n + 1) == Dropped(sum, avg, n) + r
  {}

  lemma TriangleGrows(n: nat)
    ensures (n + 1) * n == n * (n - 1) + 2 * n
  {}

  lemma AbsorbStep(lo: nat, hi: int, sum: int, avg: int, n: nat, x: int)
    requires lo <= avg <= hi && lo <= x <= hi
    requires 0 <= 2 * Dropped(sum, avg, n) <= n * (n - 1)
    ensures var st := Absorb(Some(Stats(avg, n)), x);
            lo <= st.avg <= hi && st.count == n + 1 && 0 <= 2 * Dropped(sum + x, st.avg, n + 1) <= (n + 1) * n
  {
    hide Dropped;
    var total := avg * n + x;
    ProductLeq(0, avg, n);
    var q, r := total / (n + 1), total % (n + 1);
    Division(total, n + 1);
    DroppedGrows(sum, avg, n, x, q, r);
    TriangleGrows(n);
    AverageWithin(lo, hi, avg, n, x, q, r);
  }

  lemma AverageWithin(lo: int, hi: int, avg: int, n: nat, x: int, q: int, r: int)
    requires lo <= avg <= hi && lo <= x <= hi && avg * n + x == q * (n + 1) + r && 0 <= r <= n
    ensures lo <= q <= hi
  {
    ProductLeq(lo, avg, n);
    ProductLeq(avg, hi, n);
    QuotientWithin(lo, hi, q, r, n + 1);
  }

  /** The running average against the samples themselves, whatever bounds they obey: it stays
      within them, never exceeds the true mean, and the roundings it dropped add up to no more
      than 0 + 1 + ... + (n-1). */
  lemma {:induction false} RunningAverage(xs: seq<int>, lo: nat, hi: int)
    requires xs != [] && forall i :: 0 <= i < |xs| ==> lo <= xs[i] <= hi
    ensures var st := AfterSamples(xs);
            st.Some? && st.value.count == |xs| && lo <= st.value.avg <= hi &&
            0 <= 2 * Dropped(Sum(xs), st.value.avg, |xs|) <= |xs| * (|xs| - 1)
  {
    var n := |xs| - 1;
    if n > 0 {
      RunningAverage(xs[..n], lo, hi);
      var before := AfterSamples(xs[..n]).value;
      hide Absorb, Dropped;
      AbsorbStep(lo, hi, Sum(xs[..n]), before.avg, n, xs[n]);
      assert before == Stats(before.avg, n);
    } else {
      assert xs[..0] == [] && AfterSamples(xs[..0]) == None && Sum(xs[..0]) == 0;
    }
  }

  lemma RealProduct(a: int, n: int)
    ensures (a * n) as real == a as real * n as real
  {}

  lemma Cancel(x: real, y: real, r: real)
    requires r > 0.0 && x * r <= y * r
    ensures x <= y
  {
    Scale(x, y, r);
  }

  lemma Scale(x: real, y: real, r: real)
    requires r > 0.0
    ensures x > y ==> x * r > y * r
  {
    if x > y { Positive(x - y, r); }
  }

  lemma Positive(x: real, r: real)
    requires x > 0.0 && r > 0.0
    ensures x * r > 0.0
  {}

  lemma Spread(mean: real, a: real, r: real)
    ensures (mean - a) * r == mean * r - a * r && (r - 1.0) / 2.0 * r == r * (r - 1.0) / 2.0
  {}

  lemma MeanBounds(n: nat, s: int, a: int, mean: real)
    requires n >= 1 && mean * n as real == s as real && 0 <= 2 * Dropped(s, a, n) <= n * (n - 1)
    ensures mean - (n - 1) as real / 2.0 <= a as real <= mean
  {
    var r := n as real;
    RealProduct(a, n);
    RealProduct(n, n - 1);
    Spread(mean, a as real, r);
    var product := a * n;
    assert product <= s && 2 * (s - product) <= n * (n - 1);
    Cancel(a as real, mean, r);
    Cancel(mean - a as real, (r - 1.0) / 2.0, r);
  }

  /** After n updates the average is at most the true mean, and below it by at most (n-1)/2. */
  lemma AverageBelowMean(xs: seq<int>)
    requires xs != [] && forall i :: 0 <= i < |xs| ==> xs[i] > 0
    ensures var mean := Sum(xs) as real / |xs| as real;
            var avg := AfterSamples(xs).value.avg as real;
            mean - (|xs| - 1) as real / 2.0 <= avg <= mean
  {
    hide Sum, AfterSamples, Dropped;
    RunningAverage(xs, 0, Largest(xs));
    MeanBounds(|xs|, Sum(xs), AfterSamples(xs).value.avg, Sum(xs) as real / |xs| as real);
  }

  /** Estimates are positive whatever the request says, since the averages they may rest on come
      from positive samples. */
  lemma EstimatesPositive(bodyLen: nat, maxTokens: Option<int>, xs: seq<int>, pricing: Option<Pricing>)
    requires forall i :: 0 <= i < |xs| ==> xs[i] > 0
    ensures EstimatePromptTokens(bodyLen) >= 1 && EstimateCompletionTokens(maxTokens, AfterSamples(xs), pricing) >= 1
  {
    if xs != [] { RunningAverage(xs, 1, Largest(xs)); }
  }

  ghost function Largest(xs: seq<int>): (m: int)
    requires xs != []
    ensures forall i :: 0 <= i < |xs| ==> xs[i] <= m
  {
    if |xs| == 1 then xs[0]
    else var m := Largest(xs[..|xs| - 1]); if m >= xs[|xs| - 1] then m else xs[|xs| - 1]
  }
}
