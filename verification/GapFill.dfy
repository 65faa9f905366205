/** Usage over time: dense time buckets from the sparse rows a grouping query returns. */
module GapFill {

  datatype Interval = Hour | Day

  /** A point in time, in nanoseconds; UTC days all have 24 hours. */
  datatype Time = Time(ns: int)

  const HOUR := 3_600_000_000_000

  /** The widest span the source's duration type can hold. */
  const MAX_DURATION := 0x7FFF_FFFF_FFFF_FFFF

  const MAX_BUCKETS := 2000

  function Step(interval: Interval): (step: int)
    ensures step > 0
  {
    if interval.Day? then 24 * HOUR else HOUR
  }

  function Duration(later: int, earlier: int): int {
    var d := later - earlier;
    if d > MAX_DURATION then MAX_DURATION else if d < -MAX_DURATION - 1 then -MAX_DURATION - 1 else d
  }

  predicate WindowFits(since: Time, until: Time, interval: Interval) {
    Duration(until.ns, since.ns) <= MAX_BUCKETS * Step(interval)
  }

  function Truncate(t: Time, interval: Interval): Time {
    Time(t.ns - t.ns % Step(interval))
  }

  function Advance(t: Time, interval: Interval): Time {
    Time(t.ns + Step(interval))
  }

  datatype Totals = Totals(requests: int, prompt: int, completion: int, total: int, credits: real, errors: int)

  const ZERO := Totals(0, 0, 0, 0, 0.0, 0)

  datatype Bucket = Bucket(start: Time, totals: Totals)

  // ---- Gap filling ------------------------------------------------------------------------------

  /** What the rows say about a bucket. */
  function TotalsAt(rows: seq<Bucket>, t: Time): Totals {
    if rows == [] then ZERO
    else if rows[|rows| - 1].start == t then rows[|rows| - 1].totals
    else TotalsAt(rows[..|rows| - 1], t)
  }

  function Filled(rows: seq<Bucket>, from: Time, end: Time, interval: Interval): seq<Bucket>
    decreases end.ns - from.ns
  {
    if from.ns >= end.ns then []
    else [Bucket(from, TotalsAt(rows, from))] + Filled(rows, Advance(from, interval), end, interval)
  }

  lemma NoRowNoTotals(rows: seq<Bucket>, t: Time)
    requires forall i :: 0 <= i < |rows| ==> rows[i].start != t
    ensures TotalsAt(rows, t) == ZERO
  {}

  method GapFillBuckets(rows: seq<Bucket>, since: Time, until: Time, interval: Interval) returns (out: seq<Bucket>)
    ensures out == Filled(rows, Truncate(since, interval), until, interval)
  {
    var start := Truncate(since, interval);
    var byBucket: map<Time, Bucket> := map[];
    for i := 0 to |rows|
      invariant forall t :: t in byBucket ==> byBucket[t].totals == TotalsAt(rows[..i], t)
      invariant forall t :: t !in byBucket ==> TotalsAt(rows[..i], t) == ZERO
    {
      assert rows[..i + 1][..i] == rows[..i];
      byBucket := byBucket[rows[i].start := rows[i]];
    }
    assert rows[..|rows|] == rows;
    out := [];
    var b := start;
    while b.ns < until.ns
      invariant out + Filled(rows, b, until, interval) == Filled(rows, start, until, interval)
      decreases until.ns - b.ns
    {
      ghost var before := out;
      if b in byBucket {
        out := out + [byBucket[b].(start := b)];
      } else {
        out := out + [Bucket(b, ZERO)];
      }
      Moved(before, Bucket(b, TotalsAt(rows, b)), Filled(rows, Advance(b, interval), until, interval));
      b := Advance(b, interval);
    }
  }

  lemma Moved(a: seq<Bucket>, x: Bucket, b: seq<Bucket>)
    ensures (a + [x]) + b == a + ([x] + b)
  {}

  // ---- The buckets ------------------------------------------------------------------------------

  predicate Aligned(t: Time, interval: Interval) {
    t.ns % Step(interval) == 0
  }

  /** Every instant lies in the step that starts at its truncation. */
  lemma TruncationBrackets(t: Time, interval: Interval)
    ensures Aligned(Truncate(t, interval), interval)
    ensures Truncate(t, interval).ns <= t.ns < Advance(Truncate(t, interval), interval).ns
  {
    Multiple(t.ns, Step(interval));
  }

  lemma Multiple(n: int, step: int)
    requires step > 0
    ensures (n - n % step) % step == 0
  {
    var q := n / step;
    assert n - n % step == q * step;
    MultipleOf(q, step);
  }

  lemma MultipleOf(q: int, step: int)
    requires step > 0
    ensures (q * step) % step == 0
  {
    var r := (q * step) % step;
    var p := (q * step) / step;
    assert r == (q - p) * step;
    Multiples(q - p, step);
  }

  lemma Multiples(k: int, step: int)
    requires step > 0
    ensures (k >= 1 ==> k * step >= step) && (k <= -1 ==> k * step <= -step)
  {}

  /** Strictly increasing without gaps, from `from` to the last step that starts before `end`. */
  lemma {:induction false} Contiguous(rows: seq<Bucket>, from: Time, end: Time, interval: Interval)
    ensures var out := Filled(rows, from, end, interval);
            (forall i :: 0 <= i < |out| ==> out[i].start.ns == from.ns + i * Step(interval)) &&
            end.ns <= from.ns + |out| * Step(interval) &&
            (|out| > 0 ==> from.ns + (|out| - 1) * Step(interval) < end.ns)
    decreases end.ns - from.ns
  {
    if from.ns < end.ns {
      Contiguous(rows, Advance(from, interval), end, interval);
    }
  }

  lemma {:induction false} CountOfRows(rows: seq<Bucket>, from: Time, end: Time, interval: Interval)
    ensures |Filled(rows, from, end, interval)| == |Filled([], from, end, interval)|
    decreases end.ns - from.ns
  {
    if from.ns < end.ns { CountOfRows(rows, Advance(from, interval), end, interval); }
  }

  /** Whatever the rows, the window check bounds the buckets by one more than its limit, and turns
      away only windows that would reach that many; their number depends on the window alone. */
  lemma CheckBoundsBuckets(rows: seq<Bucket>, since: Time, until: Time, interval: Interval)
    ensures var n := |Filled(rows, Truncate(since, interval), until, interval)|;
            (WindowFits(since, until, interval) ==> n <= 2001) &&
            (!WindowFits(since, until, interval) ==> n >= 2001) &&
            n == |Filled([], Truncate(since, interval), until, interval)|
  {
    var start := Truncate(since, interval);
    var step, n := Step(interval), |Filled(rows, start, until, interval)|;
    CountOfRows(rows, start, until, interval);
    TruncationBrackets(since, interval);
    Contiguous(rows, start, until, interval);
    hide Filled;
    assert WindowFits(since, until, interval) <==> until.ns - since.ns <= MAX_BUCKETS * step;
    if WindowFits(since, until, interval) {
      assert until.ns < start.ns + (MAX_BUCKETS + 1) * step;
      if n > 0 { Fewer(n - 1, MAX_BUCKETS + 1, step); }
    } else {
      assert MAX_BUCKETS * step < n * step;
      Fewer(MAX_BUCKETS, n, step);
    }
  }

  lemma Fewer(a: int, b: int, step: int)
    requires step > 0 && a * step < b * step
    ensures a < b
  {
    NoFewer(a, b, step);
  }

  lemma NoFewer(a: int, b: int, step: int)
    requires step > 0
    ensures a >= b ==> a * step >= b * step
  {}

  // ---- The totals -------------------------------------------------------------------------------

  /** A logged request. */
  datatype Entry = Entry(at: Time, prompt: int, completion: int, total: int, credits: real, failed: bool)

  function Plus(a: Totals, b: Totals): Totals {
    Totals(a.requests + b.requests, a.prompt + b.prompt, a.completion + b.completion, a.total + b.total,
           a.credits + b.credits, a.errors + b.errors)
  }

  function Single(e: Entry): Totals {
    Totals(1, e.prompt, e.completion, e.total, e.credits, if e.failed then 1 else 0)
  }

  /** A query: the entries of a window, all or those of one bucket or those of a bucket onwards. */
  datatype Query = All(since: Time, until: Time)
                 | In(since: Time, until: Time, interval: Interval, bucket: Time)
                 | From(since: Time, until: Time, interval: Interval, bucket: Time)

  predicate Selects(q: Query, e: Entry) {
    q.since.ns <= e.at.ns < q.until.ns &&
    match q
    case All(_, _) => true
    case In(_, _, interval, bucket) => Truncate(e.at, interval) == bucket
    case From(_, _, interval, bucket) => Truncate(e.at, interval).ns >= bucket.ns
  }

  function Sum(entries: seq<Entry>, q: Query): Totals {
    if entries == [] then ZERO
    else
      var front := Sum(entries[..|entries| - 1], q);
      var e := entries[|entries| - 1];
      if Selects(q, e) then Plus(front, Single(e)) else front
  }

  /** The rows of grouping the window's entries by truncated time, in order. */
  ghost predicate Grouped(rows: seq<Bucket>, entries: seq<Entry>, since: Time, until: Time, interval: Interval) {
    (forall i, j :: 0 <= i < j < |rows| ==> rows[i].start.ns < rows[j].start.ns) &&
    (forall i :: 0 <= i < |rows| ==> rows[i].totals == Sum(entries, In(since, until, interval, rows[i].start))) &&
    (forall e <- entries :: Selects(All(since, until), e) ==> HasBucket(rows, Truncate(e.at, interval)))
  }

  ghost predicate HasBucket(rows: seq<Bucket>, t: Time) {
    exists i :: 0 <= i < |rows| && rows[i].start == t
  }

  lemma {:induction false} NothingSelected(entries: seq<Entry>, q: Query)
    requires forall e <- entries :: !Selects(q, e)
    ensures Sum(entries, q) == ZERO
  {
    if entries != [] {
      assert entries[|entries| - 1] in entries;
      NothingSelected(entries[..|entries| - 1], q);
    }
  }

  lemma {:induction false} FindsRow(rows: seq<Bucket>, t: Time)
    requires HasBucket(rows, t)
    ensures exists i :: 0 <= i < |rows| && rows[i].start == t && TotalsAt(rows, t) == rows[i].totals
  {
    var last := rows[|rows| - 1];
    if last.start != t {
      var i :| 0 <= i < |rows| && rows[i].start == t;
      assert rows[..|rows| - 1][i].start == t;
      FindsRow(rows[..|rows| - 1], t);
    }
  }

  /** Every bucket carries the totals of its own entries, whether or not the query returned a row for it. */
  lemma BucketTotals(rows: seq<Bucket>, entries: seq<Entry>, since: Time, until: Time, interval: Interval, t: Time)
    requires Grouped(rows, entries, since, until, interval)
    ensures TotalsAt(rows, t) == Sum(entries, In(since, until, interval, t))
  {
    if HasBucket(rows, t) {
      FindsRow(rows, t);
    } else {
      NoRowNoTotals(rows, t);
      NothingSelected(entries, In(since, until, interval, t));
    }
  }

  lemma Stepwise(t: Time, bucket: Time, interval: Interval)
    requires Aligned(t, interval) && Aligned(bucket, interval)
    ensures t.ns >= bucket.ns <==> t == bucket || t.ns >= bucket.ns + Step(interval)
    ensures Aligned(Advance(bucket, interval), interval)
  {
    var step := Step(interval);
    var a, b := t.ns / step, bucket.ns / step;
    assert t.ns == a * step && bucket.ns == b * step;
    MultipleOf(b + 1, step);
    Multiples(a - b, step);
  }

  /** The entries from a bucket onwards are those in it and those from the next one onwards. */
  lemma {:induction false} SplitsOffBucket(entries: seq<Entry>, since: Time, until: Time, interval: Interval, t: Time)
    requires Aligned(t, interval)
    ensures Sum(entries, From(since, until, interval, t)) ==
            Plus(Sum(entries, In(since, until, interval, t)),
                 Sum(entries, From(since, until, interval, Advance(t, interval))))
  {
    if entries != [] {
      var e := entries[|entries| - 1];
      TruncationBrackets(e.at, interval);
      Stepwise(Truncate(e.at, interval), t, interval);
      SplitsOffBucket(entries[..|entries| - 1], since, until, interval, t);
    }
  }

  function SumOfBuckets(out: seq<Bucket>): Totals {
    if out == [] then ZERO else Plus(out[0].totals, SumOfBuckets(out[1..]))
  }

  lemma NoneFromTheEnd(entries: seq<Entry>, since: Time, until: Time, interval: Interval, from: Time)
    requires from.ns >= until.ns
    ensures Sum(entries, From(since, until, interval, from)) == ZERO
  {
    forall e <- entries ensures !Selects(From(since, until, interval, from), e) {
      TruncationBrackets(e.at, interval);
    }
    NothingSelected(entries, From(since, until, interval, from));
  }

  lemma {:induction false} FilledTotals(rows: seq<Bucket>, entries: seq<Entry>, since: Time, until: Time,
                                        interval: Interval, from: Time)
    requires Grouped(rows, entries, since, until, interval) && Aligned(from, interval)
    ensures SumOfBuckets(Filled(rows, from, until, interval)) == Sum(entries, From(since, until, interval, from))
    decreases until.ns - from.ns
  {
    hide Sum, Selects, Aligned, Grouped, TotalsAt, Plus;
    if from.ns >= until.ns {
      NoneFromTheEnd(entries, since, until, interval, from);
    } else {
      Stepwise(from, from, interval);
      FilledTotals(rows, entries, since, until, interval, Advance(from, interval));
      BucketTotals(rows, entries, since, until, interval, from);
      SplitsOffBucket(entries, since, until, interval, from);
    }
  }

  lemma {:induction false} SameSelection(entries: seq<Entry>, q: Query, q': Query)
    requires forall e <- entries :: Selects(q, e) <==> Selects(q', e)
    ensures Sum(entries, q) == Sum(entries, q')
  {
    if entries != [] {
      assert entries[|entries| - 1] in entries;
      SameSelection(entries[..|entries| - 1], q, q');
    }
  }

  lemma TruncateMonotone(a: Time, b: Time, interval: Interval)
    requires a.ns <= b.ns
    ensures Truncate(a, interval).ns <= Truncate(b, interval).ns
  {
    TruncationBrackets(a, interval);
    TruncationBrackets(b, interval);
    Stepwise(Truncate(b, interval), Truncate(a, interval), interval);
    Stepwise(Truncate(a, interval), Truncate(b, interval), interval);
  }

  /** Filling the gaps of grouped rows loses and invents nothing: the buckets add up to the totals of
      the window's ungrouped entries. */
  lemma GapFillConserves(rows: seq<Bucket>, entries: seq<Entry>, since: Time, until: Time, interval: Interval)
    requires Grouped(rows, entries, since, until, interval)
    ensures SumOfBuckets(Filled(rows, Truncate(since, interval), until, interval)) == Sum(entries, All(since, until))
  {
    var start := Truncate(since, interval);
    TruncationBrackets(since, interval);
    FilledTotals(rows, entries, since, until, interval, start);
    var q, q' := From(since, until, interval, start), All(since, until);
    forall e <- entries ensures Selects(q, e) <==> Selects(q', e) {
      if Selects(q', e) { TruncateMonotone(since, e.at, interval); }
    }
    SameSelection(entries, q, q');
  }

  /** Each bucket of the filled series holds the totals of the entries whose truncation it starts at. */
  lemma {:induction false} FilledBuckets(rows: seq<Bucket>, entries: seq<Entry>, since: Time, until: Time,
                                         interval: Interval, from: Time)
    requires Grouped(rows, entries, since, until, interval)
    ensures forall b <- Filled(rows, from, until, interval) ::
              b.totals == Sum(entries, In(since, until, interval, b.start))
    decreases until.ns - from.ns
  {
    hide Grouped, Sum;
    if from.ns < until.ns {
      BucketTotals(rows, entries, since, until, interval, from);
      FilledBuckets(rows, entries, since, until, interval, Advance(from, interval));
    }
  }

  /** Buckets are an hour or a day apart, to the nanosecond. */
  lemma StepsApart(t: Time)
    ensures Advance(t, Hour).ns - t.ns == 60 * 60 * 1_000_000_000
    ensures Advance(t, Day).ns - t.ns == 24 * 60 * 60 * 1_000_000_000
  {}

  /** One more entry counts as one request, adds its tokens and credits each to their own total, and as an error
      if it failed; if the query does not select it, it adds nothing. */
  lemma EntryAdds(entries: seq<Entry>, e: Entry, q: Query)
    ensures var a, b := Sum(entries, q), Sum(entries + [e], q);
            if q.since.ns <= e.at.ns < q.until.ns && (q.All? || (q.In? && Truncate(e.at, q.interval) == q.bucket) ||
                                                      (q.From? && Truncate(e.at, q.interval).ns >= q.bucket.ns))
            then
              b.requests == a.requests + 1 && b.prompt == a.prompt + e.prompt &&
              b.completion == a.completion + e.completion && b.total == a.total + e.total &&
              b.credits == a.credits + e.credits && b.errors == a.errors + (if e.failed then 1 else 0)
            else b == a
  {
    assert (entries + [e])[..|entries|] == entries;
  }

  lemma NoEntries(q: Query)
    ensures Sum([], q) == Totals(0, 0, 0, 0, 0.0, 0)
  {}
}
