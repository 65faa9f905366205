/** Filed-on-cap-hit credit requests, whose life is bounded by a calendar month.  Months are
    numbered 12 * year + month of the UTC clock; each SQL statement is one atomic step. */
module CreditRequests {
  import opened Common

  datatype Status = Pending | Granted | Dismissed | Expired

  /** A request's id is its index.  `resolvedIn` is the month it left pending. */
  datatype Request = Request(account: nat, period: int, status: Status, resolvedIn: Option<int>, note: Option<string>)

  datatype Decision = Grant | Dismiss

  datatype Outcome = Resolved | NotFound | AlreadyResolved | StalePeriod

  predicate Blocks(r: Request, account: nat, month: int) {
    r.account == account && r.period == month && (r.status == Pending || r.status == Dismissed)
  }

  function FileSpec(rows: seq<Request>, account: nat, month: int): (seq<Request>, Option<nat>) {
    if exists i :: 0 <= i < |rows| && Blocks(rows[i], account, month) then (rows, None)
    else (rows + [Request(account, month, Pending, None, None)], Some(|rows|))
  }

  function Expiry(r: Request, month: int): Request {
    if r.status == Pending && r.period < month then
      r.(status := Expired, resolvedIn := Some(month), note := Some("expired at month rollover"))
    else r
  }

  function ExpireSpec(rows: seq<Request>, month: int): seq<Request> {
    seq(|rows|, i requires 0 <= i < |rows| => Expiry(rows[i], month))
  }

  /** The guarded update at the heart of resolving. */
  function MarkSpec(rows: seq<Request>, id: nat, d: Decision, note: string, month: int): (seq<Request>, bool) {
    if id < |rows| && rows[id].status == Pending && rows[id].period >= month then
      (rows[id := rows[id].(status := if d == Grant then Granted else Dismissed, resolvedIn := Some(month),
                            note := if note == "" then None else Some(note))], true)
    else (rows, false)
  }

  class RequestStore {
    var rows: seq<Request>

    constructor ()
      ensures rows == []
    {
      rows := [];
    }

    method FileCreditRequest(account: nat, month: int) returns (id: Option<nat>)
      modifies this
      ensures (rows, id) == FileSpec(old(rows), account, month)
    {
      for i := 0 to |rows|
        invariant rows == old(rows)
        invariant forall k :: 0 <= k < i ==> !Blocks(rows[k], account, month)
      {
        if Blocks(rows[i], account, month) {
          return None;
        }
      }
      id := Some(|rows|);
      rows := rows + [Request(account, month, Pending, None, None)];
    }

    method ExpireStaleCreditRequests(month: int)
      modifies this
      ensures rows == ExpireSpec(old(rows), month)
    {
      for i := 0 to |rows|
        invariant |rows| == |old(rows)|
        invariant forall k :: 0 <= k < |rows| ==> rows[k] == if k < i then Expiry(old(rows)[k], month) else old(rows)[k]
      {
        rows := rows[i := Expiry(rows[i], month)];
      }
    }

    method ResolveCreditRequest(id: nat, d: Decision, note: string, month: int) returns (o: Outcome)
      modifies this
      ensures o == Resolved <==> MarkSpec(old(rows), id, d, note, month).1
      ensures o == Resolved ==>
                id < |rows| && rows[id].status == (match d case Grant => Granted case Dismiss => Dismissed)
      ensures o == NotFound <==> id >= |old(rows)|
      ensures o == StalePeriod <==> id < |old(rows)| && old(rows)[id].status == Pending && old(rows)[id].period < month
      ensures rows ==
              if o == StalePeriod then ExpireSpec(old(rows), month) else MarkSpec(old(rows), id, d, note, month).0
    {
      if id < |rows| && rows[id].status == Pending && rows[id].period >= month {
        var n := if note == "" then None else Some(note);
        var status := if d == Grant then Granted else Dismissed;
        rows := rows[id := rows[id].(status := status, resolvedIn := Some(month), note := n)];
        return Resolved;
      }
      if id >= |rows| {
        return NotFound;
      }
      if rows[id].status == Pending && rows[id].period < month {
        ExpireStaleCreditRequests(month);
        return StalePeriod;
      }
      return AlreadyResolved;
    }

    /** The ids with the given status, newest first, after expiring what is stale: a pending
        listing shows only requests that can still be acted on. */
    method ListCreditRequests(status: Status, month: int) returns (ids: seq<nat>)
      modifies this
      ensures rows == ExpireSpec(old(rows), month)
      ensures forall id: nat :: id in ids <==> id < |rows| && rows[id].status == status
      ensures forall i, j :: 0 <= i < j < |ids| ==> ids[i] > ids[j]
      ensures status == Pending ==> forall id :: id in ids ==> id < |rows| && rows[id].period >= month
    {
      ExpireStaleCreditRequests(month);
      ids := [];
      for i := 0 to |rows|
        invariant rows == ExpireSpec(old(rows), month)
        invariant forall id: nat :: id in ids <==> id < i && rows[id].status == status
        invariant forall k :: 0 <= k < |ids| ==> ids[k] < i
        invariant forall k, j :: 0 <= k < j < |ids| ==> ids[k] > ids[j]
      {
        if rows[i].status == status {
          ids := [i] + ids;
        }
      }
    }
  }

  // ---- Runs ---------------------------------------------------------------------------------

  datatype Op =
    | File(account: nat, month: int)
    | Expire(month: int)
    | Mark(id: nat, d: Decision, note: string, month: int)

  function Step(rows: seq<Request>, op: Op): seq<Request> {
    match op
    case File(account, month) => FileSpec(rows, account, month).0
    case Expire(month) => ExpireSpec(rows, month)
    case Mark(id, d, note, month) => MarkSpec(rows, id, d, note, month).0
  }

  function Run(rows: seq<Request>, ops: seq<Op>): seq<Request>
    decreases |ops|
  {
    if ops == [] then rows else Run(Step(rows, ops[0]), ops[1..])
  }

  /** Statements execute on a clock that never goes back to an earlier month. */
  ghost predicate Timely(now: int, ops: seq<Op>)
    decreases |ops|
  {
    ops == [] || (now <= ops[0].month && Timely(ops[0].month, ops[1..]))
  }

  ghost predicate OnlyLastUngranted(rows: seq<Request>) {
    forall i, j ::
      (0 <= i < j < |rows| && rows[i].account == rows[j].account && rows[i].period == rows[j].period) ==>
        rows[i].status == Granted
  }

  ghost predicate WithinMonth(rows: seq<Request>) {
    forall i :: 0 <= i < |rows| && (rows[i].status == Granted || rows[i].status == Dismissed) ==>
      rows[i].resolvedIn == Some(rows[i].period)
  }

  ghost predicate Dated(rows: seq<Request>, now: int) {
    forall i :: 0 <= i < |rows| ==> rows[i].period <= now && (rows[i].status == Expired ==> rows[i].period < now)
  }

  // ---- Exactly when the policy holds ---------------------------------------------------------

  predicate ExpiredFor(r: Request, account: nat, month: int) {
    r.account == account && r.period == month && r.status == Expired
  }

  /** The statement files a request although one for the same account and month has expired. */
  predicate Refiles(rows: seq<Request>, op: Op) {
    op.File? && FileSpec(rows, op.account, op.month).1.Some? &&
    exists i :: 0 <= i < |rows| && ExpiredFor(rows[i], op.account, op.month)
  }

  ghost predicate NeverRefiles(rows: seq<Request>, ops: seq<Op>)
    decreases |ops|
  {
    ops == [] || (!Refiles(rows, ops[0]) && NeverRefiles(Step(rows, ops[0]), ops[1..]))
  }

  /** A request that another one follows is out of the way for good. */
  ghost predicate OnlyLastOpen(rows: seq<Request>) {
    forall i, j ::
      (0 <= i < j < |rows| && rows[i].account == rows[j].account && rows[i].period == rows[j].period) ==>
        rows[i].status == Granted || rows[i].status == Expired
  }

  lemma StepKeepsOnlyLastOpen(rows: seq<Request>, op: Op)
    requires OnlyLastOpen(rows)
    ensures OnlyLastOpen(Step(rows, op))
  {
    var after := Step(rows, op);
    forall i, j | 0 <= i < j < |after| && after[i].account == after[j].account && after[i].period == after[j].period
      ensures after[i].status == Granted || after[i].status == Expired
    {
      if j < |rows| {
        assert rows[i].status == Granted || rows[i].status == Expired;
      } else {
        assert !Blocks(rows[i], op.account, op.month);
      }
    }
  }

  lemma PolicyStep(rows: seq<Request>, op: Op)
    requires OnlyLastOpen(rows)
    ensures OnlyLastUngranted(Step(rows, op)) <==> OnlyLastUngranted(rows) && !Refiles(rows, op)
  {
    var after := Step(rows, op);
    StepKeepsOnlyLastOpen(rows, op);
    if !OnlyLastUngranted(rows) {
      var i, j :| 0 <= i < j < |rows| && rows[i].account == rows[j].account && rows[i].period == rows[j].period &&
                  rows[i].status != Granted;
      assert after[i].account == after[j].account && after[i].period == after[j].period && after[i].status == Expired;
    } else if Refiles(rows, op) {
      var i :| 0 <= i < |rows| && ExpiredFor(rows[i], op.account, op.month);
      assert after[i] == rows[i] && after[|rows|].account == op.account && after[|rows|].period == op.month;
    } else {
      forall i, j | 0 <= i < j < |after| && after[i].account == after[j].account && after[i].period == after[j].period
        ensures after[i].status == Granted
      {
        if j < |rows| {
          assert rows[i].status == Granted;
        } else {
          assert !ExpiredFor(rows[i], op.account, op.month);
        }
      }
    }
  }

  lemma {:induction false} PolicyFrom(rows: seq<Request>, ops: seq<Op>)
    requires OnlyLastOpen(rows)
    ensures OnlyLastUngranted(Run(rows, ops)) <==> OnlyLastUngranted(rows) && NeverRefiles(rows, ops)
    decreases |ops|
  {
    if ops != [] {
      StepKeepsOnlyLastOpen(rows, ops[0]);
      PolicyStep(rows, ops[0]);
      PolicyFrom(Step(rows, ops[0]), ops[1..]);
    }
  }

  /** Whatever the clocks: for every account and month all requests but the last are granted, so at
      most one is pending and nothing follows a dismissal, exactly when no request is ever filed for
      an account and month of which one has expired. */
  lemma PolicyExact(ops: seq<Op>)
    ensures OnlyLastUngranted(Run([], ops)) <==> NeverRefiles([], ops)
  {
    PolicyFrom([], ops);
  }

  /** No request is granted or dismissed after its month. */
  ghost predicate NeverLate(rows: seq<Request>) {
    forall i :: 0 <= i < |rows| && (rows[i].status == Granted || rows[i].status == Dismissed) ==>
      rows[i].resolvedIn.Some? && rows[i].resolvedIn.value <= rows[i].period
  }

  /** That needs no clock either. */
  lemma {:induction false} NeverResolvedLate(rows: seq<Request>, ops: seq<Op>)
    requires NeverLate(rows)
    ensures NeverLate(Run(rows, ops))
    decreases |ops|
  {
    if ops != [] {
      NeverResolvedLate(Step(rows, ops[0]), ops[1..]);
    }
  }

  // ---- On a clock that never goes back ---------------------------------------------------------

  lemma StepKeepsDates(rows: seq<Request>, now: int, op: Op)
    requires WithinMonth(rows) && Dated(rows, now) && now <= op.month
    ensures !Refiles(rows, op) && WithinMonth(Step(rows, op)) && Dated(Step(rows, op), op.month)
  {}

  lemma {:induction false} TimelyNeverRefiles(rows: seq<Request>, now: int, ops: seq<Op>)
    requires WithinMonth(rows) && Dated(rows, now) && Timely(now, ops)
    ensures NeverRefiles(rows, ops) && WithinMonth(Run(rows, ops))
    decreases |ops|
  {
    if ops != [] {
      StepKeepsDates(rows, now, ops[0]);
      TimelyNeverRefiles(Step(rows, ops[0]), ops[0].month, ops[1..]);
    }
  }

  /** On such a clock the policy always holds, and every grant and dismissal falls in its request's
      own month. */
  lemma PolicyHolds(now: int, ops: seq<Op>)
    requires Timely(now, ops)
    ensures OnlyLastUngranted(Run([], ops)) && WithinMonth(Run([], ops))
  {
    TimelyNeverRefiles([], now, ops);
    PolicyExact(ops);
  }

  lemma OnePendingNothingAfterDismissal(ops: seq<Op>, now: int, i: nat, j: nat)
    requires Timely(now, ops) && i < j < |Run([], ops)|
    requires var rows := Run([], ops); rows[i].account == rows[j].account && rows[i].period == rows[j].period
    ensures Run([], ops)[i].status == Granted && Run([], ops)[i].resolvedIn == Some(Run([], ops)[i].period)
  {
    PolicyHolds(now, ops);
  }

  /** A request leaves pending at most once: after that no statement changes it, and no statement
      ever changes whose it is or for which month. */
  lemma {:induction false} ResolvedForGood(rows: seq<Request>, ops: seq<Op>, id: nat)
    requires id < |rows|
    ensures id < |Run(rows, ops)|
    ensures Run(rows, ops)[id].account == rows[id].account && Run(rows, ops)[id].period == rows[id].period
    ensures rows[id].status != Pending ==> Run(rows, ops)[id] == rows[id]
    decreases |ops|
  {
    if ops != [] {
      ResolvedForGood(Step(rows, ops[0]), ops[1..], id);
    }
  }

  /** The failing family: once a request has expired, a caller whose clock lags across the rollover
      files a second one, unless a dismissal or a pending request blocks it. */
  lemma LaggingClockRefiles(before: seq<Op>, account: nat, month: int, after: seq<Op>)
    requires var rows := Run([], before);
             (exists i :: 0 <= i < |rows| && ExpiredFor(rows[i], account, month)) &&
             forall i :: 0 <= i < |rows| ==> !Blocks(rows[i], account, month)
    ensures !OnlyLastUngranted(Run([], before + [File(account, month)] + after))
  {
    var rows, file := Run([], before), File(account, month);
    RunOpen([], before);
    assert Refiles(rows, file);
    PolicyStep(rows, file);
    StepKeepsOnlyLastOpen(rows, file);
    PolicyFrom(Step(rows, file), after);
    RunSplit([], before, [file] + after);
    assert before + ([file] + after) == before + [file] + after;
    assert ([file] + after)[1..] == after;
  }

  lemma {:induction false} RunOpen(rows: seq<Request>, ops: seq<Op>)
    requires OnlyLastOpen(rows)
    ensures OnlyLastOpen(Run(rows, ops))
    decreases |ops|
  {
    if ops != [] {
      StepKeepsOnlyLastOpen(rows, ops[0]);
      RunOpen(Step(rows, ops[0]), ops[1..]);
    }
  }

  lemma {:induction false} RunSplit(rows: seq<Request>, a: seq<Op>, b: seq<Op>)
    ensures Run(rows, a + b) == Run(Run(rows, a), b)
    decreases |a|
  {
    if a == [] {
      assert a + b == b;
    } else {
      assert (a + b)[1..] == a[1..] + b;
      RunSplit(Step(rows, a[0]), a[1..], b);
    }
  }

  lemma RunOne(rows: seq<Request>, op: Op)
    ensures Run(rows, [op]) == Step(rows, op)
  {
    assert [op][1..] == [];
    assert Run(Step(rows, op), []) == Step(rows, op);
  }

  /** The smallest run of the family: filed, expired from the next month, filed again. */
  lemma LaggingClockExample(account: nat, month: int)
    ensures !OnlyLastUngranted(Run([], [File(account, month), Expire(month + 1)] + [File(account, month)] + []))
  {
    var file, expire := File(account, month), Expire(month + 1);
    var filed := Step([], file);
    assert filed == [Request(account, month, Pending, None, None)];
    var rows := Step(filed, expire);
    assert |rows| == 1 && rows[0] == Expiry(filed[0], month + 1);
    assert ExpiredFor(rows[0], account, month) && !Blocks(rows[0], account, month);
    RunOne([], file);
    RunOne(filed, expire);
    RunSplit([], [file], [expire]);
    assert [file] + [expire] == [file, expire];
    hide Step, ExpiredFor, Blocks;
    LaggingClockRefiles([file, expire], account, month, []);
  }

  // ---- What each statement does -------------------------------------------------------------------------

  /** A request is filed exactly if none of the account's for the month is pending or dismissed; then it is the
      newest, and pending. */
  lemma Files(rows: seq<Request>, account: nat, month: int)
    ensures var (after, id) := FileSpec(rows, account, month);
            (id.Some? <==>
               forall r <- rows ::
                 r.account == account && r.period == month ==> r.status == Granted || r.status == Expired) &&
            if id.None? then after == rows
            else
              id.value == |rows| && |after| == |rows| + 1 && after[..|rows|] == rows &&
              after[|rows|].account == account && after[|rows|].period == month && after[|rows|].status == Pending &&
              after[|rows|].resolvedIn == None
  {
    var (after, id) := FileSpec(rows, account, month);
    if id.None? {
      var i :| 0 <= i < |rows| && Blocks(rows[i], account, month);
      assert rows[i] in rows;
    } else {
      forall r <- rows | r.account == account && r.period == month ensures r.status == Granted || r.status == Expired {
        var i :| 0 <= i < |rows| && rows[i] == r;
        assert !Blocks(rows[i], account, month);
      }
    }
  }

  /** A decision takes effect exactly on a pending request whose month has not ended: granting grants it,
      dismissing dismisses it, and no other request moves. */
  lemma Decides(rows: seq<Request>, id: nat, d: Decision, note: string, month: int)
    ensures var (after, done) := MarkSpec(rows, id, d, note, month);
            (done <==> id < |rows| && rows[id].status == Pending && month <= rows[id].period) &&
            |after| == |rows| && (forall i :: 0 <= i < |rows| && (!done || i != id) ==> after[i] == rows[i]) &&
            (done ==>
               after[id].account == rows[id].account && after[id].period == rows[id].period &&
               (d.Grant? ==> after[id].status == Granted) && (d.Dismiss? ==> after[id].status == Dismissed) &&
               after[id].resolvedIn == Some(month) &&
               (note == "" ==> after[id].note == None) && (note != "" ==> after[id].note == Some(note)))
  {}

  /** Expiring turns the pending requests of earlier months, and only those. */
  lemma Expires(rows: seq<Request>, month: int, i: nat)
    requires i < |rows|
    ensures |ExpireSpec(rows, month)| == |rows|
    ensures var r, after := rows[i], ExpireSpec(rows, month)[i];
            if r.status == Pending && r.period < month then
              after.account == r.account && after.period == r.period && after.status == Expired &&
              after.resolvedIn == Some(month) && after.note == Some("expired at month rollover")
            else after == r
  {}

  /** A dismissal silences the account for the month, for good. */
  lemma DismissalSilences(rows: seq<Request>, ops: seq<Op>, i: nat)
    requires i < |rows| && rows[i].status == Dismissed
    ensures FileSpec(Run(rows, ops), rows[i].account, rows[i].period) == (Run(rows, ops), None)
  {
    ResolvedForGood(rows, ops, i);
    Files(Run(rows, ops), rows[i].account, rows[i].period);
    assert Run(rows, ops)[i] in Run(rows, ops);
  }
}
