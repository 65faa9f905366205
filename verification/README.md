# Inference gateway: verified model

A Dafny model of the hard logic of a self-hosted inference gateway, with proofs about it. The gateway
meters accounts in credits, routes requests to inference nodes, limits their rate and concurrency, and
relays answers. Check it with `dafny verify dfyconfig.toml` (Dafny 4.11).

| files | what they model |
|---|---|
| `TokenBuckets`, `LimiterLaws` | the keyed token-bucket limiter: refill, refund, eviction, Retry-After |
| `Concurrency`, `Admission`, `Rejections` | the keyed semaphore, the middleware that puts the three gates in order, and what a rejected request leaves behind, for any interleaving of requests |
| `Ledger`, `LedgerLaws` | balances, holds and the audit trail; each store transaction is one atomic step |
| `Estimator` | cost estimates and the running average of completion tokens |
| `RequestHolds`, `Billing` | the life of a request's hold among handlers, sweeper, cleanup, top-ups and resets, and what it is billed |
| `Provisioning`, `CreditRequests` | the race to provision a federated identity; month-bound credit requests |
| `NodeRegistry`, `RoundRobin`, `NodePoller` | the published routing snapshot, fair resolution, the per-node health machine |
| `SseRelay`, `SseExact`, `UsageInjection` | hiding the usage event the proxy provoked, and exactly when that goes unnoticed; provoking it |
| `EnvExpansion`, `NodeStore`, `DeclaredNodes`, `NodeMerge`, `MergeLaws` | `${VAR}` expansion, the node table, loading the declared nodes and merging them into the table |
| `GapFill` | dense time buckets from grouped usage rows |

Code that updates state in place is modelled by classes and loops, each method proved against a
specification function (`AllowSpec`, `SettleSpec`, `Merged`, ...); the laws are proved about those
functions and about runs of them. Ids are natural numbers, amounts and the limiter's clock are exact
reals, a month is the number `12 * year + month`, and a usage timestamp is a count of nanoseconds.

Four places where the code's own promise holds only under a condition, which is stated exactly:

- Hiding the usage event. The relay decides line by line, a client event by event. For every stream whose
  lines end in LF or CRLF, the client sees the upstream events minus the usage-only ones if and only if
  every event is clean: where the event is usage-only, each of its data lines looks usage-only by itself, and
  elsewhere none does (`SseExact.SeesNoUsageEventExactly`). One data line per event is always clean
  (`SseExact.StandardStream`); an event that is not usage-only but has a line that looks so loses that line
  (`SseExact.SharedEventIsCut`).
- The filing policy for credit requests holds, whatever the clocks, if and only if no request is filed for an
  account and month of which one has expired (`CreditRequests.PolicyExact`). A clock that never goes back a
  month guarantees that (`CreditRequests.PolicyHolds`); a caller whose clock lags across a rollover breaks it
  (`CreditRequests.LaggingClockRefiles`).
- The declarative merge promises to apply nothing of a bad file (`nodesource.go:42-46`). Loading canonicalises
  every base URL and the store canonicalises it again on writing. Once loading and the collision pass have
  succeeded the merge is carried out in full if and only if the second canonicalisation accepts every loaded
  URL; otherwise it stops at the first it refuses, with the declarations before it written and nothing disabled
  (`NodeMerge.SyncDeclaredNodes`, `MergeLaws.StoppedIsHalfway`, `MergeLaws.SyncTwice`). By the Go library's URL syntax a zoned IPv6 host
  such as `http://[fe80::1%25eth0]:11434` is accepted once, printed with its escape decoded, and then refused
  (`MergeLaws.ZonedHostLoads`, `MergeLaws.UnstableUrlStopsMerge`).
- `NodePoller.IdentityExact` says exactly which spec changes reset a node. Pinned model lists are told apart
  only by the text they join to, so pinning no model and pinning one nameless model are not
  (`NodePoller.EmptyPinCollides`), nor are names that hold the separator U+001F themselves, which nothing
  rejects; other lists are (`NodePoller.JoinExact`).

## Model

| member | source | states |
|---|---|---|
| TokenBuckets.Limiter.Allow | internal/ratelimit/ratelimit.go:66-103 | a call refills or creates the id's bucket at the call's limit, then takes a token or answers how long to wait; no other bucket moves |
| TokenBuckets.Limiter.Return | internal/ratelimit/ratelimit.go:111-119 | a refund gives one token back up to the capacity; an evicted id stays evicted |
| TokenBuckets.Limiter.Prune | internal/ratelimit/ratelimit.go:121-130 | exactly the buckets idle past the cutoff go, whatever order they are visited in |
| TokenBuckets.PruneSpares | internal/ratelimit/ratelimit.go:17-20 | a bucket used within the last ten minutes survives a prune as it is, any other goes |
| TokenBuckets.ZeroLimit | internal/ratelimit/ratelimit.go:66-103 | at a limit of zero a known id is denied with no finite wait, an unknown one is let through once |
| TokenBuckets.StepKeepsSound | internal/ratelimit/ratelimit.go:66-130 | no call makes tokens negative or dates a bucket in the future |
| TokenBuckets.RunKeepsSound | internal/ratelimit/ratelimit.go:66-130 | the same over whole runs on a non-decreasing clock |
| TokenBuckets.IdleBucketIsFull | internal/ratelimit/ratelimit.go:17-21 | a bucket old enough to be evicted would have refilled completely, whatever the limit is by then |
| TokenBuckets.EvictionSimulates | internal/ratelimit/ratelimit.go:66-130 | one call keeps a pruned limiter equivalent to an unpruned one and gets the same verdict from both |
| TokenBuckets.PruningSimulated | internal/ratelimit/ratelimit.go:66-130 | whole runs get the same verdicts from a limiter and from one that lost idle buckets |
| TokenBuckets.PruningUnobservable | internal/ratelimit/ratelimit.go:66-130 | deleting every prune from any run, with limits that change between calls, changes no decision and no retry-after |
| LimiterLaws.LevelStep | internal/ratelimit/ratelimit.go:66-130 | a grant takes exactly one token, a refund gives one back up to the limit, a denial or a prune moves nothing, and the verdict depends on the level alone |
| LimiterLaws.LevelAges | internal/ratelimit/ratelimit.go:66-103 | refilling in two steps is refilling once |
| LimiterLaws.LevelAccounts | internal/ratelimit/ratelimit.go:66-119 | grants less refunds of a run are paid for by the starting level and what accrues |
| LimiterLaws.WindowBound | internal/ratelimit/ratelimit.go:66-119 | in any window of t seconds of any run, grants less refunds of one id are at most R + R*t/60, pruning included |
| LimiterLaws.RetryAfterExact | internal/ratelimit/ratelimit.go:66-103 | a denied caller with no call in between is granted exactly when it waited at least the retry-after, which lies in (0, 60] seconds |
| LimiterLaws.RetryHeader | internal/ratelimit/middleware.go:135-146 | the header is the wait rounded up to whole seconds, in [1, 3600], and an hour if there is no finite wait |
| LimiterLaws.HeaderSuffices | internal/ratelimit/middleware.go:135-146 | waiting the clamped header always suffices |
| LimiterLaws.HeaderLeast | internal/ratelimit/middleware.go:135-146 | any fewer whole seconds than the header would be too few |
| LimiterLaws.RefundUnobservable | internal/ratelimit/ratelimit.go:105-119 | a granted call that is refunded with no call on its id in between leaves every verdict, then and ever after, as if it never came |
| Concurrency.ConcurrencyLimiter.TryAcquire | internal/ratelimit/concurrency.go:25-36 | a slot is granted exactly below the cap and counted, and a cap of zero or less is unlimited and uncounted |
| Concurrency.ConcurrencyLimiter.Release | internal/ratelimit/concurrency.go:40-55 | a release gives back one slot and drops an entry that reaches zero |
| Concurrency.Acquires | internal/ratelimit/concurrency.go:25-36 | a slot is granted exactly below the cap or without one, counted only under a cap, and no other account's count moves |
| Concurrency.Releases | internal/ratelimit/concurrency.go:40-55 | a release takes exactly one off its account's count and leaves no empty entry |
| Concurrency.ConcurrencyLimiter.InFlight | internal/ratelimit/concurrency.go:59-70 | the gauge is the sum over all accounts |
| Concurrency.TotalWithout | internal/ratelimit/concurrency.go:59-70 | that sum does not depend on the order of visiting |
| Admission.Middleware.Admit | internal/ratelimit/middleware.go:69-120 | the gates in order: what each outcome charged, refunded and acquired, and what it left alone |
| Admission.UninterruptedIsGated | internal/ratelimit/middleware.go:69-120 | the steps of one uninterrupted request add up to that contract, and reach the handler exactly when admitted |
| Admission.KeyRejectUnobservable | internal/ratelimit/middleware.go:80-98 | a key-level reject, with any calls of other accounts and prunes in between, leaves the account limiter observationally as if the request never came |
| Admission.MoveChangesHolders | internal/ratelimit/middleware.go:100-120 | a step changes the slot holders of an account only by the request it moves |
| Admission.AdvanceIsSlotMove | internal/ratelimit/middleware.go:69-120 | every step of a request acquires, releases or leaves the semaphore alone |
| Admission.SlotMoveKeepsCounted | internal/ratelimit/concurrency.go:25-55 | acquire and release keep the count of every account exact and within its cap |
| Admission.StepKeepsCounted | internal/ratelimit/middleware.go:69-120 | so does every event |
| Admission.SlotsCounted | internal/ratelimit/middleware.go:69-120 | in every interleaving an account's in-use count is the number of its requests between acquire and deferred release, never above the cap, with an entry only when positive |
| Admission.TotalCounts | internal/ratelimit/concurrency.go:59-70 | per-account counts of holders add up to the number of holders |
| Admission.InFlightCounts | internal/ratelimit/concurrency.go:59-70 | the gauge is the number of requests being served under a slot |
| Admission.HeldTo | internal/ratelimit/middleware.go:28-46 | an account without a limit of its own is held to the default of its class, end users' or services', in rate and in flight |
| Admission.AccountGate | internal/ratelimit/middleware.go:80-88 | the account gate turns away exactly below one token at that limit, and otherwise takes one |
| Admission.KeyGate | internal/ratelimit/middleware.go:90-98 | so does the key gate at the key's limit, handing rejects of billed requests to the refund |
| Admission.RefusedOnlyAtCap | internal/ratelimit/middleware.go:100-110 | in every reachable state a request is refused a slot exactly if as many of its account are being served as its class may have |
| Admission.SlotsAreBySort | internal/ratelimit/middleware.go:100-116 | in every interleaving a request is served under a slot exactly if it has a key, is billed and is no GET |
| Rejections.VerdictsDecide | internal/ratelimit/middleware.go:69-120 | a request's step depends on the limiters only through their verdicts |
| Rejections.CloseStep | internal/ratelimit/ratelimit.go:66-130 | limiters that differ by a token one id owes give the same verdict to every call not on that id, and keep differing by just that |
| Rejections.CloseOwn | internal/ratelimit/ratelimit.go:66-103 | an id's own call, made on one of two limiters alone, leaves them apart by exactly the token granted, and not apart if denied |
| Rejections.OtherAdvances | internal/ratelimit/middleware.go:69-120 | a step of any other request goes the same way with and without the rejected one |
| Rejections.OwnAdvances | internal/ratelimit/middleware.go:80-98 | a step of the rejected request leaves the rest of the system as it would be without it, but for the token it has out |
| Rejections.TurnedAwayUnobservable | internal/ratelimit/middleware.go:69-120 | erasing from any run a request that its account's or its key's limit turns away, with no other call on its account between charge and refund, changes no verdict, retry-after or position of any other request, nor any slot |
| Ledger.CreditStore.InitCreditBalance | internal/store/credits.go:45-52 | a balance row is created once and never overwritten |
| Ledger.CreditStore.GrantOnRegistration | internal/store/credits.go:521-543 | a new account starts at its token's grant, recorded when positive |
| Ledger.CreditStore.AddCredits | internal/store/credits.go:66-94 | adds to the balance and records the resulting balance |
| Ledger.CreditStore.ReserveCredits | internal/store/credits.go:98-144 | creates a pending hold exactly when the unreserved balance covers it |
| Ledger.CreditStore.SettleHold | internal/store/credits.go:150-200 | charges a pending hold in full and frees its reservation; a hold no longer pending is charged 0 and nothing changes |
| Ledger.CreditStore.ReleaseHold | internal/store/credits.go:203-234 | frees a pending hold without a charge, else changes nothing |
| Ledger.StaleIds | internal/store/credits.go:238-260 | the sweeper's list is exactly the pending holds older than the cutoff |
| Ledger.CreditStore.FindStaleHolds | internal/store/credits.go:240-260 | the loop collects exactly that list |
| Ledger.CreditStore.SweepStaleHolds | internal/store/credits.go:238-270 | releases every stale hold, one transaction at a time, and counts them |
| Ledger.CreditStore.CleanupSettledHolds | internal/store/credits.go:273-283 | deletes exactly the closed holds past the cutoff |
| Ledger.CreditStore.ApplyMonthlyAllowance | internal/store/federated.go:169-219 | resets a managed account to its grant at most once a month and leaves its holds alone |
| LedgerLaws.StepKeepsReserves | internal/store/credits.go:66-283 | every transaction keeps each account's reserved equal to the sum of its pending holds |
| LedgerLaws.StepKeepsReplays | internal/store/credits.go:66-200 | every transaction keeps the audit trail replayable to every recorded balance and the current one |
| LedgerLaws.BooksBalance | internal/store/credits.go:66-283 | both hold in every reachable state |
| LedgerLaws.SettleCharges | internal/store/credits.go:150-200 | settling a pending hold charges exactly what was asked, frees its reservation and touches no other hold or account; any other id is charged nothing |
| LedgerLaws.ReleaseFrees | internal/store/credits.go:203-234 | releasing never moves a balance and frees exactly a pending hold's reservation |
| LedgerLaws.ReserveCovers | internal/store/credits.go:98-144 | a hold is made exactly if the balance covers it beside the account's pending holds, for exactly the amount asked |
| LedgerLaws.ResetSets | internal/store/federated.go:187-214 | the first activity of a later month, and no other, sets the balance to the grant |
| LedgerLaws.RegistrationGrants | internal/store/credits.go:521-543 | a new account starts at its token's positive grant, or zero |
| LedgerLaws.CleanupDeletes | internal/store/credits.go:273-283 | cleanup deletes exactly the closed holds settled before the cutoff |
| LedgerLaws.BalanceEquation | internal/store/credits.go:66-283 | over any run between resets, a balance is what it was plus what was credited less what settlements of its pending holds asked for |
| LedgerLaws.SweepClears | internal/store/credits.go:238-270 | after a sweep no pending hold is older than the cutoff, no other hold changed, and the books balance |
| LedgerLaws.ReleaseAllReleases | internal/store/credits.go:203-270 | releasing a list of holds one by one closes exactly the pending ones among them |
| LedgerLaws.StepKeepsResetsAscending | internal/store/federated.go:187-214 | no transaction records an allowance for a month already granted |
| LedgerLaws.ResetMonthsIncrease | internal/store/federated.go:187-214 | the resets of one account carry strictly increasing months whatever order the clock readings arrive in |
| LedgerLaws.ExposurePays | internal/store/credits.go:106-200 | one transaction's charge comes out of what balance or holds already cover, a top-up, or an overrun |
| LedgerLaws.ChargesCovered | internal/store/credits.go:106-200 | so do all charges of a run without a reset |
| LedgerLaws.MonthlySpendCapped | internal/store/federated.go:187-207 | between two resets an account is charged at most max(grant, holds pending at the reset) plus positive top-ups plus overruns, hence at most their sum |
| LedgerLaws.NoOverrunWithinHolds | internal/store/credits.go:150-200 | overruns are zero when settlements stay within their holds |
| Estimator.CostMonotone | internal/credits/estimator.go:37-42 | fewer tokens never cost more |
| Estimator.EstimatesPositive | internal/credits/estimator.go:9-30 | both estimates are at least one token, whatever the request says |
| Estimator.UsageStats.Update | internal/store/credits.go:420-432 | the upsert starts or advances one running average and touches no other |
| Estimator.RunningAverage | internal/store/credits.go:420-432 | after n samples the truncated average lies between any bounds the samples obey, and its dropped remainders add up to at most n(n-1)/2 |
| Estimator.AverageBelowMean | internal/store/credits.go:420-432 | the average never exceeds the true mean and is below it by at most (n-1)/2 |
| RequestHolds.SettleIsExact | internal/store/credits.go:150-200 | settling an undebited hold leaves it closed, debited at most once, and reports exactly the debit |
| RequestHolds.LedgerStepOnward | internal/store/credits.go:98-283 | no transaction revives a closed hold, and only a settlement debits one |
| RequestHolds.EventOnward | internal/proxy/proxy.go:359-401 | the same for every event of the request machine |
| RequestHolds.StepKeepsFaithful | internal/proxy/proxy.go:448-727 | an event keeps what every request remembers true of its hold |
| RequestHolds.StepKeepsDistinct | internal/store/credits.go:120-144 | no two requests ever share a hold |
| RequestHolds.StepKeepsUsage | internal/proxy/proxy.go:448-753 | a usage entry stays true after it is queued |
| RequestHolds.AlwaysFaithful | internal/proxy/proxy.go:359-401 | all of these in every reachable state |
| RequestHolds.ChargedAtMostOnce | internal/proxy/proxy.go:448-727 | for every interleaving a returned request's hold is not pending and was debited at most once, and every usage entry carries exactly that debit or 0 |
| RequestHolds.SettlementWithinHold | internal/proxy/proxy.go:673-727 | a settlement whose billed tokens stay within the estimates costs no more than the hold, byte-length fallback included |
| RequestHolds.StepKeepsCovered | internal/proxy/proxy.go:359-401 | an event keeps every planned charge covered by its stored hold |
| RequestHolds.LedgerStepKeepsAmounts | internal/store/credits.go:98-283 | the amount of a stored hold never changes |
| RequestHolds.NoOverrunsWithinEstimates | internal/proxy/proxy.go:673-727 | a run of requests is a run of the ledger, with no overruns when every response stays within its request's estimates |
| RequestHolds.MonthlySpendWithinEstimates | internal/store/federated.go:187-207 | in such runs an account's month costs at most max(grant, pending holds) plus positive top-ups |
| Billing.CountedOn | internal/credits/estimator.go:9-30 | which prompt and completion tokens a request counts on, in order of precedence |
| Billing.Reserved | internal/proxy/proxy.go:359-388 | a request reserves exactly the price of those tokens, or is rejected and changes nothing |
| Billing.BodyBilled | internal/proxy/proxy.go:493-519 | in every run a completed response is billed its reported tokens at the model's rates per million, or a token per four bytes if it reports none; balance, audit trail and usage entry agree on it |
| Billing.StreamBilled | internal/proxy/proxy.go:657-727 | so is a stream, by the bytes relayed if it reports none, unless it failed before the first |
| Billing.FailureUnbilled | internal/proxy/proxy.go:448-592 | every other result frees the hold, is billed nothing, and is logged as partial, as an error or not at all |
| Billing.ZeroBill | internal/credits/estimator.go:37-42 | at positive rates a bill is zero exactly if it counts no tokens |
| Billing.SweptUnbilled | internal/store/credits.go:146-170 | a hold that was swept before its request settled it is not charged |
| Provisioning.StepKeepsInserter | internal/store/federated.go:100-160 | at most one uncommitted insert per identity, and none of a committed one |
| Provisioning.StepKeepsAgreement | internal/store/federated.go:53-160 | every resolution agrees with the committed identity, and a conflict is only reported against one |
| Provisioning.StepKeepsProvisioner | internal/store/federated.go:100-160 | at most one caller reports having provisioned an identity |
| Provisioning.StepKeepsAccounts | internal/store/federated.go:100-160 | provisional accounts are distinct and unseen until they commit |
| Provisioning.StepKeepsBijection | internal/store/federated.go:100-160 | provisioned accounts and identities stay in one-to-one correspondence |
| Provisioning.IdentitiesStay | internal/store/federated.go:53-160 | a committed identity is never moved or lost |
| Provisioning.AlwaysElectsOne | internal/store/federated.go:53-160 | all of these in every interleaving |
| Provisioning.WinnerElected | internal/store/federated.go:53-160 | all resolutions of one identity return one account, at most one reports Provisioned, no provisioned account lacks its identity, and "vanished after conflict" is unreachable |
| Provisioning.SuccessNeverFails | internal/store/federated.go:53-160 | a call all of whose statements succeed never fails |
| Provisioning.StepsCloser | internal/store/federated.go:78-160 | every step of a call that waits for nobody brings it closer to its answer |
| Provisioning.AnsweredInFour | internal/store/federated.go:53-160 | from any reachable state a call that waits for nobody has its answer after four steps of its own: the committed account, not provisioned by it, so that losers of the race adopt the winner's; else one it has provisioned |
| CreditRequests.RequestStore.FileCreditRequest | internal/store/credit_requests.go:63-85 | files exactly when the account has no pending or dismissed request for the month |
| CreditRequests.RequestStore.ExpireStaleCreditRequests | internal/store/credit_requests.go:91-100 | expires exactly the pending requests of earlier months |
| CreditRequests.RequestStore.ResolveCreditRequest | internal/store/credit_requests.go:150-185 | when each outcome is reported and what it does to the rows: granting grants, dismissing dismisses |
| CreditRequests.RequestStore.ListCreditRequests | internal/store/credit_requests.go:106-142 | lists exactly the rows of a status, newest first; a pending listing holds only requests that can still be acted on |
| CreditRequests.StepKeepsOnlyLastOpen | internal/store/credit_requests.go:63-185 | a request that another one follows for its account and month is granted or expired, after any statement on any clock |
| CreditRequests.PolicyStep | internal/store/credit_requests.go:63-185 | a statement leaves the policy intact exactly if it was and the statement does not refile after an expiry |
| CreditRequests.PolicyExact | internal/store/credit_requests.go:63-185 | for any run on any clocks, all requests of an account and month but the last are granted if and only if none is filed after one of them expired |
| CreditRequests.NeverResolvedLate | internal/store/credit_requests.go:150-160 | on any clocks no request is granted or dismissed after its month |
| CreditRequests.TimelyNeverRefiles | internal/store/credit_requests.go:63-185 | on a clock that never goes back a month nothing is refiled after an expiry, and grants and dismissals fall in the request's own month |
| CreditRequests.PolicyHolds | internal/store/credit_requests.go:63-185 | so on such a clock all requests of an account and month but the last are granted, within their month |
| CreditRequests.OnePendingNothingAfterDismissal | internal/store/credit_requests.go:63-85 | a request with a later one for the same account and month was granted in that month |
| CreditRequests.ResolvedForGood | internal/store/credit_requests.go:150-185 | a request leaves pending at most once and never changes account or month |
| CreditRequests.Files | internal/store/credit_requests.go:63-85 | a request is filed, pending, exactly if none of the account's for the month is pending or dismissed |
| CreditRequests.Decides | internal/store/credit_requests.go:150-166 | a decision takes effect exactly on a pending request of a month not over, grants or dismisses it as decided, and moves no other |
| CreditRequests.Expires | internal/store/credit_requests.go:91-100 | exactly the pending requests of earlier months expire |
| CreditRequests.DismissalSilences | internal/store/credit_requests.go:57-63 | after a dismissal nothing more is filed for that account and month, whatever runs |
| CreditRequests.LaggingClockRefiles | internal/store/credit_requests.go:63-100 | after any run in which a request expired and none blocks, a lagging caller files another, and the policy is broken for good |
| CreditRequests.LaggingClockExample | internal/store/credit_requests.go:63-100 | filed, expired from the next month and filed again is such a run |
| NodeRegistry.SortSorts | internal/registry/registry.go:278-281 | sorting orders by id and keeps every element as often as it occurs |
| NodeRegistry.SortedUnique | internal/registry/registry.go:278-281 | when ids identify elements, only one ordering is sorted |
| NodeRegistry.SnapshotUnique | internal/registry/registry.go:260-292 | the entries determine the published snapshot, whatever order they are visited in |
| NodeRegistry.ListsOffers | internal/registry/registry.go:271-276 | a node is a candidate exactly if it is healthy and lists the model, as often as it lists it |
| NodeRegistry.AddCandidates | internal/registry/registry.go:274-276 | a node is added once per listing of the model and to no other list |
| NodeRegistry.SortRoutes | internal/registry/registry.go:279-281 | every candidate list ends up sorted and holds what it held |
| NodeRegistry.Collect | internal/registry/registry.go:260-277 | each healthy entry is listed as often as it lists the model, and nothing else is |
| NodeRegistry.Registry.PublishLocked | internal/registry/registry.go:260-292 | publishes the snapshot the entries call for and drops the counters of unroutable models |
| NodeRegistry.DeclareAllKeyed | internal/registry/registry.go:145-162 | a new node set has exactly the declared ids, each keeping runtime state while its base URL stays |
| NodeRegistry.Registry.SetNodes | internal/registry/registry.go:145-162 | replaces the node set, carries over runtime state and republishes |
| NodeRegistry.Registry.SetNodeState | internal/registry/registry.go:171-182 | sets one known node's health and models and republishes, else changes nothing |
| NodeRegistry.StateSets | internal/registry/registry.go:164-182 | a state update sets one entry's health and models and leaves its probe metadata and all other entries alone |
| NodeRegistry.Registry.SetNodeProbe | internal/registry/registry.go:188-201 | records one known node's probe result and republishes, else changes nothing |
| NodeRegistry.Registry.Resolve | internal/registry/registry.go:208-226 | answers a healthy node listing the model, the one whose turn it is, failing exactly when there is none, and advances the counter only when there is a choice |
| RoundRobin.CountersBounded | internal/registry/registry.go:208-292 | counters exist only for models routable in the current snapshot, whatever is looked up |
| RoundRobin.PicksCycle | internal/registry/registry.go:208-226 | across republishes that keep k candidates, resolutions cycle through the positions |
| RoundRobin.CyclicCount | internal/registry/registry.go:219-225 | n cyclic picks hold every position floor(n/k) or ceil(n/k) times |
| RoundRobin.Fair | internal/registry/registry.go:208-292 | any n consecutive resolutions pick each of k >= 2 positions floor(n/k) or ceil(n/k) times |
| NodePoller.Poller.Load | internal/poller/poller.go:341-390 | enabled, parsable rows become the registry's node set and the poller's specs, and both know exactly their ids afterwards |
| NodePoller.Poller.Reconcile | internal/poller/poller.go:401-441 | every spec is reconciled in turn and absent nodes are dropped |
| NodePoller.Poller.ReconcileNode | internal/poller/poller.go:406-432 | a new node starts unknown, a changed identity resets poller and registry, an unchanged one only takes the name |
| NodePoller.Poller.DropAbsent | internal/poller/poller.go:433-438 | exactly the nodes no longer loaded are forgotten |
| NodePoller.Poller.Apply | internal/poller/poller.go:508-556 | a probe outcome advances the known node's machine and is published to the registry |
| NodePoller.IdentityFields | internal/poller/poller.go:140-146 | equal identities have equal fields |
| NodePoller.IdentityExact | internal/poller/poller.go:134-146 | two specs have one identity if and only if they agree on every probed field and pin the same joined list, or both discover |
| NodePoller.JoinExact | internal/poller/poller.go:142-145 | lists of separator-free names join to the same text only if they are equal, or one is empty and the other one nameless model |
| NodePoller.EmptyPinCollides | internal/poller/poller.go:140-146 | pinning nothing and pinning one nameless model share an identity |
| NodePoller.AdvanceIsClosedForm | internal/poller/poller.go:508-556 | one outcome moves the machine along the closed form of its history |
| NodePoller.ReconciledAt | internal/poller/poller.go:401-441 | reconciling a list does to each node what reconciling its own spec does |
| NodePoller.LoadedAt | internal/poller/poller.go:341-441 | after a load a node's state is the closed form of its history, emptied exactly when its identity changed |
| NodePoller.LoadKeys | internal/poller/poller.go:341-441 | after a load poller and registry know exactly the loaded ids |
| NodePoller.HealthIsClosedForm | internal/poller/poller.go:401-556 | after any loads and probes health, models, failures and check time of poller and registry are a closed form of the outcomes since the last identity change |
| NodePoller.RoutingFollowsOutcomes | internal/registry/registry.go:260-292 | a model is routed to a node exactly as often as its last success listed it, while its outcomes say healthy |
| NodePoller.EnabledExactly | internal/poller/poller.go:347-385 | what is loaded, in row order, are the enabled rows whose URL parses, and no others |
| NodePoller.LoadKnows | internal/poller/poller.go:341-441 | after a load, whatever was known before, poller and registry know exactly the nodes served |
| NodePoller.KnowsTheServed | internal/poller/poller.go:341-556 | so they do at any time, by the last load |
| NodePoller.KnowsTheRow | internal/poller/poller.go:361-385 | and each by its row's name, URL, credentials and timeout |
| NodePoller.DisabledNeverRouted | internal/poller/poller.go:350-360 | no model is routed to a node that is disabled, unparsable or gone until a later load finds it enabled |
| SseRelay.Observe | internal/proxy/proxy.go:608-636 | a line is held back exactly if usage was injected and its payload decodes to usage and no choices; any usage it decodes to is taken over |
| SseRelay.Relay | internal/proxy/proxy.go:599-655 | output, last usage seen, relayed byte length and final status of the loop |
| SseRelay.PassThrough | internal/proxy/proxy.go:599-640 | without injection the bytes pass unchanged |
| SseRelay.FewestBytes | internal/proxy/proxy.go:636-640 | lengths count UTF-8 bytes |
| SseRelay.DataLinePayload | internal/proxy/proxy.go:614-620 | the payload the relay reads off a data line is the field value less trailing white space |
| SseRelay.SuppressedLineHides | internal/proxy/proxy.go:603-640 | holding back a lone usage line leaves the client's reader ready for the blank line that follows |
| SseRelay.RelayHides | internal/proxy/proxy.go:599-640 | over any lines the client's reader stays the upstream reader less the usage-only events |
| SseRelay.ClientSeesNoUsageEvent | internal/proxy/proxy.go:599-640 | for any line ends, bare CR included: if every line held back is ignored by clients or is the only data line of a usage-only event, and every usage-only event is held back, the client dispatches the upstream events minus the usage-only ones |
| SseExact.DataLineLooks | internal/proxy/proxy.go:608-636 | the relay holds back exactly the data lines whose value looks usage-only |
| SseExact.OtherLineIgnored | internal/proxy/proxy.go:614-636 | any other line it holds back is one every client ignores |
| SseExact.ReadsRecords | internal/proxy/proxy.go:599-640 | a client of the relayed text dispatches the stream's events less their held-back data lines |
| SseExact.WholeInjective | internal/proxy/proxy.go:599-640 | events of different data lines never carry the same data |
| SseExact.CleanExactly | internal/proxy/proxy.go:599-640 | what is left of a list of events is what was promised if and only if every event is clean |
| SseExact.SeesNoUsageEventExactly | internal/proxy/proxy.go:599-640 | for every stream of LF or CRLF lines, the client dispatches the upstream events minus the usage-only ones if and only if every event is clean |
| SseExact.MultiLineStream | internal/proxy/proxy.go:599-640 | the same for servers that send any number of data lines to an event |
| SseExact.LooksExactly | internal/proxy/proxy.go:620-634 | a value looks usage-only exactly if it is not the end marker and decodes to usage without choices |
| SseExact.RelayedStream | internal/proxy/proxy.go:599-640 | byte for byte: with injection exactly the data lines of payloads that decode to usage without choices are missing, without it none |
| SseExact.ContentReachesClient | internal/proxy/proxy.go:608-613 | a payload with choices, without usage, undecodable or ending the stream is always dispatched |
| SseExact.RecordedUsage | internal/proxy/proxy.go:628-633 | the usage recorded is that of the last payload that decodes to any, with choices or without |
| SseExact.NoRecordedUsage | internal/proxy/proxy.go:599-640 | and zero if none does |
| SseExact.StandardStream | internal/proxy/proxy.go:599-640 | a client of a server that sends one data line per event receives its payloads, in order, but for those that decode to usage without choices |
| SseExact.SharedEventIsCut | internal/proxy/proxy.go:599-640 | the promise fails on every stream of data lines in which an event that is not usage-only has a line that looks so by itself |
| SseExact.MistakesCancel | internal/proxy/proxy.go:599-640 | with bare CRs the client's list of events can be as promised although one event was cut and part of a usage-only one let through, so no condition on single events is exact there |
| UsageInjection.Inject | internal/proxy/proxy.go:107-132 | the request now asks for usage, every other field and option is untouched, and options of another shape leave it unmodified |
| UsageInjection.InjectionFixesRequests | internal/proxy/proxy.go:92-132 | a request that asks already is a fixed point, and injection is idempotent |
| EnvExpansion.ValidEnvName | internal/nodesource/nodesource.go:286-305 | accepts exactly [A-Za-z_][A-Za-z0-9_]* |
| EnvExpansion.EnvNameCodes | internal/nodesource/nodesource.go:286-305 | that is, letters, digits and underscores by code, with no digit first |
| EnvExpansion.ReadTurn | internal/nodesource/nodesource.go:260-281 | one turn of the scan finds the first reference, or why there is none to follow |
| EnvExpansion.ExpandEnv | internal/nodesource/nodesource.go:255-284 | the scan ends on every string, moving only forward over the input |
| EnvExpansion.TurnOfReference | internal/nodesource/nodesource.go:260-281 | a literal followed by a reference is read back as that literal and that reference |
| EnvExpansion.ExpandsTemplates | internal/nodesource/nodesource.go:250-284 | the printed form of any template expands to its literals and values, never expanding a value again, or names its first undefined variable |
| EnvExpansion.ExpandedIsTemplate | internal/nodesource/nodesource.go:255-284 | a string that expands is the printed form of a template of defined variables |
| EnvExpansion.ExpandsExactlyTemplates | internal/nodesource/nodesource.go:255-284 | so expansion succeeds on exactly those strings |
| EnvExpansion.ErrorsNamed | internal/nodesource/nodesource.go:267-279 | which error a reference that cannot be followed is reported as, and by what name, behind any template |
| NodeStore.TrimIsStable | internal/store/nodes.go:155-160 | trimming a name is idempotent |
| NodeStore.TrimsExactly | internal/store/nodes.go:155-160 | it takes white space off both ends and nothing else |
| Common.SpaceCodes | internal/store/nodes.go:155-160 | which characters count as white space |
| NodeStore.CheckAgain | internal/store/nodes.go:152-189 | validating a validated node again can only fail on its base URL, and leaves it unchanged exactly if its base is canonical to itself |
| NodeStore.ValidExactly | internal/store/nodes.go:89-189 | when a node is valid, field by field |
| NodeStore.ValidKeeps | internal/store/nodes.go:152-189 | validation trims the name, makes the URL canonical, defaults the backend and keeps the rest |
| NodeStore.FirstFault | internal/store/nodes.go:155-189 | the problem reported is one the node has, earlier checks having passed |
| NodeStore.Table.CreateNode | internal/store/nodes.go:201-231 | appends an enabled node under a new id, or refuses an invalid or taken name and changes no row |
| NodeStore.Table.UpdateNode | internal/store/nodes.go:320-351 | rewrites one row but for id, owner and creation time, or reports why not and changes nothing |
| NodeStore.Table.DisableNode | internal/store/nodes.go:353-367 | clears one row's enabled flag and nothing else |
| DeclaredNodes.ExpandModels | internal/nodesource/nodesource.go:232-248 | all pinned names are expanded in order, or the first failure is reported |
| DeclaredNodes.ToNode | internal/nodesource/nodesource.go:178-227 | an entry is expanded field by field and then validated as the store would |
| DeclaredNodes.FieldsExpanded | internal/nodesource/nodesource.go:178-248 | each field of a declared node is the expansion of the entry's field of that name, then normalised |
| DeclaredNodes.ModelsExpanded | internal/nodesource/nodesource.go:232-248 | so is each pinned model, in order |
| DeclaredNodes.LoadNodesFile | internal/nodesource/nodesource.go:142-172 | reads the entries in order up to the first bad or repeated one |
| DeclaredNodes.LoadsExactly | internal/nodesource/nodesource.go:153-172 | a file loads as ns exactly when ns reads its entries one by one and no name occurs twice |
| DeclaredNodes.LoadDeclared | internal/nodesource/nodesource.go:105-138 | the file's nodes and the one made from OLLAMA_URL, which must be valid and not also declared |
| DeclaredNodes.DeclaredExactly | internal/nodesource/nodesource.go:105-138 | what loads is the file's nodes and then, if OLLAMA_URL is set, the node it stands for, whose name the file must not use |
| NodeMerge.LoadedIsReady | internal/nodesource/nodesource.go:105-227 | whatever loads is distinct by name, enabled, configuration-owned and valid to the store but for base URLs that are not accepted again |
| NodeMerge.FindCollision | internal/nodesource/nodesource.go:63-72 | finds the first declared name owned by the API, and fails exactly when there is one |
| NodeMerge.UpsertOne | internal/nodesource/nodesource.go:74-87 | one declaration is written under the id of its name's row, or as a new row, unless its base URL is refused |
| NodeMerge.Upsert | internal/nodesource/nodesource.go:74-87 | declared nodes are written in order, under the id they had if any, up to the first whose base URL is refused; no other write fails |
| NodeMerge.DisableUndeclared | internal/nodesource/nodesource.go:89-97 | exactly the enabled configuration-owned rows no longer declared are disabled |
| NodeMerge.SyncDeclaredNodes | internal/nodesource/nodesource.go:42-99 | a load error or a collision leaves the table untouched; otherwise the whole merge is carried out if every loaded base URL is accepted again, else it stops at the first that is not, with exactly what came before written |
| MergeLaws.LeavesExactlyTheDeclared | internal/nodesource/nodesource.go:42-99 | after a merge the enabled configuration-owned nodes are exactly the declared ones |
| MergeLaws.KeepsExistingRows | internal/nodesource/nodesource.go:74-99 | existing rows keep id, name, owner and creation time; API-owned ones do not change; undeclared ones lose at most their enabled flag |
| MergeLaws.NewRowsExact | internal/nodesource/nodesource.go:82-86 | rows are created for exactly the declared names that had none |
| MergeLaws.WrittenAsDeclared | internal/nodesource/nodesource.go:105-227 | what the store writes for loaded nodes has their names and collisions, and is what was declared exactly if no base URL changes when canonicalised again |
| MergeLaws.SyncLeavesExactlyTheLoaded | internal/nodesource/nodesource.go:42-99 | from configuration to table: after a successful sync the enabled configuration-owned nodes are exactly the loaded ones as written |
| MergeLaws.StoppedIsHalfway | internal/nodesource/nodesource.go:74-87 | a merge that stopped short has written everything before the stop and changed no other row |
| MergeLaws.UnstableUrlStopsMerge | internal/store/nodes.go:52-87 | any file ending in an entry whose canonical URL is not accepted again loads, and its merge stops there |
| MergeLaws.ZonedHostLoads | internal/store/nodes.go:52-87 | a zoned IPv6 host is such an entry, given how the Go library prints and parses it |
| MergeLaws.MergeSettles | internal/nodesource/nodesource.go:42-99 | a merge leaves a table that the same declarations would not change |
| MergeLaws.MergeTwice | internal/nodesource/nodesource.go:5-10 | merging the same declarations again changes update times only |
| MergeLaws.StillNoCollision | internal/nodesource/nodesource.go:63-87 | no merge, complete or stopped, brings about a collision |
| MergeLaws.StoppedTouches | internal/nodesource/nodesource.go:74-87 | a stopped merge leaves the table as it was exactly if it stopped at the first declaration, given a new time of update |
| MergeLaws.SyncTwice | internal/nodesource/nodesource.go:5-10 | from configuration to table: a repeated sync comes to the same end, be it a load error, a collision, a stop or a full merge, and leaves the same rows up to update times |
| MergeLaws.DeclarationsComeBack | internal/nodesource/nodesource.go:74-99 | dropping or altering declarations and then restoring them restores every row under its id |
| GapFill.TruncationBrackets | internal/admin/usage_analytics.go:579-589 | an instant lies in the aligned step that starts at its truncation |
| GapFill.StepsApart | internal/admin/usage_analytics.go:591-596 | buckets are an hour or a day apart |
| GapFill.GapFillBuckets | internal/admin/usage_analytics.go:602-621 | one bucket per step of the window, with the row's totals or zero |
| GapFill.Contiguous | internal/admin/usage_analytics.go:602-621 | buckets are strictly increasing without gaps from the window's truncated start to the last step before its end |
| GapFill.CheckBoundsBuckets | internal/admin/usage_analytics.go:145-159 | whatever the rows, windows that pass the check are filled with at most 2001 buckets, and windows it rejects would be with at least that many |
| GapFill.BucketTotals | internal/store/analytics.go:373-388 | a bucket's totals are those of its own entries, whether or not a row was returned for it |
| GapFill.EntryAdds | internal/store/analytics.go:373-381 | an entry of the query counts one request, adds its tokens and credits each to its own total, and counts as an error if it failed |
| GapFill.SplitsOffBucket | internal/store/analytics.go:373-388 | the entries from a bucket onwards are those in it and those from the next one onwards |
| GapFill.FilledBuckets | internal/admin/usage_analytics.go:602-621 | every bucket of the filled series holds the totals of exactly the entries truncated to it |
| GapFill.GapFillConserves | internal/admin/usage_analytics.go:598-621 | the filled buckets add up to the totals of the window's ungrouped entries |

## Left out

- Ledger.CreditStore.SettleHold: amounts are exact numbers; float64 and DECIMAL(15,6) rounding is not modelled. The whole ledger takes each database transaction as one atomic step that succeeds; connection failures and constraint overflows are outside it.
- TokenBuckets.Limiter.Allow: time and tokens are exact reals on a non-decreasing clock, and limits are integers; a limit below 1, which validation refuses, is only covered by the method contract.
- Rejections.TurnedAwayUnobservable: configured limits are at least 1, and fixed for the rejected request's key and account.
- Admission.SlotsCounted: caps are at least 1 and an account's class is fixed; handler panics are not modelled (the deferred release runs when the handler returns).
- Estimator.RunningAverage: integer overflow of the SQL product is not modelled.
- RequestHolds.ChargedAtMostOnce: each store call of a handler succeeds and a request that is not billed takes no hold; response headers, JSON decoding and the body size cap are inputs (the tokens and length that came out).
- RequestHolds.MonthlySpendWithinEstimates: prices and grants are not negative; the admin handler refuses rates that are not positive (`internal/admin/admin.go:1057`).
- Provisioning.WinnerElected: modelled on values as a state machine of statements and commits, since its promise is about interleavings of callers, not about one call in isolation. The account's display name, the identity's email and the key lookups around it are not part of this model.
- CreditRequests.RequestStore.FileCreditRequest: the guarded insert is one atomic step under the partial unique index; two inserts racing at READ COMMITTED are serialised by that index.
- NodeRegistry.Registry.Resolve: the counter is unbounded and resolution is atomic; uint64 wrap-around and the deep copies that Snapshot hands out are not modelled.
- NodePoller.HealthIsClosedForm: a load is one step and every probe is applied before the next load. Overlapping admin refreshes are not covered, nor are the poll schedule (intervals, back-off, jitter) and probe networking; probe outcomes are inputs.
- NodePoller.IdentityExact: the leading fields hold no unit separator, which URL printing and header and path validation ensure.
- SseRelay.ClientSeesNoUsageEvent: one way only, for streams with bare CRs. There a relayed line can hold several of the client's lines, so an event cut by mistake and one kept by mistake can cancel out (`SseExact.MistakesCancel`) and no condition on single events is exact; for LF and CRLF lines `SseExact.SeesNoUsageEventExactly` goes both ways.
- SseExact.SeesNoUsageEventExactly: the payload decoder rejects the empty text, as JSON decoding does, and is otherwise any function.
- SseRelay.Relay: streams are decoded text, so invalid UTF-8 and a leading byte order mark are not modelled; write failures towards the client are not modelled.
- UsageInjection.Inject: JSON values are compared after decoding, so duplicate keys and key order are not modelled.
- EnvExpansion.ExpandEnv: strings are sequences of characters rather than bytes.
- NodeMerge.SyncDeclaredNodes: reading and decoding the file, and the database failing in mid-merge (a timeout beyond 32 bits, a NUL in a name), are not modelled; one merge uses one time stamp.
- NodeStore.CheckAgain: URL parsing is a parameter (any partial function to canonical forms, any test for bare paths).
- GapFill.GapFillBuckets: filters other than the time window are taken as already applied, and the per-model series, which fills each model the same way, is not repeated.
- Authentication limiter, admin session limiter and bootstrap limiter: the same bucket algorithm at a fixed rate.
- Admin lists, pagination, users, sessions, passwords, configuration parsing, metrics, logging, CORS and webhook delivery: no hard property.
