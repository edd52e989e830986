# Verified model of the coordination managers

This project models, in Dafny, the in-memory coordination logic of a lock and quota service: its lock
manager with leases, wait queues and deadlock detection, its fencing tokens, its rate-limit quotas and
reservations, the metering of lock budgets, the topology graph, the rate alerts, and the transaction
that spans locks and quotas. `dafny verify dfyconfig.toml` checks everything.

Each manager appears twice. A function on values says what one locked operation does to the stored
state (`LockSpec`, `QuotaSpec`, `LockBudget`, `RateAlert`, `TxSpec`), and a class changes its fields
in place the way the program does, each method proved to have exactly the effect of that function.
The theorems are about the functions and about runs of them: the modules named `...Meaning` say what
each function does in terms of the stored rows, the clock and the guards alone.

| files | part of the system |
|---|---|
| `Graphs`, `DeadlockSearch`, `MissedDeadlock` | cycle search over the wait-for graph |
| `LockTables`, `LockSpec`, `LockManager` | lock, lease and wait-queue rows; the lock manager |
| `LockInvariants`, `LockRuns`, `QueueOrder`, `LockBatch`, `Names` | what runs of the lock manager keep |
| `LockMeaning`, `LockEffects`, `LockHolds` | what each lock operation does, and who can end a hold |
| `Fencing`, `LockFencing` | fencing tokens and the leases that carry them |
| `Topology`, `TopologyOrders` | the resource graph |
| `Sums`, `Reservations`, `TieOrders` | the reservation conflict check |
| `QuotaSpec`, `QuotaManager`, `QuotaMeaning`, `QuotaRates`, `QuotaClock`, `QuotaLedger`, `QuotaRuns`, `QuotaQueue`, `FixedWindow`, `FixedWindowRuns`, `QuotaScenes` | rate-limit quotas |
| `LockBudget`, `BudgetMeter`, `BudgetMeaning`, `BudgetLaws`, `BudgetPeriods`, `BudgetAccounts` | lock-budget metering |
| `RateAlert` | consumption-rate alerts |
| `TxSpec`, `TxLocks`, `TxTokens`, `Orchestration` | transactions over locks and quotas |

Conventions. Time is a number of nanoseconds, given to each operation. Every method that runs under a
manager's mutex is one atomic step. Storage calls succeed. The wait queue of all locks is one table in
id order, and the leases are one table whose rows carry an active flag. What an operation asks of its
surroundings (clock, admission guard, budget check, lock limit, priority) is an arbitrary `Env` per
step. Wherever the program iterates over a Go map, the order is arbitrary.

Results that contradict an expectation of the code, with the exact condition under which it holds:

* The wait-for graph need not stay acyclic: a grant retargets the waiters left behind to the grantee,
  and if the grantee waits elsewhere a cycle can close that no request was checked for
  (`MissedDeadlockRun`). A grant keeps the graph acyclic if and only if the grantee reaches none of
  those waiters (`GrantAcyclicIff`), and so does every run in which no holder queues while it is
  already queued (`ReachableAcyclic`).
* The conflict check may refuse a reservation that fits when it starts at the very instant another one
  ends, because tied events are in no particular order (`TouchingRefused`). Over the orders of tied
  events it is right for every one of them if and only if no instant is over-full by closed intervals
  unless the reservation does not fit (`TieOrdersExact`); both loads can be computed from the stored
  reservations before the call. When no two intervals touch this is so (`ExactWhenNoneTouch`). Which
  of the tie orders come up depends on the order in which the map of reservations is visited.
* The overdraft surcharge depends on how the units are split over ticks (`SplitMatters`): it is that of
  a single charge if and only if at most one part overdraws by an odd number (`SplitBounds`).
* A period check does not always catch up with the clock (`OnePeriodLate`): it falls short if and only
  if the whole seconds since the period's end are a positive multiple of the period (`RollOver`); a
  second check always catches up (`SecondCheckCatchesUp`).
* Between two ticks the active reservations of a policy can hold more than its limit
  (`OverLimitBetweenTicks`), since one that is over stays active until the next tick. They stay within
  the limit if and only if the load, plus what is over and still active, minus what is due and still
  pending, does (`ActiveAccounting`); right after a tick there is neither (`TickSettles`).
* A constant effective limit is not enough for the fixed-window bound: a tick that ends one reservation
  and starts another clamps the used tokens in between, and the caller can be granted three times its
  limit in one window length (`SwapBeatsTheBound`). A step that leaves the limit where it was accounts
  for what it grants if and only if no ending clamps, or the window is over anyway (`StepMoves`), and
  then the bound holds (`AtMostTwice`).

* A token bucket does not refill at its rate (`HalfSecondReadings`): read at a fixed interval it does so
  if and only if the rate yields a whole number of tokens in it (`RefillsAtRate`). A sliding window loses
  at least one token at each reading, status reads included (`SlidingDrains`).
* The overdraft carried into the next period can be less than the overdraft of the period
  (`UnmeteredOverdraftForgiven`); where the noted overdraft is up to date it is all of it if and only if
  the seconds left to the close overdraw nothing more (`CarriedInFull`). What is carried over once is not
  carried over again by a caller that holds nothing (`DebtCarriedOnce`).
* A renewal under a cooldown can outlast the cooldown (`CooldownOverrun`); it does not if and only if the
  request itself would not, or the lease was ending at that instant (`CooldownBound`).
* A renewed lease outlives its fencing token (`TokenNotRenewed`).
* Binding a caller again can unbalance the loans and the reservations; it does not if and only if the
  caller has lent what it has borrowed and has nothing reserved (`RebindExact`).

## Model

| member | source | states |
|---|---|---|
| DeadlockSearch.DetectCycle | internal/lock/manager.go:920-971 | for every order of the neighbours: true exactly when a cycle is reachable from the start node; the nodes returned form a real cycle reachable from it, and each lock returned labels the edge it stands for |
| DeadlockSearch.CycleSearch.Dfs | internal/lock/manager.go:927-952 | the recursive search over `visited`, `recStack` and `path`: finished nodes are closed under edges and lie on no cycle, or the path ends in one |
| LockManager.Manager.BuildWaitGraph | internal/lock/manager.go:876-918 | the labelled adjacency holds exactly the edges waiter to current holder, each labelled with a lock queued for |
| LockManager.Manager.CheckDeadlock | internal/lock/manager.go:973-1007 | a request is refused exactly when it would see a cycle, and the witness is a real cycle of waits |
| Graphs.NewEdgeCycle | internal/lock/manager.go:973-1007 | on an acyclic graph a cycle is reachable from the waiter of a new edge exactly when that edge closes one |
| LockRuns.DeadlockExact | internal/lock/manager.go:262-334 | on an acyclic wait graph, a request for a held lock is refused as a deadlock exactly when its own wait closes a cycle, and whatever the answer the graph is acyclic afterwards, with no assumption on other waits |
| LockRuns.GrantAcyclicIff | internal/lock/manager.go:472-566 | a grant keeps the wait graph acyclic if and only if the grantee does not reach, through its other waits, a waiter left behind |
| LockRuns.RunStaysAcyclic | internal/lock/manager.go:196-566 | a run in which no holder queues while it is already queued keeps a safe state safe: wait graph acyclic, at most one wait per holder, through enqueue, release, expiry, timeout and cancel |
| LockRuns.ReachableAcyclic | internal/lock/manager.go:196-566 | so from an empty lock table the wait graph is acyclic in every state such a run reaches |
| MissedDeadlock.MissedDeadlockRun | internal/lock/manager.go:472-566 | a concrete run from an empty lock table in which no request is refused as a deadlock, one holder is queued for two locks before the last step, and the last step leaves two holders waiting for each other |
| LockRuns.StepKeepsInv | internal/lock/manager.go:196-721 | every operation keeps: a lock is held iff it has exactly one active lease, with the same holder, count >= 1 and a timer set to the lease's end; count > 1 only if reentrant; a free lock has no holder, count 0, no lease, no timer and no queue; nobody queues twice for a lock or for one it holds; sequences grow along the leases |
| LockRuns.RunKeepsInv | internal/lock/manager.go:196-721 | so every run from a state with these properties keeps them |
| LockInvariants.InitialOk | internal/lock/manager.go:61-68 | an empty lock table has these properties, whatever tokens were issued before |
| LockRuns.ReachableInv | internal/lock/manager.go:196-721 | so every reachable state has these properties |
| LockManager.Manager.HoldLock | internal/lock/manager.go:340-397 | what a grant writes: lock row, token, active lease, timer |
| LockManager.Manager.AcquireLock | internal/lock/manager.go:196-397 | outcome and whole new state of a request in every branch: refused, over budget, acquired, counted up, deadlock, queued |
| LockManager.Manager.AcquireHeld | internal/lock/manager.go:262-334 | the branches of a request for a held lock |
| LockManager.Manager.ReleaseLock | internal/lock/manager.go:412-470 | outcome and whole new state of a release: count down, or free and grant the next |
| LockManager.Manager.TryGrantNext | internal/lock/manager.go:472-566 | the recursive grant terminates and does what the closed form over the maximal skipped prefix says |
| LockSpec.SkipCount | internal/lock/manager.go:483-501 | the number of entries passed over: each of them has run out of time or is refused by the budget check, the next one neither |
| QueueOrder.GrantExact | internal/lock/manager.go:472-566 | a grant removes exactly the maximal prefix of entries that are out of time or refused by the budget check and the entry granted, which is neither; the exact rest of that queue and all other queues stay |
| LockMeaning.GrantServes | internal/lock/manager.go:472-566 | the first entry in time and within budget gets the lock, under one lease and a timer that end after the seconds it asked for or a shorter cooldown; if there is none the lock stays free and nobody waits; no other lock changes |
| LockMeaning.ReleaseExact | internal/lock/manager.go:412-470 | a release by anybody but the holder is refused and changes nothing; a count above one goes down by one; the last release ends the lease and passes the lock on to the first entry in time and within budget, if any |
| LockMeaning.ExpireExact | internal/lock/manager.go:632-681 | a timer that fires, at any time, ends the lease and passes the lock on in the same way; without a hold it changes nothing |
| LockMeaning.AcquireExact | internal/lock/manager.go:196-282 | over budget exactly if only the budget check of the guards says no; a request past the guards takes a free lock for the seconds asked for or a shorter cooldown, and counts a reentrant hold up; every other one of these changes nothing |
| LockMeaning.WaitExact | internal/lock/manager.go:262-334 | a request past the guards for a lock of another holder is refused exactly if it closes a cycle, refused exactly if its holder waits already, and otherwise waits 30 seconds at the end of the queue, or at its front with priority |
| LockMeaning.GraphExact | internal/lock/manager.go:876-918 | the wait-for graph has exactly one edge per queued row, to the current holder of its lock; nobody waits for a lock that is free or its own |
| LockMeaning.CancelExact | internal/lock/manager.go:832-852 | a row leaves exactly if it is the holder's, and nothing else changes |
| LockMeaning.BatchExact | internal/lock/manager.go:1035-1232 | the answer of a batch: the first name that is held, else the first name that a guard refuses and which guard, else a lease for each name with the whole seconds asked for |
| LockMeaning.AcceleratedExact | internal/lock/manager.go:1305-1315 | a cooldown is set or taken away for one lock and no other |
| LockHolds.HoldStep | internal/lock/manager.go:196-721 | one operation of any caller that is not the expiry of the lock leaves its holder, its lease up to the end, its token and its count as they are; its holder's own requests and releases change the count by one; or the count was one, its holder has released it, and it is passed on |
| LockHolds.HeldUntilReleased | internal/lock/manager.go:196-721 | over any run: as long as its timer has not fired and its holder has released it less often than it counts, a lock keeps holder, lease and token, whatever anybody else does |
| LockHolds.LastReleaseEnds | internal/lock/manager.go:412-470 | without counting up in between, the k-th release by the holder ends a count of k |
| LockInvariants.GrantKeeps | internal/lock/manager.go:472-566 | from a lock between two holders, a grant restores the invariant of every lock |
| LockManager.Manager.ExpireLock | internal/lock/manager.go:632-681 | whole new state when a lease timer fires, at any time |
| LockManager.Manager.CheckWaitQueueTimeouts | internal/lock/manager.go:697-721 | exactly the timed-out entries leave the queues |
| LockManager.Manager.CancelWaitForHolder | internal/lock/manager.go:832-852 | exactly the holder's entries leave, and their number is returned |
| LockManager.Manager.RenewLease | internal/lock/manager.go:568-624 | new expiry and timer, with the cooldown cap as the code computes it |
| LockManager.Manager.ShortenLease | internal/lock/manager.go:1256-1303 | new expiry and timer, never later than before |
| LockEffects.RenewExact | internal/lock/manager.go:568-624 | a held lock is renewed exactly if its holder asks before the lease has ended; lease and timer then move by the seconds asked for, or by the cooldown, and nothing else changes |
| LockEffects.ShortenExact | internal/lock/manager.go:1256-1303 | lease and timer move to the earlier of the wanted and the old end, and nothing else changes |
| LockEffects.CooldownBound | internal/lock/manager.go:591-605 | a renewal under a cooldown ends within the cooldown from now exactly if the request would, or if the lease was ending this instant |
| LockEffects.CooldownOverrun | internal/lock/manager.go:591-605 | a concrete renewal that ends three cooldowns from now |
| LockEffects.TimeoutsExact | internal/lock/manager.go:697-721 | exactly the entries whose time is over leave the queues |
| LockManager.Manager.SetAcceleratedGrant | internal/lock/manager.go:1305-1315 | the cooldown entry of a lock, and nothing else |
| LockManager.Manager.ReorderWaitQueueForGold | internal/storage/sqlite.go:5938-5975 | the holder's rows first, the others after, each in their order, with fresh ids |
| LockTables.WithoutPrefix | internal/storage/sqlite.go:1194-1226 | deleting the first rows by id leaves exactly the rest |
| LockTables.ActiveAfterDeactivate | internal/storage/sqlite.go:1147-1150 | deactivating the leases of a lock leaves it none and every other lock its own |
| QueueOrder.QueueUpRows | internal/lock/manager.go:315-334 | a new entry goes to the end of its queue, or to the front with priority; all others keep content and place; no other queue changes |
| QueueOrder.StepKeepsOrder | internal/lock/manager.go:196-721 | no operation makes two waiters of a lock change places |
| QueueOrder.RunKeepsOrder | internal/lock/manager.go:196-721 | over any run, of two holders that keep waiting for a lock the one in front stays in front |
| QueueOrder.NoOvertaking | internal/lock/manager.go:472-566 | nobody is granted a lock over the head of a waiter that stays in the queue |
| LockManager.Manager.AcquireLocksBatch | internal/lock/manager.go:1035-1120 | outcome and whole new state of a batch, over the sorted distinct names |
| LockManager.Manager.AcquireLockNoQueue | internal/lock/manager.go:1122-1232 | outcome and whole new state of one request of a batch |
| LockManager.Manager.RollbackBatch | internal/lock/manager.go:1234-1240 | releases what was taken, last first |
| LockBatch.BatchAtomic | internal/lock/manager.go:1035-1240 | a batch holds every name afresh with one lease and a timer, exactly if all are free and allowed; otherwise holders, counts, active leases, timers and queues are as before |
| LockBatch.BatchRequestAtomic | internal/lock/manager.go:1035-1120 | the same for names in any order and with repetitions |
| LockBatch.ReleaseRemoves | internal/lock/manager.go:412-470 | releasing a freshly held lock that nobody waits for restores the free lock and grants it to nobody |
| Names.SortDistinctSorts | internal/lock/manager.go:1046-1053 | the names of a batch: strictly increasing, the same set |
| Fencing.Manager.TakeSequence | internal/storage/fencing_store.go:9-31 | the first sequence is 1, each later one is one more, and the counter moves on |
| Fencing.Manager.Issue | internal/fencing/manager.go:10-26 | the token of the next sequence is stored, or nothing is |
| Fencing.Manager.Revoke | internal/fencing/manager.go:52-64 | marks one known token as revoked, and nothing else |
| Fencing.NewTokenOutranks | internal/fencing/manager.go:10-26 | a new token outranks every token its resource has had, makes them stale, and validates itself |
| Fencing.AtMostOneValid | internal/fencing/manager.go:28-50 | at most one token of a resource validates in any state, whoever asks and whenever |
| Fencing.StaleForever | internal/fencing/manager.go:28-50 | a token once stale or revoked validates in no later state |
| Fencing.VerdictExact | internal/fencing/manager.go:28-50 | in every store reached from the empty one: a token shown by its holder for its resource is stale exactly if a newer one has been issued for it, and otherwise valid exactly if it is not revoked and its time is not over |
| Fencing.RevokedForGood | internal/fencing/manager.go:52-64 | a revoked token validates in no later state, and revoking it changes no verdict on another token |
| Fencing.GoodForItsLease | internal/fencing/manager.go:10-26 | a token that stays the newest and is not revoked validates for exactly the seconds it was issued for |
| LockFencing.RunCurrent | internal/lock/manager.go:362-368 | while only the lock manager issues tokens, every run keeps each active lease's token the current one of its lock |
| LockFencing.ReachableCurrent | internal/lock/manager.go:362-368 | so in every state reached from an empty lock table every active lease carries its lock's current sequence |
| LockFencing.OnlyTheHolderPasses | internal/lock/manager.go:534-540 | while a lock is held, a token that validates for it is its lease's, and the holder's |
| LockFencing.TakenWithToken | internal/lock/manager.go:362-381 | a lock is taken with a token of its own that validates for its holder until the first end of the lease and not after |
| LockFencing.TokenNotRenewed | internal/lock/manager.go:568-624 | after a renewal the holder keeps the lock while its token is expired, from the first end of the lease to the new one |
| Topology.HasCycle | internal/topology/manager.go:173-204 | true exactly when the graph has a cycle, for any order of nodes |
| Topology.Search.Dfs | internal/topology/manager.go:181-197 | the recursive search: finished nodes are closed and on no cycle, or a cycle has been found |
| Topology.Manager.DeclareEdge | internal/topology/manager.go:121-171 | an edge between registered nodes that is new is refused exactly when its target already reaches its source; otherwise it is added and nothing else; the topology stays a DAG with children and parents exact inverses without duplicates |
| Topology.Manager.RemoveEdge | internal/topology/manager.go:751-785 | removes exactly that edge from both maps and keeps the same invariant |
| Topology.Manager.RegisterNode | internal/topology/manager.go:84-119 | adds one node without edges, unless its name is empty or taken or its token cost negative |
| TopologyOrders.CollectAncestors | internal/topology/manager.go:411-430 | lists exactly the strict ancestors; the first occurrence of each comes after those of all its parents |
| TopologyOrders.CollectDescendants | internal/topology/manager.go:553-575 | lists exactly the strict descendants, each once |
| Reservations.ExchangeSortInPlace | internal/ratelimit/manager.go:1167-1173 | the exchange sort over the array of events |
| Reservations.ExchangeSortSorts | internal/ratelimit/manager.go:1167-1173 | the result is in time order and a permutation |
| Reservations.Sweep | internal/ratelimit/manager.go:1175-1181 | a conflict is reported exactly when some prefix sum passes the limit |
| Reservations.EventsOf | internal/ratelimit/manager.go:1147-1165 | the list of events: the new reservation's ends, then those of the live reservations of the policy, each once, in some order |
| Reservations.EventsRepresent | internal/ratelimit/manager.go:1147-1165 | for every order these events add up, at every instant, to the half-open and to the closed load of the live reservations plus the new one |
| Reservations.SweepMeaning | internal/ratelimit/manager.go:1167-1183 | for any order of tied events: no conflict means the half-open load fits at every instant, conflict means the closed load is over the limit somewhere |
| Reservations.ConflictMeaning | internal/ratelimit/manager.go:1139-1184 | the same for the answer of the check with its own sort, for every order in which the reservations are visited |
| Reservations.CheckConflict | internal/ratelimit/manager.go:1139-1184 | the whole check answers what the sort and the sweep give for some order of visiting, with both bounds |
| TieOrders.TieOrdersExact | internal/ratelimit/manager.go:1167-1183 | over the time orders of the events of a check: some order is refused if and only if some instant is over-full by closed intervals; some order is let through if and only if the reservation fits; so the answer is right for every order of tied events if and only if no instant is over-full unless the reservation does not fit |
| TieOrders.SortedStays | internal/ratelimit/manager.go:1167-1173 | the exchange sort leaves a list that is in time order as it is, so it favours no tie order by itself |
| Reservations.ExactWhenNoneTouch | internal/ratelimit/manager.go:1139-1184 | when no two intervals of the policy touch, the exact condition of TieOrdersExact holds: over-full by closed intervals if and only if it does not fit |
| Reservations.TouchingRefused | internal/ratelimit/manager.go:1167-1183 | a concrete pair of touching intervals that fits and is refused by the check |
| QuotaManager.Manager.ApplyAlgorithmTick | internal/ratelimit/manager.go:262-318 | what the elapsed time does to a binding, for each algorithm |
| QuotaManager.Manager.CreatePolicy | internal/ratelimit/manager.go:491-518 | a new name is stored, an existing one is refused |
| QuotaManager.Manager.BindCaller | internal/ratelimit/manager.go:542-582 | the new binding, its limit cut to the policy's |
| QuotaManager.Manager.RequestTokens | internal/ratelimit/manager.go:584-698 | answer and whole new state: refused, allowed, denied or queued |
| QuotaManager.Manager.ReturnTokens | internal/ratelimit/manager.go:1286-1314 | tokens go back after the clock, never below zero |
| QuotaManager.Manager.BorrowQuota | internal/ratelimit/manager.go:790-874 | answer and whole new state of a loan |
| QuotaManager.Manager.ReturnQuota | internal/ratelimit/manager.go:876-941 | answer and whole new state of giving a loan back |
| QuotaManager.Manager.AdjustQuota | internal/ratelimit/manager.go:943-972 | the new limit and the used tokens clamped to it |
| QuotaManager.Manager.CreateReservation | internal/ratelimit/manager.go:1039-1137 | each check in order, the conflict check for some order of visiting; a reservation is stored only if it fits and refused as a conflict only if over-full |
| QuotaManager.Manager.GetCallerStatus | internal/ratelimit/manager.go:700-743 | whole new state of a status read, which moves the reservations and the caller's clock first, and what it reports |
| QuotaManager.Manager.ListCallerStatuses | internal/ratelimit/manager.go:745-788 | the same for all callers |
| QuotaManager.Manager.CancelReservation | internal/ratelimit/manager.go:1186-1243 | whole new state of a cancellation |
| QuotaManager.Manager.ActivateReservation | internal/ratelimit/manager.go:357-388 | a due reservation's tokens are reserved, or it is cancelled if its caller is gone |
| QuotaManager.Manager.CompleteReservation | internal/ratelimit/manager.go:390-418 | an over reservation's tokens are taken back and used tokens clamped |
| QuotaManager.Manager.ProcessReservationTick | internal/ratelimit/manager.go:338-355 | every reservation is visited once, in some order |
| QuotaManager.Manager.CleanupExpiredWaitItems | internal/ratelimit/manager.go:320-336 | exactly the requests whose time has come leave |
| QuotaManager.Manager.TryGrantFromQueue | internal/ratelimit/manager.go:420-476 | one pass over the waiting requests in order |
| QuotaManager.Manager.RefillTick | internal/ratelimit/manager.go:223-260 | the whole half-second tick |
| QuotaMeaning.RequestExact | internal/ratelimit/manager.go:584-698 | a request is allowed exactly if used tokens after the clock plus the tokens asked for are at most the quota within the policy's maximum, plus borrowed, minus lent, plus reserved, or zero if that is negative; then exactly these tokens are used; otherwise it waits last in line or is denied |
| QuotaMeaning.WindowTick | internal/ratelimit/manager.go:264-272 | a fixed window that is over starts anew and empty on the grid of its first start, no later than now and less than a window ago; one that is not over stays |
| QuotaMeaning.BothClocks | internal/ratelimit/manager.go:803-813 | before a loan each of the two clocks has run once, also in a loan to oneself |
| QuotaMeaning.LoanExact | internal/ratelimit/manager.go:790-874 | a loan is made exactly if the lender has the amount free after the clocks; the lender then has exactly that much less free, and the borrower that much more exactly if its share is not negative |
| QuotaMeaning.RepayExact | internal/ratelimit/manager.go:876-941 | giving back succeeds exactly if that much is borrowed and lent; the payer may use that much less, used tokens above that are forgotten, and the other side gets its share back |
| QuotaMeaning.ReturnExact | internal/ratelimit/manager.go:1286-1314 | tokens given back are free again, but never more than are used once the clock has run |
| QuotaMeaning.AdjustExact | internal/ratelimit/manager.go:943-972 | the new quota counts at once, and only used tokens above the new effective limit are forgotten |
| QuotaMeaning.BindExact | internal/ratelimit/manager.go:542-582 | a new binding may use exactly its quota within the policy's maximum, has nothing used, borrowed, lent or reserved, and its clock starts now; no other binding changes |
| QuotaMeaning.ChecksExact | internal/ratelimit/manager.go:1039-1098 | a reservation gets to the conflict check exactly if its interval, time, tokens, policy and caller are all in order; every refusal states a fact, and a refusal stores nothing |
| QuotaMeaning.StoredExact | internal/ratelimit/manager.go:1100-1126 | an accepted reservation is stored as asked for, pending exactly if its time is still to come; one that has begun adds its tokens to its caller's share at once |
| QuotaMeaning.EndExact | internal/ratelimit/manager.go:390-418 | ending a reservation takes exactly its tokens from the caller's share; only used tokens above the new limit are forgotten |
| QuotaMeaning.CancelExact | internal/ratelimit/manager.go:1186-1243 | a cancelled reservation leaves the load of its policy at every instant of its interval; a pending one takes nothing from its caller, an active one ends, one that is over stays |
| QuotaMeaning.StatusesExact | internal/ratelimit/manager.go:338-388 | a tick activates exactly the pending reservations that have begun and are not over, completes exactly those that are over, cancels those whose caller is gone, and leaves the others |
| QuotaMeaning.StatusExact | internal/ratelimit/manager.go:700-788 | after a status read the clock of what is reported has nothing left to do and every reservation is active exactly while it runs |
| QuotaRates.BucketRun | internal/ratelimit/manager.go:273-297 | over any schedule of readings a token bucket gives back, at each, nothing if the time yields less than a tenth of a token and otherwise its yield rounded up |
| QuotaRates.RefillsAtRate | internal/ratelimit/manager.go:273-297 | so at a fixed interval it refills at its rate exactly if an interval yields a whole number of tokens; below a tenth of a token it never refills, above it refills no slower than its rate |
| QuotaRates.HalfSecondReadings | internal/ratelimit/manager.go:52 | with the program's half-second tick: 0.15 tokens a second never come back, 0.3 tokens a second come back as two a second |
| QuotaRates.SlidingDrains | internal/ratelimit/manager.go:298-316 | each reading of a sliding window takes at least one used token off, so after as many readings as there are used tokens none are left, however slow the decay |
| QuotaRuns.RebindExact | internal/ratelimit/manager.go:542-582 | binding a caller again keeps the ledger exactly if it has lent what it has borrowed and has nothing reserved |
| QuotaLedger.TickOk | internal/ratelimit/manager.go:262-318 | the clock only lowers used tokens and leaves the effective limit |
| QuotaLedger.BorrowKeeps | internal/ratelimit/manager.go:790-874 | a loan keeps the ledger in balance; the lender's used tokens stay within its lowered limit |
| QuotaLedger.BorrowIsMoved | internal/ratelimit/manager.go:837-840 | the clamp in a loan never fires |
| QuotaLedger.RepayKeeps | internal/ratelimit/manager.go:876-941 | giving back keeps the ledger in balance |
| QuotaLedger.BorrowThenRepay | internal/ratelimit/manager.go:790-941 | a loan given back at once leaves both callers as the clock left them |
| QuotaLedger.ReservedCovers | internal/ratelimit/manager.go:390-401 | the caller's reserved tokens cover each of its active reservations, so the clamp to zero never fires |
| QuotaLedger.EndKeeps | internal/ratelimit/manager.go:390-418 | ending an active reservation keeps the ledger |
| QuotaLedger.ReserveKeeps | internal/ratelimit/manager.go:1088-1131 | whatever the order in which the conflict check sees the reservations, what it lets through keeps every policy within its limit at every instant |
| QuotaLedger.StatusKeeps | internal/ratelimit/manager.go:700-788 | reading statuses keeps the ledger |
| QuotaLedger.GrantWaitsKeeps | internal/ratelimit/manager.go:420-476 | granting waiting requests keeps the ledger |
| QuotaRuns.StepKeepsOk | internal/ratelimit/manager.go:223-1314 | every operation keeps: 0 <= used <= effective limit; the sum of borrowed equals the sum of lent; each caller's reserved tokens are the sum of its active reservations; the load of every policy is within its limit at every instant |
| QuotaRuns.RunKeepsOk | internal/ratelimit/manager.go:223-1314 | so every run from a state with these properties keeps them |
| QuotaRuns.EmptyOk | internal/ratelimit/manager.go:24-33 | the empty state has these properties |
| QuotaRuns.ReachableOk | internal/ratelimit/manager.go:223-1314 | so every reachable state has these properties; nothing is assumed about the answers of the conflict check |
| QuotaRuns.ActiveAccounting | internal/ratelimit/manager.go:338-418 | at any moment, between ticks too: the tokens of the active reservations of a policy are its load plus what is over and still active minus what is due and still pending, so they stay within a limit if and only if that sum does |
| QuotaRuns.ReachableAccounting | internal/ratelimit/manager.go:338-418 | the same in every reachable state, where the load itself is within the limit |
| QuotaScenes.OverLimitBetweenTicks | internal/ratelimit/manager.go:1100-1126 | a concrete run from the empty state without a tick after which the active reservations of a policy hold twice its limit |
| QuotaRuns.AllTimely | internal/ratelimit/manager.go:338-355 | after a tick a reservation is active only during its interval and pending only before it |
| QuotaRuns.TickSettles | internal/ratelimit/manager.go:223-260 | after a tick the tokens of the active reservations of a policy are its load at that instant, hence within its limit |
| QuotaQueue.GrantsConserve | internal/ratelimit/manager.go:420-476 | a caller's used tokens rise by exactly what leaves the waiting list for it, and what stays does not fit |
| QuotaQueue.StillWaiting | internal/ratelimit/manager.go:424-444 | what goes on waiting is in time and of a caller that is bound to a known policy |
| QuotaQueue.TickServes | internal/ratelimit/manager.go:223-260 | over a whole tick: the list keeps its order, timed-out requests leave, tokens are charged exactly as requests leave, and nobody is left waiting who could be served |
| QuotaQueue.AliveExact | internal/ratelimit/manager.go:320-336 | a request stays exactly if its time has not come |
| QuotaClock.TickSettles | internal/ratelimit/manager.go:262-318 | applying the clock twice at one instant is applying it once, whatever was charged between |
| FixedWindow.OneWindow | internal/ratelimit/manager.go:264-272 | in one window of the grid at most the limit is granted, less what was used already |
| FixedWindow.TwiceTheLimit | internal/ratelimit/manager.go:264-272 | at most twice the limit in any closed interval of one window length |
| FixedWindow.TwiceIsReached | internal/ratelimit/manager.go:264-272 | the bound is reached, for every window and limit |
| FixedWindowRuns.AllProcessed | internal/ratelimit/manager.go:338-418 | going through the reservations takes used tokens from a caller if and only if the clamp of some ending fires for it |
| FixedWindowRuns.NothingDueSteady | internal/ratelimit/manager.go:338-355 | in particular no step takes any when none of the caller's reservations begins or ends |
| FixedWindowRuns.StepMoves | internal/ratelimit/manager.go:223-1314 | every operation that leaves a caller's effective limit where it was and returns nothing of its accounts for exactly what it grants, if and only if it clamps nothing by ending a reservation or the same step rolls the window |
| FixedWindowRuns.AtMostTwice | internal/ratelimit/manager.go:262-476 | over runs of all quota operations: while the effective limit is constant, nothing is returned and every step is steady in that sense, the tokens granted directly or from the waiting list in any interval of one window length are at most twice the limit |
| QuotaScenes.SwapBeatsTheBound | internal/ratelimit/manager.go:390-401 | a concrete run from a reachable state, limit constant and nothing returned, whose one tick ends one reservation and starts another: it grants three times the limit within one window length |
| BudgetMeter.Caller.MeterCaller | internal/lockbudget/manager.go:440-495 | every hold metered once in some order, then the expired ones removed |
| BudgetMeter.Caller.StartHolding | internal/lockbudget/manager.go:805-837 | the new hold, metered from its acquisition or the period's start |
| BudgetMeter.Caller.RenewHolding | internal/lockbudget/manager.go:882-898 | the new expiry of a known hold |
| BudgetMeter.Caller.StopHolding | internal/lockbudget/manager.go:839-880 | units returned and whole new state at the end of a hold |
| BudgetMeter.Caller.FinalizeCurrentPeriod | internal/lockbudget/manager.go:266-341 | the last charges of a period and its summary |
| BudgetMeter.Caller.StoreSummary | internal/storage/sqlite.go:4948-4972 | a summary is inserted, or merged into the one with the same start |
| BudgetMeter.Caller.CheckPeriodReset | internal/lockbudget/manager.go:198-264 | whole new state of a roll-over, with its loop over the skipped periods |
| BudgetMeter.Caller.MeterTick | internal/lockbudget/manager.go:180-196 | one tick: roll-over, then metering |
| BudgetMeaning.MeterExact | internal/lockbudget/manager.go:440-495 | a metering charges, out of arrears, every hold that has not ended its whole seconds, keeps the fraction for later and notes the overdraft reached; in arrears nothing; holds that have ended leave unpaid |
| BudgetMeaning.CloseExact | internal/lockbudget/manager.go:198-341 | the close of a period: out of arrears every hold pays its whole seconds up to the period's end, and the stored summary has exactly the consumption and surcharge reached; in arrears both are zero; the next period starts with the noted overdraft plus the surcharge, and every hold is metered afresh from the check on |
| BudgetMeaning.TickExact | internal/lockbudget/manager.go:180-264 | a whole tick at or after the period's end: that close, then nothing more to pay, and the holds that have ended are gone |
| BudgetMeaning.StopExact | internal/lockbudget/manager.go:839-880 | the end of a hold charges the rest rounded up and returns exactly what the hold has cost; no other hold changes |
| BudgetMeaning.RenewExact | internal/lockbudget/manager.go:882-898 | a renewed hold is kept by a metering exactly if its new end is still to come, whatever the old one was; nothing else changes |
| BudgetMeaning.HoldAcrossPeriods | internal/lockbudget/manager.go:198-304 | a hold that goes on over a period's end has then paid exactly its whole seconds in the period, for every schedule of ticks; the fraction and the time up to the check are never paid |
| BudgetMeaning.CarriedInFull | internal/lockbudget/manager.go:239-245 | where the noted overdraft is up to date, the whole overdraft of a period is carried over exactly if the seconds left to its close overdraw nothing more |
| BudgetMeaning.UnmeteredOverdraftForgiven | internal/lockbudget/manager.go:239-245 | a concrete caller that starts the next period 10 units down instead of 40 because no tick fell just before the close |
| BudgetMeaning.DebtCarriedOnce | internal/lockbudget/manager.go:239-247 | a caller without holds owes nothing after a second roll-over, however far over its limit the first one left it |
| BudgetMeaning.UpsertExact | internal/storage/sqlite.go:4948-4972 | a summary of a known start replaces that one with both penalties, another one goes to the end |
| BudgetAccounts.EveryUnitOnAHold | internal/lockbudget/manager.go:440-495 | inside a period, over any run: what has been consumed is what the period started with, plus what the open holds have cost, plus what the ended ones have cost |
| BudgetAccounts.CloseLoose | internal/lockbudget/manager.go:266-304 | closing a period puts every unit it charges on a hold |
| BudgetLaws.NoSurcharge | internal/lockbudget/manager.go:416-419 | without an overdraft allowance raw units are charged as they are |
| BudgetLaws.ScheduleIndependent | internal/lockbudget/manager.go:453-465 | whatever ticks fall between and whatever happens to other holds, a hold inside one period, out of arrears, without overdraft and before expiry costs its duration in seconds since its acquisition or the period's start, rounded up once |
| BudgetLaws.StepCharges | internal/lockbudget/manager.go:440-465 | each operation keeps the hold charged exactly the whole seconds up to where it was last metered |
| BudgetLaws.OnePart | internal/lockbudget/manager.go:416-438 | a charge adds half of its overdrawn units, rounded up |
| BudgetLaws.SplitCost | internal/lockbudget/manager.go:416-438 | however raw units are split, the same part is overdrawn; twice the surcharge is that part plus the number of parts overdrawn by an odd amount |
| BudgetLaws.SplitBounds | internal/lockbudget/manager.go:416-438 | so ceil(D/2) <= P <= (D+k)/2, with the unsplit surcharge if and only if at most one part overdraws by an odd amount |
| BudgetLaws.SplitMatters | internal/lockbudget/manager.go:416-438 | a concrete split that costs more than the single charge |
| BudgetLaws.RunChargesParts | internal/lockbudget/manager.go:440-495 | inside one period a run's consumption and surcharge are those of the raw units it charged, in order |
| BudgetLaws.RunSurcharge | internal/lockbudget/manager.go:416-495 | hence the bounds on the surcharge hold for every schedule of ticks, starts and stops |
| BudgetPeriods.RollOver | internal/lockbudget/manager.go:198-237 | the new end is the old end plus n >= 1 periods, new start <= now < new end + 1 s, and the check has not caught up if and only if the whole seconds elapsed are a positive multiple of the period |
| BudgetPeriods.OnePeriodLate | internal/lockbudget/manager.go:198-237 | a check exactly one period late has not caught up, for every caller and period |
| BudgetPeriods.SecondCheckCatchesUp | internal/lockbudget/manager.go:198-237 | a second check at the same instant ends strictly after it |
| BudgetPeriods.EmptyTiles | internal/lockbudget/manager.go:214-235 | the summaries of skipped periods are consecutive, whole and empty |
| BudgetPeriods.ResetTiles | internal/lockbudget/manager.go:198-237 | a roll-over stores the closed period and the skipped ones, overwrites nothing, and keeps the tiling |
| BudgetPeriods.RunTiles | internal/lockbudget/manager.go:180-264 | over any run the stored periods tile the time up to the current one, and what is stored never changes |
| RateAlert.Watcher.SetRule | internal/ratealert/manager.go:120-171 | validation, default trigger, and the state of a new rule |
| RateAlert.Watcher.RecordConsumption | internal/ratealert/manager.go:205-313 | whole new state of a record, and whether it alerted |
| RateAlert.Watcher.CleanupExpiredRecords | internal/ratealert/manager.go:93-118 | drops the expired records in front |
| RateAlert.Watcher.UnfreezeCaller | internal/ratealert/manager.go:319-350 | ends a freeze and resets the count |
| RateAlert.WindowIsExact | internal/ratealert/manager.go:222-243 | with clock readings that never go back, the pruned window's total is the sum over the whole accepted history with timestamp >= at - window |
| RateAlert.AcceptedExact | internal/ratealert/manager.go:205-225 | a record enters the history and the window exactly if it has units, the rule is enabled and the caller is not frozen; otherwise nothing changes |
| RateAlert.AlertExact | internal/ratealert/manager.go:245-254 | a record alerts if and only if it counts, the units accepted in the last window reach the limit, and half a window has passed since the last alert under this rule, if there was one |
| RateAlert.NewRuleExact | internal/ratealert/manager.go:120-171 | a new rule starts with no records and no alerts, so that its first alert is not suppressed, with the trigger 3 where none is given, and does not end a freeze; without a window or a limit it is refused |
| RateAlert.CleanExact | internal/ratealert/manager.go:93-118 | cleaning leaves exactly the records of the last window |
| RateAlert.UnfreezeExact | internal/ratealert/manager.go:319-350 | after an unfreeze the caller is not frozen, its count is zero, and the next record with units under an enabled rule counts again |
| RateAlert.FrozenExact | internal/ratealert/manager.go:259-350 | over any run: the caller is frozen if and only if some record made the alert with the trigger's number, counted since the rule was set or the last unfreeze, and nobody has unfrozen it since |
| RateAlert.RunKeepsOk | internal/ratealert/manager.go:93-350 | in every reachable state alerts are at least half a window apart, those since the last unfreeze are counted, and there is no freeze before the trigger |
| RateAlert.FreezeTakesTime | internal/ratealert/manager.go:259-313 | a freeze comes exactly with the N-th alert since the rule was set or the last unfreeze, at least (N-1) half windows after the first of them |
| Orchestration.TxManager.CreateTx | internal/orchestration/manager.go:157-278 | outcome and whole new lock and quota state of creating a transaction, with its rollback loops |
| Orchestration.CreateTxAtomic | internal/orchestration/manager.go:157-278 | commits if and only if the names are distinct, every lock is free and admitted, and every caller has room for all tokens asked of it; then all locks are freshly held and all tokens charged; otherwise locks, leases and timers are as before, every queue has lost exactly the holder's entries, and quotas are as the clock alone leaves them |
| Orchestration.SortByNameSorts | internal/orchestration/manager.go:184-188 | the requests ascend by name and are the same ones |
| TxLocks.TakeLocksAdds | internal/orchestration/manager.go:190-221 | the locks taken before the first failure are freshly held, nobody else has lost or gained a place in a queue, and all are taken exactly if all are admitted |
| TxLocks.LocksUndone | internal/orchestration/manager.go:248-255 | the rollback of the locks restores holdings and leaves exactly the others' queue entries |
| TxLocks.CancelLeavesOthers | internal/lock/manager.go:832-852 | cancelling a holder's waits leaves exactly the others' entries in every queue |
| TxTokens.TakeTokensCharges | internal/orchestration/manager.go:223-245 | tokens granted before the first refusal are charged on top of the clock, and all are granted exactly if they fit together |
| TxTokens.OneReturn | internal/ratelimit/manager.go:1286-1314 | returning the last grant takes exactly it off again |
| TxTokens.TokensUndone | internal/orchestration/manager.go:248-251 | the rollback of the tokens leaves every caller as the clock alone would |

## Left out

- LockManager.Manager.AcquireLock: requires a non-empty lock name and holder; for an empty lock name the fencing issuer fails after the lock row is written, and the half-written state is not modelled.
- LockManager.Manager.AcquireLocksBatch: requires a non-empty holder and no empty lock name, for the same reason.
- LockRuns.ReachableAcyclic: holds for runs in which no holder queues while it is already queued; without that it is false, see MissedDeadlockRun.
- Reservations.CheckConflict: its two answers are bounded by different loads; TieOrdersExact says exactly when they leave nothing between them, over all orders of tied events rather than only those that the program's sort produces from some order of visiting.
- QuotaRuns.StepKeepsOk: callers are bound once, since binding again wipes borrowed, lent and reserved tokens (`RebindExact` says when that does no harm); amounts are positive and a fixed window is at least one second.
- QuotaManager.Manager.ApplyAlgorithmTick: a fixed window of zero or negative length divides by zero in the program and leaves the binding alone here; `float64` seconds, refills and decay are exact reals, and the exponential is an arbitrary factor between 0 and 1.
- FixedWindowRuns.AtMostTwice: asks that no tick clamps the caller's used tokens by ending a reservation of its in a window that goes on; without that it is false, see SwapBeatsTheBound.
- BudgetLaws.ScheduleIndependent: is about one period; `HoldAcrossPeriods` says what a hold pays when the period ends under it, where the fraction of a second and the time up to the check are dropped.
- BudgetMeter.Caller.FinalizeCurrentPeriod: bills, transfer details, arrears records and peak and count statistics are not modelled; whether the caller is in arrears is given to each step.
- BudgetMeter.Caller.StoreSummary: of a merged summary only the penalty is added up; the other summed columns are not modelled.
- BudgetMeter.Caller.CheckPeriodReset: the overdraft carried over is the code's `currentOverdraft` plus surcharge; `currentOverdraft` is zero after a reset even where the new period starts over its limit, and stays so until a charge.
- Orchestration.TxManager.CreateTx: the transaction's own rows, state changes and timeout timer are not modelled; requests with the same lock name may come in any order in the program and come in one fixed order here (the second one always fails); lock names are not empty.
- TxLocks.LocksUndone: entries are compared without their ids, because a reordering for a priority holder gives the rows new ones.
- Fencing.AtMostOneValid: a token is the pair of path and sequence it is computed from, so hash collisions do not exist.
- HTTP handlers, JSON, SQL text, logging, history and audit rows, heat maps and demo data: input, output and reporting.
- Storage failures: several paths write half of the state before an error.
- Goroutines and tickers: each locked method is one step, timers may fire at any time, and interleavings inside a step do not exist. The lock checks of one transaction see one arbitrary environment per request, the rollback another.
- Restart: rebuilding timers, loading rows and reservations from storage.
- Expiry of a lease no earlier than its time: a timer that has fired while waiting for the mutex can expire a newer lease, so expiry is allowed at any time.
- Records of loans, as opposed to the counters: the return looks them up with the callers exchanged.
- Changing or deleting a budget, transfers and recharges between callers, and the budget checks themselves, which are arbitrary answers to the lock manager.
- Cascade acquire and release over the topology, and the forced release order: repeated ancestors and reentrant holds leak counts.
- Handing over a lock to another holder, debts, heartbeats, maintenance, namespaces, recovery, reputation and shadow runs: single-branch rules, scores or reports.
