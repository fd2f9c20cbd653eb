# A verified model of the gowait waiting room

gowait admits the first N users to a backend and keeps everybody else in a fair line. A
store holds the line and the active sessions; stateless controllers on any number of
replicas drive it through atomic operations; a prober moves the capacity; counters report
what happened. This project models those parts and proves what the line promises.

The files, bottom up:

- `WaitingRoom.dfy`: the room as a value (FIFO queue, active sessions, session average,
  sequence counter, capacity override) and every store operation as a function on it.
- `SeqIndex.dfy`: the invariant of the position index (sequence numbers and holes).
- `ReconcileSteps.dfy`, `MemoryTable.dfy`, `Memory.dfy`: the in-process store, a class with
  entry objects shared between a map and a list, its holes and its binary searches.
- `Valkey.dfy`: the Lua scripts as methods over sorted sets and hashes.
- `Reconcile.dfy`: the exact effect of one Reconcile pass, idempotence, the average.
- `Runs.dfy`, `Waiting.dfy`, `Sessions.dfy`, `Conformance.dfy`: whole runs of store
  operations (first in first out, capacity, conservation), what a waiter and an admitted
  ticket can count on, and the two stores side by side.
- `Admission.dfy`, `Controller.dfy`, `Metrics.dfy`, `Prober.dfy`, `Ticket.dfy`: the
  controller of one instance, its decisions and estimates, the histogram, the prober, the
  signed cookie values.
- `Replicas.dfy`, `Agreement.dfy`, `Sequential.dfy`: many replicas as a transition system
  with a program counter per call in flight; how a capacity override spreads; a call that
  nobody interrupts does what the sequential controller does.
- `Witnesses.dfy`: runs of that system which show that its conditions are needed.

The chain of argument: the two store classes are proved equal, operation by operation, to
the functions on rooms; the laws are proved about those functions, for every run and, in
`Replicas.dfy`, for every interleaving.

`dafny verify dfyconfig.toml` checks the whole project.

Times and durations are integer milliseconds, averages and waits are reals in seconds, the
estimated wait is in nanoseconds as in the program. A room is valid when its queue has
ascending sequence numbers up to the counter, one place per ticket, and no active ticket.

Where the code and its documentation differ, the model follows the code. The store
interface calls Enqueue a no-op for a queued or active ticket (internal/store/store.go:56-58);
the in-process store moves `lastSeen` for both, the Valkey script for queued tickets only.
`Conformance.StepAgrees` says on which calls that parts the stores, and `PartingShows` that
it can be observed.

Three promises hold only under a condition, which is stated and proved, with an input for
which the promise fails without it:

- admissions_total minus expirations_total is the active count plus the number of
  *rejoins*, admissions of a ticket that an overlapping Check had already let in
  (`Replicas.ConservationAtRest`); with one Check at a time per ticket there are none
  (`Replicas.ExactAtRest`), and two overlapping ones suffice for one
  (`Witnesses.OverlapRejoins`);
- a Wait describes an instant of its call at which the ticket was queued exactly if its
  position is at least 1, which it is unless another Check of the ticket overlapped this
  call (`Replicas.AlwaysJustified`, `Replicas.LoneWaitWasQueued`); when one did, Enqueue may
  find the ticket active and report position 0 (`Witnesses.OverlapWaits`);
- a second Reconcile at the same instant finds nothing to do exactly if the inactivity
  window is not negative or the first one promoted nobody (`ReconcileLaws.ReconcileSettles`,
  `ReconcileLaws.NegativeWindowUnsettles`).

## Model

| member | source | states |
|---|---|---|
| SeqIndex.FastPosition | internal/store/memory/memory.go:211-219 | the sequence distance to the head minus the holes counted by the two searches is the waiter's index in the list plus one, whenever every number from the head on is queued or a hole but not both |
| SeqIndex.Distance | internal/store/memory/memory.go:38-42 | queued numbers and holes below any number measure its distance from the head |
| SeqIndex.Canonical | internal/store/memory/memory.go:234-245 | the holes are determined by the queue: at most one list satisfies the invariant |
| SeqIndex.Search | internal/store/memory/memory.go:216-217 | binary search finds the least index at which a monotone predicate holds |
| SeqIndex.EvictKeeps | internal/store/memory/memory.go:225-233 | removing any waiter and recording its number as a hole keeps the index invariant |
| SeqIndex.PruneKeeps | internal/store/memory/memory.go:236-245 | dropping the holes up to the head restores the invariant that holds between operations |
| Memory.Store.TryAdmit | internal/store/memory/memory.go:52-70 | admits exactly an active ticket, or any ticket while a slot is free and nobody waits; the rest of the store is unchanged |
| Memory.Store.Enqueue | internal/store/memory/memory.go:72-85 | a new ticket goes to the tail with the next number, a known one gets a heartbeat; the position from the index is the place in the list |
| Memory.Store.Lookup | internal/store/memory/memory.go:87-97 | a heartbeat, and the exact status, place in the list and counts |
| Memory.Store.Touch | internal/store/memory/memory.go:99-109 | moves lastSeen of an active ticket to now and changes nothing else, and says whether it was one |
| Memory.Store.Reconcile | internal/store/memory/memory.go:111-160 | in whatever order the map is visited: the three phases in their closed form, a report independent of that order, and unchanged holes if the room is unchanged |
| Memory.Store.ExpireIdle | internal/store/memory/memory.go:117-130 | the map scan removes exactly the idle sessions and folds their durations, in the order met, into the average |
| Memory.Store.EvictGhosts | internal/store/memory/memory.go:132-144 | the list walk with removals leaves exactly the waiters that are no ghosts, in order |
| Memory.Store.PromoteHeads | internal/store/memory/memory.go:146-157 | the loop admits the longest prefix that fits the free slots, with its waits |
| Memory.Store.SnapshotLocked | internal/store/memory/memory.go:205-221 | the indexed position equals the place in the list |
| Memory.Store.AddHoleLocked | internal/store/memory/memory.go:225-233 | the holes gain exactly one number and stay ascending |
| Memory.Store.PruneHolesLocked | internal/store/memory/memory.go:236-245 | restores the full store invariant after the phases of Reconcile |
| Memory.Store.Flush | internal/store/memory/memory.go:186-196 | removes every waiter and no session, and reports how many |
| Memory.Store.SetCapacity | internal/store/memory/memory.go:172-178 | records the override and nothing else |
| Memory.Store.GetCapacity | internal/store/memory/memory.go:180-184 | reports whether an override exists and its value |
| Valkey.RankIsPlace | internal/store/valkeystore/valkeystore.go:54-62 | ZRANK in the order set is the ticket's index in the line |
| Valkey.QueueDetermined | internal/store/valkeystore/valkeystore.go:10-17 | the keys hold at most one queue: the room they represent is unique |
| Valkey.ZRangeBelow | internal/store/valkeystore/valkeystore.go:93-106 | the members scored below a bound, once each, ascending |
| Valkey.Store.TryAdmit | internal/store/valkeystore/valkeystore.go:35-47 | the same admission function on rooms as the in-process store |
| Valkey.Store.Enqueue | internal/store/valkeystore/valkeystore.go:49-63 | the same, except that an active ticket is reported without being refreshed |
| Valkey.Store.Lookup | internal/store/valkeystore/valkeystore.go:65-78 | the same heartbeat and the same snapshot |
| Valkey.Store.Touch | internal/store/valkeystore/valkeystore.go:80-86 | the same move of lastSeen, of an active ticket only |
| Valkey.Store.Reconcile | internal/store/valkeystore/valkeystore.go:88-128 | the same closed form and report, the idle sessions being met in score order |
| Valkey.Store.EvictGhosts | internal/store/valkeystore/valkeystore.go:105-111 | removing ghosts in lastSeen order leaves the same line as the list walk |
| Valkey.Store.PromoteHeads | internal/store/valkeystore/valkeystore.go:113-126 | popping least scores admits the same prefix with the same waits |
| Valkey.Store.Flush | internal/store/valkeystore/valkeystore.go:130-134 | the same emptied queue and count |
| ReconcileLaws.ExactEffect | internal/store/memory/memory.go:111-160 | for every ticket: gone if idle or a ghost, otherwise kept, promoted, or moved up by exactly the evicted ahead and the promoted |
| ReconcileLaws.ReportCounts | internal/store/memory/memory.go:115-159 | expired and evicted count the idle and the ghosts, promoted is min(max(0, capacity - survivors active), survivors queued) |
| ReconcileLaws.WaitsAreTrue | internal/store/memory/memory.go:152-154 | the wait reported for the ticket promoted at a place, times 1000, is the milliseconds since it was enqueued |
| ReconcileLaws.DurationsAreTrue | internal/store/memory/memory.go:119 | a duration that enters the average, times 1000, is the milliseconds from admission to last request |
| ReconcileLaws.AverageMoves | internal/store/memory/memory.go:118-125 | the last session a pass ends counts for one fifth of the new average and the average before it for four, or for all of it if that was 0 |
| ReconcileLaws.WaitsFall | internal/store/memory/memory.go:152-154 | with a nondecreasing enqueue clock the reported waits are non-increasing |
| ReconcileLaws.WorkConserving | internal/store/memory/memory.go:147-157 | after any pass every slot is taken or nobody waits |
| ReconcileLaws.ReconcileSettles | internal/store/memory/memory.go:111-160 | a pass leaves nothing to do at that instant if and only if the inactivity window is non-negative or nobody was promoted |
| ReconcileLaws.NegativeWindowUnsettles | internal/store/memory/memory.go:117-130 | with a negative window, the same pass run again ends the session that the first one began |
| ReconcileLaws.SettledIsFixed | internal/store/memory/memory.go:111-160 | a pass reports zeros if and only if nobody is idle, nobody is a ghost and no slot is free while somebody waits; then it changes nothing, average included |
| ReconcileLaws.Idempotent | internal/store/memory/memory.go:111-160 | a second pass at the same instant and capacity changes nothing and reports zeros |
| ReconcileLaws.EmaInHull | internal/store/memory/memory.go:118-125 | the average lies between the shortest and the longest completed session, despite the reseeding at 0 |
| Runs.FifoRun | internal/store/memory/memory.go:56-69 | over any run tickets are promoted in the order of their numbers, all ahead of every number still queued |
| Runs.StepFair | internal/store/store.go:51-53 | a ticket becomes active only when every smaller number has left the queue, or from outside when nobody waits |
| Runs.OnlyIdleLeave | internal/store/memory/memory.go:117-130 | a session ends if and only if a pass finds it idle; lowering the capacity ends none |
| Runs.CapacityRun | internal/store/memory/memory.go:60-62 | the active set never outgrows the largest capacity passed in a run |
| Runs.ActivationWithinCap | internal/store/memory/memory.go:147-156 | an operation that lets somebody in ends within the capacity it was given |
| Runs.Conservation | internal/store/memory/memory.go:111-160 | over any run: tickets queued are promoted, evicted, flushed or still queued; active tickets are those promoted or admitted directly and not expired |
| Runs.WaitsFallInRun | internal/store/memory/memory.go:146-157 | over any run whose Enqueue times do not run backwards, every pass reports the waits of those it lets in longest first |
| Runs.AverageInHull | internal/store/memory/memory.go:118-130 | in every run from an empty store the average is 0 until a session ends and then lies among the completed durations |
| Waiting.PollingKeepsPlace | internal/store/memory/memory.go:132-144 | over any run a waiter is never evicted and its place never grows before it is admitted, if and only if no pass finds its last heartbeat older than the queue TTL and nobody flushes |
| Waiting.WaitIsTimeInLine | internal/store/valkeystore/valkeystore.go:113-126 | a ticket that joined at t and stayed in line over any run is reported, at its own place among the promotions of the pass that lets it in, with a wait from t to that pass |
| Sessions.RequestSlides | internal/store/store.go:64-66 | Touch, Lookup or TryAdmit of an active ticket moves its lastSeen to now, keeps its admission time and changes nothing else |
| Sessions.RequestsKeepTheSlot | internal/store/memory/memory.go:117-130 | over any run an active ticket keeps its slot if and only if no pass finds its last request older than the window; its session then spans from admission to last request |
| Sessions.SessionLasts | internal/store/memory/memory.go:118-126 | the pass that ends a session meets it once and averages in exactly the time from its admission to its last request, over any run in between |
| Waiting.PunctualPolls | internal/store/memory/memory.go:132-144 | under a clock that does not run backwards, heartbeats at most a gap apart, the end of the run counted, are fresh at every pass whose queue TTL is at least that gap |
| Waiting.OneMissedPollKeepsPlace | internal/config/config.go:129-131 | with a queue TTL of at least two poll intervals a client that never misses two polls in a row keeps its place |
| Waiting.BoundedWait | internal/queue/controller.go:222-244 | with fixed capacity, passes at most a period apart and silent active tickets, a polling waiter at a position is active by t + ceil(position/capacity) * (activeTTL + period) |
| Waiting.Windows | internal/store/memory/memory.go:111-160 | whenever the waiter's place and the sessions begun since t add up to at most windows * capacity, it is active by t + windows * (activeTTL + period), in the same calm runs |
| Conformance.StepAgrees | internal/store/valkeystore/valkeystore.go:51-53 | from rooms equal up to the average both stores answer alike, and stay so if and only if the call is no Enqueue that moves an active ticket's lastSeen |
| Conformance.RunsAgree | internal/store/store.go:50-90 | over any run of the interface's operations without such a call both stores give the same answers throughout, the average that Stats reports aside |
| Conformance.SharedRunIsMemoryRun | internal/store/valkeystore/valkeystore.go:92-103 | every such run of the shared store is, average included, a run of the in-process store under some map order |
| Conformance.PartingShows | internal/store/memory/memory.go:83 | a session idle before the window and enqueued within it survives the next pass in process memory and is gone in Valkey |
| Conformance.Lockstep | internal/store/store.go:50-90 | the two classes, called side by side with any operation of the interface, answer alike (the average that Stats reports aside) and agree exactly unless the call parts them |
| Admission.PassFollowsPolicy | internal/queue/controller.go:140-151 | a pass ends the sessions silent for longer than the inactivity window and evicts the waiters silent for longer than the queue TTL, and no others, fills the slots up to the capacity, and the report accounts for both populations |
| Admission.StatusPredictsCheck | internal/queue/controller.go:193-220 | a status poll followed by a request at the same instant gives the same decision and position, for active, queued and unknown tickets |
| Admission.CheckIsTrue | internal/queue/controller.go:166-190 | the answer of a Check is the ticket's state after it: Proxy if and only if active, Wait with its exact position and counts |
| Admission.StatusIsTrue | internal/queue/controller.go:204-219 | a status poll answers Proxy if and only if the ticket is active, or nobody waits and a slot is free; otherwise its exact place, the tail for an unknown ticket; always the exact counts |
| Admission.EtaIsExact | internal/queue/controller.go:263-269 | the estimate is the one number eta with capacity * eta = position * average session up to less than one capacity, the average in whole nanoseconds, or the window if no session has ended |
| Admission.EtaMonotone | internal/queue/controller.go:263-269 | the estimate never falls with the position |
| Admission.EtaBound | internal/queue/controller.go:263-269 | the estimate is at most position * max(activeTTL, longest session) / capacity, to the millisecond |
| Admission.EtaOfRun | internal/queue/controller.go:263-269 | the same bound for the average of any store that started empty, after any run, over the sessions that ended in it |
| Controller.Controller.SetCapacity | internal/queue/controller.go:97-106 | below 1 it is rejected without effect; otherwise stored and cached |
| Controller.Controller.RefreshCapacity | internal/queue/controller.go:112-122 | adopts an override of at least 1, else the configured capacity |
| Controller.Controller.MaybeReconcile | internal/queue/controller.go:128-136 | a pass runs exactly if there is no gap or the gap has elapsed; the metrics gain exactly its report, or nothing |
| Controller.Controller.DoReconcile | internal/queue/controller.go:140-151 | every promotion is observed once with its wait, expirations and evictions are added, and admissions minus expirations stays the active count |
| Controller.Controller.Check | internal/queue/controller.go:155-191 | the store calls compose to the Check function on rooms, with the matching answer; the observed waits grow by those of the pass and a 0 for a direct admission; a Wait carries exactly the estimate for the young cached average or else the store's, which is then cached; a Proxy carries none |
| Controller.Controller.StatusOf | internal/queue/controller.go:195-220 | only a heartbeat is left behind besides the pass and its metrics; the answer is the predicted one, with the estimate as for a Check |
| Controller.Controller.Tick | internal/queue/controller.go:240-242 | one janitor round: the refreshed capacity is the one the pass uses, and the metrics gain its report |
| Controller.Controller.EtaStats | internal/queue/controller.go:273-288 | a reading younger than its TTL is served unchanged, otherwise a fresh one is served and cached |
| Replicas.AlwaysSafe | internal/queue/controller.go:155-220 | over every interleaving: no ticket both queued and active, active within the largest capacity used, promotions in number order ahead of all waiters, balanced populations |
| Replicas.NoOvertaking | internal/queue/controller.go:155-191 | no step of any interleaving admits a ticket past a smaller queued number or a stranger past a queue |
| Replicas.AlwaysUsable | internal/queue/controller.go:97-122 | every capacity cached or in use is at least 1 whatever is stored, so the estimate never divides by 0 |
| Replicas.ConservationAtRest | internal/queue/controller.go:140-151 | with no call in flight, summed over replicas, admissions minus expirations is the active count plus the rejoins, and every ticket ever queued is accounted for |
| Replicas.ExactAtRest | internal/metrics/metrics.go:55-89 | with one Check at a time per ticket, admissions minus expirations is the active count |
| Replicas.AlwaysJustified | internal/queue/controller.go:155-191 | every Proxy has an instant inside the call at which the ticket was active; every Wait one at which it was known with exactly the returned position and counts; that instant is one in the queue if and only if the position is at least 1, which it is if no other Check of the ticket overlapped this call |
| Replicas.LoneWaitWasQueued | internal/queue/controller.go:155-191 | in any run from the start, a finished Check that answers Wait and that no other Check of its ticket overlapped had an instant at which the ticket was queued at the returned position with the returned counts |
| Replicas.FromTheStart | internal/queue/controller.go:67-75 | all of these in every state reachable from the start |
| Witnesses.OverlapRejoins | internal/queue/controller.go:174-184 | two overlapping Checks of one unknown ticket can both count an admission: two admissions, no expiration, one active ticket |
| Witnesses.OverlapWaits | internal/queue/controller.go:174-189 | of two overlapping Checks of one ticket the second can answer Wait at position 0, for a ticket that is active |
| Agreement.CapacityAgreement | internal/queue/controller.go:108-122 | without pending writes, a replica that has refreshed since caches the stored override, or its configured value if that is unusable, and keeps it |
| Agreement.WrittenCapacitySpreads | internal/queue/controller.go:97-122 | from the moment a SetCapacity(n) writes the store, with no other writer acting, the override stays n and every replica refreshed since has n cached |
| Agreement.FinishedWritesStored | internal/queue/controller.go:97-106 | in any run from the start, a SetCapacity(n) that has finished, n at least 1, stored n at an instant inside the call |
| Agreement.AlwaysGenuine | internal/queue/controller.go:67-122 | over every interleaving, every capacity cached or in use is the replica's configured one or has been in the store |
| Agreement.AlwaysOneJanitor | internal/queue/controller.go:224-244 | a replica's janitor rounds never overlap |
| Sequential.CheckAlone | internal/queue/controller.go:155-191 | from any state of the replicated system, a Check that nobody interrupts leaves the room, the answer and its replica's counters of one sequential Check, after its pass or without, and nothing else |
| Sequential.StatusAlone | internal/queue/controller.go:195-220 | the same for a status poll |
| Sequential.SetAlone | internal/queue/controller.go:97-106 | an uninterrupted SetCapacity stores n and caches n; below 1 it does nothing |
| Sequential.JanitorAlone | internal/queue/controller.go:233-242 | an uninterrupted janitor round caches the stored override if it is at least 1, the configured capacity if not, and passes and counts at that capacity |
| Sequential.FlushAlone | internal/queue/controller.go:85-89 | an uninterrupted Flush empties the queue and nothing else |
| Replicas.TouchSlides | internal/queue/controller.go:167-171 | a request found active slides the window when it acts, whatever happened since its lookup |
| Metrics.BelowIsAtMost | internal/metrics/metrics.go:63-69 | adding the buckets up to a bound counts the observations within it, all of them for +Inf |
| Metrics.AtMostCounts | internal/metrics/metrics.go:144-152 | that count is the number of indices whose observation is at most the bound |
| Metrics.SumAdds | internal/metrics/metrics.go:72-77 | the sum of two batches of observations is the sum of their sums |
| Metrics.Registry.ObserveAdmission | internal/metrics/metrics.go:57-78 | one more observation, in the first bucket whose bound it does not exceed |
| Metrics.Registry.WriteTo | internal/metrics/metrics.go:144-152 | the published count of each bound is the number of observations within it; +Inf, count and admissions are all of them |
| Prober.StaysWithinBounds | internal/prober/prober.go:110-139 | every run of outcomes stays within the bounds, the streak below three |
| Prober.FailuresHalve | internal/prober/prober.go:121-127 | k failures give max(min, c / 2^k) |
| Prober.SuccessesGrow | internal/prober/prober.go:114-130 | n successes from streak s give min(max, c + (s+n)/3) with streak (s+n) mod 3 |
| Prober.EntersBounds | internal/prober/prober.go:110-139 | from a capacity outside the bounds, the first failure or completed streak brings it inside, at most three outcomes later, and until then it is untouched |
| Prober.AdjustedFromAnywhere | internal/prober/prober.go:114-133 | one outcome from any capacity, with both bounds written out |
| Prober.Prober.Adjust | internal/prober/prober.go:111-139 | one AIMD step of capacity and streak; a written value is within the bounds and never rejected |
| Prober.Prober.Tick | internal/prober/prober.go:79-91 | with the lease or without a locker one step of capacity, streak and stored value; otherwise the round leaves no trace |
| Ticket.EncodedHasNoColon | internal/ticket/ticket.go:68-72 | unpadded base64url text never contains the separator |
| Ticket.EncodeSpells | internal/ticket/ticket.go:71 | every character of the text stands, by the base64url alphabet, for the six bits of the bytes at its place, without padding |
| Ticket.EncodeInjective | internal/ticket/ticket.go:62 | comparing signature texts compares hashes |
| Ticket.Signer.VerifyInvertsSign | internal/ticket/ticket.go:44-66 | Verify accepts a value with a payload if and only if the value is that payload signed, colons or not |
| Ticket.Signer.VerifyChecksHash | internal/ticket/ticket.go:58-64 | a value whose signature encodes h is accepted if and only if h is the hash of what it signs |

## Left out

- Sub-millisecond time: one millisecond clock serves both stores, so the truncation in the Valkey store has no effect here.
- Floating-point rounding and the decimal text of the average: reals throughout.
- Overflow of the sequence counter and of the counters: unbounded integers.
- The link from an entry to its list element: the list is a sequence of entry objects, and membership in it plays the part of the link.
- Mutexes, atomics and compare-and-swap loops: each store method, load, store or counter update is one atomic step.
- Network errors, reply decoding and an override that is no number: every script succeeds, and an override is an integer or absent. The prober's branch for a failing capacity write therefore never runs.
- Ties in a sorted set: ZMin may return any member of least score. Scores in the order set are distinct, so this only widens the orders in which equal lastSeen times are met.
- TryLock and its expiry: the outcome of the lease is an input of the prober's round, as is the probe result.
- A nil metrics registry, request counters and the exposition text: only the series the conservation and histogram laws are about.
- The reconcile gap under concurrent calls: in the replicated system a request may skip its pass at will, so no claim is made about how often passes run.
- Replicas.ConservationAtRest: the several counter updates after one pass are one step, and histograms are the subject of Metrics only.
- Estimates in the replicated system: they read statistics without effect, so results there carry no estimate.
- Controller.Controller.Check: the sequential controller is over the in-process store; the Valkey class meets the same contracts, except for Enqueue of an active ticket.
- Random ids and secrets, HMAC-SHA256 itself, constant-time comparison: the hash is an arbitrary function of secret and message.
- HTTP handlers, cookies, the proxy, the waiting page, configuration parsing and deployment files: plumbing without a hard property.
