# Verified models of the MXRC robot controller

MXRC is a robot controller: a cyclic real-time executive, a store shared between the real-time and the
non-real-time process, behaviour arbitration and alarms, high availability, tracing and a web API. The modules
here model the parts of it in which several operations, several threads or 32- and 64-bit arithmetic have to fit
together, and prove what holds of them on every input, in every interleaving and on every run. Where something the
program's comments promise does not hold of its code, the model follows the code, a lemma gives an input or a run
on which the promise fails, and another states exactly when it holds.

Each component is a set of value types and functions for its steps, a class whose methods are proved against those
functions where the program updates an object in place, invariants kept by every step, and theorems over runs:
`Steps(s, es, t)` says that the events `es` lead from `s` to `t`.

| file | models |
|---|---|
| `Seqlock.dfy` | one sequence-lock slot, its writer and any number of readers, one memory access per step |
| `RtDataStore.dfy` | typed setters and getters of the real-time data store over such a slot |
| `HotKeyCache.dfy` | the hot-key cache, whose readers restart |
| `VersionedStore.dfy` | versioned reads and writes of the data store, value and version stored separately |
| `Common.dfy` | what several modules share |
| `Divisibility.dfy`, `Sums.dfy` | greatest common divisor, least common multiple, powers of two; finite sums |
| `ScheduleCalculator.dfy` | minor and major cycle from the periods, in 32-bit arithmetic |
| `CyclicExecutive.dfy` | the slot table, its execution, and the time it takes |
| `ScheduleValidator.dfy` | the offline schedule validator |
| `SafeMode.dfy` | the real-time state machine and its heartbeat check |
| `PriorityLevels.dfy`, `TaskQueue.dfy` | five queues by priority; the task queue built on them |
| `Arbiter.dfy` | the behaviour arbiter |
| `Alarm.dfy` | the alarm manager |
| `Failover.dfy` | the restart limiter for failed processes |
| `HaStateMachine.dfy` | the high-availability state machine |
| `TraceContext.dfy` | trace-context and baggage headers (W3C Trace Context, W3C Baggage) |
| `Histogram.dfy` | Prometheus histograms |
| `Subscriptions.dfy` | subscriptions of web-socket connections |

## Where the code and its comments part

- Typed getters of the real-time store leave their loop when the second variable happens to equal the odd counter of
  a write in progress. It may be left from an earlier attempt inside that write: the read then returns bytes of two
  writes (`RtDataStore.TornRead`), or the type of one and the value of another (`RtDataStore.MixedRead`). Or it was
  never assigned: the read succeeds with uninitialised bytes before anything was written (`RtDataStore.GarbageRead`).
  `Seqlock.OddExitIff` says exactly when, and `Seqlock.RestartAlwaysSnapshots` that the cache's reader cannot.
- Equal versions do not mean equal values: value and version are stored in two steps
  (`VersionedStore.EqualVersions`, `VersionedStore.EqualVersionsDifferentValues`).
- The major cycle is computed modulo 2^32 before it is compared with the limit, so a wrapped value is accepted
  (`ScheduleCalculator.OverflowAccepted`); it is right exactly when the true multiple fits
  (`ScheduleCalculator.MajorRightIff`). The wrapped value can be shorter than the minor cycle, and the executive then
  has no slot (`ScheduleCalculator.NoSlotsIff`). A single period is never compared with the limit
  (`ScheduleCalculator.LimitEnforcedIff`).
- What the validator accepts need not fit the slot table (`ScheduleValidator.LongPeriodAcceptedButOverloads`): the
  periods guarantee at most 70% of a turn, whatever the accepted costs, exactly when their intervals divide the number
  of slots (`ScheduleValidator.FitsAllCostsIff`, `ScheduleValidator.FitsAllActionsIff`, which also treat periods so
  long that the budget wraps). The validator does not check that. With other intervals some accepted costs still fit
  and others do not.
- In the validator a period of zero switches the utilisation test off (`ScheduleValidator.AcceptsIff`). Its test of a
  cost against the period wraps at 32 bits and refuses legitimate costs at long periods
  (`ScheduleValidator.BudgetRespectedIff`).
- A heartbeat written between the two readings of the check puts a healthy system into SAFE_MODE
  (`SafeMode.StaleIsLateIff`).
- Work of lower priority is not always processed after the more urgent work: while a behaviour runs, every tick
  drops the most urgent waiting request unless it may preempt (`Arbiter.DiscardedIff`). Suspended behaviours are
  never taken up again (`Arbiter.NeverStartedTwice`). The change to MAINT promised after a warning happens only from
  STANDBY (`Arbiter.MaintAfterTaskIff`), and FAULT does not hold back later requests (`Arbiter.FaultGatesNothing`).
  There is no change between MANUAL and READY, which the comment on the modes has (`Arbiter.ModeSources`).
- An acknowledged alarm can never be resolved and stays counted until a reset
  (`Alarms.AcknowledgedNeverResolved`, `Alarms.AcknowledgedNeverClears`). The escalation event is never published:
  the test compares ranks in the wrong direction (`Alarms.AlarmManager.RaiseAlarm`).
- The restart limiter allows almost twice its limit, and twice soon after the clock's epoch, in some stretches of one
  window length (`Failover.RestartsBounded`, reached by `Failover.BoundReached` and `Failover.EarlyBoundReached`).
- Manual intervention after the last recovery attempt, and SAFE_MODE after a critical failure, are not reached from
  every state (`HaStateMachines.ManualAfterLimitIff`, `HaStateMachines.CriticalReachesSafeModeIff`).
- Baggage with separators in it, upper-case ids and stale headers do not survive propagation
  (`TraceContexts.InjectExtractIff`). A traceparent with flags above 01 is accepted but not passed on
  (`TraceContexts.ForwardIff`).
- A NaN observation is counted below every boundary of a histogram (`Histograms.CumulativeRightIff`).

## Model

| member | source | states |
|---|---|---|
| `Seqlock.StepKeepsInv` | src/core/rt/RTDataStore.cpp:26-35 | every step of the writer and of every reader keeps the invariant that ties the counter, the write in progress, the completed writes and each reader's loads |
| `Seqlock.Snapshot` | src/core/rt/RTDataStore.cpp:139-157 | in every interleaving a read that exits on an even counter returns exactly what the first n complete writes left, n being half the counter and between the writes complete at the call and those complete now |
| `Seqlock.OddExitIff` | src/core/rt/RTDataStore.cpp:134-157 | a reader that has just found a write in progress leaves the do-while loop, without a snapshot, exactly when its second variable was assigned while the counter showed the same value, or was never assigned and holds that value |
| `Seqlock.StaleMatchIsSameWrite` | src/core/rt/RTDataStore.cpp:134-157 | within one turn of the counter such a match with an assigned variable means the very write in which the previous attempt ended |
| `Seqlock.ExitIsSnapshotOrStale` | src/core/rt/RTDataStore.cpp:134-157 | every exit of every reader is on equal even counter values or is the do-while reader's stale match |
| `Seqlock.RestartAlwaysSnapshots` | src/core/datastore/hotkey/HotKeyCache.h:223-250 | a reader that restarts never exits on an odd counter, makes at most the allowed attempts and gives up only after all of them |
| `Seqlock.LaterCallsSeeLaterWrites` | src/core/rt/RTDataStore.cpp:139-157 | a read called after another one returned yields a write at least as late |
| `Seqlock.ReaderAnswers` | src/core/rt/RTDataStore.cpp:134-157 | from every reachable state without a write in progress a reader of either kind, about to begin an attempt and left alone, leaves its loop in that attempt, one step per load and three more, with what the completed writes left |
| `Seqlock.CallAnswers` | src/core/datastore/hotkey/HotKeyCache.h:223-250 | so does a new call, at its first attempt |
| `Seqlock.OnlyWritesDisturb` | src/core/datastore/hotkey/HotKeyCache.h:223-250 | in every interleaving each failed attempt found the counter odd, or saw it move between its two loads, during the call; a reader that gives up was disturbed that often, and without a write since the call no attempt fails |
| `Seqlock.UninterruptedWrite` | src/core/rt/RTDataStore.cpp:26-35 | a writer left alone applies all its stores and moves the counter by two |
| `RtDataStore.WriteEffect` | src/core/rt/RTDataStore.cpp:26-35 | a setter replaces the first bytes of the union, the type and the time, and nothing else |
| `RtDataStore.ScalarReadBack` | src/core/rt/RTDataStore.cpp:127-166 | a typed read of a written slot gives the value if the types agree and an error otherwise, whatever was there before |
| `RtDataStore.TextReadBack` | src/core/rt/RTDataStore.cpp:267-302 | a string read gives the written C string cut to 31 characters and to the caller's buffer; older bytes never show |
| `RtDataStore.TypedSnapshot` | src/core/rt/RTDataStore.cpp:127-166 | in every interleaving of setters and getters an even exit reports exactly one write: its value if the types agree, an error if not or if nothing was written |
| `RtDataStore.TextSnapshot` | src/core/rt/RTDataStore.cpp:267-302 | the same for strings |
| `RtDataStore.TypedReadAnswers` | src/core/rt/RTDataStore.cpp:127-166 | from every reachable state without a write in progress a typed getter left alone returns at its first attempt: the last write if its type agrees, an error otherwise |
| `RtDataStore.TextReadAnswers` | src/core/rt/RTDataStore.cpp:267-302 | the same for strings |
| `RtDataStore.TornRead` | src/core/rt/RTDataStore.cpp:139-157 | a run in which a typed getter succeeds with one byte of the old value and three of the new |
| `RtDataStore.MixedRead` | src/core/rt/RTDataStore.cpp:134-166 | a run, with every value loaded and stored whole, in which the getter of ints succeeds with the bits of a float |
| `RtDataStore.GarbageRead` | src/core/rt/RTDataStore.cpp:134-166 | for any four bytes a run in which a getter, on its first attempt and before any write is complete, succeeds with those bytes from its uninitialised variables |
| `RtDataStore.RTDataStore.SetScalar` | src/core/rt/RTDataStore.cpp:19-38 | a key in range applies the write to that slot, moves its counter by two and leaves the others alone; any other key fails and changes nothing |
| `RtDataStore.RTDataStore.SetString` | src/core/rt/RTDataStore.cpp:103-125 | the same for strings; a missing string fails too |
| `RtDataStore.RTDataStore.GetScalar` | src/core/rt/RTDataStore.cpp:127-166 | without interference the loop reports the slot's value if its type is the one asked for, and fails otherwise or for a key out of range |
| `RtDataStore.RTDataStore.GetString` | src/core/rt/RTDataStore.cpp:267-302 | without interference the loop reports the slot's string, cut to the buffer, or fails |
| `HotKeyCache.GetReturnsWholeValue` | src/core/datastore/hotkey/HotKeyCache.h:205-255 | in every interleaving get returns one of the values ever stored, whole and not older than the call, or nothing after exactly ten attempts |
| `HotKeyCache.GetAnswers` | src/core/datastore/hotkey/HotKeyCache.h:205-255 | a get that no write disturbs returns the last value at its first attempt |
| `HotKeyCache.NothingOnlyUnderWrites` | src/core/datastore/hotkey/HotKeyCache.h:223-250 | a get returns nothing only if each of its ten attempts found the counter odd or saw it move |
| `VersionedStore.DataStore.SetVersioned` | src/core/datastore/DataStore.cpp:344-373 | stores the value and makes the version the number of writes of that key |
| `VersionedStore.DataStore.GetVersioned` | src/core/datastore/DataStore.cpp:316-341 | returns the last value with its version, or fails for an unknown key |
| `VersionedStore.ReadWithinWriters` | src/core/datastore/DataStore.cpp:316-341 | in every interleaving a read with version v returns the whole value of write n, n exceeding v by exactly the writers that were between their two steps |
| `VersionedStore.ReadAnswers` | src/core/datastore/DataStore.cpp:316-341 | from every reachable state with something stored a read left alone returns the value stored last and the current version |
| `VersionedStore.ReadsMonotonic` | src/core/datastore/DataStore.cpp:316-341 | successive reads never go back, neither in version nor in the write returned |
| `VersionedStore.EqualVersions` | src/core/datastore/core/VersionedData.h:94-101 | reads with equal versions returned the same write exactly when equally many writers were between their two steps, and are never further apart than the number of writers |
| `VersionedStore.EqualVersionsDifferentValues` | src/core/datastore/core/VersionedData.h:94-101 | a run with one writer in which two reads carry the same version and different values |
| `ScheduleCalculator.ComputeGcd` | src/core/rt/util/ScheduleCalculator.cpp:12-19 | the loop computes the greatest common divisor |
| `ScheduleCalculator.ComputeLcm` | src/core/rt/util/ScheduleCalculator.cpp:21-26 | the least common multiple modulo 2^32, zero if an argument is zero |
| `ScheduleCalculator.GcdAllMeaning` | src/core/rt/util/ScheduleCalculator.cpp:40-45 | the minor cycle divides every period and every common divisor divides it |
| `ScheduleCalculator.LcmAllMeaning` | src/core/rt/util/ScheduleCalculator.cpp:47-57 | the reference multiple is divided by every period and divides every common multiple |
| `ScheduleCalculator.Lcm32Positive` | src/core/rt/util/ScheduleCalculator.cpp:21-26 | a multiple that wraps 32 bits is never zero, so the major cycle of accepted periods is positive |
| `ScheduleCalculator.MajorWithoutOverflow` | src/core/rt/util/ScheduleCalculator.cpp:47-57 | while the true multiple fits 32 bits the loop computes it and rejects exactly the lists of several periods above the limit |
| `ScheduleCalculator.MajorRightIff` | src/core/rt/util/ScheduleCalculator.cpp:47-57 | an accepted major cycle is a multiple of every period if and only if the true multiple fits 32 bits, and then it is that multiple |
| `ScheduleCalculator.OverflowAccepted` | src/core/rt/util/ScheduleCalculator.cpp:47-57 | periods 3 and 1431655766 are accepted with major cycle 2 |
| `ScheduleCalculator.SinglePeriodUnchecked` | src/core/rt/util/ScheduleCalculator.cpp:47-57 | a single period is accepted and becomes the major cycle, whatever its size |
| `ScheduleCalculator.LimitEnforcedIff` | src/core/rt/util/ScheduleCalculator.cpp:47-57 | the true multiple of accepted periods is within the limit if and only if it fits 32 bits and the list is not a single period above the limit |
| `ScheduleCalculator.IntervalsDivideIff` | src/core/rt/util/ScheduleCalculator.cpp:28-66 | of accepted periods that leave a slot, every interval divides the number of slots if and only if the true multiple fits 32 bits |
| `ScheduleCalculator.NoSlotsIff` | src/core/rt/util/ScheduleCalculator.cpp:59-66 | accepted periods give no slot if and only if the major cycle is below the minor one, and only when the true multiple exceeds 32 bits |
| `ScheduleCalculator.NoSlots` | src/core/rt/util/ScheduleCalculator.cpp:47-66 | periods 6 and 2147483649 are accepted with minor cycle 3 and major cycle 2 |
| `ScheduleCalculator.Calculate` | src/core/rt/util/ScheduleCalculator.cpp:28-66 | succeeds exactly for non-empty lists of positive periods whose wrapped multiple stays within the limit, and returns both cycles and the number of slots |
| `CyclicExecutive.RTExecutive.RegisterAction` | src/core/rt/RTExecutive.cpp:221-243 | an accepted action is put, behind the earlier ones, once into a slot for every pass of the 32-bit loop at it, as far as the loop is followed, whether or not it ends; if it ends without wrapping the table stays the table of the actions due; a refused one changes nothing |
| `CyclicExecutive.EndsIff` | src/core/rt/RTExecutive.cpp:236-239 | the placing loop ends if and only if the number of slots plus the greatest common divisor of interval and 2^32 is at most 2^32 |
| `CyclicExecutive.VisitsWithoutWrap` | src/core/rt/RTExecutive.cpp:236-239 | without wrap-around the passes are at the slots the interval divides, once each |
| `CyclicExecutive.CalculatedNeverWraps` | src/core/rt/RTExecutive.cpp:70-90 | with calculated parameters the loop ends without wrap-around for every positive multiple of the minor cycle |
| `CyclicExecutive.RTExecutive.ExecuteSlot` | src/core/rt/RTExecutive.cpp:245-262 | runs every copy of an action of the slot whose guard holds and no other, in the order of the slot |
| `CyclicExecutive.RTExecutive.Run` | src/core/rt/RTExecutive.cpp:133-202 | n cycles attempt slots 0, 1, ... modulo the number of slots, each started on time, and run, in the order of the slot, every copy of an action whose guard holds and no other; without a slot any cycle is an error |
| `CyclicExecutive.TableIsPeriodicIff` | src/core/rt/RTExecutive.cpp:221-262 | the cyclic table runs every action exactly in the cycles its interval divides, for ever, if and only if every interval divides the number of slots |
| `CyclicExecutive.CalculatedScheduleIsPeriodicIff` | src/core/rt/RTExecutive.cpp:20-42 | an executive built from calculated parameters runs every action at its period if the true multiple fits 32 bits; with a slot, and an action for every period of the list, only then |
| `CyclicExecutive.RunAttempts` | src/core/rt/RTExecutive.cpp:141-202 | every run of the table attempts every action, per registration, exactly as often as its full turns and the rest of a turn say |
| `CyclicExecutive.AttemptsRightIff` | src/core/rt/RTExecutive.cpp:141-243 | that is n / interval, rounded up, for every n if and only if the interval divides the number of slots; otherwise it is one too many after slots + 1 cycles |
| `CyclicExecutive.CostByAction` | src/core/rt/RTExecutive.cpp:221-262 | the worst-case time of the table's slots is the sum, action by action, of cost times attempts |
| `CyclicExecutive.CostIsUtilisationIff` | tools/validate_schedule.cpp:106-124 | the time of the table is at least the utilisation times the major cycle, with equality if and only if the interval of every action of positive cost divides the number of slots |
| `CyclicExecutive.SlotZeroHeaviest` | src/core/rt/RTExecutive.cpp:221-243 | no slot of the table costs more than slot 0 |
| `ScheduleValidator.CheckActions` | tools/validate_schedule.cpp:82-131 | the loop reports an error exactly when an action is faulty or the running total exceeds 70% |
| `ScheduleValidator.Validate` | tools/validate_schedule.cpp:50-145 | exit code 0 exactly when parameters exist and the actions, if any, are accepted |
| `ScheduleValidator.AcceptsIff` | tools/validate_schedule.cpp:82-131 | accepted exactly when no action is faulty and the exact utilisation is at most 70% or some period is zero |
| `ScheduleValidator.ZeroPeriodHidesOverload` | tools/validate_schedule.cpp:106-124 | an accepted list with a utilisation of 100% |
| `ScheduleValidator.ValidatedScheduleFits` | tools/validate_schedule.cpp:82-131 | end to end: accepted actions, zero costs and equal names included, whose periods the cycle was calculated from cost at most 70% of the major cycle in the executive's table |
| `ScheduleValidator.LongPeriodAcceptedButOverloads` | tools/validate_schedule.cpp:101-124 | an accepted action, its period not in the list, that takes ten times the cycle it is put into |
| `ScheduleValidator.FitsAllCostsIff` | tools/validate_schedule.cpp:82-131 | for actions of given periods, one each, every accepted assignment of costs keeps the table within 70% of its turn if, and where each cost of 70% passes the 32-bit test only if, every interval divides the number of slots |
| `ScheduleValidator.FitsAllActionsIff` | tools/validate_schedule.cpp:82-131 | for any number of actions at given periods, every accepted list keeps the table within 70% of its turn if and only if every interval divides the number of slots, those of periods whose budget wraps to zero excepted |
| `ScheduleValidator.CalculatedFitsIff` | tools/validate_schedule.cpp:50-131 | for the periods the cycle was calculated from that is the case if the true multiple fits 32 bits, and with a slot and no such budget only then |
| `ScheduleValidator.BudgetTestIff` | tools/validate_schedule.cpp:96-100 | the test of one action's cost is right if and only if the cost does not lie between the wrapped and the true budget; it never lets an excess pass |
| `ScheduleValidator.BudgetRespectedIff` | tools/validate_schedule.cpp:96-100 | every 32-bit cost within the budget passes if and only if the budget in microseconds fits 32 bits |
| `SafeMode.NoticesPaired` | src/core/rt/RTExecutive.cpp:286-337 | on every run, whoever raises events in between, exits never outnumber entries, each exit reports the time since the entry published just before it, and every entry carries a computed (wrapped) age beyond the timeout |
| `SafeMode.CheckDecides` | src/core/rt/RTExecutive.cpp:286-337 | after a check the machine runs only on a fresh and is in SAFE_MODE only on a stale heartbeat; in other states nothing changes |
| `SafeMode.CheckPublishes` | src/core/rt/RTExecutive.cpp:286-337 | a check that leaves RUNNING publishes exactly one entry, one that leaves SAFE_MODE with a recorded entry exactly one exit, with the times read; every other check changes nothing |
| `SafeMode.EveryEntryCloses` | src/core/rt/RTExecutive.cpp:286-337 | on every run in which only the check enters and leaves SAFE_MODE, each entry published has its exit published, but for the last one while in SAFE_MODE |
| `SafeMode.EventEffects` | src/core/rt/RTStateMachine.cpp:13-93 | event by event, the states in which it is taken and where it leads: an error everywhere but in ERROR and SHUTDOWN, a stop everywhere but in INIT and SHUTDOWN |
| `SafeMode.StaleIsLateIff` | src/core/rt/RTExecutive.cpp:291-298 | the unsigned age tells a late heartbeat if and only if the heartbeat is not ahead of the clock reading, or ahead by almost 2^64 ns |
| `SafeMode.FreshHeartbeatEntersSafeMode` | src/core/rt/RTExecutive.cpp:291-317 | any heartbeat ahead of the clock reading stops a running machine |
| `SafeMode.ShutdownIsFinal` | src/core/rt/RTStateMachine.cpp:13-93 | no run leaves SHUTDOWN |
| `SafeMode.ErrorNeedsReset` | src/core/rt/RTStateMachine.cpp:13-93 | without RESET every run from ERROR stays in ERROR or SHUTDOWN and publishes nothing |
| `SafeMode.ForwardOnlyByStart` | src/core/rt/RTStateMachine.cpp:13-93 | only START takes the machine forward, one state at a time: no run from INIT or ERROR reaches RUNNING, PAUSED or SAFE_MODE with fewer than two |
| `SafeMode.RTMonitor.CheckHeartbeat` | src/core/rt/RTExecutive.cpp:286-337 | performs one check step and keeps the invariant behind the theorems above |
| `PriorityLevels.PushRepresents` | src/core/control/impl/BehaviorPriorityQueue.cpp:5-28 | pushing into its level appends to the list in order of arrival |
| `PriorityLevels.PopIsBest` | src/core/control/impl/BehaviorPriorityQueue.cpp:30-39 | popping takes the earliest of the most urgent entries of that list, and only it |
| `PriorityLevels.DrainIsFlat` | src/core/control/impl/BehaviorPriorityQueue.cpp:30-39 | popping until empty yields the queues in their reading order |
| `PriorityLevels.ByUrgencySorted` | src/core/control/dto/Priority.h:18-20 | the reading order is strictly sorted by urgency, then arrival |
| `PriorityLevels.ByUrgencyPermutes` | src/core/control/impl/TaskQueue.cpp:120-133 | it holds every queued entry as often as it was queued |
| `TaskQueues.TaskQueue.Enqueue` | src/core/control/impl/TaskQueue.cpp:6-27 | a new id is appended to the list in order of arrival; a known id is refused |
| `TaskQueues.TaskQueue.Dequeue` | src/core/control/impl/TaskQueue.cpp:29-61 | removes and returns the earliest of the most urgent tasks, nothing from an empty queue |
| `TaskQueues.TaskQueue.Peek` | src/core/control/impl/TaskQueue.cpp:135-156 | returns what dequeue would |
| `TaskQueues.TaskQueue.Remove` | src/core/control/impl/TaskQueue.cpp:97-118 | removes exactly the task with that id and keeps the order of the rest |
| `TaskQueues.EraseTask` | src/core/control/impl/TaskQueue.h:76-88 | the scan of one level erases the first task with the id, if there is one |
| `TaskQueues.TaskQueue.GetAllTasks` | src/core/control/impl/TaskQueue.cpp:120-133 | lists the queued tasks in ascending order of the priorities they were queued with and, within one, of arrival |
| `TaskQueues.ListedByPriority` | src/core/control/impl/TaskQueue.cpp:158-174 | the order of urgency is that of the priorities in the map, an unknown priority counting as a normal task |
| `TaskQueues.TaskQueue.Size` | src/core/control/impl/TaskQueue.cpp:73-81 | the number of queued tasks |
| `TaskQueues.TaskQueue.Clear` | src/core/control/impl/TaskQueue.cpp:83-95 | leaves nothing queued |
| `TaskQueues.DrainsInListedOrder` | src/core/control/impl/TaskQueue.cpp:120-133 | dequeuing until empty returns exactly the list of all tasks, in its order |
| `Arbiter.StepKeepsInv` | src/core/control/impl/BehaviorArbiter.cpp:18-318 | every public operation keeps the invariants behind the run theorems |
| `Arbiter.EveryRequestInOnePlace` | src/core/control/impl/BehaviorArbiter.cpp:18-318 | on every run each accepted request is waiting, current, suspended or ended, in exactly one of these and once |
| `Arbiter.EndsAreFinal` | src/core/control/impl/BehaviorArbiter.cpp:18-318 | on every run a recorded end never changes |
| `Arbiter.AtMostOneRuns` | src/core/control/impl/BehaviorArbiter.cpp:249-318 | on every run each start and resume finds no task running, only the current behaviour's task ever runs, and none while paused |
| `Arbiter.NeverStartedTwice` | src/core/control/impl/BehaviorArbiter.cpp:310-318 | on every run no request is started twice: suspended behaviours are never taken up again |
| `Arbiter.PreemptionsBounded` | src/core/control/impl/BehaviorArbiter.cpp:235-290 | on every run one of any four starts in a row does not preempt, the first never does, and in all there are at most three preemptions for each start that does not |
| `Arbiter.MostUrgentFirst` | src/core/control/impl/BehaviorPriorityQueue.cpp:5-39 | on every run the request taken next has the most urgent priority of all that wait and is the first in the queue of that priority |
| `Arbiter.CurrentAfterTick` | src/core/control/impl/BehaviorArbiter.cpp:34-89 | an unpaused tick finishes the current request if and only if its task completed, failed or was cancelled; otherwise it stays current unless the most urgent waiting request is a more urgent emergency stop, safety issue or urgent task, which takes its place and cancels it (emergency stop) or suspends it |
| `Arbiter.ModeSources` | src/core/control/dto/ControlMode.h:245-290 | mode by mode, exactly the modes it can be entered from |
| `Arbiter.ModeReachableIff` | src/core/control/dto/ControlMode.h:245-290 | by allowed changes every mode leads to every other, except that nothing leads to BOOT and only BOOT to INIT |
| `Arbiter.StartedIff` | src/core/control/impl/BehaviorArbiter.cpp:34-89 | a tick starts at most one request, the most urgent waiting one, and exactly when it is not paused, no critical alarm enters FAULT, and nothing is current, or the current task is over with no change to MAINT due, or the request may preempt it |
| `Arbiter.StartedRuns` | src/core/control/impl/BehaviorArbiter.cpp:34-89 | what a tick starts becomes current and is the one task that runs |
| `Arbiter.QuietAlarms` | src/core/control/impl/BehaviorArbiter.cpp:336-360 | a warning outside MAINT and FAULT marks the change to MAINT as due if a behaviour is current; otherwise the change is made if and only if the mode is STANDBY |
| `Arbiter.DiscardedIff` | src/core/control/impl/BehaviorArbiter.cpp:71-81 | a tick loses a waiting request if and only if it is not paused, the current task goes on, no critical alarm enters FAULT, and the request is the most urgent one and may not preempt |
| `Arbiter.OnlyTicksDiscard` | src/core/control/impl/BehaviorArbiter.cpp:109-229 | no other operation loses a request that way |
| `Arbiter.LowerPriorityLost` | src/core/control/dto/Priority.h:18-20 | a run in which a normal request is dropped and never started |
| `Arbiter.CriticalAlarmStopsAll` | src/core/control/impl/BehaviorArbiter.cpp:325-334 | a tick that finds a critical alarm outside FAULT ends in FAULT with nothing waiting, suspended, started or running |
| `Arbiter.FaultGatesNothing` | src/core/control/impl/BehaviorArbiter.cpp:34-89 | a tick in FAULT with its alarm still raised starts what a tick in any mode without an alarm would start |
| `Arbiter.PreemptionOutcome` | src/core/control/impl/BehaviorArbiter.cpp:249-290 | an emergency stop stops and cancels the current behaviour, clears everything waiting and enters FAULT; a safety issue or urgent task pauses and suspends it and changes neither mode nor queue; then the new one is started |
| `Arbiter.MaintAfterTaskIff` | src/core/control/impl/BehaviorArbiter.cpp:62-70 | once the task is over a pending change to MAINT is dropped, and made if and only if the mode is STANDBY |
| `Arbiter.BehaviorArbiter.RequestBehavior` | src/core/control/impl/BehaviorArbiter.cpp:18-32 | accepts exactly the five priorities, appending to the queue of the priority and to no other |
| `Arbiter.BehaviorArbiter.Tick` | src/core/control/impl/BehaviorArbiter.cpp:34-89 | performs one tick step and keeps the invariants; the current request is finished exactly when its task completed, failed or was cancelled |
| `Arbiter.BehaviorArbiter.TransitionTo` | src/core/control/impl/BehaviorArbiter.cpp:109-156 | succeeds exactly for the allowed transitions of ControlMode; entering FAULT stops the current task and clears everything waiting, other modes change nothing else |
| `Arbiter.BehaviorArbiter.ClearPendingBehaviors` | src/core/control/impl/BehaviorArbiter.cpp:158-165 | ends everything waiting or suspended |
| `Arbiter.BehaviorArbiter.CancelBehavior` | src/core/control/impl/BehaviorArbiter.cpp:167-195 | succeeds exactly for the current behaviour if cancellable, which is stopped, and for suspended ones; what is cancelled is gone; waiting ones are not found |
| `Arbiter.BehaviorArbiter.PauseAll` | src/core/control/impl/BehaviorArbiter.cpp:197-211 | succeeds exactly when not paused, and its one command pauses the current task |
| `Arbiter.BehaviorArbiter.ResumeAll` | src/core/control/impl/BehaviorArbiter.cpp:213-229 | succeeds exactly when paused, and its one command resumes the current task |
| `Alarms.StepKeepsInv` | src/core/alarm/impl/AlarmManager.cpp:24-275 | every operation keeps the invariants behind the run theorems |
| `Alarms.CountersExact` | src/core/alarm/impl/AlarmManager.cpp:24-275 | on every run each severity's counter is its active alarms plus those acknowledged or overwritten while active since the last reset; none is negative; raised = resolved + active + lost; the history is the latest thousand entries |
| `Alarms.HasCriticalIff` | src/core/alarm/impl/AlarmManager.cpp:277-280 | hasCriticalAlarm reports an active critical alarm or one stranded since the last reset |
| `Alarms.AcknowledgedNeverClears` | src/core/alarm/impl/AlarmManager.cpp:173-190 | acknowledging an active critical alarm keeps hasCriticalAlarm true on every run until a reset |
| `Alarms.AcknowledgedNeverResolved` | src/core/alarm/dto/AlarmDto.h:27-32 | on every run, resets included, an alarm that was active when it was acknowledged stays acknowledged until a new alarm takes its id |
| `Alarms.LifeStep` | src/core/alarm/impl/AlarmManager.cpp:173-275 | one operation changes of an alarm only the state, only from ACTIVE, and only to ACKNOWLEDGED when it is acknowledged or RESOLVED when it is resolved or all are reset |
| `Alarms.LifeDecided` | src/core/alarm/dto/AlarmDto.h:27-32 | on every run, until its id is raised again, the first operation that concerns an active alarm decides its state for good |
| `Alarms.CloseIff` | src/core/alarm/impl/AlarmManager.cpp:287-315 | two raises are within the window exactly when they are less than one second more than it apart |
| `Alarms.BurstIsLongestRun` | src/core/alarm/impl/AlarmManager.cpp:287-315 | the burst length is the longest run of latest times that follow each other within the window |
| `Alarms.RaisedSeverity` | src/core/alarm/impl/AlarmManager.cpp:24-62 | on every run a raised alarm carries the burst length modulo 2^32 and the severity that follows from it |
| `Alarms.EscalatesIff` | src/core/alarm/impl/AlarmConfiguration.cpp:132-151 | the severity changes exactly from the threshold on and below CRITICAL, by one level, to a lower rank |
| `Alarms.AlarmManager.RaiseAlarm` | src/core/alarm/impl/AlarmManager.cpp:24-101 | raises exactly configured codes: one new active alarm in the map and in the history, no other changed; never publishes an escalation |
| `Alarms.NextRecurrence` | src/core/alarm/impl/AlarmManager.cpp:287-315 | each raise keeps every code's counter at the length of its current burst modulo 2^32 |
| `Alarms.AlarmManager.AcknowledgeAlarm` | src/core/alarm/impl/AlarmManager.cpp:173-190 | succeeds for every known id; an active alarm becomes ACKNOWLEDGED, and no other alarm or field changes |
| `Alarms.AlarmManager.ResolveAlarm` | src/core/alarm/impl/AlarmManager.cpp:192-251 | succeeds exactly for active alarms; the alarm becomes RESOLVED and enters the history, and no other alarm or field changes |
| `Alarms.AlarmManager.ResetAllAlarms` | src/core/alarm/impl/AlarmManager.cpp:253-275 | exactly the active alarms become RESOLVED, whatever the order, and their number is returned |
| `Alarms.AlarmManager.HasCriticalAlarm` | src/core/alarm/impl/AlarmManager.cpp:277-280 | true exactly for an active or stranded critical alarm |
| `Failover.FailoverManager.HandleProcessFailure` | src/core/ha/FailoverManager.cpp:87-115 | restarts exactly when running, for the configured process and if the limit allowed it at the first clock reading; the restart is counted at the second |
| `Failover.FailoverManager.CanRestart` | src/core/ha/FailoverManager.cpp:118-144 | allows a restart exactly when the window is over or holds fewer restarts than the limit, and changes nothing |
| `Failover.FailoverManager.TriggerRestart` | src/core/ha/FailoverManager.cpp:190-209 | succeeds exactly for the configured process and counts the restart, in a new window if the old one is over |
| `Failover.StepKeepsInv` | src/core/ha/FailoverManager.cpp:87-209 | every step of concurrent handlers keeps the windows apart and each within limit plus handlers |
| `Failover.RestartsBounded` | src/core/ha/FailoverManager.cpp:118-144 | on every run of up to h concurrent handlers any stretch of one window length holds at most 2(max + h - 1) restarts, one less if the first failure comes later than one window length after the epoch |
| `Failover.BoundReached` | src/core/ha/FailoverManager.cpp:87-144 | for every policy and every number of handlers a run has exactly 2(max + h - 1) - 1 restarts in one window length |
| `Failover.EarlyBoundReached` | src/core/ha/FailoverManager.cpp:87-144 | a run soon after the epoch has exactly 2(max + h - 1) |
| `HaStateMachines.AttemptsCountFailures` | src/core/ha/HAStateMachine.cpp:87-110 | on every run the attempt counter is the number of failures since the last success modulo the limit, and the last change was an allowed one |
| `HaStateMachines.ManualAfterLimitIff` | src/core/ha/HAStateMachine.cpp:97-110 | the failures that use up the attempts end in MANUAL_INTERVENTION if and only if they start in SAFE_MODE, RECOVERY_IN_PROGRESS or MANUAL_INTERVENTION |
| `HaStateMachines.CriticalReachesSafeModeIff` | src/core/ha/HAStateMachine.cpp:171-177 | a consecutive deadline miss, EtherCAT failure or motor overcurrent ends in SAFE_MODE if and only if the state was NORMAL, RECOVERY_IN_PROGRESS or SAFE_MODE |
| `HaStateMachines.ActionOutcome` | src/core/ha/HAStateMachine.cpp:118-200 | for every other failure, action by action and state by state, the state it ends in |
| `HaStateMachines.RecoveryOutcome` | src/core/ha/HAStateMachine.cpp:87-95 | a reported recovery ends in NORMAL exactly from DEGRADED, RECOVERY_IN_PROGRESS, MANUAL_INTERVENTION and NORMAL, and clears the attempts |
| `HaStateMachines.FailuresStayManual` | src/core/ha/HAStateMachine.cpp:118-158 | whatever fails, MANUAL_INTERVENTION is left only to SHUTDOWN |
| `HaStateMachines.ShutdownIsFinal` | src/core/ha/HAStateMachine.cpp:118-158 | no run leaves SHUTDOWN |
| `HaStateMachines.HAStateMachine.TransitionTo` | src/core/ha/HAStateMachine.cpp:59-85 | succeeds exactly for allowed transitions and remembers the previous state |
| `HaStateMachines.HAStateMachine.ReportRecoverySuccess` | src/core/ha/HAStateMachine.cpp:87-95 | succeeds exactly when it ends in NORMAL |
| `HaStateMachines.HAStateMachine.ReportRecoveryFailure` | src/core/ha/HAStateMachine.cpp:97-110 | fails exactly when the limit is reached in a state that cannot hand over |
| `HaStateMachines.HAStateMachine.HandleFailure` | src/core/ha/HAStateMachine.cpp:26-57 | succeeds exactly when there is a policy and the action's target state is reached or, if the action failed, the failure could be recorded or handed over |
| `TraceContexts.ParseFormatIff` | src/core/tracing/SpanContext.cpp:82-120 | a formatted traceparent is parsed back, ids and flags, exactly for valid lower-case ids and refused otherwise |
| `TraceContexts.FormatParse` | src/core/tracing/SpanContext.cpp:82-120 | formatting a parsed traceparent reproduces it |
| `TraceContexts.ValidContextIff` | src/core/tracing/SpanContext.cpp:36-80 | a context is valid if and only if its ids are 32 and 16 hexadecimal digits of either case, not all zero, and its flags 0 or 1 |
| `TraceContexts.ReadBaggage` | src/core/tracing/SpanContext.cpp:128-154 | of any header, whatever blanks stand around its pairs and whatever items have no equals sign, the loop returns the keys of its pairs, each with the value of its last pair |
| `TraceContexts.ParsedMeans` | src/core/tracing/SpanContext.cpp:128-154 | the same of the function the loop computes |
| `TraceContexts.EveryHeader` | src/core/tracing/SpanContext.cpp:128-154 | every string is a header of such pairs and items |
| `TraceContexts.WriteBaggage` | src/core/tracing/SpanContext.cpp:156-173 | the loop writes the entries in key order, comma-separated |
| `TraceContexts.InOrderAscends` | src/core/tracing/SpanContext.cpp:156-173 | the keys are written in strictly ascending order |
| `TraceContexts.LeqMeans` | src/core/tracing/SpanContext.cpp:156-173 | that order is the lexicographic one of strings |
| `TraceContexts.ParsedIsClean` | src/core/tracing/SpanContext.cpp:128-154 | whatever the header, what is parsed from it survives |
| `TraceContexts.BaggageRoundTripIff` | src/core/tracing/SpanContext.cpp:128-173 | baggage survives its header if and only if no key holds a comma, an equals sign or a leading blank and no value a comma or a trailing blank |
| `TraceContexts.InjectTraceContext` | src/core/tracing/SpanContext.cpp:223-238 | writes the headers of a valid context and leaves the carrier alone for an invalid one |
| `TraceContexts.InjectExtractIff` | src/core/tracing/SpanContext.cpp:195-238 | through any carrier a valid context comes back the same if and only if its ids are lower case, its baggage clean and no stale header is left in place |
| `TraceContexts.FreshCarrier` | src/core/tracing/SpanContext.cpp:195-238 | through an empty carrier nothing is stale |
| `TraceContexts.ExtractedValidIff` | src/core/tracing/SpanContext.cpp:195-221 | what is extracted is valid if and only if the traceparent is there, can be parsed and has flags 00 or 01 |
| `TraceContexts.ForwardIff` | src/core/tracing/SpanContext.cpp:195-238 | a traceparent extracted and injected again comes out unchanged under the same condition, and otherwise nothing does |
| `Histograms.SortAscends` | src/core/monitoring/MetricsCollector.cpp:13-18 | the boundaries are sorted and are the ones given |
| `Histograms.Histogram.Observe` | src/core/monitoring/MetricsCollector.cpp:20-38 | counts the value in the bucket of the first boundary it does not exceed |
| `Histograms.Histogram.Export` | src/core/monitoring/MetricsCollector.cpp:204-221 | the loop exports, per boundary, the observations in its bucket and those before it |
| `Histograms.CumulativeRightIff` | src/core/monitoring/MetricsCollector.cpp:204-221 | a boundary's figure is the number of observations not above it if and only if no NaN was observed; the last figure is their total |
| `Subscriptions.IndexDetermined` | webapi/src/websocket/connection-manager.ts:29-33 | the index by key is determined by the subscriptions |
| `Subscriptions.SamePairs` | webapi/src/websocket/connection-manager.ts:187-194 | counted by connection or by key there are the same subscriptions |
| `Subscriptions.ConnectionManager.AddConnection` | webapi/src/websocket/connection-manager.ts:42-54 | adds one connection under a new id |
| `Subscriptions.ConnectionManager.Subscribe` | webapi/src/websocket/connection-manager.ts:75-94 | adds exactly one subscription of a known connection, keeping the index its exact inverse |
| `Subscriptions.ConnectionManager.Unsubscribe` | webapi/src/websocket/connection-manager.ts:99-121 | removes exactly one subscription, and the key when it was the last |
| `Subscriptions.ConnectionManager.RemoveConnection` | webapi/src/websocket/connection-manager.ts:59-70 | removes the connection and all its subscriptions although the set being walked shrinks |
| `Subscriptions.ConnectionManager.NotifySubscribers` | webapi/src/websocket/connection-manager.ts:126-161 | every reachable subscriber receives the message once and nobody else, unreachable ones are removed, and the result counts the deliveries |
| `Subscriptions.ConnectionManager.GetSubscriberCount` | webapi/src/websocket/connection-manager.ts:199-201 | the number of connections subscribed to the key |
| `Subscriptions.ConnectionManager.GetStats` | webapi/src/websocket/connection-manager.ts:187-194 | the loop counts each subscription once |
| `Subscriptions.ConnectionManager.CleanupInactiveConnections` | webapi/src/websocket/connection-manager.ts:206-223 | removes exactly the connections idle for longer than the timeout and returns their number |

## Left out

- Seqlock.Snapshot: the counter wraps at 2^64 in the model, and the reader is taken not to span 2^64 changes of it in one attempt.
- HotKeyCache.GetReturnsWholeValue: on the same condition; the cache's key lookup, type mismatch and metrics are not modelled.
- CyclicExecutive.RTExecutive.RegisterAction: followed for a given number of passes, since the loop need not end; EndsIff says when it does.
- ScheduleValidator.FitsAllCostsIff: where the 32-bit test refuses a cost of 70% of some period, which takes a period of 2^32 us or more, only one direction is stated; FitsAllActionsIff needs no such exception.
- CyclicExecutive.RTExecutive.Run: the number of cycles is given, where the program loops until stopped; the undefined behaviour of an executive without slots appears as an error.
- Histograms.Histogram.constructor: there is at least one boundary, none of them NaN; the program reads the last boundary without a test and sorts with the operator that NaN breaks.
- Failover.RestartsBounded: limit and handlers together stay within 2^32, so that the counter does not wrap; policy loading, counter reset and restarts triggered directly are not steps of the runs.
- Arbiter.StepKeepsInv: behaviour ids are not reused; requests, ticks and controls are whole steps, not interleaved inside.
- Alarms.RaisedSeverity: an alarm id is the pair of code and creation time in milliseconds, which its text determines; source, details and times of the alarm object are not modelled.
- TraceContexts.InjectExtractIff: compares ids, flags, state and baggage; the parent id is never carried and the remote flag is always set, which is stated beside it.
- Memory orders: the interleaved models are sequentially consistent, one access per step; reordering by compiler or processor is not modelled.
- Counters other than the seqlock's, the recurrence count and the 32-bit cycles are unbounded.
- Histogram sums and the rounding of doubles: reals are exact.
- RTDataStore.incrementSeq, the data store's other accessors, expiry and observers.
- Task objects, guards, callbacks and sockets: what they do appears as an argument of the step.
- Clocks, logging, event bus, shared memory, files and process control.
- Listing of active alarms and alarm history queries: they only filter and sort.
- The stop request of the executive, timed-out behaviours (not implemented in the program), performance monitoring.
- The random ids of the tracer, sampling, span export.
- EtherCAT, fieldbus, sequence and action engines, the web API's HTTP routes: they would only add easy members.
