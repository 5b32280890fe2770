# Verified models of five kernel drivers

This project models the concurrent and stateful cores of a set of Linux driver modules and proves what
they guarantee:

- **the kernel barrier** (`BarrierWord`, `BarrierMachine`, `BarrierSpec`, `BarrierSafety`, `BarrierPaths`,
  `BarrierReturns`, `BarrierLockstep`, `BarrierWakeups`, `BarrierProgress`, `BarrierSplitProgress`, `BarrierSchedule`,
  `BarrierStarvation`, `BarrierProgram`, `BarrierObject`): `barrier_wait` keeps phase and head-count in one
  64-bit word and is reused round after round by any number of threads;
- **the barrier registry** (`RegistrySpec`, `BarrierRegistry`): process blocks, each with a list of barriers, a
  wrapping id counter and a size counter;
- **both together** (`BarrierSystem`, `BarrierDriver`): any number of barriers in any number of processes, in
  use and coming and going at the same time;
- **the ht530 hash table** (`KeyValueSpec`, `HashTable`): 128 chains, where writing zero deletes;
- **the HC-SR04 ultrasonic sensor** (`Sampler`, `SamplerSteps`, `SampleRing`, `SendLoop`, `SendSchedule`,
  `SamplingThread`): senders, the echo interrupt, timeouts, stop commands, a five-slot ring, readers and the sampling thread;
- **its GPIO lines** (`GpioSpec`, `GpioOwnership`, `GpioStores`, `GpioDriver`): trigger and echo scans over the
  board's pin table;
- **the mprobe result ring** (`MprobeRing`).

`Counting` holds the arithmetic and list facts they share. `dafny verify dfyconfig.toml` checks everything.

## How the barrier is modelled

Each lock-held section of `barrier_wait` and `barrier_destroy` is one step of a machine
(`BarrierMachine`); a schedule is any sequence of enabled actions. Going to sleep takes two steps, as in
`sleep_here`: the lock is given back first (`dozing`), the thread joins the wait queue later (`waitQ`), with
no test in between. A destroy leaves its loop in one step (`Drain`) and unlinks and frees in a later one
(`Recycle`), under another lock. A signal may end any sleep at any time. All safety results hold for every such
schedule and any number of threads. They are stated about the log of arrivals and departures
(`BarrierSpec`), which does not mention the word; a round is `count` consecutive arrivals.

Progress depends on the gap in `sleep_here`. `BarrierSplitProgress` keeps it: every run comes to a stop, and
with exactly `count` threads it has then finished if and only if every sleeper still has a reason to sleep
(`StoppedSplitIff`); runs that never queue on a stale test always finish (`FreshSplitFinishes`). Queueing on a
stale test is the only step that can lose a wake-up (`WakeupKeptIff`, `NeverLostIff`), and
`SplitSleepMayDeadlock` is a schedule in which it does. `BarrierProgress`, `BarrierSchedule`,
`BarrierStarvation` and `BarrierProgram` take "unlock, then sleep" as one step, which makes every run fresh
(`AtomicIsFresh`). That is an assumption about the machine, not about the code: the logged target is a
single-processor kernel.

`BarrierObject` holds the driver's record with real 64-bit arithmetic; `Execute` carries out any schedule on
it and proves that it passes through the states of the machine. No operation can overflow, whatever the
state.

## Where code and intention differ

- `barrier_init` accepts count 0, but then no call ever returns (`ReturnsIff`).
- `barrier_destroy` waits for released threads, not for a part-filled round (`DestroyMayStrand`) nor for a
  thread that has called and not got in (`DestroyMayStrandCaller`), and between its loop and the free a whole
  round can come in and be caught half released (`DestroyMayStrandNewcomers`). The free is safe exactly when its
  caller is then alone in the barrier (`DestroySafeIff`), which a caller ensures by joining its threads and
  letting nobody in afterwards (`JoinedDestroyIsSafe`), as the test program does (`FreedAfterEverybody`).
- A team that is not of `count` threads may be unable to finish its calls (`FinishesIff`), or able and yet
  at the scheduler's mercy (`AlwaysFinishesIff`).
- After the id counter has come round to an id in use, a process gets no further barrier until it destroys
  exactly that one (`CounterComesRound`, `RefusalLasts`, `RefusalEnds`).
- `send` is written to retry up to `retry_cnt` times, but a timed-out pulse clears `ongoing` and nothing sets
  it again: there are at most two pulses, only the first can measure, and with a retry left the result is 0
  even when no echo was heard. An edge before the first pulse has stamped its start is measured from the
  pulse before it (`SendLoop.Sensor.Send`).
- A one-shot read copies without looking: when its send hears nothing and the ring is empty, the copy is from
  outside the buffer (`OneShotMisses`). So is that of a blocked periodic read when the ring is cleared between
  its check and its copy (`ClearInTheGap`). `ReadsReturnLatest` says exactly when a copy is in the buffer.
- A failed SETPINS forgets the pins but keeps the lines it got (`LosesIff`, `SamePinLoses`,
  `FirstCallMayLose`), for good (`LostForGood`).
- A failed write to the `trigger` or `echo` attribute has freed the old lines but leaves the old pin configured:
  the device then claims lines it does not hold, and its next write can take another device's away
  (`StoreKeepsOwnershipIff`, `StoreTakesAnothersLines`).
- `mprobe_read` returns slots, not hits in order (`ReadIsInOrderIff`).

## Model

| member | source | states |
|---|---|---|
| `BarrierWord.WordRefinesPhase` | 04_barrier_driver_module/eosi_barrier.c:243-269 | For every count in 1..2^31-1 the 64-bit word and a (phase, number) machine are the same machine: legal words decode and encode back, both sections commute with decoding, stay legal, wake exactly when a round is released or drained, and no addition or subtraction wraps |
| `BarrierSpec.NoEarlyReturnSnoc` | 04_barrier_driver_module/eosi_barrier.c:259-265 | One more event keeps "no return before the whole round has arrived" if it holds for that event |
| `BarrierSpec.LogArrive` | 04_barrier_driver_module/eosi_barrier.c:249-251 | An arrival into a round that is not full keeps separation, distinctness and the tally of who is inside |
| `BarrierSpec.LogLeave` | 04_barrier_driver_module/eosi_barrier.c:265-269 | A departure from a full round keeps separation, distinctness and the tally of who is inside |
| `BarrierSafety.StepKeepsInv` | 04_barrier_driver_module/eosi_barrier.c:241-274 | Every step of every thread, spurious wake-ups and split sleeps included, keeps the whole safety invariant |
| `BarrierSafety.Separation` | 04_barrier_driver_module/eosi_barrier.c:241-274 | Over every schedule and any number of threads: no call returns before all count arrivals of its round, no arrival of a later round precedes a departure of an earlier one, and no thread is twice in a round |
| `BarrierSafety.WordEncodesState` | 04_barrier_driver_module/eosi_barrier.c:249-269 | Between lock sections, below the flag the word is the number of threads inside an unfinished round, at the flag nobody is inside, above it the excess is the number of released threads still to leave; arrivals minus departures is the number inside and complete rounds are whole multiples of count |
| `BarrierSafety.DestroyWaitsForReleased` | 04_barrier_driver_module/eosi_barrier.c:301-309 | Destroy leaves its loop exactly when no round is being released; at that moment every thread of every full round has left, and those still inside are exactly a part-filled round |
| `BarrierSafety.DestroySafeIff` | 04_barrier_driver_module/eosi_barrier.c:311-327 | The free leaves nobody in the barrier if and only if the caller is alone in it when it frees; the barrier is then idle and all arrivals are matched by departures |
| `BarrierSafety.JoinedDestroyIsSafe` | 04_barrier_driver_module/barrier_test/barrier_user_sys.c:46-50 | Once nobody else is in the barrier and nobody else comes, the barrier is freed idle and with nobody in it, and a destroyer that was awake never sleeps |
| `BarrierSafety.DestroyMayStrand` | 04_barrier_driver_module/eosi_barrier.c:301-316 | A schedule in which destroy frees the barrier under a thread still inside |
| `BarrierSafety.DestroyMayStrandCaller` | 04_barrier_driver_module/eosi_barrier.c:301-316 | A schedule in which destroy frees an idle barrier under a thread that has called and not got in |
| `BarrierSafety.DestroyMayStrandNewcomers` | 04_barrier_driver_module/eosi_barrier.c:301-327 | A schedule in which the destroyer is alone when it leaves its loop, a whole round comes in before the free, and the barrier is freed while that round is being released |
| `BarrierPaths.ThreadsFollowPaths` | 04_barrier_driver_module/eosi_barrier.c:230-327 | Over every schedule each step takes its thread along the source's path, told from its place, the number inside and the phase; nobody else is moved; only the last section of a destroy frees |
| `BarrierPaths.DestroyHasWaited` | 04_barrier_driver_module/eosi_barrier.c:279-327 | Over every schedule a free is preceded by that thread's destroy, a stay in its wait loop, and a moment with no round being released at which every thread of every full round had left |
| `BarrierReturns.ReturnsIff` | 04_barrier_driver_module/eosi_barrier.c:139-139 | For every count init accepts and fewer than 2^63 threads: some schedule lets a call return if and only if 1 <= count <= number of threads |
| `BarrierLockstep.Lockstep` | 04_barrier_driver_module/barrier_test/barrier_user_sys.c:23-28 | With exactly count threads, completed rounds of any two never differ by more than one, over every schedule |
| `BarrierLockstep.RoundHoldsEveryThreadOnce` | 04_barrier_driver_module/eosi_barrier.c:243-269 | With exactly count threads, every full round holds every thread exactly once |
| `BarrierWakeups.WakeupKeptIff` | 04_barrier_driver_module/eosi_barrier.c:217-228 | A step keeps "every sleeper's guard is true" if and only if it is not a queueing on a stale test |
| `BarrierWakeups.FreshRunsGuardSleepers` | 04_barrier_driver_module/eosi_barrier.c:208-228 | In every schedule without stale queueing, every sleeper at the gate, inside or in destroy still has a true loop guard |
| `BarrierWakeups.NeverLostIff` | 04_barrier_driver_module/eosi_barrier.c:208-228 | A schedule keeps every sleeper's guard true at every moment if and only if no thread queues on a stale test |
| `BarrierWakeups.AtomicIsFresh` | 04_barrier_driver_module/eosi_barrier.c:243-263 | Every run with gapless sleep is a run of the split machine without stale queueing, so all safety results carry over |
| `BarrierWakeups.NoLostWakeup` | 04_barrier_driver_module/eosi_barrier.c:303-307 | With gapless sleep no wake-up is lost in any reachable state |
| `BarrierWakeups.ReleasedCanLeave` | 04_barrier_driver_module/eosi_barrier.c:259-269 | While a round is being released and the barrier is not freed, somebody is inside, and everybody inside is awake and leaves at its next section |
| `BarrierWakeups.SplitSleepMayDeadlock` | 04_barrier_driver_module/eosi_barrier.c:217-228 | A schedule of two threads with split sleep after which only a signal can help |
| `BarrierProgress.StepDecreases` | 04_barrier_driver_module/eosi_barrier.c:230-277 | The measure (calls, arrivals and departures to come; awake waiters) drops at every step except a stray wake-up, which adds one |
| `BarrierProgress.RunsAreFinite` | 04_barrier_driver_module/barrier_test/barrier_user_sys.c:17-52 | With P threads each making R calls, whatever P and count, every run is at most 3 * P * R * (P + 1) steps long, plus two for each stray wake-up |
| `BarrierProgress.StoppedRunIsShortOfCallers` | 04_barrier_driver_module/eosi_barrier.c:230-277 | For a team of any size, a run that cannot go on has nobody at the gate, no round being released, fewer than count threads inside and every other thread through with its loop; it is complete exactly when nobody is inside |
| `BarrierProgress.FinishedMeansWholeRounds` | 04_barrier_driver_module/eosi_barrier.c:253-269 | A team of any size can only finish if its P * R calls are a whole number of rounds |
| `BarrierProgress.NoDeadlock` | 04_barrier_driver_module/barrier_test/barrier_user_sys.c:17-52 | With exactly count threads each doing R rounds, every reachable state in which not everybody has finished has a step to take |
| `BarrierProgress.StoppedRunIsComplete` | 04_barrier_driver_module/barrier_test/barrier_user_sys.c:42-50 | With exactly count threads, a run that cannot go on has every thread at R completed rounds, the word idle, the queue empty, and R * count arrivals and departures |
| `BarrierProgress.RunCanFinish` | 04_barrier_driver_module/barrier_test/barrier_user_sys.c:17-31 | With exactly count threads, every run can be extended to one in which all threads finish |
| `BarrierSplitProgress.SplitRunsAreFinite` | 04_barrier_driver_module/eosi_barrier.c:217-228 | With split sleep, P threads each making R calls, whatever P and count: every run is at most 3 * P * R * (2 * P + 1) steps long, plus three for each stray wake-up |
| `BarrierSplitProgress.StoppedSplitIff` | 04_barrier_driver_module/eosi_barrier.c:217-228 | With split sleep and exactly count threads, a run that cannot go on has finished if and only if every sleeper's guard is true |
| `BarrierSplitProgress.FreshSplitFinishes` | 04_barrier_driver_module/eosi_barrier.c:217-228 | With split sleep and exactly count threads, a run that never queues on a stale test and cannot go on has finished |
| `BarrierSplitProgress.GuardedStopIsShortOfCallers` | 04_barrier_driver_module/eosi_barrier.c:230-277 | With split sleep and a team of any size, a stopped run without a lost wake-up has only run out of callers |
| `BarrierSchedule.PlayRound` | 04_barrier_driver_module/eosi_barrier.c:241-274 | From a barrier at rest any count distinct threads can play one round among themselves, each completing one call, nobody else any, and the barrier is at rest again |
| `BarrierSchedule.FinishesIff` | 04_barrier_driver_module/barrier_test/barrier_user_sys.c:17-52 | Some run of P threads with R calls each finishes if and only if P * R is 0, or count <= P and P * R is a multiple of count |
| `BarrierStarvation.AlwaysFinishesIff` | 04_barrier_driver_module/barrier_test/barrier_user_sys.c:17-52 | Every run that cannot go on has finished if and only if P * R is 0, or count is 1, or P is count, or R is 1 and P a multiple of count |
| `BarrierStarvation.Strand` | 04_barrier_driver_module/eosi_barrier.c:241-274 | With count at least 2, more than count threads and two calls or more each, some run ends with threads waiting for ever |
| `BarrierProgram.ProgramUsesBarrier` | 04_barrier_driver_module/barrier_test/barrier_user_sys.c:33-52 | Every run of the test program, its creator included, is a run of the barrier, so every safety result holds of it |
| `BarrierProgram.ProgramRunsAreFinite` | 04_barrier_driver_module/barrier_test/barrier_user_sys.c:33-52 | Every run of the program, destroy included, is at most 3 * P * R * (P + 1) + 3 steps long, plus two for each stray wake-up |
| `BarrierProgram.FreedAfterEverybody` | 04_barrier_driver_module/barrier_test/barrier_user_sys.c:46-50 | For any team, when the program has freed the barrier every thread has made its R calls, P * R arrivals and departures have happened and nobody is in the barrier or asleep |
| `BarrierProgram.ProgramStopsIffFreed` | 04_barrier_driver_module/barrier_test/barrier_user_sys.c:33-52 | With exactly count threads the program cannot go on if and only if the barrier has been freed, and its creator never sleeps |
| `BarrierObject.Barrier.constructor` | 04_barrier_driver_module/eosi_barrier.c:371-379 | A new barrier is idle with an empty queue |
| `BarrierObject.Barrier.EnterSection` | 04_barrier_driver_module/eosi_barrier.c:243-269 | On the 64-bit record, the section from the gate test to unlock computes the machine's word, outcome and queue without overflow |
| `BarrierObject.Barrier.InnerSection` | 04_barrier_driver_module/eosi_barrier.c:259-269 | The same from the inner test to unlock |
| `BarrierObject.Barrier.DrainSection` | 04_barrier_driver_module/eosi_barrier.c:301-309 | Destroy goes on exactly when no released thread is left |
| `BarrierObject.Barrier.SleepHere` | 04_barrier_driver_module/eosi_barrier.c:217-228 | The thread is queued, nothing is tested |
| `BarrierObject.Barrier.WakeUpHere` | 04_barrier_driver_module/eosi_barrier.c:208-215 | Everybody queued is woken |
| `BarrierObject.Barrier.Section` | 04_barrier_driver_module/eosi_barrier.c:230-309 | Whatever the action, the record's word and queue become the machine's |
| `BarrierObject.Perform` | 04_barrier_driver_module/eosi_barrier.c:230-309 | One scheduled action on the record is one step of the machine |
| `BarrierObject.Execute` | 04_barrier_driver_module/eosi_barrier.c:230-309 | Any schedule carried out on the record ends in the machine's state |
| `RegistrySpec.EveryRunIsWellFormed` | 04_barrier_driver_module/eosi_barrier.c:130-192 | After every sequence of requests a process is listed only while it has a barrier, and ids and counters are unsigned ints |
| `RegistrySpec.DestroyUndoesInit` | 04_barrier_driver_module/eosi_barrier.c:172-181 | An accepted init adds one barrier under an unused id, and destroying it restores the live barriers of every process |
| `RegistrySpec.LiveIff` | 04_barrier_driver_module/eosi_barrier.c:161-181 | After every sequence of requests, a process has a barrier under an id exactly when some accepted init made it under that id and the process has not destroyed the id since |
| `RegistrySpec.NextIdCounts` | 04_barrier_driver_module/eosi_barrier.c:147-175 | Over every sequence of requests the next id of a process counts its accepted inits, modulo 2^32, since it last had no barrier |
| `RegistrySpec.ProcessesDoNotInterfere` | 04_barrier_driver_module/eosi_barrier.c:125-127 | Over every sequence of requests, a process's entry is what its own requests alone would give |
| `RegistrySpec.RefusalLasts` | 04_barrier_driver_module/eosi_barrier.c:161-166 | While the id in the way stays live, no sequence of requests gets the process another barrier |
| `RegistrySpec.RefusalEnds` | 04_barrier_driver_module/eosi_barrier.c:161-166 | Until then every init is refused, and once the process destroys the id in the way any init of a proper count is accepted |
| `RegistrySpec.CounterComesRound` | 04_barrier_driver_module/eosi_barrier_kernel.h:24-24 | A sequence of requests after which the wrapped counter meets a live id and init refuses |
| `BarrierRegistry.ProcessBlock.GetBarrier` | 04_barrier_driver_module/eosi_barrier.c:105-123 | The scan finds exactly the barrier the block's map has under the id |
| `BarrierRegistry.ProcessBlock.AddBarrier` | 04_barrier_driver_module/eosi_barrier.c:161-181 | Refuses exactly an id in use; otherwise links a new idle barrier under the next id, wraps the counter, and keeps ids distinct and the size equal to the list length |
| `BarrierRegistry.ProcessBlock.Unlink` | 04_barrier_driver_module/eosi_barrier.c:312-316 | Removes exactly that barrier and counts it off |
| `BarrierRegistry.Registry.GetBlock` | 04_barrier_driver_module/eosi_barrier.c:73-103 | The scan finds exactly the block of the process |
| `BarrierRegistry.Registry.Lookup` | 04_barrier_driver_module/eosi_barrier.c:125-127 | Lookup agrees with the map (process, id) -> barrier, absent keys included |
| `BarrierRegistry.Registry.Init` | 04_barrier_driver_module/eosi_barrier.c:130-192 | Succeeds exactly for a non-negative count and a free id, and then adds that one entry; otherwise changes nothing; blocks stay distinct and non-empty |
| `BarrierRegistry.Registry.Destroy` | 04_barrier_driver_module/eosi_barrier.c:279-334 | Fails exactly on an unknown id, sleeps exactly while a round is being released, otherwise removes that entry and an emptied block |
| `BarrierRegistry.Replay` | 04_barrier_driver_module/eosi_barrier.c:130-334 | Over every sequence of init and destroy calls each reply is the map's, each accepted init makes a barrier of the requested count under the next id, and the lists stand for the map the same requests leave, with every barrier idle |
| `BarrierSystem.EachBarrierRunsAlone` | 04_barrier_driver_module/eosi_barrier.c:130-334 | Over every interleaving of inits, lock sections on named barriers and frees, in any number of processes, every live barrier is in the state its own steps since its own init lead to, and those steps are a run of the barrier machine |
| `BarrierSystem.EachBarrierSeparates` | 04_barrier_driver_module/eosi_barrier.c:241-274 | So separation and the meaning of the word hold of every live barrier at every moment, whatever happens to the others |
| `BarrierSystem.NamesFollowRegistry` | 04_barrier_driver_module/eosi_barrier.c:130-192 | Over every such interleaving the ids in use and the id counters are those the inits and frees alone would leave |
| `BarrierDriver.Touch` | 04_barrier_driver_module/eosi_barrier.c:230-309 | A lock section on one record is that barrier's step and leaves every other record alone |
| `BarrierDriver.Drive` | 04_barrier_driver_module/eosi_barrier.c:130-334 | Any interleaving carried out on lists and 64-bit records ends with the names, counts, words and queues of the system's state |
| `KeyValueSpec.ContentsAreLastWrites` | 01_mprobe_debugger_and_generanl_driver_module/general_driver/ht530.c:166-185 | After any history the map has exactly the keys whose last write was not zero, with that value |
| `HashTable.Ht530.FindTheNode` | 01_mprobe_debugger_and_generanl_driver_module/general_driver/ht530.c:122-148 | Finds the key's node in its own bucket exactly when the key is live |
| `HashTable.Ht530.Read` | 01_mprobe_debugger_and_generanl_driver_module/general_driver/ht530.c:98-109 | Returns the map's value, an error for an absent key |
| `HashTable.Ht530.Write` | 01_mprobe_debugger_and_generanl_driver_module/general_driver/ht530.c:162-188 | Zero removes, other values set; every node stays in its key's bucket, keys stay unique, the size counter stays the map's size, for any hash function |
| `HashTable.Ht530.CurSize` | 01_mprobe_debugger_and_generanl_driver_module/general_driver/ht530.c:230-233 | RET_CUR_SIZE is the number of live keys |
| `HashTable.Ht530.AllDump` | 01_mprobe_debugger_and_generanl_driver_module/general_driver/ht530.c:236-245 | Emits every live pair exactly once and nothing else, hence exactly the reported number |
| `HashTable.Serve` | 01_mprobe_debugger_and_generanl_driver_module/general_driver/ht530.c:85-188 | Over every sequence of writes and reads and every hash function, each read answers with the value last written under its key |
| `GpioSpec.AcquireMeans` | 03_Concurrent_HC-SR04_SYSFS_Platform_Drivers/hc_sr04_kernel.h:119-211 | A scan of requests gets everything exactly when no line is taken or repeated, and never more than it asked for |
| `GpioSpec.AcquireStops` | 03_Concurrent_HC-SR04_SYSFS_Platform_Drivers/hc_sr04_kernel.h:119-211 | Whether it gets through or not, a scan is left with exactly the lines before the first that is taken or repeated |
| `GpioSpec.RowLinesInOrder` | 03_Concurrent_HC-SR04_SYSFS_Platform_Drivers/hc_sr04_kernel.h:126-133 | A row's lines are asked for in the order of its columns |
| `GpioSpec.ReleaseUndoesAcquire` | 03_Concurrent_HC-SR04_SYSFS_Platform_Drivers/hc_sr04_kernel.h:87-117 | Freeing exactly undoes a successful setting |
| `GpioSpec.PinHoldsRow` | 03_Concurrent_HC-SR04_SYSFS_Platform_Drivers/hc_sr04_kernel.h:119-206 | The trigger's lines are its row without the pull line, the echo's are its whole row |
| `GpioOwnership.EveryRunKeepsOwnership` | 03_Concurrent_HC-SR04_SYSFS_Platform_Drivers/hc_sr04_kernel.h:345-398 | Over every run of SETPINS on any number of devices, failed calls included, the lines given out are the disjoint union of each device's trigger and echo lines and the lost lines |
| `GpioOwnership.SuccessfulRunsLoseNothing` | 03_Concurrent_HC-SR04_SYSFS_Platform_Drivers/hc_sr04_kernel.h:360-397 | Over successful runs the lines given out are exactly those of the current pins |
| `GpioOwnership.SucceedsIff` | 03_Concurrent_HC-SR04_SYSFS_Platform_Drivers/hc_sr04_kernel.h:360-385 | SETPINS succeeds exactly when the interrupt is granted, the two pins share no line, and no line is lost or another device's |
| `GpioOwnership.SetPinsMeans` | 03_Concurrent_HC-SR04_SYSFS_Platform_Drivers/hc_sr04_kernel.h:360-397 | What SETPINS leaves behind, told from the state before it: if it can be granted, the pins asked for and their lines in place of the old ones; if not, no pins, the old lines free, and exactly the lines before the first refused one given out to nobody; other devices' pins untouched |
| `GpioOwnership.LastCallDecides` | 03_Concurrent_HC-SR04_SYSFS_Platform_Drivers/hc_sr04_kernel.h:387-397 | Over every run a device's pins are those of its last call if that could be granted when it was made, and none otherwise |
| `GpioOwnership.LosesIff` | 03_Concurrent_HC-SR04_SYSFS_Platform_Drivers/hc_sr04_kernel.h:387-391 | Told from the state before the call: it loses no line exactly when it asks for none, or its first line is lost or another device's, or the conditions for success hold |
| `GpioOwnership.LostForGood` | 03_Concurrent_HC-SR04_SYSFS_Platform_Drivers/hc_sr04_kernel.h:387-391 | After any further SETPINS calls a lost line is still given out, no device owns it, and no call for a pin that needs it succeeds |
| `GpioOwnership.SamePinLoses` | 03_Concurrent_HC-SR04_SYSFS_Platform_Drivers/hc_sr04_kernel.h:360-391 | Asking for trigger and echo on one pin whose row is free always loses exactly the row without its pull line |
| `GpioOwnership.FirstCallMayLose` | 03_Concurrent_HC-SR04_SYSFS_Platform_Drivers/hc_sr04_kernel.h:360-391 | On the board's table the very first call can lose lines 11 and 32 |
| `GpioOwnership.BoardTableIsProper` | 03_Concurrent_HC-SR04_SYSFS_Platform_Drivers/hw_setting.h:42-63 | No line appears twice in the board's table and every row has a Linux line |
| `GpioStores.StoreKeepsOwnershipIff` | 03_Concurrent_HC-SR04_SYSFS_Platform_Drivers/hc_sr04.h:44-151 | Told from the state before it: a write to trigger or echo keeps every line with its one owner exactly when there was no line to free, or the pin stays the same, or it can succeed |
| `GpioStores.StoreMeans` | 03_Concurrent_HC-SR04_SYSFS_Platform_Drivers/hc_sr04.h:44-151 | What a write leaves behind, told from the state before it: if it can be stored, the number in the pin written, the other pin as before and the new lines in place of the old ones; if not, no pin changed, the old lines free and exactly those before the first refused one given out; other devices' pins untouched |
| `GpioStores.OwnershipThroughoutIff` | 03_Concurrent_HC-SR04_SYSFS_Platform_Drivers/hc_sr04.h:44-151 | Over every run of SETPINS and attribute writes on any number of devices, every line has one owner at every moment if and only if every write met that condition in its turn |
| `GpioStores.StoreTakesAnothersLines` | 03_Concurrent_HC-SR04_SYSFS_Platform_Drivers/hc_sr04.h:44-77 | After an unreadable write, another device that takes the freed pin loses its lines to the first device's next write |
| `GpioDriver.GpioBoard.StoreHalf` | 03_Concurrent_HC-SR04_SYSFS_Platform_Drivers/hc_sr04.h:44-151 | The whole write, error exits included, is the specified step, leaves the pins alone when it fails, and succeeds exactly when it can be stored |
| `GpioDriver.GpioBoard.SetLines` | 03_Concurrent_HC-SR04_SYSFS_Platform_Drivers/hc_sr04_kernel.h:119-211 | The nested loops request exactly the lines of the pin in order and stop at the first taken one |
| `GpioDriver.GpioBoard.FreeLines` | 03_Concurrent_HC-SR04_SYSFS_Platform_Drivers/hc_sr04_kernel.h:87-117 | The nested loops free exactly the lines of the pin |
| `GpioDriver.GpioBoard.SetDevicePins` | 03_Concurrent_HC-SR04_SYSFS_Platform_Drivers/hc_sr04_kernel.h:345-398 | The whole call, error exits included, is the specified step and reports success exactly when it can be granted |
| `SampleRing.PushHolds` | 02_Concurrent_HC-SR04_miscdeivces/hc_sr04.c:170-174 | After a sample, going back k slots still gives the k-th latest sample for every k below five and the number of samples |
| `SampleRing.CopyIsLatest` | 02_Concurrent_HC-SR04_miscdeivces/hc_sr04.c:343-363 | A copy gets the latest sample since the last clear, or misses the buffer when there is none |
| `SampleRing.CirBuf.Record` | 02_Concurrent_HC-SR04_miscdeivces/hc_sr04.c:170-174 | The array is updated in place as the ring's push |
| `SampleRing.CirBuf.Clear` | 02_Concurrent_HC-SR04_miscdeivces/hc_sr04.c:388-393 | All slots zero, none newest |
| `Sampler.ArmsAreConserved` | 02_Concurrent_HC-SR04_miscdeivces/hc_sr04.c:118-126 | Over every interleaving of senders, edges, timeouts, stops, clears and readers: arms = samples + effective cancels + one if ongoing |
| `Sampler.OneSamplePerArm` | 02_Concurrent_HC-SR04_miscdeivces/hc_sr04.c:156-179 | Between any two samples there is an arm, so one arm yields at most one sample |
| `Sampler.EdgeMeasuresLastPulse` | 02_Concurrent_HC-SR04_miscdeivces/hc_sr04.c:156-174 | Over every run an edge while a measurement is open records the nanoseconds since the last pulse, cut to an unsigned int, in whole steps of 5800, and a stray edge changes nothing |
| `Sampler.DistanceIsElapsed` | 02_Concurrent_HC-SR04_miscdeivces/hc_sr04.c:166-168 | Below 2^32 nanoseconds the distance is the elapsed time in whole steps of 5800; another 2^32 make no difference |
| `SamplerSteps.EveryStepFollowsHistory` | 02_Concurrent_HC-SR04_miscdeivces/hc_sr04.c:84-182 | Over every run, told from the log and the schedule alone: a send arms exactly when no measurement is open, a read of a ring with a sample returns the latest at once and otherwise blocks, every copy copies the latest, a clear clears, a stop or timeout cancels exactly an open measurement |
| `SamplerSteps.TimesOutIff` | 02_Concurrent_HC-SR04_miscdeivces/hc_sr04.c:93-107 | Over every run a poll ends the call if no measurement is open, and ends the pulse exactly when it is the 50001st since the pulse began |
| `SamplerSteps.PulsesAgainIff` | 02_Concurrent_HC-SR04_miscdeivces/hc_sr04.c:128-131 | Over every run a sender pulses again after a timeout exactly when it has had no more timeouts than retries |
| `Sampler.OpenHasSender` | 02_Concurrent_HC-SR04_miscdeivces/hc_sr04.c:84-132 | Over every run, while a measurement is open some call of send is still under way to end it |
| `Sampler.RingRefinesHistory` | 02_Concurrent_HC-SR04_miscdeivces/hc_sr04.c:170-174 | At every moment of every run the ring is the tail of the samples since the last clear |
| `Sampler.ReadsReturnLatest` | 02_Concurrent_HC-SR04_miscdeivces/hc_sr04.c:319-363 | Every copy of every read, one-shot or periodic, is the latest sample since the last clear, and is in the buffer exactly when some sample has come that no clear has followed |
| `Sampler.CheckedReadsReturn` | 02_Concurrent_HC-SR04_miscdeivces/hc_sr04.c:350-363 | A blocked periodic read that passed its check copies a sample unless the ring is cleared in between |
| `Sampler.OneShotMisses` | 02_Concurrent_HC-SR04_miscdeivces/hc_sr04.c:319-339 | A run without any clear in which a one-shot read whose send timed out copies from outside the buffer |
| `Sampler.ClearInTheGap` | 02_Concurrent_HC-SR04_miscdeivces/hc_sr04.c:353-363 | A run of a measurement of 10, a passed check, a clear and a copy, in that order, in which the copy misses the buffer |
| `Sampler.SendIsBounded` | 02_Concurrent_HC-SR04_miscdeivces/hc_sr04.c:84-132 | Under every interleaving, a call of send that armed takes fewer than (retries + 1) * 50003 steps of its own |
| `SendLoop.Sensor.EchoRecvIsr` | 02_Concurrent_HC-SR04_miscdeivces/hc_sr04.c:147-182 | Records the elapsed time in whole steps of 5800 exactly when a measurement was ongoing, always ends it, and balances the lock |
| `SendLoop.Sensor.DoSend` | 02_Concurrent_HC-SR04_miscdeivces/hc_sr04.c:84-112 | For any echo timing: lock balanced, STOPPING at the end; an edge before the start is stamped is measured from the previous pulse and ends this one at once; otherwise 0 exactly when an edge came within 50000 polls and then the first edge is the one measured, else EAGAIN after 50001 polls; on a sensor not ongoing it returns 0 at once |
| `SendLoop.Sensor.Send` | 02_Concurrent_HC-SR04_miscdeivces/hc_sr04.c:114-132 | For any echo timing: one pulse if heard or no retries, else exactly two; the result is EAGAIN only without retries; only the first pulse measures, and the ring is given in every case |
| `SendSchedule.MachineSends` | 02_Concurrent_HC-SR04_miscdeivces/hc_sr04.c:84-132 | From any state with no measurement on and for any echo timing, one call's schedule on the interleaving machine ends as the loops of send do: same pulses, same ring, nothing open, everybody else where they were |
| `SamplingThread.SamplingIff` | 02_Concurrent_HC-SR04_miscdeivces/hc_sr04.c:405-431 | Sampling is on exactly when some non-zero write in periodic mode has come and no zero write in periodic mode and no switch to one-shot since |
| `SamplingThread.SettingsAreLastSet` | 02_Concurrent_HC-SR04_miscdeivces/hc_sr04.c:251-259 | Mode and frequency in force are those of the last accepted SETMODE |
| `SamplingThread.SamplingIsPeriodic` | 02_Concurrent_HC-SR04_miscdeivces/hc_sr04.c:251-272 | By the call history, sampling is on only in periodic mode, and then with a positive frequency |
| `SamplingThread.Control.SetWorkingMode` | 02_Concurrent_HC-SR04_miscdeivces/hc_sr04.c:251-272 | Refuses unknown modes unchanged; otherwise restarts a live thread with the new period or stops it on one-shot |
| `SamplingThread.Control.WriteAct` | 02_Concurrent_HC-SR04_miscdeivces/hc_sr04.c:405-431 | In periodic mode zero stops and non-zero starts the thread, never a second one |
| `SamplingThread.Serve` | 02_Concurrent_HC-SR04_miscdeivces/hc_sr04.c:134-141 | Over every sequence of calls at most one thread runs, exactly when the history says sampling is on, only in periodic mode, with period 1000 / freq of the configuration in force |
| `MprobeRing.RingBuffer.HandlerPre` | 01_mprobe_debugger_and_generanl_driver_module/mprobe/mprobe.c:48-55 | Each slot keeps the latest hit whose number is its index modulo ten |
| `MprobeRing.RingBuffer.Read` | 01_mprobe_debugger_and_generanl_driver_module/mprobe/mprobe.c:148-165 | Returns the slots before the first unused one, each the latest hit of its number, and all min(n, 10) hits still in the ring exactly when none of them has timestamp 0 |
| `MprobeRing.SlotNumber` | 01_mprobe_debugger_and_generanl_driver_module/mprobe/mprobe.c:48-55 | The hit a slot holds has the slot's number modulo ten |
| `MprobeRing.ReadIsInOrderIff` | 01_mprobe_debugger_and_generanl_driver_module/mprobe/mprobe.c:154-161 | For hits in the ring that can be told apart, the returned ones are in order exactly when n <= 10 or n is a multiple of ten |

## Left out

- The spinlocks themselves: a lock-held section is one step; only `SendLoop` tracks its lock, because `do_send` releases it on two different paths.
- Waiting on a barrier id that is not live, and any use of a barrier after it is freed: the callers' contract; a machine that has been freed takes no further step.
- BarrierSystem.EachBarrierRunsAlone: `barrier_init` is one step, although it takes two locks one after the other; two inits of one process at the same time are not modelled.
- The `cnt` variable of `pfunction`: a thread may call while it has completed fewer than R rounds, which is what the loop compares.
- BarrierRegistry.ProcessBlock.AddBarrier: `barrier_size` is an unbounded integer; overflow of a signed int would need 2^31 live barriers in one process.
- BarrierRegistry.Registry.Init: allocation failure is not modelled; the source does not check for it.
- HashTable.Ht530.Write: the size counter is an unbounded integer; nodes are list elements, so pointer identity of a node is not modelled.
- HashTable.Ht530.Read: how many bytes are copied to the user is not modelled.
- HASH_DUMP: it fills a local copy only.
- GpioDriver.GpioBoard.SetDevicePins: a failing `gpio_direction_*` call and the interrupt number are not modelled; a refused interrupt is a parameter. Pins start unset, as in the platform driver.
- SamplingThread.Serve: frequency 0 is excluded for periodic settings, since `thread_function` divides by it; the sysfs stores that change the mode without touching the thread are not modelled.
- The mode test at the head of read and write: readers of both kinds, clears and stops may interleave freely in `Sampler`.
- `kern_backup`, the system-call patch and the second copy of the sampling code: the same steps again.
- Module, device, class and kprobe registration, attribute parsing, printk and user copies.
