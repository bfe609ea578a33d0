# Repair module registry, modelled in Dafny

This project models `repair_module`, the registry that each shard of the database keeps for its repair jobs, together with the identity plumbing of the repair task classes (repair/repair_task.hh).

The registry does four things:

- It issues repair identities. Each `repair_uniq_id` carries the next sequence number, a random task id and the owning shard.
- It keeps a status table that stores only RUNNING and FAILED entries. SUCCESSFUL is never stored. The header's rule (repair/repair_task.hh:83-85) is that an id absent from the table reads as SUCCESSFUL when it is at most the module's sequence number. Read literally, that rule also answers SUCCESSFUL for `get(0)`, an id never issued. The model's `Get` follows the rule on every positive id and answers NOT_EXIST for the ids never issued; the literal rule is kept beside it as `GetAsWritten` (see "## Findings"). A failed repair stays in the table forever.
- It keeps the set of pending task ids (started, not yet done) and the set of pending tasks for which an abort was requested.
- It owns the semaphore that bounds how many token ranges are repaired in parallel.

The header declares these operations but does not contain their bodies. Their behaviour here follows the header's comments and the design of the registry: `start` marks RUNNING and pending, `done` drops a success or records FAILED, and `abort_all_repairs` marks every pending task aborted and tells every repair record to abort.

Files and modules:

- `repair_tasks.dfy`, module `RepairTasks`: task ids, `repair_uniq_id`, the task status that the task manager keeps, the two task variants, and `get_repair_uniq_id`. The variants are values. The `int` to `unsigned` to `int` conversions of the sequence number are written out modulo 2^32.
- `repair_state.dfy`, module `RepairState`: the registry's bookkeeping as a value `Registry`, with three parts:
  - the queries (`Get`, `GetActive`, `NrRunningRepairJobs`, `IsAborted`, and `AwaitCheck`, which is the predicate a waiter re-checks);
  - the transitions (`Issue`, `Start`, `Done`, `AbortAllRepairs`, `Run`);
  - histories of calls (`Replay`) and the lemmas about them.
- `semaphores.dfy`, module `Semaphores`: the counting semaphore as a class whose held units never exceed its capacity.
- `repair_module.dfy`, module `RepairModules`: the class `RepairModule` with the fields of the C++ class, plus a ghost map from each issued number to the task info handed out with it. Every mutating method is proved to move `State()` exactly as the matching `RepairState` transition does. The queries `Get`, `GetActive`, `NrRunningRepairJobs` and `IsAborted` are compiled functions of the class that read only the C++ fields, and each is proved equal to the `RepairState` query of `State()`.

`new_repair_uniq_id` takes its number from `new_sequence_number()` of the task manager module (repair/repair_task.hh:108), whose body is not part of this model. The model assumes that a fresh module has counter 0 and that each call returns counter + 1, so ids start at 1. `start` may be called only with an identity exactly as it was issued, and only while its number is not in the table. `done` may be called only with an issued identity whose number is RUNNING. This is the caller contract that `run` guarantees: it is handed a whole issued `repair_uniq_id`, start comes before done, and done happens once.

When the random task ids of a history are distinct, the pending set is exactly the set of task ids of the RUNNING repairs (`RepairState.Tracked`). So a finished repair's task is never pending, and `abort_all_repairs` marks the task of every running repair, and only those.

## Model

| member | source | states |
|---|---|---|
| `RepairTasks.ToUnsigned` | repair/repair_task.hh:16-17 | passing an `int` sequence number to the `unsigned` parameter keeps non-negative values and adds 2^32 to negative 32-bit values |
| `RepairTasks.ToInt` | repair/repair_task.hh:21-23 | storing the unsigned sequence number back into the `int` field of `repair_uniq_id` gives a 32-bit value, unchanged below 2^31 |
| `RepairTasks.IntRoundTrip` | repair/repair_task.hh:16-23 | for every 32-bit `int`, the conversion to `unsigned` and back returns it |
| `RepairTasks.RepairTaskImpl` | repair/repair_task.hh:16-19 | the task status records the task id, sequence number, keyspace, table, type, entity and parent passed in, on the current shard, and measures progress in "ranges" |
| `RepairTasks.GetRepairUniqId` | repair/repair_task.hh:21-26 | the rebuilt identity has a 32-bit id, and its task id and shard are those in the task status |
| `RepairTasks.ForwardedIdentityRoundTrip` | repair/repair_task.hh:40-41 | the task status built from `id` (via `id.uuid()` and `id.id`) holds the same task id and sequence number, an empty table, the null parent and progress unit "ranges" |
| `RepairTasks.UserRequestedIdentityRoundTrip` | repair/repair_task.hh:40-48 | a user-requested task built from `id` returns the same sequence number and task id from `get_repair_uniq_id`, and the whole identity when built on the issuing shard |
| `RepairTasks.DataSyncIdentityRoundTrip` | repair/repair_task.hh:62-68 | the same round trip for a data-sync task |
| `RepairTasks.NewUserRequestedRepairTask` | repair/repair_task.hh:40-48 | a user-requested task keeps its tables, hosts, data centres and ignored nodes, has an empty table name and the null parent, and `get_repair_uniq_id` returns the task id of `id` and the current shard |
| `RepairTasks.NewDataSyncRepairTask` | repair/repair_task.hh:62-68 | a data-sync task has an empty table name and the null parent, and `get_repair_uniq_id` returns the task id of `id` and the current shard |
| `RepairState.Get` | repair/repair_task.hh:83-86 | a stored id reads its stored status; under the invariant, SUCCESSFUL exactly when the id was issued and is absent from the table, NOT_EXIST exactly when it was never issued, and RUNNING/FAILED exactly when it is stored |
| `RepairState.GetAsWritten` | repair/repair_task.hh:83-85 | the header's rule read literally: a stored id reads its stored status; under the invariant, SUCCESSFUL exactly when the id is at most the counter and absent from the table (which includes 0), and RUNNING/FAILED exactly when it is stored |
| `RepairState.GetActive` | repair/repair_task.hh:118 | strictly ascending, and lists `x` exactly when `get(x)` is RUNNING |
| `RepairState.NrRunningRepairJobs` | repair/repair_task.hh:119 | the count equals the length of `get_active()` |
| `RepairState.IsAborted` | repair/repair_task.hh:125 | under the invariant, an aborted task is a pending one; when task ids are distinct, it is the task of a RUNNING repair |
| `RepairState.AwaitCheck` | repair/repair_task.hh:94 | a waiter keeps waiting exactly while `get(id)` is RUNNING, and otherwise resolves with `get(id)` |
| `RepairState.StepPreservesValid` | repair/repair_task.hh:83-90 | every call that respects its caller contract keeps the invariant |
| `RepairState.ReplayPreservesValid` | repair/repair_task.hh:83-90 | after any admissible history, only RUNNING/FAILED are stored, every stored id lies between 1 and the counter, and aborted-pending stays inside pending |
| `RepairState.IssuedIdsAreConsecutive` | repair/repair_task.hh:106-111 | the identities a history issues are the counter + 1, + 2, ...; the counter never decreases and ends at the last issued number |
| `RepairState.IssuedIdsStrictlyIncrease` | repair/repair_task.hh:106-111 | issued sequence numbers strictly increase, so none is reused, and each lies above the old counter and at most the new one |
| `RepairState.NeverIssuedIsNotExist` | repair/repair_task.hh:83-85 | from a fresh module, any id that no call issued reads as NOT_EXIST |
| `RepairState.FailedRemainsFailed` | repair/repair_task.hh:77-79 | a FAILED entry stays stored and reads FAILED after any admissible history of later calls |
| `RepairState.RunningIdsAfterStart` | repair/repair_task.hh:95 | after start(id) the running ids are the old ones plus `id` |
| `RepairState.RunningIdsAfterDone` | repair/repair_task.hh:96 | after done(id, _) the running ids are the old ones minus `id` |
| `RepairState.StartMakesRunning` | repair/repair_task.hh:95 | start(id) turns an issued, inferred-SUCCESSFUL id into RUNNING, makes its task pending, allows done(id, _), keeps the invariant and changes no other status |
| `RepairState.StartMakesActive` | repair/repair_task.hh:95 | after start(id) the id is in `get_active()` and the running count is one higher |
| `RepairState.DoneRecordsOutcome` | repair/repair_task.hh:75-79 | done(id, true) drops the id from the table so that it reads SUCCESSFUL; done(id, false) makes it read FAILED; either way the task is neither pending nor aborted, and no other status changes |
| `RepairState.DoneMakesInactive` | repair/repair_task.hh:96 | after done(id, _) the id is not in `get_active()` and the running count is one lower |
| `RepairState.AwaitResolvesAfterDone` | repair/repair_task.hh:94-96 | the first re-check after done(id, ok) resolves with SUCCESSFUL or FAILED as `ok` says |
| `RepairState.RunOutcome` | repair/repair_task.hh:122 | run(id, body) ends SUCCESSFUL when the body succeeds and FAILED when it fails, leaves `get_active()` as it was, and changes no other status |
| `RepairState.ActiveExcludesFinished` | repair/repair_task.hh:118-119 | an id that reads FAILED or SUCCESSFUL is neither listed by `get_active()` nor among the running ids that `nr_running_repair_jobs()` counts |
| `RepairState.AbortAllMarksPending` | repair/repair_task.hh:89-90 | after abort_all_repairs, `is_aborted(u)` holds exactly for the pending tasks `u`; the invariant holds and no status changes |
| `RepairState.RunningTaskIdsAfterIssue` | repair/repair_task.hh:106-111 | issuing an identity does not change the task ids of the running repairs |
| `RepairState.RunningTaskIdsAfterStart` | repair/repair_task.hh:95 | after start(id) the task ids of the running repairs gain `id.uuid()` |
| `RepairState.RunningTaskIdsAfterDone` | repair/repair_task.hh:96 | when task ids are distinct, after done(id, _) the task ids of the running repairs lose exactly `id.uuid()` |
| `RepairState.RunningTaskIdsAfterAbortAll` | repair/repair_task.hh:120 | abort_all_repairs does not change the task ids of the running repairs |
| `RepairState.StepKeepsTracked` | repair/repair_task.hh:89-96 | every call that respects its caller contract and hands out a fresh task id keeps pending equal to the task ids of the running repairs |
| `RepairState.ReplayKeepsTracked` | repair/repair_task.hh:89-96 | after any admissible history with distinct task ids, pending is exactly the set of task ids of the running repairs |
| `RepairState.PendingIsRunning` | repair/repair_task.hh:86-89 | under that invariant, the task of an issued repair is pending exactly while the repair is RUNNING, and every pending task belongs to a RUNNING repair |
| `RepairState.AbortAllReachesRunning` | repair/repair_task.hh:89-90 | under that invariant, after abort_all_repairs the task of an issued repair reads aborted exactly when the repair is RUNNING |
| `RepairState.HistoryPendingIsRunning` | repair/repair_task.hh:86-90 | from a fresh module and after any admissible history with distinct task ids: repair k's task is pending exactly while k is RUNNING, and a following abort marks it exactly then |
| `RepairState.IssuedNotStartedReadsSuccessful` | repair/repair_task.hh:83-85 | an id that was issued but not yet started already reads SUCCESSFUL, before it was issued it read NOT_EXIST, and the identity just issued may be started |
| `RepairState.GetAsWrittenAnswersUnissuedZero` | repair/repair_task.hh:83-85 | the rule as written answers SUCCESSFUL for id 0 of a fresh module, where the corrected `Get` answers NOT_EXIST |
| `RepairState.GetAgreesWithRuleOnPositiveIds` | repair/repair_task.hh:83-85 | the corrected `Get` and the rule as written agree on every positive id |
| `RepairState.ScenarioSuccessfulRepair` | repair/repair_task.hh:75-77 | first id is 1; after a successful run, get(1) is SUCCESSFUL and nothing is active or running |
| `RepairState.ScenarioFailedRepair` | repair/repair_task.hh:77-79 | after a failed run, get(1) is FAILED and nothing is running; after a second, successful repair, get(1) is still FAILED |
| `RepairState.ScenarioAbortPending` | repair/repair_task.hh:89-90 | with three repairs started, all three are active, and abort_all_repairs marks all three tasks aborted |
| `RepairState.ScenarioFirstAbortedFails` | repair/repair_task.hh:86 | after the abort, the first repair finishes FAILED and `get_active()` lists only the two still running |
| `RepairState.ScenarioAbortedRepairsFail` | repair/repair_task.hh:86 | when the other two aborted repairs finish FAILED as well, `get_active()` is empty and all three read FAILED |
| `Semaphores.NamedSemaphore.constructor` | repair/repair_task.hh:91-93 | a new semaphore has the given capacity and no units held |
| `Semaphores.NamedSemaphore.AvailableUnits` | repair/repair_task.hh:91-93 | free units plus held units equal the capacity |
| `Semaphores.NamedSemaphore.Wait` | repair/repair_task.hh:91-93 | admitted only when enough units are free; the held units grow by exactly that many and never exceed the capacity |
| `Semaphores.NamedSemaphore.TryWait` | repair/repair_task.hh:91-93 | takes the units exactly when they are free, and otherwise changes nothing |
| `Semaphores.NamedSemaphore.Signal` | repair/repair_task.hh:91-93 | gives back units taken earlier; held units shrink by exactly that many |
| `Semaphores.NamedSemaphore.WithSemaphore` | repair/repair_task.hh:91-93 | scoped use: held units after the work equal those before, whether the work succeeded or failed |
| `RepairModules.RepairInfo.Abort` | repair/repair_task.hh:87-88 | raises the abort flag of a shared repair record |
| `RepairModules.RepairModule.RangeParallelism` | repair/repair_task.hh:98 | the parallelism is the number of 32 MiB per-range budgets that fit in the configured memory, and at least 1 |
| `RepairModules.RepairModule.constructor` | repair/repair_task.hh:100 | a new module has issued nothing, stores nothing, has no records, and has a fresh semaphore of `RangeParallelism(max_repair_memory)` units with none held |
| `RepairModules.RepairModule.NewRepairUniqId` | repair/repair_task.hh:106-111 | returns the next sequence number, above every earlier one, with the given random task id and this shard; the counter advances by one, the identity is recorded as issued and may be started, and nothing else changes |
| `RepairModules.RepairModule.Start` | repair/repair_task.hh:95 | the new state is `RepairState.Start` of the old one and the invariant is kept |
| `RepairModules.RepairModule.Done` | repair/repair_task.hh:96 | the new state is `RepairState.Done` of the old one and the invariant is kept |
| `RepairModules.RepairModule.CheckInShutdown` | repair/repair_task.hh:114 | fails with ShuttingDown exactly when the module is shutting down |
| `RepairModules.RepairModule.RequestShutdown` | repair/repair_task.hh:114 | the shutdown trigger that `check_in_shutdown` tests; the bookkeeping is unchanged |
| `RepairModules.RepairModule.AddRepairInfo` | repair/repair_task.hh:115 | registers the record for an id that has none and keeps an existing one; the status bookkeeping is unchanged |
| `RepairModules.RepairModule.RemoveRepairInfo` | repair/repair_task.hh:116 | the id no longer has a record, and all other records are kept |
| `RepairModules.RepairModule.GetRepairInfo` | repair/repair_task.hh:117 | returns the registered record, or null exactly when the id has none |
| `RepairModules.RepairModule.Get` | repair/repair_task.hh:113 | computed from the module's fields, and equal to `RepairState.Get` of the module's state, so every lemma about `get` holds of the object |
| `RepairModules.RepairModule.GetActive` | repair/repair_task.hh:118 | computed from the module's fields, and equal to `RepairState.GetActive` of the module's state: the running ids, ascending |
| `RepairModules.RepairModule.NrRunningRepairJobs` | repair/repair_task.hh:119 | computed from the module's fields, and equal to `RepairState.NrRunningRepairJobs` of the module's state |
| `RepairModules.RepairModule.IsAborted` | repair/repair_task.hh:125 | computed from the module's fields, and equal to `RepairState.IsAborted` of the module's state |
| `RepairModules.RepairModule.AbortAllRepairs` | repair/repair_task.hh:120 | the new state is `RepairState.AbortAllRepairs` of the old one, and every registered record has its abort flag raised |
| `RepairModules.RepairModule.RangeParallelismSemaphore` | repair/repair_task.hh:121 | returns the module's own semaphore, the one pool that all range workers of the shard share, whose capacity is at least one range |
| `RepairModules.RepairModule.Run` | repair/repair_task.hh:122 | refused with ShuttingDown while shutting down, changing nothing; otherwise start and then done with the body's outcome, and a body failure is passed back to the caller |

## Left out

- The bodies of `new_sequence_number` (of the task manager module), `start`, `done`, `get`, `get_active`, `nr_running_repair_jobs`, `add_repair_info`, `remove_repair_info`, `get_repair_info`, `abort_all_repairs`, `is_aborted`, `check_in_shutdown` and the constructor are not in the header. The model follows the header's comments and the registry's design. Five details are assumed:
  - `new_sequence_number` starts from 0 and returns the counter plus one;
  - `done` also clears the task from the aborted-pending set;
  - `add_repair_info` keeps an existing record;
  - `abort_all_repairs` copies the pending set into the aborted-pending set;
  - the semaphore holds max(1, max_repair_memory / 32 MiB) units.
- Disjointness of the pending and aborted-pending sets is not stated. An abort is recorded for tasks that are already pending, so the model proves that aborted-pending stays inside pending (`RepairState.ReplayPreservesValid`). Pending and finished repairs are disjoint; `RepairState.PendingIsRunning` proves this.
- A repair record does not have to exist exactly while a repair is RUNNING or FAILED. `add_repair_info` and `remove_repair_info` are separate public calls, and nothing in the registry ties them to the status table.
- `repair_await_completion` and `_done_cond`: suspending on a condition variable with a deadline is concurrency and time. Only the predicate a waiter re-checks is modelled (`RepairState.AwaitCheck`).
- `repair_module::run` and the `run()` overrides of the task classes: their bodies are asynchronous and defined elsewhere. The body's outcome is a boolean parameter of `Run`. The body's own check of `is_aborted` is not modelled.
- `report_progress`: it returns a float, and progress is not implemented for either task variant.
- `get_repair_service`, the replication map snapshot, token ranges, the range-to-neighbours map, the stream reason, the node-operation handle and the task manager base classes are foreign types, so they are not part of this model. A `repair_info` keeps only its abort flag.
- Blocking and FIFO order of the semaphore: a wait is admitted through its precondition and does not suspend. Two jobs contending for units (one waiting until the other releases) is therefore not modelled.
- The random task id of `new_repair_uniq_id` and the current shard are parameters.
- RepairState.HistoryPendingIsRunning: the link between pending tasks and RUNNING repairs is proved only for histories whose random task ids are distinct (`UniqueTaskIds`). If two issued identities share a task id, done on one of them removes the pending entry they share while the other is still RUNNING, and a following abort misses that repair. Random UUIDs make such a collision practically impossible, but it is not excluded.
- RepairModules.RepairModule.NewRepairUniqId: the sequence counter is unbounded. It belongs to the task manager module, whose width is not visible. The identity round trip is proved for ids in the 32-bit `int` range.
- RepairModules.RepairModule.Done: requires the issued identity to be RUNNING (done follows start, once), instead of being a no-op for an id that is not pending.
- RepairState.GetActive: lists ids in ascending order. The C++ class enumerates an unordered map, so ascending is one of the orders it may produce.
- The condition-variable broadcast, logging and cross-shard coordination are not modelled.

## Findings

| source | as written | input that shows it | evidently intended | confidence | as-written member | corrected member |
|---|---|---|---|---|---|---|
| repair/repair_task.hh:83-85 | an id absent from the status map counts as successful when it is at most `_sequence_number` | `get(0)` on a fresh module: 0 ≤ 0 and nothing is stored, so the rule answers SUCCESSFUL for an id never issued. For negative ids the answer depends on the type of `_sequence_number`, which the header does not show | ids below the first issued number (1) read as NOT_EXIST, like any id never issued | low, not executed (the body of `get` is not visible) | `RepairState.GetAsWrittenAnswersUnissuedZero` | `RepairState.NeverIssuedIsNotExist` |
