/**
  repair_module: the per-shard registry of repair jobs.

  The class keeps the fields of the C++ class (the counter of the task manager
  module it derives from, the status table, the repair records, the pending
  and aborted-pending task sets and the range parallelism semaphore). Each
  method that changes them is proved to move `State()` exactly as the
  corresponding transition of RepairState does, so the lemmas proved there
  (statuses only RUNNING or FAILED, FAILED forever, SUCCESSFUL by absence,
  ids strictly increasing) hold of the object. The queries get, get_active,
  nr_running_repair_jobs and is_aborted read the compiled fields only, and
  each is proved to answer as the RepairState function of `State()`.
 */
module RepairModules {
  import opened RepairTasks
  import opened RepairState
  import opened Semaphores

  /**
    repair_info, the record of a running repair shared with its range
    workers. Only its abort flag is part of this model.
   */
  class RepairInfo {
    var aborted: bool

    constructor ()
      ensures !aborted
    {
      aborted := false;
    }

    /** Requests the repair to stop; the workers observe it at their next check. */
    method Abort()
      modifies this
      ensures aborted
    {
      aborted := true;
    }
  }

  /** Why run() did not complete normally. */
  datatype RepairError = ShuttingDown | RepairFailed

  datatype Outcome = Pass | Fail(error: RepairError)

  class RepairModule {
    /** Memory a single range repair is budgeted to use: 32 MiB. */
    static const MaxRepairMemoryPerRange: nat := 32 * 1024 * 1024

    /**
      How many ranges may be repaired in parallel with `maxRepairMemory`
      bytes: as many 32 MiB budgets as fit, and at least one.
     */
    static function RangeParallelism(maxRepairMemory: nat): (n: nat)
      ensures n >= 1
      ensures n == 1 || n * MaxRepairMemoryPerRange <= maxRepairMemory
      ensures maxRepairMemory < (n + 1) * MaxRepairMemoryPerRange
    {
      var fit := maxRepairMemory / MaxRepairMemoryPerRange;
      if fit < 1 then 1 else fit
    }

    /** The shard this module lives on (this_shard_id()). */
    const shard: nat
    /** The highest sequence number issued so far. */
    var sequenceNumber: nat
    /** The task info handed out with each issued number (bookkeeping of the proof only). */
    ghost var issued: map<int, TaskInfo>
    var status: map<int, RepairStatus>
    var repairs: map<int, RepairInfo>
    var pendingRepairs: set<TaskId>
    var abortedPendingRepairs: set<TaskId>
    const rangeParallelismSemaphore: NamedSemaphore
    /** Set once the module's abort source has been triggered for shutdown. */
    var inShutdown: bool

    /** The bookkeeping of the module, as a RepairState value. */
    ghost function State(): Registry
      reads this
    {
      Registry(sequenceNumber, issued, status, pendingRepairs, abortedPendingRepairs)
    }

    ghost predicate Valid()
      reads this, rangeParallelismSemaphore
    {
      && RepairState.Valid(State())
      && rangeParallelismSemaphore.Valid()
      && rangeParallelismSemaphore.capacity >= 1
    }

    constructor (shard: nat, maxRepairMemory: nat)
      ensures Valid()
      ensures fresh(rangeParallelismSemaphore)
      ensures this.shard == shard
      ensures State() == Initial && repairs == map[] && !inShutdown
      ensures rangeParallelismSemaphore.capacity == RangeParallelism(maxRepairMemory)
      ensures rangeParallelismSemaphore.held == 0
    {
      this.shard := shard;
      sequenceNumber := 0;
      issued := map[];
      status := map[];
      repairs := map[];
      pendingRepairs := {};
      abortedPendingRepairs := {};
      rangeParallelismSemaphore := new NamedSemaphore(RangeParallelism(maxRepairMemory));
      inShutdown := false;
    }

    /**
      new_repair_uniq_id(): the next sequence number, with a fresh random
      task id (`uuid`) and this shard.
     */
    method NewRepairUniqId(uuid: TaskId) returns (id: RepairUniqId)
      requires Valid()
      modifies this
      ensures Valid()
      ensures id == RepairState.NewRepairUniqId(old(State()), uuid, shard)
      ensures id.id == sequenceNumber && id.id > old(sequenceNumber)
      ensures State() == Issue(old(State()), uuid, shard)
      ensures CanStart(State(), id)
      ensures repairs == old(repairs) && inShutdown == old(inShutdown)
    {
      sequenceNumber := sequenceNumber + 1;
      issued := issued[sequenceNumber := TaskInfo(uuid, shard)];
      id := RepairUniqId(sequenceNumber, TaskInfo(uuid, shard));
    }

    /** start(id): marks the repair RUNNING and its task pending. */
    method Start(id: RepairUniqId)
      requires Valid() && CanStart(State(), id)
      modifies this
      ensures Valid()
      ensures State() == RepairState.Start(old(State()), id)
      ensures repairs == old(repairs) && inShutdown == old(inShutdown)
    {
      pendingRepairs := pendingRepairs + {id.Uuid()};
      status := status[id.id := Running];
      StartMakesRunning(old(State()), id);
    }

    /**
      done(id, succeeded): the task stops being pending; a successful repair
      is dropped from the table, a failed one stays there as FAILED. Waiters
      are woken (the broadcast itself is not modelled).
     */
    method Done(id: RepairUniqId, succeeded: bool)
      requires Valid() && CanFinish(State(), id)
      modifies this
      ensures Valid()
      ensures State() == RepairState.Done(old(State()), id, succeeded)
      ensures repairs == old(repairs) && inShutdown == old(inShutdown)
    {
      pendingRepairs := pendingRepairs - {id.Uuid()};
      abortedPendingRepairs := abortedPendingRepairs - {id.Uuid()};
      if succeeded {
        status := status - {id.id};
      } else {
        status := status[id.id := Failed];
      }
      DoneRecordsOutcome(old(State()), id, succeeded);
    }

    /** check_in_shutdown(): fails once the module is shutting down. */
    method CheckInShutdown() returns (o: Outcome)
      ensures o == Pass || o == Fail(ShuttingDown)
      ensures o.Fail? <==> inShutdown
    {
      o := if inShutdown then Fail(ShuttingDown) else Pass;
    }

    /** The module's abort source is triggered: from now on run() is refused. */
    method RequestShutdown()
      requires Valid()
      modifies this
      ensures Valid()
      ensures inShutdown
      ensures State() == old(State()) && repairs == old(repairs)
    {
      inShutdown := true;
    }

    /** add_repair_info(id, ri): records `ri` unless a record for `id` exists. */
    method AddRepairInfo(id: int, ri: RepairInfo)
      requires Valid()
      modifies this
      ensures Valid()
      ensures repairs == if id in old(repairs) then old(repairs) else old(repairs)[id := ri]
      ensures State() == old(State()) && inShutdown == old(inShutdown)
    {
      if id !in repairs {
        repairs := repairs[id := ri];
      }
    }

    /** remove_repair_info(id): forgets the record of `id`, if any. */
    method RemoveRepairInfo(id: int)
      requires Valid()
      modifies this
      ensures Valid()
      ensures repairs == old(repairs) - {id}
      ensures State() == old(State()) && inShutdown == old(inShutdown)
    {
      repairs := repairs - {id};
    }

    /** get_repair_info(id): the record of `id`, or null when there is none. */
    function GetRepairInfo(id: int): (ri: RepairInfo?)
      reads this
      ensures ri == null <==> id !in repairs
      ensures id in repairs ==> ri == repairs[id]
    {
      if id in repairs then repairs[id] else null
    }

    /**
      The bookkeeping the queries need, from the compiled fields alone: none
      of them looks at the ghost record of issued identities.
     */
    function Bookkeeping(): Registry
      reads this
    {
      Registry(sequenceNumber, map[], status, pendingRepairs, abortedPendingRepairs)
    }

    /** get(id): the status of repair `id`. */
    function Get(id: int): (s: RepairStatus)
      reads this
      ensures s == RepairState.Get(State(), id)
    {
      RepairState.Get(Bookkeeping(), id)
    }

    /** get_active(): the running repair ids. */
    function GetActive(): (ids: seq<int>)
      reads this
      ensures ids == RepairState.GetActive(State())
    {
      RepairState.GetActive(Bookkeeping())
    }

    /** nr_running_repair_jobs(): how many repairs are running. */
    function NrRunningRepairJobs(): (n: nat)
      reads this
      ensures n == RepairState.NrRunningRepairJobs(State())
    {
      RepairState.NrRunningRepairJobs(Bookkeeping())
    }

    /** is_aborted(uuid): whether an abort was recorded for the pending task `uuid`. */
    function IsAborted(uuid: TaskId): (b: bool)
      reads this
      ensures b == RepairState.IsAborted(State(), uuid)
    {
      RepairState.IsAborted(Bookkeeping(), uuid)
    }

    /**
      abort_all_repairs(): every pending task is recorded as aborted, and
      every registered repair record is told to abort.
     */
    method AbortAllRepairs()
      requires Valid()
      modifies this, repairs.Values
      ensures Valid()
      ensures State() == RepairState.AbortAllRepairs(old(State()))
      ensures repairs == old(repairs) && inShutdown == old(inShutdown)
      ensures forall k :: k in repairs ==> repairs[k].aborted
    {
      var todo := repairs.Keys;
      while todo != {}
        invariant todo <= repairs.Keys
        invariant repairs == old(repairs) && State() == old(State()) && inShutdown == old(inShutdown)
        invariant forall k :: k in repairs && k !in todo ==> repairs[k].aborted
        decreases todo
      {
        NonEmptyHasElement(todo);
        var k :| k in todo;
        repairs[k].Abort();
        todo := todo - {k};
      }
      abortedPendingRepairs := pendingRepairs;
    }

    /** range_parallelism_semaphore(): the semaphore shared by all range workers of the shard. */
    function RangeParallelismSemaphore(): (s: NamedSemaphore)
      reads this, rangeParallelismSemaphore
      requires Valid()
      ensures s == rangeParallelismSemaphore
      ensures s.capacity >= 1
    {
      rangeParallelismSemaphore
    }

    /**
      run(id, func): refused while shutting down; otherwise start(id), the
      body (whose outcome is `bodySucceeded`), then done(id, outcome) on
      either path, and a failure of the body is passed on to the caller.
     */
    method Run(id: RepairUniqId, bodySucceeded: bool) returns (o: Outcome)
      requires Valid() && CanStart(State(), id)
      modifies this
      ensures Valid()
      ensures old(inShutdown) ==> o == Fail(ShuttingDown) && State() == old(State())
      ensures !old(inShutdown) ==> State() == RepairState.Run(old(State()), id, bodySucceeded)
      ensures !old(inShutdown) ==> o == if bodySucceeded then Pass else Fail(RepairFailed)
      ensures repairs == old(repairs) && inShutdown == old(inShutdown)
    {
      o := CheckInShutdown();
      if o.Fail? {
        return;
      }
      Start(id);
      Done(id, bodySucceeded);
      o := if bodySucceeded then Pass else Fail(RepairFailed);
    }
  }
}
