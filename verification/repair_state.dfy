/**
  The bookkeeping of a shard's repair module, as a value.

  `Registry` holds what repair_module keeps about repair jobs: the highest
  sequence number issued, the task info handed out with each issued number,
  the status table, and the sets of pending and aborted-pending task ids. The status table stores only RUNNING and FAILED
  entries; SUCCESSFUL and NOT_EXIST are inferred by `Get`. The queries and
  transitions here are the specification that the class in RepairModules is
  proved against, and the lemmas state the lifecycle properties of the module.
 */
module RepairState {
  import opened RepairTasks

  /** repair_status, with the NOT_EXIST answer for ids that were never issued. */
  datatype RepairStatus = Running | Successful | Failed | NotExist

  datatype Registry = Registry(
    sequenceNumber: nat,
    issued: map<int, TaskInfo>,
    status: map<int, RepairStatus>,
    pendingRepairs: set<TaskId>,
    abortedPendingRepairs: set<TaskId>)

  /** A freshly constructed module: nothing issued, nothing stored. */
  const Initial: Registry := Registry(0, map[], map[], {}, {})

  /**
    The invariant of the module: the table stores only RUNNING and FAILED,
    every stored id is an issued one (1 up to the counter), the issued
    numbers are exactly 1 up to the counter, and an aborted pending task is
    a pending task.
   */
  ghost predicate Valid(r: Registry) {
    && (forall k :: k in r.status ==> r.status[k] == Running || r.status[k] == Failed)
    && (forall k :: k in r.status ==> 1 <= k <= r.sequenceNumber)
    && (forall k :: k in r.issued <==> 1 <= k <= r.sequenceNumber)
    && r.abortedPendingRepairs <= r.pendingRepairs
  }

  /** The task ids of the repairs whose stored status is RUNNING. */
  function RunningTaskIds(r: Registry): set<TaskId> {
    set k | k in r.status && r.status[k] == Running && k in r.issued :: r.issued[k].id
  }

  /** No task id was handed out with two different sequence numbers. */
  ghost predicate DistinctTaskIds(r: Registry) {
    forall j, k :: j in r.issued && k in r.issued && r.issued[j].id == r.issued[k].id ==> j == k
  }

  /**
    The invariant of a module whose issued task ids are distinct: besides
    Valid, the pending tasks are exactly the tasks of the RUNNING repairs.
   */
  ghost predicate Tracked(r: Registry) {
    && Valid(r)
    && DistinctTaskIds(r)
    && r.pendingRepairs == RunningTaskIds(r)
  }

  // ---------------------------------------------------------------------
  // Queries

  /**
    The inference rule as the comment on the status table states it: an id
    absent from the table is successful when it is at most the counter.
   */
  function GetAsWritten(r: Registry, id: int): (s: RepairStatus)
    ensures id in r.status ==> s == r.status[id]
    ensures Valid(r) ==> (s == Successful <==> id <= r.sequenceNumber && id !in r.status)
    ensures Valid(r) ==> (s == Running || s == Failed <==> id in r.status)
  {
    if id in r.status then r.status[id]
    else if id <= r.sequenceNumber then Successful
    else NotExist
  }

  /**
    get(id): the stored status, else SUCCESSFUL for an issued id (1 up to the
    counter), else NOT_EXIST. Under the invariant, SUCCESSFUL is exactly
    "issued and absent", and NOT_EXIST exactly "never issued".
   */
  function Get(r: Registry, id: int): (s: RepairStatus)
    ensures id in r.status ==> s == r.status[id]
    ensures Valid(r) ==> (s == Successful <==> 1 <= id <= r.sequenceNumber && id !in r.status)
    ensures Valid(r) ==> (s == NotExist <==> !(1 <= id <= r.sequenceNumber))
    ensures Valid(r) ==> (s == Running || s == Failed <==> id in r.status)
  {
    if id in r.status then r.status[id]
    else if 1 <= id <= r.sequenceNumber then Successful
    else NotExist
  }

  /** The ids whose stored status is RUNNING. */
  function RunningIds(r: Registry): set<int> {
    set k | k in r.status && r.status[k] == Running
  }

  /** get_active(): the running repair ids, in ascending order. */
  function GetActive(r: Registry): (ids: seq<int>)
    ensures forall i, j :: 0 <= i < j < |ids| ==> ids[i] < ids[j]
    ensures forall x :: x in ids <==> Get(r, x) == Running
  {
    SortedIds(RunningIds(r))
  }

  /** nr_running_repair_jobs(): how many repairs are running. */
  function NrRunningRepairJobs(r: Registry): (n: nat)
    ensures n == |GetActive(r)|
  {
    |RunningIds(r)|
  }

  /** is_aborted(uuid): whether an abort was recorded for a pending task. */
  function IsAborted(r: Registry, uuid: TaskId): (b: bool)
    ensures Valid(r) && b ==> uuid in r.pendingRepairs
    ensures Tracked(r) && b ==> uuid in RunningTaskIds(r)
  {
    uuid in r.abortedPendingRepairs
  }

  /**
    What one re-check of a waiter in repair_await_completion yields: `None`
    while the repair is still running, otherwise the status it resolves with.
   */
  function AwaitCheck(r: Registry, id: int): (o: Option<RepairStatus>)
    ensures o.None? <==> Get(r, id) == Running
    ensures o.Some? ==> o.value == Get(r, id) && o.value != Running
  {
    var s := Get(r, id);
    if s == Running then None else Some(s)
  }

  datatype Option<T> = None | Some(value: T)

  // ---------------------------------------------------------------------
  // Sorted enumeration of a finite set of ids

  lemma NonEmptyHasElement(s: set<int>)
    requires s != {}
    ensures exists y :: y in s
  {
    if forall y :: y !in s {
      assert false;
    }
  }

  /** A least element of a non-empty set of ids, chosen by removing one element at a time. */
  ghost function Least(s: set<int>): (m: int)
    requires s != {}
    ensures m in s && forall x :: x in s ==> m <= x
    decreases |s|
  {
    NonEmptyHasElement(s);
    var y :| y in s;
    if s == {y} then y
    else
      var t := s - {y};
      var m := Least(t);
      assert forall x :: x in s ==> x == y || x in t;
      if y < m then y else m
  }

  /** The least element of a non-empty set of ids. */
  function Minimum(s: set<int>): (m: int)
    requires s != {}
    ensures m in s && forall x :: x in s ==> m <= x
  {
    var least := Least(s);
    var m :| m in s && forall x :: x in s ==> m <= x;
    m
  }

  /** The elements of `s`, each once, in ascending order. */
  function SortedIds(s: set<int>): (ids: seq<int>)
    ensures |ids| == |s|
    ensures forall x :: x in ids <==> x in s
    ensures forall i, j :: 0 <= i < j < |ids| ==> ids[i] < ids[j]
    decreases |s|
  {
    if s == {} then []
    else
      var m := Minimum(s);
      var rest := SortedIds(s - {m});
      assert forall j :: 0 <= j < |rest| ==> m < rest[j] by {
        forall j | 0 <= j < |rest| ensures m < rest[j] {
          assert rest[j] in rest;
        }
      }
      [m] + rest
  }

  // ---------------------------------------------------------------------
  // Transitions

  /** The identity new_repair_uniq_id hands out: the next sequence number. */
  function NewRepairUniqId(r: Registry, uuid: TaskId, shard: nat): RepairUniqId {
    RepairUniqId(r.sequenceNumber + 1, TaskInfo(uuid, shard))
  }

  /**
    new_repair_uniq_id's effect on the module: the counter advances, and the
    identity handed out is remembered with its number.
   */
  function Issue(r: Registry, uuid: TaskId, shard: nat): Registry {
    r.(sequenceNumber := r.sequenceNumber + 1,
       issued := r.issued[r.sequenceNumber + 1 := TaskInfo(uuid, shard)])
  }

  /** `id` is exactly an identity that new_repair_uniq_id handed out. */
  predicate IsIssued(r: Registry, id: RepairUniqId) {
    id.id in r.issued && r.issued[id.id] == id.taskInfo
  }

  /** start(id) may be called once, for an issued identity that is not in the table. */
  predicate CanStart(r: Registry, id: RepairUniqId) {
    IsIssued(r, id) && id.id !in r.status
  }

  /** done(id, _) follows start(id) and is called once: the issued identity is running. */
  predicate CanFinish(r: Registry, id: RepairUniqId) {
    IsIssued(r, id) && id.id in r.status && r.status[id.id] == Running
  }

  /** start(id): the repair becomes RUNNING and its task becomes pending. */
  function Start(r: Registry, id: RepairUniqId): Registry {
    r.(status := r.status[id.id := Running],
       pendingRepairs := r.pendingRepairs + {id.Uuid()})
  }

  /**
    done(id, succeeded): the task stops being pending (and aborted-pending);
    a successful repair is dropped from the table, a failed one is kept as FAILED.
   */
  function Done(r: Registry, id: RepairUniqId, succeeded: bool): Registry {
    r.(status := if succeeded then r.status - {id.id} else r.status[id.id := Failed],
       pendingRepairs := r.pendingRepairs - {id.Uuid()},
       abortedPendingRepairs := r.abortedPendingRepairs - {id.Uuid()})
  }

  /** abort_all_repairs(): every pending task is recorded as aborted. */
  function AbortAllRepairs(r: Registry): Registry {
    r.(abortedPendingRepairs := r.pendingRepairs)
  }

  /** run(id, func): start, then the body, then done with the body's outcome. */
  function Run(r: Registry, id: RepairUniqId, bodySucceeded: bool): Registry {
    Done(Start(r, id), id, bodySucceeded)
  }

  // ---------------------------------------------------------------------
  // Histories of calls

  datatype Event =
    | IssueId(uuid: TaskId, shard: nat)
    | StartRepair(id: RepairUniqId)
    | DoneRepair(id: RepairUniqId, succeeded: bool)
    | AbortAll

  function Apply(r: Registry, e: Event): Registry {
    match e
    case IssueId(uuid, shard) => Issue(r, uuid, shard)
    case StartRepair(id) => Start(r, id)
    case DoneRepair(id, ok) => Done(r, id, ok)
    case AbortAll => AbortAllRepairs(r)
  }

  /** The caller contract of each call. */
  predicate Enabled(r: Registry, e: Event) {
    match e
    case StartRepair(id) => CanStart(r, id)
    case DoneRepair(id, _) => CanFinish(r, id)
    case _ => true
  }

  function Replay(r: Registry, es: seq<Event>): Registry
    decreases |es|
  {
    if es == [] then r else Replay(Apply(r, es[0]), es[1..])
  }

  /** Every call of the history respects its caller contract when it is made. */
  predicate Admissible(r: Registry, es: seq<Event>)
    decreases |es|
  {
    es == [] || (Enabled(r, es[0]) && Admissible(Apply(r, es[0]), es[1..]))
  }

  /** Every IssueId call of the history hands out a task id not handed out before. */
  predicate UniqueTaskIds(r: Registry, es: seq<Event>)
    decreases |es|
  {
    es == [] ||
    ((es[0].IssueId? ==> forall k :: k in r.issued ==> r.issued[k].id != es[0].uuid)
     && UniqueTaskIds(Apply(r, es[0]), es[1..]))
  }

  /** The identities handed out by the IssueId calls of a history, in order. */
  function Issued(r: Registry, es: seq<Event>): seq<RepairUniqId>
    decreases |es|
  {
    if es == [] then []
    else
      var here := match es[0]
        case IssueId(uuid, shard) => [NewRepairUniqId(r, uuid, shard)]
        case _ => [];
      here + Issued(Apply(r, es[0]), es[1..])
  }

  // ---------------------------------------------------------------------
  // Properties

  lemma StepPreservesValid(r: Registry, e: Event)
    requires Valid(r) && Enabled(r, e)
    ensures Valid(Apply(r, e))
  {
  }

  /**
    The invariant holds after any admissible history: no SUCCESSFUL entry is
    ever stored, stored ids are issued ones, aborted-pending stays within pending.
   */
  lemma {:induction false} ReplayPreservesValid(r: Registry, es: seq<Event>)
    requires Valid(r) && Admissible(r, es)
    ensures Valid(Replay(r, es))
    decreases |es|
  {
    if es != [] {
      StepPreservesValid(r, es[0]);
      ReplayPreservesValid(Apply(r, es[0]), es[1..]);
    }
  }

  /**
    new_repair_uniq_id issues consecutive numbers after the current counter:
    they strictly increase, no number is issued twice, and the counter ends at
    the last one issued.
   */
  lemma {:induction false} IssuedIdsAreConsecutive(r: Registry, es: seq<Event>)
    ensures r.sequenceNumber <= Replay(r, es).sequenceNumber
    ensures |Issued(r, es)| == Replay(r, es).sequenceNumber - r.sequenceNumber
    ensures forall i :: 0 <= i < |Issued(r, es)| ==> Issued(r, es)[i].id == r.sequenceNumber + 1 + i
    decreases |es|
  {
    if es != [] {
      var r' := Apply(r, es[0]);
      IssuedIdsAreConsecutive(r', es[1..]);
      if es[0].IssueId? {
        assert r'.sequenceNumber == r.sequenceNumber + 1;
        assert Issued(r, es) == [NewRepairUniqId(r, es[0].uuid, es[0].shard)] + Issued(r', es[1..]);
      } else {
        assert r'.sequenceNumber == r.sequenceNumber;
        assert Issued(r, es) == Issued(r', es[1..]);
      }
    }
  }

  lemma IssuedIdsStrictlyIncrease(r: Registry, es: seq<Event>)
    ensures forall i, j :: 0 <= i < j < |Issued(r, es)| ==> Issued(r, es)[i].id < Issued(r, es)[j].id
    ensures forall i :: 0 <= i < |Issued(r, es)| ==>
      r.sequenceNumber < Issued(r, es)[i].id <= Replay(r, es).sequenceNumber
  {
    IssuedIdsAreConsecutive(r, es);
  }

  /** An id that no call of the history issued reads as NOT_EXIST. */
  lemma NeverIssuedIsNotExist(es: seq<Event>, id: int)
    requires Admissible(Initial, es)
    requires forall i :: 0 <= i < |Issued(Initial, es)| ==> Issued(Initial, es)[i].id != id
    ensures Get(Replay(Initial, es), id) == NotExist
  {
    ReplayPreservesValid(Initial, es);
    IssuedIdsAreConsecutive(Initial, es);
    var issued := Issued(Initial, es);
    var numbers := set i | 0 <= i < |issued| :: issued[i].id;
    assert id !in numbers;
    forall k | 1 <= k <= Replay(Initial, es).sequenceNumber
      ensures k in numbers
    {
      assert issued[k - 1].id == k;
    }
  }

  /**
    A failed repair stays in the table forever: whatever admissible calls
    follow, get keeps answering FAILED.
   */
  lemma {:induction false} FailedRemainsFailed(r: Registry, es: seq<Event>, id: int)
    requires id in r.status && r.status[id] == Failed
    requires Admissible(r, es)
    ensures var r' := Replay(r, es); id in r'.status && r'.status[id] == Failed && Get(r', id) == Failed
    decreases |es|
  {
    if es != [] {
      var r' := Apply(r, es[0]);
      assert id in r'.status && r'.status[id] == Failed;
      FailedRemainsFailed(r', es[1..], id);
    }
  }

  lemma RunningIdsAfterStart(r: Registry, id: RepairUniqId)
    ensures RunningIds(Start(r, id)) == RunningIds(r) + {id.id}
  {
  }

  lemma RunningIdsAfterDone(r: Registry, id: RepairUniqId, succeeded: bool)
    ensures RunningIds(Done(r, id, succeeded)) == RunningIds(r) - {id.id}
  {
  }

  /** start(id) makes the repair RUNNING and changes no other status. */
  lemma StartMakesRunning(r: Registry, id: RepairUniqId)
    requires Valid(r) && CanStart(r, id)
    ensures Valid(Start(r, id))
    ensures Get(r, id.id) == Successful && Get(Start(r, id), id.id) == Running
    ensures CanFinish(Start(r, id), id)
    ensures id.Uuid() in Start(r, id).pendingRepairs
    ensures forall x :: x != id.id ==> Get(Start(r, id), x) == Get(r, x)
  {
  }

  /** After start(id) the repair is active and counted as running. */
  lemma StartMakesActive(r: Registry, id: RepairUniqId)
    requires CanStart(r, id)
    ensures id.id in GetActive(Start(r, id))
    ensures NrRunningRepairJobs(Start(r, id)) == NrRunningRepairJobs(r) + 1
  {
    RunningIdsAfterStart(r, id);
    assert id.id !in RunningIds(r);
  }

  /**
    done(id, succeeded): a successful repair leaves the table and reads as
    SUCCESSFUL, a failed one reads as FAILED; the task is no longer pending
    or aborted, and no other status changes.
   */
  lemma DoneRecordsOutcome(r: Registry, id: RepairUniqId, succeeded: bool)
    requires Valid(r) && CanFinish(r, id)
    ensures Valid(Done(r, id, succeeded))
    ensures succeeded ==> id.id !in Done(r, id, succeeded).status
    ensures Get(Done(r, id, succeeded), id.id) == if succeeded then Successful else Failed
    ensures id.Uuid() !in Done(r, id, succeeded).pendingRepairs
    ensures !IsAborted(Done(r, id, succeeded), id.Uuid())
    ensures forall x :: x != id.id ==> Get(Done(r, id, succeeded), x) == Get(r, x)
  {
  }

  /** After done(id, _) the repair is no longer active, and the running count drops by one. */
  lemma DoneMakesInactive(r: Registry, id: RepairUniqId, succeeded: bool)
    requires CanFinish(r, id)
    ensures id.id !in GetActive(Done(r, id, succeeded))
    ensures NrRunningRepairJobs(Done(r, id, succeeded)) == NrRunningRepairJobs(r) - 1
  {
    RunningIdsAfterDone(r, id, succeeded);
    assert id.id in RunningIds(r);
  }

  /** A waiter re-checking after done(id, _) resolves with the terminal status. */
  lemma AwaitResolvesAfterDone(r: Registry, id: RepairUniqId, succeeded: bool)
    requires Valid(r) && CanFinish(r, id)
    ensures AwaitCheck(Done(r, id, succeeded), id.id) == Some(if succeeded then Successful else Failed)
  {
    DoneRecordsOutcome(r, id, succeeded);
  }

  /**
    run(id, body): the repair ends SUCCESSFUL or FAILED as the body did, the
    active list is as before, and no other status changes.
   */
  lemma RunOutcome(r: Registry, id: RepairUniqId, bodySucceeded: bool)
    requires Valid(r) && CanStart(r, id)
    ensures Valid(Run(r, id, bodySucceeded))
    ensures Get(Run(r, id, bodySucceeded), id.id) == if bodySucceeded then Successful else Failed
    ensures GetActive(Run(r, id, bodySucceeded)) == GetActive(r)
    ensures forall x :: x != id.id ==> Get(Run(r, id, bodySucceeded), x) == Get(r, x)
  {
    StartMakesRunning(r, id);
    DoneRecordsOutcome(Start(r, id), id, bodySucceeded);
    RunningIdsAfterStart(r, id);
    RunningIdsAfterDone(Start(r, id), id, bodySucceeded);
    assert id.id !in RunningIds(r);
    assert RunningIds(Run(r, id, bodySucceeded)) == RunningIds(r);
  }

  /** The active list and the running ids never include a FAILED or SUCCESSFUL id. */
  lemma ActiveExcludesFinished(r: Registry, x: int)
    requires Get(r, x) == Failed || Get(r, x) == Successful
    ensures x !in GetActive(r)
    ensures x !in RunningIds(r)
  {
  }

  /**
    abort_all_repairs(): afterwards is_aborted holds exactly for the pending
    tasks; no status changes.
   */
  lemma AbortAllMarksPending(r: Registry, uuid: TaskId)
    requires Valid(r)
    ensures var r' := AbortAllRepairs(r);
      && Valid(r')
      && (IsAborted(r', uuid) <==> uuid in r.pendingRepairs)
      && (forall x :: Get(r', x) == Get(r, x))
  {
  }

  /**
    An id that has been issued but not yet started is absent from the table
    and so already reads as SUCCESSFUL.
   */
  lemma IssuedNotStartedReadsSuccessful(r: Registry, uuid: TaskId, shard: nat)
    requires Valid(r)
    ensures Valid(Issue(r, uuid, shard))
    ensures Get(Issue(r, uuid, shard), NewRepairUniqId(r, uuid, shard).id) == Successful
    ensures Get(r, NewRepairUniqId(r, uuid, shard).id) == NotExist
    ensures CanStart(Issue(r, uuid, shard), NewRepairUniqId(r, uuid, shard))
  {
  }

  /**
    The rule as written answers SUCCESSFUL for the id 0 of a fresh module,
    which was never issued; the corrected `Get` answers NOT_EXIST. The two
    agree on every positive id.
   */
  lemma GetAsWrittenAnswersUnissuedZero()
    ensures GetAsWritten(Initial, 0) == Successful
    ensures Get(Initial, 0) == NotExist
  {
  }

  lemma GetAgreesWithRuleOnPositiveIds(r: Registry, id: int)
    requires 1 <= id
    ensures Get(r, id) == GetAsWritten(r, id)
  {
  }

  // ---------------------------------------------------------------------
  // Pending tasks and running repairs

  lemma RunningTaskIdsAfterIssue(r: Registry, uuid: TaskId, shard: nat)
    requires Valid(r)
    ensures RunningTaskIds(Issue(r, uuid, shard)) == RunningTaskIds(r)
  {
  }

  lemma RunningTaskIdsAfterStart(r: Registry, id: RepairUniqId)
    requires Valid(r) && CanStart(r, id)
    ensures RunningTaskIds(Start(r, id)) == RunningTaskIds(r) + {id.Uuid()}
  {
  }

  lemma RunningTaskIdsAfterDone(r: Registry, id: RepairUniqId, succeeded: bool)
    requires Valid(r) && DistinctTaskIds(r) && CanFinish(r, id)
    ensures RunningTaskIds(Done(r, id, succeeded)) == RunningTaskIds(r) - {id.Uuid()}
  {
  }

  lemma RunningTaskIdsAfterAbortAll(r: Registry)
    ensures RunningTaskIds(AbortAllRepairs(r)) == RunningTaskIds(r)
  {
  }

  /** Each enabled call that hands out only fresh task ids keeps Tracked. */
  lemma StepKeepsTracked(r: Registry, e: Event)
    requires Tracked(r) && Enabled(r, e)
    requires e.IssueId? ==> forall k :: k in r.issued ==> r.issued[k].id != e.uuid
    ensures Tracked(Apply(r, e))
  {
  }

  /**
    After any admissible history that hands out distinct task ids, the
    pending tasks are exactly the tasks of the RUNNING repairs.
   */
  lemma {:induction false} ReplayKeepsTracked(r: Registry, es: seq<Event>)
    requires Tracked(r) && Admissible(r, es) && UniqueTaskIds(r, es)
    ensures Tracked(Replay(r, es))
    decreases |es|
  {
    if es != [] {
      StepKeepsTracked(r, es[0]);
      ReplayKeepsTracked(Apply(r, es[0]), es[1..]);
    }
  }

  /**
    Under Tracked, the task of an issued repair is pending exactly while the
    repair is RUNNING, so a finished repair's task is never pending, and
    every pending task belongs to a RUNNING repair.
   */
  lemma PendingIsRunning(r: Registry, k: int)
    requires Tracked(r) && k in r.issued
    ensures r.issued[k].id in r.pendingRepairs <==> Get(r, k) == Running
    ensures forall u :: u in r.pendingRepairs ==>
      exists j :: j in r.issued && r.issued[j].id == u && Get(r, j) == Running
  {
  }

  /**
    abort_all_repairs reaches every running repair: afterwards the task of an
    issued repair reads aborted exactly when the repair is RUNNING.
   */
  lemma AbortAllReachesRunning(r: Registry, k: int)
    requires Tracked(r) && k in r.issued
    ensures Tracked(AbortAllRepairs(r))
    ensures IsAborted(AbortAllRepairs(r), r.issued[k].id) <==> Get(r, k) == Running
  {
  }

  /**
    From a fresh module, after any admissible history with distinct task ids:
    the task of the repair numbered `k` is pending exactly while the repair is
    RUNNING, and a following abort_all_repairs marks it aborted exactly then.
   */
  lemma {:induction false} HistoryPendingIsRunning(es: seq<Event>, k: int)
    requires Admissible(Initial, es) && UniqueTaskIds(Initial, es)
    requires 1 <= k <= Replay(Initial, es).sequenceNumber
    ensures var r := Replay(Initial, es);
      && k in r.issued
      && (r.issued[k].id in r.pendingRepairs <==> Get(r, k) == Running)
      && (IsAborted(AbortAllRepairs(r), r.issued[k].id) <==> Get(r, k) == Running)
  {
    assert RunningTaskIds(Initial) == {};
    ReplayKeepsTracked(Initial, es);
    var r := Replay(Initial, es);
    assert k in r.issued;
    PendingIsRunning(r, k);
    AbortAllReachesRunning(r, k);
  }

  // ---------------------------------------------------------------------
  // Scenarios

  /** A repair whose body succeeds: SUCCESSFUL, nothing active. */
  lemma ScenarioSuccessfulRepair(uuid: TaskId, shard: nat)
    ensures var id := NewRepairUniqId(Initial, uuid, shard);
      var r := Run(Issue(Initial, uuid, shard), id, true);
      && id.id == 1
      && Get(r, 1) == Successful && GetActive(r) == [] && NrRunningRepairJobs(r) == 0
  {
    var id := NewRepairUniqId(Initial, uuid, shard);
    var r := Run(Issue(Initial, uuid, shard), id, true);
    assert RunningIds(r) == {};
  }

  /** A repair whose body fails: FAILED, not counted as running, and still FAILED after another repair completes. */
  lemma ScenarioFailedRepair(u1: TaskId, u2: TaskId, shard: nat)
    ensures var id1 := NewRepairUniqId(Initial, u1, shard);
      var r1 := Run(Issue(Initial, u1, shard), id1, false);
      var id2 := NewRepairUniqId(r1, u2, shard);
      var r2 := Run(Issue(r1, u2, shard), id2, true);
      && id2.id == 2
      && Get(r1, 1) == Failed && NrRunningRepairJobs(r1) == 0
      && Get(r2, 1) == Failed && Get(r2, 2) == Successful && NrRunningRepairJobs(r2) == 0
  {
    var id1 := NewRepairUniqId(Initial, u1, shard);
    var r1 := Run(Issue(Initial, u1, shard), id1, false);
    assert RunningIds(r1) == {};
    var id2 := NewRepairUniqId(r1, u2, shard);
    var r2 := Run(Issue(r1, u2, shard), id2, true);
    assert RunningIds(r2) == {};
  }

  /** Three repairs issued and started, as in the abort scenario below. */
  function ThreeStarted(u1: TaskId, u2: TaskId, u3: TaskId, shard: nat): Registry {
    var r := Issue(Issue(Issue(Initial, u1, shard), u2, shard), u3, shard);
    Start(Start(Start(r, RepairUniqId(1, TaskInfo(u1, shard))), RepairUniqId(2, TaskInfo(u2, shard))), RepairUniqId(3, TaskInfo(u3, shard)))
  }

  lemma ThreeStartedTable(u1: TaskId, u2: TaskId, u3: TaskId, shard: nat)
    ensures ThreeStarted(u1, u2, u3, shard).status == map[1 := Running, 2 := Running, 3 := Running]
  {
  }

  /** abort_all_repairs while three repairs are pending marks all three as aborted. */
  lemma ScenarioAbortPending(u1: TaskId, u2: TaskId, u3: TaskId, shard: nat)
    ensures var started := ThreeStarted(u1, u2, u3, shard);
      && GetActive(started) == [1, 2, 3]
      && IsAborted(AbortAllRepairs(started), u1)
      && IsAborted(AbortAllRepairs(started), u2)
      && IsAborted(AbortAllRepairs(started), u3)
  {
    var started := ThreeStarted(u1, u2, u3, shard);
    ThreeStartedTable(u1, u2, u3, shard);
    assert RunningIds(started) == {1, 2, 3};
    SortedThree(1, 2, 3);
  }

  /** After aborting the three repairs, the first one observes the abort and finishes FAILED. */
  function FirstAbortedFailed(u1: TaskId, u2: TaskId, u3: TaskId, shard: nat): Registry {
    Done(AbortAllRepairs(ThreeStarted(u1, u2, u3, shard)), RepairUniqId(1, TaskInfo(u1, shard)), false)
  }

  lemma FirstAbortedFailedTable(u1: TaskId, u2: TaskId, u3: TaskId, shard: nat)
    ensures FirstAbortedFailed(u1, u2, u3, shard).status == map[1 := Failed, 2 := Running, 3 := Running]
  {
    ThreeStartedTable(u1, u2, u3, shard);
  }

  /**
    Each aborted repair observes the abort and finishes FAILED: once the
    first has, the active list holds only the two still running.
   */
  lemma ScenarioFirstAbortedFails(u1: TaskId, u2: TaskId, u3: TaskId, shard: nat)
    ensures var one := FirstAbortedFailed(u1, u2, u3, shard);
      && GetActive(one) == [2, 3]
      && Get(one, 1) == Failed && Get(one, 2) == Running && Get(one, 3) == Running
  {
    FirstAbortedFailedTable(u1, u2, u3, shard);
    assert RunningIds(FirstAbortedFailed(u1, u2, u3, shard)) == {2, 3};
    SortedTwo(2, 3);
  }

  /** When the other two have finished FAILED as well, nothing is active. */
  lemma ScenarioAbortedRepairsFail(u1: TaskId, u2: TaskId, u3: TaskId, shard: nat)
    ensures
      var finished := Done(Done(FirstAbortedFailed(u1, u2, u3, shard),
        RepairUniqId(2, TaskInfo(u2, shard)), false), RepairUniqId(3, TaskInfo(u3, shard)), false);
      && GetActive(finished) == []
      && Get(finished, 1) == Failed && Get(finished, 2) == Failed && Get(finished, 3) == Failed
  {
    FirstAbortedFailedTable(u1, u2, u3, shard);
    var finished := Done(Done(FirstAbortedFailed(u1, u2, u3, shard),
      RepairUniqId(2, TaskInfo(u2, shard)), false), RepairUniqId(3, TaskInfo(u3, shard)), false);
    assert finished.status == map[1 := Failed, 2 := Failed, 3 := Failed];
    assert RunningIds(finished) == {};
  }

  lemma SortedTwo(x: int, y: int)
    requires x < y
    ensures SortedIds({x, y}) == [x, y]
  {
    var s := SortedIds({x, y});
    assert x in s && y in s;
  }

  lemma SortedThree(x: int, y: int, z: int)
    requires x < y < z
    ensures SortedIds({x, y, z}) == [x, y, z]
  {
    var s := SortedIds({x, y, z});
    assert x in s && y in s && z in s;
    assert |s| == 3 by {
      assert |{x, y, z}| == 3;
    }
  }
}
