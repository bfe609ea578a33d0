/**
  Identity of repair jobs and the two repair task variants that carry it.

  A repair job is named by a `RepairUniqId`: the per-shard sequence number the
  repair module issued, plus the task manager's task info (a random task id and
  the shard that owns the job). The task classes keep this identity in the
  generic task status of the task manager, where the sequence number is held
  as a 32-bit unsigned value; `GetRepairUniqId` rebuilds the identity from it.
 */
module RepairTasks {

  /** A task manager task id (a UUID, modelled by its numeric value). */
  datatype TaskId = TaskId(bits: nat)

  /** The null task id, used as the parent of top-level repair tasks. */
  const NullTaskId: TaskId := TaskId(0)

  /** tasks::task_info: a task id and the shard that owns the task. */
  datatype TaskInfo = TaskInfo(id: TaskId, shard: nat)

  /** repair_uniq_id: the repair's sequence number (a C++ `int`) and its task info. */
  datatype RepairUniqId = RepairUniqId(id: int, taskInfo: TaskInfo) {
    /** repair_uniq_id::uuid(): the task id of the repair. */
    function Uuid(): TaskId {
      taskInfo.id
    }
  }

  /** A network address of a node, kept as its textual form. */
  type InetAddress = string

  const TwoTo31: int := 0x8000_0000
  const TwoTo32: int := 0x1_0000_0000

  /** Values of a C++ `unsigned` (32 bits). */
  type Uint32 = x: int | 0 <= x < 0x1_0000_0000

  /** Values of a C++ `int` (32 bits, two's complement). */
  predicate IsInt32(x: int) {
    -TwoTo31 <= x < TwoTo31
  }

  /** The implicit conversion of an `int` argument to an `unsigned` parameter. */
  function ToUnsigned(x: int): (u: Uint32)
    ensures 0 <= x < TwoTo32 ==> u == x
    ensures IsInt32(x) && x < 0 ==> u == x + TwoTo32
  {
    x % TwoTo32
  }

  /** The conversion of an `unsigned` value stored into an `int` field. */
  function ToInt(u: Uint32): (x: int)
    ensures IsInt32(x)
    ensures u < TwoTo31 ==> x == u
  {
    if u < TwoTo31 then u else u - TwoTo32
  }

  /** Passing an `int` through an `unsigned` and back gives the same `int`. */
  lemma IntRoundTrip(x: int)
    requires IsInt32(x)
    ensures ToInt(ToUnsigned(x)) == x
  {
  }

  /** The part of the task manager's task status that repair tasks fill in. */
  datatype TaskStatus = TaskStatus(
    id: TaskId,
    sequenceNumber: Uint32,
    shard: nat,
    keyspace: string,
    table: string,
    taskType: string,
    entity: string,
    parentId: TaskId,
    progressUnits: string)

  /**
    The two concrete repair tasks. The replication map snapshot, token ranges,
    range-to-neighbours map, stream reason and node-operation handle they also
    hold are foreign values and are not part of this model.
   */
  datatype RepairTask =
    | UserRequestedRepairTask(
        status: TaskStatus,
        cfs: seq<string>,
        hosts: seq<string>,
        dataCenters: seq<string>,
        ignoreNodes: set<InetAddress>)
    | DataSyncRepairTask(status: TaskStatus)

  /**
    repair_task_impl's constructor: the task manager records the arguments in
    the task status on the current shard `shard`, and repair tasks measure
    their progress in ranges.
   */
  function RepairTaskImpl(
    id: TaskId, sequenceNumber: Uint32, shard: nat,
    keyspace: string, table: string, taskType: string, entity: string,
    parentId: TaskId): (s: TaskStatus)
    ensures s.progressUnits == "ranges"
    ensures s.id == id && s.sequenceNumber == sequenceNumber && s.shard == shard && s.parentId == parentId
    ensures s.keyspace == keyspace && s.table == table && s.taskType == taskType && s.entity == entity
  {
    TaskStatus(id, sequenceNumber, shard, keyspace, table, taskType, entity, parentId, "ranges")
  }

  /**
    Both variants forward `id.uuid()` and `id.id` to repair_task_impl, with an
    empty table name and the null parent id.
   */
  function ForwardedStatus(id: RepairUniqId, shard: nat, keyspace: string, taskType: string, entity: string): TaskStatus
  {
    RepairTaskImpl(id.Uuid(), ToUnsigned(id.id), shard, keyspace, "", taskType, entity, NullTaskId)
  }

  /** user_requested_repair_task_impl's constructor, run on shard `shard`. */
  function NewUserRequestedRepairTask(
    id: RepairUniqId, shard: nat, keyspace: string, taskType: string, entity: string,
    cfs: seq<string>, hosts: seq<string>, dataCenters: seq<string>,
    ignoreNodes: set<InetAddress>): (t: RepairTask)
    ensures t.UserRequestedRepairTask?
    ensures t.cfs == cfs && t.hosts == hosts && t.dataCenters == dataCenters && t.ignoreNodes == ignoreNodes
    ensures t.status.keyspace == keyspace && t.status.table == "" && t.status.parentId == NullTaskId
    ensures GetRepairUniqId(t).Uuid() == id.Uuid() && GetRepairUniqId(t).taskInfo.shard == shard
  {
    UserRequestedRepairTask(ForwardedStatus(id, shard, keyspace, taskType, entity), cfs, hosts, dataCenters, ignoreNodes)
  }

  /** data_sync_repair_task_impl's constructor, run on shard `shard`. */
  function NewDataSyncRepairTask(
    id: RepairUniqId, shard: nat, keyspace: string, taskType: string, entity: string): (t: RepairTask)
    ensures t.DataSyncRepairTask?
    ensures t.status.keyspace == keyspace && t.status.table == "" && t.status.parentId == NullTaskId
    ensures GetRepairUniqId(t).Uuid() == id.Uuid() && GetRepairUniqId(t).taskInfo.shard == shard
  {
    DataSyncRepairTask(ForwardedStatus(id, shard, keyspace, taskType, entity))
  }

  /** repair_task_impl::get_repair_uniq_id(): the identity rebuilt from the task status. */
  function GetRepairUniqId(t: RepairTask): (r: RepairUniqId)
    ensures IsInt32(r.id)
    ensures r.Uuid() == t.status.id && r.taskInfo.shard == t.status.shard
  {
    RepairUniqId(ToInt(t.status.sequenceNumber), TaskInfo(t.status.id, t.status.shard))
  }

  /**
    A task built from `id` hands back the same sequence number and task id;
    it is the same identity when the task is built on the shard that issued `id`.
   */
  lemma {:induction false} ForwardedIdentityRoundTrip(
    id: RepairUniqId, shard: nat, keyspace: string, taskType: string, entity: string)
    requires IsInt32(id.id)
    ensures var s := ForwardedStatus(id, shard, keyspace, taskType, entity);
      && ToInt(s.sequenceNumber) == id.id
      && s.id == id.Uuid()
      && s.table == "" && s.parentId == NullTaskId && s.progressUnits == "ranges"
  {
    IntRoundTrip(id.id);
  }

  lemma {:induction false} UserRequestedIdentityRoundTrip(
    id: RepairUniqId, shard: nat, keyspace: string, taskType: string, entity: string,
    cfs: seq<string>, hosts: seq<string>, dataCenters: seq<string>, ignoreNodes: set<InetAddress>)
    requires IsInt32(id.id)
    ensures var r := GetRepairUniqId(NewUserRequestedRepairTask(id, shard, keyspace, taskType, entity, cfs, hosts, dataCenters, ignoreNodes));
      && r.id == id.id && r.Uuid() == id.Uuid() && r.taskInfo.shard == shard
      && (shard == id.taskInfo.shard ==> r == id)
  {
    ForwardedIdentityRoundTrip(id, shard, keyspace, taskType, entity);
  }

  lemma {:induction false} DataSyncIdentityRoundTrip(
    id: RepairUniqId, shard: nat, keyspace: string, taskType: string, entity: string)
    requires IsInt32(id.id)
    ensures var r := GetRepairUniqId(NewDataSyncRepairTask(id, shard, keyspace, taskType, entity));
      && r.id == id.id && r.Uuid() == id.Uuid() && r.taskInfo.shard == shard
      && (shard == id.taskInfo.shard ==> r == id)
  {
    ForwardedIdentityRoundTrip(id, shard, keyspace, taskType, entity);
  }
}
