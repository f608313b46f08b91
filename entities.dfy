/** The records the receiver reads and writes (nodes, clusters, releases,
    tasks) and the two kinds of output it produces: notifications for the
    user and calls to the task updater. */
module Entities {
  import opened Common

  /** A network interface of a node as the database records it. */
  datatype Nic = Nic(name: string, mac: string)

  /** A managed host. `status`, `errorType` and `errorMsg` are the fields the
      deployment reports overwrite; `roles`/`pendingRoles` are swapped when a
      deployment is stopped or an environment is reset. */
  datatype Node = Node(
    id: nat,
    name: string,
    ip: string,
    clusterId: Option<nat>,
    status: string,
    progress: int,
    online: bool,
    errorType: Option<string>,
    errorMsg: Option<string>,
    pendingAddition: bool,
    pendingDeletion: bool,
    roles: seq<string>,
    pendingRoles: seq<string>,
    interfaces: seq<Nic>)

  /** Deployment modes; HaCompact and HaFull are the high-availability ones. */
  datatype ClusterMode = SingleNode | MultiNode | HaCompact | HaFull {
    predicate IsHa() { HaCompact? || HaFull? }
  }

  datatype Cluster = Cluster(name: string, status: string, mode: ClusterMode)

  datatype Release = Release(name: string, state: string)

  /** One interface of a node and the VLANs it was asked to listen on, as
      cached when a network check was launched. */
  datatype CachedNetwork = CachedNetwork(iface: string, vlans: seq<int>)
  datatype CachedNode = CachedNode(uid: nat, networks: seq<CachedNetwork>)

  /** What the task cached of its launch arguments. */
  datatype TaskCache =
    | NoCache
    | NetworkCheckCache(nodes: seq<CachedNode>)
    | ReleaseCache(releaseId: nat)

  /** One interface of one node on which some VLANs did not arrive. `name`
      and `mac` are None when the node is no longer in the database. */
  datatype VlanError = VlanError(
    uid: nat, iface: string, absentVlans: set<int>, name: Option<string>, mac: Option<string>)

  /** One row of a DHCP probe: the answering server seen on an interface. */
  datatype DhcpRow = DhcpRow(iface: string, serverId: string, mac: string)

  /** A foreign DHCP server seen by a node, with the node's name attached. */
  datatype DhcpConflict = DhcpConflict(uid: nat, nodeName: string, row: DhcpRow)

  /** The structured result a handler hands to the task updater. */
  datatype TaskResult =
    | NetworkErrors(errors: seq<VlanError>)
    | DhcpResult(byNode: map<nat, seq<DhcpConflict>>)
    | ReleaseInfo(releaseId: nat)

  datatype Task = Task(
    name: string,
    clusterId: Option<nat>,
    status: string,
    progress: int,
    message: Option<string>,
    result: Option<TaskResult>,
    cache: TaskCache)

  datatype Topic = Done | Error | Warning

  datatype Notification = Notification(
    topic: Topic, message: Option<string>, clusterId: Option<nat>, nodeId: Option<nat>, taskUuid: Option<string>)

  /** A notification that names at most a cluster. */
  function Notice(topic: Topic, message: string, clusterId: Option<nat>): Notification {
    Notification(topic, Some(message), clusterId, None, None)
  }

  /** The two entry points of the external task updater. */
  datatype Updater = StatusUpdater | VerifyNetworksUpdater

  /** One call to the task updater; None stands for an argument passed as null. */
  datatype TaskUpdate = TaskUpdate(
    updater: Updater,
    uuid: string,
    status: Option<string>,
    progress: Option<int>,
    message: Option<string>,
    result: Option<TaskResult>)

  /** The effect the model assumes of the task updater on the task record:
      every argument that is not null is written to the task. */
  function Applied(t: Task, u: TaskUpdate): (r: Task)
    ensures u.status.Some? ==> r.status == u.status.value
    ensures u.status.None? ==> r.status == t.status
    ensures u.message.Some? ==> r.message == u.message
    ensures u.message.None? ==> r.message == t.message
    ensures r.name == t.name && r.clusterId == t.clusterId && r.cache == t.cache
  {
    t.(status := u.status.GetOr(t.status),
       progress := u.progress.GetOr(t.progress),
       message := if u.message.Some? then u.message else t.message,
       result := if u.result.Some? then u.result else t.result)
  }

  /** The task table after an update; an unknown uuid changes nothing. */
  function ApplyUpdate(tasks: map<string, Task>, u: TaskUpdate): map<string, Task> {
    if u.uuid in tasks then tasks[u.uuid := Applied(tasks[u.uuid], u)] else tasks
  }
}
