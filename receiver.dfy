/** The report receiver: one handler per kind of orchestrator report, each
    applying the report to the store (nodes, clusters, releases, tasks) and
    emitting notifications and task-updater calls. The store is the state
    of a `NailgunReceiver`; the node table is kept in ascending id order. */
module RpcReceiver {
  import opened Common
  import opened Entities
  import opened NodeTable
  import opened Removal
  import opened OutcomePolicy
  import opened NodeSync
  import opened NetworkChecks
  import opened Releases

  /** The tasks a stopped deployment leaves behind: the deployment and
      provisioning tasks of the cluster. */
  predicate IsStopTarget(t: Task, clusterId: Option<nat>) {
    t.clusterId == clusterId && t.name in {"deploy", "deployment", "provision"}
  }

  /** `cluster.name or cluster_id`. */
  function ClusterLabel(c: Cluster, cid: nat): string {
    if c.name != "" then c.name else NatToString(cid)
  }

  /** A node whose last deploy entry reports a deployment or provisioning
      error is named in the failure message the deploy report ends with. */
  lemma {:induction false} DeployErrorEntryNamedInFailure(t: seq<Node>, rs: seq<DeployNodeReport>, j: nat, k: nat)
    requires Sorted(t) && j < |t| && k < |rs| && rs[k].uid == t[j].id
    requires forall k' :: k < k' < |rs| ==> rs[k'].uid != t[j].id
    requires rs[k].status == Some("error") && rs[k].errorType.Some?
    requires rs[k].errorType.value == "deploy" || rs[k].errorType.value == "provision"
    ensures Contains(DeploymentFailedMessage(DeploySync(t, rs), t[j].clusterId, None), "'" + t[j].name + "'")
  {
    var t' := DeploySync(t, rs);
    DeploySyncRows(t, rs);
    RowSyncLast(t[j], rs, k);
    var n := t'[j];
    assert n in t';
    assert Failed(n, {"deploy", "provision"});
    DeploymentFailedNamesNodes(t', t[j].clusterId, n);
  }

  class NailgunReceiver {
    var nodes: seq<Node>
    var clusters: map<nat, Cluster>
    var releases: map<nat, Release>
    var tasks: map<string, Task>
    /** Notifications sent, oldest first. */
    var notifications: seq<Notification>
    /** Calls made to the task updater, oldest first. */
    var updates: seq<TaskUpdate>

    ghost predicate Valid()
      reads this
    {
      Sorted(nodes)
    }

    constructor(nodes: seq<Node>, clusters: map<nat, Cluster>, releases: map<nat, Release>, tasks: map<string, Task>)
      requires Sorted(nodes)
      ensures Valid()
      ensures this.nodes == nodes && this.clusters == clusters && this.releases == releases && this.tasks == tasks
      ensures notifications == [] && updates == []
    {
      this.nodes := nodes;
      this.clusters := clusters;
      this.releases := releases;
      this.tasks := tasks;
      notifications := [];
      updates := [];
    }

    /** `notifier.notify`. */
    method Notify(n: Notification)
      modifies this
      ensures notifications == old(notifications) + [n]
      ensures nodes == old(nodes) && clusters == old(clusters) && releases == old(releases)
      ensures tasks == old(tasks) && updates == old(updates)
    {
      notifications := notifications + [n];
    }

    /** A call to the task updater, recorded together with its assumed effect
        on the task record. */
    method UpdateTaskStatus(u: TaskUpdate)
      modifies this
      ensures updates == old(updates) + [u] && tasks == ApplyUpdate(old(tasks), u)
      ensures nodes == old(nodes) && clusters == old(clusters) && releases == old(releases)
      ensures notifications == old(notifications)
    {
      updates := updates + [u];
      tasks := ApplyUpdate(tasks, u);
    }

    /** The `nodes` loop of `remove_nodes_resp`: delete the reported nodes,
        stopping at the first uid with no row. */
    method DeleteReported(uids: seq<nat>)
      requires Valid()
      modifies this
      ensures Valid()
      ensures nodes == Without(old(nodes), Elems(uids[..DeleteStop(Ids(old(nodes)), uids)]))
      ensures clusters == old(clusters) && releases == old(releases) && tasks == old(tasks)
      ensures notifications == old(notifications) && updates == old(updates)
    {
      WithoutSorted(nodes, Elems(uids[..DeleteStop(Ids(nodes), uids)]));
      nodes := DeleteUntilMissing(nodes, uids);
    }

    /** The `inaccessible_nodes` loop: delete every listed node that has a row. */
    method DeleteInaccessible(uids: seq<nat>)
      requires Valid()
      modifies this
      ensures Valid()
      ensures nodes == Without(old(nodes), Elems(uids))
      ensures clusters == old(clusters) && releases == old(releases) && tasks == old(tasks)
      ensures notifications == old(notifications) && updates == old(updates)
    {
      WithoutSorted(nodes, Elems(uids));
      nodes := DeleteEach(nodes, uids);
    }

    /** The `error_nodes` loop: mark each listed node as failed and record
        its name, stopping at the first uid with no row. */
    method MarkErrorNodes(uids: seq<nat>) returns (names: seq<string>)
      requires Valid()
      modifies this
      ensures Valid()
      ensures var m := MarkStop(Ids(old(nodes)), uids);
              && nodes == MarkFailed(old(nodes), Elems(uids[..m]))
              && names == NamesOf(old(nodes), uids[..m])
      ensures clusters == old(clusters) && releases == old(releases) && tasks == old(tasks)
      ensures notifications == old(notifications) && updates == old(updates)
    {
      var t0 := nodes;
      nodes, names := MarkUntilMissing(nodes, uids);
      MarkFailedKeepsIds(t0, Elems(uids[..MarkStop(Ids(t0), uids)]));
    }

    /** `remove_nodes_resp`: apply the three loops, announce how many nodes
        were removed and which failed, and hand the summary (or the report's
        own error text) to the updater. */
    method RemoveNodesResp(uuid: string, r: RemovalReport)
      requires Valid()
      modifies this
      ensures Valid()
      ensures nodes == RemovedTable(old(nodes), r)
      ensures var labels := ErrorLabels(r.errorNodes, MarkedNames(old(nodes), r));
              var u := TaskUpdate(StatusUpdater, uuid, r.status, r.progress, Some(RemovalMessage(r, labels)), None);
              && notifications == old(notifications) + RemovalNotices(r, labels)
              && updates == old(updates) + [u] && tasks == ApplyUpdate(old(tasks), u)
      ensures clusters == old(clusters) && releases == old(releases)
    {
      ghost var t0 := nodes;
      DeleteReported(r.nodes);
      DeleteInaccessible(r.inaccessibleNodes);
      assert nodes == AfterDeletion(t0, r);
      var names := MarkErrorNodes(r.errorNodes);
      assert names == MarkedNames(t0, r) && nodes == RemovedTable(t0, r);
      var labels := ErrorLabels(r.errorNodes, names);
      if |r.nodes| > 0 {
        Notify(Notice(Done, RemovedSummary(|r.nodes|), None));
      }
      if |r.errorNodes| > 0 {
        Notify(Notice(Error, FailedSummary(labels), None));
      }
      UpdateTaskStatus(TaskUpdate(StatusUpdater, uuid, r.status, r.progress, Some(RemovalMessage(r, labels)), None));
    }

    /** `remove_cluster_resp`: remove the nodes as above; then a task that
        ended ready deletes its cluster and announces it, and one that ended
        in error marks the cluster as failed and announces the task message. */
    method RemoveClusterResp(uuid: string, r: RemovalReport)
      requires Valid() && uuid in tasks
      requires var st := r.status.GetOr(tasks[uuid].status);
               st == "ready" || st == "error" ==> tasks[uuid].clusterId.Some? && tasks[uuid].clusterId.value in clusters
      modifies this
      ensures Valid()
      ensures nodes == RemovedTable(old(nodes), r)
      ensures var labels := ErrorLabels(r.errorNodes, MarkedNames(old(nodes), r));
              var u := TaskUpdate(StatusUpdater, uuid, r.status, r.progress, Some(RemovalMessage(r, labels)), None);
              var task := Applied(old(tasks)[uuid], u);
              var cid := task.clusterId;
              && updates == old(updates) + [u] && tasks == old(tasks)[uuid := task] && releases == old(releases)
              && (task.status == "ready" ==>
                    && clusters == old(clusters) - {cid.value}
                    && notifications == old(notifications) + RemovalNotices(r, labels)
                       + [Notice(Done, "Environment '" + old(clusters)[cid.value].name + "' and all its nodes are deleted", None)])
              && (task.status == "error" ==>
                    && clusters == old(clusters)[cid.value := old(clusters)[cid.value].(status := "error")]
                    && notifications == old(notifications) + RemovalNotices(r, labels)
                       + [Notification(Error, task.message, cid, None, None)])
              && (task.status != "ready" && task.status != "error" ==>
                    clusters == old(clusters) && notifications == old(notifications) + RemovalNotices(r, labels))
    {
      RemoveNodesResp(uuid, r);
      var task := tasks[uuid];
      if task.status == "ready" {
        var cid := task.clusterId.value;
        var name := clusters[cid].name;
        clusters := clusters - {cid};
        Notify(Notice(Done, "Environment '" + name + "' and all its nodes are deleted", None));
      } else if task.status == "error" {
        var cid := task.clusterId.value;
        clusters := clusters[cid := clusters[cid].(status := "error")];
        var message := task.message;
        if !Truthy(message) {
          message := Some("Failed to delete nodes:\n" + GenerateErrorMessage(nodes, task.clusterId, {"deletion"}, false));
        }
        tasks := tasks[uuid := task.(message := message)];
        Notify(Notification(Error, message, Some(cid), None, None));
      }
    }

    /** The deploy report's node loop: sync each entry onto its node (unknown
        uids are skipped) and send the failure notices. */
    method SyncDeployedNodes(uuid: string, rs: seq<DeployNodeReport>, clusterId: Option<nat>)
      requires Valid()
      modifies this
      ensures Valid()
      ensures nodes == DeploySync(old(nodes), rs)
      ensures notifications == old(notifications) + DeploySyncNotices(old(nodes), rs, clusterId, uuid)
      ensures clusters == old(clusters) && releases == old(releases) && tasks == old(tasks) && updates == old(updates)
    {
      var synced, notices := SyncReported(nodes, rs, clusterId, uuid);
      nodes := synced;
      notifications := notifications + notices;
    }

    /** `_error_action`: announce and record the deployment failure. */
    method ErrorAction(uuid: string, cid: nat, status: string, progress: Option<int>, message: Option<string>)
      modifies this
      ensures var v := FailedVerdict(nodes, cid, status, progress, message);
              var u := TaskUpdate(StatusUpdater, uuid, Some(v.status), v.progress, v.message, None);
              notifications == old(notifications) + v.notices && updates == old(updates) + [u]
              && tasks == ApplyUpdate(old(tasks), u)
      ensures nodes == old(nodes) && clusters == old(clusters) && releases == old(releases)
    {
      var m := DeploymentFailedMessage(nodes, Some(cid), message);
      Notify(Notice(Error, m, Some(cid)));
      UpdateTaskStatus(TaskUpdate(StatusUpdater, uuid, Some(status), progress, Some(m), None));
    }

    /** `_success_action`: a cluster with a node in error fails instead;
        otherwise the deployment is announced as done. */
    method SuccessAction(uuid: string, cid: nat, status: string, progress: Option<int>, lookups: NetworkLookups)
      requires cid in clusters && status == "ready"
      modifies this
      ensures var v := DeployVerdict(nodes, cid, old(clusters)[cid], status, progress, None, lookups);
              var u := TaskUpdate(StatusUpdater, uuid, Some(v.status), v.progress, v.message, None);
              notifications == old(notifications) + v.notices && updates == old(updates) + [u]
              && tasks == ApplyUpdate(old(tasks), u)
      ensures nodes == old(nodes) && clusters == old(clusters) && releases == old(releases)
    {
      if exists n | n in ClusterNodes(nodes, Some(cid)) :: n.status == "error" {
        ErrorAction(uuid, cid, "error", Some(100), None);
        return;
      }
      var m := DeploymentDoneMessage(nodes, cid, clusters[cid], lookups);
      Notify(Notice(Done, m, Some(cid)));
      UpdateTaskStatus(TaskUpdate(StatusUpdater, uuid, Some(status), progress, Some(m), None));
    }

    /** `deploy_resp`: sync the reported nodes, fill in the status from the
        task and the progress from the recalculation when the report has
        none, and settle the task by the deploy verdict. */
    method DeployResp(uuid: string, rs: seq<DeployNodeReport>, error: Option<string>, status: Option<string>,
                      progress: Option<int>, recalculated: int, lookups: NetworkLookups)
      requires Valid() && uuid in tasks
      requires tasks[uuid].clusterId.Some? && tasks[uuid].clusterId.value in clusters
      modifies this
      ensures Valid()
      ensures nodes == DeploySync(old(nodes), rs)
      ensures var task := old(tasks)[uuid];
              var cid := task.clusterId.value;
              var st := if Truthy(status) then status.value else task.status;
              var p := if |rs| > 0 && !IntTruthy(progress) then Some(recalculated) else progress;
              var v := DeployVerdict(nodes, cid, old(clusters)[cid], st, p, error, lookups);
              var u := TaskUpdate(StatusUpdater, uuid, Some(v.status), v.progress, v.message, None);
              && notifications == old(notifications) + DeploySyncNotices(old(nodes), rs, task.clusterId, uuid) + v.notices
              && updates == old(updates) + [u] && tasks == ApplyUpdate(old(tasks), u)
      ensures clusters == old(clusters) && releases == old(releases)
    {
      var task := tasks[uuid];
      var cid := task.clusterId.value;
      var st := if Truthy(status) then status.value else task.status;
      SyncDeployedNodes(uuid, rs, task.clusterId);
      var p := progress;
      if |rs| > 0 && !IntTruthy(progress) {
        p := Some(recalculated);
      }
      ghost var v := DeployVerdict(nodes, cid, clusters[cid], st, p, error, lookups);
      if st == "error" {
        ErrorAction(uuid, cid, st, p, error);
      } else if st == "ready" {
        SuccessAction(uuid, cid, st, p, lookups);
      } else {
        UpdateTaskStatus(TaskUpdate(StatusUpdater, uuid, Some(st), p, error, None));
      }
    }

    /** `provision_resp`: update each reported node (unknown uids are
        skipped), then pass the report on, with the recalculated progress
        when the report has none. */
    method ProvisionResp(uuid: string, rs: seq<ProvisionNodeReport>, error: Option<string>, status: Option<string>,
                         progress: Option<int>, recalculated: int)
      requires Valid() && uuid in tasks
      modifies this
      ensures Valid()
      ensures nodes == ProvisionSync(old(nodes), rs)
      ensures var p := if |rs| > 0 && !IntTruthy(progress) then Some(recalculated) else progress;
              var u := TaskUpdate(StatusUpdater, uuid, status, p, error, None);
              updates == old(updates) + [u] && tasks == ApplyUpdate(old(tasks), u)
      ensures clusters == old(clusters) && releases == old(releases) && notifications == old(notifications)
    {
      ghost var t0 := nodes;
      for i := 0 to |rs|
        invariant nodes == ProvisionSync(t0, rs[..i]) && Sorted(nodes)
        invariant clusters == old(clusters) && releases == old(releases) && tasks == old(tasks)
        invariant notifications == old(notifications) && updates == old(updates)
      {
        assert rs[..i + 1][..i] == rs[..i];
        var found := Find(nodes, rs[i].uid);
        if found.Some? {
          var j := found.value;
          SortedUpdate(nodes, j, ProvisionedNode(nodes[j], rs[i]));
          nodes := nodes[j := ProvisionedNode(nodes[j], rs[i])];
        }
      }
      assert rs[..|rs|] == rs;
      var p := progress;
      if |rs| > 0 && !IntTruthy(progress) {
        p := Some(recalculated);
      }
      UpdateTaskStatus(TaskUpdate(StatusUpdater, uuid, status, p, error, None));
    }

    /** The bulk update of a stop or reset: every reported node of the
        cluster goes back to discovery, and its roles are swapped. */
    method ResetNodes(uids: set<nat>, cid: nat, clearDeletion: bool)
      requires Valid()
      modifies this
      ensures Valid()
      ensures nodes == ResetReported(old(nodes), uids, cid, clearDeletion)
      ensures clusters == old(clusters) && releases == old(releases) && tasks == old(tasks)
      ensures notifications == old(notifications) && updates == old(updates)
    {
      ghost var t0 := nodes;
      for j := 0 to |nodes|
        invariant |nodes| == |t0|
        invariant clusters == old(clusters) && releases == old(releases) && tasks == old(tasks)
        invariant notifications == old(notifications) && updates == old(updates)
        invariant forall x :: 0 <= x < j ==> nodes[x] == ResetReported(t0, uids, cid, clearDeletion)[x]
        invariant forall x :: j <= x < |t0| ==> nodes[x] == t0[x]
      {
        if nodes[j].id in uids && nodes[j].clusterId == Some(cid) {
          nodes := nodes[j := ResetNode(nodes[j], clearDeletion)];
        }
      }
      assert Sorted(nodes) by {
        forall a, b | 0 <= a < b < |nodes| ensures nodes[a].id < nodes[b].id {
          assert nodes[a].id == t0[a].id && nodes[b].id == t0[b].id;
        }
      }
    }

    /** `_notify_inaccessible`: warn about the listed nodes of the cluster. */
    method NotifyInaccessible(cid: nat, uids: seq<nat>, action: string)
      modifies this
      ensures notifications == old(notifications) + [Notice(Warning, InaccessibleMessage(nodes, cid, Elems(uids), action), Some(cid))]
      ensures nodes == old(nodes) && clusters == old(clusters) && releases == old(releases)
      ensures tasks == old(tasks) && updates == old(updates)
    {
      Notify(Notice(Warning, InaccessibleMessage(nodes, cid, Elems(uids), action), Some(cid)));
    }

    /** `stop_deployment_resp`: on ready, the cluster is stopped, its
        deployment and provisioning tasks are deleted, the reported nodes
        are reset (keeping their pending deletion), unreachable ones are
        warned about and the stop is announced; the updater always gets the
        report's status. */
    method StopDeploymentResp(uuid: string, nodeUids: seq<nat>, iaUids: seq<nat>, error: Option<string>,
                              status: Option<string>, progress: Option<int>)
      requires Valid() && uuid in tasks
      requires status == Some("ready") ==> tasks[uuid].clusterId.Some? && tasks[uuid].clusterId.value in clusters
      modifies this
      ensures Valid() && releases == old(releases)
      ensures var task := old(tasks)[uuid];
              status != Some("ready") ==>
                var u := TaskUpdate(StatusUpdater, uuid, status, progress, error, None);
                && nodes == old(nodes) && clusters == old(clusters) && notifications == old(notifications)
                && updates == old(updates) + [u] && tasks == ApplyUpdate(old(tasks), u)
      ensures var task := old(tasks)[uuid];
              status == Some("ready") ==>
                var cid := task.clusterId.value;
                var m := "Deployment of environment '" + ClusterLabel(old(clusters)[cid], cid) + "' was successfully stopped";
                var u := TaskUpdate(StatusUpdater, uuid, status, progress, Some(m), None);
                var kept := map id | id in old(tasks) && !IsStopTarget(old(tasks)[id], task.clusterId) :: old(tasks)[id];
                && clusters == old(clusters)[cid := old(clusters)[cid].(status := "stopped")]
                && nodes == ResetReported(old(nodes), Elems(nodeUids) + Elems(iaUids), cid, false)
                && notifications == old(notifications)
                   + (if |iaUids| > 0 then [Notice(Warning, InaccessibleMessage(nodes, cid, Elems(iaUids), "deployment stopping"), Some(cid))] else [])
                   + [Notice(Done, m, Some(cid))]
                && updates == old(updates) + [u] && tasks == ApplyUpdate(kept, u)
    {
      var task := tasks[uuid];
      var message := error;
      if status == Some("ready") {
        var cid := task.clusterId.value;
        clusters := clusters[cid := clusters[cid].(status := "stopped")];
        tasks := map id | id in tasks && !IsStopTarget(tasks[id], task.clusterId) :: tasks[id];
        ResetNodes(Elems(nodeUids) + Elems(iaUids), cid, false);
        if |iaUids| > 0 {
          NotifyInaccessible(cid, iaUids, "deployment stopping");
        }
        message := Some("Deployment of environment '" + ClusterLabel(clusters[cid], cid) + "' was successfully stopped");
        Notify(Notice(Done, message.value, Some(cid)));
      }
      UpdateTaskStatus(TaskUpdate(StatusUpdater, uuid, status, progress, message, None));
    }

    /** `reset_environment_resp`: on ready, the cluster goes back to new, the
        reported nodes are reset (clearing their pending deletion),
        unreachable ones are warned about and the reset is announced; the
        updater always gets the report's status. */
    method ResetEnvironmentResp(uuid: string, nodeUids: seq<nat>, iaUids: seq<nat>, error: Option<string>,
                                status: Option<string>, progress: Option<int>)
      requires Valid() && uuid in tasks
      requires status == Some("ready") ==> tasks[uuid].clusterId.Some? && tasks[uuid].clusterId.value in clusters
      modifies this
      ensures Valid() && releases == old(releases)
      ensures status != Some("ready") ==>
                var u := TaskUpdate(StatusUpdater, uuid, status, progress, error, None);
                && nodes == old(nodes) && clusters == old(clusters) && notifications == old(notifications)
                && updates == old(updates) + [u] && tasks == ApplyUpdate(old(tasks), u)
      ensures var task := old(tasks)[uuid];
              status == Some("ready") ==>
                var cid := task.clusterId.value;
                var m := "Environment '" + ClusterLabel(old(clusters)[cid], cid) + "' was successfully reset";
                var u := TaskUpdate(StatusUpdater, uuid, status, progress, Some(m), None);
                && clusters == old(clusters)[cid := old(clusters)[cid].(status := "new")]
                && nodes == ResetReported(old(nodes), Elems(nodeUids) + Elems(iaUids), cid, true)
                && notifications == old(notifications)
                   + (if |iaUids| > 0 then [Notice(Warning, InaccessibleMessage(nodes, cid, Elems(iaUids), "environment resetting"), Some(cid))] else [])
                   + [Notice(Done, m, Some(cid))]
                && updates == old(updates) + [u] && tasks == ApplyUpdate(old(tasks), u)
    {
      var task := tasks[uuid];
      var message := error;
      if status == Some("ready") {
        var cid := task.clusterId.value;
        clusters := clusters[cid := clusters[cid].(status := "new")];
        ResetNodes(Elems(nodeUids) + Elems(iaUids), cid, true);
        if |iaUids| > 0 {
          NotifyInaccessible(cid, iaUids, "environment resetting");
        }
        message := Some("Environment '" + ClusterLabel(clusters[cid], cid) + "' was successfully reset");
        Notify(Notice(Done, message.value, Some(cid)));
      }
      UpdateTaskStatus(TaskUpdate(StatusUpdater, uuid, status, progress, message, None));
    }

    /** `verify_networks_resp`: hand the connectivity verdict to the updater
        chosen by its status. */
    method VerifyNetworksResp(uuid: string, reported: NodesField, error: Option<string>,
                              status: Option<string>, progress: Option<int>)
      requires reported.NodeList? ==> uuid in tasks && tasks[uuid].cache.NetworkCheckCache?
      modifies this
      ensures var cached := if reported.NodeList? then old(tasks)[uuid].cache.nodes else [];
              var o := VerifyOutcome(nodes, cached, reported, error, status);
              var u := TaskUpdate(o.updater, uuid, o.status, progress, o.message, Some(o.result));
              updates == old(updates) + [u] && tasks == ApplyUpdate(old(tasks), u)
      ensures nodes == old(nodes) && clusters == old(clusters) && releases == old(releases)
      ensures notifications == old(notifications)
    {
      var cached := if reported.NodeList? then tasks[uuid].cache.nodes else [];
      var o := VerifyOutcome(nodes, cached, reported, error, status);
      UpdateTaskStatus(TaskUpdate(o.updater, uuid, o.status, progress, o.message, Some(o.result)));
    }

    /** `check_dhcp_resp`: hand the DHCP verdict to `update_verify_networks`. */
    method CheckDhcpResp(uuid: string, rs: seq<DhcpNodeReport>, adminMac: string, error: Option<string>,
                         status: Option<string>, progress: Option<int>)
      modifies this
      ensures var o := DhcpOutcome(nodes, rs, adminMac, error, status);
              var u := TaskUpdate(VerifyNetworksUpdater, uuid, o.status, progress, o.message, Some(o.result));
              updates == old(updates) + [u] && tasks == ApplyUpdate(old(tasks), u)
      ensures nodes == old(nodes) && clusters == old(clusters) && releases == old(releases)
      ensures notifications == old(notifications)
    {
      var o := DhcpOutcome(nodes, rs, adminMac, error, status);
      UpdateTaskStatus(TaskUpdate(VerifyNetworksUpdater, uuid, o.status, progress, o.message, Some(o.result)));
    }

    /** `_update_release_state`. */
    method UpdateReleaseState(rid: nat, state: string)
      requires rid in releases
      modifies this
      ensures releases == old(releases)[rid := old(releases)[rid].(state := state)]
      ensures nodes == old(nodes) && clusters == old(clusters) && tasks == old(tasks)
      ensures notifications == old(notifications) && updates == old(updates)
    {
      releases := releases[rid := releases[rid].(state := state)];
    }

    /** `_download_release_completed`: the release becomes available and is
        announced. */
    method DownloadReleaseCompleted(rid: nat)
      requires rid in releases
      modifies this
      ensures releases == old(releases)[rid := old(releases)[rid].(state := "available")]
      ensures notifications == old(notifications) + [Notice(Done, "Successfully downloaded " + old(releases)[rid].name, None)]
      ensures nodes == old(nodes) && clusters == old(clusters) && tasks == old(tasks) && updates == old(updates)
    {
      UpdateReleaseState(rid, "available");
      Notify(Notice(Done, "Successfully downloaded " + releases[rid].name, None));
    }

    /** `_download_release_error`: the release fails and the failure is
        announced unless it is an abort. */
    method DownloadReleaseError(rid: nat, message: string)
      requires rid in releases
      modifies this
      ensures releases == old(releases)[rid := old(releases)[rid].(state := "error")]
      ensures notifications == old(notifications) + ReleaseFailureNotices(message)
      ensures nodes == old(nodes) && clusters == old(clusters) && tasks == old(tasks) && updates == old(updates)
    {
      UpdateReleaseState(rid, "error");
      if message != "Task aborted" {
        Notify(Notice(Error, message, None));
      }
    }

    /** Apply a release decision: the release state, the notices, and the
        updater call carrying the release id. */
    method ApplyReleaseOutcome(uuid: string, rid: nat, o: ReleaseOutcome, progress: Option<int>)
      requires rid in releases
      modifies this
      ensures releases == (if o.newState.Some? then old(releases)[rid := old(releases)[rid].(state := o.newState.value)]
                           else old(releases))
      ensures var u := TaskUpdate(StatusUpdater, uuid, o.status, progress, o.message, Some(ReleaseInfo(rid)));
              && notifications == old(notifications) + o.notices
              && updates == old(updates) + [u] && tasks == ApplyUpdate(old(tasks), u)
      ensures nodes == old(nodes) && clusters == old(clusters)
    {
      if o.newState.Some? {
        UpdateReleaseState(rid, o.newState.value);
      }
      notifications := notifications + o.notices;
      UpdateTaskStatus(TaskUpdate(StatusUpdater, uuid, o.status, progress, o.message, Some(ReleaseInfo(rid))));
    }

    /** `check_redhat_credentials_resp`: a report about a release that is
        gone changes nothing. */
    method CheckRedhatCredentialsResp(uuid: string, error: Option<string>, status: Option<string>, progress: Option<int>)
      requires uuid in tasks && tasks[uuid].cache.ReleaseCache?
      modifies this
      ensures var rid := old(tasks)[uuid].cache.releaseId;
              rid !in old(releases) ==>
                && releases == old(releases) && tasks == old(tasks)
                && notifications == old(notifications) && updates == old(updates)
      ensures var rid := old(tasks)[uuid].cache.releaseId;
              var o := CredentialsOutcome(error, status);
              var u := TaskUpdate(StatusUpdater, uuid, o.status, progress, o.message, Some(ReleaseInfo(rid)));
              rid in old(releases) ==>
                && releases == (if o.newState.Some? then old(releases)[rid := old(releases)[rid].(state := o.newState.value)]
                                else old(releases))
                && notifications == old(notifications) + o.notices
                && updates == old(updates) + [u] && tasks == ApplyUpdate(old(tasks), u)
      ensures nodes == old(nodes) && clusters == old(clusters)
    {
      var rid := tasks[uuid].cache.releaseId;
      if rid !in releases {
        return;
      }
      ApplyReleaseOutcome(uuid, rid, CredentialsOutcome(error, status), progress);
    }

    /** `redhat_check_licenses_resp`: as the credentials check, with the
        report's extra message announced too. */
    method RedhatCheckLicensesResp(uuid: string, error: Option<string>, status: Option<string>,
                                   progress: Option<int>, msg: Option<string>)
      requires uuid in tasks && tasks[uuid].cache.ReleaseCache?
      modifies this
      ensures var rid := old(tasks)[uuid].cache.releaseId;
              rid !in old(releases) ==>
                && releases == old(releases) && tasks == old(tasks)
                && notifications == old(notifications) && updates == old(updates)
      ensures var rid := old(tasks)[uuid].cache.releaseId;
              var o := LicensesOutcome(error, status, msg);
              var u := TaskUpdate(StatusUpdater, uuid, o.status, progress, o.message, Some(ReleaseInfo(rid)));
              rid in old(releases) ==>
                && releases == (if o.newState.Some? then old(releases)[rid := old(releases)[rid].(state := o.newState.value)]
                                else old(releases))
                && notifications == old(notifications) + o.notices
                && updates == old(updates) + [u] && tasks == ApplyUpdate(old(tasks), u)
      ensures nodes == old(nodes) && clusters == old(clusters)
    {
      var rid := tasks[uuid].cache.releaseId;
      if rid !in releases {
        return;
      }
      ApplyReleaseOutcome(uuid, rid, LicensesOutcome(error, status, msg), progress);
    }

    /** `download_release_resp`: an error fails the release under its own
        failure text; 100% and ready completes it. */
    method DownloadReleaseResp(uuid: string, error: Option<string>, status: Option<string>, progress: Option<int>)
      requires uuid in tasks && tasks[uuid].cache.ReleaseCache?
      modifies this
      ensures var rid := old(tasks)[uuid].cache.releaseId;
              rid !in old(releases) ==>
                && releases == old(releases) && tasks == old(tasks)
                && notifications == old(notifications) && updates == old(updates)
      ensures var rid := old(tasks)[uuid].cache.releaseId;
              rid in old(releases) ==>
                var o := DownloadOutcome(old(releases)[rid].name, error, status, progress);
                var u := TaskUpdate(StatusUpdater, uuid, o.status, progress, o.message, Some(ReleaseInfo(rid)));
                && releases == (if o.newState.Some? then old(releases)[rid := old(releases)[rid].(state := o.newState.value)]
                                else old(releases))
                && notifications == old(notifications) + o.notices
                && updates == old(updates) + [u] && tasks == ApplyUpdate(old(tasks), u)
      ensures nodes == old(nodes) && clusters == old(clusters)
    {
      var rid := tasks[uuid].cache.releaseId;
      if rid !in releases {
        return;
      }
      var name := releases[rid].name;
      var st := status;
      var message := error;
      if Truthy(error) {
        st := Some("error");
        message := Some(DownloadFailedText(name));
        DownloadReleaseError(rid, message.value);
      } else if progress == Some(100) && status == Some("ready") {
        DownloadReleaseCompleted(rid);
      }
      UpdateTaskStatus(TaskUpdate(StatusUpdater, uuid, st, progress, message, Some(ReleaseInfo(rid))));
    }

    /** `dump_environment_resp`. */
    method DumpEnvironmentResp(uuid: string, status: Option<string>, progress: Option<int>,
                               error: Option<string>, msg: Option<string>)
      requires status == Some("ready") ==> msg.Some?
      modifies this
      ensures var o := DumpOutcomeOf(status, progress, error, msg);
              && notifications == old(notifications) + o.notices
              && (o.update.None? ==> updates == old(updates) && tasks == old(tasks))
              && (o.update.Some? ==>
                    var d := o.update.value;
                    var u := TaskUpdate(StatusUpdater, uuid, Some(d.status), d.progress, d.message, None);
                    updates == old(updates) + [u] && tasks == ApplyUpdate(old(tasks), u))
      ensures nodes == old(nodes) && clusters == old(clusters) && releases == old(releases)
    {
      if status == Some("error") {
        Notify(Notification(Error, error, None, None, None));
        UpdateTaskStatus(TaskUpdate(StatusUpdater, uuid, status, Some(100), error, None));
      } else if status == Some("ready") {
        var dumpfile := Basename(msg.value);
        Notify(Notice(Done, "Snapshot is ready. Visit Support page to download", None));
        UpdateTaskStatus(TaskUpdate(StatusUpdater, uuid, status, progress, Some("/dump/" + dumpfile), None));
      }
    }
  }
}
