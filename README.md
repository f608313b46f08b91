# Nailgun report receiver, modelled in Dafny

Nailgun is the REST back end of the Fuel OpenStack installer. The
orchestrator that runs deployments sends it asynchronous status reports,
and `NailgunReceiver` in `nailgun/nailgun/rpc/receiver.py` handles them,
one class method per kind of report. Each handler reconciles a report into
the node, cluster, release and task records. It decides the final status and
message of the task, and it sends notifications to the user.

This project models every handler of that class over an in-memory store:

- `NailgunReceiver` (module `RpcReceiver`, `receiver.dfy`) holds the store:
  - the node table, a sequence kept in ascending id order. Several queries
    of the source (`_generate_error_message`, the controller lookup of
    `_success_action`, the silent nodes of `verify_networks_resp`) have no
    `order_by`, so the order of the nodes
    they list is a modelling choice;
  - clusters, releases and tasks, as maps;
  - the notifications sent and the calls made to the task updater, as
    sequences that grow.

  Each handler is a method that changes that state. Its `ensures` gives
  the whole new state in terms of the functions below.
- The logic the handlers share lives in pure modules:
  - `Removal`: the three loops of `remove_nodes_resp`, and its summary.
  - `NodeSync`: the per-field copy of a deploy report, the provision update,
    and the bulk reset of a stop or a reset.
  - `OutcomePolicy`: `_generate_error_message`, the failure and success
    messages, and the verdict of a deploy report.
  - `NetworkChecks`: the VLAN connectivity check and the DHCP probe.
  - `Releases`: the release and snapshot reports.

  Some loops are also written as methods proved against their
  specification functions:
  - the three loops of `remove_nodes_resp` (`Removal.DeleteUntilMissing`,
    `Removal.DeleteEach`, `Removal.MarkUntilMissing`);
  - the per-field and per-entry loops of `deploy_resp` (`NodeSync.SyncNode`,
    `NodeSync.SyncReported`);
  - the provision loop and the role swap of the reset, inside the methods
    `RpcReceiver.NailgunReceiver.ProvisionResp` and
    `RpcReceiver.NailgunReceiver.ResetNodes`.

  The loops of `verify_networks_resp` and `check_dhcp_resp` are recursive
  functions only (`NetworkChecks.InterfaceErrors`, `NetworkChecks.VlanErrors`,
  `NetworkChecks.RowConflicts`, `NetworkChecks.Conflicts`).
- `NodeTable`, `Entities` and `Common` hold the records and the lookups,
  and Python's `join`, `basename`, truthiness and `in` on strings.

The external task updater (`TaskHelper.update_task_status` and
`update_verify_networks`) is recorded as a `TaskUpdate`. Its effect on the
task is assumed to be `ApplyUpdate`: every argument that is not null is
written to the task. `remove_cluster_resp` reads the task back, so that
effect matters.

Behaviours of the code worth knowing, which the model follows:

- The `nodes` and `error_nodes` loops of `remove_nodes_resp` stop at the
  first uid that has no row (`break` at lines 61 and 80). They do not skip
  that uid and go on. `Removal.DeleteStopSpec` and `Removal.MarkStopSpec`
  state exactly where each loop stops.
- Stop and reset swap `roles` and `pending_roles`, and the swap undoes
  itself. So the same stop or reset report applied twice gives the nodes
  back their first roles (`NodeSync.ResetTwiceRestoresRoles`): such a
  report is not idempotent.
- `download_release_resp` replaces any error text with
  "<name> download and preparation has failed." before
  `_download_release_error` tests it against "Task aborted". That test
  therefore never holds on this path, and an aborted download is always
  announced (`Releases.DownloadFailureAlwaysAnnounced`).
- In `remove_cluster_resp`, the "Failed to delete nodes" message is built
  only when the task has no message. `remove_nodes_resp` has just given
  it a message that is never empty (`Removal.RemovalMessage`), so under the
  assumed updater the error notice always carries that message.

## Model

| member | source | states |
|---|---|---|
| Removal.DeleteStopSpec | nailgun/nailgun/rpc/receiver.py:54-62 | The deletion loop stops at the first uid that has no row or repeats an uid it already deleted; every uid before the stop had a row, and those uids are distinct. |
| Removal.MarkStopSpec | nailgun/nailgun/rpc/receiver.py:73-84 | The marking loop stops at the first uid that has no row; every uid before it has one. |
| Removal.DeleteLoopStep | nailgun/nailgun/rpc/receiver.py:54-62 | In one turn of the deletion loop, the uid still has a row exactly when the loop has not reached its stop, and deleting it extends the deleted prefix by one uid. |
| Removal.DeleteUntilMissing | nailgun/nailgun/rpc/receiver.py:54-62 | The deletion loop, run on a table, leaves the table without the rows of the uids before the stop. |
| Removal.WithoutSnoc | nailgun/nailgun/rpc/receiver.py:54-71 | Deleting the rows of a prefix of uids and then the next uid's row is deleting the rows of the longer prefix. |
| Removal.DeleteEach | nailgun/nailgun/rpc/receiver.py:64-71 | The `inaccessible_nodes` loop leaves the table without the row of any listed uid, and skips uids that have no row. |
| Removal.MarkLoopFinds | nailgun/nailgun/rpc/receiver.py:73-78 | The marking loop finds a row for the uid at position i exactly when i is before the stop. |
| Removal.MarkLoopStep | nailgun/nailgun/rpc/receiver.py:79-84 | Marking the row found for the next uid extends the marked prefix by one; the name written back is that node's name. |
| Removal.MarkLoopTurn | nailgun/nailgun/rpc/receiver.py:73-84 | One turn of the marking loop: the row is found exactly before the stop, and marking it and recording its name extend both prefixes by one. |
| Removal.MarkUntilMissing | nailgun/nailgun/rpc/receiver.py:73-84 | The marking loop sets every row of the uids before the stop to error and clears its pending deletion, and returns those nodes' names in report order. |
| Removal.MarkFailedKeepsIds | nailgun/nailgun/rpc/receiver.py:79-82 | Marking rows as failed changes no id, keeps the table's length and keeps it sorted. |
| Removal.RemovalMessage | nailgun/nailgun/rpc/receiver.py:87-103 | The task message is the report's error text when it has one; otherwise it is the removed summary and the failure summary joined by ". ". It is never empty. |
| Removal.RemoveNodesDeletes | nailgun/nailgun/rpc/receiver.py:54-84 | After the three loops the table is sorted. Its ids are the old ids minus the uids deleted before the stop and minus every inaccessible uid. Each uid before the stop had a row and has none now, and the stop is at a uid with no row or a repeated one. |
| Removal.RemoveNodesMarks | nailgun/nailgun/rpc/receiver.py:73-84 | Marking keeps the number of rows. Every error uid before the marking stop ends in a row with status error and no pending deletion. That row is `MarkedFailed` of the row at the same place after deletion, so nothing else in it changes. The uid at the stop has no row. |
| Removal.MarkedRowOf | nailgun/nailgun/rpc/receiver.py:73-84 | An error uid before the marking stop has a row after the three loops, at the place its row had after deletion, and that row is the old one marked as failed. |
| Removal.MarkedFailed | nailgun/nailgun/rpc/receiver.py:81-82 | A marked node is in error with no pending deletion; every other field is the node's own. |
| Removal.RemoveNodesKeepsOthers | nailgun/nailgun/rpc/receiver.py:54-84 | A row whose id no loop reaches is left exactly as it was. |
| Removal.RemovedTable | nailgun/nailgun/rpc/receiver.py:54-84 | After the three loops the ids are the old ids minus the uids deleted before the stop and minus every inaccessible uid; marking changes no id. |
| OutcomePolicy.FailedNodes | nailgun/nailgun/rpc/receiver.py:302-311 | Selects exactly the nodes that are in error or offline and whose error type is one of the given types. |
| OutcomePolicy.NodeLabel | nailgun/nailgun/rpc/receiver.py:312-316 | Each label starts with the node's name in quotes; in the names-only format it is exactly that quoted name. |
| OutcomePolicy.GenerateErrorMessage | nailgun/nailgun/rpc/receiver.py:300-324 | The message is either "Unknown error" or a list of labels that starts with a quoted node name. |
| OutcomePolicy.GenerateErrorMessageUnknown | nailgun/nailgun/rpc/receiver.py:300-324 | In both formats, the message is "Unknown error" exactly when no node of the cluster is failed for the given types. |
| OutcomePolicy.GenerateErrorMessageNamesFailed | nailgun/nailgun/rpc/receiver.py:300-324 | Every failed node of the cluster has its label in the message. |
| OutcomePolicy.DeploymentFailedMessage | nailgun/nailgun/rpc/receiver.py:327-336 | The failure message always starts with "Deployment has failed.". |
| OutcomePolicy.DeploymentFailedNamesNodes | nailgun/nailgun/rpc/receiver.py:330-336 | Without a supplied text, the failure message names every node of the cluster that failed to deploy or provision. |
| OutcomePolicy.FirstController | nailgun/nailgun/rpc/receiver.py:356-358 | Gives a controller node of the cluster when there is one, and None only when no node has the controller role. |
| OutcomePolicy.DashboardDoneMessage | nailgun/nailgun/rpc/receiver.py:402-410 | The HA success text extends the plain "is done" text and contains the dashboard URL. |
| OutcomePolicy.AddressesDoneMessage | nailgun/nailgun/rpc/receiver.py:373-381 | The success text extends the plain "is done" text and contains both the public and the internal address. |
| OutcomePolicy.DeploymentDoneMessage | nailgun/nailgun/rpc/receiver.py:353-424 | The success message always starts with "Deployment of environment '<name>' is done". In HA mode it is that plain text exactly when no dashboard URL was found, and otherwise it contains the URL. In any other mode it is the plain text exactly when the cluster has no controller or no public address was found, and otherwise it contains the public address up to its first '/' and the controller's own IP. |
| OutcomePolicy.ReadyWithNodeInErrorFails | nailgun/nailgun/rpc/receiver.py:346-351 | A ready deploy report for a cluster with a node in error becomes status error at progress 100, with one error notice carrying a "Deployment has failed." message. |
| OutcomePolicy.ReadyVerdictMeansAllNodesFine | nailgun/nailgun/rpc/receiver.py:346-431 | The verdict is ready exactly when the report is ready and no node of the cluster is in error; then exactly one done notice is sent. |
| OutcomePolicy.DeployVerdict | nailgun/nailgun/rpc/receiver.py:346-351 | The verdict keeps the report's status, except that a ready report may become error. An error verdict carries a "Deployment has failed." message and one error notice with it. A ready verdict carries a message starting with the done text and one done notice. Any other status passes through with no notice. |
| OutcomePolicy.InaccessibleMessageNamesNodes | nailgun/nailgun/rpc/receiver.py:598-617 | Every listed node of the cluster is named, quoted, in the warning. |
| OutcomePolicy.InaccessibleMessage | nailgun/nailgun/rpc/receiver.py:598-617 | The warning starts with "Fuel couldn't reach these nodes during <action>: " and ends with ". Manual check may be needed.". |
| NodeSync.SyncedNode | nailgun/nailgun/rpc/receiver.py:207-244 | A node after one deploy entry. Fields the entry does not carry keep their values, and identity, roles and pending flags are kept. An offline entry leaves progress at 100 and a non-empty error text. An error entry that carries progress leaves progress at 100. |
| NodeSync.SyncedNodeWrites | nailgun/nailgun/rpc/receiver.py:207-244 | What one entry writes. Every carried status, error type and online flag is written. A carried error text is written unless the entry is offline and the text empty. An offline node left with no text gets "Node is offline". A carried progress is written unless the failure rule forces 100. |
| NodeSync.SyncNode | nailgun/nailgun/rpc/receiver.py:207-244 | The field loop, one field after another with the failure test after each, yields `SyncedNode`. It sends one failure notice per carried field for an offline entry, one for an error entry with progress, and none otherwise. |
| NodeSync.SyncStep | nailgun/nailgun/rpc/receiver.py:218-244 | One field turn of the loop extends the partly synced node and the notices so far by that field. |
| NodeSync.SyncReported | nailgun/nailgun/rpc/receiver.py:196-244 | The node loop of a deploy report, run on a table, syncs each entry onto the row with its uid, skips unknown uids, keeps the table sorted, and collects the failure notices in report order. |
| NodeSync.DeployStepRows | nailgun/nailgun/rpc/receiver.py:196-205 | One entry changes only the row with its uid, as `SyncedNode` says; an unknown uid changes nothing. |
| NodeSync.DeploySyncRows | nailgun/nailgun/rpc/receiver.py:196-244 | After a whole report, every row keeps its place and id, and equals that node synced against the entries naming it, in report order. |
| NodeSync.DeploySync | nailgun/nailgun/rpc/receiver.py:196-244 | The table after a deploy report has the same length, and every row keeps its place and id. |
| NodeSync.RowSync | nailgun/nailgun/rpc/receiver.py:196-244 | Syncing against any number of entries keeps a node's id, name, address, cluster, roles, pending flags and interfaces. |
| NodeSync.RowSyncUntouched | nailgun/nailgun/rpc/receiver.py:213-222 | A field that no entry for the node carries keeps its value; error text and progress also need no offline entry. A node no entry names is unchanged. |
| NodeSync.RowSyncLast | nailgun/nailgun/rpc/receiver.py:213-244 | The node's last entry decides its final status, error type and online flag, and its error text unless that entry is offline with an empty text. When that entry is offline, or is an error that carries progress, progress ends at 100; offline also leaves an error text. |
| NodeSync.DeploySyncNoticesAreFailures | nailgun/nailgun/rpc/receiver.py:225-244 | Every notice of the node loop is an error about the task and its cluster naming a node, and there is none unless some entry is failed or offline. |
| NodeSync.ProvisionedNode | nailgun/nailgun/rpc/receiver.py:281-290 | A failed provision entry leaves the node in error at 100% with error type provision, and with the entry's error text or "Unknown error". Any other entry sets status and progress and keeps the error fields. No field other than status, progress, error type and error text changes. |
| NodeSync.ProvisionStepRows | nailgun/nailgun/rpc/receiver.py:274-290 | One provision entry changes only the row with its uid; an unknown uid changes nothing. |
| NodeSync.ProvisionSyncRows | nailgun/nailgun/rpc/receiver.py:274-292 | After a provision report, rows keep their place, ids and order, and each equals the node updated by the entries naming it. |
| NodeSync.ProvisionSync | nailgun/nailgun/rpc/receiver.py:274-292 | The table after a provision report has the same length, and every row keeps its place and id. |
| NodeSync.RowProvision | nailgun/nailgun/rpc/receiver.py:274-290 | Provision entries change only a node's status, progress, error type and error text; every other field, id, name, cluster and roles included, is kept. |
| NodeSync.RowProvisionUntouched | nailgun/nailgun/rpc/receiver.py:274-279 | A node that no provision entry names is unchanged. |
| NodeSync.RowProvisionLast | nailgun/nailgun/rpc/receiver.py:281-290 | The node's last provision entry decides its status and progress, with error, 100 and type provision for a failed one. |
| NodeSync.ResetReported | nailgun/nailgun/rpc/receiver.py:545-566 | Exactly the reported nodes of the cluster go offline, to status discover and pending addition, with roles and pending roles swapped. Pending deletion is cleared only on a reset. Each such row is `ResetNode` of the old one, and every other node is unchanged. |
| NodeSync.ResetNode | nailgun/nailgun/rpc/receiver.py:556-567 | A reset node is offline, in status discover and pending addition, with roles and pending roles swapped, and pending deletion cleared only when asked. Every field the reset does not write is the node's own. |
| NodeSync.ResetTwiceRestoresRoles | nailgun/nailgun/rpc/receiver.py:565-566 | Applying the same bulk reset twice gives every node back its original roles and pending roles. |
| NetworkChecks.AbsentNodeNames | nailgun/nailgun/rpc/receiver.py:647-656 | Names each silent node still in the table, in table order, by its name or `id: <id>`. |
| NetworkChecks.AbsentVlans | nailgun/nailgun/rpc/receiver.py:680-698 | The absent VLANs are the cached VLANs minus those received on the first report of the interface, or all cached VLANs when the interface was not reported. |
| NetworkChecks.NicMac | nailgun/nailgun/rpc/receiver.py:706-713 | Gives the MAC of an interface of the node with that name, and None only when the node has no such interface. |
| NetworkChecks.VlanRecord | nailgun/nailgun/rpc/receiver.py:700-727 | A record carries the uid, the interface and the absent VLANs. It has a name and a MAC exactly when the node is in the table. They are then the node's name and the MAC of its interface of that name, or "unknown" when it has none. |
| NetworkChecks.InterfaceErrors | nailgun/nailgun/rpc/receiver.py:678-729 | One record for exactly those cached interfaces of the node that missed some VLAN. |
| NetworkChecks.VlanErrors | nailgun/nailgun/rpc/receiver.py:664-729 | The records are exactly the records of the report's node entries. |
| NetworkChecks.VlanErrorSound | nailgun/nailgun/rpc/receiver.py:664-729 | Every VLAN error names a reported node that was in the launch cache and one of its cached interfaces, with exactly that interface's missed VLANs, which are not none. |
| NetworkChecks.VlanErrorComplete | nailgun/nailgun/rpc/receiver.py:664-729 | Every cached interface of a reported node that missed a VLAN has its record. |
| NetworkChecks.VerifyOutcome | nailgun/nailgun/rpc/receiver.py:736-744 | The result is a VLAN error list, and the status picks the updater: ready or error go to `update_verify_networks`. A report without `nodes` passes status and error text through with an empty result. |
| NetworkChecks.VerifyFindings | nailgun/nailgun/rpc/receiver.py:638-737 | The status is the report's or error, and error whenever there are VLAN errors. A given error text is never replaced, and a replaced text comes with status error. No `nodes` passes everything through; a malformed one fails with no result. |
| NetworkChecks.VerifySilentNodeFails | nailgun/nailgun/rpc/receiver.py:641-661 | If a node the check was launched on sent no entry, the check fails with no VLAN result. Without a given error text, the message names every silent node still in the table; with one, that text is kept. |
| NetworkChecks.VerifyReadyMeansConnected | nailgun/nailgun/rpc/receiver.py:641-744 | The check ends ready exactly when the report is ready, every launched node answered and every cached interface received all its VLANs; then the error text passes through and the result is empty. A non-empty VLAN result always means error. |
| NetworkChecks.VerifyMalformedFails | nailgun/nailgun/rpc/receiver.py:733-739 | A `nodes` value that is neither null nor a list fails the check, keeping a given error text or using the fixed one. |
| NetworkChecks.NodeConflicts | nailgun/nailgun/rpc/receiver.py:775-787 | A node entry yields conflicts only when it is ready and in the table; they are exactly its rows whose MAC differs from the admin MAC, with the node's name. |
| NetworkChecks.RowConflicts | nailgun/nailgun/rpc/receiver.py:777-781 | The conflicts of a row list are exactly its rows with a MAC other than the admin MAC. |
| NetworkChecks.Conflicts | nailgun/nailgun/rpc/receiver.py:775-787 | The conflicts of a report are exactly those of its entries. |
| NetworkChecks.ConflictMessages | nailgun/nailgun/rpc/receiver.py:782 | One message per conflict, in order. |
| NetworkChecks.GroupByNodeGroups | nailgun/nailgun/rpc/receiver.py:784 | A node has a group in the result exactly when it has a conflict, and its group is its conflicts in order. |
| NetworkChecks.DhcpOutcome | nailgun/nailgun/rpc/receiver.py:789-793 | The DHCP result always goes to `update_verify_networks`. Without conflicts, status and error text pass through. With conflicts, the status is error and the message is the conflict messages joined by newlines. |
| NetworkChecks.DhcpFailsIffForeignServer | nailgun/nailgun/rpc/receiver.py:775-793 | The probe ends in error exactly when the report said error or a ready node in the table saw a server whose MAC is not the admin MAC. |
| NetworkChecks.DhcpConflictReported | nailgun/nailgun/rpc/receiver.py:782-793 | Every conflict is a line of the message and is filed under its node in the result. |
| Releases.ReleaseFailureNotices | nailgun/nailgun/rpc/receiver.py:963-964 | A failure is announced exactly when its text is not "Task aborted". |
| Releases.CheckErrorText | nailgun/nailgun/rpc/receiver.py:822-824 | An error text that mentions "Unknown error" becomes the check's generic text (the credentials one here, the licenses one at lines 868-869); any other is kept. |
| Releases.CredentialsOutcome | nailgun/nailgun/rpc/receiver.py:818-840 | An error text fails the release and the task and is announced unless it is an abort. Without one, status and text pass through and nothing else changes. |
| Releases.LicensesOutcome | nailgun/nailgun/rpc/receiver.py:864-888 | As the credentials check; in addition, a non-empty `msg` is always announced as an error after the failure notice. |
| Releases.DownloadOutcome | nailgun/nailgun/rpc/receiver.py:911-934 | An error fails the release under the release's own failure text. Otherwise a ready report at 100% makes the release available and announces it. The release changes in no other case. |
| Releases.DownloadFailureAlwaysAnnounced | nailgun/nailgun/rpc/receiver.py:911-918 | A failed download is always announced, because its text is never "Task aborted". |
| Releases.DumpOutcomeOf | nailgun/nailgun/rpc/receiver.py:977-987 | An error is announced and ends the task at 100%. Ready announces the snapshot and points the task at a file directly under /dump/. Any other status does nothing. |
| Releases.DumpPathIsBasename | nailgun/nailgun/rpc/receiver.py:981-987 | The file under /dump/ is the last component of the reported path. |
| Common.NatToStringValue | nailgun/nailgun/rpc/receiver.py:98 | The decimal text of a number reads back as that number. |
| Common.Basename | nailgun/nailgun/rpc/receiver.py:981 | The basename has no '/', is a suffix of the path, and is preceded by a '/' when shorter than the path. |
| Common.BeforeSlash | nailgun/nailgun/rpc/receiver.py:371 | The part before the first '/' has no '/', is a prefix of the text, and is followed by a '/' when shorter than it. |
| NodeTable.Find | nailgun/nailgun/rpc/receiver.py:55 | Finds the row with the id, and finds none exactly when no row has it. |
| NodeTable.Without | nailgun/nailgun/rpc/receiver.py:54-71 | After deletion the rows are exactly those whose id is not deleted. |
| RpcReceiver.NailgunReceiver.DeleteReported | nailgun/nailgun/rpc/receiver.py:54-62 | Deletes the rows of the reported uids before the first missing one, keeps the table sorted, and changes nothing else. |
| RpcReceiver.NailgunReceiver.DeleteInaccessible | nailgun/nailgun/rpc/receiver.py:64-71 | Deletes the row of every inaccessible uid that has one, and changes nothing else. |
| RpcReceiver.NailgunReceiver.MarkErrorNodes | nailgun/nailgun/rpc/receiver.py:73-84 | Marks the error uids before the first missing one as failed and returns their names; changes nothing else. |
| RpcReceiver.NailgunReceiver.RemoveNodesResp | nailgun/nailgun/rpc/receiver.py:41-105 | The table becomes `RemovedTable`. The removed and failed summaries are announced when their lists are not empty. The updater gets the report's status and progress with `RemovalMessage`. Clusters and releases are untouched. |
| RpcReceiver.NailgunReceiver.RemoveClusterResp | nailgun/nailgun/rpc/receiver.py:108-155 | After the node removal, a task that is now ready deletes its cluster and announces it. One now in error marks the cluster as failed and announces the task's message. Any other status changes no cluster. |
| RpcReceiver.NailgunReceiver.SyncDeployedNodes | nailgun/nailgun/rpc/receiver.py:196-244 | The table becomes `DeploySync` of the report, and the failure notices are appended. |
| RpcReceiver.NailgunReceiver.ErrorAction | nailgun/nailgun/rpc/receiver.py:327-343 | Announces the failure message to the cluster and hands it to the updater with the given status and progress. |
| RpcReceiver.NailgunReceiver.SuccessAction | nailgun/nailgun/rpc/receiver.py:346-431 | Applies the deploy verdict for a ready report: failure when a node of the cluster is in error, otherwise the done message. |
| RpcReceiver.NailgunReceiver.DeployResp | nailgun/nailgun/rpc/receiver.py:158-258 | Syncs the nodes, takes the task's status when the report has none, takes the recalculated progress when there are nodes and no progress, and settles the task by `DeployVerdict`. |
| RpcReceiver.DeployErrorEntryNamedInFailure | nailgun/nailgun/rpc/receiver.py:207-223 | A node whose last deploy entry reports status error with error type deploy or provision is named, quoted, in the failure message built from the synced table. |
| RpcReceiver.NailgunReceiver.ProvisionResp | nailgun/nailgun/rpc/receiver.py:261-297 | The table becomes `ProvisionSync` of the report. The updater gets the report's status and error text, with the recalculated progress when there are nodes and no progress. |
| RpcReceiver.NailgunReceiver.ResetNodes | nailgun/nailgun/rpc/receiver.py:465-485 | The table becomes `ResetReported` and stays sorted; nothing else changes. |
| RpcReceiver.NailgunReceiver.NotifyInaccessible | nailgun/nailgun/rpc/receiver.py:598-617 | Sends one warning to the cluster with `InaccessibleMessage`. |
| RpcReceiver.NailgunReceiver.StopDeploymentResp | nailgun/nailgun/rpc/receiver.py:434-514 | On ready, the cluster is stopped and its deploy, deployment and provision tasks are deleted. The reported nodes of the cluster are reset, keeping pending deletion. A warning is sent when nodes were unreachable, and the stop is announced. Otherwise nodes and clusters are untouched. The updater always gets the report's status. |
| RpcReceiver.NailgunReceiver.ResetEnvironmentResp | nailgun/nailgun/rpc/receiver.py:517-595 | On ready, the cluster goes back to new and the reported nodes of the cluster are reset, clearing pending deletion. A warning is sent when nodes were unreachable, and the reset is announced. Otherwise nodes and clusters are untouched. |
| RpcReceiver.NailgunReceiver.VerifyNetworksResp | nailgun/nailgun/rpc/receiver.py:620-744 | Hands `VerifyOutcome`, computed against the launch cache, to the updater its status selects; nothing else changes. Only a node-list report needs the task. |
| RpcReceiver.NailgunReceiver.CheckDhcpResp | nailgun/nailgun/rpc/receiver.py:747-794 | Hands `DhcpOutcome` to `update_verify_networks`; nothing else changes. |
| RpcReceiver.NailgunReceiver.UpdateReleaseState | nailgun/nailgun/rpc/receiver.py:937-941 | Sets the release's state and changes nothing else. |
| RpcReceiver.NailgunReceiver.DownloadReleaseCompleted | nailgun/nailgun/rpc/receiver.py:944-951 | Makes the release available and announces the download by the release's name. |
| RpcReceiver.NailgunReceiver.DownloadReleaseError | nailgun/nailgun/rpc/receiver.py:954-964 | Fails the release and announces the message unless it is "Task aborted". |
| RpcReceiver.NailgunReceiver.ApplyReleaseOutcome | nailgun/nailgun/rpc/receiver.py:818-840 | Applies a release decision: the new release state if any, the notices, and one updater call carrying the release id. |
| RpcReceiver.NailgunReceiver.CheckRedhatCredentialsResp | nailgun/nailgun/rpc/receiver.py:798-840 | A report about a release that is gone changes nothing and makes no update; otherwise it applies `CredentialsOutcome`. |
| RpcReceiver.NailgunReceiver.RedhatCheckLicensesResp | nailgun/nailgun/rpc/receiver.py:843-888 | A report about a release that is gone changes nothing; otherwise it applies `LicensesOutcome`. |
| RpcReceiver.NailgunReceiver.DownloadReleaseResp | nailgun/nailgun/rpc/receiver.py:891-934 | A report about a release that is gone changes nothing; otherwise it applies `DownloadOutcome` for the release's name. |
| RpcReceiver.NailgunReceiver.DumpEnvironmentResp | nailgun/nailgun/rpc/receiver.py:967-987 | Sends the notices of `DumpOutcomeOf` and makes its updater call when it has one; nothing else changes. |

## Left out

- Logging, the `json.dumps` of each report and tracebacks are not modelled, because they are side output only.
- Database sessions (`commit`, `flush`, `add`, `yield_per`, `synchronize_session`) and the row locks of `deploy_resp` are not modelled. Each handler is one atomic step over the store, and concurrency is not modelled.
- Deleting a cluster in `remove_cluster_resp` removes it from the cluster map only. The deletion of its IP addresses and the database's cascades are not modelled.
- `objects.Cluster.add_pending_changes` in `reset_environment_resp` is not modelled, because pending changes are not part of the store.
- `TaskHelper.update_task_status` and `update_verify_networks` are outside this file. Their calls are recorded, and only the assumed effect `ApplyUpdate` is applied. Their recalculation of cluster status and their merge of results are not modelled.
- `recalculate_deployment_task_progress` and `recalculate_provisioning_task_progress` are outside this file. Their result is the parameter `recalculated`.
- The network-manager lookups `get_node_networks` and `get_horizon_url` are parameters (`NetworkLookups`). A failing HA lookup is `horizonUrl == None`, the exception path of lines 401-424.
- The admin network MAC from `settings.ADMIN_NETWORK` is the parameter `adminMac`.
- A handler that reads a field of its task, or reads `task.cluster`, raises in the source when the task or cluster is missing. The model states that the task or cluster exists as a precondition and does not model the exception. `verify_networks_resp` reads its task only for a node-list report (line 642), so only that case requires the task; any other report goes straight to the updater.
- Uids are numbers. Python's mix of string and integer uids is not modelled. In particular, `check_dhcp_resp` looks up string ids with the report's uid, and the model assumes these lookups match.
- A uid repeated in the `nodes` list is treated as having no row the second time, so the deletion loop stops there. This is a modelling choice: whether `query(Node).get` at line 55 finds a deleted row that was not flushed depends on the database session, not on this file.
- Removal.MarkedCount: the marking loop looks its uids up in the table left after the `nodes` and `inaccessible_nodes` loops. An `error_nodes` uid whose row those loops deleted therefore stops the marking loop as well. For example, with rows 1 and 2 and the report `nodes = [1]`, `error_nodes = [1, 2]`, `MarkedCount` is 0, so node 2 is never marked and the summary reads "ID: 1". If the session still returned the deleted row at line 74, the source would find row 1, mark it, use its name instead of "ID: 1", and go on to mark node 2. This is the same session-dependent choice as above.
- RpcReceiver.NailgunReceiver.VerifyNetworksResp: a node-list report requires the task's cache to be a network-check cache. The source reads `task.cache['args']['nodes']` at line 642 and raises when that key is missing; the exception is not modelled.
- RpcReceiver.NailgunReceiver.CheckRedhatCredentialsResp, RpcReceiver.NailgunReceiver.RedhatCheckLicensesResp and RpcReceiver.NailgunReceiver.DownloadReleaseResp: the task's cache is required to hold release information. The source reads `task.cache['args']['release_info']` at lines 810, 856 and 903 and raises when that key is missing; the exception is not modelled.
- Names that entries of `error_nodes` already carry in the report are not modelled. The failure summary uses the names the marking loop writes back, or `ID: <uid>`.
- NetworkChecks.VlanRecord: `absent_vlans` is a set. The source builds a list from a set difference, whose order the model does not give. When the interface was not reported, the source keeps the cached `vlans` list as it is (line 698), with its order and duplicates; the model keeps only its elements.
- NetworkChecks.AbsentNodeNames: names the silent nodes in table order, where the source's unordered query gives no order.
- NodeSync.ProvisionedNode: entries always carry a status and a progress. A provision entry without them, which would write null into the node, is not modelled. An `error_msg` key that is present with a null value is the same as one that is absent.
- NodeSync.SyncedNode: a deploy entry key that is present with a null value is treated as absent. The source's `setattr` at line 223 would write `None` onto the node; `DeployNodeReport` cannot express that.
- Releases.DumpOutcomeOf, and RpcReceiver.NailgunReceiver.DumpEnvironmentResp with it: a ready snapshot report is required to carry `msg`. With `msg` null, `os.path.basename(None)` at line 981 raises, and that exception is not modelled.
