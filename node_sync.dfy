/** How deployment, provisioning, stop and reset reports change node rows:
    the per-node field copy of a deploy report (with its "failed or offline"
    rule), the per-node update of a provision report, the fold of a whole
    report over the table, and the bulk reset of stopped or reset nodes. */
module NodeSync {
  import opened Common
  import opened Entities
  import opened NodeTable

  /** One node entry of a deploy report. Each field is Some exactly when the
      entry carries that key. */
  datatype DeployNodeReport = DeployNodeReport(
    uid: nat,
    errorMsg: Option<string>,
    errorType: Option<string>,
    status: Option<string>,
    progress: Option<int>,
    online: Option<bool>)

  /** The fields a deploy report may set, in the order they are copied. */
  datatype UpdateField = ErrorMsgField | ErrorTypeField | StatusField | ProgressField | OnlineField

  const UpdateFields: seq<UpdateField> := [ErrorMsgField, ErrorTypeField, StatusField, ProgressField, OnlineField]

  predicate Present(r: DeployNodeReport, f: UpdateField) {
    match f
    case ErrorMsgField => r.errorMsg.Some?
    case ErrorTypeField => r.errorType.Some?
    case StatusField => r.status.Some?
    case ProgressField => r.progress.Some?
    case OnlineField => r.online.Some?
  }

  /** How many of the first `i` fields the entry carries. */
  function PresentCount(r: DeployNodeReport, i: nat): (c: nat)
    requires i <= |UpdateFields|
    ensures c <= i
  {
    if i == 0 then 0 else PresentCount(r, i - 1) + (if Present(r, UpdateFields[i - 1]) then 1 else 0)
  }

  /** The entry says the node is offline (`online is False`). */
  predicate GoesOffline(r: DeployNodeReport) {
    r.online == Some(false)
  }

  /** The entry reports an error together with a progress value. */
  predicate FailsWithProgress(r: DeployNodeReport) {
    r.status == Some("error") && r.progress.Some?
  }

  /** The node's error message after the copy, before the offline fill-in. */
  function CopiedErrorMsg(n: Node, r: DeployNodeReport): Option<string> {
    if r.errorMsg.Some? then r.errorMsg else n.errorMsg
  }

  /** A node after one deploy report entry: every field the entry carries is
      copied; a failed entry (error with progress) or an offline one forces
      progress 100, and an offline node with no error text gets
      "Node is offline". Nothing else about the node changes. */
  function SyncedNode(n: Node, r: DeployNodeReport): (n': Node)
    ensures n'.id == n.id && n'.name == n.name && n'.ip == n.ip && n'.clusterId == n.clusterId
    ensures n'.pendingAddition == n.pendingAddition && n'.pendingDeletion == n.pendingDeletion
    ensures n'.roles == n.roles && n'.pendingRoles == n.pendingRoles && n'.interfaces == n.interfaces
    ensures r.status.None? ==> n'.status == n.status
    ensures r.errorType.None? ==> n'.errorType == n.errorType
    ensures r.online.None? ==> n'.online == n.online
    ensures r.errorMsg.None? && !GoesOffline(r) ==> n'.errorMsg == n.errorMsg
    ensures r.progress.None? && !GoesOffline(r) ==> n'.progress == n.progress
    ensures GoesOffline(r) ==> n'.progress == 100 && Truthy(n'.errorMsg)
    ensures FailsWithProgress(r) ==> n'.progress == 100
  {
    var em := CopiedErrorMsg(n, r);
    n.(errorMsg := if GoesOffline(r) && !Truthy(em) then Some("Node is offline") else em,
       errorType := if r.errorType.Some? then r.errorType else n.errorType,
       status := r.status.GetOr(n.status),
       progress := if GoesOffline(r) || FailsWithProgress(r) then 100 else r.progress.GetOr(n.progress),
       online := r.online.GetOr(n.online))
  }

  /** What one deploy entry writes: every carried status, error type and
      online flag; a carried error text unless the entry is offline and the
      text empty, and "Node is offline" when an offline node is left with no
      text; a carried progress unless the failure rule forces 100. */
  lemma SyncedNodeWrites(n: Node, r: DeployNodeReport)
    ensures var n' := SyncedNode(n, r);
            && (r.status.Some? ==> n'.status == r.status.value)
            && (r.errorType.Some? ==> n'.errorType == r.errorType)
            && (r.online.Some? ==> n'.online == r.online.value)
            && (r.errorMsg.Some? && (!GoesOffline(r) || Truthy(r.errorMsg)) ==> n'.errorMsg == r.errorMsg)
            && (GoesOffline(r) && !Truthy(if r.errorMsg.Some? then r.errorMsg else n.errorMsg)
                ==> n'.errorMsg == Some("Node is offline"))
            && (!GoesOffline(r) && !FailsWithProgress(r) && r.progress.Some? ==> n'.progress == r.progress.value)
  {
  }

  /** The notice sent for a failed node. */
  function FailureNotice(n: Node, r: DeployNodeReport, clusterId: Option<nat>, uuid: string): Notification {
    FailureNoticeOf(SyncedNode(n, r), r.uid, clusterId, uuid)
  }

  /** How many failure notices one entry produces: the "failed or offline"
      test is made after each copied field, and its offline half does not
      depend on the field, so an offline entry produces one notice per field
      it carries; otherwise an error entry with progress produces one. */
  function FailureNoticeCount(r: DeployNodeReport): nat {
    if GoesOffline(r) then PresentCount(r, 5)
    else if FailsWithProgress(r) then 1
    else 0
  }

  function FailureNotices(n: Node, r: DeployNodeReport, clusterId: Option<nat>, uuid: string): seq<Notification> {
    seq(FailureNoticeCount(r), _ => FailureNotice(n, r, clusterId, uuid))
  }

  /** The node after the first `i` fields of the entry have been copied,
      each followed by the failure rule. */
  ghost function PartlySynced(n: Node, r: DeployNodeReport, i: nat): Node
    requires i <= |UpdateFields|
  {
    var em := if i > 0 then CopiedErrorMsg(n, r) else n.errorMsg;
    var offlineHit := GoesOffline(r) && PresentCount(r, i) > 0;
    n.(errorMsg := if offlineHit && !Truthy(em) then Some("Node is offline") else em,
       errorType := if i > 1 && r.errorType.Some? then r.errorType else n.errorType,
       status := if i > 2 && r.status.Some? then r.status.value else n.status,
       progress := if offlineHit || (FailsWithProgress(r) && i > 3) then 100
                   else if i > 3 && r.progress.Some? then r.progress.value
                   else n.progress,
       online := if i > 4 && r.online.Some? then r.online.value else n.online)
  }

  /** How many failure notices the first `i` fields produce. */
  ghost function NoticesSoFar(r: DeployNodeReport, i: nat): nat
    requires i <= |UpdateFields|
  {
    if GoesOffline(r) then PresentCount(r, i) else if FailsWithProgress(r) && i > 3 then 1 else 0
  }

  /** `setattr(node_db, f, entry[f])`. */
  function CopyField(m: Node, r: DeployNodeReport, f: UpdateField): Node
    requires Present(r, f)
  {
    match f
    case ErrorMsgField => m.(errorMsg := r.errorMsg)
    case ErrorTypeField => m.(errorType := r.errorType)
    case StatusField => m.(status := r.status.value)
    case ProgressField => m.(progress := r.progress.value)
    case OnlineField => m.(online := r.online.value)
  }

  /** The failure test made after copying field `f`. */
  predicate FailureAfter(r: DeployNodeReport, f: UpdateField) {
    (f == ProgressField && r.status == Some("error")) || r.online == Some(false)
  }

  /** The node after the failure rule: progress 100 and, offline, an error text. */
  function ForcedFailure(m: Node, r: DeployNodeReport): Node {
    var m1 := m.(progress := 100);
    if r.online == Some(false) && !Truthy(m1.errorMsg) then m1.(errorMsg := Some("Node is offline")) else m1
  }

  /** One turn of the field loop, stated against the prefix states: copying
      field `i` (and applying the failure rule when it fires) moves from the
      state after `i` fields to the state after `i + 1`; the rule fires
      exactly when one more notice is due, and then the error text is
      already the final one. */
  ghost predicate StepMatches(n: Node, r: DeployNodeReport, i: nat)
    requires i < |UpdateFields|
  {
    var f := UpdateFields[i];
    var m := PartlySynced(n, r, i);
    && (!Present(r, f) ==> PartlySynced(n, r, i + 1) == m && NoticesSoFar(r, i + 1) == NoticesSoFar(r, i))
    && (Present(r, f) && !FailureAfter(r, f) ==>
          PartlySynced(n, r, i + 1) == CopyField(m, r, f) && NoticesSoFar(r, i + 1) == NoticesSoFar(r, i))
    && (Present(r, f) && FailureAfter(r, f) ==>
          && PartlySynced(n, r, i + 1) == ForcedFailure(CopyField(m, r, f), r)
          && NoticesSoFar(r, i + 1) == NoticesSoFar(r, i) + 1
          && PartlySynced(n, r, i + 1).errorMsg == SyncedNode(n, r).errorMsg)
  }

  lemma SyncStepErrorMsg(n: Node, r: DeployNodeReport)
    ensures StepMatches(n, r, 0)
  {
    assert UpdateFields[0] == ErrorMsgField;
  }

  lemma SyncStepErrorType(n: Node, r: DeployNodeReport)
    ensures StepMatches(n, r, 1)
  {
    assert UpdateFields[1] == ErrorTypeField;
  }

  lemma SyncStepStatus(n: Node, r: DeployNodeReport)
    ensures StepMatches(n, r, 2)
  {
    assert UpdateFields[2] == StatusField;
  }

  lemma SyncStepProgress(n: Node, r: DeployNodeReport)
    ensures StepMatches(n, r, 3)
  {
    assert UpdateFields[3] == ProgressField;
  }

  lemma SyncStepOnline(n: Node, r: DeployNodeReport)
    ensures StepMatches(n, r, 4)
  {
    assert UpdateFields[4] == OnlineField;
  }

  lemma SyncStep(n: Node, r: DeployNodeReport, i: nat)
    requires i < |UpdateFields|
    ensures StepMatches(n, r, i)
  {
    if i == 0 {
      SyncStepErrorMsg(n, r);
    } else if i == 1 {
      SyncStepErrorType(n, r);
    } else if i == 2 {
      SyncStepStatus(n, r);
    } else if i == 3 {
      SyncStepProgress(n, r);
    } else {
      SyncStepOnline(n, r);
    }
  }

  /** The prefix state after all five fields is the synced node. */
  lemma SyncComplete(n: Node, r: DeployNodeReport)
    ensures PartlySynced(n, r, |UpdateFields|) == SyncedNode(n, r)
    ensures NoticesSoFar(r, |UpdateFields|) == FailureNoticeCount(r)
  {
    if GoesOffline(r) {
      assert PresentCount(r, 5) > 0 by {
        assert PresentCount(r, 5) >= (if Present(r, UpdateFields[4]) then 1 else 0);
      }
    }
  }

  /** The notice `deploy_resp` sends for a failed node, with the node's
      error text at that moment. */
  function FailureNoticeOf(m: Node, uid: nat, clusterId: Option<nat>, uuid: string): Notification {
    Notification(Error, Some("Failed to deploy node '" + m.name + "': " + (if Truthy(m.errorMsg) then m.errorMsg.value else "Unknown error")),
                 clusterId, Some(uid), Some(uuid))
  }

  /** Copy one deploy report entry onto its node, field by field, as
      `deploy_resp` does, collecting the failure notices. */
  method SyncNode(n: Node, r: DeployNodeReport, clusterId: Option<nat>, uuid: string)
    returns (n': Node, notices: seq<Notification>)
    ensures n' == SyncedNode(n, r)
    ensures notices == FailureNotices(n, r, clusterId, uuid)
  {
    n' := n;
    notices := [];
    ghost var notice := FailureNotice(n, r, clusterId, uuid);
    for i := 0 to |UpdateFields|
      invariant n' == PartlySynced(n, r, i)
      invariant notices == seq(NoticesSoFar(r, i), _ => notice)
    {
      SyncStep(n, r, i);
      var f := UpdateFields[i];
      if Present(r, f) {
        n' := CopyField(n', r, f);
        if (f == ProgressField && r.status == Some("error")) || r.online == Some(false) {
          n' := n'.(progress := 100);
          if r.online == Some(false) && !Truthy(n'.errorMsg) {
            n' := n'.(errorMsg := Some("Node is offline"));
          }
          notices := notices + [FailureNoticeOf(n', r.uid, clusterId, uuid)];
        }
      }
    }
    SyncComplete(n, r);
  }

  /** The table after one deploy entry; an unknown uid changes nothing. */
  function DeployStep(t: seq<Node>, r: DeployNodeReport): seq<Node> {
    match Find(t, r.uid)
    case None => t
    case Some(i) => t[i := SyncedNode(t[i], r)]
  }

  function DeployStepNotices(t: seq<Node>, r: DeployNodeReport, clusterId: Option<nat>, uuid: string): seq<Notification> {
    match Find(t, r.uid)
    case None => []
    case Some(i) => FailureNotices(t[i], r, clusterId, uuid)
  }

  /** The table after all entries of a deploy report, in report order. */
  function DeploySync(t: seq<Node>, rs: seq<DeployNodeReport>): (t': seq<Node>)
    ensures |t'| == |t| && forall j :: 0 <= j < |t| ==> t'[j].id == t[j].id
    decreases |rs|
  {
    if rs == [] then t else DeployStep(DeploySync(t, rs[..|rs| - 1]), rs[|rs| - 1])
  }

  /** The failure notices of all entries, in report order. */
  function DeploySyncNotices(t: seq<Node>, rs: seq<DeployNodeReport>, clusterId: Option<nat>, uuid: string): seq<Notification>
    decreases |rs|
  {
    if rs == [] then []
    else
      var front := rs[..|rs| - 1];
      DeploySyncNotices(t, front, clusterId, uuid)
      + DeployStepNotices(DeploySync(t, front), rs[|rs| - 1], clusterId, uuid)
  }

  /** Extending the handled prefix of a report by one entry is one more step. */
  lemma DeploySyncSnoc(t: seq<Node>, rs: seq<DeployNodeReport>, i: nat, clusterId: Option<nat>, uuid: string)
    requires i < |rs|
    ensures DeploySync(t, rs[..i + 1]) == DeployStep(DeploySync(t, rs[..i]), rs[i])
    ensures DeploySyncNotices(t, rs[..i + 1], clusterId, uuid)
            == DeploySyncNotices(t, rs[..i], clusterId, uuid) + DeployStepNotices(DeploySync(t, rs[..i]), rs[i], clusterId, uuid)
  {
    assert rs[..i + 1][..i] == rs[..i];
  }

  /** The node loop of `deploy_resp` on the table: sync each entry onto the
      row with its uid (unknown uids are skipped), collecting the failure
      notices in report order. */
  method SyncReported(t: seq<Node>, rs: seq<DeployNodeReport>, clusterId: Option<nat>, uuid: string)
    returns (t': seq<Node>, notices: seq<Notification>)
    requires Sorted(t)
    ensures Sorted(t')
    ensures t' == DeploySync(t, rs)
    ensures notices == DeploySyncNotices(t, rs, clusterId, uuid)
  {
    t' := t;
    notices := [];
    for i := 0 to |rs|
      invariant t' == DeploySync(t, rs[..i]) && Sorted(t')
      invariant notices == DeploySyncNotices(t, rs[..i], clusterId, uuid)
    {
      DeploySyncSnoc(t, rs, i, clusterId, uuid);
      var found := Find(t', rs[i].uid);
      if found.Some? {
        var j := found.value;
        var synced, ns := SyncNode(t'[j], rs[i], clusterId, uuid);
        SortedUpdate(t', j, synced);
        t' := t'[j := synced];
        notices := notices + ns;
      }
    }
    assert rs[..|rs|] == rs;
  }

  /** A node after every entry of the report that names it, in report order. */
  function RowSync(n: Node, rs: seq<DeployNodeReport>): (n': Node)
    ensures n'.id == n.id && n'.name == n.name && n'.ip == n.ip && n'.clusterId == n.clusterId
    ensures n'.pendingAddition == n.pendingAddition && n'.pendingDeletion == n.pendingDeletion
    ensures n'.roles == n.roles && n'.pendingRoles == n.pendingRoles && n'.interfaces == n.interfaces
    decreases |rs|
  {
    if rs == [] then n
    else
      var m := RowSync(n, rs[..|rs| - 1]);
      if rs[|rs| - 1].uid == n.id then SyncedNode(m, rs[|rs| - 1]) else m
  }

  /** One entry changes only the row with its uid, and that row as
      `SyncedNode` says; an unknown uid changes nothing. */
  lemma DeployStepRows(t: seq<Node>, r: DeployNodeReport)
    requires Sorted(t)
    ensures |DeployStep(t, r)| == |t|
    ensures forall j :: 0 <= j < |t| ==>
              DeployStep(t, r)[j] == if t[j].id == r.uid then SyncedNode(t[j], r) else t[j]
  {
    match Find(t, r.uid) {
      case None =>
        forall j | 0 <= j < |t| ensures t[j].id != r.uid {
          assert t[j] in t;
        }
      case Some(i) =>
        forall j | 0 <= j < |t| && t[j].id == r.uid ensures j == i {
          FindAt(t, j);
        }
    }
  }

  /** The table after a deploy report is the table with each row synced
      against the entries that name it: rows keep their ids and order. */
  lemma {:induction false} DeploySyncRows(t: seq<Node>, rs: seq<DeployNodeReport>)
    requires Sorted(t)
    ensures |DeploySync(t, rs)| == |t| && Sorted(DeploySync(t, rs))
    ensures forall j :: 0 <= j < |t| ==> DeploySync(t, rs)[j] == RowSync(t[j], rs)
  {
    if rs != [] {
      var front := rs[..|rs| - 1];
      DeploySyncRows(t, front);
      DeployStepRows(DeploySync(t, front), rs[|rs| - 1]);
    }
  }

  /** A field that no entry for the node carries keeps its value (the error
      text and progress also need no offline entry); a node no entry names
      is unchanged. */
  lemma {:induction false} RowSyncUntouched(n: Node, rs: seq<DeployNodeReport>)
    ensures (forall k :: 0 <= k < |rs| ==> rs[k].uid != n.id) ==> RowSync(n, rs) == n
    ensures (forall k :: 0 <= k < |rs| && rs[k].uid == n.id ==> rs[k].status.None?)
            ==> RowSync(n, rs).status == n.status
    ensures (forall k :: 0 <= k < |rs| && rs[k].uid == n.id ==> rs[k].errorType.None?)
            ==> RowSync(n, rs).errorType == n.errorType
    ensures (forall k :: 0 <= k < |rs| && rs[k].uid == n.id ==> rs[k].online.None?)
            ==> RowSync(n, rs).online == n.online
    ensures (forall k :: 0 <= k < |rs| && rs[k].uid == n.id ==> rs[k].errorMsg.None? && !GoesOffline(rs[k]))
            ==> RowSync(n, rs).errorMsg == n.errorMsg
    ensures (forall k :: 0 <= k < |rs| && rs[k].uid == n.id ==> rs[k].progress.None? && !GoesOffline(rs[k]))
            ==> RowSync(n, rs).progress == n.progress
  {
    if rs != [] {
      var front := rs[..|rs| - 1];
      assert forall k :: 0 <= k < |front| ==> front[k] == rs[k];
      RowSyncUntouched(n, front);
    }
  }

  /** The node's last entry decides its final status, error type, online
      flag and (unless it is an offline entry with no text) error text; when
      that entry is failed or offline, progress ends at 100, and offline also
      leaves a non-empty error text. */
  lemma {:induction false} RowSyncLast(n: Node, rs: seq<DeployNodeReport>, k: nat)
    requires k < |rs| && rs[k].uid == n.id
    requires forall k' :: k < k' < |rs| ==> rs[k'].uid != n.id
    ensures rs[k].status.Some? ==> RowSync(n, rs).status == rs[k].status.value
    ensures rs[k].errorType.Some? ==> RowSync(n, rs).errorType == rs[k].errorType
    ensures rs[k].online.Some? ==> RowSync(n, rs).online == rs[k].online.value
    ensures rs[k].errorMsg.Some? && (!GoesOffline(rs[k]) || Truthy(rs[k].errorMsg))
            ==> RowSync(n, rs).errorMsg == rs[k].errorMsg
    ensures GoesOffline(rs[k]) ==> RowSync(n, rs).progress == 100 && Truthy(RowSync(n, rs).errorMsg)
    ensures FailsWithProgress(rs[k]) ==> RowSync(n, rs).progress == 100
  {
    var front := rs[..|rs| - 1];
    if k < |rs| - 1 {
      assert forall k' :: 0 <= k' < |front| ==> front[k'] == rs[k'];
      RowSyncLast(n, front, k);
    } else {
      SyncedNodeWrites(RowSync(n, front), rs[k]);
    }
  }

  /** Every failure notice of a deploy report is an error notice about the
      task and cluster, and there is none unless some entry is failed or
      offline. */
  lemma {:induction false} DeploySyncNoticesAreFailures(t: seq<Node>, rs: seq<DeployNodeReport>,
                                                        clusterId: Option<nat>, uuid: string)
    ensures forall x :: x in DeploySyncNotices(t, rs, clusterId, uuid) ==>
              x.topic == Error && x.clusterId == clusterId && x.taskUuid == Some(uuid) && x.nodeId.Some?
    ensures (forall k :: 0 <= k < |rs| ==> !GoesOffline(rs[k]) && !FailsWithProgress(rs[k]))
            ==> DeploySyncNotices(t, rs, clusterId, uuid) == []
  {
    if rs != [] {
      var front := rs[..|rs| - 1];
      assert forall k :: 0 <= k < |front| ==> front[k] == rs[k];
      DeploySyncNoticesAreFailures(t, front, clusterId, uuid);
    }
  }

  /** One node entry of a provision report. */
  datatype ProvisionNodeReport = ProvisionNodeReport(uid: nat, status: string, progress: int, errorMsg: Option<string>)

  /** A node after one provision entry: a failed entry marks the node as a
      provisioning error at 100% (with "Unknown error" when the entry has no
      error text); any other entry sets status and progress. */
  function ProvisionedNode(n: Node, r: ProvisionNodeReport): (n': Node)
    ensures n'.id == n.id && n'.name == n.name && n'.clusterId == n.clusterId && n'.roles == n.roles
    ensures r.status == "error" ==>
              && n'.status == "error" && n'.progress == 100 && n'.errorType == Some("provision")
              && n'.errorMsg == Some(if r.errorMsg.Some? then r.errorMsg.value else "Unknown error")
    ensures r.status != "error" ==>
              n'.status == r.status && n'.progress == r.progress
              && n'.errorType == n.errorType && n'.errorMsg == n.errorMsg
    // every field other than the four written ones is the node's own
    ensures n'.(status := n.status, progress := n.progress, errorType := n.errorType, errorMsg := n.errorMsg) == n
  {
    if r.status == "error" then
      n.(status := "error", progress := 100, errorType := Some("provision"),
         errorMsg := Some(r.errorMsg.GetOr("Unknown error")))
    else n.(status := r.status, progress := r.progress)
  }

  function ProvisionStep(t: seq<Node>, r: ProvisionNodeReport): seq<Node> {
    match Find(t, r.uid)
    case None => t
    case Some(i) => t[i := ProvisionedNode(t[i], r)]
  }

  /** The table after all entries of a provision report, in report order. */
  function ProvisionSync(t: seq<Node>, rs: seq<ProvisionNodeReport>): (t': seq<Node>)
    ensures |t'| == |t| && forall j :: 0 <= j < |t| ==> t'[j].id == t[j].id
    decreases |rs|
  {
    if rs == [] then t else ProvisionStep(ProvisionSync(t, rs[..|rs| - 1]), rs[|rs| - 1])
  }

  /** A node after every provision entry that names it, in report order. */
  function RowProvision(n: Node, rs: seq<ProvisionNodeReport>): (n': Node)
    ensures n'.id == n.id && n'.name == n.name && n'.clusterId == n.clusterId && n'.roles == n.roles
    ensures n'.(status := n.status, progress := n.progress, errorType := n.errorType, errorMsg := n.errorMsg) == n
    decreases |rs|
  {
    if rs == [] then n
    else
      var m := RowProvision(n, rs[..|rs| - 1]);
      if rs[|rs| - 1].uid == n.id then ProvisionedNode(m, rs[|rs| - 1]) else m
  }

  lemma ProvisionStepRows(t: seq<Node>, r: ProvisionNodeReport)
    requires Sorted(t)
    ensures |ProvisionStep(t, r)| == |t|
    ensures forall j :: 0 <= j < |t| ==>
              ProvisionStep(t, r)[j] == if t[j].id == r.uid then ProvisionedNode(t[j], r) else t[j]
  {
    match Find(t, r.uid) {
      case None =>
        forall j | 0 <= j < |t| ensures t[j].id != r.uid {
          assert t[j] in t;
        }
      case Some(i) =>
        forall j | 0 <= j < |t| && t[j].id == r.uid ensures j == i {
          FindAt(t, j);
        }
    }
  }

  /** The table after a provision report is the table with each row updated
      by the entries that name it: rows keep their ids and order. */
  lemma {:induction false} ProvisionSyncRows(t: seq<Node>, rs: seq<ProvisionNodeReport>)
    requires Sorted(t)
    ensures |ProvisionSync(t, rs)| == |t| && Sorted(ProvisionSync(t, rs))
    ensures forall j :: 0 <= j < |t| ==> ProvisionSync(t, rs)[j] == RowProvision(t[j], rs)
  {
    if rs != [] {
      var front := rs[..|rs| - 1];
      ProvisionSyncRows(t, front);
      ProvisionStepRows(ProvisionSync(t, front), rs[|rs| - 1]);
    }
  }

  /** A node no provision entry names is unchanged. */
  lemma {:induction false} RowProvisionUntouched(n: Node, rs: seq<ProvisionNodeReport>)
    requires forall k :: 0 <= k < |rs| ==> rs[k].uid != n.id
    ensures RowProvision(n, rs) == n
  {
    if rs != [] {
      var front := rs[..|rs| - 1];
      assert forall k :: 0 <= k < |front| ==> front[k] == rs[k];
      RowProvisionUntouched(n, front);
    }
  }

  /** The node's last provision entry decides the outcome: a failed one
      leaves it in error at 100% with error type "provision", any other sets
      its status and progress. */
  lemma {:induction false} RowProvisionLast(n: Node, rs: seq<ProvisionNodeReport>, k: nat)
    requires k < |rs| && rs[k].uid == n.id
    requires forall k' :: k < k' < |rs| ==> rs[k'].uid != n.id
    ensures rs[k].status == "error" ==>
              && RowProvision(n, rs).status == "error" && RowProvision(n, rs).progress == 100
              && RowProvision(n, rs).errorType == Some("provision")
    ensures rs[k].status != "error" ==>
              RowProvision(n, rs).status == rs[k].status && RowProvision(n, rs).progress == rs[k].progress
  {
    if k < |rs| - 1 {
      var front := rs[..|rs| - 1];
      assert forall k' :: 0 <= k' < |front| ==> front[k'] == rs[k'];
      RowProvisionLast(n, front, k);
    }
  }

  /** A stopped or reset node: offline, back to discovery, pending addition,
      roles and pending roles swapped; a reset also clears pending deletion. */
  function ResetNode(n: Node, clearDeletion: bool): (n': Node)
    ensures !n'.online && n'.status == "discover" && n'.pendingAddition
    ensures n'.pendingDeletion == (!clearDeletion && n.pendingDeletion)
    ensures n'.roles == n.pendingRoles && n'.pendingRoles == n.roles
    // every field the reset does not write is the node's own
    ensures n'.(online := n.online, status := n.status, pendingAddition := n.pendingAddition,
                pendingDeletion := n.pendingDeletion, roles := n.roles, pendingRoles := n.pendingRoles) == n
  {
    n.(online := false, status := "discover", pendingAddition := true,
       pendingDeletion := if clearDeletion then false else n.pendingDeletion,
       roles := n.pendingRoles, pendingRoles := n.roles)
  }

  /** The node is named in the report and belongs to the cluster. */
  predicate ResetTarget(n: Node, uids: set<nat>, cid: nat) {
    n.id in uids && n.clusterId == Some(cid)
  }

  /** The table after the bulk reset of the reported nodes of one cluster. */
  function ResetReported(t: seq<Node>, uids: set<nat>, cid: nat, clearDeletion: bool): (t': seq<Node>)
    ensures |t'| == |t|
    ensures forall j :: 0 <= j < |t| && ResetTarget(t[j], uids, cid) ==>
              && !t'[j].online && t'[j].status == "discover" && t'[j].pendingAddition
              && t'[j].roles == t[j].pendingRoles && t'[j].pendingRoles == t[j].roles
              && t'[j].pendingDeletion == (!clearDeletion && t[j].pendingDeletion)
              && t'[j].id == t[j].id && t'[j].clusterId == t[j].clusterId
    ensures forall j :: 0 <= j < |t| && ResetTarget(t[j], uids, cid) ==> t'[j] == ResetNode(t[j], clearDeletion)
    ensures forall j :: 0 <= j < |t| && !ResetTarget(t[j], uids, cid) ==> t'[j] == t[j]
  {
    seq(|t|, j requires 0 <= j < |t| => if ResetTarget(t[j], uids, cid) then ResetNode(t[j], clearDeletion) else t[j])
  }

  /** The role swap undoes itself: resetting the same nodes twice gives
      back their original roles, so a repeated stop or reset report is not
      a no-op. */
  lemma ResetTwiceRestoresRoles(t: seq<Node>, uids: set<nat>, cid: nat, clearDeletion: bool)
    ensures var t2 := ResetReported(ResetReported(t, uids, cid, clearDeletion), uids, cid, clearDeletion);
            forall j :: 0 <= j < |t| ==> t2[j].roles == t[j].roles && t2[j].pendingRoles == t[j].pendingRoles
  {
    var t1 := ResetReported(t, uids, cid, clearDeletion);
    assert forall j :: 0 <= j < |t| ==> (ResetTarget(t1[j], uids, cid) <==> ResetTarget(t[j], uids, cid));
  }
}
