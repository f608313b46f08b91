/** The outcome policy shared by the deployment handlers: which nodes an
    aggregate error message names and how it is formatted, the messages of
    a failed and of a finished deployment, the final verdict of a deploy
    report, and the warning about unreachable nodes. */
module OutcomePolicy {
  import opened Common
  import opened Entities
  import opened NodeTable

  /** A node counts as failed for `types` when it is in error or offline and
      its error type is one of `types` (a node with no error type never is). */
  predicate Failed(n: Node, types: set<string>) {
    (n.status == "error" || !n.online) && n.errorType.Some? && n.errorType.value in types
  }

  /** The failed nodes among `nodes`, in their order. */
  function FailedNodes(nodes: seq<Node>, types: set<string>): (r: seq<Node>)
    ensures forall n :: n in r <==> n in nodes && Failed(n, types)
  {
    if |nodes| == 0 then []
    else
      assert nodes == [nodes[0]] + nodes[1..];
      (if Failed(nodes[0], types) then [nodes[0]] else []) + FailedNodes(nodes[1..], types)
  }

  /** `"{0}".format(x)` of an optional text: None prints as "None". */
  function ShowText(s: Option<string>): string {
    match s
    case Some(v) => v
    case None => "None"
  }

  /** `'name'` or `'name': error message`. */
  function NodeLabel(n: Node, namesOnly: bool): (r: string)
    ensures "'" + n.name + "'" <= r
    ensures namesOnly ==> |r| == |n.name| + 2
  {
    if namesOnly then "'" + n.name + "'" else "'" + n.name + "': " + ShowText(n.errorMsg)
  }

  function NodeLabels(ns: seq<Node>, namesOnly: bool): (r: seq<string>)
    ensures |r| == |ns|
  {
    seq(|ns|, i requires 0 <= i < |ns| => NodeLabel(ns[i], namesOnly))
  }

  /** `_generate_error_message`: the labels of the cluster's failed nodes,
      joined by ", " (names only) or by newlines, or "Unknown error". */
  function GenerateErrorMessage(t: seq<Node>, cid: Option<nat>, types: set<string>, namesOnly: bool): (m: string)
    ensures m == "Unknown error" || "'" <= m
  {
    var selected := FailedNodes(ClusterNodes(t, cid), types);
    if |selected| == 0 then "Unknown error"
    else Join(if namesOnly then ", " else "\n", NodeLabels(selected, namesOnly))
  }

  /** The message is the fallback "Unknown error" exactly when no node of
      the cluster is failed for `types`, whichever format is asked for. */
  lemma GenerateErrorMessageUnknown(t: seq<Node>, cid: Option<nat>, types: set<string>, namesOnly: bool)
    ensures GenerateErrorMessage(t, cid, types, namesOnly) == "Unknown error"
            <==> forall n :: n in t && n.clusterId == cid ==> !Failed(n, types)
  {
    var selected := FailedNodes(ClusterNodes(t, cid), types);
    if |selected| > 0 {
      assert selected[0] in selected;
      var parts := NodeLabels(selected, namesOnly);
      var m := Join(if namesOnly then ", " else "\n", parts);
      assert parts[0] <= m;
      assert m[0] == '\'';
    }
  }

  /** Every failed node of the cluster is named in the message. */
  lemma GenerateErrorMessageNamesFailed(t: seq<Node>, cid: Option<nat>, types: set<string>, namesOnly: bool, n: Node)
    requires n in t && n.clusterId == cid && Failed(n, types)
    ensures Contains(GenerateErrorMessage(t, cid, types, namesOnly), NodeLabel(n, namesOnly))
  {
    var selected := FailedNodes(ClusterNodes(t, cid), types);
    assert n in selected;
    var i :| 0 <= i < |selected| && selected[i] == n;
    JoinContains(if namesOnly then ", " else "\n", NodeLabels(selected, namesOnly), i);
  }

  /** `_error_action`'s message: the supplied text, or the names of the
      cluster's nodes that failed to deploy or provision. */
  function DeploymentFailedMessage(t: seq<Node>, cid: Option<nat>, message: Option<string>): (m: string)
    ensures "Deployment has failed." <= m
  {
    if Truthy(message) then "Deployment has failed. " + message.value
    else "Deployment has failed. Check these nodes:\n"
         + GenerateErrorMessage(t, cid, {"deploy", "provision"}, true)
  }

  /** Without a supplied text, the failure message names every node of the
      cluster that failed to deploy or provision. */
  lemma DeploymentFailedNamesNodes(t: seq<Node>, cid: Option<nat>, n: Node)
    requires n in t && n.clusterId == cid && Failed(n, {"deploy", "provision"})
    ensures Contains(DeploymentFailedMessage(t, cid, None), "'" + n.name + "'")
  {
    GenerateErrorMessageNamesFailed(t, cid, {"deploy", "provision"}, true, n);
    ContainsAfter("Deployment has failed. Check these nodes:\n",
                  GenerateErrorMessage(t, cid, {"deploy", "provision"}, true), "'" + n.name + "'");
  }

  /** Foreign lookups a finished deployment's message depends on: the public
      address (with its prefix length) of the cluster's controller, and the
      dashboard URL of an HA cluster (None when the lookup fails). */
  datatype NetworkLookups = NetworkLookups(controllerPublicIp: Option<string>, horizonUrl: Option<string>)

  /** The first node holding the controller role, in table order. */
  function FirstController(ns: seq<Node>): (r: Option<Node>)
    ensures r.Some? ==> r.value in ns && "controller" in r.value.roles
    ensures r.None? ==> forall n :: n in ns ==> "controller" !in n.roles
  {
    if |ns| == 0 then None
    else if "controller" in ns[0].roles then Some(ns[0])
    else
      assert ns == [ns[0]] + ns[1..];
      FirstController(ns[1..])
  }

  function PlainDoneMessage(name: string): string {
    "Deployment of environment '" + name + "' is done"
  }

  /** The success text that points at the HA dashboard URL. */
  function DashboardDoneMessage(name: string, url: string): (m: string)
    ensures PlainDoneMessage(name) <= m && |m| > |PlainDoneMessage(name)|
    ensures Contains(m, url)
  {
    var pre := PlainDoneMessage(name) + ". Access the OpenStack dashboard (Horizon) at ";
    ContainsPrefix(url, url);
    ContainsAfter(pre, url, url);
    pre + url
  }

  /** The success text that points at the controller's public and internal addresses. */
  function AddressesDoneMessage(name: string, public: string, internal: string): (m: string)
    ensures PlainDoneMessage(name) <= m && |m| > |PlainDoneMessage(name)|
    ensures Contains(m, public) && Contains(m, internal)
  {
    var pre := PlainDoneMessage(name) + ". Access the OpenStack dashboard (Horizon) at http://";
    var mid := "/ or via internal network at http://";
    var tail := internal + "/";
    ContainsPrefix(public + mid + tail, public);
    ContainsAfter(pre, public + mid + tail, public);
    assert pre + (public + mid + tail) == pre + public + mid + tail;
    ContainsPrefix(tail, internal);
    ContainsAfter(pre + public + mid, tail, internal);
    pre + public + mid + tail
  }

  /** `_success_action`'s message. Without a controller, a public address
      or an HA dashboard URL it falls back to the plain "is done" text. */
  function DeploymentDoneMessage(t: seq<Node>, cid: nat, c: Cluster, lookups: NetworkLookups): (m: string)
    ensures PlainDoneMessage(c.name) <= m
    // HA: the dashboard URL is announced exactly when the lookup found one
    ensures c.mode.IsHa() ==> (m == PlainDoneMessage(c.name) <==> lookups.horizonUrl.None?)
    ensures c.mode.IsHa() && lookups.horizonUrl.Some? ==> Contains(m, lookups.horizonUrl.value)
    // otherwise: both addresses are announced unless the controller or its public address is missing
    ensures !c.mode.IsHa() ==>
              (m == PlainDoneMessage(c.name) <==>
                 FirstController(ClusterNodes(t, Some(cid))).None? || lookups.controllerPublicIp.None?)
    ensures !c.mode.IsHa() && FirstController(ClusterNodes(t, Some(cid))).Some? && lookups.controllerPublicIp.Some? ==>
              && Contains(m, BeforeSlash(lookups.controllerPublicIp.value))
              && Contains(m, FirstController(ClusterNodes(t, Some(cid))).value.ip)
  {
    if c.mode.IsHa() then
      match lookups.horizonUrl
      case Some(url) => DashboardDoneMessage(c.name, url)
      case None => PlainDoneMessage(c.name)
    else
      match FirstController(ClusterNodes(t, Some(cid)))
      case None => PlainDoneMessage(c.name)
      case Some(controller) =>
        match lookups.controllerPublicIp
        case Some(ip) => AddressesDoneMessage(c.name, BeforeSlash(ip), controller.ip)
        case None => PlainDoneMessage(c.name)
  }

  /** What a deploy report finally yields: the notifications, and the
      status, progress and message passed to the task updater. */
  datatype Verdict = Verdict(notices: seq<Notification>, status: string, progress: Option<int>, message: Option<string>)

  function FailedVerdict(t: seq<Node>, cid: nat, status: string, progress: Option<int>, message: Option<string>): Verdict {
    var m := DeploymentFailedMessage(t, Some(cid), message);
    Verdict([Notice(Error, m, Some(cid))], status, progress, Some(m))
  }

  /** Some node of the cluster is in error. */
  predicate AnyNodeInError(t: seq<Node>, cid: nat) {
    exists n | n in ClusterNodes(t, Some(cid)) :: n.status == "error"
  }

  /** The verdict of a deploy report with the given final status: an error
      goes through `_error_action`, "ready" through `_success_action` (which
      turns it into an error when some node of the cluster is in error), and
      anything else is passed on as it is. */
  function DeployVerdict(t: seq<Node>, cid: nat, c: Cluster, status: string, progress: Option<int>,
                         error: Option<string>, lookups: NetworkLookups): (v: Verdict)
    ensures v.status == status || (status == "ready" && v.status == "error")
    ensures v.status == "error" ==>
              && v.message.Some? && "Deployment has failed." <= v.message.value
              && v.notices == [Notice(Error, v.message.value, Some(cid))]
    ensures status == "error" ==> v.progress == progress
    ensures status == "ready" && v.status == "ready" ==>
              && v.progress == progress && v.message.Some? && PlainDoneMessage(c.name) <= v.message.value
              && v.notices == [Notice(Done, v.message.value, Some(cid))]
    ensures status != "error" && status != "ready" ==> v == Verdict([], status, progress, error)
  {
    if status == "error" then FailedVerdict(t, cid, status, progress, error)
    else if status == "ready" then
      if AnyNodeInError(t, cid) then FailedVerdict(t, cid, "error", Some(100), None)
      else
        var m := DeploymentDoneMessage(t, cid, c, lookups);
        Verdict([Notice(Done, m, Some(cid))], status, progress, Some(m))
    else Verdict([], status, progress, error)
  }

  /** A deployment is never reported ready while a node of its cluster is in
      error: the task gets status error, progress 100, and one error notice
      whose text is the failure message. */
  lemma ReadyWithNodeInErrorFails(t: seq<Node>, cid: nat, c: Cluster, progress: Option<int>,
                                  error: Option<string>, lookups: NetworkLookups, n: Node)
    requires n in t && n.clusterId == Some(cid) && n.status == "error"
    ensures var v := DeployVerdict(t, cid, c, "ready", progress, error, lookups);
            && v.status == "error" && v.progress == Some(100)
            && v.message.Some? && "Deployment has failed." <= v.message.value
            && v.notices == [Notice(Error, v.message.value, Some(cid))]
  {
    assert n in ClusterNodes(t, Some(cid));
  }

  /** A deploy verdict is "ready" only for a "ready" report on a cluster with
      no node in error, and then it carries one "done" notice. */
  lemma ReadyVerdictMeansAllNodesFine(t: seq<Node>, cid: nat, c: Cluster, status: string, progress: Option<int>,
                                      error: Option<string>, lookups: NetworkLookups)
    ensures var v := DeployVerdict(t, cid, c, status, progress, error, lookups);
            v.status == "ready" <==>
              status == "ready" && forall n :: n in t && n.clusterId == Some(cid) ==> n.status != "error"
    ensures var v := DeployVerdict(t, cid, c, status, progress, error, lookups);
            v.status == "ready" ==> |v.notices| == 1 && v.notices[0].topic == Done
  {
    if status == "ready" && !AnyNodeInError(t, cid) {
      forall n | n in t && n.clusterId == Some(cid) ensures n.status != "error" {
        assert n in ClusterNodes(t, Some(cid));
      }
    }
  }

  /** The quoted names of the given nodes. */
  function QuotedNames(ns: seq<Node>): (r: seq<string>)
    ensures |r| == |ns|
  {
    seq(|ns|, i requires 0 <= i < |ns| => "'" + ns[i].name + "'")
  }

  /** `_notify_inaccessible`'s warning: the names of the listed nodes that
      belong to the cluster, in id order. */
  function InaccessibleMessage(t: seq<Node>, cid: nat, uids: set<nat>, action: string): (m: string)
    ensures "Fuel couldn't reach these nodes during " + action + ": " <= m
    ensures |m| >= 29 && m[|m| - 29..] == ". Manual check may be needed."
  {
    "Fuel couldn't reach these nodes during " + action + ": "
    + Join(", ", QuotedNames(ClusterNodes(WithIds(t, uids), Some(cid))))
    + ". Manual check may be needed."
  }

  /** Every unreachable node of the cluster is named in the warning. */
  lemma InaccessibleMessageNamesNodes(t: seq<Node>, cid: nat, uids: set<nat>, action: string, n: Node)
    requires n in t && n.id in uids && n.clusterId == Some(cid)
    ensures Contains(InaccessibleMessage(t, cid, uids, action), "'" + n.name + "'")
  {
    var ns := ClusterNodes(WithIds(t, uids), Some(cid));
    assert n in ns;
    var i :| 0 <= i < |ns| && ns[i] == n;
    var names := QuotedNames(ns);
    JoinContains(", ", names, i);
    var head := "Fuel couldn't reach these nodes during " + action + ": ";
    var tail := ". Manual check may be needed.";
    ContainsBefore(Join(", ", names), tail, names[i]);
    ContainsAfter(head, Join(", ", names) + tail, names[i]);
    assert head + (Join(", ", names) + tail) == InaccessibleMessage(t, cid, uids, action);
  }
}
