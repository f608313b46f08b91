/** The two network checks: the VLAN connectivity check (which interfaces
    of which nodes missed which VLANs, and which nodes did not answer at
    all) and the DHCP probe (foreign DHCP servers seen by ready nodes). Both
    only compute the arguments of the final task update. */
module NetworkChecks {
  import opened Common
  import opened Entities
  import opened NodeTable

  /** One interface of a node report and the VLANs that arrived on it. */
  datatype ReceivedNetwork = ReceivedNetwork(iface: string, vlans: seq<int>)

  /** One node entry of a connectivity report. */
  datatype VerifyNodeReport = VerifyNodeReport(uid: nat, networks: seq<ReceivedNetwork>)

  /** The `nodes` argument: absent (or null), a list, or any other value. */
  datatype NodesField = NoNodes | NodeList(items: seq<VerifyNodeReport>) | Malformed

  function ReportUids(items: seq<VerifyNodeReport>): set<nat> {
    set i | i in items :: i.uid
  }

  function CachedUids(cached: seq<CachedNode>): set<nat> {
    set c | c in cached :: c.uid
  }

  /** The nodes the check was launched on that sent no entry. */
  function Forgotten(cached: seq<CachedNode>, items: seq<VerifyNodeReport>): set<nat> {
    CachedUids(cached) - ReportUids(items)
  }

  /** How a silent node is named: its name, or `id: <id>` when it has none. */
  function AbsentLabel(n: Node): string {
    if n.name != "" then n.name else "id: " + NatToString(n.id)
  }

  /** The labels of the silent nodes still in the table, in table order;
      silent uids with no row are not named. */
  function AbsentNodeNames(t: seq<Node>, forgotten: set<nat>): (r: seq<string>)
    ensures |r| == |WithIds(t, forgotten)|
    ensures forall i :: 0 <= i < |r| ==> r[i] == AbsentLabel(WithIds(t, forgotten)[i])
  {
    var ns := WithIds(t, forgotten);
    seq(|ns|, i requires 0 <= i < |ns| => AbsentLabel(ns[i]))
  }

  /** The first cached node with this uid. */
  function FindCached(cached: seq<CachedNode>, uid: nat): (r: Option<CachedNode>)
    ensures r.Some? ==> r.value in cached && r.value.uid == uid
    ensures r.None? <==> uid !in CachedUids(cached)
  {
    if |cached| == 0 then None
    else if cached[0].uid == uid then Some(cached[0])
    else
      assert cached == [cached[0]] + cached[1..];
      FindCached(cached[1..], uid)
  }

  /** The first received network on this interface. */
  function FindReceived(received: seq<ReceivedNetwork>, iface: string): (r: Option<ReceivedNetwork>)
    ensures r.Some? ==> r.value in received && r.value.iface == iface
    ensures r.None? ==> forall rn :: rn in received ==> rn.iface != iface
  {
    if |received| == 0 then None
    else if received[0].iface == iface then Some(received[0])
    else
      assert received == [received[0]] + received[1..];
      FindReceived(received[1..], iface)
  }

  /** The VLANs of a cached interface that did not arrive: those missing from
      the first report of that interface, or all of them when it was not
      reported at all. */
  function AbsentVlans(net: CachedNetwork, received: seq<ReceivedNetwork>): (a: set<int>)
    ensures forall v :: v in a ==> v in net.vlans
    ensures FindReceived(received, net.iface).None? ==> forall v :: v in net.vlans ==> v in a
    ensures FindReceived(received, net.iface).Some? ==>
              forall v :: v in a <==> v in net.vlans && v !in FindReceived(received, net.iface).value.vlans
  {
    match FindReceived(received, net.iface)
    case Some(rn) => (set v | v in net.vlans) - (set v | v in rn.vlans)
    case None => set v | v in net.vlans
  }

  /** The MAC of the node's first interface with this name. */
  function NicMac(nics: seq<Nic>, iface: string): (r: Option<string>)
    ensures r.Some? ==> exists nic :: nic in nics && nic.name == iface && nic.mac == r.value
    ensures r.None? ==> forall nic :: nic in nics ==> nic.name != iface
  {
    if |nics| == 0 then None
    else if nics[0].name == iface then Some(nics[0].mac)
    else
      assert nics == [nics[0]] + nics[1..];
      NicMac(nics[1..], iface)
  }

  /** The error record of one interface: the node's name and the MAC of the
      interface ("unknown" when the node has no such interface), both left
      out when the node is no longer in the table. */
  function VlanRecord(t: seq<Node>, uid: nat, net: CachedNetwork, absent: set<int>): (e: VlanError)
    ensures e.uid == uid && e.iface == net.iface && e.absentVlans == absent
    ensures uid in Ids(t) <==> e.name.Some?
    ensures e.name.Some? <==> e.mac.Some?
    ensures Get(t, uid).Some? ==>
              && e.name == Some(Get(t, uid).value.name)
              && e.mac == Some(NicMac(Get(t, uid).value.interfaces, net.iface).GetOr("unknown"))
  {
    match Get(t, uid)
    case None => VlanError(uid, net.iface, absent, None, None)
    case Some(n) => VlanError(uid, net.iface, absent, Some(n.name), Some(NicMac(n.interfaces, net.iface).GetOr("unknown")))
  }

  /** One record per cached interface of a node that missed some VLAN, in
      cache order. */
  function InterfaceErrors(t: seq<Node>, uid: nat, nets: seq<CachedNetwork>, received: seq<ReceivedNetwork>): (r: seq<VlanError>)
    ensures forall e :: e in r <==>
              exists net :: net in nets && AbsentVlans(net, received) != {}
                            && e == VlanRecord(t, uid, net, AbsentVlans(net, received))
  {
    if |nets| == 0 then []
    else
      assert nets == [nets[0]] + nets[1..];
      var a := AbsentVlans(nets[0], received);
      (if a != {} then [VlanRecord(t, uid, nets[0], a)] else []) + InterfaceErrors(t, uid, nets[1..], received)
  }

  /** The records of one node entry; an entry for a node the check was not
      launched on yields none. */
  function NodeVlanErrors(t: seq<Node>, cached: seq<CachedNode>, item: VerifyNodeReport): seq<VlanError> {
    match FindCached(cached, item.uid)
    case None => []
    case Some(c) => InterfaceErrors(t, item.uid, c.networks, item.networks)
  }

  /** The records of all entries, in report order. */
  function VlanErrors(t: seq<Node>, cached: seq<CachedNode>, items: seq<VerifyNodeReport>): (r: seq<VlanError>)
    ensures forall e :: e in r <==> exists item :: item in items && e in NodeVlanErrors(t, cached, item)
  {
    if |items| == 0 then []
    else
      assert items == [items[0]] + items[1..];
      NodeVlanErrors(t, cached, items[0]) + VlanErrors(t, cached, items[1..])
  }

  /** A VLAN error names a node entry that was in the launch cache, one of
      the cached interfaces of that node, and exactly the VLANs of that
      interface that did not arrive, which are not none. */
  lemma VlanErrorSound(t: seq<Node>, cached: seq<CachedNode>, items: seq<VerifyNodeReport>, e: VlanError)
    requires e in VlanErrors(t, cached, items)
    ensures exists item, net :: item in items && item.uid == e.uid
              && FindCached(cached, item.uid).Some? && net in FindCached(cached, item.uid).value.networks
              && net.iface == e.iface && e.absentVlans == AbsentVlans(net, item.networks) && e.absentVlans != {}
  {
    var item :| item in items && e in NodeVlanErrors(t, cached, item);
    var c := FindCached(cached, item.uid).value;
    var net :| net in c.networks && AbsentVlans(net, item.networks) != {}
               && e == VlanRecord(t, item.uid, net, AbsentVlans(net, item.networks));
  }

  /** Every cached interface of every reported node that missed a VLAN has
      its record. */
  lemma VlanErrorComplete(t: seq<Node>, cached: seq<CachedNode>, items: seq<VerifyNodeReport>,
                          item: VerifyNodeReport, net: CachedNetwork)
    requires item in items && FindCached(cached, item.uid).Some?
    requires net in FindCached(cached, item.uid).value.networks && AbsentVlans(net, item.networks) != {}
    ensures VlanRecord(t, item.uid, net, AbsentVlans(net, item.networks)) in VlanErrors(t, cached, items)
  {
  }

  /** What a connectivity report hands to the updater: which entry point,
      and the status, message and result. */
  datatype CheckOutcome = CheckOutcome(updater: Updater, status: Option<string>, message: Option<string>, result: TaskResult)

  /** The finished statuses go to `update_verify_networks`, the others to
      `update_task_status`. */
  function VerifyUpdater(status: Option<string>): Updater {
    if status == Some("ready") || status == Some("error") then VerifyNetworksUpdater else StatusUpdater
  }

  const MalformedNodesMessage: string := "verify_networks_resp: argument \"nodes\" have incorrect type"

  /** The status, message and result of a connectivity report, before the
      choice of updater. */
  function VerifyFindings(t: seq<Node>, cached: seq<CachedNode>, nodes: NodesField,
                          error: Option<string>, status: Option<string>): (f: (Option<string>, Option<string>, seq<VlanError>))
    ensures f.0 == status || f.0 == Some("error")
    ensures f.2 != [] ==> f.0 == Some("error")
    ensures Truthy(error) ==> f.1 == error
    ensures f.1 != error ==> f.0 == Some("error")
    ensures nodes.NoNodes? ==> f == (status, error, [])
    ensures nodes.Malformed? ==> f.0 == Some("error") && f.2 == []
  {
    match nodes
    case NoNodes => (status, error, [])
    case Malformed => (Some("error"), if Truthy(error) then error else Some(MalformedNodesMessage), [])
    case NodeList(items) =>
      var forgotten := Forgotten(cached, items);
      if forgotten != {} then
        (Some("error"),
         if Truthy(error) then error
         else Some("Node(s) " + Join(", ", AbsentNodeNames(t, forgotten)) + " didn't return data."),
         [])
      else
        var errs := VlanErrors(t, cached, items);
        if errs != [] then (Some("error"), error, errs) else (status, error, [])
  }

  /** `verify_networks_resp`'s update: silent nodes, a malformed node list or
      a missed VLAN turn the status into error; the VLAN errors are the
      result; the status decides the updater. */
  function VerifyOutcome(t: seq<Node>, cached: seq<CachedNode>, nodes: NodesField,
                         error: Option<string>, status: Option<string>): (o: CheckOutcome)
    ensures o.result.NetworkErrors?
    ensures o.updater == VerifyUpdater(o.status)
    ensures nodes.NoNodes? ==> o.status == status && o.message == error && o.result == NetworkErrors([])
  {
    var (st, msg, errs) := VerifyFindings(t, cached, nodes, error, status);
    CheckOutcome(VerifyUpdater(st), st, msg, NetworkErrors(errs))
  }

  /** A report in which some node the check was launched on is silent fails,
      with no VLAN result; unless the report gives its own error text, the
      message names every silent node still in the table. */
  lemma VerifySilentNodeFails(t: seq<Node>, cached: seq<CachedNode>, items: seq<VerifyNodeReport>,
                              error: Option<string>, status: Option<string>, n: Node)
    requires n in t && n.id in Forgotten(cached, items)
    ensures var o := VerifyOutcome(t, cached, NodeList(items), error, status);
            && o.status == Some("error") && o.updater == VerifyNetworksUpdater && o.result == NetworkErrors([])
            && (!Truthy(error) ==> o.message.Some? && Contains(o.message.value, AbsentLabel(n)))
    ensures var o := VerifyOutcome(t, cached, NodeList(items), error, status);
            Truthy(error) ==> o.message == error
  {
    var forgotten := Forgotten(cached, items);
    var ns := WithIds(t, forgotten);
    assert n in ns;
    var i :| 0 <= i < |ns| && ns[i] == n;
    var names := AbsentNodeNames(t, forgotten);
    JoinContains(", ", names, i);
    ContainsBefore(Join(", ", names), " didn't return data.", names[i]);
    ContainsAfter("Node(s) ", Join(", ", names) + " didn't return data.", names[i]);
    assert "Node(s) " + (Join(", ", names) + " didn't return data.")
           == "Node(s) " + Join(", ", names) + " didn't return data.";
  }

  /** A connectivity check ends ready exactly when the report is ready, every
      node it was launched on answered and every cached interface of every
      answering node received all its VLANs; and a non-empty list of VLAN
      errors is always reported as an error. */
  lemma VerifyReadyMeansConnected(t: seq<Node>, cached: seq<CachedNode>, items: seq<VerifyNodeReport>,
                                  error: Option<string>, status: Option<string>)
    ensures var o := VerifyOutcome(t, cached, NodeList(items), error, status);
            o.status == Some("ready") ==>
              && Forgotten(cached, items) == {}
              && forall item, net :: item in items && FindCached(cached, item.uid).Some?
                                     && net in FindCached(cached, item.uid).value.networks
                                     ==> AbsentVlans(net, item.networks) == {}
    ensures var o := VerifyOutcome(t, cached, NodeList(items), error, status);
            o.result != NetworkErrors([]) ==> o.status == Some("error")
    ensures var o := VerifyOutcome(t, cached, NodeList(items), error, status);
            && status == Some("ready") && Forgotten(cached, items) == {}
            && (forall item, net :: item in items && FindCached(cached, item.uid).Some?
                                    && net in FindCached(cached, item.uid).value.networks
                                    ==> AbsentVlans(net, item.networks) == {})
            ==> o.status == Some("ready") && o.message == error && o.result == NetworkErrors([])
  {
    var o := VerifyOutcome(t, cached, NodeList(items), error, status);
    var errs := VlanErrors(t, cached, items);
    if errs != [] {
      VlanErrorSound(t, cached, items, errs[0]);
    }
    if o.status == Some("ready") {
      forall item, net | item in items && FindCached(cached, item.uid).Some?
                         && net in FindCached(cached, item.uid).value.networks
        ensures AbsentVlans(net, item.networks) == {}
      {
        if AbsentVlans(net, item.networks) != {} {
          VlanErrorComplete(t, cached, items, item, net);
        }
      }
    }
  }

  /** A malformed node list always fails, keeping a given error text. */
  lemma VerifyMalformedFails(t: seq<Node>, cached: seq<CachedNode>, error: Option<string>, status: Option<string>)
    ensures var o := VerifyOutcome(t, cached, Malformed, error, status);
            && o.status == Some("error") && o.updater == VerifyNetworksUpdater
            && o.message == (if Truthy(error) then error else Some(MalformedNodesMessage))
  {
  }

  /** One node entry of a DHCP probe. */
  datatype DhcpNodeReport = DhcpNodeReport(uid: nat, status: string, data: seq<DhcpRow>)

  /** The conflicts of one entry: only a ready node that is in the table
      reports them, and a server with the master's own admin MAC is not one. */
  function NodeConflicts(t: seq<Node>, r: DhcpNodeReport, adminMac: string): (cs: seq<DhcpConflict>)
    ensures forall c :: c in cs <==>
              && r.status == "ready" && Get(t, r.uid).Some?
              && c.uid == r.uid && c.nodeName == Get(t, r.uid).value.name
              && c.row in r.data && c.row.mac != adminMac
  {
    if r.status != "ready" then []
    else
      match Get(t, r.uid)
      case None => []
      case Some(n) => RowConflicts(r.uid, n.name, r.data, adminMac)
  }

  function RowConflicts(uid: nat, name: string, rows: seq<DhcpRow>, adminMac: string): (cs: seq<DhcpConflict>)
    ensures forall c :: c in cs <==> c.uid == uid && c.nodeName == name && c.row in rows && c.row.mac != adminMac
  {
    if |rows| == 0 then []
    else
      assert rows == [rows[0]] + rows[1..];
      (if rows[0].mac != adminMac then [DhcpConflict(uid, name, rows[0])] else [])
      + RowConflicts(uid, name, rows[1..], adminMac)
  }

  /** The conflicts of all entries, in report order. */
  function Conflicts(t: seq<Node>, rs: seq<DhcpNodeReport>, adminMac: string): (cs: seq<DhcpConflict>)
    ensures forall c :: c in cs <==> exists r :: r in rs && c in NodeConflicts(t, r, adminMac)
  {
    if |rs| == 0 then []
    else
      assert rs == [rs[0]] + rs[1..];
      NodeConflicts(t, rs[0], adminMac) + Conflicts(t, rs[1..], adminMac)
  }

  function ConflictMessage(c: DhcpConflict): string {
    "Node " + c.nodeName + " discovered DHCP server via " + c.row.iface
    + " with following parameters: IP: " + c.row.serverId + ", MAC: " + c.row.mac
    + ". This server will conflict with the installation."
  }

  function ConflictMessages(cs: seq<DhcpConflict>): (ms: seq<string>)
    ensures |ms| == |cs| && forall i :: 0 <= i < |cs| ==> ms[i] == ConflictMessage(cs[i])
  {
    seq(|cs|, i requires 0 <= i < |cs| => ConflictMessage(cs[i]))
  }

  /** The conflicts of one node, in order. */
  function ConflictsOf(cs: seq<DhcpConflict>, uid: nat): seq<DhcpConflict>
    decreases |cs|
  {
    if cs == [] then []
    else ConflictsOf(cs[..|cs| - 1], uid) + (if cs[|cs| - 1].uid == uid then [cs[|cs| - 1]] else [])
  }

  /** The conflicts grouped by node, each group in order. */
  function GroupByNode(cs: seq<DhcpConflict>): map<nat, seq<DhcpConflict>>
    decreases |cs|
  {
    if cs == [] then map[]
    else
      var g := GroupByNode(cs[..|cs| - 1]);
      var c := cs[|cs| - 1];
      g[c.uid := (if c.uid in g then g[c.uid] else []) + [c]]
  }

  /** A node has a group exactly when it has a conflict, and its group is
      its conflicts in order. */
  lemma {:induction false} GroupByNodeGroups(cs: seq<DhcpConflict>)
    ensures forall uid :: uid in GroupByNode(cs) <==> exists c :: c in cs && c.uid == uid
    ensures forall uid :: uid in GroupByNode(cs) ==> GroupByNode(cs)[uid] == ConflictsOf(cs, uid)
  {
    if cs != [] {
      var front := cs[..|cs| - 1];
      GroupByNodeGroups(front);
      assert cs == front + [cs[|cs| - 1]];
      forall uid | uid !in GroupByNode(front) ensures ConflictsOf(front, uid) == [] {
        ConflictsOfAbsent(front, uid);
      }
    }
  }

  lemma {:induction false} ConflictsOfAbsent(cs: seq<DhcpConflict>, uid: nat)
    requires forall c :: c in cs ==> c.uid != uid
    ensures ConflictsOf(cs, uid) == []
  {
    if cs != [] {
      assert cs[|cs| - 1] in cs;
      var front := cs[..|cs| - 1];
      assert forall c :: c in front ==> c in cs;
      ConflictsOfAbsent(front, uid);
    }
  }

  /** `check_dhcp_resp`'s update, always through `update_verify_networks`:
      with conflicts, the status is error and the message lists them one per
      line; without, status and error text pass through. */
  function DhcpOutcome(t: seq<Node>, rs: seq<DhcpNodeReport>, adminMac: string,
                       error: Option<string>, status: Option<string>): (o: CheckOutcome)
    ensures o.updater == VerifyNetworksUpdater
    ensures o.result.DhcpResult?
    ensures Conflicts(t, rs, adminMac) == [] ==> o.status == status && o.message == error
    ensures Conflicts(t, rs, adminMac) != [] ==>
              o.status == Some("error") && o.message == Some(Join("\n", ConflictMessages(Conflicts(t, rs, adminMac))))
  {
    var cs := Conflicts(t, rs, adminMac);
    CheckOutcome(VerifyNetworksUpdater,
                 if cs == [] then status else Some("error"),
                 if cs == [] then error else Some(Join("\n", ConflictMessages(cs))),
                 DhcpResult(GroupByNode(cs)))
  }

  /** The probe fails exactly when some ready node in the table saw a DHCP
      server other than the master's, or when the report itself said error;
      each such server is in the message and in its node's group. */
  lemma DhcpFailsIffForeignServer(t: seq<Node>, rs: seq<DhcpNodeReport>, adminMac: string,
                                  error: Option<string>, status: Option<string>)
    ensures var o := DhcpOutcome(t, rs, adminMac, error, status);
            o.status == Some("error") <==>
              status == Some("error")
              || exists r, row :: r in rs && r.status == "ready" && r.uid in Ids(t) && row in r.data && row.mac != adminMac
  {
    var cs := Conflicts(t, rs, adminMac);
    if exists r, row :: r in rs && r.status == "ready" && r.uid in Ids(t) && row in r.data && row.mac != adminMac {
      var r, row :| r in rs && r.status == "ready" && r.uid in Ids(t) && row in r.data && row.mac != adminMac;
      var c := DhcpConflict(r.uid, Get(t, r.uid).value.name, row);
      assert c in NodeConflicts(t, r, adminMac);
      assert c in cs;
    }
    if cs != [] {
      var c := cs[0];
      assert c in cs;
      var r :| r in rs && c in NodeConflicts(t, r, adminMac);
    }
  }

  /** Every conflict is one line of the message and is filed under its node. */
  lemma DhcpConflictReported(t: seq<Node>, rs: seq<DhcpNodeReport>, adminMac: string,
                             error: Option<string>, status: Option<string>, c: DhcpConflict)
    requires c in Conflicts(t, rs, adminMac)
    ensures var o := DhcpOutcome(t, rs, adminMac, error, status);
            && o.message.Some? && Contains(o.message.value, ConflictMessage(c))
            && c.uid in o.result.byNode && c in o.result.byNode[c.uid]
  {
    var cs := Conflicts(t, rs, adminMac);
    var i :| 0 <= i < |cs| && cs[i] == c;
    JoinContains("\n", ConflictMessages(cs), i);
    GroupByNodeGroups(cs);
    ConflictsOfContains(cs, i);
  }

  lemma {:induction false} ConflictsOfContains(cs: seq<DhcpConflict>, i: nat)
    requires i < |cs|
    ensures cs[i] in ConflictsOf(cs, cs[i].uid)
  {
    if i < |cs| - 1 {
      var front := cs[..|cs| - 1];
      ConflictsOfContains(front, i);
    }
  }
}
