/** Node-removal reconciliation (`remove_nodes_resp`): what the three loops
    over a removal report do to the node table, and the summary message. */
module Removal {
  import opened Common
  import opened Entities
  import opened NodeTable

  /** A removal report: the uids of removed, failed and unreachable nodes,
      and the overall error text, status and progress. An absent or null
      node list is the empty one. */
  datatype RemovalReport = RemovalReport(
    nodes: seq<nat>,
    errorNodes: seq<nat>,
    inaccessibleNodes: seq<nat>,
    error: Option<string>,
    status: Option<string>,
    progress: Option<int>)

  /** How many entries of `uids` the deletion loop deletes before it stops.
      It deletes one row per uid and breaks at the first uid with no row.
      A uid the loop has already deleted is taken to have no row any more;
      this is a modelling choice, since whether the lookup still finds a
      deleted but unflushed row is up to the database session. */
  function DeleteStop(ids: set<nat>, uids: seq<nat>): (k: nat)
    ensures k <= |uids|
    decreases |uids|
  {
    if |uids| == 0 || uids[0] !in ids then 0
    else 1 + DeleteStop(ids - {uids[0]}, uids[1..])
  }

  /** The deletion loop stops exactly at the first uid that has no row or
      repeats an earlier one: the uids before the stop have rows and are
      distinct. */
  lemma {:induction false} DeleteStopSpec(ids: set<nat>, uids: seq<nat>)
    ensures var k := DeleteStop(ids, uids);
            && (forall j :: 0 <= j < k ==> uids[j] in ids)
            && (forall i, j :: 0 <= i < j < k ==> uids[i] != uids[j])
            && (k < |uids| ==> uids[k] !in ids || uids[k] in uids[..k])
    decreases |uids|
  {
    if |uids| > 0 && uids[0] in ids {
      var k' := DeleteStop(ids - {uids[0]}, uids[1..]);
      DeleteStopSpec(ids - {uids[0]}, uids[1..]);
      assert forall j :: 0 < j <= k' ==> uids[j] == uids[1..][j - 1];
      assert k' < |uids[1..]| ==> uids[..k' + 1] == [uids[0]] + uids[1..][..k'];
    }
  }

  /** How many entries of `uids` the marking loop marks before it stops at
      the first uid with no row. */
  function MarkStop(ids: set<nat>, uids: seq<nat>): (k: nat)
    ensures k <= |uids|
    decreases |uids|
  {
    if |uids| == 0 || uids[0] !in ids then 0
    else 1 + MarkStop(ids, uids[1..])
  }

  /** The marking loop stops exactly at the first uid with no row. */
  lemma {:induction false} MarkStopSpec(ids: set<nat>, uids: seq<nat>)
    ensures var k := MarkStop(ids, uids);
            && (forall j :: 0 <= j < k ==> uids[j] in ids)
            && (k < |uids| ==> uids[k] !in ids)
    decreases |uids|
  {
    if |uids| > 0 && uids[0] in ids {
      MarkStopSpec(ids, uids[1..]);
      assert forall j :: 0 < j <= MarkStop(ids, uids[1..]) ==> uids[j] == uids[1..][j - 1];
    }
  }

  /** A node that failed to be removed: error status, no longer pending deletion. */
  function MarkedFailed(n: Node): (n': Node)
    ensures n'.status == "error" && !n'.pendingDeletion
    ensures n'.(status := n.status, pendingDeletion := n.pendingDeletion) == n
  {
    n.(pendingDeletion := false, status := "error")
  }

  /** Every row whose id is in `s` marked as failed. */
  function MarkFailed(t: seq<Node>, s: set<nat>): seq<Node> {
    seq(|t|, i requires 0 <= i < |t| => if t[i].id in s then MarkedFailed(t[i]) else t[i])
  }

  lemma NamesOfSnoc(t: seq<Node>, uids: seq<nat>, i: nat)
    requires i < |uids|
    ensures NamesOf(t, uids[..i + 1]) == NamesOf(t, uids[..i]) + [NameOf(t, uids[i])]
  {
    var a := NamesOf(t, uids[..i + 1]);
    var b := NamesOf(t, uids[..i]) + [NameOf(t, uids[i])];
    assert |a| == |b|;
    forall j | 0 <= j < |a| ensures a[j] == b[j] {
      assert uids[..i + 1][j] == uids[j];
    }
  }

  /** The uids the first loop deletes. */
  function Deleted(t: seq<Node>, r: RemovalReport): set<nat> {
    Elems(r.nodes[..DeleteStop(Ids(t), r.nodes)])
  }

  /** The table after the `nodes` loop and the `inaccessible_nodes` loop. */
  function AfterDeletion(t: seq<Node>, r: RemovalReport): seq<Node> {
    Without(Without(t, Deleted(t, r)), Elems(r.inaccessibleNodes))
  }

  /** How many `error_nodes` entries the marking loop reaches. */
  function MarkedCount(t: seq<Node>, r: RemovalReport): nat {
    MarkStop(Ids(AfterDeletion(t, r)), r.errorNodes)
  }

  /** The table after all three loops. */
  function RemovedTable(t: seq<Node>, r: RemovalReport): (t': seq<Node>)
    ensures Ids(t') == Ids(t) - Deleted(t, r) - Elems(r.inaccessibleNodes)
  {
    var marked := Elems(r.errorNodes[..MarkedCount(t, r)]);
    MarkFailedKeepsIds(AfterDeletion(t, r), marked);
    MarkFailed(AfterDeletion(t, r), marked)
  }

  /** The names the marking loop writes back into the report entries it reaches. */
  function MarkedNames(t: seq<Node>, r: RemovalReport): seq<string> {
    var t2 := AfterDeletion(t, r);
    var m := MarkedCount(t, r);
    NamesOf(t2, r.errorNodes[..m])
  }

  /** The name of the row of each uid, "" for a uid with no row. */
  function NamesOf(t: seq<Node>, uids: seq<nat>): (r: seq<string>)
    ensures |r| == |uids|
    ensures forall j :: 0 <= j < |uids| ==> r[j] == NameOf(t, uids[j])
  {
    seq(|uids|, j requires 0 <= j < |uids| => NameOf(t, uids[j]))
  }

  /** The label of each error node in the failure summary: its name when the
      marking loop filled a non-empty one in, `ID: <uid>` otherwise. */
  function ErrorLabels(errs: seq<nat>, names: seq<string>): seq<string> {
    seq(|errs|, j requires 0 <= j < |errs| =>
      if j < |names| && names[j] != "" then names[j] else "ID: " + NatToString(errs[j]))
  }

  function RemovedSummary(count: nat): string {
    if count > 0 then "Successfully removed " + NatToString(count) + " node(s)"
    else "No nodes were removed"
  }

  function FailedSummary(labels: seq<string>): string {
    if |labels| > 0 then "Failed to remove " + NatToString(|labels|) + " node(s): " + Join(", ", labels)
    else "No errors occurred"
  }

  /** The task message: the report's error text when it has one, otherwise
      the two summaries joined by ". ". It is never empty. */
  function RemovalMessage(r: RemovalReport, labels: seq<string>): (m: string)
    ensures |m| > 0
    ensures !Truthy(r.error) ==> m == RemovedSummary(|r.nodes|) + ". " + FailedSummary(labels)
    ensures Truthy(r.error) ==> m == r.error.value
  {
    if Truthy(r.error) then r.error.value
    else Join(". ", [RemovedSummary(|r.nodes|), FailedSummary(labels)])
  }

  /** A "done" notice when nodes were reported removed, then an "error"
      notice when nodes were reported failed. */
  function RemovalNotices(r: RemovalReport, labels: seq<string>): seq<Notification> {
    (if |r.nodes| > 0 then [Notice(Done, RemovedSummary(|r.nodes|), None)] else [])
    + (if |r.errorNodes| > 0 then [Notice(Error, FailedSummary(labels), None)] else [])
  }

  /** One turn of the deletion loop: the uid at `i` still has a row exactly
      when the loop has not reached its stop, and deleting it extends the
      deleted prefix by one. */
  lemma DeleteLoopStep(t: seq<Node>, uids: seq<nat>, i: nat)
    requires i < |uids| && i <= DeleteStop(Ids(t), uids)
    ensures uids[i] in Ids(Without(t, Elems(uids[..i]))) <==> i < DeleteStop(Ids(t), uids)
    ensures Without(Without(t, Elems(uids[..i])), {uids[i]}) == Without(t, Elems(uids[..i + 1]))
  {
    WithoutSnoc(t, uids, i);
    DeleteStopSpec(Ids(t), uids);
    if i < DeleteStop(Ids(t), uids) {
      assert uids[i] !in uids[..i];
    }
  }

  /** The deletion loop on the table: delete the row of each uid in turn,
      stopping at the first uid with no row left. */
  method DeleteUntilMissing(t: seq<Node>, uids: seq<nat>) returns (t': seq<Node>)
    ensures t' == Without(t, Elems(uids[..DeleteStop(Ids(t), uids)]))
  {
    ghost var k := DeleteStop(Ids(t), uids);
    WithoutAbsent(t, {});
    assert Elems(uids[..0]) == {};
    t' := t;
    var i := 0;
    while i < |uids|
      invariant i <= k
      invariant t' == Without(t, Elems(uids[..i]))
    {
      DeleteLoopStep(t, uids, i);
      if Find(t', uids[i]).None? {
        break;
      }
      t' := Without(t', {uids[i]});
      i := i + 1;
    }
    assert i == k;
  }

  /** Deleting the rows of a prefix of `uids` and then the row of the next
      uid is deleting the rows of the longer prefix. */
  lemma WithoutSnoc(t: seq<Node>, uids: seq<nat>, i: nat)
    requires i < |uids|
    ensures Without(Without(t, Elems(uids[..i])), {uids[i]}) == Without(t, Elems(uids[..i + 1]))
  {
    ElemsSnoc(uids, i);
    WithoutWithout(t, Elems(uids[..i]), {uids[i]});
  }

  /** The `inaccessible_nodes` loop on the table: delete the row of every
      listed uid that has one, skipping the others. */
  method DeleteEach(t: seq<Node>, uids: seq<nat>) returns (t': seq<Node>)
    ensures t' == Without(t, Elems(uids))
  {
    WithoutAbsent(t, {});
    assert Elems(uids[..0]) == {};
    t' := t;
    for i := 0 to |uids|
      invariant t' == Without(t, Elems(uids[..i]))
    {
      WithoutSnoc(t, uids, i);
      if Find(t', uids[i]).Some? {
        t' := Without(t', {uids[i]});
      } else {
        WithoutAbsent(t', {uids[i]});
      }
    }
    assert uids[..|uids|] == uids;
  }

  /** The marking loop finds a row for the uid at `i` exactly when it has
      not reached its stop. */
  lemma MarkLoopFinds(t: seq<Node>, uids: seq<nat>, i: nat)
    requires i < |uids| && i <= MarkStop(Ids(t), uids)
    ensures Find(MarkFailed(t, Elems(uids[..i])), uids[i]).Some? <==> i < MarkStop(Ids(t), uids)
  {
    MarkFailedKeepsIds(t, Elems(uids[..i]));
    MarkStopSpec(Ids(t), uids);
  }

  /** One turn of the marking loop on a sorted table: marking the row found
      for the uid at `i` extends the marked prefix by one, and the row
      carries the node's name. */
  lemma MarkLoopStep(t: seq<Node>, uids: seq<nat>, i: nat, j: nat)
    requires Sorted(t) && i < |uids| && j < |t| && t[j].id == uids[i]
    ensures var cur := MarkFailed(t, Elems(uids[..i]));
            && cur[j := MarkedFailed(cur[j])] == MarkFailed(t, Elems(uids[..i + 1]))
            && cur[j].name == NameOf(t, uids[i])
  {
    ElemsSnoc(uids, i);
    var cur := MarkFailed(t, Elems(uids[..i]));
    var next := MarkFailed(t, Elems(uids[..i + 1]));
    FindAt(t, j);
    forall x | 0 <= x < |t| ensures cur[j := MarkedFailed(cur[j])][x] == next[x] {
      if x != j {
        assert t[x].id != uids[i];
      }
    }
  }

  /** The marking loop on the table: mark the row of each uid in turn as
      failed and record its name, stopping at the first uid with no row. */
  method MarkUntilMissing(t: seq<Node>, uids: seq<nat>) returns (t': seq<Node>, names: seq<string>)
    requires Sorted(t)
    ensures var m := MarkStop(Ids(t), uids);
            && t' == MarkFailed(t, Elems(uids[..m]))
            && names == NamesOf(t, uids[..m])
  {
    ghost var m := MarkStop(Ids(t), uids);
    names := [];
    assert Elems(uids[..0]) == {};
    t' := t;
    assert t' == MarkFailed(t, {});
    var i := 0;
    while i < |uids|
      invariant i <= m
      invariant t' == MarkFailed(t, Elems(uids[..i]))
      invariant names == NamesOf(t, uids[..i])
    {
      MarkLoopTurn(t, uids, i);
      var found := Find(t', uids[i]);
      if found.None? {
        break;
      }
      var j := found.value;
      names := names + [t'[j].name];
      t' := t'[j := MarkedFailed(t'[j])];
      i := i + 1;
    }
  }

  /** One turn of the marking loop, as the loop sees it: the row is found
      exactly before the stop, and marking it and recording its name
      extends both prefixes by one. */
  lemma MarkLoopTurn(t: seq<Node>, uids: seq<nat>, i: nat)
    requires Sorted(t) && i < |uids| && i <= MarkStop(Ids(t), uids)
    ensures var cur := MarkFailed(t, Elems(uids[..i]));
            var found := Find(cur, uids[i]);
            && (found.Some? <==> i < MarkStop(Ids(t), uids))
            && (found.Some? ==>
                  && cur[found.value := MarkedFailed(cur[found.value])] == MarkFailed(t, Elems(uids[..i + 1]))
                  && NamesOf(t, uids[..i + 1]) == NamesOf(t, uids[..i]) + [cur[found.value].name])
  {
    MarkLoopFinds(t, uids, i);
    var cur := MarkFailed(t, Elems(uids[..i]));
    var found := Find(cur, uids[i]);
    if found.Some? {
      MarkFailedKeepsIds(t, Elems(uids[..i]));
      MarkLoopStep(t, uids, i, found.value);
      NamesOfSnoc(t, uids, i);
    }
  }

  /** Marking changes no id and keeps the table sorted. */
  lemma MarkFailedKeepsIds(t: seq<Node>, s: set<nat>)
    ensures var t' := MarkFailed(t, s);
            && |t'| == |t|
            && (forall i :: 0 <= i < |t| ==> t'[i].id == t[i].id)
            && Ids(t') == Ids(t)
            && (Sorted(t) ==> Sorted(t'))
  {
    var t' := MarkFailed(t, s);
    forall x | x in Ids(t) ensures x in Ids(t') {
      var n :| n in t && n.id == x;
      var i :| 0 <= i < |t| && t[i] == n;
      assert t'[i] in t';
    }
    forall x | x in Ids(t') ensures x in Ids(t) {
      var n :| n in t' && n.id == x;
      var i :| 0 <= i < |t'| && t'[i] == n;
      assert t[i] in t;
    }
  }

  /** The `nodes` loop deletes the reported nodes up to the first uid with no
      row left, the `inaccessible_nodes` loop deletes every existing one, and
      no other row is deleted. */
  lemma RemoveNodesDeletes(t: seq<Node>, r: RemovalReport)
    requires Sorted(t)
    ensures var t' := RemovedTable(t, r);
            var k := DeleteStop(Ids(t), r.nodes);
            && Sorted(t')
            && Ids(t') == Ids(t) - Elems(r.nodes[..k]) - Elems(r.inaccessibleNodes)
            && (forall j :: 0 <= j < k ==> r.nodes[j] in Ids(t) && r.nodes[j] !in Ids(t'))
            && (k < |r.nodes| ==> r.nodes[k] !in Ids(t) || r.nodes[k] in r.nodes[..k])
            && (forall u :: u in r.inaccessibleNodes ==> u !in Ids(t'))
  {
    WithoutSorted(t, Deleted(t, r));
    WithoutSorted(Without(t, Deleted(t, r)), Elems(r.inaccessibleNodes));
    MarkFailedKeepsIds(AfterDeletion(t, r), Elems(r.errorNodes[..MarkedCount(t, r)]));
    DeleteStopSpec(Ids(t), r.nodes);
  }

  /** The `error_nodes` loop marks each entry up to the first uid with no row
      as failed and no longer pending deletion. */
  lemma RemoveNodesMarks(t: seq<Node>, r: RemovalReport)
    requires Sorted(t)
    ensures var t' := RemovedTable(t, r);
            var m := MarkedCount(t, r);
            && |t'| == |AfterDeletion(t, r)|
            && (forall j :: 0 <= j < m ==>
                  exists n :: n in t' && n.id == r.errorNodes[j] && n.status == "error" && !n.pendingDeletion)
            && (forall j :: 0 <= j < m ==>
                  exists i :: 0 <= i < |t'| && t'[i].id == r.errorNodes[j] && t'[i] == MarkedFailed(AfterDeletion(t, r)[i]))
            && (m < |r.errorNodes| ==> r.errorNodes[m] !in Ids(t'))
  {
    var t2 := AfterDeletion(t, r);
    var m := MarkedCount(t, r);
    var t' := RemovedTable(t, r);
    forall j | 0 <= j < m
      ensures exists i :: 0 <= i < |t'| && t'[i].id == r.errorNodes[j] && t'[i] == MarkedFailed(t2[i])
      ensures exists n :: n in t' && n.id == r.errorNodes[j] && n.status == "error" && !n.pendingDeletion
    {
      var i := MarkedRowOf(t, r, j);
      assert t'[i] in t';
    }
    if m < |r.errorNodes| {
      MarkStopSpec(Ids(t2), r.errorNodes);
      MarkFailedKeepsIds(t2, Elems(r.errorNodes[..m]));
    }
  }

  /** Where an error uid before the marking stop ends up after the three loops. */
  lemma MarkedRowOf(t: seq<Node>, r: RemovalReport, j: nat) returns (i: nat)
    requires Sorted(t) && j < MarkedCount(t, r)
    ensures var t' := RemovedTable(t, r);
            && |t'| == |AfterDeletion(t, r)| && i < |t'|
            && t'[i].id == r.errorNodes[j] && t'[i] == MarkedFailed(AfterDeletion(t, r)[i])
  {
    var t2 := AfterDeletion(t, r);
    var m := MarkedCount(t, r);
    MarkStopSpec(Ids(t2), r.errorNodes);
    i := Find(t2, r.errorNodes[j]).value;
    assert r.errorNodes[j] in r.errorNodes[..m];
  }

  /** A row that no list of the report reaches is left exactly as it was. */
  lemma RemoveNodesKeepsOthers(t: seq<Node>, r: RemovalReport, n: Node)
    requires n in t
    requires n.id !in Deleted(t, r) + Elems(r.inaccessibleNodes) + Elems(r.errorNodes[..MarkedCount(t, r)])
    ensures n in RemovedTable(t, r)
  {
    var t2 := AfterDeletion(t, r);
    assert n in t2;
    var i :| 0 <= i < |t2| && t2[i] == n;
    assert RemovedTable(t, r)[i] == n;
  }
}
