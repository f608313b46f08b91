/** The node table: a sequence of rows kept in ascending id order. The
    queries without `order_by` have no fixed order; id order is the order
    this model chooses for them. Lookup by id, deletion, and the
    selections the handlers make (by id set, by cluster). */
module NodeTable {
  import opened Common
  import opened Entities

  /** Rows are in strictly ascending id order (so ids are unique). */
  ghost predicate Sorted(t: seq<Node>) {
    forall i, j :: 0 <= i < j < |t| ==> t[i].id < t[j].id
  }

  function Ids(t: seq<Node>): set<nat> {
    set n | n in t :: n.id
  }

  /** `query(Node).get(id)`: the position of the row with that id, if any. */
  function Find(t: seq<Node>, id: nat): (r: Option<nat>)
    ensures r.Some? ==> r.value < |t| && t[r.value].id == id
    ensures r.None? <==> id !in Ids(t)
  {
    if |t| == 0 then None
    else if t[0].id == id then Some(0)
    else
      assert t == [t[0]] + t[1..];
      match Find(t[1..], id)
      case None => None
      case Some(k) => Some(k + 1)
  }

  /** In a sorted table the row found for an id is the only row with that id. */
  lemma FindAt(t: seq<Node>, j: nat)
    requires Sorted(t) && j < |t|
    ensures Find(t, t[j].id) == Some(j)
  {
    assert t[j] in t;
  }

  /** Replacing a row by one with the same id keeps the table sorted. */
  lemma SortedUpdate(t: seq<Node>, j: nat, n: Node)
    requires Sorted(t) && j < |t| && n.id == t[j].id
    ensures Sorted(t[j := n])
  {
  }

  /** The row with that id, if any. */
  function Get(t: seq<Node>, id: nat): (r: Option<Node>)
    ensures r.Some? ==> r.value in t && r.value.id == id
    ensures r.None? <==> id !in Ids(t)
  {
    match Find(t, id)
    case None => None
    case Some(i) => Some(t[i])
  }

  /** The name of the row with that id, "" when there is none. */
  function NameOf(t: seq<Node>, id: nat): string {
    match Get(t, id)
    case Some(n) => n.name
    case None => ""
  }

  /** The table after deleting every row whose id is in `s`. */
  function Without(t: seq<Node>, s: set<nat>): (r: seq<Node>)
    ensures forall n :: n in r <==> n in t && n.id !in s
    ensures Ids(r) == Ids(t) - s
  {
    if |t| == 0 then []
    else
      assert t == [t[0]] + t[1..];
      var rest := Without(t[1..], s);
      if t[0].id in s then rest else [t[0]] + rest
  }

  /** Deleting rows keeps the table sorted. */
  lemma {:induction false} WithoutSorted(t: seq<Node>, s: set<nat>)
    requires Sorted(t)
    ensures Sorted(Without(t, s))
  {
    if |t| > 0 {
      var rest := Without(t[1..], s);
      WithoutSorted(t[1..], s);
      if t[0].id !in s {
        forall n | n in rest ensures t[0].id < n.id {
          var k :| 0 <= k < |t[1..]| && t[1..][k] == n;
          assert t[k + 1] == n;
        }
        SortedCons(t[0], rest);
      }
    }
  }

  /** A row below every row of a sorted table can go in front of it. */
  lemma SortedCons(n: Node, r: seq<Node>)
    requires Sorted(r) && forall m :: m in r ==> n.id < m.id
    ensures Sorted([n] + r)
  {
    var r' := [n] + r;
    forall i, j | 0 <= i < j < |r'| ensures r'[i].id < r'[j].id {
      assert r'[j] == r[j - 1];
      if i == 0 {
        assert r[j - 1] in r;
      } else {
        assert r'[i] == r[i - 1];
      }
    }
  }

  /** Deleting `a` and then `b` is deleting `a + b`. */
  lemma {:induction false} WithoutWithout(t: seq<Node>, a: set<nat>, b: set<nat>)
    ensures Without(Without(t, a), b) == Without(t, a + b)
  {
    if |t| > 0 {
      WithoutWithout(t[1..], a, b);
    }
  }

  /** Deleting ids that have no row leaves the table as it is. */
  lemma {:induction false} WithoutAbsent(t: seq<Node>, s: set<nat>)
    requires s !! Ids(t)
    ensures Without(t, s) == t
  {
    if |t| > 0 {
      assert t[0] in t;
      assert Ids(t[1..]) <= Ids(t) by {
        forall x | x in Ids(t[1..]) ensures x in Ids(t) {
          var n :| n in t[1..] && n.id == x;
          assert n in t;
        }
      }
      WithoutAbsent(t[1..], s);
      assert t == [t[0]] + t[1..];
    }
  }

  /** The rows whose id is in `s`, in table order. */
  function WithIds(t: seq<Node>, s: set<nat>): (r: seq<Node>)
    ensures forall n :: n in r <==> n in t && n.id in s
  {
    if |t| == 0 then []
    else
      assert t == [t[0]] + t[1..];
      (if t[0].id in s then [t[0]] else []) + WithIds(t[1..], s)
  }

  /** `filter_by(cluster_id=...)`: the rows of one cluster, in table order. */
  function ClusterNodes(t: seq<Node>, cid: Option<nat>): (r: seq<Node>)
    ensures forall n :: n in r <==> n in t && n.clusterId == cid
  {
    if |t| == 0 then []
    else
      assert t == [t[0]] + t[1..];
      (if t[0].clusterId == cid then [t[0]] else []) + ClusterNodes(t[1..], cid)
  }
}
