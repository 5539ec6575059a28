/** The manifest of a task graph: nodes, their outgoing edges, and structural validation. */
module TaskGraph {
  import opened Wrappers
  import opened Digraph

  type U8 = n: nat | n < 0x100
  type U32 = n: nat | n < 0x1_0000_0000
  type U64 = n: nat | n < 0x1_0000_0000_0000_0000

  datatype RetrieveIntent = RetrieveIntent(kind: string, query: Option<string>, alias: Option<string>)

  datatype DagNode = DagNode(
    id: string,
    taskType: string,
    capabilities: seq<string>,
    layers: seq<U8>,
    retrieve: seq<RetrieveIntent>,
    maxSteps: Option<U32>,
    next: Option<string>,
    fork: seq<string>,
    artifact: Option<string>,
    sigma: Option<string>,
    locus: Option<string>)
  {
    /** Outgoing edges: `next`, then the forks not seen yet; empty ids are dropped. */
    function Successors(): (out: seq<string>)
      ensures Distinct(out)
      ensures forall s :: s in out <==> s != "" && (next == Some(s) || s in fork)
    {
      WithForks(if next.Some? && next.value != "" then [next.value] else [], fork)
    }

    method CollectSuccessors() returns (out: seq<string>)
      ensures out == Successors()
    {
      out := [];
      if next.Some? && next.value != "" {
        out := out + [next.value];
      }
      assert fork[0..] == fork;
      assert out == if next.Some? && next.value != "" then [next.value] else [];
      for i := 0 to |fork|
        invariant Distinct(out)
        invariant WithForks(out, fork[i..]) == Successors()
      {
        if fork[i] != "" && fork[i] !in out {
          out := out + [fork[i]];
        }
      }
    }
  }

  function WithForks(out: seq<string>, fork: seq<string>): (r: seq<string>)
    requires Distinct(out)
    ensures Distinct(r)
    ensures forall s :: s in r <==> s in out || (s != "" && s in fork)
    decreases |fork|
  {
    if fork == [] then out
    else WithForks(if fork[0] != "" && fork[0] !in out then out + [fork[0]] else out, fork[1..])
  }

  lemma {:induction false} ForksFollow(out: seq<string>, fork: seq<string>)
    requires Distinct(out)
    ensures out <= WithForks(out, fork)
    decreases |fork|
  {
    if fork != [] {
      ForksFollow(if fork[0] != "" && fork[0] !in out then out + [fork[0]] else out, fork[1..]);
    }
  }

  /** Forks keep the order in which they are mentioned first. */
  lemma {:induction false} ForksInOrder(out: seq<string>, fork: seq<string>, i: nat, j: nat)
    requires Distinct(out) && i < j < |fork|
    requires fork[i] != "" && fork[j] != "" && fork[j] !in out && fork[j] !in fork[..j]
    ensures Before(WithForks(out, fork), fork[i], fork[j])
    decreases |fork|
  {
    var more := if fork[0] != "" && fork[0] !in out then out + [fork[0]] else out;
    var rest := fork[1..];
    assert fork[0] == fork[..j][0] && fork[j] != fork[0];
    if i == 0 {
      ForksFollow(more, rest);
      var r := WithForks(more, rest);
      assert fork[0] in more && fork[j] == rest[j - 1] && fork[j] in r && fork[j] !in more;
      var a :| 0 <= a < |more| && more[a] == fork[0];
      var b :| 0 <= b < |r| && r[b] == fork[j];
      assert r[a] == fork[0];
      InBeginning(r, more, b);
    } else {
      assert forall k :: 0 <= k < j - 1 ==> rest[k] == fork[..j][k + 1];
      ForksInOrder(more, rest, i - 1, j - 1);
    }
  }

  /** `next` leads the successors, and the forks behind it keep the order in which they are mentioned first. */
  lemma SuccessorOrder(n: DagNode)
    ensures n.next.Some? && n.next.value != "" ==> n.Successors() != [] && n.Successors()[0] == n.next.value
    ensures forall i, j ::
              0 <= i < j < |n.fork| && n.fork[i] != "" && n.fork[j] != "" && n.next != Some(n.fork[j]) && n.fork[j] !in n.fork[..j]
              ==> Before(n.Successors(), n.fork[i], n.fork[j])
  {
    var out := if n.next.Some? && n.next.value != "" then [n.next.value] else [];
    ForksFollow(out, n.fork);
    hide WithForks, Before;
    forall i, j | 0 <= i < j < |n.fork| && n.fork[i] != "" && n.fork[j] != "" && n.next != Some(n.fork[j])
                  && n.fork[j] !in n.fork[..j]
      ensures Before(n.Successors(), n.fork[i], n.fork[j])
    {
      ForksInOrder(out, n.fork, i, j);
    }
  }

  datatype DagManifest = DagManifest(
    schemaVersion: string,
    id: string,
    description: Option<string>,
    entry: string,
    maxSteps: U32,
    timeoutSecs: Option<U64>,
    nodes: seq<DagNode>)

  function Ids(nodes: seq<DagNode>): (r: seq<string>)
    ensures |r| == |nodes| && forall i :: 0 <= i < |nodes| ==> r[i] == nodes[i].id
  {
    seq(|nodes|, i requires 0 <= i < |nodes| => nodes[i].id)
  }

  ghost predicate UniqueIds(nodes: seq<DagNode>)
  {
    Distinct(Ids(nodes))
  }

  predicate NonEmptyIds(nodes: seq<DagNode>)
  {
    forall n :: n in nodes ==> n.id != ""
  }

  predicate HasFork(nodes: seq<DagNode>)
  {
    exists n :: n in nodes && n.fork != []
  }

  /** The id index; as with a collected hash map, a later duplicate wins. */
  function ById(nodes: seq<DagNode>): (m: map<string, DagNode>)
    ensures forall id :: id in m <==> id in Ids(nodes)
    ensures forall id :: id in m ==> m[id] in nodes && m[id].id == id
  {
    if nodes == [] then map[]
    else
      var n := |nodes| - 1;
      assert forall id :: id in Ids(nodes) <==> id in Ids(nodes[..n]) || id == nodes[n].id by {
        assert Ids(nodes) == Ids(nodes[..n]) + [nodes[n].id];
      }
      ById(nodes[..n])[nodes[n].id := nodes[n]]
  }

  ghost function Adjacency(nodes: seq<DagNode>): (g: Graph)
    ensures g.Keys == ById(nodes).Keys == Elements(Ids(nodes))
  {
    map id | id in ById(nodes) :: ById(nodes)[id].Successors()
  }

  /** First node with the given id. */
  function Find(nodes: seq<DagNode>, id: string): (r: Option<DagNode>)
    ensures r.Some? <==> id in Ids(nodes)
    ensures r.Some? ==> r.value in nodes && r.value.id == id
  {
    if nodes == [] then None
    else if nodes[0].id == id then Some(nodes[0])
    else
      assert Ids(nodes) == [nodes[0].id] + Ids(nodes[1..]);
      Find(nodes[1..], id)
  }

  /** Among nodes with one id the index keeps the last and the search finds the first. */
  lemma {:induction false} LastIsIndexed(nodes: seq<DagNode>, k: nat)
    requires k < |nodes| && forall j :: k < j < |nodes| ==> nodes[j].id != nodes[k].id
    ensures nodes[k].id in ById(nodes) && ById(nodes)[nodes[k].id] == nodes[k]
  {
    if k < |nodes| - 1 {
      LastIsIndexed(nodes[..|nodes| - 1], k);
    }
  }

  lemma {:induction false} FirstIsFound(nodes: seq<DagNode>, k: nat)
    requires k < |nodes| && forall j :: 0 <= j < k ==> nodes[j].id != nodes[k].id
    ensures Find(nodes, nodes[k].id) == Some(nodes[k])
  {
    if k > 0 {
      FirstIsFound(nodes[1..], k - 1);
    }
  }

  lemma IdsAppend(a: seq<DagNode>, b: seq<DagNode>)
    ensures Ids(a + b) == Ids(a) + Ids(b)
  {
  }

  /** The index has one entry per node exactly when the ids are unique. */
  lemma ByIdSize(nodes: seq<DagNode>)
    ensures |ById(nodes)| == |nodes| <==> UniqueIds(nodes)
  {
    DistinctSize(Ids(nodes));
    assert ById(nodes).Keys == Elements(Ids(nodes));
    assert |ById(nodes)| == |ById(nodes).Keys|;
  }

  lemma SameIdSameNode(nodes: seq<DagNode>, a: DagNode, b: DagNode)
    requires UniqueIds(nodes) && a in nodes && b in nodes && a.id == b.id
    ensures a == b
  {
    var i :| 0 <= i < |nodes| && nodes[i] == a;
    var j :| 0 <= j < |nodes| && nodes[j] == b;
    assert Ids(nodes)[i] == Ids(nodes)[j];
  }

  lemma UniqueById(nodes: seq<DagNode>, n: DagNode)
    requires UniqueIds(nodes) && n in nodes
    ensures n.id in Ids(nodes) && ById(nodes)[n.id] == n && Find(nodes, n.id) == Some(n)
  {
    var i :| 0 <= i < |nodes| && nodes[i] == n;
    assert Ids(nodes)[i] == n.id;
    SameIdSameNode(nodes, ById(nodes)[n.id], n);
    SameIdSameNode(nodes, Find(nodes, n.id).value, n);
  }

  /** Edges of the graph, read off the nodes. */
  lemma EdgesOfNode(nodes: seq<DagNode>, n: DagNode)
    requires UniqueIds(nodes) && n in nodes
    ensures n.id in Adjacency(nodes) && Adjacency(nodes)[n.id] == n.Successors()
  {
    UniqueById(nodes, n);
  }

  lemma AdjacencyLists(nodes: seq<DagNode>)
    ensures SimpleLists(Adjacency(nodes))
  {
  }

  datatype GraphError =
    | UnsupportedSchema
    | NoNodes
    | DuplicateNode(id: string)
    | NoCapabilities(id: string)
    | EntryNotFound
    | NextNotFound(from: string, to: string)

  const SCHEMA_VERSION := "0.1.0"

  /** What a parsed manifest must satisfy. */
  ghost predicate ValidGraph(dag: DagManifest)
  {
    && dag.schemaVersion == SCHEMA_VERSION
    && dag.nodes != []
    && UniqueIds(dag.nodes)
    && (forall n :: n in dag.nodes ==> n.capabilities != [])
    && dag.entry in Ids(dag.nodes)
    && (forall n :: n in dag.nodes && n.next.Some? ==> n.next.value in Ids(dag.nodes))
  }

  /** The first node, from `i` on, that repeats an id or has no capabilities. */
  function NodeErrorFrom(nodes: seq<DagNode>, i: nat): Option<GraphError>
    requires i <= |nodes|
    decreases |nodes| - i
  {
    if i == |nodes| then None
    else if nodes[i].id in Ids(nodes)[..i] then Some(DuplicateNode(nodes[i].id))
    else if nodes[i].capabilities == [] then Some(NoCapabilities(nodes[i].id))
    else NodeErrorFrom(nodes, i + 1)
  }

  function NextErrorFrom(nodes: seq<DagNode>, i: nat): Option<GraphError>
    requires i <= |nodes|
    decreases |nodes| - i
  {
    if i == |nodes| then None
    else if nodes[i].next.Some? && nodes[i].next.value !in Ids(nodes) then Some(NextNotFound(nodes[i].id, nodes[i].next.value))
    else NextErrorFrom(nodes, i + 1)
  }

  /** The first thing wrong with a manifest, in the order the checks are made. */
  function GraphErrorOf(dag: DagManifest): Option<GraphError>
  {
    if dag.schemaVersion != SCHEMA_VERSION then Some(UnsupportedSchema)
    else if dag.nodes == [] then Some(NoNodes)
    else if NodeErrorFrom(dag.nodes, 0).Some? then NodeErrorFrom(dag.nodes, 0)
    else if dag.entry !in Ids(dag.nodes) then Some(EntryNotFound)
    else NextErrorFrom(dag.nodes, 0)
  }

  ghost predicate GoodFrom(nodes: seq<DagNode>, i: nat)
  {
    forall k :: i <= k < |nodes| ==> nodes[k].id !in Ids(nodes)[..k] && nodes[k].capabilities != []
  }

  lemma {:induction false} NodeErrorNone(nodes: seq<DagNode>, i: nat)
    requires i <= |nodes|
    ensures NodeErrorFrom(nodes, i).None? <==> GoodFrom(nodes, i)
    decreases |nodes| - i
  {
    hide Ids;
    if i < |nodes| {
      NodeErrorNone(nodes, i + 1);
    }
  }

  lemma {:induction false} NextErrorNone(nodes: seq<DagNode>, i: nat)
    requires i <= |nodes|
    ensures NextErrorFrom(nodes, i).None?
            <==> forall k :: i <= k < |nodes| && nodes[k].next.Some? ==> nodes[k].next.value in Ids(nodes)
    decreases |nodes| - i
  {
    hide Ids;
    if i < |nodes| {
      NextErrorNone(nodes, i + 1);
    }
  }

  lemma UniqueIffNoneSeen(nodes: seq<DagNode>)
    ensures UniqueIds(nodes) <==> forall k :: 0 <= k < |nodes| ==> nodes[k].id !in Ids(nodes)[..k]
  {
    var ids := Ids(nodes);
    if UniqueIds(nodes) {
      forall k | 0 <= k < |nodes|
        ensures nodes[k].id !in ids[..k]
      {
        assert forall j :: 0 <= j < k ==> ids[j] != ids[k];
      }
    }
    if forall k :: 0 <= k < |nodes| ==> nodes[k].id !in ids[..k] {
      forall j, k | 0 <= j < k < |ids|
        ensures ids[j] != ids[k]
      {
        assert ids[..k][j] == ids[j];
        assert nodes[k].id !in ids[..k];
      }
    }
  }

  /** Nothing is wrong exactly with the valid manifests. */
  lemma GraphErrorExact(dag: DagManifest)
    ensures GraphErrorOf(dag).None? <==> ValidGraph(dag)
  {
    hide Ids, NodeErrorFrom, NextErrorFrom;
    NodeErrorNone(dag.nodes, 0);
    NextErrorNone(dag.nodes, 0);
    UniqueIffNoneSeen(dag.nodes);
  }

  /** Nothing is wrong with the nodes before `k`. */
  ghost predicate GoodBefore(nodes: seq<DagNode>, k: nat)
  {
    forall j :: 0 <= j < k && j < |nodes| ==> nodes[j].id !in Ids(nodes)[..j] && nodes[j].capabilities != []
  }

  ghost predicate LinksBefore(nodes: seq<DagNode>, k: nat)
  {
    forall j :: 0 <= j < k && j < |nodes| && nodes[j].next.Some? ==> nodes[j].next.value in Ids(nodes)
  }

  lemma {:induction false} NodeErrorAt(nodes: seq<DagNode>, i: nat, k: nat)
    requires i <= k < |nodes| && forall j :: i <= j < k ==> nodes[j].id !in Ids(nodes)[..j] && nodes[j].capabilities != []
    ensures nodes[k].id in Ids(nodes)[..k] ==> NodeErrorFrom(nodes, i) == Some(DuplicateNode(nodes[k].id))
    ensures nodes[k].id !in Ids(nodes)[..k] && nodes[k].capabilities == []
            ==> NodeErrorFrom(nodes, i) == Some(NoCapabilities(nodes[k].id))
    decreases k - i
  {
    hide Ids;
    if i < k {
      NodeErrorAt(nodes, i + 1, k);
    }
  }

  lemma {:induction false} NextErrorAt(nodes: seq<DagNode>, i: nat, k: nat)
    requires i <= k < |nodes| && nodes[k].next.Some? && nodes[k].next.value !in Ids(nodes)
    requires forall j :: i <= j < k && nodes[j].next.Some? ==> nodes[j].next.value in Ids(nodes)
    ensures NextErrorFrom(nodes, i) == Some(NextNotFound(nodes[k].id, nodes[k].next.value))
    decreases k - i
  {
    hide Ids;
    if i < k {
      NextErrorAt(nodes, i + 1, k);
    }
  }

  /** Which error is reported: the version, an empty node list, the first bad node, the entry, the first bad `next`. */
  lemma GraphErrorReported(dag: DagManifest, k: nat)
    ensures var nodes, ids, r := dag.nodes, Ids(dag.nodes), GraphErrorOf(dag);
            && (dag.schemaVersion != "0.1.0" <==> r == Some(UnsupportedSchema))
            && (dag.schemaVersion == "0.1.0" ==>
                && (nodes == [] ==> r == Some(NoNodes))
                && (k < |nodes| && GoodBefore(nodes, k) ==>
                    && (nodes[k].id in ids[..k] ==> r == Some(DuplicateNode(nodes[k].id)))
                    && (nodes[k].id !in ids[..k] && nodes[k].capabilities == [] ==> r == Some(NoCapabilities(nodes[k].id))))
                && (nodes != [] && GoodBefore(nodes, |nodes|) ==>
                    && (dag.entry !in ids ==> r == Some(EntryNotFound))
                    && (dag.entry in ids && k < |nodes| && LinksBefore(nodes, k)
                        && nodes[k].next.Some? && nodes[k].next.value !in ids
                        ==> r == Some(NextNotFound(nodes[k].id, nodes[k].next.value)))))
  {
    hide Ids, NodeErrorFrom, NextErrorFrom;
    NodeErrorNone(dag.nodes, 0);
    NamedFrom(dag.nodes, 0);
    if k < |dag.nodes| && GoodBefore(dag.nodes, k) {
      NodeErrorAt(dag.nodes, 0, k);
    }
    if k < |dag.nodes| && LinksBefore(dag.nodes, k) && dag.nodes[k].next.Some? && dag.nodes[k].next.value !in Ids(dag.nodes) {
      NextErrorAt(dag.nodes, 0, k);
    }
  }

  lemma {:induction false} NamedFrom(nodes: seq<DagNode>, i: nat)
    requires i <= |nodes|
    ensures NodeErrorFrom(nodes, i).Some? ==> NodeErrorFrom(nodes, i).value != UnsupportedSchema
    ensures NextErrorFrom(nodes, i).Some? ==> NextErrorFrom(nodes, i).value != UnsupportedSchema
    decreases |nodes| - i
  {
    hide Ids;
    if i < |nodes| {
      NamedFrom(nodes, i + 1);
    }
  }

  lemma NodeErrorStep(nodes: seq<DagNode>, i: nat)
    requires i <= |nodes|
    ensures NodeErrorFrom(nodes, i)
            == if i == |nodes| then None
               else if nodes[i].id in Ids(nodes)[..i] then Some(DuplicateNode(nodes[i].id))
               else if nodes[i].capabilities == [] then Some(NoCapabilities(nodes[i].id))
               else NodeErrorFrom(nodes, i + 1)
  {
  }

  ghost predicate Indexed(ids: map<string, DagNode>, seen: seq<string>)
  {
    forall id :: id in ids <==> id in seen
  }

  lemma IndexedMore(ids: map<string, DagNode>, seen: seq<string>, n: DagNode)
    requires Indexed(ids, seen)
    ensures Indexed(ids[n.id := n], seen + [n.id])
    ensures n.id in ids <==> n.id in seen
  {
  }

  method IndexNodes(nodes: seq<DagNode>) returns (ids: map<string, DagNode>, error: Option<GraphError>)
    ensures error == NodeErrorFrom(nodes, 0)
    ensures error.None? ==> Indexed(ids, Ids(nodes))
  {
    hide *;
    ids := map[];
    assert Indexed(ids, []) by {
      NothingIndexed();
    }
    assert Ids(nodes)[..0] == [];
    for i := 0 to |nodes|
      invariant Indexed(ids, Ids(nodes)[..i])
      invariant NodeErrorFrom(nodes, 0) == NodeErrorFrom(nodes, i)
    {
      var node := nodes[i];
      NodeErrorStep(nodes, i);
      IndexedMore(ids, Ids(nodes)[..i], node);
      assert Ids(nodes)[..i + 1] == Ids(nodes)[..i] + [node.id];
      var seen := node.id in ids;
      ids := ids[node.id := node];
      if seen {
        return ids, Some(DuplicateNode(node.id));
      }
      if node.capabilities == [] {
        return ids, Some(NoCapabilities(node.id));
      }
    }
    NodeErrorStep(nodes, |nodes|);
    assert Ids(nodes)[..|nodes|] == Ids(nodes);
    return ids, None;
  }

  lemma NothingIndexed()
    ensures Indexed(map[], [])
  {
  }

  method ValidateGraph(dag: DagManifest) returns (r: Option<GraphError>)
    ensures r == GraphErrorOf(dag)
    ensures r.None? <==> ValidGraph(dag)
  {
    hide Ids, UniqueIds, ValidGraph, NodeErrorFrom;
    GraphErrorExact(dag);
    if dag.schemaVersion != SCHEMA_VERSION {
      return Some(UnsupportedSchema);
    }
    if dag.nodes == [] {
      return Some(NoNodes);
    }
    var ids, error := IndexNodes(dag.nodes);
    if error.Some? {
      return error;
    }
    if dag.entry !in ids {
      return Some(EntryNotFound);
    }
    for i := 0 to |dag.nodes|
      invariant NextErrorFrom(dag.nodes, 0) == NextErrorFrom(dag.nodes, i)
    {
      var node := dag.nodes[i];
      if node.next.Some? && node.next.value !in ids {
        return Some(NextNotFound(node.id, node.next.value));
      }
    }
    return None;
  }
}
