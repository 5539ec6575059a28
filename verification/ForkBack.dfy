/**
 A family of repairs in which a replanned node forks to a finished one: the splice is accepted, yet
 scheduling the spliced graph puts the finished node last. It exists for any three distinct ids.
 */
module ForkBack {
  import opened Wrappers
  import opened Digraph
  import opened TaskGraph
  import opened BoundedDag
  import opened LinearDag
  import opened RepairSplice
  import opened SpliceSchedule
  import opened RepairTheorems

  function Work(id: string, next: Option<string>, fork: seq<string>): DagNode
  {
    DagNode(id, "work", ["coding"], [], [], None, next, fork, None, None, None)
  }

  function Plan(entry: string, nodes: seq<DagNode>, order: seq<string>): PlannedLiveDag
  {
    PlannedLiveDag(DagManifest(SCHEMA_VERSION, "ops", None, entry, 8, None, nodes), order, false, "planner", 0, None)
  }

  /** `p` is a finished side task; `a` is finished and leads to the failed `b`. */
  function Stored(p: string, a: string, b: string): PlannedLiveDag
  {
    Plan(p, [Work(p, None, []), Work(a, None, [b]), Work(b, None, [])], [p, a, b])
  }

  /** The replan keeps `b` and lets it fork to `p`. */
  function Replan(p: string, b: string): PlannedLiveDag
  {
    Plan(b, [Work(b, None, [p]), Work(p, None, [])], [b, p])
  }

  function Fail(b: string): DagFailCursor
  {
    DagFailCursor(b, 2, "timeout")
  }

  ghost predicate ThreeIds(p: string, a: string, b: string)
  {
    p != "" && a != "" && b != "" && p != a && p != b && a != b
  }

  lemma NoEdges(n: DagNode)
    requires n.next == None && n.fork == []
    ensures n.Successors() == []
  {
  }

  lemma OneFork(n: DagNode, f: string)
    requires (n.next == None || n.next == Some(f)) && n.fork == [f] && f != ""
    ensures n.Successors() == [f]
  {
    assert [f][1..] == [];
    assert WithForks([f], []) == [f];
    assert [] + [f] == [f];
    assert WithForks([], [f]) == WithForks([f], [f][1..]);
    assert WithForks([f], [f]) == WithForks([f], [f][1..]);
  }

  /** Edges of a graph given as a list of nodes. */
  lemma EdgeFrom(nodes: seq<DagNode>, u: string, v: string)
    requires UniqueIds(nodes)
    ensures Edge(Adjacency(nodes), u, v) <==> exists i :: 0 <= i < |nodes| && nodes[i].id == u && v in nodes[i].Successors()
  {
    if u in Adjacency(nodes) {
      EdgesOfNode(nodes, ById(nodes)[u]);
    }
    forall i | 0 <= i < |nodes| && nodes[i].id == u
      ensures u in Adjacency(nodes) && Adjacency(nodes)[u] == nodes[i].Successors()
    {
      EdgesOfNode(nodes, nodes[i]);
    }
  }

  /** A small forked graph is scheduled in some order that puts predecessors first, and a root entry at the front. */
  lemma Scheduled(dag: DagManifest, order: seq<string>)
    requires HasFork(dag.nodes) && |dag.nodes| <= dag.maxSteps
    requires Distinct(Ids(dag.nodes)) && Distinct(order) && Elements(order) == Elements(Ids(dag.nodes))
    requires PredsFirst(Adjacency(dag.nodes), order)
    requires forall u, v :: Edge(Adjacency(dag.nodes), u, v) ==> v in order
    ensures Topo(dag).Ok? && Schedule(dag) == Some(Topo(dag).value)
    ensures TopoOrder(Adjacency(dag.nodes), Topo(dag).value) && |Topo(dag).value| == |dag.nodes|
    ensures dag.entry in order && (forall u :: !Edge(Adjacency(dag.nodes), u, dag.entry)) ==> Topo(dag).value[0] == dag.entry
  {
    var g := Adjacency(dag.nodes);
    hide Adjacency, DagNode.Successors, HasFork, PredsFirst, Topo, NoMissing, Distinct;
    forall u, v | Edge(g, u, v)
      ensures v in g
    {
      assert v in Elements(order);
    }
    NoMissingIffClosed(dag.nodes);
    TopoOrderIsAcyclic(g, order);
    TopoCharacterised(dag);
    if dag.entry in order && (forall u :: !Edge(g, u, dag.entry)) {
      assert dag.entry in Elements(order);
      EntryFirst(dag);
    }
  }

  lemma ThreeNodeEdges(nodes: seq<DagNode>, u: string, v: string)
    requires |nodes| == 3 && nodes[0].id != nodes[1].id && nodes[0].id != nodes[2].id && nodes[1].id != nodes[2].id
    ensures UniqueIds(nodes)
    ensures Edge(Adjacency(nodes), u, v) <==>
            (u == nodes[0].id && v in nodes[0].Successors()) ||
            (u == nodes[1].id && v in nodes[1].Successors()) ||
            (u == nodes[2].id && v in nodes[2].Successors())
  {
    hide *;
    ThreeUnique(nodes);
    EdgeFrom(nodes, u, v);
  }

  lemma ThreeUnique(nodes: seq<DagNode>)
    requires |nodes| == 3 && nodes[0].id != nodes[1].id && nodes[0].id != nodes[2].id && nodes[1].id != nodes[2].id
    ensures UniqueIds(nodes)
  {
  }

  lemma StoredEdges(p: string, a: string, b: string, u: string, v: string)
    requires ThreeIds(p, a, b)
    ensures UniqueIds(Stored(p, a, b).dag.nodes)
    ensures Edge(Adjacency(Stored(p, a, b).dag.nodes), u, v) <==> u == a && v == b
  {
    hide DagNode.Successors, Adjacency, ById, UniqueIds, Edge;
    var nodes := Stored(p, a, b).dag.nodes;
    ThreeNodeEdges(nodes, u, v);
    NoEdges(nodes[0]);
    OneFork(nodes[1], b);
    NoEdges(nodes[2]);
  }

  lemma ReplanEdges(p: string, b: string, u: string, v: string)
    requires p != "" && b != "" && p != b
    ensures UniqueIds(Replan(p, b).dag.nodes)
    ensures Edge(Adjacency(Replan(p, b).dag.nodes), u, v) <==> u == b && v == p
  {
    var nodes := Replan(p, b).dag.nodes;
    assert Ids(nodes) == [b, p];
    EdgeFrom(nodes, u, v);
    hide DagNode.Successors, Adjacency, ById;
    OneFork(nodes[0], p);
    NoEdges(nodes[1]);
    assert nodes[0].id == b;
  }

  lemma SplicedEdges(p: string, a: string, b: string, dag: DagManifest, u: string, v: string)
    requires ThreeIds(p, a, b) && dag.nodes == [Work(p, None, []), Work(a, Some(b), [b]), Work(b, None, [p])]
    ensures UniqueIds(dag.nodes)
    ensures Edge(Adjacency(dag.nodes), u, v) <==> (u == a && v == b) || (u == b && v == p)
  {
    hide DagNode.Successors, Adjacency, ById, UniqueIds, Edge;
    var nodes := dag.nodes;
    ThreeNodeEdges(nodes, u, v);
    NoEdges(nodes[0]);
    OneFork(nodes[1], b);
    OneFork(nodes[2], p);
  }

  lemma Triple(s: seq<string>, x: string, y: string, z: string)
    requires |s| == 3 && Distinct(s) && Elements(s) == {x, y, z} && x != y && x != z && y != z
    requires s[0] == x && Before(s, y, z)
    ensures s == [x, y, z]
  {
    assert s[1] in Elements(s) && s[2] in Elements(s);
  }

  lemma ThreeInOrder(g: Graph, x: string, y: string, z: string)
    requires x != y && x != z && y != z
    requires forall u, v :: Edge(g, u, v) ==> (v == y && u == x) || (v == z && (u == x || u == y))
    ensures Distinct([x, y, z]) && Elements([x, y, z]) == {x, y, z} && PredsFirst(g, [x, y, z])
  {
    var order := [x, y, z];
    assert Elements(order) == {x, y, z};
    forall u, v | Edge(g, u, v) && v in order
      ensures Before(order, u, v)
    {
      assert order[0] == x && order[1] == y && order[2] == z;
    }
    BeforeMeansPredsFirst(g, order);
  }

  lemma StoredScheduled(p: string, a: string, b: string)
    requires ThreeIds(p, a, b)
    ensures WellPlanned(Stored(p, a, b))
  {
    var dag := Stored(p, a, b).dag;
    var g := Adjacency(dag.nodes);
    var order := [p, a, b];
    hide *;
    StoredShape(p, a, b);
    StoredEdges(p, a, b, p, p);
    DistinctOf(dag.nodes);
    forall u, v
      ensures Edge(g, u, v) <==> u == a && v == b
    {
      StoredEdges(p, a, b, u, v);
    }
    ThreeInOrder(g, p, a, b);
    Scheduled(dag, order);
    var t := Topo(dag).value;
    SecondEdge(g, t, a, b);
    TopoParts(g, t);
    KeysOf(dag.nodes);
    Triple(t, p, a, b);
    WellPlannedIntro(Stored(p, a, b));
  }

  lemma StoredShape(p: string, a: string, b: string)
    requires ThreeIds(p, a, b)
    ensures var plan := Stored(p, a, b);
            && Ids(plan.dag.nodes) == [p, a, b] && HasFork(plan.dag.nodes) && NonEmptyIds(plan.dag.nodes)
            && plan.order == [p, a, b] && plan.dag.entry == p && |plan.dag.nodes| == 3 <= plan.dag.maxSteps
    ensures p != a && p != b && a != b && p in [p, a, b] && b in [p, a, b]
    ensures Elements([p, a, b]) == {p, a, b}
  {
    var nodes := Stored(p, a, b).dag.nodes;
    assert nodes[1] in nodes && nodes[1].fork != [];
  }

  lemma SecondEdge(g: Graph, t: seq<string>, a: string, b: string)
    requires TopoOrder(g, t) && Edge(g, a, b) && b in g
    ensures Before(t, a, b)
  {
    assert b in Elements(t);
    PredIsBefore(g, t, a, b);
  }

  lemma TopoParts(g: Graph, t: seq<string>)
    requires TopoOrder(g, t)
    ensures Distinct(t) && Elements(t) == g.Keys
  {
  }

  lemma KeysOf(nodes: seq<DagNode>)
    ensures Adjacency(nodes).Keys == Elements(Ids(nodes))
  {
  }

  lemma WellPlannedIntro(plan: PlannedLiveDag)
    requires Schedule(plan.dag) == Some(plan.order) && NonEmptyIds(plan.dag.nodes)
    ensures WellPlanned(plan)
  {
  }

  lemma TwoInOrder(g: Graph, x: string, y: string)
    requires x != y && forall u, v :: Edge(g, u, v) ==> u == x && v == y
    ensures Distinct([x, y]) && Elements([x, y]) == {x, y} && PredsFirst(g, [x, y])
  {
    var order := [x, y];
    assert Elements(order) == {x, y};
    forall u, v | Edge(g, u, v) && v in order
      ensures Before(order, u, v)
    {
      assert order[0] == x && order[1] == y;
    }
    BeforeMeansPredsFirst(g, order);
  }

  lemma Pair(s: seq<string>, x: string, y: string)
    requires |s| == 2 && Distinct(s) && Elements(s) == {x, y} && x != y && Before(s, x, y)
    ensures s == [x, y]
  {
    assert s[0] in Elements(s) && s[1] in Elements(s);
  }

  lemma ReplanScheduled(p: string, b: string)
    requires p != "" && b != "" && p != b
    ensures WellPlanned(Replan(p, b))
  {
    var dag := Replan(p, b).dag;
    var g := Adjacency(dag.nodes);
    var order := [b, p];
    assert Ids(dag.nodes) == order && dag.nodes[0] in dag.nodes && HasFork(dag.nodes) && NonEmptyIds(dag.nodes);
    hide *;
    forall u, v
      ensures Edge(g, u, v) <==> u == b && v == p
    {
      ReplanEdges(p, b, u, v);
    }
    TwoInOrder(g, b, p);
    Scheduled(dag, order);
    var t := Topo(dag).value;
    SecondEdge(g, t, b, p);
    TopoParts(g, t);
    KeysOf(dag.nodes);
    Pair(t, b, p);
    WellPlannedIntro(Replan(p, b));
  }

  lemma ChainOfThree(dag: DagManifest, x: string, y: string, z: string)
    requires UniqueIds(dag.nodes) && HasFork(dag.nodes) && |dag.nodes| == 3 <= dag.maxSteps
    requires x != y && x != z && y != z && Elements(Ids(dag.nodes)) == {x, y, z}
    requires forall u, v :: Edge(Adjacency(dag.nodes), u, v) <==> (u == x && v == y) || (u == y && v == z)
    ensures Schedule(dag) == Some([x, y, z])
  {
    hide *;
    var g := Adjacency(dag.nodes);
    ThreeInOrder(g, x, y, z);
    DistinctOf(dag.nodes);
    KeysOf(dag.nodes);
    Scheduled(dag, [x, y, z]);
    var t := Topo(dag).value;
    TopoParts(g, t);
    assert [x, y, z][..0] == t[..0];
    TailChainUnique(g, [x, y, z], t, 0, 3);
    assert t[..3] == t && [x, y, z][..3] == [x, y, z];
  }

  lemma SplicedRescheduled(p: string, a: string, b: string, dag: DagManifest)
    requires ThreeIds(p, a, b) && dag.nodes == [Work(p, None, []), Work(a, Some(b), [b]), Work(b, None, [p])]
    requires dag.maxSteps == 8
    ensures Schedule(dag) == Some([a, b, p])
  {
    assert Ids(dag.nodes) == [p, a, b] && dag.nodes[1] in dag.nodes && HasFork(dag.nodes);
    assert Elements([p, a, b]) == {a, b, p};
    hide *;
    forall u, v
      ensures UniqueIds(dag.nodes)
      ensures Edge(Adjacency(dag.nodes), u, v) <==> (u == a && v == b) || (u == b && v == p)
    {
      SplicedEdges(p, a, b, dag, u, v);
    }
    SplicedEdges(p, a, b, dag, p, p);
    ChainOfThree(dag, a, b, p);
  }

  lemma DistinctOf(nodes: seq<DagNode>)
    requires UniqueIds(nodes)
    ensures Distinct(Ids(nodes))
  {
  }

  lemma GraftedByHand(p: string, a: string, b: string)
    requires ThreeIds(p, a, b)
    ensures Grafted([b, p], Replan(p, b).dag.nodes, [p, a]) == [b]
  {
    var nodes := Replan(p, b).dag.nodes;
    assert nodes[0].id == b;
    assert [b, p][..1] == [b] && [b][..0] == [];
    assert Grafted([], nodes, [p, a]) == [];
    assert Grafted([b], nodes, [p, a]) == [b];
  }

  lemma KeptByHand(p: string, a: string, b: string)
    requires ThreeIds(p, a, b)
    ensures KeepNodes(Stored(p, a, b).dag.nodes, [p, a]) == [Work(p, None, []), Work(a, None, [b])]
  {
    var n := Stored(p, a, b).dag.nodes;
    var x, y, z := n[0], n[1], n[2];
    assert n[..2] == [x, y] && [x, y][..1] == [x] && [x][..0] == [];
    assert KeepNodes([], [p, a]) == [];
    assert KeepNodes([x], [p, a]) == [x];
    assert KeepNodes([x, y], [p, a]) == [x, y];
  }

  lemma SplicedByHand(p: string, a: string, b: string)
    requires ThreeIds(p, a, b) && Listed(Stored(p, a, b))
    ensures var s := Splice(Stored(p, a, b), Fail(b), Replan(p, b));
            && s.order == [p, a, b] && s.dag.maxSteps == 8
            && s.dag.nodes == [Work(p, None, []), Work(a, Some(b), [b]), Work(b, None, [p])]
    ensures !NoForkBack(Stored(p, a, b), Fail(b), Replan(p, b))
  {
    hide Listed, RawNodes, Rest, Prefix, RestSource, RelinkAll, Stored, Replan;
    StoredHeader(p, a, b);
    PartsByHand(p, a, b);
    RawByHand(p, a, b);
    RelinkedByHand(p, a, b);
    assert [p, a] + [b] == [p, a, b];
    ReplanForksBack(p, b);
    var n := Work(b, None, [p]);
    assert n.id == b && n.fork == [p];
    assert [p][0] in n.fork && [p, a][0] in [p, a] && [b][0] in [b];
    assert n in RestSource(Stored(p, a, b), Fail(b), Replan(p, b)).dag.nodes;
    assert n.id in Rest(Stored(p, a, b), Fail(b), Replan(p, b)) && p in n.fork && p in Prefix(Stored(p, a, b), Fail(b));
  }

  lemma StoredHeader(p: string, a: string, b: string)
    ensures Stored(p, a, b).dag.maxSteps == 8
  {
  }

  lemma ReplanForksBack(p: string, b: string)
    ensures Work(b, None, [p]) in Replan(p, b).dag.nodes
  {
  }

  lemma PartsByHand(p: string, a: string, b: string)
    requires ThreeIds(p, a, b)
    ensures var stored, fail, remaining := Stored(p, a, b), Fail(b), Replan(p, b);
            Prefix(stored, fail) == [p, a] && Rest(stored, fail, remaining) == [b] && RestSource(stored, fail, remaining) == remaining
  {
    hide Grafted;
    GraftedByHand(p, a, b);
    assert Stored(p, a, b).order[..2] == [p, a];
  }

  lemma RawByHand(p: string, a: string, b: string)
    requires ThreeIds(p, a, b) && Listed(Stored(p, a, b))
    ensures RawNodes(Stored(p, a, b), Fail(b), Replan(p, b)) == [Work(p, None, []), Work(a, None, [b]), Work(b, None, [p])]
  {
    hide Listed, KeepNodes, Rest, Prefix, RestSource, Ids;
    PartsByHand(p, a, b);
    KeptByHand(p, a, b);
    RestKnown(Stored(p, a, b), Fail(b), Replan(p, b));
    var nodes := Replan(p, b).dag.nodes;
    assert Lookup([b], nodes) == [nodes[0]];
  }

  lemma RelinkedByHand(p: string, a: string, b: string)
    requires ThreeIds(p, a, b)
    ensures RelinkAll([Work(p, None, []), Work(a, None, [b]), Work(b, None, [p])], [p, a], [b])
            == [Work(p, None, []), Work(a, Some(b), [b]), Work(b, None, [p])]
  {
    hide Ids;
    assert After([b], b) == None && [p, a][1] == a && [b][0] == b;
    assert Relink(Work(p, None, []), [p, a], [b]) == Work(p, None, []);
    assert Relink(Work(a, None, [b]), [p, a], [b]) == Work(a, Some(b), [b]);
    assert Relink(Work(b, None, [p]), [p, a], [b]) == Work(b, None, [p]);
  }

  /** The splice says `p, a, b`; the accepted graph reschedules as `a, b, p`. */
  lemma ForkBackReorders(p: string, a: string, b: string)
    requires ThreeIds(p, a, b)
    ensures WellPlanned(Stored(p, a, b)) && WellPlanned(Replan(p, b)) && Listed(Stored(p, a, b))
    ensures var s := Splice(Stored(p, a, b), Fail(b), Replan(p, b));
            s.order == [p, a, b] && Schedule(s.dag) == Some([a, b, p])
    ensures !NoForkBack(Stored(p, a, b), Fail(b), Replan(p, b))
  {
    hide Splice, Schedule, WellPlanned, Listed, NoForkBack, Stored, Replan;
    StoredScheduled(p, a, b);
    ReplanScheduled(p, b);
    WellPlannedOrder(Stored(p, a, b));
    SplicedByHand(p, a, b);
    SplicedRescheduled(p, a, b, Splice(Stored(p, a, b), Fail(b), Replan(p, b)).dag);
  }
}
