/** Scheduling looks at ids and links, the entry and the cap only. */
module ShapeSchedule {
  import opened Wrappers
  import opened Digraph
  import opened TaskGraph
  import opened KahnRun
  import opened BoundedDag
  import opened LinearDag

  ghost predicate SameLinks(a: DagNode, b: DagNode)
  {
    a.id == b.id && a.next == b.next && a.fork == b.fork
  }

  ghost predicate SameNodes(a: seq<DagNode>, b: seq<DagNode>)
  {
    |a| == |b| && forall i :: 0 <= i < |a| ==> SameLinks(a[i], b[i])
  }

  /** Nothing that scheduling looks at differs. */
  ghost predicate SameGraph(a: DagManifest, b: DagManifest)
  {
    a.entry == b.entry && a.maxSteps == b.maxSteps && SameNodes(a.nodes, b.nodes)
  }

  lemma SameEdges(a: DagNode, b: DagNode)
    requires SameLinks(a, b)
    ensures a.id == b.id && a.next == b.next && a.fork == b.fork && a.Successors() == b.Successors()
  {
  }

  lemma SameIdList(a: seq<DagNode>, b: seq<DagNode>)
    requires SameNodes(a, b)
    ensures Ids(a) == Ids(b) && (HasFork(a) <==> HasFork(b)) && (NoMissing(a) <==> NoMissing(b))
  {
    hide DagNode.Successors;
    forall i | 0 <= i < |a|
      ensures a[i].id == b[i].id && a[i].fork == b[i].fork && a[i].Successors() == b[i].Successors()
      ensures a[i] in a && b[i] in b
    {
      SameEdges(a[i], b[i]);
    }
    assert Ids(a) == Ids(b);
    ForkAt(a, b);
    ForkAt(b, a);
    MissingAt(a, b);
    MissingAt(b, a);
  }

  lemma ForkAt(a: seq<DagNode>, b: seq<DagNode>)
    requires |a| == |b| && forall i :: 0 <= i < |a| ==> a[i].fork == b[i].fork
    ensures HasFork(a) ==> HasFork(b)
  {
    if HasFork(a) {
      var n :| n in a && n.fork != [];
      var i :| 0 <= i < |a| && a[i] == n;
      assert b[i] in b;
    }
  }

  lemma MissingAt(a: seq<DagNode>, b: seq<DagNode>)
    requires |a| == |b| && Ids(a) == Ids(b) && forall i :: 0 <= i < |a| ==> a[i].Successors() == b[i].Successors()
    ensures NoMissing(a) ==> NoMissing(b)
  {
    hide Ids, DagNode.Successors;
    if NoMissing(a) {
      forall n, s | n in b && s in n.Successors()
        ensures s in Ids(b)
      {
        var i :| 0 <= i < |b| && b[i] == n;
        assert a[i] in a && s in a[i].Successors();
      }
    }
  }

  lemma {:induction false} SameIndex(a: seq<DagNode>, b: seq<DagNode>, id: string)
    requires SameNodes(a, b)
    ensures id in ById(a) <==> id in ById(b)
    ensures id in ById(a) ==> SameLinks(ById(a)[id], ById(b)[id])
    decreases |a|
  {
    hide SameLinks;
    if a != [] {
      var n := |a| - 1;
      assert SameNodes(a[..n], b[..n]);
      SameIndex(a[..n], b[..n], id);
      SameId(a[n], b[n]);
    }
  }

  lemma SameId(a: DagNode, b: DagNode)
    requires SameLinks(a, b)
    ensures a.id == b.id
  {
  }

  lemma SameAdjacency(a: seq<DagNode>, b: seq<DagNode>)
    requires SameNodes(a, b)
    ensures Adjacency(a) == Adjacency(b)
  {
    hide ById, DagNode.Successors, SameNodes, SameLinks, Ids;
    forall id
      ensures id in ById(a) <==> id in ById(b)
      ensures id in ById(a) ==> ById(a)[id].Successors() == ById(b)[id].Successors()
    {
      SameIndex(a, b, id);
      if id in ById(a) {
        SameEdges(ById(a)[id], ById(b)[id]);
      }
    }
  }

  lemma SameStep(a: seq<DagNode>, b: seq<DagNode>, x: string, y: string)
    requires SameNodes(a, b)
    ensures Follows(a, x, y) <==> Follows(b, x, y)
    ensures EndsAt(a, x) <==> EndsAt(b, x)
  {
    hide ById, SameNodes, SameLinks, DagNode.Successors;
    SameIndex(a, b, x);
    if x in ById(a) {
      SameEdges(ById(a)[x], ById(b)[x]);
    }
  }

  lemma SameCover(a: DagManifest, b: DagManifest, o: seq<string>)
    requires SameGraph(a, b)
    ensures LinearCover(a, o) <==> LinearCover(b, o)
  {
    hide SameNodes, Follows, EndsAt, Ids;
    SameIdList(a.nodes, b.nodes);
    SameLength(a.nodes, b.nodes);
    forall x, y
      ensures Follows(a.nodes, x, y) <==> Follows(b.nodes, x, y)
    {
      SameStep(a.nodes, b.nodes, x, y);
    }
    forall x
      ensures EndsAt(a.nodes, x) <==> EndsAt(b.nodes, x)
    {
      SameStep(a.nodes, b.nodes, x, x);
    }
  }

  lemma SameLength(a: seq<DagNode>, b: seq<DagNode>)
    requires SameNodes(a, b)
    ensures |a| == |b|
  {
  }

  lemma SameTopo(a: DagManifest, b: DagManifest)
    requires SameGraph(a, b)
    ensures Topo(a).Ok? <==> Topo(b).Ok?
    ensures Topo(a).Ok? ==> Topo(a) == Topo(b)
  {
    hide SameNodes, Adjacency, NoMissing, UniqueIds, Cyclic, Ids, Topo, Clean, TopoOrder;
    SameIdList(a.nodes, b.nodes);
    SameLength(a.nodes, b.nodes);
    SameAdjacency(a.nodes, b.nodes);
    SameUnique(a.nodes, b.nodes);
    TopoCharacterised(a);
    TopoCharacterised(b);
    if Topo(a).Ok? {
      TopoIsRun(a);
      TopoIsRun(b);
      SameRun(a, b);
    }
  }

  lemma SameUnique(a: seq<DagNode>, b: seq<DagNode>)
    requires Ids(a) == Ids(b)
    ensures UniqueIds(a) <==> UniqueIds(b)
  {
  }

  lemma TopoIsRun(dag: DagManifest)
    requires Topo(dag).Ok?
    ensures UniqueIds(dag.nodes) && NoMissing(dag.nodes) && WholeRun(dag) == Some(Topo(dag).value)
  {
    hide WholeRun, FirstMissing, UniqueIds, NoMissing;
    NothingMissing(dag.nodes);
  }

  lemma SameRun(a: DagManifest, b: DagManifest)
    requires UniqueIds(a.nodes) && NoMissing(a.nodes) && UniqueIds(b.nodes) && NoMissing(b.nodes)
    requires Adjacency(a.nodes) == Adjacency(b.nodes) && Ids(a.nodes) == Ids(b.nodes)
    requires a.maxSteps == b.maxSteps && a.entry == b.entry
    ensures WholeRun(a) == WholeRun(b)
  {
    hide Adjacency, Ids, UniqueIds, NoMissing;
  }

  /** What a node asks for, holds or is called does not matter to the schedule, only its id and its links do. */
  lemma SameSchedule(a: DagManifest, b: DagManifest)
    requires SameGraph(a, b)
    ensures Schedule(a) == Schedule(b)
  {
    hide SameNodes, Topo, LinearCover, HasFork;
    SameIdList(a.nodes, b.nodes);
    if HasFork(a.nodes) {
      SameTopo(a, b);
    } else {
      SameLinear(a, b);
    }
  }

  lemma SameLinear(a: DagManifest, b: DagManifest)
    requires SameGraph(a, b)
    ensures Linear(a) == Linear(b)
  {
    hide SameGraph, LinearCover;
    if Linear(a).Some? {
      SameCover(a, b, Linear(a).value);
    }
    if Linear(b).Some? {
      SameCover(a, b, Linear(b).value);
    }
  }

  // ---------------------------------------------------------------- graphs that differ in capabilities only

  ghost predicate SameButCaps(a: DagNode, b: DagNode)
  {
    b == a.(capabilities := b.capabilities)
  }

  ghost predicate AllSameButCaps(a: seq<DagNode>, b: seq<DagNode>)
  {
    |a| == |b| && forall i :: 0 <= i < |a| ==> SameButCaps(a[i], b[i])
  }

  ghost predicate SameShape(a: DagManifest, b: DagManifest)
  {
    b == a.(nodes := b.nodes) && AllSameButCaps(a.nodes, b.nodes)
  }

  lemma ShapeIsGraph(a: DagManifest, b: DagManifest)
    requires SameShape(a, b)
    ensures SameGraph(a, b)
  {
  }
}
