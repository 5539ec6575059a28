/**
 Node order for live runs: Kahn's algorithm with in-degree counters and a step cap, the walk of a
 single `next` chain, and the choice between them.
 */
module BoundedDag {
  import opened Wrappers
  import opened Digraph
  import opened TaskGraph
  import opened KahnRun

  datatype ScheduleError =
    | DuplicateId
    | MissingSuccessor(from: string, to: string)
    | MaxStepsExceeded
    | NotCover(walked: nat)
    | MissingNode(id: string)
    | CycleAt(id: string)

  // ---------------------------------------------------------------- the specification of `topo_node_ids`

  function MissingIn(sucs: seq<string>, known: set<string>): (r: Option<string>)
    ensures r.None? <==> forall s :: s in sucs ==> s in known
    ensures r.Some? ==> r.value in sucs && r.value !in known
  {
    if sucs == [] then None
    else if sucs[0] !in known then Some(sucs[0])
    else MissingIn(sucs[1..], known)
  }

  /** The first edge, in node order, whose target is not a node. */
  function FirstMissing(nodes: seq<DagNode>, known: set<string>): Option<(string, string)>
  {
    if nodes == [] then None
    else
      var m := MissingIn(nodes[0].Successors(), known);
      if m.Some? then Some((nodes[0].id, m.value)) else FirstMissing(nodes[1..], known)
  }

  ghost function Known(nodes: seq<DagNode>): set<string>
  {
    Elements(Ids(nodes))
  }

  ghost predicate NoMissing(nodes: seq<DagNode>)
  {
    forall n, s :: n in nodes && s in n.Successors() ==> s in Ids(nodes)
  }

  lemma {:induction false} FirstMissingMeaning(nodes: seq<DagNode>, known: set<string>)
    ensures var r := FirstMissing(nodes, known);
            && (r.None? <==> forall n, s :: n in nodes && s in n.Successors() ==> s in known)
            && (r.Some? ==> r.value.1 !in known &&
                            exists n :: n in nodes && n.id == r.value.0 && r.value.1 in n.Successors())
  {
    hide DagNode.Successors;
    if nodes != [] {
      FirstMissingMeaning(nodes[1..], known);
      assert nodes == [nodes[0]] + nodes[1..];
      assert nodes[0] in nodes;
      assert MissingIn(nodes[0].Successors(), known).None? <==> forall s :: s in nodes[0].Successors() ==> s in known;
    }
  }

  /** Which edge is named: the first in node order, and at that node the first in successor order. */
  lemma {:induction false} FirstMissingAt(nodes: seq<DagNode>, known: set<string>, i: nat, j: nat)
    requires i < |nodes| && j < |nodes[i].Successors()| && nodes[i].Successors()[j] !in known
    requires forall k, s :: 0 <= k < i && s in nodes[k].Successors() ==> s in known
    requires forall k :: 0 <= k < j ==> nodes[i].Successors()[k] in known
    ensures FirstMissing(nodes, known) == Some((nodes[i].id, nodes[i].Successors()[j]))
  {
    hide DagNode.Successors;
    if i > 0 {
      FirstMissingAt(nodes[1..], known, i - 1, j);
    } else {
      MissingAt(nodes[0].Successors(), known, j);
    }
  }

  lemma {:induction false} MissingAt(sucs: seq<string>, known: set<string>, j: nat)
    requires j < |sucs| && sucs[j] !in known && forall k :: 0 <= k < j ==> sucs[k] in known
    ensures MissingIn(sucs, known) == Some(sucs[j])
  {
    if j > 0 {
      MissingAt(sucs[1..], known, j - 1);
    }
  }

  lemma NothingMissing(nodes: seq<DagNode>)
    ensures NoMissing(nodes) <==> FirstMissing(nodes, Known(nodes)).None?
  {
    hide DagNode.Successors, Ids, FirstMissing;
    FirstMissingMeaning(nodes, Known(nodes));
    forall n, s | n in nodes && s in n.Successors()
      ensures s in Known(nodes) <==> s in Ids(nodes)
    {
    }
  }

  lemma NoMissingIffClosed(nodes: seq<DagNode>)
    requires UniqueIds(nodes)
    ensures NoMissing(nodes) <==> Closed(Adjacency(nodes))
  {
    var g := Adjacency(nodes);
    forall n | n in nodes
      ensures n.id in g && g[n.id] == n.Successors()
    {
      EdgesOfNode(nodes, n);
    }
    if NoMissing(nodes) {
      forall u, v | Edge(g, u, v)
        ensures v in g
      {
        assert ById(nodes)[u] in nodes;
      }
    }
    if Closed(g) {
      forall n, s | n in nodes && s in n.Successors()
        ensures s in Ids(nodes)
      {
        assert Edge(g, n.id, s);
      }
    }
  }

  /** The counter-free run over the whole manifest. */
  ghost function WholeRun(dag: DagManifest): Option<seq<string>>
    requires UniqueIds(dag.nodes) && NoMissing(dag.nodes)
  {
    NoMissingIffClosed(dag.nodes);
    Run(Adjacency(dag.nodes), dag.maxSteps, Ids(dag.nodes), dag.entry)
  }

  lemma WholeRunOutcome(dag: DagManifest)
    requires UniqueIds(dag.nodes) && NoMissing(dag.nodes)
    ensures var g, r := Adjacency(dag.nodes), WholeRun(dag);
            && (r.Some? <==> |Clean(g)| <= dag.maxSteps)
            && (r.Some? ==> Distinct(r.value) && PredsFirst(g, r.value) && Elements(r.value) == Clean(g) && |r.value| == |Clean(g)|)
            && |Clean(g)| <= |dag.nodes|
            && (|Clean(g)| == |dag.nodes| <==> !Cyclic(g))
  {
    var g := Adjacency(dag.nodes);
    hide Adjacency, DagNode.Successors, KahnFrom, Closed, Cyclic, Clean, InitialReady;
    NoMissingIffClosed(dag.nodes);
    AdjacencyLists(dag.nodes);
    var ready := InitialReady(g, Ids(dag.nodes), dag.entry);
    InitialInv(g, Ids(dag.nodes), dag.entry);
    RunOutcome(g, dag.maxSteps, ready, []);
    AcyclicIffAllClean(g);
    DistinctSize(Ids(dag.nodes));
    CleanNodes(g);
    if WholeRun(dag).Some? {
      DistinctSize(WholeRun(dag).value);
    }
  }

  lemma CleanNodes(g: Graph)
    ensures Clean(g) <= g.Keys && |Clean(g)| <= |g.Keys|
    ensures |Clean(g)| == |g.Keys| <==> Clean(g) == g.Keys
  {
    SubsetSize(Clean(g), g.Keys);
  }

  /** What the counting loop computes, stated through the counter-free run. */
  ghost function Topo(dag: DagManifest): Result<seq<string>, ScheduleError>
  {
    if !UniqueIds(dag.nodes) then Err(DuplicateId)
    else
      var missing := FirstMissing(dag.nodes, Known(dag.nodes));
      if missing.Some? then Err(MissingSuccessor(missing.value.0, missing.value.1))
      else
        NothingMissing(dag.nodes);
        var run := WholeRun(dag);
        if run.None? then Err(MaxStepsExceeded)
        else if |run.value| != |dag.nodes| then Err(NotCover(|run.value|))
        else Ok(run.value)
  }

  /** Success and every failure of the scheduler, in terms of the graph alone. */
  lemma TopoCharacterised(dag: DagManifest)
    ensures var g := Adjacency(dag.nodes);
            var r := Topo(dag);
            && (r.Ok? <==> UniqueIds(dag.nodes) && NoMissing(dag.nodes) && !Cyclic(g) && |dag.nodes| <= dag.maxSteps)
            && (r.Ok? ==> TopoOrder(g, r.value) && |r.value| == |dag.nodes|)
            && (r.Err? && r.error.DuplicateId? <==> !UniqueIds(dag.nodes))
            && (r.Err? && r.error.MissingSuccessor? <==> UniqueIds(dag.nodes) && !NoMissing(dag.nodes))
            && (r.Err? && r.error.MaxStepsExceeded? <==>
                UniqueIds(dag.nodes) && NoMissing(dag.nodes) && |Clean(g)| > dag.maxSteps)
            && (r.Err? && r.error.NotCover? <==>
                UniqueIds(dag.nodes) && NoMissing(dag.nodes) && Cyclic(g) && |Clean(g)| <= dag.maxSteps)
            && (r.Err? && r.error.NotCover? ==> r.error.walked == |Clean(g)|)
  {
    NothingMissing(dag.nodes);
    hide UniqueIds, NoMissing, Cyclic, Clean, WholeRun, FirstMissing, Adjacency, PredsFirst;
    if UniqueIds(dag.nodes) && NoMissing(dag.nodes) {
      WholeRunOutcome(dag);
      var g := Adjacency(dag.nodes);
      AcyclicIffAllClean(g);
    }
  }

  /** The missing successor that is reported is the first one, node by node and successor by successor. */
  lemma MissingSuccessorReported(dag: DagManifest, i: nat, j: nat)
    requires UniqueIds(dag.nodes) && i < |dag.nodes| && j < |dag.nodes[i].Successors()|
    requires dag.nodes[i].Successors()[j] !in Ids(dag.nodes)
    requires forall k, s :: 0 <= k < i && s in dag.nodes[k].Successors() ==> s in Ids(dag.nodes)
    requires forall k :: 0 <= k < j ==> dag.nodes[i].Successors()[k] in Ids(dag.nodes)
    ensures Topo(dag) == Err(MissingSuccessor(dag.nodes[i].id, dag.nodes[i].Successors()[j]))
  {
    hide DagNode.Successors, Ids, FirstMissing, WholeRun;
    FirstMissingAt(dag.nodes, Known(dag.nodes), i, j);
  }

  /** A successful schedule is the value of the reference run. */
  lemma RunOfTopo(dag: DagManifest)
    requires Topo(dag).Ok?
    ensures Closed(Adjacency(dag.nodes)) && Elements(Ids(dag.nodes)) == Adjacency(dag.nodes).Keys
    ensures Run(Adjacency(dag.nodes), dag.maxSteps, Ids(dag.nodes), dag.entry) == Some(Topo(dag).value)
  {
    TopoCharacterised(dag);
    NoMissingIffClosed(dag.nodes);
    hide Adjacency, Run, NoMissing, UniqueIds, Closed;
    NothingMissing(dag.nodes);
  }

  /** The entry comes first whenever nothing points at it. */
  lemma EntryFirst(dag: DagManifest)
    requires Topo(dag).Ok? && dag.entry in Ids(dag.nodes)
    requires AllPredsIn(Adjacency(dag.nodes), [], dag.entry)
    ensures Topo(dag).value != [] && Topo(dag).value[0] == dag.entry
  {
    TopoCharacterised(dag);
    var g := Adjacency(dag.nodes);
    hide Adjacency, DagNode.Successors, KahnFrom, InitialReady, AllPredsIn, Cyclic, Clean, PredsFirst, FirstMissing,
         NoMissing, Closed;
    NothingMissing(dag.nodes);
    NoMissingIffClosed(dag.nodes);
    var ready := InitialReady(g, Ids(dag.nodes), dag.entry);
    assert dag.entry in ready;
    HeadComesNext(g, dag.maxSteps, ready, []);
    assert [] + [ready[0]] == [dag.entry];
  }

  // ---------------------------------------------------------------- the counting loop

  function SaturatingSub(a: nat, b: nat): nat
  {
    if a < b then 0 else a - b
  }

  /** Nodes still to be emitted that point at `v`: what `v`'s counter counts. */
  ghost function PredsLeft(g: Graph, done: seq<string>, v: string): set<string>
  {
    set u | u in g && v in g[u] && u !in done
  }

  lemma PredsLeftEmpty(g: Graph, done: seq<string>, v: string)
    ensures PredsLeft(g, done, v) == {} <==> AllPredsIn(g, done, v)
    ensures |PredsLeft(g, done, v)| == 0 <==> AllPredsIn(g, done, v)
  {
    if PredsLeft(g, done, v) == {} {
      forall u | Edge(g, u, v)
        ensures u in done
      {
        assert u !in PredsLeft(g, done, v);
      }
    }
  }

  lemma EmitOne(g: Graph, done: seq<string>, u: string, v: string)
    requires u in g && u !in done
    ensures |PredsLeft(g, done, v)| == |PredsLeft(g, done + [u], v)| + (if v in g[u] then 1 else 0)
  {
    var before, after := PredsLeft(g, done, v), PredsLeft(g, done + [u], v);
    if v in g[u] {
      assert before == after + {u} && u !in after;
    } else {
      assert before == after;
    }
  }

  function Indegree(nodes: seq<DagNode>, v: string): nat
  {
    if nodes == [] then 0
    else Indegree(nodes[..|nodes| - 1], v) + (if v in nodes[|nodes| - 1].Successors() then 1 else 0)
  }

  ghost function PointingAt(nodes: seq<DagNode>, v: string): set<string>
  {
    set n | n in nodes && v in n.Successors() :: n.id
  }

  lemma PointingSnoc(init: seq<DagNode>, last: DagNode, v: string)
    ensures PointingAt(init + [last], v) == PointingAt(init, v) + (if v in last.Successors() then {last.id} else {})
    ensures last.id !in Ids(init) ==> last.id !in PointingAt(init, v)
  {
    hide DagNode.Successors;
    var nodes := init + [last];
    assert forall n :: n in nodes <==> n in init || n == last;
    if last.id in PointingAt(init, v) {
      var n :| n in init && n.id == last.id;
      var i :| 0 <= i < |init| && init[i] == n;
      assert Ids(init)[i] == last.id;
    }
  }

  lemma {:induction false} IndegreeCounts(nodes: seq<DagNode>, v: string)
    requires UniqueIds(nodes)
    ensures Indegree(nodes, v) == |PointingAt(nodes, v)|
  {
    if nodes == [] {
      assert PointingAt(nodes, v) == {};
    } else {
      hide DagNode.Successors, PointingAt;
      var k := |nodes| - 1;
      var init, last := nodes[..k], nodes[k];
      assert nodes == init + [last];
      assert Ids(nodes) == Ids(init) + [last.id];
      DistinctSnoc(Ids(init), last.id);
      IndegreeCounts(init, v);
      PointingSnoc(init, last, v);
    }
  }

  lemma InitialCounter(nodes: seq<DagNode>, v: string)
    requires UniqueIds(nodes)
    ensures Indegree(nodes, v) == |PredsLeft(Adjacency(nodes), [], v)|
  {
    IndegreeCounts(nodes, v);
    var g := Adjacency(nodes);
    forall u
      ensures u in PredsLeft(g, [], v) <==> u in PointingAt(nodes, v)
    {
      if u in PointingAt(nodes, v) {
        var n :| n in nodes && v in n.Successors() && n.id == u;
        EdgesOfNode(nodes, n);
      }
      if u in PredsLeft(g, [], v) {
        assert ById(nodes)[u] in nodes;
      }
    }
    assert PredsLeft(g, [], v) == PointingAt(nodes, v);
  }

  lemma TakeNext(s: seq<string>, j: nat)
    requires Distinct(s) && j < |s|
    ensures s[..j + 1] == s[..j] + [s[j]] && s[j] !in s[..j]
    ensures s[j..] == [s[j]] + s[j + 1..] && s[j] !in s[j + 1..]
  {
  }

  /** Adds one node's outgoing edges to the counters, or names the first target that is not a node. */
  method CountEdges(node: DagNode, indeg: map<string, nat>) returns (r: Option<string>, indeg': map<string, nat>)
    ensures r == MissingIn(node.Successors(), indeg.Keys) && indeg'.Keys == indeg.Keys
    ensures r.None? ==> forall v :: v in indeg ==> indeg'[v] == indeg[v] + (if v in node.Successors() then 1 else 0)
  {
    hide DagNode.Successors, Distinct;
    indeg' := indeg;
    var sucs := node.CollectSuccessors();
    assert sucs[0..] == sucs;
    for j := 0 to |sucs|
      invariant indeg'.Keys == indeg.Keys
      invariant MissingIn(sucs, indeg.Keys) == MissingIn(sucs[j..], indeg.Keys)
      invariant forall v :: v in indeg ==> indeg'[v] == indeg[v] + (if v in sucs[..j] then 1 else 0)
    {
      var suc := sucs[j];
      assert sucs[j..][0] == suc && sucs[j..][1..] == sucs[j + 1..];
      if suc !in indeg {
        return Some(suc), indeg';
      }
      TakeNext(sucs, j);
      indeg' := indeg'[suc := indeg'[suc] + 1];
    }
    assert sucs[..|sucs|] == sucs;
    return None, indeg';
  }

  /** One step of the scan over the nodes, for both things it computes. */
  lemma ScanStep(nodes: seq<DagNode>, i: nat, known: set<string>)
    requires i < |nodes|
    ensures var m := MissingIn(nodes[i].Successors(), known);
            FirstMissing(nodes[i..], known) == if m.Some? then Some((nodes[i].id, m.value)) else FirstMissing(nodes[i + 1..], known)
    ensures forall v :: Indegree(nodes[..i + 1], v) == Indegree(nodes[..i], v) + (if v in nodes[i].Successors() then 1 else 0)
  {
    hide DagNode.Successors, MissingIn;
    assert nodes[i..][0] == nodes[i] && nodes[i..][1..] == nodes[i + 1..];
    assert nodes[..i + 1][..i] == nodes[..i];
  }

  lemma ScanEnd(nodes: seq<DagNode>, known: set<string>)
    requires nodes == []
    ensures FirstMissing(nodes, known) == None
  {
  }

  lemma IndegreeOfNone(nodes: seq<DagNode>)
    requires nodes == []
    ensures forall v :: Indegree(nodes, v) == 0
  {
  }

  lemma KnownIsIndex(nodes: seq<DagNode>)
    ensures Known(nodes) == ById(nodes).Keys
  {
  }

  /** The first `i` nodes have been scanned: their edges are counted, and none of them leads to a missing node. */
  ghost predicate Scanned(nodes: seq<DagNode>, i: nat, indeg: map<string, nat>)
  {
    && i <= |nodes| && indeg.Keys == Known(nodes)
    && FirstMissing(nodes, Known(nodes)) == FirstMissing(nodes[i..], Known(nodes))
    && forall v :: v in indeg ==> indeg[v] == Indegree(nodes[..i], v)
  }

  lemma ScanStarts(nodes: seq<DagNode>)
    ensures Scanned(nodes, 0, map id | id in ById(nodes) :: 0)
  {
    hide ById, FirstMissing, Indegree, Known;
    KnownIsIndex(nodes);
    IndegreeOfNone(nodes[..0]);
    assert nodes[0..] == nodes;
  }

  lemma ScanNext(nodes: seq<DagNode>, i: nat, indeg: map<string, nat>, counted: map<string, nat>)
    requires i < |nodes| && Scanned(nodes, i, indeg) && counted.Keys == indeg.Keys
    ensures MissingIn(nodes[i].Successors(), indeg.Keys).Some? ==>
              FirstMissing(nodes, Known(nodes)) == Some((nodes[i].id, MissingIn(nodes[i].Successors(), indeg.Keys).value))
    ensures MissingIn(nodes[i].Successors(), indeg.Keys).None?
            && (forall v :: v in indeg ==> counted[v] == indeg[v] + (if v in nodes[i].Successors() then 1 else 0))
            ==> Scanned(nodes, i + 1, counted)
  {
    hide DagNode.Successors, MissingIn, FirstMissing, Indegree, Known;
    ScanStep(nodes, i, Known(nodes));
  }

  lemma ScanIsDone(nodes: seq<DagNode>, indeg: map<string, nat>)
    requires Scanned(nodes, |nodes|, indeg)
    ensures FirstMissing(nodes, Known(nodes)).None? && forall v :: v in indeg ==> indeg[v] == Indegree(nodes, v)
    ensures indeg.Keys == ById(nodes).Keys
  {
    hide FirstMissing, Indegree, Known, ById;
    KnownIsIndex(nodes);
    ScanEnd(nodes[|nodes|..], Known(nodes));
    assert nodes[..|nodes|] == nodes;
  }

  method CountIndegrees(dag: DagManifest, byId: map<string, DagNode>) returns (r: Result<map<string, nat>, ScheduleError>)
    requires byId == ById(dag.nodes)
    ensures var missing := FirstMissing(dag.nodes, Known(dag.nodes));
            && (missing.Some? ==> r == Err(MissingSuccessor(missing.value.0, missing.value.1)))
            && (missing.None? ==> r.Ok? && r.value.Keys == byId.Keys &&
                                  forall v :: v in r.value ==> r.value[v] == Indegree(dag.nodes, v))
  {
    hide *;
    var indeg: map<string, nat> := map id | id in byId :: 0;
    ScanStarts(dag.nodes);
    for i := 0 to |dag.nodes|
      invariant Scanned(dag.nodes, i, indeg)
    {
      var node := dag.nodes[i];
      var missing, counted := CountEdges(node, indeg);
      ScanNext(dag.nodes, i, indeg, counted);
      if missing.Some? {
        return Err(MissingSuccessor(node.id, missing.value));
      }
      indeg := counted;
    }
    ScanIsDone(dag.nodes, indeg);
    return Ok(indeg);
  }

  /** The counters hold the open predecessors, and one more for each node still to be released. */
  ghost predicate Counting(g: Graph, order: seq<string>, indeg: map<string, nat>, pending: seq<string>)
  {
    indeg.Keys == g.Keys
    && forall v :: v in g ==> indeg[v] == |PredsLeft(g, order, v)| + (if v in pending then 1 else 0)
  }

  lemma CountDown(g: Graph, order: seq<string>, indeg: map<string, nat>, sucs: seq<string>, j: nat)
    requires j < |sucs| && sucs[j] in g && Distinct(sucs) && Counting(g, order, indeg, sucs[j..])
    ensures sucs[j] in indeg && indeg[sucs[j]] == |PredsLeft(g, order, sucs[j])| + 1
    ensures Counting(g, order, indeg[sucs[j] := indeg[sucs[j]] - 1], sucs[j + 1..])
  {
    hide PredsLeft, Distinct;
    TakeNext(sucs, j);
  }

  /** Decrements the counters of one emitted node's successors and queues those that reach zero. */
  method ReleaseSuccessors(ghost g: Graph, node: DagNode, order: seq<string>,
                           indeg: map<string, nat>, ready: seq<string>)
    returns (indeg': map<string, nat>, ready': seq<string>)
    requires Closed(g) && node.id in g && g[node.id] == node.Successors()
    requires Counting(g, order, indeg, g[node.id])
    requires forall v :: v in g[node.id] ==> v !in order && v !in ready
    ensures Counting(g, order, indeg', [])
    ensures ready' == ready + Freed(g, order, g[node.id])
  {
    hide DagNode.Successors, PredsLeft, Freed, AllPredsIn, Distinct, Counting;
    indeg', ready' := indeg, ready;
    var sucs := node.CollectSuccessors();
    assert sucs[0..] == sucs;
    for j := 0 to |sucs|
      invariant Counting(g, order, indeg', sucs[j..])
      invariant ready' == ready + Freed(g, order, sucs[..j])
    {
      var suc := sucs[j];
      assert Edge(g, node.id, suc);
      TakeNext(sucs, j);
      CountDown(g, order, indeg', sucs, j);
      var deg := SaturatingSub(indeg'[suc], 1);
      indeg' := indeg'[suc := deg];
      PredsLeftEmpty(g, order, suc);
      FreedSnoc(g, order, sucs[..j], suc);
      if deg == 0 && suc !in order && suc !in ready' {
        ready' := ready' + [suc];
      }
    }
    assert sucs[..|sucs|] == sucs;
  }

  method TopoNodeIds(dag: DagManifest) returns (r: Result<seq<string>, ScheduleError>)
    ensures r == Topo(dag)
  {
    hide DagNode.Successors, ById, Ids, Adjacency, NoMissing, InitialReady, KahnFrom, FirstMissing, PredsLeft,
         Closed, KahnInv;
    var byId := ById(dag.nodes);
    ByIdSize(dag.nodes);
    if |dag.nodes| != |byId| {
      return Err(DuplicateId);
    }
    NothingMissing(dag.nodes);
    var counted := CountIndegrees(dag, byId);
    if counted.Err? {
      return Err(counted.error);
    }
    r := EmitAll(dag, byId, counted.value);
  }

  /** The emission loop, once the counters are known. */
  method EmitAll(dag: DagManifest, byId: map<string, DagNode>, counters: map<string, nat>)
    returns (r: Result<seq<string>, ScheduleError>)
    requires byId == ById(dag.nodes) && UniqueIds(dag.nodes) && NoMissing(dag.nodes)
    requires counters.Keys == byId.Keys && forall v :: v in counters ==> counters[v] == Indegree(dag.nodes, v)
    ensures var run := WholeRun(dag);
            r == if run.None? then Err(MaxStepsExceeded)
                 else if |run.value| != |dag.nodes| then Err(NotCover(|run.value|))
                 else Ok(run.value)
  {
    hide *;
    ghost var g := Adjacency(dag.nodes);
    var indeg := counters;
    CountersAreOpen(dag.nodes, counters);
    var roots := ZeroIndegree(g, dag.nodes, indeg);
    var ready := FrontLoad(roots, dag.entry);
    EmitStart(dag, indeg);
    var order := [];
    var steps: U32 := 0;
    while ready != []
      invariant steps == |order| <= dag.maxSteps
      invariant Emitting(dag, indeg, ready, order)
      decreases dag.maxSteps - steps
    {
      EmitStep(dag, indeg, ready, order);
      if steps >= dag.maxSteps {
        return Err(MaxStepsExceeded);
      }
      var id := ready[0];
      steps := steps + 1;
      ready := ready[1..];
      order := order + [id];
      indeg, ready := ReleaseSuccessors(g, byId[id], order, indeg, ready);
      EmittedNext(dag, indeg, ready, order);
    }
    EmitEnd(dag, indeg, order);
    if |order| != |dag.nodes| {
      return Err(NotCover(|order|));
    }
    return Ok(order);
  }

  /** Counters and lists in the middle of the loop, and what the counter-free run still has to do. */
  ghost predicate Emitting(dag: DagManifest, indeg: map<string, nat>, ready: seq<string>, order: seq<string>)
    requires UniqueIds(dag.nodes) && NoMissing(dag.nodes)
  {
    var g := Adjacency(dag.nodes);
    && Counting(g, order, indeg, [])
    && OnRun(dag, ready, order)
  }

  ghost predicate OnRun(dag: DagManifest, ready: seq<string>, order: seq<string>)
    requires UniqueIds(dag.nodes) && NoMissing(dag.nodes)
  {
    NoMissingIffClosed(dag.nodes);
    var g := Adjacency(dag.nodes);
    && KahnInv(g, ready, order)
    && (forall v :: v in ready ==> v in g)
    && WholeRun(dag) == KahnFrom(g, dag.maxSteps, ready, order)
  }

  lemma CountersAreOpen(nodes: seq<DagNode>, counters: map<string, nat>)
    requires UniqueIds(nodes) && NoMissing(nodes)
    requires counters.Keys == ById(nodes).Keys && forall v :: v in counters ==> counters[v] == Indegree(nodes, v)
    ensures var g := Adjacency(nodes);
            g.Keys == Elements(Ids(nodes)) == counters.Keys && forall v :: v in g ==> counters[v] == |PredsLeft(g, [], v)|
  {
    hide ById, PredsLeft, Indegree, UniqueIds, NoMissing, DagNode.Successors;
    forall v | v in Adjacency(nodes)
      ensures counters[v] == |PredsLeft(Adjacency(nodes), [], v)|
    {
      InitialCounter(nodes, v);
    }
  }

  lemma RunStarts(dag: DagManifest)
    requires UniqueIds(dag.nodes) && NoMissing(dag.nodes)
    ensures OnRun(dag, FrontLoad(Freed(Adjacency(dag.nodes), [], Ids(dag.nodes)), dag.entry), [])
  {
    hide KahnInv, KahnFrom, Adjacency, NoMissing, Closed, Freed, FrontLoad;
    var g := Adjacency(dag.nodes);
    NoMissingIffClosed(dag.nodes);
    InitialInv(g, Ids(dag.nodes), dag.entry);
    InitialMembers(g, Ids(dag.nodes), dag.entry);
  }

  lemma EmitStart(dag: DagManifest, indeg: map<string, nat>)
    requires UniqueIds(dag.nodes) && NoMissing(dag.nodes)
    requires var g := Adjacency(dag.nodes);
             indeg.Keys == g.Keys && forall v :: v in g ==> indeg[v] == |PredsLeft(g, [], v)|
    ensures Emitting(dag, indeg, FrontLoad(Freed(Adjacency(dag.nodes), [], Ids(dag.nodes)), dag.entry), [])
  {
    hide OnRun, Counting, PredsLeft, Freed, FrontLoad, Adjacency, UniqueIds, NoMissing;
    CountingIntro(Adjacency(dag.nodes), [], indeg);
    RunStarts(dag);
  }

  /** One turn: the run goes on or is over, and the head of the ready list can be released. */
  lemma EmitStep(dag: DagManifest, indeg: map<string, nat>, ready: seq<string>, order: seq<string>)
    requires UniqueIds(dag.nodes) && NoMissing(dag.nodes) && Emitting(dag, indeg, ready, order) && ready != []
    ensures |order| >= dag.maxSteps ==> WholeRun(dag).None?
    ensures var g, id := Adjacency(dag.nodes), ready[0];
            && Closed(g) && id in g && id in ById(dag.nodes) && ById(dag.nodes)[id].id == id
            && g[id] == ById(dag.nodes)[id].Successors()
            && Counting(g, order + [id], indeg, g[id])
            && (forall v :: v in g[id] ==> v !in order + [id] && v !in ready[1..])
            && (|order| < dag.maxSteps ==> OnRun(dag, ready[1..] + Freed(g, order + [id], g[id]), order + [id]))
  {
    hide Adjacency, NoMissing, UniqueIds, KahnInv, Counting, PredsLeft, DagNode.Successors, ById, WholeRun, Freed;
    var g, id := Adjacency(dag.nodes), ready[0];
    NoMissingIffClosed(dag.nodes);
    assert id in ready && id in g;
    EmissionFacts(g, ready, order, dag.nodes);
    CountingNext(g, order, indeg, id);
    InvMembers(g, ready[1..] + Freed(g, order + [id], g[id]), order + [id]);
  }

  lemma EmittedNext(dag: DagManifest, indeg: map<string, nat>, ready: seq<string>, order: seq<string>)
    requires UniqueIds(dag.nodes) && NoMissing(dag.nodes)
    requires Counting(Adjacency(dag.nodes), order, indeg, []) && OnRun(dag, ready, order)
    ensures Emitting(dag, indeg, ready, order)
  {
    hide OnRun, Counting, Adjacency, UniqueIds, NoMissing;
  }

  lemma EmitEnd(dag: DagManifest, indeg: map<string, nat>, order: seq<string>)
    requires UniqueIds(dag.nodes) && NoMissing(dag.nodes) && Emitting(dag, indeg, [], order)
    ensures WholeRun(dag) == Some(order)
  {
    hide Adjacency, NoMissing, UniqueIds, KahnInv, Counting, WholeRun;
  }

  lemma CountingIntro(g: Graph, order: seq<string>, indeg: map<string, nat>)
    requires indeg.Keys == g.Keys && forall v :: v in g ==> indeg[v] == |PredsLeft(g, order, v)|
    ensures Counting(g, order, indeg, [])
  {
    hide PredsLeft;
  }

  lemma CountingNext(g: Graph, order: seq<string>, indeg: map<string, nat>, id: string)
    requires Counting(g, order, indeg, []) && id in g
    requires forall v :: v in g ==> |PredsLeft(g, order, v)|
                                    == |PredsLeft(g, order + [id], v)| + (if v in g[id] then 1 else 0)
    ensures Counting(g, order + [id], indeg, g[id])
  {
    hide PredsLeft;
  }

  lemma InvMembers(g: Graph, ready: seq<string>, order: seq<string>)
    requires KahnInv(g, ready, order)
    ensures forall v :: v in ready ==> v in g
  {
  }

  /** What popping the head of the ready list changes, before its successors are released. */
  lemma EmissionFacts(g: Graph, ready: seq<string>, order: seq<string>, nodes: seq<DagNode>)
    requires UniqueIds(nodes) && g == Adjacency(nodes) && Closed(g)
    requires KahnInv(g, ready, order) && ready != [] && ready[0] in g
    ensures var id := ready[0];
            && ById(nodes)[id].id == id && g[id] == ById(nodes)[id].Successors()
            && KahnInv(g, ready[1..] + Freed(g, order + [id], g[id]), order + [id])
            && (forall v :: v in g[id] ==> v !in order + [id] && v !in ready[1..])
            && (forall v :: v in g ==> |PredsLeft(g, order, v)|
                                       == |PredsLeft(g, order + [id], v)| + (if v in g[id] then 1 else 0))
  {
    var id := ready[0];
    assert id in ready;
    AdjacencyLists(nodes);
    EdgesOfNode(nodes, ById(nodes)[id]);
    hide DagNode.Successors, ById, Adjacency, Freed, PredsLeft, SimpleLists, KahnInv, Closed;
    StepKeepsInv(g, ready, order);
    HeadIsNew(g, ready, order);
    forall v | v in g
      ensures |PredsLeft(g, order, v)| == |PredsLeft(g, order + [id], v)| + (if v in g[id] then 1 else 0)
    {
      EmitOne(g, order, id, v);
    }
  }

  lemma HeadIsNew(g: Graph, ready: seq<string>, order: seq<string>)
    requires KahnInv(g, ready, order) && ready != [] && Closed(g) && ready[0] in g
    ensures ready[0] !in order
    ensures forall v :: v in g[ready[0]] ==> v !in order + [ready[0]] && v !in ready[1..]
  {
    assert ready == [ready[0]] + ready[1..];
    SuccessorsAreNew(g, ready, order);
    DistinctParts(order, ready);
    assert ready[0] in ready;
  }

  /** The roots of the graph, in node order. */
  method ZeroIndegree(ghost g: Graph, nodes: seq<DagNode>, indeg: map<string, nat>) returns (roots: seq<string>)
    requires g.Keys == Elements(Ids(nodes))
    requires indeg.Keys == g.Keys && forall v :: v in g ==> indeg[v] == |PredsLeft(g, [], v)|
    ensures roots == Freed(g, [], Ids(nodes))
  {
    IdsKnown(nodes);
    hide *;
    roots := [];
    ghost var ids := Ids(nodes);
    for i := 0 to |nodes|
      invariant roots == Freed(g, [], ids[..i])
    {
      var id := nodes[i].id;
      assert ids[i] == id && ids[..i + 1] == ids[..i] + [id];
      PredsLeftEmpty(g, [], id);
      FreedSnoc(g, [], ids[..i], id);
      if indeg[id] == 0 {
        roots := roots + [id];
      }
    }
    assert ids[..|nodes|] == ids;
  }

  lemma IdsKnown(nodes: seq<DagNode>)
    ensures forall i :: 0 <= i < |nodes| ==> nodes[i].id in Elements(Ids(nodes))
  {
    assert forall i :: 0 <= i < |nodes| ==> Ids(nodes)[i] in Elements(Ids(nodes));
  }
}
