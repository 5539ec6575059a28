/** A graph that passes validation and that the two schedulers order differently: its last node has a blank id. */
module BlankId {
  import opened Wrappers
  import opened Digraph
  import opened TaskGraph
  import opened BoundedDag
  import opened LinearDag
  import opened CandidateDag
  import opened ForkBack
  import opened RepairStore

  function Chain(a: string, b: string): DagManifest
  {
    DagManifest(SCHEMA_VERSION, "ops", None, a, 8, None, [Work(a, Some(b), []), Work(b, Some(""), []), Work("", None, [])])
  }

  lemma ChainIsValid(a: string, b: string)
    requires a != "" && b != "" && a != b
    ensures Ids(Chain(a, b).nodes) == [a, b, ""] && UniqueIds(Chain(a, b).nodes) && !HasFork(Chain(a, b).nodes)
    ensures ValidGraph(Chain(a, b)) && CanonicalCaps(Chain(a, b))
  {
    var dag := Chain(a, b);
    assert Ids(dag.nodes) == [a, b, ""];
    assert [a, b, ""][0] == a && [a, b, ""][1] == b && [a, b, ""][2] == "";
    WorkIsValid(dag);
  }

  lemma ChainCovers(a: string, b: string)
    requires a != "" && b != "" && a != b
    ensures LinearCover(Chain(a, b), [a, b, ""])
  {
    hide ById, Follows, EndsAt, UniqueIds, ValidGraph, CanonicalCaps, Ids, HasFork;
    ChainIsValid(a, b);
    var dag, o := Chain(a, b), [a, b, ""];
    ChainLinks(a, b);
    assert o[0] == a && o[1] == b && o[2] == "";
    assert Distinct(o) && Trail(dag, o);
    CoverFound(dag, o);
  }

  lemma ChainLinks(a: string, b: string)
    requires a != "" && b != "" && a != b
    ensures var nodes := Chain(a, b).nodes; Follows(nodes, a, b) && Follows(nodes, b, "") && EndsAt(nodes, "")
  {
    ChainIsValid(a, b);
    var nodes := Chain(a, b).nodes;
    hide UniqueIds, ById;
    UniqueById(nodes, nodes[0]);
    UniqueById(nodes, nodes[1]);
    UniqueById(nodes, nodes[2]);
  }

  /** The chain walks `a, b` and then the blank node; counting predecessors, the blank node has none and comes second. */
  lemma BlankJumpsAhead(a: string, b: string)
    requires a != "" && b != "" && a != b
    ensures ValidGraph(Chain(a, b)) && CanonicalCaps(Chain(a, b))
    ensures Schedule(Chain(a, b)) == Some([a, b, ""])
    ensures Topo(Chain(a, b)) == Result.Ok([a, "", b])
  {
    hide *;
    var dag, o := Chain(a, b), [a, b, ""];
    ChainIsValid(a, b);
    ChainCovers(a, b);
    LinearSchedule(dag, o);
    SchedulersAgreeExactly(dag, o);
    BlankComesSecond(dag, o, 2);
    TopoCharacterised(dag);
    CoverLists(dag, o);
    ThirdIs(Topo(dag).value, o, a, b, Adjacency(dag.nodes));
  }

  lemma LinearSchedule(dag: DagManifest, o: seq<string>)
    requires LinearCover(dag, o) && !HasFork(dag.nodes)
    ensures Schedule(dag) == Some(o)
  {
    hide LinearCover;
  }

  lemma ThirdIs(t: seq<string>, o: seq<string>, a: string, b: string, g: Graph)
    requires a != "" && b != "" && a != b && o == [a, b, ""] && Elements(o) == g.Keys
    requires TopoOrder(g, t) && |t| == 3 && [a, ""] <= t
    ensures t == [a, "", b]
  {
    assert t[0] == [a, ""][0] && t[1] == [a, ""][1];
    assert t[2] in Elements(t);
  }
}
