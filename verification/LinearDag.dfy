/**
 The linear scheduler (one `next` chain that must cover the graph), the choice between the two
 schedulers, and their agreement wherever both apply.
 */
module LinearDag {
  import opened Wrappers
  import opened Digraph
  import opened TaskGraph
  import opened KahnRun
  import opened BoundedDag

  /** `p` starts at the entry and follows `next`; only its last id may fail to be a node. */
  ghost predicate Trail(dag: DagManifest, p: seq<string>)
  {
    && p != [] && p[0] == dag.entry
    && forall i :: 0 <= i < |p| - 1 ==> Follows(dag.nodes, p[i], p[i + 1])
  }

  ghost predicate Follows(nodes: seq<DagNode>, a: string, b: string)
  {
    a in ById(nodes) && ById(nodes)[a].next == Some(b)
  }

  ghost predicate EndsAt(nodes: seq<DagNode>, a: string)
  {
    a in ById(nodes) && ById(nodes)[a].next == None
  }

  /** The chain from the entry visits every node once and fits the step cap. */
  ghost predicate LinearCover(dag: DagManifest, order: seq<string>)
  {
    && UniqueIds(dag.nodes)
    && Trail(dag, order) && Distinct(order) && EndsAt(dag.nodes, order[|order| - 1])
    && |order| == |dag.nodes| <= dag.maxSteps
  }

  lemma {:induction false} TrailsAgree(dag: DagManifest, p: seq<string>, q: seq<string>, n: nat)
    requires Trail(dag, p) && Trail(dag, q) && n <= |p| && n <= |q|
    ensures p[..n] == q[..n]
  {
    hide ById;
    if n > 0 {
      TrailsAgree(dag, p, q, n - 1);
      assert p[..n] == p[..n - 1] + [p[n - 1]] && q[..n] == q[..n - 1] + [q[n - 1]];
      if n > 1 {
        assert p[n - 2] == p[..n - 1][n - 2] == q[..n - 1][n - 2] == q[n - 2];
        assert Follows(dag.nodes, p[n - 2], p[n - 2 + 1]) && Follows(dag.nodes, q[n - 2], q[n - 2 + 1]);
      }
    }
  }

  lemma CoverUnique(dag: DagManifest, p: seq<string>, q: seq<string>)
    requires LinearCover(dag, p) && LinearCover(dag, q)
    ensures p == q
  {
    TrailsAgree(dag, p, q, |p|);
    assert p[..|p|] == p && q[..|p|] == q;
  }

  lemma TrailSnoc(dag: DagManifest, p: seq<string>, x: string)
    requires Trail(dag, p) && Follows(dag.nodes, p[|p| - 1], x)
    ensures Trail(dag, p + [x])
  {
    var t := p + [x];
    forall i | 0 <= i < |t| - 1
      ensures Follows(dag.nodes, t[i], t[i + 1])
    {
      if i < |p| - 1 {
        assert Follows(dag.nodes, p[i], p[i + 1]);
      }
    }
  }

  /**
   The walk, with the trail it followed. Every outcome is explained by that trail:
   the ids visited, plus the id on which the walk stopped when it stopped early.
   */
  method LinearNodeIds(dag: DagManifest) returns (r: Result<seq<string>, ScheduleError>, ghost trail: seq<string>)
    ensures r.Ok? ==> LinearCover(dag, r.value)
    ensures (exists o :: LinearCover(dag, o)) ==> r.Ok?
    ensures r == Err(DuplicateId) <==> !UniqueIds(dag.nodes)
    ensures r != Err(DuplicateId) ==> Trail(dag, trail)
    ensures r.Err? ==> match r.error
              case MaxStepsExceeded => |trail| == dag.maxSteps + 1 && Distinct(trail[..dag.maxSteps])
              case MissingNode(id) => |trail| <= dag.maxSteps && trail[|trail| - 1] == id && id !in Ids(dag.nodes)
              case CycleAt(id) => |trail| <= dag.maxSteps && trail[|trail| - 1] == id && id in trail[..|trail| - 1]
              case NotCover(n) => n == |trail| <= dag.maxSteps && Distinct(trail) && n != |dag.nodes|
                                  && EndsAt(dag.nodes, trail[n - 1])
              case DuplicateId => true
              case MissingSuccessor(_, _) => false
  {
    hide ById, Trail, Follows, EndsAt, UniqueIds, LinearCover, Distinct;
    trail := [];
    NothingWalked(dag);
    var byId := ById(dag.nodes);
    ByIdSize(dag.nodes);
    CoverNeedsUniqueIds(dag);
    if |dag.nodes| != |byId| {
      return Err(DuplicateId), [];
    }
    var order: seq<string> := [];
    var seen: set<string> := {};
    var current := dag.entry;
    var steps: U32 := 0;
    trail := [current];
    while true
      invariant trail == order + [current] && Trail(dag, trail)
      invariant seen == Elements(order) && Distinct(order)
      invariant forall v :: v in order ==> v in byId
      invariant steps == |order| <= dag.maxSteps
      decreases dag.maxSteps - steps
    {
      if steps >= dag.maxSteps {
        NoCoverBeyond(dag, trail);
        assert trail[..dag.maxSteps] == order;
        return Err(MaxStepsExceeded), trail;
      }
      steps := steps + 1;
      DistinctSnoc(order, current);
      if current !in byId {
        NoCoverBeyond(dag, trail);
        return Err(MissingNode(current)), trail;
      }
      if current in seen {
        assert trail[..|trail| - 1] == order;
        NoCoverBeyond(dag, trail);
        return Err(CycleAt(current)), trail;
      }
      FollowsNext(dag.nodes, current, current);
      FollowsFrom(dag.nodes, current);
      seen := seen + {current};
      order := order + [current];
      var next := byId[current].next;
      if next.None? {
        break;
      }
      TrailSnoc(dag, order, next.value);
      current := next.value;
      trail := order + [current];
    }
    trail := order;
    if |order| != |dag.nodes| {
      NoCoverElsewhere(dag, trail);
      return Err(NotCover(|order|)), trail;
    }
    CoverFound(dag, order);
    return Ok(order), trail;
  }

  lemma CoverNeedsUniqueIds(dag: DagManifest)
    ensures forall o :: LinearCover(dag, o) ==> UniqueIds(dag.nodes)
  {
    hide UniqueIds, Trail, EndsAt;
  }

  lemma NothingWalked(dag: DagManifest)
    ensures Distinct([]) && Trail(dag, [] + [dag.entry])
  {
  }

  lemma FollowsFrom(nodes: seq<DagNode>, u: string)
    ensures forall v :: Follows(nodes, u, v) <==> u in ById(nodes) && ById(nodes)[u].next == Some(v)
  {
    hide ById;
  }

  lemma CoverFound(dag: DagManifest, o: seq<string>)
    requires o != [] && UniqueIds(dag.nodes) && Trail(dag, o) && Distinct(o) && EndsAt(dag.nodes, o[|o| - 1])
    requires |o| == |dag.nodes| <= dag.maxSteps
    ensures LinearCover(dag, o)
  {
    hide Follows, EndsAt, UniqueIds, Distinct;
  }

  /** A trail that is too long, leaves the graph or revisits a node rules out every cover. */
  lemma NoCoverBeyond(dag: DagManifest, trail: seq<string>)
    requires Trail(dag, trail)
    requires |trail| > dag.maxSteps || trail[|trail| - 1] !in Ids(dag.nodes) || !Distinct(trail)
    ensures forall o :: !LinearCover(dag, o)
  {
    forall o
      ensures !LinearCover(dag, o)
    {
      if LinearCover(dag, o) {
        CoverContains(dag, o, trail);
      }
    }
  }

  /** Every trail is a beginning of the cover, if there is one. */
  lemma CoverContains(dag: DagManifest, o: seq<string>, trail: seq<string>)
    requires LinearCover(dag, o) && Trail(dag, trail)
    ensures |trail| <= dag.maxSteps && trail[|trail| - 1] in Ids(dag.nodes) && Distinct(trail)
  {
    hide ById, UniqueIds;
    TrailWithin(dag, o, trail);
    var k := |trail| - 1;
    assert trail[k] == o[k];
    if k < |o| - 1 {
      assert Follows(dag.nodes, o[k], o[k + 1]);
    }
  }

  lemma TrailGoesOn(dag: DagManifest, trail: seq<string>, i: nat)
    requires Trail(dag, trail) && i < |trail| - 1
    ensures !EndsAt(dag.nodes, trail[i])
  {
    assert Follows(dag.nodes, trail[i], trail[i + 1]);
  }

  lemma TrailWithin(dag: DagManifest, o: seq<string>, trail: seq<string>)
    requires Trail(dag, o) && Trail(dag, trail) && EndsAt(dag.nodes, o[|o| - 1])
    ensures |trail| <= |o| && trail == o[..|trail|]
  {
    hide ById;
    var n := if |o| < |trail| then |o| else |trail|;
    TrailsAgree(dag, o, trail, n);
    assert o[n - 1] == o[..n][n - 1] == trail[..n][n - 1] == trail[n - 1];
    assert trail[..|trail|] == trail;
    if |o| < |trail| {
      TrailGoesOn(dag, trail, n - 1);
    }
  }

  lemma NoCoverElsewhere(dag: DagManifest, trail: seq<string>)
    requires Trail(dag, trail) && EndsAt(dag.nodes, trail[|trail| - 1]) && |trail| != |dag.nodes|
    ensures forall o :: !LinearCover(dag, o)
  {
    hide ById, UniqueIds;
    forall o | Trail(dag, o) && EndsAt(dag.nodes, o[|o| - 1])
      ensures |o| == |trail|
    {
      TrailWithin(dag, o, trail);
      TrailWithin(dag, trail, o);
    }
  }

  // ---------------------------------------------------------------- the choice between the schedulers

  ghost function Linear(dag: DagManifest): (r: Option<seq<string>>)
    ensures r.Some? ==> LinearCover(dag, r.value)
    ensures forall o :: LinearCover(dag, o) ==> r == Some(o)
  {
    if o :| LinearCover(dag, o) then
      assert forall p :: LinearCover(dag, p) ==> p == o by {
        forall p | LinearCover(dag, p)
          ensures p == o
        {
          CoverUnique(dag, p, o);
        }
      }
      Some(o)
    else None
  }

  /** The order the host runs: Kahn when any node forks, the single chain otherwise. */
  ghost function Schedule(dag: DagManifest): Option<seq<string>>
  {
    if HasFork(dag.nodes) then
      if Topo(dag).Ok? then Some(Topo(dag).value) else None
    else Linear(dag)
  }

  /** With a fork somewhere the schedule is Kahn's, without one it is the chain that covers the graph, if there is one. */
  lemma ScheduleMeaning(dag: DagManifest, o: seq<string>)
    ensures (exists n :: n in dag.nodes && n.fork != []) ==> (Schedule(dag) == Some(o) <==> Topo(dag) == Ok(o))
    ensures (forall n :: n in dag.nodes ==> n.fork == []) ==> (Schedule(dag) == Some(o) <==> LinearCover(dag, o))
  {
    hide Topo, LinearCover;
  }

  method ScheduleNodeIds(dag: DagManifest) returns (r: Result<seq<string>, ScheduleError>)
    ensures r.Ok? <==> Schedule(dag).Some?
    ensures r.Ok? ==> r.value == Schedule(dag).value
    ensures (exists n :: n in dag.nodes && n.fork != []) ==> r == Topo(dag)
  {
    hide Topo, LinearCover;
    if HasFork(dag.nodes) {
      r := TopoNodeIds(dag);
    } else {
      ghost var trail;
      r, trail := LinearNodeIds(dag);
    }
  }

  // ---------------------------------------------------------------- agreement

  lemma ForkFreeSuccessors(nodes: seq<DagNode>, n: DagNode)
    requires !HasFork(nodes) && n in nodes
    ensures n.Successors() == if n.next.Some? && n.next.value != "" then [n.next.value] else []
  {
  }

  /** A linear cover lists every node id. */
  lemma CoverElements(dag: DagManifest, o: seq<string>)
    requires LinearCover(dag, o)
    ensures Elements(o) == Elements(Ids(dag.nodes))
  {
    hide ById;
    forall i | 0 <= i < |o|
      ensures o[i] in Ids(dag.nodes)
    {
      if i < |o| - 1 {
        assert Follows(dag.nodes, o[i], o[i + 1]);
      }
    }
    DistinctSize(o);
    DistinctSize(Ids(dag.nodes));
    SubsetSize(Elements(o), Elements(Ids(dag.nodes)));
  }

  lemma ForkFreeEdge(nodes: seq<DagNode>, u: string, v: string)
    requires !HasFork(nodes) && u in ById(nodes)
    ensures Edge(Adjacency(nodes), u, v) <==> v != "" && ById(nodes)[u].next == Some(v)
  {
    hide ById, HasFork, DagNode.Successors;
    ForkFreeSuccessors(nodes, ById(nodes)[u]);
  }

  lemma EdgeKnown(nodes: seq<DagNode>, u: string, v: string)
    ensures Edge(Adjacency(nodes), u, v) ==> u in ById(nodes)
  {
    hide ById, DagNode.Successors;
  }

  lemma FollowsNext(nodes: seq<DagNode>, u: string, v: string)
    ensures Follows(nodes, u, v) <==> u in ById(nodes) && ById(nodes)[u].next == Some(v)
    ensures EndsAt(nodes, u) <==> u in ById(nodes) && ById(nodes)[u].next == None
  {
    hide ById;
  }

  /** What a cover says about one position. */
  lemma CoverAt(dag: DagManifest, o: seq<string>, i: nat)
    requires LinearCover(dag, o) && i < |o|
    ensures if i < |o| - 1 then Follows(dag.nodes, o[i], o[i + 1]) else EndsAt(dag.nodes, o[i])
  {
    hide Follows, EndsAt, UniqueIds, Distinct;
  }

  lemma CoverKnown(dag: DagManifest, o: seq<string>, v: string)
    requires LinearCover(dag, o)
    ensures v in o <==> v in ById(dag.nodes)
  {
    hide LinearCover;
    CoverElements(dag, o);
    assert v in Elements(o) <==> v in Elements(Ids(dag.nodes));
  }

  lemma NodeIdNonEmpty(nodes: seq<DagNode>, v: string)
    requires NonEmptyIds(nodes) && v in ById(nodes)
    ensures v != ""
  {
    hide ById;
    assert ById(nodes)[v] in nodes;
  }

  /** Every edge of a fork-free graph is a link of the chain. */
  lemma EdgeIsLink(dag: DagManifest, o: seq<string>, u: string, v: string)
    requires LinearCover(dag, o) && !HasFork(dag.nodes) && Edge(Adjacency(dag.nodes), u, v)
    ensures exists i :: 0 <= i < |o| - 1 && o[i] == u && o[i + 1] == v
  {
    hide *;
    EdgeKnown(dag.nodes, u, v);
    CoverKnown(dag, o, u);
    ForkFreeEdge(dag.nodes, u, v);
    FollowsNext(dag.nodes, u, v);
    var i :| 0 <= i < |o| && o[i] == u;
    CoverAt(dag, o, i);
    if i < |o| - 1 {
      FollowsNext(dag.nodes, u, o[i + 1]);
    }
  }

  lemma LinkIsEdge(dag: DagManifest, o: seq<string>, i: nat)
    requires LinearCover(dag, o) && !HasFork(dag.nodes) && i < |o| - 1 && o[i + 1] != ""
    ensures Edge(Adjacency(dag.nodes), o[i], o[i + 1])
  {
    hide *;
    CoverAt(dag, o, i);
    CoverKnown(dag, o, o[i]);
    FollowsNext(dag.nodes, o[i], o[i + 1]);
    ForkFreeEdge(dag.nodes, o[i], o[i + 1]);
  }

  lemma EdgeIsNotBlank(nodes: seq<DagNode>, u: string, v: string)
    ensures Edge(Adjacency(nodes), u, v) ==> v != ""
  {
    hide DagNode.Successors, ById;
  }

  /** On a fork-free graph the edges are exactly the links of the chain that do not lead to a blank id. */
  lemma CoverEdges(dag: DagManifest, o: seq<string>, u: string, v: string)
    requires LinearCover(dag, o) && !HasFork(dag.nodes)
    ensures Edge(Adjacency(dag.nodes), u, v) <==> v != "" && exists i :: 0 <= i < |o| - 1 && o[i] == u && o[i + 1] == v
  {
    hide *;
    EdgeIsNotBlank(dag.nodes, u, v);
    if Edge(Adjacency(dag.nodes), u, v) {
      EdgeIsLink(dag, o, u, v);
    }
    if v != "" {
      if i :| 0 <= i < |o| - 1 && o[i] == u && o[i + 1] == v {
        LinkIsEdge(dag, o, i);
      }
    }
  }

  lemma CoverNonBlank(dag: DagManifest, o: seq<string>)
    requires LinearCover(dag, o) && NonEmptyIds(dag.nodes)
    ensures forall i :: 0 <= i < |o| ==> o[i] != ""
  {
    hide *;
    forall i | 0 <= i < |o|
      ensures o[i] != ""
    {
      CoverKnown(dag, o, o[i]);
      NodeIdNonEmpty(dag.nodes, o[i]);
    }
  }

  lemma CoverLists(dag: DagManifest, o: seq<string>)
    requires LinearCover(dag, o)
    ensures UniqueIds(dag.nodes) && Distinct(o) && Elements(o) == Adjacency(dag.nodes).Keys
    ensures o != [] && |o| == |dag.nodes| <= dag.maxSteps
  {
    hide Follows, EndsAt, UniqueIds, Distinct, Elements;
    CoverElements(dag, o);
  }

  lemma CoverIsTopological(dag: DagManifest, o: seq<string>)
    requires LinearCover(dag, o) && !HasFork(dag.nodes)
    ensures TopoOrder(Adjacency(dag.nodes), o) && NoMissing(dag.nodes)
  {
    hide *;
    var g := Adjacency(dag.nodes);
    CoverLists(dag, o);
    forall u, v | Edge(g, u, v)
      ensures v in g && Before(o, u, v)
    {
      CoverEdges(dag, o, u, v);
      LinkIsBefore(o, u, v);
      assert v in Elements(o) by {
        InElements(o, v);
      }
    }
    BeforeMeansPredsFirst(g, o);
    TopoIntro(g, o);
    ClosedIntro(g);
    NoMissingIffClosed(dag.nodes);
  }

  lemma LinkIsBefore(o: seq<string>, u: string, v: string)
    requires exists i :: 0 <= i < |o| - 1 && o[i] == u && o[i + 1] == v
    ensures Before(o, u, v) && v in o
  {
  }

  lemma InElements(o: seq<string>, v: string)
    ensures v in Elements(o) <==> v in o
  {
  }

  lemma TopoIntro(g: Graph, o: seq<string>)
    requires Distinct(o) && Elements(o) == g.Keys && PredsFirst(g, o)
    ensures TopoOrder(g, o)
  {
  }

  lemma ClosedIntro(g: Graph)
    requires forall u, v :: Edge(g, u, v) ==> v in g
    ensures Closed(g)
  {
  }

  // ---------------------------------------------------------------- blank ids

  lemma EntryOfCover(dag: DagManifest, o: seq<string>)
    requires LinearCover(dag, o)
    ensures o[0] == dag.entry
  {
    hide Follows, EndsAt, UniqueIds, Distinct;
  }

  /** Which nodes of a chain have no predecessor: its first one, and one with a blank id. */
  lemma CoverRoots(dag: DagManifest, o: seq<string>, k: nat)
    requires LinearCover(dag, o) && !HasFork(dag.nodes) && k < |o|
    ensures AllPredsIn(Adjacency(dag.nodes), [], o[k]) <==> k == 0 || o[k] == ""
  {
    hide *;
    var g := Adjacency(dag.nodes);
    CoverLists(dag, o);
    NoPredsMeans(g, o[k]);
    forall u
      ensures Edge(g, u, o[k]) <==> o[k] != "" && k > 0 && u == o[k - 1]
    {
      CoverEdges(dag, o, u, o[k]);
      LinkInto(o, u, k);
    }
    assert k > 0 && o[k] != "" ==> Edge(g, o[k - 1], o[k]);
  }

  lemma NoPredsMeans(g: Graph, v: string)
    ensures AllPredsIn(g, [], v) <==> forall u :: !Edge(g, u, v)
  {
    hide Edge;
  }

  lemma LinkInto(o: seq<string>, u: string, k: nat)
    requires Distinct(o) && k < |o|
    ensures (exists i :: 0 <= i < |o| - 1 && o[i] == u && o[i + 1] == o[k]) <==> k > 0 && u == o[k - 1]
  {
    if k > 0 && u == o[k - 1] {
      assert o[k - 1] == u && o[k - 1 + 1] == o[k];
    }
  }

  /** A blank id behind the entry is ready at once: Kahn's algorithm emits it second. */
  lemma BlankComesSecond(dag: DagManifest, o: seq<string>, j: nat)
    requires LinearCover(dag, o) && !HasFork(dag.nodes) && 0 < j < |o| && o[j] == ""
    requires Topo(dag).Ok?
    ensures [o[0], ""] <= Topo(dag).value
  {
    hide *;
    var g, ids := Adjacency(dag.nodes), Ids(dag.nodes);
    CoverLists(dag, o);
    EntryOfCover(dag, o);
    RunOfTopo(dag);
    DistinctIds(dag.nodes);
    InitialMembers(g, ids, dag.entry);
    var ready := InitialReady(g, ids, dag.entry);
    assert forall v :: v in ids <==> v in o by {
      forall v
        ensures v in ids <==> v in o
      {
        InElements(ids, v);
        InElements(o, v);
      }
    }
    forall v
      ensures v in ready <==> v == o[0] || v == ""
    {
      if v in o {
        var k :| 0 <= k < |o| && o[k] == v;
        CoverRoots(dag, o, k);
        OnlyFirst(o, k);
      }
      CoverRoots(dag, o, 0);
      CoverRoots(dag, o, j);
      assert o[0] in o && o[j] in o;
    }
    OnlyFirst(o, j);
    TwoOf(ready, o[0], "");
    RunIs(g, dag.maxSteps, ids, dag.entry);
    TwoComeNext(g, dag.maxSteps, ready);
  }

  lemma RunIs(g: Graph, cap: nat, ids: seq<string>, entry: string)
    requires Closed(g) && Elements(ids) == g.Keys
    ensures forall v :: v in InitialReady(g, ids, entry) ==> v in g
    ensures Run(g, cap, ids, entry) == KahnFrom(g, cap, InitialReady(g, ids, entry), [])
  {
    hide InitialReady, KahnFrom, Closed;
    InitialMembers(g, ids, entry);
  }

  lemma DistinctIds(nodes: seq<DagNode>)
    requires UniqueIds(nodes)
    ensures Distinct(Ids(nodes))
  {
  }

  lemma OnlyFirst(o: seq<string>, k: nat)
    requires Distinct(o) && k < |o|
    ensures o[k] == o[0] <==> k == 0
  {
  }

  lemma TwoOf(s: seq<string>, x: string, y: string)
    requires Distinct(s) && x != y && (forall v :: v in s <==> v == x || v == y) && (x in s ==> s[0] == x)
    ensures s == [x, y]
  {
    assert Elements(s) == {x, y};
    DistinctSize(s);
    assert s[1] in s;
  }

  /**
   Where the linear walk succeeds on a fork-free graph, Kahn's algorithm returns the same order exactly when no id behind
   the second place is blank: a blank id is no successor, so nothing holds it back.
   */
  lemma SchedulersAgreeExactly(dag: DagManifest, o: seq<string>)
    requires LinearCover(dag, o) && !HasFork(dag.nodes)
    ensures Topo(dag).Ok?
    ensures Topo(dag) == Result.Ok(o) <==> forall i :: 2 <= i < |o| ==> o[i] != ""
  {
    hide *;
    var g := Adjacency(dag.nodes);
    CoverLists(dag, o);
    CoverIsTopological(dag, o);
    TopoOrderIsAcyclic(g, o);
    TopoCharacterised(dag);
    var t := Topo(dag).value;
    if j :| 1 <= j < |o| && o[j] == "" {
      BlankComesSecond(dag, o, j);
      if j == 1 {
        OnlyBlank(o, 1);
        ChainFrom(dag, o, 2);
      } else {
        BlankMoved(o, t, j);
      }
    } else {
      assert o[..0] == t[..0];
      ChainFrom(dag, o, 0);
    }
  }

  lemma OnlyBlank(o: seq<string>, j: nat)
    requires Distinct(o) && j < |o| && o[j] == ""
    ensures forall i :: 0 <= i < |o| && i != j ==> o[i] != ""
  {
  }

  lemma BlankMoved(o: seq<string>, t: seq<string>, j: nat)
    requires Distinct(o) && 2 <= j < |o| && o[j] == "" && [o[0], ""] <= t
    ensures t != o && exists i :: 2 <= i < |o| && o[i] == ""
  {
    assert t[1] == [o[0], ""][1] == "";
  }

  lemma ChainFrom(dag: DagManifest, o: seq<string>, k: nat)
    requires LinearCover(dag, o) && !HasFork(dag.nodes) && Topo(dag).Ok?
    requires k <= |o| && o[..k] <= Topo(dag).value && forall i :: k < i < |o| ==> o[i] != ""
    ensures Topo(dag).value == o
  {
    hide *;
    var g, t := Adjacency(dag.nodes), Topo(dag).value;
    CoverLists(dag, o);
    TopoCharacterised(dag);
    forall j | k <= j < |o| - 1
      ensures Edge(g, o[j], o[j + 1])
    {
      LinkIsEdge(dag, o, j);
    }
    assert t[..k] == o[..k];
    TailChainUnique(g, o, t, k, |o|);
    assert o[..|o|] == o && t[..|t|] == t;
  }

  /** In particular the schedulers agree wherever no id is blank. */
  lemma SchedulersAgree(dag: DagManifest, o: seq<string>)
    requires LinearCover(dag, o) && !HasFork(dag.nodes) && NonEmptyIds(dag.nodes)
    ensures Topo(dag) == Result.Ok(o)
  {
    hide *;
    CoverNonBlank(dag, o);
    SchedulersAgreeExactly(dag, o);
  }
}
