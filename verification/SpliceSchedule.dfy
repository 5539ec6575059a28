/**
 What scheduling a spliced plan returns. A spliced plan is executed in the order the splice computed,
 but it is reloaded by scheduling its graph afresh, so the two orders had better be the same.
 */
module SpliceSchedule {
  import opened Wrappers
  import opened Digraph
  import opened TaskGraph
  import opened KahnRun
  import opened BoundedDag
  import opened LinearDag
  import opened RepairSplice

  /** The plan's order is what scheduling its graph returns, and no node id is blank. */
  ghost predicate WellPlanned(plan: PlannedLiveDag)
  {
    Schedule(plan.dag) == Some(plan.order) && NonEmptyIds(plan.dag.nodes)
  }

  ghost function EdgesOf(plan: PlannedLiveDag): Graph
  {
    Adjacency(plan.dag.nodes)
  }

  /** The order lists every node once, predecessors first; which such order it is does not matter. */
  ghost predicate TopoPlanned(plan: PlannedLiveDag)
  {
    Listed(plan) && PredsFirst(EdgesOf(plan), plan.order)
  }

  lemma TopoPlannedListed(plan: PlannedLiveDag)
    requires TopoPlanned(plan)
    ensures Listed(plan)
  {
  }

  lemma WellPlannedOrder(plan: PlannedLiveDag)
    requires WellPlanned(plan)
    ensures Listed(plan) && TopoPlanned(plan) && Topo(plan.dag) == Result.Ok(plan.order)
    ensures TopoOrder(EdgesOf(plan), plan.order) && NoMissing(plan.dag.nodes)
  {
    if !HasFork(plan.dag.nodes) {
      SchedulersAgree(plan.dag, plan.order);
    }
    TopoCharacterised(plan.dag);
  }

  /** No node behind the finished prefix forks to a finished node. */
  ghost predicate NoForkBack(stored: PlannedLiveDag, fail: DagFailCursor, remaining: PlannedLiveDag)
  {
    forall n, f :: n in RestSource(stored, fail, remaining).dag.nodes && n.id in Rest(stored, fail, remaining) && f in n.fork
                   ==> f !in Prefix(stored, fail)
  }

  /** No node behind the finished prefix forks to `v`. */
  ghost predicate NoForkTo(stored: PlannedLiveDag, fail: DagFailCursor, remaining: PlannedLiveDag, v: string)
  {
    forall n :: n in RestSource(stored, fail, remaining).dag.nodes && n.id in Rest(stored, fail, remaining) ==> v !in n.fork
  }

  lemma NoForkBackIs(stored: PlannedLiveDag, fail: DagFailCursor, remaining: PlannedLiveDag)
    ensures NoForkBack(stored, fail, remaining) <==> forall v :: v in Prefix(stored, fail) ==> NoForkTo(stored, fail, remaining, v)
  {
    hide Prefix, Rest, RestSource;
  }

  // ---------------------------------------------------------------- nodes and edges of the spliced graph

  /** The node a spliced id came from. */
  ghost function Origin(stored: PlannedLiveDag, fail: DagFailCursor, remaining: PlannedLiveDag, id: string): Option<DagNode>
  {
    if id in Rest(stored, fail, remaining) then Find(RestSource(stored, fail, remaining).dag.nodes, id)
    else Find(stored.dag.nodes, id)
  }

  lemma SplicedNodes(stored: PlannedLiveDag, fail: DagFailCursor, remaining: PlannedLiveDag, id: string)
    requires Listed(stored) && Listed(remaining)
    ensures var s := Splice(stored, fail, remaining);
            && Listed(s)
            && (id in ById(s.dag.nodes) <==> id in s.order)
            && (id in s.order ==> Origin(stored, fail, remaining, id).Some?
                                  && ById(s.dag.nodes)[id] == Relink(Origin(stored, fail, remaining, id).value,
                                                                     Prefix(stored, fail), Rest(stored, fail, remaining)))
  {
    RawListed(stored, fail, remaining);
    PartsDistinct(stored, fail, remaining);
    hide KeepNodes, Grafted, KeepsStored, Prefix, Rest, RestSource, Origin, Lookup, Relink;
    var s := Splice(stored, fail, remaining);
    var raw := RawNodes(stored, fail, remaining);
    assert Ids(s.dag.nodes) == Ids(raw);
    assert Elements(s.order) == Elements(Ids(s.dag.nodes));
    if id in s.order {
      RawOrigin(stored, fail, remaining, id);
      RelinkedNode(raw, Prefix(stored, fail), Rest(stored, fail, remaining), Origin(stored, fail, remaining, id).value);
    }
  }

  lemma RelinkedNode(raw: seq<DagNode>, prefix: seq<string>, rest: seq<string>, n: DagNode)
    requires UniqueIds(raw) && n in raw
    ensures n.id in Ids(raw) && ById(RelinkAll(raw, prefix, rest))[n.id] == Relink(n, prefix, rest)
  {
    hide Relink, ById, UniqueIds;
    UniqueById(raw, n);
    var nodes := RelinkAll(raw, prefix, rest);
    var m := ById(nodes)[n.id];
    var k :| 0 <= k < |raw| && nodes[k] == m;
    RelinkKeeps(raw[k], prefix, rest);
    SameIdSameNode(raw, raw[k], n);
  }

  lemma RawOrigin(stored: PlannedLiveDag, fail: DagFailCursor, remaining: PlannedLiveDag, id: string)
    requires Listed(stored) && Listed(remaining)
    requires id in Prefix(stored, fail) || id in Rest(stored, fail, remaining)
    ensures var o := Origin(stored, fail, remaining, id);
            o.Some? && o.value.id == id && o.value in RawNodes(stored, fail, remaining)
  {
    hide KeepNodes, UniqueIds, Grafted, KeepsStored;
    RestKnown(stored, fail, remaining);
    var rest := Rest(stored, fail, remaining);
    var tail := Lookup(rest, RestSource(stored, fail, remaining).dag.nodes);
    if id in rest {
      var i :| 0 <= i < |rest| && rest[i] == id;
      assert tail[i] in tail;
    } else {
      assert id in Elements(stored.order);
    }
  }

  lemma SplicedEdge(stored: PlannedLiveDag, fail: DagFailCursor, remaining: PlannedLiveDag, u: string, v: string)
    requires Listed(stored) && Listed(remaining)
    ensures var s := Splice(stored, fail, remaining);
            Edge(EdgesOf(s), u, v) <==>
            u in s.order && v != "" &&
            (SplicedNodes(stored, fail, remaining, u);
             var o := Origin(stored, fail, remaining, u).value;
             Relink(o, Prefix(stored, fail), Rest(stored, fail, remaining)).next == Some(v) || v in o.fork)
  {
    hide Relink, UniqueIds, Splice, Origin;
    SplicedNodes(stored, fail, remaining, u);
    var s := Splice(stored, fail, remaining);
    if u in s.order {
      RelinkKeeps(Origin(stored, fail, remaining, u).value, Prefix(stored, fail), Rest(stored, fail, remaining));
    }
  }

  lemma OriginInPrefix(stored: PlannedLiveDag, fail: DagFailCursor, remaining: PlannedLiveDag, id: string)
    requires id !in Rest(stored, fail, remaining)
    ensures Origin(stored, fail, remaining, id) == Find(stored.dag.nodes, id)
  {
  }

  lemma RelinkKeeps(n: DagNode, prefix: seq<string>, rest: seq<string>)
    ensures Relink(n, prefix, rest).fork == n.fork && Relink(n, prefix, rest).id == n.id
  {
  }

  lemma StoredEdge(plan: PlannedLiveDag, u: string, v: string)
    requires Listed(plan)
    ensures Edge(EdgesOf(plan), u, v) <==>
            u in plan.order && v != "" &&
            var n := Find(plan.dag.nodes, u); n.Some? && (n.value.next == Some(v) || v in n.value.fork)
  {
    assert u in plan.order <==> u in Elements(Ids(plan.dag.nodes));
    if u in plan.order {
      UniqueById(plan.dag.nodes, Find(plan.dag.nodes, u).value);
    }
  }

  lemma {:induction false} AfterIsNext(s: seq<string>, a: string, b: string)
    requires After(s, a) == Some(b)
    ensures exists i :: 0 <= i < |s| - 1 && s[i] == a && s[i + 1] == b
    ensures Before(s, a, b)
    decreases |s|
  {
    if s[0] == a {
      assert s[0 + 1] == b;
    } else {
      AfterIsNext(s[1..], a, b);
      var i :| 0 <= i < |s[1..]| - 1 && s[1..][i] == a && s[1..][i + 1] == b;
      assert s[i + 1] == a && s[i + 1 + 1] == b;
    }
  }

  lemma {:induction false} GraftedKeepsOrder(ids: seq<string>, nodes: seq<DagNode>, finished: seq<string>, a: string, b: string)
    requires Distinct(ids) && Before(ids, a, b)
    requires a in Grafted(ids, nodes, finished) && b in Grafted(ids, nodes, finished)
    ensures Before(Grafted(ids, nodes, finished), a, b)
  {
    hide *;
    BeforeIsStrict(ids, a, b);
    var n := |ids| - 1;
    var init, x := ids[..n], ids[n];
    assert ids == init + [x];
    DistinctParts(init, [x]);
    GraftedSnoc(init, x, nodes, finished);
    var r := Grafted(init, nodes, finished);
    assert x !in init;
    BeforeInParts(r, [x], a, b);
    if b != x {
      BeforeSplits(init, [x], a, b);
      BeforeIsStrict(init, a, b);
      GraftedKeepsOrder(init, nodes, finished, a, b);
    }
  }

  /** Behind the prefix, ids keep the relative order of the plan they came from. */
  lemma RestKeepsOrder(stored: PlannedLiveDag, fail: DagFailCursor, remaining: PlannedLiveDag, a: string, b: string)
    requires Listed(stored) && Listed(remaining)
    requires a in Rest(stored, fail, remaining) && b in Rest(stored, fail, remaining)
    requires Before(RestSource(stored, fail, remaining).order, a, b)
    ensures Before(Rest(stored, fail, remaining), a, b)
  {
    if KeepsStored(stored, fail, remaining) {
      var k := ResumeAt(stored, fail);
      PrefixApart(stored.order, k);
      BeforeSplits(stored.order[..k], stored.order[k..], a, b);
    } else {
      GraftedKeepsOrder(remaining.order, remaining.dag.nodes, Prefix(stored, fail), a, b);
    }
  }

  // ---------------------------------------------------------------- how edges of the spliced graph lie

  /** The shape of the spliced order. */
  lemma SplicedOrder(stored: PlannedLiveDag, fail: DagFailCursor, remaining: PlannedLiveDag)
    requires Listed(stored) && Listed(remaining)
    ensures Splice(stored, fail, remaining).order == Prefix(stored, fail) + Rest(stored, fail, remaining)
    ensures Splice(stored, fail, remaining).dag.maxSteps == stored.dag.maxSteps
    ensures Distinct(Splice(stored, fail, remaining).order)
    ensures Distinct(Prefix(stored, fail)) && Distinct(Rest(stored, fail, remaining))
    ensures forall v :: v in Prefix(stored, fail) ==> v !in Rest(stored, fail, remaining)
    ensures forall v :: v in Rest(stored, fail, remaining) ==> v in RestSource(stored, fail, remaining).order
    ensures Prefix(stored, fail) <= stored.order
  {
    PartsDistinct(stored, fail, remaining);
    RestKnown(stored, fail, remaining);
    var src := RestSource(stored, fail, remaining);
    forall v | v in Rest(stored, fail, remaining)
      ensures v in src.order
    {
      assert v in Elements(Ids(src.dag.nodes));
    }
  }

  /** One spliced edge, by where its source lies. */
  lemma SplicedEdgeCases(stored: PlannedLiveDag, fail: DagFailCursor, remaining: PlannedLiveDag, u: string, v: string)
    requires Listed(stored) && Listed(remaining)
    ensures var s, src := Splice(stored, fail, remaining), RestSource(stored, fail, remaining);
            var prefix, rest := Prefix(stored, fail), Rest(stored, fail, remaining);
            var n, m := Find(stored.dag.nodes, u), Find(src.dag.nodes, u);
            && (Edge(EdgesOf(s), u, v) ==> v != "" && (u in prefix || u in rest))
            && (u in rest ==> m.Some? && (Edge(EdgesOf(s), u, v) <==> v != "" && (After(rest, u) == Some(v) || v in m.value.fork)))
            && (u in prefix ==>
                n.Some? &&
                if u == prefix[|prefix| - 1] && rest != []
                then Edge(EdgesOf(s), u, v) <==> v != "" && (v == rest[0] || v in n.value.fork)
                else Edge(EdgesOf(s), u, v) <==> Edge(EdgesOf(stored), u, v))
  {
    hide KeepNodes, UniqueIds, Grafted, KeepsStored, Splice, Adjacency, Prefix, Rest, RestSource, After,
         DagNode.Successors;
    SplicedOrder(stored, fail, remaining);
    SplicedEdge(stored, fail, remaining, u, v);
    SplicedNodes(stored, fail, remaining, u);
    if u in Prefix(stored, fail) {
      StoredEdge(stored, u, v);
    }
  }

  /** An edge of a plan's graph, seen from a fork. */
  lemma ForkEdge(plan: PlannedLiveDag, u: string, v: string)
    requires TopoPlanned(plan) && u in plan.order && v in plan.order && v != ""
    ensures var n := Find(plan.dag.nodes, u);
            n.Some? && (v in n.value.fork ==> Before(plan.order, u, v))
  {
    hide UniqueIds, PredsFirst, EdgesOf, DagNode.Successors;
    StoredEdge(plan, u, v);
    var n := Find(plan.dag.nodes, u);
    assert u in Elements(Ids(plan.dag.nodes));
    if v in n.value.fork {
      assert Edge(EdgesOf(plan), u, v);
      PredIsBefore(EdgesOf(plan), plan.order, u, v);
    }
  }

  lemma StoredEdgesClimb(stored: PlannedLiveDag, k: nat, u: string, v: string)
    requires TopoPlanned(stored) && k <= |stored.order| && v in stored.order[..k]
    ensures Edge(EdgesOf(stored), u, v) ==> Before(stored.order[..k], u, v)
    ensures Before(stored.order, u, v) ==> Before(stored.order[..k], u, v)
  {
    hide EdgesOf, PredsFirst;
    if Edge(EdgesOf(stored), u, v) {
      PredIsBefore(EdgesOf(stored), stored.order, u, v);
    }
    PrefixApart(stored.order, k);
    if Before(stored.order, u, v) {
      BeforeSplits(stored.order[..k], stored.order[k..], u, v);
    }
  }

  // ---------------------------------------------------------------- how edges of the spliced graph lie

  /** Between finished nodes, the spliced graph has exactly the stored edges, and they point forward. */
  lemma EdgesInsidePrefix(stored: PlannedLiveDag, fail: DagFailCursor, remaining: PlannedLiveDag, u: string, v: string)
    requires TopoPlanned(stored) && Listed(remaining)
    requires u in Prefix(stored, fail) && v in Prefix(stored, fail)
    ensures Edge(EdgesOf(Splice(stored, fail, remaining)), u, v) <==> Edge(EdgesOf(stored), u, v)
    ensures Edge(EdgesOf(stored), u, v) ==> Before(Prefix(stored, fail), u, v)
  {
    hide *;
    TopoPlannedListed(stored);
    var prefix, rest := Prefix(stored, fail), Rest(stored, fail, remaining);
    SplicedOrder(stored, fail, remaining);
    SplicedEdgeCases(stored, fail, remaining, u, v);
    PrefixClimbs(stored, fail, u, v);
    if Before(prefix, u, v) {
      BeforeIsStrict(prefix, u, v);
      LastIsLast(prefix, u, v);
    }
    if v != "" {
      assert u in stored.order && v in stored.order;
      ForkEdge(stored, u, v);
      if rest != [] {
        assert rest[0] in rest;
      }
    }
  }

  /** Into a finished node that no node behind the prefix forks to, the spliced graph has exactly the stored edges. */
  lemma EdgesIntoPrefix(stored: PlannedLiveDag, fail: DagFailCursor, remaining: PlannedLiveDag, u: string, v: string)
    requires TopoPlanned(stored) && Listed(remaining)
    requires v in Prefix(stored, fail) && NoForkTo(stored, fail, remaining, v)
    ensures Edge(EdgesOf(Splice(stored, fail, remaining)), u, v) <==> Edge(EdgesOf(stored), u, v)
    ensures Edge(EdgesOf(stored), u, v) ==> Before(Prefix(stored, fail), u, v)
  {
    hide *;
    TopoPlannedListed(stored);
    SplicedOrder(stored, fail, remaining);
    SplicedEdgeCases(stored, fail, remaining, u, v);
    PrefixClimbs(stored, fail, u, v);
    if Before(Prefix(stored, fail), u, v) {
      BeforeIsStrict(Prefix(stored, fail), u, v);
    }
    if u in Rest(stored, fail, remaining) {
      NoEdgeBack(stored, fail, remaining, u, v);
    } else if u in Prefix(stored, fail) {
      EdgesInsidePrefix(stored, fail, remaining, u, v);
    }
  }

  lemma PrefixClimbs(stored: PlannedLiveDag, fail: DagFailCursor, u: string, v: string)
    requires TopoPlanned(stored) && v in Prefix(stored, fail)
    ensures Edge(EdgesOf(stored), u, v) ==> Before(Prefix(stored, fail), u, v)
    ensures Before(stored.order, u, v) ==> Before(Prefix(stored, fail), u, v)
    ensures Listed(stored)
  {
    hide TopoPlanned, EdgesOf, Before, Listed;
    TopoPlannedListed(stored);
    StoredEdgesClimb(stored, ResumeAt(stored, fail), u, v);
  }

  lemma LastIsLast(s: seq<string>, a: string, b: string)
    requires Distinct(s) && Before(s, a, b)
    ensures a != s[|s| - 1]
  {
  }

  lemma NoEdgeBack(stored: PlannedLiveDag, fail: DagFailCursor, remaining: PlannedLiveDag, u: string, v: string)
    requires Listed(stored) && Listed(remaining) && NoForkTo(stored, fail, remaining, v)
    requires u in Rest(stored, fail, remaining) && v in Prefix(stored, fail)
    ensures !Edge(EdgesOf(Splice(stored, fail, remaining)), u, v)
  {
    hide UniqueIds, Grafted, KeepsStored, Splice, Adjacency, EdgesOf, Listed;
    SplicedOrder(stored, fail, remaining);
    SplicedEdgeCases(stored, fail, remaining, u, v);
    var rest := Rest(stored, fail, remaining);
    if After(rest, u) == Some(v) {
      AfterIsNext(rest, u, v);
    }
  }

  lemma RestNonEmpty(stored: PlannedLiveDag, fail: DagFailCursor, remaining: PlannedLiveDag, j: nat)
    requires Listed(stored) && NonEmptyIds(stored.dag.nodes) && NonEmptyIds(remaining.dag.nodes)
    requires j < |Rest(stored, fail, remaining)|
    ensures Rest(stored, fail, remaining)[j] != ""
  {
    RestKnown(stored, fail, remaining);
    var id := Rest(stored, fail, remaining)[j];
    var n := Find(RestSource(stored, fail, remaining).dag.nodes, id).value;
    assert n.id != "";
  }

  lemma LinkBehind(stored: PlannedLiveDag, fail: DagFailCursor, remaining: PlannedLiveDag, j: nat)
    requires Listed(stored) && Listed(remaining)
    requires 0 < j < |Rest(stored, fail, remaining)| && Rest(stored, fail, remaining)[j] != ""
    ensures var s, rest := Splice(stored, fail, remaining), Rest(stored, fail, remaining);
            Edge(EdgesOf(s), rest[j - 1], rest[j])
  {
    hide *;
    var rest := Rest(stored, fail, remaining);
    SplicedOrder(stored, fail, remaining);
    AfterAt(rest, j - 1);
    assert rest[j - 1] in rest;
    SplicedEdgeCases(stored, fail, remaining, rest[j - 1], rest[j]);
  }

  lemma Seam(stored: PlannedLiveDag, fail: DagFailCursor, remaining: PlannedLiveDag)
    requires Listed(stored) && Listed(remaining)
    requires Prefix(stored, fail) != [] && Rest(stored, fail, remaining) != [] && Rest(stored, fail, remaining)[0] != ""
    ensures var s, prefix := Splice(stored, fail, remaining), Prefix(stored, fail);
            Edge(EdgesOf(s), prefix[|prefix| - 1], Rest(stored, fail, remaining)[0])
  {
    hide *;
    var prefix := Prefix(stored, fail);
    assert prefix[|prefix| - 1] in prefix;
    SplicedEdgeCases(stored, fail, remaining, prefix[|prefix| - 1], Rest(stored, fail, remaining)[0]);
  }

  /** The seam and the tail form one chain. */
  lemma ChainEdges(stored: PlannedLiveDag, fail: DagFailCursor, remaining: PlannedLiveDag, j: nat)
    requires Listed(stored) && Listed(remaining)
    requires NonEmptyIds(stored.dag.nodes) && NonEmptyIds(remaining.dag.nodes)
    requires j < |Rest(stored, fail, remaining)|
    ensures var s, k := Splice(stored, fail, remaining), |Prefix(stored, fail)|;
            k + j > 0 ==> Edge(EdgesOf(s), s.order[k + j - 1], s.order[k + j])
  {
    hide *;
    SplicedOrder(stored, fail, remaining);
    RestNonEmpty(stored, fail, remaining, j);
    if j > 0 {
      LinkBehind(stored, fail, remaining, j);
    } else if Prefix(stored, fail) != [] {
      Seam(stored, fail, remaining);
    }
  }

  lemma RestEdgeIsForward(stored: PlannedLiveDag, fail: DagFailCursor, remaining: PlannedLiveDag, u: string, v: string)
    requires TopoPlanned(stored) && TopoPlanned(remaining)
    requires u in Rest(stored, fail, remaining) && v in Rest(stored, fail, remaining)
    requires Edge(EdgesOf(Splice(stored, fail, remaining)), u, v)
    ensures Before(Rest(stored, fail, remaining), u, v)
  {
    hide UniqueIds, Grafted, KeepsStored, Splice, Adjacency, TopoPlanned, Rest, Prefix, EdgesOf, Listed, After,
         Before;
    TopoPlannedListed(stored);
    TopoPlannedListed(remaining);
    var rest, src := Rest(stored, fail, remaining), RestSource(stored, fail, remaining);
    SplicedOrder(stored, fail, remaining);
    SplicedEdgeCases(stored, fail, remaining, u, v);
    if After(rest, u) == Some(v) {
      AfterIsNext(rest, u, v);
    } else {
      ForkEdge(src, u, v);
      RestKeepsOrder(stored, fail, remaining, u, v);
    }
  }

  /** An edge between spliced nodes points forward, unless it leads from behind the prefix to a finished node. */
  lemma EdgeIsForward(stored: PlannedLiveDag, fail: DagFailCursor, remaining: PlannedLiveDag, u: string, v: string)
    requires TopoPlanned(stored) && TopoPlanned(remaining)
    requires Edge(EdgesOf(Splice(stored, fail, remaining)), u, v)
    requires v in Splice(stored, fail, remaining).order
    ensures Before(Splice(stored, fail, remaining).order, u, v)
            || (u in Rest(stored, fail, remaining) && v in Prefix(stored, fail))
  {
    hide *;
    TopoPlannedListed(stored);
    TopoPlannedListed(remaining);
    var prefix, rest := Prefix(stored, fail), Rest(stored, fail, remaining);
    SplicedOrder(stored, fail, remaining);
    SplicedEdgeCases(stored, fail, remaining, u, v);
    BeforeInParts(prefix, rest, u, v);
    if u in prefix && v in prefix {
      EdgesInsidePrefix(stored, fail, remaining, u, v);
    } else if u in rest && v in rest {
      RestEdgeIsForward(stored, fail, remaining, u, v);
    }
  }

  /** Every present edge of the spliced graph points forward in the spliced order. */
  lemma SplicedOrderIsForward(stored: PlannedLiveDag, fail: DagFailCursor, remaining: PlannedLiveDag)
    requires TopoPlanned(stored) && TopoPlanned(remaining) && NoForkBack(stored, fail, remaining)
    ensures var s := Splice(stored, fail, remaining);
            Distinct(s.order) && PredsFirst(EdgesOf(s), s.order)
  {
    hide UniqueIds, Splice, Adjacency, TopoPlanned, EdgesOf, Listed, Before, NoForkBack, PredsFirst;
    TopoPlannedListed(stored);
    TopoPlannedListed(remaining);
    SplicedOrder(stored, fail, remaining);
    var s := Splice(stored, fail, remaining);
    forall u, v | Edge(EdgesOf(s), u, v) && v in s.order
      ensures Before(s.order, u, v)
    {
      EdgeIsForward(stored, fail, remaining, u, v);
      if u in Rest(stored, fail, remaining) && v in Prefix(stored, fail) {
        NoForkBackIs(stored, fail, remaining);
        NoEdgeBack(stored, fail, remaining, u, v);
      }
    }
    BeforeMeansPredsFirst(EdgesOf(s), s.order);
  }
}
