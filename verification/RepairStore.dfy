/**
 Saving a repaired plan and resolving it again: the spliced graph comes back unless the stored entry was cut away,
 and in the spliced order unless a replanned node forks to a finished one.
 */
module RepairStore {
  import opened Wrappers
  import opened Digraph
  import opened JsonTree
  import opened TaskGraph
  import opened BoundedDag
  import opened LinearDag
  import opened ManifestJson
  import opened CandidateDag
  import opened RepairSplice
  import opened SpliceSchedule
  import opened RepairTheorems
  import opened PlanStore
  import opened ForkBack

  // ---------------------------------------------------------------- the spliced graph as a manifest

  lemma ListedNode(s: PlannedLiveDag, n: DagNode)
    requires Listed(s) && n in s.dag.nodes
    ensures n.id in ById(s.dag.nodes) && ById(s.dag.nodes)[n.id] == n && n.id in s.order
  {
    UniqueById(s.dag.nodes, n);
    assert n.id in Elements(Ids(s.dag.nodes));
  }

  lemma OriginIsNode(stored: PlannedLiveDag, fail: DagFailCursor, remaining: PlannedLiveDag, id: string)
    requires Origin(stored, fail, remaining, id).Some?
    ensures var m := Origin(stored, fail, remaining, id).value; m in stored.dag.nodes || m in remaining.dag.nodes
  {
  }

  /** A spliced node is some node of the two graphs, relinked. */
  lemma SplicedNodeSource(stored: PlannedLiveDag, fail: DagFailCursor, remaining: PlannedLiveDag, n: DagNode) returns (m: DagNode)
    requires Listed(stored) && Listed(remaining) && n in Splice(stored, fail, remaining).dag.nodes
    ensures m in stored.dag.nodes || m in remaining.dag.nodes
    ensures n == Relink(m, Prefix(stored, fail), Rest(stored, fail, remaining))
  {
    hide *;
    var s := Splice(stored, fail, remaining);
    SplicedNodes(stored, fail, remaining, n.id);
    ListedNode(s, n);
    OriginIsNode(stored, fail, remaining, n.id);
    m := Origin(stored, fail, remaining, n.id).value;
  }

  lemma {:induction false} AfterIsIn(s: seq<string>, id: string)
    ensures After(s, id).Some? ==> After(s, id).value in s
  {
    if |s| >= 2 && s[0] != id {
      AfterIsIn(s[1..], id);
    }
  }

  lemma RelinkCases(n: DagNode, p: seq<string>, rest: seq<string>)
    ensures var r := Relink(n, p, rest);
            r.capabilities == n.capabilities && (r.next.Some? ==> r.next == n.next || r.next.value in rest)
  {
    AfterIsIn(rest, n.id);
  }

  lemma ValidNext(dag: DagManifest, n: DagNode)
    requires ValidGraph(dag) && NonEmptyIds(dag.nodes) && n in dag.nodes && n.next.Some?
    ensures n.next.value != ""
  {
    hide UniqueIds;
    var i :| 0 <= i < |dag.nodes| && Ids(dag.nodes)[i] == n.next.value;
    assert dag.nodes[i] in dag.nodes;
  }

  /** Plans as resolving returns them, from a planner or from the template, with ids that are not blank. */
  ghost predicate SoundPlan(plan: PlannedLiveDag)
  {
    WellPlanned(plan) && ValidGraph(plan.dag)
  }

  /** Plans as they are accepted from a planner: their tags are canonical too. */
  ghost predicate AcceptedPlan(plan: PlannedLiveDag)
  {
    SoundPlan(plan) && CanonicalCaps(plan.dag)
  }

  lemma SoundParts(plan: PlannedLiveDag)
    requires SoundPlan(plan)
    ensures WellPlanned(plan) && TopoPlanned(plan) && ValidGraph(plan.dag) && NonEmptyIds(plan.dag.nodes) && Listed(plan)
  {
    hide ValidGraph, Schedule;
    WellPlannedOrder(plan);
  }

  lemma AcceptedParts(plan: PlannedLiveDag)
    requires AcceptedPlan(plan)
    ensures SoundPlan(plan) && CanonicalCaps(plan.dag) && Listed(plan)
  {
    hide ValidGraph, CanonicalCaps, WellPlanned;
    SoundParts(plan);
  }

  lemma SourceNodeFits(plan: PlannedLiveDag, m: DagNode)
    requires SoundPlan(plan) && m in plan.dag.nodes
    ensures m.capabilities != [] && (m.next.Some? ==> m.next.value != "")
  {
    hide WellPlanned, UniqueIds, Ids;
    SoundParts(plan);
    if m.next.Some? {
      ValidNext(plan.dag, m);
    }
  }

  lemma SplicedNodeFits(stored: PlannedLiveDag, fail: DagFailCursor, remaining: PlannedLiveDag, n: DagNode)
    requires SoundPlan(stored) && SoundPlan(remaining) && Listed(stored)
    requires n in Splice(stored, fail, remaining).dag.nodes
    ensures n.capabilities != [] && (n.next.Some? ==> n.next.value != "")
  {
    hide *;
    SoundParts(stored);
    SoundParts(remaining);
    var m := SplicedNodeSource(stored, fail, remaining, n);
    var rest := Rest(stored, fail, remaining);
    if m in stored.dag.nodes {
      SourceNodeFits(stored, m);
    } else {
      SourceNodeFits(remaining, m);
    }
    RelinkCases(m, Prefix(stored, fail), rest);
    if n.next.Some? && n.next != m.next {
      var j :| 0 <= j < |rest| && rest[j] == n.next.value;
      RestNonEmpty(stored, fail, remaining, j);
    }
  }

  /** The stored entry is still in the spliced graph, or the splice starts afresh with its own first node. */
  predicate EntryKept(stored: PlannedLiveDag, fail: DagFailCursor, remaining: PlannedLiveDag)
  {
    Prefix(stored, fail) == [] || stored.dag.entry in Prefix(stored, fail) + Rest(stored, fail, remaining)
  }

  lemma SplicedHeader(stored: PlannedLiveDag, fail: DagFailCursor, remaining: PlannedLiveDag)
    requires SoundPlan(stored) && Listed(stored) && Listed(remaining)
    ensures var s := Splice(stored, fail, remaining);
            s.dag.schemaVersion == SCHEMA_VERSION && s.dag.nodes != [] && UniqueIds(s.dag.nodes)
            && (s.dag.entry in Ids(s.dag.nodes) <==> EntryKept(stored, fail, remaining))
  {
    hide WellPlanned, Ids, UniqueIds, Rest, Prefix, RestSource, RawNodes;
    var s := Splice(stored, fail, remaining);
    SplicedOrder(stored, fail, remaining);
    SplicedNodes(stored, fail, remaining, "");
    OrderNonEmpty(stored, fail, remaining);
    SameIdSet(s, s.dag.entry);
    SameIdSet(s, s.order[0]);
  }

  lemma SameIdSet(s: PlannedLiveDag, id: string)
    requires Listed(s)
    ensures id in Ids(s.dag.nodes) <==> id in s.order
    ensures s.order != [] ==> s.dag.nodes != []
    ensures UniqueIds(s.dag.nodes)
  {
    assert id in Elements(s.order) <==> id in Elements(Ids(s.dag.nodes));
    if s.order != [] {
      assert s.order[0] in Elements(Ids(s.dag.nodes));
    }
  }

  lemma OrderNonEmpty(stored: PlannedLiveDag, fail: DagFailCursor, remaining: PlannedLiveDag)
    requires stored.dag.nodes != [] && Listed(stored)
    ensures Prefix(stored, fail) + Rest(stored, fail, remaining) != []
  {
    assert stored.dag.nodes[0].id == Ids(stored.dag.nodes)[0];
    assert Ids(stored.dag.nodes)[0] in Elements(stored.order);
  }

  /** A spliced graph that can be scheduled is a valid manifest again exactly when the entry is kept. */
  lemma SpliceIsValid(stored: PlannedLiveDag, fail: DagFailCursor, remaining: PlannedLiveDag)
    requires SoundPlan(stored) && SoundPlan(remaining) && Listed(stored)
    requires Schedule(Splice(stored, fail, remaining).dag).Some?
    ensures ValidGraph(Splice(stored, fail, remaining).dag) <==> EntryKept(stored, fail, remaining)
  {
    hide *;
    var s := Splice(stored, fail, remaining);
    SoundParts(stored);
    SoundParts(remaining);
    SplicedHeader(stored, fail, remaining);
    SplicedNonEmpty(stored, fail, remaining);
    var again := s.(order := Schedule(s.dag).value);
    WellPlannedIntro(again);
    WellPlannedOrder(again);
    forall n | n in s.dag.nodes
      ensures n.capabilities != []
      ensures n.next.Some? ==> n.next.value in Ids(s.dag.nodes)
    {
      SplicedNodeFits(stored, fail, remaining, n);
      NextKnown(s.dag.nodes, n);
    }
    ValidIntro(s.dag);
  }

  /** Between planner plans no tag other than canonical ones can enter. */
  lemma SplicedTags(stored: PlannedLiveDag, fail: DagFailCursor, remaining: PlannedLiveDag)
    requires Listed(stored) && Listed(remaining) && CanonicalCaps(stored.dag) && CanonicalCaps(remaining.dag)
    ensures CanonicalCaps(Splice(stored, fail, remaining).dag)
  {
    hide Splice, Listed, Canonical, Prefix, Rest, Relink;
    forall n, c | n in Splice(stored, fail, remaining).dag.nodes && c in n.capabilities
      ensures Canonical(c)
    {
      var m := SplicedNodeSource(stored, fail, remaining, n);
      RelinkCases(m, Prefix(stored, fail), Rest(stored, fail, remaining));
    }
  }

  lemma NextKnown(nodes: seq<DagNode>, n: DagNode)
    requires NoMissing(nodes) && n in nodes
    ensures n.next.Some? && n.next.value != "" ==> n.next.value in Ids(nodes)
  {
    hide Ids;
    if n.next.Some? && n.next.value != "" {
      assert n.next.value in n.Successors();
    }
  }

  lemma ValidIntro(dag: DagManifest)
    requires dag.schemaVersion == SCHEMA_VERSION && dag.nodes != [] && UniqueIds(dag.nodes)
    requires forall n :: n in dag.nodes ==> n.capabilities != []
    requires forall n :: n in dag.nodes ==> n.next.Some? ==> n.next.value in Ids(dag.nodes)
    ensures ValidGraph(dag) <==> dag.entry in Ids(dag.nodes)
  {
    hide Ids, UniqueIds;
  }

  // ---------------------------------------------------------------- reloading it

  lemma SplicedFlag(stored: PlannedLiveDag, fail: DagFailCursor, remaining: PlannedLiveDag)
    requires Listed(stored)
    ensures Splice(stored, fail, remaining).usedFallback == remaining.usedFallback
  {
  }

  /**
   A repaired plan that was accepted and saved is resolved to its own graph exactly when its entry was kept and its tags
   are known, and otherwise only to the fallback template. Found again, it has canonical tags, and it has the spliced
   order exactly when no replanned node forks to a finished one.
   */
  lemma RepairedPlanReloads(stored: PlannedLiveDag, fail: DagFailCursor, remaining: PlannedLiveDag, fallback: Option<Json>)
    requires SoundPlan(stored) && SoundPlan(remaining) && Listed(stored) && !remaining.usedFallback
    requires Schedule(Splice(stored, fail, remaining).dag).Some?
    ensures var s := Splice(stored, fail, remaining);
            var r := Resolved(StoreJson(s, fallback), fallback);
            && ((r.Some? && !r.value.usedFallback) <==> EntryKept(stored, fail, remaining) && KnownTags(s.dag))
            && (r.Some? && !r.value.usedFallback ==>
                  r.value.dag == CanonGraph(s.dag) && (r.value.order == s.order <==> NoForkBack(stored, fail, remaining)))
  {
    hide *;
    var s := Splice(stored, fail, remaining);
    SoundParts(stored);
    SoundParts(remaining);
    SplicedFlag(stored, fail, remaining);
    StoredAsGraph(s, fallback);
    SpliceIsValid(stored, fail, remaining);
    SavedGraphReloads(s.dag, fallback);
    FreshParts(CanonGraph(s.dag), Schedule(s.dag).value);
    RescheduleExact(stored, fail, remaining);
  }

  lemma StoredAsGraph(s: PlannedLiveDag, fallback: Option<Json>)
    requires !s.usedFallback
    ensures StoreJson(s, fallback) == Some(EncodeManifest(s.dag))
  {
  }

  lemma FreshParts(dag: DagManifest, order: seq<string>)
    ensures var p := FreshPlan(dag, order, false); p.dag == dag && p.order == order && !p.usedFallback
  {
  }

  // ---------------------------------------------------------------- a lost entry

  /** A node in front of the entry: the graph is valid, yet a repair after that node cuts the entry away. */
  function Detour(a: string, b: string, c: string): PlannedLiveDag
  {
    Plan(b, [Work(a, Some(b), []), Work(b, None, [c]), Work(c, None, [])], [a, b, c])
  }

  ghost predicate FiveIds(a: string, b: string, c: string, d: string, e: string)
  {
    ThreeIds(a, b, c) && ThreeIds(a, d, e) && b != d && b != e && c != d && c != e
  }

  lemma DetourEdges(dag: DagManifest, x: string, y: string, z: string, u: string, v: string)
    requires ThreeIds(x, y, z)
    requires dag.nodes == [Work(x, Some(y), []), Work(y, None, [z]), Work(z, None, [])]
             || dag.nodes == [Work(x, Some(y), []), Work(y, Some(z), [z]), Work(z, None, [])]
    ensures UniqueIds(dag.nodes)
    ensures Edge(Adjacency(dag.nodes), u, v) <==> (u == x && v == y) || (u == y && v == z)
  {
    hide DagNode.Successors, Adjacency, ById, UniqueIds, Edge;
    var nodes := dag.nodes;
    ThreeNodeEdges(nodes, u, v);
    OneNext(nodes[0], y);
    OneFork(nodes[1], z);
    NoEdges(nodes[2]);
  }

  lemma OneNext(n: DagNode, y: string)
    requires n.next == Some(y) && n.fork == [] && y != ""
    ensures n.Successors() == [y]
  {
  }

  lemma ChainScheduled(dag: DagManifest, x: string, y: string, z: string)
    requires ThreeIds(x, y, z) && dag.maxSteps == 8
    requires dag.nodes == [Work(x, Some(y), []), Work(y, None, [z]), Work(z, None, [])]
             || dag.nodes == [Work(x, Some(y), []), Work(y, Some(z), [z]), Work(z, None, [])]
    ensures Schedule(dag) == Some([x, y, z])
  {
    assert Ids(dag.nodes) == [x, y, z] && dag.nodes[1] in dag.nodes && HasFork(dag.nodes);
    assert Elements([x, y, z]) == {x, y, z};
    hide *;
    forall u, v
      ensures UniqueIds(dag.nodes)
      ensures Edge(Adjacency(dag.nodes), u, v) <==> (u == x && v == y) || (u == y && v == z)
    {
      DetourEdges(dag, x, y, z, u, v);
    }
    DetourEdges(dag, x, y, z, x, x);
    ChainOfThree(dag, x, y, z);
  }

  lemma DetourAccepted(a: string, b: string, c: string)
    requires ThreeIds(a, b, c)
    ensures AcceptedPlan(Detour(a, b, c)) && Listed(Detour(a, b, c))
  {
    var plan := Detour(a, b, c);
    assert Ids(plan.dag.nodes) == [a, b, c];
    assert [a, b, c][1] == b;
    assert NonEmptyIds(plan.dag.nodes);
    assert ValidGraph(plan.dag) && CanonicalCaps(plan.dag) by {
      WorkIsValid(plan.dag);
    }
    hide *;
    DetourShape(a, b, c);
    ChainScheduled(plan.dag, a, b, c);
    WellPlannedIntro(plan);
    AcceptedIntro(plan);
    AcceptedParts(plan);
  }

  lemma DetourShape(a: string, b: string, c: string)
    ensures var plan := Detour(a, b, c);
            plan.dag.nodes == [Work(a, Some(b), []), Work(b, None, [c]), Work(c, None, [])]
            && plan.dag.maxSteps == 8 && plan.order == [a, b, c]
  {
  }

  lemma AcceptedIntro(plan: PlannedLiveDag)
    requires WellPlanned(plan) && ValidGraph(plan.dag) && CanonicalCaps(plan.dag)
    ensures AcceptedPlan(plan)
  {
    hide WellPlanned, ValidGraph, CanonicalCaps;
  }

  lemma WorkIsValid(dag: DagManifest)
    requires dag.schemaVersion == SCHEMA_VERSION && dag.nodes != [] && UniqueIds(dag.nodes) && dag.entry in Ids(dag.nodes)
    requires forall n :: n in dag.nodes ==> n.capabilities == ["coding"]
    requires forall n :: n in dag.nodes && n.next.Some? ==> n.next.value in Ids(dag.nodes)
    ensures ValidGraph(dag) && CanonicalCaps(dag)
  {
    hide Ids, UniqueIds;
    assert Canonical("coding");
  }

  lemma ReplanAccepted(d: string, e: string)
    requires d != "" && e != "" && d != e
    ensures AcceptedPlan(Replan(e, d)) && Listed(Replan(e, d))
  {
    var plan := Replan(e, d);
    assert Ids(plan.dag.nodes) == [d, e] && [d, e][0] == d;
    assert ValidGraph(plan.dag) && CanonicalCaps(plan.dag) by {
      WorkIsValid(plan.dag);
    }
    hide *;
    ReplanScheduled(e, d);
    AcceptedIntro(plan);
    AcceptedParts(plan);
  }

  lemma DetourSpliced(a: string, b: string, c: string, d: string, e: string)
    requires FiveIds(a, b, c, d, e) && Listed(Detour(a, b, c)) && Listed(Replan(e, d))
    ensures var stored, fail, remaining := Detour(a, b, c), DagFailCursor(b, 1, "timeout"), Replan(e, d);
            var s := Splice(stored, fail, remaining);
            && s.order == [a, d, e] && s.dag.maxSteps == 8
            && s.dag.nodes == [Work(a, Some(d), []), Work(d, Some(e), [e]), Work(e, None, [])]
            && !EntryKept(stored, fail, remaining) && NoForkBack(stored, fail, remaining)
  {
    hide Listed, RawNodes, Rest, Prefix, RestSource, RelinkAll, Detour, Replan;
    var stored, fail, remaining := Detour(a, b, c), DagFailCursor(b, 1, "timeout"), Replan(e, d);
    DetourHeader(a, b, c);
    DetourParts(a, b, c, d, e);
    DetourRaw(a, b, c, d, e);
    DetourRelinked(a, b, d, e);
    ReplanForks(d, e, a);
    assert [a] + [d, e] == [a, d, e];
  }

  lemma DetourHeader(a: string, b: string, c: string)
    ensures Detour(a, b, c).dag.maxSteps == 8 && Detour(a, b, c).dag.entry == b
  {
  }

  lemma DetourParts(a: string, b: string, c: string, d: string, e: string)
    requires FiveIds(a, b, c, d, e)
    ensures var stored, fail, remaining := Detour(a, b, c), DagFailCursor(b, 1, "timeout"), Replan(e, d);
            Prefix(stored, fail) == [a] && Rest(stored, fail, remaining) == [d, e] && RestSource(stored, fail, remaining) == remaining
  {
    hide Grafted;
    DetourGrafted(a, d, e);
    assert Detour(a, b, c).order[..1] == [a];
  }

  lemma DetourRaw(a: string, b: string, c: string, d: string, e: string)
    requires FiveIds(a, b, c, d, e) && Listed(Detour(a, b, c))
    ensures RawNodes(Detour(a, b, c), DagFailCursor(b, 1, "timeout"), Replan(e, d))
            == [Work(a, Some(b), []), Work(d, None, [e]), Work(e, None, [])]
  {
    hide Listed, KeepNodes, Rest, Prefix, RestSource, Ids;
    DetourParts(a, b, c, d, e);
    DetourKept(a, b, c);
    RestKnown(Detour(a, b, c), DagFailCursor(b, 1, "timeout"), Replan(e, d));
    var nodes := Replan(e, d).dag.nodes;
    assert nodes[1..][0] == nodes[1];
    assert Lookup([d, e], nodes) == [nodes[0], nodes[1]];
  }

  lemma DetourRelinked(a: string, b: string, d: string, e: string)
    requires ThreeIds(a, d, e)
    ensures RelinkAll([Work(a, Some(b), []), Work(d, None, [e]), Work(e, None, [])], [a], [d, e])
            == [Work(a, Some(d), []), Work(d, Some(e), [e]), Work(e, None, [])]
  {
    hide Ids;
    assert [d, e][1..] == [e];
    assert After([d, e], d) == Some(e) && After([d, e], e) == None;
  }

  lemma ReplanForks(d: string, e: string, a: string)
    requires a != e
    ensures forall n, f :: n in Replan(e, d).dag.nodes && f in n.fork ==> f !in [a]
  {
  }

  lemma DetourKept(a: string, b: string, c: string)
    requires ThreeIds(a, b, c)
    ensures KeepNodes(Detour(a, b, c).dag.nodes, [a]) == [Work(a, Some(b), [])]
  {
    var n := Detour(a, b, c).dag.nodes;
    var x, y, z := n[0], n[1], n[2];
    assert n[..2] == [x, y] && [x, y][..1] == [x] && [x][..0] == [];
    assert KeepNodes([], [a]) == [];
    assert KeepNodes([x], [a]) == [x];
    assert KeepNodes([x, y], [a]) == [x];
  }

  lemma DetourGrafted(a: string, d: string, e: string)
    requires ThreeIds(a, d, e)
    ensures Grafted([d, e], Replan(e, d).dag.nodes, [a]) == [d, e]
  {
    var nodes := Replan(e, d).dag.nodes;
    assert nodes[0].id == d && nodes[1].id == e && nodes[1..][0] == nodes[1];
    assert [d, e][..1] == [d] && [d][..0] == [];
    assert Grafted([], nodes, [a]) == [];
    assert Grafted([d], nodes, [a]) == [d];
  }

  /** An accepted repair that runs as `a, d, e` is not found again after saving it. */
  lemma LostEntryFallsBack(a: string, b: string, c: string, d: string, e: string, fallback: Option<Json>)
    requires FiveIds(a, b, c, d, e)
    ensures var stored, fail, remaining := Detour(a, b, c), DagFailCursor(b, 1, "timeout"), Replan(e, d);
            && AcceptedPlan(stored) && AcceptedPlan(remaining) && Listed(stored)
            && var s := Splice(stored, fail, remaining);
               && s.order == [a, d, e] && Schedule(s.dag) == Some(s.order) && NoForkBack(stored, fail, remaining)
               && (Resolved(StoreJson(s, fallback), fallback).Some? ==> Resolved(StoreJson(s, fallback), fallback).value.usedFallback)
  {
    hide *;
    FivePick(a, b, c, d, e);
    DetourAccepted(a, b, c);
    ReplanAccepted(d, e);
    AcceptedParts(Replan(e, d));
    AcceptedParts(Detour(a, b, c));
    var stored, fail, remaining := Detour(a, b, c), DagFailCursor(b, 1, "timeout"), Replan(e, d);
    DetourSpliced(a, b, c, d, e);
    ChainScheduled(Splice(stored, fail, remaining).dag, a, d, e);
    ReplanIsPlanned(d, e);
    RepairedPlanReloads(stored, fail, remaining, fallback);
  }

  lemma FivePick(a: string, b: string, c: string, d: string, e: string)
    requires FiveIds(a, b, c, d, e)
    ensures ThreeIds(a, d, e) && ThreeIds(a, b, c) && d != "" && e != "" && d != e
  {
  }

  lemma ReplanIsPlanned(d: string, e: string)
    ensures !Replan(e, d).usedFallback
  {
  }
}
