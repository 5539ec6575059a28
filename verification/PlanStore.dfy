/**
 Saving a plan as a JSON value and resolving it again. A planner reply is given by the value in it, or by nothing;
 the fallback template likewise.
 */
module PlanStore {
  import opened Wrappers
  import opened Digraph
  import opened JsonTree
  import opened TaskGraph
  import opened BoundedDag
  import opened LinearDag
  import opened ShapeSchedule
  import opened ManifestJson
  import opened CandidateDag
  import opened RepairSplice

  function FallbackDag(fallback: Option<Json>): Option<DagManifest>
  {
    if fallback.None? then None
    else
      var dag := DecodeManifest(fallback.value);
      if dag.Some? && GraphErrorOf(dag.value).None? then dag else None
  }

  method ParseFallback(fallback: Option<Json>) returns (r: Option<DagManifest>)
    ensures r == FallbackDag(fallback)
  {
    hide DecodeManifest, GraphErrorOf, ValidGraph;
    if fallback.None? {
      return None;
    }
    r := DecodeManifest(fallback.value);
    if r.Some? {
      var error := ValidateGraph(r.value);
      if error.Some? {
        return None;
      }
    }
  }

  function FreshPlan(dag: DagManifest, order: seq<string>, usedFallback: bool): PlannedLiveDag
  {
    PlannedLiveDag(dag, order, usedFallback, if usedFallback then "fallback_template" else "planner", 0, None)
  }

  /** The candidate if it is accepted and can be scheduled, else the fallback template. */
  ghost function Resolved(value: Option<Json>, fallback: Option<Json>): Option<PlannedLiveDag>
  {
    var candidate := Verdict(value).dag;
    if candidate.Some? && Schedule(candidate.value).Some? then
      Some(FreshPlan(candidate.value, Schedule(candidate.value).value, false))
    else
      var dag := FallbackDag(fallback);
      if dag.Some? && Schedule(dag.value).Some? then Some(FreshPlan(dag.value, Schedule(dag.value).value, true)) else None
  }

  method ResolvePlannedManifest(value: Option<Json>, fallback: Option<Json>) returns (r: Option<PlannedLiveDag>)
    ensures r == Resolved(value, fallback)
  {
    hide Verdict, Schedule, FallbackDag, ValidGraph;
    var report := ValidateCandidate(value);
    if report.category == Accepted {
      AcceptedIs(value);
      var order := ScheduleNodeIds(report.dag.value);
      if order.Ok? {
        return Some(FreshPlan(report.dag.value, order.value, false));
      }
    }
    AcceptedIs(value);
    var dag := ParseFallback(fallback);
    if dag.None? {
      return None;
    }
    var order := ScheduleNodeIds(dag.value);
    if order.Err? {
      return None;
    }
    return Some(FreshPlan(dag.value, order.value, true));
  }

  /** What is saved: the template as it is, or the plan's own graph. */
  function StoreJson(plan: PlannedLiveDag, fallback: Option<Json>): Option<Json>
  {
    if plan.usedFallback then fallback else Some(EncodeManifest(plan.dag))
  }

  // ---------------------------------------------------------------- planner graphs

  lemma PlannerPlan(value: Option<Json>, fallback: Option<Json>)
    requires Resolved(value, fallback).Some? && !Resolved(value, fallback).value.usedFallback
    ensures var plan := Resolved(value, fallback).value;
            Verdict(value).dag == Some(plan.dag) && Schedule(plan.dag) == Some(plan.order)
            && plan == FreshPlan(plan.dag, plan.order, false)
  {
    hide Verdict, Schedule, FallbackDag;
  }

  lemma CanonValid(dag: DagManifest)
    ensures ValidGraph(CanonGraph(dag)) <==> ValidGraph(dag)
    ensures SameShape(dag, CanonGraph(dag))
  {
    hide Ids, UniqueIds;
    var nodes := CanonNodes(dag.nodes);
    forall i | 0 <= i < |nodes|
      ensures |nodes[i].capabilities| == |dag.nodes[i].capabilities| && SameButCaps(dag.nodes[i], nodes[i])
      ensures nodes[i] in nodes && dag.nodes[i] in dag.nodes
    {
      hide Canon;
    }
    SameUnique(dag.nodes, nodes);
  }

  /**
   A saved graph comes back as a planner graph exactly when it is valid, its tags are known and it can be scheduled;
   it is then the same graph in the same order, with canonical tags.
   */
  lemma SavedGraphReloads(dag: DagManifest, fallback: Option<Json>)
    ensures var r := Resolved(Some(EncodeManifest(dag)), fallback);
            && ((r.Some? && !r.value.usedFallback) <==> ValidGraph(dag) && KnownTags(dag) && Schedule(dag).Some?)
            && (r.Some? && !r.value.usedFallback ==> r.value == FreshPlan(CanonGraph(dag), Schedule(dag).value, false))
  {
    hide Verdict, Schedule, FallbackDag, EncodeManifest, ValidGraph, KnownTags, CanonGraph, SameShape;
    WrittenIsJudged(dag);
    CanonValid(dag);
    GraphErrorExact(CanonGraph(dag));
    ShapeIsGraph(dag, CanonGraph(dag));
    SameSchedule(dag, CanonGraph(dag));
  }

  /** Saving an accepted plan and resolving it again yields the same plan: same manifest, same order, no fallback. */
  lemma SavedPlanReloads(value: Option<Json>, fallback: Option<Json>)
    requires Resolved(value, fallback).Some? && !Resolved(value, fallback).value.usedFallback
    ensures var plan := Resolved(value, fallback).value;
            Resolved(StoreJson(plan, fallback), fallback) == Some(plan)
  {
    hide Verdict, Schedule, EncodeManifest, ValidGraph, CanonicalCaps, Resolved, KnownTags, CanonGraph;
    var plan := Resolved(value, fallback).value;
    PlannerPlan(value, fallback);
    AcceptedIsCanonical(value);
    CanonExact(plan.dag);
    SavedGraphReloads(plan.dag, fallback);
  }

  // ---------------------------------------------------------------- the fallback template

  lemma RewrittenNodeShape(node: Json, n: DagNode, m: DagNode)
    requires RewriteNode(node).Some? && DecodeNode(node) == Some(n) && DecodeNode(RewriteNode(node).value) == Some(m)
    ensures SameButCaps(n, m)
  {
    hide Member, TryAll, RewriteCap, WithCaps, CapsOf, DecodeSelector, DecodeContext, DecodeOptNum, DecodeOptText,
         DecodeText, DecodeTexts;
    if CapsOf(node).Some? {
      WithCapsExact(node, TryAll(CapsOf(node).value, RewriteCap).value);
    }
  }

  lemma RewrittenNodesShape(nodes: seq<Json>, written: seq<Json>, a: seq<DagNode>, b: seq<DagNode>)
    requires TryAll(nodes, RewriteNode) == Some(written)
    requires TryAll(nodes, DecodeNode) == Some(a) && TryAll(written, DecodeNode) == Some(b)
    ensures AllSameButCaps(a, b)
  {
    hide TryAll, RewriteNode, DecodeNode, SameButCaps;
    TryAllExact(nodes, RewriteNode);
    TryAllExact(nodes, DecodeNode);
    TryAllExact(written, DecodeNode);
    forall i | 0 <= i < |a|
      ensures SameButCaps(a[i], b[i])
    {
      RewrittenNodeShape(nodes[i], a[i], b[i]);
    }
  }

  lemma OtherMembersKept(value: Json, key: string)
    requires RewriteAliases(value).Some? && key != "nodes"
    ensures Member(RewriteAliases(value).value, key) == Member(value, key)
  {
    hide Member, SetMember, TryAll, RewriteNode;
    if NodesOf(value).Some? {
      SetMemberExact(value, "nodes", Arr(TryAll(NodesOf(value).value, RewriteNode).value), key);
    }
  }

  lemma SameHeader(v: Json, w: Json, a: DagManifest, b: DagManifest)
    requires DecodeManifest(v) == Some(a) && DecodeManifest(w) == Some(b)
    requires forall key :: key != "nodes" ==> Member(w, key) == Member(v, key)
    ensures b == a.(nodes := b.nodes)
  {
    hide Member, DecodeText, DecodeOptText, DecodeOptNum, DecodeMaxSteps, DecodeNodes;
  }

  /** Rewriting the aliases changes nothing but capabilities. */
  lemma RewrittenShape(value: Json, a: DagManifest, b: DagManifest)
    requires RewriteAliases(value).Some?
    requires DecodeManifest(value) == Some(a) && DecodeManifest(RewriteAliases(value).value) == Some(b)
    ensures SameShape(a, b)
  {
    hide *;
    var w := RewriteAliases(value).value;
    NodesDecoded(value, a);
    NodesDecoded(w, b);
    RewrittenNodes(value);
    RewrittenNodesShape(NodesOf(value).value, NodesOf(w).value, a.nodes, b.nodes);
    forall key | key != "nodes"
      ensures Member(w, key) == Member(value, key)
    {
      OtherMembersKept(value, key);
    }
    SameHeader(value, w, a, b);
    ShapeIntro(a, b);
  }

  lemma ShapeIntro(a: DagManifest, b: DagManifest)
    requires b == a.(nodes := b.nodes) && AllSameButCaps(a.nodes, b.nodes)
    ensures SameShape(a, b)
  {
  }

  lemma FallbackPlan(value: Option<Json>, fallback: Option<Json>)
    requires Resolved(value, fallback).Some? && Resolved(value, fallback).value.usedFallback
    ensures var plan := Resolved(value, fallback).value;
            FallbackDag(fallback) == Some(plan.dag) && Schedule(plan.dag) == Some(plan.order)
            && plan == FreshPlan(plan.dag, plan.order, true)
  {
    hide Verdict, Schedule, FallbackDag;
  }

  lemma ResolvedCases(value: Option<Json>, fallback: Option<Json>)
    ensures var candidate := Verdict(value).dag;
            if candidate.Some? && Schedule(candidate.value).Some?
            then Resolved(value, fallback) == Some(FreshPlan(candidate.value, Schedule(candidate.value).value, false))
            else var dag := FallbackDag(fallback);
                 Resolved(value, fallback)
                 == if dag.Some? && Schedule(dag.value).Some? then Some(FreshPlan(dag.value, Schedule(dag.value).value, true)) else None
  {
    hide Verdict, Schedule, FallbackDag;
  }

  /**
   What a saved or planned value resolves to: its own graph if it is accepted and can be scheduled, else the template if that
   decodes, is valid and can be scheduled, else nothing.
   */
  lemma ResolvedMeaning(value: Option<Json>, fallback: Option<Json>, dag: DagManifest, order: seq<string>)
    ensures Verdict(value).dag == Some(dag) && Schedule(dag) == Some(order)
            ==> Resolved(value, fallback) == Some(PlannedLiveDag(dag, order, false, "planner", 0, None))
    ensures (Verdict(value).dag.None? || Schedule(Verdict(value).dag.value).None?) ==>
              && (fallback.Some? && DecodeManifest(fallback.value) == Some(dag) && ValidGraph(dag) && Schedule(dag) == Some(order)
                  ==> Resolved(value, fallback) == Some(PlannedLiveDag(dag, order, true, "fallback_template", 0, None)))
              && (Resolved(value, fallback).Some? ==>
                  fallback.Some? && DecodeManifest(fallback.value).Some? && ValidGraph(DecodeManifest(fallback.value).value)
                  && Schedule(DecodeManifest(fallback.value).value).Some?)
  {
    hide Verdict, Schedule, FallbackDag, ValidGraph, DecodeManifest, Resolved;
    ResolvedCases(value, fallback);
    FallbackMeans(fallback);
  }

  /** A template is usable when it decodes to a valid manifest. */
  lemma FallbackMeans(fallback: Option<Json>)
    ensures FallbackDag(fallback).Some?
            <==> fallback.Some? && DecodeManifest(fallback.value).Some? && ValidGraph(DecodeManifest(fallback.value).value)
    ensures FallbackDag(fallback).Some? ==> FallbackDag(fallback) == DecodeManifest(fallback.value)
  {
    hide DecodeManifest, GraphErrorOf, ValidGraph;
    if fallback.Some? && DecodeManifest(fallback.value).Some? {
      GraphErrorExact(DecodeManifest(fallback.value).value);
    }
  }

  lemma FallbackDecodes(fallback: Option<Json>)
    requires FallbackDag(fallback).Some?
    ensures fallback.Some? && DecodeManifest(fallback.value) == FallbackDag(fallback)
  {
    hide DecodeManifest, GraphErrorOf;
  }

  /**
   A saved fallback plan comes back with the same order, and with a graph that differs at most in capability names.
   It comes back marked as a planner graph exactly when the template itself passes as a candidate.
   */
  lemma SavedFallbackReloads(value: Option<Json>, fallback: Option<Json>)
    requires Resolved(value, fallback).Some? && Resolved(value, fallback).value.usedFallback
    ensures var plan := Resolved(value, fallback).value;
            var r := Resolved(StoreJson(plan, fallback), fallback);
            r.Some? && r.value.order == plan.order && SameShape(plan.dag, r.value.dag)
            && (r.value.usedFallback <==> Verdict(fallback).dag.None?)
  {
    hide Verdict, Schedule, FallbackDag, Resolved, SameShape;
    var plan := Resolved(value, fallback).value;
    FallbackPlan(value, fallback);
    FallbackDecodes(fallback);
    ResolvedCases(fallback, fallback);
    var candidate := Verdict(fallback).dag;
    if candidate.Some? {
      AcceptedIs(fallback);
      RewrittenShape(fallback.value, plan.dag, candidate.value);
      ShapeIsGraph(plan.dag, candidate.value);
      SameSchedule(plan.dag, candidate.value);
    } else {
      ShapeSelf(plan.dag);
    }
  }

  lemma ShapeSelf(dag: DagManifest)
    ensures SameShape(dag, dag)
  {
  }

  // ---------------------------------------------------------------- a template that comes back as a planner graph

  function OneStep(id: string): DagManifest
  {
    DagManifest(SCHEMA_VERSION, "ops", None, id, 8, None,
                [DagNode(id, "work", ["coding"], [], [], None, None, [], None, None, None)])
  }

  lemma OneStepFits(id: string)
    ensures ValidGraph(OneStep(id)) && CanonicalCaps(OneStep(id)) && Schedule(OneStep(id)) == Some([id])
  {
    hide Topo, Linear;
    var dag := OneStep(id);
    assert Ids(dag.nodes) == [id] && Ids(dag.nodes)[0] == id;
    assert Canonical("coding");
    assert ById(dag.nodes)[id] in dag.nodes;
    assert LinearCover(dag, [id]);
    assert Linear(dag) == Some([id]);
  }

  /** The one-step template was the fallback, and after saving it counts as the planner's. */
  lemma FallbackMarkLost(id: string)
    ensures var template := Some(EncodeManifest(OneStep(id)));
            && Resolved(None, template) == Some(FreshPlan(OneStep(id), [id], true))
            && Resolved(StoreJson(Resolved(None, template).value, template), template) == Some(FreshPlan(OneStep(id), [id], false))
  {
    hide Verdict, Schedule, EncodeManifest, ValidGraph, CanonicalCaps, OneStep, GraphErrorOf, DecodeManifest;
    var dag := OneStep(id);
    OneStepFits(id);
    ManifestDecodes(dag);
    GraphErrorExact(dag);
    NothingGiven();
    WrittenIsAccepted(dag);
  }

  lemma NothingGiven()
    ensures Verdict(None).dag == None
  {
  }
}
