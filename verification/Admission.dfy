/**
 What admission may do to a planner's graph before it is run or saved: it fills in fields of single nodes and makes tags
 canonical, and it never touches ids or links.
 */
module Admission {
  import opened Wrappers
  import opened Digraph
  import opened JsonTree
  import opened TaskGraph
  import opened LinearDag
  import opened ShapeSchedule
  import opened CandidateDag
  import opened RepairSplice
  import opened SpliceSchedule
  import opened PlanStore
  import opened ForkBack
  import opened RepairStore

  /** No earlier name stands for the tag that name `j` stands for. */
  ghost predicate FirstAsked(caps: seq<string>, j: nat)
    requires j < |caps|
  {
    forall k :: 0 <= k < j ==> Canonicalize(caps[k]) != Canonicalize(caps[j])
  }

  /** The tags of the first `n` names stand in the order in which they are asked for first. */
  ghost predicate TagsInOrder(caps: seq<string>, n: nat, out: seq<string>)
  {
    n <= |caps| && (forall i :: 0 <= i < n ==> Canonicalize(caps[i]).Some? && Canonicalize(caps[i]).value in out)
    && forall i, j :: 0 <= i < j < n && FirstAsked(caps, j) ==>
         Before(out, Canonicalize(caps[i]).value, Canonicalize(caps[j]).value)
  }

  lemma NextInOrder(caps: seq<string>, n: nat, out: seq<string>)
    requires TagsInOrder(caps, n, out) && n < |caps| && Canonicalize(caps[n]).Some?
    requires forall t :: t in out <==> exists c :: c in caps[..n] && Canonicalize(c) == Some(t)
    ensures var t := Canonicalize(caps[n]).value;
            TagsInOrder(caps, n + 1, if t in out then out else out + [t])
  {
    hide *;
    var t := Canonicalize(caps[n]).value;
    if t in out {
      AskedBefore(caps, n, t);
      OldTag(caps, n, out);
    } else {
      NewTag(caps, n, out, t);
    }
  }

  lemma AskedBefore(caps: seq<string>, n: nat, t: string)
    requires n < |caps| && Canonicalize(caps[n]) == Some(t) && exists c :: c in caps[..n] && Canonicalize(c) == Some(t)
    ensures !FirstAsked(caps, n)
  {
    hide Canonicalize;
    var c :| c in caps[..n] && Canonicalize(c) == Some(t);
    var k :| 0 <= k < n && caps[..n][k] == c;
    assert caps[k] == c;
  }

  lemma OldTag(caps: seq<string>, n: nat, out: seq<string>)
    requires TagsInOrder(caps, n, out) && n < |caps| && Canonicalize(caps[n]).Some? && Canonicalize(caps[n]).value in out
    requires !FirstAsked(caps, n)
    ensures TagsInOrder(caps, n + 1, out)
  {
    hide Canonicalize, Before, FirstAsked;
  }

  lemma NewTag(caps: seq<string>, n: nat, out: seq<string>, t: string)
    requires TagsInOrder(caps, n, out) && n < |caps| && Canonicalize(caps[n]) == Some(t)
    ensures TagsInOrder(caps, n + 1, out + [t])
  {
    hide Canonicalize, Before, FirstAsked;
    forall i, j | 0 <= i < j < n + 1 && FirstAsked(caps, j)
      ensures Before(out + [t], Canonicalize(caps[i]).value, Canonicalize(caps[j]).value)
    {
      BeforeInParts(out, [t], Canonicalize(caps[i]).value, Canonicalize(caps[j]).value);
    }
  }

  /** The canonical tags of a node, each once, in the order they are asked for; nothing when one is unknown. */
  method CanonicalizeNodeCaps(caps: seq<string>) returns (r: Option<seq<string>>)
    ensures r.Some? <==> forall c :: c in caps ==> Canonicalize(c).Some?
    ensures r.Some? ==> Distinct(r.value) && forall t :: t in r.value <==> exists c :: c in caps && Canonicalize(c) == Some(t)
    ensures r.Some? ==> forall i, j :: 0 <= i < j < |caps| && FirstAsked(caps, j) ==>
              Before(r.value, Canonicalize(caps[i]).value, Canonicalize(caps[j]).value)
  {
    hide Canonicalize;
    var out: seq<string> := [];
    for i := 0 to |caps|
      invariant forall c :: c in caps[..i] ==> Canonicalize(c).Some?
      invariant Distinct(out)
      invariant forall t :: t in out <==> exists c :: c in caps[..i] && Canonicalize(c) == Some(t)
      invariant TagsInOrder(caps, i, out)
    {
      var canon := Canonicalize(caps[i]);
      assert caps[i] in caps;
      if canon.None? {
        return None;
      }
      assert caps[..i + 1] == caps[..i] + [caps[i]];
      DistinctSnoc(out, canon.value);
      NextInOrder(caps, i, out);
      if canon.value !in out {
        out := out + [canon.value];
      }
    }
    assert caps[..|caps|] == caps;
    return Some(out);
  }

  /** A node before and after: id, links, context and step bound stay, and the tags end canonical. */
  ghost predicate AdmitsNode(n: DagNode, m: DagNode)
  {
    && m == n.(capabilities := m.capabilities, taskType := m.taskType, artifact := m.artifact, sigma := m.sigma, locus := m.locus)
    && (forall c :: c in m.capabilities ==> Canonical(c))
    && (n.capabilities != [] ==> m.capabilities != [])
  }

  ghost predicate Admits(before: DagManifest, after: DagManifest)
  {
    && after == before.(nodes := after.nodes)
    && |after.nodes| == |before.nodes|
    && forall i :: 0 <= i < |before.nodes| ==> AdmitsNode(before.nodes[i], after.nodes[i])
  }

  lemma AdmittedNode(before: DagManifest, after: DagManifest, n: DagNode)
    requires Admits(before, after) && n in after.nodes
    ensures exists m :: m in before.nodes && AdmitsNode(m, n)
  {
    var i :| 0 <= i < |after.nodes| && after.nodes[i] == n;
    assert before.nodes[i] in before.nodes;
  }

  lemma AdmittedGraph(before: DagManifest, after: DagManifest)
    requires Admits(before, after)
    ensures SameGraph(before, after) && Ids(before.nodes) == Ids(after.nodes)
    ensures CanonicalCaps(after)
    ensures NonEmptyIds(before.nodes) ==> NonEmptyIds(after.nodes)
    ensures ValidGraph(before) ==> ValidGraph(after)
  {
    hide Canonical;
    assert Ids(before.nodes) == Ids(after.nodes);
    forall n | n in after.nodes
      ensures exists m :: m in before.nodes && AdmitsNode(m, n)
    {
      AdmittedNode(before, after, n);
    }
  }

  /** A planner's graph that was admitted is scheduled as before, valid and canonical, so an accepted plan it stays. */
  lemma AdmittedIsAccepted(value: Option<Json>, fallback: Option<Json>, after: DagManifest)
    requires Resolved(value, fallback).Some? && !Resolved(value, fallback).value.usedFallback
    requires var plan := Resolved(value, fallback).value; NonEmptyIds(plan.dag.nodes) && Admits(plan.dag, after)
    ensures AcceptedPlan(Resolved(value, fallback).value.(dag := after))
  {
    hide *;
    var plan := Resolved(value, fallback).value;
    PlannerPlan(value, fallback);
    AcceptedIsCanonical(value);
    AdmittedGraph(plan.dag, after);
    SameSchedule(plan.dag, after);
    var admitted := plan.(dag := after);
    WellPlannedIntro(admitted);
    AcceptedIntro(admitted);
  }
}
