/** Repairs that cut away the last fork and are refused, although both plans were accepted and the result fits the cap. */
module RefusedRepair {
  import opened Wrappers
  import opened Digraph
  import opened TaskGraph
  import opened LinearDag
  import opened CandidateDag
  import opened RepairSplice
  import opened SpliceSchedule
  import opened RepairTheorems
  import opened LinearRepair
  import opened PlanStore
  import opened ForkBack
  import opened RepairStore

  function OneStepPlan(d: string): PlannedLiveDag
  {
    FreshPlan(OneStep(d), [d], false)
  }

  ghost predicate FourIds(a: string, b: string, c: string, d: string)
  {
    ThreeIds(a, b, c) && d != "" && d != a && d != b && d != c
  }

  function Failed(b: string): DagFailCursor
  {
    DagFailCursor(b, 1, "timeout")
  }

  lemma OneStepAccepted(d: string)
    requires d != ""
    ensures AcceptedPlan(OneStepPlan(d)) && Listed(OneStepPlan(d))
  {
    var plan := OneStepPlan(d);
    assert NonEmptyIds(plan.dag.nodes);
    OneStepFits(d);
    hide *;
    OneStepIs(d);
    WellPlannedIntro(plan);
    AcceptedIntro(plan);
    AcceptedParts(plan);
  }

  lemma OneStepIs(d: string)
    ensures var plan := OneStepPlan(d);
            plan.dag == OneStep(d) && plan.order == [d] && !plan.usedFallback
            && |plan.dag.nodes| == 1 && plan.dag.nodes[0].id == d && plan.dag.nodes[0].fork == []
  {
  }

  lemma GraftedStep(a: string, d: string)
    requires a != d
    ensures Grafted([d], OneStep(d).nodes, [a]) == [d]
  {
    var nodes := OneStep(d).nodes;
    assert nodes[0].id == d;
    assert [d][..0] == [] && Grafted([], nodes, [a]) == [];
    assert Find(nodes, d).Some?;
  }

  lemma RefusedParts(a: string, b: string, c: string, d: string)
    requires FourIds(a, b, c, d)
    ensures var stored, remaining := Detour(a, b, c), OneStepPlan(d);
            && Prefix(stored, Failed(b)) == [a] && Rest(stored, Failed(b), remaining) == [d]
            && RestSource(stored, Failed(b), remaining) == remaining
  {
    hide Grafted, OneStep;
    OneStepIs(d);
    GraftedStep(a, d);
    assert Detour(a, b, c).order[..1] == [a];
  }

  lemma RefusedNodes(a: string, b: string, c: string, d: string)
    requires FourIds(a, b, c, d) && Listed(Detour(a, b, c))
    ensures forall n :: n in RawNodes(Detour(a, b, c), Failed(b), OneStepPlan(d)) ==> n.fork == []
  {
    hide Listed, KeepNodes, Rest, Prefix, RestSource, Ids, OneStepPlan;
    RefusedParts(a, b, c, d);
    DetourKept(a, b, c);
    OneStepIs(d);
    RestKnown(Detour(a, b, c), Failed(b), OneStepPlan(d));
    assert Find(OneStepPlan(d).dag.nodes, d) == Some(OneStepPlan(d).dag.nodes[0]);
  }

  lemma ForkFreeRelinked(raw: seq<DagNode>, prefix: seq<string>, rest: seq<string>)
    requires forall n :: n in raw ==> n.fork == []
    ensures !HasFork(RelinkAll(raw, prefix, rest))
  {
    hide Relink;
    var nodes := RelinkAll(raw, prefix, rest);
    forall n | n in nodes
      ensures n.fork == []
    {
      var i :| 0 <= i < |nodes| && nodes[i] == n;
      RelinkKeeps(raw[i], prefix, rest);
    }
  }

  lemma RefusedSplice(a: string, b: string, c: string, d: string)
    requires FourIds(a, b, c, d) && Listed(Detour(a, b, c))
    ensures var s := Splice(Detour(a, b, c), Failed(b), OneStepPlan(d));
            s.order == [a, d] && !HasFork(s.dag.nodes) && s.dag.maxSteps == 8
    ensures !PrefixIsChain(Detour(a, b, c), Failed(b), OneStepPlan(d))
  {
    hide Listed, RawNodes, Rest, Prefix, RestSource, RelinkAll, Detour, OneStepPlan, HasFork, Follows, EndsAt;
    DetourHeader(a, b, c);
    RefusedParts(a, b, c, d);
    RefusedNodes(a, b, c, d);
    ForkFreeRelinked(RawNodes(Detour(a, b, c), Failed(b), OneStepPlan(d)), [a], [d]);
    assert [a] + [d] == [a, d];
  }

  /**
   The finished `a` leads to the entry `b`, and both are in front of the only fork. The replan puts `d` behind `a`: two
   accepted plans, a result without forks and within the cap, and no schedule.
   */
  lemma RepairIsRefused(a: string, b: string, c: string, d: string)
    requires FourIds(a, b, c, d)
    ensures var stored, remaining := Detour(a, b, c), OneStepPlan(d);
            && AcceptedPlan(stored) && AcceptedPlan(remaining) && Listed(stored) && !remaining.usedFallback
            && var s := Splice(stored, Failed(b), remaining);
               && s.order == [a, d] && !HasFork(s.dag.nodes) && |s.order| <= s.dag.maxSteps
               && Schedule(s.dag) == None
  {
    hide *;
    var stored, remaining := Detour(a, b, c), OneStepPlan(d);
    FourPick(a, b, c, d);
    DetourAccepted(a, b, c);
    OneStepAccepted(d);
    OneStepIs(d);
    AcceptedParts(stored);
    AcceptedParts(remaining);
    SoundParts(stored);
    SoundParts(remaining);
    RefusedSplice(a, b, c, d);
    ForkFreeSpliceAccepted(stored, Failed(b), remaining);
  }

  lemma FourPick(a: string, b: string, c: string, d: string)
    requires FourIds(a, b, c, d)
    ensures ThreeIds(a, b, c) && d != ""
  {
  }
}
