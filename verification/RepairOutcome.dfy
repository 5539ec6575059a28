/** What one repair turn loads, runs and saves, over the fields of its outcome. */
module RepairOutcome {
  import opened Wrappers
  import opened Text
  import opened Digraph
  import opened JsonTree
  import opened TaskGraph
  import opened BoundedDag
  import opened LinearDag
  import opened ManifestJson
  import opened CandidateDag
  import opened RepairSplice
  import opened PlanStore
  import opened RepairSession

  /** The planner is not asked: the step was cancelled or refused. */
  predicate NotAsked(turn: RepairTurn)
  {
    var failClass := Trim(turn.fail.failClass);
    failClass == "cancelled" || failClass == "policy_deny"
  }

  /** The planner gave a plan of its own, and the host can schedule the splice of it. */
  ghost predicate CanSplice(plan: PlannedLiveDag, turn: RepairTurn)
  {
    && !NotAsked(turn) && turn.reply.Some? && !turn.reply.value.usedFallback
    && Schedule(SpliceSteps(plan, turn.fail, turn.reply.value).dag).Some?
  }

  /** Without a plan the session starts over, and a plan that cannot be loaded fails the turn. */
  lemma NothingLoaded(host: Host, saved: Memory, turn: RepairTurn)
    ensures Load(host, saved) == NoPlan ==> Turn(host, saved, turn) == (StartOver, NothingSaved)
    ensures Load(host, saved) == Unloadable ==> Turn(host, saved, turn) == (Failed, saved)
  {
    hide Load, Decided, SavedBy;
  }

  /** A turn that finds a plan fails exactly when the planner is asked and gives no reply; otherwise it runs something. */
  lemma FailsExactly(host: Host, saved: Memory, turn: RepairTurn)
    requires Load(host, saved).Found?
    ensures var outcome := Turn(host, saved, turn).0;
            && (outcome == Failed <==> !NotAsked(turn) && turn.reply.None?)
            && (outcome.Run? <==> NotAsked(turn) || turn.reply.Some?)
  {
    hide Load, SpliceSteps, Schedule, SavedBy;
  }

  lemma ScheduledIsListed(plan: PlannedLiveDag)
    requires Schedule(plan.dag) == Some(plan.order)
    ensures Listed(plan)
  {
    hide Topo, Adjacency, LinearCover, HasFork;
    TopoCharacterised(plan.dag);
    CoverParts(plan.dag, plan.order);
  }

  lemma CoverParts(dag: DagManifest, o: seq<string>)
    ensures LinearCover(dag, o) ==> UniqueIds(dag.nodes) && Distinct(o) && Elements(o) == Elements(Ids(dag.nodes))
  {
    if LinearCover(dag, o) {
      CoverElements(dag, o);
    }
  }

  /** The order of whatever is loaded lists each node of its graph once, so a splice onto it is the one in closed form. */
  lemma LoadedIsListed(host: Host, saved: Memory)
    ensures Load(host, saved).Found? ==> Listed(Load(host, saved).plan)
  {
    hide Schedule, FallbackDag, Resolved, Listed, Verdict;
    if Load(host, saved).Found? {
      var plan := Load(host, saved).plan;
      if host.path.None? {
        ResolvedCases(saved.value, host.template);
      }
      ScheduledIsListed(plan);
    }
  }

  /** What it runs: the splice when there is one, else what was loaded, from the failed step on. */
  lemma RunsExactly(host: Host, saved: Memory, turn: RepairTurn)
    requires Load(host, saved).Found? && (NotAsked(turn) || turn.reply.Some?)
    ensures var plan, outcome := Load(host, saved).plan, Turn(host, saved, turn).0;
            var k := if turn.fail.index < |plan.order| then turn.fail.index else |plan.order|;
            && outcome.Run? && outcome.plan.graphTaskOverride == Some(turn.task) && outcome.plan.resumeFrom == k
            && (CanSplice(plan, turn) ==>
                var s := SpliceSteps(plan, turn.fail, turn.reply.value);
                outcome.plan.dag == s.dag && outcome.plan.order == s.order && outcome.plan.source == "repair"
                && !outcome.plan.usedFallback)
            && (!CanSplice(plan, turn) ==>
                outcome.plan.dag == plan.dag && outcome.plan.order == plan.order && outcome.plan.source == "repair_keep"
                && outcome.plan.usedFallback == plan.usedFallback)
  {
    hide Load, Schedule, SavedBy, Chained, Collected, Rest, Prefix;
  }

  /** What is saved: the graph of the splice that is run, if the write succeeds, and otherwise what was saved before. */
  lemma SavesExactly(host: Host, saved: Memory, turn: RepairTurn)
    requires Load(host, saved).Found?
    ensures var plan, outcome, next := Load(host, saved).plan, Turn(host, saved, turn).0, Turn(host, saved, turn).1;
            && (CanSplice(plan, turn) && turn.stores ==> outcome.Run? && next == Saved(Some(EncodeManifest(outcome.plan.dag))))
            && (!(CanSplice(plan, turn) && turn.stores) ==> next == saved)
  {
    hide Load, Schedule, Chained, Collected, Rest, Prefix, EncodeManifest;
  }

  /** What a turn loads, for a host with or without a file at the operator's path. */
  lemma LoadsExactly(host: Host, saved: Memory, dag: DagManifest, order: seq<string>)
    ensures !host.live ==> Load(host, saved) == NoPlan
    ensures host.live && host.path.Some? ==>
              && (host.path.value.Some? && DecodeManifest(host.path.value.value) == Some(dag) && ValidGraph(dag) && Schedule(dag) == Some(order)
                  ==> Load(host, saved) == Found(PlannedLiveDag(dag, order, false, "operator_path", 0, None)))
              && (Load(host, saved).Found? ==>
                  host.path.value.Some? && DecodeManifest(host.path.value.value).Some?
                  && ValidGraph(DecodeManifest(host.path.value.value).value)
                  && Schedule(DecodeManifest(host.path.value.value).value).Some?)
              && Load(host, saved) != NoPlan
    ensures host.live && host.path.None? && saved.NothingSaved? ==> Load(host, saved) == NoPlan
    ensures host.live && host.path.None? && saved.Saved? ==>
              var r := Resolved(saved.value, host.template);
              (r.Some? ==> Load(host, saved) == Found(r.value)) && (r.None? ==> Load(host, saved) == Unloadable)
  {
    hide Schedule, ValidGraph, DecodeManifest, Resolved, FallbackDag;
    if host.path.Some? {
      FallbackMeans(host.path.value);
    }
  }
}
