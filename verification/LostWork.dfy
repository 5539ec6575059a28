/**
 Where sessions start, and three ways in which their work is lost: a saved splice without its entry, one with a fork back
 to finished work, and an operator's file, which no repair changes.
 */
module LostWork {
  import opened Wrappers
  import opened Text
  import opened Digraph
  import opened JsonTree
  import opened TaskGraph
  import opened BoundedDag
  import opened LinearDag
  import opened ManifestJson
  import opened CandidateDag
  import opened RepairSplice
  import opened SpliceSchedule
  import opened RepairTheorems
  import opened PlanStore
  import opened ForkBack
  import opened RepairStore
  import opened Admission
  import opened RepairSession

  /** The first plan of a session, admitted and saved, is found again as it is. */
  lemma FirstPlanIsFound(value: Option<Json>, template: Option<Json>, after: DagManifest)
    requires Resolved(value, template).Some? && !Resolved(value, template).value.usedFallback
    requires var plan := Resolved(value, template).value; NonEmptyIds(plan.dag.nodes) && Admits(plan.dag, after)
    ensures var plan := Resolved(value, template).value.(dag := after);
            var host, saved := Host(true, None, template), Saved(StoreJson(plan, template));
            PlannerSaved(host, saved) && Load(host, saved) == Found(plan)
  {
    hide *;
    var plan := Resolved(value, template).value;
    PlannerPlan(value, template);
    AdmittedIsAccepted(value, template, after);
    var admitted := plan.(dag := after);
    AcceptedParts(admitted);
    SoundParts(admitted);
    FreshIs(plan.dag, plan.order, after);
    AcceptedIsFound(admitted, template);
  }

  lemma FreshIs(dag: DagManifest, order: seq<string>, after: DagManifest)
    ensures FreshPlan(dag, order, false).(dag := after) == FreshPlan(after, order, false)
    ensures !FreshPlan(dag, order, false).usedFallback
  {
  }

  lemma AcceptedIsFound(plan: PlannedLiveDag, template: Option<Json>)
    requires AcceptedPlan(plan) && !plan.usedFallback
    ensures var host, saved := Host(true, None, template), Saved(StoreJson(plan, template));
            PlannerSaved(host, saved) && Load(host, saved) == Found(FreshPlan(plan.dag, plan.order, false))
  {
    hide *;
    AcceptedParts(plan);
    SoundParts(plan);
    PlannedIs(plan);
    StoredAsGraph(plan, template);
    CanonExact(plan.dag);
    SavedGraphReloads(plan.dag, template);
    FreshParts(plan.dag, plan.order);
    var host, saved := Host(true, None, template), Saved(StoreJson(plan, template));
    LoadSaved(host, StoreJson(plan, template));
    FindsIs(host, saved);
    PlannerIntro(host, saved);
  }

  lemma PlannedIs(plan: PlannedLiveDag)
    requires WellPlanned(plan)
    ensures Schedule(plan.dag) == Some(plan.order) && NonEmptyIds(plan.dag.nodes)
  {
    hide Schedule;
  }

  // ---------------------------------------------------------------- a lost entry, over two turns

  lemma FailClasses()
    ensures KeepsRemaining("cancelled") && !KeepsRemaining("timeout")
  {
    hide TrimStart, TrimEnd;
    NothingToTrim("cancelled");
    NothingToTrim("timeout");
  }

  function Replanned(b: string, d: string, e: string, task: string): RepairTurn
  {
    RepairTurn(DagFailCursor(b, 1, "timeout"), Some(Replan(e, d)), task, true)
  }

  /** The step behind the finished one was cancelled, so the rest is resumed as it is. */
  function Cancelled(id: string, task: string): RepairTurn
  {
    RepairTurn(DagFailCursor(id, 1, "cancelled"), None, task, true)
  }

  lemma ScheduleLists(dag: DagManifest, v: string)
    requires Schedule(dag).Some? && v in Schedule(dag).value
    ensures v in Ids(dag.nodes)
  {
    hide Topo, Linear, LinearCover, Adjacency;
    if HasFork(dag.nodes) {
      TopoCharacterised(dag);
      assert v in Elements(Topo(dag).value);
    } else {
      CoverElements(dag, Linear(dag).value);
      assert v in Elements(Linear(dag).value);
    }
  }

  lemma DetourIsFound(a: string, b: string, c: string, template: Option<Json>)
    requires ThreeIds(a, b, c)
    ensures var host, saved := Host(true, None, template), Saved(Some(EncodeManifest(Detour(a, b, c).dag)));
            && AcceptedPlan(Detour(a, b, c)) && Listed(Detour(a, b, c))
            && PlannerSaved(host, saved) && Load(host, saved) == Found(Detour(a, b, c))
  {
    DetourIs(a, b, c);
    hide *;
    DetourAccepted(a, b, c);
    StoredAsGraph(Detour(a, b, c), template);
    AcceptedIsFound(Detour(a, b, c), template);
  }

  lemma DetourIs(a: string, b: string, c: string)
    ensures !Detour(a, b, c).usedFallback && Detour(a, b, c).order == [a, b, c]
    ensures FreshPlan(Detour(a, b, c).dag, Detour(a, b, c).order, false) == Detour(a, b, c)
  {
  }

  /** The first turn runs `a, d, e` behind the finished `a`; what it saves is resolved to the template or not at all. */
  lemma FirstTurn(a: string, b: string, c: string, d: string, e: string, template: Option<Json>, task: string)
    requires FiveIds(a, b, c, d, e)
    ensures var host, saved := Host(true, None, template), Saved(Some(EncodeManifest(Detour(a, b, c).dag)));
            var turn := Replanned(b, d, e, task);
            && AcceptedPlan(Replan(e, d))
            && LosesEntry(host, saved, turn) && !SavesForkBack(host, saved, turn)
            && (var o := Turn(host, saved, turn).0; o.Run? && o.plan.order == [a, d, e] && o.plan.resumeFrom == 1)
            && !FindsPlanner(host, Turn(host, saved, turn).1)
  {
    hide *;
    var host, saved := Host(true, None, template), Saved(Some(EncodeManifest(Detour(a, b, c).dag)));
    var turn, plan := Replanned(b, d, e, task), Detour(a, b, c);
    FivePick(a, b, c, d, e);
    DetourIsFound(a, b, c, template);
    ReplanAccepted(d, e);
    DetourSpliced(a, b, c, d, e);
    ReplannedAccepted(a, b, c, d, e, task);
    Losing(host, saved, turn);
    TurnIs(host, saved, turn);
    SavedSplice(host, saved, turn);
  }

  lemma ReplannedAccepted(a: string, b: string, c: string, d: string, e: string, task: string)
    requires FiveIds(a, b, c, d, e) && Listed(Detour(a, b, c)) && Listed(Replan(e, d))
    ensures var turn, plan := Replanned(b, d, e, task), Detour(a, b, c);
            && turn.fail == DagFailCursor(b, 1, "timeout") && turn.reply == Some(Replan(e, d)) && turn.stores
            && SpliceAccepted(plan, turn)
            && Decided(plan, turn).Run? && Decided(plan, turn).plan.order == [a, d, e] && Decided(plan, turn).plan.resumeFrom == 1
  {
    hide Listed, Splice, SpliceSteps, Detour, Replan, Schedule, KeepsRemaining;
    var turn, plan := Replanned(b, d, e, task), Detour(a, b, c);
    FailClasses();
    ReplanIsPlanned(d, e);
    DetourSpliced(a, b, c, d, e);
    ChainScheduled(Splice(plan, turn.fail, Replan(e, d)).dag, a, d, e);
    SplicedIs(plan, turn);
    DetourResumes(a, b, c, d, e);
  }

  lemma DetourResumes(a: string, b: string, c: string, d: string, e: string)
    requires Listed(Detour(a, b, c))
    ensures Splice(Detour(a, b, c), DagFailCursor(b, 1, "timeout"), Replan(e, d)).resumeFrom == 1
  {
    hide Listed, Rest, RawNodes, RelinkAll;
  }

  lemma TemplateFound(host: Host, saved: Memory)
    requires host.live && host.path.None? && saved.Saved? && !FindsPlanner(host, saved)
    ensures var l := Load(host, saved);
            l == Unloadable || (l.Found? && l.plan.usedFallback && FallbackDag(host.template) == Some(l.plan.dag)
                                && Schedule(l.plan.dag) == Some(l.plan.order))
  {
    hide Schedule, Verdict, FallbackDag, Resolved;
    LoadSaved(host, saved.value);
    if Load(host, saved).Found? {
      FallbackPlan(saved.value, host.template);
    }
  }

  /**
   A repair that was accepted and run is gone at the next turn: after the entry was cut away, a cancelled step resumes the
   template, one node in, although none of its nodes has run; the finished node is in it only if the template has that id.
   */
  lemma FinishedWorkIsLost(a: string, b: string, c: string, d: string, e: string, template: Option<Json>, tasks: (string, string))
    requires FiveIds(a, b, c, d, e)
    ensures var host, saved := Host(true, None, template), Saved(Some(EncodeManifest(Detour(a, b, c).dag)));
            var turns := [Replanned(b, d, e, tasks.0), Cancelled(d, tasks.1)];
            && PlannerSaved(host, saved) && Load(host, saved) == Found(Detour(a, b, c)) && Replies(turns)
            && NeverSavesForkBack(host, saved, turns) && !NeverLosesEntry(host, saved, turns)
            && (var first := Turn(host, saved, turns[0]).0; first.Run? && first.plan.order == [a, d, e] && first.plan.resumeFrom == 1)
            && (var second := Turn(host, SavedAfter(host, saved, turns, 1), turns[1]).0;
                second == Failed
                || (second.Run? && second.plan.usedFallback && FallbackDag(template) == Some(second.plan.dag)
                    && (second.plan.order != [] ==> second.plan.resumeFrom == 1)
                    && (a !in Ids(second.plan.dag.nodes) ==> a !in second.plan.order)))
  {
    hide *;
    var host, saved := Host(true, None, template), Saved(Some(EncodeManifest(Detour(a, b, c).dag)));
    var turns := [Replanned(b, d, e, tasks.0), Cancelled(d, tasks.1)];
    FivePick(a, b, c, d, e);
    DetourIsFound(a, b, c, template);
    FirstTurn(a, b, c, d, e, template, tasks.0);
    TwoTurns(host, saved, turns[0], turns[1], b, d, e, tasks);
    var at := SavedAfter(host, saved, turns, 1);
    CancelledTurn(host, at, d, tasks.1, a);
  }

  lemma TwoTurns(host: Host, saved: Memory, t: RepairTurn, u: RepairTurn, b: string, d: string, e: string, tasks: (string, string))
    requires t == Replanned(b, d, e, tasks.0) && u == Cancelled(d, tasks.1) && AcceptedPlan(Replan(e, d))
    requires LosesEntry(host, saved, t) && !SavesForkBack(host, saved, t)
    ensures Replies([t, u]) && NeverSavesForkBack(host, saved, [t, u]) && !NeverLosesEntry(host, saved, [t, u])
    ensures var at := SavedAfter(host, saved, [t, u], 1); at == Turn(host, saved, t).1 && at.Saved?
  {
    hide AcceptedPlan, Load, Turn, Replan, SpliceSteps, Schedule, NoForkBack, EntryKept, KeepsRemaining;
    FailClasses();
    NextSaved(host, saved, [t, u], 0);
    assert SavedAfter(host, saved, [t, u], 0) == saved;
    assert LosesEntry(host, SavedAfter(host, saved, [t, u], 0), [t, u][0]);
    LosingSaves(host, saved, t);
  }

  lemma LosingSaves(host: Host, saved: Memory, turn: RepairTurn)
    requires LosesEntry(host, saved, turn)
    ensures Turn(host, saved, turn).1.Saved?
  {
    hide Load, EntryKept, Spliced, StoreJson, SpliceSteps, Schedule, KeepsRemaining;
  }

  lemma CancelledTurn(host: Host, saved: Memory, id: string, task: string, a: string)
    requires host.live && host.path.None? && saved.Saved? && !FindsPlanner(host, saved)
    ensures var second := Turn(host, saved, Cancelled(id, task)).0;
            second == Failed
            || (second.Run? && second.plan.usedFallback && FallbackDag(host.template) == Some(second.plan.dag)
                && (second.plan.order != [] ==> second.plan.resumeFrom == 1)
                && (a !in Ids(second.plan.dag.nodes) ==> a !in second.plan.order))
  {
    hide Load, SpliceSteps, Schedule, FallbackDag, KeepsRemaining, Spliced, SavedBy, FindsPlanner;
    FailClasses();
    TemplateFound(host, saved);
    var l := Load(host, saved);
    if l.Found? && a in l.plan.order {
      ScheduleLists(l.plan.dag, a);
    }
  }

  // ---------------------------------------------------------------- a fork back, over two turns

  lemma StoredAccepted(p: string, a: string, b: string)
    requires ThreeIds(p, a, b)
    ensures AcceptedPlan(Stored(p, a, b)) && Listed(Stored(p, a, b))
  {
    var plan := Stored(p, a, b);
    StoredShape(p, a, b);
    assert ValidGraph(plan.dag) && CanonicalCaps(plan.dag) by {
      assert [p, a, b][0] == p;
      DistinctThree(p, a, b);
      WorkIsValid(plan.dag);
    }
    hide *;
    StoredScheduled(p, a, b);
    AcceptedIntro(plan);
    AcceptedParts(plan);
  }

  lemma DistinctThree(p: string, a: string, b: string)
    requires p != a && p != b && a != b
    ensures Distinct([p, a, b])
  {
  }

  function ForkedBack(p: string, b: string, task: string): RepairTurn
  {
    RepairTurn(Fail(b), Some(Replan(p, b)), task, true)
  }

  lemma ForkedBackAccepted(p: string, a: string, b: string, task: string)
    requires ThreeIds(p, a, b) && Listed(Stored(p, a, b)) && Listed(Replan(p, b))
    ensures var plan, turn := Stored(p, a, b), ForkedBack(p, b, task);
            && turn.fail == Fail(b) && turn.reply == Some(Replan(p, b)) && turn.stores
            && SpliceAccepted(plan, turn) && EntryKept(plan, Fail(b), Replan(p, b))
            && Decided(plan, turn).Run? && Decided(plan, turn).plan.order == [p, a, b]
            && Schedule(Splice(plan, Fail(b), Replan(p, b)).dag) == Some([a, b, p])
  {
    hide Listed, Splice, SpliceSteps, Stored, Replan, Schedule, KeepsRemaining, Rest, Prefix;
    var plan, turn := Stored(p, a, b), ForkedBack(p, b, task);
    FailClasses();
    ForkBackReorders(p, a, b);
    PartsByHand(p, a, b);
    StoredIs(p, a, b);
    SplicedIs(plan, turn);
  }

  lemma StoredIs(p: string, a: string, b: string)
    ensures Stored(p, a, b).dag.entry == p && !Replan(p, b).usedFallback && !Stored(p, a, b).usedFallback
    ensures FreshPlan(Stored(p, a, b).dag, Stored(p, a, b).order, false) == Stored(p, a, b)
    ensures p in [p, a] + [b]
  {
    assert ([p, a] + [b])[0] == p;
  }

  /**
   After a saved fork back the entry is kept and no template appears, yet the next turn finds the order `a, b, p`: a step
   cancelled at index 2 is resumed at `p`, which has run, and the failed `b` is skipped.
   */
  lemma ForkBackSkipsStep(p: string, a: string, b: string, template: Option<Json>, tasks: (string, string))
    requires ThreeIds(p, a, b)
    ensures var host, saved := Host(true, None, template), Saved(Some(EncodeManifest(Stored(p, a, b).dag)));
            var turn, next := ForkedBack(p, b, tasks.0), RepairTurn(DagFailCursor(b, 2, "cancelled"), None, tasks.1, true);
            var first, second := Turn(host, saved, turn), Turn(host, Turn(host, saved, turn).1, next).0;
            && PlannerSaved(host, saved) && Load(host, saved) == Found(Stored(p, a, b))
            && !LosesEntry(host, saved, turn) && SavesForkBack(host, saved, turn)
            && first.0.Run? && first.0.plan.order == [p, a, b]
            && FindsPlanner(host, first.1)
            && second.Run? && second.plan.order == [a, b, p] && second.plan.resumeFrom == 2
  {
    hide *;
    var plan := Stored(p, a, b);
    var host, saved := Host(true, None, template), Saved(Some(EncodeManifest(plan.dag)));
    var turn, next := ForkedBack(p, b, tasks.0), RepairTurn(DagFailCursor(b, 2, "cancelled"), None, tasks.1, true);
    ThreePick(p, a, b);
    StoredAccepted(p, a, b);
    ReplanAccepted(b, p);
    StoredIs(p, a, b);
    StoredAsGraph(plan, template);
    AcceptedIsFound(plan, template);
    ForkBackReorders(p, a, b);
    ForkedBackAccepted(p, a, b, tasks.0);
    TurnIs(host, saved, turn);
    Losing(host, saved, turn);
    SavedSplice(host, saved, turn);
    var at := Turn(host, saved, turn).1;
    PlannerHost(host, at);
    PlannerFound(host, at);
    AcceptedParts(Load(host, at).plan);
    SoundParts(Load(host, at).plan);
    PlannedIs(Load(host, at).plan);
    TurnIs(host, at, next);
    ResumedPlan(Load(host, at).plan, next);
  }

  lemma ThreePick(p: string, a: string, b: string)
    requires ThreeIds(p, a, b)
    ensures p != "" && b != "" && b != p
  {
  }

  lemma ResumedPlan(plan: PlannedLiveDag, turn: RepairTurn)
    requires turn.fail.failClass == "cancelled"
    ensures var o := Decided(plan, turn);
            o.Run? && o.plan.order == plan.order && o.plan.dag == plan.dag
            && o.plan.resumeFrom == if turn.fail.index < |plan.order| then turn.fail.index else |plan.order|
  {
    hide KeepsRemaining, SpliceSteps, Schedule;
    FailClasses();
  }

  // ---------------------------------------------------------------- an operator's file

  /** With a file at the operator's path every turn of a session starts from the file's graph: no accepted repair is found again. */
  lemma OperatorForgets(host: Host, saved: Memory, turns: seq<RepairTurn>, k: nat)
    requires host.live && host.path.Some? && k < |turns|
    ensures var at := SavedAfter(host, saved, turns, k);
            Load(host, at) == Load(host, saved) && Turn(host, at, turns[k]).0 == Turn(host, saved, turns[k]).0
  {
    hide Schedule, FallbackDag, Decided, SavedBy, SavedAfter;
  }

  lemma OperatorLoads(host: Host, saved: Memory, plan: PlannedLiveDag)
    requires host.live && host.path == Some(Some(EncodeManifest(plan.dag)))
    requires ValidGraph(plan.dag) && Schedule(plan.dag) == Some(plan.order)
    ensures Load(host, saved) == Found(OperatorPlan(plan.dag, plan.order))
  {
    hide Schedule, ValidGraph, EncodeManifest, DecodeManifest, GraphErrorOf;
    ManifestDecodes(plan.dag);
    GraphErrorExact(plan.dag);
  }

  lemma OperatorDetour(a: string, b: string, c: string, d: string, e: string, task: string)
    requires FiveIds(a, b, c, d, e) && Listed(Detour(a, b, c)) && Listed(Replan(e, d))
    ensures var plan := OperatorPlan(Detour(a, b, c).dag, Detour(a, b, c).order);
            var first := Decided(plan, Replanned(b, d, e, task));
            first.Run? && first.plan.order == [a, d, e]
  {
    hide Listed, Splice, Detour, Replan, Schedule, KeepsRemaining, SpliceSteps;
    var plan, turn := OperatorPlan(Detour(a, b, c).dag, Detour(a, b, c).order), Replanned(b, d, e, task);
    SameSteps(plan, Detour(a, b, c), turn.fail, Replan(e, d));
    ReplannedAccepted(a, b, c, d, e, task);
  }

  lemma SameSteps(plan: PlannedLiveDag, other: PlannedLiveDag, fail: DagFailCursor, remaining: PlannedLiveDag)
    requires plan.dag == other.dag && plan.order == other.order
    ensures SpliceSteps(plan, fail, remaining) == SpliceSteps(other, fail, remaining)
  {
    hide Grafted, Chained, KeepNodes, Appended, Lookup;
    assert Prefix(plan, fail) == Prefix(other, fail);
    assert Rest(plan, fail, remaining) == Rest(other, fail, remaining);
  }

  /** The file says `a, b, c`; the repair ran `a, d`, and a step later the host resumes the file at `c`, so `b` never runs. */
  lemma RepairOfFileIsLost(a: string, b: string, c: string, d: string, e: string, saved: Memory, template: Option<Json>, tasks: (string, string))
    requires FiveIds(a, b, c, d, e)
    ensures var host := Host(true, Some(Some(EncodeManifest(Detour(a, b, c).dag))), template);
            var turns := [Replanned(b, d, e, tasks.0), RepairTurn(DagFailCursor(e, 2, "cancelled"), None, tasks.1, true)];
            && (var first := Turn(host, saved, turns[0]).0; first.Run? && first.plan.order == [a, d, e])
            && (var second := Turn(host, SavedAfter(host, saved, turns, 1), turns[1]).0;
                second.Run? && second.plan.order == [a, b, c] && second.plan.resumeFrom == 2)
  {
    hide *;
    var plan := Detour(a, b, c);
    var host := Host(true, Some(Some(EncodeManifest(plan.dag))), template);
    var turns := [Replanned(b, d, e, tasks.0), RepairTurn(DagFailCursor(e, 2, "cancelled"), None, tasks.1, true)];
    FivePick(a, b, c, d, e);
    DetourAccepted(a, b, c);
    AcceptedParts(plan);
    SoundParts(plan);
    PlannedIs(plan);
    DetourIs(a, b, c);
    ReplanAccepted(d, e);
    OperatorLoads(host, saved, plan);
    OperatorLoads(host, SavedAfter(host, saved, turns, 1), plan);
    TurnIs(host, saved, turns[0]);
    TurnIs(host, SavedAfter(host, saved, turns, 1), turns[1]);
    OperatorDetour(a, b, c, d, e, tasks.0);
    OperatorIs(plan);
    ResumedPlan(OperatorPlan(plan.dag, plan.order), turns[1]);
  }

  lemma OperatorIs(plan: PlannedLiveDag)
    ensures OperatorPlan(plan.dag, plan.order).order == plan.order
  {
  }
}
