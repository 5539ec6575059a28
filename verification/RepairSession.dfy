/**
 Repair turns over a whole session. Between two turns only the saved value survives: each turn loads its plan anew, from
 the operator's file or by resolving what was saved, and only an accepted splice is saved.
 */
module RepairSession {
  import opened Wrappers
  import opened Text
  import opened Digraph
  import opened JsonTree
  import opened TaskGraph
  import opened BoundedDag
  import opened LinearDag
  import opened ManifestJson
  import opened CandidateDag
  import opened ShapeSchedule
  import opened RepairSplice
  import opened SpliceSchedule
  import opened RepairTheorems
  import opened PlanStore
  import opened ForkBack
  import opened RepairStore

  /** The file at the operator's path, if one is set, holds a JSON value or nothing usable; likewise the built-in template. */
  datatype Host = Host(live: bool, path: Option<Option<Json>>, template: Option<Json>)
  {
    function Fallback(): Option<Json>
    {
      if path.Some? then path.value else template
    }
  }

  /** What the session holds under the plan's key. */
  datatype Memory = NothingSaved | Saved(value: Option<Json>)

  datatype Loaded = NoPlan | Unloadable | Found(plan: PlannedLiveDag)

  /** `reply` is what planner chat and admission gave, nothing when one of them failed. `stores` says the write succeeds. */
  datatype RepairTurn = RepairTurn(fail: DagFailCursor, reply: Option<PlannedLiveDag>, task: string, stores: bool)

  datatype Outcome = StartOver | Failed | Run(plan: PlannedLiveDag)

  function OperatorPlan(dag: DagManifest, order: seq<string>): PlannedLiveDag
  {
    PlannedLiveDag(dag, order, false, "operator_path", 0, None)
  }

  // ---------------------------------------------------------------- one turn

  ghost function Load(host: Host, saved: Memory): Loaded
  {
    if !host.live then NoPlan
    else if host.path.Some? then
      var dag := FallbackDag(host.path.value);
      if dag.Some? && Schedule(dag.value).Some? then Found(OperatorPlan(dag.value, Schedule(dag.value).value)) else Unloadable
    else if saved.NothingSaved? then NoPlan
    else
      var plan := Resolved(saved.value, host.template);
      if plan.Some? then Found(plan.value) else Unloadable
  }

  /** A cancelled or refused step is resumed without asking the planner. */
  predicate KeepsRemaining(failClass: string)
  {
    Trim(failClass) == "cancelled" || Trim(failClass) == "policy_deny"
  }

  function KeepRemaining(plan: PlannedLiveDag, turn: RepairTurn): PlannedLiveDag
  {
    plan.(resumeFrom := ResumeAt(plan, turn.fail), graphTaskOverride := Some(turn.task), source := "repair_keep")
  }

  /** The replanned rest is grafted on. */
  ghost predicate SpliceAccepted(plan: PlannedLiveDag, turn: RepairTurn)
  {
    && !KeepsRemaining(turn.fail.failClass)
    && turn.reply.Some? && !turn.reply.value.usedFallback
    && Schedule(SpliceSteps(plan, turn.fail, turn.reply.value).dag).Some?
  }

  function Spliced(plan: PlannedLiveDag, turn: RepairTurn): PlannedLiveDag
    requires turn.reply.Some?
  {
    SpliceSteps(plan, turn.fail, turn.reply.value).(graphTaskOverride := Some(turn.task))
  }

  ghost function Decided(plan: PlannedLiveDag, turn: RepairTurn): Outcome
  {
    if !KeepsRemaining(turn.fail.failClass) && turn.reply.None? then Failed
    else if SpliceAccepted(plan, turn) then Run(Spliced(plan, turn))
    else Run(KeepRemaining(plan, turn))
  }

  ghost function SavedBy(host: Host, plan: PlannedLiveDag, saved: Memory, turn: RepairTurn): Memory
  {
    if SpliceAccepted(plan, turn) && turn.stores then Saved(StoreJson(Spliced(plan, turn), host.Fallback())) else saved
  }

  /** The outcome of a turn and what is saved after it. */
  ghost function Turn(host: Host, saved: Memory, turn: RepairTurn): (Outcome, Memory)
  {
    match Load(host, saved)
    case NoPlan => (StartOver, NothingSaved)
    case Unloadable => (Failed, saved)
    case Found(plan) => (Decided(plan, turn), SavedBy(host, plan, saved, turn))
  }

  class Session {
    const host: Host
    var saved: Memory

    constructor (host: Host)
      ensures this.host == host && saved == NothingSaved
    {
      this.host := host;
      saved := NothingSaved;
    }

    method TryCachedOrFixed() returns (r: Loaded)
      ensures r == Load(host, saved)
    {
      hide FallbackDag, Schedule, Resolved;
      if !host.live {
        return NoPlan;
      }
      if host.path.Some? {
        var dag := ParseFallback(host.path.value);
        if dag.None? {
          return Unloadable;
        }
        var order := ScheduleNodeIds(dag.value);
        return if order.Ok? then Found(OperatorPlan(dag.value, order.value)) else Unloadable;
      }
      if saved.NothingSaved? {
        return NoPlan;
      }
      var plan := ResolvePlannedManifest(saved.value, host.template);
      return if plan.Some? then Found(plan.value) else Unloadable;
    }

    /** The turn after a failed step. */
    method PrepareRepair(turn: RepairTurn) returns (outcome: Outcome)
      modifies this`saved
      ensures (outcome, saved) == Turn(host, old(saved), turn)
    {
      hide Load, SpliceSteps, Splice, Schedule, StoreJson, KeepsRemaining;
      var loaded := TryCachedOrFixed();
      match loaded {
        case NoPlan =>
          saved := NothingSaved;
          return StartOver;
        case Unloadable =>
          return Failed;
        case Found(plan) =>
          if KeepsRemaining(turn.fail.failClass) {
            return Run(KeepRemaining(plan, turn));
          }
          if turn.reply.None? {
            return Failed;
          }
          var remaining := turn.reply.value;
          if remaining.usedFallback {
            return Run(KeepRemaining(plan, turn));
          }
          var spliced := SpliceRemainingPlan(plan, turn.fail, remaining);
          var order := ScheduleNodeIds(spliced.dag);
          if order.Err? {
            return Run(KeepRemaining(plan, turn));
          }
          spliced := spliced.(graphTaskOverride := Some(turn.task));
          if turn.stores {
            saved := Saved(StoreJson(spliced, host.Fallback()));
          }
          return Run(spliced);
      }
    }
  }

  // ---------------------------------------------------------------- sessions

  /** What is saved after the first `k` turns. */
  ghost function SavedAfter(host: Host, saved: Memory, turns: seq<RepairTurn>, k: nat): Memory
    requires k <= |turns|
  {
    if k == 0 then saved else Turn(host, SavedAfter(host, saved, turns, k - 1), turns[k - 1]).1
  }

  /** The next turn finds a planner's plan, not the template. */
  ghost predicate FindsPlanner(host: Host, saved: Memory)
  {
    Load(host, saved).Found? && !Load(host, saved).plan.usedFallback
  }

  /** The state a session is in once a planner's graph was saved: no operator file, and the saved graph resolves. */
  ghost predicate PlannerSaved(host: Host, saved: Memory)
  {
    host.live && host.path.None? && FindsPlanner(host, saved) && NonEmptyIds(Load(host, saved).plan.dag.nodes)
  }

  /** Replies that are not the template come accepted and admitted. */
  ghost predicate Replies(turns: seq<RepairTurn>)
  {
    forall t :: t in turns ==> t.reply.Some? && !t.reply.value.usedFallback ==> AcceptedPlan(t.reply.value)
  }

  /** The turn saves a splice that lacks the entry. */
  ghost predicate LosesEntry(host: Host, saved: Memory, turn: RepairTurn)
  {
    var l := Load(host, saved);
    l.Found? && SpliceAccepted(l.plan, turn) && turn.stores && !EntryKept(l.plan, turn.fail, turn.reply.value)
  }

  /** The turn saves a splice in which a replanned node forks to a finished one. */
  ghost predicate SavesForkBack(host: Host, saved: Memory, turn: RepairTurn)
  {
    var l := Load(host, saved);
    l.Found? && SpliceAccepted(l.plan, turn) && turn.stores && !NoForkBack(l.plan, turn.fail, turn.reply.value)
  }

  /** The turn saves a splice in which a replanned node forks into the given finished work. */
  ghost predicate SavesForkInto(host: Host, saved: Memory, turn: RepairTurn, done: seq<string>)
  {
    var l := Load(host, saved);
    l.Found? && SpliceAccepted(l.plan, turn) && turn.stores && !NoForkInto(l.plan, turn.fail, turn.reply.value, done)
  }

  lemma PlannerFound(host: Host, saved: Memory)
    requires PlannerSaved(host, saved)
    ensures Load(host, saved).Found? && AcceptedPlan(Load(host, saved).plan)
  {
    hide Resolved, Schedule, ValidGraph, CanonicalCaps, Verdict;
    PlannerPlan(saved.value, host.template);
    AcceptedIsCanonical(saved.value);
    var plan := Load(host, saved).plan;
    WellPlannedIntro(plan);
  }

  lemma SplicedIs(plan: PlannedLiveDag, turn: RepairTurn)
    requires Listed(plan) && turn.reply.Some? && Listed(turn.reply.value)
    ensures var s := Splice(plan, turn.fail, turn.reply.value);
            Spliced(plan, turn) == s.(graphTaskOverride := Some(turn.task))
            && SpliceSteps(plan, turn.fail, turn.reply.value) == s
  {
    hide Splice, SpliceSteps, Listed;
    StepsAreSplice(plan, turn.fail, turn.reply.value);
  }

  lemma SavedIs(host: Host, plan: PlannedLiveDag, saved: Memory, turn: RepairTurn)
    requires host.path.None? && SpliceAccepted(plan, turn) && turn.stores && Listed(plan) && Listed(turn.reply.value)
    ensures var s := Splice(plan, turn.fail, turn.reply.value);
            Schedule(s.dag).Some? && SavedBy(host, plan, saved, turn) == Saved(StoreJson(s, host.template))
  {
    hide Splice, SpliceSteps, Listed, Schedule, EncodeManifest;
    SplicedIs(plan, turn);
  }

  lemma LoadSaved(host: Host, value: Option<Json>)
    requires host.live && host.path.None?
    ensures Load(host, Saved(value)) == if Resolved(value, host.template).Some? then Found(Resolved(value, host.template).value) else Unloadable
  {
    hide Resolved;
  }

  lemma PlannerIntro(host: Host, saved: Memory)
    requires host.live && host.path.None? && FindsPlanner(host, saved) && NonEmptyIds(Load(host, saved).plan.dag.nodes)
    ensures PlannerSaved(host, saved)
  {
    hide FindsPlanner, Load;
  }

  /** A saved splice is found again exactly when its entry was kept, with its order unless a replanned node forks back. */
  lemma SavedSplice(host: Host, saved: Memory, turn: RepairTurn)
    requires PlannerSaved(host, saved)
    requires var l := Load(host, saved); l.Found? && SpliceAccepted(l.plan, turn) && turn.stores && AcceptedPlan(turn.reply.value)
    ensures var plan := Load(host, saved).plan;
            var next := SavedBy(host, plan, saved, turn);
            Listed(plan)
            && var s := Splice(plan, turn.fail, turn.reply.value);
            && Schedule(s.dag).Some?
            && (FindsPlanner(host, next) <==> EntryKept(plan, turn.fail, turn.reply.value))
            && (FindsPlanner(host, next) ==>
                  PlannerSaved(host, next) && Load(host, next).plan.dag == s.dag
                  && (Load(host, next).plan.order == s.order <==> NoForkBack(plan, turn.fail, turn.reply.value)))
  {
    PlannerHost(host, saved);
    TurnFlag(Load(host, saved).plan, turn);
    hide *;
    PlannerFound(host, saved);
    var plan, remaining := Load(host, saved).plan, turn.reply.value;
    AcceptedParts(plan);
    AcceptedParts(remaining);
    SoundParts(plan);
    SoundParts(remaining);
    SavedIs(host, plan, saved, turn);
    var s := Splice(plan, turn.fail, remaining);
    SplicedTags(plan, turn.fail, remaining);
    CanonExact(s.dag);
    RepairedPlanReloads(plan, turn.fail, remaining, host.template);
    SplicedNonEmpty(plan, turn.fail, remaining);
    var next := SavedBy(host, plan, saved, turn);
    LoadSaved(host, StoreJson(s, host.template));
    FindsIs(host, next);
    if FindsPlanner(host, next) {
      PlannerIntro(host, next);
    }
  }

  lemma FindsIs(host: Host, saved: Memory)
    ensures FindsPlanner(host, saved) <==> Load(host, saved).Found? && !Load(host, saved).plan.usedFallback
  {
    hide Load;
  }

  lemma PlannerHost(host: Host, saved: Memory)
    requires PlannerSaved(host, saved)
    ensures host.live && host.path.None? && FindsPlanner(host, saved)
  {
    hide FindsPlanner, Load;
  }

  lemma TurnFlag(plan: PlannedLiveDag, turn: RepairTurn)
    ensures SpliceAccepted(plan, turn) ==> turn.reply.Some? && !turn.reply.value.usedFallback
  {
    hide SpliceSteps, Schedule, KeepsRemaining;
  }

  // ---------------------------------------------------------------- what a turn leaves behind

  lemma TurnIs(host: Host, saved: Memory, turn: RepairTurn)
    requires Load(host, saved).Found?
    ensures var plan := Load(host, saved).plan;
            Turn(host, saved, turn) == (Decided(plan, turn), SavedBy(host, plan, saved, turn))
  {
    hide Load, Decided, SavedBy;
  }

  lemma NothingSavedBy(host: Host, plan: PlannedLiveDag, saved: Memory, turn: RepairTurn)
    requires !(SpliceAccepted(plan, turn) && turn.stores)
    ensures SavedBy(host, plan, saved, turn) == saved
  {
    hide SpliceAccepted, StoreJson, Spliced;
  }

  lemma Losing(host: Host, saved: Memory, turn: RepairTurn)
    requires Load(host, saved).Found?
    ensures var plan := Load(host, saved).plan;
            LosesEntry(host, saved, turn)
            <==> SpliceAccepted(plan, turn) && turn.stores && (TurnFlag(plan, turn); !EntryKept(plan, turn.fail, turn.reply.value))
    ensures var plan := Load(host, saved).plan;
            SavesForkBack(host, saved, turn)
            <==> SpliceAccepted(plan, turn) && turn.stores && (TurnFlag(plan, turn); !NoForkBack(plan, turn.fail, turn.reply.value))
    ensures forall done ::
              SavesForkInto(host, saved, turn, done)
              <==> SpliceAccepted(Load(host, saved).plan, turn) && turn.stores
                   && (TurnFlag(Load(host, saved).plan, turn); !NoForkInto(Load(host, saved).plan, turn.fail, turn.reply.value, done))
  {
    hide Load, SpliceSteps, Schedule, EntryKept, NoForkBack, NoForkInto, KeepsRemaining;
  }

  lemma Reply(turns: seq<RepairTurn>, k: nat)
    requires Replies(turns) && k < |turns| && turns[k].reply.Some? && !turns[k].reply.value.usedFallback
    ensures AcceptedPlan(turns[k].reply.value)
  {
    hide AcceptedPlan;
    assert turns[k] in turns;
  }

  /** From a planner's graph, the next turn finds a planner's graph again exactly when this one does not save a splice without entry. */
  lemma TurnReloads(host: Host, saved: Memory, turns: seq<RepairTurn>, k: nat)
    requires k < |turns| && Replies(turns) && PlannerSaved(host, saved)
    ensures var next := Turn(host, saved, turns[k]).1;
            && (FindsPlanner(host, next) <==> !LosesEntry(host, saved, turns[k]))
            && (FindsPlanner(host, next) ==> PlannerSaved(host, next))
  {
    hide *;
    var turn := turns[k];
    PlannerHost(host, saved);
    PlannerFound(host, saved);
    var plan := Load(host, saved).plan;
    TurnIs(host, saved, turn);
    Losing(host, saved, turn);
    TurnFlag(plan, turn);
    if SpliceAccepted(plan, turn) && turn.stores {
      Reply(turns, k);
      SavedSplice(host, saved, turn);
    } else {
      NothingSavedBy(host, plan, saved, turn);
    }
  }

  /** The finished ids stand first, and the cap is the given one. */
  ghost predicate Keeps(plan: PlannedLiveDag, done: seq<string>, cap: nat)
  {
    done <= plan.order && plan.dag.maxSteps == cap && |plan.order| <= cap
  }

  lemma PrefixCovers(plan: PlannedLiveDag, fail: DagFailCursor, done: seq<string>)
    requires done <= plan.order && |done| <= fail.index
    ensures done <= Prefix(plan, fail) && |done| <= ResumeAt(plan, fail)
  {
  }

  lemma PlannedFits(plan: PlannedLiveDag)
    requires WellPlanned(plan)
    ensures |plan.order| <= plan.dag.maxSteps
  {
    hide WellPlanned;
    WellPlannedOrder(plan);
    TopoCharacterised(plan.dag);
  }

  /** The splice keeps what was finished before the failed step. */
  lemma SpliceKeeps(plan: PlannedLiveDag, fail: DagFailCursor, remaining: PlannedLiveDag, done: seq<string>, cap: nat)
    requires Listed(plan) && Listed(remaining) && Keeps(plan, done, cap) && |done| <= fail.index
    ensures done <= Splice(plan, fail, remaining).order && Splice(plan, fail, remaining).dag.maxSteps == cap
    ensures Splice(plan, fail, remaining).resumeFrom == ResumeAt(plan, fail) >= |done|
  {
    hide Listed, Rest, RawNodes, RelinkAll, Prefix, ResumeAt;
    PrefixCovers(plan, fail, done);
  }

  lemma AcceptedFits(plan: PlannedLiveDag, turn: RepairTurn, cap: nat)
    requires Listed(plan) && SpliceAccepted(plan, turn) && Listed(turn.reply.value)
    requires Splice(plan, turn.fail, turn.reply.value).dag.maxSteps == cap
    ensures |Splice(plan, turn.fail, turn.reply.value).order| <= cap
  {
    hide *;
    TurnFlag(plan, turn);
    var s := Splice(plan, turn.fail, turn.reply.value);
    SplicedIs(plan, turn);
    AcceptedSchedule(plan, turn);
    SplicedListed(plan, turn.fail, turn.reply.value);
    ScheduleFits(s.dag);
  }

  lemma AcceptedSchedule(plan: PlannedLiveDag, turn: RepairTurn)
    requires SpliceAccepted(plan, turn)
    ensures turn.reply.Some? && Schedule(SpliceSteps(plan, turn.fail, turn.reply.value).dag).Some?
  {
    hide SpliceSteps, Schedule, KeepsRemaining;
  }

  lemma ScheduleFits(dag: DagManifest)
    requires Schedule(dag).Some?
    ensures |dag.nodes| <= dag.maxSteps
  {
    hide Topo, Linear;
    if HasFork(dag.nodes) {
      TopoCharacterised(dag);
      TopoIsRun(dag);
    } else {
      CoverLists(dag, Linear(dag).value);
    }
  }

  /** A plan that a turn runs: nothing finished is run again or lost. */
  ghost predicate Resumes(outcome: Outcome, done: seq<string>, cap: nat)
  {
    outcome.Failed? || (outcome.Run? && Keeps(outcome.plan, done, cap) && |done| <= outcome.plan.resumeFrom)
  }

  lemma DecidedKeeps(plan: PlannedLiveDag, turn: RepairTurn, done: seq<string>, cap: nat)
    requires Listed(plan) && Keeps(plan, done, cap) && |done| <= turn.fail.index
    requires SpliceAccepted(plan, turn) ==> Listed(turn.reply.value)
    ensures Resumes(Decided(plan, turn), done, cap)
  {
    TurnFlag(plan, turn);
    hide SpliceAccepted, Listed, Splice, SpliceSteps, KeepsRemaining, ResumeAt;
    PrefixCovers(plan, turn.fail, done);
    if SpliceAccepted(plan, turn) {
      SplicedIs(plan, turn);
      SpliceKeeps(plan, turn.fail, turn.reply.value, done, cap);
      AcceptedFits(plan, turn, cap);
    }
  }

  /** The next turn finds a planner's plan that begins with the finished work. */
  ghost predicate FindsFinished(host: Host, saved: Memory, done: seq<string>)
  {
    FindsPlanner(host, saved) && done <= Load(host, saved).plan.order
  }

  lemma FinishedIs(host: Host, saved: Memory, done: seq<string>)
    ensures FindsFinished(host, saved, done)
            <==> FindsPlanner(host, saved) && Load(host, saved).Found? && done <= Load(host, saved).plan.order
  {
    hide Load;
  }

  /** What a saved splice begins with when it is found again. */
  lemma SavedSpliceKeeps(host: Host, saved: Memory, turn: RepairTurn, done: seq<string>)
    requires PlannerSaved(host, saved)
    requires var l := Load(host, saved); l.Found? && SpliceAccepted(l.plan, turn) && turn.stores && AcceptedPlan(turn.reply.value)
    requires done <= Prefix(Load(host, saved).plan, turn.fail)
    ensures var plan := Load(host, saved).plan;
            var next := SavedBy(host, plan, saved, turn);
            FindsPlanner(host, next) ==>
              Load(host, next).Found? && Load(host, next).plan.dag.maxSteps == plan.dag.maxSteps
              && (done <= Load(host, next).plan.order <==> NoForkInto(plan, turn.fail, turn.reply.value, done))
  {
    TurnFlag(Load(host, saved).plan, turn);
    hide *;
    PlannerFound(host, saved);
    var plan, remaining := Load(host, saved).plan, turn.reply.value;
    AcceptedParts(plan);
    AcceptedParts(remaining);
    SoundParts(plan);
    SoundParts(remaining);
    SavedSplice(host, saved, turn);
    SplicedOrder(plan, turn.fail, remaining);
    var next := SavedBy(host, plan, saved, turn);
    FindsIs(host, next);
    if FindsPlanner(host, next) {
      PlannerFound(host, next);
      AcceptedParts(Load(host, next).plan);
      SoundParts(Load(host, next).plan);
      PlannedParts(Load(host, next).plan);
      RescheduleKeepsExactly(plan, turn.fail, remaining, done);
    }
  }

  lemma PlannedParts(plan: PlannedLiveDag)
    requires WellPlanned(plan)
    ensures Schedule(plan.dag) == Some(plan.order) && NonEmptyIds(plan.dag.nodes)
  {
    hide Schedule;
  }

  /**
   One turn from a planner's graph that begins with the finished work: what it runs begins with that work and resumes
   behind it, and the next turn finds it again exactly when no splice without the entry, or with a fork into that work, is saved.
   */
  lemma TurnKeeps(host: Host, saved: Memory, turns: seq<RepairTurn>, k: nat, done: seq<string>, cap: nat)
    requires k < |turns| && Replies(turns) && PlannerSaved(host, saved)
    requires Load(host, saved).Found? && Keeps(Load(host, saved).plan, done, cap) && |done| <= turns[k].fail.index
    ensures Resumes(Turn(host, saved, turns[k]).0, done, cap)
    ensures var next := Turn(host, saved, turns[k]).1;
            && (FindsFinished(host, next, done)
                <==> !LosesEntry(host, saved, turns[k]) && !SavesForkInto(host, saved, turns[k], done))
            && (FindsFinished(host, next, done) ==>
                  PlannerSaved(host, next) && Load(host, next).Found? && Keeps(Load(host, next).plan, done, cap))
  {
    hide *;
    var turn, plan := turns[k], Load(host, saved).plan;
    PlannerHost(host, saved);
    PlannerFound(host, saved);
    AcceptedParts(plan);
    KeepsIs(plan, done, cap);
    PrefixCovers(plan, turn.fail, done);
    TurnIs(host, saved, turn);
    TurnFlag(plan, turn);
    TurnReloads(host, saved, turns, k);
    Losing(host, saved, turn);
    var next := Turn(host, saved, turn).1;
    FindsIs(host, next);
    FinishedIs(host, next, done);
    if SpliceAccepted(plan, turn) {
      Reply(turns, k);
      AcceptedParts(turn.reply.value);
    }
    if SpliceAccepted(plan, turn) && turn.stores {
      SavedSpliceKeeps(host, saved, turn, done);
    } else {
      NothingSavedBy(host, plan, saved, turn);
    }
    if FindsFinished(host, next, done) {
      PlannerFound(host, next);
      FoundFits(host, next);
      KeepsIs(Load(host, next).plan, done, cap);
    }
    DecidedKeeps(plan, turn, done, cap);
  }

  lemma KeepsIs(plan: PlannedLiveDag, done: seq<string>, cap: nat)
    ensures Keeps(plan, done, cap) <==> done <= plan.order && plan.dag.maxSteps == cap && |plan.order| <= cap
  {
  }

  /** A splice that is run and saved is what the next turn finds, in its order. */
  ghost predicate FindsItsRun(host: Host, saved: Memory, turn: RepairTurn)
  {
    var l := Load(host, saved);
    l.Found? && SpliceAccepted(l.plan, turn) && turn.stores ==>
      var next := Turn(host, saved, turn).1;
      FindsPlanner(host, next) && Load(host, next).plan.order == Spliced(l.plan, turn).order
  }

  lemma ItsRunIs(host: Host, saved: Memory, turn: RepairTurn)
    requires Load(host, saved).Found?
    ensures var plan, next := Load(host, saved).plan, Turn(host, saved, turn).1;
            FindsItsRun(host, saved, turn)
            <==> (SpliceAccepted(plan, turn) && turn.stores ==>
                    (TurnFlag(plan, turn); FindsIs(host, next);
                     FindsPlanner(host, next) && Load(host, next).plan.order == Spliced(plan, turn).order))
  {
    hide Load, Turn, SpliceSteps, Schedule, KeepsRemaining, Spliced;
    TurnFlag(Load(host, saved).plan, turn);
    FindsIs(host, Turn(host, saved, turn).1);
  }

  /** From a planner's graph, a turn's run is found again exactly when it saves no splice without the entry or with a fork back. */
  lemma RunIsFound(host: Host, saved: Memory, turns: seq<RepairTurn>, k: nat)
    requires k < |turns| && Replies(turns) && PlannerSaved(host, saved)
    ensures FindsItsRun(host, saved, turns[k]) <==> !LosesEntry(host, saved, turns[k]) && !SavesForkBack(host, saved, turns[k])
  {
    hide *;
    var turn := turns[k];
    PlannerFound(host, saved);
    var plan := Load(host, saved).plan;
    AcceptedParts(plan);
    TurnIs(host, saved, turn);
    TurnFlag(plan, turn);
    Losing(host, saved, turn);
    ItsRunIs(host, saved, turn);
    if SpliceAccepted(plan, turn) && turn.stores {
      Reply(turns, k);
      AcceptedParts(turn.reply.value);
      SplicedIs(plan, turn);
      SavedSplice(host, saved, turn);
    }
  }

  lemma FoundFits(host: Host, saved: Memory)
    requires Load(host, saved).Found? && AcceptedPlan(Load(host, saved).plan)
    ensures |Load(host, saved).plan.order| <= Load(host, saved).plan.dag.maxSteps
  {
    hide *;
    AcceptedParts(Load(host, saved).plan);
    SoundParts(Load(host, saved).plan);
    PlannedFits(Load(host, saved).plan);
  }

  // ---------------------------------------------------------------- whole sessions

  lemma {:induction false} SavedThrough(host: Host, saved: Memory, turns: seq<RepairTurn>, k: nat)
    requires k <= |turns| && Replies(turns) && PlannerSaved(host, saved)
    requires forall j :: 0 <= j < k ==> !LosesEntry(host, SavedAfter(host, saved, turns, j), turns[j])
    ensures PlannerSaved(host, SavedAfter(host, saved, turns, k))
  {
    hide PlannerSaved, LosesEntry, Replies, Turn, FindsPlanner;
    if k > 0 {
      SavedThrough(host, saved, turns, k - 1);
      TurnReloads(host, SavedAfter(host, saved, turns, k - 1), turns, k - 1);
    }
  }

  /** Every turn of the session, and the one after it, finds a planner's graph. */
  ghost predicate NeverFallsBack(host: Host, saved: Memory, turns: seq<RepairTurn>)
  {
    forall k :: 0 <= k <= |turns| ==> FindsPlanner(host, SavedAfter(host, saved, turns, k))
  }

  ghost predicate NeverLosesEntry(host: Host, saved: Memory, turns: seq<RepairTurn>)
  {
    forall k :: 0 <= k < |turns| ==> !LosesEntry(host, SavedAfter(host, saved, turns, k), turns[k])
  }

  ghost predicate NeverSavesForkBack(host: Host, saved: Memory, turns: seq<RepairTurn>)
  {
    forall k :: 0 <= k < |turns| ==> !SavesForkBack(host, SavedAfter(host, saved, turns, k), turns[k])
  }

  /** No turn of a session finds the template exactly when no turn saves a splice that lacks the entry. */
  lemma NoReloadFallsBackExactly(host: Host, saved: Memory, turns: seq<RepairTurn>)
    requires Replies(turns) && PlannerSaved(host, saved)
    ensures NeverFallsBack(host, saved, turns) <==> NeverLosesEntry(host, saved, turns)
  {
    hide PlannerSaved, LosesEntry, Replies, Turn, FindsPlanner, SavedAfter;
    if NeverLosesEntry(host, saved, turns) {
      forall k | 0 <= k <= |turns|
        ensures FindsPlanner(host, SavedAfter(host, saved, turns, k))
      {
        SavedThrough(host, saved, turns, k);
        PlannerHost(host, SavedAfter(host, saved, turns, k));
      }
    }
    if NeverFallsBack(host, saved, turns) {
      forall k | 0 <= k < |turns|
        ensures !LosesEntry(host, SavedAfter(host, saved, turns, k), turns[k])
      {
        FoundThrough(host, saved, turns, k);
        TurnReloads(host, SavedAfter(host, saved, turns, k), turns, k);
        NextSaved(host, saved, turns, k);
      }
    }
  }

  lemma NextSaved(host: Host, saved: Memory, turns: seq<RepairTurn>, k: nat)
    requires k < |turns|
    ensures SavedAfter(host, saved, turns, k + 1) == Turn(host, SavedAfter(host, saved, turns, k), turns[k]).1
  {
    hide Turn;
  }

  lemma {:induction false} FoundThrough(host: Host, saved: Memory, turns: seq<RepairTurn>, k: nat)
    requires k <= |turns| && Replies(turns) && PlannerSaved(host, saved)
    requires forall j :: 0 <= j <= k ==> FindsPlanner(host, SavedAfter(host, saved, turns, j))
    ensures PlannerSaved(host, SavedAfter(host, saved, turns, k))
  {
    hide PlannerSaved, LosesEntry, Replies, Turn, FindsPlanner;
    if k > 0 {
      FoundThrough(host, saved, turns, k - 1);
      TurnReloads(host, SavedAfter(host, saved, turns, k - 1), turns, k - 1);
    }
  }

  // ---------------------------------------------------------------- what runs is what is found

  ghost predicate AlwaysFindsItsRun(host: Host, saved: Memory, turns: seq<RepairTurn>)
  {
    forall k :: 0 <= k < |turns| ==> FindsItsRun(host, SavedAfter(host, saved, turns, k), turns[k])
  }

  lemma {:induction false} RunsFoundThrough(host: Host, saved: Memory, turns: seq<RepairTurn>, k: nat)
    requires k <= |turns| && Replies(turns) && PlannerSaved(host, saved) && AlwaysFindsItsRun(host, saved, turns)
    ensures PlannerSaved(host, SavedAfter(host, saved, turns, k))
  {
    hide PlannerSaved, LosesEntry, SavesForkBack, Replies, Turn, FindsPlanner, FindsItsRun;
    if k > 0 {
      var at := SavedAfter(host, saved, turns, k - 1);
      RunsFoundThrough(host, saved, turns, k - 1);
      RunIsFound(host, at, turns, k - 1);
      TurnReloads(host, at, turns, k - 1);
    }
  }

  /** Over a session, every saved splice is found again as it was run exactly when none lacks the entry and none forks back. */
  lemma EveryRunIsFoundExactly(host: Host, saved: Memory, turns: seq<RepairTurn>)
    requires Replies(turns) && PlannerSaved(host, saved)
    ensures AlwaysFindsItsRun(host, saved, turns) <==> NeverLosesEntry(host, saved, turns) && NeverSavesForkBack(host, saved, turns)
  {
    hide PlannerSaved, LosesEntry, SavesForkBack, Replies, Turn, FindsItsRun, SavedAfter;
    if AlwaysFindsItsRun(host, saved, turns) {
      forall k | 0 <= k < |turns|
        ensures !LosesEntry(host, SavedAfter(host, saved, turns, k), turns[k])
        ensures !SavesForkBack(host, SavedAfter(host, saved, turns, k), turns[k])
      {
        RunsFoundThrough(host, saved, turns, k);
        RunIsFound(host, SavedAfter(host, saved, turns, k), turns, k);
      }
    }
    if NeverLosesEntry(host, saved, turns) && NeverSavesForkBack(host, saved, turns) {
      forall k | 0 <= k < |turns|
        ensures FindsItsRun(host, SavedAfter(host, saved, turns, k), turns[k])
      {
        SavedThrough(host, saved, turns, k);
        RunIsFound(host, SavedAfter(host, saved, turns, k), turns, k);
      }
    }
  }

  // ---------------------------------------------------------------- finished work

  /** Every turn of the session, and the one after it, finds a planner's plan that begins with the finished work. */
  ghost predicate AlwaysFindsFinished(host: Host, saved: Memory, turns: seq<RepairTurn>, done: seq<string>)
  {
    forall k :: 0 <= k <= |turns| ==> FindsFinished(host, SavedAfter(host, saved, turns, k), done)
  }

  ghost predicate NeverSavesForkInto(host: Host, saved: Memory, turns: seq<RepairTurn>, done: seq<string>)
  {
    forall k :: 0 <= k < |turns| ==> !SavesForkInto(host, SavedAfter(host, saved, turns, k), turns[k], done)
  }

  /** The work was finished before the session: no turn fails inside it. */
  ghost predicate FailsBehind(turns: seq<RepairTurn>, done: seq<string>)
  {
    forall k :: 0 <= k < |turns| ==> |done| <= turns[k].fail.index
  }

  ghost predicate Safe(host: Host, saved: Memory, turns: seq<RepairTurn>, done: seq<string>, k: nat)
    requires k < |turns|
  {
    var at := SavedAfter(host, saved, turns, k);
    !LosesEntry(host, at, turns[k]) && !SavesForkInto(host, at, turns[k], done)
  }

  lemma {:induction false} KeptThrough(host: Host, saved: Memory, turns: seq<RepairTurn>, k: nat, done: seq<string>, cap: nat)
    requires k <= |turns| && Replies(turns) && PlannerSaved(host, saved) && FailsBehind(turns, done)
    requires Load(host, saved).Found? && Keeps(Load(host, saved).plan, done, cap)
    requires forall j :: 0 <= j < k ==> Safe(host, saved, turns, done, j)
    ensures var at := SavedAfter(host, saved, turns, k);
            PlannerSaved(host, at) && Load(host, at).Found? && Keeps(Load(host, at).plan, done, cap)
  {
    hide PlannerSaved, LosesEntry, SavesForkInto, Replies, Turn, Load, Keeps, FindsFinished;
    if k > 0 {
      KeptThrough(host, saved, turns, k - 1, done, cap);
      assert Safe(host, saved, turns, done, k - 1);
      TurnKeeps(host, SavedAfter(host, saved, turns, k - 1), turns, k - 1, done, cap);
    }
  }

  lemma {:induction false} SafeThrough(host: Host, saved: Memory, turns: seq<RepairTurn>, k: nat, done: seq<string>, cap: nat)
    requires k <= |turns| && Replies(turns) && PlannerSaved(host, saved) && FailsBehind(turns, done)
    requires Load(host, saved).Found? && Keeps(Load(host, saved).plan, done, cap)
    requires AlwaysFindsFinished(host, saved, turns, done)
    ensures forall j :: 0 <= j < k ==> Safe(host, saved, turns, done, j)
  {
    hide PlannerSaved, LosesEntry, SavesForkInto, Replies, Turn, Load, Keeps, FindsFinished, SavedAfter;
    if k > 0 {
      var at := SavedAfter(host, saved, turns, k - 1);
      SafeThrough(host, saved, turns, k - 1, done, cap);
      KeptThrough(host, saved, turns, k - 1, done, cap);
      NextSaved(host, saved, turns, k - 1);
      assert FindsFinished(host, SavedAfter(host, saved, turns, k), done);
      TurnKeeps(host, at, turns, k - 1, done, cap);
      assert Safe(host, saved, turns, done, k - 1);
    }
  }

  lemma SafeIs(host: Host, saved: Memory, turns: seq<RepairTurn>, done: seq<string>)
    ensures (forall k :: 0 <= k < |turns| ==> Safe(host, saved, turns, done, k))
            <==> NeverLosesEntry(host, saved, turns) && NeverSavesForkInto(host, saved, turns, done)
  {
    hide LosesEntry, SavesForkInto, SavedAfter;
    if forall k :: 0 <= k < |turns| ==> Safe(host, saved, turns, done, k) {
      forall k | 0 <= k < |turns|
        ensures !LosesEntry(host, SavedAfter(host, saved, turns, k), turns[k])
        ensures !SavesForkInto(host, SavedAfter(host, saved, turns, k), turns[k], done)
      {
        assert Safe(host, saved, turns, done, k);
      }
    }
  }

  /**
   Over any sequence of turns, every turn finds a planner's plan that begins with the work finished before the session
   exactly when no turn saves a splice that lacks the entry or in which a replanned node forks into that work.
   */
  lemma FinishedWorkIsKeptExactly(host: Host, saved: Memory, turns: seq<RepairTurn>, done: seq<string>)
    requires Replies(turns) && PlannerSaved(host, saved) && FailsBehind(turns, done)
    requires Load(host, saved).Found? && done <= Load(host, saved).plan.order
    ensures AlwaysFindsFinished(host, saved, turns, done)
            <==> NeverLosesEntry(host, saved, turns) && NeverSavesForkInto(host, saved, turns, done)
  {
    hide PlannerSaved, LosesEntry, SavesForkInto, Replies, Turn, Load, Keeps, FindsFinished, SavedAfter, Safe, NeverLosesEntry,
         NeverSavesForkInto, FailsBehind, FindsPlanner;
    var plan := Load(host, saved).plan;
    var cap := plan.dag.maxSteps;
    PlannerFound(host, saved);
    FoundFits(host, saved);
    KeepsIs(plan, done, cap);
    SafeIs(host, saved, turns, done);
    if AlwaysFindsFinished(host, saved, turns, done) {
      SafeThrough(host, saved, turns, |turns|, done, cap);
    }
    if forall k :: 0 <= k < |turns| ==> Safe(host, saved, turns, done, k) {
      forall k | 0 <= k <= |turns|
        ensures FindsFinished(host, SavedAfter(host, saved, turns, k), done)
      {
        var at := SavedAfter(host, saved, turns, k);
        KeptThrough(host, saved, turns, k, done, cap);
        PlannerHost(host, at);
        KeepsIs(Load(host, at).plan, done, cap);
        FinishedIs(host, at, done);
      }
    }
  }

  lemma NoForkBackSpares(plan: PlannedLiveDag, fail: DagFailCursor, remaining: PlannedLiveDag, done: seq<string>)
    requires NoForkBack(plan, fail, remaining) && done <= plan.order && |done| <= fail.index
    ensures NoForkInto(plan, fail, remaining, done)
  {
    hide NoForkBack, NoForkTo, Prefix, ResumeAt;
    PrefixCovers(plan, fail, done);
    NoForkBackIs(plan, fail, remaining);
  }

  lemma {:induction false} NoForkBackIsSafe(host: Host, saved: Memory, turns: seq<RepairTurn>, k: nat, done: seq<string>, cap: nat)
    requires k <= |turns| && Replies(turns) && PlannerSaved(host, saved) && FailsBehind(turns, done)
    requires Load(host, saved).Found? && Keeps(Load(host, saved).plan, done, cap)
    requires NeverLosesEntry(host, saved, turns) && NeverSavesForkBack(host, saved, turns)
    ensures forall j :: 0 <= j < k ==> Safe(host, saved, turns, done, j)
  {
    hide PlannerSaved, LosesEntry, SavesForkInto, SavesForkBack, Replies, Turn, Load, Keeps, SavedAfter, SpliceAccepted,
         NoForkBack, NoForkInto, EntryKept;
    if k > 0 {
      var at := SavedAfter(host, saved, turns, k - 1);
      NoForkBackIsSafe(host, saved, turns, k - 1, done, cap);
      KeptThrough(host, saved, turns, k - 1, done, cap);
      var plan := Load(host, at).plan;
      KeepsIs(plan, done, cap);
      Losing(host, at, turns[k - 1]);
      TurnFlag(plan, turns[k - 1]);
      if SpliceAccepted(plan, turns[k - 1]) && turns[k - 1].stores {
        NoForkBackSpares(plan, turns[k - 1].fail, turns[k - 1].reply.value, done);
      }
      assert Safe(host, saved, turns, done, k - 1);
    }
  }

  /** In particular it is enough that no turn saves a splice without the entry or with any fork back. */
  lemma NoForkBackKeepsFinishedWork(host: Host, saved: Memory, turns: seq<RepairTurn>, done: seq<string>)
    requires Replies(turns) && PlannerSaved(host, saved) && FailsBehind(turns, done)
    requires Load(host, saved).Found? && done <= Load(host, saved).plan.order
    requires NeverLosesEntry(host, saved, turns) && NeverSavesForkBack(host, saved, turns)
    ensures NeverSavesForkInto(host, saved, turns, done) && AlwaysFindsFinished(host, saved, turns, done)
  {
    hide *;
    var plan := Load(host, saved).plan;
    PlannerFound(host, saved);
    FoundFits(host, saved);
    KeepsIs(plan, done, plan.dag.maxSteps);
    NoForkBackIsSafe(host, saved, turns, |turns|, done, plan.dag.maxSteps);
    SafeIs(host, saved, turns, done);
    FinishedWorkIsKeptExactly(host, saved, turns, done);
  }

  /**
   In such a session every turn loads an accepted plan of the original cap that begins with the finished work, and whatever
   a turn runs begins with that work too and resumes behind it.
   */
  lemma SessionKeepsFinishedWork(host: Host, saved: Memory, turns: seq<RepairTurn>, done: seq<string>)
    requires Replies(turns) && PlannerSaved(host, saved) && FailsBehind(turns, done)
    requires Load(host, saved).Found? && done <= Load(host, saved).plan.order
    requires NeverLosesEntry(host, saved, turns) && NeverSavesForkInto(host, saved, turns, done)
    ensures var cap := Load(host, saved).plan.dag.maxSteps;
            forall k :: 0 <= k <= |turns| ==>
              var l := Load(host, SavedAfter(host, saved, turns, k)); l.Found? && AcceptedPlan(l.plan) && Keeps(l.plan, done, cap)
    ensures var cap := Load(host, saved).plan.dag.maxSteps;
            forall k :: 0 <= k < |turns| ==> Resumes(Turn(host, SavedAfter(host, saved, turns, k), turns[k]).0, done, cap)
  {
    hide PlannerSaved, LosesEntry, SavesForkInto, Replies, Turn, Load, Keeps, AcceptedPlan, SavedAfter, Resumes, Safe,
         FindsFinished, NeverLosesEntry, NeverSavesForkInto;
    var plan := Load(host, saved).plan;
    var cap := plan.dag.maxSteps;
    PlannerFound(host, saved);
    FoundFits(host, saved);
    KeepsIs(plan, done, cap);
    SafeIs(host, saved, turns, done);
    forall k | 0 <= k <= |turns|
      ensures var at := SavedAfter(host, saved, turns, k);
              PlannerSaved(host, at) && Load(host, at).Found? && AcceptedPlan(Load(host, at).plan)
              && Keeps(Load(host, at).plan, done, cap)
    {
      KeptThrough(host, saved, turns, k, done, cap);
      PlannerFound(host, SavedAfter(host, saved, turns, k));
    }
    forall k | 0 <= k < |turns|
      ensures Resumes(Turn(host, SavedAfter(host, saved, turns, k), turns[k]).0, done, cap)
    {
      TurnKeeps(host, SavedAfter(host, saved, turns, k), turns, k, done, cap);
    }
  }
}
