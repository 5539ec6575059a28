/**
 The template walk: follow `next` from the entry, assembling one envelope per node, under a step cap,
 a timeout and a stagnation guard. Assembly and the clock are parameters.
 */
module DagRunner {
  import opened Wrappers
  import opened Digraph
  import opened TaskGraph
  import opened LinearDag

  datatype Assembled = Assembled(messages: nat, fingerprint: string)

  datatype AssembleError = HardBudgetViolation | OtherFailure(message: string)

  datatype AbortReason =
    | MaxSteps
    | Timeout
    | MissingNode(id: string)
    | InvalidNext(from: string, to: string)
    | HardBudget
    | Assemble(message: string)
    | EmptyCapabilities(node: string)
    | Stagnation(repeated: U32)

  datatype NodeVisit = NodeVisit(nodeId: string, taskType: string, capabilities: seq<string>, assembledMessages: nat)

  datatype RunReport = RunReport(
    dagId: string,
    success: bool,
    steps: U32,
    abortReason: Option<AbortReason>,
    visits: seq<NodeVisit>)

  /** What the walk depends on besides the graph: assembly, seconds elapsed at each iteration, and the guard (0 is off). */
  datatype Host = Host(assemble: DagNode -> Result<Assembled, AssembleError>, elapsed: nat -> nat, stagnationLimit: U32)

  // ---------------------------------------------------------------- runs of equal fingerprints

  function TailRun(s: seq<string>): nat
  {
    if s == [] then 0
    else if |s| >= 2 && s[|s| - 1] == s[|s| - 2] then 1 + TailRun(s[..|s| - 1])
    else 1
  }

  /** `TailRun` is the length of the maximal run of equal fingerprints at the end. */
  lemma {:induction false} TailRunMaximal(s: seq<string>)
    requires s != []
    ensures var k, n := TailRun(s), |s|;
            && 1 <= k <= n
            && (forall i :: n - k <= i < n ==> s[i] == s[n - 1])
            && (k < n ==> s[n - k - 1] != s[n - 1])
  {
    if |s| >= 2 && s[|s| - 1] == s[|s| - 2] {
      TailRunMaximal(s[..|s| - 1]);
    }
  }

  /** Some `limit` consecutive fingerprints are equal. */
  ghost predicate Stagnates(s: seq<string>, limit: nat)
  {
    exists b :: 0 <= b && b + limit <= |s| && EqualRun(s, b, limit)
  }

  ghost predicate EqualRun(s: seq<string>, b: nat, len: nat)
    requires b + len <= |s|
  {
    forall i, j :: b <= i < b + len && b <= j < b + len ==> s[i] == s[j]
  }

  /** Appending a fingerprint creates the first window exactly when the tail run reaches the limit. */
  lemma StagnatesStep(s: seq<string>, x: string, limit: nat)
    requires limit > 0 && !Stagnates(s, limit)
    ensures Stagnates(s + [x], limit) <==> TailRun(s + [x]) >= limit
    ensures TailRun(s + [x]) <= limit
  {
    var t := s + [x];
    var n := |t|;
    var k := TailRun(t);
    TailRunMaximal(t);
    assert forall i :: 0 <= i < |s| ==> s[i] == t[i];
    if k >= limit {
      assert EqualRun(t, n - limit, limit);
    }
    forall b | 0 <= b && b + limit <= n && EqualRun(t, b, limit)
      ensures k >= limit
    {
      if b + limit < n {
        assert EqualRun(s, b, limit);
      }
      assert b == n - limit;
      assert k < n ==> t[n - k - 1] != t[n - 1];
    }
    if limit <= n - 1 {
      assert !EqualRun(s, n - 1 - limit, limit);
      var i, j :| n - 1 - limit <= i < n - 1 && n - 1 - limit <= j < n - 1 && s[i] != s[j];
      assert t[i] != t[j];
    }
  }

  lemma NothingStagnates(limit: nat)
    requires limit > 0
    ensures !Stagnates([], limit)
  {
  }

  // ---------------------------------------------------------------- complete walks

  ghost predicate TimedOut(dag: DagManifest, host: Host, i: nat)
  {
    dag.timeoutSecs.Some? && host.elapsed(i) >= dag.timeoutSecs.value
  }

  /** The node can be visited: it exists, names a capability, and its envelope assembles. */
  ghost predicate Visitable(dag: DagManifest, host: Host, id: string)
  {
    id in ById(dag.nodes) && ById(dag.nodes)[id].capabilities != [] && host.assemble(ById(dag.nodes)[id]).Ok?
  }

  ghost function Fingerprint(dag: DagManifest, host: Host, id: string): string
    requires Visitable(dag, host, id)
  {
    host.assemble(ById(dag.nodes)[id]).value.fingerprint
  }

  ghost function Fingerprints(dag: DagManifest, host: Host, p: seq<string>): (r: seq<string>)
    requires forall v :: v in p ==> Visitable(dag, host, v)
    ensures |r| == |p| && forall i :: 0 <= i < |p| ==> r[i] == Fingerprint(dag, host, p[i])
  {
    seq(|p|, i requires 0 <= i < |p| => Fingerprint(dag, host, p[i]))
  }

  /** The first `|p|` steps go through: no cap, no timeout, every node visitable, no stagnation. */
  ghost predicate Passes(dag: DagManifest, host: Host, p: seq<string>)
  {
    && |p| <= dag.maxSteps
    && (forall i :: 0 <= i < |p| ==> !TimedOut(dag, host, i))
    && (forall v :: v in p ==> Visitable(dag, host, v))
    && (host.stagnationLimit > 0 ==> !Stagnates(Fingerprints(dag, host, p), host.stagnationLimit))
  }

  /** A walk from the entry to a terminal node on which nothing aborts. */
  ghost predicate CompleteWalk(dag: DagManifest, host: Host, p: seq<string>)
  {
    Trail(dag, p) && EndsAt(dag.nodes, p[|p| - 1]) && Passes(dag, host, p)
  }

  lemma PassesPrefix(dag: DagManifest, host: Host, p: seq<string>, n: nat)
    requires Passes(dag, host, p) && n <= |p|
    ensures Passes(dag, host, p[..n])
  {
    var q := p[..n];
    if host.stagnationLimit > 0 {
      var f, h := Fingerprints(dag, host, p), Fingerprints(dag, host, q);
      var limit := host.stagnationLimit;
      assert forall i :: 0 <= i < n ==> h[i] == f[i];
      forall b | 0 <= b && b + limit <= |h|
        ensures !EqualRun(h, b, limit)
      {
        assert !EqualRun(f, b, limit);
      }
    }
  }

  /** Walking `next` never repeats a node on the way to a terminal one. */
  lemma CompleteWalkIsSimple(dag: DagManifest, p: seq<string>)
    requires Trail(dag, p) && EndsAt(dag.nodes, p[|p| - 1])
    ensures Distinct(p)
  {
    forall i, j | 0 <= i < j < |p|
      ensures p[i] != p[j]
    {
      if p[i] == p[j] {
        var d := |p| - 1 - j;
        StaysInStep(dag, p, i, j, d);
        TrailGoesOn(dag, p, i + d);
      }
    }
  }

  lemma {:induction false} StaysInStep(dag: DagManifest, p: seq<string>, i: nat, j: nat, d: nat)
    requires Trail(dag, p) && i < j && j + d < |p| && p[i] == p[j]
    ensures p[i + d] == p[j + d]
  {
    if d > 0 {
      StaysInStep(dag, p, i, j, d - 1);
      assert Follows(dag.nodes, p[i + d - 1], p[i + d - 1 + 1]);
      assert Follows(dag.nodes, p[j + d - 1], p[j + d - 1 + 1]);
    }
  }

  /** A trail whose next step cannot be taken rules out every complete walk. */
  lemma NoCompleteWalk(dag: DagManifest, host: Host, trail: seq<string>)
    requires Trail(dag, trail) && !Passes(dag, host, trail)
    ensures forall p :: !CompleteWalk(dag, host, p)
  {
    forall p
      ensures !CompleteWalk(dag, host, p)
    {
      if CompleteWalk(dag, host, p) {
        TrailWithin(dag, p, trail);
        PassesPrefix(dag, host, p, |trail|);
      }
    }
  }

  /** What stops the walk at `current` after `ids`. */
  lemma StepBlocked(dag: DagManifest, host: Host, ids: seq<string>, current: string)
    requires Trail(dag, ids + [current])
    requires TimedOut(dag, host, |ids|) || |ids| >= dag.maxSteps || !Visitable(dag, host, current)
    ensures forall p :: !CompleteWalk(dag, host, p)
  {
    assert current in ids + [current];
    NoCompleteWalk(dag, host, ids + [current]);
  }

  lemma PassesStep(dag: DagManifest, host: Host, p: seq<string>, id: string)
    requires Passes(dag, host, p) && |p| < dag.maxSteps && !TimedOut(dag, host, |p|) && Visitable(dag, host, id)
    ensures forall v :: v in p + [id] ==> Visitable(dag, host, v)
    ensures forall v :: v in p ==> Visitable(dag, host, v)
    ensures Fingerprints(dag, host, p + [id]) == Fingerprints(dag, host, p) + [Fingerprint(dag, host, id)]
    ensures Passes(dag, host, p + [id]) <==>
            host.stagnationLimit == 0 || TailRun(Fingerprints(dag, host, p + [id])) < host.stagnationLimit
    ensures host.stagnationLimit > 0 ==> TailRun(Fingerprints(dag, host, p + [id])) <= host.stagnationLimit
  {
    if host.stagnationLimit > 0 {
      StagnatesStep(Fingerprints(dag, host, p), Fingerprint(dag, host, id), host.stagnationLimit);
    }
  }

  function VisitIds(visits: seq<NodeVisit>): (r: seq<string>)
    ensures |r| == |visits| && forall i :: 0 <= i < |visits| ==> r[i] == visits[i].nodeId
  {
    seq(|visits|, i requires 0 <= i < |visits| => visits[i].nodeId)
  }

  function Visit(node: DagNode, messages: nat): NodeVisit
  {
    NodeVisit(node.id, node.taskType, node.capabilities, messages)
  }

  const U32_MAX: U32 := 0xFFFF_FFFF

  function SaturatingInc(n: U32): U32
  {
    if n == U32_MAX then n else n + 1
  }

  /** The stagnation guard: the last fingerprint and how often it has just been repeated. */
  datatype Guard = Guard(lastHash: Option<string>, streak: U32)
  {
    function Observe(hash: string): Guard
    {
      if lastHash == Some(hash) then Guard(lastHash, SaturatingInc(streak)) else Guard(Some(hash), 1)
    }

    /** The streak is the length of the maximal run of equal fingerprints ending at the current step. */
    ghost predicate Tracks(fps: seq<string>)
    {
      streak == TailRun(fps) && lastHash == (if fps == [] then None else Some(fps[|fps| - 1]))
    }
  }

  lemma ObserveTracks(g: Guard, fps: seq<string>, hash: string)
    requires g.Tracks(fps) && |fps| < U32_MAX
    ensures g.Observe(hash).Tracks(fps + [hash])
  {
    TailRunSnoc(fps, hash);
    if fps != [] {
      TailRunMaximal(fps);
    }
  }

  /** Each visit records the node it names and what assembling it produced. */
  ghost predicate VisitsRecorded(dag: DagManifest, host: Host, visits: seq<NodeVisit>)
  {
    forall v :: v in visits ==>
      Visitable(dag, host, v.nodeId)
      && var n := ById(dag.nodes)[v.nodeId];
         v.taskType == n.taskType && v.capabilities == n.capabilities && v.assembledMessages == host.assemble(n).value.messages
  }

  lemma VisitRecorded(dag: DagManifest, host: Host, visits: seq<NodeVisit>, id: string)
    requires VisitsRecorded(dag, host, visits) && Visitable(dag, host, id)
    ensures var n := ById(dag.nodes)[id]; VisitsRecorded(dag, host, visits + [Visit(n, host.assemble(n).value.messages)])
  {
  }

  /** The walk went through `ids` and stands at `id`. */
  ghost predicate Standing(dag: DagManifest, host: Host, ids: seq<string>, id: string)
  {
    Trail(dag, ids + [id]) && Passes(dag, host, ids)
  }

  /** No limit stops the step behind `ids`. */
  ghost predicate MayStep(dag: DagManifest, host: Host, ids: seq<string>)
  {
    |ids| < dag.maxSteps && !TimedOut(dag, host, |ids|)
  }

  /** The node reached behind `ids` has a capability, and assembling it fails with the given error. */
  ghost predicate FailsAt(dag: DagManifest, host: Host, ids: seq<string>, id: string, e: AssembleError)
  {
    && Standing(dag, host, ids, id) && MayStep(dag, host, ids)
    && id in ById(dag.nodes) && ById(dag.nodes)[id].capabilities != []
    && host.assemble(ById(dag.nodes)[id]) == Result.Err(e)
  }

  /** What an abort reason says about the ids visited, the steps taken and the id the walk had reached. */
  ghost predicate Explained(dag: DagManifest, host: Host, ids: seq<string>, steps: nat, reason: AbortReason)
  {
    match reason
    case Timeout => |ids| == steps && TimedOut(dag, host, steps) && exists id :: Standing(dag, host, ids, id)
    case MaxSteps => |ids| == steps == dag.maxSteps && !TimedOut(dag, host, steps) && exists id :: Standing(dag, host, ids, id)
    case MissingNode(id) => ids == [] && steps == 0 && MayStep(dag, host, []) && id == dag.entry && id !in Ids(dag.nodes)
    case EmptyCapabilities(id) => |ids| == steps && MayStep(dag, host, ids) && Standing(dag, host, ids, id)
                                  && id in ById(dag.nodes) && ById(dag.nodes)[id].capabilities == []
    case InvalidNext(from, to) => |ids| == steps > 0 && from == ids[steps - 1] && to !in Ids(dag.nodes)
                                  && Standing(dag, host, ids, to)
    case Stagnation(k) => |ids| == steps > 0 && k == host.stagnationLimit > 0
                          && Standing(dag, host, ids[..steps - 1], ids[steps - 1])
                          && MayStep(dag, host, ids[..steps - 1]) && Visitable(dag, host, ids[steps - 1])
                          && TailRun(Fingerprints(dag, host, ids)) == k
    case HardBudget => |ids| + 1 == steps && exists id :: FailsAt(dag, host, ids, id, HardBudgetViolation)
    case Assemble(m) => |ids| + 1 == steps && exists id :: FailsAt(dag, host, ids, id, OtherFailure(m))
  }

  lemma ExplainStop(dag: DagManifest, host: Host, ids: seq<string>, current: string)
    requires Trail(dag, ids + [current]) && Passes(dag, host, ids)
    requires ids != [] ==> current in ById(dag.nodes)
    ensures TimedOut(dag, host, |ids|) ==> Explained(dag, host, ids, |ids|, Timeout)
    ensures |ids| == dag.maxSteps && !TimedOut(dag, host, |ids|) ==> Explained(dag, host, ids, |ids|, MaxSteps)
    ensures MayStep(dag, host, ids) && current !in ById(dag.nodes) ==> Explained(dag, host, ids, |ids|, MissingNode(current))
    ensures MayStep(dag, host, ids) && current in ById(dag.nodes) && ById(dag.nodes)[current].capabilities == []
            ==> Explained(dag, host, ids, |ids|, EmptyCapabilities(current))
  {
    hide Passes, TimedOut, ById, Follows;
    assert Standing(dag, host, ids, current);
    assert (ids + [current])[0] == dag.entry;
  }

  lemma ExplainAssembly(dag: DagManifest, host: Host, ids: seq<string>, current: string, e: AssembleError)
    requires FailsAt(dag, host, ids, current, e)
    ensures Explained(dag, host, ids, |ids| + 1, FromAssembly(e))
  {
    hide FailsAt;
  }

  function FromAssembly(e: AssembleError): AbortReason
  {
    match e
    case HardBudgetViolation => HardBudget
    case OtherFailure(m) => Assemble(m)
  }

  lemma ExplainInvalidNext(dag: DagManifest, host: Host, ids: seq<string>, to: string)
    requires ids != [] && Trail(dag, ids + [to]) && Passes(dag, host, ids) && to !in Ids(dag.nodes)
    ensures Explained(dag, host, ids, |ids|, InvalidNext(ids[|ids| - 1], to))
  {
    hide Passes, Trail, Ids;
  }

  lemma ExplainStagnation(dag: DagManifest, host: Host, ids: seq<string>, current: string)
    requires Trail(dag, ids + [current]) && Passes(dag, host, ids) && MayStep(dag, host, ids)
    requires Visitable(dag, host, current) && host.stagnationLimit > 0
    requires forall v :: v in ids + [current] ==> Visitable(dag, host, v)
    requires TailRun(Fingerprints(dag, host, ids + [current])) == host.stagnationLimit
    ensures Explained(dag, host, ids + [current], |ids| + 1, Stagnation(host.stagnationLimit))
  {
    hide Passes, Trail, Visitable, TimedOut, TailRun;
    assert (ids + [current])[..|ids|] == ids;
  }

  /**
   The walk. It succeeds exactly when a complete walk exists, and then the visits are that walk;
   otherwise the abort reason names what stopped it, at the id the walk had reached.
   */
  method RunTemplateDag(dag: DagManifest, host: Host) returns (report: RunReport)
    ensures report.dagId == dag.id && report.success == report.abortReason.None?
    ensures |report.visits| <= report.steps <= dag.maxSteps
    ensures VisitsRecorded(dag, host, report.visits)
    ensures report.success ==> CompleteWalk(dag, host, VisitIds(report.visits)) && report.steps == |report.visits|
    ensures (exists p :: CompleteWalk(dag, host, p)) ==> report.success
    ensures report.abortReason.Some? ==>
              Explained(dag, host, VisitIds(report.visits), report.steps, report.abortReason.value)
  {
    hide ById, Ids, TailRun, Stagnates, Trail, Passes, CompleteWalk, Visitable, Fingerprints, Fingerprint, VisitIds,
         VisitsRecorded, Guard.Tracks, Guard.Observe, Explained, TimedOut, Follows;
    var nodes := ById(dag.nodes);
    IndexIds(dag.nodes);
    WalkStart(dag, host);
    var visits: seq<NodeVisit> := [];
    var steps: U32 := 0;
    var current := dag.entry;
    var abort: Option<AbortReason> := None;
    var guard := Guard(None, 0);
    ghost var ids: seq<string> := [];
    while true
      invariant ids == VisitIds(visits) && steps == |visits| <= dag.maxSteps
      invariant Trail(dag, ids + [current]) && Passes(dag, host, ids)
      invariant if ids == [] then current == dag.entry else current in nodes
      invariant VisitsRecorded(dag, host, visits)
      invariant forall v :: v in ids ==> Visitable(dag, host, v)
      invariant host.stagnationLimit > 0 ==> guard.Tracks(Fingerprints(dag, host, ids))
      invariant abort == None
      decreases dag.maxSteps - steps
    {
      ghost var trail := ids + [current];
      VisitableMeans(dag, host, current);
      ExplainStop(dag, host, ids, current);
      TimeoutMeans(dag, host, steps);
      if dag.timeoutSecs.Some? && host.elapsed(steps) >= dag.timeoutSecs.value {
        StepBlocked(dag, host, ids, current);
        abort := Some(Timeout);
        break;
      }
      if steps >= dag.maxSteps {
        StepBlocked(dag, host, ids, current);
        abort := Some(MaxSteps);
        break;
      }
      if current !in nodes {
        StepBlocked(dag, host, ids, current);
        abort := Some(MissingNode(current));
        break;
      }
      var node := nodes[current];
      if node.capabilities == [] {
        StepBlocked(dag, host, ids, current);
        abort := Some(EmptyCapabilities(node.id));
        break;
      }
      steps := steps + 1;
      match host.assemble(node) {
        case Err(e) =>
          StepBlocked(dag, host, ids, current);
          ExplainAssembly(dag, host, ids, current, e);
          abort := Some(FromAssembly(e));
          break;
        case Ok(assembled) =>
          PassesStep(dag, host, ids, current);
          VisitRecorded(dag, host, visits, current);
          var seen := visits + [Visit(node, assembled.messages)];
          VisitSnoc(visits, Visit(node, assembled.messages));
          if host.stagnationLimit > 0 {
            ObserveTracks(guard, Fingerprints(dag, host, ids), assembled.fingerprint);
            guard := guard.Observe(assembled.fingerprint);
            StreakIsRun(guard, Fingerprints(dag, host, trail));
            if guard.streak >= host.stagnationLimit {
              NoCompleteWalk(dag, host, trail);
              ExplainStagnation(dag, host, ids, current);
              abort := Some(Stagnation(guard.streak));
              visits := seen;
              break;
            }
          }
          visits := seen;
          ids := trail;
      }
      FollowsMeans(dag.nodes, current);
      if node.next.None? {
        CompleteNow(dag, host, ids);
        break;
      }
      TrailSnoc(dag, ids, node.next.value);
      if node.next.value !in nodes {
        VisitableMeans(dag, host, node.next.value);
        StepBlocked(dag, host, ids, node.next.value);
        ExplainInvalidNext(dag, host, ids, node.next.value);
        abort := Some(InvalidNext(node.id, node.next.value));
        break;
      }
      current := node.next.value;
    }
    report := RunReport(dag.id, abort.None?, steps, abort, visits);
  }

  lemma TimeoutMeans(dag: DagManifest, host: Host, i: nat)
    ensures TimedOut(dag, host, i) <==> dag.timeoutSecs.Some? && host.elapsed(i) >= dag.timeoutSecs.value
  {
  }

  lemma FollowsMeans(nodes: seq<DagNode>, a: string)
    ensures forall b :: Follows(nodes, a, b) <==> a in ById(nodes) && ById(nodes)[a].next == Some(b)
    ensures EndsAt(nodes, a) <==> a in ById(nodes) && ById(nodes)[a].next == None
  {
  }

  lemma IndexIds(nodes: seq<DagNode>)
    ensures forall id :: id in ById(nodes) <==> id in Ids(nodes)
  {
  }

  lemma WalkStart(dag: DagManifest, host: Host)
    ensures Trail(dag, [] + [dag.entry]) && Passes(dag, host, []) && VisitIds([]) == []
    ensures VisitsRecorded(dag, host, []) && Guard(None, 0).Tracks(Fingerprints(dag, host, []))
  {
    if host.stagnationLimit > 0 {
      NothingStagnates(host.stagnationLimit);
      assert Fingerprints(dag, host, []) == [];
    }
  }

  lemma VisitableMeans(dag: DagManifest, host: Host, id: string)
    ensures Visitable(dag, host, id) <==>
            id in ById(dag.nodes) && ById(dag.nodes)[id].capabilities != [] && host.assemble(ById(dag.nodes)[id]).Ok?
    ensures Visitable(dag, host, id) ==> Fingerprint(dag, host, id) == host.assemble(ById(dag.nodes)[id]).value.fingerprint
  {
  }

  lemma StreakIsRun(g: Guard, fps: seq<string>)
    requires g.Tracks(fps)
    ensures g.streak == TailRun(fps)
  {
  }

  lemma VisitSnoc(visits: seq<NodeVisit>, v: NodeVisit)
    ensures VisitIds(visits + [v]) == VisitIds(visits) + [v.nodeId]
  {
  }

  lemma CompleteNow(dag: DagManifest, host: Host, p: seq<string>)
    requires Trail(dag, p) && EndsAt(dag.nodes, p[|p| - 1]) && Passes(dag, host, p)
    ensures CompleteWalk(dag, host, p)
  {
  }

  lemma {:induction false} TailRunSnoc(s: seq<string>, x: string)
    ensures TailRun(s + [x]) == if s != [] && s[|s| - 1] == x then TailRun(s) + 1 else 1
  {
    assert (s + [x])[..|s|] == s;
  }

  /** The visits of a successful run are pairwise distinct. */
  lemma SuccessVisitsEachNodeOnce(dag: DagManifest, host: Host, p: seq<string>)
    requires CompleteWalk(dag, host, p)
    ensures Distinct(p) && |p| <= |ById(dag.nodes)|
  {
    CompleteWalkIsSimple(dag, p);
    DistinctSize(p);
    SubsetSize(Elements(p), ById(dag.nodes).Keys);
  }

  /** Wherever the linear scheduler succeeds and nothing external interferes, the walk follows its order. */
  lemma LinearOrderIsWalked(dag: DagManifest, host: Host, order: seq<string>)
    requires LinearCover(dag, order)
    requires host.stagnationLimit == 0 && dag.timeoutSecs.None?
    requires forall n :: n in dag.nodes ==> n.capabilities != [] && host.assemble(n).Ok?
    ensures CompleteWalk(dag, host, order)
    ensures forall p :: CompleteWalk(dag, host, p) ==> p == order
  {
    CoverElements(dag, order);
    forall v | v in order
      ensures Visitable(dag, host, v)
    {
      assert v in Elements(order);
    }
    forall p | CompleteWalk(dag, host, p)
      ensures p == order
    {
      TrailWithin(dag, order, p);
      TrailWithin(dag, p, order);
    }
  }
}
