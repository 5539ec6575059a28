/**
 Repairs whose result no longer forks: the host then walks the `next` chain, which asks more of the finished prefix than
 scheduling a forked graph does.
 */
module LinearRepair {
  import opened Wrappers
  import opened Digraph
  import opened TaskGraph
  import opened BoundedDag
  import opened LinearDag
  import opened RepairSplice
  import opened SpliceSchedule
  import opened RepairTheorems

  // ---------------------------------------------------------------- fork-free splices

  lemma SpliceIsForkFree(stored: PlannedLiveDag, fail: DagFailCursor, remaining: PlannedLiveDag)
    requires Listed(stored) && Listed(remaining) && !HasFork(stored.dag.nodes) && !HasFork(remaining.dag.nodes)
    ensures !HasFork(Splice(stored, fail, remaining).dag.nodes)
  {
    hide UniqueIds, KeepNodes, Grafted, Lookup, Relink, Listed, KeepsStored;
    var raw := RawNodes(stored, fail, remaining);
    var s := Splice(stored, fail, remaining);
    forall n | n in s.dag.nodes
      ensures n.fork == []
    {
      var k :| 0 <= k < |raw| && s.dag.nodes[k] == n;
      RelinkKeeps(raw[k], Prefix(stored, fail), Rest(stored, fail, remaining));
      RawFrom(stored, fail, remaining, raw[k]);
    }
  }

  lemma RawFrom(stored: PlannedLiveDag, fail: DagFailCursor, remaining: PlannedLiveDag, n: DagNode)
    requires Listed(stored) && n in RawNodes(stored, fail, remaining)
    ensures n in stored.dag.nodes || n in remaining.dag.nodes
  {
    RestKnown(stored, fail, remaining);
    var nodes := RestSource(stored, fail, remaining).dag.nodes;
    var tail := Lookup(Rest(stored, fail, remaining), nodes);
    if n in tail {
      var i :| 0 <= i < |tail| && tail[i] == n;
      assert n in nodes;
    }
  }

  lemma ForkFreeKeepsOrder(stored: PlannedLiveDag, fail: DagFailCursor, remaining: PlannedLiveDag)
    requires Listed(stored) && Listed(remaining) && !HasFork(Splice(stored, fail, remaining).dag.nodes)
    ensures NoForkBack(stored, fail, remaining)
  {
    hide Splice, Listed, Rest, RestSource, ById, Prefix;
    forall n | n in RestSource(stored, fail, remaining).dag.nodes && n.id in Rest(stored, fail, remaining)
      ensures n.fork == []
    {
      SourceNode(stored, fail, remaining, n);
      SplicedOrder(stored, fail, remaining);
      SplicedNodes(stored, fail, remaining, n.id);
      RelinkKeeps(n, Prefix(stored, fail), Rest(stored, fail, remaining));
    }
  }

  // ---------------------------------------------------------------- where `next` leads

  lemma NextBehind(stored: PlannedLiveDag, fail: DagFailCursor, remaining: PlannedLiveDag, j: nat)
    requires Listed(stored) && Listed(remaining) && j < |Rest(stored, fail, remaining)|
    ensures var s, rest := Splice(stored, fail, remaining), Rest(stored, fail, remaining);
            rest[j] in ById(s.dag.nodes)
            && ById(s.dag.nodes)[rest[j]].next == if j + 1 < |rest| then Some(rest[j + 1]) else None
  {
    hide Splice, Listed, Rest, RestSource, After, ById, Origin, Prefix;
    var rest := Rest(stored, fail, remaining);
    SplicedOrder(stored, fail, remaining);
    SplicedNodes(stored, fail, remaining, rest[j]);
    AfterAt(rest, j);
    RelinkedInRest(stored, fail, remaining, j);
  }

  lemma RelinkedInRest(stored: PlannedLiveDag, fail: DagFailCursor, remaining: PlannedLiveDag, j: nat)
    requires Listed(stored) && Listed(remaining) && j < |Rest(stored, fail, remaining)|
    ensures var p, rest := Prefix(stored, fail), Rest(stored, fail, remaining);
            var o := Origin(stored, fail, remaining, rest[j]);
            o.Some? && Relink(o.value, p, rest).next == After(rest, rest[j])
  {
    RestKnown(stored, fail, remaining);
  }

  /** A finished node keeps its `next`, except for the last one when something follows. */
  lemma NextInPrefix(stored: PlannedLiveDag, fail: DagFailCursor, remaining: PlannedLiveDag, i: nat)
    requires Listed(stored) && Listed(remaining) && i < |Prefix(stored, fail)|
    ensures var s, p, rest := Splice(stored, fail, remaining), Prefix(stored, fail), Rest(stored, fail, remaining);
            && p[i] in ById(s.dag.nodes) && p[i] in ById(stored.dag.nodes)
            && ById(s.dag.nodes)[p[i]].next
               == if i + 1 == |p| && rest != [] then Some(rest[0]) else ById(stored.dag.nodes)[p[i]].next
  {
    hide *;
    var p, rest := Prefix(stored, fail), Rest(stored, fail, remaining);
    SplicedOrder(stored, fail, remaining);
    assert p[i] in p && p[i] in stored.order;
    OrderKnown(stored);
    ListedIds(stored);
    SplicedNodes(stored, fail, remaining, p[i]);
    OriginInPrefix(stored, fail, remaining, p[i]);
    var n := Find(stored.dag.nodes, p[i]).value;
    UniqueById(stored.dag.nodes, n);
    RelinkInPrefix(n, p, rest, i);
  }

  lemma RelinkInPrefix(n: DagNode, p: seq<string>, rest: seq<string>, i: nat)
    requires Distinct(p) && i < |p| && n.id == p[i] && n.id !in rest
    ensures Relink(n, p, rest).next == if i + 1 == |p| && rest != [] then Some(rest[0]) else n.next
  {
  }

  // ---------------------------------------------------------------- acceptance

  /** The finished prefix is a `next` chain from the entry, and it ends the chain when nothing follows it. */
  ghost predicate PrefixIsChain(stored: PlannedLiveDag, fail: DagFailCursor, remaining: PlannedLiveDag)
  {
    var p, rest := Prefix(stored, fail), Rest(stored, fail, remaining);
    && (p != [] ==> p[0] == stored.dag.entry)
    && (forall i :: 0 <= i < |p| - 1 ==> Follows(stored.dag.nodes, p[i], p[i + 1]))
    && (rest == [] ==> p != [] && EndsAt(stored.dag.nodes, p[|p| - 1]))
  }

  /** What links one position of the spliced order to the next. */
  lemma SplicedLink(stored: PlannedLiveDag, fail: DagFailCursor, remaining: PlannedLiveDag, i: nat)
    requires Listed(stored) && Listed(remaining) && i + 1 < |Splice(stored, fail, remaining).order|
    ensures var s, p := Splice(stored, fail, remaining), Prefix(stored, fail);
            Follows(s.dag.nodes, s.order[i], s.order[i + 1])
            <==> (i + 1 < |p| ==> Follows(stored.dag.nodes, p[i], p[i + 1]))
  {
    hide *;
    var s, p := Splice(stored, fail, remaining), Prefix(stored, fail);
    SplicedOrder(stored, fail, remaining);
    FollowsNext(s.dag.nodes, s.order[i], s.order[i + 1]);
    if i < |p| {
      NextInPrefix(stored, fail, remaining, i);
      FollowsNext(stored.dag.nodes, p[i], s.order[i + 1]);
    } else {
      NextBehind(stored, fail, remaining, i - |p|);
    }
  }

  lemma SplicedEnd(stored: PlannedLiveDag, fail: DagFailCursor, remaining: PlannedLiveDag)
    requires Listed(stored) && Listed(remaining) && Splice(stored, fail, remaining).order != []
    ensures var s, p, rest := Splice(stored, fail, remaining), Prefix(stored, fail), Rest(stored, fail, remaining);
            EndsAt(s.dag.nodes, s.order[|s.order| - 1]) <==> (rest == [] ==> p != [] && EndsAt(stored.dag.nodes, p[|p| - 1]))
  {
    hide *;
    var s, p, rest := Splice(stored, fail, remaining), Prefix(stored, fail), Rest(stored, fail, remaining);
    SplicedOrder(stored, fail, remaining);
    var last := s.order[|s.order| - 1];
    FollowsNext(s.dag.nodes, last, last);
    if rest == [] {
      NextInPrefix(stored, fail, remaining, |p| - 1);
      FollowsNext(stored.dag.nodes, last, last);
    } else {
      NextBehind(stored, fail, remaining, |rest| - 1);
    }
  }

  lemma SplicedEntry(stored: PlannedLiveDag, fail: DagFailCursor, remaining: PlannedLiveDag)
    requires Listed(stored) && Splice(stored, fail, remaining).order != []
    ensures var s, p := Splice(stored, fail, remaining), Prefix(stored, fail);
            s.order[0] == s.dag.entry <==> (p != [] ==> p[0] == stored.dag.entry)
  {
    hide Rest, Prefix, RawNodes, RelinkAll, Listed;
  }

  /** The chain covers the spliced graph exactly when the prefix is a chain and the whole fits the cap. */
  lemma SplicedCover(stored: PlannedLiveDag, fail: DagFailCursor, remaining: PlannedLiveDag)
    requires Listed(stored) && Listed(remaining)
    ensures var s := Splice(stored, fail, remaining);
            LinearCover(s.dag, s.order) <==> |s.order| <= stored.dag.maxSteps && PrefixIsChain(stored, fail, remaining)
  {
    hide *;
    var s, p, rest := Splice(stored, fail, remaining), Prefix(stored, fail), Rest(stored, fail, remaining);
    SplicedOrder(stored, fail, remaining);
    SplicedListed(stored, fail, remaining);
    ListedIds(s);
    if s.order == [] {
      assert p == [] && rest == [];
      NoChain(stored, fail, remaining);
      NoCover(s.dag);
    } else {
      SplicedEntry(stored, fail, remaining);
      SplicedEnd(stored, fail, remaining);
      forall i | 0 <= i < |s.order| - 1
        ensures Follows(s.dag.nodes, s.order[i], s.order[i + 1]) <==> (i + 1 < |p| ==> Follows(stored.dag.nodes, p[i], p[i + 1]))
      {
        SplicedLink(stored, fail, remaining, i);
      }
      ChainIs(stored, fail, remaining);
      CoverIs(s.dag, s.order);
    }
  }

  lemma NoChain(stored: PlannedLiveDag, fail: DagFailCursor, remaining: PlannedLiveDag)
    requires Prefix(stored, fail) == [] && Rest(stored, fail, remaining) == []
    ensures !PrefixIsChain(stored, fail, remaining)
  {
    hide Prefix, Rest, Follows, EndsAt;
  }

  lemma NoCover(dag: DagManifest)
    ensures !LinearCover(dag, [])
  {
  }

  lemma ChainIs(stored: PlannedLiveDag, fail: DagFailCursor, remaining: PlannedLiveDag)
    ensures var p, rest := Prefix(stored, fail), Rest(stored, fail, remaining);
            PrefixIsChain(stored, fail, remaining)
            <==> (p != [] ==> p[0] == stored.dag.entry)
                 && (forall i :: 0 <= i < |p| - 1 ==> Follows(stored.dag.nodes, p[i], p[i + 1]))
                 && (rest == [] ==> p != [] && EndsAt(stored.dag.nodes, p[|p| - 1]))
  {
    hide Prefix, Rest, Follows, EndsAt;
  }

  lemma CoverIs(dag: DagManifest, o: seq<string>)
    requires UniqueIds(dag.nodes) && Distinct(o) && |o| == |dag.nodes| && o != []
    ensures LinearCover(dag, o)
            <==> o[0] == dag.entry && |o| <= dag.maxSteps && EndsAt(dag.nodes, o[|o| - 1])
                 && forall i :: 0 <= i < |o| - 1 ==> Follows(dag.nodes, o[i], o[i + 1])
  {
    hide Follows, EndsAt, UniqueIds, Distinct;
  }

  /** A chain that covers the spliced graph can only be the spliced order. */
  lemma CoverIsSplicedOrder(stored: PlannedLiveDag, fail: DagFailCursor, remaining: PlannedLiveDag, o: seq<string>)
    requires TopoPlanned(stored) && TopoPlanned(remaining) && Listed(stored)
    requires NonEmptyIds(stored.dag.nodes) && NonEmptyIds(remaining.dag.nodes)
    requires !HasFork(Splice(stored, fail, remaining).dag.nodes) && LinearCover(Splice(stored, fail, remaining).dag, o)
    ensures o == Splice(stored, fail, remaining).order
  {
    hide *;
    var s := Splice(stored, fail, remaining);
    TopoPlannedListed(remaining);
    ForkFreeKeepsOrder(stored, fail, remaining);
    SplicedOrderIsForward(stored, fail, remaining);
    SplicedNonEmpty(stored, fail, remaining);
    SplicedListed(stored, fail, remaining);
    EdgesOfIs(s);
    CoverLists(s.dag, o);
    CoverNonBlank(s.dag, o);
    TopoIntro(EdgesOf(s), s.order);
    forall j | 0 <= j < |o| - 1
      ensures Edge(EdgesOf(s), o[j], o[j + 1])
    {
      LinkIsEdge(s.dag, o, j);
    }
    assert o[..0] == s.order[..0];
    TailChainUnique(EdgesOf(s), o, s.order, 0, |o|);
    assert o[..|o|] == o && s.order[..|s.order|] == s.order;
  }

  /**
   A spliced graph without forks is accepted exactly when it fits the stored step cap and the finished prefix is a `next`
   chain from the entry, and is then walked in the spliced order. A prefix that a forked graph had put in order is not.
   */
  lemma ForkFreeSpliceAccepted(stored: PlannedLiveDag, fail: DagFailCursor, remaining: PlannedLiveDag)
    requires TopoPlanned(stored) && TopoPlanned(remaining) && Listed(stored)
    requires NonEmptyIds(stored.dag.nodes) && NonEmptyIds(remaining.dag.nodes)
    requires !HasFork(Splice(stored, fail, remaining).dag.nodes)
    ensures var s := Splice(stored, fail, remaining);
            Schedule(s.dag) == if |s.order| <= stored.dag.maxSteps && PrefixIsChain(stored, fail, remaining) then Some(s.order) else None
  {
    hide *;
    var s := Splice(stored, fail, remaining);
    TopoPlannedListed(remaining);
    SplicedCover(stored, fail, remaining);
    NotForkedSchedule(s.dag);
    if Schedule(s.dag).Some? {
      CoverIsSplicedOrder(stored, fail, remaining, Schedule(s.dag).value);
    }
  }

  lemma NotForkedSchedule(dag: DagManifest)
    requires !HasFork(dag.nodes)
    ensures Schedule(dag).Some? ==> LinearCover(dag, Schedule(dag).value)
    ensures forall o :: LinearCover(dag, o) ==> Schedule(dag) == Some(o)
  {
    hide LinearCover;
  }

  // ---------------------------------------------------------------- fork-free sources

  lemma PlanIsChain(stored: PlannedLiveDag, fail: DagFailCursor, remaining: PlannedLiveDag)
    requires LinearCover(stored.dag, stored.order)
    ensures PrefixIsChain(stored, fail, remaining)
  {
    hide Follows, EndsAt, UniqueIds, Distinct;
    var p := Prefix(stored, fail);
    forall i | 0 <= i < |p| - 1
      ensures Follows(stored.dag.nodes, p[i], p[i + 1])
    {
      assert p[i] == stored.order[i] && p[i + 1] == stored.order[i + 1];
      CoverAt(stored.dag, stored.order, i);
    }
    if Rest(stored, fail, remaining) == [] {
      assert p == stored.order;
    }
  }

  /** A repair between fork-free plans is accepted exactly when it fits the stored step cap. */
  lemma LinearRepairExact(stored: PlannedLiveDag, fail: DagFailCursor, remaining: PlannedLiveDag)
    requires WellPlanned(stored) && WellPlanned(remaining) && Listed(stored)
    requires !HasFork(stored.dag.nodes) && !HasFork(remaining.dag.nodes)
    ensures var s := Splice(stored, fail, remaining);
            Schedule(s.dag) == (if |s.order| <= stored.dag.maxSteps then Some(s.order) else None)
  {
    WellPlannedParts(stored);
    WellPlannedParts(remaining);
    hide *;
    WellPlannedOrder(stored);
    WellPlannedOrder(remaining);
    NotForkedSchedule(stored.dag);
    SpliceIsForkFree(stored, fail, remaining);
    PlanIsChain(stored, fail, remaining);
    ForkFreeSpliceAccepted(stored, fail, remaining);
  }

  lemma WellPlannedParts(plan: PlannedLiveDag)
    requires WellPlanned(plan)
    ensures Schedule(plan.dag) == Some(plan.order) && NonEmptyIds(plan.dag.nodes)
  {
  }
}
