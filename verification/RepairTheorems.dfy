/**
 The repair guarantee: whenever the host accepts a spliced plan, scheduling the spliced graph afresh
 returns the spliced order, unless a replanned node forks back into the finished prefix.
 */
module RepairTheorems {
  import opened Wrappers
  import opened Digraph
  import opened TaskGraph
  import opened KahnRun
  import opened KahnPrefix
  import opened BoundedDag
  import opened LinearDag
  import opened RepairSplice
  import opened SpliceSchedule

  lemma {:induction false} KeepIsRestrict(nodes: seq<DagNode>, p: seq<string>)
    ensures Ids(KeepNodes(nodes, p)) == Restrict(Ids(nodes), p)
  {
    if nodes != [] {
      var k := |nodes| - 1;
      var init, last := nodes[..k], nodes[k];
      assert nodes == init + [last];
      assert Ids(nodes) == Ids(init) + [last.id];
      KeepIsRestrict(init, p);
      RestrictSnoc(Ids(init), last.id, p);
      IdsAppend(KeepNodes(init, p), [last]);
      IdsAppend(KeepNodes(init, p), []);
      assert Ids([last]) == [last.id] && Ids([]) == [];
    }
  }

  lemma NothingInside(s: seq<string>, p: seq<string>)
    requires forall v :: v in s ==> v !in p
    ensures Restrict(s, p) == []
  {
    assert Restrict(s, p) != [] ==> Restrict(s, p)[0] in Restrict(s, p);
  }

  /** Inside the prefix, the spliced node list is the stored one. */
  lemma SameListInside(stored: PlannedLiveDag, fail: DagFailCursor, remaining: PlannedLiveDag)
    requires Listed(stored) && Listed(remaining)
    ensures var p := Prefix(stored, fail);
            Restrict(Ids(stored.dag.nodes), p) == Restrict(Ids(Splice(stored, fail, remaining).dag.nodes), p)
  {
    var p, rest := Prefix(stored, fail), Rest(stored, fail, remaining);
    hide UniqueIds, KeepNodes, Grafted, Rest, KeepsStored, RestSource;
    RawListed(stored, fail, remaining);
    SplicedOrder(stored, fail, remaining);
    var kept := Ids(KeepNodes(stored.dag.nodes, p));
    KeepIsRestrict(stored.dag.nodes, p);
    RestrictAppend(kept, rest, p);
    RestrictWithin(Ids(stored.dag.nodes), p, p);
    NothingInside(rest, p);
  }

  // ---------------------------------------------------------------- finished nodes that the tail does not reach

  /** A walk leads from one of `from` to `v`. */
  ghost predicate ReachedFrom(g: Graph, from: seq<string>, v: string)
  {
    exists w :: IsWalk(g, w) && w[0] in from && w[|w| - 1] == v
  }

  /** The members of `s` that no walk from `from` leads to. */
  ghost function Unreached(g: Graph, from: seq<string>, s: seq<string>): (r: seq<string>)
    ensures forall v :: v in r <==> v in s && !ReachedFrom(g, from, v)
  {
    if s == [] then []
    else
      var n := |s| - 1;
      assert s == s[..n] + [s[n]];
      Unreached(g, from, s[..n]) + if ReachedFrom(g, from, s[n]) then [] else [s[n]]
  }

  lemma StepReaches(g: Graph, from: seq<string>, u: string, v: string)
    requires Edge(g, u, v) && (u in from || ReachedFrom(g, from, u))
    ensures ReachedFrom(g, from, v)
  {
    hide Edge;
    var w := [u];
    if u !in from {
      w :| IsWalk(g, w) && w[0] in from && w[|w| - 1] == u;
    }
    var t := w + [v];
    forall i | 0 <= i < |t| - 1
      ensures Edge(g, t[i], t[i + 1])
    {
      assert i < |w| - 1 ==> Edge(g, w[i], w[i + 1]);
    }
    assert IsWalk(g, t) && t[0] in from && t[|t| - 1] == v;
  }

  lemma LastStep(g: Graph, from: seq<string>, v: string) returns (u: string)
    requires ReachedFrom(g, from, v) && v !in from
    ensures Edge(g, u, v) && (u in from || ReachedFrom(g, from, u))
  {
    hide Edge;
    var w :| IsWalk(g, w) && w[0] in from && w[|w| - 1] == v;
    var n := |w| - 1;
    u := w[n - 1];
    assert Edge(g, w[n - 1], w[n - 1 + 1]);
    var t := w[..n];
    assert forall i :: 0 <= i < |t| - 1 ==> Edge(g, w[i], w[i + 1]);
    assert IsWalk(g, t) && t[0] in from && t[|t| - 1] == u;
  }

  /** A part of the prefix that no node behind the prefix forks into. */
  ghost predicate NoForkInto(stored: PlannedLiveDag, fail: DagFailCursor, remaining: PlannedLiveDag, done: seq<string>)
  {
    forall v :: v in done ==> NoForkTo(stored, fail, remaining, v)
  }

  lemma NoForkIntoPrefix(stored: PlannedLiveDag, fail: DagFailCursor, remaining: PlannedLiveDag)
    ensures NoForkBack(stored, fail, remaining) <==> NoForkInto(stored, fail, remaining, Prefix(stored, fail))
  {
    hide NoForkBack, NoForkTo, Prefix;
    NoForkBackIs(stored, fail, remaining);
  }

  /** A fork from behind the prefix to a finished node is an edge of the spliced graph. */
  lemma ForkIsEdge(stored: PlannedLiveDag, fail: DagFailCursor, remaining: PlannedLiveDag, n: DagNode, f: string)
    requires Listed(stored) && Listed(remaining) && f != ""
    requires n in RestSource(stored, fail, remaining).dag.nodes && n.id in Rest(stored, fail, remaining) && f in n.fork
    ensures Edge(EdgesOf(Splice(stored, fail, remaining)), n.id, f)
  {
    hide *;
    SourceNode(stored, fail, remaining, n);
    SplicedOrder(stored, fail, remaining);
    SplicedEdgeCases(stored, fail, remaining, n.id, f);
  }

  lemma UnreachedIsUnforked(stored: PlannedLiveDag, fail: DagFailCursor, remaining: PlannedLiveDag, v: string)
    requires Listed(stored) && Listed(remaining) && NonEmptyIds(stored.dag.nodes) && v in Prefix(stored, fail)
    requires !ReachedFrom(EdgesOf(Splice(stored, fail, remaining)), Rest(stored, fail, remaining), v)
    ensures NoForkTo(stored, fail, remaining, v)
  {
    hide Listed, Splice, Rest, Prefix, RestSource, EdgesOf, ReachedFrom, NonEmptyIds;
    PrefixNonEmpty(stored, fail, v);
    forall n | n in RestSource(stored, fail, remaining).dag.nodes && n.id in Rest(stored, fail, remaining)
      ensures v !in n.fork
    {
      if v in n.fork {
        ForkIsEdge(stored, fail, remaining, n, v);
        StepReaches(EdgesOf(Splice(stored, fail, remaining)), Rest(stored, fail, remaining), n.id, v);
      }
    }
  }

  lemma BeforeInBeginning(s: seq<string>, done: seq<string>, u: string, v: string)
    requires Distinct(s) && done <= s && v in done && Before(s, u, v)
    ensures u in done
  {
    var i, j :| 0 <= i < j < |s| && s[i] == u && s[j] == v;
    var k :| 0 <= k < |done| && done[k] == v;
    assert s[k] == done[k];
    assert done[i] == s[i];
  }

  /** No walk from behind the prefix leads into a beginning of it that no node there forks into. */
  lemma {:induction false} BeginningUnreached(stored: PlannedLiveDag, fail: DagFailCursor, remaining: PlannedLiveDag,
                                              done: seq<string>, w: seq<string>)
    requires TopoPlanned(stored) && Listed(stored) && Listed(remaining)
    requires done <= Prefix(stored, fail) && NoForkInto(stored, fail, remaining, done)
    requires w != [] && IsWalk(EdgesOf(Splice(stored, fail, remaining)), w) && w[|w| - 1] in done
    ensures w[0] in done
    decreases |w|
  {
    hide *;
    WalkInit(EdgesOf(Splice(stored, fail, remaining)), w);
    if |w| > 1 {
      var n := |w| - 1;
      BeginningHasItsPreds(stored, fail, remaining, done, w[n - 1], w[n]);
      BeginningUnreached(stored, fail, remaining, done, w[..n]);
    }
  }

  lemma WalkInit(g: Graph, w: seq<string>)
    requires IsWalk(g, w)
    ensures w != []
    ensures |w| > 1 ==> IsWalk(g, w[..|w| - 1]) && Edge(g, w[|w| - 2], w[|w| - 1])
  {
    hide Edge;
    if |w| > 1 {
      assert Edge(g, w[|w| - 2], w[|w| - 2 + 1]);
    }
  }

  lemma BeginningHasItsPreds(stored: PlannedLiveDag, fail: DagFailCursor, remaining: PlannedLiveDag, done: seq<string>, u: string, v: string)
    requires TopoPlanned(stored) && Listed(stored) && Listed(remaining)
    requires done <= Prefix(stored, fail) && NoForkInto(stored, fail, remaining, done)
    requires Edge(EdgesOf(Splice(stored, fail, remaining)), u, v) && v in done
    ensures u in done
  {
    assert NoForkTo(stored, fail, remaining, v);
    hide *;
    SplicedOrder(stored, fail, remaining);
    EdgesIntoPrefix(stored, fail, remaining, u, v);
    BeforeInBeginning(Prefix(stored, fail), done, u, v);
  }

  lemma DoneIsUnreached(stored: PlannedLiveDag, fail: DagFailCursor, remaining: PlannedLiveDag, done: seq<string>, v: string)
    requires TopoPlanned(stored) && Listed(stored) && Listed(remaining)
    requires done <= Prefix(stored, fail) && NoForkInto(stored, fail, remaining, done) && v in done
    ensures !ReachedFrom(EdgesOf(Splice(stored, fail, remaining)), Rest(stored, fail, remaining), v)
  {
    hide TopoPlanned, Listed, NoForkInto, Splice, Rest, Prefix, EdgesOf, Edge;
    var h, rest := EdgesOf(Splice(stored, fail, remaining)), Rest(stored, fail, remaining);
    SplicedOrder(stored, fail, remaining);
    forall w | IsWalk(h, w) && w[|w| - 1] == v
      ensures w[0] !in rest
    {
      BeginningUnreached(stored, fail, remaining, done, w);
    }
  }

  /** The finished nodes that no walk from behind the prefix leads to. */
  ghost function Settled(stored: PlannedLiveDag, fail: DagFailCursor, remaining: PlannedLiveDag): (r: seq<string>)
    requires Listed(stored)
    ensures forall v :: v in r ==> v in Prefix(stored, fail)
  {
    Unreached(EdgesOf(Splice(stored, fail, remaining)), Rest(stored, fail, remaining), Prefix(stored, fail))
  }

  lemma SettledIs(stored: PlannedLiveDag, fail: DagFailCursor, remaining: PlannedLiveDag, v: string)
    requires Listed(stored)
    ensures v in Settled(stored, fail, remaining)
            <==> v in Prefix(stored, fail) && !ReachedFrom(EdgesOf(Splice(stored, fail, remaining)), Rest(stored, fail, remaining), v)
  {
    hide Splice, Rest, Prefix, EdgesOf, ReachedFrom;
  }

  lemma SettledEdges(stored: PlannedLiveDag, fail: DagFailCursor, remaining: PlannedLiveDag, u: string, v: string)
    requires TopoPlanned(stored) && Listed(stored) && Listed(remaining) && NonEmptyIds(stored.dag.nodes)
    requires v in Settled(stored, fail, remaining)
    ensures Edge(EdgesOf(stored), u, v) <==> Edge(EdgesOf(Splice(stored, fail, remaining)), u, v)
  {
    hide *;
    SettledIs(stored, fail, remaining, v);
    UnreachedIsUnforked(stored, fail, remaining, v);
    EdgesIntoPrefix(stored, fail, remaining, u, v);
  }

  /** Finished nodes keep their successors, as far as those are settled. */
  lemma SameSuccessorsInside(stored: PlannedLiveDag, fail: DagFailCursor, remaining: PlannedLiveDag, u: string)
    requires TopoPlanned(stored) && Listed(stored) && Listed(remaining) && NonEmptyIds(stored.dag.nodes)
    requires u in Prefix(stored, fail)
    ensures var x, g, h := Settled(stored, fail, remaining), EdgesOf(stored), EdgesOf(Splice(stored, fail, remaining));
            u in g && u in h && Restrict(g[u], x) == Restrict(h[u], x)
  {
    hide *;
    var p, rest, x := Prefix(stored, fail), Rest(stored, fail, remaining), Settled(stored, fail, remaining);
    var s := Splice(stored, fail, remaining);
    PrefixNode(stored, fail, remaining, u);
    if rest != [] && u == p[|p| - 1] {
      forall v | v in x
        ensures v !in EdgesOf(stored)[u] && v !in EdgesOf(s)[u]
      {
        SettledEdges(stored, fail, remaining, u, v);
        LastHasNoneInside(stored, fail, v);
        EdgeIsMember(EdgesOf(stored), u, v);
        EdgeIsMember(EdgesOf(s), u, v);
      }
      NothingInside(EdgesOf(stored)[u], x);
      NothingInside(EdgesOf(s)[u], x);
    }
  }

  lemma EdgeIsMember(g: Graph, u: string, v: string)
    ensures Edge(g, u, v) <==> u in g && v in g[u]
  {
  }

  /** A prefix node other than the seam keeps its whole successor list. */
  lemma PrefixNode(stored: PlannedLiveDag, fail: DagFailCursor, remaining: PlannedLiveDag, u: string)
    requires Listed(stored) && Listed(remaining) && u in Prefix(stored, fail)
    ensures var p, s := Prefix(stored, fail), Splice(stored, fail, remaining);
            && u in EdgesOf(stored) && u in EdgesOf(s)
            && (Rest(stored, fail, remaining) == [] || u != p[|p| - 1] ==> EdgesOf(s)[u] == EdgesOf(stored)[u])
  {
    hide *;
    var p, rest, s := Prefix(stored, fail), Rest(stored, fail, remaining), Splice(stored, fail, remaining);
    OrderKnown(stored);
    ListedIds(stored);
    SplicedOrder(stored, fail, remaining);
    assert u in stored.order && u in s.order;
    SplicedNodes(stored, fail, remaining, u);
    OriginInPrefix(stored, fail, remaining, u);
    var n := Find(stored.dag.nodes, u).value;
    UniqueById(stored.dag.nodes, n);
    EdgesOfIs(stored);
    EdgesOfIs(s);
    SuccessorsAt(stored.dag.nodes, u);
    SuccessorsAt(s.dag.nodes, u);
    RelinkSame(n, p, rest);
  }

  lemma SuccessorsAt(nodes: seq<DagNode>, id: string)
    requires id in ById(nodes)
    ensures id in Adjacency(nodes) && Adjacency(nodes)[id] == ById(nodes)[id].Successors()
  {
  }

  lemma RelinkSame(n: DagNode, p: seq<string>, rest: seq<string>)
    requires n.id !in rest
    ensures rest == [] || p == [] || n.id != p[|p| - 1] ==> Relink(n, p, rest) == n
  {
  }

  lemma LastHasNoneInside(stored: PlannedLiveDag, fail: DagFailCursor, v: string)
    requires TopoPlanned(stored) && v in Prefix(stored, fail)
    ensures var p := Prefix(stored, fail); !Edge(EdgesOf(stored), p[|p| - 1], v)
  {
    hide EdgesOf, PredsFirst;
    var p := Prefix(stored, fail);
    PrefixApart(stored.order, ResumeAt(stored, fail));
    StoredEdgesClimb(stored, ResumeAt(stored, fail), p[|p| - 1], v);
    assert !Before(p, p[|p| - 1], v);
  }

  /** Before the prefix is out, nothing behind it is free. */
  lemma RestWaits(stored: PlannedLiveDag, fail: DagFailCursor, remaining: PlannedLiveDag, v: string, i: nat)
    requires Listed(stored) && Listed(remaining)
    requires NonEmptyIds(stored.dag.nodes) && NonEmptyIds(remaining.dag.nodes)
    requires v in EdgesOf(Splice(stored, fail, remaining)) && v !in Prefix(stored, fail) && i < |Prefix(stored, fail)|
    ensures !AllPredsIn(EdgesOf(Splice(stored, fail, remaining)), Prefix(stored, fail)[..i], v)
  {
    hide *;
    var p, rest := Prefix(stored, fail), Rest(stored, fail, remaining);
    var s := Splice(stored, fail, remaining);
    SplicedOrder(stored, fail, remaining);
    InRest(stored, fail, remaining, v);
    var j :| 0 <= j < |rest| && rest[j] == v;
    ChainEdges(stored, fail, remaining, j);
    var n := |p| + j;
    assert s.order[n] == v && Edge(EdgesOf(s), s.order[n - 1], v);
    assert p[..i] == s.order[..i];
    NotTaken(s.order, i, n - 1);
    PredOutside(EdgesOf(s), p[..i], s.order[n - 1], v);
  }

  lemma InRest(stored: PlannedLiveDag, fail: DagFailCursor, remaining: PlannedLiveDag, v: string)
    requires Listed(stored) && Listed(remaining)
    requires v in EdgesOf(Splice(stored, fail, remaining)) && v !in Prefix(stored, fail)
    ensures v in Rest(stored, fail, remaining)
  {
    hide Listed, Splice, Rest, Prefix, EdgesOf;
    SplicedOrder(stored, fail, remaining);
    SplicedListed(stored, fail, remaining);
    assert v in Elements(Splice(stored, fail, remaining).order);
  }

  lemma NotTaken(s: seq<string>, i: nat, n: nat)
    requires Distinct(s) && i <= n < |s|
    ensures s[n] !in s[..i]
  {
  }

  lemma PredOutside(g: Graph, done: seq<string>, u: string, v: string)
    requires Edge(g, u, v) && u !in done
    ensures !AllPredsIn(g, done, v)
  {
  }

  /** Before `done` is out, nothing that is not settled is free. */
  lemma UnsettledWaits(stored: PlannedLiveDag, fail: DagFailCursor, remaining: PlannedLiveDag, done: seq<string>, v: string, i: nat)
    requires TopoPlanned(stored) && Listed(stored) && Listed(remaining)
    requires NonEmptyIds(stored.dag.nodes) && NonEmptyIds(remaining.dag.nodes)
    requires done <= Prefix(stored, fail) && NoForkInto(stored, fail, remaining, done) && i < |done|
    requires v in EdgesOf(Splice(stored, fail, remaining)) && v !in Settled(stored, fail, remaining)
    ensures !AllPredsIn(EdgesOf(Splice(stored, fail, remaining)), done[..i], v)
  {
    hide *;
    var h, rest := EdgesOf(Splice(stored, fail, remaining)), Rest(stored, fail, remaining);
    SettledIs(stored, fail, remaining, v);
    SplicedOrder(stored, fail, remaining);
    assert done[..i] == Prefix(stored, fail)[..i];
    if v in Prefix(stored, fail) {
      var u := LastStep(h, rest, v);
      if u in done {
        DoneIsUnreached(stored, fail, remaining, done, u);
      }
      assert u !in done[..i];
      PredOutside(h, done[..i], u, v);
    } else {
      RestWaits(stored, fail, remaining, v, i);
    }
  }

  lemma SpliceMirrors(stored: PlannedLiveDag, fail: DagFailCursor, remaining: PlannedLiveDag, done: seq<string>)
    requires TopoPlanned(stored) && Listed(stored) && Listed(remaining)
    requires NonEmptyIds(stored.dag.nodes) && NonEmptyIds(remaining.dag.nodes)
    requires done <= Prefix(stored, fail) && NoForkInto(stored, fail, remaining, done)
    ensures Mirrors(EdgesOf(stored), EdgesOf(Splice(stored, fail, remaining)), Settled(stored, fail, remaining), done)
  {
    hide *;
    var x, g, h := Settled(stored, fail, remaining), EdgesOf(stored), EdgesOf(Splice(stored, fail, remaining));
    forall v | v in done
      ensures v in x
    {
      DoneIsUnreached(stored, fail, remaining, done, v);
      SettledIs(stored, fail, remaining, v);
    }
    forall u, v | v in x
      ensures Edge(g, u, v) <==> Edge(h, u, v)
    {
      SettledEdges(stored, fail, remaining, u, v);
    }
    forall u | u in done
      ensures u in g && u in h && Restrict(g[u], x) == Restrict(h[u], x)
    {
      SameSuccessorsInside(stored, fail, remaining, u);
    }
    forall v, i | v in h && v !in x && 0 <= i < |done|
      ensures !AllPredsIn(h, done[..i], v)
    {
      UnsettledWaits(stored, fail, remaining, done, v, i);
    }
    MirrorsIntro(g, h, x, done);
  }

  /** Inside the settled nodes, the spliced node list is the stored one. */
  lemma SameListSettled(stored: PlannedLiveDag, fail: DagFailCursor, remaining: PlannedLiveDag)
    requires Listed(stored) && Listed(remaining)
    ensures var x := Settled(stored, fail, remaining);
            Restrict(Ids(stored.dag.nodes), x) == Restrict(Ids(Splice(stored, fail, remaining).dag.nodes), x)
  {
    hide *;
    var p, x := Prefix(stored, fail), Settled(stored, fail, remaining);
    SameListInside(stored, fail, remaining);
    RestrictWithin(Ids(stored.dag.nodes), p, x);
    RestrictWithin(Ids(Splice(stored, fail, remaining).dag.nodes), p, x);
  }

  lemma {:induction false} RestrictWithin(s: seq<string>, p: seq<string>, x: seq<string>)
    requires forall v :: v in x ==> v in p
    ensures Restrict(Restrict(s, p), x) == Restrict(s, x)
  {
    if s != [] {
      var n := |s| - 1;
      RestrictWithin(s[..n], p, x);
      RestrictSnoc(Restrict(s[..n], p), s[n], x);
    }
  }

  /** Kahn's run over the spliced graph emits first any beginning of the prefix that no node behind the prefix forks into. */
  lemma DoneComesFirst(stored: PlannedLiveDag, fail: DagFailCursor, remaining: PlannedLiveDag, done: seq<string>)
    requires WellPlanned(stored) && Listed(stored) && Listed(remaining) && NonEmptyIds(remaining.dag.nodes)
    requires done <= Prefix(stored, fail) && NoForkInto(stored, fail, remaining, done)
    requires Topo(Splice(stored, fail, remaining).dag).Ok?
    ensures done <= Topo(Splice(stored, fail, remaining).dag).value
  {
    var s := Splice(stored, fail, remaining);
    if done != [] {
      assert s.dag.entry == stored.dag.entry;
      assert NonEmptyIds(stored.dag.nodes);
      hide *;
      WellPlannedOrder(stored);
      RunOfTopo(stored.dag);
      RunOfTopo(s.dag);
      SpliceMirrors(stored, fail, remaining, done);
      SameListSettled(stored, fail, remaining);
      EdgesOfIs(stored);
      EdgesOfIs(s);
      PrefixOfOrder(stored, fail);
      assert done <= stored.order;
      SamePrefix(EdgesOf(stored), EdgesOf(s), stored.dag.maxSteps, s.dag.maxSteps, Settled(stored, fail, remaining), done,
                 Ids(stored.dag.nodes), Ids(s.dag.nodes), stored.dag.entry);
    }
  }

  /** Kahn's run over the spliced graph emits the finished prefix first, in its old order. */
  lemma PrefixComesFirst(stored: PlannedLiveDag, fail: DagFailCursor, remaining: PlannedLiveDag)
    requires WellPlanned(stored) && Listed(stored) && NoForkBack(stored, fail, remaining)
    requires Listed(remaining) && NonEmptyIds(remaining.dag.nodes)
    requires Topo(Splice(stored, fail, remaining).dag).Ok?
    ensures Prefix(stored, fail) <= Topo(Splice(stored, fail, remaining).dag).value
  {
    hide *;
    NoForkIntoPrefix(stored, fail, remaining);
    assert Prefix(stored, fail) <= Prefix(stored, fail);
    DoneComesFirst(stored, fail, remaining, Prefix(stored, fail));
  }

  lemma PrefixOfOrder(stored: PlannedLiveDag, fail: DagFailCursor)
    ensures Prefix(stored, fail) <= stored.order
  {
  }

  lemma EdgesOfIs(plan: PlannedLiveDag)
    ensures EdgesOf(plan) == Adjacency(plan.dag.nodes)
  {
  }

  lemma SplicedListed(stored: PlannedLiveDag, fail: DagFailCursor, remaining: PlannedLiveDag)
    requires Listed(stored) && Listed(remaining)
    ensures var s := Splice(stored, fail, remaining);
            Listed(s) && |s.order| == |s.dag.nodes| && Elements(s.order) == EdgesOf(s).Keys
  {
    var s := Splice(stored, fail, remaining);
    SplicedNodes(stored, fail, remaining, "");
    DistinctSize(s.order);
    DistinctSize(Ids(s.dag.nodes));
  }

  // ---------------------------------------------------------------- cycles of the spliced graph

  lemma BeforeTrans(s: seq<string>, a: string, b: string, c: string)
    requires Distinct(s) && Before(s, a, b) && Before(s, b, c)
    ensures Before(s, a, c)
  {
    var i, j :| 0 <= i < j < |s| && s[i] == a && s[j] == b;
    var k, l :| 0 <= k < l < |s| && s[k] == b && s[l] == c;
    assert j == k;
  }

  /** The step of a walk that leads from behind the prefix to a finished node, if it has one. */
  ghost predicate StepsBack(c: seq<string>, i: nat, prefix: seq<string>, rest: seq<string>)
  {
    i + 1 < |c| && c[i] in rest && c[i + 1] in prefix
  }

  /** From each entry of `c` to the next it goes up in `order`. */
  ghost predicate Climbs(order: seq<string>, c: seq<string>)
  {
    forall i :: 0 <= i < |c| - 1 ==> Before(order, c[i], c[i + 1])
  }

  lemma {:induction false} ClimbsFar(order: seq<string>, c: seq<string>, k: nat)
    requires Distinct(order) && Climbs(order, c) && 1 <= k < |c|
    ensures Before(order, c[0], c[k])
  {
    ClimbsAt(order, c, k - 1);
    hide *;
    if k > 1 {
      ClimbsFar(order, c, k - 1);
      BeforeTrans(order, c[0], c[k - 1], c[k]);
    }
  }

  lemma ClimbsAt(order: seq<string>, c: seq<string>, i: nat)
    requires Climbs(order, c) && i + 1 < |c|
    ensures Before(order, c[i], c[i + 1])
  {
    hide Before;
  }

  lemma ClimbsOrStepsBack(stored: PlannedLiveDag, fail: DagFailCursor, remaining: PlannedLiveDag, c: seq<string>)
    requires TopoPlanned(stored) && TopoPlanned(remaining) && Listed(stored)
    requires IsWalk(EdgesOf(Splice(stored, fail, remaining)), c)
    requires forall i :: 0 <= i < |c| ==> c[i] in Splice(stored, fail, remaining).order
    ensures Climbs(Splice(stored, fail, remaining).order, c)
            || exists i: nat :: StepsBack(c, i, Prefix(stored, fail), Rest(stored, fail, remaining))
  {
    hide Listed, TopoPlanned, Splice, Rest, Prefix, EdgesOf, Edge, Before;
    var s := Splice(stored, fail, remaining);
    forall i | 0 <= i < |c| - 1 && !StepsBack(c, i, Prefix(stored, fail), Rest(stored, fail, remaining))
      ensures Before(s.order, c[i], c[i + 1])
    {
      assert Edge(EdgesOf(s), c[i], c[i + 1]);
      EdgeIsForward(stored, fail, remaining, c[i], c[i + 1]);
    }
  }

  lemma SourceInOrder(stored: PlannedLiveDag, fail: DagFailCursor, remaining: PlannedLiveDag, u: string, v: string)
    requires Listed(stored) && Listed(remaining) && Edge(EdgesOf(Splice(stored, fail, remaining)), u, v)
    ensures u in Splice(stored, fail, remaining).order
  {
    hide *;
    SplicedOrder(stored, fail, remaining);
    SplicedEdgeCases(stored, fail, remaining, u, v);
  }

  lemma ClosedWalkInOrder(stored: PlannedLiveDag, fail: DagFailCursor, remaining: PlannedLiveDag, c: seq<string>)
    requires Listed(stored) && Listed(remaining) && |c| >= 2 && c[0] == c[|c| - 1]
    requires IsWalk(EdgesOf(Splice(stored, fail, remaining)), c)
    ensures forall i :: 0 <= i < |c| ==> c[i] in Splice(stored, fail, remaining).order
  {
    hide Listed, Splice, EdgesOf, Edge;
    forall i | 0 <= i < |c| - 1
      ensures c[i] in Splice(stored, fail, remaining).order
    {
      assert Edge(EdgesOf(Splice(stored, fail, remaining)), c[i], c[i + 1]);
      SourceInOrder(stored, fail, remaining, c[i], c[i + 1]);
    }
  }

  /** A closed walk, entered behind one of its steps. */
  lemma Rotated(g: Graph, c: seq<string>, i: nat)
    requires IsWalk(g, c) && |c| >= 2 && c[0] == c[|c| - 1] && i + 1 < |c|
    ensures ReachedFrom(g, [c[i + 1]], c[i])
  {
    hide Edge;
    var a := |c| - 1 - i;
    var w := c[i + 1..] + c[1..i + 1];
    forall k | 0 <= k < |w| - 1
      ensures Edge(g, w[k], w[k + 1])
    {
      if k + 1 < a {
        assert Edge(g, c[i + 1 + k], c[i + 1 + k + 1]);
      } else {
        var m := k + 1 - a;
        assert w[k] == c[m] && w[k + 1] == c[m + 1];
        assert Edge(g, c[m], c[m + 1]);
      }
    }
    assert IsWalk(g, w) && w[0] == c[i + 1] && w[|w| - 1] == c[i];
    assert w[0] in [c[i + 1]];
  }

  lemma BackClosesWalk(g: Graph, u: string, f: string)
    requires ReachedFrom(g, [f], u) && Edge(g, u, f)
    ensures Cyclic(g)
  {
    hide Edge, Cyclic;
    StepReaches(g, [f], u, f);
    var w :| IsWalk(g, w) && w[0] in [f] && w[|w| - 1] == u;
    var c := w + [f];
    forall i | 0 <= i < |c| - 1
      ensures Edge(g, c[i], c[i + 1])
    {
      assert i < |w| - 1 ==> Edge(g, w[i], w[i + 1]);
    }
    ClosedIsCyclic(g, c);
  }

  /** A node behind the prefix forks to a finished one that leads to it again. */
  ghost predicate LoopsBack(stored: PlannedLiveDag, fail: DagFailCursor, remaining: PlannedLiveDag)
    requires Listed(stored)
  {
    exists n, f :: n in RestSource(stored, fail, remaining).dag.nodes && n.id in Rest(stored, fail, remaining)
                   && f in n.fork && f in Prefix(stored, fail) && f != ""
                   && ReachedFrom(EdgesOf(Splice(stored, fail, remaining)), [f], n.id)
  }

  lemma NoForkBackNoLoop(stored: PlannedLiveDag, fail: DagFailCursor, remaining: PlannedLiveDag)
    requires Listed(stored) && NoForkBack(stored, fail, remaining)
    ensures !LoopsBack(stored, fail, remaining)
  {
    hide Splice, Listed, Rest, RestSource, Prefix, EdgesOf, ReachedFrom;
  }

  lemma LoopAt(stored: PlannedLiveDag, fail: DagFailCursor, remaining: PlannedLiveDag, n: DagNode, f: string)
    requires Listed(stored) && n in RestSource(stored, fail, remaining).dag.nodes && n.id in Rest(stored, fail, remaining)
    requires f in n.fork && f in Prefix(stored, fail) && f != ""
    requires ReachedFrom(EdgesOf(Splice(stored, fail, remaining)), [f], n.id)
    ensures LoopsBack(stored, fail, remaining)
  {
    hide Splice, Listed, Rest, RestSource, Prefix, EdgesOf, ReachedFrom;
  }

  lemma ClosedWalkLoopsBack(stored: PlannedLiveDag, fail: DagFailCursor, remaining: PlannedLiveDag, c: seq<string>)
    requires TopoPlanned(stored) && TopoPlanned(remaining) && Listed(stored) && Listed(remaining)
    requires IsWalk(EdgesOf(Splice(stored, fail, remaining)), c) && |c| >= 2 && c[0] == c[|c| - 1]
    ensures LoopsBack(stored, fail, remaining)
  {
    hide *;
    var s, prefix, rest := Splice(stored, fail, remaining), Prefix(stored, fail), Rest(stored, fail, remaining);
    ClosedWalkInOrder(stored, fail, remaining, c);
    SplicedOrder(stored, fail, remaining);
    ClimbsOrStepsBack(stored, fail, remaining, c);
    if i: nat :| StepsBack(c, i, prefix, rest) {
      BackAt(EdgesOf(s), c, i, prefix, rest);
      Rotated(EdgesOf(s), c, i);
      BackIsFork(stored, fail, remaining, c[i], c[i + 1]);
      var n := Find(RestSource(stored, fail, remaining).dag.nodes, c[i]).value;
      LoopAt(stored, fail, remaining, n, c[i + 1]);
    } else {
      ClimbsFar(s.order, c, |c| - 1);
      BeforeIsStrict(s.order, c[0], c[0]);
    }
  }

  lemma BackAt(g: Graph, c: seq<string>, i: nat, prefix: seq<string>, rest: seq<string>)
    requires IsWalk(g, c) && StepsBack(c, i, prefix, rest)
    ensures i + 1 < |c| && c[i] in rest && c[i + 1] in prefix && Edge(g, c[i], c[i + 1])
  {
    hide Edge;
  }

  lemma BackIsFork(stored: PlannedLiveDag, fail: DagFailCursor, remaining: PlannedLiveDag, u: string, f: string)
    requires Listed(stored) && Listed(remaining) && u in Rest(stored, fail, remaining) && f in Prefix(stored, fail)
    requires Edge(EdgesOf(Splice(stored, fail, remaining)), u, f)
    ensures var m := Find(RestSource(stored, fail, remaining).dag.nodes, u);
            m.Some? && m.value.id == u && m.value in RestSource(stored, fail, remaining).dag.nodes && f in m.value.fork && f != ""
  {
    hide *;
    SplicedOrder(stored, fail, remaining);
    SplicedEdgeCases(stored, fail, remaining, u, f);
    var rest := Rest(stored, fail, remaining);
    if After(rest, u) == Some(f) {
      AfterIsNext(rest, u, f);
      BeforeIsStrict(rest, u, f);
    }
  }

  /** The spliced graph has a cycle exactly when some node behind the prefix forks to a finished one that leads to it again. */
  lemma SplicedCyclicExactly(stored: PlannedLiveDag, fail: DagFailCursor, remaining: PlannedLiveDag)
    requires TopoPlanned(stored) && TopoPlanned(remaining) && Listed(stored)
    ensures Cyclic(EdgesOf(Splice(stored, fail, remaining))) <==> LoopsBack(stored, fail, remaining)
  {
    var h := EdgesOf(Splice(stored, fail, remaining));
    TopoPlannedListed(remaining);
    hide TopoPlanned, Listed, Splice, Rest, RestSource, Prefix, EdgesOf, ReachedFrom, IsWalk;
    if c :| IsWalk(h, c) && |c| >= 2 && c[0] == c[|c| - 1] {
      ClosedWalkLoopsBack(stored, fail, remaining, c);
    }
    if n, f :| n in RestSource(stored, fail, remaining).dag.nodes && n.id in Rest(stored, fail, remaining)
               && f in n.fork && f in Prefix(stored, fail) && f != "" && ReachedFrom(h, [f], n.id) {
      ForkIsEdge(stored, fail, remaining, n, f);
      BackClosesWalk(h, n.id, f);
    }
  }

  lemma TopoReturnsSplicedOrder(stored: PlannedLiveDag, fail: DagFailCursor, remaining: PlannedLiveDag, t: seq<string>)
    requires Listed(stored) && Listed(remaining)
    requires NonEmptyIds(stored.dag.nodes) && NonEmptyIds(remaining.dag.nodes)
    requires TopoOrder(EdgesOf(Splice(stored, fail, remaining)), t) && Prefix(stored, fail) <= t
    ensures t == Splice(stored, fail, remaining).order
  {
    hide *;
    var s, p, rest := Splice(stored, fail, remaining), Prefix(stored, fail), Rest(stored, fail, remaining);
    SplicedListed(stored, fail, remaining);
    SplicedOrder(stored, fail, remaining);
    var k := |p|;
    forall j | k <= j < |s.order| - 1
      ensures Edge(EdgesOf(s), s.order[j], s.order[j + 1])
    {
      ChainEdges(stored, fail, remaining, j + 1 - k);
    }
    assert s.order[..k] == p == t[..k];
    TailChainUnique(EdgesOf(s), s.order, t, k, |s.order|);
    assert t[..|t|] == t && s.order[..|s.order|] == s.order;
  }

  /**
   For any two topological orders: Kahn on the spliced graph succeeds exactly when no successor is missing, it fits the
   inherited cap, and no node behind the prefix forks to a finished one that leads to it again.
   */
  lemma SplicedTopoAccepted(stored: PlannedLiveDag, fail: DagFailCursor, remaining: PlannedLiveDag)
    requires TopoPlanned(stored) && TopoPlanned(remaining)
    ensures Listed(stored)
    ensures var s := Splice(stored, fail, remaining);
            Topo(s.dag).Ok? <==> NoMissing(s.dag.nodes) && |s.order| <= s.dag.maxSteps && !LoopsBack(stored, fail, remaining)
  {
    hide *;
    TopoPlannedListed(stored);
    TopoPlannedListed(remaining);
    var s := Splice(stored, fail, remaining);
    SplicedListed(stored, fail, remaining);
    SplicedCyclicExactly(stored, fail, remaining);
    TopoCharacterised(s.dag);
    EdgesOfIs(s);
    ListedIds(s);
  }

  /** Kahn on a spliced graph: it fails only on a missing successor or the inherited cap, and returns the spliced order. */
  lemma TopoOfSplice(stored: PlannedLiveDag, fail: DagFailCursor, remaining: PlannedLiveDag)
    requires WellPlanned(stored) && TopoPlanned(remaining) && NonEmptyIds(remaining.dag.nodes)
    requires NoForkBack(stored, fail, remaining)
    ensures Listed(stored)
    ensures var s := Splice(stored, fail, remaining);
            && (Topo(s.dag).Ok? <==> NoMissing(s.dag.nodes) && |s.order| <= s.dag.maxSteps)
            && (Topo(s.dag).Ok? ==> Topo(s.dag).value == s.order)
  {
    assert NonEmptyIds(stored.dag.nodes);
    hide *;
    WellPlannedOrder(stored);
    TopoPlannedListed(remaining);
    var s := Splice(stored, fail, remaining);
    SplicedTopoAccepted(stored, fail, remaining);
    NoForkBackNoLoop(stored, fail, remaining);
    TopoCharacterised(s.dag);
    EdgesOfIs(s);
    if Topo(s.dag).Ok? {
      PrefixComesFirst(stored, fail, remaining);
      TopoReturnsSplicedOrder(stored, fail, remaining, Topo(s.dag).value);
    }
  }

  // ---------------------------------------------------------------- the main results

  lemma SplicedNonEmpty(stored: PlannedLiveDag, fail: DagFailCursor, remaining: PlannedLiveDag)
    requires Listed(stored) && Listed(remaining)
    requires NonEmptyIds(stored.dag.nodes) && NonEmptyIds(remaining.dag.nodes)
    ensures NonEmptyIds(Splice(stored, fail, remaining).dag.nodes)
  {
    var s := Splice(stored, fail, remaining);
    SplicedNodes(stored, fail, remaining, "");
    SplicedOrder(stored, fail, remaining);
    OrderKnown(s);
    OrderKnown(stored);
    hide Listed, Splice, Prefix, Rest, RestSource, UniqueIds;
    forall n | n in s.dag.nodes
      ensures n.id != ""
    {
      NodeListed(s, n);
      if n.id in Rest(stored, fail, remaining) {
        var j :| 0 <= j < |Rest(stored, fail, remaining)| && Rest(stored, fail, remaining)[j] == n.id;
        RestNonEmpty(stored, fail, remaining, j);
      } else {
        assert n.id in stored.order;
        var m := Find(stored.dag.nodes, n.id).value;
        assert m.id != "";
      }
    }
  }

  lemma NodeListed(plan: PlannedLiveDag, n: DagNode)
    requires n in plan.dag.nodes
    ensures n.id in Ids(plan.dag.nodes)
  {
    var i :| 0 <= i < |plan.dag.nodes| && plan.dag.nodes[i] == n;
    assert Ids(plan.dag.nodes)[i] == n.id;
  }

  /** A scheduled plan stays scheduled through an accepted repair. */
  lemma AcceptedSpliceIsWellPlanned(stored: PlannedLiveDag, fail: DagFailCursor, remaining: PlannedLiveDag)
    requires WellPlanned(stored) && TopoPlanned(remaining) && NonEmptyIds(remaining.dag.nodes)
    requires NoForkBack(stored, fail, remaining)
    ensures Listed(stored)
    ensures var s := Splice(stored, fail, remaining);
            Schedule(s.dag).Some? ==> Schedule(s.dag) == Some(s.order) && WellPlanned(s)
  {
    WellPlannedOrder(stored);
    TopoPlannedListed(remaining);
    TopoOfSplice(stored, fail, remaining);
    SplicedNonEmpty(stored, fail, remaining);
    var s := Splice(stored, fail, remaining);
    hide Splice, Topo, LinearCover, NoForkBack, HasFork, Listed;
    if Schedule(s.dag).Some? && !HasFork(s.dag.nodes) {
      SchedulersAgree(s.dag, Schedule(s.dag).value);
    }
  }

  /**
   Rescheduling an accepted spliced plan gives back the spliced order exactly when no replanned node
   forks to a finished one.
   */
  lemma RescheduleExact(stored: PlannedLiveDag, fail: DagFailCursor, remaining: PlannedLiveDag)
    requires WellPlanned(stored) && Listed(stored) && TopoPlanned(remaining) && NonEmptyIds(remaining.dag.nodes)
    requires Schedule(Splice(stored, fail, remaining).dag).Some?
    ensures var s := Splice(stored, fail, remaining);
            Schedule(s.dag) == Some(s.order) <==> NoForkBack(stored, fail, remaining)
  {
    var s := Splice(stored, fail, remaining);
    TopoPlannedListed(remaining);
    SplicedNonEmpty(stored, fail, remaining);
    if NoForkBack(stored, fail, remaining) {
      AcceptedSpliceIsWellPlanned(stored, fail, remaining);
    }
    if Schedule(s.dag) == Some(s.order) {
      WellPlannedOrder(s);
      hide Splice, Schedule, WellPlanned, NonEmptyIds, Rest, Prefix, RestSource, Listed, PredsFirst, UniqueIds,
           NoMissing;
      forall n, f | n in RestSource(stored, fail, remaining).dag.nodes && n.id in Rest(stored, fail, remaining) && f in n.fork
        ensures f !in Prefix(stored, fail)
      {
        ForkBackIsBackward(stored, fail, remaining, n, f);
      }
    }
  }

  lemma ForkBackIsBackward(stored: PlannedLiveDag, fail: DagFailCursor, remaining: PlannedLiveDag, n: DagNode, f: string)
    requires Listed(stored) && Listed(remaining) && NonEmptyIds(stored.dag.nodes)
    requires n in RestSource(stored, fail, remaining).dag.nodes && n.id in Rest(stored, fail, remaining) && f in n.fork
    requires var s := Splice(stored, fail, remaining); PredsFirst(EdgesOf(s), s.order)
    ensures f !in Prefix(stored, fail)
  {
    var s, p, rest := Splice(stored, fail, remaining), Prefix(stored, fail), Rest(stored, fail, remaining);
    if f in p {
      SourceNode(stored, fail, remaining, n);
      PrefixNonEmpty(stored, fail, f);
      SplicedOrder(stored, fail, remaining);
      SplicedEdgeCases(stored, fail, remaining, n.id, f);
      hide Splice, Rest, Prefix, RestSource, Listed, PredsFirst, Before, EdgesOf;
      PredIsBefore(EdgesOf(s), s.order, n.id, f);
      BeforeInParts(p, rest, f, n.id);
      BeforeIsStrict(s.order, f, n.id);
    }
  }

  lemma SourceNode(stored: PlannedLiveDag, fail: DagFailCursor, remaining: PlannedLiveDag, n: DagNode)
    requires Listed(stored) && Listed(remaining) && n in RestSource(stored, fail, remaining).dag.nodes
    ensures Find(RestSource(stored, fail, remaining).dag.nodes, n.id) == Some(n)
  {
    UniqueById(RestSource(stored, fail, remaining).dag.nodes, n);
  }

  lemma PrefixNonEmpty(stored: PlannedLiveDag, fail: DagFailCursor, f: string)
    requires Listed(stored) && NonEmptyIds(stored.dag.nodes) && f in Prefix(stored, fail)
    ensures f != ""
  {
    OrderKnown(stored);
    assert f in stored.order;
    assert Find(stored.dag.nodes, f).value.id != "";
  }

  /**
   When the spliced graph still forks, it is accepted exactly when no successor is missing, it fits the inherited cap and
   no fork back closes a loop. With no fork back at all it is then scheduled in the spliced order.
   */
  lemma ForkedSpliceAccepted(stored: PlannedLiveDag, fail: DagFailCursor, remaining: PlannedLiveDag)
    requires TopoPlanned(stored) && TopoPlanned(remaining) && Listed(stored)
    requires HasFork(Splice(stored, fail, remaining).dag.nodes)
    ensures var s := Splice(stored, fail, remaining);
            && (Schedule(s.dag).Some?
                <==> NoMissing(s.dag.nodes) && |s.order| <= stored.dag.maxSteps && !LoopsBack(stored, fail, remaining))
            && (WellPlanned(stored) && NonEmptyIds(remaining.dag.nodes) && Schedule(s.dag).Some?
                ==> (Schedule(s.dag) == Some(s.order) <==> NoForkBack(stored, fail, remaining)))
  {
    hide NoForkBack, TopoPlanned, WellPlanned, Splice, Topo, NoMissing, NonEmptyIds, HasFork, Listed, LoopsBack;
    TopoPlannedListed(remaining);
    SplicedTopoAccepted(stored, fail, remaining);
    SplicedOrder(stored, fail, remaining);
    if WellPlanned(stored) && NonEmptyIds(remaining.dag.nodes) && Schedule(Splice(stored, fail, remaining).dag).Some? {
      RescheduleExact(stored, fail, remaining);
    }
  }

  /** An accepted spliced plan is rescheduled with any given part of the finished prefix first exactly when no replanned node forks into that part. */
  lemma RescheduleKeepsExactly(stored: PlannedLiveDag, fail: DagFailCursor, remaining: PlannedLiveDag, done: seq<string>)
    requires WellPlanned(stored) && Listed(stored) && TopoPlanned(remaining) && NonEmptyIds(remaining.dag.nodes)
    requires Schedule(Splice(stored, fail, remaining).dag).Some? && done <= Prefix(stored, fail)
    ensures done <= Schedule(Splice(stored, fail, remaining).dag).value <==> NoForkInto(stored, fail, remaining, done)
  {
    hide *;
    var s := Splice(stored, fail, remaining);
    TopoPlannedListed(remaining);
    StoredNonEmpty(stored);
    SplicedNonEmpty(stored, fail, remaining);
    ScheduleIsTopo(s.dag);
    var t := Schedule(s.dag).value;
    TopoCharacterised(s.dag);
    EdgesOfIs(s);
    if NoForkInto(stored, fail, remaining, done) {
      DoneComesFirst(stored, fail, remaining, done);
    }
    if done <= t {
      forall v | v in done
        ensures NoForkTo(stored, fail, remaining, v)
      {
        FirstIsUnforked(stored, fail, remaining, done, t, v);
      }
      NoForkIntoIs(stored, fail, remaining, done);
    }
  }

  lemma StoredNonEmpty(plan: PlannedLiveDag)
    requires WellPlanned(plan)
    ensures NonEmptyIds(plan.dag.nodes)
  {
  }

  lemma NoForkIntoIs(stored: PlannedLiveDag, fail: DagFailCursor, remaining: PlannedLiveDag, done: seq<string>)
    ensures NoForkInto(stored, fail, remaining, done) <==> forall v :: v in done ==> NoForkTo(stored, fail, remaining, v)
  {
    hide NoForkTo;
  }

  lemma ScheduleIsTopo(dag: DagManifest)
    requires Schedule(dag).Some? && NonEmptyIds(dag.nodes)
    ensures Topo(dag) == Result.Ok(Schedule(dag).value)
  {
    hide Topo, LinearCover, NonEmptyIds;
    if !HasFork(dag.nodes) {
      SchedulersAgree(dag, Schedule(dag).value);
    }
  }

  lemma FirstIsUnforked(stored: PlannedLiveDag, fail: DagFailCursor, remaining: PlannedLiveDag, done: seq<string>, t: seq<string>, v: string)
    requires Listed(stored) && Listed(remaining) && NonEmptyIds(stored.dag.nodes)
    requires TopoOrder(EdgesOf(Splice(stored, fail, remaining)), t) && done <= t && done <= Prefix(stored, fail) && v in done
    ensures NoForkTo(stored, fail, remaining, v)
  {
    hide Listed, NonEmptyIds, Splice, Rest, RestSource, Prefix, EdgesOf, PredsFirst, Before, Distinct, Elements;
    var s := Splice(stored, fail, remaining);
    PrefixNonEmpty(stored, fail, v);
    SplicedOrder(stored, fail, remaining);
    forall n | n in RestSource(stored, fail, remaining).dag.nodes && n.id in Rest(stored, fail, remaining)
      ensures v !in n.fork
    {
      if v in n.fork {
        ForkIsEdge(stored, fail, remaining, n, v);
        PredIsBefore(EdgesOf(s), t, n.id, v);
        BeforeInBeginning(t, done, n.id, v);
      }
    }
  }
}
