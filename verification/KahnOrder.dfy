/**
 Which topological order the scheduler returns: nodes come out in the order in which they become free, nodes freed by the
 same node in the order of its successors, and roots in node order behind the entry. This determines the order.
 */
module KahnOrder {
  import opened Wrappers
  import opened Digraph
  import opened TaskGraph
  import opened KahnRun
  import opened BoundedDag

  // ---------------------------------------------------------------- the rule

  /** `v` becomes free with the `n`-th emission: all its predecessors are among the first `n` nodes, and not earlier. */
  ghost predicate FreeAt(g: Graph, t: seq<string>, v: string, n: nat)
  {
    n <= |t| && AllPredsIn(g, t[..n], v) && forall m :: 0 <= m < n ==> !AllPredsIn(g, t[..m], v)
  }

  /** Of two nodes that become free together, the one that goes first. */
  ghost predicate Precedes(g: Graph, ids: seq<string>, entry: string, t: seq<string>, n: nat, u: string, v: string)
    requires n <= |t|
  {
    if n == 0 then u == entry || (v != entry && Before(ids, u, v))
    else t[n - 1] in g && Before(g[t[n - 1]], u, v)
  }

  ghost predicate QueueOrder(g: Graph, ids: seq<string>, entry: string, t: seq<string>)
  {
    forall u, v, n, m :: u in t && v in t && u != v && FreeAt(g, t, u, n) && FreeAt(g, t, v, m)
                         && (n < m || (n == m && Precedes(g, ids, entry, t, n, u, v)))
                         ==> Before(t, u, v)
  }

  // ---------------------------------------------------------------- the run keeps to it

  /** Whatever is ready comes out in that order, before anything that is freed later. */
  lemma {:induction false} QueueComesOut(g: Graph, cap: nat, ready: seq<string>, order: seq<string>)
    requires (forall v :: v in ready ==> v in g) && Closed(g)
    requires KahnFrom(g, cap, ready, order).Some?
    ensures order + ready <= KahnFrom(g, cap, ready, order).value
    decreases cap - |order|
  {
    if ready == [] {
      assert order + ready == order;
    } else {
      Advance(g, cap, ready, order);
      hide *;
      var order' := order + [ready[0]];
      var freed := Freed(g, order', g[ready[0]]);
      QueueComesOut(g, cap, ready[1..] + freed, order');
      assert order' + (ready[1..] + freed) == (order + ready) + freed;
    }
  }

  lemma Advance(g: Graph, cap: nat, ready: seq<string>, order: seq<string>)
    requires (forall v :: v in ready ==> v in g) && Closed(g) && ready != [] && KahnFrom(g, cap, ready, order).Some?
    ensures ready[0] in g && |order| < cap
    ensures var order' := order + [ready[0]];
            var next := ready[1..] + Freed(g, order', g[ready[0]]);
            (forall v :: v in next ==> v in g) && KahnFrom(g, cap, ready, order) == KahnFrom(g, cap, next, order')
  {
    hide Freed;
    assert ready[0] in ready;
    forall v | v in Freed(g, order + [ready[0]], g[ready[0]])
      ensures v in g
    {
      assert Edge(g, ready[0], v);
    }
  }

  /** A state on the way to `t`. */
  ghost predicate OnTheWay(g: Graph, cap: nat, t: seq<string>, n: nat, ready: seq<string>)
  {
    && n <= |t| && Closed(g) && SimpleLists(g)
    && (forall v :: v in ready ==> v in g)
    && KahnInv(g, ready, t[..n]) && KahnFrom(g, cap, ready, t[..n]) == Some(t)
  }

  lemma Goes(g: Graph, cap: nat, t: seq<string>, n: nat, ready: seq<string>)
    requires OnTheWay(g, cap, t, n, ready) && n < |t|
    ensures ready != [] && ready[0] == t[n] && t[n] in g
    ensures OnTheWay(g, cap, t, n + 1, ready[1..] + Freed(g, t[..n + 1], g[t[n]]))
  {
    hide Freed, KahnInv, Closed, SimpleLists;
    HeadIsNext(g, cap, t, n, ready);
    Advance(g, cap, ready, t[..n]);
    StepKeepsInv(g, ready, t[..n]);
    assert t[..n] + [t[n]] == t[..n + 1];
  }

  lemma HeadIsNext(g: Graph, cap: nat, t: seq<string>, n: nat, ready: seq<string>)
    requires OnTheWay(g, cap, t, n, ready) && n < |t|
    ensures ready != [] && ready[0] == t[n]
  {
    hide Freed, KahnInv, Closed, SimpleLists;
    assert ready != [];
    HeadComesNext(g, cap, ready, t[..n]);
    assert (t[..n] + [ready[0]])[n] == ready[0];
  }

  lemma {:induction false} StateAt(g: Graph, cap: nat, t: seq<string>, first: seq<string>, n: nat) returns (ready: seq<string>)
    requires OnTheWay(g, cap, t, 0, first) && n <= |t|
    ensures OnTheWay(g, cap, t, n, ready)
  {
    hide *;
    if n == 0 {
      ready := first;
    } else {
      var before := StateAt(g, cap, t, first, n - 1);
      Goes(g, cap, t, n - 1, before);
      ready := before[1..] + Freed(g, t[..n], g[t[n - 1]]);
    }
  }

  /** At every state, out or ready are exactly the free nodes, and they are the next ones of the order. */
  lemma StateMeans(g: Graph, cap: nat, t: seq<string>, n: nat, ready: seq<string>, v: string)
    requires OnTheWay(g, cap, t, n, ready) && v in g
    ensures v in t[..n] + ready <==> AllPredsIn(g, t[..n], v)
    ensures t[..n] + ready <= t
  {
    hide KahnFrom, AllPredsIn, Closed, SimpleLists;
    QueueComesOut(g, cap, ready, t[..n]);
  }

  lemma FirstsComeFirst(t: seq<string>, p: seq<string>, u: string, v: string)
    requires p <= t && u in p && v in t && v !in p
    ensures Before(t, u, v)
  {
    var i :| 0 <= i < |p| && p[i] == u;
    var j :| 0 <= j < |t| && t[j] == v;
    assert t[i] == u;
    InBeginning(t, p, j);
  }

  lemma BeginningBefore(t: seq<string>, p: seq<string>, u: string, v: string)
    requires p <= t && Before(p, u, v)
    ensures Before(t, u, v)
  {
    var i, j :| 0 <= i < j < |p| && p[i] == u && p[j] == v;
    assert t[i] == u && t[j] == v;
  }

  lemma {:induction false} FreedInOrder(g: Graph, done: seq<string>, s: seq<string>, u: string, v: string)
    requires Before(s, u, v) && AllPredsIn(g, done, u) && AllPredsIn(g, done, v)
    ensures Before(Freed(g, done, s), u, v)
  {
    hide AllPredsIn;
    var i, j :| 0 <= i < j < |s| && s[i] == u && s[j] == v;
    var n := |s| - 1;
    var init, x := s[..n], s[n];
    assert s == init + [x];
    FreedSnoc(g, done, init, x);
    var r := Freed(g, done, init);
    if j < n {
      assert init[i] == u && init[j] == v;
      FreedInOrder(g, done, init, u, v);
      BeforeInParts(r, [x], u, v);
    } else {
      assert init[i] == u && u in init;
      BeforeInParts(r, [x], u, v);
    }
  }

  lemma {:induction false} DropInOrder(s: seq<string>, x: string, u: string, v: string)
    requires Before(s, u, v) && u != x && v != x
    ensures Before(Drop(s, x), u, v)
  {
    var i, j :| 0 <= i < j < |s| && s[i] == u && s[j] == v;
    var n := |s| - 1;
    var init, y := s[..n], s[n];
    assert s == init + [y];
    var r := Drop(init, x);
    if j < n {
      assert init[i] == u && init[j] == v;
      DropInOrder(init, x, u, v);
      BeforeInParts(r, [y], u, v);
    } else {
      assert init[i] == u && u in init;
      BeforeInParts(r, [y], u, v);
    }
  }

  /** The entry goes to the front, and the others keep their order. */
  lemma FrontInOrder(s: seq<string>, first: string, u: string, v: string)
    requires u in s && v in s && u != v
    requires u == first || (v != first && Before(s, u, v))
    ensures Before(FrontLoad(s, first), u, v)
  {
    hide Keep, Drop, Before;
    if u != first {
      DropInOrder(s, first, u, v);
    }
    BeforeInParts(Keep(s, first), Drop(s, first), u, v);
  }

  lemma RootsInOrder(g: Graph, ids: seq<string>, entry: string, u: string, v: string)
    requires u in ids && v in ids && u != v && AllPredsIn(g, [], u) && AllPredsIn(g, [], v)
    requires u == entry || (v != entry && Before(ids, u, v))
    ensures Before(InitialReady(g, ids, entry), u, v)
  {
    hide AllPredsIn, FrontLoad, Before;
    if u != entry {
      FreedInOrder(g, [], ids, u, v);
    }
    FrontInOrder(Freed(g, [], ids), entry, u, v);
  }

  /** The later of two nodes is not free yet when the earlier one is. */
  lemma EarlierFirst(g: Graph, cap: nat, t: seq<string>, first: seq<string>, u: string, v: string, n: nat, m: nat)
    requires OnTheWay(g, cap, t, 0, first) && u in g && v in g && v in t
    requires FreeAt(g, t, u, n) && FreeAt(g, t, v, m) && n < m
    ensures Before(t, u, v)
  {
    FreeMeans(g, t, u, n, n);
    FreeMeans(g, t, v, m, n);
    hide *;
    var ready := StateAt(g, cap, t, first, n);
    StateMeans(g, cap, t, n, ready, u);
    StateMeans(g, cap, t, n, ready, v);
    FirstsComeFirst(t, t[..n] + ready, u, v);
  }

  lemma FreeMeans(g: Graph, t: seq<string>, v: string, n: nat, k: nat)
    requires FreeAt(g, t, v, n)
    ensures n <= |t|
    ensures AllPredsIn(g, t[..n], v) && (k < n ==> !AllPredsIn(g, t[..k], v))
  {
    hide AllPredsIn;
  }

  /** What the `n`-th node frees is what was not free before it and is now, in the order of its successors. */
  lemma TogetherInOrder(g: Graph, cap: nat, t: seq<string>, first: seq<string>, u: string, v: string, n: nat)
    requires OnTheWay(g, cap, t, 0, first) && 0 < n
    requires FreeAt(g, t, u, n) && FreeAt(g, t, v, n)
    requires t[n - 1] in g && Before(g[t[n - 1]], u, v)
    ensures Before(t, u, v)
  {
    FreeMeans(g, t, u, n, 0);
    FreeMeans(g, t, v, n, 0);
    hide *;
    var before := StateAt(g, cap, t, first, n - 1);
    Goes(g, cap, t, n - 1, before);
    var freed := Freed(g, t[..n], g[t[n - 1]]);
    FreedInOrder(g, t[..n], g[t[n - 1]], u, v);
    BeforeInParts(before[1..], freed, u, v);
    BeforeInParts(t[..n], before[1..] + freed, u, v);
    StateMeans(g, cap, t, n, before[1..] + freed, t[n - 1]);
    BeginningBefore(t, t[..n] + (before[1..] + freed), u, v);
  }

  lemma RootsFirst(g: Graph, cap: nat, t: seq<string>, ids: seq<string>, entry: string, u: string, v: string)
    requires OnTheWay(g, cap, t, 0, InitialReady(g, ids, entry)) && u in ids && v in ids && u != v && u in g
    requires FreeAt(g, t, u, 0) && FreeAt(g, t, v, 0)
    requires u == entry || (v != entry && Before(ids, u, v))
    ensures Before(t, u, v)
  {
    FreeMeans(g, t, u, 0, 0);
    FreeMeans(g, t, v, 0, 0);
    assert t[..0] == [];
    hide *;
    var ready := InitialReady(g, ids, entry);
    RootsInOrder(g, ids, entry, u, v);
    StateMeans(g, cap, t, 0, ready, u);
    assert [] + ready == ready;
    BeginningBefore(t, ready, u, v);
  }

  lemma RunKeepsRule(g: Graph, cap: nat, t: seq<string>, ids: seq<string>, entry: string)
    requires OnTheWay(g, cap, t, 0, InitialReady(g, ids, entry))
    requires forall v :: v in t ==> v in g && v in ids
    ensures QueueOrder(g, ids, entry, t)
  {
    hide OnTheWay, AllPredsIn, Before, InitialReady;
    var first := InitialReady(g, ids, entry);
    forall u, v, n, m | u in t && v in t && u != v && FreeAt(g, t, u, n) && FreeAt(g, t, v, m)
                        && (n < m || (n == m && Precedes(g, ids, entry, t, n, u, v)))
      ensures Before(t, u, v)
    {
      if n < m {
        EarlierFirst(g, cap, t, first, u, v, n, m);
      } else if n == 0 {
        RootsFirst(g, cap, t, ids, entry, u, v);
      } else {
        TogetherInOrder(g, cap, t, first, u, v, n);
      }
    }
  }

  // ---------------------------------------------------------------- the rule determines the order

  lemma FreeSomewhere(g: Graph, t: seq<string>, k: nat) returns (n: nat)
    requires PredsFirst(g, t) && k < |t|
    ensures n <= k && FreeAt(g, t, t[k], n)
  {
    hide AllPredsIn;
    n := 0;
    while !AllPredsIn(g, t[..n], t[k])
      invariant n <= k && forall m :: 0 <= m < n ==> !AllPredsIn(g, t[..m], t[k])
      decreases k - n
    {
      n := n + 1;
    }
  }

  lemma FreeAlike(g: Graph, t: seq<string>, s: seq<string>, k: nat, v: string, n: nat)
    requires k <= |t| && k <= |s| && t[..k] == s[..k] && n <= k && FreeAt(g, t, v, n)
    ensures FreeAt(g, s, v, n)
  {
    hide AllPredsIn;
    forall m | 0 <= m <= n
      ensures t[..m] == s[..m]
    {
      assert t[..m] == t[..k][..m] && s[..m] == s[..k][..m];
    }
  }

  lemma OneWay(s: seq<string>, u: string, v: string)
    requires u in s && v in s && u != v
    ensures Before(s, u, v) || Before(s, v, u)
  {
    var i :| 0 <= i < |s| && s[i] == u;
    var j :| 0 <= j < |s| && s[j] == v;
  }

  lemma FreedIsSuccessor(g: Graph, t: seq<string>, v: string, n: nat)
    requires FreeAt(g, t, v, n) && n > 0
    ensures t[n - 1] in g && v in g[t[n - 1]]
  {
    assert !AllPredsIn(g, t[..n - 1], v);
    var u :| Edge(g, u, v) && u !in t[..n - 1];
    assert u in t[..n] && t[..n] == t[..n - 1] + [t[n - 1]];
  }

  /** Of two nodes one comes first by the rule. */
  lemma RuleDecides(g: Graph, ids: seq<string>, entry: string, t: seq<string>, u: string, v: string, n: nat, m: nat)
    requires FreeAt(g, t, u, n) && FreeAt(g, t, v, m) && u != v && u in ids && v in ids && u in t && v in t
    requires n <= |t| && m <= |t|
    requires QueueOrder(g, ids, entry, t) && Distinct(t)
    ensures Before(t, u, v) <==> n < m || (n == m && Precedes(g, ids, entry, t, n, u, v))
  {
    hide FreeAt, Before, Distinct;
    if n == m && !Precedes(g, ids, entry, t, n, u, v) {
      if n > 0 {
        FreedIsSuccessor(g, t, u, n);
        FreedIsSuccessor(g, t, v, n);
        OneWay(g[t[n - 1]], u, v);
      } else {
        OneWay(ids, u, v);
      }
      assert Precedes(g, ids, entry, t, n, v, u);
    }
    if n > m || (n == m && !Precedes(g, ids, entry, t, n, u, v)) {
      assert Before(t, v, u);
    }
    if Before(t, u, v) {
      BeforeIsStrict(t, u, v);
    }
  }

  lemma AtTheFork(t: seq<string>, s: seq<string>, k: nat)
    requires Distinct(t) && Distinct(s) && Elements(t) == Elements(s) && k < |t| && k < |s|
    requires t[..k] == s[..k] && t[k] != s[k]
    ensures Before(t, t[k], s[k]) && Before(s, s[k], t[k])
    ensures t[k] in s && s[k] in t
  {
    assert t[k] in Elements(s) && s[k] in Elements(t);
    var j :| 0 <= j < |t| && t[j] == s[k];
    var i :| 0 <= i < |s| && s[i] == t[k];
    forall n | 0 <= n < k
      ensures t[n] == s[n]
    {
      assert t[..k][n] == s[..k][n];
    }
  }

  lemma SamePrecedes(g: Graph, ids: seq<string>, entry: string, t: seq<string>, s: seq<string>, k: nat, n: nat, u: string, v: string)
    requires n <= k <= |t| && k <= |s| && t[..k] == s[..k]
    ensures Precedes(g, ids, entry, t, n, u, v) <==> Precedes(g, ids, entry, s, n, u, v)
  {
    hide Before;
    assert n > 0 ==> t[n - 1] == t[..k][n - 1] == s[..k][n - 1] == s[n - 1];
  }

  lemma {:induction false} RuleDetermines(g: Graph, ids: seq<string>, entry: string, t: seq<string>, s: seq<string>, k: nat)
    requires Distinct(t) && Distinct(s) && Elements(t) == Elements(s) == Elements(ids)
    requires PredsFirst(g, t) && PredsFirst(g, s) && QueueOrder(g, ids, entry, t) && QueueOrder(g, ids, entry, s)
    requires k <= |t| && |t| == |s|
    ensures t[..k] == s[..k]
  {
    hide PredsFirst, QueueOrder, Distinct, FreeAt, Before, Precedes;
    if k > 0 {
      RuleDetermines(g, ids, entry, t, s, k - 1);
      var u, v := t[k - 1], s[k - 1];
      if u != v {
        AtTheFork(t, s, k - 1);
        var n := FreeSomewhere(g, t, k - 1);
        var m := FreeSomewhere(g, s, k - 1);
        FreeAlike(g, t, s, k - 1, u, n);
        FreeAlike(g, s, t, k - 1, v, m);
        InBoth(ids, t, u, v);
        RuleDecides(g, ids, entry, t, u, v, n, m);
        RuleDecides(g, ids, entry, s, u, v, n, m);
        SamePrecedes(g, ids, entry, t, s, k - 1, n, u, v);
        BeforeIsStrict(s, v, u);
      }
      assert t[..k] == t[..k - 1] + [t[k - 1]] && s[..k] == s[..k - 1] + [s[k - 1]];
    }
  }

  lemma InBoth(ids: seq<string>, t: seq<string>, u: string, v: string)
    requires Elements(t) == Elements(ids) && u in t && v in t
    ensures u in ids && v in ids
  {
    assert u in Elements(t) && v in Elements(t);
  }

  // ---------------------------------------------------------------- the scheduler

  lemma RunIsOnTheWay(dag: DagManifest)
    requires Topo(dag).Ok?
    ensures var g, ids := Adjacency(dag.nodes), Ids(dag.nodes);
            OnTheWay(g, dag.maxSteps, Topo(dag).value, 0, InitialReady(g, ids, dag.entry))
  {
    TopoCharacterised(dag);
    RunOfTopo(dag);
    AdjacencyLists(dag.nodes);
    DistinctNodeIds(dag.nodes);
    hide Adjacency, Topo, Cyclic, NoMissing, KahnInv, InitialReady, KahnFrom, SimpleLists, Closed, TopoOrder, UniqueIds;
    var g, ids := Adjacency(dag.nodes), Ids(dag.nodes);
    InitialInv(g, ids, dag.entry);
    InitialMembers(g, ids, dag.entry);
    assert Topo(dag).value[..0] == [];
  }

  lemma DistinctNodeIds(nodes: seq<DagNode>)
    requires UniqueIds(nodes)
    ensures Distinct(Ids(nodes))
  {
  }

  /** The order that is returned is the one topological order that follows the rule. */
  lemma TopoIsQueueOrder(dag: DagManifest, t: seq<string>)
    requires Topo(dag).Ok?
    ensures var g := Adjacency(dag.nodes);
            t == Topo(dag).value <==> TopoOrder(g, t) && QueueOrder(g, Ids(dag.nodes), dag.entry, t)
  {
    hide *;
    var g, ids, r := Adjacency(dag.nodes), Ids(dag.nodes), Topo(dag).value;
    TopoCharacterised(dag);
    RunOfTopo(dag);
    RunIsOnTheWay(dag);
    OrderParts(g, r);
    forall v | v in r
      ensures v in g && v in ids
    {
      KeyOfElements(g, ids, r, v);
    }
    RunKeepsRule(g, dag.maxSteps, r, ids, dag.entry);
    if TopoOrder(g, t) && QueueOrder(g, ids, dag.entry, t) {
      OrderParts(g, t);
      DistinctSize(t);
      DistinctSize(r);
      RuleDetermines(g, ids, dag.entry, t, r, |t|);
      assert t[..|t|] == t && r[..|r|] == r;
    }
  }

  lemma OrderParts(g: Graph, t: seq<string>)
    requires TopoOrder(g, t)
    ensures Distinct(t) && PredsFirst(g, t) && Elements(t) == g.Keys
  {
  }

  lemma KeyOfElements(g: Graph, ids: seq<string>, t: seq<string>, v: string)
    requires Elements(t) == g.Keys == Elements(ids) && v in t
    ensures v in g && v in ids
  {
    assert v in Elements(t);
    assert v in Elements(ids);
  }

  /** In particular, nodes other than the entry that nothing points at come out in the order of the node list. */
  lemma RootsKeepNodeOrder(dag: DagManifest, u: string, v: string)
    requires Topo(dag).Ok? && u != dag.entry && v != dag.entry && Before(Ids(dag.nodes), u, v)
    requires forall w :: !Edge(Adjacency(dag.nodes), w, u) && !Edge(Adjacency(dag.nodes), w, v)
    ensures Before(Topo(dag).value, u, v)
  {
    hide Topo, Adjacency, TopoOrder, Before, Ids, Distinct, Elements, Edge;
    var g, ids, t := Adjacency(dag.nodes), Ids(dag.nodes), Topo(dag).value;
    TopoIsQueueOrder(dag, t);
    RunOfTopo(dag);
    TopoCharacterised(dag);
    OrderParts(g, t);
    DistinctNodeIds(dag.nodes);
    BeforeIsStrict(ids, u, v);
    ListedIn(ids, t, g, u);
    ListedIn(ids, t, g, v);
    NoneBefore(g, t, u);
    NoneBefore(g, t, v);
    assert Precedes(g, ids, dag.entry, t, 0, u, v);
  }

  lemma ListedIn(ids: seq<string>, t: seq<string>, g: Graph, v: string)
    requires Elements(t) == g.Keys == Elements(ids) && v in ids
    ensures v in t
  {
    assert v in Elements(ids);
    assert v in Elements(t);
  }

  lemma NoneBefore(g: Graph, t: seq<string>, v: string)
    requires forall w :: !Edge(g, w, v)
    ensures FreeAt(g, t, v, 0)
  {
    hide Edge;
  }
}
