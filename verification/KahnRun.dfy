/**
 The reference scheduler: a FIFO run that emits a node once all its predecessors are out.
 It keeps no counters, so its meaning can be read off `AllPredsIn`; the counting loop of
 `BoundedDag.TopoNodeIds` is proved to compute exactly this run.
 */
module KahnRun {
  import opened Wrappers
  import opened Digraph

  /** The members of `candidates` all of whose predecessors are in `done`, in the same order. */
  ghost function Freed(g: Graph, done: seq<string>, candidates: seq<string>): (r: seq<string>)
    ensures forall v :: v in r <==> v in candidates && AllPredsIn(g, done, v)
    ensures Distinct(candidates) ==> Distinct(r)
    ensures |r| <= |candidates|
  {
    if candidates == [] then []
    else
      var n := |candidates| - 1;
      var rest := Freed(g, done, candidates[..n]);
      var x := candidates[n];
      assert candidates == candidates[..n] + [x];
      assert Distinct(candidates) ==> Distinct(candidates[..n]) && x !in candidates[..n] by {
        DistinctSnoc(candidates[..n], x);
      }
      DistinctSnoc(rest, x);
      if AllPredsIn(g, done, x) then rest + [x] else rest
  }

  lemma FreedSnoc(g: Graph, done: seq<string>, s: seq<string>, x: string)
    ensures Freed(g, done, s + [x]) == if AllPredsIn(g, done, x) then Freed(g, done, s) + [x] else Freed(g, done, s)
  {
    assert (s + [x])[..|s|] == s;
  }

  /** A stable sort by "is it `first`?": `first` moves to the front, everything else keeps its place. */
  function FrontLoad(s: seq<string>, first: string): (r: seq<string>)
    ensures forall v :: v in r <==> v in s
    ensures Distinct(s) ==> Distinct(r)
    ensures Distinct(s) && first in s ==> r[0] == first
  {
    DistinctParts(Keep(s, first), Drop(s, first));
    assert first in s ==> first in Keep(s, first);
    assert Keep(s, first) != [] ==> Keep(s, first)[0] in Keep(s, first);
    Keep(s, first) + Drop(s, first)
  }

  function Keep(s: seq<string>, x: string): (r: seq<string>)
    ensures forall v :: v in r <==> v in s && v == x
    ensures Distinct(s) ==> Distinct(r)
  {
    if s == [] then []
    else
      var n := |s| - 1;
      var rest := Keep(s[..n], x);
      assert s == s[..n] + [s[n]];
      DistinctSnoc(s[..n], s[n]);
      DistinctSnoc(rest, s[n]);
      if s[n] == x then rest + [s[n]] else rest
  }

  function Drop(s: seq<string>, x: string): (r: seq<string>)
    ensures forall v :: v in r <==> v in s && v != x
    ensures Distinct(s) ==> Distinct(r)
  {
    if s == [] then []
    else
      var n := |s| - 1;
      var rest := Drop(s[..n], x);
      assert s == s[..n] + [s[n]];
      DistinctSnoc(s[..n], s[n]);
      DistinctSnoc(rest, s[n]);
      if s[n] == x then rest else rest + [s[n]]
  }

  ghost function InitialReady(g: Graph, ids: seq<string>, entry: string): (r: seq<string>)
    ensures forall v :: v in r <==> v in ids && AllPredsIn(g, [], v)
    ensures Distinct(ids) ==> Distinct(r)
    ensures Distinct(ids) && entry in r ==> r[0] == entry
  {
    FrontLoad(Freed(g, [], ids), entry)
  }

  /** `None` when the step cap stops the run with nodes still ready. */
  ghost function KahnFrom(g: Graph, cap: nat, ready: seq<string>, order: seq<string>): (r: Option<seq<string>>)
    requires forall v :: v in ready ==> v in g
    requires Closed(g)
    ensures r.Some? ==> order <= r.value
    decreases cap - |order|
  {
    if ready == [] then Some(order)
    else if |order| >= cap then None
    else
      var order' := order + [ready[0]];
      assert ready[0] in ready;
      assert forall v :: v in g[ready[0]] ==> Edge(g, ready[0], v);
      KahnFrom(g, cap, ready[1..] + Freed(g, order', g[ready[0]]), order')
  }

  lemma InitialMembers(g: Graph, ids: seq<string>, entry: string)
    requires Elements(ids) == g.Keys
    ensures forall v :: v in InitialReady(g, ids, entry) ==> v in g
  {
    forall v | v in InitialReady(g, ids, entry)
      ensures v in g
    {
      assert v in Elements(ids);
    }
  }

  /** The run over a whole graph whose nodes are listed as `ids`. */
  ghost function Run(g: Graph, cap: nat, ids: seq<string>, entry: string): Option<seq<string>>
    requires Closed(g) && Elements(ids) == g.Keys
  {
    InitialMembers(g, ids, entry);
    KahnFrom(g, cap, InitialReady(g, ids, entry), [])
  }

  lemma HeadComesNext(g: Graph, cap: nat, ready: seq<string>, order: seq<string>)
    requires (forall v :: v in ready ==> v in g) && Closed(g) && ready != []
    requires KahnFrom(g, cap, ready, order).Some?
    ensures order + [ready[0]] <= KahnFrom(g, cap, ready, order).value
  {
  }

  /** The first two of the ready list are the first two of the order. */
  lemma TwoComeNext(g: Graph, cap: nat, ready: seq<string>)
    requires (forall v :: v in ready ==> v in g) && Closed(g) && |ready| >= 2
    requires KahnFrom(g, cap, ready, []).Some?
    ensures [ready[0], ready[1]] <= KahnFrom(g, cap, ready, []).value
  {
    hide Freed;
    var x, y := ready[0], ready[1];
    assert x in ready && [] + [x] == [x];
    var next := ready[1..] + Freed(g, [x], g[x]);
    forall v | v in next
      ensures v in g
    {
      if v in g[x] {
        assert Edge(g, x, v);
      }
    }
    assert KahnFrom(g, cap, ready, []) == KahnFrom(g, cap, next, [x]);
    assert next != [] && next[0] == y && [x] + [y] == [x, y];
    HeadComesNext(g, cap, next, [x]);
  }

  /** What every state of the run satisfies. */
  ghost predicate KahnInv(g: Graph, ready: seq<string>, order: seq<string>)
  {
    && Distinct(order + ready)
    && (forall v :: v in g ==> (v in order || v in ready <==> AllPredsIn(g, order, v)))
    && (forall v :: v in order || v in ready ==> v in g)
    && PredsFirst(g, order)
  }

  lemma PredsFirstSnoc(g: Graph, order: seq<string>, x: string)
    requires PredsFirst(g, order) && AllPredsIn(g, order, x)
    ensures PredsFirst(g, order + [x])
  {
    var t := order + [x];
    forall i | 0 <= i < |t|
      ensures AllPredsIn(g, t[..i], t[i])
    {
      assert t[..i] == order[..i];
      assert i == |order| ==> order[..i] == order;
    }
  }

  lemma InitialInv(g: Graph, ids: seq<string>, entry: string)
    requires Distinct(ids) && Elements(ids) == g.Keys
    ensures KahnInv(g, InitialReady(g, ids, entry), [])
  {
    hide InitialReady, AllPredsIn, Distinct;
    var r := InitialReady(g, ids, entry);
    assert Distinct([] + r) by {
      assert [] + r == r;
    }
    assert forall v :: v in g <==> v in ids by {
      assert forall v :: v in g.Keys <==> v in Elements(ids);
    }
    assert forall v :: v in g ==> (v in r <==> AllPredsIn(g, [], v));
    assert forall v :: v in r ==> v in g;
  }

  /** Successors of the node being emitted were neither emitted nor ready. */
  lemma SuccessorsAreNew(g: Graph, ready: seq<string>, order: seq<string>)
    requires KahnInv(g, ready, order) && ready != [] && Closed(g)
    ensures forall v :: v in g[ready[0]] ==> v !in order && v !in ready
  {
    DistinctParts(order, ready);
    forall v | v in g[ready[0]]
      ensures v !in order && v !in ready
    {
      assert Edge(g, ready[0], v);
      assert ready[0] in ready;
    }
  }

  lemma StepDistinct(g: Graph, ready: seq<string>, order: seq<string>)
    requires KahnInv(g, ready, order) && ready != [] && Closed(g) && SimpleLists(g)
    ensures var order' := order + [ready[0]];
            Distinct(order' + (ready[1..] + Freed(g, order', g[ready[0]])))
  {
    hide Freed, AllPredsIn, Edge, Distinct;
    var order' := order + [ready[0]];
    var freed := Freed(g, order', g[ready[0]]);
    assert ready[0] in ready;
    SuccessorsAreNew(g, ready, order);
    assert order' + ready[1..] == order + ready;
    assert order' + (ready[1..] + freed) == (order + ready) + freed;
    DistinctParts(order + ready, freed);
  }

  lemma StepMembers(g: Graph, ready: seq<string>, order: seq<string>, v: string)
    requires KahnInv(g, ready, order) && ready != [] && Closed(g)
    ensures var order' := order + [ready[0]];
            var ready' := ready[1..] + Freed(g, order', g[ready[0]]);
            && (v in g ==> (v in order' || v in ready' <==> AllPredsIn(g, order', v)))
            && (v in order' || v in ready' ==> v in g)
  {
    var u := ready[0];
    assert ready == [u] + ready[1..];
    var order' := order + [u];
    assert v in order' || v in ready[1..] <==> v in order || v in ready;
    assert v in g[u] <==> Edge(g, u, v);
    if AllPredsIn(g, order, v) {
      assert AllPredsIn(g, order', v);
    } else if AllPredsIn(g, order', v) {
      assert v in g[u];
    }
  }

  lemma StepKeepsInv(g: Graph, ready: seq<string>, order: seq<string>)
    requires KahnInv(g, ready, order) && ready != [] && Closed(g) && SimpleLists(g)
    ensures var order' := order + [ready[0]];
            KahnInv(g, ready[1..] + Freed(g, order', g[ready[0]]), order')
  {
    var order' := order + [ready[0]];
    var ready' := ready[1..] + Freed(g, order', g[ready[0]]);
    StepDistinct(g, ready, order);
    forall v
      ensures v in g ==> (v in order' || v in ready' <==> AllPredsIn(g, order', v))
      ensures v in order' || v in ready' ==> v in g
    {
      StepMembers(g, ready, order, v);
    }
    assert ready[0] in ready;
    PredsFirstSnoc(g, order, ready[0]);
  }

  /** A finished run emits exactly the nodes no cycle reaches; a capped one had more of them than `cap`. */
  lemma {:induction false} RunOutcome(g: Graph, cap: nat, ready: seq<string>, order: seq<string>)
    requires KahnInv(g, ready, order) && Closed(g) && SimpleLists(g) && |order| <= cap
    ensures var r := KahnFrom(g, cap, ready, order);
            && (r.Some? <==> |Clean(g)| <= cap)
            && (r.Some? ==> Distinct(r.value) && PredsFirst(g, r.value) && Elements(r.value) == Clean(g))
    decreases cap - |order|
  {
    if ready == [] {
      assert order + ready == order;
      RunComplete(g, order);
      DistinctSize(order);
    } else if |order| >= cap {
      var more := order + [ready[0]];
      DistinctParts(order, ready);
      assert ready[0] in ready;
      DistinctSnoc(order, ready[0]);
      PredsFirstSnoc(g, order, ready[0]);
      OrderedIsClean(g, more);
      DistinctSize(more);
      SubsetSize(Elements(more), Clean(g));
    } else {
      StepKeepsInv(g, ready, order);
      var order' := order + [ready[0]];
      RunOutcome(g, cap, ready[1..] + Freed(g, order', g[ready[0]]), order');
    }
  }

  lemma RunComplete(g: Graph, order: seq<string>)
    requires KahnInv(g, [], order)
    ensures Elements(order) == Clean(g)
  {
    assert order + [] == order;
    OrderedIsClean(g, order);
    var rest := g.Keys - Elements(order);
    forall w {:trigger HasPredIn(g, rest, w)} | w in rest
      ensures HasPredIn(g, rest, w)
    {
      assert w in g && w !in order;
      var u :| Edge(g, u, w) && u !in order;
      assert u in rest;
    }
    forall v | v in Clean(g)
      ensures v in order
    {
      if v !in order {
        StuckIsBlocked(g, rest, v);
      }
    }
  }
}
